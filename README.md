# SocialCalc text utilities, modelled in Dafny

This project models the spreadsheet text-format utilities of the Go backend
(`pkg/socialcalc.go`). Those utilities move between two line formats:

- the **compact format**, one `coord:value` line per cell;
- the **expanded format**, records `version:1.4`, `cell:C:t:text`,
  `cell:C:v:number`, `cell:C:vtf:n:0:formula` and `sheet:c:10:r:20`.

What is modelled:

- **Parser.** `ParseTouchCalcMSC` turns compact text into the expanded format.
- **Converter.** `ConvertSocialCalcToMSC` turns expanded text back into compact lines.
- **Default document.** `CreateDefaultTouchCalcData` builds the canned starting document.
- **Coordinate grammar.** `isValidCoordinate` is stated as a predicate equivalent to `^[A-Z]+[0-9]+$`.
- **Escape codec.** `escapeForSocialCalc` and `unescapeFromSocialCalc` use `\b`, `\n` and `\c`.
- **Coordinate codec.** `CoordinateToRowCol` and `RowColToCoordinate` read the column as bijective base 26 (A = 1, Z = 26, AA = 27).
- **Validator.** `ValidateSocialCalcData` checks the structure of expanded text.

The functions that work by loops are methods with loop invariants. Each is
proved against a specification function:

| method | specification |
|---|---|
| `ParseTouchCalcMSC` | `ExpandedLines` |
| `ConvertSocialCalcToMSC` | `FilterMap(CompactFromRecord, …)` |
| `ValidateSocialCalcData` | `WellFormed` and `CellError` |
| `CoordinateToRowCol` | `CoordinateValue` |
| `RowColToCoordinate` | `EncodeCoordinate` |

The string functions of Go's `strings` package that the code relies on are
defined in `GoStrings`: `Split`, `SplitN(…, 2)`, `Join`, `TrimSpace`,
`HasPrefix`, `TrimPrefix` and `ReplaceAll`.

Modules, in dependency order:

- `Options`: `Option` and a filter-map over sequences.
- `GoStrings`
- `Coordinates`
- `Escaping`
- `Records`: the two record shapes the parser writes.
- `Parser`
- `Converter`
- `Validator`
- `DefaultDocument`
- `RoundTrips`: the properties that relate the parser, the converter and the validator.

Behaviour of the code that the model states, and that a reader might not
expect:

- **Escaping.** The escape round trip holds for every string, including strings
  that already contain `\b`, `\n` or `\c` sequences. Backslash is escaped first
  and unescaped last.
- **Coordinates.** `CoordinateToRowCol` accepts row `0` (`A0`) and leading zeros
  (`A01`). Only a string outside the grammar is an error.
- **Validator reports.** The validator numbers lines over the unfiltered split,
  blank lines included. It reports the first bad cell line in preference to a
  missing version header. For a bad coordinate, the error carries only the
  coordinate, not the line.
- **Parse then convert.** Converting the parser's output gives back each kept
  compact line as its trimmed coordinate, a colon and its trimmed value, so
  white space at the ends of the line and around its first colon is lost.
  On top of that there are two losses:
  - a line whose value is empty disappears;
  - a formula is cut at its first colon, because the converter keeps only the
    sixth field.

  Compact text whose lines are all canonical comes back as itself, without
  its surrounding white space. A canonical line is a coordinate with no
  white space around it, a colon, and a non-empty value with no white space
  at either end and, for a formula, no colon.
- **The default document.** It writes its texts unescaped. Converting it back
  therefore drops the final colon of every caption that ends in one: the
  `Try these features:` heading at A5 and the `Storage Backend:` caption at
  B3. The storage label at C3 loses its trailing white space and is then cut
  at its first colon before it is unescaped, so white space just before that
  colon stays.

## Model

| member | source | states |
|---|---|---|
| GoStrings.TrimSpace | pkg/socialcalc.go:14 | the result has no white space at either end, and a string already trimmed is returned unchanged; TrimSpaceRemovesOnlySpace completes this to exactly `strings.TrimSpace` |
| GoStrings.TrimSpaceRemovesOnlySpace | pkg/socialcalc.go:14 | the result of TrimSpace is a slice of the input with only white space before and after it, and it is trimmed itself: exactly the leading and trailing white space is removed |
| GoStrings.HasPrefixMeaning | pkg/socialcalc.go:40 | a string has a prefix exactly when it is that prefix followed by some rest |
| GoStrings.Split | pkg/socialcalc.go:68 | n separators give n + 1 parts, none holds the separator, and joining them with the separator gives back the input |
| GoStrings.SplitOnce | pkg/socialcalc.go:26-27 | two parts exactly when the separator occurs; then they are the text before the first separator and everything after it; otherwise the input alone |
| GoStrings.TrimPrefix | pkg/socialcalc.go:42 | with the prefix present, prefix + result is the input; otherwise the input is returned |
| GoStrings.JoinSnoc | pkg/socialcalc.go:54 | joining one more part appends the separator and that part: the separator stands between neighbours only |
| GoStrings.JoinAvoids | pkg/socialcalc.go:54 | no character enters a joined string except through a part or the separator |
| GoStrings.ReplaceAllHit | pkg/socialcalc.go:135-145 | a step of the definition, used by EscapeStep and UnescapeStep: at an occurrence of the pattern, ReplaceAll writes the replacement and goes on after the occurrence |
| GoStrings.ReplaceAllMiss | pkg/socialcalc.go:135-145 | a step of the definition, used by EscapeStep and UnescapeStep: where the pattern does not start, ReplaceAll keeps the character and goes on after it |
| GoStrings.ReplaceAllAbsent | pkg/socialcalc.go:135-145 | a string without the pattern's first character is left unchanged |
| GoStrings.SplitJoin | pkg/socialcalc.go:54-59 | splitting separator-free lines joined by the separator gives the lines back |
| GoStrings.SplitJoinSnoc | pkg/socialcalc.go:43-47 | splitting separator-free head fields joined with an arbitrary last field gives the head fields and then the pieces of the last field |
| Coordinates.IsValidCoordinate | pkg/socialcalc.go:127-131 | true exactly when the string is a non-empty run of A–Z followed by a non-empty run of 0–9; a valid coordinate holds only letters and digits |
| Coordinates.CoordinateAvoids | pkg/socialcalc.go:127-131 | a valid coordinate contains no character other than upper-case letters and digits |
| Coordinates.CoordinateToRowCol | pkg/socialcalc.go:150-178 | fails exactly on strings outside the grammar, with (0, 0) and the coordinate in the error; otherwise returns the decimal value of the digits and the bijective base-26 value of the letters |
| Coordinates.RowColToCoordinate | pkg/socialcalc.go:181-195 | "" exactly when row or column is below 1; otherwise a valid coordinate that decodes to exactly (row, col) |
| Coordinates.DecodeEncode | pkg/socialcalc.go:150-195 | for row, col ≥ 1, decoding the encoded coordinate gives back (row, col) |
| Coordinates.EncodeDecode | pkg/socialcalc.go:150-195 | a valid coordinate without a leading zero in its row decodes to a position ≥ (1, 1) whose encoding is the coordinate itself |
| Coordinates.ColumnValueOfLetters | pkg/socialcalc.go:166-191 | the column loop of CoordinateToRowCol inverts the letter loop of RowColToCoordinate |
| Coordinates.LettersOfColumnValue | pkg/socialcalc.go:166-191 | every non-empty run of letters is the encoding of its own column value |
| Coordinates.DigitsOfDecimalValue | pkg/socialcalc.go:172-195 | a digit run without a leading zero is the `%d` rendering of its value, and its value is at least 1 unless it is "0" |
| Escaping.Escape | pkg/socialcalc.go:133-139 | the three replacements escape each backslash, newline and colon one character at a time; the result holds no colon and no newline |
| Escaping.EscapeIsCharwise | pkg/socialcalc.go:133-139 | the three ReplaceAll calls, in their order, equal the character-wise escape |
| Escaping.EscapeStep | pkg/socialcalc.go:135-137 | each escaping ReplaceAll adds one character to the set of escaped characters, since backslash goes first |
| Escaping.UnescapeStep | pkg/socialcalc.go:143-145 | each unescaping ReplaceAll removes one character from the escaped set while backslash is still escaped |
| Escaping.UnescapeEscape | pkg/socialcalc.go:133-147 | unescaping the escape of any string gives the string back |
| Escaping.Unescape | pkg/socialcalc.go:141-147 | the three mirrored replacements leave a string without backslashes unchanged; together with UnescapeEscape they undo Escape on every string |
| Records.TextRecordText | pkg/socialcalc.go:47 | the text record is `cell:` + coordinate + `:t:` + text |
| Records.FormulaRecordText | pkg/socialcalc.go:43 | the formula record is `cell:` + coordinate + `:vtf:n:0:` + formula |
| Records.RecordTrim | pkg/socialcalc.go:63-68 | a record starts with `cell:` and trimming it removes only the white space at the end of its last field |
| Parser.ParseCompactLineMeaning | pkg/socialcalc.go:20-37 | a line is dropped exactly when it is blank, has no colon, or the trimmed text before its first colon is not a coordinate; a kept line has a valid coordinate, a trimmed value, and no newline in its value when the line had none |
| Parser.ParseTouchCalcMSC | pkg/socialcalc.go:13-55 | never fails; writes the version header, then one record per kept line in input order (a formula record without its one leading `=`, otherwise a text record of the escaped value), then the sheet footer, joined by newlines |
| Converter.CompactFromRecord | pkg/socialcalc.go:62-96 | a compact line comes only from a trimmed line that starts with `cell:` and has at least four fields; it is the second field, a colon and a non-empty value |
| Converter.NonRecordLine | pkg/socialcalc.go:63-66 | a trimmed line that does not start with `c` yields nothing |
| Converter.ConvertNonRecord | pkg/socialcalc.go:63-71 | a line whose trimmed form does not start with `cell:` or has fewer than four fields yields nothing |
| Converter.ConvertTextParts | pkg/socialcalc.go:77-81 | a record of kind `t` with at least four fields yields its second field and its unescaped fourth field, or nothing when that is empty |
| Converter.ConvertNumberParts | pkg/socialcalc.go:82-85 | a record of kind `v` with at least four fields yields its second field and its fourth field verbatim, or nothing when that is empty |
| Converter.ConvertFormulaParts | pkg/socialcalc.go:86-89 | a record of kind `vtf` with at least six fields yields its second field, `=` and its sixth field |
| Converter.ConvertShortFormulaParts | pkg/socialcalc.go:86-89 | a record of kind `vtf` with fewer than six fields yields nothing |
| Converter.ConvertOtherKindParts | pkg/socialcalc.go:90-91 | a record of any kind other than `t`, `v` and `vtf` yields nothing |
| Converter.ConvertSocialCalcToMSC | pkg/socialcalc.go:58-100 | the output is the compact line of each input line, where it has one, in input order, joined by newlines |
| Validator.CellError | pkg/socialcalc.go:211-222 | no error exactly when the line is fine; a cell line with too few fields reports the whole trimmed line, and one with a bad coordinate reports only the coordinate, both at the given line number |
| Validator.ValidateSocialCalcData | pkg/socialcalc.go:198-231 | succeeds exactly on well-formed text; otherwise reports the first bad cell line with its 1-based number, in preference to the missing version header, which is reported only when every cell line is fine |
| Validator.FirstBadLine | pkg/socialcalc.go:211-222 | the report for the first bad line at index i carries line number i + 1 and marks the text as not well formed |
| Validator.ShortCellLine | pkg/socialcalc.go:213-216 | when the first bad line is a cell line with fewer than four fields, reporting it with the whole trimmed line at number i + 1 is the validator's answer and marks the text as not well formed |
| Validator.BadCoordinateLine | pkg/socialcalc.go:219-222 | when the first bad line is a cell line whose second field is no coordinate, reporting that field at number i + 1 is the validator's answer and marks the text as not well formed |
| Validator.ScanComplete | pkg/socialcalc.go:226-230 | after a scan with every line fine, the answer is success exactly when a version line was seen, and that is exactly well-formed text |
| Validator.VersionLineIsNoCellLine | pkg/socialcalc.go:206-214 | a line that starts with `version:` does not start with `cell:` |
| Validator.NonCellLineOk | pkg/socialcalc.go:206-214 | a trimmed line that does not start with `c` is never a bad cell line, and is a version line exactly when it starts with `version:` |
| Validator.RecordOk | pkg/socialcalc.go:213-222 | a record whose colon-free head fields start with `cell` and hold a valid coordinate second passes the cell-line check whatever its last field |
| Validator.TextRecordOk | pkg/socialcalc.go:213-222 | a text record at a valid coordinate passes the cell-line check, and holds no newline when its text holds none |
| Validator.FormulaRecordOk | pkg/socialcalc.go:213-222 | a formula record at a valid coordinate passes the cell-line check, and holds no newline when its formula holds none |
| Validator.JoinedLinesWellFormed | pkg/socialcalc.go:198-231 | newline-free fine lines that include a version header, joined by newlines, split back into themselves and are well formed |
| DefaultDocument.CreateDefaultTouchCalcData | pkg/socialcalc.go:103-123 | the document starts with the version header line |
| DefaultDocument.DefaultCellsFine | pkg/socialcalc.go:106-118 | every one of the thirteen cells has a valid coordinate and newline-free content when the storage label is newline-free |
| DefaultDocument.DefaultLinesOk | pkg/socialcalc.go:104-120 | the first line is the version header and every line is newline-free and passes the cell-line check, when the storage label holds no newline |
| DefaultDocument.DefaultDocumentIsWellFormed | pkg/socialcalc.go:103-123 | when the storage label holds no newline, the document splits back into its fifteen lines and the validator accepts it |
| RoundTrips.KeptRecordOk | pkg/socialcalc.go:40-48 | the record written for a kept line holds no newline when the line held none, and passes the cell-line check |
| RoundTrips.ExpandedRecordsOk | pkg/socialcalc.go:20-49 | the records written for newline-free lines are newline-free and pass the cell-line check |
| RoundTrips.HeaderOk | pkg/socialcalc.go:18 | the version header is a version line, passes the check and converts to nothing |
| RoundTrips.FooterOk | pkg/socialcalc.go:52 | the sheet footer passes the check and converts to nothing |
| RoundTrips.ParsedIsWellFormed | pkg/socialcalc.go:13-55 | the parser's output splits back into its lines and the validator accepts it, for every input |
| RoundTrips.ConvertAnyTextRecord | pkg/socialcalc.go:62-96 | a text record converts to its coordinate and its payload without the trailing white space, cut at its first colon and unescaped (white space just before that colon stays); to nothing when that is empty |
| RoundTrips.ConvertTextRecord | pkg/socialcalc.go:77-81 | a text record whose payload has no colon and no trailing white space converts to its coordinate and the unescaped payload, or to nothing when that is empty |
| RoundTrips.ConvertFormulaRecord | pkg/socialcalc.go:86-89 | a formula record whose formula does not end in white space (every formula the parser writes) converts to its coordinate, `=` and its formula up to the first colon |
| RoundTrips.ConvertRecord | pkg/socialcalc.go:40-96 | converting the record written for a kept line drops an empty value, cuts a formula at its first colon, and gives any other value back |
| RoundTrips.ConvertExpanded | pkg/socialcalc.go:20-96 | converting the records written for some lines gives each kept line back as ConvertRecord describes, in order |
| RoundTrips.ConvertFramed | pkg/socialcalc.go:18-52 | the version header and the sheet footer around the records convert to nothing |
| RoundTrips.ConvertAfterParse | pkg/socialcalc.go:13-100 | converting the parser's output gives, in order, each kept compact line as its trimmed coordinate, a colon and its trimmed value, with empty values dropped and formulas cut at their first colon |
| RoundTrips.CanonicalLineKept | pkg/socialcalc.go:20-96 | a canonical compact line is kept by the parser and comes back from the converter unchanged |
| RoundTrips.CanonicalRoundTrip | pkg/socialcalc.go:13-100 | compact text whose lines are all canonical comes back from parsing and converting as itself, without surrounding white space |
| RoundTrips.ConvertColonEndedText | pkg/socialcalc.go:77-81 | a text record whose payload is a plain caption followed by a colon converts to the caption alone |
| RoundTrips.DefaultCaptionConverts | pkg/socialcalc.go:112 | the `Storage Backend:` caption of the default document comes back from the converter without its colon |
| RoundTrips.DefaultIntroConverts | pkg/socialcalc.go:114 | the `Try these features:` heading at A5 comes back from the converter without its colon |
| RoundTrips.DefaultStorageLabelConverts | pkg/socialcalc.go:113 | the storage label of the default document comes back from the converter without its trailing white space, cut at its first colon and unescaped |

## Left out

- `internal/handlers/app.go` is not part of this model. It is HTTP routing, cookie and template handling, file reading and calls into the storage interface: I/O glue only.
- The Go `regexp` engine is not modelled. `isValidCoordinate` is the equivalent predicate `IsValidCoordinate`, proved equal to the grammar stated as a split point.
- Coordinates.CoordinateToRowCol: does not model Go `int` overflow in the column accumulator, nor the range error of `strconv.Atoi`. Integers are unbounded here, so the Atoi error branch cannot be taken.
- The wording of the `fmt.Errorf` messages is left out. Errors are the `ValidationError` and `CoordinateError` datatypes, carrying the kind, the 1-based line number and the offending text.
- The second result of `ParseTouchCalcMSC` is always nil in the code. It is modelled as an `Option<string>` proved to be `None`.
- Strings are sequences of Unicode code points. The byte-level behaviour of Go strings on invalid UTF-8 is left out.
- `TrimSpace` strips the Unicode White_Space characters that Go's `unicode.IsSpace` lists. Nothing else of Unicode is modelled.
- DefaultDocument.CreateDefaultTouchCalcData: its own contract states only that the document starts with the version header. Its line-by-line content is the function `DefaultLines`, and the validator's acceptance is DefaultDocumentIsWellFormed.
- Formula evaluation is left out; the code never evaluates formulas.
