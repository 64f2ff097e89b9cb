/** ParseTouchCalcMSC: compact `coord:value` lines to the expanded
    cell-record format. Malformed lines are dropped, never reported. */
module Parser {
  import opened Options
  import opened GoStrings
  import opened Coordinates
  import opened Escaping
  import opened Records

  const VersionHeader: string := "version:1.4"
  const SheetFooter: string := "sheet:c:10:r:20"

  /** A line of the compact format that the parser keeps: its trimmed
      coordinate and its trimmed value. */
  datatype CompactLine = CompactLine(coord: string, value: string)

  /** Reads one line of compact text, or drops it. */
  function ParseCompactLine(line: string): Option<CompactLine>
  {
    var t := TrimSpace(line);
    if t == "" then None
    else
      var parts := SplitOnce(t, ':');
      if |parts| != 2 then None
      else
        var coord := TrimSpace(parts[0]);
        var value := TrimSpace(parts[1]);
        if !IsValidCoordinate(coord) then None
        else Some(CompactLine(coord, value))
  }

  /** A line is dropped exactly when it is blank, has no colon, or the
      trimmed text before its first colon is not a coordinate; a kept line
      has a valid coordinate and a trimmed value, and no newline in its value
      when the line had none. */
  lemma ParseCompactLineMeaning(line: string)
    ensures ParseCompactLine(line).None? <==>
      || TrimSpace(line) == ""
      || ':' !in TrimSpace(line)
      || !IsValidCoordinate(TrimSpace(SplitOnce(TrimSpace(line), ':')[0]))
    ensures ParseCompactLine(line).Some? ==>
      var c := ParseCompactLine(line).value;
      IsValidCoordinate(c.coord) && IsTrimmed(c.value) && ('\n' !in line ==> '\n' !in c.value)
  {
    var t := TrimSpace(line);
    if t != "" && ':' in t {
      var parts := SplitOnce(t, ':');
      if '\n' !in line {
        TrimSpaceAvoids(line, '\n');
        assert '\n' !in parts[0] + [':'] + parts[1];
        TrimSpaceAvoids(parts[1], '\n');
      }
    }
  }

  /** The record the parser writes for a kept line: a formula cell for a
      value that starts with `=` (that one `=` removed), a text cell with the
      escaped value otherwise. */
  function CellRecord(c: CompactLine): string
  {
    if HasPrefix(c.value, "=") then FormulaRecord(c.coord, TrimPrefix(c.value, "="))
    else TextRecord(c.coord, Escape(c.value))
  }

  function ExpandLine(line: string): Option<string>
  {
    match ParseCompactLine(line)
    case None => None
    case Some(c) => Some(CellRecord(c))
  }

  /** The lines of compact text, as the parser reads them. */
  function CompactLines(mscData: string): seq<string>
  {
    Split(TrimSpace(mscData), '\n')
  }

  /** The expanded document for compact text, line by line: the version
      header, one record per kept line in input order, the sheet footer. */
  function ExpandedLines(mscData: string): seq<string>
  {
    [VersionHeader] + FilterMap(ExpandLine, CompactLines(mscData)) + [SheetFooter]
  }

  /** The document lines the parser has written after reading the first `i`
      lines. */
  function WrittenAfter(lines: seq<string>, i: nat): seq<string>
    requires i <= |lines|
  {
    [VersionHeader] + FilterMap(ExpandLine, lines[..i])
  }

  lemma WrittenAfterNext(lines: seq<string>, i: nat)
    requires i < |lines|
    ensures WrittenAfter(lines, i + 1) == WrittenAfter(lines, i) + ToSeq(ExpandLine(lines[i]))
  {
    FilterMapPrefix(ExpandLine, lines, i);
  }

  /** ParseTouchCalcMSC: never fails, and writes the document of
      ExpandedLines joined by newlines. */
  method ParseTouchCalcMSC(mscData: string) returns (expanded: string, err: Option<string>)
    ensures err.None?
    ensures expanded == Join(ExpandedLines(mscData), "\n")
  {
    var lines := Split(TrimSpace(mscData), '\n');
    var socialCalcLines := [VersionHeader];

    for i := 0 to |lines|
      invariant socialCalcLines == WrittenAfter(lines, i)
    {
      WrittenAfterNext(lines, i);
      var line := TrimSpace(lines[i]);
      if line == "" {
        continue;
      }
      var parts := SplitOnce(line, ':');
      if |parts| != 2 {
        continue;
      }
      var coord := TrimSpace(parts[0]);
      var value := TrimSpace(parts[1]);
      if !IsValidCoordinate(coord) {
        continue;
      }
      if HasPrefix(value, "=") {
        var formula := TrimPrefix(value, "=");
        FormulaRecordText(coord, formula);
        socialCalcLines := socialCalcLines + ["cell:" + coord + ":vtf:n:0:" + formula];
      } else {
        var escapedValue := Escape(value);
        TextRecordText(coord, escapedValue);
        socialCalcLines := socialCalcLines + ["cell:" + coord + ":t:" + escapedValue];
      }
    }
    assert lines[..|lines|] == lines;

    socialCalcLines := socialCalcLines + [SheetFooter];
    return Join(socialCalcLines, "\n"), None;
  }
}
