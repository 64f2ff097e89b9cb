/** What the three text operations promise about each other: the parser's
    output passes the validator, and converting the parser's output back to
    compact text gives every kept line back, trimmed around its colon, with
    two further losses. */
module RoundTrips {
  import opened Options
  import opened GoStrings
  import opened Coordinates
  import opened Escaping
  import opened Records
  import opened Parser
  import opened Converter
  import opened Validator
  import opened DefaultDocument

  /** A kept compact line as it comes back from the expanded format: dropped
      when its value is empty, a formula cut at the first colon after its
      `=`, any other value unchanged. */
  function CompactOfCell(c: CompactLine): Option<string>
  {
    if c.value == "" then None
    else if HasPrefix(c.value, "=") then
      var formula := "=" + Split(c.value[1..], ':')[0];
      Some(c.coord + ":" + formula)
    else Some(c.coord + ":" + c.value)
  }

  /** A line of compact text as it comes back from parsing and converting. */
  function CompactOfLine(line: string): Option<string>
  {
    match ParseCompactLine(line)
    case None => None
    case Some(c) => CompactOfCell(c)
  }

  /** Converting a text record whose payload holds no colon and does not
      end in white space gives back the coordinate and the unescaped payload,
      or nothing when that is empty. */
  lemma ConvertTextRecord(coord: string, payload: string)
    requires IsValidCoordinate(coord) && ':' !in payload
    requires payload == [] || !IsSpace(payload[|payload| - 1])
    ensures CompactFromRecord(TextRecord(coord, payload))
         == if Unescape(payload) == "" then None else Some(coord + ":" + Unescape(payload))
  {
    ConvertAnyTextRecord(coord, payload);
    assert TrimRight(payload) == payload;
    SplitWithoutSeparator(payload, ':');
  }

  /** Converting any text record gives back the coordinate and what comes
      before the first colon of its payload, without trailing white space,
      unescaped; nothing when that is empty. */
  lemma ConvertAnyTextRecord(coord: string, payload: string)
    requires IsValidCoordinate(coord)
    ensures CompactFromRecord(TextRecord(coord, payload))
         == var v := Unescape(Split(TrimRight(payload), ':')[0]);
            if v == "" then None else Some(coord + ":" + v)
  {
    var rec, head := TextRecord(coord, payload), TextHead(coord);
    var parts := head + Split(TrimRight(payload), ':');
    assert TrimSpace(rec) == TextRecord(coord, TrimRight(payload)) && HasPrefix(TrimSpace(rec), "cell:") by {
      RecordTrim(head, payload);
      RecordTrim(head, TrimRight(payload));
    }
    assert Split(TrimSpace(rec), ':') == parts by {
      CoordinateAvoids(coord, ':');
      HeadsAvoid(coord, ':');
      SplitJoinSnoc(head, TrimRight(payload), ':');
    }
    assert |parts| >= 4 && parts[1] == coord && parts[2] == "t" && parts[3] == Split(TrimRight(payload), ':')[0] by {
      assert parts[1] == head[1] && parts[2] == head[2];
    }
    ConvertTextParts(rec, parts);
  }

  /** Converting a formula record whose formula does not end in white space
      gives back the coordinate, `=` and the formula up to its first colon. */
  lemma ConvertFormulaRecord(coord: string, formula: string)
    requires IsValidCoordinate(coord)
    requires formula == [] || !IsSpace(formula[|formula| - 1])
    ensures CompactFromRecord(FormulaRecord(coord, formula))
         == Some(coord + ":" + ("=" + Split(formula, ':')[0]))
  {
    var rec := FormulaRecord(coord, formula);
    FormulaRecordShape(coord, formula);
    ConvertFormulaParts(rec, Split(rec, ':'));
  }

  /** A formula record whose formula does not end in white space is trimmed,
      starts with `cell:`, and has its coordinate second, `vtf` third and
      the formula up to its first colon sixth. */
  lemma FormulaRecordShape(coord: string, formula: string)
    requires IsValidCoordinate(coord)
    requires formula == [] || !IsSpace(formula[|formula| - 1])
    ensures var rec := FormulaRecord(coord, formula);
      var parts := Split(rec, ':');
      && TrimSpace(rec) == rec && HasPrefix(rec, "cell:")
      && |parts| >= 6 && parts[1] == coord && parts[2] == "vtf"
      && parts[5] == Split(formula, ':')[0]
  {
    var parts := FormulaHead(coord) + Split(formula, ':');
    assert Split(FormulaRecord(coord, formula), ':') == parts by {
      CoordinateAvoids(coord, ':');
      HeadsAvoid(coord, ':');
      SplitJoinSnoc(FormulaHead(coord), formula, ':');
    }
    assert TrimSpace(FormulaRecord(coord, formula)) == FormulaRecord(coord, formula)
      && HasPrefix(FormulaRecord(coord, formula), "cell:") by {
      RecordTrim(FormulaHead(coord), formula);
      assert TrimRight(formula) == formula;
    }
    var head := FormulaHead(coord);
    assert parts[1] == head[1] && parts[2] == head[2] && parts[5] == Split(formula, ':')[0];
  }

  /** The record the parser writes for a kept line holds no newline when
      the line held none, and is a well-formed cell line. */
  lemma KeptRecordOk(c: CompactLine)
    requires IsValidCoordinate(c.coord) && '\n' !in c.value
    ensures '\n' !in CellRecord(c) && CellOk(CellRecord(c))
  {
    if HasPrefix(c.value, "=") {
      assert TrimPrefix(c.value, "=") == c.value[1..];
      FormulaRecordOk(c.coord, TrimPrefix(c.value, "="));
    } else {
      TextRecordOk(c.coord, Escape(c.value));
    }
  }

  /** Converting the record of a kept line gives the line as CompactOfCell
      describes it. */
  lemma ConvertRecord(c: CompactLine)
    requires IsValidCoordinate(c.coord) && IsTrimmed(c.value)
    ensures CompactFromRecord(CellRecord(c)) == CompactOfCell(c)
  {
    if HasPrefix(c.value, "=") {
      var f := TrimPrefix(c.value, "=");
      assert f == c.value[1..];
      assert f != [] ==> f[|f| - 1] == c.value[|c.value| - 1];
      ConvertFormulaRecord(c.coord, f);
    } else {
      if c.value != [] {
        EscapedKeepsTrimmedEnd(c.value, Reserved);
      }
      UnescapeEscape(c.value);
      ConvertTextRecord(c.coord, Escape(c.value));
    }
  }

  /** The default document writes its texts unescaped, so converting it
      back does not give them all back: the caption at B3 loses its colon. */
  lemma DefaultCaptionConverts(storageBackend: string)
    ensures CompactFromRecord(CellLine(DefaultCell(6, storageBackend))) == Some("B3" + ":" + "Storage Backend")
  {
    assert "Storage Backend" + ":" == "Storage Backend:";
    assert CellLine(DefaultCell(6, storageBackend)) == TextRecord("B3", "Storage Backend" + ":");
    TwoCharCoordinate("B3");
    CaptionPlain();
    ConvertColonEndedText("B3", "Storage Backend");
  }

  /** The heading at A5 loses its colon in the same way. */
  lemma DefaultIntroConverts(storageBackend: string)
    ensures CompactFromRecord(CellLine(DefaultCell(8, storageBackend))) == Some("A5" + ":" + "Try these features")
  {
    assert "Try these features" + ":" == "Try these features:";
    assert CellLine(DefaultCell(8, storageBackend)) == TextRecord("A5", "Try these features" + ":");
    TwoCharCoordinate("A5");
    IntroPlain();
    ConvertColonEndedText("A5", "Try these features");
  }

  /** A text record whose payload is a plain caption followed by a colon
      converts to the caption alone. */
  lemma ConvertColonEndedText(coord: string, caption: string)
    requires IsValidCoordinate(coord) && caption != []
    requires ':' !in caption && '\\' !in caption && !IsSpace(caption[|caption| - 1])
    ensures CompactFromRecord(TextRecord(coord, caption + ":")) == Some(coord + ":" + caption)
  {
    ConvertAnyTextRecord(coord, caption + ":");
    assert TrimRight(caption + ":") == caption + ":";
    SplitAfterHead(caption, "", ':');
    assert caption + [':'] + "" == caption + ":";
  }

  lemma CaptionPlain()
    ensures ':' !in "Storage Backend" && '\\' !in "Storage Backend"
    ensures |"Storage Backend"| == 15 && !IsSpace("Storage Backend"[14])
  {
  }

  lemma IntroPlain()
    ensures ':' !in "Try these features" && '\\' !in "Try these features"
    ensures |"Try these features"| == 18 && !IsSpace("Try these features"[17])
  {
  }

  /** The storage label at C3 comes back from the default document cut at
      its first colon, without trailing white space, and unescaped. */
  lemma DefaultStorageLabelConverts(storageBackend: string)
    ensures CompactFromRecord(CellLine(DefaultCell(7, storageBackend)))
         == var v := Unescape(Split(TrimRight(storageBackend), ':')[0]);
            if v == "" then None else Some("C3" + ":" + v)
  {
    assert DefaultCell(7, storageBackend) == TextCell("C3", storageBackend);
    assert CellLine(DefaultCell(7, storageBackend)) == TextRecord("C3", storageBackend);
    TwoCharCoordinate("C3");
    ConvertAnyTextRecord("C3", storageBackend);
  }

  /** The records the parser writes for newline-free lines are newline-free,
      well-formed cell lines. */
  lemma {:induction false} ExpandedRecordsOk(lines: seq<string>)
    requires forall k :: 0 <= k < |lines| ==> '\n' !in lines[k]
    ensures LinesOk(FilterMap(ExpandLine, lines))
    decreases |lines|
  {
    if lines != [] {
      var init, last := lines[..|lines| - 1], lines[|lines| - 1];
      ExpandedRecordsOk(init);
      ParseCompactLineMeaning(last);
      if ParseCompactLine(last).Some? {
        KeptRecordOk(ParseCompactLine(last).value);
      }
      LinesOkAppend(FilterMap(ExpandLine, init), ToSeq(ExpandLine(last)));
    }
  }

  /** Converting the records of the lines gives each line as
      CompactOfLine describes it. */
  lemma {:induction false} ConvertExpanded(lines: seq<string>)
    ensures FilterMap(CompactFromRecord, FilterMap(ExpandLine, lines)) == FilterMap(CompactOfLine, lines)
    decreases |lines|
  {
    if lines != [] {
      var init, last := lines[..|lines| - 1], lines[|lines| - 1];
      ConvertExpanded(init);
      var written := ToSeq(ExpandLine(last));
      FilterMapAppend(CompactFromRecord, FilterMap(ExpandLine, init), written);
      ParseCompactLineMeaning(last);
      match ParseCompactLine(last)
      case None =>
      case Some(c) =>
        ConvertRecord(c);
        assert [CellRecord(c)][..0] == [];
    }
  }

  /** The version header is a version line, no cell line and no record. */
  lemma HeaderOk()
    ensures IsVersionLine(VersionHeader) && LinesOk([VersionHeader])
    ensures CompactFromRecord(VersionHeader) == None
  {
    NonCellLineOk(VersionHeader);
    NonRecordLine(VersionHeader);
  }

  /** The sheet footer is no cell line and no record. */
  lemma FooterOk()
    ensures LinesOk([SheetFooter]) && CompactFromRecord(SheetFooter) == None
  {
    NonCellLineOk(SheetFooter);
    NonRecordLine(SheetFooter);
  }

  /** The text the parser writes splits back into its document lines, and
      ValidateSocialCalcData accepts it. */
  lemma ParsedIsWellFormed(mscData: string)
    ensures Split(Join(ExpandedLines(mscData), "\n"), '\n') == ExpandedLines(mscData)
    ensures WellFormed(Join(ExpandedLines(mscData), "\n"))
  {
    var records := FilterMap(ExpandLine, CompactLines(mscData));
    ExpandedRecordsOk(CompactLines(mscData));
    HeaderOk();
    FooterOk();
    LinesOkAppend([VersionHeader], records);
    LinesOkAppend([VersionHeader] + records, [SheetFooter]);
    JoinedLinesWellFormed(ExpandedLines(mscData), 0);
  }

  /** ConvertSocialCalcToMSC applied to what ParseTouchCalcMSC writes gives
      back the kept lines of the compact text, each as CompactOfLine
      describes it, in their order. */
  lemma ConvertAfterParse(mscData: string)
    ensures FilterMap(CompactFromRecord, Split(Join(ExpandedLines(mscData), "\n"), '\n'))
         == FilterMap(CompactOfLine, CompactLines(mscData))
  {
    var records := FilterMap(ExpandLine, CompactLines(mscData));
    calc {
      FilterMap(CompactFromRecord, Split(Join(ExpandedLines(mscData), "\n"), '\n'));
      { ParsedIsWellFormed(mscData); }
      FilterMap(CompactFromRecord, [VersionHeader] + records + [SheetFooter]);
      { ConvertFramed(records); }
      FilterMap(CompactFromRecord, records);
      { ConvertExpanded(CompactLines(mscData)); }
      FilterMap(CompactOfLine, CompactLines(mscData));
    }
  }

  /** The version header and the sheet footer around the records convert to
      nothing. */
  lemma ConvertFramed(records: seq<string>)
    ensures FilterMap(CompactFromRecord, [VersionHeader] + records + [SheetFooter])
         == FilterMap(CompactFromRecord, records)
  {
    HeaderOk();
    FooterOk();
    FilterMapAppend(CompactFromRecord, [VersionHeader] + records, [SheetFooter]);
    FilterMapAppend(CompactFromRecord, [VersionHeader], records);
    assert [VersionHeader][..0] == [] && [SheetFooter][..0] == [];
  }

  /** A compact line in canonical form: a coordinate, a colon, and a
      non-empty value with no white space at either end and, for a formula,
      no colon. */
  predicate IsCanonicalLine(line: string)
  {
    && ':' in line
    && var parts := SplitOnce(line, ':');
    && IsValidCoordinate(parts[0])
    && parts[1] != ""
    && IsTrimmed(parts[1])
    && (HasPrefix(parts[1], "=") ==> ':' !in parts[1])
  }

  /** A canonical line survives parsing and converting unchanged. */
  lemma CanonicalLineKept(line: string)
    requires IsCanonicalLine(line)
    ensures CompactOfLine(line) == Some(line)
  {
    var parts := SplitOnce(line, ':');
    var coord, value := parts[0], parts[1];
    assert line == coord + [':'] + value;
    assert IsUpper(coord[0]) && IsUpper(line[0]) by {
      assert coord[..LetterRun(coord)][0] == coord[0];
    }
    assert line[|line| - 1] == value[|value| - 1];
    assert TrimSpace(line) == line;
    assert TrimSpace(coord) == coord by {
      assert IsUpper(coord[|coord| - 1]) || IsDigit(coord[|coord| - 1]);
    }
    assert ParseCompactLine(line) == Some(CompactLine(coord, value));
    if HasPrefix(value, "=") {
      SplitWithoutSeparator(value[1..], ':');
      assert "=" + value[1..] == value;
    }
  }

  /** Compact text whose lines are all canonical comes back from parsing and
      converting as the same text, without its surrounding white space. */
  lemma CanonicalRoundTrip(mscData: string)
    requires forall k :: 0 <= k < |CompactLines(mscData)| ==> IsCanonicalLine(CompactLines(mscData)[k])
    ensures Join(FilterMap(CompactOfLine, CompactLines(mscData)), "\n") == TrimSpace(mscData)
  {
    var lines := CompactLines(mscData);
    forall k | 0 <= k < |lines| ensures CompactOfLine(lines[k]) == Some(lines[k]) {
      CanonicalLineKept(lines[k]);
    }
    FilterMapIdentity(CompactOfLine, lines);
  }
}
