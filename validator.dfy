/** ValidateSocialCalcData: the structural check of expanded-format text. */
module Validator {
  import opened Options
  import opened GoStrings
  import opened Coordinates
  import opened Records

  /** What the validator reports. Line numbers count from 1 over all lines
      of the text, blank ones included. */
  datatype ValidationError =
    | InvalidCellDefinition(lineNo: nat, line: string)
    | InvalidCellCoordinate(lineNo: nat, coord: string)
    | MissingVersionHeader

  predicate IsVersionLine(line: string)
  {
    HasPrefix(TrimSpace(line), "version:")
  }

  predicate IsCellLine(line: string)
  {
    HasPrefix(TrimSpace(line), "cell:")
  }

  /** A cell line has at least four colon-separated fields and a coordinate
      in its second; any other line is fine as it is. */
  predicate CellOk(line: string)
  {
    IsCellLine(line) ==>
      var parts := Split(TrimSpace(line), ':');
      |parts| >= 4 && IsValidCoordinate(parts[1])
  }

  /** Well-formed expanded text: some line is a version header and every
      cell line is well formed. */
  predicate WellFormed(data: string)
  {
    var lines := Split(data, '\n');
    && (exists k :: 0 <= k < |lines| && IsVersionLine(lines[k]))
    && (forall k :: 0 <= k < |lines| ==> CellOk(lines[k]))
  }

  /** The error the validator reports for a bad cell line at `lineNo`: a
      cell definition with too few fields carries the whole trimmed line, a
      bad coordinate only the coordinate. */
  function CellError(line: string, lineNo: nat): (r: Option<ValidationError>)
    ensures r.None? <==> CellOk(line)
    ensures r.Some? ==> !r.value.MissingVersionHeader? && r.value.lineNo == lineNo
  {
    var t := TrimSpace(line);
    if !HasPrefix(t, "cell:") then None
    else
      var parts := Split(t, ':');
      if |parts| < 4 then Some(InvalidCellDefinition(lineNo, t))
      else if !IsValidCoordinate(parts[1]) then Some(InvalidCellCoordinate(lineNo, parts[1]))
      else None
  }

  /** ValidateSocialCalcData: succeeds exactly on well-formed text. Otherwise
      it reports the first bad cell line, by its 1-based number among all
      lines, in preference to a missing version header. */
  method ValidateSocialCalcData(data: string) returns (err: Option<ValidationError>)
    ensures err.None? <==> WellFormed(data)
    ensures err == Some(MissingVersionHeader) ==>
      forall k :: 0 <= k < |Split(data, '\n')| ==> CellOk(Split(data, '\n')[k])
    ensures err.Some? && !err.value.MissingVersionHeader? ==>
      var lines, n := Split(data, '\n'), err.value.lineNo;
      && 1 <= n <= |lines|
      && err == CellError(lines[n - 1], n)
      && forall k :: 0 <= k < n - 1 ==> CellOk(lines[k])
  {
    var lines := Split(data, '\n');
    var hasVersion := false;

    for i := 0 to |lines|
      invariant hasVersion <==> VersionSeen(lines, i)
      invariant CellsOkBefore(lines, i)
    {
      ScanNext(lines, i);
      ScanLine(lines[i]);
      var line := TrimSpace(lines[i]);
      if line == "" {
        continue;
      }
      if HasPrefix(line, "version:") {
        hasVersion := true;
        continue;
      }
      if HasPrefix(line, "cell:") {
        var parts := Split(line, ':');
        if |parts| < 4 {
          err := Some(InvalidCellDefinition(i + 1, line));
          ShortCellLine(data, i, err);
          return;
        }
        var coord := parts[1];
        if !IsValidCoordinate(coord) {
          err := Some(InvalidCellCoordinate(i + 1, coord));
          BadCoordinateLine(data, i, err);
          return;
        }
      }
    }

    err := if hasVersion then None else Some(MissingVersionHeader);
    ScanComplete(data, err);
  }

  /** What the scan learns from one line, branch by branch: a blank line
      is fine and no version line, a `version:` line is fine and a version
      line, any other line is no version line, and a cell line is fine
      when it has enough fields and a valid coordinate. */
  lemma ScanLine(line: string)
    ensures var t := TrimSpace(line);
      && (t == "" ==> !IsVersionLine(line) && CellOk(line))
      && (HasPrefix(t, "version:") ==> IsVersionLine(line) && CellOk(line))
      && (t != "" && !HasPrefix(t, "version:") ==> !IsVersionLine(line))
      && (!HasPrefix(t, "cell:") ==> CellOk(line))
      && (HasPrefix(t, "cell:") && |Split(t, ':')| >= 4 && IsValidCoordinate(Split(t, ':')[1]) ==>
            CellOk(line))
  {
    var t := TrimSpace(line);
    if HasPrefix(t, "version:") {
      VersionLineIsNoCellLine(t);
    }
  }

  /** After the whole scan: the text is well formed exactly when a version
      line was seen and every line was fine. */
  lemma ScanComplete(data: string, err: Option<ValidationError>)
    requires CellsOkBefore(Split(data, '\n'), |Split(data, '\n')|)
    requires err == if VersionSeen(Split(data, '\n'), |Split(data, '\n')|) then None else Some(MissingVersionHeader)
    ensures err.None? <==> WellFormed(data)
    ensures err == Some(MissingVersionHeader) ==>
      forall k :: 0 <= k < |Split(data, '\n')| ==> CellOk(Split(data, '\n')[k])
    ensures err.None? || err.value.MissingVersionHeader?
  {
  }

  /** Some of the first `i` lines is a version header. */
  predicate VersionSeen(lines: seq<string>, i: nat)
    requires i <= |lines|
  {
    exists k :: 0 <= k < i && IsVersionLine(lines[k])
  }

  /** Each of the first `i` lines is well formed. */
  predicate CellsOkBefore(lines: seq<string>, i: nat)
    requires i <= |lines|
  {
    forall k :: 0 <= k < i ==> CellOk(lines[k])
  }

  lemma ScanNext(lines: seq<string>, i: nat)
    requires i < |lines|
    ensures VersionSeen(lines, i + 1) <==> VersionSeen(lines, i) || IsVersionLine(lines[i])
    ensures CellsOkBefore(lines, i + 1) <==> CellsOkBefore(lines, i) && CellOk(lines[i])
  {
  }

  /** The report for the first bad line, at index `i`, meets the
      validator's contract. */
  lemma FirstBadLine(data: string, i: nat, err: Option<ValidationError>)
    requires i < |Split(data, '\n')| && CellsOkBefore(Split(data, '\n'), i)
    requires err.Some? && err == CellError(Split(data, '\n')[i], i + 1)
    ensures err.None? <==> WellFormed(data)
    ensures !err.value.MissingVersionHeader?
    ensures err.Some? && !err.value.MissingVersionHeader? ==>
      var lines, n := Split(data, '\n'), err.value.lineNo;
      && 1 <= n <= |lines|
      && err == CellError(lines[n - 1], n)
      && forall k :: 0 <= k < n - 1 ==> CellOk(lines[k])
  {
  }

  /** The first bad line, at index `i`, is a cell line with too few fields. */
  lemma ShortCellLine(data: string, i: nat, err: Option<ValidationError>)
    requires i < |Split(data, '\n')| && CellsOkBefore(Split(data, '\n'), i)
    requires var t := TrimSpace(Split(data, '\n')[i]);
      && HasPrefix(t, "cell:") && |Split(t, ':')| < 4
      && err == Some(InvalidCellDefinition(i + 1, t))
    ensures err.None? <==> WellFormed(data)
    ensures !err.value.MissingVersionHeader?
    ensures err.Some? && !err.value.MissingVersionHeader? ==>
      var lines, n := Split(data, '\n'), err.value.lineNo;
      && 1 <= n <= |lines|
      && err == CellError(lines[n - 1], n)
      && forall k :: 0 <= k < n - 1 ==> CellOk(lines[k])
  {
    FirstBadLine(data, i, err);
  }

  /** The first bad line, at index `i`, is a cell line whose second field
      is no coordinate. */
  lemma BadCoordinateLine(data: string, i: nat, err: Option<ValidationError>)
    requires i < |Split(data, '\n')| && CellsOkBefore(Split(data, '\n'), i)
    requires var t := TrimSpace(Split(data, '\n')[i]);
      && HasPrefix(t, "cell:") && |Split(t, ':')| >= 4 && !IsValidCoordinate(Split(t, ':')[1])
      && err == Some(InvalidCellCoordinate(i + 1, Split(t, ':')[1]))
    ensures err.None? <==> WellFormed(data)
    ensures !err.value.MissingVersionHeader?
    ensures err.Some? && !err.value.MissingVersionHeader? ==>
      var lines, n := Split(data, '\n'), err.value.lineNo;
      && 1 <= n <= |lines|
      && err == CellError(lines[n - 1], n)
      && forall k :: 0 <= k < n - 1 ==> CellOk(lines[k])
  {
    FirstBadLine(data, i, err);
  }

  lemma VersionLineIsNoCellLine(line: string)
    requires HasPrefix(line, "version:")
    ensures !HasPrefix(line, "cell:")
  {
    assert line[0] == line[..8][0] == 'v';
  }

  /** A trimmed line that does not start with `c` is no cell line; it is a
      version line exactly when it starts with `version:`. */
  lemma NonCellLineOk(line: string)
    requires line != [] && IsTrimmed(line) && line[0] != 'c'
    ensures CellOk(line)
    ensures IsVersionLine(line) <==> HasPrefix(line, "version:")
  {
  }

  /** A record whose head fields hold no colon, start with `cell` and have
      a valid coordinate second is a well-formed cell line, whatever its
      last field. */
  lemma RecordOk(head: seq<string>, last: string)
    requires |head| >= 3 && head[0] == "cell" && IsValidCoordinate(head[1])
    requires forall k :: 0 <= k < |head| ==> ':' !in head[k]
    ensures CellOk(Join(head + [last], ":"))
  {
    RecordTrim(head, last);
    SplitJoinSnoc(head, TrimRight(last), ':');
  }

  /** A text record at a valid coordinate is a well-formed cell line, free of
      newlines when its text is. */
  lemma TextRecordOk(coord: string, text: string)
    requires IsValidCoordinate(coord)
    ensures CellOk(TextRecord(coord, text))
    ensures '\n' !in text ==> '\n' !in TextRecord(coord, text)
  {
    CoordinateAvoids(coord, ':');
    CoordinateAvoids(coord, '\n');
    HeadsAvoid(coord, ':');
    RecordOk(TextHead(coord), text);
    if '\n' !in text {
      HeadsAvoid(coord, '\n');
      RecordAvoids(TextHead(coord), text, '\n');
    }
  }

  /** A formula record at a valid coordinate is a well-formed cell line, free
      of newlines when its formula is. */
  lemma FormulaRecordOk(coord: string, formula: string)
    requires IsValidCoordinate(coord)
    ensures CellOk(FormulaRecord(coord, formula))
    ensures '\n' !in formula ==> '\n' !in FormulaRecord(coord, formula)
  {
    CoordinateAvoids(coord, ':');
    CoordinateAvoids(coord, '\n');
    HeadsAvoid(coord, ':');
    RecordOk(FormulaHead(coord), formula);
    if '\n' !in formula {
      HeadsAvoid(coord, '\n');
      RecordAvoids(FormulaHead(coord), formula, '\n');
    }
  }

  /** A line that may stand in well-formed text: it holds no newline and,
      if it is a cell line, it is well formed. */
  predicate LineOk(line: string)
  {
    '\n' !in line && CellOk(line)
  }

  predicate LinesOk(lines: seq<string>)
  {
    forall k :: 0 <= k < |lines| ==> LineOk(lines[k])
  }

  lemma LinesOkAppend(a: seq<string>, b: seq<string>)
    requires LinesOk(a) && LinesOk(b)
    ensures LinesOk(a + b)
  {
    forall k | 0 <= k < |a + b| ensures LineOk((a + b)[k]) {
      if k >= |a| {
        assert (a + b)[k] == b[k - |a|];
      }
    }
  }

  /** Lines that are each fine and include a version header, joined by
      newlines, split back into themselves and are well-formed text. */
  lemma JoinedLinesWellFormed(lines: seq<string>, v: nat)
    requires v < |lines| && IsVersionLine(lines[v])
    requires LinesOk(lines)
    ensures Split(Join(lines, "\n"), '\n') == lines
    ensures WellFormed(Join(lines, "\n"))
  {
    SplitJoin(lines, '\n');
  }
}
