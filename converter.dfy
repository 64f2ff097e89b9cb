/** ConvertSocialCalcToMSC: expanded cell records back to compact
    `coord:value` lines. Everything but a recognised cell record is dropped. */
module Converter {
  import opened Options
  import opened GoStrings
  import opened Escaping

  /** The value a cell record of at least four fields carries, by its kind:
      the unescaped payload of a text cell, the payload of a numeric cell, the
      sixth field behind `=` for a formula cell (nothing when there is no
      sixth field); no value at all for any other kind. */
  function RecordValue(parts: seq<string>): Option<string>
    requires |parts| >= 4
  {
    if parts[2] == "t" then Some(Unescape(parts[3]))
    else if parts[2] == "v" then Some(parts[3])
    else if parts[2] == "vtf" then Some(if |parts| >= 6 then "=" + parts[5] else "")
    else None
  }

  /** The compact line for one line of expanded text, or nothing. A compact
      line is the record's second field, a colon and a non-empty value. */
  function CompactFromRecord(line: string): (r: Option<string>)
    ensures r.Some? ==>
      var parts := Split(TrimSpace(line), ':');
      && HasPrefix(TrimSpace(line), "cell:")
      && |parts| >= 4
      && HasPrefix(r.value, parts[1] + ":")
      && |r.value| > |parts[1]| + 1
  {
    var t := TrimSpace(line);
    if !HasPrefix(t, "cell:") then None
    else
      var parts := Split(t, ':');
      if |parts| < 4 then None
      else match RecordValue(parts)
        case None => None
        case Some(value) =>
          if value == "" then None
          else
            assert (parts[1] + ":" + value)[..|parts[1]| + 1] == parts[1] + ":";
            Some(parts[1] + ":" + value)
  }

  /** A trimmed line that does not start with `c` yields no compact line. */
  lemma NonRecordLine(line: string)
    requires line != [] && IsTrimmed(line) && line[0] != 'c'
    ensures CompactFromRecord(line) == None
  {
    assert TrimSpace(line)[0] != "cell:"[0];
  }

  /** A line that is no cell record of at least four fields yields no
      compact line. */
  lemma ConvertNonRecord(line: string)
    requires !HasPrefix(TrimSpace(line), "cell:") || |Split(TrimSpace(line), ':')| < 4
    ensures CompactFromRecord(line) == None
  {
  }

  /** A record of kind `t` yields its coordinate and its unescaped fourth
      field, or nothing when that is empty. */
  lemma ConvertTextParts(rec: string, parts: seq<string>)
    requires HasPrefix(TrimSpace(rec), "cell:")
    requires Split(TrimSpace(rec), ':') == parts && |parts| >= 4 && parts[2] == "t"
    ensures CompactFromRecord(rec)
         == if Unescape(parts[3]) == "" then None else Some(parts[1] + ":" + Unescape(parts[3]))
  {
  }

  /** A record of kind `v` yields its coordinate and its fourth field as it
      is, or nothing when that is empty. */
  lemma ConvertNumberParts(rec: string, parts: seq<string>)
    requires HasPrefix(TrimSpace(rec), "cell:")
    requires Split(TrimSpace(rec), ':') == parts && |parts| >= 4 && parts[2] == "v"
    ensures CompactFromRecord(rec) == if parts[3] == "" then None else Some(parts[1] + ":" + parts[3])
  {
  }

  /** A record of kind `vtf` with at least six fields yields its coordinate,
      `=` and its sixth field. */
  lemma ConvertFormulaParts(rec: string, parts: seq<string>)
    requires HasPrefix(TrimSpace(rec), "cell:")
    requires Split(TrimSpace(rec), ':') == parts && |parts| >= 6 && parts[2] == "vtf"
    ensures CompactFromRecord(rec) == Some(parts[1] + ":" + ("=" + parts[5]))
  {
  }

  /** A record of kind `vtf` with fewer than six fields yields nothing. */
  lemma ConvertShortFormulaParts(rec: string, parts: seq<string>)
    requires Split(TrimSpace(rec), ':') == parts && 3 <= |parts| < 6 && parts[2] == "vtf"
    ensures CompactFromRecord(rec) == None
  {
  }

  /** A record of any kind but `t`, `v` and `vtf` yields nothing. */
  lemma ConvertOtherKindParts(rec: string, parts: seq<string>)
    requires Split(TrimSpace(rec), ':') == parts && |parts| >= 3
    requires parts[2] != "t" && parts[2] != "v" && parts[2] != "vtf"
    ensures CompactFromRecord(rec) == None
  {
  }

  /** ConvertSocialCalcToMSC: the compact lines of the records, in order,
      joined by newlines. */
  method ConvertSocialCalcToMSC(socialCalcData: string) returns (msc: string)
    ensures msc == Join(FilterMap(CompactFromRecord, Split(socialCalcData, '\n')), "\n")
  {
    var lines := Split(socialCalcData, '\n');
    var mscLines: seq<string> := [];

    for i := 0 to |lines|
      invariant mscLines == FilterMap(CompactFromRecord, lines[..i])
    {
      FilterMapPrefix(CompactFromRecord, lines, i);
      var line := TrimSpace(lines[i]);
      if !HasPrefix(line, "cell:") {
        continue;
      }
      var parts := Split(line, ':');
      if |parts| < 4 {
        continue;
      }
      var coord := parts[1];
      var cellType := parts[2];

      var value := "";
      if cellType == "t" {
        value := Unescape(parts[3]);
      } else if cellType == "v" {
        value := parts[3];
      } else if cellType == "vtf" {
        if |parts| >= 6 {
          value := "=" + parts[5];
        }
      } else {
        continue;
      }

      if value != "" {
        mscLines := mscLines + [coord + ":" + value];
      }
    }
    assert lines[..|lines|] == lines;

    return Join(mscLines, "\n");
  }
}
