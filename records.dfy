/** The two kinds of cell record the spreadsheet writes in the expanded
    format, `cell:<coord>:t:<text>` and `cell:<coord>:vtf:n:0:<formula>`,
    and how their colon-separated fields come apart again. */
module Records {
  import opened GoStrings

  /** The fields of a text record before its text. */
  function TextHead(coord: string): seq<string>
  {
    ["cell", coord, "t"]
  }

  /** The fields of a formula record before its formula. */
  function FormulaHead(coord: string): seq<string>
  {
    ["cell", coord, "vtf", "n", "0"]
  }

  /** The head fields of both records are their fixed words, made of
      lower-case letters and `0`, and the coordinate; so a character that is
      none of those and not in the coordinate is in no head field. */
  lemma HeadsAvoid(coord: string, c: char)
    requires c !in coord && !('a' <= c <= 'z') && c != '0'
    ensures forall k :: 0 <= k < |TextHead(coord)| ==> c !in TextHead(coord)[k]
    ensures forall k :: 0 <= k < |FormulaHead(coord)| ==> c !in FormulaHead(coord)[k]
  {
  }

  /** A text record, `cell:<coord>:t:<text>`: its head fields and the
      text, joined by colons. */
  function TextRecord(coord: string, text: string): string
  {
    Join(TextHead(coord) + [text], ":")
  }

  /** A formula record, `cell:<coord>:vtf:n:0:<formula>`: its head fields
      and the formula, joined by colons. */
  function FormulaRecord(coord: string, formula: string): string
  {
    Join(FormulaHead(coord) + [formula], ":")
  }

  /** The text record spelled out. */
  lemma TextRecordText(coord: string, text: string)
    ensures TextRecord(coord, text) == "cell:" + coord + ":t:" + text
  {
    var f2, f1 := ["t", text], [coord, "t", text];
    calc {
      TextRecord(coord, text);
      { assert TextHead(coord) + [text] == ["cell"] + f1; }
      Join(["cell"] + f1, ":");
      { assert (["cell"] + f1)[1..] == f1; }
      "cell" + ":" + Join(f1, ":");
      { assert f1[1..] == f2; }
      "cell" + ":" + (coord + ":" + Join(f2, ":"));
      { assert f2[1..] == [text]; }
      "cell" + ":" + (coord + ":" + ("t" + ":" + text));
      "cell:" + coord + ":t:" + text;
    }
  }

  /** The formula record spelled out. */
  lemma FormulaRecordText(coord: string, formula: string)
    ensures FormulaRecord(coord, formula) == "cell:" + coord + ":vtf:n:0:" + formula
  {
    var f4, f3 := ["0", formula], ["n", "0", formula];
    var f2, f1 := ["vtf", "n", "0", formula], [coord, "vtf", "n", "0", formula];
    calc {
      FormulaRecord(coord, formula);
      { assert FormulaHead(coord) + [formula] == ["cell"] + f1; }
      Join(["cell"] + f1, ":");
      { assert (["cell"] + f1)[1..] == f1; }
      "cell" + ":" + Join(f1, ":");
      { assert f1[1..] == f2; }
      "cell" + ":" + (coord + ":" + Join(f2, ":"));
      { assert f2[1..] == f3; }
      "cell" + ":" + (coord + ":" + ("vtf" + ":" + Join(f3, ":")));
      { assert f3[1..] == f4; }
      "cell" + ":" + (coord + ":" + ("vtf" + ":" + ("n" + ":" + Join(f4, ":"))));
      { assert f4[1..] == [formula]; }
      "cell" + ":" + (coord + ":" + ("vtf" + ":" + ("n" + ":" + ("0" + ":" + formula))));
      "cell:" + coord + ":vtf:n:0:" + formula;
    }
  }

  /** A character that is in no field and is not the colon is not in the
      record. */
  lemma RecordAvoids(head: seq<string>, last: string, c: char)
    requires c != ':' && c !in last
    requires forall k :: 0 <= k < |head| ==> c !in head[k]
    ensures c !in Join(head + [last], ":")
  {
    var fields := head + [last];
    assert forall k :: 0 <= k < |fields| ==> c !in fields[k] by {
      forall k | 0 <= k < |fields| ensures c !in fields[k] {
        if k < |head| { assert fields[k] == head[k]; }
      }
    }
    JoinAvoids(fields, ":", c);
  }

  /** The front of a record, up to the colon before its last field. */
  lemma RecordFront(head: seq<string>, last: string)
    requires |head| >= 2 && head[0] == "cell"
    ensures var front := Join(head, ":") + ":";
      && Join(head + [last], ":") == front + last
      && |front| >= 5 && front[..5] == "cell:"
  {
    assert Join(head, ":") == "cell" + ":" + Join(head[1..], ":");
    JoinSnoc(head, last, ":");
  }

  /** A record whose head fields start with `cell` starts with `cell:` and
      loses only the white space at the end of its last field to trimming. */
  lemma RecordTrim(head: seq<string>, last: string)
    requires |head| >= 2 && head[0] == "cell"
    ensures HasPrefix(Join(head + [last], ":"), "cell:")
    ensures TrimSpace(Join(head + [last], ":")) == Join(head + [TrimRight(last)], ":")
  {
    var front := Join(head, ":") + ":";
    RecordFront(head, last);
    RecordFront(head, TrimRight(last));
    assert front[0] == front[..5][0] == 'c';
    TrimSpaceKeepsHead(front, last);
    assert (front + last)[..5] == front[..5];
  }
}
