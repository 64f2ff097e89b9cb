/** The three-character escape used inside text payloads of the expanded
    format: backslash becomes `\b`, newline `\n` and colon `\c`. */
module Escaping {
  import opened GoStrings

  /** The characters that a text payload may not hold literally. */
  const Reserved: set<char> := {'\\', '\n', ':'}

  /** The letter that follows the backslash in the escape of a reserved
      character. */
  function Code(c: char): char
  {
    if c == '\\' then 'b' else if c == '\n' then 'n' else 'c'
  }

  /** Reference escaping, one character at a time: each character of `E`
      becomes a backslash and its code, every other character stays. */
  function Escaped(s: string, E: set<char>): string
  {
    if s == [] then []
    else (if s[0] in E then ['\\', Code(s[0])] else [s[0]]) + Escaped(s[1..], E)
  }

  /** escapeForSocialCalc: three replacements, backslash first. */
  function Escape(value: string): (r: string)
    ensures r == Escaped(value, Reserved)
    ensures ':' !in r && '\n' !in r
  {
    EscapeIsCharwise(value);
    EscapedAvoids(value, Reserved, ':');
    EscapedAvoids(value, Reserved, '\n');
    ReplaceAll(ReplaceAll(ReplaceAll(value, "\\", "\\b"), "\n", "\\n"), ":", "\\c")
  }

  /** unescapeFromSocialCalc: the mirrored replacements, backslash last. A
      string without backslashes is left as it is. */
  function Unescape(value: string): (r: string)
    ensures '\\' !in value ==> r == value
  {
    var r := ReplaceAll(ReplaceAll(ReplaceAll(value, "\\c", ":"), "\\n", "\n"), "\\b", "\\");
    assert '\\' !in value ==> r == value by {
      if '\\' !in value {
        ReplaceAllAbsent(value, "\\c", ":");
        ReplaceAllAbsent(value, "\\n", "\n");
        ReplaceAllAbsent(value, "\\b", "\\");
      }
    }
    r
  }

  lemma {:induction false} EscapedNothing(s: string)
    ensures Escaped(s, {}) == s
    decreases |s|
  {
    if s != [] {
      EscapedNothing(s[1..]);
    }
  }

  lemma {:induction false} EscapedAvoids(s: string, E: set<char>, c: char)
    requires c in E && c != '\\' && c !in {'b', 'n', 'c'}
    ensures c !in Escaped(s, E)
    decreases |s|
  {
    if s != [] {
      EscapedAvoids(s[1..], E, c);
    }
  }

  /** One escaping replacement adds one character to the escaped set, as
      long as the replaced character does not occur in the escapes already
      made (which holds for backslash only when nothing is escaped yet). */
  lemma {:induction false} EscapeStep(s: string, E: set<char>, c0: char)
    requires c0 in Reserved && c0 !in E && E <= Reserved
    requires c0 == '\\' ==> E == {}
    ensures ReplaceAll(Escaped(s, E), [c0], ['\\', Code(c0)]) == Escaped(s, E + {c0})
    decreases |s|
  {
    if s != [] {
      var replacement, rest := ['\\', Code(c0)], Escaped(s[1..], E);
      var rest' := Escaped(s[1..], E + {c0});
      assert ReplaceAll(rest, [c0], replacement) == rest' by {
        EscapeStep(s[1..], E, c0);
      }
      if s[0] in E {
        calc {
          ReplaceAll(Escaped(s, E), [c0], replacement);
          { assert ['\\', Code(s[0])] + rest == [('\\')] + ([Code(s[0])] + rest); }
          ReplaceAll([('\\')] + ([Code(s[0])] + rest), [c0], replacement);
          { ReplaceAllMiss('\\', [Code(s[0])] + rest, [c0], replacement); }
          ['\\'] + ReplaceAll([Code(s[0])] + rest, [c0], replacement);
          { ReplaceAllMiss(Code(s[0]), rest, [c0], replacement); }
          ['\\'] + ([Code(s[0])] + rest');
          ['\\', Code(s[0])] + rest';
        }
      } else if s[0] == c0 {
        calc {
          ReplaceAll(Escaped(s, E), [c0], replacement);
          ReplaceAll([c0] + rest, [c0], replacement);
          { ReplaceAllHit([c0], replacement, rest); }
          replacement + rest';
        }
      } else {
        calc {
          ReplaceAll(Escaped(s, E), [c0], replacement);
          ReplaceAll([s[0]] + rest, [c0], replacement);
          { ReplaceAllMiss(s[0], rest, [c0], replacement); }
          [s[0]] + rest';
        }
      }
    }
  }

  /** The three replacements of escapeForSocialCalc escape character by
      character. */
  lemma EscapeIsCharwise(s: string)
    ensures ReplaceAll(ReplaceAll(ReplaceAll(s, "\\", "\\b"), "\n", "\\n"), ":", "\\c") == Escaped(s, Reserved)
  {
    EscapedNothing(s);
    EscapeStep(s, {}, '\\');
    assert {} + {'\\'} == {'\\'};
    EscapeStep(s, {'\\'}, '\n');
    assert {'\\'} + {'\n'} == {'\\', '\n'};
    EscapeStep(s, {'\\', '\n'}, ':');
    assert {'\\', '\n'} + {':'} == Reserved;
  }

  /** One unescaping replacement takes one character out of the escaped set,
      as long as backslash is still escaped. */
  lemma {:induction false} UnescapeStep(s: string, E: set<char>, c0: char)
    requires c0 in E && '\\' in E && E <= Reserved
    ensures ReplaceAll(Escaped(s, E), ['\\', Code(c0)], [c0]) == Escaped(s, E - {c0})
    decreases |s|
  {
    if s != [] {
      var pattern, rest := ['\\', Code(c0)], Escaped(s[1..], E);
      var rest' := Escaped(s[1..], E - {c0});
      assert ReplaceAll(rest, pattern, [c0]) == rest' by {
        UnescapeStep(s[1..], E, c0);
      }
      if s[0] == c0 {
        calc {
          ReplaceAll(Escaped(s, E), pattern, [c0]);
          ReplaceAll(pattern + rest, pattern, [c0]);
          { ReplaceAllHit(pattern, [c0], rest); }
          [c0] + rest';
        }
      } else if s[0] in E {
        var t := [Code(s[0])] + rest;
        calc {
          ReplaceAll(Escaped(s, E), pattern, [c0]);
          { assert ['\\', Code(s[0])] + rest == [('\\')] + t; }
          ReplaceAll([('\\')] + t, pattern, [c0]);
          { assert (['\\'] + t)[1] == Code(s[0]) != Code(c0);
            ReplaceAllMiss('\\', t, pattern, [c0]); }
          ['\\'] + ReplaceAll(t, pattern, [c0]);
          { assert ([Code(s[0])] + rest)[0] == Code(s[0]) != '\\';
            ReplaceAllMiss(Code(s[0]), rest, pattern, [c0]); }
          ['\\'] + ([Code(s[0])] + rest');
          ['\\', Code(s[0])] + rest';
        }
      } else {
        calc {
          ReplaceAll(Escaped(s, E), pattern, [c0]);
          ReplaceAll([s[0]] + rest, pattern, [c0]);
          { assert ([s[0]] + rest)[0] == s[0] != '\\';
            ReplaceAllMiss(s[0], rest, pattern, [c0]); }
          [s[0]] + rest';
        }
      }
    }
  }

  /** unescapeFromSocialCalc undoes escapeForSocialCalc on every string. */
  lemma UnescapeEscape(s: string)
    ensures Unescape(Escape(s)) == s
  {
    UnescapeStep(s, Reserved, ':');
    assert Reserved - {':'} == {'\\', '\n'};
    UnescapeStep(s, {'\\', '\n'}, '\n');
    assert {'\\', '\n'} - {'\n'} == {'\\'};
    UnescapeStep(s, {'\\'}, '\\');
    assert {'\\'} - {'\\'} == {};
    EscapedNothing(s);
  }

  /** The escape of a string that ends in something other than white space
      ends in something other than white space too. */
  lemma {:induction false} EscapedKeepsTrimmedEnd(s: string, E: set<char>)
    requires s != [] && !IsSpace(s[|s| - 1])
    ensures Escaped(s, E) != [] && !IsSpace(Escaped(s, E)[|Escaped(s, E)| - 1])
    decreases |s|
  {
    if |s| > 1 {
      EscapedKeepsTrimmedEnd(s[1..], E);
    }
  }
}
