/** Excel-style cell coordinates such as `A1` or `AA12`: the grammar
    `[A-Z]+[0-9]+`, and the conversion to and from a numeric row and
    column, where the column letters are a bijective base-26 numeral
    (A = 1, Z = 26, AA = 27). */
module Coordinates {
  import opened Options

  predicate IsUpper(c: char) { 'A' <= c <= 'Z' }

  predicate IsDigit(c: char) { '0' <= c <= '9' }

  predicate AllUpper(s: string) { forall i :: 0 <= i < |s| ==> IsUpper(s[i]) }

  predicate AllDigits(s: string) { forall i :: 0 <= i < |s| ==> IsDigit(s[i]) }

  /** The coordinate grammar `^[A-Z]+[0-9]+$`, stated as a split point. */
  ghost predicate MatchesCoordinateGrammar(s: string)
  {
    exists k :: 0 < k < |s| && AllUpper(s[..k]) && AllDigits(s[k..])
  }

  /** Length of the run of upper-case letters at the start of `s`. */
  function LetterRun(s: string): (k: nat)
    ensures k <= |s|
    ensures AllUpper(s[..k])
    ensures k < |s| ==> !IsUpper(s[k])
  {
    if s != [] && IsUpper(s[0]) then 1 + LetterRun(s[1..]) else 0
  }

  /** The coordinate check: decides the grammar by a single scan. */
  function IsValidCoordinate(coord: string): (b: bool)
    ensures b <==> MatchesCoordinateGrammar(coord)
    ensures b ==> forall i :: 0 <= i < |coord| ==> IsUpper(coord[i]) || IsDigit(coord[i])
  {
    var k := LetterRun(coord);
    var b := 0 < k < |coord| && AllDigits(coord[k..]);
    assert b ==> forall i :: 0 <= i < |coord| ==> IsUpper(coord[i]) || IsDigit(coord[i]) by {
      if b {
        forall i | 0 <= i < |coord| ensures IsUpper(coord[i]) || IsDigit(coord[i]) {
          if i < k { assert coord[..k][i] == coord[i]; } else { assert coord[k..][i - k] == coord[i]; }
        }
      }
    }
    assert MatchesCoordinateGrammar(coord) ==> b by {
      if MatchesCoordinateGrammar(coord) {
        var j :| 0 < j < |coord| && AllUpper(coord[..j]) && AllDigits(coord[j..]);
        assert coord[j..][0] == coord[j];
        forall i | 0 <= i < j ensures IsUpper(coord[i]) { assert coord[..j][i] == coord[i]; }
        LetterRunStopsAt(coord, j);
      }
    }
    b
  }

  /** A valid coordinate holds only letters and digits. */
  lemma CoordinateAvoids(coord: string, c: char)
    requires IsValidCoordinate(coord) && !IsUpper(c) && !IsDigit(c)
    ensures c !in coord
  {
    forall i | 0 <= i < |coord| ensures coord[i] != c {
      assert IsUpper(coord[i]) || IsDigit(coord[i]);
    }
  }

  lemma {:induction false} LetterRunStopsAt(s: string, j: nat)
    requires j < |s| && !IsUpper(s[j])
    requires forall i :: 0 <= i < j ==> IsUpper(s[i])
    ensures LetterRun(s) == j
    decreases j
  {
    if j > 0 {
      LetterRunStopsAt(s[1..], j - 1);
    }
  }

  /** The letters of a valid coordinate. */
  function ColumnPart(coord: string): string
    requires IsValidCoordinate(coord)
  {
    coord[..LetterRun(coord)]
  }

  /** The digits of a valid coordinate. */
  function RowPart(coord: string): string
    requires IsValidCoordinate(coord)
  {
    coord[LetterRun(coord)..]
  }

  /** Value of a letter run read as a bijective base-26 numeral. */
  function ColumnValue(letters: string): nat
    requires AllUpper(letters)
  {
    if letters == [] then 0
    else ColumnValue(letters[..|letters| - 1]) * 26 + (letters[|letters| - 1] as int - 'A' as int + 1)
  }

  /** Value of a digit run read as a decimal numeral. */
  function DecimalValue(digits: string): nat
    requires AllDigits(digits)
  {
    if digits == [] then 0
    else DecimalValue(digits[..|digits| - 1]) * 10 + (digits[|digits| - 1] as int - '0' as int)
  }

  /** The (row, column) a valid coordinate denotes. */
  function CoordinateValue(coord: string): (rc: (nat, nat))
    requires IsValidCoordinate(coord)
  {
    (DecimalValue(RowPart(coord)), ColumnValue(ColumnPart(coord)))
  }

  /** Bijective base-26 letters of a column number; no letters for 0. */
  function ColumnLetters(col: nat): (s: string)
    ensures AllUpper(s)
    ensures col > 0 <==> s != []
  {
    if col == 0 then []
    else ColumnLetters((col - 1) / 26) + [('A' as int + (col - 1) % 26) as char]
  }

  /** Decimal digits of a number, without leading zeros, as `%d` prints it. */
  function DecimalString(n: nat): (s: string)
    ensures AllDigits(s) && s != []
    ensures |s| > 1 ==> s[0] != '0'
  {
    if n < 10 then [('0' as int + n) as char]
    else DecimalString(n / 10) + [('0' as int + n % 10) as char]
  }

  /** The canonical coordinate of a position, or "" for a row or column
      below 1. */
  function EncodeCoordinate(row: int, col: int): string
  {
    if row < 1 || col < 1 then "" else ColumnLetters(col) + DecimalString(row)
  }

  datatype CoordinateError = InvalidCoordinate(coord: string)

  /** Converts an Excel-style coordinate to its row and column numbers; fails
      exactly on strings outside the coordinate grammar. Leading zeros and
      row 0 are accepted. */
  method CoordinateToRowCol(coord: string) returns (row: int, col: int, err: Option<CoordinateError>)
    ensures err.None? <==> IsValidCoordinate(coord)
    ensures err.Some? ==> row == 0 && col == 0 && err.value == InvalidCoordinate(coord)
    ensures err.None? ==> (row, col) == CoordinateValue(coord)
  {
    if !IsValidCoordinate(coord) {
      return 0, 0, Some(InvalidCoordinate(coord));
    }

    // Split at the first digit.
    var colPart, rowPart := "", "";
    var i := 0;
    while i < |coord|
      invariant 0 <= i <= |coord|
      invariant forall j :: 0 <= j < i ==> !IsDigit(coord[j])
      invariant colPart == "" && rowPart == ""
    {
      if IsDigit(coord[i]) {
        colPart, rowPart := coord[..i], coord[i..];
        break;
      }
      i := i + 1;
    }
    ghost var k := LetterRun(coord);
    assert IsDigit(coord[k]) by { assert coord[k..][0] == coord[k]; }
    forall j | 0 <= j < k ensures !IsDigit(coord[j]) { assert coord[..k][j] == coord[j]; }
    assert colPart == ColumnPart(coord) && rowPart == RowPart(coord);

    // Accumulate the column number letter by letter.
    col := 0;
    for j := 0 to |colPart|
      invariant AllUpper(colPart[..j]) && col == ColumnValue(colPart[..j])
    {
      assert colPart[..j + 1][..j] == colPart[..j];
      col := col * 26 + (colPart[j] as int - 'A' as int) + 1;
    }
    assert colPart[..|colPart|] == colPart;

    // strconv.Atoi on a run of digits
    row := DecimalValue(rowPart);
    err := None;
  }

  /** Converts a row and column to the canonical coordinate: "" when either is
      below 1, otherwise a coordinate in the grammar that decodes back to
      exactly (row, col). */
  method RowColToCoordinate(row: int, col: int) returns (coord: string)
    ensures coord == EncodeCoordinate(row, col)
    ensures coord == "" <==> row < 1 || col < 1
    ensures coord != "" ==> IsValidCoordinate(coord) && CoordinateValue(coord) == (row, col)
  {
    if row < 1 || col < 1 {
      return "";
    }
    var colStr := "";
    var c := col;
    while c > 0
      invariant c >= 0
      invariant ColumnLetters(c) + colStr == ColumnLetters(col)
      decreases c
    {
      ColumnLettersStep(c, colStr);
      c := c - 1;
      colStr := [('A' as int + c % 26) as char] + colStr;
      c := c / 26;
      assert ColumnLetters(c) + colStr == ColumnLetters(col);
    }
    assert colStr == ColumnLetters(col) by {
      assert ColumnLetters(c) == [];
    }
    coord := colStr + DecimalString(row);
    assert IsValidCoordinate(coord) && CoordinateValue(coord) == (row, col) by {
      DecodeEncode(row, col);
    }
  }

  /** One step of the letter loop: the last letter of `c` moves in front of
      the letters already written. */
  lemma ColumnLettersStep(c: nat, written: string)
    requires c > 0
    ensures ColumnLetters(c) + written
         == ColumnLetters((c - 1) / 26) + ([('A' as int + (c - 1) % 26) as char] + written)
  {
  }

  lemma {:induction false} ColumnValueOfLetters(col: nat)
    ensures ColumnValue(ColumnLetters(col)) == col
    decreases col
  {
    if col > 0 {
      var s := ColumnLetters(col);
      assert s[..|s| - 1] == ColumnLetters((col - 1) / 26);
      ColumnValueOfLetters((col - 1) / 26);
    }
  }

  lemma {:induction false} DecimalValueOfString(n: nat)
    ensures DecimalValue(DecimalString(n)) == n
    decreases n
  {
    var s := DecimalString(n);
    if n < 10 {
      assert s[..0] == [];
    } else {
      assert s[..|s| - 1] == DecimalString(n / 10);
      DecimalValueOfString(n / 10);
    }
  }

  /** Encoding a position of row and column at least 1 yields a valid
      coordinate that decodes back to the same position. */
  lemma DecodeEncode(row: int, col: int)
    requires row >= 1 && col >= 1
    ensures IsValidCoordinate(EncodeCoordinate(row, col))
    ensures CoordinateValue(EncodeCoordinate(row, col)) == (row, col)
  {
    var letters, digits := ColumnLetters(col), DecimalString(row);
    var s := letters + digits;
    forall i | 0 <= i < |letters| ensures IsUpper(s[i]) { assert s[i] == letters[i]; }
    assert s[|letters|] == digits[0];
    LetterRunStopsAt(s, |letters|);
    assert s[..|letters|] == letters && s[|letters|..] == digits;
    ColumnValueOfLetters(col);
    DecimalValueOfString(row);
  }

  lemma {:induction false} LettersOfColumnValue(letters: string)
    requires letters != [] && AllUpper(letters)
    ensures ColumnLetters(ColumnValue(letters)) == letters
    decreases |letters|
  {
    var init := letters[..|letters| - 1];
    var v := ColumnValue(letters);
    var d := letters[|letters| - 1] as int - 'A' as int;
    assert v - 1 == ColumnValue(init) * 26 + d;
    assert (v - 1) / 26 == ColumnValue(init) && (v - 1) % 26 == d;
    if init != [] {
      LettersOfColumnValue(init);
    }
    assert init + [letters[|letters| - 1]] == letters;
  }

  lemma {:induction false} DigitsOfDecimalValue(digits: string)
    requires digits != [] && AllDigits(digits) && (|digits| > 1 ==> digits[0] != '0')
    ensures DecimalValue(digits) >= 1 || digits == "0"
    ensures DecimalString(DecimalValue(digits)) == digits
    decreases |digits|
  {
    var init := digits[..|digits| - 1];
    var v := DecimalValue(digits);
    var d := digits[|digits| - 1] as int - '0' as int;
    if init == [] {
      assert DecimalValue(init) == 0;
      assert v == d;
      assert digits == [digits[0]];
    } else {
      assert init[0] == digits[0];
      DigitsOfDecimalValue(init);
      assert init != "0";
      assert v / 10 == DecimalValue(init) && v % 10 == d;
      assert init + [digits[|digits| - 1]] == digits;
    }
  }

  /** A valid coordinate whose row has no leading zero and is not 0 is the
      canonical encoding of the position it denotes. */
  lemma EncodeDecode(coord: string)
    requires IsValidCoordinate(coord)
    requires RowPart(coord)[0] != '0'
    ensures CoordinateValue(coord).0 >= 1 && CoordinateValue(coord).1 >= 1
    ensures EncodeCoordinate(CoordinateValue(coord).0, CoordinateValue(coord).1) == coord
  {
    var letters, digits := ColumnPart(coord), RowPart(coord);
    LettersOfColumnValue(letters);
    DigitsOfDecimalValue(digits);
    assert letters + digits == coord;
  }
}
