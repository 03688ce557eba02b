/**
 * Column letters of a cell reference ("BC5"), as in ECMA-376 Part 1, section 18.3.1.4:
 * the letter prefix is a bijective base-26 numeral (A = 1 .. Z = 26) and the
 * zero-based column index is its value minus one.
 */
module CellRef {

  predicate IsUpper(c: char) { 'A' <= c <= 'Z' }

  predicate AllUpper(p: string) { forall i :: 0 <= i < |p| ==> IsUpper(p[i]) }

  /** Digit of a column letter: A = 1 .. Z = 26. */
  function LetterDigit(c: char): (d: nat)
    requires IsUpper(c)
    ensures 1 <= d <= 26
  {
    (c as int) - ('A' as int) + 1
  }

  /** The letter whose digit is `d`. */
  function DigitLetter(d: nat): (c: char)
    requires 1 <= d <= 26
    ensures IsUpper(c) && LetterDigit(c) == d
  {
    ((d - 1) + ('A' as int)) as char
  }

  /** Length of the match of `[A-Z]+` at the start of `s` (0 when there is none). */
  function PrefixLength(s: string): (n: nat)
    ensures n <= |s|
    ensures AllUpper(s[..n])
    ensures n < |s| ==> !IsUpper(s[n])
  {
    if s != [] && IsUpper(s[0]) then
      var n := 1 + PrefixLength(s[1..]);
      assert s[..n] == [s[0]] + s[1..][..n - 1];
      n
    else 0
  }

  /** Bijective base-26 value of a run of column letters, read left to right. */
  function LettersValue(p: string): (v: nat)
    requires AllUpper(p)
    ensures p != [] ==> v >= 1
  {
    if p == [] then 0 else LettersValue(p[..|p| - 1]) * 26 + LetterDigit(p[|p| - 1])
  }

  /** Zero-based column of a reference; a reference without a letter prefix gives its length. */
  function ColumnIndex(ref: string): (col: int)
    ensures col >= 0
    ensures PrefixLength(ref) == 0 ==> col == |ref|
    ensures PrefixLength(ref) > 0 ==> col + 1 == LettersValue(ref[..PrefixLength(ref)])
  {
    var n := PrefixLength(ref);
    if n == 0 then |ref| else LettersValue(ref[..n]) - 1
  }

  /** The letters of bijective value `m` (the inverse of LettersValue). */
  function Letters(m: nat): (p: string)
    requires m >= 1
    ensures p != [] && AllUpper(p)
    decreases m
  {
    if m <= 26 then [DigitLetter(m)]
    else Letters((m - 1) / 26) + [DigitLetter((m - 1) % 26 + 1)]
  }

  /** The column letters of zero-based column `col` ("A" for 0, "AA" for 26). */
  function ColumnName(col: nat): (p: string)
    ensures p != [] && AllUpper(p)
  {
    Letters(col + 1)
  }

  /** The prefix length is determined by the characters alone. */
  lemma PrefixLengthOf(s: string, n: nat)
    requires n <= |s| && AllUpper(s[..n])
    requires n < |s| ==> !IsUpper(s[n])
    ensures PrefixLength(s) == n
  {
    var m := PrefixLength(s);
    assert forall i :: 0 <= i < n ==> s[..n][i] == s[i];
    assert forall i :: 0 <= i < m ==> s[..m][i] == s[i];
  }

  /** Encoding then decoding a column value gives it back. */
  lemma {:induction false} LettersRoundTrip(m: nat)
    requires m >= 1
    ensures LettersValue(Letters(m)) == m
  {
    if m > 26 {
      var p := Letters(m);
      var q := Letters((m - 1) / 26);
      assert p[..|p| - 1] == q;
      LettersRoundTrip((m - 1) / 26);
    }
  }

  /** Every non-empty run of letters is the encoding of its own value: the numeral is bijective. */
  lemma {:induction false} LettersValueRoundTrip(p: string)
    requires p != [] && AllUpper(p)
    ensures Letters(LettersValue(p)) == p
  {
    var init := p[..|p| - 1];
    var d := LetterDigit(p[|p| - 1]);
    var m := LettersValue(p);
    assert m - 1 == LettersValue(init) * 26 + (d - 1);
    assert (m - 1) / 26 == LettersValue(init) && (m - 1) % 26 + 1 == d;
    if init != [] {
      LettersValueRoundTrip(init);
      assert p == init + [p[|p| - 1]];
    } else {
      assert p == [p[0]];
    }
  }

  /** A reference made of the letters of `col` followed by a row part decodes to `col`. */
  lemma ColumnNameDecodes(col: nat, rowPart: string)
    requires rowPart == [] || !IsUpper(rowPart[0])
    ensures ColumnIndex(ColumnName(col) + rowPart) == col
  {
    var p := ColumnName(col);
    var s := p + rowPart;
    assert s[..|p|] == p;
    PrefixLengthOf(s, |p|);
    LettersRoundTrip(col + 1);
  }

  /** Distinct column indices have distinct letters, and every letter run names some column. */
  lemma ColumnNameOnto(p: string)
    requires p != [] && AllUpper(p)
    ensures ColumnIndex(p) >= 0 && ColumnName(ColumnIndex(p)) == p
  {
    assert p[..|p|] == p;
    PrefixLengthOf(p, |p|);
    LettersValueRoundTrip(p);
  }

  lemma ColumnIndexExamples()
    ensures ColumnIndex("A1") == 0
    ensures ColumnIndex("Z9") == 25
    ensures ColumnIndex("AA1") == 26
    ensures ColumnIndex("BC5") == 54
    ensures ColumnIndex("12") == 2
    ensures ColumnName(701) == "ZZ"
  {
    PrefixLengthOf("A1", 1);
    PrefixLengthOf("Z9", 1);
    PrefixLengthOf("AA1", 2);
    PrefixLengthOf("BC5", 2);
    PrefixLengthOf("12", 0);
    assert "AA1"[..2] == "AA" && "AA"[..1] == "A";
    assert "BC5"[..2] == "BC" && "BC"[..1] == "B";
    assert "A1"[..1] == "A" && "Z9"[..1] == "Z";
  }

  /** `column_index_from_ref`: match the letter prefix, then accumulate `col * 26 + digit`. */
  method ColumnIndexFromRef(ref: string) returns (idx: int)
    ensures idx == ColumnIndex(ref)
    ensures idx >= 0
  {
    var n := 0;
    while n < |ref| && IsUpper(ref[n])
      invariant 0 <= n <= |ref|
      invariant AllUpper(ref[..n])
    {
      assert ref[..n + 1] == ref[..n] + [ref[n]];
      n := n + 1;
    }
    PrefixLengthOf(ref, n);
    if n == 0 {
      return |ref|;
    }
    var col := 0;
    for i := 0 to n
      invariant col == LettersValue(ref[..i])
    {
      assert ref[..i + 1][..i] == ref[..i];
      col := col * 26 + LetterDigit(ref[i]);
    }
    idx := col - 1;
  }
}
