/** Text helpers shared by the sheet scanners: the row matrix, case mapping and prefix tests. */
module Text {
  import opened Wrappers

  /** A decoded sheet: rows of text cells, "" for a blank cell. */
  type Matrix = seq<seq<string>>

  /** `str.upper()` restricted to ASCII letters. */
  function UpperChar(c: char): char {
    if 'a' <= c <= 'z' then ((c as int) - 32) as char else c
  }

  /** `str.lower()` restricted to ASCII letters. */
  function LowerChar(c: char): char {
    if 'A' <= c <= 'Z' then ((c as int) + 32) as char else c
  }

  function Upper(s: string): (r: string)
    ensures |r| == |s|
  {
    if s == [] then [] else [UpperChar(s[0])] + Upper(s[1..])
  }

  function Lower(s: string): (r: string)
    ensures |r| == |s|
  {
    if s == [] then [] else [LowerChar(s[0])] + Lower(s[1..])
  }

  /** `upper()` maps each character on its own. */
  lemma {:induction false} UpperAt(s: string)
    ensures forall i :: 0 <= i < |s| ==> Upper(s)[i] == UpperChar(s[i])
  {
    if s != [] {
      UpperAt(s[1..]);
      assert forall i :: 1 <= i < |s| ==> Upper(s)[i] == Upper(s[1..])[i - 1];
    }
  }

  /** `lower()` maps each character on its own. */
  lemma {:induction false} LowerAt(s: string)
    ensures forall i :: 0 <= i < |s| ==> Lower(s)[i] == LowerChar(s[i])
  {
    if s != [] {
      LowerAt(s[1..]);
      assert forall i :: 1 <= i < |s| ==> Lower(s)[i] == Lower(s[1..])[i - 1];
    }
  }

  /** `s.startswith(p)`. */
  predicate StartsWith(s: string, p: string) {
    |p| <= |s| && s[..|p|] == p
  }

  /** Python truthiness of a row: some cell is a non-empty string (`any(row)`). */
  predicate NonBlank(row: seq<string>) {
    exists k :: 0 <= k < |row| && row[k] != ""
  }

  /** Number of non-empty cells in a row. */
  function CountNonEmpty(row: seq<string>): (n: nat)
    ensures n <= |row|
    ensures n == 0 <==> !NonBlank(row)
  {
    if row == [] then 0
    else (if row[0] != "" then 1 else 0) + CountNonEmpty(row[1..])
  }

  /** Index of the first row satisfying `p`, as a header search does. */
  function FirstWhere(rows: Matrix, p: seq<string> -> bool): (h: Option<nat>)
    ensures h.Some? ==> h.value < |rows| && p(rows[h.value])
    ensures h.Some? ==> forall k :: 0 <= k < h.value ==> !p(rows[k])
    ensures h.None? ==> forall k :: 0 <= k < |rows| ==> !p(rows[k])
  {
    if rows == [] then None
    else if p(rows[0]) then Some(0)
    else match FirstWhere(rows[1..], p)
      case None => None
      case Some(j) => Some(j + 1)
  }
}
