/**
 * Locale number normalisation (`normalize_number`): "1.234,56" reads as 1234.56.
 * Python's `float()` is replaced by a plain decimal grammar and its exact value.
 */
module Numbers {
  import opened Wrappers

  /** The characters Python's `str.isspace()` accepts, which `str.strip()` removes. */
  predicate IsSpace(c: char) {
    c == ' ' || '\U{9}' <= c <= '\U{D}' || '\U{1C}' <= c <= '\U{1F}' || c == '\U{85}' || c == '\U{A0}'
    || c == '\U{1680}' || '\U{2000}' <= c <= '\U{200A}' || c == '\U{2028}' || c == '\U{2029}'
    || c == '\U{202F}' || c == '\U{205F}' || c == '\U{3000}'
  }

  predicate NoSpace(s: string) { forall i :: 0 <= i < |s| ==> !IsSpace(s[i]) }

  predicate IsDigit(c: char) { '0' <= c <= '9' }

  predicate AllDigits(s: string) { forall i :: 0 <= i < |s| ==> IsDigit(s[i]) }

  /** Number of whitespace characters at the start of `s`. */
  function LeadingSpaces(s: string): (n: nat)
    ensures n <= |s|
  {
    if s != [] && IsSpace(s[0]) then 1 + LeadingSpaces(s[1..]) else 0
  }

  /** Number of whitespace characters at the end of `s`. */
  function TrailingSpaces(s: string): (n: nat)
    ensures n <= |s|
  {
    if s != [] && IsSpace(s[|s| - 1]) then 1 + TrailingSpaces(s[..|s| - 1]) else 0
  }

  /** `str.strip()`: leading and trailing whitespace removed. */
  function Strip(s: string): string {
    var t := s[LeadingSpaces(s)..];
    t[..|t| - TrailingSpaces(t)]
  }

  /** The leading run is whitespace and stops at the first other character. */
  lemma {:induction false} LeadingSpacesFacts(s: string)
    ensures forall i :: 0 <= i < LeadingSpaces(s) ==> IsSpace(s[i])
    ensures LeadingSpaces(s) < |s| ==> !IsSpace(s[LeadingSpaces(s)])
  {
    if s != [] && IsSpace(s[0]) {
      LeadingSpacesFacts(s[1..]);
      assert forall i :: 1 <= i < |s| ==> s[i] == s[1..][i - 1];
    }
  }

  /** The trailing run is whitespace and stops at the last other character. */
  lemma {:induction false} TrailingSpacesFacts(s: string)
    ensures forall i :: |s| - TrailingSpaces(s) <= i < |s| ==> IsSpace(s[i])
    ensures TrailingSpaces(s) < |s| ==> !IsSpace(s[|s| - TrailingSpaces(s) - 1])
  {
    if s != [] && IsSpace(s[|s| - 1]) {
      TrailingSpacesFacts(s[..|s| - 1]);
      assert forall i :: 0 <= i < |s| - 1 ==> s[i] == s[..|s| - 1][i];
    }
  }

  /** `str.strip()` leaves nothing exactly when the text is all whitespace. */
  lemma StripEmpty(s: string)
    ensures Strip(s) == [] <==> forall i :: 0 <= i < |s| ==> IsSpace(s[i])
  {
    var l := LeadingSpaces(s);
    var t := s[l..];
    LeadingSpacesFacts(s);
    TrailingSpacesFacts(t);
    assert |t| > 0 ==> t[0] == s[l];
    assert Strip(s) == [] ==> TrailingSpaces(t) == |t|;
  }

  /** Otherwise the stripped text starts and ends with a non-space. */
  lemma StripEnds(s: string)
    requires Strip(s) != []
    ensures !IsSpace(Strip(s)[0]) && !IsSpace(Strip(s)[|Strip(s)| - 1])
  {
    var l := LeadingSpaces(s);
    var t := s[l..];
    LeadingSpacesFacts(s);
    TrailingSpacesFacts(t);
    assert Strip(s)[0] == t[0] == s[l];
  }

  /** Text without whitespace is left as it is. */
  lemma StripNoSpace(s: string)
    requires NoSpace(s)
    ensures Strip(s) == s
  {
    if s != [] {
      assert !IsSpace(s[0]) && !IsSpace(s[|s| - 1]);
      assert LeadingSpaces(s) == 0;
      assert s[0..] == s;
      assert TrailingSpaces(s) == 0;
    }
  }

  /** `s.replace(c, "")`. */
  function RemoveAll(s: string, c: char): string {
    if s == [] then []
    else (if s[0] == c then [] else [s[0]]) + RemoveAll(s[1..], c)
  }

  /** `s.replace(a, b)` for single characters. */
  function Replace(s: string, a: char, b: char): string {
    if s == [] then [] else [if s[0] == a then b else s[0]] + Replace(s[1..], a, b)
  }

  /** `c in s`, one character at a time. */
  predicate Has(s: string, c: char) {
    s != [] && (s[0] == c || Has(s[1..], c))
  }

  lemma {:induction false} HasIn(s: string, c: char)
    ensures Has(s, c) <==> c in s
  {
    if s != [] {
      HasIn(s[1..], c);
      assert s == [s[0]] + s[1..];
    }
  }

  /** The text handed to the float parser: spaces dropped, then the separators rewritten. */
  function CleanNumber(t: string): string {
    var u := RemoveAll(t, ' ');
    if Has(u, ',') && Has(u, '.') then Replace(RemoveAll(u, '.'), ',', '.')
    else if Has(u, ',') then Replace(u, ',', '.')
    else u
  }

  /** The value of a decimal digit (0 for any other character, which the parsers never pass). */
  function DigitValue(c: char): nat {
    if IsDigit(c) then (c as int) - ('0' as int) else 0
  }

  /** Value of the digits after a decimal point: ".d1 d2 …" is (d1 + ".d2 …") / 10. */
  function FractionValue(s: string): real {
    if s == [] then 0.0 else (DigitValue(s[0]) as real + FractionValue(s[1..])) / 10.0
  }

  /** Value of a run of decimal digits, read left to right. */
  function DigitsValue(s: string): nat {
    if s == [] then 0 else DigitsValue(s[..|s| - 1]) * 10 + DigitValue(s[|s| - 1])
  }

  /** Length of the run of digits that starts `s`. */
  function DigitRun(s: string): (n: nat)
    ensures n <= |s|
  {
    if s != [] && IsDigit(s[0]) then 1 + DigitRun(s[1..]) else 0
  }

  /** The run is made of digits and stops at the first non-digit. */
  lemma {:induction false} DigitRunFacts(s: string)
    ensures AllDigits(s[..DigitRun(s)])
    ensures DigitRun(s) < |s| ==> !IsDigit(s[DigitRun(s)])
    ensures DigitRun(s) == |s| <==> AllDigits(s)
  {
    if s != [] && IsDigit(s[0]) {
      DigitRunFacts(s[1..]);
      var n := DigitRun(s);
      assert s[..n] == [s[0]] + s[1..][..n - 1];
      assert forall i :: 1 <= i < |s| ==> s[i] == s[1..][i - 1];
    }
  }

  /** Unsigned decimal numeral: digits, then optionally `.` and digits, with at least one digit. */
  function ParseUnsigned(s: string): Option<real> {
    var n := DigitRun(s);
    var whole := DigitsValue(s[..n]) as real;
    if n == |s| then
      (if n == 0 then None else Some(whole))
    else if s[n] != '.' then None
    else
      var frac := s[n + 1..];
      if DigitRun(frac) != |frac| || (n == 0 && frac == []) then None
      else Some(whole + FractionValue(frac))
  }

  /** Stand-in for `float()`: an optional sign followed by an unsigned decimal numeral. */
  function ParseFloat(s: string): Option<real> {
    if s != [] && (s[0] == '+' || s[0] == '-') then
      match ParseUnsigned(s[1..])
      case None => None
      case Some(x) => Some(if s[0] == '-' then -x else x)
    else ParseUnsigned(s)
  }

  /** Stand-in for `int()`: an optional sign followed by at least one digit. */
  function ParseInt(s: string): (r: Option<int>)
    ensures var signed := s != [] && (s[0] == '+' || s[0] == '-');
            var body := if signed then s[1..] else s;
            (r.Some? <==> body != [] && AllDigits(body)) &&
            (r.Some? ==> r.value == if signed && s[0] == '-' then -(DigitsValue(body) as int) else DigitsValue(body) as int)
  {
    var signed := s != [] && (s[0] == '+' || s[0] == '-');
    var body := if signed then s[1..] else s;
    DigitRunFacts(body);
    if body == [] || DigitRun(body) != |body| then None
    else if signed && s[0] == '-' then Some(-(DigitsValue(body) as int))
    else Some(DigitsValue(body) as int)
  }

  /** `normalize_number`: None for blank text, otherwise the parse of the cleaned text. */
  function NormalizeNumber(text: string): Option<real> {
    var t := Strip(text);
    if t == [] then None else ParseFloat(CleanNumber(t))
  }

  /** Blank text (empty or all whitespace) is not a number. */
  lemma NormalizeBlank(text: string)
    requires forall i :: 0 <= i < |text| ==> IsSpace(text[i])
    ensures NormalizeNumber(text) == None
  {
    StripEmpty(text);
  }

  /** Occurrences of `c` in `s`. */
  function Count(s: string, c: char): nat {
    if s == [] then 0 else (if s[0] == c then 1 else 0) + Count(s[1..], c)
  }

  predicate IsSeparator(c: char) { c == ' ' || c == '.' || c == ',' }

  /** What is left of a numeral once spaces, dots and commas are taken out. */
  function Content(s: string): string {
    if s == [] then [] else (if IsSeparator(s[0]) then [] else [s[0]]) + Content(s[1..])
  }

  lemma {:induction false} RemoveAllFacts(s: string, c: char, x: char)
    ensures c !in RemoveAll(s, c)
    ensures x != c ==> (x in RemoveAll(s, c) <==> x in s)
    ensures c !in s ==> RemoveAll(s, c) == s
  {
    if s != [] {
      RemoveAllFacts(s[1..], c, x);
      assert s == [s[0]] + s[1..];
    }
  }

  lemma {:induction false} ReplaceFacts(s: string, a: char, b: char, x: char)
    requires a != b
    ensures a !in Replace(s, a, b)
    ensures x != a && x != b ==> (x in Replace(s, a, b) <==> x in s)
    ensures a !in s ==> Replace(s, a, b) == s
  {
    if s != [] {
      ReplaceFacts(s[1..], a, b, x);
      assert s == [s[0]] + s[1..];
    }
  }

  lemma {:induction false} ReplaceAppend(x: string, y: string, a: char, b: char)
    ensures Replace(x + y, a, b) == Replace(x, a, b) + Replace(y, a, b)
  {
    if x != [] {
      assert (x + y)[1..] == x[1..] + y;
      assert (x + y)[0] == x[0];
      ReplaceAppend(x[1..], y, a, b);
    } else {
      assert x + y == y;
    }
  }

  lemma {:induction false} RemoveAllCount(s: string, c: char, x: char)
    ensures Count(RemoveAll(s, c), x) == if x == c then 0 else Count(s, x)
  {
    if s != [] {
      RemoveAllCount(s[1..], c, x);
      assert RemoveAll(s, c) == (if s[0] == c then [] else [s[0]]) + RemoveAll(s[1..], c);
      CountAppend(if s[0] == c then [] else [s[0]], RemoveAll(s[1..], c), x);
    }
  }

  lemma {:induction false} CountAppend(a: string, b: string, x: char)
    ensures Count(a + b, x) == Count(a, x) + Count(b, x)
  {
    if a != [] {
      assert (a + b)[1..] == a[1..] + b;
      CountAppend(a[1..], b, x);
    } else {
      assert a + b == b;
    }
  }

  lemma {:induction false} ContentAppend(a: string, b: string)
    ensures Content(a + b) == Content(a) + Content(b)
  {
    if a != [] {
      assert (a + b)[1..] == a[1..] + b;
      ContentAppend(a[1..], b);
    } else {
      assert a + b == b;
    }
  }

  lemma {:induction false} RemoveAllContent(s: string, c: char)
    requires IsSeparator(c)
    ensures Content(RemoveAll(s, c)) == Content(s)
  {
    if s != [] {
      RemoveAllContent(s[1..], c);
      ContentAppend(if s[0] == c then [] else [s[0]], RemoveAll(s[1..], c));
    }
  }

  lemma {:induction false} ReplaceCountContent(s: string)
    ensures Count(Replace(s, ',', '.'), '.') == Count(s, ',') + Count(s, '.')
    ensures Content(Replace(s, ',', '.')) == Content(s)
  {
    if s != [] {
      var r := Replace(s, ',', '.');
      assert r[1..] == Replace(s[1..], ',', '.');
      ReplaceCountContent(s[1..]);
    }
  }

  lemma {:induction false} CountAbsent(s: string, x: char)
    requires x !in s
    ensures Count(s, x) == 0
  {
    if s != [] {
      CountAbsent(s[1..], x);
    }
  }

  /**
   * What the cleaning step hands to the parser: no spaces and no commas; the digits and
   * every other non-separator character unchanged and in order; and each `.` of the result
   * stands for a `,` of the input whenever the input had a comma, so that no thousands
   * separator survives.
   */
  lemma CleanNumberShape(t: string)
    ensures ' ' !in CleanNumber(t) && ',' !in CleanNumber(t)
    ensures Content(CleanNumber(t)) == Content(t)
    ensures Count(CleanNumber(t), '.') == if ',' in t then Count(t, ',') else Count(t, '.')
  {
    var u := RemoveAll(t, ' ');
    HasIn(u, ',');
    HasIn(u, '.');
    RemoveAllFacts(t, ' ', ',');
    RemoveAllFacts(t, ' ', '.');
    RemoveAllContent(t, ' ');
    RemoveAllCount(t, ' ', ',');
    RemoveAllCount(t, ' ', '.');
    if ',' in u && '.' in u {
      var v := RemoveAll(u, '.');
      RemoveAllFacts(u, '.', ' ');
      RemoveAllFacts(u, '.', ',');
      ReplaceFacts(v, ',', '.', ' ');
      RemoveAllContent(u, '.');
      RemoveAllCount(u, '.', ',');
      RemoveAllCount(u, '.', '.');
      ReplaceCountContent(v);
    } else if ',' in u {
      CountAbsent(u, '.');
      ReplaceFacts(u, ',', '.', ' ');
      ReplaceCountContent(u);
    }
  }

  lemma {:induction false} RemoveAllAppend(a: string, b: string, c: char)
    ensures RemoveAll(a + b, c) == RemoveAll(a, c) + RemoveAll(b, c)
  {
    if a != [] {
      assert (a + b)[1..] == a[1..] + b;
      assert (a + b)[0] == a[0];
      RemoveAllAppend(a[1..], b, c);
      var h := if a[0] == c then [] else [a[0]];
      assert RemoveAll(a + b, c) == h + RemoveAll(a[1..] + b, c);
      assert RemoveAll(a, c) == h + RemoveAll(a[1..], c);
    } else {
      assert a + b == b;
    }
  }

  predicate Plain(s: string) { NoSpace(s) && ',' !in s && '.' !in s }

  /** For text with no whitespace at all, only the cleaning step and the parse remain. */
  lemma NormalizeUnspaced(s: string)
    requires s != [] && NoSpace(s)
    ensures NormalizeNumber(s) == ParseFloat(CleanNumber(s))
  {
    StripNoSpace(s);
  }

  lemma UnspacedPieces(a: string, b: string)
    requires NoSpace(a) && NoSpace(b)
    ensures NoSpace(a + b) && ' ' !in a + b
  {
    assert forall i :: 0 <= i < |a + b| ==> (a + b)[i] == if i < |a| then a[i] else b[i - |a|];
  }

  /** Cleaning text without spaces in which `,` is the only separator turns it into `.`. */
  lemma CleanCommaOnly(s: string)
    requires ' ' !in s && ',' in s && '.' !in s
    ensures CleanNumber(s) == Replace(s, ',', '.')
  {
    RemoveAllFacts(s, ' ', '.');
    HasIn(s, ',');
    HasIn(s, '.');
  }

  /** Cleaning text without spaces that has both separators drops every `.`. */
  lemma CleanBoth(s: string)
    requires ' ' !in s && ',' in s && '.' in s
    ensures CleanNumber(s) == Replace(RemoveAll(s, '.'), ',', '.')
  {
    RemoveAllFacts(s, ' ', '.');
    HasIn(s, ',');
    HasIn(s, '.');
  }

  /** Cleaning text without spaces or commas leaves it unchanged. */
  lemma CleanPlain(s: string)
    requires ' ' !in s && ',' !in s
    ensures CleanNumber(s) == s
  {
    RemoveAllFacts(s, ' ', ',');
    HasIn(s, ',');
  }

  lemma {:induction false} ReplaceAbsent(s: string)
    requires ',' !in s
    ensures Replace(s, ',', '.') == s
  {
    if s != [] {
      assert s[1..] == s[1..];
      assert ',' !in s[1..] by {
        assert forall i :: 0 <= i < |s[1..]| ==> s[1..][i] == s[i + 1];
      }
      ReplaceAbsent(s[1..]);
    }
  }

  lemma ReplaceJoin(a: string, b: string, x: char)
    requires ',' !in a && ',' !in b
    ensures Replace(a + [x] + b, ',', '.') == a + [if x == ',' then '.' else x] + b
  {
    var y := if x == ',' then '.' else x;
    ReplaceAppend(a + [x], b, ',', '.');
    ReplaceAppend(a, [x], ',', '.');
    ReplaceAbsent(a);
    ReplaceAbsent(b);
    assert Replace([x], ',', '.') == [y] by {
      assert Replace([x], ',', '.') == [y] + Replace([x][1..], ',', '.');
      assert [x][1..] == [];
    }
  }

  lemma RemoveDotJoin(a: string, b: string, c: string)
    requires '.' !in a && '.' !in b && '.' !in c
    ensures RemoveAll(a + "." + b + "," + c, '.') == a + b + "," + c
  {
    RemoveAllAppend(a + "." + b + ",", c, '.');
    RemoveAllAppend(a + "." + b, ",", '.');
    RemoveAllAppend(a + ".", b, '.');
    RemoveAllAppend(a, ".", '.');
    RemoveAllFacts(a, '.', ' ');
    RemoveAllFacts(b, '.', ' ');
    RemoveAllFacts(c, '.', ' ');
    RemoveAllFacts(",", '.', ' ');
    assert RemoveAll(".", '.') == [] + RemoveAll(""[..], '.');
    assert a + [] == a;
  }

  /** With no `.` present, a `,` is the decimal point: "12,5" reads as "12.5". */
  lemma CommaIsDecimalPoint(a: string, b: string)
    requires Plain(a) && Plain(b)
    ensures NormalizeNumber(a + "," + b) == NormalizeNumber(a + "." + b)
  {
    var s := a + "," + b;
    var s' := a + "." + b;
    UnspacedPieces(a, ",");
    UnspacedPieces(a + ",", b);
    UnspacedPieces(a, ".");
    UnspacedPieces(a + ".", b);
    NormalizeUnspaced(s);
    NormalizeUnspaced(s');
    assert s[|a|] == ',';
    CleanCommaOnly(s);
    CleanPlain(s');
    ReplaceJoin(a, b, ',');
  }

  /** With both separators present, `.` only groups thousands: "1.234,5" reads as "1234.5". */
  lemma ThousandsDotDropped(a: string, b: string, c: string)
    requires Plain(a) && Plain(b) && Plain(c)
    ensures NormalizeNumber(a + "." + b + "," + c) == NormalizeNumber(a + b + "." + c)
  {
    var s := a + "." + b + "," + c;
    var s' := a + b + "." + c;
    UnspacedPieces(a, ".");
    UnspacedPieces(a + ".", b);
    UnspacedPieces(a + "." + b, ",");
    UnspacedPieces(a + "." + b + ",", c);
    UnspacedPieces(a, b);
    UnspacedPieces(a + b, ".");
    UnspacedPieces(a + b + ".", c);
    NormalizeUnspaced(s);
    NormalizeUnspaced(s');
    assert s[|a|] == '.' && s[|a| + 1 + |b|] == ',';
    CleanBoth(s);
    CleanPlain(s');
    RemoveDotJoin(a, b, c);
    ReplaceJoin(a + b, c, ',');
  }

  lemma ParseFloatExample()
    ensures ParseFloat("1234.56") == Some(1234.56)
  {
    var s := "1234.56";
    assert DigitRun(s[4..]) == 0;
    assert DigitRun(s) == 4;
    assert s[..4] == "1234" && s[5..] == "56";
    assert DigitsValue("1234") == 1234 by {
      assert "1234"[..3] == "123" && "123"[..2] == "12" && "12"[..1] == "1" && "1"[..0] == "";
    }
    assert FractionValue("56") == 0.56 by {
      assert "56"[1..] == "6" && "6"[1..] == "";
    }
  }

  /** A string without spaces, checked one character at a time. */
  predicate Unspaced(s: string) {
    s == [] || (!IsSpace(s[0]) && Unspaced(s[1..]))
  }

  lemma {:induction false} UnspacedIsNoSpace(s: string)
    requires Unspaced(s)
    ensures NoSpace(s) && ' ' !in s
  {
    if s != [] {
      UnspacedIsNoSpace(s[1..]);
      assert forall i :: 1 <= i < |s| ==> s[i] == s[1..][i - 1];
    }
  }

  lemma NormalizeGroupedExample()
    ensures NormalizeNumber("1.234,56") == Some(1234.56)
  {
    assert Unspaced("1") && Unspaced("234") && Unspaced("56");
    UnspacedIsNoSpace("1");
    UnspacedIsNoSpace("234");
    UnspacedIsNoSpace("56");
    ThousandsDotDropped("1", "234", "56");
    GroupedPieces();
    NormalizePlainExample();
  }

  lemma GroupedPieces()
    ensures "1" + "." + "234" + "," + "56" == "1.234,56"
    ensures "1" + "234" + "." + "56" == "1234.56"
  {
  }

  lemma PlainUnspaced()
    ensures NoSpace("1234.56") && ' ' !in "1234.56" && ',' !in "1234.56"
  {
    assert Unspaced("1234.56");
    UnspacedIsNoSpace("1234.56");
  }

  lemma NormalizePlainExample()
    ensures NormalizeNumber("1234.56") == Some(1234.56)
  {
    PlainUnspaced();
    NormalizeUnspaced("1234.56");
    CleanPlain("1234.56");
    ParseFloatExample();
  }

  lemma BlankExample()
    ensures forall i :: 0 <= i < |"  "| ==> IsSpace("  "[i])
  {
  }

  lemma NormalizeRejectExamples()
    ensures NormalizeNumber("  ") == None
    ensures NormalizeNumber("") == None
    ensures NormalizeNumber("abc") == None
  {
    BlankExample();
    NormalizeBlank("  ");
    NormalizeBlank("");
    assert Unspaced("abc");
    UnspacedIsNoSpace("abc");
    NormalizeUnspaced("abc");
    CleanPlain("abc");
    assert DigitRun("abc") == 0;
  }
}
