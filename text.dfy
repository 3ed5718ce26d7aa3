/** String operations the dashboard applies through pandas' `.str` accessor and
    Python's `str`/`strftime`: whitespace trimming, upper-casing, space removal,
    case-insensitive substring search, decimal rendering and the code-point
    ordering Python's `sorted` uses on strings. */
module Text {
  import opened Seqs

  /** Python's `str.isspace()`, which is also what `\s` matches in a str pattern. */
  predicate IsWhitespace(c: char) {
    || ('\t' <= c <= '\r')
    || ('\U{1c}' <= c <= '\U{1f}')
    || c == ' ' || c == '\U{85}' || c == '\U{a0}' || c == '\U{1680}'
    || ('\U{2000}' <= c <= '\U{200a}')
    || c == '\U{2028}' || c == '\U{2029}' || c == '\U{202f}' || c == '\U{205f}' || c == '\U{3000}'
  }

  predicate IsDigit(c: char) { '0' <= c <= '9' }

  predicate AllDigits(s: string) { forall i :: 0 <= i < |s| ==> IsDigit(s[i]) }

  function DigitValue(c: char): (d: nat)
    requires IsDigit(c)
    ensures d < 10
  {
    c as int - '0' as int
  }

  function DigitChar(d: nat): (c: char)
    requires d < 10
    ensures IsDigit(c) && DigitValue(c) == d
  {
    ('0' as int + d) as char
  }

  // ---------------------------------------------------------------------------
  // str.strip()

  /** How many whitespace characters `s` starts with. */
  function LeadingBlanks(s: string): (n: nat)
    ensures n <= |s|
    ensures forall k :: 0 <= k < n ==> IsWhitespace(s[k])
    ensures n < |s| ==> !IsWhitespace(s[n])
  {
    if s == [] || !IsWhitespace(s[0]) then 0 else 1 + LeadingBlanks(s[1..])
  }

  /** The length of `s` without the whitespace it ends with. */
  function KeptLength(s: string): (n: nat)
    ensures n <= |s|
    ensures forall k :: n <= k < |s| ==> IsWhitespace(s[k])
    ensures n > 0 ==> !IsWhitespace(s[n - 1])
  {
    if s == [] || !IsWhitespace(s[|s| - 1]) then |s| else KeptLength(s[..|s| - 1])
  }

  /** `str.lstrip()`. */
  function StripLeft(s: string): (r: string)
    ensures r == [] || !IsWhitespace(r[0])
  {
    s[LeadingBlanks(s)..]
  }

  /** `str.strip()`: the longest infix that neither starts nor ends with
      whitespace, everything cut off on either side being whitespace. */
  function Strip(s: string): (r: string)
    ensures r == [] || (!IsWhitespace(r[0]) && !IsWhitespace(r[|r| - 1]))
    ensures exists i :: Trimmed(s, i, r)
  {
    var i := LeadingBlanks(s);
    var n := KeptLength(s[i..]);
    BlankSuffixTail(s, s[i..], n, i);
    assert n > 0 ==> s[i..i + n][n - 1] == s[i..][n - 1];
    assert Trimmed(s, i, s[i..i + n]);
    s[i..i + n]
  }

  /** Whitespace at the end of a suffix is whitespace at the end of the whole. */
  lemma {:induction false} BlankSuffixTail(s: string, l: string, n: int, i: int)
    requires 0 <= i <= |s| && l == s[i..] && 0 <= n
    requires forall k :: n <= k < |l| ==> IsWhitespace(l[k])
    ensures forall k :: i + n <= k < |s| ==> IsWhitespace(s[k])
  {
    forall k | i + n <= k < |s| ensures IsWhitespace(s[k]) {
      assert s[k] == l[k - i];
    }
  }

  /** `r` is `s` with `i` leading and `|s| - i - |r|` trailing characters removed,
      all of them whitespace. */
  ghost predicate Trimmed(s: string, i: int, r: string) {
    && 0 <= i <= |s| - |r|
    && r == s[i..i + |r|]
    && (forall k :: 0 <= k < i ==> IsWhitespace(s[k]))
    && (forall k :: i + |r| <= k < |s| ==> IsWhitespace(s[k]))
  }

  lemma {:induction false} StripIdempotent(s: string)
    ensures Strip(Strip(s)) == Strip(s)
  {
    StripKeepsTrimmed(Strip(s));
  }

  /** A text that neither starts nor ends with whitespace is its own strip. */
  lemma {:induction false} StripKeepsTrimmed(s: string)
    requires s == [] || (!IsWhitespace(s[0]) && !IsWhitespace(s[|s| - 1]))
    ensures Strip(s) == s
  {
    assert LeadingBlanks(s) == 0;
    assert KeptLength(s) == |s|;
    assert s[0..] == s && s[0..|s|] == s;
  }

  // ---------------------------------------------------------------------------
  // str.upper(), str.lower(), str.replace(" ", "")

  function UpperChar(c: char): (u: char)
    ensures !('a' <= u <= 'z')
  {
    if 'a' <= c <= 'z' then (c as int - 32) as char else c
  }

  function LowerChar(c: char): (l: char)
    ensures !('A' <= l <= 'Z')
  {
    if 'A' <= c <= 'Z' then (c as int + 32) as char else c
  }

  function Upper(s: string): (r: string)
    ensures |r| == |s|
    ensures forall i :: 0 <= i < |s| ==> r[i] == UpperChar(s[i])
  {
    seq(|s|, i requires 0 <= i < |s| => UpperChar(s[i]))
  }

  function Lower(s: string): (r: string)
    ensures |r| == |s|
    ensures forall i :: 0 <= i < |s| ==> r[i] == LowerChar(s[i])
  {
    seq(|s|, i requires 0 <= i < |s| => LowerChar(s[i]))
  }

  /** Lower-casing forgets the case a text was written in. */
  lemma {:induction false} LowerForgetsCase(s: string)
    ensures Lower(Lower(s)) == Lower(s) && Lower(Upper(s)) == Lower(s)
  {
    assert forall i :: 0 <= i < |s| ==> Lower(Lower(s))[i] == Lower(s)[i];
    assert forall i :: 0 <= i < |s| ==> Lower(Upper(s))[i] == LowerChar(UpperChar(s[i])) == Lower(s)[i];
  }

  /** `str.replace(" ", "")`: every other character, in order. */
  function RemoveSpaces(s: string): (r: string)
    ensures ' ' !in r
    ensures |r| <= |s|
    ensures forall c :: c in r <==> c in s && c != ' '
  {
    if s == [] then []
    else if s[0] == ' ' then RemoveSpaces(s[1..])
    else [s[0]] + RemoveSpaces(s[1..])
  }

  predicate NotBlank(c: char) { c != ' ' }

  /** Removing blanks is the mask "not a blank": every other character is
      kept, as often as it occurs and in its order. */
  lemma {:induction false} RemoveSpacesIsFilter(s: string)
    ensures RemoveSpaces(s) == Filter(s, NotBlank)
  {
    if s != [] {
      RemoveSpacesIsFilter(s[1..]);
    }
  }

  /** Blanks are removed piece by piece: a text's blanks are removed by
      removing those of its two halves. */
  lemma {:induction false} RemoveSpacesAppend(a: string, b: string)
    ensures RemoveSpaces(a + b) == RemoveSpaces(a) + RemoveSpaces(b)
  {
    RemoveSpacesIsFilter(a + b);
    RemoveSpacesIsFilter(a);
    RemoveSpacesIsFilter(b);
    FilterAppend(a, b, NotBlank);
  }

  /** Upper-casing leaves blanks where they are and makes none, so it does not
      matter whether blanks are removed before or after it. */
  lemma {:induction false} UpperRemoveSpacesCommute(s: string)
    ensures RemoveSpaces(Upper(s)) == Upper(RemoveSpaces(s))
  {
    if s != [] {
      UpperRemoveSpacesCommute(s[1..]);
      assert Upper(s)[1..] == Upper(s[1..]);
      if s[0] != ' ' {
        assert Upper([s[0]] + RemoveSpaces(s[1..])) == [UpperChar(s[0])] + Upper(RemoveSpaces(s[1..]));
      }
    }
  }

  predicate HasLowerAscii(s: string) { exists i :: 0 <= i < |s| && 'a' <= s[i] <= 'z' }

  lemma {:induction false} UpperFixed(s: string)
    requires !HasLowerAscii(s)
    ensures Upper(s) == s
  {
    assert forall i :: 0 <= i < |s| ==> UpperChar(s[i]) == s[i];
  }

  lemma {:induction false} RemoveSpacesFixed(s: string)
    requires ' ' !in s
    ensures RemoveSpaces(s) == s
  {
    if s != [] {
      assert ' ' !in s[1..];
      RemoveSpacesFixed(s[1..]);
    }
  }

  lemma {:induction false} RemoveSpacesKeepsNoLower(s: string)
    requires !HasLowerAscii(s)
    ensures !HasLowerAscii(RemoveSpaces(s))
  {
    var r := RemoveSpaces(s);
    forall i | 0 <= i < |r| ensures !('a' <= r[i] <= 'z') {
      assert r[i] in r;
      assert r[i] in s;
    }
  }

  // ---------------------------------------------------------------------------
  // str.contains(keyword, case=False)

  /** `w` occurs in `s` at some position. */
  ghost predicate Occurs(s: string, w: string) {
    exists i :: 0 <= i <= |s| - |w| && OccursAt(s, w, i)
  }

  ghost predicate OccursAt(s: string, w: string, i: int)
    requires 0 <= i <= |s| - |w|
  {
    s[i..i + |w|] == w
  }

  function Contains(s: string, w: string): (b: bool)
    ensures b <==> Occurs(s, w)
  {
    if |w| > |s| then false
    else if s[..|w|] == w then
      assert OccursAt(s, w, 0);
      true
    else
      var b := Contains(s[1..], w);
      assert b ==> Occurs(s, w) by {
        if b {
          var i :| 0 <= i <= |s[1..]| - |w| && OccursAt(s[1..], w, i);
          assert s[i + 1..i + 1 + |w|] == s[1..][i..i + |w|];
          assert OccursAt(s, w, i + 1);
        }
      }
      assert Occurs(s, w) ==> b by {
        if Occurs(s, w) {
          var i :| 0 <= i <= |s| - |w| && OccursAt(s, w, i);
          assert i != 0;
          assert s[1..][i - 1..i - 1 + |w|] == s[i..i + |w|];
          assert OccursAt(s[1..], w, i - 1);
        }
      }
      b
  }

  /** A keyword matches a reason regardless of letter case (ASCII letters). */
  function ContainsIgnoreCase(s: string, keyword: string): (b: bool)
    ensures b <==> Occurs(Lower(s), Lower(keyword))
  {
    Contains(Lower(s), Lower(keyword))
  }

  // ---------------------------------------------------------------------------
  // Decimal rendering: str(n) and strftime's zero-padded fields

  function DecimalValue(s: string): nat
    requires AllDigits(s)
  {
    if s == [] then 0 else 10 * DecimalValue(s[..|s| - 1]) + DigitValue(s[|s| - 1])
  }

  lemma {:induction false} DecimalValueOfTwo(s: string)
    requires |s| == 2 && AllDigits(s)
    ensures DecimalValue(s) == 10 * DigitValue(s[0]) + DigitValue(s[1]) <= 99
    ensures DecimalValue(s[..1]) == DigitValue(s[0])
  {
    var p := s[..1];
    assert s[..|s| - 1] == p;
    assert p[..|p| - 1] == [];
    assert DecimalValue(p) == 10 * DecimalValue([]) + DigitValue(p[0]);
    assert DecimalValue(s) == 10 * DecimalValue(p) + DigitValue(s[1]);
  }

  /** `str(n)` for a non-negative int: decimal digits, no leading zero, reading back as `n`. */
  function NatToString(n: nat): (s: string)
    ensures 1 <= |s| && AllDigits(s)
    ensures |s| > 1 ==> s[0] != '0'
    ensures DecimalValue(s) == n
  {
    if n < 10 then [DigitChar(n)]
    else
      var p := NatToString(n / 10);
      var s := p + [DigitChar(n % 10)];
      assert s[..|s| - 1] == p;
      s
  }

  /** `%02d`: two digits for a value below 100. */
  function Pad2(n: nat): (s: string)
    requires n < 100
    ensures |s| == 2 && AllDigits(s) && DecimalValue(s) == n
  {
    var s := [DigitChar(n / 10), DigitChar(n % 10)];
    assert s[..1] == [s[0]] && [s[0]][..0] == [];
    assert DecimalValue(s[..1]) == n / 10;
    s
  }

  /** Pad2 of a number is its two digit characters. */
  lemma {:induction false} TwoDigits(n: nat, c: char, d: char)
    requires n < 100 && c == DigitChar(n / 10) && d == DigitChar(n % 10)
    ensures Pad2(n) == [c, d]
  {
  }

  /** `t` is a decimal numeral (leading zeros allowed) with value `v`. */
  predicate IsDecimal(t: string, v: int) {
    AllDigits(t) && DecimalValue(t) == v
  }

  /** Two more digits shift a numeral two places. */
  lemma {:induction false} DecimalValueAppendTwo(a: string, b: string)
    requires AllDigits(a) && |b| == 2 && AllDigits(b)
    ensures AllDigits(a + b) && DecimalValue(a + b) == 100 * DecimalValue(a) + DecimalValue(b)
  {
    var s := a + b;
    var p := s[..|s| - 1];
    assert p == a + [b[0]] && p[..|p| - 1] == a;
    DecimalValueOfTwo(b);
  }

  /** `%04d` as `%Y` prints the years this model meets (all below 10000). */
  function Pad4(n: nat): (s: string)
    requires n < 10000
    ensures |s| == 4 && IsDecimal(s, n)
  {
    DecimalValueAppendTwo(Pad2(n / 100), Pad2(n % 100));
    Pad2(n / 100) + Pad2(n % 100)
  }

  lemma {:induction false} Pad2Injective(a: nat, b: nat)
    requires a < 100 && b < 100
    ensures Pad2(a) == Pad2(b) <==> a == b
  {
  }

  lemma {:induction false} Pad4Injective(a: nat, b: nat)
    requires a < 10000 && b < 10000
    ensures Pad4(a) == Pad4(b) <==> a == b
  {
    if Pad4(a) == Pad4(b) {
      assert Pad4(a)[..2] == Pad2(a / 100) && Pad4(b)[..2] == Pad2(b / 100);
      assert Pad4(a)[2..] == Pad2(a % 100) && Pad4(b)[2..] == Pad2(b % 100);
      Pad2Injective(a / 100, b / 100);
      Pad2Injective(a % 100, b % 100);
    }
  }

  // ---------------------------------------------------------------------------
  // The order of Python's sorted() on str: lexicographic by code point

  predicate StrLess(a: string, b: string) {
    if a == [] then b != []
    else if b == [] then false
    else a[0] < b[0] || (a[0] == b[0] && StrLess(a[1..], b[1..]))
  }

  lemma {:induction false} StrLessIrreflexive(a: string)
    ensures !StrLess(a, a)
  {
    if a != [] { StrLessIrreflexive(a[1..]); }
  }

  lemma {:induction false} StrLessTransitive(a: string, b: string, c: string)
    requires StrLess(a, b) && StrLess(b, c)
    ensures StrLess(a, c)
  {
    if a != [] && b != [] && c != [] && a[0] == b[0] == c[0] {
      StrLessTransitive(a[1..], b[1..], c[1..]);
    }
  }

  lemma {:induction false} StrLessTotal(a: string, b: string)
    ensures a == b || StrLess(a, b) || StrLess(b, a)
  {
    if a != [] && b != [] && a[0] == b[0] {
      StrLessTotal(a[1..], b[1..]);
      if a[1..] == b[1..] {
        assert a == [a[0]] + a[1..] && b == [b[0]] + b[1..];
      }
    }
  }

  lemma {:induction false} StrLessAsymmetric(a: string, b: string)
    requires StrLess(a, b)
    ensures !StrLess(b, a)
  {
    if a != [] && b != [] && a[0] == b[0] {
      StrLessAsymmetric(a[1..], b[1..]);
    }
  }

  /** Comparing two concatenations whose first parts have equal length
      compares the first parts, then the second. */
  lemma {:induction false} StrLessConcat(a: string, b: string, c: string, d: string)
    requires |a| == |c|
    ensures StrLess(a + b, c + d) <==> StrLess(a, c) || (a == c && StrLess(b, d))
  {
    if a != [] {
      assert (a + b)[1..] == a[1..] + b && (c + d)[1..] == c[1..] + d;
      StrLessConcat(a[1..], b, c[1..], d);
      if a[0] == c[0] && a[1..] == c[1..] {
        assert a == [a[0]] + a[1..] && c == [c[0]] + c[1..];
      }
    } else {
      assert a + b == b && c + d == d;
    }
  }

  lemma {:induction false} Pad2Order(a: nat, b: nat)
    requires a < 100 && b < 100
    ensures StrLess(Pad2(a), Pad2(b)) <==> a < b
  {
    var x, y := Pad2(a), Pad2(b);
    assert x[0] == DigitChar(a / 10) && x[1] == DigitChar(a % 10);
    assert y[0] == DigitChar(b / 10) && y[1] == DigitChar(b % 10);
    assert x[1..][1..] == [] && y[1..][1..] == [];
    assert StrLess(x[1..], y[1..]) <==> x[1] < y[1];
    assert StrLess(x, y) <==> x[0] < y[0] || (x[0] == y[0] && x[1] < y[1]);
  }

  lemma {:induction false} Pad4Order(a: nat, b: nat)
    requires a < 10000 && b < 10000
    ensures StrLess(Pad4(a), Pad4(b)) <==> a < b
  {
    StrLessConcat(Pad2(a / 100), Pad2(a % 100), Pad2(b / 100), Pad2(b % 100));
    Pad2Order(a / 100, b / 100);
    Pad2Order(a % 100, b % 100);
    Pad2Injective(a / 100, b / 100);
  }
}
