/** Models of the JavaScript string built-ins that the dashboard's state
    logic relies on: `toLowerCase`, `includes`, `trim`, `padStart`,
    `String(n)` for integers, and the relational `<` on strings. */
module JsText {

  // ---------------------------------------------------------------------
  // toLowerCase
  // ---------------------------------------------------------------------

  predicate IsUpper(c: char) {
    'A' <= c <= 'Z'
  }

  /** Lower-cases one character (ASCII letters; see README for the rest). */
  function LowerChar(c: char): (r: char)
    ensures !IsUpper(r)
    ensures IsUpper(c) ==> r as int == c as int + 32
    ensures !IsUpper(c) ==> r == c
  {
    if IsUpper(c) then (c as int + 32) as char else c
  }

  /** `s.toLowerCase()` */
  function ToLower(s: string): (r: string)
    ensures |r| == |s|
    ensures forall i :: 0 <= i < |r| ==> !IsUpper(r[i]) && r[i] == LowerChar(s[i])
  {
    seq(|s|, i requires 0 <= i < |s| => LowerChar(s[i]))
  }

  /** Lower-casing an already lower-cased string changes nothing. */
  lemma ToLowerIdempotent(s: string)
    ensures ToLower(ToLower(s)) == ToLower(s)
  {
  }

  // ---------------------------------------------------------------------
  // includes
  // ---------------------------------------------------------------------

  /** `sub` occurs in `s` starting at offset `i`. */
  predicate OccursAt(s: string, sub: string, i: int) {
    0 <= i <= |s| - |sub| && s[i..i + |sub|] == sub
  }

  /** `s.includes(sub)`: `sub` occurs in `s` at some offset. */
  function Includes(s: string, sub: string): (r: bool)
    ensures r <==> exists i :: OccursAt(s, sub, i)
    decreases |s|
  {
    if sub <= s then
      assert OccursAt(s, sub, 0);
      true
    else if s == [] then
      assert forall i :: !OccursAt(s, sub, i);
      false
    else
      OccursShift(s, sub);
      Includes(s[1..], sub)
  }

  /** An occurrence in `s` is either at offset zero or an occurrence in `s[1..]`. */
  lemma OccursShift(s: string, sub: string)
    requires s != []
    ensures (exists i :: OccursAt(s, sub, i)) <==> sub <= s || exists i :: OccursAt(s[1..], sub, i)
  {
    if exists i :: OccursAt(s[1..], sub, i) {
      var i :| OccursAt(s[1..], sub, i);
      assert OccursAt(s, sub, i + 1);
    }
    if exists i :: OccursAt(s, sub, i) {
      var i :| OccursAt(s, sub, i);
      if i > 0 {
        assert OccursAt(s[1..], sub, i - 1);
      }
    }
    if sub <= s {
      assert OccursAt(s, sub, 0);
    }
  }

  // ---------------------------------------------------------------------
  // trim
  // ---------------------------------------------------------------------

  /** The ECMAScript WhiteSpace and LineTerminator code points removed by `trim`. */
  predicate IsWhitespace(c: char) {
    || c == '\t' || c == '\n' || c == '\U{000B}' || c == '\U{000C}' || c == '\r'
    || c == ' ' || c == '\U{00A0}' || c == '\U{1680}'
    || ('\U{2000}' <= c <= '\U{200A}')
    || c == '\U{2028}' || c == '\U{2029}' || c == '\U{202F}' || c == '\U{205F}'
    || c == '\U{3000}' || c == '\U{FEFF}'
  }

  predicate AllWhitespace(s: string) {
    forall i :: 0 <= i < |s| ==> IsWhitespace(s[i])
  }

  /** The number of white-space characters `s` starts with. */
  function LeadingWhitespace(s: string): (k: nat)
    ensures k <= |s|
    ensures forall i :: 0 <= i < k ==> IsWhitespace(s[i])
    ensures k < |s| ==> !IsWhitespace(s[k])
    decreases |s|
  {
    if s != [] && IsWhitespace(s[0]) then
      var k := LeadingWhitespace(s[1..]);
      assert forall i :: 1 <= i <= k ==> s[i] == s[1..][i - 1];
      k + 1
    else
      0
  }

  /** Where the white space that `s` ends with begins. */
  function TrailingWhitespaceStart(s: string): (k: nat)
    ensures k <= |s|
    ensures forall i :: k <= i < |s| ==> IsWhitespace(s[i])
    ensures 0 < k ==> !IsWhitespace(s[k - 1])
    decreases |s|
  {
    if s != [] && IsWhitespace(s[|s| - 1]) then
      var k := TrailingWhitespaceStart(s[..|s| - 1]);
      assert forall i :: k <= i < |s| - 1 ==> s[i] == s[..|s| - 1][i];
      k
    else
      |s|
  }

  /** `s.trim()`: the slice of `s` between its leading and its trailing white
      space; empty exactly when `s` is all white space. */
  function Trim(s: string): (r: string)
    ensures exists k :: OccursAt(s, r, k)
    ensures r == [] <==> AllWhitespace(s)
    ensures r == [] || (!IsWhitespace(r[0]) && !IsWhitespace(r[|r| - 1]))
  {
    var a := LeadingWhitespace(s);
    var b := if a == |s| then a else TrailingWhitespaceStart(s);
    assert a < |s| ==> a < b;
    assert OccursAt(s, s[a..b], a);
    s[a..b]
  }

  /** What `Trim` keeps and drops: white space before `a` and from `b` on. */
  lemma TrimBounds(s: string) returns (a: nat, b: nat)
    ensures a <= b <= |s| && Trim(s) == s[a..b]
    ensures forall i :: 0 <= i < a ==> IsWhitespace(s[i])
    ensures forall i :: b <= i < |s| ==> IsWhitespace(s[i])
  {
    a := LeadingWhitespace(s);
    b := if a == |s| then a else TrailingWhitespaceStart(s);
  }

  /** A string with no white space at either end is its own trim. */
  lemma TrimUnchanged(s: string)
    requires s == [] || (!IsWhitespace(s[0]) && !IsWhitespace(s[|s| - 1]))
    ensures Trim(s) == s
  {
    if s != [] {
      assert LeadingWhitespace(s) == 0;
      assert TrailingWhitespaceStart(s) == |s|;
    }
  }

  /** Trimming white space off the front of a trimmed value gives the value. */
  lemma TrimLeadingWhitespace(u: string, v: string)
    requires AllWhitespace(u)
    requires v == [] || (!IsWhitespace(v[0]) && !IsWhitespace(v[|v| - 1]))
    ensures Trim(u + v) == v
  {
    var s := u + v;
    if v == [] {
      assert s == u;
    } else {
      var a, b := TrimBounds(s);
      assert s[|u|] == v[0] && s[|s| - 1] == v[|v| - 1];
      assert a <= |u| < b;
      assert Trim(s) != [];
      assert s[a] == Trim(s)[0];
      assert a == |u|;
      assert b == |s|;
      assert s[|u|..] == v;
    }
  }

  /** Trimming twice is the same as trimming once. */
  lemma TrimIdempotent(s: string)
    ensures Trim(Trim(s)) == Trim(s)
  {
    TrimUnchanged(Trim(s));
  }

  // ---------------------------------------------------------------------
  // padStart
  // ---------------------------------------------------------------------

  function Repeat(c: char, n: nat): (r: string)
    ensures |r| == n && forall i :: 0 <= i < n ==> r[i] == c
  {
    if n == 0 then [] else [c] + Repeat(c, n - 1)
  }

  /** `s.padStart(n, c)` with a one-character pad string. */
  function PadStart(s: string, n: nat, c: char): (r: string)
    ensures |r| == if |s| >= n then |s| else n
    ensures r[|r| - |s|..] == s
    ensures forall i :: 0 <= i < |r| - |s| ==> r[i] == c
  {
    if |s| >= n then s else Repeat(c, n - |s|) + s
  }

  // ---------------------------------------------------------------------
  // String(n) for integers, and reading a decimal back
  // ---------------------------------------------------------------------

  predicate IsDigit(c: char) {
    '0' <= c <= '9'
  }

  predicate AllDigits(s: string) {
    forall i :: 0 <= i < |s| ==> IsDigit(s[i])
  }

  function DigitChar(d: nat): (c: char)
    requires d < 10
    ensures IsDigit(c) && c as int - '0' as int == d
  {
    ('0' as int + d) as char
  }

  /** Number of decimal digits of `n` (one for zero). */
  function DigitCount(n: nat): (k: nat)
    ensures k >= 1
  {
    if n < 10 then 1 else DigitCount(n / 10) + 1
  }

  /** `String(n)` / `n.toString()` for a non-negative integer: its decimal
      digits, with no leading zero. */
  function NatToString(n: nat): (r: string)
    ensures |r| == DigitCount(n)
    ensures AllDigits(r)
    ensures r[0] == '0' ==> n == 0
  {
    if n < 10 then [DigitChar(n)] else NatToString(n / 10) + [DigitChar(n % 10)]
  }

  /** `String(i)` for any integer. */
  function IntToString(i: int): (r: string)
    ensures r != []
    ensures i < 0 <==> r[0] == '-'
  {
    if i < 0 then "-" + NatToString(-i) else NatToString(i)
  }

  /** The value of a string of decimal digits (leading zeros allowed). */
  function DecimalValue(s: string): nat
    requires AllDigits(s)
  {
    if s == [] then 0 else DecimalValue(s[..|s| - 1]) * 10 + (s[|s| - 1] as int - '0' as int)
  }

  /** Reading back the decimal form of `n` gives `n`. */
  lemma {:induction false} DecimalValueOfNatToString(n: nat)
    ensures DecimalValue(NatToString(n)) == n
  {
    var r := NatToString(n);
    if n >= 10 {
      assert r[..|r| - 1] == NatToString(n / 10);
      DecimalValueOfNatToString(n / 10);
    }
  }

  /** Distinct numbers have distinct decimal forms. */
  lemma NatToStringInjective(m: nat, n: nat)
    requires NatToString(m) == NatToString(n)
    ensures m == n
  {
    DecimalValueOfNatToString(m);
    DecimalValueOfNatToString(n);
  }

  /** Leading zeros do not change a decimal value. */
  lemma {:induction false} DecimalValueLeadingZeros(k: nat, s: string)
    requires AllDigits(s)
    ensures AllDigits(Repeat('0', k) + s)
    ensures DecimalValue(Repeat('0', k) + s) == DecimalValue(s)
  {
    var z := Repeat('0', k);
    if s == [] {
      assert z + s == z;
      ZerosValue(k);
    } else {
      var s' := s[..|s| - 1];
      assert (z + s)[..|z + s| - 1] == z + s';
      DecimalValueLeadingZeros(k, s');
    }
  }

  lemma {:induction false} ZerosValue(k: nat)
    ensures DecimalValue(Repeat('0', k)) == 0
  {
    if k > 0 {
      var z := Repeat('0', k);
      assert z[..k - 1] == Repeat('0', k - 1);
      ZerosValue(k - 1);
    }
  }

  /** Zero-padding a decimal string keeps its value. */
  lemma PadStartKeepsValue(s: string, width: nat)
    requires AllDigits(s)
    ensures AllDigits(PadStart(s, width, '0'))
    ensures DecimalValue(PadStart(s, width, '0')) == DecimalValue(s)
  {
    if |s| < width {
      DecimalValueLeadingZeros(width - |s|, s);
    }
  }

  /** Zero-padding the decimal forms of two numbers to the same width keeps
      them apart. */
  lemma PaddedDecimalInjective(m: nat, n: nat, width: nat)
    requires PadStart(NatToString(m), width, '0') == PadStart(NatToString(n), width, '0')
    ensures m == n
  {
    PadStartKeepsValue(NatToString(m), width);
    PadStartKeepsValue(NatToString(n), width);
    DecimalValueOfNatToString(m);
    DecimalValueOfNatToString(n);
  }

  function Pow10(k: nat): (p: nat)
    ensures p >= 1
    ensures k >= 1 ==> p >= 10
  {
    if k == 0 then 1 else 10 * Pow10(k - 1)
  }

  /** A number has at most `k` digits below `10^k` and at least `k` digits
      from `10^(k-1)` on. */
  lemma {:induction false} DigitCountBounds(n: nat, k: nat)
    requires k >= 1
    ensures n < Pow10(k) ==> DigitCount(n) <= k
    ensures n >= Pow10(k - 1) ==> DigitCount(n) >= k
  {
    if k > 1 && n >= 10 {
      var p := Pow10(k - 1);
      assert Pow10(k) == 10 * p;
      assert n < 10 * p ==> n / 10 < p;
      assert Pow10(k - 1) == 10 * Pow10(k - 2);
      assert n >= 10 * Pow10(k - 2) ==> n / 10 >= Pow10(k - 2);
      DigitCountBounds(n / 10, k - 1);
    }
  }

  // ---------------------------------------------------------------------
  // Relational comparison of strings (code-unit lexicographic order)
  // ---------------------------------------------------------------------

  /** `a < b` on two strings: lexicographic by code unit, a proper prefix
      coming first. */
  predicate LexLess(a: string, b: string)
    decreases |a|
  {
    if a == [] then b != []
    else if b == [] then false
    else if a[0] != b[0] then a[0] < b[0]
    else LexLess(a[1..], b[1..])
  }

  lemma {:induction false} LexLessIrreflexive(a: string)
    ensures !LexLess(a, a)
    decreases |a|
  {
    if a != [] { LexLessIrreflexive(a[1..]); }
  }

  lemma {:induction false} LexLessAsymmetric(a: string, b: string)
    requires LexLess(a, b)
    ensures !LexLess(b, a)
    decreases |a|
  {
    if a != [] && b != [] && a[0] == b[0] { LexLessAsymmetric(a[1..], b[1..]); }
  }

  lemma {:induction false} LexLessTransitive(a: string, b: string, c: string)
    requires LexLess(a, b) && LexLess(b, c)
    ensures LexLess(a, c)
    decreases |a|
  {
    if a != [] && b != [] && c != [] && a[0] == b[0] && b[0] == c[0] {
      LexLessTransitive(a[1..], b[1..], c[1..]);
    }
  }

  lemma {:induction false} LexLessTotal(a: string, b: string)
    requires a != b
    ensures LexLess(a, b) || LexLess(b, a)
    decreases |a|
  {
    if a != [] && b != [] && a[0] == b[0] {
      assert a == [a[0]] + a[1..] && b == [b[0]] + b[1..];
      LexLessTotal(a[1..], b[1..]);
    }
  }

  /** A three-way comparison built on `LexLess`: negative, zero or positive as
      `a` comes before, equals or comes after `b`. */
  function LexCompare(a: string, b: string): (r: int)
    ensures r == 0 <==> a == b
    ensures r < 0 <==> LexLess(a, b)
    ensures r > 0 <==> LexLess(b, a)
  {
    if a == b then
      LexLessIrreflexive(a);
      0
    else if LexLess(a, b) then
      LexLessAsymmetric(a, b);
      -1
    else
      LexLessTotal(a, b);
      1
  }
}
