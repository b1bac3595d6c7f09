/** Character classes and small string operations that the regular
    expressions and string methods of the parser rely on. */
module Text {

  /** The regex class `\d`, restricted to ASCII digits. */
  predicate IsDigit(c: char) {
    '0' <= c <= '9'
  }

  function DigitValue(c: char): (d: nat)
    requires IsDigit(c)
    ensures d < 10
  {
    c as int - '0' as int
  }

  /** Python's `str.isspace()`, which is also what `\s`, `str.strip()` and
      `int()` treat as white space. */
  predicate IsSpace(c: char) {
    ('\t' <= c <= '\r') || ('\U{1C}' <= c <= '\U{1F}') || c == ' ' || c == '\U{85}' ||
    c == '\U{A0}' || c == '\U{1680}' || ('\U{2000}' <= c <= '\U{200A}') || c == '\U{2028}' ||
    c == '\U{2029}' || c == '\U{202F}' || c == '\U{205F}' || c == '\U{3000}'
  }

  /** The no-break space the site uses to group thousands. */
  const NBSP: char := '\U{A0}'

  predicate AllDigits(s: string) {
    forall i :: 0 <= i < |s| ==> IsDigit(s[i])
  }

  predicate HasDigit(s: string) {
    exists i :: 0 <= i < |s| && IsDigit(s[i])
  }

  /** The longest prefix of `s` made of digits. */
  function DigitRun(s: string): (d: string)
    ensures d <= s && AllDigits(d)
    ensures |d| == |s| || !IsDigit(s[|d|])
  {
    if s != [] && IsDigit(s[0]) then [s[0]] + DigitRun(s[1..]) else []
  }

  /** A digit string followed by a non-digit is exactly the run of digits read there. */
  lemma {:induction false} DigitRunOfDigits(d: string, q: string)
    requires AllDigits(d) && (q == [] || !IsDigit(q[0]))
    ensures DigitRun(d + q) == d
  {
    if d == [] {
      assert d + q == q;
    } else {
      assert (d + q)[1..] == d[1..] + q;
      DigitRunOfDigits(d[1..], q);
    }
  }

  /** The decimal value of a digit string, as `int()` reads it (leading zeros allowed). */
  function Value(d: string): (n: nat)
    requires AllDigits(d)
  {
    if d == [] then 0 else 10 * Value(d[..|d| - 1]) + DigitValue(d[|d| - 1])
  }

  /** The digits of `s`, in order, everything else dropped. */
  function DigitsOf(s: string): (d: string)
    ensures AllDigits(d) && |d| <= |s|
  {
    if s == [] then [] else (if IsDigit(s[0]) then [s[0]] else []) + DigitsOf(s[1..])
  }

  lemma {:induction false} DigitsOfAppend(a: string, b: string)
    ensures DigitsOf(a + b) == DigitsOf(a) + DigitsOf(b)
  {
    if a == [] {
      assert a + b == b;
    } else {
      var h := if IsDigit(a[0]) then [a[0]] else [];
      assert (a + b)[1..] == a[1..] + b;
      assert DigitsOf(a + b) == h + DigitsOf(a[1..] + b);
      DigitsOfAppend(a[1..], b);
      assert DigitsOf(a) == h + DigitsOf(a[1..]);
    }
  }

  /** `sub in s` for Python strings. */
  predicate Contains(s: string, sub: string) {
    if sub <= s then true
    else if |s| <= |sub| then false
    else Contains(s[1..], sub)
  }

  lemma {:induction false} ContainsAt(s: string, sub: string, k: nat)
    requires k + |sub| <= |s| && s[k..k + |sub|] == sub
    ensures Contains(s, sub)
  {
    if k > 0 && !(sub <= s) {
      assert s[1..][k - 1..k - 1 + |sub|] == sub;
      ContainsAt(s[1..], sub, k - 1);
    }
  }

  lemma {:induction false} ContainsWitness(s: string, sub: string) returns (k: nat)
    requires Contains(s, sub)
    ensures k + |sub| <= |s| && s[k..k + |sub|] == sub
  {
    if sub <= s {
      k := 0;
    } else {
      var k' := ContainsWitness(s[1..], sub);
      k := k' + 1;
      assert s[k..k + |sub|] == s[1..][k'..k' + |sub|];
    }
  }

  /** `str.lower()` for ASCII and for the basic Cyrillic block (U+0400..U+042F). */
  function LowerChar(c: char): (l: char) {
    if 'A' <= c <= 'Z' then (c as int + 32) as char
    else if 'А' <= c <= 'Я' then (c as int + 0x20) as char
    else if 'Ѐ' <= c <= 'Џ' then (c as int + 0x50) as char
    else c
  }

  function Lower(s: string): (l: string)
    ensures |l| == |s|
    ensures forall i :: 0 <= i < |s| ==> l[i] == LowerChar(s[i])
  {
    if s == [] then [] else [LowerChar(s[0])] + Lower(s[1..])
  }

  /** Python's `str.strip()`: white space removed at both ends. */
  function Strip(s: string): (t: string)
    ensures |t| <= |s|
    ensures t == [] || (!IsSpace(t[0]) && !IsSpace(t[|t| - 1]))
  {
    if s == [] then []
    else if IsSpace(s[0]) then Strip(s[1..])
    else if IsSpace(s[|s| - 1]) then Strip(s[..|s| - 1])
    else s
  }

  predicate AllSpace(s: string) {
    forall i :: 0 <= i < |s| ==> IsSpace(s[i])
  }

  /** `strip()` removes exactly the white space at the two ends: white space,
      then a part that neither starts nor ends with white space, then white
      space, strips to that part. Every text splits this way in one way only,
      so this determines `Strip`. */
  lemma {:induction false} StripAround(a: string, m: string, b: string)
    requires AllSpace(a) && AllSpace(b)
    requires m == [] || (!IsSpace(m[0]) && !IsSpace(m[|m| - 1]))
    ensures Strip(a + m + b) == m
    decreases |a|
  {
    if a == [] {
      assert a + m + b == m + b;
      StripTrailing(m, b);
    } else {
      var s := a + m + b;
      assert s[0] == a[0] && s[1..] == a[1..] + m + b;
      StripAround(a[1..], m, b);
    }
  }

  /** The part of `StripAround` with no leading white space. */
  lemma {:induction false} StripTrailing(m: string, b: string)
    requires AllSpace(b)
    requires m == [] || (!IsSpace(m[0]) && !IsSpace(m[|m| - 1]))
    ensures Strip(m + b) == m
    decreases |b|
  {
    var s := m + b;
    if b == [] {
      assert s == m;
    } else if m == [] {
      assert s == b && s[1..] == m + b[1..];
      StripTrailing(m, b[1..]);
    } else {
      assert s[0] == m[0] && s[|s| - 1] == b[|b| - 1];
      assert s[..|s| - 1] == m + b[..|b| - 1];
      StripTrailing(m, b[..|b| - 1]);
    }
  }

  /** A character with non-space characters somewhere on both sides survives `strip()`. */
  lemma {:induction false} StripKeepsInner(s: string, a: nat, k: nat, b: nat)
    requires a < k < b < |s| && !IsSpace(s[a]) && !IsSpace(s[b])
    ensures s[k] in Strip(s)
    decreases |s|
  {
    if IsSpace(s[0]) {
      StripKeepsInner(s[1..], a - 1, k - 1, b - 1);
    } else if IsSpace(s[|s| - 1]) {
      StripKeepsInner(s[..|s| - 1], a, k, b);
    } else {
      assert s[k] in s;
    }
  }

  /** `s.split("?")[0]`: everything before the first `?`. */
  function BeforeQuery(s: string): (t: string)
    ensures t <= s && '?' !in t
    ensures |t| == |s| || s[|t|] == '?'
  {
    if s == [] || s[0] == '?' then [] else [s[0]] + BeforeQuery(s[1..])
  }

  /** Removing the query string a second time changes nothing. */
  lemma {:induction false} BeforeQueryIdempotent(s: string)
    ensures BeforeQuery(BeforeQuery(s)) == BeforeQuery(s)
  {
    if s != [] && s[0] != '?' {
      BeforeQueryIdempotent(s[1..]);
    }
  }
}
