/** The number reading shared by the total-found header and the salary line:
    the pattern `(\d[\d\s\u00A0]*)` (a digit, then any digits, white space or
    no-break spaces), the grouping separators removed, then `int()`. */
module Numbers {
  import opened Wrappers
  import opened Text

  /** A character of the `[\d\s\u00A0]` class. */
  predicate IsGroupChar(c: char) {
    IsDigit(c) || IsSpace(c)
  }

  /** A thousands separator that the parser deletes: a space or a no-break space. */
  predicate IsSeparator(c: char) {
    c == ' ' || c == NBSP
  }

  /** A full match of the pattern. */
  predicate IsGroup(g: string) {
    g != [] && IsDigit(g[0]) && forall i :: 0 <= i < |g| ==> IsGroupChar(g[i])
  }

  /** The longest prefix of `s` made of group characters (the greedy `*`). */
  function GroupRun(s: string): (g: string)
    ensures g <= s
    ensures forall i :: 0 <= i < |g| ==> IsGroupChar(g[i])
    ensures |g| == |s| || !IsGroupChar(s[|g|])
  {
    if s != [] && IsGroupChar(s[0]) then [s[0]] + GroupRun(s[1..]) else []
  }

  /** The position of the leftmost digit, where a regex search for the
      pattern starts its match. */
  function FirstDigitIndex(s: string): (r: Option<nat>)
    ensures r.None? ==> !HasDigit(s)
    ensures r.Some? ==> r.value < |s| && IsDigit(s[r.value]) && !HasDigit(s[..r.value])
  {
    if s == [] then None
    else if IsDigit(s[0]) then Some(0)
    else match FirstDigitIndex(s[1..])
      case None => None
      case Some(k) =>
        assert s[..k + 1] == [s[0]] + s[1..][..k];
        Some(k + 1)
  }

  /** `re.search(r"(\d[\d\s\u00A0]*)", s).group(1)`, if there is a match. */
  function FirstGroup(s: string): (r: Option<string>)
    ensures r.None? <==> !HasDigit(s)
    ensures r.Some? ==> IsGroup(r.value)
  {
    match FirstDigitIndex(s)
    case None => None
    case Some(k) => Some(GroupRun(s[k..]))
  }

  /** `re.findall(r"(\d[\d\s\u00A0]*)", s)`: the non-overlapping matches, left to right. */
  function AllGroups(s: string): (gs: seq<string>)
    ensures forall i :: 0 <= i < |gs| ==> IsGroup(gs[i])
    ensures gs == [] <==> !HasDigit(s)
    ensures gs != [] ==> FirstGroup(s) == Some(gs[0])
    decreases |s|
  {
    match FirstDigitIndex(s)
    case None => []
    case Some(k) =>
      var g := GroupRun(s[k..]);
      [g] + AllGroups(s[k + |g|..])
  }

  function Concat(gs: seq<string>): string {
    if gs == [] then [] else gs[0] + Concat(gs[1..])
  }

  lemma {:induction false} NoDigitsOf(s: string)
    requires !HasDigit(s)
    ensures DigitsOf(s) == []
  {
    if s != [] {
      assert !HasDigit(s[1..]) by {
        forall i | 0 <= i < |s[1..]| ensures !IsDigit(s[1..][i]) {
          assert s[1..][i] == s[i + 1];
        }
      }
      NoDigitsOf(s[1..]);
    }
  }

  lemma DigitsOfAroundGroup(p: string, g: string, r: string)
    requires !HasDigit(p)
    ensures DigitsOf(p + g + r) == DigitsOf(g) + DigitsOf(r)
  {
    NoDigitsOf(p);
    DigitsOfAppend(p + g, r);
    DigitsOfAppend(p, g);
  }

  lemma SplitAround(s: string, k: nat, g: string)
    requires k <= |s| && g <= s[k..]
    ensures s == s[..k] + g + s[k + |g|..]
  {
    assert s[k..] == g + s[k + |g|..];
    assert s == s[..k] + s[k..];
  }

  /** One step of `findall`: the text up to the first match, the match, the rest. */
  lemma AllGroupsStep(s: string, k: nat)
    requires FirstDigitIndex(s) == Some(k)
    ensures var g := GroupRun(s[k..]);
      && s == s[..k] + g + s[k + |g|..]
      && AllGroups(s) == [g] + AllGroups(s[k + |g|..])
      && !HasDigit(s[..k])
  {
    SplitAround(s, k, GroupRun(s[k..]));
  }

  /** `findall` loses no digit: the matches together hold every digit of the text, in order. */
  lemma {:induction false} AllGroupsKeepEveryDigit(s: string)
    ensures DigitsOf(Concat(AllGroups(s))) == DigitsOf(s)
    decreases |s|
  {
    match FirstDigitIndex(s)
    case None =>
      NoDigitsOf(s);
    case Some(k) =>
      var g := GroupRun(s[k..]);
      var rest := s[k + |g|..];
      var gs := AllGroups(rest);
      AllGroupsStep(s, k);
      DigitsOfAroundGroup(s[..k], g, rest);
      assert ([g] + gs)[1..] == gs;
      AllGroupsKeepEveryDigit(rest);
      DigitsOfAppend(g, Concat(gs));
  }

  /** `.replace(" ", "").replace("\u00A0", "")`. */
  function RemoveSeparators(s: string): (t: string)
    ensures forall i :: 0 <= i < |t| ==> !IsSeparator(t[i])
    ensures DigitsOf(t) == DigitsOf(s)
  {
    if s == [] then []
    else if IsSeparator(s[0]) then RemoveSeparators(s[1..])
    else [s[0]] + RemoveSeparators(s[1..])
  }

  /** Separator removal works character by character: each character that is
      not a separator is kept, in its place, and each separator is dropped. */
  lemma {:induction false} RemoveSeparatorsAppend(a: string, b: string)
    ensures RemoveSeparators(a + b) == RemoveSeparators(a) + RemoveSeparators(b)
  {
    if a == [] {
      assert a + b == b;
    } else {
      assert (a + b)[1..] == a[1..] + b;
      RemoveSeparatorsAppend(a[1..], b);
    }
  }

  lemma RemoveSeparatorsOne(c: char)
    ensures RemoveSeparators([c]) == if IsSeparator(c) then [] else [c]
  {
    assert [c][1..] == [];
  }

  /** Python's `int()` on a string of ASCII digits and white space: white
      space at the ends is ignored, anything else makes it fail. (Signs and
      underscores, which `int()` also reads, cannot occur in a group.) */
  function ParseInt(t: string): (r: Option<nat>)
  {
    var u := Strip(t);
    if u != [] && AllDigits(u) then Some(Value(u)) else None
  }

  /** The `to_int` of the salary reader and the conversion in `extract_num`:
      separators removed, then `int()`, with `None` where it raises. */
  function GroupValue(g: string): (r: Option<nat>)
  {
    ParseInt(RemoveSeparators(g))
  }

  lemma {:induction false} StripKeepsDigits(s: string)
    ensures DigitsOf(Strip(s)) == DigitsOf(s)
    decreases |s|
  {
    if s == [] {
    } else if IsSpace(s[0]) {
      assert s == [s[0]] + s[1..];
      StripKeepsDigits(s[1..]);
      DigitsOfAppend([s[0]], s[1..]);
    } else if IsSpace(s[|s| - 1]) {
      assert s == s[..|s| - 1] + [s[|s| - 1]];
      StripKeepsDigits(s[..|s| - 1]);
      DigitsOfAppend(s[..|s| - 1], [s[|s| - 1]]);
    }
  }

  lemma {:induction false} DigitsOfAllDigits(s: string)
    requires AllDigits(s)
    ensures DigitsOf(s) == s
  {
    if s != [] {
      DigitsOfAllDigits(s[1..]);
    }
  }

  /** Whenever the conversion succeeds, its value is the number spelled by
      the digits of the group, read in order. */
  lemma GroupValueIsItsDigits(g: string)
    requires GroupValue(g).Some?
    ensures GroupValue(g) == Some(Value(DigitsOf(g)))
  {
    var t := RemoveSeparators(g);
    StripKeepsDigits(t);
    DigitsOfAllDigits(Strip(t));
  }

  lemma {:induction false} RemoveSeparatorsOfGrouped(g: string)
    requires forall i :: 0 <= i < |g| ==> IsDigit(g[i]) || IsSeparator(g[i])
    ensures RemoveSeparators(g) == DigitsOf(g)
  {
    if g != [] {
      RemoveSeparatorsOfGrouped(g[1..]);
    }
  }

  /** A group made only of digits, spaces and no-break spaces always converts,
      to the number its digits spell: "100 000" reads as 100000. */
  lemma GroupedDigitsConvert(g: string)
    requires g != [] && IsDigit(g[0])
    requires forall i :: 0 <= i < |g| ==> IsDigit(g[i]) || IsSeparator(g[i])
    ensures GroupValue(g) == Some(Value(DigitsOf(g)))
  {
    RemoveSeparatorsOfGrouped(g);
    var d := DigitsOf(g);
    assert d != [] by {
      assert d == [g[0]] + DigitsOf(g[1..]);
    }
    ParseIntOfDigits(d);
  }

  /** A stretch without separators passes through separator removal unchanged. */
  lemma {:induction false} RemoveSeparatorsKeeps(a: string, m: string, b: string)
    requires forall i :: 0 <= i < |m| ==> !IsSeparator(m[i])
    ensures RemoveSeparators(a + m + b) == RemoveSeparators(a) + m + RemoveSeparators(b)
  {
    RemoveSeparatorsAppend(a + m, b);
    RemoveSeparatorsAppend(a, m);
    NoSeparatorsKept(m);
  }

  lemma {:induction false} NoSeparatorsKept(m: string)
    requires forall i :: 0 <= i < |m| ==> !IsSeparator(m[i])
    ensures RemoveSeparators(m) == m
  {
    if m != [] {
      NoSeparatorsKept(m[1..]);
    }
  }

  /** `int()` fails on a text with white space anywhere between two digits. */
  lemma InnerSpaceFails(t: string, i: nat, j: nat, k: nat)
    requires i < j < k < |t| && IsDigit(t[i]) && IsSpace(t[j]) && IsDigit(t[k])
    ensures ParseInt(t).None?
  {
    StripKeepsInner(t, i, j, k);
    var u := Strip(t);
    var x :| 0 <= x < |u| && u[x] == t[j];
    assert !IsDigit(u[x]);
  }

  /** `int()` ignores white space at both ends: "  100\n" reads as 100. */
  lemma ParseIntAround(a: string, d: string, b: string)
    requires AllSpace(a) && AllSpace(b) && d != [] && AllDigits(d)
    ensures ParseInt(a + d + b) == Some(Value(d))
  {
    assert IsDigit(d[0]) && IsDigit(d[|d| - 1]);
    StripAround(a, d, b);
  }

  /** A character that is not a separator survives separator removal. */
  lemma {:induction false} KeptIn(p: string, i: nat)
    requires i < |p| && !IsSeparator(p[i])
    ensures p[i] in RemoveSeparators(p)
  {
    var a, c, b := p[..i], p[i], p[i + 1..];
    assert p == a + [c] + b;
    RemoveSeparatorsKeeps(a, [c], b);
    var ra := RemoveSeparators(a);
    assert RemoveSeparators(p) == ra + [c] + RemoveSeparators(b);
    assert RemoveSeparators(p)[|ra|] == c;
  }

  /** Only spaces and no-break spaces are removed: any other white space
      anywhere between two digits (a tab, a thin space) survives `strip()`
      and makes `int()` fail, so the group has no value. */
  lemma OtherSpaceBetweenDigitsFails(g: string, i: nat, j: nat, k: nat)
    requires i < j < k < |g| && IsDigit(g[i]) && IsDigit(g[k])
    requires IsSpace(g[j]) && !IsSeparator(g[j])
    ensures GroupValue(g).None?
  {
    var p, q := g[..j], g[j + 1..];
    assert g == p + [g[j]] + q;
    RemoveSeparatorsKeeps(p, [g[j]], q);
    var rp, rq := RemoveSeparators(p), RemoveSeparators(q);
    assert p[i] == g[i] && q[k - j - 1] == g[k];
    KeptIn(p, i);
    KeptIn(q, k - j - 1);
    var i' :| 0 <= i' < |rp| && rp[i'] == g[i];
    var k' :| 0 <= k' < |rq| && rq[k'] == g[k];
    var t := rp + [g[j]] + rq;
    assert t[i'] == g[i] && t[|rp|] == g[j] && t[|rp| + 1 + k'] == g[k];
    InnerSpaceFails(t, i', |rp|, |rp| + 1 + k');
  }

  lemma {:induction false} RemoveSeparatorsOfSpace(w: string)
    requires AllSpace(w)
    ensures AllSpace(RemoveSeparators(w))
  {
    if w != [] {
      RemoveSeparatorsOfSpace(w[1..]);
    }
  }

  /** A group of digits and separators followed by other white space (a
      match may end in a line break) still converts: "100\n" reads as 100. */
  lemma {:induction false} GroupValueTrailingSpace(d: string, w: string)
    requires d != [] && IsDigit(d[0])
    requires forall i :: 0 <= i < |d| ==> IsDigit(d[i]) || IsSeparator(d[i])
    requires AllSpace(w)
    ensures GroupValue(d + w) == Some(Value(DigitsOf(d)))
  {
    RemoveSeparatorsAppend(d, w);
    RemoveSeparatorsOfGrouped(d);
    RemoveSeparatorsOfSpace(w);
    var digits, rw := DigitsOf(d), RemoveSeparators(w);
    assert digits != [] by {
      assert digits == [d[0]] + DigitsOf(d[1..]);
    }
    assert RemoveSeparators(d + w) == digits + rw;
    assert digits + rw == [] + digits + rw;
    ParseIntAround([], digits, rw);
  }

  lemma ParseIntOfDigits(d: string)
    requires d != [] && AllDigits(d)
    ensures ParseInt(d) == Some(Value(d))
  {
    assert IsDigit(d[0]) && IsDigit(d[|d| - 1]);
    assert Strip(d) == d;
  }

  /** `extract_num`: the first match converted, `None` without a match or when
      `int()` fails. */
  function ExtractNum(text: string): (r: Option<nat>)
    ensures !HasDigit(text) ==> r.None?
    ensures r.Some? ==> FirstGroup(text).Some? && r == Some(Value(DigitsOf(FirstGroup(text).value)))
    ensures FirstGroup(text).Some? ==> r == GroupValue(FirstGroup(text).value)
  {
    match FirstGroup(text)
    case None => None
    case Some(g) =>
      if GroupValue(g).Some? then GroupValueIsItsDigits(g); GroupValue(g) else None
  }

  lemma {:induction false} GroupRunOfGroup(g: string, q: string)
    requires forall i :: 0 <= i < |g| ==> IsGroupChar(g[i])
    requires q == [] || !IsGroupChar(q[0])
    ensures GroupRun(g + q) == g
  {
    if g == [] {
      assert g + q == q;
    } else {
      assert (g + q)[1..] == g[1..] + q;
      GroupRunOfGroup(g[1..], q);
    }
  }

  lemma {:induction false} FirstDigitIndexAfterPrefix(p: string, s: string)
    requires !HasDigit(p) && s != [] && IsDigit(s[0])
    ensures FirstDigitIndex(p + s) == Some(|p|)
  {
    if p == [] {
      assert p + s == s;
    } else {
      assert (p + s)[1..] == p[1..] + s;
      assert !HasDigit(p[1..]) by {
        forall i | 0 <= i < |p[1..]| ensures !IsDigit(p[1..][i]) {
          assert p[1..][i] == p[i + 1];
        }
      }
      FirstDigitIndexAfterPrefix(p[1..], s);
      assert !IsDigit(p[0]);
    }
  }

  /** The search finds a match right after a digit-free prefix, and the
      greedy `*` stops where the next character leaves the class. */
  lemma FirstGroupAfterPrefix(p: string, g: string, q: string)
    requires !HasDigit(p) && IsGroup(g)
    requires q == [] || !IsGroupChar(q[0])
    ensures FirstDigitIndex(p + g + q) == Some(|p|)
    ensures (p + g + q)[|p|..] == g + q && (p + g + q)[|p| + |g|..] == q
    ensures FirstGroup(p + g + q) == Some(g)
  {
    assert p + g + q == p + (g + q);
    FirstDigitIndexAfterPrefix(p, g + q);
    GroupRunOfGroup(g, q);
  }

  /** Reference reading of `extract_num`: a text made of a digit-free prefix,
      a grouped number and a tail that does not continue the group yields
      exactly that number; "Найдено 1 234 567 вакансий" reads as 1234567. */
  lemma ExtractNumOfGroupedText(p: string, g: string, q: string)
    requires !HasDigit(p)
    requires g != [] && IsDigit(g[0])
    requires forall i :: 0 <= i < |g| ==> IsDigit(g[i]) || IsSeparator(g[i])
    requires q == [] || !IsGroupChar(q[0])
    ensures ExtractNum(p + g + q) == Some(Value(DigitsOf(g)))
  {
    assert IsGroup(g);
    FirstGroupAfterPrefix(p, g, q);
    GroupedDigitsConvert(g);
  }

  /** `findall` splits a text made of a digit-free prefix, one full match and
      a tail that does not continue it into that match and the tail's matches. */
  lemma AllGroupsSplit(p: string, g: string, q: string)
    requires !HasDigit(p)
    requires IsGroup(g)
    requires q == [] || !IsGroupChar(q[0])
    ensures AllGroups(p + g + q) == [g] + AllGroups(q)
  {
    FirstGroupAfterPrefix(p, g, q);
  }

  /** Two matches separated by digit-free text are exactly what `findall`
      returns for that text. */
  lemma AllGroupsOfTwo(p: string, g1: string, m: string, g2: string, q: string)
    requires !HasDigit(p) && !HasDigit(m) && !HasDigit(q)
    requires m != [] && !IsGroupChar(m[0])
    requires q == [] || !IsGroupChar(q[0])
    requires IsGroup(g1) && IsGroup(g2)
    ensures AllGroups(p + g1 + m + g2 + q) == [g1, g2]
  {
    var r := m + g2 + q;
    assert r[0] == m[0];
    assert p + g1 + m + g2 + q == p + g1 + r by {
      assert p + g1 + m + g2 + q == (p + g1) + (m + g2 + q);
    }
    AllGroupsSplit(p, g1, r);
    AllGroupsSplit(m, g2, q);
    assert AllGroups(q) == [];
    assert [g1] + ([g2] + []) == [g1, g2];
  }
}
