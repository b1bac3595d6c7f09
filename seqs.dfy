/** Order-preserving de-duplication and Python slicing of string lists,
    shared by the link discovery of the search page and the skill list of a
    vacancy page. */
module Seqs {

  predicate NoDuplicates(s: seq<string>) {
    forall i, j :: 0 <= i < j < |s| ==> s[i] != s[j]
  }

  /** The elements of `xs` in the order of their first occurrence, each once:
      what a loop that appends an element not yet seen produces. */
  function Distinct(xs: seq<string>): (r: seq<string>)
    ensures forall x :: x in r <==> x in xs
    ensures NoDuplicates(r)
    ensures |r| <= |xs|
  {
    if xs == [] then []
    else
      var r := Distinct(xs[..|xs| - 1]);
      var x := xs[|xs| - 1];
      assert forall y :: y in xs <==> y in xs[..|xs| - 1] || y == x by {
        assert xs == xs[..|xs| - 1] + [x];
      }
      if x in r then r else r + [x]
  }

  /** The index of the first occurrence of `x` in `xs`. */
  function FirstIndex(xs: seq<string>, x: string): (i: nat)
    requires x in xs
    ensures i < |xs| && xs[i] == x && x !in xs[..i]
  {
    var init := xs[..|xs| - 1];
    assert xs == init + [xs[|xs| - 1]];
    if x in init then
      var i := FirstIndex(init, x);
      assert xs[..i] == init[..i];
      i
    else
      |xs| - 1
  }

  /** `Distinct` keeps the first-seen order: an element that occurs first
      earlier in the input comes earlier in the output. */
  lemma {:induction false} DistinctFirstSeenOrder(xs: seq<string>, i: nat, j: nat)
    requires i < j < |Distinct(xs)|
    ensures FirstIndex(xs, Distinct(xs)[i]) < FirstIndex(xs, Distinct(xs)[j])
  {
    var init := xs[..|xs| - 1];
    var r := Distinct(init);
    var x := xs[|xs| - 1];
    assert xs == init + [x];
    if x in r {
      DistinctFirstSeenOrder(init, i, j);
    } else if j < |r| {
      DistinctFirstSeenOrder(init, i, j);
    } else {
      assert Distinct(xs)[i] == r[i] && r[i] in init;
      assert Distinct(xs)[j] == x && x !in init;
    }
  }

  /** An element kept by `Distinct` is its first occurrence, and every first
      occurrence is kept: the output is the input with repeats struck out. */
  lemma {:induction false} DistinctAppend(xs: seq<string>, x: string)
    ensures Distinct(xs + [x]) == if x in xs then Distinct(xs) else Distinct(xs) + [x]
  {
    assert (xs + [x])[..|xs + [x]| - 1] == xs;
  }

  /** Python's `s[:n]`, negative `n` counting from the end. */
  function SliceTo(s: seq<string>, n: int): (r: seq<string>)
    ensures r <= s
    ensures 0 <= n ==> |r| == if n <= |s| then n else |s|
    ensures n < 0 ==> |r| == if -n <= |s| then |s| + n else 0
  {
    if 0 <= n then (if n <= |s| then s[..n] else s)
    else if -n <= |s| then s[..|s| + n]
    else []
  }
}
