/** Host-side reduction of the per-work-group partial sums copied back from
    the device, over the reals (floating-point rounding is not modelled). */
module Reduction {

  /** The in-order sum `((0 + s[0]) + s[1]) + ...`, the fold the host loop performs. */
  function Sum(s: seq<real>): (r: real) {
    if s == [] then 0.0 else Sum(s[..|s| - 1]) + s[|s| - 1]
  }

  /** An independent reference: the same values summed from the front,
      `s[0] + (s[1] + (... + 0))`. */
  function SumFromFront(s: seq<real>): (r: real) {
    if s == [] then 0.0 else s[0] + SumFromFront(s[1..])
  }

  lemma {:induction false} SumCons(x: real, s: seq<real>)
    ensures Sum([x] + s) == x + Sum(s)
  {
    if s != [] {
      assert ([x] + s)[..|[x] + s| - 1] == [x] + s[..|s| - 1];
      SumCons(x, s[..|s| - 1]);
    }
  }

  /** Over the reals the bracketing of the fold does not matter: the left fold
      of the host loop equals the right fold from the front. */
  lemma {:induction false} SumOrderIndependent(s: seq<real>)
    ensures Sum(s) == SumFromFront(s)
  {
    if s != [] {
      assert s == [s[0]] + s[1..];
      SumCons(s[0], s[1..]);
      SumOrderIndependent(s[1..]);
    }
  }

  /** `Sum(t)` with the element at index `j` taken out and added last. */
  lemma {:induction false} SumRemove(t: seq<real>, j: nat)
    requires j < |t|
    ensures Sum(t) == Sum(t[..j] + t[j + 1..]) + t[j]
  {
    if j < |t| - 1 {
      var u := t[..|t| - 1];
      var last := t[|t| - 1];
      SumRemove(u, j);
      assert t[..j] + t[j + 1..] == (u[..j] + u[j + 1..]) + [last];
      LastSplit(u[..j] + u[j + 1..], last);
    } else {
      assert t[..j] + t[j + 1..] == t[..|t| - 1];
    }
  }

  /** Over the reals the order of the chunks does not matter either: any
      permutation of the partials has the same sum. */
  lemma {:induction false} SumPermutation(s: seq<real>, t: seq<real>)
    requires multiset(s) == multiset(t)
    ensures Sum(s) == Sum(t)
  {
    if s == [] {
      assert |t| == |multiset(t)| == 0;
    } else {
      var x := s[|s| - 1];
      var init := s[..|s| - 1];
      DropLastMultiset(s);
      var j := IndexOf(t, x);
      DropAtMultiset(t, j);
      SumPermutation(init, t[..j] + t[j + 1..]);
      SumRemove(t, j);
    }
  }

  lemma DropLastMultiset(s: seq<real>)
    requires s != []
    ensures multiset(s[..|s| - 1]) == multiset(s) - multiset{s[|s| - 1]}
    ensures s[|s| - 1] in multiset(s)
  {
    assert s == s[..|s| - 1] + [s[|s| - 1]];
  }

  lemma DropAtMultiset(t: seq<real>, j: nat)
    requires j < |t|
    ensures multiset(t[..j] + t[j + 1..]) == multiset(t) - multiset{t[j]}
  {
    assert t == t[..j] + [t[j]] + t[j + 1..];
  }

  /** Some index holding `x`, for an `x` that occurs in `t`. */
  lemma IndexOf(t: seq<real>, x: real) returns (j: nat)
    requires x in multiset(t)
    ensures j < |t| && t[j] == x
  {
    assert x in t;
    j :| 0 <= j < |t| && t[j] == x;
  }

  /** The loop of the host program: read `hChunks[0]`, `hChunks[1]`, ...,
      `hChunks[chunkCount - 1]` once each, in that order, accumulating them,
      then scale the total by the step width. `visited` records the indices
      read, in the order they are read. */
  method Reduce(hChunks: seq<real>, chunkCount: nat, stepWidth: real)
    returns (pi: real, ghost visited: seq<nat>)
    requires chunkCount <= |hChunks|
    ensures visited == Indices(chunkCount)
    ensures pi == Sum(hChunks[..chunkCount]) * stepWidth
    ensures chunkCount == |hChunks| ==> pi == Sum(hChunks) * stepWidth
  {
    pi := 0.0;
    visited := [];
    var i := 0;
    while i < chunkCount
      invariant 0 <= i <= chunkCount
      invariant visited == Indices(i)
      invariant pi == Sum(hChunks[..i])
    {
      assert hChunks[..i + 1][..i] == hChunks[..i];
      visited := visited + [i];
      pi := pi + hChunks[i];
      i := i + 1;
    }
    assert chunkCount == |hChunks| ==> hChunks[..chunkCount] == hChunks;
    pi := pi * stepWidth;
  }

  /** The ascending index sequence `[0, 1, ..., n - 1]`. */
  function Indices(n: nat): (r: seq<nat>)
    ensures |r| == n && forall k :: 0 <= k < n ==> r[k] == k
  {
    if n == 0 then [] else Indices(n - 1) + [n - 1]
  }

  /** In-order sum of the `count` per-step terms `f(from) .. f(from + count - 1)`. */
  function StepSum(f: nat -> real, from: nat, count: nat): (r: real) {
    if count == 0 then 0.0 else StepSum(f, from, count - 1) + f(from + count - 1)
  }

  /** The partials of `n` work-groups when group `g` sums the `width` steps
      starting at `g * width`. */
  function ChunkSums(f: nat -> real, width: nat, n: nat): (r: seq<real>)
    ensures |r| == n
    ensures forall g :: 0 <= g < n ==> r[g] == StepSum(f, g * width, width)
  {
    if n == 0 then [] else ChunkSums(f, width, n - 1) + [StepSum(f, (n - 1) * width, width)]
  }

  lemma {:induction false} StepSumSplit(f: nat -> real, from: nat, a: nat, b: nat)
    ensures StepSum(f, from, a + b) == StepSum(f, from, a) + StepSum(f, from + a, b)
  {
    if b > 0 {
      StepSumSplit(f, from, a, b - 1);
    }
  }

  /** Regrouping: summing the per-group partials gives the sum over every step
      of the launch, `n * width` steps in all. */
  lemma {:induction false} ChunkedSumIsStepSum(f: nat -> real, width: nat, n: nat)
    ensures Sum(ChunkSums(f, width, n)) == StepSum(f, 0, n * width)
  {
    if n > 0 {
      var m := n - 1;
      var done := m * width;
      var last := StepSum(f, done, width);
      NextMultiple(m, width);
      assert n * width == done + width;
      calc {
        Sum(ChunkSums(f, width, n));
        { assert ChunkSums(f, width, n) == ChunkSums(f, width, m) + [last]; }
        Sum(ChunkSums(f, width, m) + [last]);
        { LastSplit(ChunkSums(f, width, m), last); }
        Sum(ChunkSums(f, width, m)) + last;
        { ChunkedSumIsStepSum(f, width, m); }
        StepSum(f, 0, done) + last;
        { StepSumSplit(f, 0, done, width); }
        StepSum(f, 0, done + width);
      }
    }
  }

  lemma LastSplit(s: seq<real>, x: real)
    ensures Sum(s + [x]) == Sum(s) + x
  {
    assert (s + [x])[..|s|] == s;
  }

  lemma NextMultiple(m: nat, width: nat)
    ensures m * width + width == (m + 1) * width
  {
  }
}
