/**
  Generic facts about sequences: duplicate-freedom, order-preserving
  de-duplication, slicing with Python's clamping, and the Fisher-Yates
  shuffle that CPython's `random.shuffle` performs.
 */
module Seqs {

  /** No element occurs twice. */
  predicate Distinct<T(==)>(s: seq<T>) {
    forall i, j :: 0 <= i < j < |s| ==> s[i] != s[j]
  }

  /** The set of elements of a sequence. */
  function Elems<T>(s: seq<T>): set<T> {
    set x | x in s
  }

  function Min(a: int, b: int): int {
    if a <= b then a else b
  }

  /** A sequence without duplicates has as many elements as its length. */
  lemma {:induction false} DistinctCardinality<T>(s: seq<T>)
    requires Distinct(s)
    ensures |Elems(s)| == |s|
  {
    if |s| > 0 {
      var t := s[..|s| - 1];
      DistinctCardinality(t);
      assert s == t + [s[|s| - 1]];
      assert Elems(s) == Elems(t) + {s[|s| - 1]};
      assert s[|s| - 1] !in Elems(t);
    }
  }

  /**
    Keeps the first occurrence of every element, in order: the sequence
    analogue of building a Python set while remembering insertion order.
   */
  function Dedup<T(==,!new)>(xs: seq<T>): (r: seq<T>)
    ensures Distinct(r)
    ensures forall x :: x in r <==> x in xs
    ensures |r| <= |xs|
    decreases |xs|
  {
    if |xs| == 0 then []
    else
      var init := xs[..|xs| - 1];
      var last := xs[|xs| - 1];
      assert xs == init + [last];
      var d := Dedup(init);
      if last in d then d else d + [last]
  }

  /** `s[:n]` in Python: the first `n` elements, or all of `s` when shorter. */
  function Take<T>(s: seq<T>, n: nat): (r: seq<T>)
    ensures |r| == Min(n, |s|)
    ensures r == s[..|r|]
  {
    if |s| <= n then s else s[..n]
  }

  /** Exchanges the elements at positions `i` and `j`. */
  function Swap<T>(s: seq<T>, i: nat, j: nat): (r: seq<T>)
    requires i < |s| && j < |s|
    ensures |r| == |s|
    ensures multiset(r) == multiset(s)
    ensures Distinct(s) ==> Distinct(r)
  {
    s[i := s[j]][j := s[i]]
  }

  /**
    One pass of CPython's `random.shuffle`: for `i` from `top` down to 1 it
    exchanges position `i` with position `randbelow(i + 1)`. The values the
    random source would return are the parameter `draws`, read in the order
    the loop consumes them and reduced modulo `i + 1`; a missing draw reads
    as 0.
   */
  function ShuffleDown<T>(s: seq<T>, top: nat, draws: seq<nat>): (r: seq<T>)
    requires top < |s|
    ensures |r| == |s|
    ensures multiset(r) == multiset(s)
    ensures Distinct(s) ==> Distinct(r)
    decreases top
  {
    if top == 0 then s
    else
      var k := |s| - 1 - top;
      var j := (if k < |draws| then draws[k] else 0) % (top + 1);
      ShuffleDown(Swap(s, top, j), top - 1, draws)
  }

  /** `random.shuffle(s)` with the random draws made explicit. */
  function Shuffle<T>(s: seq<T>, draws: seq<nat>): (r: seq<T>)
    ensures |r| == |s|
    ensures multiset(r) == multiset(s)
    ensures Distinct(s) ==> Distinct(r)
  {
    if |s| <= 1 then s else ShuffleDown(s, |s| - 1, draws)
  }
}
