/**
  Class and subclass values and Python's `sorted` over a set of them.
  A value is a string or `None`; `sorted` compares strings by code point
  and raises `TypeError` as soon as it has to compare `None` with a string.
 */
module Values {
  import opened Wrappers
  import Text

  /** The `clase`/`subclase` of a knowledge-base entry: a string or `None`. */
  type Value = Option<string>

  /** The comparison `sorted` performs; it is defined only between two strings. */
  predicate Before(a: Value, b: Value) {
    a.Some? && b.Some? && Text.Less(a.value, b.value)
  }

  /** Strictly ascending, hence without repetitions. */
  predicate Ascending(s: seq<Value>) {
    forall i, j :: 0 <= i < j < |s| ==> Before(s[i], s[j])
  }

  /**
    `sorted(set(vals))` does not raise: the set never holds `None` beside a
    string. A set holding only `None` has one element and needs no comparison.
   */
  predicate Comparable(vals: seq<Value>) {
    None in vals ==> forall k :: 0 <= k < |vals| ==> vals[k] == None
  }

  /** Insertion of one value into an ascending list, skipping it if present. */
  function Insert(x: Value, s: seq<Value>): (r: seq<Value>)
    requires Ascending(s)
    requires forall k :: 0 <= k < |s| ==> s[k].Some? == x.Some?
    ensures Ascending(r)
    ensures forall v :: v in r <==> v == x || v in s
    ensures forall k :: 0 <= k < |r| ==> r[k].Some? == x.Some?
    ensures |r| <= |s| + 1
    decreases |s|
  {
    if |s| == 0 then [x]
    else if x == s[0] then s
    else if Before(x, s[0]) then
      assert forall k :: 0 < k < |s| ==> Before(x, s[k]) by {
        forall k | 0 < k < |s|
          ensures Before(x, s[k])
        {
          Text.LessTransitive(x.value, s[0].value, s[k].value);
        }
      }
      [x] + s
    else
      assert Before(s[0], x) by {
        if x.Some? {
          Text.LessTotal(x.value, s[0].value);
        }
      }
      var rest := Insert(x, s[1..]);
      assert forall v :: v in s[1..] ==> Before(s[0], v);
      [s[0]] + rest
  }

  /**
    `sorted(set(vals))`: the distinct values of `vals` in ascending order.
   */
  function Sorted(vals: seq<Value>): (r: seq<Value>)
    requires Comparable(vals)
    ensures Ascending(r)
    ensures forall v :: v in r <==> v in vals
    ensures |r| <= |vals|
    decreases |vals|
  {
    if |vals| == 0 then []
    else
      var init := vals[..|vals| - 1];
      var last := vals[|vals| - 1];
      assert vals == init + [last];
      assert Comparable(init);
      var prev := Sorted(init);
      assert forall k :: 0 <= k < |prev| ==> prev[k].Some? == last.Some? by {
        forall k | 0 <= k < |prev|
          ensures prev[k].Some? == last.Some?
        {
          assert prev[k] in init;
        }
      }
      Insert(last, prev)
  }

  /**
    An ascending list is determined by its elements: the order in which
    questions about values are asked depends only on which values occur,
    not on where they occur.
   */
  lemma {:induction false} AscendingUnique(a: seq<Value>, b: seq<Value>)
    requires Ascending(a) && Ascending(b)
    requires forall v :: v in a <==> v in b
    ensures a == b
    decreases |a|
  {
    assert |b| > 0 ==> b[0] in a;
    if |a| > 0 {
      assert a[0] in b;
      assert |b| > 0;
      if a[0] != b[0] {
        assert b[0] in a;
        var i :| 0 <= i < |a| && a[i] == b[0];
        var j :| 0 <= j < |b| && b[j] == a[0];
        assert Before(a[0], b[0]);
        assert Before(b[0], a[0]);
        Text.LessAsymmetric(a[0].value, b[0].value);
        assert false;
      }
      forall v
        ensures v in a[1..] <==> v in b[1..]
      {
        if v in a[1..] {
          var i :| 1 <= i < |a| && a[i] == v;
          assert Before(a[0], v);
          Text.LessIrreflexive(v.value);
          assert v in b && v != b[0];
        }
        if v in b[1..] {
          var i :| 1 <= i < |b| && b[i] == v;
          assert Before(b[0], v);
          Text.LessIrreflexive(v.value);
          assert v in a && v != a[0];
        }
      }
      AscendingUnique(a[1..], b[1..]);
      assert a == [a[0]] + a[1..] && b == [b[0]] + b[1..];
    }
  }
}
