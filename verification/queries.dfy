/**
  The questions the game asks of the knowledge base: the distinct classes,
  the distinct subclasses of a class, the animals of a class and subclass,
  and the characteristics still to ask about them.
 */
module Queries {
  import opened Wrappers
  import opened Seqs
  import opened Values
  import opened Knowledge

  /** The cap `MAX_PREGUNTAS` on characteristic questions. */
  const MaxPreguntas: nat := 15

  /** `d["clase"] for d in conocimiento.values()`, repetitions kept. */
  function ClassValues(kb: KnowledgeBase): (r: seq<Value>)
    requires kb.Valid()
    ensures |r| == |kb.order|
    ensures forall v :: v in r <==> exists a :: a in kb.entries && kb.entries[a].clase == v
  {
    var r := seq(|kb.order|, i requires 0 <= i < |kb.order| => kb.entries[kb.order[i]].clase);
    assert forall a :: a in kb.entries ==> kb.entries[a].clase in r by {
      forall a | a in kb.entries
        ensures kb.entries[a].clase in r
      {
        var i :| 0 <= i < |kb.order| && kb.order[i] == a;
        assert r[i] == kb.entries[a].clase;
      }
    }
    r
  }

  /** The subclasses of those of `names` whose class is `c`, in order, repetitions kept. */
  function SubclassValuesOf(kb: KnowledgeBase, names: seq<string>, c: Value): (r: seq<Value>)
    requires forall a :: a in names ==> a in kb.entries
    ensures |r| <= |names|
    ensures forall v :: v in r <==>
      exists a :: a in names && kb.entries[a].clase == c && kb.entries[a].subclase == v
  {
    if |names| == 0 then []
    else
      var e := kb.entries[names[0]];
      var rest := SubclassValuesOf(kb, names[1..], c);
      assert forall a :: a in names <==> a == names[0] || a in names[1..];
      (if e.clase == c then [e.subclase] else []) + rest
  }

  /** `d["subclase"] for d in conocimiento.values() if d["clase"] == c`. */
  function SubclassValues(kb: KnowledgeBase, c: Value): (r: seq<Value>)
    requires kb.Valid()
    ensures |r| <= |kb.order|
    ensures forall v :: v in r <==>
      exists a :: a in kb.entries && kb.entries[a].clase == c && kb.entries[a].subclase == v
  {
    SubclassValuesOf(kb, kb.order, c)
  }

  /** The class questions, `sorted({d["clase"] ...})`. */
  function Classes(kb: KnowledgeBase): (r: seq<Value>)
    requires kb.Valid() && Comparable(ClassValues(kb))
    ensures Ascending(r)
    ensures |r| <= |kb.order|
    ensures forall v :: v in r <==> exists a :: a in kb.entries && kb.entries[a].clase == v
  {
    Sorted(ClassValues(kb))
  }

  /** The subclass questions once `c` is confirmed, `sorted({d["subclase"] ... if d["clase"] == c})`. */
  function Subclasses(kb: KnowledgeBase, c: Value): (r: seq<Value>)
    requires kb.Valid() && Comparable(SubclassValues(kb, c))
    ensures Ascending(r)
    ensures |r| <= |kb.order|
    ensures forall v :: v in r <==>
      exists a :: a in kb.entries && kb.entries[a].clase == c && kb.entries[a].subclase == v
  {
    Sorted(SubclassValues(kb, c))
  }

  /** Holds when `r` is `s` with some elements left out, the rest in their order. */
  predicate Subsequence<T(==)>(r: seq<T>, s: seq<T>)
    decreases |s|
  {
    |r| == 0 || (|s| > 0 && ((r[0] == s[0] && Subsequence(r[1..], s[1..])) || Subsequence(r, s[1..])))
  }

  /** Those of `names` with class `c` and subclass `sc`, in the order of `names`. */
  function CandidatesOf(kb: KnowledgeBase, names: seq<string>, c: Value, sc: Value): (r: seq<string>)
    requires forall a :: a in names ==> a in kb.entries
    ensures forall a :: a in r <==>
      a in names && kb.entries[a].clase == c && kb.entries[a].subclase == sc
    ensures Subsequence(r, names)
    ensures Distinct(names) ==> Distinct(r)
  {
    if |names| == 0 then []
    else
      var a := names[0];
      var rest := CandidatesOf(kb, names[1..], c, sc);
      assert forall b :: b in names <==> b == a || b in names[1..];
      if kb.entries[a].clase == c && kb.entries[a].subclase == sc then
        assert ([a] + rest)[1..] == rest;
        [a] + rest
      else rest
  }

  /**
    `candidatos`: exactly the animals with class `c` and subclass `sc`, each
    once, in the dictionary's insertion order.
   */
  function Candidates(kb: KnowledgeBase, c: Value, sc: Value): (r: seq<string>)
    requires kb.Valid()
    ensures forall a :: a in r <==> a in kb.entries && kb.entries[a].clase == c && kb.entries[a].subclase == sc
    ensures Subsequence(r, kb.order)
    ensures Distinct(r)
  {
    CandidatesOf(kb, kb.order, c, sc)
  }

  /** Every characteristic of every candidate, candidate by candidate, repetitions kept. */
  function AllChars(kb: KnowledgeBase, cands: seq<string>): (r: seq<string>)
    requires forall a :: a in cands ==> a in kb.entries
    ensures forall x :: x in r <==> exists a :: a in cands && x in kb.entries[a].caracteristicas
  {
    if |cands| == 0 then []
    else
      var rest := AllChars(kb, cands[1..]);
      assert forall a :: a in cands <==> a == cands[0] || a in cands[1..];
      kb.entries[cands[0]].caracteristicas + rest
  }

  /** Those of `xs` not yet answered, in order. */
  function Unanswered(xs: seq<string>, resp: map<string, bool>): (r: seq<string>)
    ensures forall x :: x in r <==> x in xs && x !in resp
  {
    if |xs| == 0 then []
    else (if xs[0] in resp then [] else [xs[0]]) + Unanswered(xs[1..], resp)
  }

  /**
    The set `todas` is built from: the characteristics of some candidate
    that have no answer yet.
   */
  function Pending(kb: KnowledgeBase, cands: seq<string>, resp: map<string, bool>): set<string>
    requires forall a :: a in cands ==> a in kb.entries
  {
    set x | x in AllChars(kb, cands) && x !in resp
  }

  /**
    `caracteristicas_ordenadas`: the pending characteristics, shuffled by
    `random.shuffle` (whose draws are `draws`) and cut to `MAX_PREGUNTAS`.
    No characteristic occurs twice, each is pending, there are
    `min(15, |pending|)` of them, and when at most 15 are pending every one
    of them is listed.
   */
  function CharacteristicList(kb: KnowledgeBase, cands: seq<string>, resp: map<string, bool>, draws: seq<nat>)
    : (lista: seq<string>)
    requires forall a :: a in cands ==> a in kb.entries
    ensures Distinct(lista)
    ensures forall x :: x in lista ==> x in Pending(kb, cands, resp)
    ensures |lista| == Min(MaxPreguntas, |Pending(kb, cands, resp)|)
    ensures |Pending(kb, cands, resp)| <= MaxPreguntas ==>
      forall x :: x in Pending(kb, cands, resp) ==> x in lista
  {
    var todas := Dedup(Unanswered(AllChars(kb, cands), resp));
    assert Elems(todas) == Pending(kb, cands, resp);
    DistinctCardinality(todas);
    var shuffled := Shuffle(todas, draws);
    assert forall x :: x in shuffled <==> x in todas by {
      forall x
        ensures x in shuffled <==> x in todas
      {
        assert x in shuffled <==> x in multiset(shuffled);
        assert x in todas <==> x in multiset(todas);
      }
    }
    Take(shuffled, MaxPreguntas)
  }
}
