/**
  `_evaluate_candidates`: every candidate is scored by the characteristics
  answered "yes", and the first candidate to reach the highest score is
  the guess.
 */
module Scoring {
  import opened Wrappers
  import opened Knowledge

  /** `respuestas.get(c, False)`: an unanswered characteristic counts as "no". */
  predicate Holds(resp: map<string, bool>, c: string) {
    c in resp && resp[c]
  }

  /**
    `sum(1 for c in chars if respuestas.get(c, False))`: one point per
    entry of `chars`, so a characteristic listed twice scores twice.
   */
  function Score(chars: seq<string>, resp: map<string, bool>): (n: nat)
    ensures n <= |chars|
    decreases |chars|
  {
    if |chars| == 0 then 0
    else Score(chars[..|chars| - 1], resp) + (if Holds(resp, chars[|chars| - 1]) then 1 else 0)
  }

  /** The positions of `chars` whose characteristic was answered "yes". */
  function YesPositions(chars: seq<string>, resp: map<string, bool>): set<nat> {
    set k: nat | k < |chars| && Holds(resp, chars[k])
  }

  /** The score is the number of positions answered "yes". */
  lemma {:induction false} ScoreCountsPositions(chars: seq<string>, resp: map<string, bool>)
    ensures Score(chars, resp) == |YesPositions(chars, resp)|
    decreases |chars|
  {
    if |chars| > 0 {
      var n := |chars| - 1;
      var init := chars[..n];
      ScoreCountsPositions(init, resp);
      if Holds(resp, chars[n]) {
        assert YesPositions(chars, resp) == YesPositions(init, resp) + {n};
      } else {
        assert YesPositions(chars, resp) == YesPositions(init, resp);
      }
    }
  }

  /** Scores add up over concatenation, repetitions included. */
  lemma {:induction false} ScoreAppend(xs: seq<string>, ys: seq<string>, resp: map<string, bool>)
    ensures Score(xs + ys, resp) == Score(xs, resp) + Score(ys, resp)
    decreases |ys|
  {
    if |ys| > 0 {
      var m := |ys| - 1;
      var zs := xs + ys;
      assert zs[..|zs| - 1] == xs + ys[..m];
      assert zs[|zs| - 1] == ys[m];
      ScoreAppend(xs, ys[..m], resp);
    } else {
      assert xs + ys == xs;
    }
  }

  function ScoreOf(kb: KnowledgeBase, a: string, resp: map<string, bool>): nat
    requires a in kb.entries
  {
    Score(kb.entries[a].caracteristicas, resp)
  }

  /**
    Position `k` holds the first candidate with the highest score: nobody
    scores more, and everybody before it scores less.
   */
  predicate FirstMax(kb: KnowledgeBase, cands: seq<string>, resp: map<string, bool>, k: int)
    requires forall a :: a in cands ==> a in kb.entries
  {
    && 0 <= k < |cands|
    && (forall j :: 0 <= j < |cands| ==> ScoreOf(kb, cands[j], resp) <= ScoreOf(kb, cands[k], resp))
    && (forall j :: 0 <= j < k ==> ScoreOf(kb, cands[j], resp) < ScoreOf(kb, cands[k], resp))
  }

  /** At most one position is the first maximum. */
  lemma FirstMaxUnique(kb: KnowledgeBase, cands: seq<string>, resp: map<string, bool>, k1: int, k2: int)
    requires forall a :: a in cands ==> a in kb.entries
    requires FirstMax(kb, cands, resp, k1) && FirstMax(kb, cands, resp, k2)
    ensures k1 == k2
  {
    assert ScoreOf(kb, cands[k1], resp) == ScoreOf(kb, cands[k2], resp);
  }

  /** The loop's running pair `(best_score, best)`. */
  datatype Running = Running(score: int, best: Option<string>)

  /**
    The loop of `_evaluate_candidates` after it has seen `cands`: starting
    from `(-1, None)`, a candidate replaces the running best only when its
    score is strictly greater.
   */
  function Evaluate(kb: KnowledgeBase, cands: seq<string>, resp: map<string, bool>): (r: Running)
    requires forall a :: a in cands ==> a in kb.entries
    ensures r.best.None? <==> |cands| == 0
    ensures |cands| == 0 ==> r.score == -1
    ensures r.best.Some? ==> r.best.value in cands
    decreases |cands|
  {
    if |cands| == 0 then Running(-1, None)
    else
      var prev := Evaluate(kb, cands[..|cands| - 1], resp);
      assert prev.best.Some? ==> prev.best.value in cands;
      var s := ScoreOf(kb, cands[|cands| - 1], resp);
      if s > prev.score then Running(s, Some(cands[|cands| - 1])) else prev
  }

  /**
    With at least one candidate, the guess is the first candidate with the
    highest score, and the running score is that score.
   */
  lemma {:induction false} EvaluateFirstMax(kb: KnowledgeBase, cands: seq<string>, resp: map<string, bool>)
    returns (k: int)
    requires forall a :: a in cands ==> a in kb.entries
    requires |cands| > 0
    ensures FirstMax(kb, cands, resp, k)
    ensures Evaluate(kb, cands, resp) == Running(ScoreOf(kb, cands[k], resp), Some(cands[k]))
    decreases |cands|
  {
    var n := |cands| - 1;
    var init := cands[..n];
    assert forall j :: 0 <= j < n ==> cands[j] == init[j];
    if n == 0 {
      k := 0;
    } else {
      var k0 := EvaluateFirstMax(kb, init, resp);
      if ScoreOf(kb, cands[n], resp) > ScoreOf(kb, init[k0], resp) {
        k := n;
      } else {
        k := k0;
      }
    }
  }
}
