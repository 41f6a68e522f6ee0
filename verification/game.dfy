/**
  A whole game: the Yes/No clicks of a player fed to the state machine one
  by one, until the game ends or the clicks run out.
 */
module Game {
  import opened Wrappers
  import opened Values
  import opened Knowledge
  import opened Queries
  import opened Engine

  /**
    No confirmed class can make `sorted` raise on its subclasses, so every
    "yes" to a class question can be answered.
   */
  ghost predicate SubclassesComparable(kb: KnowledgeBase)
    requires kb.Valid()
  {
    forall c :: Comparable(SubclassValues(kb, c))
  }

  /** How many characteristic questions the session can still ask. */
  function CharsLeft(s: Session): nat {
    match s.status
    case Finished(_) => 0
    case Asking(_) =>
      match s.phase
      case ClasePhase(_, _) => MaxPreguntas
      case SubclasePhase(_, _, _) => MaxPreguntas
      case CaracteristicasPhase(_, _, _, lista, pos) => Rest(|lista|, pos) + 1
      case AdivinanzaPhase(_, _, _, _) => 0
  }

  function CountCharacteristics(qs: seq<Question>): (n: nat)
    ensures n <= |qs|
  {
    if |qs| == 0 then 0
    else CountCharacteristics(qs[1..]) + (if qs[0].AskCaracteristica? then 1 else 0)
  }

  /** One answer uses up at most the characteristic question it answers. */
  lemma StepCharsLeft(kb: KnowledgeBase, s: Session, yes: bool, draws: seq<nat>)
    requires kb.Valid() && Inv(kb, s) && s.status.Asking?
    requires s.status.q.AskClase? && yes ==> Comparable(SubclassValues(kb, s.status.q.clase))
    ensures CharsLeft(Step(kb, s, yes, draws)) + (if s.status.q.AskCaracteristica? then 1 else 0) <= CharsLeft(s)
  {
    match s.status.q
    case AskClase(_) =>
    case AskSubclase(_) => SubclassAnswer(kb, s, yes, draws);
    case AskCaracteristica(_) => CharacteristicAnswer(kb, s, yes, draws);
    case AskAdivinanza(_) =>
  }

  /**
    Feeds `answers` to the session until the game ends. The result is the
    final session and the questions that were answered, in order. The
    invariant holds throughout; every answered question uses up rank and,
    for characteristics, one of the characteristic questions left; a game
    still asking has consumed every answer.
   */
  function Run(kb: KnowledgeBase, s: Session, answers: seq<bool>, draws: seq<nat>): (r: (Session, seq<Question>))
    requires kb.Valid() && Inv(kb, s) && SubclassesComparable(kb)
    ensures Inv(kb, r.0)
    ensures |r.1| <= |answers|
    ensures |r.1| + Rank(kb, r.0) <= Rank(kb, s)
    ensures CountCharacteristics(r.1) + CharsLeft(r.0) <= CharsLeft(s)
    ensures r.0.status.Asking? ==> |r.1| == |answers|
    decreases |answers|
  {
    if s.status.Finished? || |answers| == 0 then (s, [])
    else
      var q := s.status.q;
      var t := Step(kb, s, answers[0], draws);
      StepKeepsInv(kb, s, answers[0], draws);
      StepCharsLeft(kb, s, answers[0], draws);
      var r := Run(kb, t, answers[1..], draws);
      (r.0, [q] + r.1)
  }

  /** A run that still has a question asks it, takes the first answer, and goes on with the rest. */
  lemma RunFirst(kb: KnowledgeBase, s: Session, a: bool, rest: seq<bool>, draws: seq<nat>)
    requires kb.Valid() && Inv(kb, s) && SubclassesComparable(kb)
    requires s.status.Asking?
    ensures Inv(kb, Step(kb, s, a, draws))
    ensures var r := Run(kb, Step(kb, s, a, draws), rest, draws);
      Run(kb, s, [a] + rest, draws) == (r.0, [s.status.q] + r.1)
  {
    StepKeepsInv(kb, s, a, draws);
    assert ([a] + rest)[0] == a;
    assert ([a] + rest)[1..] == rest;
  }

  /** `RunFirst` for a known next session and a known rest of the game. */
  lemma RunCons(kb: KnowledgeBase, s: Session, a: bool, rest: seq<bool>, draws: seq<nat>,
                t: Session, tail: (Session, seq<Question>))
    requires kb.Valid() && Inv(kb, s) && SubclassesComparable(kb)
    requires s.status.Asking? && Step(kb, s, a, draws) == t
    requires Inv(kb, t) && Run(kb, t, rest, draws) == tail
    ensures Run(kb, s, [a] + rest, draws) == (tail.0, [s.status.q] + tail.1)
  {
    RunFirst(kb, s, a, rest, draws);
  }

  /** The longest game a knowledge base of `n` animals allows. */
  function MaxAnswers(n: nat): nat {
    2 * n + MaxPreguntas + 1
  }

  /**
    Every game ends after at most `2 |animals| + 16` answers, and it asks
    at most `MAX_PREGUNTAS` characteristic questions, whatever the player
    answers and however the characteristics are shuffled.
   */
  lemma GameBounded(kb: KnowledgeBase, resp: map<string, bool>, answers: seq<bool>, draws: seq<nat>)
    requires kb.Valid() && Comparable(ClassValues(kb)) && SubclassesComparable(kb) && |kb.order| > 0
    ensures var r := Run(kb, Start(kb, resp), answers, draws);
      && |r.1| <= MaxAnswers(|kb.order|)
      && CountCharacteristics(r.1) <= MaxPreguntas
      && (|answers| >= MaxAnswers(|kb.order|) ==> r.0.status.Finished?)
  {
    var s := Start(kb, resp);
    var r := Run(kb, s, answers, draws);
    assert Rank(kb, s) <= MaxAnswers(|kb.order|);
    assert r.0.status.Asking? ==> Rank(kb, r.0) >= 1;
  }

  /**
    The prompts a session can still show within the phase it is in and
    the phases after it, counting the subclass phase only once a class is
    confirmed.
   */
  function Left(s: Session): nat {
    match s.status
    case Finished(_) => 0
    case Asking(_) =>
      match s.phase
      case ClasePhase(cs, pos) => Rest(|cs|, pos) + 1
      case SubclasePhase(_, ss, pos) => Rest(|ss|, pos) + 1 + MaxPreguntas + 1
      case CaracteristicasPhase(_, _, _, lista, pos) => Rest(|lista|, pos) + 1 + 1
      case AdivinanzaPhase(_, _, _, _) => 1
  }

  /** The prompts that confirming class `c` can add: its subclasses, the characteristics and the guess. */
  function ClassBudget(kb: KnowledgeBase, c: Value): nat
    requires kb.Valid() && SubclassesComparable(kb)
  {
    |Subclasses(kb, c)| + MaxPreguntas + 1
  }

  /**
    One answer uses up one prompt, except that confirming a class opens
    that class's budget; once a class is confirmed the game never goes back
    to the class phase and keeps that class.
   */
  lemma StepLeft(kb: KnowledgeBase, s: Session, yes: bool, draws: seq<nat>)
    requires kb.Valid() && Inv(kb, s) && s.status.Asking? && SubclassesComparable(kb)
    ensures var t := Step(kb, s, yes, draws);
      && (!s.phase.ClasePhase? ==> !t.phase.ClasePhase? && t.phase.clase == s.phase.clase)
      && (s.phase.ClasePhase? && !t.phase.ClasePhase? ==> Left(t) + 1 <= Left(s) + ClassBudget(kb, t.phase.clase))
      && (s.phase.ClasePhase? == t.phase.ClasePhase? ==> Left(t) + 1 <= Left(s))
  {
    if s.status.q.AskClase? {
      ClassStepLeft(kb, s, yes, draws);
    } else {
      LaterStepLeft(kb, s, yes, draws);
    }
  }

  /** `StepLeft` once a class is confirmed: the class stays and one prompt is used up. */
  lemma LaterStepLeft(kb: KnowledgeBase, s: Session, yes: bool, draws: seq<nat>)
    requires kb.Valid() && Inv(kb, s) && s.status.Asking? && !s.status.q.AskClase?
    ensures var t := Step(kb, s, yes, draws);
      && !s.phase.ClasePhase? && !t.phase.ClasePhase? && t.phase.clase == s.phase.clase
      && Left(t) + 1 <= Left(s)
  {
    if s.status.q.AskSubclase? {
      SubclassStepLeft(kb, s, yes, draws);
    } else if s.status.q.AskCaracteristica? {
      CharacteristicAnswer(kb, s, yes, draws);
    }
  }

  /** `LaterStepLeft` for a subclass question: a "yes" leaves at most the capped characteristics and the guess. */
  lemma SubclassStepLeft(kb: KnowledgeBase, s: Session, yes: bool, draws: seq<nat>)
    requires kb.Valid() && Inv(kb, s) && s.status.Asking? && s.status.q.AskSubclase?
    ensures var t := Step(kb, s, yes, draws);
      && s.phase.SubclasePhase? && !t.phase.ClasePhase? && t.phase.clase == s.phase.clase
      && Left(t) + 1 <= Left(s)
  {
    var t := Step(kb, s, yes, draws);
    SubclassAnswer(kb, s, yes, draws);
    if yes {
      var c := s.phase.clase;
      var sc := s.status.q.subclase;
      var cands := Candidates(kb, c, sc);
      var lista := CharacteristicList(kb, cands, s.respuestas, draws);
      assert t == AskNext(kb, CaracteristicasPhase(c, sc, cands, lista, 0), s.respuestas);
      assert t.phase.CaracteristicasPhase? || t.phase.AdivinanzaPhase?;
      assert Left(t) <= MaxPreguntas + 1;
    } else {
      assert t == AskNext(kb, s.phase, s.respuestas);
    }
  }

  /** `StepLeft` for a class question: a "yes" lands on the first subclass. */
  lemma ClassStepLeft(kb: KnowledgeBase, s: Session, yes: bool, draws: seq<nat>)
    requires kb.Valid() && Inv(kb, s) && s.status.Asking? && s.status.q.AskClase? && SubclassesComparable(kb)
    ensures var t := Step(kb, s, yes, draws);
      && (!t.phase.ClasePhase? ==> Left(t) + 1 <= Left(s) + ClassBudget(kb, t.phase.clase))
      && (t.phase.ClasePhase? ==> Left(t) + 1 <= Left(s))
  {
    ClassAnswer(kb, s, yes, draws);
    if yes {
      var c := s.status.q.clase;
      var t := Step(kb, s, yes, draws);
      assert t.phase == SubclasePhase(c, Subclasses(kb, c), 1);
    }
  }

  /**
    Over a whole run, the answered questions and the prompts left together
    never exceed the prompts left at the start plus the budget of the class
    confirmed along the way.
   */
  lemma {:induction false} RunLeft(kb: KnowledgeBase, s: Session, answers: seq<bool>, draws: seq<nat>)
    requires kb.Valid() && Inv(kb, s) && SubclassesComparable(kb)
    ensures var r := Run(kb, s, answers, draws);
      && (!s.phase.ClasePhase? ==> !r.0.phase.ClasePhase? && r.0.phase.clase == s.phase.clase)
      && (s.phase.ClasePhase? && !r.0.phase.ClasePhase? ==> |r.1| + Left(r.0) <= Left(s) + ClassBudget(kb, r.0.phase.clase))
      && (s.phase.ClasePhase? == r.0.phase.ClasePhase? ==> |r.1| + Left(r.0) <= Left(s))
    decreases |answers|
  {
    if !(s.status.Finished? || |answers| == 0) {
      var t := Step(kb, s, answers[0], draws);
      StepKeepsInv(kb, s, answers[0], draws);
      StepLeft(kb, s, answers[0], draws);
      RunLeft(kb, t, answers[1..], draws);
    }
  }

  /**
    Every game shows at most one prompt per class, then, once a class is
    confirmed, one per subclass of that class, at most `MAX_PREGUNTAS`
    characteristic questions and the guess.
   */
  lemma GamePrompts(kb: KnowledgeBase, resp: map<string, bool>, answers: seq<bool>, draws: seq<nat>)
    requires kb.Valid() && Comparable(ClassValues(kb)) && SubclassesComparable(kb) && |kb.order| > 0
    ensures var r := Run(kb, Start(kb, resp), answers, draws);
      && (r.0.phase.ClasePhase? ==> |r.1| <= |Classes(kb)|)
      && (!r.0.phase.ClasePhase? ==> |r.1| <= |Classes(kb)| + |Subclasses(kb, r.0.phase.clase)| + MaxPreguntas + 1)
  {
    RunLeft(kb, Start(kb, resp), answers, draws);
  }
}
