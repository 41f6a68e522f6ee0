/**
  The question-and-answer state machine of `AkinatorGUI`: `_start_game`,
  `_ask_next`, `_answer` and the hand-off to `_evaluate_candidates`. The
  widget callbacks become pure functions from one session to the next; the
  Yes/No buttons are enabled exactly while a question is pending.
 */
module Engine {
  import opened Wrappers
  import opened Seqs
  import opened Values
  import opened Knowledge
  import opened Queries
  import opened Scoring

  /** `current_q`: the kind of the pending question and what it asks about. */
  datatype Question =
    | AskClase(clase: Value)
    | AskSubclase(subclase: Value)
    | AskCaracteristica(caracteristica: string)
    | AskAdivinanza(animal: string)

  /** The ways `_finish` ends a game. */
  datatype Outcome =
    | ClaseIndeterminada
    | SubclaseIndeterminada
    | SinCoincidencias
    | SinAdivinanza
    | Adivinado
    | NoAdivinado

  /** The text `_finish` shows for each outcome. */
  function Message(o: Outcome): string {
    match o
    case ClaseIndeterminada => "No pude determinar la clase."
    case SubclaseIndeterminada => "No pude determinar la subclase."
    case SinCoincidencias => "No hay coincidencias con esa subclase."
    case SinAdivinanza => "No pude adivinar."
    case Adivinado => "\U{00A1}Genial! Lo Adivine"
    case NoAdivinado => "Vaya, no lo adivin\U{00E9}."
  }

  /** Each outcome has a text of its own, so the player can tell how the game ended. */
  lemma MessagesDistinct(o1: Outcome, o2: Outcome)
    ensures Message(o1) == Message(o2) <==> o1 == o2
  {
    if o1 != o2 {
      assert |Message(o1)| != |Message(o2)|;
    }
  }

  datatype Status = Asking(q: Question) | Finished(outcome: Outcome)

  /**
    `phase` together with the iterator or cursor that belongs to it. Each
    `pos` counts the elements already taken, like the position of
    `clases_iter`, `sub_iter` and `char_index`.
   */
  datatype Phase =
    | ClasePhase(clases: seq<Value>, pos: nat)
    | SubclasePhase(clase: Value, subclases: seq<Value>, pos: nat)
    | CaracteristicasPhase(clase: Value, subclase: Value, candidatos: seq<string>, lista: seq<string>, pos: nat)
    | AdivinanzaPhase(clase: Value, subclase: Value, candidatos: seq<string>, best: string)

  datatype Session = Session(phase: Phase, status: Status, respuestas: map<string, bool>)

  /** What `_ask_next` needs of a phase to run without an error. */
  predicate PhaseOk(kb: KnowledgeBase, p: Phase) {
    match p
    case ClasePhase(cs, pos) => pos <= |cs|
    case SubclasePhase(_, ss, pos) => pos <= |ss|
    case CaracteristicasPhase(_, _, cands, lista, pos) =>
      pos <= |lista| && forall a :: a in cands ==> a in kb.entries
    case AdivinanzaPhase(_, _, _, _) => true
  }

  /**
    The skipping loop of the characteristics phase: the first position at
    or after `pos` whose characteristic has no answer yet, or `|lista|`.
   */
  function NextUnanswered(lista: seq<string>, pos: nat, resp: map<string, bool>): (i: nat)
    requires pos <= |lista|
    ensures pos <= i <= |lista|
    ensures i < |lista| ==> lista[i] !in resp
    ensures forall j :: pos <= j < i ==> lista[j] in resp
    decreases |lista| - pos
  {
    if pos == |lista| || lista[pos] !in resp then pos
    else NextUnanswered(lista, pos + 1, resp)
  }

  /**
    `_ask_next`: poses the next question of the current phase or finishes
    the game when the phase runs dry. In the characteristics phase, an
    exhausted list hands over to `_evaluate_candidates`, which either
    moves to the guess or gives up. Asking never records an answer, and
    a characteristic is only asked while it has no answer. Once a class is
    confirmed, asking never leaves it.
   */
  function AskNext(kb: KnowledgeBase, p: Phase, resp: map<string, bool>): (s: Session)
    requires PhaseOk(kb, p)
    ensures s.respuestas == resp
    ensures s.status.Asking? && s.status.q.AskCaracteristica? ==> s.status.q.caracteristica !in resp
    ensures s.status == Finished(SinAdivinanza) ==> p.CaracteristicasPhase? && |p.candidatos| == 0
    ensures !p.ClasePhase? ==> !s.phase.ClasePhase? && s.phase.clase == p.clase
  {
    match p
    case ClasePhase(cs, pos) =>
      if pos < |cs| then Session(ClasePhase(cs, pos + 1), Asking(AskClase(cs[pos])), resp)
      else Session(p, Finished(ClaseIndeterminada), resp)
    case SubclasePhase(c, ss, pos) =>
      if pos < |ss| then Session(SubclasePhase(c, ss, pos + 1), Asking(AskSubclase(ss[pos])), resp)
      else Session(p, Finished(SubclaseIndeterminada), resp)
    case CaracteristicasPhase(c, sc, cands, lista, pos) =>
      var i := NextUnanswered(lista, pos, resp);
      if i < |lista| then
        Session(CaracteristicasPhase(c, sc, cands, lista, i + 1), Asking(AskCaracteristica(lista[i])), resp)
      else
        var best := Evaluate(kb, cands, resp).best;
        if best.None? then Session(CaracteristicasPhase(c, sc, cands, lista, i), Finished(SinAdivinanza), resp)
        else Session(AdivinanzaPhase(c, sc, cands, best.value), Asking(AskAdivinanza(best.value)), resp)
    case AdivinanzaPhase(_, _, _, b) =>
      Session(p, Asking(AskAdivinanza(b)), resp)
  }

  /**
    What holds of a session between two answers. A pending question is
    the element just taken from its phase's list; the class and subclass
    lists are the sorted value sets of the knowledge base; the
    characteristics list is distinct, within the cap, and has no answer
    from the current question onwards; candidates exist; and the guess is
    the one `_evaluate_candidates` picks.
   */
  ghost predicate Inv(kb: KnowledgeBase, s: Session) {
    kb.Valid() &&
    match s.status
    case Finished(_) => true
    case Asking(q) =>
      match s.phase
      case ClasePhase(cs, pos) =>
        && Comparable(ClassValues(kb)) && cs == Classes(kb)
        && 0 < pos <= |cs| && q == AskClase(cs[pos - 1])
      case SubclasePhase(c, ss, pos) =>
        && c in ClassValues(kb)
        && Comparable(SubclassValues(kb, c)) && ss == Subclasses(kb, c)
        && 0 < pos <= |ss| && q == AskSubclase(ss[pos - 1])
      case CaracteristicasPhase(c, sc, cands, lista, pos) =>
        && cands == Candidates(kb, c, sc) && |cands| > 0
        && Distinct(lista) && |lista| <= MaxPreguntas
        && 0 < pos <= |lista| && q == AskCaracteristica(lista[pos - 1])
        && (forall i :: pos - 1 <= i < |lista| ==> lista[i] !in s.respuestas)
      case AdivinanzaPhase(c, sc, cands, b) =>
        && cands == Candidates(kb, c, sc) && |cands| > 0
        && Evaluate(kb, cands, s.respuestas).best == Some(b)
        && q == AskAdivinanza(b)
  }

  /** The elements of a list of length `n` that a cursor at `pos` has not taken. */
  function Rest(n: nat, pos: nat): nat {
    if pos <= n then n - pos else 0
  }

  /**
    An upper bound on the answers a session can still take: the current
    question, the rest of its phase, and the longest possible remainder of
    the game after it.
   */
  function Rank(kb: KnowledgeBase, s: Session): nat {
    match s.status
    case Finished(_) => 0
    case Asking(_) =>
      match s.phase
      case ClasePhase(cs, pos) => Rest(|cs|, pos) + |kb.order| + MaxPreguntas + 2
      case SubclasePhase(_, ss, pos) => Rest(|ss|, pos) + MaxPreguntas + 2
      case CaracteristicasPhase(_, _, _, lista, pos) => Rest(|lista|, pos) + 2
      case AdivinanzaPhase(_, _, _, _) => 1
  }

  /**
    `_start_game` from the moment it sets the phase: the classes, sorted,
    are offered one by one. `respuestas` is whatever an earlier game left
    behind, since starting a game does not clear it. A game only starts
    once an animal of the list is selected, so the dictionary is never
    empty, and the first question is about the smallest class.
   */
  function Start(kb: KnowledgeBase, resp: map<string, bool>): (s: Session)
    requires kb.Valid() && Comparable(ClassValues(kb)) && |kb.order| > 0
    ensures Inv(kb, s)
    ensures s.respuestas == resp
    ensures s.status.Asking? && s.status.q.AskClase?
    ensures s.status.q.clase in ClassValues(kb)
    ensures forall v :: v in Classes(kb) && v != s.status.q.clase ==> Before(s.status.q.clase, v)
  {
    var cs := Classes(kb);
    assert kb.entries[kb.order[0]].clase in cs;
    var s := AskNext(kb, ClasePhase(cs, 0), resp);
    s
  }

  /**
    `_answer(yes)` followed by the `_ask_next` it schedules. A confirmed
    class opens its sorted subclasses; a confirmed subclass fixes the
    candidates and draws the characteristics list (`draws` feeds
    `random.shuffle`); a characteristic answer is recorded; the answer to
    the guess ends the game. A "no" to a class or subclass moves on to the
    next one. Only a characteristic answer changes `respuestas`, and it
    stores exactly that answer.
   */
  function Step(kb: KnowledgeBase, s: Session, yes: bool, draws: seq<nat>): (t: Session)
    requires kb.Valid() && Inv(kb, s) && s.status.Asking?
    requires s.status.q.AskClase? && yes ==> Comparable(SubclassValues(kb, s.status.q.clase))
    ensures s.status.q.AskCaracteristica? ==>
      t.respuestas == s.respuestas[s.status.q.caracteristica := yes]
    ensures !s.status.q.AskCaracteristica? ==> t.respuestas == s.respuestas
  {
    match s.status.q
    case AskClase(c) =>
      if yes then AskNext(kb, SubclasePhase(c, Subclasses(kb, c), 0), s.respuestas)
      else AskNext(kb, s.phase, s.respuestas)
    case AskSubclase(sc) =>
      if yes then
        var c := s.phase.clase;
        var cands := Candidates(kb, c, sc);
        if |cands| == 0 then Session(s.phase, Finished(SinCoincidencias), s.respuestas)
        else
          var lista := CharacteristicList(kb, cands, s.respuestas, draws);
          AskNext(kb, CaracteristicasPhase(c, sc, cands, lista, 0), s.respuestas)
      else AskNext(kb, s.phase, s.respuestas)
    case AskCaracteristica(x) =>
      AskNext(kb, s.phase, s.respuestas[x := yes])
    case AskAdivinanza(_) =>
      Session(s.phase, Finished(if yes then Adivinado else NoAdivinado), s.respuestas)
  }

  /** Every class value belongs to some animal, so its subclass list is not empty. */
  lemma ClassHasSubclass(kb: KnowledgeBase, c: Value)
    requires kb.Valid() && c in ClassValues(kb) && Comparable(SubclassValues(kb, c))
    ensures |Subclasses(kb, c)| > 0
  {
    var a :| a in kb.entries && kb.entries[a].clase == c;
    assert kb.entries[a].subclase in Subclasses(kb, c);
  }

  /** Every subclass offered for `c` belongs to some animal of class `c`. */
  lemma SubclassHasCandidate(kb: KnowledgeBase, c: Value, sc: Value)
    requires kb.Valid() && Comparable(SubclassValues(kb, c)) && sc in Subclasses(kb, c)
    ensures |Candidates(kb, c, sc)| > 0
  {
    var a :| a in kb.entries && kb.entries[a].clase == c && kb.entries[a].subclase == sc;
    assert a in Candidates(kb, c, sc);
  }

  /**
    Answering a class question, which is the class at `pos - 1` of the
    sorted class list. "Yes" confirms that class and asks its smallest
    subclass, since a class always has a subclass. "No" asks the class at
    `pos`, the next larger one, and only after the last class does the
    game end undecided. The answers are not touched.
   */
  lemma ClassAnswer(kb: KnowledgeBase, s: Session, yes: bool, draws: seq<nat>)
    requires kb.Valid() && Inv(kb, s) && s.status.Asking? && s.status.q.AskClase?
    requires yes ==> Comparable(SubclassValues(kb, s.status.q.clase))
    ensures var t := Step(kb, s, yes, draws);
      && Inv(kb, t)
      && Rank(kb, t) < Rank(kb, s)
      && (yes ==> t.status.Asking? && t.status.q.AskSubclase?)
      && (!yes && t.status.Asking? ==> t.status.q.AskClase? && Before(s.status.q.clase, t.status.q.clase))
      && (!yes && t.status.Finished? ==> t.status.outcome == ClaseIndeterminada)
    ensures && s.phase.ClasePhase? && Comparable(ClassValues(kb)) && s.phase.clases == Classes(kb)
            && 0 < s.phase.pos <= |s.phase.clases| && s.status.q.clase == s.phase.clases[s.phase.pos - 1]
    ensures yes ==>
      var c := s.status.q.clase;
      var t := Step(kb, s, yes, draws);
      && |Subclasses(kb, c)| > 0
      && t == Session(SubclasePhase(c, Subclasses(kb, c), 1), Asking(AskSubclase(Subclasses(kb, c)[0])), s.respuestas)
    ensures !yes && s.phase.pos < |s.phase.clases| ==>
      Step(kb, s, yes, draws)
        == Session(ClasePhase(s.phase.clases, s.phase.pos + 1), Asking(AskClase(s.phase.clases[s.phase.pos])), s.respuestas)
    ensures !yes && s.phase.pos == |s.phase.clases| ==>
      Step(kb, s, yes, draws) == Session(s.phase, Finished(ClaseIndeterminada), s.respuestas)
  {
    var c := s.status.q.clase;
    if yes {
      assert c in Classes(kb);
      var a :| a in kb.entries && kb.entries[a].clase == c;
      assert c in ClassValues(kb);
      ClassHasSubclass(kb, c);
    }
  }

  /**
    `_ask_next` in the characteristics phase when no characteristic from
    `pos` on has an answer: the skipping loop skips nothing, so the next
    question is `lista[pos]`, or the guess once the list is used up.
   */
  lemma AskCharacteristic(kb: KnowledgeBase, c: Value, sc: Value, cands: seq<string>, lista: seq<string>,
                          pos: nat, resp: map<string, bool>)
    requires kb.Valid() && cands == Candidates(kb, c, sc) && |cands| > 0
    requires Distinct(lista) && |lista| <= MaxPreguntas && pos <= |lista|
    requires forall i :: pos <= i < |lista| ==> lista[i] !in resp
    ensures var t := AskNext(kb, CaracteristicasPhase(c, sc, cands, lista, pos), resp);
      && Inv(kb, Session(t.phase, t.status, resp))
      && t.status.Asking?
      && Rank(kb, t) <= |lista| - pos + 1
      && (pos < |lista| ==>
            t == Session(CaracteristicasPhase(c, sc, cands, lista, pos + 1), Asking(AskCaracteristica(lista[pos])), resp))
      && (pos == |lista| ==>
            var b := Evaluate(kb, cands, resp).best.value;
            t == Session(AdivinanzaPhase(c, sc, cands, b), Asking(AskAdivinanza(b)), resp))
  {
    var i := NextUnanswered(lista, pos, resp);
    assert i == pos;
  }

  /**
    Answering a subclass question, which is the subclass at `pos - 1` of
    the confirmed class's sorted subclass list. "Yes" confirms that
    subclass: the candidates are the animals of the class and subclass,
    never empty since an offered subclass always has an animal, and the
    characteristics list is drawn from them; the game goes on with the
    first drawn characteristic, or straight to the guess when there is
    none. "No" asks the subclass at `pos`, the next larger one, and only
    after the last subclass does the game end undecided.
   */
  lemma SubclassAnswer(kb: KnowledgeBase, s: Session, yes: bool, draws: seq<nat>)
    requires kb.Valid() && Inv(kb, s) && s.status.Asking? && s.status.q.AskSubclase?
    ensures var t := Step(kb, s, yes, draws);
      && Inv(kb, t)
      && Rank(kb, t) < Rank(kb, s)
      && (yes ==> t.status.Asking? && (t.status.q.AskCaracteristica? || t.status.q.AskAdivinanza?))
      && (!yes && t.status.Asking? ==> t.status.q.AskSubclase? && Before(s.status.q.subclase, t.status.q.subclase))
      && (!yes && t.status.Finished? ==> t.status.outcome == SubclaseIndeterminada)
    ensures && s.phase.SubclasePhase? && Comparable(SubclassValues(kb, s.phase.clase))
            && s.phase.subclases == Subclasses(kb, s.phase.clase)
            && 0 < s.phase.pos <= |s.phase.subclases| && s.status.q.subclase == s.phase.subclases[s.phase.pos - 1]
    ensures yes ==>
      var c := s.phase.clase;
      var sc := s.status.q.subclase;
      var cands := Candidates(kb, c, sc);
      var lista := CharacteristicList(kb, cands, s.respuestas, draws);
      var t := Step(kb, s, yes, draws);
      && |cands| > 0
      && (|lista| > 0 ==>
            t == Session(CaracteristicasPhase(c, sc, cands, lista, 1), Asking(AskCaracteristica(lista[0])), s.respuestas))
      && (|lista| == 0 ==>
            var b := Evaluate(kb, cands, s.respuestas).best.value;
            t == Session(AdivinanzaPhase(c, sc, cands, b), Asking(AskAdivinanza(b)), s.respuestas))
    ensures !yes && s.phase.pos < |s.phase.subclases| ==>
      Step(kb, s, yes, draws) == Session(SubclasePhase(s.phase.clase, s.phase.subclases, s.phase.pos + 1),
                                         Asking(AskSubclase(s.phase.subclases[s.phase.pos])), s.respuestas)
    ensures !yes && s.phase.pos == |s.phase.subclases| ==>
      Step(kb, s, yes, draws) == Session(s.phase, Finished(SubclaseIndeterminada), s.respuestas)
  {
    if yes {
      SubclassYes(kb, s, draws);
    }
  }

  /** `SubclassAnswer` for "yes": the list drawn for the candidates has no answered characteristic. */
  lemma SubclassYes(kb: KnowledgeBase, s: Session, draws: seq<nat>)
    requires kb.Valid() && Inv(kb, s) && s.status.Asking? && s.status.q.AskSubclase?
    ensures s.phase.SubclasePhase?
    ensures
      var c := s.phase.clase;
      var sc := s.status.q.subclase;
      var cands := Candidates(kb, c, sc);
      var lista := CharacteristicList(kb, cands, s.respuestas, draws);
      var t := Step(kb, s, true, draws);
      && |cands| > 0
      && t == AskNext(kb, CaracteristicasPhase(c, sc, cands, lista, 0), s.respuestas)
      && Inv(kb, t) && t.status.Asking? && Rank(kb, t) <= |lista| + 1 && |lista| <= MaxPreguntas
      && (|lista| > 0 ==>
            t == Session(CaracteristicasPhase(c, sc, cands, lista, 1), Asking(AskCaracteristica(lista[0])), s.respuestas))
      && (|lista| == 0 ==>
            var b := Evaluate(kb, cands, s.respuestas).best.value;
            t == Session(AdivinanzaPhase(c, sc, cands, b), Asking(AskAdivinanza(b)), s.respuestas))
  {
    var c := s.phase.clase;
    var sc := s.status.q.subclase;
    assert sc in Subclasses(kb, c);
    SubclassHasCandidate(kb, c, sc);
    var cands := Candidates(kb, c, sc);
    var lista := CharacteristicList(kb, cands, s.respuestas, draws);
    assert forall i :: 0 <= i < |lista| ==> lista[i] !in s.respuestas by {
      forall i | 0 <= i < |lista|
        ensures lista[i] !in s.respuestas
      {
        assert lista[i] in Pending(kb, cands, s.respuestas);
      }
    }
    AskCharacteristic(kb, c, sc, cands, lista, 0, s.respuestas);
  }

  /**
    Answering a characteristic question. The characteristic had no answer
    before, so each is answered at most once, and the answer is stored.
    The next question is the next element of the list, never skipping one,
    or the guess once the list is used up.
   */
  lemma CharacteristicAnswer(kb: KnowledgeBase, s: Session, yes: bool, draws: seq<nat>)
    requires kb.Valid() && Inv(kb, s) && s.status.Asking? && s.status.q.AskCaracteristica?
    ensures var t := Step(kb, s, yes, draws);
      && Inv(kb, t)
      && Rank(kb, t) < Rank(kb, s)
      && s.status.q.caracteristica !in s.respuestas
      && t.respuestas == s.respuestas[s.status.q.caracteristica := yes]
      && t.status.Asking?
      && (s.phase.pos < |s.phase.lista| ==> t.status.q == AskCaracteristica(s.phase.lista[s.phase.pos]))
      && (s.phase.pos == |s.phase.lista| ==> t.status.q.AskAdivinanza?)
    ensures s.phase.CaracteristicasPhase?
    ensures
      var p := s.phase;
      var resp := s.respuestas[s.status.q.caracteristica := yes];
      var t := Step(kb, s, yes, draws);
      && (p.pos < |p.lista| ==>
            t == Session(CaracteristicasPhase(p.clase, p.subclase, p.candidatos, p.lista, p.pos + 1),
                         Asking(AskCaracteristica(p.lista[p.pos])), resp))
      && (p.pos == |p.lista| ==>
            var b := Evaluate(kb, p.candidatos, resp).best.value;
            t == Session(AdivinanzaPhase(p.clase, p.subclase, p.candidatos, b), Asking(AskAdivinanza(b)), resp))
  {
    var x := s.status.q.caracteristica;
    var resp := s.respuestas[x := yes];
    var p := s.phase;
    assert forall i :: p.pos <= i < |p.lista| ==> p.lista[i] != x;
    AskCharacteristic(kb, p.clase, p.subclase, p.candidatos, p.lista, p.pos, resp);
  }

  /** Answering the guess ends the game, with success exactly on "yes". */
  lemma GuessAnswer(kb: KnowledgeBase, s: Session, yes: bool, draws: seq<nat>)
    requires kb.Valid() && Inv(kb, s) && s.status.Asking? && s.status.q.AskAdivinanza?
    ensures var t := Step(kb, s, yes, draws);
      && Inv(kb, t)
      && Rank(kb, t) < Rank(kb, s)
      && t.status.Finished?
      && (t.status.outcome == Adivinado <==> yes)
      && (t.status.outcome == NoAdivinado <==> !yes)
  {
  }

  /**
    Every answer keeps the session invariant and lowers the rank, and no
    answer ends the game with "no matches" or "could not guess": those
    two messages of the program are unreachable.
   */
  lemma StepKeepsInv(kb: KnowledgeBase, s: Session, yes: bool, draws: seq<nat>)
    requires kb.Valid() && Inv(kb, s) && s.status.Asking?
    requires s.status.q.AskClase? && yes ==> Comparable(SubclassValues(kb, s.status.q.clase))
    ensures var t := Step(kb, s, yes, draws);
      && Inv(kb, t)
      && Rank(kb, t) < Rank(kb, s)
      && t.status != Finished(SinCoincidencias)
      && t.status != Finished(SinAdivinanza)
  {
    match s.status.q
    case AskClase(_) => ClassAnswer(kb, s, yes, draws);
    case AskSubclase(_) => SubclassAnswer(kb, s, yes, draws);
    case AskCaracteristica(_) => CharacteristicAnswer(kb, s, yes, draws);
    case AskAdivinanza(_) => GuessAnswer(kb, s, yes, draws);
  }

  /**
    The guess is the first of the candidates, in knowledge-base order,
    with the most "yes" characteristics, and the candidates are exactly
    the animals of the confirmed class and subclass.
   */
  lemma GuessIsBest(kb: KnowledgeBase, s: Session)
    requires Inv(kb, s) && s.status.Asking? && s.status.q.AskAdivinanza?
    ensures forall a :: a in s.phase.candidatos <==>
      a in kb.entries && kb.entries[a].clase == s.phase.clase && kb.entries[a].subclase == s.phase.subclase
    ensures exists k ::
      && FirstMax(kb, s.phase.candidatos, s.respuestas, k)
      && s.status.q.animal == s.phase.candidatos[k]
  {
    var k := EvaluateFirstMax(kb, s.phase.candidatos, s.respuestas);
  }
}
