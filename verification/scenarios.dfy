/**
  Concrete runs of the guessing step on a small knowledge base.
 */
module Scenarios {
  import opened Wrappers
  import opened Knowledge
  import opened Scoring
  import Seqs
  import Queries
  import Engine
  import Game

  const Resp: map<string, bool> := map["pelo" := true, "ladra" := true, "nada" := false]

  /**
    Three animals of one class and subclass: the second and the third both
    score 2, one of them by listing a characteristic twice.
   */
  const Tied: KnowledgeBase := KnowledgeBase(
    ["lobo", "perro", "zorro"],
    map[
      "lobo" := Entry(Some("mamifero"), Some("canino"), ["pelo", "nada"]),
      "perro" := Entry(Some("mamifero"), Some("canino"), ["pelo", "ladra"]),
      "zorro" := Entry(Some("mamifero"), Some("canino"), ["pelo", "pelo"])])

  /** A repeated characteristic scores once per occurrence. */
  lemma RepeatedScoresTwice()
    ensures ScoreOf(Tied, "zorro", Resp) == 2
    ensures ScoreOf(Tied, "lobo", Resp) == 1
  {
  }

  /** On a tie the candidate that comes first keeps the guess. */
  lemma TieGoesToFirst()
    ensures Evaluate(Tied, Tied.order, Resp) == Running(2, Some("perro"))
  {
    var cands := Tied.order;
    assert cands[..1] == ["lobo"] && cands[..2] == ["lobo", "perro"] && cands[..3] == cands;
    assert ScoreOf(Tied, "lobo", Resp) == 1;
    assert ScoreOf(Tied, "perro", Resp) == 2;
    assert ScoreOf(Tied, "zorro", Resp) == 2;
    assert Evaluate(Tied, cands[..1], Resp) == Running(1, Some("lobo"));
    assert Evaluate(Tied, cands[..2], Resp) == Running(2, Some("perro"));
  }

  const Solo: KnowledgeBase := KnowledgeBase(["perro"], map["perro" := Entry(Some("mamifero"), Some("canino"), ["ladra"])])

  const Mamifero: Option<string> := Some("mamifero")
  const Canino: Option<string> := Some("canino")

  /** The sessions of the game on `Solo`, one per question, and the end. */
  const S0 := Engine.Session(Engine.ClasePhase([Mamifero], 1), Engine.Asking(Engine.AskClase(Mamifero)), map[])
  const S1 := Engine.Session(Engine.SubclasePhase(Mamifero, [Canino], 1), Engine.Asking(Engine.AskSubclase(Canino)), map[])
  const S2 := Engine.Session(Engine.CaracteristicasPhase(Mamifero, Canino, ["perro"], ["ladra"], 1),
                             Engine.Asking(Engine.AskCaracteristica("ladra")), map[])
  const S3 := Engine.Session(Engine.AdivinanzaPhase(Mamifero, Canino, ["perro"], "perro"),
                             Engine.Asking(Engine.AskAdivinanza("perro")), map["ladra" := false])
  const S4 := Engine.Session(Engine.AdivinanzaPhase(Mamifero, Canino, ["perro"], "perro"),
                             Engine.Finished(Engine.Adivinado), map["ladra" := false])

  /** The game opens with the only class. */
  lemma SoloStart()
    ensures Queries.Classes(Solo) == [Mamifero]
    ensures Engine.Start(Solo, map[]) == S0
  {
    assert Queries.ClassValues(Solo) == [Mamifero];
  }

  /** "Yes" to the class opens its only subclass. */
  lemma SoloClassYes(draws: seq<nat>)
    ensures Engine.Inv(Solo, S0) && Engine.Inv(Solo, S1)
    ensures Queries.SubclassValues(Solo, Mamifero) == [Canino]
    ensures Engine.Step(Solo, S0, true, draws) == S1
  {
    SoloStart();
    assert Queries.SubclassValues(Solo, Mamifero) == [Canino];
    assert Queries.Subclasses(Solo, Mamifero) == [Canino];
  }

  /** "Yes" to the subclass leaves one candidate and its one characteristic. */
  lemma SoloSubclassYes(draws: seq<nat>)
    ensures Engine.Inv(Solo, S1) && Engine.Inv(Solo, S2)
    ensures Engine.Step(Solo, S1, true, draws) == S2
  {
    SoloClassYes(draws);
    SoloCandidates();
    SoloList(draws);
    Engine.SubclassAnswer(Solo, S1, true, draws);
  }

  /** "No" to the characteristic still leaves `perro` as the best candidate. */
  lemma SoloCharacteristicNo(draws: seq<nat>)
    ensures Engine.Inv(Solo, S2) && Engine.Inv(Solo, S3)
    ensures Engine.Step(Solo, S2, false, draws) == S3
  {
    SoloSubclassYes(draws);
    Engine.CharacteristicAnswer(Solo, S2, false, draws);
    assert S2.respuestas["ladra" := false] == map["ladra" := false];
    SoloGuessIsPerro();
  }

  /** With "ladra" answered "no", `perro` is still the only candidate and so the guess. */
  lemma SoloGuessIsPerro()
    ensures Engine.Inv(Solo, S3)
    ensures Evaluate(Solo, ["perro"], map["ladra" := false]).best == Some("perro")
  {
    SoloCandidates();
    assert Evaluate(Solo, ["perro"], map["ladra" := false]).best == Some("perro");
  }

  /** "Yes" to the guess wins. */
  lemma SoloGuessYes(draws: seq<nat>)
    ensures Engine.Inv(Solo, S3)
    ensures Engine.Step(Solo, S3, true, draws) == S4
  {
    SoloCharacteristicNo(draws);
  }

  /** The only animal is the only candidate of its class and subclass. */
  lemma SoloCandidates()
    ensures Queries.Candidates(Solo, Mamifero, Canino) == ["perro"]
  {
    assert "perro" in Queries.Candidates(Solo, Mamifero, Canino);
  }

  /** The only characteristic is the whole list, however the draws fall. */
  lemma SoloList(draws: seq<nat>)
    ensures Queries.CharacteristicList(Solo, ["perro"], map[], draws) == ["ladra"]
  {
    assert Queries.Pending(Solo, ["perro"], map[]) == {"ladra"};
  }

  /** The only class has one subclass, so `sorted` never raises on `Solo`. */
  lemma SoloComparable()
    ensures Solo.Valid() && Game.SubclassesComparable(Solo)
  {
    SoloClassYes([]);
  }

  /**
    The answers of the game on `Solo` from each session on, and the
    questions they answer: "yes" to the class, "yes" to the subclass, "no"
    to the characteristic, "yes" to the guess.
   */
  const Answers1: seq<bool> := [true]
  const Answers2: seq<bool> := [false] + Answers1
  const Answers3: seq<bool> := [true] + Answers2
  const Answers4: seq<bool> := [true] + Answers3
  const Asked1: seq<Engine.Question> := [Engine.AskAdivinanza("perro")]
  const Asked2: seq<Engine.Question> := [Engine.AskCaracteristica("ladra")] + Asked1
  const Asked3: seq<Engine.Question> := [Engine.AskSubclase(Canino)] + Asked2
  const Asked4: seq<Engine.Question> := [Engine.AskClase(Mamifero)] + Asked3

  lemma SoloRunGuess(draws: seq<nat>)
    ensures Solo.Valid() && Game.SubclassesComparable(Solo) && Engine.Inv(Solo, S3)
    ensures Game.Run(Solo, S3, Answers1, draws) == (S4, Asked1)
  {
    SoloGuessYes(draws);
    SoloComparable();
    Game.RunCons(Solo, S3, true, [], draws, S4, (S4, []));
    assert [true] + [] == Answers1;
    assert [Engine.AskAdivinanza("perro")] + [] == Asked1;
  }

  lemma SoloRunCharacteristic(draws: seq<nat>)
    ensures Solo.Valid() && Game.SubclassesComparable(Solo) && Engine.Inv(Solo, S2)
    ensures Game.Run(Solo, S2, Answers2, draws) == (S4, Asked2)
  {
    SoloCharacteristicNo(draws);
    SoloRunGuess(draws);
    Game.RunCons(Solo, S2, false, Answers1, draws, S3, (S4, Asked1));
  }

  lemma SoloRunSubclass(draws: seq<nat>)
    ensures Solo.Valid() && Game.SubclassesComparable(Solo) && Engine.Inv(Solo, S1)
    ensures Game.Run(Solo, S1, Answers3, draws) == (S4, Asked3)
  {
    SoloSubclassYes(draws);
    SoloRunCharacteristic(draws);
    Game.RunCons(Solo, S1, true, Answers2, draws, S2, (S4, Asked2));
  }

  lemma SoloRunClass(draws: seq<nat>)
    ensures Solo.Valid() && Game.SubclassesComparable(Solo) && Engine.Inv(Solo, S0)
    ensures Game.Run(Solo, S0, Answers4, draws) == (S4, Asked4)
  {
    SoloClassYes(draws);
    SoloRunSubclass(draws);
    Game.RunCons(Solo, S0, true, Answers3, draws, S1, (S4, Asked3));
  }

  /** The answers and questions of the game on `Solo`, written out. */
  lemma SoloTranscript()
    ensures Answers4 == [true, true, false, true]
    ensures Asked4 == [Engine.AskClase(Mamifero), Engine.AskSubclase(Canino),
                       Engine.AskCaracteristica("ladra"), Engine.AskAdivinanza("perro")]
  {
    assert Asked3 == [Engine.AskSubclase(Canino), Engine.AskCaracteristica("ladra"), Engine.AskAdivinanza("perro")];
  }

  /**
    A full game on a one-animal base: the class, the subclass and the one
    characteristic are asked in turn; a "no" to the characteristic still
    leaves the only candidate as the guess, and a "yes" to it wins.
   */
  lemma SoloGame(draws: seq<nat>)
    ensures Solo.Valid() && Game.SubclassesComparable(Solo)
    ensures Game.Run(Solo, Engine.Start(Solo, map[]), [true, true, false, true], draws)
      == (Engine.Session(Engine.AdivinanzaPhase(Mamifero, Canino, ["perro"], "perro"),
                         Engine.Finished(Engine.Adivinado), map["ladra" := false]),
          [Engine.AskClase(Mamifero), Engine.AskSubclase(Canino),
           Engine.AskCaracteristica("ladra"), Engine.AskAdivinanza("perro")])
  {
    SoloStart();
    SoloRunClass(draws);
    SoloTranscript();
  }

  /** The first pass of the shuffle below swaps the last element with the first. */
  lemma ShuffleThreeFirst()
    ensures Seqs.ShuffleDown([1, 2, 3], 2, [0, 0]) == Seqs.ShuffleDown([3, 2, 1], 1, [0, 0])
  {
    var d: seq<nat> := [0, 0];
    var s: seq<int> := [1, 2, 3];
    assert d[0] % 3 == 0;
    assert Seqs.ShuffleDown(s, 2, d) == Seqs.ShuffleDown(Seqs.Swap(s, 2, 0), 1, d);
    assert Seqs.Swap(s, 2, 0) == [3, 2, 1];
  }

  /** The second pass swaps the middle element with the first. */
  lemma ShuffleThreeSecond()
    ensures Seqs.ShuffleDown([3, 2, 1], 1, [0, 0]) == [2, 3, 1]
  {
    var d: seq<nat> := [0, 0];
    var s: seq<int> := [3, 2, 1];
    assert d[1] % 2 == 0;
    assert Seqs.ShuffleDown(s, 1, d) == Seqs.ShuffleDown(Seqs.Swap(s, 1, 0), 0, d);
    assert Seqs.Swap(s, 1, 0) == [2, 3, 1];
  }

  /** CPython's `random.shuffle` on three elements when both draws are 0. */
  lemma ShuffleThree()
    ensures Seqs.Shuffle([1, 2, 3], [0, 0]) == [2, 3, 1]
  {
    ShuffleThreeFirst();
    ShuffleThreeSecond();
  }

  /** A fact line in the file's own format. */
  lemma ParseClaseLine()
    ensures ParseLine(Render(Clase, "perro", "mamifero")) == Some(Fact(Clase, ["perro", "mamifero"]))
  {
    ParseRendered(Clase, "perro", "mamifero");
  }
}
