/**
  The knowledge base and its loader, `cargar_conocimiento`: every line of
  the form `pred(subject, value).` adds to the entry of `subject`.
  The file is given as its sequence of lines, each with the trailing
  newline that iterating a Python file keeps.
 */
module Knowledge {
  import opened Wrappers
  import opened Seqs
  import opened Text

  /** One animal: `{"clase": ..., "subclase": ..., "caracteristicas": [...]}`. */
  datatype Entry = Entry(clase: Option<string>, subclase: Option<string>, caracteristicas: seq<string>)

  /** The entry `setdefault` creates for an animal seen for the first time. */
  const Default := Entry(None, None, [])

  /**
    The dictionary `conocimiento`. Python dictionaries remember insertion
    order and the game lists candidates in that order, so the keys are kept
    as a sequence beside the map.
   */
  datatype KnowledgeBase = KnowledgeBase(order: seq<string>, entries: map<string, Entry>) {
    predicate Valid() {
      && Distinct(order)
      && (forall a :: a in order ==> a in entries)
      && (forall a :: a in entries ==> a in order)
    }
  }

  const Empty := KnowledgeBase([], map[])

  /** A line split into its predicate and its trimmed comma-separated fields. */
  datatype Fact = Fact(pred: string, args: seq<string>)

  /** The predicates the loader acts on. */
  const Clase := "clase"
  const Subclase := "subclase"
  const Caracteristica := "caracteristica"

  predicate Recognised(pred: string) {
    pred == Clase || pred == Subclase || pred == Caracteristica
  }

  /**
    The parsing half of the loop body: a line counts only if it contains
    both `(` and `)`. It is stripped of `.` and newline characters at both
    ends, split at its first `(`, the rest loses its trailing `)`s and is
    split at every `,`, and each field is trimmed of whitespace.
   */
  function ParseLine(line: string): (r: Option<Fact>)
    ensures r.Some? <==> '(' in line && ')' in line
    ensures r.Some? ==> |r.value.args| >= 1 && '(' !in r.value.pred
  {
    if '(' in line && ')' in line then
      var hecho := Strip(line, Dots);
      StripKeeps(line, Dots, '(');
      var (pred, vals) := SplitOnce(hecho, '(');
      Some(Fact(pred, ParseArgs(vals)))
    else None
  }

  /** The characters `strip(".\n")` removes. */
  const Dots: set<char> := {'.', '\n'}

  /**
    The text after the first `(`: trailing `)`s dropped, split at every `,`,
    each field trimmed. The fields hold no `,` and no surrounding whitespace.
   */
  function ParseArgs(vals: string): (args: seq<string>)
    ensures |args| >= 1
    ensures forall k :: 0 <= k < |args| ==> ',' !in args[k] && Trimmed(args[k])
  {
    var fields := Split(RStrip(vals, {')'}), ',');
    var args := TrimAll(fields);
    assert forall k :: 0 <= k < |args| ==> ',' !in args[k] && Trimmed(args[k]) by {
      forall k | 0 <= k < |args|
        ensures ',' !in args[k] && Trimmed(args[k])
      {
        TrimKeepsComma(fields[k]);
      }
    }
    args
  }

  /** Trims every field, as the list comprehension `[a.strip() for a in ...]` does. */
  function TrimAll(fields: seq<string>): (r: seq<string>)
    ensures |r| == |fields|
    ensures forall k :: 0 <= k < |r| ==> r[k] == Trim(fields[k])
  {
    seq(|fields|, k requires 0 <= k < |fields| => Trim(fields[k]))
  }

  lemma TrimKeepsComma(s: string)
    ensures ',' in Trim(s) <==> ',' in s
  {
    StripKeeps(s, Whitespace, ',');
  }

  /**
    A parsed line the loader can act on without raising: a recognised
    predicate needs a second field, because the loader reads `args[1]`.
   */
  predicate FactOk(p: Option<Fact>) {
    match p
    case None => true
    case Some(f) => |f.args| >= 1 && (Recognised(f.pred) ==> |f.args| >= 2)
  }

  /** The loader does not raise `IndexError` on this line. */
  predicate LineOk(line: string) {
    FactOk(ParseLine(line))
  }

  predicate WellFormed(lines: seq<string>) {
    forall i :: 0 <= i < |lines| ==> LineOk(lines[i])
  }

  /** Every line parsed on its own. */
  function ParseAll(lines: seq<string>): (facts: seq<Option<Fact>>)
    ensures |facts| == |lines|
    ensures forall i :: 0 <= i < |lines| ==> facts[i] == ParseLine(lines[i])
  {
    seq(|lines|, i requires 0 <= i < |lines| => ParseLine(lines[i]))
  }

  /**
    One iteration of the loader's loop, once the line is parsed:
    `setdefault` the subject's entry, then overwrite `clase`/`subclase` or
    append to `caracteristicas`. Only the subject's entry can change, and an
    unrecognised predicate still creates it.
   */
  function AddFact(kb: KnowledgeBase, f: Fact): (r: KnowledgeBase)
    requires FactOk(Some(f))
    ensures kb.Valid() ==> r.Valid()
    ensures f.args[0] in r.entries
    ensures forall b :: b != f.args[0] ==>
      (b in r.entries <==> b in kb.entries) && (b in kb.entries ==> r.entries[b] == kb.entries[b])
  {
    var animal := f.args[0];
    var kb1 := if animal in kb.entries then kb
               else KnowledgeBase(kb.order + [animal], kb.entries[animal := Default]);
    var e := kb1.entries[animal];
    if f.pred == Clase then
      kb1.(entries := kb1.entries[animal := e.(clase := Some(f.args[1]))])
    else if f.pred == Subclase then
      kb1.(entries := kb1.entries[animal := e.(subclase := Some(f.args[1]))])
    else if f.pred == Caracteristica then
      kb1.(entries := kb1.entries[animal := e.(caracteristicas := e.caracteristicas + [f.args[1]])])
    else kb1
  }

  /** The loader's loop over parsed lines; a line without both parentheses changes nothing. */
  function LoadFacts(facts: seq<Option<Fact>>): (kb: KnowledgeBase)
    requires forall i :: 0 <= i < |facts| ==> FactOk(facts[i])
    ensures kb.Valid()
    decreases |facts|
  {
    if |facts| == 0 then Empty
    else
      var prev := LoadFacts(facts[..|facts| - 1]);
      match facts[|facts| - 1]
      case None => prev
      case Some(f) => AddFact(prev, f)
  }

  /** `cargar_conocimiento` over the lines of the fact file. */
  function Load(lines: seq<string>): (kb: KnowledgeBase)
    requires WellFormed(lines)
    ensures kb.Valid()
  {
    LoadFacts(ParseAll(lines))
  }

  /** The subjects of the counted lines, in file order, repetitions kept. */
  function Subjects(facts: seq<Option<Fact>>): seq<string>
    requires forall i :: 0 <= i < |facts| ==> FactOk(facts[i])
    decreases |facts|
  {
    if |facts| == 0 then []
    else
      var prev := Subjects(facts[..|facts| - 1]);
      assert FactOk(facts[|facts| - 1]);
      match facts[|facts| - 1]
      case None => prev
      case Some(f) => prev + [f.args[0]]
  }

  /** The value a parsed line gives to predicate `p` of animal `a`, if it is such a fact. */
  function FactValue(fact: Option<Fact>, p: string, a: string): Option<string>
    requires FactOk(fact) && Recognised(p)
  {
    match fact
    case None => None
    case Some(f) => if f.pred == p && f.args[0] == a then Some(f.args[1]) else None
  }

  /** The values the lines give to predicate `p` of animal `a`, in file order. */
  function FactValues(facts: seq<Option<Fact>>, p: string, a: string): seq<string>
    requires forall i :: 0 <= i < |facts| ==> FactOk(facts[i])
    requires Recognised(p)
    decreases |facts|
  {
    if |facts| == 0 then []
    else
      var prev := FactValues(facts[..|facts| - 1], p, a);
      match FactValue(facts[|facts| - 1], p, a)
      case None => prev
      case Some(v) => prev + [v]
  }

  /** The last element, `None` for an empty sequence. */
  function Last(s: seq<string>): Option<string> {
    if |s| == 0 then None else Some(s[|s| - 1])
  }

  /**
    The keys of the loaded dictionary are the subjects of the counted
    lines, each once, in the order of their first appearance.
   */
  lemma LoadOrder(lines: seq<string>)
    requires WellFormed(lines)
    ensures Load(lines).order == Dedup(Subjects(ParseAll(lines)))
    ensures forall a :: a in Load(lines).entries <==> a in Subjects(ParseAll(lines))
  {
    LoadFactsOrder(ParseAll(lines));
  }

  lemma {:induction false} LoadFactsOrder(facts: seq<Option<Fact>>)
    requires forall i :: 0 <= i < |facts| ==> FactOk(facts[i])
    ensures LoadFacts(facts).order == Dedup(Subjects(facts))
    ensures forall a :: a in LoadFacts(facts).entries <==> a in Subjects(facts)
    decreases |facts|
  {
    if |facts| > 0 {
      var init := facts[..|facts| - 1];
      LoadFactsOrder(init);
      var subs := Subjects(init);
      match facts[|facts| - 1]
      case None =>
      case Some(f) =>
        var x := f.args[0];
        var all := subs + [x];
        assert Subjects(facts) == all;
        assert all[..|all| - 1] == subs;
        assert Dedup(all) == if x in Dedup(subs) then Dedup(subs) else Dedup(subs) + [x];
        assert LoadFacts(facts) == AddFact(LoadFacts(init), f);
    }
  }

  /** A value for `a` can only come from a line whose subject is `a`. */
  lemma {:induction false} ValuesNeedSubject(facts: seq<Option<Fact>>, p: string, a: string)
    requires forall i :: 0 <= i < |facts| ==> FactOk(facts[i])
    requires Recognised(p)
    requires a !in Subjects(facts)
    ensures FactValues(facts, p, a) == []
    decreases |facts|
  {
    if |facts| > 0 {
      var init := facts[..|facts| - 1];
      assert a !in Subjects(init);
      ValuesNeedSubject(init, p, a);
    }
  }

  /**
    The entry of every loaded animal is what its facts say: the class and
    subclass of the last `clase` and `subclase` lines about it (`None` if
    there is none), and the characteristics of its `caracteristica` lines
    in file order with repetitions kept.
   */
  lemma LoadEntry(lines: seq<string>, a: string)
    requires WellFormed(lines)
    requires a in Load(lines).entries
    ensures var facts := ParseAll(lines);
      Load(lines).entries[a] == Entry(
        Last(FactValues(facts, Clase, a)),
        Last(FactValues(facts, Subclase, a)),
        FactValues(facts, Caracteristica, a))
  {
    LoadFactsEntry(ParseAll(lines), a);
  }

  lemma {:induction false} LoadFactsEntry(facts: seq<Option<Fact>>, a: string)
    requires forall i :: 0 <= i < |facts| ==> FactOk(facts[i])
    requires a in LoadFacts(facts).entries
    ensures LoadFacts(facts).entries[a] == Entry(
      Last(FactValues(facts, Clase, a)),
      Last(FactValues(facts, Subclase, a)),
      FactValues(facts, Caracteristica, a))
    decreases |facts|, 0
  {
    var init := facts[..|facts| - 1];
    EntrySoFar(init, a);
    var e0 := if a in LoadFacts(init).entries then LoadFacts(init).entries[a] else Default;
    assert facts == init + [facts[|facts| - 1]];
    LastFactEntry(init, facts[|facts| - 1], a, e0);
  }

  /** The entry of `a` so far, or the default one when `a` has not appeared yet. */
  lemma {:induction false} EntrySoFar(facts: seq<Option<Fact>>, a: string)
    requires forall i :: 0 <= i < |facts| ==> FactOk(facts[i])
    ensures (if a in LoadFacts(facts).entries then LoadFacts(facts).entries[a] else Default) == Entry(
      Last(FactValues(facts, Clase, a)),
      Last(FactValues(facts, Subclase, a)),
      FactValues(facts, Caracteristica, a))
    decreases |facts|, 1
  {
    LoadFactsOrder(facts);
    if a in LoadFacts(facts).entries {
      LoadFactsEntry(facts, a);
    } else {
      ValuesNeedSubject(facts, Clase, a);
      ValuesNeedSubject(facts, Subclase, a);
      ValuesNeedSubject(facts, Caracteristica, a);
    }
  }

  /** One more fact turns the subject's entry `e0` so far into its entry after that fact. */
  lemma LastFactEntry(init: seq<Option<Fact>>, x: Option<Fact>, a: string, e0: Entry)
    requires forall i :: 0 <= i < |init| ==> FactOk(init[i])
    requires FactOk(x)
    requires a in LoadFacts(init + [x]).entries
    requires e0 == if a in LoadFacts(init).entries then LoadFacts(init).entries[a] else Default
    requires e0 == Entry(
      Last(FactValues(init, Clase, a)),
      Last(FactValues(init, Subclase, a)),
      FactValues(init, Caracteristica, a))
    ensures LoadFacts(init + [x]).entries[a] == Entry(
      Last(FactValues(init + [x], Clase, a)),
      Last(FactValues(init + [x], Subclase, a)),
      FactValues(init + [x], Caracteristica, a))
  {
    assert (init + [x])[..|init|] == init;
    match x
    case None =>
    case Some(f) =>
      if f.args[0] == a {
        AddFactSubject(LoadFacts(init), f);
      }
  }

  /** The subject's entry after one fact: created if absent, then updated by the predicate. */
  lemma AddFactSubject(kb: KnowledgeBase, f: Fact)
    requires FactOk(Some(f))
    ensures var e0 := if f.args[0] in kb.entries then kb.entries[f.args[0]] else Default;
      AddFact(kb, f).entries[f.args[0]] ==
        if f.pred == Clase then e0.(clase := Some(f.args[1]))
        else if f.pred == Subclase then e0.(subclase := Some(f.args[1]))
        else if f.pred == Caracteristica then e0.(caracteristicas := e0.caracteristicas + [f.args[1]])
        else e0
  {
  }

  /** The parsed line is a `clase`, `subclase` or `caracteristica` fact about `a`. */
  predicate Informs(fact: Option<Fact>, a: string) {
    match fact
    case None => false
    case Some(f) => |f.args| >= 1 && f.args[0] == a && Recognised(f.pred)
  }

  /**
    An animal whose lines all carry other predicates still gets an entry,
    the default one.
   */
  lemma UnrecognisedOnly(lines: seq<string>, a: string)
    requires WellFormed(lines)
    requires a in Subjects(ParseAll(lines))
    requires forall i :: 0 <= i < |lines| ==> !Informs(ParseLine(lines[i]), a)
    ensures a in Load(lines).entries
    ensures Load(lines).entries[a] == Default
  {
    var facts := ParseAll(lines);
    LoadOrder(lines);
    NoFactValues(facts, Clase, a);
    NoFactValues(facts, Subclase, a);
    NoFactValues(facts, Caracteristica, a);
    LoadEntry(lines, a);
  }

  lemma {:induction false} NoFactValues(facts: seq<Option<Fact>>, p: string, a: string)
    requires forall i :: 0 <= i < |facts| ==> FactOk(facts[i])
    requires Recognised(p)
    requires forall i :: 0 <= i < |facts| ==> !Informs(facts[i], a)
    ensures FactValues(facts, p, a) == []
    decreases |facts|
  {
    if |facts| > 0 {
      NoFactValues(facts[..|facts| - 1], p, a);
    }
  }

  lemma PairEq(s: seq<string>, x: string, y: string)
    requires |s| == 2 && s[0] == x && s[1] == y
    ensures s == [x, y]
  {
  }

  /** A fact written the way the fact file writes it: `pred(subject, value).` and a newline. */
  function Render(pred: string, subject: string, value: string): string {
    pred + "(" + subject + ", " + value + ").\n"
  }

  /**
    Parsing undoes rendering, for every predicate that has no `(` and does
    not start with `.` or a newline, and every subject and value that hold
    no `,`, carry no surrounding whitespace and (the value) do not end in `)`.
   */
  lemma ParseRendered(pred: string, subject: string, value: string)
    requires '(' !in pred
    requires |pred| > 0 ==> pred[0] != '.' && pred[0] != '\n'
    requires ',' !in subject && ',' !in value
    requires Trimmed(subject) && Trimmed(value)
    requires |value| > 0 ==> value[|value| - 1] != ')'
    ensures ParseLine(Render(pred, subject, value)) == Some(Fact(pred, [subject, value]))
  {
    var body := subject + ", " + value;
    var hecho := pred + "(" + body + ")";
    var line := Render(pred, subject, value);
    assert line == pred + "(" + body + ").\n";
    assert line[|pred|] == '(';
    assert line[|line| - 3] == ')';
    RenderedStrip(pred, body);
    RenderedSplitOnce(pred, body);
    RenderedArgs(subject, value);
    ParseLineCounted(line);
  }

  /** How a counted line is parsed, spelled out. */
  lemma ParseLineCounted(line: string)
    requires '(' in line && ')' in line
    ensures '(' in Strip(line, Dots)
    ensures ParseLine(line) == Some(Fact(
      SplitOnce(Strip(line, Dots), '(').0,
      ParseArgs(SplitOnce(Strip(line, Dots), '(').1)))
  {
    StripKeeps(line, Dots, '(');
  }

  lemma RenderedStrip(pred: string, body: string)
    requires |pred| > 0 ==> pred[0] != '.' && pred[0] != '\n'
    ensures Strip(pred + "(" + body + ").\n", Dots) == pred + "(" + body + ")"
  {
    var hecho := pred + "(" + body + ")";
    var line := pred + "(" + body + ").\n";
    RenderedLStrip(pred, body);
    RenderedRStrip(hecho);
    assert line == (hecho + ['.']) + ['\n'];
  }

  /** A rendered line starts with its predicate or `(`, so nothing is stripped at the front. */
  lemma RenderedLStrip(pred: string, body: string)
    requires |pred| > 0 ==> pred[0] != '.' && pred[0] != '\n'
    ensures LStrip(pred + "(" + body + ").\n", Dots) == pred + "(" + body + ").\n"
  {
    var line := pred + "(" + body + ").\n";
    assert line[0] == if |pred| > 0 then pred[0] else '(';
    LStripStop(line, Dots);
  }

  /** The final `.` and newline are stripped at the back, and the `)` before them stops it. */
  lemma RenderedRStrip(hecho: string)
    requires |hecho| > 0 && hecho[|hecho| - 1] == ')'
    ensures RStrip((hecho + ['.']) + ['\n'], Dots) == hecho
  {
    RStripDrop(hecho + ['.'], '\n', Dots);
    RStripDrop(hecho, '.', Dots);
    RStripStop(hecho, Dots);
  }

  lemma RenderedSplitOnce(pred: string, body: string)
    requires '(' !in pred
    ensures '(' in pred + "(" + body + ")"
    ensures SplitOnce(pred + "(" + body + ")", '(') == (pred, body + ")")
  {
    var hecho := pred + "(" + body + ")";
    assert hecho[|pred|] == '(';
    assert hecho[..|pred|] == pred;
    IndexOfExact(hecho, '(', |pred|);
    assert hecho[|pred| + 1..] == body + ")";
  }

  lemma RenderedArgs(subject: string, value: string)
    requires ',' !in subject && ',' !in value
    requires Trimmed(subject) && Trimmed(value)
    requires |value| > 0 ==> value[|value| - 1] != ')'
    ensures ParseArgs(subject + ", " + value + ")") == [subject, value]
  {
    var body := subject + ", " + value;
    RStripDrop(body, ')', {')'});
    assert body[|body| - 1] == if |value| > 0 then value[|value| - 1] else ' ';
    RStripStop(body, {')'});
    var fields := [subject, [' '] + value];
    assert body == subject + [','] + ([' '] + value);
    assert Join(fields, ',') == body;
    SplitJoin(fields, ',');
    TrimTrimmed(subject);
    TrimAfterSpace(value);
    var args := TrimAll(fields);
    assert |args| == 2 && args[0] == subject && args[1] == value;
    PairEq(args, subject, value);
  }
}
