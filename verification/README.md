# AkiAnimals in Dafny

A model of the two pieces of logic in `AkiPY-Tkinter.py`, an Akinator-style animal guessing game.

1. The fact loader `cargar_conocimiento`. It reads lines of the form `pred(animal, value).` into a dictionary. The dictionary maps each animal to its class (`clase`), its subclass (`subclase`) and its list of characteristics (`caracteristicas`).
2. The question-and-answer game. It runs through four phases in order:
   - it offers the sorted classes one by one;
   - it offers the sorted subclasses of the confirmed class;
   - it asks about up to 15 shuffled characteristics of the candidate animals;
   - it guesses the candidate with the most "yes" characteristics.

The widget callbacks `_start_game`, `_ask_next`, `_answer` and `_evaluate_candidates` become pure functions over an immutable session.

Modules, one file each:

- `Wrappers`: `Option`.
- `Seqs`: the list helpers the game uses.
  - `Distinct`;
  - `Dedup`, which stands for `list(set(...))`;
  - `Take`, which is slicing;
  - `Shuffle`, which is CPython's Fisher-Yates `random.shuffle` with its random draws given as a parameter.
- `Text`: the Python string methods the loader uses.
  - `strip(chars)`, `rstrip(chars)` and `strip()` over Python's whitespace set;
  - `split(sep, 1)` and `split(sep)`;
  - code-point ordering of strings.
- `Values`: `sorted` over a set of class or subclass values. Each value is a string or `None`. Mixing `None` with a string is the `TypeError` case.
- `Knowledge`: the knowledge base, the line parser and the loader.
- `Queries`: what the game computes from the knowledge base.
  - the class and subclass lists;
  - the candidates;
  - the list of characteristics to ask.
- `Scoring`: the scores and the choice of the guess.
- `Engine`: the session, `AskNext`, `Start`, `Step`, the session invariant and a rank.
- `Game`: a whole game fed a sequence of answers, and its bounds.
- `Scenarios`: concrete runs — a tie between candidates, one shuffle, one parsed line, and a full game.

Python details that the model spells out:

- **Dictionary order.** Iteration follows insertion order, kept as `KnowledgeBase.order`. That order decides the candidate order and therefore the winner of a tie.
- **Missing facts.** A missing class or subclass is `None`.
- **Duplicate characteristics.** Repeated characteristics are kept, and each occurrence scores.
- **Iterators.** A set becomes a sorted list before any question is drawn from it. The iterators become cursors into those lists.

## Model

| member | source | states |
|---|---|---|
| Text.Strip | AkiPY-Tkinter.py:12 | `strip(".\n")` gives a middle slice of the line: everything cut off before and after it is `.` or newline, and the slice neither starts nor ends with one. |
| Text.StripKeeps | AkiPY-Tkinter.py:12-13 | Stripping `.` and newline never removes a `(`, so the split at line 13 always finds one. |
| Text.RStrip | AkiPY-Tkinter.py:14 | `rstrip(")")` keeps a prefix, drops only `)` characters, and leaves no trailing `)`. |
| Text.SplitOnce | AkiPY-Tkinter.py:13 | `split("(", 1)` gives a predicate with no `(`; predicate, `(` and rest rebuild the text. |
| Text.Split | AkiPY-Tkinter.py:14 | `split(",")` gives at least one field; no field holds `,`; joining the fields with `,` gives the text back. |
| Text.SplitJoin | AkiPY-Tkinter.py:14 | Splitting the join of comma-free fields gives back exactly those fields, so split and join are inverses. |
| Text.Trim | AkiPY-Tkinter.py:14 | `strip()` gives a middle slice of the field: everything cut off on either side is Python whitespace, and the slice neither starts nor ends with whitespace. |
| Text.LessIffFirstDifference | AkiPY-Tkinter.py:119 | Python's `<` on strings, which orders the classes and subclasses, holds exactly when the first string is a proper prefix of the second or has the smaller code point at the first position where they differ. |
| Values.Sorted | AkiPY-Tkinter.py:119 | `sorted` of a set succeeds when the values do not mix `None` with strings. The result is strictly ascending, holds each value once, and has the same members as the input. |
| Values.AscendingUnique | AkiPY-Tkinter.py:163 | Two strictly ascending lists with the same members are equal, so the sorted order of a set is unique. |
| Seqs.Dedup | AkiPY-Tkinter.py:176-179 | `list(set(...))` has no repetitions, has the same members as its input, and is no longer than it. |
| Seqs.Shuffle | AkiPY-Tkinter.py:180 | `random.shuffle`, for any draws, returns a permutation of its input (same length, same multiset), and a distinct input stays distinct. |
| Seqs.Take | AkiPY-Tkinter.py:182 | `todas[:15]` is the prefix of length `min(15, len)`. |
| Knowledge.ParseLine | AkiPY-Tkinter.py:11-14 | A line yields a fact exactly when it contains both `(` and `)`. The fact has a predicate without `(` and at least one field. |
| Knowledge.ParseArgs | AkiPY-Tkinter.py:14 | Every field is comma-free and trimmed, and there is at least one field. |
| Knowledge.AddFact | AkiPY-Tkinter.py:16-25 | A fact creates its subject's entry when missing, even for an unknown predicate. It leaves every other animal's presence and entry untouched, and it keeps the dictionary well-formed. |
| Knowledge.LoadFacts | AkiPY-Tkinter.py:10-25 | Folding the parsed lines yields a well-formed dictionary: each key once, keys and order in agreement. |
| Knowledge.Load | AkiPY-Tkinter.py:7-26 | Loading the lines of a file that does not raise `IndexError` gives a well-formed dictionary. |
| Knowledge.LoadOrder | AkiPY-Tkinter.py:16-19 | The keys are the subjects of the counted lines, each once, in order of first appearance. An animal is a key exactly when some counted line names it. |
| Knowledge.LoadEntry | AkiPY-Tkinter.py:20-25 | Each entry holds the value of the last `clase` line (or `None`) and of the last `subclase` line (or `None`). Its characteristics are those of all its `caracteristica` lines, in file order, duplicates kept. |
| Knowledge.UnrecognisedOnly | AkiPY-Tkinter.py:16-25 | An animal named only by lines with other predicates is still a key, with the default entry. |
| Knowledge.ParseRendered | AkiPY-Tkinter.py:11-14 | Parsing the line `pred(subject, value).` followed by a newline gives back `pred` and the two fields. This holds for comma-free, trimmed fields and a value not ending in `)`. |
| Queries.ClassValues | AkiPY-Tkinter.py:119 | One class value per animal, and a value occurs exactly when some animal has it. |
| Queries.SubclassValues | AkiPY-Tkinter.py:163 | A value occurs exactly when some animal of class `c` has it as subclass. |
| Queries.Classes | AkiPY-Tkinter.py:119 | The class questions are the animals' classes, strictly ascending, at most one per animal. |
| Queries.Subclasses | AkiPY-Tkinter.py:162-164 | The subclass questions are the subclasses of the animals of the confirmed class, strictly ascending, at most one per animal. |
| Queries.Candidates | AkiPY-Tkinter.py:169-172 | The candidates are exactly the animals with the confirmed class and subclass. They come in dictionary order, each once. |
| Queries.AllChars | AkiPY-Tkinter.py:177 | A characteristic occurs exactly when some candidate has it. |
| Queries.Unanswered | AkiPY-Tkinter.py:178 | Keeps exactly the characteristics without a recorded answer. |
| Queries.CharacteristicList | AkiPY-Tkinter.py:176-182 | The list has no repetitions and holds only pending characteristics: those of some candidate, not yet answered. There are `min(15, pending)` of them; with at most 15 pending, every one is listed. |
| Scoring.Score | AkiPY-Tkinter.py:200 | A score is at most the length of the characteristic list. |
| Scoring.ScoreCountsPositions | AkiPY-Tkinter.py:200 | The score is the number of positions of the list whose characteristic was answered "yes"; a missing answer counts as "no". |
| Scoring.ScoreAppend | AkiPY-Tkinter.py:200 | Scores add over concatenation, so a characteristic listed twice scores twice. |
| Scoring.FirstMaxUnique | AkiPY-Tkinter.py:199-202 | At most one candidate is the first one with the highest score. |
| Scoring.Evaluate | AkiPY-Tkinter.py:197-203 | The running best is `None` exactly when there are no candidates, and then the score stays -1. Otherwise the best is one of the candidates. |
| Scoring.EvaluateFirstMax | AkiPY-Tkinter.py:198-202 | With candidates, the guess is the first candidate with the highest score, and the running score is its score. |
| Engine.NextUnanswered | AkiPY-Tkinter.py:140-147 | The skip loop stops at the first position, from the cursor on, whose characteristic has no answer, or at the end of the list. |
| Engine.AskNext | AkiPY-Tkinter.py:122-153 | Asking never records an answer, and a characteristic is asked only while it has no answer. The game gives up with "No pude adivinar." only in the characteristics phase with no candidates. Once a class is confirmed, asking never leaves it. |
| Engine.Start | AkiPY-Tkinter.py:104-120 | A game starts only on a non-empty dictionary. The start satisfies the session invariant, keeps the answers of earlier games, and asks first about the smallest class. |
| Engine.MessagesDistinct | AkiPY-Tkinter.py:129-204 | The six texts `_finish` shows, held by `Engine.Message`, differ pairwise, so each text identifies how the game ended. |
| Engine.Step | AkiPY-Tkinter.py:155-195 | Only a characteristic answer changes `respuestas`, and it stores exactly `respuestas[c] = yes`. |
| Engine.ClassHasSubclass | AkiPY-Tkinter.py:162-165 | A class that was offered always has at least one subclass to offer. |
| Engine.SubclassHasCandidate | AkiPY-Tkinter.py:169-175 | A subclass that was offered always has a candidate, so the "No hay coincidencias" branch is unreachable. |
| Engine.ClassAnswer | AkiPY-Tkinter.py:122-165 | The class asked is the one at `pos - 1` of the sorted class list. "Yes" confirms exactly that class and asks its smallest subclass (a class always has one). "No" asks the class at `pos`, the next one in sorted order; "No pude determinar la clase." comes only after the last class. The answers are untouched, the invariant holds and the rank drops. |
| Engine.AskCharacteristic | AkiPY-Tkinter.py:139-148 | While no characteristic from the cursor on has an answer, the next question is the one at the cursor, or the guess once the list is used up. |
| Engine.SubclassAnswer | AkiPY-Tkinter.py:130-184 | The subclass asked is the one at `pos - 1` of the confirmed class's sorted subclass list. "Yes" confirms exactly that subclass: the candidates are the animals of that class and subclass (never none), the list is the drawn characteristics list, and the first characteristic is asked, or the guess when the list is empty. "No" asks the subclass at `pos`, the next one in sorted order; "No pude determinar la subclase." comes only after the last one. The invariant holds and the rank drops. |
| Engine.CharacteristicAnswer | AkiPY-Tkinter.py:139-186 | The characteristic had no answer before, so each is answered at most once. Its answer is stored, and the next question is exactly the next list element (no skips), or, once the list is used up, the guess picked from the candidates with the new answers. The rank drops. |
| Engine.GuessAnswer | AkiPY-Tkinter.py:187-193 | The guess ends the game on either answer: success exactly on "yes", failure exactly on "no". |
| Engine.StepKeepsInv | AkiPY-Tkinter.py:155-208 | Every answer keeps the session invariant and lowers the rank. No answer ends with "No hay coincidencias" or "No pude adivinar.". |
| Engine.GuessIsBest | AkiPY-Tkinter.py:197-208 | When the guess is asked, the candidates are exactly the animals of the confirmed class and subclass. The guess is the first of them with the highest score. |
| Game.Run | AkiPY-Tkinter.py:155-195 | Feeding answers keeps the invariant. Answered questions plus remaining rank never exceed the starting rank. A game still asking has used every answer. |
| Game.GameBounded | AkiPY-Tkinter.py:119-195 | Whatever the answers and the shuffle, a game ends within `2·animals + 16` answers and asks at most 15 characteristic questions. |
| Game.RunLeft | AkiPY-Tkinter.py:123-186 | Over a run, answered questions plus prompts left stay within the prompts left at the start, plus the budget of the class confirmed on the way. |
| Game.GamePrompts | AkiPY-Tkinter.py:119-195 | A game shows at most one prompt per class. Once a class is confirmed, it adds at most one per subclass of that class, 15 characteristic questions and the guess. |
| Scenarios.TieGoesToFirst | AkiPY-Tkinter.py:199-202 | Of two candidates tied at the top score, the one first in dictionary order is the guess. |
| Scenarios.ShuffleThree | AkiPY-Tkinter.py:180 | With draws 0 and 0, `random.shuffle([1, 2, 3])` gives `[2, 3, 1]`. |
| Scenarios.ParseClaseLine | AkiPY-Tkinter.py:11-14 | `clase(perro, mamifero).` followed by a newline parses to predicate `clase` with fields `perro` and `mamifero`. |
| Scenarios.SoloGame | AkiPY-Tkinter.py:104-208 | On a one-animal dictionary, the answers yes, yes, no, yes ask class, subclass, characteristic and guess in turn, and end in success. |

## Left out

- **Tkinter.** Widgets, layout, the animal list, the info panel, `messagebox`, button enabling and the `after(200, ...)` delay are presentation only. A session is `Asking` exactly while the buttons are enabled. Finishing is the `Finished` status, and `Engine.Message` holds its text.
- **`_show_image`.** Images, PIL and the file system are outside the game logic.
- **Question labels.** The label texts and `capitalize()`/`lower()` are left out. The guess question carries the animal's key rather than its capitalized name.
- **Selecting an animal.** The start handler first reads the list selection and shows that animal's facts. With an empty dictionary the list is empty, nothing is selected and no game starts; `Engine.Start` therefore requires a non-empty dictionary. A selection whose lower-cased name is not a key makes `self.conocimiento[key]` raise `KeyError` before the game starts; that path is not modelled.
- **File handling.** The model takes the file's lines directly, each with its trailing newline. Opening and decoding the file is not modelled.
- **Set order.** The order in which `list(set(...))` yields characteristics depends on string hashing. The model takes first-occurrence order (`Seqs.Dedup`) and lets the shuffle draws supply the permutation. Every property about the list holds for every choice of draws.
- Engine.Start: takes the answers of earlier games as a parameter, because a new game keeps them. The start sets only `phase` and `clases_iter`; the other per-game fields (`sub_iter`, `candidatos`, `caracteristicas_ordenadas`, `char_index`, `best_animal`) keep the previous game's values but are always overwritten before they are read, so the session does not carry them. A second press of the start button mid-game is the same as a fresh `Start`. A delayed `_ask_next` still pending from the previous game is not modelled.
- **Python runtime errors** are modelled as preconditions.
  - `Knowledge.Load` requires that no `clase`, `subclase` or `caracteristica` line lacks its second field. Such a line makes the loader raise `IndexError` on `args[1]`.
  - `Engine.Start` requires that the class values do not mix `None` with strings. `Engine.Step` requires the same of the confirmed class's subclasses. Otherwise `sorted` raises `TypeError`. An animal with no class at all is accepted as long as every animal lacks one.
- Game.Run: requires that no class's subclass values mix `None` with strings. The program fails only if the player confirms such a class, so this precondition is stronger than the program's behaviour.
- Game.GameBounded: bounds the game by `2·animals + 16` answers. The tighter bound of one prompt per class plus the confirmed class's subclasses, 15 characteristics and the guess is `Game.GamePrompts`.
- **Predicates and duplicates.** The loader matches only the Spanish predicates `clase`, `subclase` and `caracteristica`. An animal's characteristics are a list that keeps duplicates, and each occurrence scores.
