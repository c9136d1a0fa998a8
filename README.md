# A verified model of the `regular_automata` regex engine

This project models the core of a small Java regex engine built on finite
automata (package `personal.gokul2411s.regular_automata`):

- the non-deterministic automaton, its epsilon-closure search and its subset
  simulation `accepts`;
- the mutable `AutomatonBuilder` and the validation done by `build()`;
- the copy utilities and the Thompson combinators (concatenation, union,
  Kleene star) together with the atomic automata of the factory;
- the subset construction (`Determinization`);
- the regex compiler (`RegexCompiler.RegexBuilder`), which parses a pattern over an
  index range, folds atoms with concatenation and branches with union,
  recurses into groups, and determinizes the result once.

The automaton is a value, `Automata.Automaton<S>`. Its transition table is a
`map<(int, S), set<int>>` and its epsilon relation a `map<int, set<int>>`.
The builder is a class whose fields are reassigned by its `With*` methods.
The Java loops are Dafny methods with loop invariants. They are the BFS of
`epsilonClosure`, the simulation loop of `accepts`, the validation loops, the
copy loops, the subset-construction BFS and the compiler's main loop, group
scan and folds. Each method is proved equal to a specification function:

- `Closure` is a fixpoint;
- `Reach` and `Accepted` define the simulation;
- `Concatenated`, `United` and `Starred` give the combinator results;
- `Determinized` relates the subset automaton to its input;
- `ParseRange` is the parse of a pattern range.

On top of these the model proves what the engine is for:

- the epsilon closure is exactly epsilon-reachability;
- each combinator accepts the concatenation, union or iteration of its
  operands' languages;
- determinization preserves the language;
- a compiled regex matches exactly the words its pattern describes. These
  words are defined by an expression tree (`RegexSyntax.Expr`) with its own
  language semantics (`InLanguage`).

The concrete behaviours the repository's unit tests assert are stated as
lemmas and methods: `AutomatonExamples` builds each automaton of
`AutomatonTest` through the builder, `DeterminizationExamples` and
`RegexExamples` cover the determinization and regex tests, and the
combinator modules cover their own. Where the test's automaton is small the
lemma gives its whole language, not only the inputs the test tries.

The factory's delegating entry points `kleeneStarred`, `unioned`,
`concatenated` and `determinized` (AutomatonFactory.java:26-40) are the
`Apply` methods of the `KleeneStar`, `Union`, `Concatenation` and
`Determinization` modules. The regex compiler calls those methods directly.

## Model

| member | source | states |
|---|---|---|
| Automata.AdjacentStates | src/main/java/personal/gokul2411s/regular_automata/Automaton.java:96-102 | a (state, symbol) pair without a table entry yields the empty set; a state is in the result iff the labelled edge is in the table |
| Automata.EpsilonSuccessors | src/main/java/personal/gokul2411s/regular_automata/Automaton.java:91 | the epsilon lookup with an empty default: no entry gives no successors, and a state is a successor iff the epsilon edge exists |
| Automata.StateTransitions | src/main/java/personal/gokul2411s/regular_automata/Automaton.java:104-106 | the row of a state: its symbols are exactly those with a table entry, each mapped to that entry's destinations |
| Automata.WellFormedIffMentionedInUniverse | src/main/java/personal/gokul2411s/regular_automata/Automaton.java:181-207 | validity holds iff every state the automaton mentions lies in `[0, numStates)`: initial, finals, and every edge source and target |
| Automata.ClosureExtensiveAndClosed | src/main/java/personal/gokul2411s/regular_automata/Automaton.java:79-94 | the closure contains its seed and is closed under epsilon edges |
| Automata.ClosureLeast | src/main/java/personal/gokul2411s/regular_automata/Automaton.java:79-94 | the closure is contained in every epsilon-closed superset of the seed |
| Automata.ClosureOfClosed | src/main/java/personal/gokul2411s/regular_automata/Automaton.java:79-94 | closing an epsilon-closed set returns that same set |
| Automata.ClosureIdempotent | src/main/java/personal/gokul2411s/regular_automata/Automaton.java:79-94 | closing a closure changes nothing |
| Automata.ClosureMonotone | src/main/java/personal/gokul2411s/regular_automata/Automaton.java:79-94 | a larger seed has a larger closure |
| Automata.ClosureWithoutEpsilon | src/main/java/personal/gokul2411s/regular_automata/Automaton.java:79-94 | without epsilon edges every set is its own closure |
| Automata.ClosureOnlyReachable | src/main/java/personal/gokul2411s/regular_automata/Automaton.java:85-93 | every state of the closure is reached from the seed by a chain of epsilon edges |
| Automata.ClosureIsEpsilonReachability | src/main/java/personal/gokul2411s/regular_automata/Automaton.java:85-93 | a state is in the closure iff a chain of zero or more epsilon edges leads to it from the seed (both directions) |
| Automata.AppendAll | src/main/java/personal/gokul2411s/regular_automata/Automaton.java:91 | the queue is extended at its end by exactly the members of the set, each once |
| Automata.EpsilonClosure | src/main/java/personal/gokul2411s/regular_automata/Automaton.java:79-94 | the BFS with a visited set returns exactly the closure of the given states |
| Automata.EpsilonClosureOfState | src/main/java/personal/gokul2411s/regular_automata/Automaton.java:70-74 | the single-state overload returns the closure of `{state}`, which contains the state |
| Automata.ReachSnoc | src/main/java/personal/gokul2411s/regular_automata/Automaton.java:49-59 | one symbol of input moves the occupied set to the closure of its symbol step |
| Automata.ReachStaysEmpty | src/main/java/personal/gokul2411s/regular_automata/Automaton.java:50-52 | once no state is occupied, none is after any further input, so the early `return false` is sound |
| Automata.Accepts | src/main/java/personal/gokul2411s/regular_automata/Automaton.java:44-65 | the simulation loop, early exit included, returns true iff the set occupied after the whole input meets the final states |
| Automata.EdgesAddTo | src/main/java/personal/gokul2411s/regular_automata/Automaton.java:147-155 | adding a destination to a table entry adds exactly that one labelled edge |
| Automata.EpsEdgesAddTo | src/main/java/personal/gokul2411s/regular_automata/Automaton.java:166-174 | adding an epsilon destination adds exactly that one epsilon edge |
| Automata.AutomatonBuilder.constructor | src/main/java/personal/gokul2411s/regular_automata/Automaton.java:120-124 | a fresh builder has empty tables, no finals and zero numbers |
| Automata.AutomatonBuilder.WithNumStates | src/main/java/personal/gokul2411s/regular_automata/Automaton.java:126-129 | sets the state count and nothing else |
| Automata.AutomatonBuilder.WithInitialState | src/main/java/personal/gokul2411s/regular_automata/Automaton.java:131-134 | sets the initial state and nothing else |
| Automata.AutomatonBuilder.WithFinalState | src/main/java/personal/gokul2411s/regular_automata/Automaton.java:136-139 | adds one final state and changes nothing else |
| Automata.AutomatonBuilder.WithFinalStates | src/main/java/personal/gokul2411s/regular_automata/Automaton.java:141-145 | replaces the whole final set and changes nothing else |
| Automata.AutomatonBuilder.WithTransition | src/main/java/personal/gokul2411s/regular_automata/Automaton.java:147-155 | adds `to` under `(from, sym)`, creating the entry if absent; the edge set grows by exactly that edge |
| Automata.AutomatonBuilder.WithTransitions | src/main/java/personal/gokul2411s/regular_automata/Automaton.java:157-164 | replaces the whole transition table and changes nothing else |
| Automata.AutomatonBuilder.WithEpsilonTransition | src/main/java/personal/gokul2411s/regular_automata/Automaton.java:166-174 | adds `to` under `from`, creating the entry if absent; the epsilon edges grow by exactly that edge |
| Automata.ReportedStatesSound | src/main/java/personal/gokul2411s/regular_automata/Automaton.java:181-207 | the states validation may report (an out-of-universe state of the first failing group, in the order initial, finals, labelled edges, epsilon edges) exist iff the automaton is invalid, and each is a mentioned state outside the universe |
| Automata.AutomatonBuilder.Validate | src/main/java/personal/gokul2411s/regular_automata/Automaton.java:181-207 | reports no state iff the described automaton is valid; a reported state is mentioned, outside the universe, and from the first group in checking order that has one (so a bad initial state is the one reported, a bad final beats any bad edge, and a bad labelled edge beats any bad epsilon edge) |
| Automata.AutomatonBuilder.Build | src/main/java/personal/gokul2411s/regular_automata/Automaton.java:176-207 | succeeds iff every state reference lies in the universe, returning the described automaton; otherwise fails naming a state of the first failing group in the checking order of `validate` |
| Runs.RunAppend | src/main/java/personal/gokul2411s/regular_automata/Automaton.java:44-61 | simulating `u + v` equals simulating `v` from the set reached after `u` |
| Runs.RunMonotone | src/main/java/personal/gokul2411s/regular_automata/Automaton.java:44-61 | starting from more states never occupies fewer states |
| Runs.ReachInUniverse | src/main/java/personal/gokul2411s/regular_automata/Automaton.java:44-61 | on a valid automaton the simulation only ever occupies states of the universe |
| Runs.RunEmbedding | src/main/java/personal/gokul2411s/regular_automata/AutomatonCopyUtils.java:27-51 | an automaton holding a shifted copy of another's edges simulates it: what the original occupies, the copy occupies shifted |
| CopyUtils.AddEpsilonTransitions | src/main/java/personal/gokul2411s/regular_automata/AutomatonCopyUtils.java:15-20 | adds exactly one epsilon edge `(f + offset, to)` per state `f` of the set; other builder fields are untouched |
| CopyUtils.AddEpsilonTransitionsUnshifted | src/main/java/personal/gokul2411s/regular_automata/AutomatonCopyUtils.java:10-13 | the overload without offset adds the edges of offset 0 |
| CopyUtils.CopyTransitions | src/main/java/personal/gokul2411s/regular_automata/AutomatonCopyUtils.java:27-36 | adds exactly the input's labelled edges shifted by the offset, and only touches the transition table |
| CopyUtils.CopyRow | src/main/java/personal/gokul2411s/regular_automata/AutomatonCopyUtils.java:32-34 | the inner loop adds the shifted edges of one table entry |
| CopyUtils.CopyTransitionsUnshifted | src/main/java/personal/gokul2411s/regular_automata/AutomatonCopyUtils.java:22-25 | the overload without offset adds the input's edges unchanged |
| CopyUtils.CopyEpsilonTransitions | src/main/java/personal/gokul2411s/regular_automata/AutomatonCopyUtils.java:43-51 | adds exactly the input's epsilon edges shifted by the offset, and only touches the epsilon map |
| CopyUtils.CopyEpsilonRow | src/main/java/personal/gokul2411s/regular_automata/AutomatonCopyUtils.java:47-49 | the inner loop adds the shifted epsilon edges of one source state |
| CopyUtils.CopyEpsilonTransitionsUnshifted | src/main/java/personal/gokul2411s/regular_automata/AutomatonCopyUtils.java:38-41 | the overload without offset adds the input's epsilon edges unchanged |
| CopyUtils.ShiftByZero | src/main/java/personal/gokul2411s/regular_automata/AutomatonCopyUtils.java:10-13 | shifting by offset 0 is the identity on edge sets |
| CopyUtils.ShiftedEdgesInRange | src/main/java/personal/gokul2411s/regular_automata/AutomatonCopyUtils.java:27-36 | every endpoint copied from a valid n-state input lies in `[offset, offset + n)` |
| Factory.EmptyInput | src/main/java/personal/gokul2411s/regular_automata/AutomatonFactory.java:8-15 | the one-state automaton with an epsilon self-loop passes validation |
| Factory.SingleSymbol | src/main/java/personal/gokul2411s/regular_automata/AutomatonFactory.java:17-24 | passes validation; its only edge is `0 -sym-> 1` and it has no epsilon edges |
| Factory.AllSymbols | src/main/java/personal/gokul2411s/regular_automata/Regex.java:79 | passes validation; its edges are exactly `0 -sym-> 1` for every symbol of the alphabet |
| Factory.EmptyInputLanguage | src/main/java/personal/gokul2411s/regular_automata/AutomatonFactory.java:8-15 | accepts the empty input and nothing else |
| Factory.SingleSymbolLanguage | src/main/java/personal/gokul2411s/regular_automata/AutomatonFactory.java:17-24 | accepts exactly the one-symbol input `[sym]` |
| Factory.AllSymbolsLanguage | src/main/java/personal/gokul2411s/regular_automata/Regex.java:78-81 | accepts exactly the one-symbol inputs over the alphabet |
| Concatenation.ConcatenatedStates | src/main/java/personal/gokul2411s/regular_automata/Concatenation.java:12-21 | `|A|+|B|+2` states, initial `|A|+|B|`, finals `{|A|+|B|+1}` |
| Concatenation.ConcatenatedEdges | src/main/java/personal/gokul2411s/regular_automata/Concatenation.java:22-33 | A's edges unshifted, B's shifted by `|A|`, the entry edge to A's initial state, A's finals to B's shifted initial state, B's shifted finals to the new final state, and nothing else |
| Concatenation.ConcatenatedWellFormed | src/main/java/personal/gokul2411s/regular_automata/Concatenation.java:17-35 | valid operands give a result that passes validation |
| Concatenation.Apply | src/main/java/personal/gokul2411s/regular_automata/Concatenation.java:10-36 | the builder sequence produces exactly the concatenation automaton, which is valid |
| ConcatenationLanguage.ConcatenationLanguage | src/main/java/personal/gokul2411s/regular_automata/Concatenation.java:10-36 | the result accepts `w` iff some split of `w` has its prefix accepted by A and its suffix by B |
| ConcatenationLanguage.ConcatOfTwoSymbols | src/test/java/personal/gokul2411s/regular_automata/ConcatenationTest.java:11-39 | concatenating the automata of `a` and `b` accepts exactly `[a, b]` |
| Union.UnitedStates | src/main/java/personal/gokul2411s/regular_automata/Union.java:14-23 | `|A|+|B|+2` states, initial `|A|+|B|`, finals `{|A|+|B|+1}` |
| Union.UnitedEdges | src/main/java/personal/gokul2411s/regular_automata/Union.java:24-33 | A's edges unshifted, B's shifted by `|A|`, entry edges to both initial states, every final of either to the new final, and nothing else |
| Union.UnitedWellFormed | src/main/java/personal/gokul2411s/regular_automata/Union.java:19-35 | valid operands give a result that passes validation |
| Union.Apply | src/main/java/personal/gokul2411s/regular_automata/Union.java:12-36 | the builder sequence produces exactly the union automaton, which is valid |
| UnionLanguage.UnionLanguage | src/main/java/personal/gokul2411s/regular_automata/Union.java:12-36 | the result accepts `w` iff A or B accepts `w` |
| UnionLanguage.UnionOfTwoSymbols | src/test/java/personal/gokul2411s/regular_automata/UnionTest.java:11-35 | the union of the automata of `a` and `b` accepts exactly `[a]` and `[b]` |
| KleeneStar.StarredStates | src/main/java/personal/gokul2411s/regular_automata/KleeneStar.java:16-24 | `|A|+2` states, initial `|A|`, finals `{|A|+1}` |
| KleeneStar.StarredEdges | src/main/java/personal/gokul2411s/regular_automata/KleeneStar.java:25-35 | A's edges unshifted, the new initial state to the new final and to A's initial, each final of A to the new final and back to A's initial, and nothing else |
| KleeneStar.StarredWellFormed | src/main/java/personal/gokul2411s/regular_automata/KleeneStar.java:16-36 | a valid operand gives a result that passes validation |
| KleeneStar.WireFinals | src/main/java/personal/gokul2411s/regular_automata/KleeneStar.java:28-32 | the loop adds exactly two epsilon edges per final state of A |
| KleeneStar.Apply | src/main/java/personal/gokul2411s/regular_automata/KleeneStar.java:11-37 | the builder sequence, with the private copy loops at offset 0, produces exactly the star automaton, which is valid |
| KleeneStarLanguage.StarLanguage | src/main/java/personal/gokul2411s/regular_automata/KleeneStar.java:11-37 | the result accepts `w` iff `w` is empty or is a word of the star followed by a non-empty word A accepts |
| KleeneStarLanguage.StarWordsAreFlattenings | src/main/java/personal/gokul2411s/regular_automata/KleeneStar.java:11-37 | the words of the star are exactly the concatenations of finitely many words A accepts |
| KleeneStarLanguage.StarAcceptsEmptyInput | src/test/java/personal/gokul2411s/regular_automata/KleeneStarTest.java:17-30 | the starred automaton accepts the empty input |
| KleeneStarLanguage.StarAcceptsIterations | src/main/java/personal/gokul2411s/regular_automata/KleeneStar.java:11-37 | the starred automaton accepts every concatenation of words A accepts |
| KleeneStarLanguage.StarOfAbAcceptsRepeats | src/test/java/personal/gokul2411s/regular_automata/KleeneStarTest.java:33-55 | starring an automaton accepting `[a, b]` accepts `(ab)^i` for every `i` |
| Determinization.FinalIdsMatchComposites | src/main/java/personal/gokul2411s/regular_automata/Determinization.java:64-69 | an id is final iff its composite meets the input's final states |
| Determinization.MergeRow | src/main/java/personal/gokul2411s/regular_automata/Determinization.java:39-47 | merging a state's row adds its destinations under each of its symbols, creating missing entries |
| Determinization.CollectMoves | src/main/java/personal/gokul2411s/regular_automata/Determinization.java:36-48 | the per-symbol map has exactly the symbols labelling an edge out of the composite, each mapped to the composite's step on it |
| Determinization.ExpandComposite | src/main/java/personal/gokul2411s/regular_automata/Determinization.java:50-61 | each destination is closed, numbered with the current count when new, recorded as the single destination and queued, keeping the search invariant |
| Determinization.SearchStarts | src/main/java/personal/gokul2411s/regular_automata/Determinization.java:18-26 | the start composite, the closure of the initial state, with id 0, establishes the search invariant |
| Determinization.VisitShrinks | src/main/java/personal/gokul2411s/regular_automata/Determinization.java:29-34 | visiting a new composite shrinks the finite set of unvisited subsets of the states, so the BFS ends |
| Determinization.SearchDone | src/main/java/personal/gokul2411s/regular_automata/Determinization.java:62-76 | an exhausted queue yields the subset automaton of the input |
| Determinization.DeterminizedWellFormed | src/main/java/personal/gokul2411s/regular_automata/Determinization.java:71-76 | the subset automaton passes validation |
| Determinization.DeterminizedMove | src/main/java/personal/gokul2411s/regular_automata/Determinization.java:50-60 | one symbol moves the subset automaton to nothing or to the single id of the closed step of its composite |
| Determinization.DeterminizedTracks | src/main/java/personal/gokul2411s/regular_automata/Determinization.java:29-62 | after any input the subset automaton occupies nothing or the one id whose composite is what the input occupies |
| Determinization.DeterminizedLanguage | src/main/java/personal/gokul2411s/regular_automata/Determinization.java:14-77 | the subset automaton accepts exactly what its input accepts |
| Determinization.BuildSubsetAutomaton | src/main/java/personal/gokul2411s/regular_automata/Determinization.java:71-76 | the final builder chain yields the automaton with the counted states, initial 0, the final ids and the table, and no epsilon edges |
| Determinization.Apply | src/main/java/personal/gokul2411s/regular_automata/Determinization.java:14-77 | the result is the subset automaton: no epsilon edges, initial state 0, one destination per recorded move, valid, with the input's language |
| DeterminizationExamples.DeterminizedAOrBCLanguage | src/test/java/personal/gokul2411s/regular_automata/DeterminizationTest.java:28-52 | determinizing the automaton of `a` or `bc` accepts exactly `a` and `bc` |
| DeterminizationExamples.DeterminizedAOrBCExamples | src/test/java/personal/gokul2411s/regular_automata/DeterminizationTest.java:28-52 | it accepts `a` and `bc` and rejects `b`, `c` and `ac` |
| DeterminizationExamples.DeterminizedAThenBOrCLanguage | src/test/java/personal/gokul2411s/regular_automata/DeterminizationTest.java:55-78 | determinizing the automaton of `a` then `b` or `c` accepts exactly `ab` and `ac` |
| DeterminizationExamples.DeterminizedAThenBOrCExamples | src/test/java/personal/gokul2411s/regular_automata/DeterminizationTest.java:55-78 | it accepts `ab` and `ac` and rejects `a`, `b` and `c` |
| RegexSyntax.AutomatonOfWellFormed | src/main/java/personal/gokul2411s/regular_automata/Regex.java:43-101 | every automaton the compiler assembles from atoms and combinators passes validation |
| RegexSyntax.AutomatonOfLanguage | src/main/java/personal/gokul2411s/regular_automata/Regex.java:43-101 | the automaton assembled for an expression accepts exactly the expression's words |
| RegexSyntax.GroupClose | src/main/java/personal/gokul2411s/regular_automata/Regex.java:130-145 | the scan ends just past the first `)` with no parenthesis before it, or fails at the first `(` met, or fails naming the group's index when the range runs out |
| RegexSyntax.ParseGroup | src/main/java/personal/gokul2411s/regular_automata/Regex.java:129-147 | a group parsed at `g` resumes strictly after `g + 1` and within the pattern, so every loop iteration advances |
| RegexCompiler.Concatenated | src/main/java/personal/gokul2411s/regular_automata/Regex.java:103-114 | the fold with a first-element flag yields the left fold of the atoms through concatenation; one atom is returned unchanged |
| RegexCompiler.Unioned | src/main/java/personal/gokul2411s/regular_automata/Regex.java:116-127 | the fold yields the left fold of the branches through union; one branch is returned unchanged |
| RegexCompiler.CloseRun | src/main/java/personal/gokul2411s/regular_automata/Regex.java:89-94 | a closed run is the empty-input automaton when empty and its concatenation fold otherwise |
| RegexCompiler.FindGroupClose | src/main/java/personal/gokul2411s/regular_automata/Regex.java:130-145 | the scanning loop returns what the group-close scan specifies, errors included |
| RegexCompiler.AutomatonForGroup | src/main/java/personal/gokul2411s/regular_automata/Regex.java:129-147 | returns the inner range's automaton and the resume index, or the error of the scan or of the inner range |
| RegexCompiler.ParseOperatorOrAtom | src/main/java/personal/gokul2411s/regular_automata/Regex.java:59-86 | one iteration for `|`, `*`, `.` or a literal: the error the loop raises at that index, or the new lists and flag the parse continues from |
| RegexCompiler.AutomatonForRange | src/main/java/personal/gokul2411s/regular_automata/Regex.java:43-101 | compiling `[start, end)` returns the automaton of the range's parse, or exactly the parse's error |
| RegexCompiler.Regex.Matches | src/main/java/personal/gokul2411s/regular_automata/Regex.java:21-23 | a match is acceptance of the input's characters by the compiled automaton |
| RegexCompiler.RegexBuilder.constructor | src/main/java/personal/gokul2411s/regular_automata/Regex.java:25-27 | a fresh builder holds no pattern |
| RegexCompiler.RegexBuilder.WithPattern | src/main/java/personal/gokul2411s/regular_automata/Regex.java:33-37 | stores the pattern |
| RegexCompiler.RegexBuilder.Build | src/main/java/personal/gokul2411s/regular_automata/Regex.java:39-41 | fails iff the pattern does not parse, with the parse's error; otherwise keeps the pattern and returns a valid automaton without epsilon edges that determinizes the pattern's automaton and matches exactly the words the pattern describes |
| RegexProperties.PlainRange | src/main/java/personal/gokul2411s/regular_automata/Regex.java:82-85 | a range without operator characters parses to the fold of its literals |
| RegexProperties.LiteralsLanguage | src/main/java/personal/gokul2411s/regular_automata/Regex.java:103-114 | the fold of the literals of a non-empty word describes that word and nothing else |
| RegexProperties.PlainPatternMatchesItself | src/main/java/personal/gokul2411s/regular_automata/Regex.java:82-99 | a pattern without operator characters compiles and matches exactly itself |
| RegexProperties.StarOfOneChar | src/main/java/personal/gokul2411s/regular_automata/Regex.java:67-77 | the star of a one-character expression over a character set matches exactly the words over that set |
| RegexProperties.StarOfLiteral | src/main/java/personal/gokul2411s/regular_automata/Regex.java:67-77 | the star of a literal matches exactly the repetitions of its character |
| RegexProperties.StarOfAnyChar | src/main/java/personal/gokul2411s/regular_automata/Regex.java:78-81 | the star of the wildcard matches exactly the words over the alphabet |
| RegexProperties.LeadingLiteral | src/main/java/personal/gokul2411s/regular_automata/Regex.java:103-114 | an expression led by a literal matches that character followed by a word of the rest |
| RegexExamples.EmptyPatternMatchesOnlyEmptyInput | src/test/java/personal/gokul2411s/regular_automata/RegexTest.java:16-19 | the empty pattern compiles and matches exactly the empty input |
| RegexExamples.SingleCharPattern | src/test/java/personal/gokul2411s/regular_automata/RegexTest.java:22-27 | `a` matches exactly `a` |
| RegexExamples.LiteralStringPattern | src/test/java/personal/gokul2411s/regular_automata/RegexTest.java:30-37 | a literal string matches exactly itself |
| RegexExamples.UnmatchedGroup | src/test/java/personal/gokul2411s/regular_automata/RegexTest.java:40-44 | `a(bc` fails with "No matching group close for index 1" |
| RegexExamples.StrayClosingGroupError | src/test/java/personal/gokul2411s/regular_automata/RegexTest.java:47-51 | `ab)c` fails with "Stray closing group at index 2" |
| RegexExamples.StrayOpeningGroupError | src/test/java/personal/gokul2411s/regular_automata/RegexTest.java:54-58 | a `(` inside a group fails with "Stray opening group" at its index |
| RegexExamples.StarWithNothingBefore | src/test/java/personal/gokul2411s/regular_automata/RegexTest.java:61-72 | `*` and `a|*` fail with "No expression preceeds Kleene star" at the star's index |
| RegexExamples.StarAfterStar | src/test/java/personal/gokul2411s/regular_automata/RegexTest.java:75-79 | `.**` fails with "Non-quantifiable expression preceeding Kleene star at index 2" |
| RegexExamples.ConcatenationBindsTighterThanUnion | src/test/java/personal/gokul2411s/regular_automata/RegexTest.java:82-87 | `a|bc` matches exactly `a` and `bc` |
| RegexExamples.StarBindsTighterThanConcatenation | src/test/java/personal/gokul2411s/regular_automata/RegexTest.java:90-97 | `ac*` matches exactly `a` followed by any number of `c` |
| RegexExamples.StarBindsTighterThanConcatenationExamples | src/test/java/personal/gokul2411s/regular_automata/RegexTest.java:90-97 | `ac*` matches `a`, `ac` and `acc` and rejects `acac` and the empty input |
| RegexExamples.StarOfGroupAccepts | src/test/java/personal/gokul2411s/regular_automata/RegexTest.java:100-107 | `(abc)*` matches the empty input, `abc` and `abcabc` |
| RegexExamples.StarOfGroupRejects | src/test/java/personal/gokul2411s/regular_automata/RegexTest.java:100-107 | `(abc)*` rejects `ab` and `abcd` |
| RegexExamples.UnionBetweenTwoGroups | src/test/java/personal/gokul2411s/regular_automata/RegexTest.java:110-116 | `(abc)|(def)` matches exactly `abc` and `def` |
| RegexExamples.UnionBetweenTwoGroupsExamples | src/test/java/personal/gokul2411s/regular_automata/RegexTest.java:110-116 | it matches `abc` and `def` and rejects the non-members the unit test lists |
| RegexExamples.MultipleUnions | src/test/java/personal/gokul2411s/regular_automata/RegexTest.java:119-127 | `a|b|c|d` matches exactly the four one-character words |
| RegexExamples.MultipleUnionsExamples | src/test/java/personal/gokul2411s/regular_automata/RegexTest.java:119-127 | it matches each of the four and rejects the non-members the unit test lists |
| RegexExamples.EmptyLeftOfUnion | src/test/java/personal/gokul2411s/regular_automata/RegexTest.java:130-138 | `|b` matches exactly the empty input and `b` |
| RegexExamples.EmptyRightOfUnion | src/test/java/personal/gokul2411s/regular_automata/RegexTest.java:130-138 | `a|` matches exactly `a` and the empty input |
| RegexExamples.MultipleKleeneStars | src/test/java/personal/gokul2411s/regular_automata/RegexTest.java:141-155 | `a*b*c*` matches exactly a run of `a`, then of `b`, then of `c` |
| RegexExamples.RunsMatchThreeStars | src/test/java/personal/gokul2411s/regular_automata/RegexTest.java:141-155 | `a^i b^j c^k` matches `a*b*c*` for all counts |
| RegexExamples.MultipleKleeneStarsExamples | src/test/java/personal/gokul2411s/regular_automata/RegexTest.java:141-155 | the words the unit test lists are matched or rejected as it expects |
| RegexExamples.MultipleKleeneStarsRepeatedExamples | src/test/java/personal/gokul2411s/regular_automata/RegexTest.java:141-155 | the longer repeated runs the unit test lists are matched |
| RegexExamples.DotOperator | src/test/java/personal/gokul2411s/regular_automata/RegexTest.java:158-169 | `.*a*` matches exactly a word over the alphabet followed by a run of `a` |
| RegexExamples.DotOperatorExamples | src/test/java/personal/gokul2411s/regular_automata/RegexTest.java:158-169 | it matches the empty input, any single alphabet character, that character followed by `a`s, and runs of `a` |

| AutomatonExamples.BuildStartOutOfUniverse | src/test/java/personal/gokul2411s/regular_automata/AutomatonTest.java:17-25 | the builder calls of the test fail, naming state 1 |
| AutomatonExamples.BuildFinalOutOfUniverse | src/test/java/personal/gokul2411s/regular_automata/AutomatonTest.java:27-35 | the builder calls of the test fail, naming state 1 |
| AutomatonExamples.BuildTransitionSourceOutOfUniverse | src/test/java/personal/gokul2411s/regular_automata/AutomatonTest.java:37-45 | the builder calls of the test fail, naming state 1 |
| AutomatonExamples.BuildEpsilonSourceOutOfUniverse | src/test/java/personal/gokul2411s/regular_automata/AutomatonTest.java:47-55 | the builder calls of the test fail, naming state 1 |
| AutomatonExamples.BuildTransitionTargetOutOfUniverse | src/test/java/personal/gokul2411s/regular_automata/AutomatonTest.java:57-65 | the builder calls of the test fail, naming state 1 |
| AutomatonExamples.BuildEpsilonTargetOutOfUniverse | src/test/java/personal/gokul2411s/regular_automata/AutomatonTest.java:67-75 | the builder calls of the test fail, naming state 1 |
| AutomatonExamples.BuildLoopOnA | src/test/java/personal/gokul2411s/regular_automata/AutomatonTest.java:80-84 | the builder calls succeed with the one-state non-final `a` loop |
| AutomatonExamples.LoopOnAAcceptsNothing | src/test/java/personal/gokul2411s/regular_automata/AutomatonTest.java:77-88 | that automaton accepts no input |
| AutomatonExamples.SingleNonFinalState | src/test/java/personal/gokul2411s/regular_automata/AutomatonTest.java:77-88 | `accepts` on `a` returns false |
| AutomatonExamples.LoopOnABReach | src/test/java/personal/gokul2411s/regular_automata/AutomatonTest.java:90-112 | the final `a`/`b` loop occupies its state exactly while the input is over `a` and `b`, and nothing after any other symbol |
| AutomatonExamples.LoopOnABLanguage | src/test/java/personal/gokul2411s/regular_automata/AutomatonTest.java:90-112 | it accepts exactly the inputs over `a` and `b` |
| AutomatonExamples.BuildLoopOnAB | src/test/java/personal/gokul2411s/regular_automata/AutomatonTest.java:92-99 | the builder calls succeed with that automaton |
| AutomatonExamples.SingleFinalState | src/test/java/personal/gokul2411s/regular_automata/AutomatonTest.java:90-112 | `accepts` returns true on `a`, `b`, `ab` and `ba` |
| AutomatonExamples.ChainABReach | src/test/java/personal/gokul2411s/regular_automata/AutomatonTest.java:114-128 | the chain 0 -a-> 1 -b-> 2 occupies 0 on no input, 1 after `a`, 2 after `ab`, and nothing otherwise |
| AutomatonExamples.ChainABLanguage | src/test/java/personal/gokul2411s/regular_automata/AutomatonTest.java:114-128 | the chain accepts exactly `ab` |
| AutomatonExamples.BuildChainAB | src/test/java/personal/gokul2411s/regular_automata/AutomatonTest.java:116-124 | the builder calls succeed with the chain |
| AutomatonExamples.PartialInput | src/test/java/personal/gokul2411s/regular_automata/AutomatonTest.java:114-128 | `accepts` on the partial input `a` returns false |
| AutomatonExamples.EpsilonChainBClosures | src/test/java/personal/gokul2411s/regular_automata/AutomatonTest.java:130-146 | the initial state closes over both epsilon edges to {0, 1, 2}; state 3 closes to itself |
| AutomatonExamples.EpsilonChainBReach | src/test/java/personal/gokul2411s/regular_automata/AutomatonTest.java:130-146 | the epsilon chain occupies {0, 1, 2} on no input, {3} after `b`, and nothing otherwise |
| AutomatonExamples.EpsilonChainBLanguage | src/test/java/personal/gokul2411s/regular_automata/AutomatonTest.java:130-146 | the epsilon chain accepts exactly `b` |
| AutomatonExamples.BuildEpsilonChainB | src/test/java/personal/gokul2411s/regular_automata/AutomatonTest.java:132-140 | the builder calls succeed with the epsilon chain |
| AutomatonExamples.JumpsThroughEpsilonTransitions | src/test/java/personal/gokul2411s/regular_automata/AutomatonTest.java:130-146 | `accepts` returns true on `b` and false on the empty input |

## Left out

- The Guava `Table` and `Sets`, Lombok and the `Preconditions` null checks have no counterpart. Tables are Dafny maps and sets; nulls do not exist.
- RegexCompiler.RegexBuilder.Build: requires that a pattern was set. Java fails there with a null pointer exception, which is not modelled.
- Exceptions are modelled as results. `InvalidAutomaton` carries the offending state. `RegexError` carries the index, and its `Message` reproduces the Java texts, spelling included.
- Automata.AutomatonBuilder.Validate: the groups are checked in Java's fixed order, but inside the finals, the labelled edges or the epsilon edges Java reports the first offending state in `HashSet` or `HashMap` iteration order. The model names some offending state of that group.
- Automata.AutomatonBuilder.Build: the same as for `Validate`, whose report it passes on.
- Concatenation.Apply: Java computes the state count and the new initial and final states in 32-bit `int` (Concatenation.java:13-15), which wraps at 2^31. When the operands' state counts add up to more than 2^31 - 3, the wrapped state count is negative, so Java's `build()` then throws. The model's unbounded integers build a valid automaton instead.
- Union.Apply: the same 32-bit wrap-around (Union.java:15-17) is not modelled. Java's `build()` throws where the model succeeds.
- KleeneStar.Apply: the same 32-bit wrap-around (KleeneStar.java:16-18) is not modelled. Java's `build()` throws where the model succeeds, for an operand with more than 2^31 - 3 states.
- CopyUtils.AddEpsilonTransitions, CopyUtils.CopyTransitions, CopyUtils.CopyEpsilonTransitions: the offset additions (AutomatonCopyUtils.java:18, 33, 48) wrap at 2^31 in Java. The model adds unbounded integers.
- Iteration over `HashSet`s and `HashMap`s (closure BFS, copy loops, subset construction) is an arbitrary choice of the next element. The contracts hold for every order.
- `SetComparator` (Determinization.java:79-104) and its `TreeMap`/`TreeSet` are replaced by set equality of composite states. The comparator compares two `HashSet`s by their iteration order, and that order can differ for equal sets built in different orders, so Java can give one composite two ids. Java's subset automaton can then have more states than the model's, and the one-id-per-composite conjunct of `Determinization.Determinized` holds only for the model. The language Java accepts is the same.
- Aliasing is modelled as value copies. `withFinalStates` and `withTransitions` store the caller's collection, and the built automaton shares the builder's maps; the model stores values, so later mutation of the caller's collection is not captured.
- `automatonAcceptingAllChars()`, called at Regex.java:79, is not part of this model's source files. `Factory.AllSymbols` models it from its use, over an alphabet given as a parameter. All 65536 `char` values are not enumerated.
- The `String` to `Character[]` boxing in `matches` is replaced by a `string` (`seq<char>`) input.
- RegexCompiler.AutomatonForRange: a Java `char` is a UTF-16 code unit, while a Dafny `char` is a Unicode scalar value. A character outside the Basic Multilingual Plane is two atoms in Java and one in the model, so a `*` after it stars only its second code unit in Java. Error indices count code units in Java and scalar values in the model, and lone surrogates, which Java accepts, are no Dafny `char`.
- RegexCompiler.Regex.Matches: the same code-unit difference applies to the input. A character outside the Basic Multilingual Plane is two input symbols in Java and one in the model.
- RegexCompiler.RegexBuilder.Build: the same code-unit difference applies to the pattern it compiles.
- The `concatenatedAutomata.isEmpty()` branch (Regex.java:96-97) cannot be reached, because the closing run always adds a branch. The model has no such branch.
- `accepts(Symbol[])` (Automaton.java:37-39) is the same as the iterable overload over a sequence.
- The private `copyTransitions` and `copyEpsilonTransitions` of KleeneStar.java (39-56) are modelled by the offset-0 overloads of the copy utilities, which add the same edges.
- The factory's `determinized` delegation is `Determinization.Apply`. Its `requires S(!new)` only says that symbols are plain values.
- The JUnit harness (rules, `thrown.expect`, `assertThat`) is not modelled. The assertions are stated as lemmas and methods, and `DotOperatorExamples` covers each character of the alphabet rather than all 65536 `char` values.
