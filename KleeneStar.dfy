/**
 * Thompson star: the operand keeps its state numbers and two fresh states
 * become the initial and the only final state. The fresh initial state has
 * epsilon edges to the fresh final state (the empty iteration) and to the
 * operand's initial state; every final state of the operand has epsilon edges
 * to the fresh final state and back to the operand's initial state.
 */
module KleeneStar {
  import opened Wrappers
  import opened Automata
  import opened CopyUtils

  /** The epsilon edges of the star of `input`. */
  ghost function StarEpsEdges<S>(input: Automaton<S>): set<(int, int)>
  {
    var newNumStates := input.numStates + 2;
    {(newNumStates - 2, newNumStates - 1)}
    + {(newNumStates - 2, input.initialState)}
    + (EdgesInto(input.finalStates, newNumStates - 1, 0) + EdgesInto(input.finalStates, input.initialState, 0))
    + EpsEdges(input.epsilonTransitions)
  }

  /** The automaton `Apply` builds: the operand's labelled edges are kept as they are. */
  ghost function Starred<S>(input: Automaton<S>): Automaton<S>
  {
    var newNumStates := input.numStates + 2;
    FromViews(newNumStates, Edges(input.transitions), StarEpsEdges(input), newNumStates - 2, {newNumStates - 1})
  }

  /** The star has |A|+2 states, initial state |A| and the single final |A|+1. */
  lemma StarredStates<S>(input: Automaton<S>)
    ensures var r := Starred(input);
      && r.numStates == input.numStates + 2
      && r.initialState == r.numStates - 2
      && r.finalStates == {r.numStates - 1}
  {
  }

  /** The star has exactly the labelled and epsilon edges above. */
  lemma StarredEdges<S>(input: Automaton<S>)
    ensures var r := Starred(input);
      && Edges(r.transitions) == Edges(input.transitions)
      && EpsEdges(r.epsilonTransitions) == StarEpsEdges(input)
  {
    TableOfEdges(Edges(input.transitions));
    EpsTableOfEdges(StarEpsEdges(input));
  }

  /** The star of a well-formed automaton is well-formed: its build never fails. */
  lemma StarredWellFormed<S>(input: Automaton<S>)
    requires WellFormed(input)
    ensures WellFormed(Starred(input))
  {
    StarEdgesInRange(input);
    var newNumStates := input.numStates + 2;
    WellFormedFromEdgeSets(newNumStates, Edges(input.transitions), StarEpsEdges(input),
                           newNumStates - 2, {newNumStates - 1});
  }

  lemma StarEdgesInRange<S>(input: Automaton<S>)
    requires WellFormed(input)
    ensures var n := input.numStates + 2;
      && (forall e | e in Edges(input.transitions) :: InUniverse(e.0, n) && InUniverse(e.2, n))
      && (forall e | e in StarEpsEdges(input) :: InUniverse(e.0, n) && InUniverse(e.1, n))
  {
    ShiftedEdgesInRange(input, 0);
    ShiftByZero(Edges(input.transitions), EpsEdges(input.epsilonTransitions));
  }

  /** One round of the loop over the operand's finals adds the two edges out of `f`. */
  lemma WireFinalStep(base: set<(int, int)>, done: set<int>, f: int, newFinalState: int, oldInitialState: int,
                      before: set<(int, int)>, after: set<(int, int)>)
    requires before == base + (EdgesInto(done, newFinalState, 0) + EdgesInto(done, oldInitialState, 0))
    requires after == before + {(f, newFinalState)} + {(f, oldInitialState)}
    ensures after == base + (EdgesInto(done + {f}, newFinalState, 0) + EdgesInto(done + {f}, oldInitialState, 0))
  {
    EdgesIntoAdd(done, f, newFinalState, 0);
    EdgesIntoAdd(done, f, oldInitialState, 0);
  }

  /**
   * The loop of `Apply` over the operand's finals: every final `f` gets an
   * epsilon edge to the fresh final state and one back to the operand's
   * initial state.
   */
  method WireFinals<S(==)>(outputBuilder: AutomatonBuilder<S>, oldFinalStates: set<int>,
                           newFinalState: int, oldInitialState: int)
    modifies outputBuilder`epsilonTransitions
    ensures EpsEdges(outputBuilder.epsilonTransitions)
      == old(EpsEdges(outputBuilder.epsilonTransitions))
         + (EdgesInto(oldFinalStates, newFinalState, 0) + EdgesInto(oldFinalStates, oldInitialState, 0))
    ensures NoEmptyEntries(old(outputBuilder.epsilonTransitions)) ==> NoEmptyEntries(outputBuilder.epsilonTransitions)
  {
    ghost var start := EpsEdges(outputBuilder.epsilonTransitions);
    ghost var wired: set<int> := {};
    var finals := oldFinalStates;
    while finals != {}
      invariant wired + finals == oldFinalStates
      invariant EpsEdges(outputBuilder.epsilonTransitions)
        == start + (EdgesInto(wired, newFinalState, 0) + EdgesInto(wired, oldInitialState, 0))
      invariant NoEmptyEntries(old(outputBuilder.epsilonTransitions)) ==> NoEmptyEntries(outputBuilder.epsilonTransitions)
    {
      ghost var some := SomeMember(finals);
      var oldFinalState :| oldFinalState in finals;
      ghost var before := EpsEdges(outputBuilder.epsilonTransitions);
      outputBuilder.WithEpsilonTransition(oldFinalState, newFinalState);
      outputBuilder.WithEpsilonTransition(oldFinalState, oldInitialState);
      WireFinalStep(start, wired, oldFinalState, newFinalState, oldInitialState,
                    before, EpsEdges(outputBuilder.epsilonTransitions));
      wired := wired + {oldFinalState};
      finals := finals - {oldFinalState};
    }
  }

  /** The edge groups `Apply` adds, one after another, make up exactly the star's edges. */
  lemma StarStepsAddUp<S>(input: Automaton<S>, oldInitialState: int, newNumStates: int,
                          newInitialState: int, newFinalState: int,
                          t0: set<(int, S, int)>, t1: set<(int, S, int)>,
                          e0: set<(int, int)>, e1: set<(int, int)>, e2: set<(int, int)>,
                          e3: set<(int, int)>, e4: set<(int, int)>)
    requires oldInitialState == input.initialState && newNumStates == input.numStates + 2
    requires newInitialState == newNumStates - 2 && newFinalState == newNumStates - 1
    requires t0 == {} && t1 == t0 + ShiftEdges(Edges(input.transitions), 0)
    requires e0 == {}
    requires e1 == e0 + {(newInitialState, newFinalState)}
    requires e2 == e1 + {(newInitialState, oldInitialState)}
    requires e3 == e2 + (EdgesInto(input.finalStates, newFinalState, 0) + EdgesInto(input.finalStates, oldInitialState, 0))
    requires e4 == e3 + ShiftEpsEdges(EpsEdges(input.epsilonTransitions), 0)
    ensures t1 == Edges(input.transitions) && e4 == StarEpsEdges(input)
  {
    ShiftByZero(Edges(input.transitions), EpsEdges(input.epsilonTransitions));
  }

  /** A builder state with the star's numbers and edge sets holds exactly the star. */
  lemma BuiltIsStarred<S>(input: Automaton<S>, b: Automaton<S>,
                          newNumStates: int, newInitialState: int, newFinalState: int)
    requires newNumStates == input.numStates + 2
    requires newInitialState == newNumStates - 2 && newFinalState == newNumStates - 1
    requires b.numStates == newNumStates && b.initialState == newInitialState && b.finalStates == {newFinalState}
    requires NoEmptyEntries(b.transitions) && Edges(b.transitions) == Edges(input.transitions)
    requires NoEmptyEntries(b.epsilonTransitions) && EpsEdges(b.epsilonTransitions) == StarEpsEdges(input)
    ensures b == Starred(input)
  {
    AutomatonFromViews(b, newNumStates, Edges(input.transitions), StarEpsEdges(input),
                       newNumStates - 2, {newNumStates - 1});
  }

  /**
   * Builds the star through a fresh builder: numbers, the two fresh states
   * and their epsilon edges first, then for every final of the operand the
   * edges to the fresh final and back to the operand's initial state, then
   * the operand's edges copied unshifted.
   */
  method Apply<S(==)>(input: Automaton<S>) returns (r: Automaton<S>)
    requires WellFormed(input)
    ensures r == Starred(input)
    ensures WellFormed(r)
  {
    var oldInitialState := input.initialState;
    var newNumStates := input.numStates + 2;
    var newInitialState := newNumStates - 2;
    var newFinalState := newNumStates - 1;

    var outputBuilder := new AutomatonBuilder<S>();
    EmptyTables<S>();
    outputBuilder.WithNumStates(newNumStates);
    outputBuilder.WithInitialState(newInitialState);
    outputBuilder.WithFinalState(newFinalState);
    assert outputBuilder.finalStates == {newFinalState};
    ghost var t0 := Edges(outputBuilder.transitions);
    assert t0 == {};
    ghost var e0 := EpsEdges(outputBuilder.epsilonTransitions);
    assert e0 == {};
    outputBuilder.WithEpsilonTransition(newInitialState, newFinalState);
    ghost var e1 := EpsEdges(outputBuilder.epsilonTransitions);
    assert e1 == e0 + {(newInitialState, newFinalState)};
    outputBuilder.WithEpsilonTransition(newInitialState, oldInitialState);
    ghost var e2 := EpsEdges(outputBuilder.epsilonTransitions);
    assert e2 == e1 + {(newInitialState, oldInitialState)};
    assert outputBuilder.numStates == newNumStates && outputBuilder.initialState == newInitialState && outputBuilder.finalStates == {newFinalState};

    WireFinals(outputBuilder, input.finalStates, newFinalState, oldInitialState);
    ghost var e3 := EpsEdges(outputBuilder.epsilonTransitions);
    assert e3 == e2 + (EdgesInto(input.finalStates, newFinalState, 0) + EdgesInto(input.finalStates, oldInitialState, 0));

    CopyTransitionsUnshifted(input, outputBuilder);
    ghost var t1 := Edges(outputBuilder.transitions);
    assert t1 == t0 + ShiftEdges(Edges(input.transitions), 0);
    CopyEpsilonTransitionsUnshifted(input, outputBuilder);
    ghost var e4 := EpsEdges(outputBuilder.epsilonTransitions);
    assert e4 == e3 + ShiftEpsEdges(EpsEdges(input.epsilonTransitions), 0);
    assert outputBuilder.numStates == newNumStates && outputBuilder.initialState == newInitialState && outputBuilder.finalStates == {newFinalState};

    StarStepsAddUp(input, oldInitialState, newNumStates, newInitialState, newFinalState, t0, t1, e0, e1, e2, e3, e4);
    BuiltIsStarred(input, outputBuilder.Current(), newNumStates, newInitialState, newFinalState);
    StarredWellFormed(input);

    var result := outputBuilder.Build();
    r := result.value;
  }
}
