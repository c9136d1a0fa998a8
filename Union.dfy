/**
 * Thompson union: the first operand keeps its state numbers, the second is
 * shifted past it, and two fresh states become the initial and the only
 * final state. The fresh initial state has epsilon edges to both operands'
 * initial states, and every final state of either operand has an epsilon
 * edge to the fresh final state.
 */
module Union {
  import opened Wrappers
  import opened Automata
  import opened CopyUtils

  /** The epsilon edges of the union of `first` and `second`. */
  ghost function UnionEpsEdges<S>(first: Automaton<S>, second: Automaton<S>): set<(int, int)>
  {
    var newNumStates := first.numStates + second.numStates + 2;
    {(newNumStates - 2, first.initialState)}
    + {(newNumStates - 2, second.initialState + first.numStates)}
    + EdgesInto(first.finalStates, newNumStates - 1, 0)
    + EpsEdges(first.epsilonTransitions)
    + EdgesInto(second.finalStates, newNumStates - 1, first.numStates)
    + ShiftEpsEdges(EpsEdges(second.epsilonTransitions), first.numStates)
  }

  /** The labelled edges of the union: the first operand's as they are, the second's shifted. */
  ghost function UnionEdges<S>(first: Automaton<S>, second: Automaton<S>): set<(int, S, int)>
  {
    Edges(first.transitions) + ShiftEdges(Edges(second.transitions), first.numStates)
  }

  /** The automaton `Apply` builds. */
  ghost function United<S>(first: Automaton<S>, second: Automaton<S>): Automaton<S>
  {
    var newNumStates := first.numStates + second.numStates + 2;
    FromViews(newNumStates, UnionEdges(first, second), UnionEpsEdges(first, second), newNumStates - 2, {newNumStates - 1})
  }

  /** The union has |A|+|B|+2 states, initial state |A|+|B| and the single final |A|+|B|+1. */
  lemma UnitedStates<S>(first: Automaton<S>, second: Automaton<S>)
    ensures var r := United(first, second);
      && r.numStates == first.numStates + second.numStates + 2
      && r.initialState == r.numStates - 2
      && r.finalStates == {r.numStates - 1}
  {
  }

  /** The union has exactly the labelled and epsilon edges above. */
  lemma UnitedEdges<S>(first: Automaton<S>, second: Automaton<S>)
    ensures var r := United(first, second);
      && Edges(r.transitions) == UnionEdges(first, second)
      && EpsEdges(r.epsilonTransitions) == UnionEpsEdges(first, second)
  {
    TableOfEdges(UnionEdges(first, second));
    EpsTableOfEdges(UnionEpsEdges(first, second));
  }

  /** The union of well-formed automata is well-formed: its build never fails. */
  lemma UnitedWellFormed<S>(first: Automaton<S>, second: Automaton<S>)
    requires WellFormed(first) && WellFormed(second)
    ensures WellFormed(United(first, second))
  {
    UnionEdgesInRange(first, second);
    var newNumStates := first.numStates + second.numStates + 2;
    WellFormedFromEdgeSets(newNumStates, UnionEdges(first, second), UnionEpsEdges(first, second),
                           newNumStates - 2, {newNumStates - 1});
  }

  lemma UnionEdgesInRange<S>(first: Automaton<S>, second: Automaton<S>)
    requires WellFormed(first) && WellFormed(second)
    ensures var n := first.numStates + second.numStates + 2;
      && (forall e | e in UnionEdges(first, second) :: InUniverse(e.0, n) && InUniverse(e.2, n))
      && (forall e | e in UnionEpsEdges(first, second) :: InUniverse(e.0, n) && InUniverse(e.1, n))
  {
    ShiftedEdgesInRange(first, 0);
    ShiftedEdgesInRange(second, first.numStates);
    ShiftByZero(Edges(first.transitions), EpsEdges(first.epsilonTransitions));
  }

  /** The edge groups `Apply` adds, one after another, make up exactly the union's edges. */
  lemma UnionStepsAddUp<S>(first: Automaton<S>, second: Automaton<S>,
                           numStatesInFirst: int, newNumStates: int, newInitialState: int, newFinalState: int,
                           t0: set<(int, S, int)>, t1: set<(int, S, int)>, t2: set<(int, S, int)>,
                           e0: set<(int, int)>, e1: set<(int, int)>, e2: set<(int, int)>, e3: set<(int, int)>,
                           e4: set<(int, int)>, e5: set<(int, int)>, e6: set<(int, int)>)
    requires numStatesInFirst == first.numStates && newNumStates == numStatesInFirst + second.numStates + 2
    requires newInitialState == newNumStates - 2 && newFinalState == newNumStates - 1
    requires t0 == {} && t1 == t0 + ShiftEdges(Edges(first.transitions), 0)
    requires t2 == t1 + ShiftEdges(Edges(second.transitions), numStatesInFirst)
    requires e0 == {}
    requires e1 == e0 + {(newInitialState, first.initialState)}
    requires e2 == e1 + {(newInitialState, second.initialState + numStatesInFirst)}
    requires e3 == e2 + EdgesInto(first.finalStates, newFinalState, 0)
    requires e4 == e3 + ShiftEpsEdges(EpsEdges(first.epsilonTransitions), 0)
    requires e5 == e4 + EdgesInto(second.finalStates, newFinalState, numStatesInFirst)
    requires e6 == e5 + ShiftEpsEdges(EpsEdges(second.epsilonTransitions), numStatesInFirst)
    ensures t2 == UnionEdges(first, second) && e6 == UnionEpsEdges(first, second)
  {
    ShiftByZero(Edges(first.transitions), EpsEdges(first.epsilonTransitions));
  }

  /** A builder state with the union's numbers and edge sets holds exactly the union. */
  lemma BuiltIsUnited<S>(first: Automaton<S>, second: Automaton<S>, b: Automaton<S>,
                         newNumStates: int, newInitialState: int, newFinalState: int)
    requires newNumStates == first.numStates + second.numStates + 2
    requires newInitialState == newNumStates - 2 && newFinalState == newNumStates - 1
    requires b.numStates == newNumStates && b.initialState == newInitialState && b.finalStates == {newFinalState}
    requires NoEmptyEntries(b.transitions) && Edges(b.transitions) == UnionEdges(first, second)
    requires NoEmptyEntries(b.epsilonTransitions) && EpsEdges(b.epsilonTransitions) == UnionEpsEdges(first, second)
    ensures b == United(first, second)
  {
    AutomatonFromViews(b, newNumStates, UnionEdges(first, second), UnionEpsEdges(first, second),
                       newNumStates - 2, {newNumStates - 1});
  }

  /**
   * Builds the union through a fresh builder: numbers, the two fresh states
   * and the epsilon edges into both operands first, then the first operand's
   * finals wired to the new final state and its edges copied, then the same
   * for the second operand shifted by |A|.
   */
  method Apply<S(==)>(first: Automaton<S>, second: Automaton<S>) returns (r: Automaton<S>)
    requires WellFormed(first) && WellFormed(second)
    ensures r == United(first, second)
    ensures WellFormed(r)
  {
    var numStatesInFirst := first.numStates;
    var newNumStates := numStatesInFirst + second.numStates + 2;
    var newInitialState := newNumStates - 2;
    var newFinalState := newNumStates - 1;

    var outputBuilder := new AutomatonBuilder<S>();
    EmptyTables<S>();
    outputBuilder.WithNumStates(newNumStates);
    outputBuilder.WithInitialState(newInitialState);
    outputBuilder.WithFinalState(newFinalState);
    assert outputBuilder.finalStates == {newFinalState};
    ghost var t0 := Edges(outputBuilder.transitions);
    assert t0 == {};
    ghost var e0 := EpsEdges(outputBuilder.epsilonTransitions);
    assert e0 == {};
    outputBuilder.WithEpsilonTransition(newInitialState, first.initialState);
    ghost var e1 := EpsEdges(outputBuilder.epsilonTransitions);
    assert e1 == e0 + {(newInitialState, first.initialState)};
    outputBuilder.WithEpsilonTransition(newInitialState, second.initialState + numStatesInFirst);
    ghost var e2 := EpsEdges(outputBuilder.epsilonTransitions);
    assert e2 == e1 + {(newInitialState, second.initialState + numStatesInFirst)};
    assert outputBuilder.numStates == newNumStates && outputBuilder.initialState == newInitialState && outputBuilder.finalStates == {newFinalState};

    AddEpsilonTransitionsUnshifted(outputBuilder, first.finalStates, newFinalState);
    ghost var e3 := EpsEdges(outputBuilder.epsilonTransitions);
    assert e3 == e2 + EdgesInto(first.finalStates, newFinalState, 0);
    CopyTransitionsUnshifted(first, outputBuilder);
    ghost var t1 := Edges(outputBuilder.transitions);
    assert t1 == t0 + ShiftEdges(Edges(first.transitions), 0);
    CopyEpsilonTransitionsUnshifted(first, outputBuilder);
    ghost var e4 := EpsEdges(outputBuilder.epsilonTransitions);
    assert e4 == e3 + ShiftEpsEdges(EpsEdges(first.epsilonTransitions), 0);
    assert outputBuilder.numStates == newNumStates && outputBuilder.initialState == newInitialState && outputBuilder.finalStates == {newFinalState};

    AddEpsilonTransitions(outputBuilder, second.finalStates, newFinalState, numStatesInFirst);
    ghost var e5 := EpsEdges(outputBuilder.epsilonTransitions);
    assert e5 == e4 + EdgesInto(second.finalStates, newFinalState, numStatesInFirst);
    CopyTransitions(second, outputBuilder, numStatesInFirst);
    ghost var t2 := Edges(outputBuilder.transitions);
    assert t2 == t1 + ShiftEdges(Edges(second.transitions), numStatesInFirst);
    CopyEpsilonTransitions(second, outputBuilder, numStatesInFirst);
    ghost var e6 := EpsEdges(outputBuilder.epsilonTransitions);
    assert e6 == e5 + ShiftEpsEdges(EpsEdges(second.epsilonTransitions), numStatesInFirst);
    assert outputBuilder.numStates == newNumStates && outputBuilder.initialState == newInitialState && outputBuilder.finalStates == {newFinalState};

    UnionStepsAddUp(first, second, numStatesInFirst, newNumStates, newInitialState, newFinalState,
                    t0, t1, t2, e0, e1, e2, e3, e4, e5, e6);
    BuiltIsUnited(first, second, outputBuilder.Current(), newNumStates, newInitialState, newFinalState);
    UnitedWellFormed(first, second);

    var result := outputBuilder.Build();
    r := result.value;
  }
}
