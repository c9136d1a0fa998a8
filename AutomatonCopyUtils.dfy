/**
 * Copying an automaton's edges into a builder with every state shifted by a
 * fixed offset, and wiring a set of states to one target by epsilon edges.
 * Each operation only adds edges; the builder's other fields stay as they are.
 */
module CopyUtils {
  import opened Automata

  /** Labelled edges with both endpoints shifted by `offset`. */
  ghost function ShiftEdges<S>(edges: set<(int, S, int)>, offset: int): set<(int, S, int)>
  {
    set e | e in edges :: (e.0 + offset, e.1, e.2 + offset)
  }

  /** Epsilon edges with both endpoints shifted by `offset`. */
  ghost function ShiftEpsEdges(edges: set<(int, int)>, offset: int): set<(int, int)>
  {
    set e | e in edges :: (e.0 + offset, e.1 + offset)
  }

  /** One epsilon edge from each state of `fromStates`, shifted by `offset`, to the unshifted `toState`. */
  ghost function EdgesInto(fromStates: set<int>, toState: int, offset: int): set<(int, int)>
  {
    set f | f in fromStates :: (f + offset, toState)
  }

  lemma EdgesIntoMember(fromStates: set<int>, toState: int, offset: int, f: int)
    requires f in fromStates
    ensures (f + offset, toState) in EdgesInto(fromStates, toState, offset)
  {
  }

  /** The edges (from + offset, sym, t + offset) for each t in `targets`. */
  ghost function RowImage<S>(from: int, sym: S, targets: set<int>, offset: int): set<(int, S, int)>
  {
    set t | t in targets :: (from + offset, sym, t + offset)
  }

  /** The epsilon edges (from + offset, t + offset) for each t in `targets`. */
  ghost function EpsRowImage(from: int, targets: set<int>, offset: int): set<(int, int)>
  {
    set t | t in targets :: (from + offset, t + offset)
  }

  lemma RowImageAdd<S>(from: int, sym: S, targets: set<int>, x: int, offset: int)
    ensures RowImage(from, sym, targets + {x}, offset)
      == RowImage(from, sym, targets, offset) + {(from + offset, sym, x + offset)}
  {
    var lhs := RowImage(from, sym, targets + {x}, offset);
    var rhs := RowImage(from, sym, targets, offset) + {(from + offset, sym, x + offset)};
    forall e | e in lhs ensures e in rhs {
      var t :| t in targets + {x} && e == (from + offset, sym, t + offset);
    }
    forall e | e in rhs ensures e in lhs {
      if e == (from + offset, sym, x + offset) {
        assert x in targets + {x};
      } else {
        var t :| t in targets && e == (from + offset, sym, t + offset);
        assert t in targets + {x};
      }
    }
  }

  lemma EpsRowImageAdd(from: int, targets: set<int>, x: int, offset: int)
    ensures EpsRowImage(from, targets + {x}, offset) == EpsRowImage(from, targets, offset) + {(from + offset, x + offset)}
  {
    var lhs := EpsRowImage(from, targets + {x}, offset);
    var rhs := EpsRowImage(from, targets, offset) + {(from + offset, x + offset)};
    forall e | e in lhs ensures e in rhs {
      var t :| t in targets + {x} && e == (from + offset, t + offset);
    }
    forall e | e in rhs ensures e in lhs {
      if e == (from + offset, x + offset) {
        assert x in targets + {x};
      } else {
        var t :| t in targets && e == (from + offset, t + offset);
        assert t in targets + {x};
      }
    }
  }

  lemma EdgesIntoAdd(fromStates: set<int>, x: int, toState: int, offset: int)
    ensures EdgesInto(fromStates + {x}, toState, offset) == EdgesInto(fromStates, toState, offset) + {(x + offset, toState)}
  {
    var lhs := EdgesInto(fromStates + {x}, toState, offset);
    var rhs := EdgesInto(fromStates, toState, offset) + {(x + offset, toState)};
    forall e | e in lhs ensures e in rhs {
      var f :| f in fromStates + {x} && e == (f + offset, toState);
    }
    forall e | e in rhs ensures e in lhs {
      if e == (x + offset, toState) {
        assert x in fromStates + {x};
      } else {
        var f :| f in fromStates && e == (f + offset, toState);
        assert f in fromStates + {x};
      }
    }
  }

  /** The labelled edges stored under the keys in `rows`. */
  ghost function RowEdges<S>(t: TransitionTable<S>, rows: set<(int, S)>): set<(int, S, int)>
  {
    set k, to | k in rows && k in t && to in t[k] :: (k.0, k.1, to)
  }

  /** The epsilon edges stored under the sources in `rows`. */
  ghost function RowEpsEdges(e: EpsilonTable, rows: set<int>): set<(int, int)>
  {
    set f, to | f in rows && f in e && to in e[f] :: (f, to)
  }

  method AddEpsilonTransitions<S(==)>(
    outputBuilder: AutomatonBuilder<S>, fromStates: set<int>, toState: int, stateOffset: int)
    modifies outputBuilder`epsilonTransitions
    ensures EpsEdges(outputBuilder.epsilonTransitions)
      == old(EpsEdges(outputBuilder.epsilonTransitions)) + EdgesInto(fromStates, toState, stateOffset)
    ensures NoEmptyEntries(old(outputBuilder.epsilonTransitions)) ==> NoEmptyEntries(outputBuilder.epsilonTransitions)
  {
    ghost var start := EpsEdges(outputBuilder.epsilonTransitions);
    ghost var added: set<int> := {};
    var rest := fromStates;
    while rest != {}
      invariant added + rest == fromStates
      invariant EpsEdges(outputBuilder.epsilonTransitions) == start + EdgesInto(added, toState, stateOffset)
      invariant NoEmptyEntries(old(outputBuilder.epsilonTransitions)) ==> NoEmptyEntries(outputBuilder.epsilonTransitions)
    {
      ghost var some := SomeMember(rest);
      var fromState :| fromState in rest;
      outputBuilder.WithEpsilonTransition(fromState + stateOffset, toState);
      EdgesIntoAdd(added, fromState, toState, stateOffset);
      added := added + {fromState};
      rest := rest - {fromState};
    }
  }

  /** The overload without an offset: offset 0. */
  method AddEpsilonTransitionsUnshifted<S(==)>(
    outputBuilder: AutomatonBuilder<S>, fromStates: set<int>, toState: int)
    modifies outputBuilder`epsilonTransitions
    ensures EpsEdges(outputBuilder.epsilonTransitions)
      == old(EpsEdges(outputBuilder.epsilonTransitions)) + EdgesInto(fromStates, toState, 0)
    ensures NoEmptyEntries(old(outputBuilder.epsilonTransitions)) ==> NoEmptyEntries(outputBuilder.epsilonTransitions)
  {
    AddEpsilonTransitions(outputBuilder, fromStates, toState, 0);
  }

  /** Adds (f + offset, sym, t + offset) for every labelled edge (f, sym, t) of `input`. */
  method CopyTransitions<S(==)>(input: Automaton<S>, outputBuilder: AutomatonBuilder<S>, stateOffset: int)
    modifies outputBuilder`transitions
    ensures Edges(outputBuilder.transitions)
      == old(Edges(outputBuilder.transitions)) + ShiftEdges(Edges(input.transitions), stateOffset)
    ensures NoEmptyEntries(old(outputBuilder.transitions)) ==> NoEmptyEntries(outputBuilder.transitions)
  {
    ghost var start := Edges(outputBuilder.transitions);
    ghost var done: set<(int, S)> := {};
    var rows := input.transitions.Keys;
    while rows != {}
      invariant done + rows == input.transitions.Keys
      invariant Edges(outputBuilder.transitions) == start + ShiftEdges(RowEdges(input.transitions, done), stateOffset)
      invariant NoEmptyEntries(old(outputBuilder.transitions)) ==> NoEmptyEntries(outputBuilder.transitions)
    {
      ghost var some := SomeMember(rows);
      var key :| key in rows;
      var fromState, s := key.0, key.1;
      CopyRow(outputBuilder, fromState, s, input.transitions[key], stateOffset);
      RowEdgesAddRow(input.transitions, done, key, stateOffset);
      done := done + {key};
      rows := rows - {key};
    }
    RowEdgesAll(input.transitions);
  }

  /** The inner loop of `CopyTransitions`: one table row, from -sym-> each target, shifted. */
  method CopyRow<S(==)>(outputBuilder: AutomatonBuilder<S>, fromState: int, s: S, targets: set<int>, stateOffset: int)
    modifies outputBuilder`transitions
    ensures Edges(outputBuilder.transitions)
      == old(Edges(outputBuilder.transitions)) + RowImage(fromState, s, targets, stateOffset)
    ensures NoEmptyEntries(old(outputBuilder.transitions)) ==> NoEmptyEntries(outputBuilder.transitions)
  {
    ghost var before := Edges(outputBuilder.transitions);
    ghost var copied: set<int> := {};
    var rest := targets;
    while rest != {}
      invariant copied + rest == targets
      invariant Edges(outputBuilder.transitions) == before + RowImage(fromState, s, copied, stateOffset)
      invariant NoEmptyEntries(old(outputBuilder.transitions)) ==> NoEmptyEntries(outputBuilder.transitions)
    {
      ghost var one := SomeMember(rest);
      var toState :| toState in rest;
      outputBuilder.WithTransition(fromState + stateOffset, s, toState + stateOffset);
      RowImageAdd(fromState, s, copied, toState, stateOffset);
      copied := copied + {toState};
      rest := rest - {toState};
    }
  }

  lemma RowEdgesAll<S>(t: TransitionTable<S>)
    ensures RowEdges(t, t.Keys) == Edges(t)
  {
  }

  lemma RowEdgesAddRow<S>(t: TransitionTable<S>, done: set<(int, S)>, key: (int, S), offset: int)
    requires key in t
    ensures ShiftEdges(RowEdges(t, done + {key}), offset)
      == ShiftEdges(RowEdges(t, done), offset) + RowImage(key.0, key.1, t[key], offset)
  {
    var row := set to | to in t[key] :: (key.0, key.1, to);
    assert RowEdges(t, done + {key}) == RowEdges(t, done) + row;
    ShiftUnion(RowEdges(t, done), row, offset);
    assert ShiftEdges(row, offset) == RowImage(key.0, key.1, t[key], offset);
  }

  lemma ShiftUnion<S>(x: set<(int, S, int)>, y: set<(int, S, int)>, offset: int)
    ensures ShiftEdges(x + y, offset) == ShiftEdges(x, offset) + ShiftEdges(y, offset)
  {
  }

  /** The overload without an offset: offset 0. */
  method CopyTransitionsUnshifted<S(==)>(input: Automaton<S>, outputBuilder: AutomatonBuilder<S>)
    modifies outputBuilder`transitions
    ensures Edges(outputBuilder.transitions)
      == old(Edges(outputBuilder.transitions)) + ShiftEdges(Edges(input.transitions), 0)
    ensures NoEmptyEntries(old(outputBuilder.transitions)) ==> NoEmptyEntries(outputBuilder.transitions)
  {
    CopyTransitions(input, outputBuilder, 0);
  }

  /** Adds (f + offset, t + offset) for every epsilon edge (f, t) of `input`. */
  method CopyEpsilonTransitions<S(==)>(input: Automaton<S>, outputBuilder: AutomatonBuilder<S>, stateOffset: int)
    modifies outputBuilder`epsilonTransitions
    ensures EpsEdges(outputBuilder.epsilonTransitions)
      == old(EpsEdges(outputBuilder.epsilonTransitions)) + ShiftEpsEdges(EpsEdges(input.epsilonTransitions), stateOffset)
    ensures NoEmptyEntries(old(outputBuilder.epsilonTransitions)) ==> NoEmptyEntries(outputBuilder.epsilonTransitions)
  {
    ghost var start := EpsEdges(outputBuilder.epsilonTransitions);
    ghost var done: set<int> := {};
    var sources := input.epsilonTransitions.Keys;
    while sources != {}
      invariant done + sources == input.epsilonTransitions.Keys
      invariant EpsEdges(outputBuilder.epsilonTransitions)
        == start + ShiftEpsEdges(RowEpsEdges(input.epsilonTransitions, done), stateOffset)
      invariant NoEmptyEntries(old(outputBuilder.epsilonTransitions)) ==> NoEmptyEntries(outputBuilder.epsilonTransitions)
    {
      ghost var some := SomeMember(sources);
      var fromState :| fromState in sources;
      CopyEpsilonRow(outputBuilder, fromState, input.epsilonTransitions[fromState], stateOffset);
      RowEpsEdgesAddRow(input.epsilonTransitions, done, fromState, stateOffset);
      done := done + {fromState};
      sources := sources - {fromState};
    }
    RowEpsEdgesAll(input.epsilonTransitions);
  }

  /** The inner loop of `CopyEpsilonTransitions`: one epsilon row, shifted. */
  method CopyEpsilonRow<S(==)>(outputBuilder: AutomatonBuilder<S>, fromState: int, targets: set<int>, stateOffset: int)
    modifies outputBuilder`epsilonTransitions
    ensures EpsEdges(outputBuilder.epsilonTransitions)
      == old(EpsEdges(outputBuilder.epsilonTransitions)) + EpsRowImage(fromState, targets, stateOffset)
    ensures NoEmptyEntries(old(outputBuilder.epsilonTransitions)) ==> NoEmptyEntries(outputBuilder.epsilonTransitions)
  {
    ghost var before := EpsEdges(outputBuilder.epsilonTransitions);
    ghost var copied: set<int> := {};
    var rest := targets;
    while rest != {}
      invariant copied + rest == targets
      invariant EpsEdges(outputBuilder.epsilonTransitions) == before + EpsRowImage(fromState, copied, stateOffset)
      invariant NoEmptyEntries(old(outputBuilder.epsilonTransitions)) ==> NoEmptyEntries(outputBuilder.epsilonTransitions)
    {
      ghost var one := SomeMember(rest);
      var toState :| toState in rest;
      outputBuilder.WithEpsilonTransition(fromState + stateOffset, toState + stateOffset);
      EpsRowImageAdd(fromState, copied, toState, stateOffset);
      copied := copied + {toState};
      rest := rest - {toState};
    }
  }

  lemma RowEpsEdgesAll(e: EpsilonTable)
    ensures RowEpsEdges(e, e.Keys) == EpsEdges(e)
  {
  }

  lemma RowEpsEdgesAddRow(e: EpsilonTable, done: set<int>, from: int, offset: int)
    requires from in e
    ensures ShiftEpsEdges(RowEpsEdges(e, done + {from}), offset)
      == ShiftEpsEdges(RowEpsEdges(e, done), offset) + EpsRowImage(from, e[from], offset)
  {
    var row := set to | to in e[from] :: (from, to);
    assert RowEpsEdges(e, done + {from}) == RowEpsEdges(e, done) + row;
    ShiftEpsUnion(RowEpsEdges(e, done), row, offset);
    assert ShiftEpsEdges(row, offset) == EpsRowImage(from, e[from], offset);
  }

  lemma ShiftEpsUnion(x: set<(int, int)>, y: set<(int, int)>, offset: int)
    ensures ShiftEpsEdges(x + y, offset) == ShiftEpsEdges(x, offset) + ShiftEpsEdges(y, offset)
  {
  }

  /** The overload without an offset: offset 0. */
  method CopyEpsilonTransitionsUnshifted<S(==)>(input: Automaton<S>, outputBuilder: AutomatonBuilder<S>)
    modifies outputBuilder`epsilonTransitions
    ensures EpsEdges(outputBuilder.epsilonTransitions)
      == old(EpsEdges(outputBuilder.epsilonTransitions)) + ShiftEpsEdges(EpsEdges(input.epsilonTransitions), 0)
    ensures NoEmptyEntries(old(outputBuilder.epsilonTransitions)) ==> NoEmptyEntries(outputBuilder.epsilonTransitions)
  {
    CopyEpsilonTransitions(input, outputBuilder, 0);
  }

  /** Shifting by zero changes nothing. */
  lemma ShiftByZero<S>(edges: set<(int, S, int)>, eps: set<(int, int)>)
    ensures ShiftEdges(edges, 0) == edges && ShiftEpsEdges(eps, 0) == eps
  {
    assert forall e | e in edges :: (e.0 + 0, e.1, e.2 + 0) == e;
    assert forall e | e in ShiftEdges(edges, 0) :: e in edges;
    assert forall e | e in eps :: (e.0 + 0, e.1 + 0) == e;
    assert forall e | e in ShiftEpsEdges(eps, 0) :: e in eps;
  }

  /** Copying a well-formed automaton with `n` states at offset `k` touches only states `k .. k+n-1`. */
  lemma ShiftedEdgesInRange<S>(input: Automaton<S>, offset: int)
    requires WellFormed(input)
    ensures forall e | e in ShiftEdges(Edges(input.transitions), offset) ::
      offset <= e.0 < offset + input.numStates && offset <= e.2 < offset + input.numStates
    ensures forall e | e in ShiftEpsEdges(EpsEdges(input.epsilonTransitions), offset) ::
      offset <= e.0 < offset + input.numStates && offset <= e.1 < offset + input.numStates
  {
    forall e | e in Edges(input.transitions)
      ensures 0 <= e.0 < input.numStates && 0 <= e.2 < input.numStates
    {
      EdgesMember(input.transitions, e.0, e.1, e.2);
    }
  }
}
