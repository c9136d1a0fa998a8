/**
 * The atomic automata every regular expression is built from. The builder
 * chains of the factory are written here as the automaton values they build;
 * the delegating factory entry points are the `Apply` methods of the
 * combinator modules themselves.
 */
module Factory {
  import opened Automata

  /** One state that is both initial and final, with an epsilon self-loop. */
  function EmptyInput<S(==)>(): (r: Automaton<S>)
    ensures WellFormed(r)
  {
    Automaton(1, map[], map[0 := {0}], 0, {0})
  }

  /** Two states and the single edge 0 -sym-> 1, with 1 final. */
  function SingleSymbol<S(==)>(sym: S): (r: Automaton<S>)
    ensures WellFormed(r)
    ensures Edges(r.transitions) == {(0, sym, 1)} && r.epsilonTransitions == map[]
  {
    var r := Automaton(2, map[(0, sym) := {1}], map[], 0, {1});
    EdgesMember(r.transitions, 0, sym, 1);
    r
  }

  /**
   * Two states with an edge 0 -> 1 on every symbol of `alphabet`, 1 final:
   * the automaton the wildcard compiles to, over an alphabet given as a
   * parameter.
   */
  function AllSymbols<S(==)>(alphabet: set<S>): (r: Automaton<S>)
    ensures WellFormed(r)
    ensures Edges(r.transitions) == set sym | sym in alphabet :: (0, sym, 1)
    ensures r.epsilonTransitions == map[]
  {
    var r := Automaton(2, map k | k in StartKeys(alphabet) :: {1}, map[], 0, {1});
    AllSymbolsEdges(r, alphabet);
    r
  }

  /** The keys (0, sym) of the wildcard automaton's table. */
  function StartKeys<S(==)>(alphabet: set<S>): set<(int, S)>
  {
    set sym | sym in alphabet :: (0, sym)
  }

  lemma AllSymbolsEdges<S>(r: Automaton<S>, alphabet: set<S>)
    requires r.transitions == map k | k in StartKeys(alphabet) :: {1}
    ensures Edges(r.transitions) == set sym | sym in alphabet :: (0, sym, 1)
  {
    forall e | e in Edges(r.transitions) ensures e in set sym | sym in alphabet :: (0, sym, 1) {
      EdgesMember(r.transitions, e.0, e.1, e.2);
    }
    forall sym | sym in alphabet ensures (0, sym, 1) in Edges(r.transitions) {
      assert (0, sym) in StartKeys(alphabet);
      EdgesMember(r.transitions, 0, sym, 1);
    }
  }

  // ---------------------------------------------------------------------------
  // Languages of the atomic automata
  // ---------------------------------------------------------------------------

  /** With no labelled edge at all, nothing is occupied after a non-empty input. */
  lemma {:induction false} NoEdgesReachNothing<S>(a: Automaton<S>, w: seq<S>)
    requires a.transitions == map[] && w != []
    ensures Reach(a, w) == {}
  {
    assert Step(a, Reach(a, w[..|w| - 1]), w[|w| - 1]) == {};
    ClosureOfEmpty(a);
  }

  /** The empty-input automaton accepts exactly the empty input. */
  lemma EmptyInputLanguage<S>(w: seq<S>)
    ensures Accepted(EmptyInput<S>(), w) <==> w == []
  {
    var a := EmptyInput<S>();
    if w == [] {
      ClosureExtensiveAndClosed(a, {0});
      assert 0 in Reach(a, w) * a.finalStates;
    } else {
      NoEdgesReachNothing(a, w);
    }
  }

  /** Occupied states of a two-state automaton without epsilon edges after one symbol. */
  lemma {:induction false} OneStepFromStart<S>(a: Automaton<S>, x: S)
    requires a.epsilonTransitions == map[] && a.initialState == 0
    ensures Reach(a, [x]) == AdjacentStates(a, 0, x)
  {
    ClosureWithoutEpsilon(a, {0});
    assert [x][..0] == [];
    ClosureWithoutEpsilon(a, Step(a, {0}, x));
  }

  /**
   * In an automaton without epsilon edges whose only edges leave state 0
   * towards state 1, nothing is occupied after two or more symbols.
   */
  lemma {:induction false} OnlyEdgesOutOfStartReachNothingLater<S>(a: Automaton<S>, w: seq<S>)
    requires a.epsilonTransitions == map[] && a.initialState == 0
    requires forall e | e in Edges(a.transitions) :: e.0 == 0 && e.2 == 1
    requires |w| >= 2
    ensures Reach(a, w) == {}
  {
    assert w[..1] == [w[0]];
    OneStepFromStart(a, w[0]);
    var one := Reach(a, [w[0]]);
    assert one <= {1};
    var two := Step(a, one, w[1]);
    assert AdjacentStates(a, 1, w[1]) == {};
    assert two == {};
    assert w[..2][..1] == [w[0]];
    assert Reach(a, w[..2]) == Closure(a, two);
    ClosureOfEmpty(a);
    ReachStaysEmpty(a, w, 2);
  }

  /** The single-symbol automaton accepts exactly the one-symbol input [sym]. */
  lemma SingleSymbolLanguage<S>(sym: S, w: seq<S>)
    ensures Accepted(SingleSymbol(sym), w) <==> w == [sym]
  {
    var a := SingleSymbol(sym);
    if w == [] {
      ClosureWithoutEpsilon(a, {0});
    } else if |w| == 1 {
      assert w == [w[0]];
      OneStepFromStart(a, w[0]);
      EdgesMember(a.transitions, 0, w[0], 1);
      if w[0] == sym {
        assert 1 in Reach(a, w) * a.finalStates;
      } else {
        assert Reach(a, w) == {};
      }
    } else {
      OnlyEdgesOutOfStartReachNothingLater(a, w);
    }
  }

  /** The wildcard automaton accepts exactly the one-symbol inputs over its alphabet. */
  lemma AllSymbolsLanguage<S>(alphabet: set<S>, w: seq<S>)
    ensures Accepted(AllSymbols(alphabet), w) <==> |w| == 1 && w[0] in alphabet
  {
    var a := AllSymbols(alphabet);
    if w == [] {
      ClosureWithoutEpsilon(a, {0});
    } else if |w| == 1 {
      assert w == [w[0]];
      OneStepFromStart(a, w[0]);
      EdgesMember(a.transitions, 0, w[0], 1);
      if w[0] in alphabet {
        assert 1 in Reach(a, w) * a.finalStates;
      } else {
        assert Reach(a, w) == {};
      }
    } else {
      OnlyEdgesOutOfStartReachNothingLater(a, w);
    }
  }
}
