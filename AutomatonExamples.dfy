/**
 * The automata `AutomatonTest` builds: the six builder calls it expects to
 * fail, naming the one state outside the universe, and the four small
 * automata whose acceptance it checks, each with its whole language.
 */
module AutomatonExamples {
  import opened Wrappers
  import opened Automata

  // ---------------------------------------------------------------------------
  // Builds that fail

  /** A one-state universe with initial state 1. */
  method BuildStartOutOfUniverse() returns (r: Result<Automaton<char>, InvalidAutomaton>)
    ensures r == Failure(InvalidAutomaton(1))
  {
    var b := new AutomatonBuilder<char>();
    b.WithNumStates(1);
    b.WithInitialState(1);
    r := b.Build();
  }

  /** A one-state universe with final state 1. */
  method BuildFinalOutOfUniverse() returns (r: Result<Automaton<char>, InvalidAutomaton>)
    ensures r == Failure(InvalidAutomaton(1))
  {
    var b := new AutomatonBuilder<char>();
    b.WithNumStates(1);
    b.WithFinalState(1);
    r := b.Build();
  }

  /** A one-state universe with the edge 1 -a-> 0. */
  method BuildTransitionSourceOutOfUniverse() returns (r: Result<Automaton<char>, InvalidAutomaton>)
    ensures r == Failure(InvalidAutomaton(1))
  {
    var b := new AutomatonBuilder<char>();
    b.WithNumStates(1);
    b.WithTransition(1, 'a', 0);
    r := b.Build();
    assert TableStates(b.transitions) == {0, 1};
  }

  /** A one-state universe with the epsilon edge 1 -> 0. */
  method BuildEpsilonSourceOutOfUniverse() returns (r: Result<Automaton<char>, InvalidAutomaton>)
    ensures r == Failure(InvalidAutomaton(1))
  {
    var b := new AutomatonBuilder<char>();
    b.WithNumStates(1);
    b.WithEpsilonTransition(1, 0);
    r := b.Build();
    assert EpsilonStates(b.epsilonTransitions) == {0, 1};
  }

  /** A one-state universe with the edge 0 -a-> 1. */
  method BuildTransitionTargetOutOfUniverse() returns (r: Result<Automaton<char>, InvalidAutomaton>)
    ensures r == Failure(InvalidAutomaton(1))
  {
    var b := new AutomatonBuilder<char>();
    b.WithNumStates(1);
    b.WithTransition(0, 'a', 1);
    r := b.Build();
    assert TableStates(b.transitions) == {0, 1};
  }

  /** A one-state universe with the epsilon edge 0 -> 1. */
  method BuildEpsilonTargetOutOfUniverse() returns (r: Result<Automaton<char>, InvalidAutomaton>)
    ensures r == Failure(InvalidAutomaton(1))
  {
    var b := new AutomatonBuilder<char>();
    b.WithNumStates(1);
    b.WithEpsilonTransition(0, 1);
    r := b.Build();
    assert EpsilonStates(b.epsilonTransitions) == {0, 1};
  }

  // ---------------------------------------------------------------------------
  // Automata that build, and what they accept

  /** Without epsilon edges one more symbol moves to exactly the step. */
  lemma ReachWithoutEpsilon(a: Automaton<char>, v: string, x: char)
    requires a.epsilonTransitions == map[]
    ensures Reach(a, v + [x]) == Step(a, Reach(a, v), x)
  {
    ReachSnoc(a, v, x);
    ClosureWithoutEpsilon(a, Step(a, Reach(a, v), x));
  }

  /** One state, not final, looping on `a`. */
  function LoopOnA(): Automaton<char> {
    Automaton(1, map[(0, 'a') := {0}], map[], 0, {})
  }

  /** One final state looping on `a` and on `b`. */
  function LoopOnAB(): Automaton<char> {
    Automaton(1, map[(0, 'a') := {0}, (0, 'b') := {0}], map[], 0, {0})
  }

  /** The chain 0 -a-> 1 -b-> 2 with final state 2. */
  function ChainAB(): Automaton<char> {
    Automaton(3, map[(0, 'a') := {1}, (1, 'b') := {2}], map[], 0, {2})
  }

  /** The epsilon chain 0 -> 1 -> 2, then 2 -b-> 3 with final state 3. */
  function EpsilonChainB(): Automaton<char> {
    Automaton(4, map[(2, 'b') := {3}], map[0 := {1}, 1 := {2}], 0, {3})
  }

  predicate OverAB(w: string) {
    forall k | 0 <= k < |w| :: w[k] == 'a' || w[k] == 'b'
  }

  /** The builder calls of the first acceptance test give the non-final `a` loop. */
  method BuildLoopOnA() returns (r: Result<Automaton<char>, InvalidAutomaton>)
    ensures r == Success(LoopOnA())
  {
    var b := new AutomatonBuilder<char>();
    b.WithNumStates(1);
    b.WithTransition(0, 'a', 0);
    assert {} + {0} == {0};
    assert b.Current() == LoopOnA();
    assert TableInUniverse(LoopOnA().transitions, 1);
    r := b.Build();
  }

  /** Without final states nothing is accepted, whatever is occupied. */
  lemma LoopOnAAcceptsNothing(w: string)
    ensures !Accepted(LoopOnA(), w)
  {
  }

  /** The non-final `a` loop rejects `a`. */
  method SingleNonFinalState() returns (accepted: bool)
    ensures !accepted
  {
    var r := BuildLoopOnA();
    accepted := Accepts(r.value, ['a']);
    LoopOnAAcceptsNothing(['a']);
  }

  /** One symbol out of the `a`/`b` loop's state. */
  lemma LoopOnABStep(x: char)
    ensures Step(LoopOnAB(), {0}, x) == if x == 'a' || x == 'b' then {0} else {}
    ensures Step(LoopOnAB(), {}, x) == {}
  {
    if x == 'a' || x == 'b' {
      assert 0 in AdjacentStates(LoopOnAB(), 0, x);
    } else {
      assert AdjacentStates(LoopOnAB(), 0, x) == {};
    }
  }

  lemma OverABSnoc(v: string, x: char)
    ensures OverAB(v + [x]) <==> OverAB(v) && (x == 'a' || x == 'b')
  {
    var w := v + [x];
    if OverAB(v) && (x == 'a' || x == 'b') {
      forall k | 0 <= k < |w| ensures w[k] == 'a' || w[k] == 'b' {
        if k < |v| {
          assert w[k] == v[k];
        }
      }
    }
    if OverAB(w) {
      forall k | 0 <= k < |v| ensures v[k] == 'a' || v[k] == 'b' {
        assert v[k] == w[k];
      }
      assert w[|v|] == x;
    }
  }

  /** The `a`/`b` loop occupies its state exactly while the input is over `a` and `b`. */
  lemma {:induction false} LoopOnABReach(w: string)
    ensures Reach(LoopOnAB(), w) == if OverAB(w) then {0} else {}
    decreases |w|
  {
    if w == [] {
      ClosureWithoutEpsilon(LoopOnAB(), {0});
    } else {
      var v, x := w[..|w| - 1], w[|w| - 1];
      assert w == v + [x];
      LoopOnABReach(v);
      ReachWithoutEpsilon(LoopOnAB(), v, x);
      OverABSnoc(v, x);
      LoopOnABStep(x);
    }
  }

  /** The `a`/`b` loop accepts exactly the inputs over `a` and `b`, the empty one included. */
  lemma LoopOnABLanguage(w: string)
    ensures Accepted(LoopOnAB(), w) <==> OverAB(w)
  {
    LoopOnABReach(w);
    assert {0} * {0} == {0};
  }

  /** The builder calls of the second acceptance test give the final `a`/`b` loop. */
  method BuildLoopOnAB() returns (r: Result<Automaton<char>, InvalidAutomaton>)
    ensures r == Success(LoopOnAB())
  {
    var b := new AutomatonBuilder<char>();
    b.WithNumStates(1);
    b.WithFinalState(0);
    b.WithTransition(0, 'a', 0);
    b.WithTransition(0, 'b', 0);
    assert {} + {0} == {0};
    assert b.Current() == LoopOnAB();
    assert TableInUniverse(LoopOnAB().transitions, 1);
    r := b.Build();
  }

  /** The final `a`/`b` loop accepts `a`, `b`, `ab` and `ba`. */
  method SingleFinalState() returns (a1: bool, a2: bool, a3: bool, a4: bool)
    ensures a1 && a2 && a3 && a4
  {
    var r := BuildLoopOnAB();
    LoopOnABLanguage(['a']);
    LoopOnABLanguage(['b']);
    LoopOnABLanguage(['a', 'b']);
    LoopOnABLanguage(['b', 'a']);
    a1 := Accepts(r.value, ['a']);
    a2 := Accepts(r.value, ['b']);
    a3 := Accepts(r.value, ['a', 'b']);
    a4 := Accepts(r.value, ['b', 'a']);
  }

  /** One symbol out of each state of the chain. */
  lemma ChainABStep(x: char)
    ensures Step(ChainAB(), {0}, x) == if x == 'a' then {1} else {}
    ensures Step(ChainAB(), {1}, x) == if x == 'b' then {2} else {}
    ensures Step(ChainAB(), {2}, x) == {}
    ensures Step(ChainAB(), {}, x) == {}
  {
    var a := ChainAB();
    if x == 'a' {
      assert 1 in AdjacentStates(a, 0, x);
    } else {
      assert AdjacentStates(a, 0, x) == {};
    }
    if x == 'b' {
      assert 2 in AdjacentStates(a, 1, x);
    } else {
      assert AdjacentStates(a, 1, x) == {};
    }
    assert AdjacentStates(a, 2, x) == {};
  }

  /** The chain occupies state 0 on no input, 1 after `a`, 2 after `ab`, and nothing otherwise. */
  lemma {:induction false} ChainABReach(w: string)
    ensures Reach(ChainAB(), w)
      == if w == [] then {0} else if w == ['a'] then {1} else if w == ['a', 'b'] then {2} else {}
    decreases |w|
  {
    if w == [] {
      ClosureWithoutEpsilon(ChainAB(), {0});
    } else {
      var v, x := w[..|w| - 1], w[|w| - 1];
      assert w == v + [x];
      ChainABReach(v);
      ReachWithoutEpsilon(ChainAB(), v, x);
      ChainABStep(x);
      if v == [] {
        assert w == [x];
      } else if v == ['a'] {
        assert w == ['a', x];
      } else if v == ['a', 'b'] {
        assert |w| == 3;
      }
    }
  }

  /** The chain accepts exactly `ab`. */
  lemma ChainABLanguage(w: string)
    ensures Accepted(ChainAB(), w) <==> w == ['a', 'b']
  {
    ChainABReach(w);
    assert 2 in {2} * {2};
  }

  /** The builder calls of the third acceptance test give the chain. */
  method BuildChainAB() returns (r: Result<Automaton<char>, InvalidAutomaton>)
    ensures r == Success(ChainAB())
  {
    var b := new AutomatonBuilder<char>();
    b.WithNumStates(3);
    b.WithInitialState(0);
    b.WithFinalState(2);
    b.WithTransition(0, 'a', 1);
    b.WithTransition(1, 'b', 2);
    assert {} + {1} == {1} && {} + {2} == {2};
    assert b.Current() == ChainAB();
    assert TableInUniverse(ChainAB().transitions, 3);
    r := b.Build();
  }

  /** The chain does not accept the partial input `a`. */
  method PartialInput() returns (accepted: bool)
    ensures !accepted
  {
    var r := BuildChainAB();
    ChainABLanguage(['a']);
    accepted := Accepts(r.value, ['a']);
  }

  /** The initial state closes over both epsilon edges; nothing else moves without input. */
  lemma EpsilonChainBClosures()
    ensures Closure(EpsilonChainB(), {0}) == {0, 1, 2}
    ensures Closure(EpsilonChainB(), {3}) == {3}
  {
    var a := EpsilonChainB();
    ClosureExtensiveAndClosed(a, {0});
    assert 1 in EpsilonSuccessors(a, 0);
    assert 2 in EpsilonSuccessors(a, 1);
    assert EpsilonClosed(a, {0, 1, 2});
    ClosureLeast(a, {0}, {0, 1, 2});
    assert EpsilonClosed(a, {3});
    ClosureOfClosed(a, {3});
  }

  /** One symbol out of each set the epsilon chain occupies. */
  lemma EpsilonChainBStep(x: char)
    ensures Step(EpsilonChainB(), {0, 1, 2}, x) == if x == 'b' then {3} else {}
    ensures Step(EpsilonChainB(), {3}, x) == {}
    ensures Step(EpsilonChainB(), {}, x) == {}
  {
    var a := EpsilonChainB();
    assert AdjacentStates(a, 0, x) == {} && AdjacentStates(a, 1, x) == {} && AdjacentStates(a, 3, x) == {};
    if x == 'b' {
      assert 3 in AdjacentStates(a, 2, x);
    } else {
      assert AdjacentStates(a, 2, x) == {};
    }
  }

  /** The epsilon chain occupies 0, 1 and 2 on no input, 3 after `b`, and nothing otherwise. */
  lemma {:induction false} EpsilonChainBReach(w: string)
    ensures Reach(EpsilonChainB(), w)
      == if w == [] then {0, 1, 2} else if w == ['b'] then {3} else {}
    decreases |w|
  {
    EpsilonChainBClosures();
    if w != [] {
      var v, x := w[..|w| - 1], w[|w| - 1];
      assert w == v + [x];
      EpsilonChainBReach(v);
      ReachSnoc(EpsilonChainB(), v, x);
      ClosureOfEmpty(EpsilonChainB());
      EpsilonChainBStep(x);
      if v == [] {
        assert w == [x];
      } else if v == ['b'] {
        assert |w| == 2;
      }
    }
  }

  /** The epsilon chain accepts exactly `b`. */
  lemma EpsilonChainBLanguage(w: string)
    ensures Accepted(EpsilonChainB(), w) <==> w == ['b']
  {
    EpsilonChainBReach(w);
    assert 3 in {3} * {3};
  }

  /** The builder calls of the fourth acceptance test give the epsilon chain. */
  method BuildEpsilonChainB() returns (r: Result<Automaton<char>, InvalidAutomaton>)
    ensures r == Success(EpsilonChainB())
  {
    var b := new AutomatonBuilder<char>();
    b.WithNumStates(4);
    b.WithFinalState(3);
    b.WithEpsilonTransition(0, 1);
    b.WithEpsilonTransition(1, 2);
    b.WithTransition(2, 'b', 3);
    assert {} + {1} == {1} && {} + {2} == {2} && {} + {3} == {3};
    assert b.Current() == EpsilonChainB();
    assert TableInUniverse(EpsilonChainB().transitions, 4);
    assert EpsilonInUniverse(EpsilonChainB().epsilonTransitions, 4);
    r := b.Build();
  }

  /** The epsilon chain accepts `b` and rejects the empty input. */
  method JumpsThroughEpsilonTransitions() returns (acceptsB: bool, acceptsEmpty: bool)
    ensures acceptsB && !acceptsEmpty
  {
    var r := BuildEpsilonChainB();
    EpsilonChainBLanguage(['b']);
    EpsilonChainBLanguage([]);
    acceptsB := Accepts(r.value, ['b']);
    acceptsEmpty := Accepts(r.value, []);
  }
}
