/**
 * The subset simulation started from an arbitrary set of states, and the
 * facts about it that the language proofs of the combinators share: running
 * on a concatenated input, monotonicity in the start set, staying inside the
 * universe, and carrying a run over into an automaton that contains a shifted
 * copy of the edges.
 */
module Runs {
  import opened Automata
  import opened CopyUtils

  /** The occupied set after consuming `w`, starting from the closure of `start`. */
  ghost function Run<S>(a: Automaton<S>, start: set<int>, w: seq<S>): set<int>
    decreases |w|
  {
    if w == [] then Closure(a, start)
    else Closure(a, Step(a, Run(a, start, w[..|w| - 1]), w[|w| - 1]))
  }

  /** The simulation of `accepts` is the run from the initial state. */
  lemma {:induction false} ReachIsRun<S>(a: Automaton<S>, w: seq<S>)
    ensures Reach(a, w) == Run(a, {a.initialState}, w)
    decreases |w|
  {
    if w != [] {
      ReachIsRun(a, w[..|w| - 1]);
    }
  }

  lemma RunSnoc<S>(a: Automaton<S>, start: set<int>, w: seq<S>, x: S)
    ensures Run(a, start, w + [x]) == Closure(a, Step(a, Run(a, start, w), x))
  {
    assert (w + [x])[..|w|] == w;
  }

  /** Every occupied set is epsilon-closed. */
  lemma RunClosed<S>(a: Automaton<S>, start: set<int>, w: seq<S>)
    ensures EpsilonClosed(a, Run(a, start, w))
  {
    if w == [] {
      ClosureExtensiveAndClosed(a, start);
    } else {
      ClosureExtensiveAndClosed(a, Step(a, Run(a, start, w[..|w| - 1]), w[|w| - 1]));
    }
  }

  /** An epsilon edge out of an occupied state leads to an occupied state. */
  lemma RunFollowsEpsilon<S>(a: Automaton<S>, start: set<int>, w: seq<S>, s: int, t: int)
    requires s in Run(a, start, w) && (s, t) in EpsEdges(a.epsilonTransitions)
    ensures t in Run(a, start, w)
  {
    RunClosed(a, start, w);
    assert t in EpsilonSuccessors(a, s);
  }

  /** Consuming `u` and then `v` is consuming `u + v`. */
  lemma {:induction false} RunAppend<S>(a: Automaton<S>, start: set<int>, u: seq<S>, v: seq<S>)
    ensures Run(a, start, u + v) == Run(a, Run(a, start, u), v)
    decreases |v|
  {
    if v == [] {
      assert u + v == u;
      RunClosed(a, start, u);
      ClosureOfClosed(a, Run(a, start, u));
    } else {
      var v' := v[..|v| - 1];
      var x := v[|v| - 1];
      assert v == v' + [x];
      assert u + v == (u + v') + [x];
      RunAppend(a, start, u, v');
      RunSnoc(a, start, u + v', x);
      RunSnoc(a, Run(a, start, u), v', x);
    }
  }

  lemma StepMonotone<S>(a: Automaton<S>, x: set<int>, y: set<int>, sym: S)
    requires x <= y
    ensures Step(a, x, sym) <= Step(a, y, sym)
  {
  }

  /** Starting from states the closure of `big` already holds occupies no more than starting from `big`. */
  lemma {:induction false} RunMonotone<S>(a: Automaton<S>, small: set<int>, big: set<int>, w: seq<S>)
    requires small <= Closure(a, big)
    ensures Run(a, small, w) <= Run(a, big, w)
    decreases |w|
  {
    if w == [] {
      ClosureMonotone(a, small, Closure(a, big));
      ClosureIdempotent(a, big);
    } else {
      var w' := w[..|w| - 1];
      RunMonotone(a, small, big, w');
      StepMonotone(a, Run(a, small, w'), Run(a, big, w'), w[|w| - 1]);
      ClosureMonotone(a, Step(a, Run(a, small, w'), w[|w| - 1]), Step(a, Run(a, big, w'), w[|w| - 1]));
    }
  }

  /** Every state of `states` lies in the universe of `a`. */
  ghost predicate AllInUniverse<S>(a: Automaton<S>, states: set<int>)
  {
    forall s | s in states :: InUniverse(s, a.numStates)
  }

  /** The closure adds nothing but epsilon-edge destinations. */
  lemma ClosureWithinTargets<S>(a: Automaton<S>, states: set<int>)
    ensures Closure(a, states) <= states + EpsilonTargets(a)
  {
    forall s, t | s in states + EpsilonTargets(a) && t in EpsilonSuccessors(a, s)
      ensures t in states + EpsilonTargets(a)
    {
      assert t in EpsilonTargets(a);
    }
    ClosureLeast(a, states, states + EpsilonTargets(a));
  }

  lemma ClosureInUniverse<S>(a: Automaton<S>, states: set<int>)
    requires WellFormed(a) && AllInUniverse(a, states)
    ensures AllInUniverse(a, Closure(a, states))
  {
    ClosureWithinTargets(a, states);
    forall t | t in EpsilonTargets(a) ensures InUniverse(t, a.numStates) {
      var s :| s in a.epsilonTransitions && t in a.epsilonTransitions[s];
      EpsEdgesMember(a.epsilonTransitions, s, t);
    }
  }

  /** A run of a well-formed automaton from states of its universe stays in the universe. */
  lemma {:induction false} RunInUniverse<S>(a: Automaton<S>, start: set<int>, w: seq<S>)
    requires WellFormed(a) && AllInUniverse(a, start)
    ensures AllInUniverse(a, Run(a, start, w))
    decreases |w|
  {
    if w == [] {
      ClosureInUniverse(a, start);
    } else {
      var w' := w[..|w| - 1];
      RunInUniverse(a, start, w');
      var next := Step(a, Run(a, start, w'), w[|w| - 1]);
      forall t | t in next ensures InUniverse(t, a.numStates) {
        var s :| s in Run(a, start, w') && t in AdjacentStates(a, s, w[|w| - 1]);
        EdgesMember(a.transitions, s, w[|w| - 1], t);
      }
      ClosureInUniverse(a, next);
    }
  }

  /** The simulation of a well-formed automaton only ever occupies states of its universe. */
  lemma ReachInUniverse<S>(a: Automaton<S>, w: seq<S>)
    requires WellFormed(a)
    ensures AllInUniverse(a, Reach(a, w))
  {
    ReachIsRun(a, w);
    RunInUniverse(a, {a.initialState}, w);
  }

  /** `c` holds a copy of every labelled and epsilon edge of `a`, shifted by `k`. */
  ghost predicate Embeds<S>(a: Automaton<S>, c: Automaton<S>, k: int)
  {
    && ShiftEdges(Edges(a.transitions), k) <= Edges(c.transitions)
    && ShiftEpsEdges(EpsEdges(a.epsilonTransitions), k) <= EpsEdges(c.epsilonTransitions)
  }

  /** The states `c` can occupy, shifted back into `a`'s numbering. */
  ghost function Unshift(states: set<int>, k: int): set<int>
  {
    set t | t in states :: t - k
  }

  lemma UnshiftMember(states: set<int>, k: int, s: int)
    ensures s in Unshift(states, k) <==> s + k in states
  {
    if s + k in states {
      assert s == (s + k) - k;
    }
  }

  /** With `c` embedding `a`, the shifted-back closure in `c` is epsilon-closed in `a`. */
  lemma UnshiftClosed<S>(a: Automaton<S>, c: Automaton<S>, k: int, closed: set<int>)
    requires Embeds(a, c, k) && EpsilonClosed(c, closed)
    ensures EpsilonClosed(a, Unshift(closed, k))
  {
    forall s, t | s in Unshift(closed, k) && t in EpsilonSuccessors(a, s) ensures t in Unshift(closed, k) {
      UnshiftMember(closed, k, s);
      assert (s + k, t + k) in ShiftEpsEdges(EpsEdges(a.epsilonTransitions), k);
      assert t + k in EpsilonSuccessors(c, s + k);
      UnshiftMember(closed, k, t);
    }
  }

  /** Closing under epsilon edges commutes with an embedding, one state at a time. */
  lemma ClosureEmbeddingAt<S>(a: Automaton<S>, c: Automaton<S>, k: int, small: set<int>, big: set<int>, s: int)
    requires Embeds(a, c, k)
    requires forall s | s in small :: s + k in big
    requires s in Closure(a, small)
    ensures s + k in Closure(c, big)
  {
    var back := Unshift(Closure(c, big), k);
    ClosureExtensiveAndClosed(c, big);
    forall s | s in small ensures s in back {
      UnshiftMember(Closure(c, big), k, s);
    }
    UnshiftClosed(a, c, k, Closure(c, big));
    ClosureLeast(a, small, back);
    UnshiftMember(Closure(c, big), k, s);
  }

  /** One symbol step commutes with an embedding. */
  lemma StepEmbedding<S>(a: Automaton<S>, c: Automaton<S>, k: int, small: set<int>, big: set<int>, x: S)
    requires Embeds(a, c, k)
    requires forall s | s in small :: s + k in big
    ensures forall t | t in Step(a, small, x) :: t + k in Step(c, big, x)
  {
    forall t | t in Step(a, small, x) ensures t + k in Step(c, big, x) {
      var s :| s in small && t in AdjacentStates(a, s, x);
      assert (s + k, x, t + k) in ShiftEdges(Edges(a.transitions), k);
      assert t + k in AdjacentStates(c, s + k, x);
    }
  }

  /**
   * Simulation: whatever `a` occupies from `small`, `c` occupies shifted by
   * `k` from any `big` holding the shifted start states.
   */
  lemma {:induction false} RunEmbedding<S>(a: Automaton<S>, c: Automaton<S>, k: int,
                                           small: set<int>, big: set<int>, w: seq<S>, s: int)
    requires Embeds(a, c, k)
    requires forall s | s in small :: s + k in big
    requires s in Run(a, small, w)
    ensures s + k in Run(c, big, w)
    decreases |w|
  {
    if w == [] {
      ClosureEmbeddingAt(a, c, k, small, big, s);
    } else {
      var w' := w[..|w| - 1];
      var x := w[|w| - 1];
      var before := Run(a, small, w');
      var beforeC := Run(c, big, w');
      forall u | u in before ensures u + k in beforeC {
        RunEmbedding(a, c, k, small, big, w', u);
      }
      StepEmbedding(a, c, k, before, beforeC, x);
      ClosureEmbeddingAt(a, c, k, Step(a, before, x), Step(c, beforeC, x), s);
    }
  }

  /** The states of `states`, renumbered by `k`. */
  ghost function ShiftStates(states: set<int>, k: int): set<int>
  {
    set s | s in states :: s + k
  }

  lemma ShiftStatesMember(states: set<int>, k: int, s: int)
    ensures s in ShiftStates(states, k) <==> s - k in states
  {
    if s - k in states {
      assert s == (s - k) + k;
    }
  }

  /** The occupied set after any input is epsilon-closed. */
  lemma ReachClosed<S>(a: Automaton<S>, w: seq<S>)
    ensures EpsilonClosed(a, Reach(a, w))
  {
    ReachIsRun(a, w);
    RunClosed(a, {a.initialState}, w);
  }

  /** The initial state is occupied before any input. */
  lemma InitialReached<S>(a: Automaton<S>)
    ensures a.initialState in Reach(a, [])
  {
    ClosureExtensiveAndClosed(a, {a.initialState});
  }

  /** An epsilon edge s -> t puts t in the closure of {s}. */
  lemma EpsEdgeInClosure<S>(a: Automaton<S>, s: int, t: int)
    requires (s, t) in EpsEdges(a.epsilonTransitions)
    ensures t in Closure(a, {s})
  {
    ClosureExtensiveAndClosed(a, {s});
    assert t in EpsilonSuccessors(a, s);
  }

  /** Every labelled and epsilon edge of a well-formed automaton joins two states of its universe. */
  lemma EdgesInUniverse<S>(a: Automaton<S>)
    requires WellFormed(a)
    ensures forall e | e in Edges(a.transitions) :: InUniverse(e.0, a.numStates) && InUniverse(e.2, a.numStates)
    ensures forall e | e in EpsEdges(a.epsilonTransitions) :: InUniverse(e.0, a.numStates) && InUniverse(e.1, a.numStates)
  {
    forall e | e in Edges(a.transitions) ensures InUniverse(e.0, a.numStates) && InUniverse(e.2, a.numStates) {
      EdgesMember(a.transitions, e.0, e.1, e.2);
    }
  }

  /** The occupied set follows every epsilon edge. */
  lemma ReachFollowsEpsilon<S>(a: Automaton<S>, w: seq<S>, s: int, t: int)
    requires s in Reach(a, w) && (s, t) in EpsEdges(a.epsilonTransitions)
    ensures t in Reach(a, w)
  {
    ReachClosed(a, w);
    assert t in EpsilonSuccessors(a, s);
  }

  /** An occupied state with an epsilon edge to the single final state makes the input accepted. */
  lemma FinalThroughEdge<S>(a: Automaton<S>, w: seq<S>, s: int)
    requires a.finalStates == {a.numStates - 1}
    requires s in Reach(a, w) && (s, a.numStates - 1) in EpsEdges(a.epsilonTransitions)
    ensures Accepted(a, w)
  {
    ReachFollowsEpsilon(a, w, s, a.numStates - 1);
    assert a.numStates - 1 in Reach(a, w) * a.finalStates;
  }

  /** Both ends of a labelled edge of a well-formed automaton are states of it. */
  lemma EdgeEndsInUniverse<S>(a: Automaton<S>, s: int, x: S, t: int)
    requires WellFormed(a) && (s, x, t) in Edges(a.transitions)
    ensures InUniverse(s, a.numStates) && InUniverse(t, a.numStates)
  {
    EdgesInUniverse(a);
  }

  /** Both ends of an epsilon edge of a well-formed automaton are states of it. */
  lemma EpsEdgeEndsInUniverse<S>(a: Automaton<S>, s: int, t: int)
    requires WellFormed(a) && (s, t) in EpsEdges(a.epsilonTransitions)
    ensures InUniverse(s, a.numStates) && InUniverse(t, a.numStates)
  {
    EdgesInUniverse(a);
  }

  /**
   * An automaton `c` that embeds `a` at offset `k`, reaches `a`'s shifted
   * initial state by epsilon edges from its own, and accepts from every
   * shifted final state of `a` without further input, accepts whatever `a`
   * accepts.
   */
  lemma EmbeddedAcceptance<S>(a: Automaton<S>, c: Automaton<S>, k: int, w: seq<S>)
    requires Embeds(a, c, k)
    requires a.initialState + k in Closure(c, {c.initialState})
    requires forall f | f in a.finalStates :: Closure(c, {f + k}) * c.finalStates != {}
    requires Accepted(a, w)
    ensures Accepted(c, w)
  {
    var f :| f in Reach(a, w) && f in a.finalStates;
    EmbeddedReach(a, c, k, w, f);
    ReachClosed(c, w);
    ClosureLeast(c, {f + k}, Reach(c, w));
  }

  /** A state `a` reaches is reached, shifted, by an automaton embedding it at its start. */
  lemma EmbeddedReach<S>(a: Automaton<S>, c: Automaton<S>, k: int, w: seq<S>, f: int)
    requires Embeds(a, c, k)
    requires a.initialState + k in Closure(c, {c.initialState})
    requires f in Reach(a, w)
    ensures f + k in Reach(c, w)
  {
    ReachIsRun(a, w);
    ReachIsRun(c, w);
    RunEmbedding(a, c, k, {a.initialState}, {a.initialState + k}, w, f);
    RunMonotone(c, {a.initialState + k}, {c.initialState}, w);
  }

  /**
   * `u` enters `a`'s copy at offset `k` by an epsilon edge from its initial
   * state and leaves it by epsilon edges from every copied final state to its
   * single final state, the last one.
   */
  ghost predicate Wired<S>(a: Automaton<S>, u: Automaton<S>, k: int)
  {
    && u.finalStates == {u.numStates - 1}
    && (u.initialState, a.initialState + k) in EpsEdges(u.epsilonTransitions)
    && forall f | f in a.finalStates :: (f + k, u.numStates - 1) in EpsEdges(u.epsilonTransitions)
  }

  /** Acceptance carried over from an operand embedded and wired at offset `k`. */
  lemma AcceptedThroughOperand<S>(a: Automaton<S>, u: Automaton<S>, k: int, w: seq<S>)
    requires Embeds(a, u, k) && Wired(a, u, k) && Accepted(a, w)
    ensures Accepted(u, w)
  {
    EpsEdgeInClosure(u, u.initialState, a.initialState + k);
    forall f | f in a.finalStates ensures Closure(u, {f + k}) * u.finalStates != {} {
      EpsEdgeInClosure(u, f + k, u.numStates - 1);
      assert u.numStates - 1 in Closure(u, {f + k}) * u.finalStates;
    }
    EmbeddedAcceptance(a, u, k, w);
  }

  /**
   * Once `c` occupies `a`'s shifted initial state after `u`, every state `a`
   * occupies after `v` is occupied, shifted, by `c` after `u + v`.
   */
  lemma EmbeddedRunAfter<S>(a: Automaton<S>, c: Automaton<S>, k: int, u: seq<S>, v: seq<S>, s: int)
    requires Embeds(a, c, k) && a.initialState + k in Reach(c, u) && s in Reach(a, v)
    ensures s + k in Reach(c, u + v)
  {
    var mid := Reach(c, u);
    ReachIsRun(a, v);
    ReachIsRun(c, u);
    ReachIsRun(c, u + v);
    RunAppend(c, {c.initialState}, u, v);
    RunEmbedding(a, c, k, {a.initialState}, {a.initialState + k}, v, s);
    ClosureExtensiveAndClosed(c, mid);
    RunMonotone(c, {a.initialState + k}, mid, v);
  }

  // ---------------------------------------------------------------------------
  // The layout of a construction over two operands
  // ---------------------------------------------------------------------------

  /**
   * A set of states of an automaton laid out as the union and concatenation
   * constructions lay theirs out: `left` in the first operand's states
   * 0 .. k-1, `right` shifted into the second's k .. k+m-1, the initial state
   * k+m when `atStart`, and the final state k+m+1 when `accepting`.
   */
  ghost function Layout(k: int, m: int, atStart: bool, left: set<int>, right: set<int>, accepting: bool): set<int>
  {
    (if atStart then {k + m} else {}) + left + ShiftStates(right, k) + (if accepting then {k + m + 1} else {})
  }

  /** Each part of a layout lands in the layout. */
  lemma LayoutHas(k: int, m: int, atStart: bool, left: set<int>, right: set<int>, accepting: bool, s: int)
    ensures s in left ==> s in Layout(k, m, atStart, left, right, accepting)
    ensures s - k in right ==> s in Layout(k, m, atStart, left, right, accepting)
    ensures atStart && s == k + m ==> s in Layout(k, m, atStart, left, right, accepting)
    ensures accepting && s == k + m + 1 ==> s in Layout(k, m, atStart, left, right, accepting)
  {
    ShiftStatesMember(right, k, s);
  }

  /** With both parts inside their operands' universes, a state's number says which part it comes from. */
  lemma LayoutRegions<S>(a: Automaton<S>, b: Automaton<S>, atStart: bool, left: set<int>, right: set<int>, accepting: bool, s: int)
    requires 0 <= a.numStates && 0 <= b.numStates
    requires AllInUniverse(a, left) && AllInUniverse(b, right)
    requires s in Layout(a.numStates, b.numStates, atStart, left, right, accepting)
    ensures 0 <= s < a.numStates ==> s in left
    ensures a.numStates <= s < a.numStates + b.numStates ==> s - a.numStates in right
    ensures s == a.numStates + b.numStates ==> atStart
    ensures s == a.numStates + b.numStates + 1 ==> accepting
  {
    ShiftStatesMember(right, a.numStates, s);
  }

  /** One labelled step from the layout stays within the layout of the operands' next parts. */
  lemma LayoutStep<S>(c: Automaton<S>, a: Automaton<S>, b: Automaton<S>, x: S,
                      atStart: bool, left: set<int>, right: set<int>, accepting: bool,
                      atStart': bool, left': set<int>, right': set<int>, accepting': bool)
    requires Edges(c.transitions) == Edges(a.transitions) + ShiftEdges(Edges(b.transitions), a.numStates)
    requires WellFormed(a) && WellFormed(b)
    requires AllInUniverse(a, left) && AllInUniverse(b, right)
    requires Step(a, left, x) <= left' && Step(b, right, x) <= right'
    ensures Step(c, Layout(a.numStates, b.numStates, atStart, left, right, accepting), x)
         <= Layout(a.numStates, b.numStates, atStart', left', right', accepting')
  {
    var here := Layout(a.numStates, b.numStates, atStart, left, right, accepting);
    forall t | t in Step(c, here, x) ensures t in Layout(a.numStates, b.numStates, atStart', left', right', accepting') {
      var s :| s in here && t in AdjacentStates(c, s, x);
      LayoutStepEdge(c, a, b, x, atStart, left, right, accepting, atStart', left', right', accepting', s, t);
    }
  }

  lemma LayoutStepEdge<S>(c: Automaton<S>, a: Automaton<S>, b: Automaton<S>, x: S,
                          atStart: bool, left: set<int>, right: set<int>, accepting: bool,
                          atStart': bool, left': set<int>, right': set<int>, accepting': bool, s: int, t: int)
    requires Edges(c.transitions) == Edges(a.transitions) + ShiftEdges(Edges(b.transitions), a.numStates)
    requires WellFormed(a) && WellFormed(b)
    requires AllInUniverse(a, left) && AllInUniverse(b, right)
    requires Step(a, left, x) <= left' && Step(b, right, x) <= right'
    requires s in Layout(a.numStates, b.numStates, atStart, left, right, accepting) && (s, x, t) in Edges(c.transitions)
    ensures t in Layout(a.numStates, b.numStates, atStart', left', right', accepting')
  {
    var k := a.numStates;
    LayoutHas(k, b.numStates, atStart', left', right', accepting', t);
    if (s, x, t) in Edges(a.transitions) {
      EdgeEndsInUniverse(a, s, x, t);
      LayoutRegions(a, b, atStart, left, right, accepting, s);
      assert t in AdjacentStates(a, s, x);
      assert t in Step(a, left, x);
    } else {
      var e :| e in Edges(b.transitions) && (s, x, t) == (e.0 + k, e.1, e.2 + k);
      EdgeEndsInUniverse(b, e.0, x, e.2);
      LayoutRegions(a, b, atStart, left, right, accepting, s);
      assert e.2 in AdjacentStates(b, e.0, x);
      assert e.2 in Step(b, right, x);
    }
  }

  /** A labelled step from what is occupied after `w` lands in what is occupied after `w + [x]`. */
  lemma StepIntoReach<S>(a: Automaton<S>, w: seq<S>, x: S)
    ensures Step(a, Reach(a, w), x) <= Reach(a, w + [x])
  {
    ReachSnoc(a, w, x);
    ClosureExtensiveAndClosed(a, Step(a, Reach(a, w), x));
  }

  /** A split point cuts `w` into two pieces that join back into `w`. */
  lemma SplitJoins<T>(w: seq<T>, j: int)
    requires 0 <= j <= |w|
    ensures w[..j] + w[j..] == w
  {
  }
}
