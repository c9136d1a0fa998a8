/**
 * The language of the union automaton: it accepts exactly the inputs that
 * either operand accepts. The proofs work on any automaton with the union's
 * numbers and edge sets, and `UnionLanguage` instantiates them with the
 * automaton `Union.Apply` builds.
 */
module UnionLanguage {
  import opened Automata
  import opened CopyUtils
  import opened Runs
  import opened Union
  import opened Factory

  /** `u` has the numbers and exactly the edges of the union of `first` and `second`. */
  ghost predicate IsUnion<S>(u: Automaton<S>, first: Automaton<S>, second: Automaton<S>)
  {
    && u.numStates == first.numStates + second.numStates + 2
    && u.initialState == u.numStates - 2
    && u.finalStates == {u.numStates - 1}
    && Edges(u.transitions) == UnionEdges(first, second)
    && EpsEdges(u.epsilonTransitions) == UnionEpsEdges(first, second)
  }

  lemma UnitedIsUnion<S>(first: Automaton<S>, second: Automaton<S>)
    ensures IsUnion(United(first, second), first, second)
  {
    UnitedStates(first, second);
    UnitedEdges(first, second);
  }

  /** The union holds the first operand's edges as they are and the second's shifted by |A|. */
  lemma UnionEmbedsOperands<S>(u: Automaton<S>, first: Automaton<S>, second: Automaton<S>)
    requires IsUnion(u, first, second)
    ensures Embeds(first, u, 0)
    ensures Embeds(second, u, first.numStates)
  {
    ShiftByZero(Edges(first.transitions), EpsEdges(first.epsilonTransitions));
  }

  /** The union enters each operand from its initial state and leaves it from the operand's finals. */
  lemma UnionWiring<S>(u: Automaton<S>, first: Automaton<S>, second: Automaton<S>)
    requires IsUnion(u, first, second)
    ensures Wired(first, u, 0) && Wired(second, u, first.numStates)
  {
    UnionWiringEdges(EpsEdges(u.epsilonTransitions), first, second, u.numStates);
  }

  lemma UnionWiringEdges<S>(eps: set<(int, int)>, first: Automaton<S>, second: Automaton<S>, n: int)
    requires n == first.numStates + second.numStates + 2
    requires eps == UnionEpsEdges(first, second)
    ensures (n - 2, first.initialState + 0) in eps
    ensures (n - 2, second.initialState + first.numStates) in eps
    ensures forall f | f in first.finalStates :: (f + 0, n - 1) in eps
    ensures forall f | f in second.finalStates :: (f + first.numStates, n - 1) in eps
  {
    forall f | f in first.finalStates ensures (f + 0, n - 1) in eps {
      assert (f + 0, n - 1) in EdgesInto(first.finalStates, n - 1, 0);
    }
    forall f | f in second.finalStates ensures (f + first.numStates, n - 1) in eps {
      assert (f + first.numStates, n - 1) in EdgesInto(second.finalStates, n - 1, first.numStates);
    }
  }

  /** Whatever the first operand accepts, the union accepts. */
  lemma UnionAcceptsFirst<S>(u: Automaton<S>, first: Automaton<S>, second: Automaton<S>, w: seq<S>)
    requires IsUnion(u, first, second) && Accepted(first, w)
    ensures Accepted(u, w)
  {
    UnionEmbedsOperands(u, first, second);
    UnionWiring(u, first, second);
    AcceptedThroughOperand(first, u, 0, w);
  }

  /** Whatever the second operand accepts, the union accepts. */
  lemma UnionAcceptsSecond<S>(u: Automaton<S>, first: Automaton<S>, second: Automaton<S>, w: seq<S>)
    requires IsUnion(u, first, second) && Accepted(second, w)
    ensures Accepted(u, w)
  {
    UnionEmbedsOperands(u, first, second);
    UnionWiring(u, first, second);
    AcceptedThroughOperand(second, u, first.numStates, w);
  }

  // ---------------------------------------------------------------------------
  // Nothing else: an upper bound on what the union occupies
  // ---------------------------------------------------------------------------

  /**
   * What the union can occupy after `w`: its initial state before any input,
   * the first operand's occupied states as they are, the second's shifted,
   * and its final state once either operand accepts.
   */
  ghost function UnionBound<S>(first: Automaton<S>, second: Automaton<S>, w: seq<S>): set<int>
  {
    Layout(first.numStates, second.numStates, w == [], Reach(first, w), Reach(second, w),
           Accepted(first, w) || Accepted(second, w))
  }

  /** Which part of the bound a state comes from is decided by its number. */
  lemma UnionBoundMember<S>(first: Automaton<S>, second: Automaton<S>, w: seq<S>, s: int)
    requires WellFormed(first) && WellFormed(second)
    requires s in UnionBound(first, second, w)
    ensures s == first.numStates + second.numStates + 1 ==> Accepted(first, w) || Accepted(second, w)
  {
    ReachInUniverse(first, w);
    ReachInUniverse(second, w);
    LayoutRegions(first, second, w == [], Reach(first, w), Reach(second, w), Accepted(first, w) || Accepted(second, w), s);
  }

  /** The union's epsilon edges, case by case. */
  lemma UnionEpsCases<S>(eps: set<(int, int)>, first: Automaton<S>, second: Automaton<S>, s: int, t: int)
    requires eps == UnionEpsEdges(first, second) && (s, t) in eps
    ensures var k := first.numStates; var n := first.numStates + second.numStates + 2;
      || (s == n - 2 && (t == first.initialState || t == second.initialState + k))
      || (s in first.finalStates && t == n - 1)
      || (s, t) in EpsEdges(first.epsilonTransitions)
      || (s - k in second.finalStates && t == n - 1)
      || (s - k, t - k) in EpsEdges(second.epsilonTransitions)
  {
    var k := first.numStates;
    if (s, t) in ShiftEpsEdges(EpsEdges(second.epsilonTransitions), k) {
      var e :| e in EpsEdges(second.epsilonTransitions) && (s, t) == (e.0 + k, e.1 + k);
      assert (s - k, t - k) == e;
    }
  }

  /**
   * A layout is epsilon-closed in the union when its parts are closed in
   * their operands, both hold their operand's initial state at the start, and
   * the layout is accepting once either part holds a final state.
   */
  ghost predicate UnionClosedParts<S>(first: Automaton<S>, second: Automaton<S>,
                                      atStart: bool, left: set<int>, right: set<int>, accepting: bool)
  {
    && AllInUniverse(first, left) && AllInUniverse(second, right)
    && EpsilonClosed(first, left) && EpsilonClosed(second, right)
    && (atStart ==> first.initialState in left && second.initialState in right)
    && (left * first.finalStates != {} ==> accepting)
    && (right * second.finalStates != {} ==> accepting)
  }

  lemma UnionLayoutClosed<S>(u: Automaton<S>, first: Automaton<S>, second: Automaton<S>,
                             atStart: bool, left: set<int>, right: set<int>, accepting: bool)
    requires IsUnion(u, first, second) && WellFormed(first) && WellFormed(second)
    requires UnionClosedParts(first, second, atStart, left, right, accepting)
    ensures EpsilonClosed(u, Layout(first.numStates, second.numStates, atStart, left, right, accepting))
  {
    var here := Layout(first.numStates, second.numStates, atStart, left, right, accepting);
    forall s, t | s in here && t in EpsilonSuccessors(u, s) ensures t in here {
      UnionEpsCases(EpsEdges(u.epsilonTransitions), first, second, s, t);
      UnionLayoutEpsEdge(first, second, atStart, left, right, accepting, s, t);
    }
  }

  lemma UnionLayoutEpsEdge<S>(first: Automaton<S>, second: Automaton<S>,
                              atStart: bool, left: set<int>, right: set<int>, accepting: bool, s: int, t: int)
    requires WellFormed(first) && WellFormed(second)
    requires UnionClosedParts(first, second, atStart, left, right, accepting)
    requires s in Layout(first.numStates, second.numStates, atStart, left, right, accepting)
    requires var k := first.numStates; var n := first.numStates + second.numStates + 2;
      || (s == n - 2 && (t == first.initialState || t == second.initialState + k))
      || (s in first.finalStates && t == n - 1)
      || (s, t) in EpsEdges(first.epsilonTransitions)
      || (s - k in second.finalStates && t == n - 1)
      || (s - k, t - k) in EpsEdges(second.epsilonTransitions)
    ensures t in Layout(first.numStates, second.numStates, atStart, left, right, accepting)
  {
    var k := first.numStates;
    var n := first.numStates + second.numStates + 2;
    LayoutRegions(first, second, atStart, left, right, accepting, s);
    LayoutHas(k, second.numStates, atStart, left, right, accepting, t);
    if (s, t) in EpsEdges(first.epsilonTransitions) {
      EpsEdgeEndsInUniverse(first, s, t);
      assert t in EpsilonSuccessors(first, s);
    } else if (s - k, t - k) in EpsEdges(second.epsilonTransitions) {
      EpsEdgeEndsInUniverse(second, s - k, t - k);
      assert t - k in EpsilonSuccessors(second, s - k);
    } else if s in first.finalStates && t == n - 1 {
      assert InUniverse(s, k);
      assert s in left * first.finalStates;
    } else if s - k in second.finalStates && t == n - 1 {
      assert InUniverse(s - k, second.numStates);
      assert s - k in right * second.finalStates;
    }
  }

  /** The bound is epsilon-closed in the union. */
  lemma UnionBoundClosed<S>(u: Automaton<S>, first: Automaton<S>, second: Automaton<S>, w: seq<S>)
    requires IsUnion(u, first, second) && WellFormed(first) && WellFormed(second)
    ensures EpsilonClosed(u, UnionBound(first, second, w))
  {
    ReachInUniverse(first, w);
    ReachInUniverse(second, w);
    ReachClosed(first, w);
    ReachClosed(second, w);
    if w == [] {
      InitialReached(first);
      InitialReached(second);
    }
    UnionLayoutClosed(u, first, second, w == [], Reach(first, w), Reach(second, w), Accepted(first, w) || Accepted(second, w));
  }

  /** One labelled step from the bound after `w` stays within the bound after `w + [x]`. */
  lemma UnionBoundStep<S>(u: Automaton<S>, first: Automaton<S>, second: Automaton<S>, w: seq<S>, x: S)
    requires IsUnion(u, first, second) && WellFormed(first) && WellFormed(second)
    ensures Step(u, UnionBound(first, second, w), x) <= UnionBound(first, second, w + [x])
  {
    ReachInUniverse(first, w);
    ReachInUniverse(second, w);
    StepIntoReach(first, w, x);
    StepIntoReach(second, w, x);
    LayoutStep(u, first, second, x,
               w == [], Reach(first, w), Reach(second, w), Accepted(first, w) || Accepted(second, w),
               w + [x] == [], Reach(first, w + [x]), Reach(second, w + [x]), Accepted(first, w + [x]) || Accepted(second, w + [x]));
  }

  /** The union never occupies a state outside the bound. */
  lemma {:induction false} UnionReachBound<S>(u: Automaton<S>, first: Automaton<S>, second: Automaton<S>, w: seq<S>)
    requires IsUnion(u, first, second) && WellFormed(first) && WellFormed(second)
    ensures Reach(u, w) <= UnionBound(first, second, w)
    decreases |w|
  {
    UnionBoundClosed(u, first, second, w);
    if w == [] {
      LayoutHas(first.numStates, second.numStates, true, Reach(first, w), Reach(second, w),
                Accepted(first, w) || Accepted(second, w), u.initialState);
      ClosureLeast(u, {u.initialState}, UnionBound(first, second, w));
    } else {
      var w' := w[..|w| - 1];
      var x := w[|w| - 1];
      assert w == w' + [x];
      UnionReachBound(u, first, second, w');
      ReachSnoc(u, w', x);
      StepMonotone(u, Reach(u, w'), UnionBound(first, second, w'), x);
      UnionBoundStep(u, first, second, w', x);
      ClosureLeast(u, Step(u, Reach(u, w'), x), UnionBound(first, second, w));
    }
  }

  /** The union accepts only what one of its operands accepts. */
  lemma UnionAcceptsOnlyOperands<S>(u: Automaton<S>, first: Automaton<S>, second: Automaton<S>, w: seq<S>)
    requires IsUnion(u, first, second) && WellFormed(first) && WellFormed(second)
    requires Accepted(u, w)
    ensures Accepted(first, w) || Accepted(second, w)
  {
    var f :| f in Reach(u, w) * u.finalStates;
    UnionReachBound(u, first, second, w);
    assert f == u.numStates - 1 && f in UnionBound(first, second, w);
    UnionBoundMember(first, second, w, f);
  }

  /** The union of well-formed automata accepts exactly the inputs either operand accepts. */
  lemma UnionLanguage<S>(first: Automaton<S>, second: Automaton<S>, w: seq<S>)
    requires WellFormed(first) && WellFormed(second)
    ensures Accepted(United(first, second), w) <==> Accepted(first, w) || Accepted(second, w)
  {
    var u := United(first, second);
    UnitedIsUnion(first, second);
    if Accepted(u, w) {
      UnionAcceptsOnlyOperands(u, first, second, w);
    }
    if Accepted(first, w) {
      UnionAcceptsFirst(u, first, second, w);
    } else if Accepted(second, w) {
      UnionAcceptsSecond(u, first, second, w);
    }
  }

  /** The union of the one-symbol automata for `a` and `b` accepts exactly [a] and [b]. */
  lemma UnionOfTwoSymbols<S>(a: S, b: S, w: seq<S>)
    ensures Accepted(United(SingleSymbol(a), SingleSymbol(b)), w) <==> w == [a] || w == [b]
  {
    UnionLanguage(SingleSymbol(a), SingleSymbol(b), w);
    SingleSymbolLanguage(a, w);
    SingleSymbolLanguage(b, w);
  }
}
