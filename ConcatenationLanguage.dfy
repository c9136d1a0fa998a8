/**
 * The language of the concatenation automaton: it accepts exactly the inputs
 * that split into a prefix the first operand accepts and a suffix the second
 * accepts. The proofs work on any automaton with the concatenation's numbers
 * and edge sets; `ConcatenationLanguage` instantiates them with the
 * automaton `Concatenation.Apply` builds.
 */
module ConcatenationLanguage {
  import opened Automata
  import opened CopyUtils
  import opened Runs
  import opened Concatenation
  import opened Factory

  /** `c` has the numbers and exactly the edges of the concatenation of `first` and `second`. */
  ghost predicate IsConcat<S>(c: Automaton<S>, first: Automaton<S>, second: Automaton<S>)
  {
    && c.numStates == first.numStates + second.numStates + 2
    && c.initialState == c.numStates - 2
    && c.finalStates == {c.numStates - 1}
    && Edges(c.transitions) == ConcatEdges(first, second)
    && EpsEdges(c.epsilonTransitions) == ConcatEpsEdges(first, second)
  }

  lemma ConcatenatedIsConcat<S>(first: Automaton<S>, second: Automaton<S>)
    ensures IsConcat(Concatenated(first, second), first, second)
  {
    ConcatenatedStates(first, second);
    ConcatenatedEdges(first, second);
  }

  /** The concatenation holds the first operand's edges as they are and the second's shifted by |A|. */
  lemma ConcatEmbedsOperands<S>(c: Automaton<S>, first: Automaton<S>, second: Automaton<S>)
    requires IsConcat(c, first, second)
    ensures Embeds(first, c, 0)
    ensures Embeds(second, c, first.numStates)
  {
    ShiftByZero(Edges(first.transitions), EpsEdges(first.epsilonTransitions));
  }

  /**
   * The three groups of wiring edges of a concatenation with `n` states:
   * into the first operand, from its finals to the second's initial state,
   * and from the second's finals to the final state.
   */
  ghost predicate ConcatWiredEdges<S>(eps: set<(int, int)>, first: Automaton<S>, second: Automaton<S>, n: int)
  {
    && (n - 2, first.initialState) in eps
    && (forall f | f in first.finalStates :: (f, second.initialState + first.numStates) in eps)
    && (forall f | f in second.finalStates :: (f + first.numStates, n - 1) in eps)
  }

  ghost predicate ConcatWired<S>(c: Automaton<S>, first: Automaton<S>, second: Automaton<S>)
  {
    && c.initialState == c.numStates - 2
    && c.finalStates == {c.numStates - 1}
    && ConcatWiredEdges(EpsEdges(c.epsilonTransitions), first, second, c.numStates)
  }

  lemma ConcatWiring<S>(c: Automaton<S>, first: Automaton<S>, second: Automaton<S>)
    requires IsConcat(c, first, second)
    ensures ConcatWired(c, first, second)
  {
    var eps := EpsEdges(c.epsilonTransitions);
    ConcatEpsParts(eps, first, second, c.numStates);
    ConcatWiringEdges(eps, first, second, c.numStates);
  }

  /** The wiring groups are among the concatenation's epsilon edges. */
  lemma ConcatEpsParts<S>(eps: set<(int, int)>, first: Automaton<S>, second: Automaton<S>, n: int)
    requires n == first.numStates + second.numStates + 2
    requires eps == ConcatEpsEdges(first, second)
    ensures (n - 2, first.initialState) in eps
    ensures EdgesInto(first.finalStates, second.initialState + first.numStates, 0) <= eps
    ensures EdgesInto(second.finalStates, n - 1, first.numStates) <= eps
  {
  }

  lemma ConcatWiringEdges<S>(eps: set<(int, int)>, first: Automaton<S>, second: Automaton<S>, n: int)
    requires (n - 2, first.initialState) in eps
    requires EdgesInto(first.finalStates, second.initialState + first.numStates, 0) <= eps
    requires EdgesInto(second.finalStates, n - 1, first.numStates) <= eps
    ensures ConcatWiredEdges(eps, first, second, n)
  {
    var k := first.numStates;
    forall f | f in first.finalStates ensures (f, second.initialState + k) in eps {
      EdgesIntoMember(first.finalStates, second.initialState + k, 0, f);
    }
    forall f | f in second.finalStates ensures (f + k, n - 1) in eps {
      EdgesIntoMember(second.finalStates, n - 1, k, f);
    }
  }

  // ---------------------------------------------------------------------------
  // Every split of an accepted prefix and an accepted suffix is accepted
  // ---------------------------------------------------------------------------

  /** After a prefix the first operand accepts, the concatenation occupies the second's initial state. */
  lemma ConcatFirstPart<S>(c: Automaton<S>, first: Automaton<S>, second: Automaton<S>, u: seq<S>)
    requires Embeds(first, c, 0) && ConcatWired(c, first, second) && Accepted(first, u)
    ensures second.initialState + first.numStates in Reach(c, u)
  {
    ghost var some := SomeMember(Reach(first, u) * first.finalStates);
    var f :| f in Reach(first, u) * first.finalStates;
    EpsEdgeInClosure(c, c.initialState, first.initialState);
    assert first.initialState + 0 in Reach(c, []);
    EmbeddedRunAfter(first, c, 0, [], u, f);
    assert [] + u == u;
    assert (f, second.initialState + first.numStates) in EpsEdges(c.epsilonTransitions);
    ReachFollowsEpsilon(c, u, f, second.initialState + first.numStates);
  }

  /** From the second operand's initial state, a suffix the second operand accepts leads to acceptance. */
  lemma ConcatSecondPart<S>(c: Automaton<S>, first: Automaton<S>, second: Automaton<S>, u: seq<S>, v: seq<S>)
    requires Embeds(second, c, first.numStates) && ConcatWired(c, first, second) && Accepted(second, v)
    requires second.initialState + first.numStates in Reach(c, u)
    ensures Accepted(c, u + v)
  {
    ghost var some := SomeMember(Reach(second, v) * second.finalStates);
    var g :| g in Reach(second, v) * second.finalStates;
    ConcatSecondPartFrom(c, first, second, u, v, g);
  }

  lemma ConcatSecondPartFrom<S>(c: Automaton<S>, first: Automaton<S>, second: Automaton<S>, u: seq<S>, v: seq<S>, g: int)
    requires Embeds(second, c, first.numStates) && ConcatWired(c, first, second)
    requires second.initialState + first.numStates in Reach(c, u)
    requires g in Reach(second, v) && g in second.finalStates
    ensures Accepted(c, u + v)
  {
    EmbeddedRunAfter(second, c, first.numStates, u, v, g);
    assert (g + first.numStates, c.numStates - 1) in EpsEdges(c.epsilonTransitions);
    FinalThroughEdge(c, u + v, g + first.numStates);
  }

  /** A prefix accepted by the first operand followed by a suffix accepted by the second is accepted. */
  lemma ConcatAcceptsSplit<S>(c: Automaton<S>, first: Automaton<S>, second: Automaton<S>, u: seq<S>, v: seq<S>)
    requires IsConcat(c, first, second) && Accepted(first, u) && Accepted(second, v)
    ensures Accepted(c, u + v)
  {
    ConcatEmbedsOperands(c, first, second);
    ConcatWiring(c, first, second);
    ConcatFirstPart(c, first, second, u);
    ConcatSecondPart(c, first, second, u, v);
  }

  // ---------------------------------------------------------------------------
  // Nothing else: an upper bound on what the concatenation occupies
  // ---------------------------------------------------------------------------

  /**
   * The second operand's states occupied after `w`: those its run reaches on
   * some suffix `w[j..]` whose prefix `w[..j]` the first operand accepts.
   */
  ghost function SecondPart<S>(first: Automaton<S>, second: Automaton<S>, w: seq<S>): set<int>
  {
    set j, s | 0 <= j <= |w| && Accepted(first, w[..j]) && s in Run(second, {second.initialState}, w[j..]) :: s
  }

  /**
   * What the concatenation can occupy after `w`: its initial state before
   * any input, the first operand's occupied states as they are, the second
   * part shifted by |A|, and its final state once the second part holds a
   * final state of the second operand.
   */
  ghost function ConcatBound<S>(first: Automaton<S>, second: Automaton<S>, w: seq<S>): set<int>
  {
    var part := SecondPart(first, second, w);
    Layout(first.numStates, second.numStates, w == [], Reach(first, w), part, part * second.finalStates != {})
  }

  lemma SecondPartInUniverse<S>(first: Automaton<S>, second: Automaton<S>, w: seq<S>)
    requires WellFormed(second)
    ensures AllInUniverse(second, SecondPart(first, second, w))
  {
    forall s | s in SecondPart(first, second, w) ensures InUniverse(s, second.numStates) {
      var j :| 0 <= j <= |w| && Accepted(first, w[..j]) && s in Run(second, {second.initialState}, w[j..]);
      RunInUniverse(second, {second.initialState}, w[j..]);
    }
  }

  /** Which part of the bound a state comes from is decided by its number. */
  lemma ConcatBoundMember<S>(first: Automaton<S>, second: Automaton<S>, w: seq<S>, s: int)
    requires WellFormed(first) && WellFormed(second)
    requires s in ConcatBound(first, second, w)
    ensures 0 <= s < first.numStates ==> s in Reach(first, w)
    ensures first.numStates <= s < first.numStates + second.numStates ==> s - first.numStates in SecondPart(first, second, w)
    ensures s == first.numStates + second.numStates ==> w == []
    ensures s == first.numStates + second.numStates + 1 ==> SecondPart(first, second, w) * second.finalStates != {}
  {
    var part := SecondPart(first, second, w);
    ReachInUniverse(first, w);
    SecondPartInUniverse(first, second, w);
    LayoutRegions(first, second, w == [], Reach(first, w), part, part * second.finalStates != {}, s);
  }

  /** The concatenation's epsilon edges, case by case. */
  lemma ConcatEpsCases<S>(eps: set<(int, int)>, first: Automaton<S>, second: Automaton<S>, s: int, t: int)
    requires eps == ConcatEpsEdges(first, second) && (s, t) in eps
    ensures var k := first.numStates; var n := first.numStates + second.numStates + 2;
      || (s == n - 2 && t == first.initialState)
      || (s in first.finalStates && t == second.initialState + k)
      || (s, t) in EpsEdges(first.epsilonTransitions)
      || (s - k in second.finalStates && t == n - 1)
      || (s - k, t - k) in EpsEdges(second.epsilonTransitions)
  {
    var k := first.numStates;
    if (s, t) in ShiftEpsEdges(EpsEdges(second.epsilonTransitions), k) {
      var e :| e in EpsEdges(second.epsilonTransitions) && (s, t) == (e.0 + k, e.1 + k);
      assert (s - k, t - k) == e;
    }
  }

  /** Once the first operand accepts `w`, the second operand's initial state joins the second part. */
  lemma SecondPartStarts<S>(first: Automaton<S>, second: Automaton<S>, w: seq<S>)
    requires Accepted(first, w)
    ensures second.initialState in SecondPart(first, second, w)
  {
    assert w[..|w|] == w && w[|w|..] == [];
    ClosureExtensiveAndClosed(second, {second.initialState});
    assert second.initialState in Run(second, {second.initialState}, w[|w|..]);
  }

  /** An epsilon edge of the second operand keeps the second part. */
  lemma SecondPartClosed<S>(first: Automaton<S>, second: Automaton<S>, w: seq<S>, s: int, t: int)
    requires s in SecondPart(first, second, w) && (s, t) in EpsEdges(second.epsilonTransitions)
    ensures t in SecondPart(first, second, w)
  {
    var j :| 0 <= j <= |w| && Accepted(first, w[..j]) && s in Run(second, {second.initialState}, w[j..]);
    RunFollowsEpsilon(second, {second.initialState}, w[j..], s, t);
  }

  /** A labelled edge of the second operand keeps the second part moving with the input. */
  lemma SecondPartStep<S>(first: Automaton<S>, second: Automaton<S>, w: seq<S>, x: S, s: int, t: int)
    requires s in SecondPart(first, second, w) && (s, x, t) in Edges(second.transitions)
    ensures t in SecondPart(first, second, w + [x])
  {
    var j :| 0 <= j <= |w| && Accepted(first, w[..j]) && s in Run(second, {second.initialState}, w[j..]);
    var run := Run(second, {second.initialState}, w[j..]);
    assert t in AdjacentStates(second, s, x);
    assert t in Step(second, run, x);
    RunSnoc(second, {second.initialState}, w[j..], x);
    ClosureExtensiveAndClosed(second, Step(second, run, x));
    assert (w + [x])[..j] == w[..j] && (w + [x])[j..] == w[j..] + [x];
    assert 0 <= j <= |w + [x]| && Accepted(first, (w + [x])[..j]);
    assert t in Run(second, {second.initialState}, (w + [x])[j..]);
  }

  /**
   * A layout is epsilon-closed in the concatenation when its parts are closed
   * in their operands, the first part holds A's initial state at the start,
   * the second part holds B's initial state once the first part holds a final
   * state of A, and the layout is accepting once the second part holds a final
   * state of B.
   */
  ghost predicate ConcatClosedParts<S>(first: Automaton<S>, second: Automaton<S>,
                                       atStart: bool, left: set<int>, right: set<int>, accepting: bool)
  {
    && AllInUniverse(first, left) && AllInUniverse(second, right)
    && EpsilonClosed(first, left) && EpsilonClosed(second, right)
    && (atStart ==> first.initialState in left)
    && (left * first.finalStates != {} ==> second.initialState in right)
    && (right * second.finalStates != {} ==> accepting)
  }

  lemma ConcatLayoutClosed<S>(c: Automaton<S>, first: Automaton<S>, second: Automaton<S>,
                              atStart: bool, left: set<int>, right: set<int>, accepting: bool)
    requires IsConcat(c, first, second) && WellFormed(first) && WellFormed(second)
    requires ConcatClosedParts(first, second, atStart, left, right, accepting)
    ensures EpsilonClosed(c, Layout(first.numStates, second.numStates, atStart, left, right, accepting))
  {
    var here := Layout(first.numStates, second.numStates, atStart, left, right, accepting);
    forall s, t | s in here && t in EpsilonSuccessors(c, s) ensures t in here {
      ConcatEpsCases(EpsEdges(c.epsilonTransitions), first, second, s, t);
      ConcatLayoutEpsEdge(first, second, atStart, left, right, accepting, s, t);
    }
  }

  lemma ConcatLayoutEpsEdge<S>(first: Automaton<S>, second: Automaton<S>,
                               atStart: bool, left: set<int>, right: set<int>, accepting: bool, s: int, t: int)
    requires WellFormed(first) && WellFormed(second)
    requires ConcatClosedParts(first, second, atStart, left, right, accepting)
    requires s in Layout(first.numStates, second.numStates, atStart, left, right, accepting)
    requires var k := first.numStates; var n := first.numStates + second.numStates + 2;
      || (s == n - 2 && t == first.initialState)
      || (s in first.finalStates && t == second.initialState + k)
      || (s, t) in EpsEdges(first.epsilonTransitions)
      || (s - k in second.finalStates && t == n - 1)
      || (s - k, t - k) in EpsEdges(second.epsilonTransitions)
    ensures t in Layout(first.numStates, second.numStates, atStart, left, right, accepting)
  {
    var k := first.numStates;
    var n := first.numStates + second.numStates + 2;
    LayoutRegions(first, second, atStart, left, right, accepting, s);
    LayoutHas(k, second.numStates, atStart, left, right, accepting, t);
    if (s, t) in EpsEdges(first.epsilonTransitions) {
      EpsEdgeEndsInUniverse(first, s, t);
      assert t in EpsilonSuccessors(first, s);
    } else if (s - k, t - k) in EpsEdges(second.epsilonTransitions) {
      EpsEdgeEndsInUniverse(second, s - k, t - k);
      assert t - k in EpsilonSuccessors(second, s - k);
    } else if s in first.finalStates && t == second.initialState + k {
      assert InUniverse(s, k);
      assert s in left * first.finalStates;
    } else if s - k in second.finalStates && t == n - 1 {
      assert InUniverse(s - k, second.numStates);
      assert s - k in right * second.finalStates;
    }
  }

  /** The second part is epsilon-closed in the second operand. */
  lemma SecondPartClosedAll<S>(first: Automaton<S>, second: Automaton<S>, w: seq<S>)
    ensures EpsilonClosed(second, SecondPart(first, second, w))
  {
    forall s, t | s in SecondPart(first, second, w) && t in EpsilonSuccessors(second, s)
      ensures t in SecondPart(first, second, w)
    {
      SecondPartClosed(first, second, w, s, t);
    }
  }

  /** The second part moves with the input along the second operand's labelled edges. */
  lemma SecondPartSteps<S>(first: Automaton<S>, second: Automaton<S>, w: seq<S>, x: S)
    ensures Step(second, SecondPart(first, second, w), x) <= SecondPart(first, second, w + [x])
  {
    forall t | t in Step(second, SecondPart(first, second, w), x) ensures t in SecondPart(first, second, w + [x]) {
      var s :| s in SecondPart(first, second, w) && t in AdjacentStates(second, s, x);
      SecondPartStep(first, second, w, x, s, t);
    }
  }

  /** The bound is epsilon-closed in the concatenation. */
  lemma ConcatBoundClosed<S>(c: Automaton<S>, first: Automaton<S>, second: Automaton<S>, w: seq<S>)
    requires IsConcat(c, first, second) && WellFormed(first) && WellFormed(second)
    ensures EpsilonClosed(c, ConcatBound(first, second, w))
  {
    var part := SecondPart(first, second, w);
    ReachInUniverse(first, w);
    SecondPartInUniverse(first, second, w);
    ReachClosed(first, w);
    SecondPartClosedAll(first, second, w);
    if w == [] {
      InitialReached(first);
    }
    if Accepted(first, w) {
      SecondPartStarts(first, second, w);
    }
    ConcatLayoutClosed(c, first, second, w == [], Reach(first, w), part, part * second.finalStates != {});
  }

  /** One labelled step from the bound after `w` stays within the bound after `w + [x]`. */
  lemma ConcatBoundStep<S>(c: Automaton<S>, first: Automaton<S>, second: Automaton<S>, w: seq<S>, x: S)
    requires IsConcat(c, first, second) && WellFormed(first) && WellFormed(second)
    ensures Step(c, ConcatBound(first, second, w), x) <= ConcatBound(first, second, w + [x])
  {
    var part := SecondPart(first, second, w);
    var part' := SecondPart(first, second, w + [x]);
    ReachInUniverse(first, w);
    SecondPartInUniverse(first, second, w);
    StepIntoReach(first, w, x);
    SecondPartSteps(first, second, w, x);
    LayoutStep(c, first, second, x,
               w == [], Reach(first, w), part, part * second.finalStates != {},
               w + [x] == [], Reach(first, w + [x]), part', part' * second.finalStates != {});
  }

  /** The concatenation never occupies a state outside the bound. */
  lemma {:induction false} ConcatReachBound<S>(c: Automaton<S>, first: Automaton<S>, second: Automaton<S>, w: seq<S>)
    requires IsConcat(c, first, second) && WellFormed(first) && WellFormed(second)
    ensures Reach(c, w) <= ConcatBound(first, second, w)
    decreases |w|
  {
    ConcatBoundClosed(c, first, second, w);
    if w == [] {
      var part := SecondPart(first, second, w);
      LayoutHas(first.numStates, second.numStates, true, Reach(first, w), part, part * second.finalStates != {}, c.initialState);
      ClosureLeast(c, {c.initialState}, ConcatBound(first, second, w));
    } else {
      var w' := w[..|w| - 1];
      var x := w[|w| - 1];
      assert w == w' + [x];
      ConcatReachBound(c, first, second, w');
      ReachSnoc(c, w', x);
      StepMonotone(c, Reach(c, w'), ConcatBound(first, second, w'), x);
      ConcatBoundStep(c, first, second, w', x);
      ClosureLeast(c, Step(c, Reach(c, w'), x), ConcatBound(first, second, w));
    }
  }

  /** Whatever the concatenation accepts splits into an accepted prefix and an accepted suffix. */
  lemma ConcatAcceptsOnlySplits<S>(c: Automaton<S>, first: Automaton<S>, second: Automaton<S>, w: seq<S>)
    requires IsConcat(c, first, second) && WellFormed(first) && WellFormed(second)
    requires Accepted(c, w)
    ensures exists j :: 0 <= j <= |w| && Accepted(first, w[..j]) && Accepted(second, w[j..])
  {
    var f :| f in Reach(c, w) * c.finalStates;
    ConcatReachBound(c, first, second, w);
    assert f == c.numStates - 1 && f in ConcatBound(first, second, w);
    ConcatBoundMember(first, second, w, f);
    var g :| g in SecondPart(first, second, w) * second.finalStates;
    var j :| 0 <= j <= |w| && Accepted(first, w[..j]) && g in Run(second, {second.initialState}, w[j..]);
    ReachIsRun(second, w[j..]);
    assert g in Reach(second, w[j..]) * second.finalStates;
  }

  /**
   * The concatenation of well-formed automata accepts exactly the inputs
   * that split into a prefix the first accepts and a suffix the second
   * accepts.
   */
  lemma ConcatenationLanguage<S>(first: Automaton<S>, second: Automaton<S>, w: seq<S>)
    requires WellFormed(first) && WellFormed(second)
    ensures Accepted(Concatenated(first, second), w)
        <==> exists j :: 0 <= j <= |w| && Accepted(first, w[..j]) && Accepted(second, w[j..])
  {
    var c := Concatenated(first, second);
    ConcatenatedIsConcat(first, second);
    if Accepted(c, w) {
      ConcatAcceptsOnlySplits(c, first, second, w);
    }
    if exists j :: 0 <= j <= |w| && Accepted(first, w[..j]) && Accepted(second, w[j..]) {
      var j :| 0 <= j <= |w| && Accepted(first, w[..j]) && Accepted(second, w[j..]);
      SplitJoins(w, j);
      ConcatAcceptsSplit(c, first, second, w[..j], w[j..]);
    }
  }

  /** The concatenation of the one-symbol automata for `a` and `b` accepts exactly [a, b]. */
  lemma ConcatOfTwoSymbols<S>(a: S, b: S, w: seq<S>)
    ensures Accepted(Concatenated(SingleSymbol(a), SingleSymbol(b)), w) <==> w == [a, b]
  {
    ConcatenationLanguage(SingleSymbol(a), SingleSymbol(b), w);
    if exists j :: 0 <= j <= |w| && Accepted(SingleSymbol(a), w[..j]) && Accepted(SingleSymbol(b), w[j..]) {
      var j :| 0 <= j <= |w| && Accepted(SingleSymbol(a), w[..j]) && Accepted(SingleSymbol(b), w[j..]);
      OnlySplitOfTwoSymbols(a, b, w, j);
    }
    if w == [a, b] {
      SplitOfTwoSymbols(a, b);
    }
  }

  lemma OnlySplitOfTwoSymbols<S>(a: S, b: S, w: seq<S>, j: int)
    requires 0 <= j <= |w| && Accepted(SingleSymbol(a), w[..j]) && Accepted(SingleSymbol(b), w[j..])
    ensures w == [a, b]
  {
    SingleSymbolLanguage(a, w[..j]);
    SingleSymbolLanguage(b, w[j..]);
    assert w == w[..j] + w[j..];
  }

  lemma SplitOfTwoSymbols<S>(a: S, b: S)
    ensures Accepted(SingleSymbol(a), [a, b][..1]) && Accepted(SingleSymbol(b), [a, b][1..])
  {
    assert [a, b][..1] == [a] && [a, b][1..] == [b];
    SingleSymbolLanguage(a, [a]);
    SingleSymbolLanguage(b, [b]);
  }
}
