/**
 * The language of the star automaton: it accepts exactly the inputs made of
 * zero or more blocks the operand accepts. `InStar` is the reference
 * definition (the empty input, or a word of the star followed by a non-empty
 * block the operand accepts), `StarWordsAreFlattenings` relates it to lists
 * of blocks, and `StarLanguage` proves that the automaton `KleeneStar.Apply`
 * builds accepts exactly the words of `InStar`.
 */
module KleeneStarLanguage {
  import opened Automata
  import opened CopyUtils
  import opened Runs
  import opened KleeneStar

  /** `w` is empty, or a word of the star followed by a non-empty block `a` accepts. */
  ghost predicate InStar<S>(a: Automaton<S>, w: seq<S>)
    decreases |w|
  {
    w == [] || exists j | 0 <= j < |w| :: InStar(a, w[..j]) && Accepted(a, w[j..])
  }

  /** The blocks of `ws` written one after another. */
  function Flatten<T>(ws: seq<seq<T>>): (r: seq<T>)
    ensures ws == [] ==> r == []
    decreases |ws|
  {
    if ws == [] then [] else Flatten(ws[..|ws| - 1]) + ws[|ws| - 1]
  }

  ghost predicate AllAccepted<S>(a: Automaton<S>, ws: seq<seq<S>>)
  {
    forall i | 0 <= i < |ws| :: Accepted(a, ws[i])
  }

  /** `c` has the numbers and exactly the edges of the star of `a`. */
  ghost predicate IsStar<S>(c: Automaton<S>, a: Automaton<S>)
  {
    && c.numStates == a.numStates + 2
    && c.initialState == c.numStates - 2
    && c.finalStates == {c.numStates - 1}
    && Edges(c.transitions) == Edges(a.transitions)
    && EpsEdges(c.epsilonTransitions) == StarEpsEdges(a)
  }

  lemma StarredIsStar<S>(a: Automaton<S>)
    ensures IsStar(Starred(a), a)
  {
    StarredStates(a);
    StarredEdges(a);
  }

  /** The star keeps the operand's edges as they are. */
  lemma StarEmbedsOperand<S>(c: Automaton<S>, a: Automaton<S>)
    requires IsStar(c, a)
    ensures Embeds(a, c, 0)
  {
    ShiftByZero(Edges(a.transitions), EpsEdges(a.epsilonTransitions));
  }

  /**
   * The wiring edges of a star with `n` states: out of the fresh initial state
   * to the fresh final state and into the operand, and out of every final of
   * the operand to the fresh final state and back to the operand's start.
   */
  ghost predicate StarWiredEdges<S>(eps: set<(int, int)>, a: Automaton<S>, n: int)
  {
    && (n - 2, n - 1) in eps
    && (n - 2, a.initialState) in eps
    && (forall f | f in a.finalStates :: (f, n - 1) in eps)
    && (forall f | f in a.finalStates :: (f, a.initialState) in eps)
  }

  ghost predicate StarWired<S>(c: Automaton<S>, a: Automaton<S>)
  {
    && c.initialState == c.numStates - 2
    && c.finalStates == {c.numStates - 1}
    && StarWiredEdges(EpsEdges(c.epsilonTransitions), a, c.numStates)
  }

  lemma StarWiring<S>(c: Automaton<S>, a: Automaton<S>)
    requires IsStar(c, a)
    ensures StarWired(c, a)
  {
    var eps := EpsEdges(c.epsilonTransitions);
    StarEpsParts(eps, a, c.numStates);
    StarWiringEdges(eps, a, c.numStates);
  }

  /** The wiring groups are among the star's epsilon edges. */
  lemma StarEpsParts<S>(eps: set<(int, int)>, a: Automaton<S>, n: int)
    requires n == a.numStates + 2
    requires eps == StarEpsEdges(a)
    ensures (n - 2, n - 1) in eps && (n - 2, a.initialState) in eps
    ensures EdgesInto(a.finalStates, n - 1, 0) <= eps
    ensures EdgesInto(a.finalStates, a.initialState, 0) <= eps
  {
  }

  lemma StarWiringEdges<S>(eps: set<(int, int)>, a: Automaton<S>, n: int)
    requires (n - 2, n - 1) in eps && (n - 2, a.initialState) in eps
    requires EdgesInto(a.finalStates, n - 1, 0) <= eps
    requires EdgesInto(a.finalStates, a.initialState, 0) <= eps
    ensures StarWiredEdges(eps, a, n)
  {
    forall f | f in a.finalStates ensures (f, n - 1) in eps && (f, a.initialState) in eps {
      EdgesIntoMember(a.finalStates, n - 1, 0, f);
      EdgesIntoMember(a.finalStates, a.initialState, 0, f);
    }
  }

  // ---------------------------------------------------------------------------
  // Every word of the star is accepted
  // ---------------------------------------------------------------------------

  /**
   * After any word of the star, the star occupies both its final state and
   * the operand's initial state, ready for the next block.
   */
  lemma {:induction false} StarReachesAfterWords<S>(c: Automaton<S>, a: Automaton<S>, u: seq<S>)
    requires Embeds(a, c, 0) && StarWired(c, a) && InStar(a, u)
    ensures a.initialState in Reach(c, u) && c.numStates - 1 in Reach(c, u)
    decreases |u|
  {
    if u == [] {
      EpsEdgeInClosure(c, c.initialState, a.initialState);
      EpsEdgeInClosure(c, c.initialState, c.numStates - 1);
    } else {
      var j :| 0 <= j < |u| && InStar(a, u[..j]) && Accepted(a, u[j..]);
      StarReachesAfterWords(c, a, u[..j]);
      ghost var some := SomeMember(Reach(a, u[j..]) * a.finalStates);
      var g :| g in Reach(a, u[j..]) * a.finalStates;
      StarBlockFrom(c, a, u[..j], u[j..], g);
      SplitJoins(u, j);
    }
  }

  /** A block the operand accepts, started from the operand's initial state, returns to both ends. */
  lemma StarBlockFrom<S>(c: Automaton<S>, a: Automaton<S>, u: seq<S>, v: seq<S>, g: int)
    requires Embeds(a, c, 0) && StarWired(c, a)
    requires a.initialState in Reach(c, u)
    requires g in Reach(a, v) && g in a.finalStates
    ensures a.initialState in Reach(c, u + v) && c.numStates - 1 in Reach(c, u + v)
  {
    assert a.initialState + 0 in Reach(c, u);
    EmbeddedRunAfter(a, c, 0, u, v, g);
    assert (g, c.numStates - 1) in EpsEdges(c.epsilonTransitions);
    assert (g, a.initialState) in EpsEdges(c.epsilonTransitions);
    ReachFollowsEpsilon(c, u + v, g, c.numStates - 1);
    ReachFollowsEpsilon(c, u + v, g, a.initialState);
  }

  lemma StarAcceptsWords<S>(c: Automaton<S>, a: Automaton<S>, w: seq<S>)
    requires IsStar(c, a) && InStar(a, w)
    ensures Accepted(c, w)
  {
    StarEmbedsOperand(c, a);
    StarWiring(c, a);
    StarReachesAfterWords(c, a, w);
    assert c.numStates - 1 in Reach(c, w) * c.finalStates;
  }

  // ---------------------------------------------------------------------------
  // The star accepts nothing else
  // ---------------------------------------------------------------------------

  /**
   * The operand's states the star can occupy after `w`: those a run of the
   * operand from its initial state reaches on a suffix of `w` whose prefix is
   * a word of the star.
   */
  ghost function StarPart<S>(a: Automaton<S>, w: seq<S>): set<int>
  {
    set j, s | 0 <= j <= |w| && InStar(a, w[..j]) && s in Run(a, {a.initialState}, w[j..]) :: s
  }

  /** The fresh initial state `k`, the operand's part, and the fresh final state `k + 1`. */
  ghost function StarLayout(k: int, atStart: bool, part: set<int>, accepting: bool): set<int>
  {
    (if atStart then {k} else {}) + part + (if accepting then {k + 1} else {})
  }

  /** What the star can occupy after `w`. */
  ghost function StarBound<S>(a: Automaton<S>, w: seq<S>): set<int>
  {
    StarLayout(a.numStates, w == [], StarPart(a, w), InStar(a, w))
  }

  lemma StarPartInUniverse<S>(a: Automaton<S>, w: seq<S>)
    requires WellFormed(a)
    ensures AllInUniverse(a, StarPart(a, w))
  {
    forall s | s in StarPart(a, w) ensures InUniverse(s, a.numStates) {
      var j :| 0 <= j <= |w| && InStar(a, w[..j]) && s in Run(a, {a.initialState}, w[j..]);
      RunInUniverse(a, {a.initialState}, w[j..]);
    }
  }

  /** Once `w` is a word of the star, the operand's initial state joins the part. */
  lemma StarPartRestarts<S>(a: Automaton<S>, w: seq<S>)
    requires InStar(a, w)
    ensures a.initialState in StarPart(a, w)
  {
    assert w[..|w|] == w && w[|w|..] == [];
    ClosureExtensiveAndClosed(a, {a.initialState});
    assert a.initialState in Run(a, {a.initialState}, w[|w|..]);
  }

  /** A final state of the operand in the part makes `w` a word of the star. */
  lemma StarPartAccepting<S>(a: Automaton<S>, w: seq<S>, f: int)
    requires f in StarPart(a, w) && f in a.finalStates
    ensures InStar(a, w)
  {
    var j :| 0 <= j <= |w| && InStar(a, w[..j]) && f in Run(a, {a.initialState}, w[j..]);
    ReachIsRun(a, w[j..]);
    assert f in Reach(a, w[j..]) * a.finalStates;
    if j == |w| {
      assert w[..j] == w;
    }
  }

  /** An epsilon edge of the operand keeps the part. */
  lemma StarPartClosed<S>(a: Automaton<S>, w: seq<S>, s: int, t: int)
    requires s in StarPart(a, w) && (s, t) in EpsEdges(a.epsilonTransitions)
    ensures t in StarPart(a, w)
  {
    var j :| 0 <= j <= |w| && InStar(a, w[..j]) && s in Run(a, {a.initialState}, w[j..]);
    RunFollowsEpsilon(a, {a.initialState}, w[j..], s, t);
  }

  lemma StarPartClosedAll<S>(a: Automaton<S>, w: seq<S>)
    ensures EpsilonClosed(a, StarPart(a, w))
  {
    forall s, t | s in StarPart(a, w) && t in EpsilonSuccessors(a, s) ensures t in StarPart(a, w) {
      StarPartClosed(a, w, s, t);
    }
  }

  /** A labelled edge of the operand keeps the part moving with the input. */
  lemma StarPartStep<S>(a: Automaton<S>, w: seq<S>, x: S, s: int, t: int)
    requires s in StarPart(a, w) && (s, x, t) in Edges(a.transitions)
    ensures t in StarPart(a, w + [x])
  {
    var j :| 0 <= j <= |w| && InStar(a, w[..j]) && s in Run(a, {a.initialState}, w[j..]);
    var run := Run(a, {a.initialState}, w[j..]);
    assert t in AdjacentStates(a, s, x);
    assert t in Step(a, run, x);
    RunSnoc(a, {a.initialState}, w[j..], x);
    ClosureExtensiveAndClosed(a, Step(a, run, x));
    assert (w + [x])[..j] == w[..j] && (w + [x])[j..] == w[j..] + [x];
    assert 0 <= j <= |w + [x]| && InStar(a, (w + [x])[..j]);
    assert t in Run(a, {a.initialState}, (w + [x])[j..]);
  }

  lemma StarPartSteps<S>(a: Automaton<S>, w: seq<S>, x: S)
    ensures Step(a, StarPart(a, w), x) <= StarPart(a, w + [x])
  {
    forall t | t in Step(a, StarPart(a, w), x) ensures t in StarPart(a, w + [x]) {
      var s :| s in StarPart(a, w) && t in AdjacentStates(a, s, x);
      StarPartStep(a, w, x, s, t);
    }
  }

  /** The star's epsilon edges, case by case. */
  lemma StarEpsCases<S>(eps: set<(int, int)>, a: Automaton<S>, s: int, t: int)
    requires eps == StarEpsEdges(a) && (s, t) in eps
    ensures var n := a.numStates + 2;
      || (s == n - 2 && (t == n - 1 || t == a.initialState))
      || (s in a.finalStates && (t == n - 1 || t == a.initialState))
      || (s, t) in EpsEdges(a.epsilonTransitions)
  {
  }

  /**
   * A layout is epsilon-closed in the star when its part is closed in the
   * operand, and both the start and a final state of the operand in the part
   * bring in the operand's initial state and the accepting state.
   */
  ghost predicate StarClosedParts<S>(a: Automaton<S>, atStart: bool, part: set<int>, accepting: bool)
  {
    && AllInUniverse(a, part) && EpsilonClosed(a, part)
    && (atStart ==> a.initialState in part && accepting)
    && (part * a.finalStates != {} ==> a.initialState in part && accepting)
  }

  lemma StarLayoutClosed<S>(c: Automaton<S>, a: Automaton<S>, atStart: bool, part: set<int>, accepting: bool)
    requires IsStar(c, a) && WellFormed(a)
    requires StarClosedParts(a, atStart, part, accepting)
    ensures EpsilonClosed(c, StarLayout(a.numStates, atStart, part, accepting))
  {
    var here := StarLayout(a.numStates, atStart, part, accepting);
    forall s, t | s in here && t in EpsilonSuccessors(c, s) ensures t in here {
      StarEpsCases(EpsEdges(c.epsilonTransitions), a, s, t);
      StarLayoutEpsEdge(a, atStart, part, accepting, s, t);
    }
  }

  lemma StarLayoutEpsEdge<S>(a: Automaton<S>, atStart: bool, part: set<int>, accepting: bool, s: int, t: int)
    requires WellFormed(a)
    requires StarClosedParts(a, atStart, part, accepting)
    requires s in StarLayout(a.numStates, atStart, part, accepting)
    requires var n := a.numStates + 2;
      || (s == n - 2 && (t == n - 1 || t == a.initialState))
      || (s in a.finalStates && (t == n - 1 || t == a.initialState))
      || (s, t) in EpsEdges(a.epsilonTransitions)
    ensures t in StarLayout(a.numStates, atStart, part, accepting)
  {
    var k := a.numStates;
    if (s, t) in EpsEdges(a.epsilonTransitions) {
      EpsEdgeEndsInUniverse(a, s, t);
      assert s in part;
      assert t in EpsilonSuccessors(a, s);
    } else if s in a.finalStates {
      assert InUniverse(s, k);
      assert s in part * a.finalStates;
    } else {
      assert s == k && atStart;
    }
  }

  /** One labelled step of the star from a layout stays within the next layout. */
  lemma StarLayoutStep<S>(c: Automaton<S>, a: Automaton<S>, x: S,
                          atStart: bool, part: set<int>, accepting: bool,
                          atStart': bool, part': set<int>, accepting': bool)
    requires Edges(c.transitions) == Edges(a.transitions) && WellFormed(a)
    requires AllInUniverse(a, part) && Step(a, part, x) <= part'
    ensures Step(c, StarLayout(a.numStates, atStart, part, accepting), x)
         <= StarLayout(a.numStates, atStart', part', accepting')
  {
    var here := StarLayout(a.numStates, atStart, part, accepting);
    forall t | t in Step(c, here, x) ensures t in StarLayout(a.numStates, atStart', part', accepting') {
      var s :| s in here && t in AdjacentStates(c, s, x);
      EdgeEndsInUniverse(a, s, x, t);
      assert s in part;
      assert t in AdjacentStates(a, s, x);
      assert t in Step(a, part, x);
    }
  }

  lemma StarBoundClosed<S>(c: Automaton<S>, a: Automaton<S>, w: seq<S>)
    requires IsStar(c, a) && WellFormed(a)
    ensures EpsilonClosed(c, StarBound(a, w))
  {
    var part := StarPart(a, w);
    StarPartInUniverse(a, w);
    StarPartClosedAll(a, w);
    if w == [] {
      StarPartRestarts(a, w);
    }
    if part * a.finalStates != {} {
      var f :| f in part * a.finalStates;
      StarPartAccepting(a, w, f);
      StarPartRestarts(a, w);
    }
    StarLayoutClosed(c, a, w == [], part, InStar(a, w));
  }

  lemma StarBoundStep<S>(c: Automaton<S>, a: Automaton<S>, w: seq<S>, x: S)
    requires IsStar(c, a) && WellFormed(a)
    ensures Step(c, StarBound(a, w), x) <= StarBound(a, w + [x])
  {
    StarPartInUniverse(a, w);
    StarPartSteps(a, w, x);
    StarLayoutStep(c, a, x, w == [], StarPart(a, w), InStar(a, w),
                   w + [x] == [], StarPart(a, w + [x]), InStar(a, w + [x]));
  }

  /** The star never occupies a state outside the bound. */
  lemma {:induction false} StarReachBound<S>(c: Automaton<S>, a: Automaton<S>, w: seq<S>)
    requires IsStar(c, a) && WellFormed(a)
    ensures Reach(c, w) <= StarBound(a, w)
    decreases |w|
  {
    StarBoundClosed(c, a, w);
    if w == [] {
      assert c.initialState in StarBound(a, w);
      ClosureLeast(c, {c.initialState}, StarBound(a, w));
    } else {
      var w' := w[..|w| - 1];
      var x := w[|w| - 1];
      assert w == w' + [x];
      StarReachBound(c, a, w');
      ReachSnoc(c, w', x);
      StepMonotone(c, Reach(c, w'), StarBound(a, w'), x);
      StarBoundStep(c, a, w', x);
      ClosureLeast(c, Step(c, Reach(c, w'), x), StarBound(a, w));
    }
  }

  /** Whatever the star accepts is a word of the star. */
  lemma StarAcceptsOnlyWords<S>(c: Automaton<S>, a: Automaton<S>, w: seq<S>)
    requires IsStar(c, a) && WellFormed(a) && Accepted(c, w)
    ensures InStar(a, w)
  {
    var f :| f in Reach(c, w) * c.finalStates;
    StarReachBound(c, a, w);
    StarPartInUniverse(a, w);
    assert f == a.numStates + 1 && f in StarBound(a, w);
    assert f !in StarPart(a, w);
  }

  /** The star of a well-formed automaton accepts exactly the words of the star. */
  lemma StarLanguage<S>(a: Automaton<S>, w: seq<S>)
    requires WellFormed(a)
    ensures Accepted(Starred(a), w) <==> InStar(a, w)
  {
    StarredIsStar(a);
    if Accepted(Starred(a), w) {
      StarAcceptsOnlyWords(Starred(a), a, w);
    }
    if InStar(a, w) {
      StarAcceptsWords(Starred(a), a, w);
    }
  }

  // ---------------------------------------------------------------------------
  // Words of the star as lists of blocks
  // ---------------------------------------------------------------------------

  /** Any list of accepted blocks, empty blocks included, flattens to a word of the star. */
  lemma {:induction false} FlatteningIsStarWord<S>(a: Automaton<S>, ws: seq<seq<S>>)
    requires AllAccepted(a, ws)
    ensures InStar(a, Flatten(ws))
    decreases |ws|
  {
    if ws != [] {
      var prefix := ws[..|ws| - 1];
      var last := ws[|ws| - 1];
      assert AllAccepted(a, prefix);
      FlatteningIsStarWord(a, prefix);
      var u := Flatten(prefix);
      var w := Flatten(ws);
      assert w == u + last;
      if last == [] {
        assert w == u;
      } else {
        assert w[..|u|] == u && w[|u|..] == last;
        assert 0 <= |u| < |w| && InStar(a, w[..|u|]) && Accepted(a, w[|u|..]);
      }
    }
  }

  /** Every word of the star flattens some list of blocks the operand accepts. */
  lemma {:induction false} StarWordIsFlattening<S>(a: Automaton<S>, w: seq<S>) returns (ws: seq<seq<S>>)
    requires InStar(a, w)
    ensures AllAccepted(a, ws) && Flatten(ws) == w
    decreases |w|
  {
    if w == [] {
      ws := [];
    } else {
      var j :| 0 <= j < |w| && InStar(a, w[..j]) && Accepted(a, w[j..]);
      var prefix := StarWordIsFlattening(a, w[..j]);
      ws := prefix + [w[j..]];
      assert ws[..|ws| - 1] == prefix;
      SplitJoins(w, j);
    }
  }

  /** The words of the star are exactly the flattenings of lists of accepted blocks. */
  lemma StarWordsAreFlattenings<S>(a: Automaton<S>, w: seq<S>)
    ensures InStar(a, w) <==> exists ws :: AllAccepted(a, ws) && Flatten(ws) == w
  {
    if InStar(a, w) {
      var ws := StarWordIsFlattening(a, w);
    }
    if exists ws :: AllAccepted(a, ws) && Flatten(ws) == w {
      var ws :| AllAccepted(a, ws) && Flatten(ws) == w;
      FlatteningIsStarWord(a, ws);
    }
  }

  /** The star accepts the empty input, whatever the operand. */
  lemma StarAcceptsEmptyInput<S>(a: Automaton<S>)
    ensures Accepted(Starred(a), [])
  {
    StarredIsStar(a);
    StarAcceptsWords(Starred(a), a, []);
  }

  /** The star accepts any list of blocks the operand accepts, written one after another. */
  lemma StarAcceptsIterations<S>(a: Automaton<S>, ws: seq<seq<S>>)
    requires AllAccepted(a, ws)
    ensures Accepted(Starred(a), Flatten(ws))
  {
    FlatteningIsStarWord(a, ws);
    StarredIsStar(a);
    StarAcceptsWords(Starred(a), a, Flatten(ws));
  }

  // ---------------------------------------------------------------------------
  // The automaton for "ab" and its star
  // ---------------------------------------------------------------------------

  /** Three states in a row: 0 -a-> 1 -b-> 2, starting at 0 and accepting at 2. */
  function AbAutomaton<S>(a: S, b: S): (r: Automaton<S>)
    ensures WellFormed(r)
  {
    Automaton(3, map[(0, a) := {1}, (1, b) := {2}], map[], 0, {2})
  }

  /** `i` copies of `w` one after another. */
  function Repeat<T>(w: seq<T>, i: nat): (r: seq<T>)
    ensures |r| == i * |w|
  {
    if i == 0 then [] else Repeat(w, i - 1) + w
  }

  lemma AbAutomatonAcceptsAb<S>(a: S, b: S)
    ensures Accepted(AbAutomaton(a, b), [a, b])
  {
    var m := AbAutomaton(a, b);
    InitialReached(m);
    assert 1 in AdjacentStates(m, 0, a);
    assert 1 in Step(m, Reach(m, []), a);
    StepIntoReach(m, [], a);
    assert 2 in AdjacentStates(m, 1, b);
    assert 2 in Step(m, Reach(m, [a]), b);
    StepIntoReach(m, [a], b);
    assert [a] + [b] == [a, b];
    assert 2 in Reach(m, [a, b]) * m.finalStates;
  }

  lemma {:induction false} RepeatIsStarWord<S>(m: Automaton<S>, w: seq<S>, i: nat)
    requires w != [] && Accepted(m, w)
    ensures InStar(m, Repeat(w, i))
  {
    if i > 0 {
      RepeatIsStarWord(m, w, i - 1);
      var u := Repeat(w, i - 1);
      var r := Repeat(w, i);
      assert r[..|u|] == u && r[|u|..] == w;
      assert 0 <= |u| < |r| && InStar(m, r[..|u|]) && Accepted(m, r[|u|..]);
    }
  }

  /** The star of the "ab" automaton accepts "ab" repeated any number of times. */
  lemma StarOfAbAcceptsRepeats<S>(a: S, b: S, i: nat)
    ensures Accepted(Starred(AbAutomaton(a, b)), Repeat([a, b], i))
  {
    AbAutomatonAcceptsAb(a, b);
    RepeatIsStarWord(AbAutomaton(a, b), [a, b], i);
    StarredIsStar(AbAutomaton(a, b));
    StarAcceptsWords(Starred(AbAutomaton(a, b)), AbAutomaton(a, b), Repeat([a, b], i));
  }
}
