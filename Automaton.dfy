/**
 * A non-deterministic finite automaton over dense integer states
 * `0 .. numStates-1`, its epsilon-closure, its subset simulation and the
 * mutable builder through which every automaton is made.
 */
module Automata {
  import opened Wrappers
  import Decimal

  /** (state, symbol) -> destination states; the labelled-edge table. */
  type TransitionTable<S(==)> = map<(int, S), set<int>>

  /** state -> destination states; the epsilon-edge map. */
  type EpsilonTable = map<int, set<int>>

  datatype Automaton<S(==)> = Automaton(
    numStates: int,
    transitions: TransitionTable<S>,
    epsilonTransitions: EpsilonTable,
    initialState: int,
    finalStates: set<int>)

  // ---------------------------------------------------------------------------
  // Edge views and well-formedness
  // ---------------------------------------------------------------------------

  /** The labelled edges of a table, one triple per (from, symbol, to). */
  ghost function Edges<S>(t: TransitionTable<S>): set<(int, S, int)>
  {
    set k, to | k in t && to in t[k] :: (k.0, k.1, to)
  }

  /** The epsilon edges of a map, one pair per (from, to). */
  ghost function EpsEdges(e: EpsilonTable): set<(int, int)>
  {
    set from, to | from in e && to in e[from] :: (from, to)
  }

  lemma EdgesMember<S>(t: TransitionTable<S>, from: int, sym: S, to: int)
    ensures (from, sym, to) in Edges(t) <==> (from, sym) in t && to in t[(from, sym)]
  {
    if (from, sym) in t && to in t[(from, sym)] {
      var k := (from, sym);
      assert (k.0, k.1, to) in Edges(t);
    }
  }

  lemma EpsEdgesMember(e: EpsilonTable, from: int, to: int)
    ensures (from, to) in EpsEdges(e) <==> from in e && to in e[from]
  {
  }

  /** No key of the table maps to an empty set: what every builder-made table satisfies. */
  predicate NoEmptyEntries<K>(m: map<K, set<int>>)
  {
    forall k | k in m :: m[k] != {}
  }

  predicate InUniverse(s: int, numStates: int)
  {
    0 <= s < numStates
  }

  predicate TableInUniverse<S(==)>(t: TransitionTable<S>, numStates: int)
  {
    forall k | k in t :: InUniverse(k.0, numStates) && forall s | s in t[k] :: InUniverse(s, numStates)
  }

  predicate EpsilonInUniverse(e: EpsilonTable, numStates: int)
  {
    forall from | from in e :: InUniverse(from, numStates) && forall s | s in e[from] :: InUniverse(s, numStates)
  }

  /** Every state referenced by the automaton lies in its universe: exactly what `validate()` checks. */
  predicate WellFormed<S(==)>(a: Automaton<S>)
  {
    && InUniverse(a.initialState, a.numStates)
    && (forall s | s in a.finalStates :: InUniverse(s, a.numStates))
    && TableInUniverse(a.transitions, a.numStates)
    && EpsilonInUniverse(a.epsilonTransitions, a.numStates)
  }

  /** Every state the automaton mentions anywhere: initial, finals and all edge endpoints. */
  ghost function Mentioned<S>(a: Automaton<S>): set<int>
  {
    {a.initialState} + a.finalStates
    + (set k | k in a.transitions :: k.0)
    + (set k, s | k in a.transitions && s in a.transitions[k] :: s)
    + (set from | from in a.epsilonTransitions :: from)
    + (set from, s | from in a.epsilonTransitions && s in a.epsilonTransitions[from] :: s)
  }

  /** The states labelled edges mention, as sources or as destinations. */
  ghost function TableStates<S>(t: TransitionTable<S>): set<int>
  {
    (set k | k in t :: k.0) + (set k, s | k in t && s in t[k] :: s)
  }

  /** The states epsilon edges mention, as sources or as destinations. */
  ghost function EpsilonStates(e: EpsilonTable): set<int>
  {
    (set from | from in e :: from) + (set from, s | from in e && s in e[from] :: s)
  }

  /**
   * The states validation may report for `a`. It checks the initial state,
   * then the finals, then the labelled edges, then the epsilon edges, and
   * reports an out-of-universe state of the first of these groups that has
   * one; which one inside that group follows hash iteration order.
   */
  ghost function ReportedStates<S>(a: Automaton<S>): set<int>
  {
    var n := a.numStates;
    if !InUniverse(a.initialState, n) then {a.initialState}
    else if exists s | s in a.finalStates :: !InUniverse(s, n) then
      set s | s in a.finalStates && !InUniverse(s, n)
    else if !TableInUniverse(a.transitions, n) then
      set s | s in TableStates(a.transitions) && !InUniverse(s, n)
    else
      set s | s in EpsilonStates(a.epsilonTransitions) && !InUniverse(s, n)
  }

  /** Some state is reported exactly when the automaton is not valid, and each is a mentioned state outside the universe. */
  lemma ReportedStatesSound<S>(a: Automaton<S>)
    ensures ReportedStates(a) == {} <==> WellFormed(a)
    ensures forall s | s in ReportedStates(a) :: s in Mentioned(a) && !InUniverse(s, a.numStates)
  {
    var n := a.numStates;
    var r := ReportedStates(a);
    if !InUniverse(a.initialState, n) {
      assert a.initialState in r;
    } else if exists s | s in a.finalStates :: !InUniverse(s, n) {
      var s :| s in a.finalStates && !InUniverse(s, n);
      assert s in r;
    } else if !TableInUniverse(a.transitions, n) {
      var k :| k in a.transitions && !(InUniverse(k.0, n) && forall s | s in a.transitions[k] :: InUniverse(s, n));
      if !InUniverse(k.0, n) {
        assert k.0 in TableStates(a.transitions);
        assert k.0 in r;
      } else {
        var s :| s in a.transitions[k] && !InUniverse(s, n);
        assert s in TableStates(a.transitions);
        assert s in r;
      }
    } else if !EpsilonInUniverse(a.epsilonTransitions, n) {
      var from :| from in a.epsilonTransitions
        && !(InUniverse(from, n) && forall s | s in a.epsilonTransitions[from] :: InUniverse(s, n));
      if !InUniverse(from, n) {
        assert from in EpsilonStates(a.epsilonTransitions);
        assert from in r;
      } else {
        var s :| s in a.epsilonTransitions[from] && !InUniverse(s, n);
        assert s in EpsilonStates(a.epsilonTransitions);
        assert s in r;
      }
    } else {
      forall s | s in EpsilonStates(a.epsilonTransitions) ensures InUniverse(s, n) {
        if s !in a.epsilonTransitions {
          var from :| from in a.epsilonTransitions && s in a.epsilonTransitions[from];
        }
      }
    }
  }

  lemma WellFormedIffMentionedInUniverse<S>(a: Automaton<S>)
    ensures WellFormed(a) <==> forall s | s in Mentioned(a) :: InUniverse(s, a.numStates)
  {
    if forall s | s in Mentioned(a) :: InUniverse(s, a.numStates) {
      forall k | k in a.transitions
        ensures InUniverse(k.0, a.numStates) && forall s | s in a.transitions[k] :: InUniverse(s, a.numStates)
      {
        assert k.0 in Mentioned(a);
        forall s | s in a.transitions[k] ensures InUniverse(s, a.numStates) {
          assert s in Mentioned(a);
        }
      }
      forall from | from in a.epsilonTransitions
        ensures InUniverse(from, a.numStates)
          && forall s | s in a.epsilonTransitions[from] :: InUniverse(s, a.numStates)
      {
        assert from in Mentioned(a);
        forall s | s in a.epsilonTransitions[from] ensures InUniverse(s, a.numStates) {
          assert s in Mentioned(a);
        }
      }
    }
  }

  lemma EmptyTables<S>()
    ensures Edges<S>(map[]) == {} && EpsEdges(map[]) == {}
  {
  }

  /** Edges added one group at a time, starting from none, add up to the union of the groups. */
  lemma UnionOfSteps<T>(s0: set<T>, s1: set<T>, s2: set<T>, s3: set<T>, s4: set<T>, s5: set<T>,
                        p1: set<T>, p2: set<T>, p3: set<T>, p4: set<T>, p5: set<T>)
    requires s0 == {} && s1 == s0 + p1 && s2 == s1 + p2 && s3 == s2 + p3 && s4 == s3 + p4 && s5 == s4 + p5
    ensures s5 == p1 + p2 + p3 + p4 + p5
  {
  }

  /** The table whose edges are exactly `edges`, with no empty entry. */
  ghost function TableOf<S>(edges: set<(int, S, int)>): TransitionTable<S>
  {
    map k | k in EdgeKeys(edges) :: EdgeRow(edges, k)
  }

  ghost function EdgeKeys<S>(edges: set<(int, S, int)>): set<(int, S)>
  {
    set e | e in edges :: (e.0, e.1)
  }

  ghost function EdgeRow<S>(edges: set<(int, S, int)>, k: (int, S)): set<int>
  {
    set e | e in edges && (e.0, e.1) == k :: e.2
  }

  /** The epsilon map whose edges are exactly `edges`, with no empty entry. */
  ghost function EpsTableOf(edges: set<(int, int)>): EpsilonTable
  {
    map f | f in EpsKeys(edges) :: EpsRow(edges, f)
  }

  ghost function EpsKeys(edges: set<(int, int)>): set<int>
  {
    set e | e in edges :: e.0
  }

  ghost function EpsRow(edges: set<(int, int)>, f: int): set<int>
  {
    set e | e in edges && e.0 == f :: e.1
  }

  /** `TableOf` stores exactly the given edges, and no empty destination set. */
  lemma TableOfEdges<S>(edges: set<(int, S, int)>)
    ensures Edges(TableOf(edges)) == edges && NoEmptyEntries(TableOf(edges))
  {
    var m := TableOf(edges);
    forall e | e in edges ensures e in Edges(m) {
      assert (e.0, e.1) in EdgeKeys(edges);
      EdgesMember(m, e.0, e.1, e.2);
    }
    forall e | e in Edges(m) ensures e in edges {
      EdgesMember(m, e.0, e.1, e.2);
    }
    forall k | k in m ensures m[k] != {} {
      var e :| e in edges && (e.0, e.1) == k;
      assert e.2 in m[k];
    }
  }

  /** A table without empty entries is determined by its edges. */
  lemma TableOfUnique<S>(edges: set<(int, S, int)>, t: TransitionTable<S>)
    requires NoEmptyEntries(t) && Edges(t) == edges
    ensures t == TableOf(edges)
  {
    var m := TableOf(edges);
    forall k | k in t ensures k in m && t[k] == m[k] {
      ghost var some := SomeMember(t[k]);
      var to :| to in t[k];
      EdgesMember(t, k.0, k.1, to);
      assert (k.0, k.1, to) in edges;
      assert (k.0, k.1) in EdgeKeys(edges);
      forall x ensures x in t[k] <==> x in m[k] {
        EdgesMember(t, k.0, k.1, x);
        EdgesMember(m, k.0, k.1, x);
      }
    }
    forall k | k in m ensures k in t {
      var e :| e in edges && (e.0, e.1) == k;
      EdgesMember(t, k.0, k.1, e.2);
    }
  }

  /** `EpsTableOf` stores exactly the given epsilon edges, and no empty destination set. */
  lemma EpsTableOfEdges(edges: set<(int, int)>)
    ensures EpsEdges(EpsTableOf(edges)) == edges && NoEmptyEntries(EpsTableOf(edges))
  {
    var m := EpsTableOf(edges);
    forall p | p in edges ensures p in EpsEdges(m) {
      assert p.0 in EpsKeys(edges);
      EpsEdgesMember(m, p.0, p.1);
    }
    forall k | k in m ensures m[k] != {} {
      var p :| p in edges && p.0 == k;
      assert p.1 in m[k];
    }
  }

  /** An epsilon map without empty entries is determined by its edges. */
  lemma EpsTableOfUnique(edges: set<(int, int)>, e: EpsilonTable)
    requires NoEmptyEntries(e) && EpsEdges(e) == edges
    ensures e == EpsTableOf(edges)
  {
    var m := EpsTableOf(edges);
    forall k | k in e ensures k in m && e[k] == m[k] {
      ghost var some := SomeMember(e[k]);
      var to :| to in e[k];
      EpsEdgesMember(e, k, to);
      assert (k, to) in edges;
      assert k in EpsKeys(edges);
      forall x ensures x in e[k] <==> x in m[k] {
        EpsEdgesMember(e, k, x);
        EpsEdgesMember(m, k, x);
      }
    }
    forall k | k in m ensures k in e {
      var p :| p in edges && p.0 == k;
      EpsEdgesMember(e, k, p.1);
    }
  }

  /** The automaton with the given numbers whose tables hold exactly the given edges. */
  ghost function FromViews<S>(n: int, edges: set<(int, S, int)>, eps: set<(int, int)>, init: int, finals: set<int>): Automaton<S>
  {
    Automaton(n, TableOf(edges), EpsTableOf(eps), init, finals)
  }

  /** An automaton without empty table entries is determined by its numbers and edge views. */
  lemma AutomatonFromViews<S>(b: Automaton<S>, n: int, edges: set<(int, S, int)>, eps: set<(int, int)>,
                              init: int, finals: set<int>)
    requires b.numStates == n && b.initialState == init && b.finalStates == finals
    requires NoEmptyEntries(b.transitions) && Edges(b.transitions) == edges
    requires NoEmptyEntries(b.epsilonTransitions) && EpsEdges(b.epsilonTransitions) == eps
    ensures b == FromViews(n, edges, eps, init, finals)
  {
    TableOfUnique(edges, b.transitions);
    EpsTableOfUnique(eps, b.epsilonTransitions);
  }

  /** An automaton assembled from edge sets whose endpoints lie in the universe is well-formed. */
  lemma WellFormedFromEdgeSets<S>(n: int, edges: set<(int, S, int)>, eps: set<(int, int)>, init: int, finals: set<int>)
    requires InUniverse(init, n) && forall s | s in finals :: InUniverse(s, n)
    requires forall e | e in edges :: InUniverse(e.0, n) && InUniverse(e.2, n)
    requires forall e | e in eps :: InUniverse(e.0, n) && InUniverse(e.1, n)
    ensures WellFormed(FromViews(n, edges, eps, init, finals))
  {
    var a := FromViews(n, edges, eps, init, finals);
    TableOfEdges(edges);
    EpsTableOfEdges(eps);
    WellFormedFromEdges(a);
  }

  /** An automaton is well-formed when its initial state, finals and every edge endpoint lie in the universe. */
  lemma WellFormedFromEdges<S>(a: Automaton<S>)
    requires InUniverse(a.initialState, a.numStates)
    requires forall s | s in a.finalStates :: InUniverse(s, a.numStates)
    requires forall e | e in Edges(a.transitions) :: InUniverse(e.0, a.numStates) && InUniverse(e.2, a.numStates)
    requires forall e | e in EpsEdges(a.epsilonTransitions) :: InUniverse(e.0, a.numStates) && InUniverse(e.1, a.numStates)
    requires NoEmptyEntries(a.transitions) && NoEmptyEntries(a.epsilonTransitions)
    ensures WellFormed(a)
  {
    forall k | k in a.transitions
      ensures InUniverse(k.0, a.numStates) && forall s | s in a.transitions[k] :: InUniverse(s, a.numStates)
    {
      ghost var some := SomeMember(a.transitions[k]);
      var to :| to in a.transitions[k];
      EdgesMember(a.transitions, k.0, k.1, to);
      forall s | s in a.transitions[k] ensures InUniverse(s, a.numStates) {
        EdgesMember(a.transitions, k.0, k.1, s);
      }
    }
    forall f | f in a.epsilonTransitions
      ensures InUniverse(f, a.numStates) && forall s | s in a.epsilonTransitions[f] :: InUniverse(s, a.numStates)
    {
      ghost var some := SomeMember(a.epsilonTransitions[f]);
      var to :| to in a.epsilonTransitions[f];
      EpsEdgesMember(a.epsilonTransitions, f, to);
      forall s | s in a.epsilonTransitions[f] ensures InUniverse(s, a.numStates) {
        EpsEdgesMember(a.epsilonTransitions, f, s);
      }
    }
  }

  // ---------------------------------------------------------------------------
  // Small lookups
  // ---------------------------------------------------------------------------

  /** The destinations of (s, sym); a pair with no registered edge yields the empty set. */
  function AdjacentStates<S(==)>(a: Automaton<S>, s: int, sym: S): (r: set<int>)
    ensures (s, sym) !in a.transitions ==> r == {}
    ensures forall t :: t in r <==> (s, sym, t) in Edges(a.transitions)
  {
    forall t ensures t in (if (s, sym) in a.transitions then a.transitions[(s, sym)] else {})
      <==> (s, sym, t) in Edges(a.transitions)
    {
      EdgesMember(a.transitions, s, sym, t);
    }
    if (s, sym) in a.transitions then a.transitions[(s, sym)] else {}
  }

  /** The epsilon successors of a state; a state with no entry has none. */
  function EpsilonSuccessors<S(==)>(a: Automaton<S>, s: int): (r: set<int>)
    ensures s !in a.epsilonTransitions ==> r == {}
    ensures forall t :: t in r <==> (s, t) in EpsEdges(a.epsilonTransitions)
  {
    if s in a.epsilonTransitions then a.epsilonTransitions[s] else {}
  }

  /** The row of the transition table for one state: symbol -> destinations. */
  function StateTransitions<S(==,!new)>(a: Automaton<S>, state: int): (row: map<S, set<int>>)
    ensures forall sym :: sym in row <==> (state, sym) in a.transitions
    ensures forall sym | sym in row :: row[sym] == AdjacentStates(a, state, sym)
  {
    map k | k in a.transitions && k.0 == state :: k.1 := a.transitions[k]
  }

  predicate ReachedFinalState<S(==)>(a: Automaton<S>, currentStates: set<int>)
  {
    currentStates * a.finalStates != {}
  }

  // ---------------------------------------------------------------------------
  // Epsilon-closure: the specification
  // ---------------------------------------------------------------------------

  /** States one epsilon edge away from some state of `states`. */
  function EpsilonImage<S(==)>(a: Automaton<S>, states: set<int>): set<int>
  {
    set s, t | s in states && t in EpsilonSuccessors(a, s) :: t
  }

  /** Every epsilon-edge destination of the automaton. */
  function EpsilonTargets<S(==)>(a: Automaton<S>): set<int>
  {
    set s, t | s in a.epsilonTransitions && t in a.epsilonTransitions[s] :: t
  }

  predicate EpsilonClosed<S(==)>(a: Automaton<S>, c: set<int>)
  {
    forall s, t | s in c && t in EpsilonSuccessors(a, s) :: t in c
  }

  lemma ProperSubsetSmaller<T>(x: set<T>, y: set<T>)
    requires x < y
    ensures |x| < |y|
  {
    var d := y - x;
    assert y == x + d;
    assert d != {};
  }

  /**
   * The epsilon-closure of `states`, as the fixpoint of adding one epsilon
   * step at a time; terminates because every added state is an epsilon target.
   */
  function Closure<S(==)>(a: Automaton<S>, states: set<int>): set<int>
    decreases |EpsilonTargets(a) - states|
  {
    var next := states + EpsilonImage(a, states);
    if next == states then states
    else
      assert EpsilonImage(a, states) <= EpsilonTargets(a);
      ProperSubsetSmaller(EpsilonTargets(a) - next, EpsilonTargets(a) - states);
      Closure(a, next)
  }

  /** The closure contains its seed and is closed under epsilon edges. */
  lemma {:induction false} ClosureExtensiveAndClosed<S>(a: Automaton<S>, states: set<int>)
    ensures states <= Closure(a, states)
    ensures EpsilonClosed(a, Closure(a, states))
    decreases |EpsilonTargets(a) - states|
  {
    var next := states + EpsilonImage(a, states);
    if next == states {
      forall s, t | s in states && t in EpsilonSuccessors(a, s) ensures t in states {
        assert t in EpsilonImage(a, states);
      }
    } else {
      assert EpsilonImage(a, states) <= EpsilonTargets(a);
      ProperSubsetSmaller(EpsilonTargets(a) - next, EpsilonTargets(a) - states);
      ClosureExtensiveAndClosed(a, next);
    }
  }

  /** The closure is the least epsilon-closed superset of its seed. */
  lemma {:induction false} ClosureLeast<S>(a: Automaton<S>, states: set<int>, c: set<int>)
    requires states <= c && EpsilonClosed(a, c)
    ensures Closure(a, states) <= c
    decreases |EpsilonTargets(a) - states|
  {
    var next := states + EpsilonImage(a, states);
    if next != states {
      assert EpsilonImage(a, states) <= EpsilonTargets(a);
      ProperSubsetSmaller(EpsilonTargets(a) - next, EpsilonTargets(a) - states);
      assert EpsilonImage(a, states) <= c;
      ClosureLeast(a, next, c);
    }
  }

  /** Closing a set that is already epsilon-closed returns that same set. */
  lemma ClosureOfClosed<S>(a: Automaton<S>, c: set<int>)
    requires EpsilonClosed(a, c)
    ensures Closure(a, c) == c
  {
    ClosureExtensiveAndClosed(a, c);
    ClosureLeast(a, c, c);
  }

  /** Epsilon-closure is idempotent. */
  lemma ClosureIdempotent<S>(a: Automaton<S>, states: set<int>)
    ensures Closure(a, Closure(a, states)) == Closure(a, states)
  {
    ClosureExtensiveAndClosed(a, states);
    ClosureOfClosed(a, Closure(a, states));
  }

  lemma ClosureMonotone<S>(a: Automaton<S>, x: set<int>, y: set<int>)
    requires x <= y
    ensures Closure(a, x) <= Closure(a, y)
  {
    ClosureExtensiveAndClosed(a, y);
    ClosureLeast(a, x, Closure(a, y));
  }

  lemma ClosureOfEmpty<S>(a: Automaton<S>)
    ensures Closure(a, {}) == {}
  {
    ClosureOfClosed(a, {});
  }

  /** With no epsilon edges at all, every set is its own closure. */
  lemma ClosureWithoutEpsilon<S>(a: Automaton<S>, states: set<int>)
    requires a.epsilonTransitions == map[]
    ensures Closure(a, states) == states
  {
    ClosureOfClosed(a, states);
  }

  /** A chain of epsilon edges p[0] -> p[1] -> ... -> p[|p|-1]. */
  ghost predicate EpsilonPath<S>(a: Automaton<S>, p: seq<int>)
  {
    |p| >= 1 && forall i | 0 <= i < |p| - 1 :: p[i + 1] in EpsilonSuccessors(a, p[i])
  }

  ghost predicate EpsilonReachable<S>(a: Automaton<S>, states: set<int>, t: int)
  {
    exists p :: EpsilonPath(a, p) && p[0] in states && p[|p| - 1] == t
  }

  lemma {:induction false} PathStaysInClosed<S>(a: Automaton<S>, c: set<int>, p: seq<int>)
    requires EpsilonClosed(a, c) && EpsilonPath(a, p) && p[0] in c
    ensures p[|p| - 1] in c
    decreases |p|
  {
    if |p| > 1 {
      var q := p[..|p| - 1];
      assert EpsilonPath(a, q);
      PathStaysInClosed(a, c, q);
      assert p[|p| - 1] in EpsilonSuccessors(a, p[|p| - 2]);
    }
  }

  lemma {:induction false} ClosureOnlyReachable<S>(a: Automaton<S>, states: set<int>, t: int)
    requires t in Closure(a, states)
    ensures EpsilonReachable(a, states, t)
    decreases |EpsilonTargets(a) - states|
  {
    var next := states + EpsilonImage(a, states);
    if next == states {
      assert EpsilonPath(a, [t]);
    } else {
      assert EpsilonImage(a, states) <= EpsilonTargets(a);
      ProperSubsetSmaller(EpsilonTargets(a) - next, EpsilonTargets(a) - states);
      ClosureOnlyReachable(a, next, t);
      var p :| EpsilonPath(a, p) && p[0] in next && p[|p| - 1] == t;
      if p[0] !in states {
        var s :| s in states && p[0] in EpsilonSuccessors(a, s);
        var p' := [s] + p;
        assert EpsilonPath(a, p');
        assert p'[|p'| - 1] == t;
      }
    }
  }

  /** A state is in the closure of `states` exactly when some chain of zero or more epsilon edges leads to it. */
  lemma ClosureIsEpsilonReachability<S>(a: Automaton<S>, states: set<int>, t: int)
    ensures t in Closure(a, states) <==> EpsilonReachable(a, states, t)
  {
    if t in Closure(a, states) {
      ClosureOnlyReachable(a, states, t);
    }
    if EpsilonReachable(a, states, t) {
      var p :| EpsilonPath(a, p) && p[0] in states && p[|p| - 1] == t;
      ClosureExtensiveAndClosed(a, states);
      PathStaysInClosed(a, Closure(a, states), p);
    }
  }

  // ---------------------------------------------------------------------------
  // Epsilon-closure: the breadth-first search
  // ---------------------------------------------------------------------------

  /** A member of a non-empty set: the witness needed before choosing an element with `:|`. */
  lemma SomeMember<T>(s: set<T>) returns (x: T)
    requires s != {}
    ensures x in s
  {
    if forall y :: y !in s {
      assert false;
    }
    x :| x in s;
  }

  /** Appends the members of `s`, in some order, to the end of the queue `q`. */
  method AppendAll(q: seq<int>, s: set<int>) returns (r: seq<int>)
    ensures |r| == |q| + |s| && r[..|q|] == q
    ensures forall x :: x in r <==> x in q || x in s
  {
    r := q;
    var rest := s;
    while rest != {}
      invariant rest <= s && |rest| <= |s|
      invariant |r| + |rest| == |q| + |s| && r[..|q|] == q
      invariant forall x :: x in r <==> x in q || x in s - rest
    {
      ghost var some := SomeMember(rest);
      var x :| x in rest;
      assert (r + [x])[..|q|] == r[..|q|];
      r := r + [x];
      rest := rest - {x};
    }
  }

  /**
   * Breadth-first search over epsilon edges from every state of `states`,
   * expanding each state at most once; the visited set is the closure.
   */
  method EpsilonClosure<S(==)>(a: Automaton<S>, states: set<int>) returns (visited: set<int>)
    ensures visited == Closure(a, states)
  {
    ghost var closure := Closure(a, states);
    ClosureExtensiveAndClosed(a, states);
    var bfsStates := AppendAll([], states);
    visited := {};
    while bfsStates != []
      invariant visited <= closure
      invariant forall x | x in bfsStates :: x in closure
      invariant forall s | s in states :: s in visited || s in bfsStates
      invariant forall v, t | v in visited && t in EpsilonSuccessors(a, v) :: t in visited || t in bfsStates
      decreases |closure - visited|, |bfsStates|
    {
      var nextState := bfsStates[0];
      ghost var queued := bfsStates;
      bfsStates := bfsStates[1..];
      forall y | y in queued ensures y == nextState || y in bfsStates {
        var i :| 0 <= i < |queued| && queued[i] == y;
        if i > 0 {
          assert bfsStates[i - 1] == y;
        }
      }
      if nextState in visited {
        continue;
      }
      assert closure - (visited + {nextState}) < closure - visited;
      ProperSubsetSmaller(closure - (visited + {nextState}), closure - visited);
      ghost var before := visited;
      visited := visited + {nextState};
      bfsStates := AppendAll(bfsStates, EpsilonSuccessors(a, nextState));
      forall v, t | v in visited && t in EpsilonSuccessors(a, v)
        ensures t in visited || t in bfsStates
      {
        if v != nextState {
          assert v in before;
          assert t in before || t in queued;
        }
      }
    }
    forall s | s in states ensures s in visited {
      assert s !in bfsStates;
    }
    assert EpsilonClosed(a, visited);
    ClosureLeast(a, states, visited);
  }

  /** The single-state overload: the closure of {state}. */
  method EpsilonClosureOfState<S(==)>(a: Automaton<S>, state: int) returns (visited: set<int>)
    ensures visited == Closure(a, {state})
    ensures state in visited
  {
    visited := EpsilonClosure(a, {state});
    ClosureExtensiveAndClosed(a, {state});
  }

  // ---------------------------------------------------------------------------
  // Subset simulation
  // ---------------------------------------------------------------------------

  /** All destinations of `sym`-edges out of `current`, before epsilon-closing. */
  function Step<S(==)>(a: Automaton<S>, current: set<int>, sym: S): set<int>
  {
    set s, t | s in current && t in AdjacentStates(a, s, sym) :: t
  }

  /** The set of states the simulation occupies after consuming all of `w`. */
  function Reach<S(==)>(a: Automaton<S>, w: seq<S>): set<int>
    decreases |w|
  {
    if w == [] then Closure(a, {a.initialState})
    else Closure(a, Step(a, Reach(a, w[..|w| - 1]), w[|w| - 1]))
  }

  /** Acceptance is decided once, after the whole input: the occupied set meets the finals. */
  predicate Accepted<S(==)>(a: Automaton<S>, w: seq<S>)
  {
    ReachedFinalState(a, Reach(a, w))
  }

  lemma ReachSnoc<S>(a: Automaton<S>, w: seq<S>, sym: S)
    ensures Reach(a, w + [sym]) == Closure(a, Step(a, Reach(a, w), sym))
  {
    assert (w + [sym])[..|w|] == w;
  }

  /** Once no state is occupied, none ever is again, whatever input follows. */
  lemma {:induction false} ReachStaysEmpty<S>(a: Automaton<S>, w: seq<S>, i: nat)
    requires i <= |w| && Reach(a, w[..i]) == {}
    ensures Reach(a, w) == {}
    decreases |w| - i
  {
    if i == |w| {
      assert w[..i] == w;
    } else {
      assert w[..i + 1] == w[..i] + [w[i]];
      ReachSnoc(a, w[..i], w[i]);
      assert Step(a, {}, w[i]) == {};
      ClosureOfEmpty(a);
      ReachStaysEmpty(a, w, i + 1);
    }
  }

  /**
   * Runs the subset simulation: start from the closure of the initial state,
   * stop with false as soon as no state is occupied, otherwise step and close
   * for each symbol, and accept iff the final occupied set meets the finals.
   */
  method Accepts<S(==)>(a: Automaton<S>, input: seq<S>) returns (accepted: bool)
    ensures accepted == Accepted(a, input)
  {
    var currentStates := EpsilonClosureOfState(a, a.initialState);
    assert input[..0] == [];
    for i := 0 to |input|
      invariant currentStates == Reach(a, input[..i])
    {
      if currentStates == {} {
        ReachStaysEmpty(a, input, i);
        return false;
      }
      var symbol := input[i];
      var nextStates := Step(a, currentStates, symbol);
      currentStates := EpsilonClosure(a, nextStates);
      assert input[..i + 1] == input[..i] + [symbol];
      ReachSnoc(a, input[..i], symbol);
    }
    assert input[..|input|] == input;
    accepted := ReachedFinalState(a, currentStates);
  }

  // ---------------------------------------------------------------------------
  // The builder
  // ---------------------------------------------------------------------------

  /** The failure `build()` raises, naming the state found outside the universe. */
  datatype InvalidAutomaton = InvalidAutomaton(state: int)
  {
    function Message(): string
    {
      "State " + Decimal.IntToString(state) + " not in universe"
    }
  }

  /** `m` with `v` added to the set under `k`, the set being created if absent. */
  function AddTo<K(==)>(m: map<K, set<int>>, k: K, v: int): map<K, set<int>>
  {
    m[k := (if k in m then m[k] else {}) + {v}]
  }

  lemma EdgesAddTo<S>(t: TransitionTable<S>, from: int, sym: S, to: int)
    ensures Edges(AddTo(t, (from, sym), to)) == Edges(t) + {(from, sym, to)}
  {
    var t' := AddTo(t, (from, sym), to);
    forall e | e in Edges(t') ensures e in Edges(t) + {(from, sym, to)} {
      EdgesMember(t', e.0, e.1, e.2);
      EdgesMember(t, e.0, e.1, e.2);
    }
    forall e | e in Edges(t) + {(from, sym, to)} ensures e in Edges(t') {
      EdgesMember(t', e.0, e.1, e.2);
      EdgesMember(t, e.0, e.1, e.2);
    }
  }

  lemma EpsEdgesAddTo(e: EpsilonTable, from: int, to: int)
    ensures EpsEdges(AddTo(e, from, to)) == EpsEdges(e) + {(from, to)}
  {
    var e' := AddTo(e, from, to);
    forall p | p in EpsEdges(e') ensures p in EpsEdges(e) + {(from, to)} {
      EpsEdgesMember(e', p.0, p.1);
      EpsEdgesMember(e, p.0, p.1);
    }
    forall p | p in EpsEdges(e) + {(from, to)} ensures p in EpsEdges(e') {
      EpsEdgesMember(e', p.0, p.1);
      EpsEdgesMember(e, p.0, p.1);
    }
  }

  /**
   * Mutable staging object: accumulates the state count, initial state,
   * finals and edges, and checks them once in `Build`.
   */
  class AutomatonBuilder<S(==)> {
    var numStates: int
    var transitions: TransitionTable<S>
    var epsilonTransitions: EpsilonTable
    var initialState: int
    var finalStates: set<int>

    constructor ()
      ensures numStates == 0 && initialState == 0 && finalStates == {}
      ensures transitions == map[] && epsilonTransitions == map[]
    {
      numStates := 0;
      transitions := map[];
      epsilonTransitions := map[];
      initialState := 0;
      finalStates := {};
    }

    /** The automaton the current fields describe. */
    function Current(): Automaton<S>
      reads this
    {
      Automaton(numStates, transitions, epsilonTransitions, initialState, finalStates)
    }

    method WithNumStates(n: int)
      modifies this`numStates
      ensures numStates == n
    {
      numStates := n;
    }

    method WithInitialState(s: int)
      modifies this`initialState
      ensures initialState == s
    {
      initialState := s;
    }

    method WithFinalState(s: int)
      modifies this`finalStates
      ensures finalStates == old(finalStates) + {s}
    {
      finalStates := finalStates + {s};
    }

    method WithFinalStates(states: set<int>)
      modifies this`finalStates
      ensures finalStates == states
    {
      finalStates := states;
    }

    method WithTransition(from: int, sym: S, to: int)
      modifies this`transitions
      ensures transitions == AddTo(old(transitions), (from, sym), to)
      ensures Edges(transitions) == Edges(old(transitions)) + {(from, sym, to)}
      ensures NoEmptyEntries(old(transitions)) ==> NoEmptyEntries(transitions)
    {
      EdgesAddTo(transitions, from, sym, to);
      var toStates := if (from, sym) in transitions then transitions[(from, sym)] else {};
      transitions := transitions[(from, sym) := toStates + {to}];
    }

    method WithTransitions(table: TransitionTable<S>)
      modifies this`transitions
      ensures transitions == table
    {
      transitions := table;
    }

    method WithEpsilonTransition(from: int, to: int)
      modifies this`epsilonTransitions
      ensures epsilonTransitions == AddTo(old(epsilonTransitions), from, to)
      ensures EpsEdges(epsilonTransitions) == EpsEdges(old(epsilonTransitions)) + {(from, to)}
      ensures NoEmptyEntries(old(epsilonTransitions)) ==> NoEmptyEntries(epsilonTransitions)
    {
      EpsEdgesAddTo(epsilonTransitions, from, to);
      var toStates := if from in epsilonTransitions then epsilonTransitions[from] else {};
      epsilonTransitions := epsilonTransitions[from := toStates + {to}];
    }

    /**
     * Checks the initial state, then every final state, then every transition
     * source and destination, then every epsilon source and destination, and
     * reports the first state found outside `0 .. numStates-1`.
     */
    method Validate() returns (bad: Option<int>)
      ensures bad.None? <==> WellFormed(Current())
      ensures bad.Some? ==> bad.value in Mentioned(Current()) && !InUniverse(bad.value, numStates)
      ensures !InUniverse(initialState, numStates) ==> bad == Some(initialState)
      ensures bad.Some? ==> bad.value in ReportedStates(Current())
    {
      WellFormedIffMentionedInUniverse(Current());
      if !InUniverse(initialState, numStates) {
        return Some(initialState);
      }
      var finals := finalStates;
      while finals != {}
        invariant finals <= finalStates
        invariant forall s | s in finalStates && s !in finals :: InUniverse(s, numStates)
      {
        ghost var some := SomeMember(finals);
        var s :| s in finals;
        if !InUniverse(s, numStates) {
          assert s in ReportedStates(Current());
          return Some(s);
        }
        finals := finals - {s};
      }
      var rows := transitions.Keys;
      while rows != {}
        invariant rows <= transitions.Keys
        invariant forall s | s in finalStates :: InUniverse(s, numStates)
        invariant forall k | k in transitions && k !in rows ::
          InUniverse(k.0, numStates) && forall s | s in transitions[k] :: InUniverse(s, numStates)
      {
        ghost var some := SomeMember(rows);
        var k :| k in rows;
        if !InUniverse(k.0, numStates) {
          assert k.0 in (set k | k in transitions :: k.0);
          assert k.0 in ReportedStates(Current());
          return Some(k.0);
        }
        var targets := transitions[k];
        while targets != {}
          invariant targets <= transitions[k]
          invariant forall s | s in transitions[k] && s !in targets :: InUniverse(s, numStates)
        {
          ghost var one := SomeMember(targets);
          var s :| s in targets;
          if !InUniverse(s, numStates) {
            assert s in (set k, s | k in transitions && s in transitions[k] :: s);
            assert s in ReportedStates(Current());
            return Some(s);
          }
          targets := targets - {s};
        }
        rows := rows - {k};
      }
      var sources := epsilonTransitions.Keys;
      while sources != {}
        invariant sources <= epsilonTransitions.Keys
        invariant forall s | s in finalStates :: InUniverse(s, numStates)
        invariant TableInUniverse(transitions, numStates)
        invariant forall from | from in epsilonTransitions && from !in sources ::
          InUniverse(from, numStates) && forall s | s in epsilonTransitions[from] :: InUniverse(s, numStates)
      {
        ghost var some := SomeMember(sources);
        var from :| from in sources;
        if !InUniverse(from, numStates) {
          assert from in (set f | f in epsilonTransitions :: f);
          assert from in ReportedStates(Current());
          return Some(from);
        }
        var targets := epsilonTransitions[from];
        while targets != {}
          invariant targets <= epsilonTransitions[from]
          invariant forall s | s in epsilonTransitions[from] && s !in targets :: InUniverse(s, numStates)
        {
          ghost var one := SomeMember(targets);
          var s :| s in targets;
          if !InUniverse(s, numStates) {
            assert s in (set f, s | f in epsilonTransitions && s in epsilonTransitions[f] :: s);
            assert s in ReportedStates(Current());
            return Some(s);
          }
          targets := targets - {s};
        }
        sources := sources - {from};
      }
      return None;
    }

    /** Validates, then hands out the automaton the fields describe. */
    method Build() returns (r: Result<Automaton<S>, InvalidAutomaton>)
      ensures r.Success? <==> WellFormed(Current())
      ensures r.Success? ==> r.value == Current()
      ensures r.Failure? ==> r.error.state in Mentioned(Current()) && !InUniverse(r.error.state, numStates)
      ensures !InUniverse(initialState, numStates) ==> r == Failure(InvalidAutomaton(initialState))
      ensures r.Failure? ==> r.error.state in ReportedStates(Current())
    {
      var bad := Validate();
      if bad.Some? {
        return Failure(InvalidAutomaton(bad.value));
      }
      return Success(Automaton(numStates, transitions, epsilonTransitions, initialState, finalStates));
    }
  }
}
