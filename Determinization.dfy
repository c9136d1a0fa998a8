/**
 * Subset construction. A breadth-first search over composite states, each the
 * epsilon-closure of a set of states of the input, numbered densely in the
 * order they are discovered; composite 0 is the closure of the initial state.
 * The output has no epsilon edges, exactly one destination for every recorded
 * (composite, symbol), and accepts exactly what the input accepts.
 */
module Determinization {
  import opened Wrappers
  import opened Automata
  import opened Runs

  // ---------------------------------------------------------------------------
  // What the construction builds
  // ---------------------------------------------------------------------------

  /** The symbols labelling some table entry out of a state of `c`. */
  ghost function SymbolsOut<S>(a: Automaton<S>, c: set<int>): set<S>
  {
    set k | k in a.transitions && k.0 in c :: k.1
  }

  /** The set under `k`, or the empty set when `k` has no entry. */
  function Lookup<K>(m: map<K, set<int>>, k: K): set<int>
  {
    if k in m then m[k] else {}
  }

  /** `ids` and `comps` are inverse numberings: composite `comps[i]` has id `i`. */
  ghost predicate Numbering(ids: map<set<int>, int>, comps: seq<set<int>>)
  {
    && |ids| == |comps|
    && (forall i | 0 <= i < |comps| :: comps[i] in ids && ids[comps[i]] == i)
    && (forall c | c in ids :: 0 <= ids[c] < |comps| && comps[ids[c]] == c)
  }

  /**
   * The entry `k` of the table `t` is the move of composite `k.0` on symbol
   * `k.1`: the symbol labels an edge out of the composite, and the entry holds
   * the single id of the closure of the composite's step on it.
   */
  ghost predicate RecordedMove<S>(a: Automaton<S>, comps: seq<set<int>>, t: map<(int, S), set<int>>, k: (int, S))
  {
    && k in t
    && 0 <= k.0 < |comps|
    && k.1 in SymbolsOut(a, comps[k.0])
    && |t[k]| == 1
    && forall j | j in t[k] :: 0 <= j < |comps| && comps[j] == Closure(a, Step(a, comps[k.0], k.1))
  }

  /** Every entry of `t` is a recorded move, and every composite has an entry for each of its symbols. */
  ghost predicate MoveTable<S>(a: Automaton<S>, comps: seq<set<int>>, t: map<(int, S), set<int>>)
  {
    && (forall k | k in t :: RecordedMove(a, comps, t, k))
    && (forall i, sym | 0 <= i < |comps| && sym in SymbolsOut(a, comps[i]) :: (i, sym) in t)
  }

  /**
   * `r` is the subset automaton of `a` whose state `i` stands for composite
   * `comps[i]`: one state per distinct composite, state 0 for the closure of
   * the initial state, no epsilon edges, the moves above, and a state final
   * iff its composite meets the finals of `a`.
   */
  ghost predicate Determinized<S>(a: Automaton<S>, r: Automaton<S>, comps: seq<set<int>>)
  {
    && r.numStates == |comps| && |comps| > 0
    && r.initialState == 0 && comps[0] == Closure(a, {a.initialState})
    && r.epsilonTransitions == map[]
    && (forall i, j | 0 <= i < |comps| && 0 <= j < |comps| && comps[i] == comps[j] :: i == j)
    && (forall i | 0 <= i < |comps| :: AllInUniverse(a, comps[i]))
    && MoveTable(a, comps, r.transitions)
    && (forall i :: i in r.finalStates <==> 0 <= i < |comps| && comps[i] * a.finalStates != {})
  }

  /** The ids of the composites that meet `finals`. */
  function FinalIds(ids: map<set<int>, int>, finals: set<int>): set<int>
  {
    set c | c in ids && c * finals != {} :: ids[c]
  }

  lemma FinalIdsMatchComposites(ids: map<set<int>, int>, comps: seq<set<int>>, finals: set<int>)
    requires Numbering(ids, comps)
    ensures forall i :: i in FinalIds(ids, finals) <==> 0 <= i < |comps| && comps[i] * finals != {}
  {
    forall i ensures i in FinalIds(ids, finals) <==> 0 <= i < |comps| && comps[i] * finals != {} {
      if 0 <= i < |comps| && comps[i] * finals != {} {
        assert comps[i] in ids && ids[comps[i]] == i;
      }
    }
  }

  // ---------------------------------------------------------------------------
  // Termination: composites are subsets of the universe
  // ---------------------------------------------------------------------------

  /** Every subset of 0 .. n-1. */
  ghost function Subsets(n: nat): set<set<int>>
  {
    if n == 0 then {{}} else Subsets(n - 1) + WithMember(Subsets(n - 1), n - 1)
  }

  /** Each set of `sets` with `x` added. */
  ghost function WithMember(sets: set<set<int>>, x: int): set<set<int>>
  {
    set s | s in sets :: s + {x}
  }

  lemma {:induction false} InSubsets(n: nat, s: set<int>)
    requires forall x | x in s :: 0 <= x < n
    ensures s in Subsets(n)
  {
    if n > 0 {
      var rest := s - {n - 1};
      InSubsets(n - 1, rest);
      if n - 1 in s {
        assert s == rest + {n - 1};
        assert rest + {n - 1} in WithMember(Subsets(n - 1), n - 1);
      } else {
        assert s == rest;
      }
    } else {
      assert forall x :: x !in s;
      assert s == {};
    }
  }

  /** One labelled step from states of the universe stays in the universe. */
  lemma StepInUniverse<S>(a: Automaton<S>, c: set<int>, sym: S)
    requires WellFormed(a) && AllInUniverse(a, c)
    ensures AllInUniverse(a, Step(a, c, sym))
  {
    forall t | t in Step(a, c, sym) ensures InUniverse(t, a.numStates) {
      var s :| s in c && t in AdjacentStates(a, s, sym);
      EdgeEndsInUniverse(a, s, sym, t);
    }
  }

  // ---------------------------------------------------------------------------
  // The moves of one composite (the two nested loops over its states)
  // ---------------------------------------------------------------------------

  /**
   * Adds one state's row to the moves collected so far: a symbol seen for the
   * first time gets an empty set, then the row's destinations are added.
   */
  method MergeRow<S(==)>(m: map<S, set<int>>, row: map<S, set<int>>) returns (r: map<S, set<int>>)
    ensures forall sym :: sym in r <==> sym in m || sym in row
    ensures forall sym | sym in r :: r[sym] == Lookup(m, sym) + Lookup(row, sym)
  {
    r := m;
    var symbols := row.Keys;
    while symbols != {}
      invariant symbols <= row.Keys
      invariant forall sym :: sym in r <==> sym in m || (sym in row && sym !in symbols)
      invariant forall sym | sym in r :: r[sym] == Lookup(m, sym) + (if sym in symbols then {} else Lookup(row, sym))
    {
      ghost var some := SomeMember(symbols);
      var sym :| sym in symbols;
      if sym !in r {
        r := r[sym := {}];
      }
      r := r[sym := r[sym] + row[sym]];
      symbols := symbols - {sym};
    }
  }

  lemma StepAddState<S>(a: Automaton<S>, done: set<int>, s: int, sym: S)
    ensures Step(a, done + {s}, sym) == Step(a, done, sym) + AdjacentStates(a, s, sym)
  {
    forall t | t in Step(a, done + {s}, sym) ensures t in Step(a, done, sym) + AdjacentStates(a, s, sym) {
      var u :| u in done + {s} && t in AdjacentStates(a, u, sym);
    }
  }

  lemma SymbolsOutAddState<S>(a: Automaton<S>, done: set<int>, s: int, sym: S)
    ensures sym in SymbolsOut(a, done + {s}) <==> sym in SymbolsOut(a, done) || (s, sym) in a.transitions
  {
    if sym in SymbolsOut(a, done + {s}) {
      var k :| k in a.transitions && k.0 in done + {s} && k.1 == sym;
      if k.0 in done {
        assert sym in SymbolsOut(a, done);
      }
    }
    if (s, sym) in a.transitions {
      assert (s, sym).0 in done + {s};
    }
    if sym in SymbolsOut(a, done) {
      var k :| k in a.transitions && k.0 in done && k.1 == sym;
      assert k.0 in done + {s};
    }
  }

  /**
   * For every state of the composite `c`, merges its row of the table: the
   * result maps each symbol out of `c` to the union of its destinations.
   */
  method CollectMoves<S(==,!new)>(a: Automaton<S>, c: set<int>) returns (moves: map<S, set<int>>)
    ensures forall sym :: sym in moves <==> sym in SymbolsOut(a, c)
    ensures forall sym | sym in moves :: moves[sym] == Step(a, c, sym)
  {
    moves := map[];
    var states := c;
    ghost var done: set<int> := {};
    while states != {}
      invariant states <= c && done == c - states
      invariant forall sym :: sym in moves <==> sym in SymbolsOut(a, done)
      invariant forall sym | sym in moves :: moves[sym] == Step(a, done, sym)
    {
      ghost var some := SomeMember(states);
      var state :| state in states;
      var row := StateTransitions(a, state);
      ghost var before := moves;
      moves := MergeRow(moves, row);
      forall sym ensures sym in moves <==> sym in SymbolsOut(a, done + {state}) {
        SymbolsOutAddState(a, done, state, sym);
      }
      forall sym | sym in moves ensures moves[sym] == Step(a, done + {state}, sym) {
        StepAddState(a, done, state, sym);
      }
      done := done + {state};
      states := states - {state};
    }
  }

  // ---------------------------------------------------------------------------
  // The search
  // ---------------------------------------------------------------------------

  /**
   * The bookkeeping of the search apart from the table: the numbering, the
   * start composite at id 0, composites within the universe, every queued
   * composite numbered, and every numbered composite visited or queued.
   */
  ghost predicate Frontier<S>(a: Automaton<S>, ids: map<set<int>, int>, comps: seq<set<int>>,
                              visited: set<set<int>>, queue: seq<set<int>>)
  {
    && Numbering(ids, comps)
    && |comps| > 0 && comps[0] == Closure(a, {a.initialState})
    && (forall i | 0 <= i < |comps| :: AllInUniverse(a, comps[i]))
    && (forall i | 0 <= i < |queue| :: queue[i] in ids)
    && visited <= ids.Keys
    && (forall c | c in ids :: c in visited || c in queue)
  }

  /** Every entry of the table is a recorded move out of a visited composite. */
  ghost predicate TableSound<S>(a: Automaton<S>, comps: seq<set<int>>, visited: set<set<int>>, t: map<(int, S), set<int>>)
  {
    forall k | k in t :: RecordedMove(a, comps, t, k) && comps[k.0] in visited
  }

  /** Every visited composite has an entry for each of its symbols. */
  ghost predicate TableComplete<S>(a: Automaton<S>, ids: map<set<int>, int>, visited: set<set<int>>, t: map<(int, S), set<int>>)
  {
    forall c, sym | c in visited && c in ids && sym in SymbolsOut(a, c) :: (ids[c], sym) in t
  }

  ghost predicate Search<S>(a: Automaton<S>, ids: map<set<int>, int>, comps: seq<set<int>>,
                            visited: set<set<int>>, queue: seq<set<int>>, t: map<(int, S), set<int>>)
  {
    Frontier(a, ids, comps, visited, queue) && TableSound(a, comps, visited, t) && TableComplete(a, ids, visited, t)
  }

  /** Taking the head off the queue and marking it visited keeps the frontier. */
  lemma FrontierPop<S>(a: Automaton<S>, ids: map<set<int>, int>, comps: seq<set<int>>,
                       visited: set<set<int>>, queue: seq<set<int>>)
    requires Frontier(a, ids, comps, visited, queue) && queue != []
    ensures Frontier(a, ids, comps, visited + {queue[0]}, queue[1..])
  {
    forall c | c in ids ensures c in visited + {queue[0]} || c in queue[1..] {
      if c !in visited && c != queue[0] {
        var i :| 0 <= i < |queue| && queue[i] == c;
        assert queue[1..][i - 1] == c;
      }
    }
  }

  /** A recorded move stays recorded when new composites are numbered. */
  lemma RecordedMoveGrows<S>(a: Automaton<S>, comps: seq<set<int>>, d: set<int>, t: map<(int, S), set<int>>, k: (int, S))
    requires RecordedMove(a, comps, t, k)
    ensures RecordedMove(a, comps + [d], t, k)
  {
    var comps' := comps + [d];
    assert comps'[k.0] == comps[k.0];
    forall j | j in t[k] ensures 0 <= j < |comps'| && comps'[j] == Closure(a, Step(a, comps'[k.0], k.1)) {
      assert comps'[j] == comps[j];
    }
  }

  /** Numbering a new composite `d` with the next id. */
  lemma AddComposite<S>(a: Automaton<S>, ids: map<set<int>, int>, comps: seq<set<int>>,
                        visited: set<set<int>>, done: set<set<int>>, queue: seq<set<int>>,
                        t: map<(int, S), set<int>>, d: set<int>)
    requires Frontier(a, ids, comps, visited, queue) && TableSound(a, comps, visited, t)
    requires TableComplete(a, ids, done, t) && done <= visited
    requires d !in ids && AllInUniverse(a, d)
    ensures Frontier(a, ids[d := |comps|], comps + [d], visited, queue + [d])
    ensures TableSound(a, comps + [d], visited, t)
    ensures TableComplete(a, ids[d := |comps|], done, t)
  {
    var ids' := ids[d := |comps|];
    var comps' := comps + [d];
    var queue' := queue + [d];
    assert |ids'| == |ids| + 1;
    forall i | 0 <= i < |comps'| ensures comps'[i] in ids' && ids'[comps'[i]] == i {
      if i < |comps| {
        assert comps'[i] == comps[i] && comps[i] in ids;
      }
    }
    forall i | 0 <= i < |comps'| ensures AllInUniverse(a, comps'[i]) {
      if i < |comps| {
        assert comps'[i] == comps[i];
      }
    }
    forall i | 0 <= i < |queue'| ensures queue'[i] in ids' {
      if i < |queue| {
        assert queue'[i] == queue[i];
      }
    }
    forall c | c in ids' ensures c in visited || c in queue' {
      if c != d {
        assert c in ids;
        if c !in visited {
          var i :| 0 <= i < |queue| && queue[i] == c;
          assert queue'[i] == c;
        }
      } else {
        assert queue'[|queue|] == d;
      }
    }
    forall k | k in t ensures RecordedMove(a, comps', t, k) && comps'[k.0] in visited {
      RecordedMoveGrows(a, comps, d, t, k);
    }
    forall c, sym | c in done && c in ids' && sym in SymbolsOut(a, c) ensures (ids'[c], sym) in t {
      assert c in ids && c != d;
    }
  }

  /** Queuing a composite that already has an id keeps the frontier. */
  lemma EnqueueNumbered<S>(a: Automaton<S>, ids: map<set<int>, int>, comps: seq<set<int>>,
                           visited: set<set<int>>, queue: seq<set<int>>, d: set<int>)
    requires Frontier(a, ids, comps, visited, queue) && d in ids
    ensures Frontier(a, ids, comps, visited, queue + [d])
  {
    var queue' := queue + [d];
    forall i | 0 <= i < |queue'| ensures queue'[i] in ids {
      if i < |queue| {
        assert queue'[i] == queue[i];
      }
    }
    forall c | c in ids ensures c in visited || c in queue' {
      if c !in visited {
        var i :| 0 <= i < |queue| && queue[i] == c;
        assert queue'[i] == c;
      }
    }
  }

  /** Recording the move of composite `c` (id `cid`) on `sym` into composite id `j`. */
  lemma RecordMove<S>(a: Automaton<S>, ids: map<set<int>, int>, comps: seq<set<int>>,
                      visited: set<set<int>>, done: set<set<int>>, t: map<(int, S), set<int>>,
                      c: set<int>, cid: int, sym: S, j: int)
    requires TableSound(a, comps, visited, t) && TableComplete(a, ids, done, t)
    requires c in visited && 0 <= cid < |comps| && comps[cid] == c
    requires sym in SymbolsOut(a, c)
    requires 0 <= j < |comps| && comps[j] == Closure(a, Step(a, c, sym))
    ensures TableSound(a, comps, visited, t[(cid, sym) := {j}])
    ensures TableComplete(a, ids, done, t[(cid, sym) := {j}])
    ensures RecordedMove(a, comps, t[(cid, sym) := {j}], (cid, sym))
  {
    var t' := t[(cid, sym) := {j}];
    forall k | k in t' ensures RecordedMove(a, comps, t', k) && comps[k.0] in visited {
      if k != (cid, sym) {
        assert RecordedMove(a, comps, t, k);
      }
    }
  }

  /**
   * The loop over the moves of the composite `c` just visited: each
   * destination is epsilon-closed, numbered with the next id if it is new,
   * recorded as the single destination of (id of `c`, symbol) and queued.
   */
  method ExpandComposite<S(==)>(a: Automaton<S>, ids: map<set<int>, int>, comps: seq<set<int>>,
                                done: set<set<int>>, queue: seq<set<int>>,
                                table: map<(int, S), set<int>>, c: set<int>, moves: map<S, set<int>>)
    returns (ids': map<set<int>, int>, comps': seq<set<int>>, queue': seq<set<int>>,
             table': map<(int, S), set<int>>)
    requires WellFormed(a)
    requires Frontier(a, ids, comps, done + {c}, queue) && TableSound(a, comps, done + {c}, table)
    requires TableComplete(a, ids, done, table) && c in ids
    requires forall sym :: sym in moves <==> sym in SymbolsOut(a, c)
    requires forall sym | sym in moves :: moves[sym] == Step(a, c, sym)
    ensures Search(a, ids', comps', done + {c}, queue', table')
  {
    ids', comps', queue', table' := ids, comps, queue, table;
    var compositeStateId := ids[c];
    var symbols := moves.Keys;
    while symbols != {}
      invariant symbols <= moves.Keys
      invariant Frontier(a, ids', comps', done + {c}, queue') && TableSound(a, comps', done + {c}, table')
      invariant TableComplete(a, ids', done, table')
      invariant c in ids' && ids'[c] == compositeStateId
      invariant forall sym | sym in moves && sym !in symbols :: (compositeStateId, sym) in table'
    {
      ghost var some := SomeMember(symbols);
      var sym :| sym in symbols;
      var destination := EpsilonClosure(a, moves[sym]);
      StepInUniverse(a, c, sym);
      ClosureInUniverse(a, moves[sym]);
      var destinationId: int;
      if destination in ids' {
        destinationId := ids'[destination];
        EnqueueNumbered(a, ids', comps', done + {c}, queue', destination);
      } else {
        destinationId := |ids'|;
        AddComposite(a, ids', comps', done + {c}, done, queue', table', destination);
        ids' := ids'[destination := destinationId];
        comps' := comps' + [destination];
      }
      queue' := queue' + [destination];
      RecordMove(a, ids', comps', done + {c}, done, table', c, compositeStateId, sym, destinationId);
      table' := table'[(compositeStateId, sym) := {destinationId}];
      symbols := symbols - {sym};
    }
    forall d, sym | d in done + {c} && d in ids' && sym in SymbolsOut(a, d) ensures (ids'[d], sym) in table' {
      if d != c {
        assert d in done;
      }
    }
  }

  /** At the start only the closure of the initial state is numbered, and it is queued. */
  lemma SearchStarts<S>(a: Automaton<S>, start: set<int>)
    requires WellFormed(a) && start == Closure(a, {a.initialState})
    ensures Search(a, map[start := 0], [start], {}, [start], map[])
  {
    ClosureInUniverse(a, {a.initialState});
    assert [start][0] == start;
  }

  /** Visiting a composite that has an id and was not visited shrinks the unvisited subsets. */
  lemma VisitShrinks<S>(a: Automaton<S>, ids: map<set<int>, int>, comps: seq<set<int>>,
                        visited: set<set<int>>, queue: seq<set<int>>, c: set<int>)
    requires WellFormed(a) && Frontier(a, ids, comps, visited, queue)
    requires queue != [] && c == queue[0] && c !in visited && visited <= Subsets(a.numStates)
    ensures visited + {c} <= Subsets(a.numStates)
    ensures |Subsets(a.numStates) - (visited + {c})| < |Subsets(a.numStates) - visited|
  {
    assert comps[ids[c]] == c;
    InSubsets(a.numStates, c);
    ProperSubsetSmaller(Subsets(a.numStates) - (visited + {c}), Subsets(a.numStates) - visited);
  }

  /** Once the queue is empty every numbered composite is visited and the table is the subset automaton's. */
  lemma SearchDone<S>(a: Automaton<S>, ids: map<set<int>, int>, comps: seq<set<int>>,
                      visited: set<set<int>>, t: map<(int, S), set<int>>)
    requires Search(a, ids, comps, visited, [], t)
    ensures Determinized(a, Automaton(|ids|, t, map[], 0, FinalIds(ids, a.finalStates)), comps)
  {
    FinalIdsMatchComposites(ids, comps, a.finalStates);
    forall i, j | 0 <= i < |comps| && 0 <= j < |comps| && comps[i] == comps[j] ensures i == j {
      assert ids[comps[i]] == i && ids[comps[j]] == j;
    }
    forall i, sym | 0 <= i < |comps| && sym in SymbolsOut(a, comps[i]) ensures (i, sym) in t {
      assert comps[i] in ids && ids[comps[i]] == i;
      assert comps[i] in visited;
    }
  }

  /** A subset automaton is well-formed: every id it mentions is below the number of composites. */
  lemma DeterminizedWellFormed<S>(a: Automaton<S>, r: Automaton<S>, comps: seq<set<int>>)
    requires Determinized(a, r, comps)
    ensures WellFormed(r)
  {
    forall k | k in r.transitions
      ensures InUniverse(k.0, r.numStates) && forall s | s in r.transitions[k] :: InUniverse(s, r.numStates)
    {
      assert RecordedMove(a, comps, r.transitions, k);
    }
  }

  // ---------------------------------------------------------------------------
  // The subset automaton accepts what the input accepts
  // ---------------------------------------------------------------------------

  /** A set of one element is that element's singleton. */
  lemma SingletonOf(s: set<int>, j: int)
    requires |s| == 1 && j in s
    ensures s == {j}
  {
    assert s == (s - {j}) + {j};
    assert |s - {j}| == 0;
  }

  /** A labelled step leads somewhere only on a symbol with a table entry out of the set. */
  lemma StepNeedsSymbol<S>(a: Automaton<S>, c: set<int>, x: S)
    ensures Step(a, c, x) != {} ==> x in SymbolsOut(a, c)
  {
    if Step(a, c, x) != {} {
      var t := SomeMember(Step(a, c, x));
      var s :| s in c && t in AdjacentStates(a, s, x);
      assert (s, x).0 in c;
    }
  }

  /**
   * One step of the subset automaton from state `i` on `x`: either both
   * automata occupy nothing afterwards, or the subset automaton occupies the
   * single state whose composite is what `a` occupies after stepping from
   * `comps[i]` and closing.
   */
  lemma DeterminizedMove<S>(a: Automaton<S>, r: Automaton<S>, comps: seq<set<int>>, i: int, x: S)
    requires Determinized(a, r, comps) && 0 <= i < |comps|
    ensures || (Closure(r, Step(r, {i}, x)) == {} && Closure(a, Step(a, comps[i], x)) == {})
            || (exists j | 0 <= j < |comps| :: Closure(r, Step(r, {i}, x)) == {j} && comps[j] == Closure(a, Step(a, comps[i], x)))
  {
    ClosureWithoutEpsilon(r, Step(r, {i}, x));
    assert Step(r, {i}, x) == AdjacentStates(r, i, x);
    if (i, x) in r.transitions {
      assert RecordedMove(a, comps, r.transitions, (i, x));
      var j := SomeMember(r.transitions[(i, x)]);
      SingletonOf(r.transitions[(i, x)], j);
      assert Step(r, {i}, x) == {j};
    } else {
      assert x !in SymbolsOut(a, comps[i]);
      StepNeedsSymbol(a, comps[i], x);
      assert Step(r, {i}, x) == {};
      ClosureOfEmpty(a);
    }
  }

  /** After any input, the subset automaton occupies nothing or the one state standing for what `a` occupies. */
  ghost predicate Tracks<S>(a: Automaton<S>, r: Automaton<S>, comps: seq<set<int>>, w: seq<S>)
  {
    || (Reach(r, w) == {} && Reach(a, w) == {})
    || (exists i | 0 <= i < |comps| :: Reach(r, w) == {i} && comps[i] == Reach(a, w))
  }

  lemma {:induction false} DeterminizedTracks<S>(a: Automaton<S>, r: Automaton<S>, comps: seq<set<int>>, w: seq<S>)
    requires Determinized(a, r, comps)
    ensures Tracks(a, r, comps, w)
    decreases |w|
  {
    if w == [] {
      ClosureWithoutEpsilon(r, {0});
      assert Reach(r, w) == {0};
    } else {
      var w' := w[..|w| - 1];
      var x := w[|w| - 1];
      assert w == w' + [x];
      DeterminizedTracks(a, r, comps, w');
      ReachSnoc(r, w', x);
      ReachSnoc(a, w', x);
      if Reach(r, w') == {} {
        assert Step(r, {}, x) == {} && Step(a, {}, x) == {};
        ClosureOfEmpty(r);
        ClosureOfEmpty(a);
      } else {
        var i :| 0 <= i < |comps| && Reach(r, w') == {i} && comps[i] == Reach(a, w');
        DeterminizedMove(a, r, comps, i, x);
      }
    }
  }

  /** The subset automaton accepts exactly what `a` accepts. */
  lemma DeterminizedLanguage<S>(a: Automaton<S>, r: Automaton<S>, comps: seq<set<int>>, w: seq<S>)
    requires Determinized(a, r, comps)
    ensures Accepted(r, w) <==> Accepted(a, w)
  {
    DeterminizedTracks(a, r, comps, w);
    if Reach(r, w) != {} {
      var i :| 0 <= i < |comps| && Reach(r, w) == {i} && comps[i] == Reach(a, w);
      assert Reach(r, w) * r.finalStates != {} <==> i in r.finalStates;
    }
  }

  // ---------------------------------------------------------------------------
  // The construction
  // ---------------------------------------------------------------------------

  /**
   * The builder chain that ends the construction: the number of composites,
   * initial state 0, the final ids and the table, validated by `Build`.
   */
  method BuildSubsetAutomaton<S(==)>(numStates: int, finalIds: set<int>, table: map<(int, S), set<int>>)
    returns (r: Automaton<S>)
    requires WellFormed(Automaton(numStates, table, map[], 0, finalIds))
    ensures r == Automaton(numStates, table, map[], 0, finalIds)
  {
    var builder := new AutomatonBuilder<S>();
    builder.WithNumStates(numStates);
    builder.WithInitialState(0);
    builder.WithFinalStates(finalIds);
    builder.WithTransitions(table);
    assert builder.numStates == numStates && builder.initialState == 0;
    assert builder.Current() == Automaton(numStates, table, map[], 0, finalIds);
    var result := builder.Build();
    r := result.value;
  }

  /**
   * The subset construction: a breadth-first search from the closure of the
   * initial state that expands each composite once, numbering destinations
   * in discovery order; then the builder receives the number of composites,
   * initial state 0, the ids of the composites meeting the finals and the
   * table of moves.
   */
  method Apply<S(==,!new)>(automaton: Automaton<S>) returns (r: Automaton<S>)
    requires WellFormed(automaton)
    ensures exists comps :: Determinized(automaton, r, comps)
    ensures WellFormed(r) && r.epsilonTransitions == map[] && r.initialState == 0
    ensures forall w :: Accepted(r, w) <==> Accepted(automaton, w)
  {
    var compositeStartState := EpsilonClosureOfState(automaton, automaton.initialState);
    var compositeStates := map[compositeStartState := 0];
    var comps := [compositeStartState];
    var bfsCompositeStates := [compositeStartState];
    var visitedCompositeStates: set<set<int>> := {};
    var compositeTransitions: map<(int, S), set<int>> := map[];
    SearchStarts(automaton, compositeStartState);
    while bfsCompositeStates != []
      invariant Search(automaton, compositeStates, comps, visitedCompositeStates, bfsCompositeStates, compositeTransitions)
      invariant visitedCompositeStates <= Subsets(automaton.numStates)
      decreases |Subsets(automaton.numStates) - visitedCompositeStates|, |bfsCompositeStates|
    {
      var compositeState := bfsCompositeStates[0];
      ghost var queued := bfsCompositeStates;
      FrontierPop(automaton, compositeStates, comps, visitedCompositeStates, bfsCompositeStates);
      bfsCompositeStates := bfsCompositeStates[1..];
      if compositeState in visitedCompositeStates {
        continue;
      }
      VisitShrinks(automaton, compositeStates, comps, visitedCompositeStates, queued, compositeState);
      var done := visitedCompositeStates;
      visitedCompositeStates := visitedCompositeStates + {compositeState};
      var moves := CollectMoves(automaton, compositeState);
      compositeStates, comps, bfsCompositeStates, compositeTransitions :=
        ExpandComposite(automaton, compositeStates, comps, done, bfsCompositeStates, compositeTransitions,
                        compositeState, moves);
    }
    var compositeFinalStateIds := FinalIds(compositeStates, automaton.finalStates);
    SearchDone(automaton, compositeStates, comps, visitedCompositeStates, compositeTransitions);
    ghost var built := Automaton(|compositeStates|, compositeTransitions, map[], 0, compositeFinalStateIds);
    DeterminizedWellFormed(automaton, built, comps);
    r := BuildSubsetAutomaton(|compositeStates|, compositeFinalStateIds, compositeTransitions);
    forall w ensures Accepted(r, w) <==> Accepted(automaton, w) {
      DeterminizedLanguage(automaton, r, comps, w);
    }
  }
}
