/**
 * The regex compiler of `Regex.java`: a builder holding the pattern, the
 * loop-plus-recursion parser that builds the Thompson automaton directly
 * while it scans, the two folds, and the compiled regex that determinizes
 * the automaton once and then matches inputs against it. Every method is
 * proved to compute what the parser function of `RegexSyntax` specifies.
 */
module RegexCompiler {
  import opened Wrappers
  import opened Automata
  import opened RegexSyntax
  import Factory
  import Concatenation
  import Union
  import KleeneStar
  import Determinization

  /** The compiler's result on a parse: the automaton of the expression, or the same error. */
  ghost function Compiled(r: Result<Expr, RegexError>, alphabet: set<char>): Result<Automaton<char>, RegexError> {
    match r
    case Success(e) => Success(AutomatonOf(e, alphabet))
    case Failure(err) => Failure(err)
  }

  /** `autos` holds, position by position, the automata of the expressions `es`. */
  ghost predicate Mirrors(autos: seq<Automaton<char>>, es: seq<Expr>, alphabet: set<char>) {
    |autos| == |es| && forall k | 0 <= k < |es| :: autos[k] == AutomatonOf(es[k], alphabet)
  }

  lemma MirrorsAppend(autos: seq<Automaton<char>>, es: seq<Expr>, alphabet: set<char>, e: Expr)
    requires Mirrors(autos, es, alphabet)
    ensures Mirrors(autos + [AutomatonOf(e, alphabet)], es + [e], alphabet)
  {
  }

  lemma MirrorsStarLast(autos: seq<Automaton<char>>, es: seq<Expr>, alphabet: set<char>)
    requires es != [] && Mirrors(autos, es, alphabet)
    ensures Mirrors(autos[..|autos| - 1] + [KleeneStar.Starred(autos[|autos| - 1])],
                    es[..|es| - 1] + [Star(es[|es| - 1])], alphabet)
  {
  }

  /** Left fold of a non-empty list of atoms with concatenation; one atom is returned unchanged. */
  method Concatenated(automata: seq<Automaton<char>>, es: seq<Expr>, alphabet: set<char>)
    returns (out: Automaton<char>)
    requires es != [] && Mirrors(automata, es, alphabet)
    ensures out == AutomatonOf(ConcatAll(es), alphabet)
  {
    out := automata[0];
    var first := true;
    for i := 0 to |automata|
      invariant first <==> i == 0
      invariant i == 0 ==> out == automata[0]
      invariant i > 0 ==> out == AutomatonOf(ConcatAll(es[..i]), alphabet)
    {
      if first {
        first := false;
        assert es[..1] == [es[0]];
      } else {
        AutomatonOfWellFormed(ConcatAll(es[..i]), alphabet);
        AutomatonOfWellFormed(es[i], alphabet);
        out := Concatenation.Apply(out, automata[i]);
        assert es[..i + 1][..i] == es[..i];
      }
    }
    assert es[..|automata|] == es;
  }

  /** Left fold of a non-empty list of branches with union; one branch is returned unchanged. */
  method Unioned(automata: seq<Automaton<char>>, es: seq<Expr>, alphabet: set<char>)
    returns (out: Automaton<char>)
    requires es != [] && Mirrors(automata, es, alphabet)
    ensures out == AutomatonOf(AltAll(es), alphabet)
  {
    out := automata[0];
    var first := true;
    for i := 0 to |automata|
      invariant first <==> i == 0
      invariant i == 0 ==> out == automata[0]
      invariant i > 0 ==> out == AutomatonOf(AltAll(es[..i]), alphabet)
    {
      if first {
        first := false;
        assert es[..1] == [es[0]];
      } else {
        AutomatonOfWellFormed(AltAll(es[..i]), alphabet);
        AutomatonOfWellFormed(es[i], alphabet);
        out := Union.Apply(out, automata[i]);
        assert es[..i + 1][..i] == es[..i];
      }
    }
    assert es[..|automata|] == es;
  }

  /** Closes the current run: the empty-input automaton for an empty run, else the run's fold. */
  method CloseRun(run: seq<Automaton<char>>, es: seq<Expr>, alphabet: set<char>)
    returns (out: Automaton<char>)
    requires Mirrors(run, es, alphabet)
    ensures out == AutomatonOf(RunOf(es), alphabet)
  {
    if run == [] {
      out := Factory.EmptyInput();
    } else {
      out := Concatenated(run, es, alphabet);
    }
  }

  /**
   * The scanning loop of a group opened at `g`: walks right until the first
   * `)`, failing on a `(` met on the way or on reaching the end of the
   * pattern; on success the index just past the `)`.
   */
  method FindGroupClose(p: string, g: int) returns (r: Result<int, RegexError>)
    requires 0 <= g < |p|
    ensures r == GroupClose(p, g, g + 1)
  {
    var index := g + 1;
    var foundClose := false;
    while index < |p|
      invariant g + 1 <= index <= |p|
      invariant GroupClose(p, g, index) == GroupClose(p, g, g + 1)
      decreases |p| - index
    {
      var c := p[index];
      if IsGroupBeginning(c) {
        return Failure(StrayOpeningGroup(index));
      }
      index := index + 1;
      if IsGroupEnding(c) {
        foundClose := true;
        break;
      }
    }
    if !foundClose {
      return Failure(NoMatchingGroupClose(g));
    }
    r := Success(index);
  }

  /**
   * The group opened at `g`: finds its `)`, compiles the inside, and returns
   * it with the index just past the `)`.
   */
  method AutomatonForGroup(p: string, g: int, alphabet: set<char>)
    returns (res: Result<(Automaton<char>, int), RegexError>)
    requires 0 <= g < |p|
    ensures ParseGroup(p, g).Success? ==>
      res == Success((AutomatonOf(ParseGroup(p, g).value.0, alphabet), ParseGroup(p, g).value.1))
    ensures ParseGroup(p, g).Failure? ==> res == Failure(ParseGroup(p, g).error)
    decreases |p| - g, 0
  {
    var close := FindGroupClose(p, g);
    if close.Failure? {
      return Failure(close.error);
    }
    var inner := AutomatonForRange(p, g + 1, close.value - 1, alphabet);
    if inner.Failure? {
      return Failure(inner.error);
    }
    res := Success((inner.value, close.value));
  }

  /**
   * One character of the main loop other than a parenthesis: `|` closes the
   * current run into a branch, `*` stars the last atom of the run, `.` and
   * any other character append an atom. Returns the error the character
   * raises, or the loop's new lists and flag.
   */
  method ParseOperatorOrAtom(p: string, end: int, index: int, alphabet: set<char>,
                             concatenated: seq<Automaton<char>>, current: seq<Automaton<char>>, quantifiable: bool,
                             branches: seq<Expr>, run: seq<Expr>)
    returns (failure: Option<RegexError>,
             concatenated': seq<Automaton<char>>, current': seq<Automaton<char>>, quantifiable': bool,
             branches': seq<Expr>, run': seq<Expr>)
    requires 0 <= index < end <= |p| && !IsGroupEnding(p[index]) && !IsGroupBeginning(p[index])
    requires Mirrors(concatenated, branches, alphabet) && Mirrors(current, run, alphabet)
    ensures failure.Some? ==> ParseFrom(p, end, index, branches, run, quantifiable) == Failure(failure.value)
    ensures failure.None? ==>
      Mirrors(concatenated', branches', alphabet) && Mirrors(current', run', alphabet)
      && ParseFrom(p, end, index, branches, run, quantifiable) == ParseFrom(p, end, index + 1, branches', run', quantifiable')
  {
    failure, concatenated', current', quantifiable', branches', run' := None, concatenated, current, quantifiable, branches, run;
    var c := p[index];
    if IsUnionOperator(c) {
      var closed := CloseRun(current, run, alphabet);
      MirrorsAppend(concatenated, branches, alphabet, RunOf(run));
      concatenated' := concatenated + [closed];
      branches' := branches + [RunOf(run)];
      current', run' := [], [];
    } else if IsKleeneStarOperator(c) {
      if current == [] {
        return Some(NothingPrecedesStar(index)), concatenated, current, quantifiable, branches, run;
      }
      if !quantifiable {
        return Some(NonQuantifiableBeforeStar(index)), concatenated, current, quantifiable, branches, run;
      }
      quantifiable' := false;
      AutomatonOfWellFormed(run[|run| - 1], alphabet);
      var starred := KleeneStar.Apply(current[|current| - 1]);
      MirrorsStarLast(current, run, alphabet);
      current' := current[..|current| - 1] + [starred];
      run' := run[..|run| - 1] + [Star(run[|run| - 1])];
    } else if IsCatchAllOperator(c) {
      MirrorsAppend(current, run, alphabet, AnyChar);
      current' := current + [Factory.AllSymbols(alphabet)];
      run' := run + [AnyChar];
      quantifiable' := true;
    } else {
      MirrorsAppend(current, run, alphabet, Literal(c));
      current' := current + [Factory.SingleSymbol(c)];
      run' := run + [Literal(c)];
      quantifiable' := true;
    }
  }

  /**
   * The range `[start, end)` of the pattern compiled to an automaton, or the
   * first error met. The lists of the source are sequences that are
   * reassigned; lists of expressions shadow them to tie each automaton to its expression.
   */
  method AutomatonForRange(p: string, start: int, end: int, alphabet: set<char>)
    returns (res: Result<Automaton<char>, RegexError>)
    requires 0 <= start <= |p| && end <= |p|
    ensures res == Compiled(ParseRange(p, start, end), alphabet)
    decreases |p| - start, 1
  {
    var index := start;
    var concatenated: seq<Automaton<char>> := [];
    var current: seq<Automaton<char>> := [];
    var quantifiable := true;
    var branches: seq<Expr> := [];
    var run: seq<Expr> := [];
    while index < end
      invariant start <= index <= |p|
      invariant Mirrors(concatenated, branches, alphabet) && Mirrors(current, run, alphabet)
      invariant ParseFrom(p, end, index, branches, run, quantifiable) == ParseRange(p, start, end)
      decreases |p| - index
    {
      var c := p[index];
      if IsGroupEnding(c) {
        return Failure(StrayClosingGroup(index));
      } else if IsGroupBeginning(c) {
        var out := AutomatonForGroup(p, index, alphabet);
        if out.Failure? {
          return Failure(out.error);
        }
        var group := ParseGroup(p, index).value;
        MirrorsAppend(current, run, alphabet, group.0);
        current := current + [out.value.0];
        run := run + [group.0];
        quantifiable := true;
        index := out.value.1;
      } else {
        var failure;
        failure, concatenated, current, quantifiable, branches, run :=
          ParseOperatorOrAtom(p, end, index, alphabet, concatenated, current, quantifiable, branches, run);
        if failure.Some? {
          return Failure(failure.value);
        }
        index := index + 1;
      }
    }
    var closed := CloseRun(current, run, alphabet);
    MirrorsAppend(concatenated, branches, alphabet, RunOf(run));
    concatenated := concatenated + [closed];
    branches := branches + [RunOf(run)];
    var out := Unioned(concatenated, branches, alphabet);
    res := Success(out);
  }

  /** A compiled regex: the pattern and the determinized automaton it compiled to. */
  datatype Regex = Regex(pattern: string, compiledAutomaton: Automaton<char>)
  {
    /** Runs the compiled automaton over the characters of `input`. */
    method Matches(input: string) returns (b: bool)
      ensures b == Accepted(compiledAutomaton, input)
    {
      b := Accepts(compiledAutomaton, input);
    }
  }

  /** The staging object of the compiler: it holds the pattern until `Build`. */
  class RegexBuilder {
    var pattern: Option<string>

    constructor()
      ensures pattern == None
    {
      pattern := None;
    }

    method WithPattern(p: string)
      modifies this
      ensures pattern == Some(p)
    {
      pattern := Some(p);
    }

    /**
     * Compiles the whole pattern and determinizes the result once. A pattern
     * that compiles yields a regex that matches exactly the words the pattern
     * describes; one that does not yields the compiler's error.
     */
    method Build(alphabet: set<char>) returns (res: Result<Regex, RegexError>)
      requires pattern.Some?
      ensures res.Failure? <==> ParseRange(pattern.value, 0, |pattern.value|).Failure?
      ensures res.Failure? ==> res.error == ParseRange(pattern.value, 0, |pattern.value|).error
      ensures res.Success? ==>
        res.value.pattern == pattern.value
        && WellFormed(res.value.compiledAutomaton)
        && res.value.compiledAutomaton.epsilonTransitions == map[]
        && (exists comps :: Determinization.Determinized(
              AutomatonOf(ParseRange(pattern.value, 0, |pattern.value|).value, alphabet),
              res.value.compiledAutomaton, comps))
      ensures res.Success? ==>
        forall w :: Accepted(res.value.compiledAutomaton, w) <==> PatternMatches(pattern.value, alphabet, w)
    {
      var p := pattern.value;
      var compiled := AutomatonForRange(p, 0, |p|, alphabet);
      if compiled.Failure? {
        return Failure(compiled.error);
      }
      ghost var e := ParseRange(p, 0, |p|).value;
      AutomatonOfWellFormed(e, alphabet);
      var determinized := Determinization.Apply(compiled.value);
      forall w ensures Accepted(determinized, w) <==> PatternMatches(p, alphabet, w) {
        AutomatonOfLanguage(e, alphabet, w);
      }
      res := Success(Regex(p, determinized));
    }
  }
}
