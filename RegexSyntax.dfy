/**
 * What a pattern means. The parser of `Regex.java` is specified here by a
 * recursive function over the pattern that yields either an expression tree
 * or the error the compiler raises; the tree is given both a language of
 * words and the Thompson automaton the compiler builds for it, and the two
 * are proved to agree.
 */
module RegexSyntax {
  import opened Wrappers
  import opened Decimal
  import opened Automata
  import Factory
  import Concatenation
  import Union
  import KleeneStar
  import ConcatenationLanguage
  import UnionLanguage
  import KleeneStarLanguage

  // The five characters with a meaning of their own.

  predicate IsUnionOperator(c: char) { c == '|' }

  predicate IsKleeneStarOperator(c: char) { c == '*' }

  predicate IsGroupBeginning(c: char) { c == '(' }

  predicate IsGroupEnding(c: char) { c == ')' }

  predicate IsCatchAllOperator(c: char) { c == '.' }

  /** The tree of a compiled pattern: atoms, the two binary folds, and the star of one atom. */
  datatype Expr =
    | EmptyInput
    | Literal(c: char)
    | AnyChar
    | Concat(left: Expr, right: Expr)
    | Alt(left: Expr, right: Expr)
    | Star(body: Expr)

  /** The compile errors, each naming the pattern index it was detected at. */
  datatype RegexError =
    | StrayClosingGroup(index: int)
    | StrayOpeningGroup(index: int)
    | NoMatchingGroupClose(index: int)
    | NothingPrecedesStar(index: int)
    | NonQuantifiableBeforeStar(index: int)
  {
    /** The exception message, spelled as the compiler spells it. */
    function Message(): string {
      match this
      case StrayClosingGroup(i) => "Stray closing group at index " + IntToString(i)
      case StrayOpeningGroup(i) => "Stray opening group at index " + IntToString(i)
      case NoMatchingGroupClose(i) => "No matching group close for index " + IntToString(i)
      case NothingPrecedesStar(i) => "No expression preceeds Kleene star at index " + IntToString(i)
      case NonQuantifiableBeforeStar(i) => "Non-quantifiable expression preceeding Kleene star at index " + IntToString(i)
    }
  }

  // ---------------------------------------------------------------------------
  // Language and automaton of an expression

  /** The words an expression describes; the wildcard ranges over `alphabet`. */
  ghost predicate InLanguage(e: Expr, alphabet: set<char>, w: string)
    decreases e, |w|
  {
    match e
    case EmptyInput => w == []
    case Literal(c) => w == [c]
    case AnyChar => |w| == 1 && w[0] in alphabet
    case Concat(l, r) =>
      exists j | 0 <= j <= |w| :: InLanguage(l, alphabet, w[..j]) && InLanguage(r, alphabet, w[j..])
    case Alt(l, r) => InLanguage(l, alphabet, w) || InLanguage(r, alphabet, w)
    case Star(b) =>
      w == [] || exists j | 0 <= j < |w| :: InLanguage(e, alphabet, w[..j]) && InLanguage(b, alphabet, w[j..])
  }

  /** The automaton the compiler builds for an expression, from the factory and the combinators. */
  ghost function AutomatonOf(e: Expr, alphabet: set<char>): Automaton<char>
  {
    match e
    case EmptyInput => Factory.EmptyInput()
    case Literal(c) => Factory.SingleSymbol(c)
    case AnyChar => Factory.AllSymbols(alphabet)
    case Concat(l, r) => Concatenation.Concatenated(AutomatonOf(l, alphabet), AutomatonOf(r, alphabet))
    case Alt(l, r) => Union.United(AutomatonOf(l, alphabet), AutomatonOf(r, alphabet))
    case Star(b) => KleeneStar.Starred(AutomatonOf(b, alphabet))
  }

  lemma {:induction false} AutomatonOfWellFormed(e: Expr, alphabet: set<char>)
    ensures WellFormed(AutomatonOf(e, alphabet))
  {
    match e
    case EmptyInput =>
    case Literal(c) =>
    case AnyChar =>
    case Concat(l, r) =>
      AutomatonOfWellFormed(l, alphabet);
      AutomatonOfWellFormed(r, alphabet);
      Concatenation.ConcatenatedWellFormed(AutomatonOf(l, alphabet), AutomatonOf(r, alphabet));
    case Alt(l, r) =>
      AutomatonOfWellFormed(l, alphabet);
      AutomatonOfWellFormed(r, alphabet);
      Union.UnitedWellFormed(AutomatonOf(l, alphabet), AutomatonOf(r, alphabet));
    case Star(b) =>
      AutomatonOfWellFormed(b, alphabet);
      KleeneStar.StarredWellFormed(AutomatonOf(b, alphabet));
  }

  /** Iterating an automaton accepts what iterating its expression describes. */
  lemma {:induction false} StarOfAutomatonOf(b: Expr, alphabet: set<char>, w: string)
    requires forall v :: Accepted(AutomatonOf(b, alphabet), v) <==> InLanguage(b, alphabet, v)
    ensures KleeneStarLanguage.InStar(AutomatonOf(b, alphabet), w) <==> InLanguage(Star(b), alphabet, w)
    decreases |w|
  {
    if w != [] {
      forall j | 0 <= j < |w|
        ensures KleeneStarLanguage.InStar(AutomatonOf(b, alphabet), w[..j]) <==> InLanguage(Star(b), alphabet, w[..j])
      {
        StarOfAutomatonOf(b, alphabet, w[..j]);
      }
    }
  }

  /** The automaton of an expression accepts exactly the expression's language. */
  lemma {:induction false} AutomatonOfLanguage(e: Expr, alphabet: set<char>, w: string)
    ensures Accepted(AutomatonOf(e, alphabet), w) <==> InLanguage(e, alphabet, w)
  {
    match e
    case EmptyInput => Factory.EmptyInputLanguage(w);
    case Literal(c) => Factory.SingleSymbolLanguage(c, w);
    case AnyChar => Factory.AllSymbolsLanguage(alphabet, w);
    case Concat(l, r) =>
      AutomatonOfWellFormed(l, alphabet);
      AutomatonOfWellFormed(r, alphabet);
      ConcatenationLanguage.ConcatenationLanguage(AutomatonOf(l, alphabet), AutomatonOf(r, alphabet), w);
      forall j | 0 <= j <= |w|
        ensures Accepted(AutomatonOf(l, alphabet), w[..j]) <==> InLanguage(l, alphabet, w[..j])
        ensures Accepted(AutomatonOf(r, alphabet), w[j..]) <==> InLanguage(r, alphabet, w[j..])
      {
        AutomatonOfLanguage(l, alphabet, w[..j]);
        AutomatonOfLanguage(r, alphabet, w[j..]);
      }
    case Alt(l, r) =>
      AutomatonOfWellFormed(l, alphabet);
      AutomatonOfWellFormed(r, alphabet);
      UnionLanguage.UnionLanguage(AutomatonOf(l, alphabet), AutomatonOf(r, alphabet), w);
      AutomatonOfLanguage(l, alphabet, w);
      AutomatonOfLanguage(r, alphabet, w);
    case Star(b) =>
      AutomatonOfWellFormed(b, alphabet);
      KleeneStarLanguage.StarLanguage(AutomatonOf(b, alphabet), w);
      forall v ensures Accepted(AutomatonOf(b, alphabet), v) <==> InLanguage(b, alphabet, v) {
        AutomatonOfLanguage(b, alphabet, v);
      }
      StarOfAutomatonOf(b, alphabet, w);
  }

  // ---------------------------------------------------------------------------
  // Folds and the parser

  /** Atoms of a run folded from the left with concatenation. */
  function ConcatAll(es: seq<Expr>): Expr
    requires es != []
  {
    if |es| == 1 then es[0] else Concat(ConcatAll(es[..|es| - 1]), es[|es| - 1])
  }

  /** Branches folded from the left with union. */
  function AltAll(es: seq<Expr>): Expr
    requires es != []
  {
    if |es| == 1 then es[0] else Alt(AltAll(es[..|es| - 1]), es[|es| - 1])
  }

  /** What a run closed by `|` or by the end of its range stands for. */
  function RunOf(run: seq<Expr>): Expr {
    if run == [] then EmptyInput else ConcatAll(run)
  }

  /**
   * The scan for the `)` of a group opened at `g`, from `index` on: the
   * index just past the `)`, or the error that stops it.
   */
  function GroupClose(p: string, g: int, index: int): (r: Result<int, RegexError>)
    requires 0 <= index <= |p|
    ensures r.Success? ==>
      index < r.value <= |p| && IsGroupEnding(p[r.value - 1])
      && forall k | index <= k < r.value - 1 :: !IsGroupBeginning(p[k]) && !IsGroupEnding(p[k])
    ensures r.Failure? ==>
      (r.error.StrayOpeningGroup? || r.error == NoMatchingGroupClose(g))
    ensures r.Failure? && r.error.StrayOpeningGroup? ==>
      index <= r.error.index < |p| && IsGroupBeginning(p[r.error.index])
      && forall k | index <= k < r.error.index :: !IsGroupBeginning(p[k]) && !IsGroupEnding(p[k])
    ensures r == Failure(NoMatchingGroupClose(g)) ==>
      forall k | index <= k < |p| :: !IsGroupBeginning(p[k]) && !IsGroupEnding(p[k])
    decreases |p| - index
  {
    if index == |p| then Failure(NoMatchingGroupClose(g))
    else if IsGroupBeginning(p[index]) then Failure(StrayOpeningGroup(index))
    else if IsGroupEnding(p[index]) then Success(index + 1)
    else GroupClose(p, g, index + 1)
  }

  /** A group opened at `g`: its inner expression and the index parsing resumes at. */
  function ParseGroup(p: string, g: int): (r: Result<(Expr, int), RegexError>)
    requires 0 <= g < |p|
    ensures r.Success? ==> g + 1 < r.value.1 <= |p|
    decreases |p| - g, 0
  {
    match GroupClose(p, g, g + 1)
    case Failure(e) => Failure(e)
    case Success(c) =>
      match ParseRange(p, g + 1, c - 1)
      case Failure(e) => Failure(e)
      case Success(inner) => Success((inner, c))
  }

  /**
   * The main loop of the compiler from `index` on, with the branches closed
   * so far, the atoms of the current run and whether the last atom may take
   * a star.
   */
  function ParseFrom(p: string, end: int, index: int, branches: seq<Expr>, run: seq<Expr>, quantifiable: bool)
    : Result<Expr, RegexError>
    requires 0 <= index <= |p| && end <= |p|
    decreases |p| - index, 1
  {
    if index >= end then Success(AltAll(branches + [RunOf(run)]))
    else
      var c := p[index];
      if IsGroupEnding(c) then Failure(StrayClosingGroup(index))
      else if IsGroupBeginning(c) then
        match ParseGroup(p, index)
        case Failure(e) => Failure(e)
        case Success(group) => ParseFrom(p, end, group.1, branches, run + [group.0], true)
      else if IsUnionOperator(c) then ParseFrom(p, end, index + 1, branches + [RunOf(run)], [], quantifiable)
      else if IsKleeneStarOperator(c) then
        if run == [] then Failure(NothingPrecedesStar(index))
        else if !quantifiable then Failure(NonQuantifiableBeforeStar(index))
        else ParseFrom(p, end, index + 1, branches, run[..|run| - 1] + [Star(run[|run| - 1])], false)
      else if IsCatchAllOperator(c) then ParseFrom(p, end, index + 1, branches, run + [AnyChar], true)
      else ParseFrom(p, end, index + 1, branches, run + [Literal(c)], true)
  }

  /** The pattern range `[start, end)` compiled to an expression, or the first error met. */
  function ParseRange(p: string, start: int, end: int): Result<Expr, RegexError>
    requires 0 <= start <= |p| && end <= |p|
    decreases |p| - start, 2
  {
    ParseFrom(p, end, start, [], [], true)
  }

  /** The words a whole pattern matches: none if it does not compile. */
  ghost predicate PatternMatches(p: string, alphabet: set<char>, w: string) {
    var r := ParseRange(p, 0, |p|);
    r.Success? && InLanguage(r.value, alphabet, w)
  }
}
