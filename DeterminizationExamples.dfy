/**
 * The automata `DeterminizationTest` determinizes, built from the factory
 * and the combinators, and the inputs their determinized forms accept and
 * reject. The facts hold for every result the subset construction may
 * produce, whatever order it discovers composite states in.
 */
module DeterminizationExamples {
  import opened Automata
  import opened Determinization
  import opened RegexSyntax
  import opened RegexProperties

  /**
   * `a` united with the concatenation of `b` and `c`: by the definition of
   * `AutomatonOf`, the union of the single-symbol automaton for `a` with the
   * concatenation of those for `b` and `c`.
   */
  ghost function AOrBC(): Automaton<char> {
    AutomatonOf(Alt(Literal('a'), Concat(Literal('b'), Literal('c'))), {})
  }

  /** `a` concatenated with the union of `b` and `c`, built the same way. */
  ghost function AThenBOrC(): Automaton<char> {
    AutomatonOf(Concat(Literal('a'), Alt(Literal('b'), Literal('c'))), {})
  }

  /** A determinized form of the automaton of an expression accepts exactly the expression's language. */
  lemma DeterminizedExpression(e: Expr, alphabet: set<char>, r: Automaton<char>, comps: seq<set<int>>, w: string)
    requires Determinized(AutomatonOf(e, alphabet), r, comps)
    ensures Accepted(r, w) <==> InLanguage(e, alphabet, w)
  {
    DeterminizedLanguage(AutomatonOf(e, alphabet), r, comps, w);
    AutomatonOfLanguage(e, alphabet, w);
  }

  lemma AOrBCWords(w: string)
    ensures InLanguage(Alt(Literal('a'), Concat(Literal('b'), Literal('c'))), {}, w) <==> w == "a" || w == "bc"
  {
    LeadingLiteral('b', Literal('c'), {}, w);
    if |w| >= 1 && w[0] == 'b' && w[1..] == "c" {
      assert w == [w[0]] + w[1..];
    }
  }

  lemma AThenBOrCWords(w: string)
    ensures InLanguage(Concat(Literal('a'), Alt(Literal('b'), Literal('c'))), {}, w) <==> w == "ab" || w == "ac"
  {
    LeadingLiteral('a', Alt(Literal('b'), Literal('c')), {}, w);
    if |w| >= 1 && w[0] == 'a' && (w[1..] == "b" || w[1..] == "c") {
      assert w == [w[0]] + w[1..];
    }
  }

  /** What the determinized form of `AOrBC` accepts. */
  lemma DeterminizedAOrBCLanguage(r: Automaton<char>, comps: seq<set<int>>, w: string)
    requires Determinized(AOrBC(), r, comps)
    ensures Accepted(r, w) <==> w == "a" || w == "bc"
  {
    DeterminizedExpression(Alt(Literal('a'), Concat(Literal('b'), Literal('c'))), {}, r, comps, w);
    AOrBCWords(w);
  }

  lemma DeterminizedAOrBCExamples(r: Automaton<char>, comps: seq<set<int>>)
    requires Determinized(AOrBC(), r, comps)
    ensures Accepted(r, "a") && Accepted(r, "bc")
    ensures !Accepted(r, "b") && !Accepted(r, "c") && !Accepted(r, "ac")
  {
    DeterminizedAOrBCLanguage(r, comps, "a");
    DeterminizedAOrBCLanguage(r, comps, "bc");
    DeterminizedAOrBCLanguage(r, comps, "b");
    DeterminizedAOrBCLanguage(r, comps, "c");
    DeterminizedAOrBCLanguage(r, comps, "ac");
  }

  /** What the determinized form of `AThenBOrC` accepts. */
  lemma DeterminizedAThenBOrCLanguage(r: Automaton<char>, comps: seq<set<int>>, w: string)
    requires Determinized(AThenBOrC(), r, comps)
    ensures Accepted(r, w) <==> w == "ab" || w == "ac"
  {
    DeterminizedExpression(Concat(Literal('a'), Alt(Literal('b'), Literal('c'))), {}, r, comps, w);
    AThenBOrCWords(w);
  }

  lemma DeterminizedAThenBOrCExamples(r: Automaton<char>, comps: seq<set<int>>)
    requires Determinized(AThenBOrC(), r, comps)
    ensures Accepted(r, "ab") && Accepted(r, "ac")
    ensures !Accepted(r, "a") && !Accepted(r, "b") && !Accepted(r, "c")
  {
    DeterminizedAThenBOrCLanguage(r, comps, "ab");
    DeterminizedAThenBOrCLanguage(r, comps, "ac");
    DeterminizedAThenBOrCLanguage(r, comps, "a");
    DeterminizedAThenBOrCLanguage(r, comps, "b");
    DeterminizedAThenBOrCLanguage(r, comps, "c");
  }
}
