/**
 * General facts about what patterns match: a pattern without operator
 * characters matches exactly itself, and the star of a one-character
 * expression matches exactly the words over that expression's characters.
 */
module RegexProperties {
  import opened Wrappers
  import opened RegexSyntax

  /** No character of `s` has a meaning of its own to the compiler. */
  predicate Plain(s: string) {
    forall k | 0 <= k < |s| ::
      !IsUnionOperator(s[k]) && !IsKleeneStarOperator(s[k]) && !IsGroupBeginning(s[k])
      && !IsGroupEnding(s[k]) && !IsCatchAllOperator(s[k])
  }

  /** One literal atom per character. */
  function Literals(s: string): seq<Expr> {
    seq(|s|, k requires 0 <= k < |s| => Literal(s[k]))
  }

  /** Every character of `w` is in `chars`. */
  predicate AllIn(w: string, chars: set<char>) {
    forall k | 0 <= k < |w| :: w[k] in chars
  }

  /** On a plain range the main loop only appends literal atoms, one per character. */
  lemma {:induction false} PlainParseFrom(p: string, start: int, end: int, i: int)
    requires 0 <= start <= i <= end <= |p| && Plain(p[start..end])
    ensures ParseFrom(p, end, i, [], Literals(p[start..i]), true) == Success(RunOf(Literals(p[start..end])))
    decreases end - i
  {
    if i == end {
      assert [] + [RunOf(Literals(p[start..end]))] == [RunOf(Literals(p[start..end]))];
    } else {
      assert p[i] == p[start..end][i - start];
      assert Literals(p[start..i]) + [Literal(p[i])] == Literals(p[start..i + 1]);
      PlainParseFrom(p, start, end, i + 1);
    }
  }

  /** A range without operator characters compiles to the fold of its literals. */
  lemma PlainRange(p: string, start: int, end: int)
    requires 0 <= start <= end <= |p| && Plain(p[start..end])
    ensures ParseRange(p, start, end) == Success(RunOf(Literals(p[start..end])))
  {
    assert Literals(p[start..start]) == [];
    PlainParseFrom(p, start, end, start);
  }

  /** The fold of the literals of a non-empty word describes that word and nothing else. */
  lemma {:induction false} LiteralsLanguage(s: string, alphabet: set<char>, w: string)
    requires s != []
    ensures InLanguage(ConcatAll(Literals(s)), alphabet, w) <==> w == s
    decreases |s|
  {
    var n := |s|;
    if n == 1 {
      assert s == [s[0]];
    } else {
      var init := s[..n - 1];
      assert Literals(s)[..n - 1] == Literals(init);
      var left := ConcatAll(Literals(init));
      assert ConcatAll(Literals(s)) == Concat(left, Literal(s[n - 1]));
      if InLanguage(ConcatAll(Literals(s)), alphabet, w) {
        var j :| 0 <= j <= |w| && InLanguage(left, alphabet, w[..j]) && InLanguage(Literal(s[n - 1]), alphabet, w[j..]);
        LiteralsLanguage(init, alphabet, w[..j]);
        assert w == w[..j] + w[j..];
        assert s == init + [s[n - 1]];
      }
      if w == s {
        LiteralsLanguage(init, alphabet, w[..n - 1]);
        assert w[n - 1..] == [s[n - 1]];
        assert InLanguage(left, alphabet, w[..n - 1]) && InLanguage(Literal(s[n - 1]), alphabet, w[n - 1..]);
      }
    }
  }

  /** A pattern without operator characters compiles and matches exactly itself. */
  lemma PlainPatternMatchesItself(p: string, alphabet: set<char>, w: string)
    requires Plain(p)
    ensures ParseRange(p, 0, |p|).Success?
    ensures PatternMatches(p, alphabet, w) <==> w == p
  {
    assert p[0..|p|] == p;
    PlainRange(p, 0, |p|);
    if p != [] {
      LiteralsLanguage(p, alphabet, w);
    }
  }

  lemma {:induction false} StarWordsOverChars(e: Expr, alphabet: set<char>, chars: set<char>, w: string)
    requires forall v :: InLanguage(e, alphabet, v) <==> |v| == 1 && v[0] in chars
    requires InLanguage(Star(e), alphabet, w)
    ensures AllIn(w, chars)
    decreases |w|
  {
    if w != [] {
      var n := |w|;
      var j :| 0 <= j < n && InLanguage(Star(e), alphabet, w[..j]) && InLanguage(e, alphabet, w[j..]);
      assert j == n - 1;
      StarWordsOverChars(e, alphabet, chars, w[..j]);
      assert w[n - 1] == w[j..][0];
      assert forall k | 0 <= k < n - 1 :: w[k] == w[..j][k];
    }
  }

  lemma {:induction false} WordsOverCharsInStar(e: Expr, alphabet: set<char>, chars: set<char>, w: string)
    requires forall v :: InLanguage(e, alphabet, v) <==> |v| == 1 && v[0] in chars
    requires AllIn(w, chars)
    ensures InLanguage(Star(e), alphabet, w)
    decreases |w|
  {
    if w != [] {
      var n := |w|;
      WordsOverCharsInStar(e, alphabet, chars, w[..n - 1]);
      assert w[n - 1..] == [w[n - 1]];
      assert InLanguage(Star(e), alphabet, w[..n - 1]) && InLanguage(e, alphabet, w[n - 1..]);
    }
  }

  /**
   * If `e` describes exactly the one-character words over `chars`, its star
   * describes exactly the words over `chars`, the empty word included.
   */
  lemma StarOfOneChar(e: Expr, alphabet: set<char>, chars: set<char>, w: string)
    requires forall v :: InLanguage(e, alphabet, v) <==> |v| == 1 && v[0] in chars
    ensures InLanguage(Star(e), alphabet, w) <==> AllIn(w, chars)
  {
    if InLanguage(Star(e), alphabet, w) {
      StarWordsOverChars(e, alphabet, chars, w);
    }
    if AllIn(w, chars) {
      WordsOverCharsInStar(e, alphabet, chars, w);
    }
  }

  /** The star of a literal matches exactly the repetitions of its character. */
  lemma StarOfLiteral(c: char, alphabet: set<char>, w: string)
    ensures InLanguage(Star(Literal(c)), alphabet, w) <==> AllIn(w, {c})
  {
    forall v ensures InLanguage(Literal(c), alphabet, v) <==> |v| == 1 && v[0] in {c} {
      if |v| == 1 && v[0] == c {
        assert v == [c];
      }
    }
    StarOfOneChar(Literal(c), alphabet, {c}, w);
  }

  /** The star of the wildcard matches exactly the words over the alphabet. */
  lemma StarOfAnyChar(alphabet: set<char>, w: string)
    ensures InLanguage(Star(AnyChar), alphabet, w) <==> AllIn(w, alphabet)
  {
    StarOfOneChar(AnyChar, alphabet, alphabet, w);
  }

  /** An expression led by a literal describes that character followed by a word of the rest. */
  lemma LeadingLiteral(c: char, r: Expr, alphabet: set<char>, w: string)
    ensures InLanguage(Concat(Literal(c), r), alphabet, w) <==> |w| >= 1 && w[0] == c && InLanguage(r, alphabet, w[1..])
  {
    if InLanguage(Concat(Literal(c), r), alphabet, w) {
      var j :| 0 <= j <= |w| && InLanguage(Literal(c), alphabet, w[..j]) && InLanguage(r, alphabet, w[j..]);
      assert |w[..j]| == 1;
    }
    if |w| >= 1 && w[0] == c && InLanguage(r, alphabet, w[1..]) {
      assert w[..1] == [c];
    }
  }
}
