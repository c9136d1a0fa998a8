/**
 * The behaviour the regex tests describe, stated over the specification
 * of the compiler: which patterns fail with which message, and which words
 * a compiled pattern matches. `RegexBuilder.Build` yields an automaton that
 * accepts exactly the words of `PatternMatches`, so each fact here is a fact
 * about `Regex.Matches`.
 */
module RegexExamples {
  import opened Wrappers
  import opened RegexSyntax
  import opened RegexProperties

  lemma EmptyPatternMatchesOnlyEmptyInput(alphabet: set<char>, w: string)
    ensures PatternMatches("", alphabet, w) <==> w == ""
  {
    PlainPatternMatchesItself("", alphabet, w);
  }

  lemma SingleCharPattern(alphabet: set<char>)
    ensures PatternMatches("a", alphabet, "a")
    ensures !PatternMatches("a", alphabet, "b") && !PatternMatches("a", alphabet, "")
  {
    PlainPatternMatchesItself("a", alphabet, "a");
    PlainPatternMatchesItself("a", alphabet, "b");
    PlainPatternMatchesItself("a", alphabet, "");
  }

  lemma LiteralStringPattern(alphabet: set<char>)
    ensures PatternMatches("abc", alphabet, "abc")
    ensures !PatternMatches("abc", alphabet, "bac") && !PatternMatches("abc", alphabet, "ab")
    ensures !PatternMatches("abc", alphabet, "a") && !PatternMatches("abc", alphabet, "")
  {
    PlainPatternMatchesItself("abc", alphabet, "abc");
    PlainPatternMatchesItself("abc", alphabet, "bac");
    PlainPatternMatchesItself("abc", alphabet, "ab");
    PlainPatternMatchesItself("abc", alphabet, "a");
    PlainPatternMatchesItself("abc", alphabet, "");
  }

  lemma UnmatchedGroup()
    ensures ParseRange("a(bc", 0, 4) == Failure(NoMatchingGroupClose(1))
    ensures NoMatchingGroupClose(1).Message() == "No matching group close for index 1"
  {
  }

  lemma StrayClosingGroupError()
    ensures ParseRange("ab)c", 0, 4) == Failure(StrayClosingGroup(2))
    ensures StrayClosingGroup(2).Message() == "Stray closing group at index 2"
  {
  }

  lemma StrayOpeningGroupError()
    ensures ParseRange("a(b(c)", 0, 6) == Failure(StrayOpeningGroup(3))
    ensures StrayOpeningGroup(3).Message() == "Stray opening group at index 3"
  {
  }

  lemma StarWithNothingBefore()
    ensures ParseRange("*", 0, 1) == Failure(NothingPrecedesStar(0))
    ensures NothingPrecedesStar(0).Message() == "No expression preceeds Kleene star at index 0"
    ensures ParseRange("a|*", 0, 3) == Failure(NothingPrecedesStar(2))
    ensures NothingPrecedesStar(2).Message() == "No expression preceeds Kleene star at index 2"
  {
  }

  lemma StarAfterStar()
    ensures ParseRange(".**", 0, 3) == Failure(NonQuantifiableBeforeStar(2))
    ensures NonQuantifiableBeforeStar(2).Message() == "Non-quantifiable expression preceeding Kleene star at index 2"
  {
  }

  /** `a|bc` parses as a union of `a` with the concatenation `bc`. */
  lemma ConcatenationBindsTighterThanUnion(alphabet: set<char>, w: string)
    ensures PatternMatches("a|bc", alphabet, w) <==> w == "a" || w == "bc"
  {
    var p := "a|bc";
    var a, b, c := Literal('a'), Literal('b'), Literal('c');
    assert p[0] == 'a' && p[1] == '|' && p[2] == 'b' && p[3] == 'c';
    assert [] + [a] == [a] && [] + [RunOf([a])] == [a] && [] + [b] == [b] && [b] + [c] == [b, c];
    assert ParseFrom(p, 4, 0, [], [], true) == ParseFrom(p, 4, 1, [], [a], true);
    assert ParseFrom(p, 4, 1, [], [a], true) == ParseFrom(p, 4, 2, [a], [], true);
    assert ParseFrom(p, 4, 2, [a], [], true) == ParseFrom(p, 4, 3, [a], [b], true);
    assert ParseFrom(p, 4, 3, [a], [b], true) == ParseFrom(p, 4, 4, [a], [b, c], true);
    assert Literals("bc") == [b, c];
    assert [a] + [ConcatAll([b, c])] == [a, ConcatAll([b, c])];
    assert AltAll([a, ConcatAll([b, c])]) == Alt(AltAll([a]), ConcatAll([b, c]));
    assert ParseRange(p, 0, 4) == Success(Alt(a, ConcatAll(Literals("bc"))));
    LiteralsLanguage("bc", alphabet, w);
    assert PatternMatches(p, alphabet, w) <==> InLanguage(Alt(a, ConcatAll(Literals("bc"))), alphabet, w);
    assert InLanguage(a, alphabet, w) <==> w == "a";
  }

  /** In `ac*` the star applies to `c` only: the pattern matches `a` followed by any number of `c`. */
  lemma StarBindsTighterThanConcatenation(alphabet: set<char>, w: string)
    ensures PatternMatches("ac*", alphabet, w) <==> |w| >= 1 && w[0] == 'a' && AllIn(w[1..], {'c'})
  {
    var p := "ac*";
    var a, c := Literal('a'), Literal('c');
    assert p[0] == 'a' && p[1] == 'c' && p[2] == '*';
    assert [] + [a] == [a] && [a] + [c] == [a, c] && [a, c][..1] + [Star(c)] == [a, Star(c)];
    assert ParseFrom(p, 3, 0, [], [], true) == ParseFrom(p, 3, 1, [], [a], true);
    assert ParseFrom(p, 3, 1, [], [a], true) == ParseFrom(p, 3, 2, [], [a, c], true);
    assert ParseFrom(p, 3, 2, [], [a, c], true) == ParseFrom(p, 3, 3, [], [a, Star(c)], false);
    assert [] + [RunOf([a, Star(c)])] == [ConcatAll([a, Star(c)])];
    assert ConcatAll([a, Star(c)]) == Concat(ConcatAll([a]), Star(c));
    assert ParseRange(p, 0, 3) == Success(Concat(a, Star(c)));
    LeadingLiteral('a', Star(c), alphabet, w);
    if |w| >= 1 {
      StarOfLiteral('c', alphabet, w[1..]);
    }
  }

  lemma StarBindsTighterThanConcatenationExamples(alphabet: set<char>)
    ensures PatternMatches("ac*", alphabet, "a") && PatternMatches("ac*", alphabet, "ac")
    ensures PatternMatches("ac*", alphabet, "acc")
    ensures !PatternMatches("ac*", alphabet, "acac") && !PatternMatches("ac*", alphabet, "")
  {
    StarBindsTighterThanConcatenation(alphabet, "a");
    StarBindsTighterThanConcatenation(alphabet, "ac");
    StarBindsTighterThanConcatenation(alphabet, "acc");
    StarBindsTighterThanConcatenation(alphabet, "acac");
    StarBindsTighterThanConcatenation(alphabet, "");
    assert "acac"[1..][1] == 'a';
  }

  /** `(abc)*` parses as the star of the group's concatenation. */
  lemma ParseStarredGroup()
    ensures ParseRange("(abc)*", 0, 6) == Success(Star(ConcatAll(Literals("abc"))))
  {
    var p := "(abc)*";
    assert p[0] == '(' && p[1] == 'a' && p[2] == 'b' && p[3] == 'c' && p[4] == ')' && p[5] == '*';
    assert GroupClose(p, 0, 1) == Success(5);
    assert p[1..4] == "abc";
    PlainRange(p, 1, 4);
    var abc := ConcatAll(Literals("abc"));
    assert ParseGroup(p, 0) == Success((abc, 5));
    assert [] + [abc] == [abc] && [abc][..0] + [Star(abc)] == [Star(abc)];
    assert ParseFrom(p, 6, 0, [], [], true) == ParseFrom(p, 6, 5, [], [abc], true);
    assert ParseFrom(p, 6, 5, [], [abc], true) == ParseFrom(p, 6, 6, [], [Star(abc)], false);
    assert [] + [RunOf([Star(abc)])] == [Star(abc)];
  }

  lemma StarOfGroupAccepts(alphabet: set<char>)
    ensures PatternMatches("(abc)*", alphabet, "") && PatternMatches("(abc)*", alphabet, "abc")
    ensures PatternMatches("(abc)*", alphabet, "abcabc")
  {
    ParseStarredGroup();
    var abc := ConcatAll(Literals("abc"));
    LiteralsLanguage("abc", alphabet, "abc");
    assert "abc"[..0] == "" && "abc"[0..] == "abc";
    assert InLanguage(Star(abc), alphabet, "abc");
    assert "abcabc"[..3] == "abc" && "abcabc"[3..] == "abc";
  }

  lemma StarOfGroupRejects(alphabet: set<char>)
    ensures !PatternMatches("(abc)*", alphabet, "ab") && !PatternMatches("(abc)*", alphabet, "abcd")
  {
    ParseStarredGroup();
    var abc := ConcatAll(Literals("abc"));
    forall j | 0 <= j < 2 ensures !InLanguage(abc, alphabet, "ab"[j..]) {
      LiteralsLanguage("abc", alphabet, "ab"[j..]);
      assert |"ab"[j..]| < 3;
    }
    forall j | 0 <= j < 4 ensures !InLanguage(abc, alphabet, "abcd"[j..]) {
      LiteralsLanguage("abc", alphabet, "abcd"[j..]);
      if j == 1 {
        assert "abcd"[j..][0] == 'b';
      } else {
        assert |"abcd"[j..]| != 3;
      }
    }
  }

  /** The two groups of `(abc)|(def)`, each closed by the first `)` after it. */
  lemma GroupsOfUnion()
    ensures ParseGroup("(abc)|(def)", 0) == Success((ConcatAll(Literals("abc")), 5))
    ensures ParseGroup("(abc)|(def)", 6) == Success((ConcatAll(Literals("def")), 11))
  {
    var p := "(abc)|(def)";
    assert p[0] == '(' && p[1] == 'a' && p[2] == 'b' && p[3] == 'c' && p[4] == ')' && p[5] == '|';
    assert p[6] == '(' && p[7] == 'd' && p[8] == 'e' && p[9] == 'f' && p[10] == ')';
    assert GroupClose(p, 0, 1) == Success(5);
    assert GroupClose(p, 6, 7) == Success(11);
    assert p[1..4] == "abc" && p[7..10] == "def";
    PlainRange(p, 1, 4);
    PlainRange(p, 7, 10);
  }

  /** `(abc)|(def)` is the union of two groups. */
  lemma ParseUnionBetweenTwoGroups()
    ensures ParseRange("(abc)|(def)", 0, 11) == Success(Alt(ConcatAll(Literals("abc")), ConcatAll(Literals("def"))))
  {
    var p := "(abc)|(def)";
    assert p[0] == '(' && p[5] == '|' && p[6] == '(';
    GroupsOfUnion();
    var abc, def := ConcatAll(Literals("abc")), ConcatAll(Literals("def"));
    assert [] + [abc] == [abc] && [] + [RunOf([abc])] == [abc] && [] + [def] == [def];
    assert [abc] + [RunOf([def])] == [abc, def];
    assert ParseFrom(p, 11, 0, [], [], true) == ParseFrom(p, 11, 5, [], [abc], true);
    assert ParseFrom(p, 11, 5, [], [abc], true) == ParseFrom(p, 11, 6, [abc], [], true);
    assert ParseFrom(p, 11, 6, [abc], [], true) == ParseFrom(p, 11, 11, [abc], [def], true);
    assert AltAll([abc, def]) == Alt(AltAll([abc]), def);
  }

  lemma UnionBetweenTwoGroups(alphabet: set<char>, w: string)
    ensures PatternMatches("(abc)|(def)", alphabet, w) <==> w == "abc" || w == "def"
  {
    ParseUnionBetweenTwoGroups();
    LiteralsLanguage("abc", alphabet, w);
    LiteralsLanguage("def", alphabet, w);
  }

  lemma UnionBetweenTwoGroupsExamples(alphabet: set<char>)
    ensures PatternMatches("(abc)|(def)", alphabet, "abc") && PatternMatches("(abc)|(def)", alphabet, "def")
    ensures !PatternMatches("(abc)|(def)", alphabet, "aef") && !PatternMatches("(abc)|(def)", alphabet, "abf")
  {
    UnionBetweenTwoGroups(alphabet, "abc");
    UnionBetweenTwoGroups(alphabet, "def");
    UnionBetweenTwoGroups(alphabet, "aef");
    UnionBetweenTwoGroups(alphabet, "abf");
  }

  /** Each `|` at the top level adds one branch. */
  lemma ParseMultipleUnions()
    ensures ParseRange("a|b|c|d", 0, 7)
         == Success(Alt(Alt(Alt(Literal('a'), Literal('b')), Literal('c')), Literal('d')))
  {
    var p := "a|b|c|d";
    var a, b, c, d := Literal('a'), Literal('b'), Literal('c'), Literal('d');
    assert p[0] == 'a' && p[1] == '|' && p[2] == 'b' && p[3] == '|' && p[4] == 'c' && p[5] == '|' && p[6] == 'd';
    assert [] + [a] == [a] && [] + [b] == [b] && [] + [c] == [c] && [] + [d] == [d];
    assert [] + [RunOf([a])] == [a] && [a] + [RunOf([b])] == [a, b] && [a, b] + [RunOf([c])] == [a, b, c];
    assert [a, b, c] + [RunOf([d])] == [a, b, c, d];
    assert ParseFrom(p, 7, 0, [], [], true) == ParseFrom(p, 7, 1, [], [a], true);
    assert ParseFrom(p, 7, 1, [], [a], true) == ParseFrom(p, 7, 2, [a], [], true);
    assert ParseFrom(p, 7, 2, [a], [], true) == ParseFrom(p, 7, 3, [a], [b], true);
    assert ParseFrom(p, 7, 3, [a], [b], true) == ParseFrom(p, 7, 4, [a, b], [], true);
    assert ParseFrom(p, 7, 4, [a, b], [], true) == ParseFrom(p, 7, 5, [a, b], [c], true);
    assert ParseFrom(p, 7, 5, [a, b], [c], true) == ParseFrom(p, 7, 6, [a, b, c], [], true);
    assert ParseFrom(p, 7, 6, [a, b, c], [], true) == ParseFrom(p, 7, 7, [a, b, c], [d], true);
    assert AltAll([a, b]) == Alt(AltAll([a]), b);
    assert AltAll([a, b, c]) == Alt(AltAll([a, b]), c);
    assert AltAll([a, b, c, d]) == Alt(AltAll([a, b, c]), d);
  }

  lemma MultipleUnions(alphabet: set<char>, w: string)
    ensures PatternMatches("a|b|c|d", alphabet, w) <==> w == "a" || w == "b" || w == "c" || w == "d"
  {
    var p := "a|b|c|d";
    var a, b, c, d := Literal('a'), Literal('b'), Literal('c'), Literal('d');
    ParseMultipleUnions();
    assert PatternMatches(p, alphabet, w) <==> InLanguage(Alt(Alt(Alt(a, b), c), d), alphabet, w);
    assert InLanguage(a, alphabet, w) <==> w == "a";
    assert InLanguage(b, alphabet, w) <==> w == "b";
    assert InLanguage(c, alphabet, w) <==> w == "c";
    assert InLanguage(d, alphabet, w) <==> w == "d";
    assert InLanguage(Alt(a, b), alphabet, w) <==> w == "a" || w == "b";
    assert InLanguage(Alt(Alt(a, b), c), alphabet, w) <==> w == "a" || w == "b" || w == "c";
  }

  lemma MultipleUnionsExamples(alphabet: set<char>)
    ensures PatternMatches("a|b|c|d", alphabet, "a") && PatternMatches("a|b|c|d", alphabet, "b")
    ensures PatternMatches("a|b|c|d", alphabet, "c") && PatternMatches("a|b|c|d", alphabet, "d")
    ensures !PatternMatches("a|b|c|d", alphabet, "e") && !PatternMatches("a|b|c|d", alphabet, "")
  {
    MultipleUnions(alphabet, "a");
    MultipleUnions(alphabet, "b");
    MultipleUnions(alphabet, "c");
    MultipleUnions(alphabet, "d");
    MultipleUnions(alphabet, "e");
    MultipleUnions(alphabet, "");
  }

  /** An empty side of a `|` is the empty-input automaton, so the pattern also matches "". */
  lemma EmptyLeftOfUnion(alphabet: set<char>, w: string)
    ensures PatternMatches("|b", alphabet, w) <==> w == "" || w == "b"
  {
    var b := Literal('b');
    var p := "|b";
    assert p[0] == '|' && p[1] == 'b';
    assert [] + [b] == [b] && [] + [RunOf([])] == [EmptyInput] && [EmptyInput] + [RunOf([b])] == [EmptyInput, b];
    assert ParseFrom(p, 2, 0, [], [], true) == ParseFrom(p, 2, 1, [EmptyInput], [], true);
    assert ParseFrom(p, 2, 1, [EmptyInput], [], true) == ParseFrom(p, 2, 2, [EmptyInput], [b], true);
    assert AltAll([EmptyInput, b]) == Alt(AltAll([EmptyInput]), b);
    assert ParseRange(p, 0, 2) == Success(Alt(EmptyInput, b));
    assert PatternMatches(p, alphabet, w) <==> InLanguage(Alt(EmptyInput, b), alphabet, w);
    assert InLanguage(b, alphabet, w) <==> w == "b";
  }

  lemma EmptyRightOfUnion(alphabet: set<char>, w: string)
    ensures PatternMatches("a|", alphabet, w) <==> w == "a" || w == ""
  {
    var a := Literal('a');
    var p := "a|";
    assert p[0] == 'a' && p[1] == '|';
    assert [] + [a] == [a] && [] + [RunOf([a])] == [a] && [a] + [RunOf([])] == [a, EmptyInput];
    assert ParseFrom(p, 2, 0, [], [], true) == ParseFrom(p, 2, 1, [], [a], true);
    assert ParseFrom(p, 2, 1, [], [a], true) == ParseFrom(p, 2, 2, [a], [], true);
    assert AltAll([a, EmptyInput]) == Alt(AltAll([a]), EmptyInput);
    assert ParseRange(p, 0, 2) == Success(Alt(a, EmptyInput));
    assert PatternMatches(p, alphabet, w) <==> InLanguage(Alt(a, EmptyInput), alphabet, w);
    assert InLanguage(a, alphabet, w) <==> w == "a";
  }

  /** `w` is a run of `a`s, then a run of `b`s, then a run of `c`s, each possibly empty. */
  ghost predicate ThreeRuns(w: string, a: char, b: char, c: char) {
    exists i, j | 0 <= i <= j <= |w| :: AllIn(w[..i], {a}) && AllIn(w[i..j], {b}) && AllIn(w[j..], {c})
  }

  lemma ParseThreeStars()
    ensures ParseRange("a*b*c*", 0, 6)
         == Success(Concat(Concat(Star(Literal('a')), Star(Literal('b'))), Star(Literal('c'))))
  {
    var p := "a*b*c*";
    var a, b, c := Literal('a'), Literal('b'), Literal('c');
    var sa, sb, sc := Star(a), Star(b), Star(c);
    assert p[0] == 'a' && p[1] == '*' && p[2] == 'b' && p[3] == '*' && p[4] == 'c' && p[5] == '*';
    assert [] + [a] == [a] && [a][..0] + [sa] == [sa] && [sa] + [b] == [sa, b];
    assert [sa, b][..1] + [sb] == [sa, sb] && [sa, sb] + [c] == [sa, sb, c];
    assert [sa, sb, c][..2] + [sc] == [sa, sb, sc];
    assert ParseFrom(p, 6, 0, [], [], true) == ParseFrom(p, 6, 1, [], [a], true);
    assert ParseFrom(p, 6, 1, [], [a], true) == ParseFrom(p, 6, 2, [], [sa], false);
    assert ParseFrom(p, 6, 2, [], [sa], false) == ParseFrom(p, 6, 3, [], [sa, b], true);
    assert ParseFrom(p, 6, 3, [], [sa, b], true) == ParseFrom(p, 6, 4, [], [sa, sb], false);
    assert ParseFrom(p, 6, 4, [], [sa, sb], false) == ParseFrom(p, 6, 5, [], [sa, sb, c], true);
    assert ParseFrom(p, 6, 5, [], [sa, sb, c], true) == ParseFrom(p, 6, 6, [], [sa, sb, sc], false);
    assert [] + [RunOf([sa, sb, sc])] == [ConcatAll([sa, sb, sc])];
    assert ConcatAll([sa, sb]) == Concat(ConcatAll([sa]), sb);
    assert ConcatAll([sa, sb, sc]) == Concat(ConcatAll([sa, sb]), sc);
  }

  /** `a*b*c*` matches exactly the words made of a run of each letter in that order. */
  lemma MultipleKleeneStars(alphabet: set<char>, w: string)
    ensures PatternMatches("a*b*c*", alphabet, w) <==> ThreeRuns(w, 'a', 'b', 'c')
  {
    ParseThreeStars();
    var sa, sb, sc := Star(Literal('a')), Star(Literal('b')), Star(Literal('c'));
    if PatternMatches("a*b*c*", alphabet, w) {
      var j :| 0 <= j <= |w| && InLanguage(Concat(sa, sb), alphabet, w[..j]) && InLanguage(sc, alphabet, w[j..]);
      var i :| 0 <= i <= j && InLanguage(sa, alphabet, w[..j][..i]) && InLanguage(sb, alphabet, w[..j][i..]);
      assert w[..j][..i] == w[..i] && w[..j][i..] == w[i..j];
      StarOfLiteral('a', alphabet, w[..i]);
      StarOfLiteral('b', alphabet, w[i..j]);
      StarOfLiteral('c', alphabet, w[j..]);
    }
    if ThreeRuns(w, 'a', 'b', 'c') {
      var i, j :| 0 <= i <= j <= |w| && AllIn(w[..i], {'a'}) && AllIn(w[i..j], {'b'}) && AllIn(w[j..], {'c'});
      assert w[..j][..i] == w[..i] && w[..j][i..] == w[i..j];
      StarOfLiteral('a', alphabet, w[..i]);
      StarOfLiteral('b', alphabet, w[i..j]);
      StarOfLiteral('c', alphabet, w[j..]);
      assert InLanguage(Concat(sa, sb), alphabet, w[..j]);
    }
  }

  /** `n` copies of `c`. */
  function Repeat(c: char, n: nat): (r: string)
    ensures |r| == n && AllIn(r, {c})
  {
    seq(n, _ => c)
  }

  /** Any number of `a`s, then of `b`s, then of `c`s, matches `a*b*c*`. */
  lemma RunsMatchThreeStars(alphabet: set<char>, i: nat, j: nat, k: nat)
    ensures PatternMatches("a*b*c*", alphabet, Repeat('a', i) + Repeat('b', j) + Repeat('c', k))
  {
    var w := Repeat('a', i) + Repeat('b', j) + Repeat('c', k);
    assert w[..i] == Repeat('a', i) && w[i..i + j] == Repeat('b', j) && w[i + j..] == Repeat('c', k);
    MultipleKleeneStars(alphabet, w);
  }

  /** The words `RegexTest` checks against `a*b*c*` with at most one of each letter, all matched. */
  lemma MultipleKleeneStarsExamples(alphabet: set<char>)
    ensures PatternMatches("a*b*c*", alphabet, "") && PatternMatches("a*b*c*", alphabet, "a")
    ensures PatternMatches("a*b*c*", alphabet, "b") && PatternMatches("a*b*c*", alphabet, "c")
    ensures PatternMatches("a*b*c*", alphabet, "ab") && PatternMatches("a*b*c*", alphabet, "ac")
    ensures PatternMatches("a*b*c*", alphabet, "bc") && PatternMatches("a*b*c*", alphabet, "abc")
  {
    RunsMatchThreeStars(alphabet, 0, 0, 0);
    assert Repeat('a', 0) + Repeat('b', 0) + Repeat('c', 0) == "";
    RunsMatchThreeStars(alphabet, 1, 0, 0);
    assert Repeat('a', 1) + Repeat('b', 0) + Repeat('c', 0) == "a";
    RunsMatchThreeStars(alphabet, 0, 1, 0);
    assert Repeat('a', 0) + Repeat('b', 1) + Repeat('c', 0) == "b";
    RunsMatchThreeStars(alphabet, 0, 0, 1);
    assert Repeat('a', 0) + Repeat('b', 0) + Repeat('c', 1) == "c";
    RunsMatchThreeStars(alphabet, 1, 1, 0);
    assert Repeat('a', 1) + Repeat('b', 1) + Repeat('c', 0) == "ab";
    RunsMatchThreeStars(alphabet, 1, 0, 1);
    assert Repeat('a', 1) + Repeat('b', 0) + Repeat('c', 1) == "ac";
    RunsMatchThreeStars(alphabet, 0, 1, 1);
    assert Repeat('a', 0) + Repeat('b', 1) + Repeat('c', 1) == "bc";
    RunsMatchThreeStars(alphabet, 1, 1, 1);
    assert Repeat('a', 1) + Repeat('b', 1) + Repeat('c', 1) == "abc";
  }

  /** The words `RegexTest` checks against `a*b*c*` with a doubled letter, all matched. */
  lemma MultipleKleeneStarsRepeatedExamples(alphabet: set<char>)
    ensures PatternMatches("a*b*c*", alphabet, "abb") && PatternMatches("a*b*c*", alphabet, "acc")
    ensures PatternMatches("a*b*c*", alphabet, "aab") && PatternMatches("a*b*c*", alphabet, "aac")
  {
    RunsMatchThreeStars(alphabet, 1, 2, 0);
    assert Repeat('a', 1) + Repeat('b', 2) + Repeat('c', 0) == "abb";
    RunsMatchThreeStars(alphabet, 1, 0, 2);
    assert Repeat('a', 1) + Repeat('b', 0) + Repeat('c', 2) == "acc";
    RunsMatchThreeStars(alphabet, 2, 1, 0);
    assert Repeat('a', 2) + Repeat('b', 1) + Repeat('c', 0) == "aab";
    RunsMatchThreeStars(alphabet, 2, 0, 1);
    assert Repeat('a', 2) + Repeat('b', 0) + Repeat('c', 1) == "aac";
  }

  lemma ParseDotOperator()
    ensures ParseRange(".*a*", 0, 4) == Success(Concat(Star(AnyChar), Star(Literal('a'))))
  {
    var p := ".*a*";
    var a := Literal('a');
    var sd, sa := Star(AnyChar), Star(a);
    assert p[0] == '.' && p[1] == '*' && p[2] == 'a' && p[3] == '*';
    assert [] + [AnyChar] == [AnyChar] && [AnyChar][..0] + [sd] == [sd] && [sd] + [a] == [sd, a];
    assert [sd, a][..1] + [sa] == [sd, sa];
    assert ParseFrom(p, 4, 0, [], [], true) == ParseFrom(p, 4, 1, [], [AnyChar], true);
    assert ParseFrom(p, 4, 1, [], [AnyChar], true) == ParseFrom(p, 4, 2, [], [sd], false);
    assert ParseFrom(p, 4, 2, [], [sd], false) == ParseFrom(p, 4, 3, [], [sd, a], true);
    assert ParseFrom(p, 4, 3, [], [sd, a], true) == ParseFrom(p, 4, 4, [], [sd, sa], false);
    assert [] + [RunOf([sd, sa])] == [ConcatAll([sd, sa])];
    assert ConcatAll([sd, sa]) == Concat(ConcatAll([sd]), sa);
  }

  /** `.*a*` matches exactly a word over the alphabet followed by a run of `a`s. */
  lemma DotOperator(alphabet: set<char>, w: string)
    ensures PatternMatches(".*a*", alphabet, w)
        <==> exists j | 0 <= j <= |w| :: AllIn(w[..j], alphabet) && AllIn(w[j..], {'a'})
  {
    var sd, sa := Star(AnyChar), Star(Literal('a'));
    ParseDotOperator();
    forall j | 0 <= j <= |w|
      ensures InLanguage(sd, alphabet, w[..j]) <==> AllIn(w[..j], alphabet)
      ensures InLanguage(sa, alphabet, w[j..]) <==> AllIn(w[j..], {'a'})
    {
      StarOfAnyChar(alphabet, w[..j]);
      StarOfLiteral('a', alphabet, w[j..]);
    }
  }

  /**
   * The words `RegexTest` checks against `.*a*`: the empty word, runs of
   * `a`, and any one symbol of the alphabet followed by zero, one or two `a`s.
   */
  lemma DotOperatorExamples(alphabet: set<char>, x: char)
    requires x in alphabet
    ensures PatternMatches(".*a*", alphabet, "") && PatternMatches(".*a*", alphabet, "a")
    ensures PatternMatches(".*a*", alphabet, "aa")
    ensures PatternMatches(".*a*", alphabet, [x]) && PatternMatches(".*a*", alphabet, [x, 'a'])
    ensures PatternMatches(".*a*", alphabet, [x, 'a', 'a'])
  {
    DotOperator(alphabet, "");
    assert AllIn(""[..0], alphabet) && AllIn(""[0..], {'a'});
    DotOperator(alphabet, "a");
    assert AllIn("a"[..0], alphabet) && AllIn("a"[0..], {'a'});
    DotOperator(alphabet, "aa");
    assert AllIn("aa"[..0], alphabet) && AllIn("aa"[0..], {'a'});
    DotOperator(alphabet, [x]);
    assert AllIn([x][..1], alphabet) && AllIn([x][1..], {'a'});
    DotOperator(alphabet, [x, 'a']);
    assert AllIn([x, 'a'][..1], alphabet) && AllIn([x, 'a'][1..], {'a'});
    DotOperator(alphabet, [x, 'a', 'a']);
    assert AllIn([x, 'a', 'a'][..1], alphabet) && AllIn([x, 'a', 'a'][1..], {'a'});
  }
}
