/**
 * Keyword scoring and ranking: each candidate gets an integer relevance
 * score against the query, zero-score candidates are dropped, and the rest
 * are sorted by score, then by publication date, newest first.
 */
module Scoring {
  import opened Strings
  import opened Seqs
  import opened Posts

  /** `query.toLowerCase().trim()`: the whole phrase the title bonus looks for. */
  function Phrase(query: string): (r: string)
    ensures r == [] <==> forall i :: 0 <= i < |query| ==> IsSpace(query[i])
    ensures r != [] ==> !IsSpace(r[0]) && !IsSpace(r[|r| - 1])
    ensures forall i :: 0 <= i < |r| ==> !IsUpper(r[i])
  {
    var lower := Lower(query);
    LowerKeepsSpaces(query);
    TrimKeepsNoUpper(lower);
    Trim(lower)
  }

  /**
   * The phrase is the lower-cased query with white space removed at its
   * two ends only.
   */
  lemma PhraseIsTrimmedQuery(query: string)
    ensures exists i, j :: 0 <= i <= j <= |query| && Phrase(query) == Lower(query)[i..j] && TrimmedOff(Lower(query), i, j)
  {
    TrimIsSlice(Lower(query));
  }

  lemma LowerKeepsSpaces(s: string)
    ensures forall i :: 0 <= i < |s| ==> (IsSpace(Lower(s)[i]) <==> IsSpace(s[i]))
  {
  }

  lemma TrimKeepsNoUpper(s: string)
    requires forall i :: 0 <= i < |s| ==> !IsUpper(s[i])
    ensures forall i :: 0 <= i < |Trim(s)| ==> !IsUpper(Trim(s)[i])
  {
    TrimIsSlice(s);
    var r := Trim(s);
    var i, j :| 0 <= i <= j <= |s| && r == s[i..j] && TrimmedOff(s, i, j);
  }

  /** The phrase split on runs of white space, empty pieces dropped; a keyword may repeat. */
  function Keywords(query: string): (ks: seq<string>)
    ensures forall k :: k in ks ==> k != []
    ensures ks == [] <==> Phrase(query) == []
  {
    Words(Phrase(query))
  }

  /** What one keyword earns: 10 when the title holds it, plus 1 when the description does. */
  function KeywordPoints(title: string, desc: string, word: string): (n: nat)
    ensures n <= 11
    ensures n == 0 <==> !Contains(title, word) && !Contains(desc, word)
  {
    (if Contains(title, word) then 10 else 0) + (if Contains(desc, word) then 1 else 0)
  }

  /** The points of all keywords, in order (the `forEach` sum). */
  function KeywordsPoints(title: string, desc: string, keywords: seq<string>): (n: nat)
    ensures n <= 11 * |keywords|
  {
    if keywords == [] then 0
    else KeywordsPoints(title, desc, keywords[..|keywords| - 1]) + KeywordPoints(title, desc, keywords[|keywords| - 1])
  }

  /** The score of a lower-cased title and description: 100 for the whole phrase in the title, plus the keyword points. */
  function Score(title: string, desc: string, phrase: string, keywords: seq<string>): (n: nat)
    ensures Contains(title, phrase) <==> n >= 100 + KeywordsPoints(title, desc, keywords)
    ensures n <= 100 + 11 * |keywords|
  {
    (if Contains(title, phrase) then 100 else 0) + KeywordsPoints(title, desc, keywords)
  }

  /** The score of a post against the query typed into the search box. */
  function Relevance(p: Post, query: string): (n: nat)
    ensures Contains(Lower(p.title), Phrase(query)) ==> n >= 100
    ensures n <= 100 + 11 * |Keywords(query)|
  {
    Score(Lower(p.title), Lower(p.description), Phrase(query), Keywords(query))
  }

  /**
   * The score loop of one post: start from 0, add the phrase bonus, then
   * add each keyword's points in turn.
   */
  method ComputeScore(p: Post, phrase: string, keywords: seq<string>) returns (score: int)
    ensures score == Score(Lower(p.title), Lower(p.description), phrase, keywords)
  {
    score := 0;
    var title := Lower(p.title);
    var desc := Lower(p.description);
    if Contains(title, phrase) {
      score := score + 100;
    }
    for i := 0 to |keywords|
      invariant score == (if Contains(title, phrase) then 100 else 0) + KeywordsPoints(title, desc, keywords[..i])
    {
      var word := keywords[i];
      assert keywords[..i + 1][..i] == keywords[..i];
      if Contains(title, word) {
        score := score + 10;
      }
      if Contains(desc, word) {
        score := score + 1;
      }
    }
    assert keywords[..|keywords|] == keywords;
  }

  /** The sum of keyword points is zero exactly when no keyword occurs in the title or the description. */
  lemma {:induction false} KeywordsPointsZero(title: string, desc: string, keywords: seq<string>)
    ensures KeywordsPoints(title, desc, keywords) == 0 <==>
      forall k :: k in keywords ==> !Contains(title, k) && !Contains(desc, k)
  {
    if keywords != [] {
      var init := keywords[..|keywords| - 1];
      KeywordsPointsZero(title, desc, init);
      assert keywords == init + [keywords[|keywords| - 1]];
    }
  }

  /**
   * A score is zero exactly when the title lacks the whole phrase and no
   * keyword occurs in the title or the description.
   */
  lemma ScoreZero(title: string, desc: string, phrase: string, keywords: seq<string>)
    ensures Score(title, desc, phrase, keywords) == 0 <==>
      !Contains(title, phrase) && forall k :: k in keywords ==> !Contains(title, k) && !Contains(desc, k)
  {
    KeywordsPointsZero(title, desc, keywords);
  }

  /** Keyword points add up over a split of the keyword list; a repeated keyword counts again. */
  lemma {:induction false} KeywordsPointsAppend(title: string, desc: string, a: seq<string>, b: seq<string>)
    ensures KeywordsPoints(title, desc, a + b) == KeywordsPoints(title, desc, a) + KeywordsPoints(title, desc, b)
  {
    if b != [] {
      var b' := b[..|b| - 1];
      KeywordsPointsAppend(title, desc, a, b');
      assert (a + b)[..|a + b| - 1] == a + b';
    } else {
      assert a + b == a;
    }
  }

  // ---------------------------------------------------------------------
  // Dropping and ranking
  // ---------------------------------------------------------------------

  /** The candidates that score above zero, in their original order. */
  function Matching(cands: seq<Post>, query: string): (r: seq<Post>)
    ensures forall p :: p in r <==> p in cands && Relevance(p, query) > 0
  {
    Filter(cands, (p: Post) => Relevance(p, query) > 0)
  }

  /** Extending the candidates by one extends the matching ones by it exactly when it scores. */
  lemma MatchingStep(cands: seq<Post>, i: nat, query: string)
    requires i < |cands|
    ensures Matching(cands[..i + 1], query) ==
      Matching(cands[..i], query) + (if Relevance(cands[i], query) > 0 then [cands[i]] else [])
  {
    assert cands[..i + 1][..i] == cands[..i];
  }

  /** A post with its score (`{ ...post, _score }`) and its place in the scored list. */
  datatype Scored = Scored(post: Post, score: int, pos: nat)

  /** `scored` is `kept`, each post with its relevance and its position. */
  predicate Labelled(scored: seq<Scored>, kept: seq<Post>, query: string)
  {
    |scored| == |kept| && forall k :: 0 <= k < |scored| ==> scored[k] == Scored(kept[k], Relevance(kept[k], query), k)
  }

  lemma LabelledAppend(scored: seq<Scored>, kept: seq<Post>, p: Post, query: string)
    requires Labelled(scored, kept, query)
    ensures Labelled(scored + [Scored(p, Relevance(p, query), |scored|)], kept + [p], query)
  {
    var s, t := scored + [Scored(p, Relevance(p, query), |scored|)], kept + [p];
    forall k | 0 <= k < |s| ensures s[k] == Scored(t[k], Relevance(t[k], query), k) {
      if k < |scored| {
        assert s[k] == scored[k] && t[k] == kept[k];
      }
    }
  }

  /**
   * The `map` and `filter(Boolean)` over the candidates: every candidate is
   * scored, the zero scores are dropped, and each survivor is tagged with
   * its position among the survivors.
   */
  method ScoreAll(cands: seq<Post>, query: string) returns (scored: seq<Scored>)
    ensures |scored| == |Matching(cands, query)|
    ensures forall i :: 0 <= i < |scored| ==>
      scored[i] == Scored(Matching(cands, query)[i], Relevance(Matching(cands, query)[i], query), i)
  {
    var phrase := Phrase(query);
    var keywords := Keywords(query);
    scored := [];
    ghost var kept: seq<Post> := [];
    for i := 0 to |cands|
      invariant kept == Matching(cands[..i], query)
      invariant Labelled(scored, kept, query)
    {
      var score := ComputeScore(cands[i], phrase, keywords);
      MatchingStep(cands, i, query);
      if score != 0 {
        LabelledAppend(scored, kept, cands[i], query);
        scored := scored + [Scored(cands[i], score, |scored|)];
        kept := kept + [cands[i]];
      }
    }
    assert cands[..|cands|] == cands;
  }

  /** `x` sorts before `y`: higher score, then later date, then earlier position. */
  predicate Outranks(x: Scored, y: Scored)
  {
    || x.score > y.score
    || (x.score == y.score && x.post.pubDate > y.post.pubDate)
    || (x.score == y.score && x.post.pubDate == y.post.pubDate && x.pos < y.pos)
  }

  /**
   * `Outranks` is a strict order, total on entries from different
   * positions: the comparator with the position tie-break is what a stable
   * sort orders by.
   */
  lemma OutranksStrictTotal(x: Scored, y: Scored, z: Scored)
    ensures !Outranks(x, x)
    ensures Outranks(x, y) ==> !Outranks(y, x)
    ensures Outranks(x, y) && Outranks(y, z) ==> Outranks(x, z)
    ensures x.pos != y.pos ==> Outranks(x, y) || Outranks(y, x)
  {
  }

  predicate Ranked(s: seq<Scored>)
  {
    forall i, j :: 0 <= i < j < |s| ==> Outranks(s[i], s[j])
  }

  predicate DistinctPositions(s: seq<Scored>)
  {
    forall i, j :: 0 <= i < |s| && 0 <= j < |s| && i != j ==> s[i].pos != s[j].pos
  }

  /**
   * `scoredResults.sort(...)`: a stable in-place sort by score descending,
   * then date descending. Breaking the remaining ties by position is what
   * stability means, so the result is strictly ordered by `Outranks`.
   */
  method SortRanked(a: array<Scored>)
    requires DistinctPositions(a[..])
    modifies a
    ensures Ranked(a[..])
    ensures multiset(a[..]) == multiset(old(a[..]))
  {
    for i := 0 to a.Length
      invariant Ranked(a[..i])
      invariant DistinctPositions(a[..])
      invariant multiset(a[..]) == multiset(old(a[..]))
    {
      InsertLast(a, i);
    }
    assert a[..a.Length] == a[..];
  }

  /** One insertion step: `a[i]` is swapped down into the ranked prefix `a[..i]`. */
  method InsertLast(a: array<Scored>, i: nat)
    requires i < a.Length && Ranked(a[..i]) && DistinctPositions(a[..])
    modifies a
    ensures Ranked(a[..i + 1]) && DistinctPositions(a[..])
    ensures multiset(a[..]) == multiset(old(a[..]))
  {
    var j := i;
    while j > 0 && Outranks(a[j], a[j - 1])
      invariant 0 <= j <= i
      invariant forall p, q :: 0 <= p < q <= i && p != j && q != j ==> Outranks(a[p], a[q])
      invariant forall q :: j < q <= i ==> Outranks(a[j], a[q])
      invariant DistinctPositions(a[..])
      invariant multiset(a[..]) == multiset(old(a[..]))
    {
      Swap(a, j);
      j := j - 1;
    }
    if j > 0 {
      assert a[j - 1].pos != a[j].pos;
    }
  }

  /** Exchanges `a[j - 1]` and `a[j]`. */
  method Swap(a: array<Scored>, j: nat)
    requires 0 < j < a.Length && DistinctPositions(a[..])
    modifies a
    ensures a[..] == old(a[..])[j - 1 := old(a[j])][j := old(a[j - 1])]
    ensures DistinctPositions(a[..])
    ensures multiset(a[..]) == multiset(old(a[..]))
  {
    a[j - 1], a[j] := a[j], a[j - 1];
  }

  // ---------------------------------------------------------------------
  // A worked example
  // ---------------------------------------------------------------------

  /**
   * The query "rust go" against a post titled "Rust and Go" with an empty
   * description: the title lacks the phrase, so there is no bonus, and each
   * of the two keywords earns 10.
   */
  lemma RustGoExample()
    ensures Relevance(Post("s", "Rust and Go", "", [], 0), "rust go") == 20
  {
    var p := Post("s", "Rust and Go", "", [], 0);
    assert Lower(p.title) == "rust and go" && Lower(p.description) == "";
    RustGoQuery();
    RustGoScore();
    assert Relevance(p, "rust go") == Score("rust and go", "", "rust go", ["rust", "go"]);
  }

  lemma RustGoQuery()
    ensures Phrase("rust go") == "rust go" && Keywords("rust go") == ["rust", "go"]
  {
    var rust, go := "rust", "go";
    assert "rust go" == rust + [' '] + go;
    assert PlainWord(rust) && PlainWord(go);
    TwoWordQuery(rust, go);
  }

  lemma RustGoScore()
    ensures Score("rust and go", "", "rust go", ["rust", "go"]) == 20
  {
    var title, rust, go := "rust and go", "rust", "go";
    assert OccursAt(title, rust, 0) && OccursAt(title, go, 9);
    NotInExampleTitle(title, "rust go");
    TitleOnlyPoints(title, rust, go, "rust go");
  }

  /** A non-empty word with no white space and no capital letter. */
  predicate PlainWord(w: string)
  {
    w != [] && forall i :: 0 <= i < |w| ==> !IsSpace(w[i]) && !IsUpper(w[i])
  }

  /** A query of two plain words is its own phrase, and its keywords are the two words. */
  lemma TwoWordQuery(a: string, b: string)
    requires PlainWord(a) && PlainWord(b)
    ensures Phrase(a + [' '] + b) == a + [' '] + b
    ensures Keywords(a + [' '] + b) == [a, b]
  {
    PlainPhrase(a, b);
    WordsOfTwo(a, b);
  }

  lemma WordsOfTwo(a: string, b: string)
    requires PlainWord(a) && PlainWord(b)
    ensures Words(a + [' '] + b) == [a, b]
  {
    assert Words(a) == [a] by { WordsOfWord(a); }
    assert Words(b) == [b] by { WordsOfWord(b); }
    WordsSplit(a, ' ', b);
    assert [a] + [b] == [a, b];
  }

  lemma PlainPhrase(a: string, b: string)
    requires PlainWord(a) && PlainWord(b)
    ensures Phrase(a + [' '] + b) == a + [' '] + b
  {
    var q := a + [' '] + b;
    forall i | 0 <= i < |q| ensures !IsUpper(q[i]) {
      if i < |a| { assert q[i] == a[i]; } else if i > |a| { assert q[i] == b[i - |a| - 1]; }
    }
    LowerOfLower(q);
    assert q[0] == a[0] && q[|q| - 1] == b[|b| - 1];
    assert TrimStart(q) == q;
    assert TrimEnd(q) == q;
  }

  lemma LowerOfLower(s: string)
    requires forall i :: 0 <= i < |s| ==> !IsUpper(s[i])
    ensures Lower(s) == s
  {
  }

  /** Two keywords found in the title and a phrase that is not: 10 points each, no bonus. */
  lemma TitleOnlyPoints(title: string, a: string, b: string, phrase: string)
    requires Contains(title, a) && Contains(title, b) && !Contains(title, phrase)
    requires |a| > 0 && |b| > 0
    ensures Score(title, "", phrase, [a, b]) == 20
  {
    var ks := [a, b];
    assert !Contains("", a) && !Contains("", b);
    assert KeywordPoints(title, "", a) == 10 && KeywordPoints(title, "", b) == 10;
    assert ks[..1] == [a] && [a][..0] == [];
    assert KeywordsPoints(title, "", [a]) == 10;
    assert KeywordsPoints(title, "", ks) == KeywordsPoints(title, "", [a]) + KeywordPoints(title, "", b);
  }

  lemma NotInExampleTitle(t: string, phrase: string)
    requires t == "rust and go" && phrase == "rust go"
    ensures !Contains(t, phrase)
  {
    forall i | 0 <= i <= |t| - |phrase|
      ensures !OccursAt(t, phrase, i)
    {
      if i == 0 {
        assert t[i..i + |phrase|][5] == 'a' != phrase[5];
      } else {
        assert t[i..i + |phrase|][0] == t[i] != phrase[0];
      }
    }
  }
}
