/**
 * The tag index: every tag that occurs on some post, once each, in the
 * order of JavaScript's default `sort`.
 */
module TagIndex {
  import opened Posts

  /**
   * The default `sort` order on strings: compare character codes from the
   * left; a proper prefix comes first.
   */
  predicate Below(a: string, b: string)
  {
    if a == [] then b != []
    else if b == [] then false
    else a[0] < b[0] || (a[0] == b[0] && Below(a[1..], b[1..]))
  }

  lemma {:induction false} BelowIrreflexive(a: string)
    ensures !Below(a, a)
  {
    if a != [] {
      BelowIrreflexive(a[1..]);
    }
  }

  lemma {:induction false} BelowTransitive(a: string, b: string, c: string)
    requires Below(a, b) && Below(b, c)
    ensures Below(a, c)
  {
    if a != [] && a[0] == b[0] && b[0] == c[0] {
      BelowTransitive(a[1..], b[1..], c[1..]);
    }
  }

  /** Any two different strings are ordered one way or the other. */
  lemma {:induction false} BelowTotal(a: string, b: string)
    requires a != b
    ensures Below(a, b) || Below(b, a)
  {
    if a != [] && b != [] && a[0] == b[0] {
      assert a == [a[0]] + a[1..] && b == [b[0]] + b[1..];
      BelowTotal(a[1..], b[1..]);
    }
  }

  predicate StrictlySorted(s: seq<string>)
  {
    forall i, j :: 0 <= i < j < |s| ==> Below(s[i], s[j])
  }

  /** Every tag of every post. */
  function TagsOf(posts: seq<Post>): (tags: set<string>)
    ensures forall t :: t in tags <==> exists p :: p in posts && t in p.tags
  {
    if posts == [] then {}
    else
      var last := posts[|posts| - 1];
      assert posts == posts[..|posts| - 1] + [last];
      TagsOf(posts[..|posts| - 1]) + set t | t in last.tags
  }

  lemma BelowAllOfSorted(x: string, s: seq<string>)
    requires StrictlySorted(s) && s != [] && Below(x, s[0])
    ensures forall k :: 0 <= k < |s| ==> Below(x, s[k])
  {
    forall k | 0 < k < |s| {
      BelowTransitive(x, s[0], s[k]);
    }
  }

  lemma HeadBelowTail(s: seq<string>)
    requires StrictlySorted(s) && s != []
    ensures forall t :: t in s[1..] ==> Below(s[0], t)
  {
    forall t | t in s[1..] ensures Below(s[0], t) {
      var j :| 0 <= j < |s| - 1 && s[1..][j] == t;
      assert s[j + 1] == t;
    }
  }

  /** Adds `x` to a strictly sorted list at its place, unless it is there already. */
  function Insert(s: seq<string>, x: string): (r: seq<string>)
    requires StrictlySorted(s)
    ensures StrictlySorted(r)
    ensures forall t :: t in r <==> t in s || t == x
  {
    if s == [] then [x]
    else if x == s[0] then s
    else if Below(x, s[0]) then
      BelowAllOfSorted(x, s);
      [x] + s
    else
      BelowTotal(x, s[0]);
      var rest := Insert(s[1..], x);
      assert forall t :: t in s <==> t == s[0] || t in s[1..];
      HeadBelowTail(s);
      assert forall k :: 0 <= k < |rest| ==> rest[k] in rest && Below(s[0], rest[k]);
      [s[0]] + rest
  }

  /** The nested `forEach`: the tags of all posts gathered into a set, post by post and tag by tag. */
  method CollectTags(posts: seq<Post>) returns (tags: set<string>)
    ensures tags == TagsOf(posts)
  {
    tags := {};
    for i := 0 to |posts|
      invariant tags == TagsOf(posts[..i])
    {
      var post := posts[i];
      for j := 0 to |post.tags|
        invariant tags == TagsOf(posts[..i]) + set k | 0 <= k < j :: post.tags[k]
      {
        tags := tags + {post.tags[j]};
      }
      assert (set k | 0 <= k < |post.tags| :: post.tags[k]) == set t | t in post.tags;
      assert posts[..i + 1][..i] == posts[..i];
    }
    assert posts[..|posts|] == posts;
  }

  /** `Array.from(tags).sort()`: each element of the set placed in order. */
  method SortedList(tags: set<string>) returns (r: seq<string>)
    ensures StrictlySorted(r)
    ensures forall t :: t in r <==> t in tags
  {
    r := [];
    var rest := tags;
    while rest != {}
      invariant StrictlySorted(r)
      invariant rest <= tags
      invariant forall t :: t in r <==> t in tags && t !in rest
      decreases |rest|
    {
      var x :| x in rest;
      r := Insert(r, x);
      rest := rest - {x};
    }
  }

  /** A strictly sorted list repeats nothing. */
  lemma SortedDistinct(r: seq<string>)
    requires StrictlySorted(r)
    ensures forall i, j :: 0 <= i < j < |r| ==> r[i] != r[j]
  {
    forall i, j | 0 <= i < j < |r| ensures r[i] != r[j] {
      if r[i] == r[j] {
        BelowIrreflexive(r[i]);
      }
    }
  }

  /**
   * `allTags`: the list holds exactly the tags that occur on some post,
   * strictly ascending, so without repetition; no posts give the empty list.
   */
  method AllTags(posts: seq<Post>) returns (r: seq<string>)
    ensures StrictlySorted(r)
    ensures forall i, j :: 0 <= i < j < |r| ==> r[i] != r[j]
    ensures forall t :: t in r <==> exists p :: p in posts && t in p.tags
  {
    var tags := CollectTags(posts);
    r := SortedList(tags);
    SortedDistinct(r);
  }
}
