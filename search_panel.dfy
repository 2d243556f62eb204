/**
 * The search panel: its filter state with the handlers that change it and
 * mirror it into the URL, and the pipeline that turns the post list into
 * the displayed results.
 */
module SearchPanel {
  import opened Strings
  import opened Seqs
  import opened Posts
  import opened FilterPipeline
  import opened Scoring
  import opened UrlState

  // ---------------------------------------------------------------------
  // The results pipeline
  // ---------------------------------------------------------------------

  function PostsOf(s: seq<Scored>): (r: seq<Post>)
    ensures |r| == |s| && forall i :: 0 <= i < |s| ==> r[i] == s[i].post
  {
    seq(|s|, i requires 0 <= i < |s| => s[i].post)
  }

  lemma PostsOfAppend(a: seq<Scored>, b: seq<Scored>)
    ensures PostsOf(a + b) == PostsOf(a) + PostsOf(b)
  {
  }

  /** Rearranging scored posts rearranges their posts the same way. */
  lemma {:induction false} PostsOfPermutation(s: seq<Scored>, t: seq<Scored>)
    requires multiset(s) == multiset(t)
    ensures multiset(PostsOf(s)) == multiset(PostsOf(t))
    decreases |s|
  {
    if s == [] {
      assert |multiset(t)| == 0;
    } else {
      var x := s[|s| - 1];
      var init := s[..|s| - 1];
      assert s == init + [x];
      assert x in multiset(t);
      var k :| 0 <= k < |t| && t[k] == x;
      var before, after := t[..k], t[k + 1..];
      assert t == before + [x] + after;
      RemoveOne(init, before, after, x, multiset(s));
      PostsOfPermutation(init, before + after);
      PostsOfAppend(init, [x]);
      PostsOfAppend(before, [x]);
      PostsOfAppend(before + [x], after);
      PostsOfAppend(before, after);
    }
  }

  lemma RemoveOne<T>(init: seq<T>, before: seq<T>, after: seq<T>, x: T, m: multiset<T>)
    requires multiset(init + [x]) == m && multiset(before + [x] + after) == m
    ensures multiset(init) == multiset(before + after)
  {
    calc {
      multiset(init);
      multiset(init + [x]) - multiset{x};
      multiset(before + [x] + after) - multiset{x};
      multiset(before) + multiset(after);
    }
  }

  /**
   * `r` is `kept` ranked: a rearrangement of it in which `origin` tells
   * where each post came from, ordered by relevance, then by date, newest
   * first, then by original position.
   */
  ghost predicate IsRanking(r: seq<Post>, origin: seq<nat>, kept: seq<Post>, query: string)
  {
    && |r| == |kept| && |origin| == |r|
    && multiset(r) == multiset(kept)
    && (forall i :: 0 <= i < |r| ==> origin[i] < |kept| && r[i] == kept[origin[i]])
    && (forall i, j :: 0 <= i < j < |r| ==>
          || Relevance(r[i], query) > Relevance(r[j], query)
          || (Relevance(r[i], query) == Relevance(r[j], query) && r[i].pubDate > r[j].pubDate)
          || (Relevance(r[i], query) == Relevance(r[j], query) && r[i].pubDate == r[j].pubDate && origin[i] < origin[j]))
  }

  /** Where each entry of a scored sequence stood among the scored posts. */
  function Origins(s: seq<Scored>): (r: seq<nat>)
    ensures |r| == |s| && forall i :: 0 <= i < |s| ==> r[i] == s[i].pos
  {
    seq(|s|, i requires 0 <= i < |s| => s[i].pos)
  }

  /**
   * Sorting the scored posts by `Outranks` ranks the posts they carry:
   * each came from its recorded position, its score is its relevance, and
   * the posts are a rearrangement of the scored ones.
   */
  lemma RankedIsRanking(scored: seq<Scored>, ranked: seq<Scored>, kept: seq<Post>, query: string)
    requires |scored| == |kept|
    requires forall i :: 0 <= i < |scored| ==> scored[i] == Scored(kept[i], Relevance(kept[i], query), i)
    requires Ranked(ranked) && multiset(ranked) == multiset(scored)
    ensures IsRanking(PostsOf(ranked), Origins(ranked), kept, query)
  {
    var r, origin := PostsOf(ranked), Origins(ranked);
    assert |ranked| == |scored| by {
      assert |multiset(ranked)| == |multiset(scored)|;
    }
    forall i | 0 <= i < |r|
      ensures origin[i] < |kept| && r[i] == kept[origin[i]] && ranked[i].score == Relevance(r[i], query)
    {
      assert ranked[i] in multiset(scored);
    }
    assert PostsOf(scored) == kept;
    PostsOfPermutation(ranked, scored);
  }

  /**
   * `processedPosts`: the tag step, then the date step; with a blank query
   * the filtered posts are the result as they are; otherwise the posts that
   * score above zero, ranked.
   */
  method ProcessPosts(posts: seq<Post>, query: string, selected: seq<string>, startDate: string, endDate: string)
    returns (r: seq<Post>, ghost origin: seq<nat>)
    ensures Trim(query) == [] ==> r == Candidates(posts, selected, startDate, endDate)
    ensures Trim(query) != [] ==> IsRanking(r, origin, Matching(Candidates(posts, selected, startDate, endDate), query), query)
  {
    var results := TagStep(posts, selected);
    results := DateStep(results, startDate, endDate);
    if Trim(query) == [] {
      return results, [];
    }
    var scored := ScoreAll(results, query);
    var ranked := RankScored(scored);
    RankedIsRanking(scored, ranked, Matching(results, query), query);
    r, origin := PostsOf(ranked), Origins(ranked);
  }

  /** The scored posts copied into an array and sorted there. */
  method RankScored(scored: seq<Scored>) returns (ranked: seq<Scored>)
    requires forall i :: 0 <= i < |scored| ==> scored[i].pos == i
    ensures Ranked(ranked) && multiset(ranked) == multiset(scored)
  {
    var a := new Scored[|scored|](k requires 0 <= k < |scored| => scored[k]);
    assert a[..] == scored;
    SortRanked(a);
    ranked := a[..];
  }

  // ---------------------------------------------------------------------
  // Tag selection
  // ---------------------------------------------------------------------

  /**
   * `toggleTag`'s new list: every copy of a selected tag removed, an
   * unselected one appended. After a toggle the tag is selected exactly when
   * it was not; no other tag joins or leaves.
   */
  function Toggled(selected: seq<string>, tag: string): (r: seq<string>)
    ensures tag in r <==> tag !in selected
    ensures forall t :: t != tag ==> (t in r <==> t in selected)
    ensures tag !in selected ==> r == selected + [tag]
  {
    if tag in selected then Filter(selected, (t: string) => t != tag) else selected + [tag]
  }

  /** Toggling leaves every other tag where it was: with the toggled tag removed, both lists agree. */
  lemma ToggledKeepsOthers(selected: seq<string>, tag: string)
    ensures Filter(Toggled(selected, tag), (t: string) => t != tag) == Filter(selected, (t: string) => t != tag)
  {
    var others := Filter(selected, (t: string) => t != tag);
    if tag in selected {
      FilterKeepsAll(others, (t: string) => t != tag);
    } else {
      var s := selected + [tag];
      assert s[..|s| - 1] == selected;
    }
  }

  /** Toggling an unselected tag twice restores the selection exactly. */
  lemma ToggleTwice(selected: seq<string>, tag: string)
    requires tag !in selected
    ensures Toggled(Toggled(selected, tag), tag) == selected
  {
    var s := selected + [tag];
    assert s[..|s| - 1] == selected;
    FilterKeepsAll(selected, (t: string) => t != tag);
  }

  // ---------------------------------------------------------------------
  // The panel's state
  // ---------------------------------------------------------------------

  /**
   * The panel's filter state and the query string of the page it sits on.
   * `Synced` says the query string reads back as the current tag and date
   * state; every handler keeps it, `ToggleTag` when the tag is a `PlainTag`.
   */
  class Panel {
    const posts: seq<Post>
    var query: string
    var selectedTags: seq<string>
    var startDate: string
    var endDate: string
    var params: Params

    ghost predicate Synced()
      reads this
    {
      Hydrate(params) == FilterParams(selectedTags, startDate, endDate)
    }

    /** Mounting: empty state, then the tag and date fields read from the query string. */
    constructor (posts: seq<Post>, params: Params)
      ensures this.posts == posts && this.params == params && query == ""
      ensures FilterParams(selectedTags, startDate, endDate) == Hydrate(params)
      ensures Synced()
    {
      this.posts := posts;
      this.params := params;
      query := "";
      selectedTags := HydrateTags(params);
      startDate := HydrateDate(params, "start");
      endDate := HydrateDate(params, "end");
    }

    /**
     * `processedPosts` over the panel's own posts and filter state: the
     * filtered posts for a blank query, otherwise their ranking.
     */
    method Results() returns (r: seq<Post>, ghost origin: seq<nat>)
      ensures Trim(query) == [] ==> r == Candidates(posts, selectedTags, startDate, endDate)
      ensures Trim(query) != [] ==>
        IsRanking(r, origin, Matching(Candidates(posts, selectedTags, startDate, endDate), query), query)
    {
      r, origin := ProcessPosts(posts, query, selectedTags, startDate, endDate);
    }

    /** Typing in the search box: only the query changes; it is not written to the URL. */
    method SetQuery(q: string)
      modifies this
      ensures query == q
      ensures selectedTags == old(selectedTags) && startDate == old(startDate) && endDate == old(endDate)
      ensures params == old(params)
      ensures old(Synced()) ==> Synced()
    {
      query := q;
    }

    /**
     * `toggleTag`: the selection is toggled and the `tags` parameter
     * rewritten; no other field and no other parameter changes.
     */
    method ToggleTag(tag: string)
      modifies this
      ensures selectedTags == Toggled(old(selectedTags), tag)
      ensures params == WriteTags(old(params), selectedTags)
      ensures params - {"tags"} == old(params) - {"tags"}
      ensures query == old(query) && startDate == old(startDate) && endDate == old(endDate)
      ensures old(Synced()) && PlainTag(tag) ==> Synced()
    {
      var newTags := Toggled(selectedTags, tag);
      if old(Synced()) && PlainTag(tag) {
        assert forall t :: t in newTags ==> PlainTag(t);
        HydrateWrittenTags(params, newTags);
      }
      selectedTags := newTags;
      params := WriteTags(params, newTags);
    }

    /** `clearTags`: no tag selected, the `tags` parameter deleted. */
    method ClearTags()
      modifies this
      ensures selectedTags == []
      ensures params == old(params) - {"tags"}
      ensures query == old(query) && startDate == old(startDate) && endDate == old(endDate)
      ensures old(Synced()) ==> Synced()
    {
      HydrateWrittenTags(params, []);
      selectedTags := [];
      params := WriteTags(params, []);
    }

    /**
     * `handleDateChange`: the field named `start` or any other one (the end
     * date) takes the value, and only its own parameter is set or deleted.
     */
    method HandleDateChange(kind: string, value: string)
      modifies this
      ensures kind == "start" ==> startDate == value && endDate == old(endDate) && params == WriteDate(old(params), "start", value)
      ensures kind != "start" ==> endDate == value && startDate == old(startDate) && params == WriteDate(old(params), "end", value)
      ensures query == old(query) && selectedTags == old(selectedTags)
      ensures old(Synced()) ==> Synced()
    {
      if kind == "start" {
        HydrateWrittenDate(params, "start", value);
        startDate := value;
        params := WriteDate(params, "start", value);
      } else {
        HydrateWrittenDate(params, "end", value);
        endDate := value;
        params := WriteDate(params, "end", value);
      }
    }

    /** `clearDates`: both dates emptied, both date parameters deleted. */
    method ClearDates()
      modifies this
      ensures startDate == "" && endDate == ""
      ensures params == old(params) - {"start"} - {"end"}
      ensures query == old(query) && selectedTags == old(selectedTags)
      ensures old(Synced()) ==> Synced()
    {
      HydrateWrittenDate(params, "start", "");
      HydrateWrittenDate(WriteDate(params, "start", ""), "end", "");
      startDate, endDate := "", "";
      params := params - {"start"} - {"end"};
    }
  }
}
