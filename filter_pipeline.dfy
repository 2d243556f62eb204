/**
 * The two filtering steps the panel runs before any scoring: the
 * conjunctive tag filter and the inclusive date-range filter.
 */
module FilterPipeline {
  import opened Wrappers
  import opened Seqs
  import opened Calendar
  import opened Posts

  /** `selectedTags.every(tag => post.data.tags.includes(tag))`: exact, case-sensitive comparison. */
  predicate HasAllTags(p: Post, selected: seq<string>)
  {
    forall t :: t in selected ==> t in p.tags
  }

  /** Step A: with tags selected, only posts carrying every one of them stay. */
  function TagStep(posts: seq<Post>, selected: seq<string>): (r: seq<Post>)
    ensures forall p :: p in r <==> p in posts && HasAllTags(p, selected)
  {
    if |selected| > 0 then Filter(posts, (p: Post) => HasAllTags(p, selected)) else posts
  }

  /** `startDate ? new Date(startDate) : null`; an unparseable date is an Invalid Date, modelled as no bound. */
  function StartBound(startDate: string): (b: Option<int>)
    ensures b == ParseDateOnly(startDate)
  {
    if startDate == "" then None else ParseDateOnly(startDate)
  }

  /** `new Date(endDate)` moved to 23:59:59.999 of that day (the day's last millisecond). */
  function EndBound(endDate: string): (b: Option<int>)
    ensures b.Some? <==> ParseDateOnly(endDate).Some?
    ensures b.Some? ==> b.value == ParseDateOnly(endDate).value + MillisPerDay - 1
  {
    if endDate == "" then None
    else
      match ParseDateOnly(endDate)
      case None => None
      case Some(midnight) => Some(midnight + MillisPerDay - 1)
  }

  /**
   * The date test: not before `start`, not after `end`. A comparison with an
   * Invalid Date is false, so a missing bound rejects nothing.
   */
  predicate InRange(pubDate: int, start: Option<int>, end: Option<int>)
  {
    !(start.Some? && pubDate < start.value) && !(end.Some? && pubDate > end.value)
  }

  /** Step A.5: when either date field is filled in, only posts inside the range stay. */
  function DateStep(posts: seq<Post>, startDate: string, endDate: string): (r: seq<Post>)
    ensures forall p :: p in r <==> p in posts && InRange(p.pubDate, StartBound(startDate), EndBound(endDate))
  {
    if startDate != "" || endDate != "" then
      var start, end := StartBound(startDate), EndBound(endDate);
      Filter(posts, (p: Post) => InRange(p.pubDate, start, end))
    else
      posts
  }

  /** The posts that survive both filtering steps, in the order they were given. */
  function Candidates(posts: seq<Post>, selected: seq<string>, startDate: string, endDate: string): (r: seq<Post>)
    ensures forall p :: p in r <==>
      p in posts && HasAllTags(p, selected) && InRange(p.pubDate, StartBound(startDate), EndBound(endDate))
  {
    DateStep(TagStep(posts, selected), startDate, endDate)
  }

  // ---------------------------------------------------------------------
  // Properties
  // ---------------------------------------------------------------------

  /**
   * A post survives filtering exactly when it carries every selected tag,
   * is not earlier than the start day's midnight, and is earlier than the
   * midnight that ends the end day; a bound that is empty or does not name
   * a day constrains nothing.
   */
  lemma CandidateMembership(posts: seq<Post>, selected: seq<string>, startDate: string, endDate: string, p: Post)
    ensures p in Candidates(posts, selected, startDate, endDate) <==>
      && p in posts
      && HasAllTags(p, selected)
      && (ParseDateOnly(startDate).None? || ParseDateOnly(startDate).value <= p.pubDate)
      && (ParseDateOnly(endDate).None? || p.pubDate < ParseDateOnly(endDate).value + MillisPerDay)
  {
  }

  /** With no tag selected every post passes the tag step, in order. */
  lemma NoSelectionKeepsAll(posts: seq<Post>)
    ensures TagStep(posts, []) == posts
  {
  }

  /** With both date fields empty every post passes the date step, in order. */
  lemma NoDatesKeepAll(posts: seq<Post>)
    ensures DateStep(posts, "", "") == posts
  {
  }

  /** Filtering keeps the surviving posts in their original relative order. */
  lemma CandidatesInOrder(posts: seq<Post>, selected: seq<string>, startDate: string, endDate: string)
    returns (idx: seq<nat>)
    ensures Embeds(idx, Candidates(posts, selected, startDate, endDate), posts)
  {
    var tagged := TagStep(posts, selected);
    var first: seq<nat>;
    if |selected| > 0 {
      first := FilterPositions(posts, (p: Post) => HasAllTags(p, selected));
    } else {
      first := IdentityEmbeds(posts);
    }
    var second: seq<nat>;
    if startDate != "" || endDate != "" {
      var start, end := StartBound(startDate), EndBound(endDate);
      second := FilterPositions(tagged, (p: Post) => InRange(p.pubDate, start, end));
    } else {
      second := IdentityEmbeds(tagged);
    }
    idx := ComposeEmbeds(second, Candidates(posts, selected, startDate, endDate), tagged, first, posts);
  }
}
