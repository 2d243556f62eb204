# Blog search panel: a Dafny model

This project models the filtering-and-search view of a blog site and the
date field it comes with.

The search panel (`src/components/SearchPanel.jsx`) owns a filter state:
- a free-text query;
- a list of selected tags;
- a start date and an end date.

From the post collection it derives:
- the sorted list of all tags;
- the displayed results. Posts pass the conjunctive tag filter, then the
  inclusive date-range filter. With a non-blank query they are then scored
  against it. Zero-score posts are dropped and the rest are ranked by score,
  then by date (newest first), keeping the input order for full ties.

Every tag or date change is mirrored into the page's query string, and the
state is read back from it on mount.

The date field (`src/components/ui/DateInput.jsx`) normalises what was typed
to `YYYY-MM-DD`, validates it as a real calendar day, and on blur emits
either that canonical date or the empty string. A day picked from its
calendar is emitted directly.

Modules, one per concern:

| file | module | what it holds |
|---|---|---|
| `wrappers.dfy` | `Wrappers` | `Option` |
| `seqs.dfy` | `Seqs` | order-preserving `Filter` (JavaScript's `Array.prototype.filter`) and the position embedding it produces |
| `strings.dfy` | `Strings` | the string built-ins the code relies on: `toLowerCase`, `trim`, `split(/\s+/)`, `includes`, `split`/`join` on one character, `parseInt(·, 10)`, `toString`, `padStart` |
| `calendar.dfy` | `Calendar` | leap years, month lengths, the proleptic Gregorian day number, and `new Date("YYYY-MM-DD")` as milliseconds since the epoch |
| `date_input.dfy` | `DateInput` | `normalizeDate`, `isValidDate`, `handleBlur`, `handleDaySelect` |
| `posts.dfy` | `Posts` | the post record |
| `tag_index.dfy` | `TagIndex` | `allTags` and the string order it sorts by |
| `filter_pipeline.dfy` | `FilterPipeline` | the tag step and the date step |
| `scoring.dfy` | `Scoring` | the score of one post, the scoring pass and the stable sort |
| `url_state.dfy` | `UrlState` | reading the filter fields from the query string and writing them back |
| `search_panel.dfy` | `SearchPanel` | the `processedPosts` pipeline, `toggleTag`'s list update, and the panel class with its handlers |

The panel is a class, `SearchPanel.Panel`:
- Its fields are the filter state plus the query-string parameters (`params`).
- Each handler method states the panel's whole new state.
- The class invariant `Synced()` says that reading the query string back gives
  the current tags and dates. Every handler keeps it, except that `ToggleTag`
  keeps it only for a tag that is non-empty and holds no comma (see
  "Left out").
- The score loop and the sort are methods with loops; the sort works in place
  on an array.
- DateInput's helpers are pure functions.

## Model

| member | source | states |
|---|---|---|
| TagIndex.AllTags | src/components/SearchPanel.jsx:52-56 | the result is strictly ascending, has no duplicates, and holds exactly the tags that occur on some post |
| TagIndex.CollectTags | src/components/SearchPanel.jsx:53-54 | the nested `forEach` leaves exactly the tags of all posts in the set |
| TagIndex.SortedList | src/components/SearchPanel.jsx:55 | `Array.from(tags).sort()` lists exactly the set's elements, strictly ascending |
| TagIndex.SortedDistinct | src/components/SearchPanel.jsx:55 | a strictly ascending list repeats no element |
| TagIndex.Insert | src/components/SearchPanel.jsx:55 | inserting into a strictly sorted list keeps it strictly sorted and adds exactly the one element |
| TagIndex.TagsOf | src/components/SearchPanel.jsx:53-54 | the set built by the nested `forEach` holds a tag exactly when some post carries it |
| TagIndex.BelowIrreflexive | src/components/SearchPanel.jsx:55 | no tag sorts before itself |
| TagIndex.BelowTransitive | src/components/SearchPanel.jsx:55 | the sort order is transitive |
| TagIndex.BelowTotal | src/components/SearchPanel.jsx:55 | any two different tags are ordered one way or the other |
| FilterPipeline.TagStep | src/components/SearchPanel.jsx:62-68 | a post survives exactly when it carries every selected tag (case-sensitive, exact) |
| FilterPipeline.StartBound | src/components/SearchPanel.jsx:72 | the start bound is the UTC midnight of the start day, or none when the field is empty or not a date |
| FilterPipeline.EndBound | src/components/SearchPanel.jsx:73-77 | the end bound exists exactly when the end day parses, and is then that day's last millisecond |
| FilterPipeline.DateStep | src/components/SearchPanel.jsx:70-85 | a post survives exactly when its date is inside the bounds that exist |
| FilterPipeline.Candidates | src/components/SearchPanel.jsx:59-85 | a post survives both steps exactly when it carries every selected tag and its date passes `InRange` (lines 79-84) under the bounds that parse |
| FilterPipeline.CandidateMembership | src/components/SearchPanel.jsx:59-85 | a post survives both steps exactly when it has all selected tags, is not before the start day's midnight, and is before the midnight that ends the end day |
| FilterPipeline.NoSelectionKeepsAll | src/components/SearchPanel.jsx:62 | with no tag selected the tag step returns the posts unchanged |
| FilterPipeline.NoDatesKeepAll | src/components/SearchPanel.jsx:71 | with both date fields empty the date step returns the posts unchanged |
| FilterPipeline.CandidatesInOrder | src/components/SearchPanel.jsx:59-85 | the surviving posts are a subsequence of the input, in the input's order |
| Seqs.Filter | src/components/SearchPanel.jsx:64 | `filter` keeps exactly the elements satisfying the predicate and never grows the list |
| Seqs.FilterPositions | src/components/SearchPanel.jsx:64 | `filter` keeps its survivors in their original order, and it keeps a position exactly when the predicate holds there |
| Seqs.FilterKeepsAll | src/components/SearchPanel.jsx:125 | a filter that rejects nothing returns its input unchanged |
| Scoring.Phrase | src/components/SearchPanel.jsx:90 | the phrase is empty exactly for a white-space-only query; otherwise it starts and ends with a non-space; it holds no capital letter |
| Scoring.PhraseIsTrimmedQuery | src/components/SearchPanel.jsx:90 | the phrase is a slice of the lower-cased query with only white space cut off around it |
| Scoring.Keywords | src/components/SearchPanel.jsx:91 | no keyword is empty, and there are no keywords exactly when the phrase is empty; which keywords they are is fixed by `Strings.WordsSplit` and `Strings.WordsOfWord` |
| Scoring.KeywordPoints | src/components/SearchPanel.jsx:100-103 | one keyword earns at most 11 points, and 0 exactly when neither the title nor the description contains it |
| Scoring.ComputeScore | src/components/SearchPanel.jsx:93-104 | the score loop computes the phrase bonus plus every keyword's points |
| Scoring.Score | src/components/SearchPanel.jsx:97-104 | the score includes the 100-point bonus exactly when the title holds the whole phrase, and is at most 100 plus 11 per keyword |
| Scoring.Relevance | src/components/SearchPanel.jsx:93-104 | a post whose lower-cased title holds the phrase scores at least 100, and no post scores more than 100 plus 11 per keyword |
| Scoring.RustGoExample | src/components/SearchPanel.jsx:88-104 | the query "rust go" against the title "Rust and Go" with an empty description scores 20: no phrase bonus, 10 for each keyword |
| Scoring.KeywordsPointsZero | src/components/SearchPanel.jsx:100-106 | the keyword points add up to zero exactly when no keyword occurs in the title or the description |
| Scoring.ScoreZero | src/components/SearchPanel.jsx:97-106 | a post scores zero exactly when its title lacks the whole phrase and no keyword occurs in its title or description |
| Scoring.KeywordsPointsAppend | src/components/SearchPanel.jsx:100-103 | keyword points are additive over the keyword list, so a repeated keyword counts again |
| Scoring.Matching | src/components/SearchPanel.jsx:106-108 | a candidate is kept exactly when its score is above zero |
| Scoring.ScoreAll | src/components/SearchPanel.jsx:93-108 | the scoring pass yields the kept candidates in order, each with its score and its position among them |
| Scoring.OutranksStrictTotal | src/components/SearchPanel.jsx:111-114 | the comparator `Outranks` (score descending, then date descending, then input position) is irreflexive, asymmetric and transitive, and orders any two entries from different positions |
| Scoring.SortRanked | src/components/SearchPanel.jsx:110-114 | the in-place sort leaves the array ordered by score descending, then date descending, then original position (stability), and it is a permutation of the input |
| Scoring.InsertLast | src/components/SearchPanel.jsx:110-114 | one insertion step extends the ranked prefix by one element, keeping the array a permutation of what it was |
| SearchPanel.PostsOfPermutation | src/components/SearchPanel.jsx:110-116 | rearranging scored posts rearranges the posts they carry the same way |
| SearchPanel.RankedIsRanking | src/components/SearchPanel.jsx:108-116 | the sorted scored posts are a ranking of the kept candidates: each came from its recorded position, and the order is relevance, then date, then position |
| SearchPanel.RankScored | src/components/SearchPanel.jsx:110-114 | sorting the scored posts (each tagged with its position) yields a ranked permutation of them |
| SearchPanel.ProcessPosts | src/components/SearchPanel.jsx:59-118 | with a blank query the result is exactly the filtered posts in input order. Otherwise it is a permutation of the positively scored filtered posts, ordered by score descending, then date descending, then input order |
| SearchPanel.Toggled | src/components/SearchPanel.jsx:122-129 | after a toggle the tag is selected exactly when it was not, and no other tag joins or leaves; an unselected tag is appended once, at the end |
| SearchPanel.ToggledKeepsOthers | src/components/SearchPanel.jsx:122-129 | a toggle leaves the other selected tags in the same order |
| SearchPanel.ToggleTwice | src/components/SearchPanel.jsx:122-129 | toggling an unselected tag twice restores the selection |
| SearchPanel.Panel.constructor | src/components/SearchPanel.jsx:28-49 | on mount the query is empty, the tags and dates are read from the query string, and the panel is in sync with it |
| SearchPanel.Panel.Results | src/components/SearchPanel.jsx:59-118 | the panel's results are computed from its own posts, query, tags and dates: the filtered posts for a blank query, otherwise their ranking |
| SearchPanel.Panel.SetQuery | src/components/SearchPanel.jsx:195 | typing changes only the query and never the query string |
| SearchPanel.Panel.ToggleTag | src/components/SearchPanel.jsx:121-141 | the selection is toggled and only the `tags` parameter is rewritten (set to the joined list, or deleted when empty); a non-empty tag without commas keeps the panel in sync |
| SearchPanel.Panel.ClearTags | src/components/SearchPanel.jsx:143-149 | the selection is emptied, only `tags` is deleted, and the panel stays in sync |
| SearchPanel.Panel.HandleDateChange | src/components/SearchPanel.jsx:151-170 | `start` sets the start date and any other kind the end date; only that field's parameter is set or deleted; the panel stays in sync |
| SearchPanel.Panel.ClearDates | src/components/SearchPanel.jsx:172-180 | both dates are emptied, exactly `start` and `end` are deleted, and the panel stays in sync |
| UrlState.HydrateTags | src/components/SearchPanel.jsx:39-43 | every hydrated tag is non-empty and holds no comma; the list is empty exactly when the parameter is missing or has only empty segments |
| UrlState.Hydrate | src/components/SearchPanel.jsx:37-49 | the state read on mount has only plain tags, and each date is non-empty exactly when its parameter is present and non-empty |
| UrlState.HydrateDate | src/components/SearchPanel.jsx:45-48 | a date field is non-empty exactly when its parameter is present and non-empty |
| UrlState.WriteTags | src/components/SearchPanel.jsx:133-139 | only `tags` changes; it is present exactly when the list is non-empty, and then holds the comma-joined list |
| UrlState.WriteDate | src/components/SearchPanel.jsx:154-167 | only the named date parameter changes; it is present exactly when the value is non-empty, and then holds the value |
| UrlState.HydrateWrittenTags | src/components/SearchPanel.jsx:37-49 | reading back a written tag list gives that list, as long as no tag is empty or holds a comma, and the dates are untouched |
| UrlState.HydrateWrittenDate | src/components/SearchPanel.jsx:37-49 | reading back a written date gives that date, and the other fields are untouched |
| UrlState.TagsParamRoundTrip | src/components/SearchPanel.jsx:39-43 | a `tags` parameter without empty segments is present exactly when its hydrated list is non-empty, and joining that list gives the parameter back |
| UrlState.WriteBackHydrated | src/components/SearchPanel.jsx:37-49 | hydrating a query string with no empty filter values and writing the state back reproduces the query string |
| Strings.Split | src/components/ui/DateInput.jsx:49 | `split` always returns at least one piece and no piece holds the separator |
| Strings.JoinSplit | src/components/SearchPanel.jsx:42 | joining the pieces of a split gives the string back |
| Strings.SplitJoin | src/components/SearchPanel.jsx:135 | splitting a join of separator-free pieces gives the pieces back |
| Strings.Trim | src/components/SearchPanel.jsx:89 | `trim` is empty exactly for white-space-only input, and otherwise starts and ends with a non-space |
| Strings.TrimIsSlice | src/components/SearchPanel.jsx:89 | `trim` returns a slice of its input, and everything outside that slice is white space |
| Strings.Words | src/components/SearchPanel.jsx:91 | the keywords are non-empty runs without white space, and a string ending in a non-space has at least one |
| Strings.WordsSplit | src/components/SearchPanel.jsx:91 | the keywords of a string are those before any white-space character followed by those after it; with `WordsOfWord` this fixes the keywords of every string |
| Strings.WordsOfWord | src/components/SearchPanel.jsx:91 | a single run without white space is one keyword |
| Strings.WordsAfterSpace | src/components/SearchPanel.jsx:91 | a run after a space adds exactly one keyword at the end |
| Strings.ParseIntIgnoresTail | src/components/ui/DateInput.jsx:55-57 | `ParseInt` reads the leading digits and ignores what follows them, so `"12abc"` reads as 12 |
| Strings.ParseIntOfPadded | src/components/ui/DateInput.jsx:55-57 | `parseInt` reads a zero-padded number back as that number |
| Strings.NatToStringLength | src/components/ui/DateInput.jsx:63 | a number's decimal spelling fits in `w` digits exactly when the number is below 10^w |
| Calendar.DaysInMonth | src/components/ui/DateInput.jsx:85-90 | every month has 28 to 31 days; February has 29 exactly in leap years |
| Calendar.DayNumberEpoch | src/components/SearchPanel.jsx:72 | 1970-01-01 is day zero |
| Calendar.DayNumberNextDay | src/components/SearchPanel.jsx:72-77 | consecutive calendar days have consecutive day numbers |
| Calendar.YearLength | src/components/ui/DateInput.jsx:85-90 | the year from one March 1 to the next has 366 days exactly when the February inside it has a leap day |
| Calendar.ParseDateOnly | src/components/SearchPanel.jsx:72-73 | a date string parses only when it has the `YYYY-MM-DD` shape, and then to a whole number of days; a day past its month's end does not parse (see "Left out") |
| DateInput.NormalizeDate | src/components/ui/DateInput.jsx:45-64 | normalisation yields the empty string exactly for the empty string |
| DateInput.NormalizeRejects | src/components/ui/DateInput.jsx:45-60 | a non-empty input that is not three dash-separated integers with month 1 to 12 and day 1 to 31 is returned unchanged |
| DateInput.NormalizeIdempotent | src/components/ui/DateInput.jsx:45-64 | normalising twice is the same as normalising once |
| DateInput.NormalizeFormatted | src/components/ui/DateInput.jsx:45-64 | a date already in canonical form with month 1..12 and day 1..31 is left unchanged |
| DateInput.NormalizeOfFields | src/components/ui/DateInput.jsx:45-64 | a non-empty string of three parts whose integers are a month in 1..12 and a day in 1..31 is re-spelled as the canonical date of those fields |
| DateInput.FormatDateParts | src/components/ui/DateInput.jsx:63 | the canonical spelling `FormatDate` splits at its dashes into the padded year, month and day |
| DateInput.IsValidDate | src/components/ui/DateInput.jsx:67-93 | the empty string is valid, and any other valid string matches `^\d{4}-\d{1,2}-\d{1,2}$` (`MatchesDatePattern`, line 70) |
| DateInput.ValidityOfFields | src/components/ui/DateInput.jsx:67-93 | a string that matches the pattern with month 1..12 and day 1..31 is valid exactly when `new Date(y, m-1, d)` reports back the same fields (`LocalDateRoundTrips`, lines 85-90) |
| DateInput.ValidDateFields | src/components/ui/DateInput.jsx:67-93 | a non-empty valid string names a real day with a year from 100 to 9999, and normalises to that day's canonical spelling |
| DateInput.FormattedDateValidity | src/components/ui/DateInput.jsx:67-93 | a canonical date with month 1..12 and day 1..31 is valid exactly when its year is at least 100 and the day exists in that month |
| DateInput.FormattedDateParses | src/components/ui/DateInput.jsx:63 | a canonical spelling of a real day has the ISO shape, and the date-range filter reads it as that day's UTC midnight |
| DateInput.HandleBlur | src/components/ui/DateInput.jsx:105-124 | blur shows what it emits; it flags an error exactly when the input is non-empty and its normalisation is invalid; it emits the normalised input or, on error, the empty string |
| DateInput.RejectedInputBlurs | src/components/ui/DateInput.jsx:105-124 | an input that normalisation rejects is invalid, so on blur the field is cleared, the empty string is emitted and the error is shown |
| DateInput.BlurEmitsCanonicalDate | src/components/ui/DateInput.jsx:105-124 | a blur emits either nothing or a valid, self-normalising, ISO-shaped date that the date-range filter can read |
| DateInput.HandleDaySelect | src/components/ui/DateInput.jsx:135-147 | no day changes nothing; a picked day is shown and emitted without error, as `FormatPickedDay` spells it (lines 138-141: the year, then month and day zero-padded to two digits) |
| DateInput.PickedDayIsCanonical | src/components/ui/DateInput.jsx:135-147 | what a pick emits for a day with a four-digit year is its canonical spelling, is valid, and a later blur leaves it unchanged and without error |

## Left out

- Rendering is not modelled: the JSX, animations, `HighlightText` (which only
  decorates results) and the date field's popover, click-outside handling
  and keyboard handling.
- `window.location` and `history.pushState` are not modelled: the query
  string is a `map` from parameter name to value, passed in at mount and
  updated by each handler. URL encoding, the order of keys and repeated keys
  of `URLSearchParams` are outside the model. A later parameter write
  replaces the map.
- React's state scheduling and `useMemo` caching are not modelled: each
  handler updates the fields at once, and `ProcessPosts` is called on the
  current state.
- `SearchPanel.ProcessPosts` returns the posts themselves. The source returns
  copies of them carrying an extra `_score` field.
- `Strings.Lower`, `Strings.IsSpace`: only ASCII. Unicode case mapping and
  Unicode white space are not modelled.
- `TagIndex.Below` compares characters as code points. JavaScript's default
  `sort` compares UTF-16 code units, which differs only for characters
  outside the Basic Multilingual Plane.
- Post dates are whole milliseconds since the epoch, and date strings are
  read in UTC. The source moves the end bound to 23:59:59.999 in the
  browser's local time zone, which is the model's bound only in UTC.
- `Calendar.ParseDateOnly` accepts only the `YYYY-MM-DD` form. Other strings
  that `new Date` parses are treated as no bound, as are Invalid Dates. A
  string of that form whose day lies past the end of its month
  (`2024-02-30`) is also treated as no bound. ECMAScript leaves such a string
  to the engine: some engines give an Invalid Date, and V8 rolls it into the
  next month (2024-03-01). Such a date can reach the filter only through a
  hand-edited query string, because the native date inputs produce real days.
- `DateInput.LocalDateRoundTrips` does not model years beyond the range of
  `Date` (±275760), where `new Date` gives an Invalid Date. The pattern
  admits only four-digit years, so this never arises.
- `DateInput.HandleDaySelect` takes the picked day's fields as plain
  integers and requires them to name a real day, as a `Date` always does. The
  `Date` object itself is not modelled.
- `DateInput.NormalizeDate`: JavaScript numbers are unbounded integers here.
  `parseInt` of more than 15 digits loses precision, and `toString` of a
  number of 21 or more digits uses exponent form; neither is modelled.
- Where the behavioural description and the code disagree, the code is
  followed:
  - The selected tags are a list, not a set. A query string such as
    `tags=a,a` yields a repeated tag, and a toggle then removes every copy.
  - Tags hydrated from the query string are not checked against the tags
    of the posts, so the selection need not be a subset of the tag index.
  - The panel's own date fields are native date inputs (lines 246-260), not
    the `DateInput` component. The link between the two is only that what
    `DateInput` emits is a day the date-range filter reads
    (`DateInput.BlurEmitsCanonicalDate`).
  - `isValidDate` rejects the years 0 to 99, because `new Date(y, m-1, d)`
    reads them as 1900 to 1999, so a typed `0099-01-01` is invalid.
- `SearchPanel.Panel.ToggleTag` keeps the panel in sync with the query string
  only for a tag that is non-empty and holds no comma. Hydration splits the
  parameter at commas, so other tags do not read back as written.
