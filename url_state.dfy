/**
 * The panel's filter state as it appears in the page URL's query string,
 * modelled as a key-to-value map: `tags` (comma-joined), `start`, `end`.
 * The free-text query is never written to the URL.
 */
module UrlState {
  import opened Strings
  import opened Seqs

  type Params = map<string, string>

  /** The filter state a query string describes. */
  datatype FilterParams = FilterParams(tags: seq<string>, start: string, end: string)

  /** A tag that survives the trip through the comma-joined `tags` parameter. */
  predicate PlainTag(t: string)
  {
    t != "" && ',' !in t
  }

  /** `tagsParam.split(',').filter(Boolean)` when the parameter is present and non-empty. */
  function HydrateTags(params: Params): (tags: seq<string>)
    ensures forall t :: t in tags ==> PlainTag(t)
    ensures tags == [] ==> "tags" !in params || forall seg :: seg in Split(params["tags"], ',') ==> seg == ""
    ensures tags != [] ==> "tags" in params && exists seg :: seg in Split(params["tags"], ',') && seg != ""
  {
    if "tags" in params && params["tags"] != "" then
      var segs := Filter(Split(params["tags"], ','), (seg: string) => seg != "");
      assert segs != [] ==> segs[0] in segs;
      segs
    else
      assert "tags" in params ==> Split(params["tags"], ',') == [""];
      []
  }

  /** A date parameter when present and non-empty, otherwise the empty default. */
  function HydrateDate(params: Params, key: string): (value: string)
    ensures value != "" <==> key in params && params[key] != ""
  {
    if key in params && params[key] != "" then params[key] else ""
  }

  /** The mount effect: the filter state read from the query string. */
  function Hydrate(params: Params): (state: FilterParams)
    ensures forall t :: t in state.tags ==> PlainTag(t)
    ensures state.start != "" <==> "start" in params && params["start"] != ""
    ensures state.end != "" <==> "end" in params && params["end"] != ""
  {
    FilterParams(HydrateTags(params), HydrateDate(params, "start"), HydrateDate(params, "end"))
  }

  /** Write-back of the tag list: set `tags` to the comma-join when there are tags, delete it otherwise. */
  function WriteTags(params: Params, tags: seq<string>): (r: Params)
    ensures r - {"tags"} == params - {"tags"}
    ensures "tags" in r <==> |tags| > 0
    ensures "tags" in r ==> r["tags"] == Join(tags, ',')
  {
    if |tags| > 0 then params["tags" := Join(tags, ',')] else params - {"tags"}
  }

  /** Write-back of one date field: set `key` when the value is non-empty, delete it otherwise. */
  function WriteDate(params: Params, key: string, value: string): (r: Params)
    ensures r - {key} == params - {key}
    ensures key in r <==> value != ""
    ensures key in r ==> r[key] == value
  {
    if value != "" then params[key := value] else params - {key}
  }

  /** Writing every filter field back. */
  function WriteBack(params: Params, state: FilterParams): Params
  {
    WriteTags(WriteDate(WriteDate(params, "start", state.start), "end", state.end), state.tags)
  }

  /** A query string whose filter parameters are exactly as write-back spells them. */
  predicate Canonical(params: Params)
  {
    && ("tags" in params ==> forall seg :: seg in Split(params["tags"], ',') ==> seg != "")
    && ("start" in params ==> params["start"] != "")
    && ("end" in params ==> params["end"] != "")
  }

  // ---------------------------------------------------------------------
  // Properties
  // ---------------------------------------------------------------------

  /** Two maps that agree once `key` is removed agree on every other key. */
  lemma AgreeOffKey(r: Params, params: Params, key: string, k: string)
    requires r - {key} == params - {key} && k != key
    ensures k in r <==> k in params
    ensures k in r ==> r[k] == params[k]
  {
    assert k in r <==> k in r - {key};
    assert k in params <==> k in params - {key};
    if k in r {
      assert r[k] == (r - {key})[k];
    }
  }

  /**
   * Writing a list of plain tags and reading it back gives the same list,
   * and leaves the dates read back untouched.
   */
  lemma HydrateWrittenTags(params: Params, tags: seq<string>)
    requires forall t :: t in tags ==> PlainTag(t)
    ensures Hydrate(WriteTags(params, tags)) == Hydrate(params).(tags := tags)
  {
    var r := WriteTags(params, tags);
    AgreeOffKey(r, params, "tags", "start");
    AgreeOffKey(r, params, "tags", "end");
    if |tags| > 0 {
      SplitJoin(tags, ',');
      assert tags[0] in tags;
      assert Join(tags, ',') != "" by {
        assert Split("", ',') == [""];
      }
      FilterKeepsAll(tags, (seg: string) => seg != "");
    }
  }

  /** Writing a date and reading it back gives that date, and leaves the other fields untouched. */
  lemma HydrateWrittenDate(params: Params, key: string, value: string)
    requires key == "start" || key == "end"
    ensures Hydrate(WriteDate(params, key, value)) ==
      if key == "start" then Hydrate(params).(start := value) else Hydrate(params).(end := value)
  {
    var r := WriteDate(params, key, value);
    AgreeOffKey(r, params, key, "tags");
    if key == "start" {
      AgreeOffKey(r, params, key, "end");
    } else {
      AgreeOffKey(r, params, key, "start");
    }
  }

  /** On a canonical query string the tag list read back joins to the `tags` parameter again. */
  lemma TagsParamRoundTrip(params: Params)
    requires Canonical(params)
    ensures |HydrateTags(params)| > 0 <==> "tags" in params
    ensures "tags" in params ==> Join(HydrateTags(params), ',') == params["tags"]
  {
    if "tags" in params {
      var v := params["tags"];
      var parts := Split(v, ',');
      JoinSplit(v, ',');
      assert v != "" by {
        assert Split("", ',') == [""];
        assert "" in Split("", ',');
      }
      FilterKeepsAll(parts, (seg: string) => seg != "");
    }
  }

  /**
   * Reading a canonical query string and writing the state back reproduces
   * the query string exactly, other parameters included.
   */
  lemma WriteBackHydrated(params: Params)
    requires Canonical(params)
    ensures WriteBack(params, Hydrate(params)) == params
  {
    var state := Hydrate(params);
    var p1 := WriteDate(params, "start", state.start);
    var p2 := WriteDate(p1, "end", state.end);
    var p3 := WriteTags(p2, state.tags);
    TagsParamRoundTrip(params);
    forall k ensures (k in p3 <==> k in params) && (k in p3 ==> p3[k] == params[k]) {
      if k != "tags" {
        AgreeOffKey(p3, p2, "tags", k);
        if k != "end" {
          AgreeOffKey(p2, p1, "end", k);
          if k != "start" {
            AgreeOffKey(p1, params, "start", k);
          }
        }
      }
    }
    assert p3.Keys == params.Keys;
  }
}
