/**
  The item search route (`POST /api/items`) and the CSV export route
  (`POST /api/export`): request validation, the offset and size sanitisers, the
  adaptive page walk that collects every matching item, the window of the
  sorted matches a search answers with, and the rows of the export.

  The server is a `Scan.Catalog` of items for the query the route sends; the
  release timestamp used by the `PremiereDate` order is a parameter.
 */
module ItemRoutes {
  import opened Wrappers
  import Text
  import Json
  import Config
  import Dedup
  import Ordering
  import Connection
  import TagNames
  import Items
  import Scan

  type Item = Items.Item

  // _sanitize_start_index, _sanitize_limit

  /** `_sanitize_start_index(value)`: the parsed offset when it is not negative, 0 when negative or unparsable. */
  function SanitizeStartIndex(value: Json.Json): (r: nat)
    ensures Json.IntOf(value).Some? && Json.IntOf(value).value >= 0 ==> r == Json.IntOf(value).value
    ensures Json.IntOf(value).None? || Json.IntOf(value).value < 0 ==> r == 0
  {
    var parsed := Json.IntOf(value);
    if parsed.None? || parsed.value < 0 then 0 else parsed.value
  }

  /** The largest page a search answers with, and the size used when none can be parsed. */
  const LimitCap: nat := 100

  /** `_sanitize_limit(value)`: the parsed size clamped to `[0, 100]`, and 100 when unparsable. */
  function SanitizeLimit(value: Json.Json): (r: nat)
    ensures r <= LimitCap
    ensures Json.IntOf(value).None? ==> r == LimitCap
    ensures Json.IntOf(value).Some? && 0 <= Json.IntOf(value).value <= LimitCap ==> r == Json.IntOf(value).value
    ensures Json.IntOf(value).Some? && Json.IntOf(value).value > LimitCap ==> r == LimitCap
    ensures Json.IntOf(value).Some? && Json.IntOf(value).value < 0 ==> r == 0
  {
    var parsed := if Json.IntOf(value).Some? then Json.IntOf(value).value else 100;
    if parsed > 100 then 100 else if parsed < 0 then 0 else parsed
  }

  /** Sanitised values sanitise to themselves. */
  lemma SanitizeIdempotent(value: Json.Json)
    ensures SanitizeStartIndex(Json.JInt(SanitizeStartIndex(value))) == SanitizeStartIndex(value)
    ensures SanitizeLimit(Json.JInt(SanitizeLimit(value))) == SanitizeLimit(value)
  {
  }

  /** `data.get("startIndex", 0)`, sanitised. */
  function StartIndexOf(data: map<string, Json.Json>): nat {
    SanitizeStartIndex(Json.GetOr(data, "startIndex", Json.JInt(0)))
  }

  /** `data.get("limit", 100)`, sanitised. */
  function LimitOf(data: map<string, Json.Json>): nat {
    SanitizeLimit(Json.GetOr(data, "limit", Json.JInt(100)))
  }

  /** `_prepare_fields()`: the item fields every page request asks for. */
  const PreparedFields: seq<string> := [
    "TagItems", "InheritedTags", "Name", "Path", "ProviderIds",
    "Type", "Tags", "SortName", "PremiereDate", "ProductionYear"]

  // Validation

  const UserIdRequired: Connection.ErrorResponse := Connection.ErrorResponse(400, "userId is required")
  const LibraryIdRequired: Connection.ErrorResponse := Connection.ErrorResponse(400, "libraryId is required")

  /** `str(raw).strip()` for a present value, "" for None. */
  function IdText(raw: Json.Json): (r: string)
    ensures Text.IsStripped(r)
  {
    if raw.JNull? then "" else Text.Strip(Json.PyStr(raw))
  }

  /** Where a validated request goes: the server, its key, the user and the library. */
  datatype Target = Target(base: string, apiKey: string, userId: string, libId: string)

  /**
    The checks both routes make before fetching anything, in this order: the
    resolved base URL, then the user id, then the library id; the first that
    fails decides the 400 answer.
   */
  function Validate(data: map<string, Json.Json>, envBase: Option<string>, envKey: Option<string>)
      : (r: Result<Target, Connection.ErrorResponse>)
    ensures var config := Connection.ResolveConfig(data, envBase, envKey);
      var base := Connection.ValidateBase(config.0);
      var userId := IdText(Json.Get(data, "userId"));
      var libId := IdText(Json.Get(data, "libraryId"));
      (base.Err? ==> r == Err(Connection.BaseRequired))
      && (base.Ok? && userId == "" ==> r == Err(UserIdRequired))
      && (base.Ok? && userId != "" && libId == "" ==> r == Err(LibraryIdRequired))
      && (r.Ok? <==> base.Ok? && userId != "" && libId != "")
      && (r.Ok? ==> r.value == Target(base.value, config.1, userId, libId))
  {
    var config := Connection.ResolveConfig(data, envBase, envKey);
    var base := Connection.ValidateBase(config.0);
    var userId := IdText(Json.Get(data, "userId"));
    var libId := IdText(Json.Get(data, "libraryId"));
    if base.Err? then Err(base.error)
    else if userId == "" then Err(UserIdRequired)
    else if libId == "" then Err(LibraryIdRequired)
    else Ok(Target(base.value, config.1, userId, libId))
  }

  /**
    A request that passes validation names a non-empty base URL without a
    trailing slash and non-empty, stripped user and library ids; one that fails
    gets one of the three 400 answers.
   */
  lemma ValidatedTarget(data: map<string, Json.Json>, envBase: Option<string>, envKey: Option<string>)
    ensures var r := Validate(data, envBase, envKey);
      (r.Ok? ==> r.value.base != "" && r.value.base[|r.value.base| - 1] != '/'
                 && r.value.userId != "" && Text.IsStripped(r.value.userId)
                 && r.value.libId != "" && Text.IsStripped(r.value.libId))
      && (r.Err? ==> r.error in {Connection.BaseRequired, UserIdRequired, LibraryIdRequired} && r.error.status == 400)
  {
  }

  // The query both routes send

  /** What both routes derive from the request body once it is validated. */
  datatype Query = Query(
    target: Target, includeTypes: seq<string>, includeKeys: set<string>, excludeKeys: set<string>,
    excludedTypes: seq<string>, titleQuery: string, sort: (string, string))

  /** `{tag.casefold() for tag in tags}`. */
  function CasefoldKeys(tags: seq<string>): set<string> {
    Dedup.KeysOf(tags, Text.Lower)
  }

  /** The query of `api_items` and `api_export` for a validated request. */
  function QueryOf(data: map<string, Json.Json>, target: Target): (q: Query)
    ensures q.target == target
    ensures q.excludedTypes == if Json.Truthy(Json.Get(data, "excludeCollections")) then Config.CollectionItemTypes else []
    ensures q.titleQuery == Json.StrippedText(Json.Get(data, "titleQuery"))
    ensures q.sort == Items.NormalizeSortParams(Json.Get(data, "sortBy"), Json.Get(data, "sortOrder"))
  {
    Query(
      target,
      Items.NormalizedItemTypes(Json.Get(data, "types")),
      CasefoldKeys(TagNames.NormalizeTags(Json.GetOr(data, "includeTags", Json.JStr("")))),
      CasefoldKeys(TagNames.NormalizeTags(Json.GetOr(data, "excludeTags", Json.JStr("")))),
      if Json.Truthy(Json.Get(data, "excludeCollections")) then Config.CollectionItemTypes else [],
      Json.StrippedText(Json.Get(data, "titleQuery")),
      Items.NormalizeSortParams(Json.Get(data, "sortBy"), Json.Get(data, "sortOrder")))
  }

  /** The `page_items` request the routes send for one step `r` of the page walk. */
  function PageRequestOf(q: Query, r: Scan.Request): Items.PageRequest {
    Items.PageItemsRequest(
      q.target.base, q.target.userId, q.target.libId, Json.Strings(q.includeTypes), PreparedFields,
      r.start, r.limit, if q.titleQuery != "" then Some(q.titleQuery) else None, q.excludedTypes,
      Some(q.sort.0), Some(q.sort.1))
  }

  /** The requests of a whole walk, in order. */
  function PageRequests(q: Query, rs: seq<Scan.Request>): (r: seq<Items.PageRequest>)
    ensures |r| == |rs|
    ensures forall i :: 0 <= i < |rs| ==> r[i] == PageRequestOf(q, rs[i])
  {
    seq(|rs|, i requires 0 <= i < |rs| => PageRequestOf(q, rs[i]))
  }

  /**
    Each request of a validated route goes to the user's item endpoint with the
    walk step's offset and size, searches for the title query exactly when it is
    non-blank, and carries the normalised sort parameters.
   */
  lemma PageRequestOfSpec(data: map<string, Json.Json>, target: Target, r: Scan.Request)
    requires target.userId != ""
    ensures var q := QueryOf(data, target); var p := PageRequestOf(q, r);
      p.endpoint == target.base + "/Users/" + target.userId + "/Items"
      && p.params.parentId == target.libId && p.params.startIndex == r.start && p.params.limit == r.limit
      && (p.params.searchTerm.Some? <==> q.titleQuery != "")
      && (p.params.searchTerm.Some? ==> p.params.searchTerm.value == q.titleQuery)
      && p.params.sortBy == Some(q.sort.0) && p.params.sortOrder == Some(q.sort.1)
      && (p.params.excludeItemTypes.Some? <==> Json.Truthy(Json.Get(data, "excludeCollections")))
  {
    var q := QueryOf(data, target);
    var raw := Json.Get(data, "titleQuery");
    if q.titleQuery != "" {
      Text.StripOfStripped(q.titleQuery);
    }
    Items.NormalizeSortParamsIdempotent(Json.Get(data, "sortBy"), Json.Get(data, "sortOrder"));
  }

  // _filter_and_collect_items

  /** `it.get("Type") in excluded_set`. */
  predicate IsExcluded(item: Item, excludedTypes: seq<string>) {
    Json.Get(item, "Type").JStr? && Json.Get(item, "Type").s in excludedTypes
  }

  /** An item the loop keeps: not excluded, with readable tags that pass the filters. */
  predicate Kept(item: Item, q: Query) {
    !IsExcluded(item, q.excludedTypes)
    && Items.TagsOfItem(item).Some?
    && Items.Matches(item, Items.TagsOfItem(item).value, q.includeKeys, q.excludeKeys, Text.Lower(q.titleQuery))
  }

  /** An item the loop cannot process: not excluded, and its tag fields cannot be walked. */
  predicate Unreadable(item: Item, q: Query) {
    !IsExcluded(item, q.excludedTypes) && Items.TagsOfItem(item).None?
  }

  /**
    What one received item adds to the matches: its serialised form when it is
    kept, nothing otherwise, and None when it cannot be processed.
   */
  function Contribution(item: Item, q: Query): (r: Option<seq<Item>>)
    ensures r.None? <==> Unreadable(item, q)
    ensures r.Some? && Kept(item, q) ==> r.value == [Items.Serialized(item, Items.TagsOfItem(item).value)]
    ensures r.Some? && !Kept(item, q) ==> r.value == []
  {
    if IsExcluded(item, q.excludedTypes) then Some([])
    else
      var tags := Items.TagsOfItem(item);
      if tags.None? then None
      else if Items.Matches(item, tags.value, q.includeKeys, q.excludeKeys, Text.Lower(q.titleQuery))
      then Some([Items.Serialized(item, tags.value)])
      else Some([])
  }

  /**
    Each element's contribution, concatenated left to right; None as soon as
    one element has none.
   */
  function Gather<X, Y>(xs: seq<X>, f: X -> Option<seq<Y>>): Option<seq<Y>>
    decreases |xs|
  {
    if xs == [] then Some([])
    else
      var before := Gather(xs[..|xs| - 1], f);
      var last := f(xs[|xs| - 1]);
      if before.None? || last.None? then None else Some(before.value + last.value)
  }

  /** Gathering a concatenation gathers each part, in order. */
  lemma {:induction false} GatherAppend<X, Y>(a: seq<X>, b: seq<X>, f: X -> Option<seq<Y>>)
    ensures Gather(a + b, f)
         == if Gather(a, f).None? || Gather(b, f).None? then None else Some(Gather(a, f).value + Gather(b, f).value)
    decreases |b|
  {
    if b == [] {
      assert a + b == a;
      if Gather(a, f).Some? {
        assert Gather(a, f).value + [] == Gather(a, f).value;
      }
    } else {
      var b', last := b[..|b| - 1], b[|b| - 1];
      GatherAppend(a, b', f);
      assert (a + b)[..|a + b| - 1] == a + b';
      assert (a + b)[|a + b| - 1] == last;
      var ga, gb', gl := Gather(a, f), Gather(b', f), f(last);
      if ga.Some? && gb'.Some? && gl.Some? {
        assert (ga.value + gb'.value) + gl.value == ga.value + (gb'.value + gl.value);
      }
    }
  }

  /** Gathering fails exactly when some element has no contribution. */
  lemma {:induction false} GatherFailure<X, Y>(xs: seq<X>, f: X -> Option<seq<Y>>)
    ensures Gather(xs, f).None? <==> exists i :: 0 <= i < |xs| && f(xs[i]).None?
    decreases |xs|
  {
    if xs != [] {
      var front := xs[..|xs| - 1];
      GatherFailure(front, f);
      assert forall i :: 0 <= i < |front| ==> xs[i] == front[i];
    }
  }

  /**
    A successful gathering holds exactly the elements of the contributions, and
    is no longer than the input when no contribution has more than one element.
   */
  lemma {:induction false} GatherMembers<X, Y>(xs: seq<X>, f: X -> Option<seq<Y>>)
    requires Gather(xs, f).Some?
    ensures forall i :: 0 <= i < |xs| ==> f(xs[i]).Some?
    ensures forall y :: y in Gather(xs, f).value <==> exists i :: 0 <= i < |xs| && y in f(xs[i]).value
    ensures (forall i :: 0 <= i < |xs| ==> |f(xs[i]).value| <= 1) ==> |Gather(xs, f).value| <= |xs|
    decreases |xs|
  {
    if xs != [] {
      var front := xs[..|xs| - 1];
      var n := |xs| - 1;
      GatherMembers(front, f);
      assert forall i :: 0 <= i < |front| ==> xs[i] == front[i];
      var r := Gather(xs, f).value;
      assert r == Gather(front, f).value + f(xs[n]).value;
      forall y ensures y in r <==> exists i :: 0 <= i < |xs| && y in f(xs[i]).value {
        if y in r && y !in Gather(front, f).value {
          assert y in f(xs[n]).value;
        }
      }
    }
  }

  /** What the loop contributes for each item under query `q`. */
  function ContributionOf(q: Query): Item -> Option<seq<Item>> {
    item => Contribution(item, q)
  }

  /** The matches collected from the received items, in order; None when one of them cannot be processed. */
  function Collected(items: seq<Item>, q: Query): Option<seq<Item>> {
    Gather(items, ContributionOf(q))
  }

  /** Collecting a concatenation collects each part, in order: no page ends the walk early. */
  lemma CollectedAppend(a: seq<Item>, b: seq<Item>, q: Query)
    ensures Collected(a + b, q)
         == if Collected(a, q).None? || Collected(b, q).None? then None
            else Some(Collected(a, q).value + Collected(b, q).value)
  {
    GatherAppend(a, b, ContributionOf(q));
  }

  /** Collection fails exactly when some non-excluded item cannot be processed. */
  lemma CollectedFailure(items: seq<Item>, q: Query)
    ensures Collected(items, q).None? <==> exists i :: 0 <= i < |items| && Unreadable(items[i], q)
  {
    GatherFailure(items, ContributionOf(q));
    if Collected(items, q).None? {
      var i :| 0 <= i < |items| && ContributionOf(q)(items[i]).None?;
      assert Unreadable(items[i], q);
    }
    if exists i :: 0 <= i < |items| && Unreadable(items[i], q) {
      var i :| 0 <= i < |items| && Unreadable(items[i], q);
      assert ContributionOf(q)(items[i]).None?;
    }
  }

  /** At most one match per received item. */
  lemma CollectedLength(items: seq<Item>, q: Query)
    requires Collected(items, q).Some?
    ensures |Collected(items, q).value| <= |items|
  {
    var f := ContributionOf(q);
    GatherMembers(items, f);
    forall i | 0 <= i < |items| ensures |f(items[i]).value| <= 1 {
      assert f(items[i]) == Contribution(items[i], q);
    }
  }

  /** Every collected match is the serialised form of a kept item. */
  lemma CollectedSound(items: seq<Item>, q: Query)
    requires Collected(items, q).Some?
    ensures forall x :: x in Collected(items, q).value ==>
      exists i :: 0 <= i < |items| && Kept(items[i], q) && x == Items.Serialized(items[i], Items.TagsOfItem(items[i]).value)
  {
    var f := ContributionOf(q);
    GatherMembers(items, f);
    forall x | x in Collected(items, q).value
      ensures exists i :: 0 <= i < |items| && Kept(items[i], q) && x == Items.Serialized(items[i], Items.TagsOfItem(items[i]).value)
    {
      var i :| 0 <= i < |items| && x in f(items[i]).value;
      ContributionMember(items[i], q, x);
    }
  }

  lemma ContributionMember(item: Item, q: Query, x: Item)
    requires ContributionOf(q)(item).Some? && x in ContributionOf(q)(item).value
    ensures Kept(item, q) && x == Items.Serialized(item, Items.TagsOfItem(item).value)
  {
  }

  /** Every kept item's serialised form is among the collected matches. */
  lemma CollectedComplete(items: seq<Item>, q: Query)
    requires Collected(items, q).Some?
    ensures forall i :: 0 <= i < |items| && Kept(items[i], q) ==>
      Items.Serialized(items[i], Items.TagsOfItem(items[i]).value) in Collected(items, q).value
  {
    var f := ContributionOf(q);
    GatherMembers(items, f);
    forall i | 0 <= i < |items| && Kept(items[i], q)
      ensures Items.Serialized(items[i], Items.TagsOfItem(items[i]).value) in Collected(items, q).value
    {
      KeptContributes(items[i], q);
    }
  }

  lemma KeptContributes(item: Item, q: Query)
    requires Kept(item, q)
    ensures ContributionOf(q)(item).Some?
    ensures Items.Serialized(item, Items.TagsOfItem(item).value) in ContributionOf(q)(item).value
  {
  }

  /** When "" is not an excluded type, no collected item has an excluded `Type`. */
  lemma CollectedExcludesTypes(items: seq<Item>, q: Query)
    requires "" !in q.excludedTypes
    requires Collected(items, q).Some?
    ensures forall x :: x in Collected(items, q).value ==> !IsExcluded(x, q.excludedTypes)
  {
    CollectedSound(items, q);
    forall x | x in Collected(items, q).value ensures !IsExcluded(x, q.excludedTypes) {
      var i :| 0 <= i < |items| && Kept(items[i], q) && x == Items.Serialized(items[i], Items.TagsOfItem(items[i]).value);
      assert x["Type"] == Json.GetOr(items[i], "Type", Json.JStr(""));
    }
  }

  /** A collection that failed on a prefix fails on the whole. */
  lemma CollectedFails(items: seq<Item>, n: nat, q: Query)
    requires n <= |items| && Collected(items[..n], q).None?
    ensures Collected(items, q).None?
  {
    CollectedAppend(items[..n], items[n..], q);
    assert items[..n] + items[n..] == items;
  }

  /** One item through the loop body: the type check, `item_matches_filters` and `serialize_item_for_response`. */
  method Contribute(item: Item, q: Query, titleQueryLower: string) returns (r: Option<seq<Item>>)
    requires titleQueryLower == Text.Lower(q.titleQuery)
    ensures r == Contribution(item, q)
  {
    if IsExcluded(item, q.excludedTypes) {
      return Some([]);
    }
    var ok := Items.ItemMatchesFilters(item, q.includeKeys, q.excludeKeys, titleQueryLower);
    if ok.None? {
      return None;
    }
    if !ok.value {
      return Some([]);
    }
    var serialized := Items.SerializeItem(item);
    return Some([serialized.value]);
  }

  /** The matching loop over the received items, appending to `matched_items`. */
  method CollectMatches(items: seq<Item>, q: Query) returns (matched: Option<seq<Item>>)
    ensures matched == Collected(items, q)
  {
    var titleQueryLower := Text.Lower(q.titleQuery);
    var out: seq<Item> := [];
    for i := 0 to |items|
      invariant Collected(items[..i], q) == Some(out)
    {
      assert items[..i + 1][..i] == items[..i];
      var step := Contribute(items[i], q, titleQueryLower);
      if step.None? {
        CollectedFails(items, i + 1, q);
        return None;
      }
      out := out + step.value;
    }
    assert items[..|items|] == items;
    return Some(out);
  }

  /** `fetch_limit = limit if limit > 0 else 100`. */
  function FirstFetch(limit: nat): (r: nat)
    ensures r > 0
    ensures limit > 0 ==> r == limit
  {
    if limit > 0 then limit else 100
  }

  /**
    `_filter_and_collect_items`: the adaptive walk from offset 0 with the first
    fetch size, every request it sends, and the matches of everything received.
   */
  method FilterAndCollect(c: Scan.Catalog<Item>, q: Query, fetchLimit: nat)
      returns (requests: seq<Items.PageRequest>, matched: Option<seq<Item>>)
    ensures var w := Scan.WalkFrom(c, Scan.Request(0, fetchLimit));
      requests == PageRequests(q, w.requests) && matched == Collected(w.fetched, q)
  {
    var steps, fetched := Scan.AdaptiveScan(c, 0, fetchLimit);
    requests := PageRequests(q, steps);
    matched := CollectMatches(fetched, q);
  }

  // api_items

  /** Python's `s[start:start + limit]` for `limit > 0`, and `[]` for `limit == 0`. */
  function Window<X>(s: seq<X>, start: nat, limit: nat): (r: seq<X>)
    ensures |r| == if limit == 0 || start >= |s| then 0 else Scan.Min(limit, |s| - start)
    ensures forall i :: 0 <= i < |r| ==> r[i] == s[start + i]
    ensures multiset(r) <= multiset(s)
  {
    if limit == 0 then []
    else
      var lo := Scan.Min(start, |s|);
      var hi := Scan.Min(start + limit, |s|);
      assert s == s[..lo] + s[lo..hi] + s[hi..];
      s[lo..hi]
  }

  /** The JSON answer of a successful search. */
  datatype ItemsPage = ItemsPage(
    totalRecordCount: nat, totalMatchCount: nat, returnedCount: nat,
    items: seq<Item>, sortBy: string, sortOrder: string)

  /**
    The answer for `matches`: both totals count all of them, the items are the
    requested window of the sorted matches, and the returned count is the
    window's length, never above the page size.
   */
  function ItemsAnswer(matches: seq<Item>, sort: (string, string), start: nat, limit: nat, release: Items.Release)
      : (r: ItemsPage)
    ensures r.totalRecordCount == |matches| && r.totalMatchCount == |matches|
    ensures r.returnedCount == |r.items| && r.returnedCount <= limit
    ensures r.items == Window(Items.SortItems(matches, sort, release), start, limit)
    ensures multiset(r.items) <= multiset(matches)
    ensures r.sortBy == sort.0 && r.sortOrder == sort.1
  {
    var page := Window(Items.SortItems(matches, sort, release), start, limit);
    ItemsPage(|matches|, |matches|, |page|, page, sort.0, sort.1)
  }

  /**
    `sort_items_for_response` called with already normalised parameters sorts
    exactly as those parameters say.
   */
  lemma ResortNormalized(matches: seq<Item>, data: map<string, Json.Json>, target: Target, release: Items.Release)
    ensures var q := QueryOf(data, target);
      Items.SortItemsForResponse(matches, Json.JStr(q.sort.0), Json.JStr(q.sort.1), release)
      == Items.SortItems(matches, q.sort, release)
  {
    Items.NormalizeSortParamsIdempotent(Json.Get(data, "sortBy"), Json.Get(data, "sortOrder"));
  }

  /** Why a route gives no answer body: a 400 from validation, or an item whose tags cannot be walked. */
  datatype RouteFailure = Rejected(response: Connection.ErrorResponse) | UnreadableItem

  /**
    `api_items`: validation first (no request is sent for a rejected body), then
    the walk with the sanitised page size, then the window of the sorted matches.
   */
  method ApiItems(data: map<string, Json.Json>, envBase: Option<string>, envKey: Option<string>,
                  c: Scan.Catalog<Item>, release: Items.Release)
      returns (requests: seq<Items.PageRequest>, answer: Result<ItemsPage, RouteFailure>)
    ensures Validate(data, envBase, envKey).Err? ==>
      requests == [] && answer == Err(Rejected(Validate(data, envBase, envKey).error))
    ensures Validate(data, envBase, envKey).Ok? ==>
      var q := QueryOf(data, Validate(data, envBase, envKey).value);
      var w := Scan.WalkFrom(c, Scan.Request(0, FirstFetch(LimitOf(data))));
      requests == PageRequests(q, w.requests)
      && answer == match Collected(w.fetched, q)
                   case None => Err(UnreadableItem)
                   case Some(matches) => Ok(ItemsAnswer(matches, q.sort, StartIndexOf(data), LimitOf(data), release))
  {
    var target := Validate(data, envBase, envKey);
    if target.Err? {
      return [], Err(Rejected(target.error));
    }
    var q := QueryOf(data, target.value);
    var start := StartIndexOf(data);
    var limit := LimitOf(data);
    var matched;
    requests, matched := FilterAndCollect(c, q, FirstFetch(limit));
    if matched.None? {
      return requests, Err(UnreadableItem);
    }
    answer := Ok(ItemsAnswer(matched.value, q.sort, start, limit, release));
  }

  // api_export

  /** The page size the export walk starts with. */
  const ExportFetchLimit: nat := 500

  /** One CSV row: the item's id, type, name and path as stored, and its tags joined by `;`. */
  datatype ExportRow = ExportRow(id: Json.Json, itemType: Json.Json, name: Json.Json, path: Json.Json, tags: string)

  /** The strings of a serialised `Tags` list, in order. */
  function TagList(v: Json.Json): seq<string> {
    if v.JArr? then StringElems(v.elems) else []
  }

  function StringElems(elems: seq<Json.Json>): seq<string>
    decreases |elems|
  {
    if elems == [] then []
    else
      var front := StringElems(elems[..|elems| - 1]);
      var last := elems[|elems| - 1];
      if last.JStr? then front + [last.s] else front
  }

  /** Reading back the `Tags` list of a serialised item gives the tags that were stored. */
  lemma {:induction false} TagListOfStrings(ts: seq<string>)
    ensures TagList(Json.Strings(ts)) == ts
    decreases |ts|
  {
    if ts != [] {
      var front := ts[..|ts| - 1];
      TagListOfStrings(front);
      assert Json.Strings(ts).elems[..|ts| - 1] == Json.Strings(front).elems;
      assert TagList(Json.Strings(ts)) == StringElems(Json.Strings(ts).elems);
    }
  }

  /**
    The row of one serialised item: its `Id`, `Type`, `Name` and `Path` (an
    empty string for a missing one) and the `;`.join of its tags sorted by
    lower case, empty when it has none.
   */
  function RowOf(item: Item): (r: ExportRow)
    ensures "Id" in item ==> r.id == item["Id"]
    ensures "Type" in item ==> r.itemType == item["Type"]
    ensures "Name" in item ==> r.name == item["Name"]
    ensures "Path" in item ==> r.path == item["Path"]
    ensures ("Id" !in item ==> r.id == Json.JStr("")) && ("Type" !in item ==> r.itemType == Json.JStr(""))
    ensures ("Name" !in item ==> r.name == Json.JStr("")) && ("Path" !in item ==> r.path == Json.JStr(""))
    ensures TagList(Json.GetOr(item, "Tags", Json.JArr([]))) == [] ==> r.tags == ""
  {
    ExportRow(
      Json.GetOr(item, "Id", Json.JStr("")), Json.GetOr(item, "Type", Json.JStr("")),
      Json.GetOr(item, "Name", Json.JStr("")), Json.GetOr(item, "Path", Json.JStr("")),
      Text.Join(Ordering.SortBy(TagList(Json.GetOr(item, "Tags", Json.JArr([]))), TagNames.LowerKey), ";"))
  }

  /** The rows of the sorted matches, one per match, in order. */
  function Rows(items: seq<Item>): (r: seq<ExportRow>)
    ensures |r| == |items|
    ensures forall i :: 0 <= i < |items| ==> r[i] == RowOf(items[i])
  {
    seq(|items|, i requires 0 <= i < |items| => RowOf(items[i]))
  }

  /**
    The tags cell of a matched item lists exactly its tags, in lower-case order:
    split on `;` it gives them back sorted, when it has tags and none contains `;`.
   */
  lemma ExportRowTags(item: Item, tags: seq<string>)
    requires tags != [] && forall t :: t in tags ==> ';' !in t
    ensures var cell := RowOf(Items.Serialized(item, tags)).tags;
      var sorted := Ordering.SortBy(tags, TagNames.LowerKey);
      Text.Split(cell, ';') == sorted
      && multiset(sorted) == multiset(tags)
      && forall i, j :: 0 <= i < j < |sorted| ==> Ordering.StrLe(Text.Lower(sorted[i]), Text.Lower(sorted[j]))
  {
    var s := Items.Serialized(item, tags);
    TagListOfStrings(tags);
    assert TagList(Json.GetOr(s, "Tags", Json.JArr([]))) == tags;
    var sorted := Ordering.SortBy(tags, TagNames.LowerKey);
    assert multiset(sorted) == multiset(tags);
    forall t | t in sorted ensures ';' !in t {
      assert t in multiset(tags);
    }
    assert |sorted| == |multiset(tags)| == |tags|;
    Text.SplitJoin(sorted, ';');
    forall i, j | 0 <= i < j < |sorted| ensures Ordering.StrLe(Text.Lower(sorted[i]), Text.Lower(sorted[j])) {
      Ordering.KeyLeString(Text.Lower(sorted[i]), Text.Lower(sorted[j]));
    }
  }

  /**
    `api_export`: the same validation and walk as the search, starting at size
    500, and one row per match in the response order.
   */
  method ApiExport(data: map<string, Json.Json>, envBase: Option<string>, envKey: Option<string>,
                   c: Scan.Catalog<Item>, release: Items.Release)
      returns (requests: seq<Items.PageRequest>, answer: Result<seq<ExportRow>, RouteFailure>)
    ensures Validate(data, envBase, envKey).Err? ==>
      requests == [] && answer == Err(Rejected(Validate(data, envBase, envKey).error))
    ensures Validate(data, envBase, envKey).Ok? ==>
      var q := QueryOf(data, Validate(data, envBase, envKey).value);
      var w := Scan.WalkFrom(c, Scan.Request(0, ExportFetchLimit));
      requests == PageRequests(q, w.requests)
      && answer == match Collected(w.fetched, q)
                   case None => Err(UnreadableItem)
                   case Some(matches) => Ok(Rows(Items.SortItems(matches, q.sort, release)))
  {
    var target := Validate(data, envBase, envKey);
    if target.Err? {
      return [], Err(Rejected(target.error));
    }
    var q := QueryOf(data, target.value);
    var matched;
    requests, matched := FilterAndCollect(c, q, ExportFetchLimit);
    if matched.None? {
      return requests, Err(UnreadableItem);
    }
    answer := Ok(Rows(Items.SortItems(matched.value, q.sort, release)));
  }
}
