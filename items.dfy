/**
  Items as the server returns them (JSON objects) and what the application
  does with them: reading the requested item types and sort parameters,
  ordering items for a response, matching them against tag and title filters,
  serialising them, and building the parameters of one page request.
 */
module Items {
  import opened Wrappers
  import Text
  import Json
  import Config
  import Dedup
  import Ordering
  import TagNames

  /** A server item: a JSON object. */
  type Item = map<string, Json.Json>

  /** The item's tags as `item_tags` reads them; None when its tag fields cannot be walked. */
  function TagsOfItem(item: Item): Option<seq<string>> {
    match TagNames.TagSourcesOf(item)
    case None => None
    case Some(src) => Some(TagNames.ItemTagsOf(src))
  }

  // normalize_item_types

  /**
    The canonical spellings of the known item types. The source maps each
    one's lower-case form to it, so a lookup by casefold key is a search of
    this list by lower-case form.
   */
  const KnownItemTypes: seq<string> := [
    "Movie", "Series", "Season", "Episode", "Audio", "AudioBook", "MusicVideo",
    "MusicAlbum", "MusicArtist", "Playlist", "BoxSet", "CollectionFolder", "Folder",
    "Photo", "PhotoAlbum", "Book", "Video", "Program", "Recording", "TvChannel", "Trailer"
  ]

  /** The first of `names` whose lower-case form is `key`. */
  function KnownType(names: seq<string>, key: string): (r: Option<string>)
    ensures r.Some? ==> r.value in names && Text.Lower(r.value) == key
    ensures r.None? ==> forall n :: n in names ==> Text.Lower(n) != key
    decreases |names|
  {
    if names == [] then None
    else if Text.Lower(names[0]) == key then Some(names[0])
    else KnownType(names[1..], key)
  }

  /** The stripped, non-blank parts, in order. */
  function StrippedParts(parts: seq<string>): (r: seq<string>)
    ensures forall t :: t in r ==> t != "" && Text.IsStripped(t)
    decreases |parts|
  {
    if parts == [] then []
    else
      var before := StrippedParts(parts[..|parts| - 1]);
      var text := Text.Strip(parts[|parts| - 1]);
      if text != "" then before + [text] else before
  }

  function Flatten(parts: seq<seq<string>>): (r: seq<string>)
    ensures forall t :: t in r ==> exists i :: 0 <= i < |parts| && t in parts[i]
    decreases |parts|
  {
    if parts == [] then []
    else
      var before := Flatten(parts[..|parts| - 1]);
      var r := before + parts[|parts| - 1];
      assert forall t :: t in r ==> t in before || t in parts[|parts| - 1];
      forall t | t in before ensures exists i :: 0 <= i < |parts| && t in parts[i] {
        var i :| 0 <= i < |parts| - 1 && t in parts[..|parts| - 1][i];
        assert parts[..|parts| - 1][i] == parts[i];
      }
      r
  }

  /** The stripped non-blank comma-separated parts of a string. */
  function CommaCandidates(s: string): (r: seq<string>)
    ensures forall c :: c in r ==> c != "" && Text.IsStripped(c) && ',' !in c
  {
    StrippedPartsKeepOut(Text.Split(s, ','), ',');
    StrippedParts(Text.Split(s, ','))
  }

  /**
    `_iter_candidates(value)`: a string yields its stripped non-blank
    comma-separated parts, a list the candidates of its entries in order, and
    any other value its stripped text when that is non-blank.
   */
  function Candidates(v: Json.Json): (r: seq<string>)
    ensures forall c :: c in r ==> c != "" && Text.IsStripped(c)
    ensures v.JStr? ==> forall c :: c in r ==> ',' !in c
    decreases v
  {
    match v
    case JStr(s) => CommaCandidates(s)
    case JArr(es) =>
      var parts := seq(|es|, i requires 0 <= i < |es| => Candidates(es[i]));
      var r := Flatten(parts);
      assert forall c :: c in r ==> c != "" && Text.IsStripped(c) by {
        forall c | c in r ensures c != "" && Text.IsStripped(c) {
          var i :| 0 <= i < |parts| && c in parts[i];
        }
      }
      r
    case _ =>
      var text := Json.StrippedText(v);
      if text != "" then [text] else []
  }

  lemma {:induction false} StrippedPartsKeepOut(parts: seq<string>, c: char)
    requires forall p :: p in parts ==> c !in p
    ensures forall t :: t in StrippedParts(parts) ==> c !in t
    decreases |parts|
  {
    if parts != [] {
      StrippedPartsKeepOut(parts[..|parts| - 1], c);
      Text.StripKeepsOut(parts[|parts| - 1], c);
    }
  }

  /** `_KNOWN_ITEM_TYPES.get(candidate.casefold(), candidate)`. */
  function Canonical(candidate: string): string {
    KnownType(KnownItemTypes, Text.Lower(candidate)).GetOr(candidate)
  }

  function CanonicalAll(cs: seq<string>): (r: seq<string>)
    ensures |r| == |cs|
    decreases |cs|
  {
    if cs == [] then [] else CanonicalAll(cs[..|cs| - 1]) + [Canonical(cs[|cs| - 1])]
  }

  lemma {:induction false} CanonicalAllAt(cs: seq<string>, i: int)
    requires 0 <= i < |cs|
    ensures CanonicalAll(cs)[i] == Canonical(cs[i])
    decreases |cs|
  {
    if i < |cs| - 1 {
      CanonicalAllAt(cs[..|cs| - 1], i);
    }
  }

  lemma CanonicalAllPrefix(cs: seq<string>, i: int)
    requires 0 <= i < |cs|
    ensures CanonicalAll(cs[..i + 1]) == CanonicalAll(cs[..i]) + [Canonical(cs[i])]
  {
    assert cs[..i + 1][..i] == cs[..i];
  }

  /** The value of `normalize_item_types(raw)`: [] for None, else the first canonical name of each casefold key. */
  function NormalizedItemTypes(raw: Json.Json): seq<string> {
    if raw.JNull? then [] else Dedup.FirstByKey(CanonicalAll(Candidates(raw)), Text.Lower)
  }

  /** The `seen` loop: keep each candidate's canonical name unless its casefold key was seen. */
  method KeepFirstCanonical(candidates: seq<string>) returns (normalized: seq<string>)
    ensures normalized == Dedup.FirstByKey(CanonicalAll(candidates), Text.Lower)
  {
    normalized := [];
    var seen: set<string> := {};
    for i := 0 to |candidates|
      invariant normalized == Dedup.FirstByKey(CanonicalAll(candidates[..i]), Text.Lower)
      invariant seen == Dedup.KeysOf(normalized, Text.Lower)
    {
      var canonical := Canonical(candidates[i]);
      CanonicalAllPrefix(candidates, i);
      Dedup.FirstByKeySnoc(CanonicalAll(candidates[..i]), canonical, Text.Lower);
      var key := Text.Lower(canonical);
      if key in seen {
        continue;
      }
      seen := seen + {key};
      Dedup.KeysOfSnoc(normalized, canonical, Text.Lower);
      normalized := normalized + [canonical];
    }
    assert candidates[..|candidates|] == candidates;
  }

  /** `normalize_item_types(raw)`. */
  method NormalizeItemTypes(raw: Json.Json) returns (normalized: seq<string>)
    ensures normalized == NormalizedItemTypes(raw)
  {
    if raw.JNull? {
      return [];
    }
    normalized := KeepFirstCanonical(Candidates(raw));
  }

  /**
    Every result is the canonical form of some candidate, every candidate is
    represented by a result equal to its canonical form ignoring case, and no
    two results are equal ignoring case.
   */
  lemma NormalizedItemTypesSpec(raw: Json.Json)
    ensures raw.JNull? ==> NormalizedItemTypes(raw) == []
    ensures !raw.JNull? ==> forall t :: t in NormalizedItemTypes(raw) ==> exists c :: c in Candidates(raw) && t == Canonical(c)
    ensures !raw.JNull? ==> forall c :: c in Candidates(raw) ==>
      exists t :: t in NormalizedItemTypes(raw) && Text.Lower(t) == Text.Lower(Canonical(c))
    ensures forall i, j :: 0 <= i < j < |NormalizedItemTypes(raw)| ==>
      Text.Lower(NormalizedItemTypes(raw)[i]) != Text.Lower(NormalizedItemTypes(raw)[j])
  {
    var r := NormalizedItemTypes(raw);
    if !raw.JNull? {
      CanonicalDedupSpec(Candidates(raw));
    } else {
      assert r == [];
    }
  }

  lemma CanonicalDedupSpec(cs: seq<string>)
    ensures var r := Dedup.FirstByKey(CanonicalAll(cs), Text.Lower);
      (forall t :: t in r ==> exists c :: c in cs && t == Canonical(c))
      && (forall c :: c in cs ==> exists t :: t in r && Text.Lower(t) == Text.Lower(Canonical(c)))
      && (forall i, j :: 0 <= i < j < |r| ==> Text.Lower(r[i]) != Text.Lower(r[j]))
  {
    var all := CanonicalAll(cs);
    var r := Dedup.FirstByKey(all, Text.Lower);
    Dedup.FirstByKeyKeys(all, Text.Lower);
    Dedup.FirstByKeyDistinct(all, Text.Lower);
    forall t | t in r ensures exists c :: c in cs && t == Canonical(c) {
      var i :| 0 <= i < |all| && all[i] == t;
      CanonicalAllAt(cs, i);
      assert cs[i] in cs;
    }
    forall c | c in cs ensures exists t :: t in r && Text.Lower(t) == Text.Lower(Canonical(c)) {
      var i :| 0 <= i < |cs| && cs[i] == c;
      CanonicalAllAt(cs, i);
      assert all[i] == Canonical(c);
      assert Text.Lower(Canonical(c)) in Dedup.KeysOf(all, Text.Lower);
    }
  }

  // normalize_sort_params

  /**
    The choice `normalize_sort_params` makes from the stripped texts of its two
    arguments: a sortable field as given, else `SortName`; `Descending` for
    "desc" or "descending" in any case, `Ascending` for anything else.
   */
  function SortParams(rawSortBy: string, rawOrder: string): (r: (string, string))
    ensures r.0 in Config.SortableFields && r.1 in Config.SortOrders
    ensures r.0 == if rawSortBy in Config.SortableFields then rawSortBy else Config.DefaultSortBy
    ensures r.1 == "Descending" <==> Text.Lower(rawOrder) == "descending" || Text.Lower(rawOrder) == "desc"
  {
    var lowerOrder := Text.Lower(rawOrder);
    var order :=
      if lowerOrder == "descending" || lowerOrder == "desc" then "Descending"
      else if lowerOrder == "ascending" || lowerOrder == "asc" then "Ascending"
      else if rawOrder in Config.SortOrders then rawOrder
      else Config.DefaultSortOrder;
    LowerOrders(rawOrder);
    (if rawSortBy in Config.SortableFields then rawSortBy else Config.DefaultSortBy,
     if order in Config.SortOrders then order else Config.DefaultSortOrder)
  }

  lemma LowerOrders(s: string)
    ensures s == "Descending" ==> Text.Lower(s) == "descending"
    ensures s == "Ascending" ==> Text.Lower(s) == "ascending"
  {
  }

  /**
    `normalize_sort_params(sort_by, sort_order)`: the stripped `sort_by` when it
    names a sortable field, else `SortName`; `Descending` exactly when the
    stripped order is "desc" or "descending" in any case, else `Ascending`.
   */
  function NormalizeSortParams(sortBy: Json.Json, sortOrder: Json.Json): (r: (string, string))
    ensures r.0 in Config.SortableFields && r.1 in Config.SortOrders
    ensures Json.StrippedText(sortBy) in Config.SortableFields ==> r.0 == Json.StrippedText(sortBy)
    ensures Json.StrippedText(sortBy) !in Config.SortableFields ==> r.0 == Config.DefaultSortBy
    ensures r.1 == "Descending" <==>
      Text.Lower(Json.StrippedText(sortOrder)) == "descending" || Text.Lower(Json.StrippedText(sortOrder)) == "desc"
  {
    SortParams(Json.StrippedText(sortBy), Json.StrippedText(sortOrder))
  }

  /** The sortable fields and orders are non-empty stripped strings. */
  lemma SortValueStripped(s: string)
    requires s in Config.SortableFields || s in Config.SortOrders
    ensures s != "" && Text.IsStripped(s)
  {
  }

  lemma SortParamsIdempotent(rawSortBy: string, rawOrder: string)
    ensures var r := SortParams(rawSortBy, rawOrder); SortParams(r.0, r.1) == r
  {
    var r := SortParams(rawSortBy, rawOrder);
    LowerOrders(r.1);
  }

  /** Normalised parameters normalise to themselves. */
  lemma NormalizeSortParamsIdempotent(sortBy: Json.Json, sortOrder: Json.Json)
    ensures var r := NormalizeSortParams(sortBy, sortOrder);
      NormalizeSortParams(Json.JStr(r.0), Json.JStr(r.1)) == r
  {
    var a, b := Json.StrippedText(sortBy), Json.StrippedText(sortOrder);
    var r := SortParams(a, b);
    SortValueStripped(r.0);
    SortValueStripped(r.1);
    Json.StrippedTextOfStripped(r.0);
    Json.StrippedTextOfStripped(r.1);
    SortParamsIdempotent(a, b);
  }

  // sort_items_for_response

  /**
    `_name_sort_key(item)`: casefold sort name (or name), casefold name, id. A
    truthy `SortName` leads; without one the name is compared twice.
   */
  function NameKey(item: Item): (r: Ordering.Key)
    ensures |r| == 3 && r[0].S? && r[1].S? && r[2].S?
    ensures Json.Truthy(Json.Get(item, "SortName")) ==> r[0] == Ordering.S(Text.Lower(Json.PyStr(Json.Get(item, "SortName"))))
    ensures !Json.Truthy(Json.Get(item, "SortName")) ==> r[0] == r[1]
    ensures Json.Truthy(Json.Get(item, "Name")) ==> r[1] == Ordering.S(Text.Lower(Json.PyStr(Json.Get(item, "Name"))))
    ensures Json.Truthy(Json.Get(item, "Id")) ==> r[2] == Ordering.S(Json.PyStr(Json.Get(item, "Id")))
  {
    [Ordering.S(Text.Lower(Json.PyStr(Json.Or(Json.Or(Json.Get(item, "SortName"), Json.Get(item, "Name")), Json.JStr(""))))),
     Ordering.S(Text.Lower(Json.PyStr(Json.Or(Json.Get(item, "Name"), Json.JStr(""))))),
     Ordering.S(Json.PyStr(Json.Or(Json.Get(item, "Id"), Json.JStr(""))))]
  }

  /** `_release_timestamp(item)`, whole seconds: the premiere date, else 1 January of the production year. */
  type Release = Item -> Option<int>

  /**
    The `PremiereDate` sort key: undated items carry an infinite timestamp
    (a leading 1, above every dated item's 0); dated ones their timestamp,
    negated when descending; the name key breaks ties.
   */
  function PremiereKey(item: Item, descending: bool, release: Release): Ordering.Key {
    match release(item)
    case None => [Ordering.N(1), Ordering.N(0)] + NameKey(item)
    case Some(t) => [Ordering.N(0), Ordering.N(if descending then -t else t)] + NameKey(item)
  }

  function PremiereKeyOf(descending: bool, release: Release): Item -> Ordering.Key {
    item => PremiereKey(item, descending, release)
  }

  /** `sort_items_for_response(items, sort_by, sort_order)`: the items in the order of the normalised parameters. */
  function SortItemsForResponse(items: seq<Item>, sortBy: Json.Json, sortOrder: Json.Json, release: Release): (r: seq<Item>)
    ensures multiset(r) == multiset(items)
  {
    SortItems(items, NormalizeSortParams(sortBy, sortOrder), release)
  }

  /** The sort for a normalised field and order. */
  function SortItems(items: seq<Item>, sort: (string, string), release: Release): (r: seq<Item>)
    ensures multiset(r) == multiset(items)
  {
    var order := sort.1;
    if sort.0 == "PremiereDate" then Ordering.SortBy(items, PremiereKeyOf(order == "Descending", release))
    else
      var sorted := Ordering.SortBy(items, NameKey);
      if order == "Descending" then
        Ordering.ReversePermutation(sorted);
        Ordering.Reverse(sorted)
      else sorted
  }

  /**
    By name: ascending order of the name key, and descending is exactly the
    ascending order reversed.
   */
  lemma SortByNameSpec(items: seq<Item>, sort: (string, string), release: Release)
    requires sort.0 != "PremiereDate"
    ensures var r := SortItems(items, sort, release);
      if sort.1 == "Descending" then
        r == Ordering.Reverse(Ordering.SortBy(items, NameKey))
        && forall i, j :: 0 <= i < j < |r| ==> Ordering.KeyLe(NameKey(r[j]), NameKey(r[i]))
      else forall i, j :: 0 <= i < j < |r| ==> Ordering.KeyLe(NameKey(r[i]), NameKey(r[j]))
  {
    var s := Ordering.SortBy(items, NameKey);
    if sort.1 == "Descending" {
      Ordering.ReverseSorted(s, NameKey);
    }
  }

  /** Comparing two `PremiereDate` keys. */
  lemma PremiereKeyLe(a: Item, b: Item, descending: bool, release: Release)
    requires Ordering.KeyLe(PremiereKey(a, descending, release), PremiereKey(b, descending, release))
    ensures release(a).None? ==> release(b).None?
    ensures release(a).Some? && release(b).Some? ==>
      if descending then release(a).value >= release(b).value else release(a).value <= release(b).value
    ensures release(a) == release(b) ==> Ordering.KeyLe(NameKey(a), NameKey(b))
  {
    var ka := PremiereKey(a, descending, release);
    var kb := PremiereKey(b, descending, release);
    assert ka[1..][1..] == NameKey(a) && kb[1..][1..] == NameKey(b);
  }

  /**
    By premiere date: undated items come last in either direction, dated items
    follow their timestamps (falling when descending), and equal timestamps,
    or two undated items, follow the ascending name key.
   */
  lemma SortByPremiereSpec(items: seq<Item>, sort: (string, string), release: Release)
    requires sort.0 == "PremiereDate"
    ensures var r := SortItems(items, sort, release);
      var descending := sort.1 == "Descending";
      forall i, j :: 0 <= i < j < |r| ==>
        (release(r[i]).None? ==> release(r[j]).None?)
        && (release(r[i]).Some? && release(r[j]).Some? ==>
              if descending then release(r[i]).value >= release(r[j]).value else release(r[i]).value <= release(r[j]).value)
        && (release(r[i]) == release(r[j]) ==> Ordering.KeyLe(NameKey(r[i]), NameKey(r[j])))
  {
    var descending := sort.1 == "Descending";
    var r := SortItems(items, sort, release);
    assert r == Ordering.SortBy(items, PremiereKeyOf(descending, release));
    forall i, j | 0 <= i < j < |r|
      ensures (release(r[i]).None? ==> release(r[j]).None?)
        && (release(r[i]).Some? && release(r[j]).Some? ==>
              if descending then release(r[i]).value >= release(r[j]).value else release(r[i]).value <= release(r[j]).value)
        && (release(r[i]) == release(r[j]) ==> Ordering.KeyLe(NameKey(r[i]), NameKey(r[j])))
    {
      assert Ordering.KeyLe(PremiereKeyOf(descending, release)(r[i]), PremiereKeyOf(descending, release)(r[j]));
      PremiereKeyLe(r[i], r[j], descending, release);
    }
  }

  // item_matches_filters

  /** The fields a title query is matched against. */
  const TitleFields: seq<string> := ["Name", "SortName"]

  /** The values of `keys` that are present and not blank, as `str` renders them. */
  function TitleCandidates(item: Item, keys: seq<string>): seq<string>
    decreases |keys|
  {
    if keys == [] then []
    else
      var before := TitleCandidates(item, keys[..|keys| - 1]);
      var value := Json.Get(item, keys[|keys| - 1]);
      if value.JNull? || Text.Strip(Json.PyStr(value)) == "" then before else before + [Json.PyStr(value)]
  }

  /** Every include key is the casefold form of one of the tags, and no tag's casefold form is an exclude key. */
  predicate TagsPass(tags: seq<string>, includeKeys: set<string>, excludeKeys: set<string>) {
    (forall k :: k in includeKeys ==> exists t :: t in tags && Text.Lower(t) == k)
    && (forall t :: t in tags ==> Text.Lower(t) !in excludeKeys)
  }

  /** An empty query, or one that occurs in the casefold form of a present, non-blank `Name` or `SortName`. */
  predicate TitlePasses(item: Item, query: string) {
    query != "" ==> exists c :: c in TitleCandidates(item, TitleFields) && Text.Contains(Text.Lower(c), query)
  }

  /** The filter `item_matches_filters` applies to an item with tags `tags`. */
  predicate Matches(item: Item, tags: seq<string>, includeKeys: set<string>, excludeKeys: set<string>, query: string) {
    TagsPass(tags, includeKeys, excludeKeys) && TitlePasses(item, query)
  }

  /** Without include keys, exclude keys or query every item with readable tags matches. */
  lemma NoFiltersMatch(item: Item, tags: seq<string>)
    ensures Matches(item, tags, {}, {}, "")
  {
  }

  /** The two tag tests, on the set of casefold tag keys. */
  method TagFilter(tags: seq<string>, includeKeys: set<string>, excludeKeys: set<string>) returns (ok: bool)
    ensures ok == TagsPass(tags, includeKeys, excludeKeys)
  {
    var keys := Dedup.KeysOf(tags, Text.Lower);
    if includeKeys != {} && !(includeKeys <= keys) {
      var k :| k in includeKeys && k !in keys;
      return false;
    }
    if excludeKeys != {} && keys * excludeKeys != {} {
      var k :| k in keys * excludeKeys;
      return false;
    }
    forall t | t in tags ensures Text.Lower(t) !in excludeKeys {
      assert Text.Lower(t) in keys;
      assert Text.Lower(t) in excludeKeys ==> Text.Lower(t) in keys * excludeKeys;
    }
    forall k | k in includeKeys ensures exists t :: t in tags && Text.Lower(t) == k {
      assert k in keys;
      var t :| t in tags && Text.Lower(t) == k;
    }
    return true;
  }

  /** The `Name`/`SortName` loop collecting the values a query is matched against. */
  method TitleCandidatesOf(item: Item) returns (candidates: seq<string>)
    ensures candidates == TitleCandidates(item, TitleFields)
  {
    candidates := [];
    for i := 0 to |TitleFields|
      invariant candidates == TitleCandidates(item, TitleFields[..i])
    {
      assert TitleFields[..i + 1][..i] == TitleFields[..i];
      var value := Json.Get(item, TitleFields[i]);
      if value.JNull? {
        continue;
      }
      var text := Json.PyStr(value);
      if Text.Strip(text) == "" {
        continue;
      }
      candidates := candidates + [text];
    }
    assert TitleFields[..|TitleFields|] == TitleFields;
  }

  /** `any(query in candidate.casefold() for candidate in candidates)`. */
  method AnyContains(candidates: seq<string>, query: string) returns (ok: bool)
    ensures ok <==> exists c :: c in candidates && Text.Contains(Text.Lower(c), query)
  {
    ok := false;
    for i := 0 to |candidates|
      invariant ok <==> exists j :: 0 <= j < i && Text.Contains(Text.Lower(candidates[j]), query)
    {
      if Text.Contains(Text.Lower(candidates[i]), query) {
        ok := true;
      }
    }
    if ok {
      var j :| 0 <= j < |candidates| && Text.Contains(Text.Lower(candidates[j]), query);
      assert candidates[j] in candidates;
    }
  }

  /** The title test. */
  method TitleFilter(item: Item, query: string) returns (ok: bool)
    ensures ok == TitlePasses(item, query)
  {
    if query == "" {
      return true;
    }
    var candidates := TitleCandidatesOf(item);
    ok := AnyContains(candidates, query);
  }

  /**
    `item_matches_filters(item, include_tag_keys, exclude_tag_keys,
    title_query_lower)`; None when the item's tag fields cannot be walked.
   */
  method ItemMatchesFilters(item: Item, includeKeys: set<string>, excludeKeys: set<string>, query: string)
      returns (r: Option<bool>)
    ensures r.Some? <==> TagsOfItem(item).Some?
    ensures r.Some? ==> r.value == Matches(item, TagsOfItem(item).value, includeKeys, excludeKeys, query)
  {
    var tags := TagsOfItem(item);
    if tags.None? {
      return None;
    }
    var ok := TagFilter(tags.value, includeKeys, excludeKeys);
    if !ok {
      return Some(false);
    }
    ok := TitleFilter(item, query);
    return Some(ok);
  }

  // serialize_item_for_response

  /** The response fields of an item whose tags are `tags`, `SortName` falling back to `Name`. */
  function Serialized(item: Item, tags: seq<string>): (r: Item)
    ensures r.Keys == {"Id", "Type", "Name", "SortName", "Path", "Tags", "PremiereDate", "ProductionYear"}
    ensures r["Tags"] == Json.Strings(tags)
    ensures r["Name"] == Json.GetOr(item, "Name", Json.JStr(""))
    ensures r["SortName"] == if Json.Truthy(Json.Get(item, "SortName")) then item["SortName"] else r["Name"]
    ensures r["Id"] == Json.GetOr(item, "Id", Json.JStr("")) && r["Type"] == Json.GetOr(item, "Type", Json.JStr(""))
  {
    var name := Json.GetOr(item, "Name", Json.JStr(""));
    map[
      "Id" := Json.GetOr(item, "Id", Json.JStr("")),
      "Type" := Json.GetOr(item, "Type", Json.JStr("")),
      "Name" := name,
      "SortName" := Json.Or(Json.Get(item, "SortName"), name),
      "Path" := Json.GetOr(item, "Path", Json.JStr("")),
      "Tags" := Json.Strings(tags),
      "PremiereDate" := Json.Get(item, "PremiereDate"),
      "ProductionYear" := Json.Get(item, "ProductionYear")]
  }

  /** `serialize_item_for_response(item)`; None when the item's tag fields cannot be walked. */
  function SerializeItem(item: Item): Option<Item> {
    match TagsOfItem(item)
    case None => None
    case Some(tags) => Some(Serialized(item, tags))
  }

  // page_items

  /**
    The query parameters of one `page_items` request: the fixed ones, and the
    optional ones present exactly when they hold a value.
   */
  datatype PageParams = PageParams(
    parentId: string, fields: string, startIndex: int, limit: int,
    includeItemTypes: Option<string>, searchTerm: Option<string>, excludeItemTypes: Option<string>,
    sortBy: Option<string>, sortOrder: Option<string>)

  datatype PageRequest = PageRequest(endpoint: string, params: PageParams)

  /**
    The request `page_items(base, api_key, user_id, lib_id, include_types,
    fields, start_index, limit, search_term, exclude_types, sort_by,
    sort_order)` sends (`Recursive` is always "true"); an empty `userId`
    stands for None, an empty `excludeTypes` for None or an empty list.
   */
  function PageItemsRequest(base: string, userId: string, libId: string, includeTypes: Json.Json, fields: seq<string>,
                            start: int, limit: int, searchTerm: Option<string>, excludeTypes: seq<string>,
                            sortBy: Option<string>, sortOrder: Option<string>): (r: PageRequest)
    ensures r.endpoint == if userId != "" then base + "/Users/" + userId + "/Items" else base + "/Items"
    ensures r.params.parentId == libId && r.params.startIndex == start && r.params.limit == limit
    ensures r.params.fields == Text.Join(fields, ",")
    ensures r.params.includeItemTypes.Some? <==> NormalizedItemTypes(includeTypes) != []
    ensures r.params.includeItemTypes.Some? ==>
      r.params.includeItemTypes.value == Text.Join(NormalizedItemTypes(includeTypes), ",")
    ensures r.params.searchTerm.Some? <==> searchTerm.Some? && Text.Strip(searchTerm.value) != ""
    ensures r.params.searchTerm.Some? ==> r.params.searchTerm.value == Text.Strip(searchTerm.value)
    ensures r.params.excludeItemTypes.Some? <==> excludeTypes != []
    ensures r.params.excludeItemTypes.Some? ==> r.params.excludeItemTypes.value == Text.Join(excludeTypes, ",")
    ensures r.params.sortBy.Some? <==> sortBy.Some? || sortOrder.Some?
    ensures r.params.sortOrder.Some? <==> r.params.sortBy.Some?
    ensures r.params.sortBy.Some? ==>
      (r.params.sortBy.value, r.params.sortOrder.value)
      == NormalizeSortParams(Json.OptionalString(sortBy), Json.OptionalString(sortOrder))
    ensures r.params.sortBy.Some? ==>
      r.params.sortBy.value in Config.SortableFields && r.params.sortOrder.value in Config.SortOrders
  {
    var types := NormalizedItemTypes(includeTypes);
    var sort := NormalizeSortParams(Json.OptionalString(sortBy), Json.OptionalString(sortOrder));
    var sorted := sortBy.Some? || sortOrder.Some?;
    PageRequest(
      if userId != "" then base + "/Users/" + userId + "/Items" else base + "/Items",
      PageParams(
        libId, Text.Join(fields, ","), start, limit,
        if types != [] then Some(Text.Join(types, ",")) else None,
        if searchTerm.Some? && Text.Strip(searchTerm.value) != "" then Some(Text.Strip(searchTerm.value)) else None,
        if excludeTypes != [] then Some(Text.Join(excludeTypes, ",")) else None,
        if sorted then Some(sort.0) else None,
        if sorted then Some(sort.1) else None))
  }
}
