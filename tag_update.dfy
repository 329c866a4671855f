/**
  Writing an item's tags back to the server (`jf_update_tags`): fetch the item,
  merge its tags with the additions and removals in a dict keyed by lower-case
  form, and PUT (or, where PUT is refused, POST) an update payload that copies
  the item's non-empty editable fields and carries the sorted final tags.
 */
module TagUpdate {
  import opened Wrappers
  import Text
  import Json
  import Config
  import Dedup
  import Ordering
  import TagNames
  import Client

  // _is_empty_value and _filtered_update_payload

  /**
    `_is_empty_value(value)`: None, a blank string, or an empty list or object.
    Emptiness and falsiness part ways on numbers and booleans (never empty) and
    on whitespace-only strings (empty but truthy); everything empty but not a
    string is falsy, and everything falsy but not a number or boolean is empty.
   */
  predicate IsEmptyValue(v: Json.Json)
    ensures v.JInt? || v.JBool? ==> !IsEmptyValue(v)
    ensures IsEmptyValue(v) && !v.JStr? ==> !Json.Truthy(v)
    ensures !Json.Truthy(v) && !v.JInt? && !v.JBool? ==> IsEmptyValue(v)
  {
    match v
    case JNull => true
    case JStr(s) => Text.Strip(s) == ""
    case JArr(e) => e == []
    case JObj(f) => f == map[]
    case _ => false
  }

  /** Whether `_filtered_update_payload` copies `field` holding `v`: a truthy `Id`, or any non-empty value. */
  predicate Keeps(field: string, v: Json.Json) {
    (field == "Id" && Json.Truthy(v)) || !IsEmptyValue(v)
  }

  /** The payload built from `fields` in order: `Tags` is skipped, every other kept field copied. */
  function PayloadFrom(item: map<string, Json.Json>, fields: seq<string>): map<string, Json.Json>
    decreases |fields|
  {
    if fields == [] then map[]
    else
      var payload := PayloadFrom(item, fields[..|fields| - 1]);
      var field := fields[|fields| - 1];
      if field != "Tags" && Keeps(field, Json.Get(item, field)) then payload[field := Json.Get(item, field)]
      else payload
  }

  /**
    The payload holds exactly the listed fields other than `Tags` whose values
    are kept, each with the item's own value.
   */
  lemma {:induction false} PayloadFromSpec(item: map<string, Json.Json>, fields: seq<string>)
    ensures forall k :: k in PayloadFrom(item, fields) <==> k in fields && k != "Tags" && Keeps(k, Json.Get(item, k))
    ensures forall k :: k in PayloadFrom(item, fields) ==> k in item && PayloadFrom(item, fields)[k] == item[k]
    decreases |fields|
  {
    if fields != [] {
      var init := fields[..|fields| - 1];
      PayloadFromSpec(item, init);
      assert fields == init + [fields[|fields| - 1]];
    }
  }

  /** The loop of `_filtered_update_payload` over any field list. */
  method CopyFields(item: map<string, Json.Json>, fields: seq<string>) returns (payload: map<string, Json.Json>)
    ensures payload == PayloadFrom(item, fields)
  {
    payload := map[];
    for i := 0 to |fields|
      invariant payload == PayloadFrom(item, fields[..i])
    {
      assert fields[..i + 1][..i] == fields[..i];
      var field := fields[i];
      if field == "Tags" {
        continue;
      }
      var value := Json.Get(item, field);
      if field == "Id" && Json.Truthy(value) {
        payload := payload[field := value];
        continue;
      }
      if IsEmptyValue(value) {
        continue;
      }
      payload := payload[field := value];
    }
    assert fields[..|fields|] == fields;
  }

  /** `_filtered_update_payload(item)`: the copy over the configured update fields. */
  method FilteredUpdatePayload(item: map<string, Json.Json>) returns (payload: map<string, Json.Json>)
    ensures payload == PayloadFrom(item, Config.UpdateFields)
  {
    payload := CopyFields(item, Config.UpdateFields);
  }

  // The merged dict

  /** The `merged` dict: its keys in insertion order, and the tag stored under each. */
  datatype TagDict = TagDict(keys: seq<string>, tags: map<string, string>)

  const NoTags: TagDict := TagDict([], map[])

  /** Each key listed once, the listed keys are the stored ones, and each tag is non-empty and lowers to its key. */
  ghost predicate Valid(d: TagDict) {
    Dedup.Distinct(d.keys)
    && (forall k :: k in d.keys <==> k in d.tags)
    && (forall k :: k in d.tags ==> d.tags[k] != "" && Text.Lower(d.tags[k]) == k)
  }

  /** `merged.get(k)`. */
  function Lookup(d: TagDict, k: string): Option<string> {
    if k in d.tags then Some(d.tags[k]) else None
  }

  /** `merged[tag.lower()] = tag`: a new key goes last, an existing one keeps its place. */
  function Put(d: TagDict, tag: string): TagDict {
    var k := Text.Lower(tag);
    TagDict(if k in d.tags then d.keys else d.keys + [k], d.tags[k := tag])
  }

  /** `keys` without `k`, in order. */
  function Without(keys: seq<string>, k: string): (r: seq<string>)
    ensures forall x :: x in r <==> x in keys && x != k
    ensures Dedup.Distinct(keys) ==> Dedup.Distinct(r)
    decreases |keys|
  {
    if keys == [] then []
    else
      var r := Without(keys[..|keys| - 1], k);
      var last := keys[|keys| - 1];
      assert forall x :: x in keys <==> x in keys[..|keys| - 1] || x == last;
      assert Dedup.Distinct(keys) ==> last !in keys[..|keys| - 1];
      if last == k then r else r + [last]
  }

  /** `merged.pop(tag.lower(), None)`. */
  function Pop(d: TagDict, tag: string): TagDict {
    var k := Text.Lower(tag);
    if k in d.tags then TagDict(Without(d.keys, k), d.tags - {k}) else d
  }

  /** Storing each non-empty tag of `tags` in turn. */
  function PutAll(d: TagDict, tags: seq<string>): TagDict
    decreases |tags|
  {
    if tags == [] then d
    else
      var before := PutAll(d, tags[..|tags| - 1]);
      if tags[|tags| - 1] != "" then Put(before, tags[|tags| - 1]) else before
  }

  /** Popping the key of each non-empty tag of `tags` in turn. */
  function PopAll(d: TagDict, tags: seq<string>): TagDict
    decreases |tags|
  {
    if tags == [] then d
    else
      var before := PopAll(d, tags[..|tags| - 1]);
      if tags[|tags| - 1] != "" then Pop(before, tags[|tags| - 1]) else before
  }

  /** `merged.values()`, in key order. */
  function Values(d: TagDict): seq<string> {
    seq(|d.keys|, i requires 0 <= i < |d.keys| => if d.keys[i] in d.tags then d.tags[d.keys[i]] else "")
  }

  /** The dict after the existing tags, the additions and then the removals. */
  function Merged(existing: seq<string>, add: seq<string>, remove: seq<string>): TagDict {
    PopAll(PutAll(PutAll(NoTags, existing), add), remove)
  }

  /** `sorted(merged.values(), key=str.lower)`. */
  function FinalTags(existing: seq<string>, add: seq<string>, remove: seq<string>): seq<string> {
    Ordering.SortBy(Values(Merged(existing, add, remove)), TagNames.LowerKey)
  }

  // What the merge means

  /** The last non-empty tag of `tags` whose lower-case form is `k`. */
  function LastWithKey(tags: seq<string>, k: string): (r: Option<string>)
    ensures r.Some? ==> r.value in tags && r.value != "" && Text.Lower(r.value) == k
    ensures r.None? ==> forall i :: 0 <= i < |tags| && tags[i] != "" ==> Text.Lower(tags[i]) != k
    decreases |tags|
  {
    if tags == [] then None
    else
      var last := tags[|tags| - 1];
      if last != "" && Text.Lower(last) == k then Some(last) else LastWithKey(tags[..|tags| - 1], k)
  }

  /** The spelling the merge settles on for key `k` before removals: the last added one, else the last existing one. */
  function Chosen(existing: seq<string>, add: seq<string>, k: string): Option<string> {
    match LastWithKey(add, k)
    case Some(t) => Some(t)
    case None => LastWithKey(existing, k)
  }

  /** Some non-empty tag of `remove` lowers to `k`. */
  predicate Removed(remove: seq<string>, k: string) {
    LastWithKey(remove, k).Some?
  }

  lemma PutValid(d: TagDict, tag: string)
    requires Valid(d) && tag != ""
    ensures Valid(Put(d, tag))
    ensures forall k :: Lookup(Put(d, tag), k) == if k == Text.Lower(tag) then Some(tag) else Lookup(d, k)
  {
  }

  lemma PopValid(d: TagDict, tag: string)
    requires Valid(d)
    ensures Valid(Pop(d, tag))
    ensures forall k :: Lookup(Pop(d, tag), k) == if k == Text.Lower(tag) then None else Lookup(d, k)
  {
  }

  /** After storing `tags`, a key holds the last of them with that key, or what it held before. */
  lemma {:induction false} PutAllSpec(d: TagDict, tags: seq<string>)
    requires Valid(d)
    ensures Valid(PutAll(d, tags))
    ensures forall k :: Lookup(PutAll(d, tags), k) == match LastWithKey(tags, k) case Some(t) => Some(t) case None => Lookup(d, k)
    decreases |tags|
  {
    if tags != [] {
      var init := tags[..|tags| - 1];
      PutAllSpec(d, init);
      if tags[|tags| - 1] != "" {
        PutValid(PutAll(d, init), tags[|tags| - 1]);
      }
    }
  }

  /** After popping `tags`, a key is gone when one of them has it, and holds what it held before otherwise. */
  lemma {:induction false} PopAllSpec(d: TagDict, tags: seq<string>)
    requires Valid(d)
    ensures Valid(PopAll(d, tags))
    ensures forall k :: Lookup(PopAll(d, tags), k) == if LastWithKey(tags, k).Some? then None else Lookup(d, k)
    decreases |tags|
  {
    if tags != [] {
      var init := tags[..|tags| - 1];
      PopAllSpec(d, init);
      if tags[|tags| - 1] != "" {
        PopValid(PopAll(d, init), tags[|tags| - 1]);
      }
    }
  }

  /**
    The merged dict is well formed and holds, under each lower-case key no
    removal names, the last added spelling, else the last existing one.
   */
  lemma MergedSpec(existing: seq<string>, add: seq<string>, remove: seq<string>)
    ensures Valid(Merged(existing, add, remove))
    ensures forall k ::
      Lookup(Merged(existing, add, remove), k) == if Removed(remove, k) then None else Chosen(existing, add, k)
  {
    var d0 := PutAll(NoTags, existing);
    var d1 := PutAll(d0, add);
    PutAllSpec(NoTags, existing);
    PutAllSpec(d0, add);
    PopAllSpec(d1, remove);
  }

  /** The values of a well-formed dict are the tags that their own lower-case key looks up, with no two sharing a key. */
  lemma ValuesSpec(d: TagDict)
    requires Valid(d)
    ensures forall t :: t in Values(d) <==> Lookup(d, Text.Lower(t)) == Some(t)
    ensures forall i, j :: 0 <= i < j < |Values(d)| ==> Text.Lower(Values(d)[i]) != Text.Lower(Values(d)[j])
  {
    var v := Values(d);
    forall t | Lookup(d, Text.Lower(t)) == Some(t) ensures t in v {
      var i :| 0 <= i < |d.keys| && d.keys[i] == Text.Lower(t);
      assert v[i] == t;
    }
  }

  /**
    The final tags are exactly the chosen spellings of the keys no removal
    names, each key once, in strictly increasing lower-case order.
   */
  lemma FinalTagsSpec(existing: seq<string>, add: seq<string>, remove: seq<string>)
    ensures var r := FinalTags(existing, add, remove);
      (forall t :: t in r <==> !Removed(remove, Text.Lower(t)) && Chosen(existing, add, Text.Lower(t)) == Some(t))
      && (forall i, j :: 0 <= i < j < |r| ==>
            Ordering.StrLe(Text.Lower(r[i]), Text.Lower(r[j])) && Text.Lower(r[i]) != Text.Lower(r[j]))
  {
    var d := Merged(existing, add, remove);
    var v := Values(d);
    var r := FinalTags(existing, add, remove);
    MergedSpec(existing, add, remove);
    ValuesSpec(d);
    assert multiset(r) == multiset(v);
    forall t ensures t in r <==> t in v {
      assert t in r <==> t in multiset(r);
    }
    Ordering.DistinctPermutation(v, r);
    forall i, j | 0 <= i < j < |r|
      ensures Ordering.StrLe(Text.Lower(r[i]), Text.Lower(r[j])) && Text.Lower(r[i]) != Text.Lower(r[j])
    {
      assert Ordering.KeyLe(TagNames.LowerKey(r[i]), TagNames.LowerKey(r[j]));
      Ordering.KeyLeString(Text.Lower(r[i]), Text.Lower(r[j]));
      assert r[i] in v && r[j] in v;
    }
  }

  /** The merge loops of `jf_update_tags`, then the sort. */
  method MergeTags(existing: seq<string>, add: seq<string>, remove: seq<string>) returns (finalTags: seq<string>)
    ensures finalTags == FinalTags(existing, add, remove)
  {
    var merged := NoTags;
    for i := 0 to |existing|
      invariant merged == PutAll(NoTags, existing[..i])
    {
      assert existing[..i + 1][..i] == existing[..i];
      if existing[i] != "" {
        merged := Put(merged, existing[i]);
      }
    }
    assert existing[..|existing|] == existing;
    ghost var start := merged;
    for i := 0 to |add|
      invariant merged == PutAll(start, add[..i])
    {
      assert add[..i + 1][..i] == add[..i];
      if add[i] != "" {
        merged := Put(merged, add[i]);
      }
    }
    assert add[..|add|] == add;
    start := merged;
    for i := 0 to |remove|
      invariant merged == PopAll(start, remove[..i])
    {
      assert remove[..i + 1][..i] == remove[..i];
      if remove[i] != "" {
        merged := Pop(merged, remove[i]);
      }
    }
    assert remove[..|remove|] == remove;
    finalTags := Ordering.SortBy(Values(merged), TagNames.LowerKey);
  }

  // jf_update_tags

  datatype UpdateFailure =
    | MissingItemId            // ValueError: "Item ID is required to update tags"
    | UnreadableItem           // the fetched item is not an object or its tag fields cannot be walked
    | RequestFailed(failure: Client.Failure)

  /** The decoded body of `GET url` with the API key header, or how it failed. */
  type Fetch = string -> Result<Json.Json, Client.Failure>

  /** Where the item is read: under the user when one is given. */
  function FetchEndpoint(base: string, itemId: string, userId: string): string {
    if userId != "" then base + "/Users/" + userId + "/Items/" + itemId else base + "/Items/" + itemId
  }

  function UpdateEndpoint(base: string, itemId: string): string {
    base + "/Items/" + itemId
  }

  /** The filtered payload with `Id` defaulted to the requested id and `Tags` replaced by the final tags. */
  function UpdatePayload(item: map<string, Json.Json>, itemId: string, finalTags: seq<string>): map<string, Json.Json> {
    var payload := PayloadFrom(item, Config.UpdateFields);
    payload["Id" := Json.Or(Json.Get(payload, "Id"), Json.JStr(itemId))]["Tags" := Json.Strings(finalTags)]
  }

  /**
    The payload carries the final tags, the item's own `Id` when it is truthy
    and the requested id otherwise, and exactly the other update fields whose
    values are kept, unchanged.
   */
  lemma UpdatePayloadSpec(item: map<string, Json.Json>, itemId: string, finalTags: seq<string>)
    ensures var p := UpdatePayload(item, itemId, finalTags);
      "Tags" in p && p["Tags"] == Json.Strings(finalTags)
      && "Id" in p && p["Id"] == (if Json.Truthy(Json.Get(item, "Id")) then item["Id"] else Json.JStr(itemId))
      && (forall k :: k != "Id" && k != "Tags" ==>
            (k in p <==> k in Config.UpdateFields && Keeps(k, Json.Get(item, k))))
      && (forall k :: k in p && k != "Id" && k != "Tags" ==> k in item && p[k] == item[k])
  {
    PayloadFromSpec(item, Config.UpdateFields);
    assert Config.UpdateFields[0] == "Id";
  }

  /**
    `jf_update_tags(base, api_key, item_id, add, remove, user_id)` without the
    `.nfo` side file: the outcome and the PUT/POST calls made. An empty
    `user_id` stands for None. Nothing is sent without an item id or a readable
    item, and an unreadable item fails as such; otherwise the item's update
    endpoint receives the payload with the merged tags by PUT, falling back to
    POST on 405 or 501, and the request's outcome decides the result: exactly
    the merged tags on success, the request's failure otherwise.
   */
  function UpdateTags(base: string, apiKey: string, itemId: string, add: seq<string>, remove: seq<string>,
                      userId: string, fetch: Fetch, send: Client.Send): (res: (Result<seq<string>, UpdateFailure>, seq<Client.Call>))
    ensures var (r, calls) := res;
      var fetched := fetch(FetchEndpoint(base, itemId, userId));
      (itemId == "" ==> r == Err(MissingItemId) && calls == [])
      && (itemId != "" && fetched.Err? ==> r == Err(RequestFailed(fetched.error)) && calls == [])
      && (r.Ok? || calls != [] ==>
            itemId != "" && fetched.Ok? && fetched.value.JObj?
            && TagNames.TagSourcesOf(fetched.value.fields).Some?
            && var finalTags := FinalTags(TagNames.ItemTagsOf(TagNames.TagSourcesOf(fetched.value.fields).value), add, remove);
               calls != [] && calls[0].verb == Client.Put && calls[0].url == UpdateEndpoint(base, itemId)
               && calls[0].payload == Json.JObj(UpdatePayload(fetched.value.fields, itemId, finalTags))
               && (r.Ok? ==> r.value == finalTags))
    ensures var fetched := fetch(FetchEndpoint(base, itemId, userId));
      itemId != "" && fetched.Ok? && (!fetched.value.JObj? || TagNames.TagSourcesOf(fetched.value.fields).None?) ==>
        res == (Err(UnreadableItem), [])
    ensures var (r, calls) := res;
      var fetched := fetch(FetchEndpoint(base, itemId, userId));
      itemId != "" && fetched.Ok? && fetched.value.JObj? && TagNames.TagSourcesOf(fetched.value.fields).Some? ==>
        var finalTags := FinalTags(TagNames.ItemTagsOf(TagNames.TagSourcesOf(fetched.value.fields).value), add, remove);
        var (answer, sent) := Client.PutWithFallback(send, UpdateEndpoint(base, itemId), apiKey,
                                                     Json.JObj(UpdatePayload(fetched.value.fields, itemId, finalTags)));
        calls == sent && (r.Ok? <==> answer.Ok?) && (r.Ok? ==> r.value == finalTags)
        && (answer.Err? ==> r == Err(RequestFailed(answer.error)))
  {
    if itemId == "" then (Err(MissingItemId), [])
    else
      match fetch(FetchEndpoint(base, itemId, userId))
      case Err(failure) => (Err(RequestFailed(failure)), [])
      case Ok(fetched) =>
        if !fetched.JObj? || TagNames.TagSourcesOf(fetched.fields).None? then (Err(UnreadableItem), [])
        else
          var item := fetched.fields;
          var finalTags := FinalTags(TagNames.ItemTagsOf(TagNames.TagSourcesOf(item).value), add, remove);
          var (answer, calls) :=
            Client.PutWithFallback(send, UpdateEndpoint(base, itemId), apiKey, Json.JObj(UpdatePayload(item, itemId, finalTags)));
          (if answer.Ok? then Ok(finalTags) else Err(RequestFailed(answer.error)), calls)
  }

}
