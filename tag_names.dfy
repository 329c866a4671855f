/**
  The tag names of one item and the parsing of a user's tag filter string.

  An item lists its tags in three places: `TagItems` (objects with a `Name`),
  `Tags` and `InheritedTags`. Each source is given here as the sequence of its
  entries' names, `None` standing for an entry that is not a string (or a
  `TagItems` entry without a string `Name`).
 */
module TagNames {
  import opened Wrappers
  import Text
  import Json
  import Dedup
  import Ordering

  datatype TagSources = TagSources(
    tagItems: seq<Option<string>>,
    tags: seq<Option<string>>,
    inherited: seq<Option<string>>)

  /** The names in source order: `TagItems`, then `Tags`, then `InheritedTags`. */
  function AllNames(src: TagSources): seq<Option<string>> {
    src.tagItems + src.tags + src.inherited
  }

  /** What one entry contributes: its stripped name, unless it is not a string or blank. */
  function CleanOne(name: Option<string>): (r: seq<string>)
    ensures |r| <= 1
    ensures forall t :: t in r ==> t != "" && Text.IsStripped(t)
  {
    match name
    case None => []
    case Some(s) => if Text.Strip(s) == "" then [] else [Text.Strip(s)]
  }

  /** The stripped, non-blank names of `names`, in order. */
  function Cleaned(names: seq<Option<string>>): (r: seq<string>)
    ensures forall t :: t in r ==> t != "" && Text.IsStripped(t)
    decreases |names|
  {
    if names == [] then []
    else Cleaned(names[..|names| - 1]) + CleanOne(names[|names| - 1])
  }

  lemma {:induction false} CleanedAppend(a: seq<Option<string>>, b: seq<Option<string>>)
    ensures Cleaned(a + b) == Cleaned(a) + Cleaned(b)
    decreases |b|
  {
    if b == [] {
      assert a + b == a;
    } else {
      var b' := b[..|b| - 1];
      assert (a + b)[..|a + b| - 1] == a + b';
      CleanedAppend(a, b');
    }
  }

  lemma CleanedSnoc(a: seq<Option<string>>, x: Option<string>)
    ensures Cleaned(a + [x]) == Cleaned(a) + CleanOne(x)
  {
    assert (a + [x])[..|a|] == a;
  }

  /** Every present, non-blank name appears, stripped, among the cleaned names. */
  lemma {:induction false} CleanedCovers(names: seq<Option<string>>, i: int)
    requires 0 <= i < |names| && names[i].Some? && Text.Strip(names[i].value) != ""
    ensures Text.Strip(names[i].value) in Cleaned(names)
    decreases |names|
  {
    if i < |names| - 1 {
      assert names[..|names| - 1][i] == names[i];
      CleanedCovers(names[..|names| - 1], i);
    }
  }

  /** The value of `item_tags(item)`: the first name of each casefold key, stripped. */
  function ItemTagsOf(src: TagSources): seq<string> {
    Dedup.FirstByKey(Cleaned(AllNames(src)), Text.Lower)
  }

  /** `_add(name)`: appends the stripped name unless it is blank or its key was seen. */
  method AddName(names: seq<string>, seen: set<string>, name: Option<string>)
      returns (names': seq<string>, seen': set<string>)
    requires seen == Dedup.KeysOf(names, Text.Lower)
    ensures seen' == Dedup.KeysOf(names', Text.Lower)
    ensures names' == (var c := CleanOne(name);
                       if c == [] || Text.Lower(c[0]) in seen then names else names + c)
  {
    names', seen' := names, seen;
    if name.None? {
      return;
    }
    var trimmed := Text.Strip(name.value);
    if trimmed == "" {
      return;
    }
    var key := Text.Lower(trimmed);
    if key in seen {
      return;
    }
    seen' := seen + {key};
    names' := names + [trimmed];
    Dedup.KeysOfSnoc(names, trimmed, Text.Lower);
  }

  lemma SnocSlice<X>(before: seq<X>, source: seq<X>, i: int)
    requires 0 <= i < |source|
    ensures before + source[..i + 1] == (before + source[..i]) + [source[i]]
  {
    assert source[..i + 1] == source[..i] + [source[i]];
  }

  /** One more name extends the scan exactly as `_add` extends `names`. */
  lemma ScanStep(prefix: seq<Option<string>>, x: Option<string>)
    ensures var names := Dedup.FirstByKey(Cleaned(prefix), Text.Lower); var c := CleanOne(x);
      Dedup.FirstByKey(Cleaned(prefix + [x]), Text.Lower)
      == if c == [] || Text.Lower(c[0]) in Dedup.KeysOf(names, Text.Lower) then names else names + c
  {
    CleanedSnoc(prefix, x);
    var c := CleanOne(x);
    if c != [] {
      assert c == [c[0]];
      Dedup.FirstByKeySnoc(Cleaned(prefix), c[0], Text.Lower);
    } else {
      assert Cleaned(prefix + [x]) == Cleaned(prefix);
    }
  }

  /** One pass over a source: the invariant is that the result so far is the scan of the names so far. */
  method AddAll(names: seq<string>, seen: set<string>, ghost before: seq<Option<string>>, source: seq<Option<string>>)
      returns (names': seq<string>, seen': set<string>)
    requires names == Dedup.FirstByKey(Cleaned(before), Text.Lower)
    requires seen == Dedup.KeysOf(names, Text.Lower)
    ensures names' == Dedup.FirstByKey(Cleaned(before + source), Text.Lower)
    ensures seen' == Dedup.KeysOf(names', Text.Lower)
  {
    names', seen' := names, seen;
    assert before + source[..0] == before;
    for i := 0 to |source|
      invariant names' == Dedup.FirstByKey(Cleaned(before + source[..i]), Text.Lower)
      invariant seen' == Dedup.KeysOf(names', Text.Lower)
    {
      ghost var prefix := before + source[..i];
      SnocSlice(before, source, i);
      ScanStep(prefix, source[i]);
      names', seen' := AddName(names', seen', source[i]);
    }
    assert before + source[..|source|] == before + source;
  }

  lemma AllNamesInPasses(src: TagSources)
    ensures [] + src.tagItems + src.tags + src.inherited == AllNames(src)
    ensures Dedup.FirstByKey(Cleaned([]), Text.Lower) == []
  {
    assert [] + src.tagItems == src.tagItems;
  }

  /** `item_tags(item)`: three passes sharing one `seen` set of casefold keys. */
  method ItemTags(src: TagSources) returns (names: seq<string>)
    ensures names == ItemTagsOf(src)
  {
    AllNamesInPasses(src);
    var seen: set<string>;
    names, seen := [], {};
    names, seen := AddAll(names, seen, [], src.tagItems);
    names, seen := AddAll(names, seen, [] + src.tagItems, src.tags);
    names, seen := AddAll(names, seen, [] + src.tagItems + src.tags, src.inherited);
  }

  /** Every tag is stripped and non-empty, and no two tags are equal ignoring case. */
  lemma ItemTagsClean(src: TagSources)
    ensures forall t :: t in ItemTagsOf(src) ==> t != "" && Text.IsStripped(t)
    ensures forall i, j :: 0 <= i < j < |ItemTagsOf(src)| ==> Text.Lower(ItemTagsOf(src)[i]) != Text.Lower(ItemTagsOf(src)[j])
  {
    Dedup.FirstByKeyKeys(Cleaned(AllNames(src)), Text.Lower);
    Dedup.FirstByKeyDistinct(Cleaned(AllNames(src)), Text.Lower);
  }

  /** Every non-blank string name of any source has a tag equal to it ignoring case. */
  lemma ItemTagsCover(src: TagSources, i: int)
    requires 0 <= i < |AllNames(src)| && AllNames(src)[i].Some?
    requires Text.Strip(AllNames(src)[i].value) != ""
    ensures exists t :: t in ItemTagsOf(src) && Text.Lower(t) == Text.Lower(Text.Strip(AllNames(src)[i].value))
  {
    var s := Text.Strip(AllNames(src)[i].value);
    CleanedCovers(AllNames(src), i);
    Dedup.FirstByKeyKeys(Cleaned(AllNames(src)), Text.Lower);
    assert Text.Lower(s) in Dedup.KeysOf(Cleaned(AllNames(src)), Text.Lower);
  }

  /**
    First-seen casing wins: the tags are exactly the cleaned names that no
    earlier cleaned name matches ignoring case.
   */
  lemma ItemTagsFirstSeen(src: TagSources, t: string)
    ensures t in ItemTagsOf(src) ==>
      exists i :: 0 <= i < |Cleaned(AllNames(src))| && Cleaned(AllNames(src))[i] == t
        && Dedup.IsFirstOfKey(Cleaned(AllNames(src)), Text.Lower, i)
    ensures forall i ::
      (0 <= i < |Cleaned(AllNames(src))| && Cleaned(AllNames(src))[i] == t
       && Dedup.IsFirstOfKey(Cleaned(AllNames(src)), Text.Lower, i)) ==> t in ItemTagsOf(src)
  {
    var names := Cleaned(AllNames(src));
    if t in ItemTagsOf(src) {
      Dedup.KeptAreFirsts(names, Text.Lower, t);
    }
    forall i | 0 <= i < |names| && names[i] == t && Dedup.IsFirstOfKey(names, Text.Lower, i)
      ensures t in ItemTagsOf(src)
    {
      Dedup.FirstOfKeyKept(names, Text.Lower, i);
    }
  }

  /** The names scanned so far are a prefix of the names scanned after more input. */
  lemma ScanPrefix(a: seq<Option<string>>, b: seq<Option<string>>)
    ensures Dedup.FirstByKey(Cleaned(a), Text.Lower) <= Dedup.FirstByKey(Cleaned(a + b), Text.Lower)
  {
    CleanedAppend(a, b);
    var all := Cleaned(a + b);
    assert all[..|Cleaned(a)|] == Cleaned(a);
    Dedup.FirstByKeyPrefix(all, Text.Lower, |Cleaned(a)|);
  }

  /** Source order: the tags from `TagItems` come first, then those first seen in `Tags`. */
  lemma ItemTagsSourceOrder(src: TagSources)
    ensures ItemTagsOf(TagSources(src.tagItems, [], [])) <= ItemTagsOf(src)
    ensures ItemTagsOf(TagSources(src.tagItems, src.tags, [])) <= ItemTagsOf(src)
  {
    assert AllNames(src) == src.tagItems + (src.tags + src.inherited);
    assert AllNames(TagSources(src.tagItems, [], [])) == src.tagItems;
    ScanPrefix(src.tagItems, src.tags + src.inherited);
    assert AllNames(TagSources(src.tagItems, src.tags, [])) == src.tagItems + src.tags;
    ScanPrefix(src.tagItems + src.tags, src.inherited);
  }

  // The tag fields of a fetched item

  /**
    The name a `TagItems` entry contributes, `(tag or {}).get("Name")` kept when
    it is a string; None when the entry is truthy but not an object, where
    `.get` raises.
   */
  function TagItemName(entry: Json.Json): Option<Option<string>> {
    if !Json.Truthy(entry) then Some(None)
    else match entry
      case JObj(f) => Some(if Json.Get(f, "Name").JStr? then Some(Json.Get(f, "Name").s) else None)
      case _ => None
  }

  /** The names of a list of `TagItems` entries; None when any entry raises. */
  function TagItemNames(entries: seq<Json.Json>): (r: Option<seq<Option<string>>>)
    ensures r.Some? ==> |r.value| == |entries|
    decreases |entries|
  {
    if entries == [] then Some([])
    else
      match (TagItemNames(entries[..|entries| - 1]), TagItemName(entries[|entries| - 1]))
      case (Some(names), Some(name)) => Some(names + [name])
      case _ => None
  }

  /**
    The entries `for x in value or []` visits: the elements of a list, the
    one-character strings of a string, nothing for a falsy value. None for a
    number, a boolean or an object, which the model does not iterate.
   */
  function Visited(value: Json.Json): Option<seq<Json.Json>> {
    match Json.Or(value, Json.JArr([]))
    case JArr(es) => Some(es)
    case JStr(s) => Some(seq(|s|, i requires 0 <= i < |s| => Json.JStr([s[i]])))
    case _ => None
  }

  /** A `Tags` or `InheritedTags` entry counts only when it is a string. */
  function StringName(v: Json.Json): Option<string> {
    if v.JStr? then Some(v.s) else None
  }

  /** The names of the three tag fields of a fetched item; None when walking them raises. */
  function TagSourcesOf(item: map<string, Json.Json>): Option<TagSources> {
    var a := Visited(Json.Get(item, "TagItems"));
    var b := Visited(Json.Get(item, "Tags"));
    var c := Visited(Json.Get(item, "InheritedTags"));
    if a.None? || b.None? || c.None? || TagItemNames(a.value).None? then None
    else
      var tags, inherited := b.value, c.value;
      Some(TagSources(TagItemNames(a.value).value,
                      seq(|tags|, i requires 0 <= i < |tags| => StringName(tags[i])),
                      seq(|inherited|, i requires 0 <= i < |inherited| => StringName(inherited[i]))))
  }

  /**
    Walking the `TagItems` entries raises exactly when some entry is truthy and
    not an object; otherwise each entry yields its string `Name`, if any.
   */
  lemma {:induction false} TagItemNamesSpec(entries: seq<Json.Json>)
    ensures TagItemNames(entries).Some? <==> forall i :: 0 <= i < |entries| && Json.Truthy(entries[i]) ==> entries[i].JObj?
    ensures TagItemNames(entries).Some? ==> forall i, s :: 0 <= i < |entries| ==>
      (TagItemNames(entries).value[i] == Some(s)
       <==> Json.Truthy(entries[i]) && Json.Get(entries[i].fields, "Name") == Json.JStr(s))
    decreases |entries|
  {
    if entries != [] {
      var init := entries[..|entries| - 1];
      var last := entries[|entries| - 1];
      TagItemNamesSpec(init);
      assert forall i :: 0 <= i < |init| ==> init[i] == entries[i];
      if TagItemNames(entries).Some? {
        assert TagItemNames(entries).value == TagItemNames(init).value + [TagItemName(last).value];
      }
    }
  }

  /**
    Lists of strings and of tag objects (or a field left out or null) always
    decode, and then the `Tags` names are exactly the list's strings.
   */
  lemma TagSourcesOfLists(item: map<string, Json.Json>, tagItems: seq<Json.Json>, tags: seq<string>)
    requires Json.Get(item, "TagItems") == Json.JArr(tagItems)
    requires forall i :: 0 <= i < |tagItems| ==> tagItems[i].JObj?
    requires Json.Get(item, "Tags") == Json.JArr(seq(|tags|, i requires 0 <= i < |tags| => Json.JStr(tags[i])))
    requires !Json.Truthy(Json.Get(item, "InheritedTags")) || Json.Get(item, "InheritedTags").JArr?
    ensures TagSourcesOf(item).Some?
    ensures TagSourcesOf(item).value.tags == seq(|tags|, i requires 0 <= i < |tags| => Some(tags[i]))
  {
    TagItemNamesSpec(tagItems);
    var elems := seq(|tags|, i requires 0 <= i < |tags| => Json.JStr(tags[i]));
    if tags == [] {
      assert Visited(Json.Get(item, "Tags")) == Some([]);
    } else {
      assert Visited(Json.Get(item, "Tags")) == Some(elems);
    }
    if tagItems == [] {
      assert Visited(Json.Get(item, "TagItems")) == Some([]);
    } else {
      assert Visited(Json.Get(item, "TagItems")) == Some(tagItems);
    }
  }

  // normalize_tags

  /** The raw pieces of a filter string: split on `,`, then each part on `;`. */
  function SplitPieces(s: string): (r: seq<string>)
    ensures forall p :: p in r ==> ',' !in p && ';' !in p
  {
    SplitEach(Text.Split(s, ','))
  }

  function SplitEach(parts: seq<string>): (r: seq<string>)
    requires forall p :: p in parts ==> ',' !in p
    ensures forall p :: p in r ==> ',' !in p && ';' !in p
    decreases |parts|
  {
    if parts == [] then []
    else
      assert parts[0] in parts;
      Text.SplitKeepsOut(parts[0], ';', ',');
      Text.Split(parts[0], ';') + SplitEach(parts[1..])
  }

  /** The filter string with every `;` read as `,`. */
  function Unified(s: string): (r: string)
    ensures |r| == |s|
    ensures forall i :: 0 <= i < |s| ==> r[i] == if s[i] == ';' then ',' else s[i]
  {
    seq(|s|, i requires 0 <= i < |s| => if s[i] == ';' then ',' else s[i])
  }

  /**
    The raw pieces are the segments of the string between its `,` and `;`
    separators, in order: splitting on `,` and then on `;` is splitting on
    either, and joining the pieces with `,` gives the string back with each
    `;` read as `,`.
   */
  lemma SplitPiecesSpec(s: string)
    ensures SplitPieces(s) == Text.Split(Unified(s), ',')
    ensures Text.Join(SplitPieces(s), ",") == Unified(s)
  {
    SplitUnified(s);
    Text.JoinSplit(Unified(s), ',');
  }

  lemma {:induction false} SplitUnified(s: string)
    ensures SplitEach(Text.Split(s, ',')) == Text.Split(Unified(s), ',')
    decreases |s|
  {
    if s != [] {
      var x := s[1..];
      assert s == [s[0]] + x;
      assert Unified(s) == [Unified(s)[0]] + Unified(x);
      SplitUnified(x);
      Text.SplitCons(s[0], x, ',');
      Text.SplitCons(Unified(s)[0], Unified(x), ',');
      if s[0] != ',' {
        SplitEachCons(s[0], Text.Split(x, ','));
      }
    }
  }

  /** A first piece that starts with a character other than `,`. */
  lemma {:induction false} SplitEachCons(c: char, rest: seq<string>)
    requires c != ',' && |rest| >= 1 && forall p :: p in rest ==> ',' !in p
    ensures var parts := [[c] + rest[0]] + rest[1..];
      (forall p :: p in parts ==> ',' !in p)
      && SplitEach(parts) == if c == ';' then [""] + SplitEach(rest)
         else [[c] + SplitEach(rest)[0]] + SplitEach(rest)[1..]
  {
    var parts := [[c] + rest[0]] + rest[1..];
    assert rest[0] in rest;
    assert forall p :: p in rest[1..] ==> p in rest;
    assert parts[1..] == rest[1..];
    SplitEachUnfold(rest);
    SplitEachUnfold(parts);
    Text.SplitCons(c, rest[0], ';');
    ConsPieces(c, Text.Split(rest[0], ';'), SplitEach(rest[1..]));
  }

  lemma {:induction false} SplitEachUnfold(parts: seq<string>)
    requires |parts| >= 1 && forall p :: p in parts ==> ',' !in p
    ensures SplitEach(parts) == Text.Split(parts[0], ';') + SplitEach(parts[1..])
  {
  }

  lemma ConsPieces(c: char, a: seq<string>, e: seq<string>)
    requires |a| >= 1
    ensures ([[c] + a[0]] + a[1..]) + e == [[c] + (a + e)[0]] + (a + e)[1..]
    ensures ([""] + a) + e == [""] + (a + e)
  {
    assert (a + e)[1..] == a[1..] + e;
  }

  /** The stripped, non-empty pieces, in order. */
  function NonBlank(raw: seq<string>): (r: seq<string>)
    requires forall p :: p in raw ==> ',' !in p && ';' !in p
    ensures forall t :: t in r ==> t != "" && Text.IsStripped(t) && ',' !in t && ';' !in t
    ensures forall t :: t in r <==> exists p :: p in raw && Text.Strip(p) == t && t != ""
    decreases |raw|
  {
    if raw == [] then []
    else
      var rest := NonBlank(raw[1..]);
      assert raw[0] in raw;
      Text.StripKeepsOut(raw[0], ',');
      Text.StripKeepsOut(raw[0], ';');
      var r := if Text.Strip(raw[0]) == "" then rest else [Text.Strip(raw[0])] + rest;
      NonBlankCons(raw, rest, r);
      r
  }

  /** The pieces of `raw` are those of its head, when non-blank, and those of its tail. */
  lemma NonBlankCons(raw: seq<string>, rest: seq<string>, r: seq<string>)
    requires raw != []
    requires forall t :: t in rest <==> exists p :: p in raw[1..] && Text.Strip(p) == t && t != ""
    requires r == if Text.Strip(raw[0]) == "" then rest else [Text.Strip(raw[0])] + rest
    ensures forall t :: t in r <==> exists p :: p in raw && Text.Strip(p) == t && t != ""
  {
    forall t | t in r ensures exists p :: p in raw && Text.Strip(p) == t && t != "" {
      if t !in rest {
        assert raw[0] in raw && Text.Strip(raw[0]) == t;
      } else {
        var p :| p in raw[1..] && Text.Strip(p) == t && t != "";
        assert p in raw;
      }
    }
    forall t | exists p :: p in raw && Text.Strip(p) == t && t != "" ensures t in r {
      var p :| p in raw && Text.Strip(p) == t && t != "";
      if p != raw[0] {
        assert p in raw[1..];
      }
    }
  }

  function LowerKey(t: string): Ordering.Key {
    [Ordering.S(Text.Lower(t))]
  }

  /**
    `normalize_tags(value)`: [] for a falsy value; otherwise the distinct
    stripped, non-empty pieces of `str(value)` split on `,` and `;`, ordered by
    their lower-cased form. Pieces equal ignoring case keep the order of their
    first occurrence (the source leaves that order to a set's iteration order).
   */
  function NormalizeTags(value: Json.Json): (r: seq<string>)
    ensures !Json.Truthy(value) ==> r == []
  {
    if !Json.Truthy(value) then []
    else Ordering.SortBy(Dedup.FirstByKey(NonBlank(SplitPieces(Json.PyStr(value))), Dedup.Identity), LowerKey)
  }

  /**
    Deduplicating and then sorting a list of tags keeps each tag once, loses
    none, and orders them by lower case.
   */
  lemma DistinctSorted(pieces: seq<string>)
    ensures var r := Ordering.SortBy(Dedup.FirstByKey(pieces, Dedup.Identity), LowerKey);
      (forall t :: t in r <==> t in pieces)
      && (forall i, j :: 0 <= i < j < |r| ==> r[i] != r[j])
      && (forall i, j :: 0 <= i < j < |r| ==> Ordering.StrLe(Text.Lower(r[i]), Text.Lower(r[j])))
  {
    var d := Dedup.FirstByKey(pieces, Dedup.Identity);
    var r := Ordering.SortBy(d, LowerKey);
    Dedup.FirstByKeyKeys(pieces, Dedup.Identity);
    Dedup.FirstByKeyDistinct(pieces, Dedup.Identity);
    assert multiset(r) == multiset(d);
    forall t ensures t in r <==> t in pieces {
      assert t in r <==> t in multiset(d);
      if t in pieces {
        assert Dedup.Identity(t) in Dedup.KeysOf(pieces, Dedup.Identity);
      }
    }
    Ordering.DistinctPermutation(d, r);
    forall i, j | 0 <= i < j < |r|
      ensures Ordering.StrLe(Text.Lower(r[i]), Text.Lower(r[j]))
    {
      assert Ordering.KeyLe(LowerKey(r[i]), LowerKey(r[j]));
      Ordering.KeyLeString(Text.Lower(r[i]), Text.Lower(r[j]));
    }
  }

  /**
    For a truthy value (a string, or a list, number or object rendered by
    `str()`), the result holds exactly the stripped non-empty pieces of its
    text, each once, sorted by lower case, with no separator inside a tag.
   */
  lemma NormalizeTagsSpec(value: Json.Json)
    requires Json.Truthy(value)
    ensures var s := Json.PyStr(value); var r := NormalizeTags(value);
      (forall t :: t in r <==> exists p :: p in SplitPieces(s) && Text.Strip(p) == t && t != "")
      && (forall i, j :: 0 <= i < j < |r| ==> r[i] != r[j])
      && (forall i, j :: 0 <= i < j < |r| ==> Ordering.StrLe(Text.Lower(r[i]), Text.Lower(r[j])))
      && (forall t :: t in r ==> t != "" && Text.IsStripped(t) && ',' !in t && ';' !in t)
  {
    var pieces := NonBlank(SplitPieces(Json.PyStr(value)));
    assert NormalizeTags(value) == Ordering.SortBy(Dedup.FirstByKey(pieces, Dedup.Identity), LowerKey);
    DistinctSorted(pieces);
  }
}
