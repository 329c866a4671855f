/**
  Tag counting: a `Counter` of casefold keys together with the dict of
  canonical names (the first trimmed spelling seen for each key), as
  `_add_tag_count`, `_merge_tag_counts`, `_tag_counts_from_endpoint_items` and
  `_sorted_tag_names` build and read them.

  `Tally` is the value of the two containers (the counter's keys kept in
  insertion order); `TagTally` is the pair of containers the source mutates in
  place.
 */
module TagCounts {
  import opened Wrappers
  import Text
  import Json
  import Dedup
  import Ordering

  datatype Tally = Tally(keys: seq<string>, counts: map<string, int>, canonical: map<string, string>)

  const Empty: Tally := Tally([], map[], map[])

  /** The counter lists each of its keys once, and every canonical name is a clean spelling of its key. */
  ghost predicate WellFormed(t: Tally) {
    Dedup.Distinct(t.keys)
    && (forall k :: k in t.keys <==> k in t.counts)
    && (forall k :: k in t.canonical ==>
          t.canonical[k] != "" && Text.IsStripped(t.canonical[k]) && Text.Lower(t.canonical[k]) == k)
  }

  /** A well-formed tally whose counts are all positive: what the counting functions keep. */
  ghost predicate Valid(t: Tally) {
    WellFormed(t) && forall k :: k in t.counts ==> t.counts[k] > 0
  }

  /** `counter[k]`: a missing key counts 0. */
  function CountOf(t: Tally, k: string): int {
    if k in t.counts then t.counts[k] else 0
  }

  /** `counter[k] += c` for a positive `c`; a non-positive `c` is skipped. */
  function Bump(t: Tally, k: string, c: int): Tally {
    if c <= 0 then t
    else Tally(if k in t.counts then t.keys else t.keys + [k], t.counts[k := CountOf(t, k) + c], t.canonical)
  }

  /** `canonical.setdefault(k, name)`. */
  function SetDefault(t: Tally, k: string, name: string): Tally {
    if k in t.canonical then t else t.(canonical := t.canonical[k := name])
  }

  /** `_add_tag_count(counts, canonical, name, count)`. */
  function Add(t: Tally, name: string, count: int): Tally {
    if count <= 0 then t
    else
      var trimmed := Text.Strip(name);
      if trimmed == "" then t
      else
        var key := Text.Lower(trimmed);
        Bump(SetDefault(t, key, trimmed), key, count)
  }

  /** Whether `_add_tag_count(..., name, count)` counts `count` under key `k`. */
  predicate AddsTo(name: string, count: int, k: string) {
    count > 0 && Text.Strip(name) != "" && Text.Lower(Text.Strip(name)) == k
  }

  /** Adding counts `count` under the casefold key of the trimmed name, and nothing for a blank name or a count <= 0. */
  lemma AddCount(t: Tally, name: string, count: int, k: string)
    ensures CountOf(Add(t, name, count), k) == CountOf(t, k) + (if AddsTo(name, count, k) then count else 0)
  {
  }

  /** Bumping keeps the tally valid and leaves the canonical names alone. */
  lemma BumpValid(t: Tally, k: string, c: int)
    requires Valid(t)
    ensures Valid(Bump(t, k, c)) && Bump(t, k, c).canonical == t.canonical
  {
    if c > 0 && k !in t.counts {
      var r := Bump(t, k, c);
      assert k !in t.keys;
      assert forall i :: 0 <= i < |t.keys| ==> r.keys[i] == t.keys[i];
    }
  }

  /** Setting a clean spelling of `k` as default keeps the tally valid and changes no canonical name already set. */
  lemma SetDefaultValid(t: Tally, k: string, name: string)
    requires Valid(t)
    requires name != "" && Text.IsStripped(name) && Text.Lower(name) == k
    ensures Valid(SetDefault(t, k, name))
    ensures SetDefault(t, k, name).keys == t.keys && SetDefault(t, k, name).counts == t.counts
    ensures forall j :: j in t.canonical ==> j in SetDefault(t, k, name).canonical && SetDefault(t, k, name).canonical[j] == t.canonical[j]
  {
  }

  /** Adding keeps the tally valid, and a canonical name once set never changes. */
  lemma AddValid(t: Tally, name: string, count: int)
    requires Valid(t)
    ensures Valid(Add(t, name, count))
    ensures forall k :: k in t.canonical ==>
      (k in Add(t, name, count).canonical && Add(t, name, count).canonical[k] == t.canonical[k])
  {
    if count > 0 && Text.Strip(name) != "" {
      var trimmed := Text.Strip(name);
      var key := Text.Lower(trimmed);
      SetDefaultValid(t, key, trimmed);
      BumpValid(SetDefault(t, key, trimmed), key, count);
    }
  }

  /** The first spelling wins: after adding, the key's canonical name is the one it already had, or this name. */
  lemma AddCanonical(t: Tally, name: string, count: int)
    requires AddsTo(name, count, Text.Lower(Text.Strip(name)))
    ensures var k := Text.Lower(Text.Strip(name));
      Add(t, name, count).canonical[k] == if k in t.canonical then t.canonical[k] else Text.Strip(name)
  {
  }

  function GetCount(counts: map<string, int>, k: string): int {
    if k in counts then counts[k] else 0
  }

  /** The first loop of `_merge_tag_counts`: each key of `keys`, in order, bumped by its count. */
  function BumpAll(t: Tally, keys: seq<string>, counts: map<string, int>): Tally
    decreases |keys|
  {
    if keys == [] then t
    else Bump(BumpAll(t, keys[..|keys| - 1], counts), keys[|keys| - 1], GetCount(counts, keys[|keys| - 1]))
  }

  /** The second loop of `_merge_tag_counts`: `setdefault` for every canonical name of `b`. */
  function SetDefaults(a: map<string, string>, b: map<string, string>): map<string, string> {
    map k | k in a.Keys + b.Keys :: if k in a then a[k] else b[k]
  }

  /** `m` without the keys in `ks`. */
  function Without(m: map<string, string>, ks: set<string>): map<string, string> {
    map k | k in m.Keys - ks :: m[k]
  }

  /** Before the loop nothing of `b` has been merged; after it all of `b` has. */
  lemma SetDefaultsBounds(c: map<string, string>, b: map<string, string>)
    ensures SetDefaults(c, Without(b, b.Keys)) == c
    ensures SetDefaults(c, Without(b, {})) == SetDefaults(c, b)
  {
    assert Without(b, b.Keys) == map[];
    assert Without(b, {}) == b;
  }

  /** One more `setdefault`: the keys still to visit lose `key`. */
  lemma SetDefaultsStep(c: map<string, string>, b: map<string, string>, todo: set<string>, key: string)
    requires key in todo && todo <= b.Keys
    ensures var before := SetDefaults(c, Without(b, todo));
      SetDefaults(c, Without(b, todo - {key})) == if key in before then before else before[key := b[key]]
  {
  }

  /** `_merge_tag_counts(a.counts, a.canonical, b.counts, b.canonical)`. */
  function Merge(a: Tally, b: Tally): Tally {
    var m := BumpAll(a, b.keys, b.counts);
    m.(canonical := SetDefaults(m.canonical, b.canonical))
  }

  lemma {:induction false} BumpAllCount(t: Tally, keys: seq<string>, counts: map<string, int>, k: string)
    requires Dedup.Distinct(keys)
    ensures CountOf(BumpAll(t, keys, counts), k)
         == CountOf(t, k) + (if k in keys && GetCount(counts, k) > 0 then GetCount(counts, k) else 0)
    decreases |keys|
  {
    if keys != [] {
      var front := keys[..|keys| - 1];
      BumpAllCount(t, front, counts, k);
      assert k in keys <==> k in front || k == keys[|keys| - 1];
      if k == keys[|keys| - 1] {
        assert k !in front;
      }
    }
  }

  lemma {:induction false} BumpAllValid(t: Tally, keys: seq<string>, counts: map<string, int>)
    requires Valid(t)
    ensures Valid(BumpAll(t, keys, counts)) && BumpAll(t, keys, counts).canonical == t.canonical
    decreases |keys|
  {
    if keys != [] {
      var p := BumpAll(t, keys[..|keys| - 1], counts);
      BumpAllValid(t, keys[..|keys| - 1], counts);
      var k := keys[|keys| - 1];
      if GetCount(counts, k) > 0 && k !in p.counts {
        var r := Bump(p, k, GetCount(counts, k));
        assert k !in p.keys;
        assert forall i :: 0 <= i < |p.keys| ==> r.keys[i] == p.keys[i];
      }
    }
  }

  /** Merging adds each positive count of `b` to `a`'s count for the same key and ignores the others. */
  lemma MergeCount(a: Tally, b: Tally, k: string)
    requires WellFormed(b)
    ensures CountOf(Merge(a, b), k) == CountOf(a, k) + (if CountOf(b, k) > 0 then CountOf(b, k) else 0)
  {
    BumpAllCount(a, b.keys, b.counts, k);
  }

  /**
    Merging keeps the tally valid; a canonical name once set never changes, and
    a key gets `b`'s name only when `a` had none.
   */
  lemma MergeValid(a: Tally, b: Tally)
    requires Valid(a) && WellFormed(b)
    ensures Valid(Merge(a, b))
    ensures Merge(a, b).canonical.Keys == a.canonical.Keys + b.canonical.Keys
    ensures forall k :: k in a.canonical ==> Merge(a, b).canonical[k] == a.canonical[k]
    ensures forall k :: k in b.canonical && k !in a.canonical ==> Merge(a, b).canonical[k] == b.canonical[k]
  {
    BumpAllValid(a, b.keys, b.counts);
  }

  // _normalized_count and _tag_counts_from_endpoint_items

  /** `_normalized_count(value)`: None when `value` is None or `int(value)` fails, else the count floored at 0. */
  function NormalizedCount(v: Json.Json): (r: Option<nat>)
    ensures r.None? <==> Json.IntOf(v).None?
    ensures r.Some? ==> (r.value == Json.IntOf(v).value || (r.value == 0 && Json.IntOf(v).value < 0))
  {
    if v.JNull? then None
    else
      match Json.IntOf(v)
      case None => None
      case Some(n) => Some(if n < 0 then 0 else n)
  }

  /** The keys `_tag_counts_from_endpoint_items` reads a count from, in order. */
  const CountFields: seq<string> := ["ItemCount", "Count"]

  /** The count found by the inner loop after looking at `fields`: the first present field whose value normalises. */
  function FirstCount(entry: map<string, Json.Json>, fields: seq<string>): Option<nat>
    decreases |fields|
  {
    if fields == [] then None
    else
      var before := FirstCount(entry, fields[..|fields| - 1]);
      var f := fields[|fields| - 1];
      if before.Some? then before
      else if f in entry then NormalizedCount(entry[f])
      else before
  }

  /** The name of an endpoint entry, when it is a non-empty string. */
  function EntryName(entry: map<string, Json.Json>): Option<string> {
    if "Name" in entry && entry["Name"].JStr? && entry["Name"].s != "" then Some(entry["Name"].s) else None
  }

  /** The count of an entry: `ItemCount`, else `Count`, else 1. */
  function EntryCount(entry: map<string, Json.Json>): nat {
    FirstCount(entry, CountFields).GetOr(1)
  }

  lemma EntryCountSpec(entry: map<string, Json.Json>)
    ensures "ItemCount" in entry && NormalizedCount(entry["ItemCount"]).Some?
      ==> EntryCount(entry) == NormalizedCount(entry["ItemCount"]).value
    ensures ("ItemCount" !in entry || NormalizedCount(entry["ItemCount"]).None?)
      && "Count" in entry && NormalizedCount(entry["Count"]).Some?
      ==> EntryCount(entry) == NormalizedCount(entry["Count"]).value
    ensures ("ItemCount" !in entry || NormalizedCount(entry["ItemCount"]).None?)
      && ("Count" !in entry || NormalizedCount(entry["Count"]).None?)
      ==> EntryCount(entry) == 1
  {
    var first := CountFields[..1];
    assert first[..0] == [] && first[0] == "ItemCount";
    assert FirstCount(entry, first)
        == if "ItemCount" in entry then NormalizedCount(entry["ItemCount"]) else None;
    assert CountFields[..|CountFields| - 1] == first && CountFields[1] == "Count";
  }

  /** One entry's effect: skipped without a non-empty string name, else added with its count. */
  function AddEntry(t: Tally, entry: map<string, Json.Json>): Tally {
    match EntryName(entry)
    case None => t
    case Some(name) => Add(t, name, EntryCount(entry))
  }

  /** The tally `_tag_counts_from_endpoint_items(entries)` returns. */
  function FromEntries(entries: seq<map<string, Json.Json>>): Tally
    decreases |entries|
  {
    if entries == [] then Empty
    else AddEntry(FromEntries(entries[..|entries| - 1]), entries[|entries| - 1])
  }

  /** What one entry contributes to key `k`. */
  function Contribution(entry: map<string, Json.Json>, k: string): nat {
    match EntryName(entry)
    case None => 0
    case Some(name) => if AddsTo(name, EntryCount(entry), k) then EntryCount(entry) else 0
  }

  function TotalContribution(entries: seq<map<string, Json.Json>>, k: string): nat
    decreases |entries|
  {
    if entries == [] then 0
    else TotalContribution(entries[..|entries| - 1], k) + Contribution(entries[|entries| - 1], k)
  }

  /**
    The page tally is valid and counts, under each key, the sum of the counts of
    the entries whose trimmed name folds to that key.
   */
  lemma {:induction false} FromEntriesSpec(entries: seq<map<string, Json.Json>>, k: string)
    ensures Valid(FromEntries(entries))
    ensures CountOf(FromEntries(entries), k) == TotalContribution(entries, k)
    decreases |entries|
  {
    if entries != [] {
      var front := entries[..|entries| - 1];
      var e := entries[|entries| - 1];
      FromEntriesSpec(front, k);
      match EntryName(e)
      case None =>
      case Some(name) =>
        AddValid(FromEntries(front), name, EntryCount(e));
        AddCount(FromEntries(front), name, EntryCount(e), k);
    }
  }

  // _sorted_tag_names

  /** `canonical_names.get(key, key)`. */
  function NameOf(t: Tally, k: string): string {
    if k in t.canonical then t.canonical[k] else k
  }

  /** The `(name, count)` pairs in counter order. */
  function Pairs(t: Tally): seq<(string, int)> {
    seq(|t.keys|, i requires 0 <= i < |t.keys| => (NameOf(t, t.keys[i]), CountOf(t, t.keys[i])))
  }

  /** The sort key `(-count, name.casefold(), name)`. */
  function RankKey(p: (string, int)): Ordering.Key {
    [Ordering.N(-p.1), Ordering.S(Text.Lower(p.0)), Ordering.S(p.0)]
  }

  function Ranked(t: Tally): seq<(string, int)> {
    Ordering.SortBy(Pairs(t), RankKey)
  }

  function Names<N, C>(ps: seq<(N, C)>): seq<N> {
    seq(|ps|, i requires 0 <= i < |ps| => ps[i].0)
  }

  /**
    `_sorted_tag_names(counts, canonical)`: one name per counted key, the
    canonical names (or keys) of the counted keys rearranged.
   */
  function SortedTagNames(t: Tally): (r: seq<string>)
    ensures |r| == |t.keys|
    ensures multiset(r) == multiset(Names(Pairs(t)))
  {
    NamesPermutation(Ranked(t), Pairs(t));
    Names(Ranked(t))
  }

  /** `a` comes no later than `b`: higher count first, then casefold name, then the literal name. */
  predicate RankedBefore(a: (string, int), b: (string, int)) {
    a.1 > b.1
    || (a.1 == b.1
        && ((Text.Lower(a.0) != Text.Lower(b.0) && Ordering.StrLe(Text.Lower(a.0), Text.Lower(b.0)))
            || (Text.Lower(a.0) == Text.Lower(b.0) && Ordering.StrLe(a.0, b.0))))
  }

  lemma RankKeyOrder(a: (string, int), b: (string, int))
    requires Ordering.KeyLe(RankKey(a), RankKey(b))
    ensures RankedBefore(a, b)
  {
    var ka, kb := RankKey(a), RankKey(b);
    if ka[0] == kb[0] && ka[1] == kb[1] {
      assert ka[2..] == [Ordering.S(a.0)] && kb[2..] == [Ordering.S(b.0)];
      Ordering.KeyLeString(a.0, b.0);
    }
  }

  lemma {:induction false} NamesAppend<N, C>(a: seq<(N, C)>, b: seq<(N, C)>)
    ensures Names(a + b) == Names(a) + Names(b)
  {
  }

  /** Removing the element at `j` removes its name from the names' multiset. */
  lemma NamesRemove<N, C>(b: seq<(N, C)>, j: int)
    requires 0 <= j < |b|
    ensures multiset(Names(b)) == multiset(Names(b[..j] + b[j + 1..])) + multiset{b[j].0}
  {
    var l, r := b[..j], b[j + 1..];
    assert b == l + [b[j]] + r;
    NamesAppend(l + [b[j]], r);
    NamesAppend(l, [b[j]]);
    NamesAppend(l, r);
    assert Names([b[j]]) == [b[j].0];
    assert Names(b) == Names(l) + [b[j].0] + Names(r);
  }

  /** An element of the multiset of a sequence sits at some index. */
  lemma IndexOf<T>(b: seq<T>, x: T) returns (j: int)
    requires x in multiset(b)
    ensures 0 <= j < |b| && b[j] == x
  {
    assert x in b;
    j :| 0 <= j < |b| && b[j] == x;
  }

  /** Taking the same element out of two permutations of each other leaves permutations. */
  lemma RemoveBoth<T>(a: seq<T>, b: seq<T>, j: int)
    requires multiset(a) == multiset(b) && a != [] && 0 <= j < |b| && b[j] == a[0]
    ensures multiset(a[1..]) == multiset(b[..j] + b[j + 1..])
  {
    var l, r := b[..j], b[j + 1..];
    assert a == [a[0]] + a[1..];
    assert multiset(a) == multiset{a[0]} + multiset(a[1..]);
    assert b == l + [b[j]] + r;
    assert multiset(b) == multiset(l) + multiset{b[j]} + multiset(r);
    assert multiset(l + r) == multiset(l) + multiset(r);
    forall y ensures multiset(a[1..])[y] == multiset(l + r)[y] {
      assert multiset(a)[y] == multiset(b)[y];
    }
  }

  /** Putting the same pair back in front of names that agree keeps them agreeing. */
  lemma NamesInsert<N, C>(a: seq<(N, C)>, b: seq<(N, C)>, j: int)
    requires a != [] && 0 <= j < |b| && b[j] == a[0]
    requires multiset(Names(a[1..])) == multiset(Names(b[..j] + b[j + 1..]))
    ensures multiset(Names(a)) == multiset(Names(b))
  {
    NamesRemove(a, 0);
    NamesRemove(b, j);
    assert a[..0] + a[1..] == a[1..];
  }

  lemma {:induction false} NamesPermutation<N, C>(a: seq<(N, C)>, b: seq<(N, C)>)
    requires multiset(a) == multiset(b)
    ensures multiset(Names(a)) == multiset(Names(b))
    decreases |a|
  {
    if a == [] {
      assert |b| == |multiset(b)| == 0;
    } else {
      var j := IndexOf(b, a[0]);
      RemoveBoth(a, b, j);
      NamesPermutation(a[1..], b[..j] + b[j + 1..]);
      NamesInsert(a, b, j);
    }
  }

  /**
    The sorted names are a permutation of the canonical names of the counted
    keys, ranked by descending count, then casefold name, then literal name.
   */
  lemma SortedTagNamesSpec(t: Tally)
    ensures multiset(SortedTagNames(t)) == multiset(Names(Pairs(t)))
    ensures forall i :: 0 <= i < |t.keys| ==> Names(Pairs(t))[i] == NameOf(t, t.keys[i])
    ensures forall i, j :: 0 <= i < j < |Ranked(t)| ==> RankedBefore(Ranked(t)[i], Ranked(t)[j])
    ensures forall i :: 0 <= i < |Ranked(t)| ==> SortedTagNames(t)[i] == Ranked(t)[i].0
  {
    NamesPermutation(Ranked(t), Pairs(t));
    var r := Ranked(t);
    forall i, j | 0 <= i < j < |r| ensures RankedBefore(r[i], r[j]) {
      RankKeyOrder(r[i], r[j]);
    }
  }

  /** `for key, name in b.items(): c.setdefault(key, name)`, on a copy of `c`. */
  method SetDefaultsLoop(c: map<string, string>, b: map<string, string>) returns (merged: map<string, string>)
    ensures merged == SetDefaults(c, b)
  {
    merged := c;
    var todo := b.Keys;
    SetDefaultsBounds(c, b);
    while todo != {}
      invariant todo <= b.Keys
      invariant merged == SetDefaults(c, Without(b, todo))
      decreases |todo|
    {
      var key :| key in todo;
      SetDefaultsStep(c, b, todo, key);
      if key !in merged {
        merged := merged[key := b[key]];
      }
      todo := todo - {key};
    }
  }

  /** The counter and the canonical-name dict one counting pass fills in place. */
  class TagTally {
    var keys: seq<string>
    var counts: map<string, int>
    var canonical: map<string, string>

    function State(): Tally
      reads this
    {
      Tally(keys, counts, canonical)
    }

    constructor ()
      ensures State() == Empty
    {
      keys, counts, canonical := [], map[], map[];
    }

    /** `_add_tag_count(self.counts, self.canonical, name, count)`. */
    method AddTagCount(name: string, count: int)
      modifies this
      ensures State() == Add(old(State()), name, count)
    {
      if count <= 0 {
        return;
      }
      var trimmed := Text.Strip(name);
      if trimmed == "" {
        return;
      }
      var key := Text.Lower(trimmed);
      Record(key, trimmed, count);
    }

    /** The two updates `_add_tag_count` makes once it has a clean name and its key. */
    method Record(key: string, trimmed: string, count: int)
      modifies this
      ensures State() == Bump(SetDefault(old(State()), key, trimmed), key, count)
    {
      ghost var t1 := SetDefault(State(), key, trimmed);
      if key !in canonical {
        canonical := canonical[key := trimmed];
      }
      assert State() == t1;
      if count <= 0 {
        return;
      }
      var current := if key in counts then counts[key] else 0;
      if key !in counts {
        keys := keys + [key];
      }
      counts := counts[key := current + count];
    }

    /** `_merge_tag_counts(self.counts, self.canonical, other.counts, other.canonical)`. */
    method MergeTagCounts(other: TagTally)
      modifies this
      ensures State() == Merge(old(State()), old(other.State()))
    {
      var newKeys, newCounts, newCanonical := other.keys, other.counts, other.canonical;
      BumpCounts(newKeys, newCounts);
      DefaultNames(newCanonical);
    }

    /** The first loop of `_merge_tag_counts`: `counts[key] += count` for each positive count, in key order. */
    method BumpCounts(newKeys: seq<string>, newCounts: map<string, int>)
      modifies this
      ensures State() == BumpAll(old(State()), newKeys, newCounts)
    {
      ghost var t0 := State();
      for i := 0 to |newKeys|
        invariant State() == BumpAll(t0, newKeys[..i], newCounts)
      {
        assert newKeys[..i + 1][..i] == newKeys[..i];
        var key := newKeys[i];
        var count := GetCount(newCounts, key);
        if count <= 0 {
          continue;
        }
        if key !in counts {
          keys := keys + [key];
        }
        counts := counts[key := (if key in counts then counts[key] else 0) + count];
      }
      assert newKeys[..|newKeys|] == newKeys;
    }

    /** The second loop of `_merge_tag_counts`: `canonical.setdefault(key, name)` for each of the other's names. */
    method DefaultNames(newCanonical: map<string, string>)
      modifies this
      ensures State() == old(State()).(canonical := SetDefaults(old(canonical), newCanonical))
    {
      canonical := SetDefaultsLoop(canonical, newCanonical);
    }
  }

  /** The inner loop of `_tag_counts_from_endpoint_items`: the first count field that normalises, else 1. */
  method EntryCountOf(entry: map<string, Json.Json>) returns (count: nat)
    ensures count == EntryCount(entry)
  {
    var found: Option<nat> := None;
    var j := 0;
    while j < |CountFields| && found.None?
      invariant 0 <= j <= |CountFields|
      invariant found == FirstCount(entry, CountFields[..j])
      invariant found.None? ==> j < |CountFields| || FirstCount(entry, CountFields).None?
    {
      assert CountFields[..j + 1][..j] == CountFields[..j];
      var field := CountFields[j];
      if field in entry {
        found := NormalizedCount(entry[field]);
      }
      j := j + 1;
    }
    assert found.Some? ==> found == FirstCount(entry, CountFields);
    count := if found.Some? then found.value else 1;
  }

  /** `_tag_counts_from_endpoint_items(entries)`. */
  method TagCountsFromEndpointItems(entries: seq<map<string, Json.Json>>) returns (t: TagTally)
    ensures fresh(t) && t.State() == FromEntries(entries)
  {
    t := new TagTally();
    for i := 0 to |entries|
      invariant t.State() == FromEntries(entries[..i])
    {
      assert entries[..i + 1][..i] == entries[..i];
      CountEntry(t, entries[i]);
    }
    assert entries[..|entries|] == entries;
  }

  /** The loop body of `_tag_counts_from_endpoint_items` for one entry. */
  method CountEntry(t: TagTally, entry: map<string, Json.Json>)
    modifies t
    ensures t.State() == AddEntry(old(t.State()), entry)
  {
    if !("Name" in entry && entry["Name"].JStr? && entry["Name"].s != "") {
      return;
    }
    var count := EntryCountOf(entry);
    t.AddTagCount(entry["Name"].s, count);
  }

}
