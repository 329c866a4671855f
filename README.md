# jellyfin-tag-ui in Dafny

This project models the core of jellyfin-tag-ui, a small web application that
reads, filters, exports and edits the tags of the items in a Jellyfin media
library. It covers the following parts:

- **The item tag names** (`TagNames`). An item names its tags in three fields: `TagItems`, `Tags` and `InheritedTags`. They are merged case-insensitively, and the first spelling seen wins. A user's tag filter string is split on `,` and `;`.
- **Tag counting** (`TagCounts`). This is a counter of casefold keys plus the canonical spelling of each key. It covers adding a count, merging two tallies, reading an endpoint page, and ranking names by count.
- **The tag loops** (`TagPagination`):
  - the paged walk of a tag-listing endpoint, with its repeated-page guard and its page cap;
  - the aggregation of tags over every item of a library.
- **The tag update** (`TagUpdate`). The item's tags are merged with the additions and removals, and the update payload is built from the item's non-empty editable fields.
- **Items** (`Items`):
  - item-type normalisation;
  - sort-parameter normalisation;
  - the response order;
  - the tag and title filter;
  - serialisation;
  - the query of one page request.
- **The adaptive page walk** (`Scan`). It is shared by item search, export and tag aggregation. The offset advances by the page length. The page size shrinks to a short page's length while the server's total says more items exist.
- **The item routes** (`ItemRoutes`). The search route and the export route share request validation, the offset and size sanitisers, match collection, the answer window and the export rows.
- **The two item caches** (`ItemsCache`). Each is an ordered map. Entries expire on read, a hit moves to the newest position, and the oldest keys are evicted beyond a bound. Prefetched match lists are truncated to a limit.
- **The server client** (`Client`):
  - the authentication header;
  - the diagnostic text built from an error body;
  - the JSON content-type check;
  - the PUT-then-POST fallback on 405 and 501.
- **Connection settings** (`Connection`): resolving the base URL and API key from the request or the environment, and validating the base.
- **The bulk apply route** (`Apply`): one result per change, in order.

Supporting modules:

- `Json`: decoded JSON values with the Python semantics the code relies on.
- `Text`: the `str` methods the code uses.
- `Dedup`: keep-the-first-of-each-key.
- `Ordering`: Python's stable `sorted` over tuple keys.
- `Config`: the configured constants.
- `Wrappers`: `Option` and `Result`.

Code that updates state in place is modelled as methods. This covers the loops over pages and items, the `seen`-set scans, the counters and dicts, and the caches. Each method is proved equal to a specification function. The properties are lemmas about those functions. The network is modelled as parameters:

- a finite item catalog with a server page cap and a reported total;
- a tag endpoint answering each `StartIndex`;
- `send` and `fetch` functions for single requests;
- an `update` function for the apply route.

Clocks and environment variables are parameters too.

## Model

| member | source | states |
|---|---|---|
| Connection.NormalizedBase | jellyfin_tag_ui/services/jellyfin.py:13-14 | the result is the stripped text up to a final run of slashes and never ends in `/` |
| Connection.NormalizedBaseFalsy | jellyfin_tag_ui/services/jellyfin.py:13-14 | None, "" and other falsy values normalise to "" |
| Connection.NormalizedBaseIdempotent | jellyfin_tag_ui/services/jellyfin.py:13-14 | normalising twice changes nothing when the result does not end in whitespace |
| Connection.Prefer | jellyfin_tag_ui/services/jellyfin.py:22-27 | the request value when non-blank, else the environment value |
| Connection.ResolveConfig | jellyfin_tag_ui/services/jellyfin.py:17-28 | the base is the request's normalised base when non-empty, else the environment's, and is empty iff both are; the same for the stripped key; the base never ends in `/` and the key is stripped |
| Connection.ResolveConfigPriority | jellyfin_tag_ui/services/jellyfin.py:17-28 | a non-blank request base or key is used whatever the environment holds; the environment is used exactly when the request value is blank |
| Connection.ValidateBase | jellyfin_tag_ui/services/jellyfin.py:31-43 | Ok with the normalised base exactly when it is non-empty, else the 400 "Jellyfin base URL is required" |
| Json.IntOf | jellyfin_tag_ui/services/tags.py:81-84 | `int(value)`: an int reads as itself; None, lists and objects are the TypeError case |
| Json.ReprQuote | jellyfin_tag_ui/services/tags.py:45 | `str()` of a list quotes a string element with `"` iff it holds a `'` and no `"`, else with `'` |
| Json.ReprChar | jellyfin_tag_ui/services/tags.py:45 | inside the quotes an escape starts with a backslash and only an escape does; a printable character other than the quote and the backslash stands for itself |
| Json.StrRepr | jellyfin_tag_ui/services/tags.py:45 | a string's `repr()` is at least two longer than the string and begins and ends with the chosen quote |
| Json.ReprPlain | jellyfin_tag_ui/services/tags.py:45 | a printable string without the quote or a backslash is copied unchanged between the quotes |
| Json.ApostropheRepr | jellyfin_tag_ui/services/tags.py:45 | `repr("it's")` is `"it's"`, quoted with `"` because the text holds `'` and no `"` |
| Json.ReprOfApostrophe | jellyfin_tag_ui/services/tags.py:45 | `str(["it's"])` is `["it's"]` |
| Client.JfHeaders | jellyfin_tag_ui/jellyfin_client.py:15-16 | exactly one header, `X-Emby-Token`, holding the key |
| Client.Detail | jellyfin_tag_ui/jellyfin_client.py:31-37 | a candidate detail is the prefix followed by non-empty stripped text |
| Client.Present | jellyfin_tag_ui/jellyfin_client.py:31-41 | the present candidates are exactly the `Some` values, in order |
| Client.PresentAppend | jellyfin_tag_ui/jellyfin_client.py:31-41 | the present candidates of two runs of `add_detail` calls are those of the first run followed by those of the second; a None adds nothing and a value adds itself |
| Client.AddDetail | jellyfin_tag_ui/jellyfin_client.py:31-41 | one `add_detail` call extends `details` and `seen` exactly as the dedup scan of the candidates so far |
| Client.AddStatusDetails | jellyfin_tag_ui/jellyfin_client.py:50-57 | the `ResponseStatus` branch (object, other truthy value, falsy) extends the scan by its candidates |
| Client.ExtractErrorDetails | jellyfin_tag_ui/jellyfin_client.py:19-59 | the imperative `_extract_error_details` returns `ErrorDetailsOf` |
| Client.ErrorDetailsOf | jellyfin_tag_ui/jellyfin_client.py:20-26 | "" when the body is not JSON or not an object |
| Client.DedupPresent | jellyfin_tag_ui/jellyfin_client.py:38-41 | dropping exact repeats keeps each present candidate exactly once and nothing else, and keeps the first one first |
| Client.DetailListSpec | jellyfin_tag_ui/jellyfin_client.py:43-59 | the details are exactly the present candidates, each once, in the order of their first appearance: the details of every prefix of the `add_detail` calls begin the list; a non-blank Message comes first |
| Client.StatusMessage | jellyfin_tag_ui/jellyfin_client.py:74-80 | the status line is never empty |
| Client.ComposeSpec | jellyfin_tag_ui/jellyfin_client.py:70-83 | with details the message is a non-empty head, " - ", then the details |
| Client.FormatHttpErrorSpec | jellyfin_tag_ui/jellyfin_client.py:62-83 | never empty; the base text or "HTTP request failed" without a response or details; else base (or status line) " - " details |
| Client.FormatHttpError | jellyfin_tag_ui/jellyfin_client.py:62-83 | never empty; without a response the stripped error text, or "HTTP request failed" when blank; a non-blank error text always begins the message |
| Client.IsUnsupportedMethodError | jellyfin_tag_ui/jellyfin_client.py:166-170 | false without a response; with one, true iff its status is 405 or 501 |
| Client.ParseJsonResponse | jellyfin_tag_ui/jellyfin_client.py:115-123 | {} unless the body is non-empty and the lower-cased content type starts with `application/json`; then the decoded body, or an error when it is not JSON |
| Client.PutWithFallback | jellyfin_tag_ui/jellyfin_client.py:166-188 | one PUT; exactly one POST with the same URL, headers and payload iff the PUT failed with 405 or 501, and then its outcome is the result; otherwise the PUT's outcome |
| Text.Strip | jellyfin_tag_ui/services/tags.py:57 | `str.strip()` leaves no whitespace at either end and adds nothing |
| Text.SplitJoin | jellyfin_tag_ui/services/tags.py:46 | splitting on a separator inverts joining with it when no part contains it |
| Text.JoinSplit | jellyfin_tag_ui/services/tags.py:46 | joining the pieces of any split with the separator gives back the text |
| Text.ParseInt | jellyfin_tag_ui/routes/items.py:28-45 | `int(text)` succeeds iff the stripped text is an optional `+` or `-` followed by one or more digits; then the value is the digits' value, negated after `-` |
| Text.ParseIntRoundTrip | jellyfin_tag_ui/routes/items.py:28-45 | `int(str(n))` is `n` for every integer, also with surrounding whitespace and, for `n >= 0`, a leading `+` |
| Dedup.FirstByKeyKeys | jellyfin_tag_ui/services/tags.py:54-64 | the seen-set scan keeps only input elements and represents every key of the input |
| Dedup.FirstByKeyDistinct | jellyfin_tag_ui/services/tags.py:60-63 | no two kept elements share a key |
| Dedup.FirstOfKeyKept | jellyfin_tag_ui/services/tags.py:60-64 | the first element of each key is kept |
| Dedup.KeptAreFirsts | jellyfin_tag_ui/services/tags.py:60-64 | every kept element is the first of its key |
| Dedup.FirstByKeyPrefix | jellyfin_tag_ui/services/tags.py:66-73 | scanning a prefix yields a prefix of the result |
| Ordering.SortBy | jellyfin_tag_ui/services/tags.py:95 | `sorted` by a tuple key returns an ordered permutation |
| Ordering.InsertWithKey | jellyfin_tag_ui/services/tags.py:95 | inserting an element into a sorted list places it after every element with the same key |
| Ordering.SortByStable | jellyfin_tag_ui/services/tags.py:95 | `sorted` is stable: for every key, the elements with that key come out in their input order |
| Ordering.ReverseSorted | jellyfin_tag_ui/services/items.py:161-164 | a sorted list reversed is sorted the other way |
| TagNames.CleanOne | jellyfin_tag_ui/services/tags.py:55-59 | a name contributes at most one stripped, non-empty tag |
| TagNames.CleanedCovers | jellyfin_tag_ui/services/tags.py:55-64 | every non-blank string name survives cleaning, stripped |
| TagNames.AddName | jellyfin_tag_ui/services/tags.py:54-64 | `_add` appends the stripped name exactly when it is non-blank and its casefold key is unseen, keeping `seen` the keys of `names` |
| TagNames.ScanStep | jellyfin_tag_ui/services/tags.py:54-64 | one more name extends the dedup scan exactly as `_add` does |
| TagNames.AddAll | jellyfin_tag_ui/services/tags.py:66-73 | one pass over a tag source keeps the result equal to the scan of all names so far |
| TagNames.ItemTags | jellyfin_tag_ui/services/tags.py:50-75 | the three loops of `item_tags` compute `ItemTagsOf` |
| TagNames.ItemTagsClean | jellyfin_tag_ui/services/tags.py:50-75 | every tag is stripped and non-empty; no two are equal ignoring case |
| TagNames.ItemTagsCover | jellyfin_tag_ui/services/tags.py:50-75 | every non-blank string name of any source has a tag equal to it ignoring case |
| TagNames.ItemTagsFirstSeen | jellyfin_tag_ui/services/tags.py:60-64 | the tags are exactly the cleaned names that no earlier cleaned name matches ignoring case |
| TagNames.ItemTagsSourceOrder | jellyfin_tag_ui/services/tags.py:66-73 | tags from `TagItems` come first, then those first seen in `Tags`, then `InheritedTags` |
| TagNames.TagItemNames | jellyfin_tag_ui/services/tags.py:66-67 | the names of `TagItems` entries, one per entry |
| TagNames.TagItemNamesSpec | jellyfin_tag_ui/services/tags.py:66-67 | walking `TagItems` raises iff some entry is truthy and not an object; otherwise an entry yields a name iff it holds a string `Name` |
| TagNames.TagSourcesOfLists | jellyfin_tag_ui/services/tags.py:66-73 | lists of objects and strings always decode, and the `Tags` names are the list's strings |
| TagNames.SplitPieces | jellyfin_tag_ui/services/tags.py:46 | no piece of a filter string contains `,` or `;` |
| TagNames.SplitPiecesSpec | jellyfin_tag_ui/services/tags.py:46 | the pieces are the text split on `,` after every `;` reads as `,`, so joining them with `,` gives that text back |
| TagNames.NonBlank | jellyfin_tag_ui/services/tags.py:46-47 | the result holds exactly the stripped non-empty pieces |
| TagNames.NormalizeTags | jellyfin_tag_ui/services/tags.py:43-45 | a falsy value gives [] |
| TagNames.DistinctSorted | jellyfin_tag_ui/services/tags.py:47 | dedup then sort keeps each tag once, loses none, and orders by lower case |
| TagNames.NormalizeTagsSpec | jellyfin_tag_ui/services/tags.py:43-47 | for any truthy value, exactly the stripped non-empty pieces of `str(value)` split on `,` and `;`, each once (exact duplicates only), sorted by lower case, none containing a separator |
| TagCounts.AddCount | jellyfin_tag_ui/services/tags.py:119-129 | adding counts `count` under the casefold key of the trimmed name, and nothing for a blank name or a count <= 0 |
| TagCounts.AddValid | jellyfin_tag_ui/services/tags.py:119-129 | adding keeps the tally valid and never changes a canonical name once set |
| TagCounts.AddCanonical | jellyfin_tag_ui/services/tags.py:128 | the first spelling wins: the key's canonical name is the one it had, else this trimmed name |
| TagCounts.BumpValid | jellyfin_tag_ui/services/tags.py:129 | `counts[key] += c` keeps the tally valid |
| TagCounts.SetDefaultValid | jellyfin_tag_ui/services/tags.py:128 | `setdefault` with a clean spelling keeps the tally valid and keeps existing names |
| TagCounts.BumpAllCount | jellyfin_tag_ui/services/tags.py:111-114 | the first merge loop adds each positive count under its key |
| TagCounts.BumpAllValid | jellyfin_tag_ui/services/tags.py:111-114 | the first merge loop keeps the tally valid |
| TagCounts.MergeCount | jellyfin_tag_ui/services/tags.py:105-116 | merging adds each positive count of `b` to `a`'s count for the key and ignores the others |
| TagCounts.MergeValid | jellyfin_tag_ui/services/tags.py:105-116 | merging keeps the tally valid; `a`'s names never change and `b`'s fill only missing keys |
| TagCounts.SetDefaultsLoop | jellyfin_tag_ui/services/tags.py:115-116 | the `setdefault` loop computes `SetDefaults` |
| TagCounts.TagTally.constructor | jellyfin_tag_ui/services/tags.py:135-136 | a fresh empty counter and dict |
| TagCounts.TagTally.AddTagCount | jellyfin_tag_ui/services/tags.py:119-129 | `_add_tag_count` on the counter and dict in place leaves them as `Add` says |
| TagCounts.TagTally.Record | jellyfin_tag_ui/services/tags.py:128-129 | the two in-place updates of `_add_tag_count` |
| TagCounts.TagTally.MergeTagCounts | jellyfin_tag_ui/services/tags.py:105-116 | `_merge_tag_counts` in place leaves the tally as `Merge` says |
| TagCounts.TagTally.BumpCounts | jellyfin_tag_ui/services/tags.py:111-114 | the first merge loop in place |
| TagCounts.TagTally.DefaultNames | jellyfin_tag_ui/services/tags.py:115-116 | the second merge loop in place |
| TagCounts.NormalizedCount | jellyfin_tag_ui/services/tags.py:78-85 | None exactly when `int(value)` fails or the value is None; else the count floored at 0 |
| TagCounts.EntryCountSpec | jellyfin_tag_ui/services/tags.py:141-151 | the count is `ItemCount` when present and valid, else `Count` when present and valid, else 1 |
| TagCounts.EntryCountOf | jellyfin_tag_ui/services/tags.py:141-146 | the inner field loop with its `break` computes `EntryCount` |
| TagCounts.FromEntriesSpec | jellyfin_tag_ui/services/tags.py:132-153 | the page tally is valid and counts under each key the sum of the counts of entries with a non-empty string name folding to it |
| TagCounts.TagCountsFromEndpointItems | jellyfin_tag_ui/services/tags.py:132-153 | the loop fills a fresh tally equal to `FromEntries` |
| TagCounts.CountEntry | jellyfin_tag_ui/services/tags.py:137-152 | one entry skips a name that is not a non-empty string, else adds its count |
| TagCounts.RankKeyOrder | jellyfin_tag_ui/services/tags.py:95 | the sort key orders by descending count, then casefold name, then literal name |
| TagCounts.SortedTagNames | jellyfin_tag_ui/services/tags.py:88-102 | one name per counted key: a rearrangement of the canonical names (or keys) of the counted keys |
| TagCounts.SortedTagNamesSpec | jellyfin_tag_ui/services/tags.py:88-102 | the sorted names are a permutation of the canonical names (or keys) of the counted keys, ranked by the rule above |
| TagPagination.PageEntries | jellyfin_tag_ui/services/tags.py:172-174 | a missing `Items` reads as no entries; a bad one fails with the payload or entry error |
| TagPagination.ObjectFieldsSpec | jellyfin_tag_ui/services/tags.py:176-183 | a list is read exactly when all its elements are objects, as their fields in order |
| TagPagination.ReadReply | jellyfin_tag_ui/services/tags.py:171-205 | a reply's items, signature, page tally and total as the loop reads them |
| TagPagination.StepAt | jellyfin_tag_ui/services/tags.py:171-209 | a read error fails the loop with it; the loop continues only below the page cap, after a full page whose signature is new, at the offset plus the page length |
| TagPagination.StepGo | jellyfin_tag_ui/services/tags.py:184-209 | a request leads to another iff its page has at least `TAG_PAGE_LIMIT` items, ends below the reported total, has a new signature and stays below the page cap; the next offset is the old one plus the page length |
| TagPagination.StepStop | jellyfin_tag_ui/services/tags.py:172-209 | which error or normal end a stopping request has, and that a normal end counts the page iff it is non-empty |
| TagPagination.CollectPage | jellyfin_tag_ui/services/tags.py:168-209 | one loop pass merges the page into the tally in place and decides stop, error or next offset as `StepAt` says |
| TagPagination.CollectPaginatedTags | jellyfin_tag_ui/services/tags.py:156-211 | the `while True` loop makes the run `CollectPaginatedTagsOf` describes: the same requests, error and tally |
| TagPagination.CollectChain | jellyfin_tag_ui/services/tags.py:196-209 | at most the page cap many requests, each after a page that continues, at the previous offset plus its length |
| TagPagination.CollectSignatures | jellyfin_tag_ui/services/tags.py:184-186 | no page but the last repeats the previous page's signature |
| TagPagination.CollectTally | jellyfin_tag_ui/services/tags.py:167-211 | a run that ends normally returns a valid tally counting under each key its previous count plus the positive count of every non-empty page requested |
| TagPagination.CollectPaginatedTally | jellyfin_tag_ui/services/tags.py:156-211 | from the endpoint, the returned counter is valid and counts under each key the sum of the page counts of every page requested |
| TagPagination.CollectTail | jellyfin_tag_ui/services/tags.py:167-209 | the last request's step ends the loop with the run's outcome |
| TagPagination.CollectEnds | jellyfin_tag_ui/services/tags.py:172-209 | the run ends with a read error, a repeated signature (iff the last two signatures are equal), the page cap after `MAX_TAG_PAGES` requests, or normally on an empty page, a short page or the reported total |
| TagPagination.CollectPaginatedTagsRequests | jellyfin_tag_ui/services/tags.py:161-209 | requests start at 0, number at most `MAX_TAG_PAGES`, and each follows a page that continues at the offset where it ended |
| TagPagination.CountItemTags | jellyfin_tag_ui/services/tags.py:249-250 | counts 1 for each tag of one item, in place |
| TagPagination.CountItems | jellyfin_tag_ui/services/tags.py:248-250 | counts 1 for each tag of each item, in place |
| TagPagination.AggregateTagsFromItems | jellyfin_tag_ui/services/tags.py:214-264 | the walk is the adaptive scan, `total_processed` is the number of items received, and the tally counts each tag of each received item |
| TagPagination.AddNamesCount | jellyfin_tag_ui/services/tags.py:248-250 | one item adds exactly 1 under each of its tag keys |
| TagPagination.AggregateCount | jellyfin_tag_ui/services/tags.py:248-250 | the aggregate is valid and counts under each key the number of items carrying it |
| Scan.ReportedTotal | jellyfin_tag_ui/routes/items.py:115-119 | the total the walk believes: an int as itself, a boolean as 1 or 0 (Python's `bool` is an `int`), anything else as absent |
| Scan.Page | jellyfin_tag_ui/routes/items.py:84-98 | the server answers a run of consecutive catalog items from the offset, at most the requested size and its own cap |
| Scan.Next | jellyfin_tag_ui/routes/items.py:113-125 | after a non-empty page the offset advances by its length; the loop stops iff the page is short and the total is unknown or reached |
| Scan.AdaptiveScan | jellyfin_tag_ui/routes/items.py:83-125 | the loop records every request and appends every received item, as `WalkFrom` says |
| Scan.WalkLength | jellyfin_tag_ui/services/tags.py:246-251 | the last page ends as many items after the first offset as were received |
| Scan.WalkIsSlice | jellyfin_tag_ui/routes/items.py:113-114 | the received items are one contiguous run of the catalog from the first offset |
| Scan.WalkChain | jellyfin_tag_ui/routes/items.py:113-123 | each request starts where the previous page ended; the size shrinks to a short page's length exactly while the total says more exist |
| Scan.WalkStops | jellyfin_tag_ui/routes/items.py:99-125 | the walk stops on an empty page, or a short page once the total is reached or unknown |
| Scan.WalkComplete | jellyfin_tag_ui/routes/items.py:83-125 | with a true total, or no server cap below the size, the walk receives every item from the first offset |
| Scan.ServerCapExample | jellyfin_tag_ui/routes/items.py:116-123 | a server capping pages at 50 and reporting 120 items is walked as (0,100), (50,50), (100,50) and yields all 120 |
| Scan.UnderreportedTotalExample | jellyfin_tag_ui/routes/items.py:116-125 | a full page past an under-reported total keeps the walk going until a short page |
| TagUpdate.IsEmptyValue | jellyfin_tag_ui/services/tags.py:18-25 | emptiness differs from falsiness only on numbers, booleans (never empty) and blank strings (empty but truthy) |
| TagUpdate.PayloadFromSpec | jellyfin_tag_ui/services/tags.py:28-40 | the payload holds exactly the listed fields other than `Tags` whose value is a truthy `Id` or non-empty, each unchanged |
| TagUpdate.CopyFields | jellyfin_tag_ui/services/tags.py:29-40 | the loop computes `PayloadFrom` |
| TagUpdate.FilteredUpdatePayload | jellyfin_tag_ui/services/tags.py:28-40 | the copy runs over `UPDATE_FIELDS` |
| TagUpdate.Without | jellyfin_tag_ui/services/tags.py:363 | removing a key keeps the other keys in order |
| TagUpdate.LastWithKey | jellyfin_tag_ui/services/tags.py:357-363 | the last non-empty tag with a lower-case key, or None when no tag has it |
| TagUpdate.PutValid | jellyfin_tag_ui/services/tags.py:359 | `merged[tag.lower()] = tag` keeps the dict well formed and changes only that key |
| TagUpdate.PopValid | jellyfin_tag_ui/services/tags.py:363 | `merged.pop(tag.lower(), None)` keeps the dict well formed and removes only that key |
| TagUpdate.PutAllSpec | jellyfin_tag_ui/services/tags.py:357-359 | after storing a list, a key holds the last tag with it, or what it held before |
| TagUpdate.PopAllSpec | jellyfin_tag_ui/services/tags.py:361-363 | after removals, a key is gone iff some removal names it |
| TagUpdate.MergedSpec | jellyfin_tag_ui/services/tags.py:352-363 | under each key no removal names: the last added spelling, else the last existing one |
| TagUpdate.ValuesSpec | jellyfin_tag_ui/services/tags.py:365 | the values are the tags their own key looks up, no two sharing a key |
| TagUpdate.FinalTagsSpec | jellyfin_tag_ui/services/tags.py:352-365 | the final tags are exactly the chosen spellings of the unremoved keys, one per key, in strictly increasing lower-case order |
| TagUpdate.MergeTags | jellyfin_tag_ui/services/tags.py:352-365 | the merge loops and the sort compute `FinalTags` |
| TagUpdate.UpdatePayloadSpec | jellyfin_tag_ui/services/tags.py:367-369 | the payload carries the final tags, the item's truthy `Id` or else the requested id, and exactly the kept update fields unchanged |
| TagUpdate.UpdateTags | jellyfin_tag_ui/services/tags.py:334-371 | no id raises before any request; a failed fetch or an unreadable item sends nothing and fails as such; a readable item's merged payload is sent to its update endpoint by PUT with the POST fallback on 405 or 501, the calls are exactly those, and the outcome is the final tags on success or the request's failure |
| Items.KnownType | jellyfin_tag_ui/services/items.py:12-34 | the known name with a lower-case key, or None when no known name has it |
| Items.Candidates | jellyfin_tag_ui/services/items.py:44-59 | every candidate is stripped and non-empty; a string's candidates hold no comma |
| Items.CommaCandidates | jellyfin_tag_ui/services/items.py:45-50 | a string yields its stripped non-blank comma-separated parts |
| Items.KeepFirstCanonical | jellyfin_tag_ui/services/items.py:61-68 | the `seen` loop keeps the first canonical name of each casefold key |
| Items.NormalizeItemTypes | jellyfin_tag_ui/services/items.py:37-70 | `normalize_item_types` computes `NormalizedItemTypes` |
| Items.NormalizedItemTypesSpec | jellyfin_tag_ui/services/items.py:37-70 | [] for None; every result is the canonical form of a candidate, every candidate is represented ignoring case, no two results equal ignoring case |
| Items.SortParams | jellyfin_tag_ui/services/items.py:73-93 | the field is sortable (given or `SortName`), the order is a valid order, and it is `Descending` iff the text is desc or descending in any case |
| Items.NormalizeSortParams | jellyfin_tag_ui/services/items.py:73-93 | from JSON values: the stripped field when sortable, else `SortName`; `Descending` iff the stripped order is desc or descending in any case, else `Ascending` |
| Items.SortParamsIdempotent | jellyfin_tag_ui/services/items.py:73-93 | normalised parameters normalise to themselves |
| Items.NormalizeSortParamsIdempotent | jellyfin_tag_ui/services/items.py:73-93 | the same, from JSON values |
| Items.SortItemsForResponse | jellyfin_tag_ui/services/items.py:139-164 | the response order is a permutation of the items |
| Items.SortItems | jellyfin_tag_ui/services/items.py:139-164 | the order for a normalised field and direction is a permutation of the items |
| Items.NameKey | jellyfin_tag_ui/services/items.py:96-100 | three text parts: a truthy `SortName` casefolded, else the same as the second part, the casefold truthy `Name`; then the truthy `Id` |
| Items.SortByNameSpec | jellyfin_tag_ui/services/items.py:96-100 | by name: ascending by (casefold sort name or name, casefold name, id); descending is exactly that order reversed |
| Items.PremiereKeyLe | jellyfin_tag_ui/services/items.py:148-157 | comparing premiere keys: undated after dated, timestamps by direction, name key on ties |
| Items.SortByPremiereSpec | jellyfin_tag_ui/services/items.py:145-159 | by premiere date: undated items last in both directions, dated by timestamp (falling when descending), ties by the ascending name key |
| Items.NoFiltersMatch | jellyfin_tag_ui/services/items.py:173-192 | without include keys, exclude keys or query every item matches |
| Items.TagFilter | jellyfin_tag_ui/services/items.py:173-177 | passes iff every include key is a casefold tag and no casefold tag is an exclude key |
| Items.TitleCandidatesOf | jellyfin_tag_ui/services/items.py:179-187 | the loop collects the present, non-blank `Name` and `SortName` |
| Items.AnyContains | jellyfin_tag_ui/services/items.py:188-190 | true iff the query occurs in some candidate's casefold form |
| Items.TitleFilter | jellyfin_tag_ui/services/items.py:178-191 | the title test passes iff the query is empty or found |
| Items.ItemMatchesFilters | jellyfin_tag_ui/services/items.py:167-192 | a result iff the item's tags can be read, and then it holds iff both the tag test and the title test pass |
| Items.Serialized | jellyfin_tag_ui/services/items.py:195-207 | the eight response fields; `SortName` falls back to `Name` when falsy; `Tags` are the item's tags |
| Items.PageItemsRequest | jellyfin_tag_ui/services/items.py:210-247 | user-scoped path iff a user id; `Fields` the comma-joined field list; `IncludeItemTypes` iff normalised types, comma-joined; `SearchTerm` iff the stripped term is non-empty; `ExcludeItemTypes` iff non-empty, comma-joined; `SortBy` and `SortOrder` together iff either was given, holding `normalize_sort_params` of the two |
| ItemRoutes.SanitizeStartIndex | jellyfin_tag_ui/routes/items.py:28-33 | the parsed offset when not negative, 0 when negative or unparsable |
| ItemRoutes.SanitizeLimit | jellyfin_tag_ui/routes/items.py:36-45 | always in [0, 100]; 100 when unparsable; the value itself when within range |
| ItemRoutes.SanitizeIdempotent | jellyfin_tag_ui/routes/items.py:28-45 | sanitised values sanitise to themselves |
| ItemRoutes.IdText | jellyfin_tag_ui/routes/items.py:137-138 | user and library ids are stripped |
| ItemRoutes.Validate | jellyfin_tag_ui/routes/items.py:133-175 | checks the base, then the user id, then the library id; the first failure decides the 400 answer, else the target |
| ItemRoutes.ValidatedTarget | jellyfin_tag_ui/routes/items.py:133-175 | an accepted request names a slash-free non-empty base and non-empty stripped ids; a rejected one gets one of the three 400s |
| ItemRoutes.QueryOf | jellyfin_tag_ui/routes/items.py:139-152 | excluded types are the collection types iff `excludeCollections` is truthy; the title query is stripped; the sort is normalised |
| ItemRoutes.PageRequests | jellyfin_tag_ui/routes/items.py:84-97 | one request per walk step, in order |
| ItemRoutes.PageRequestOfSpec | jellyfin_tag_ui/routes/items.py:84-97 | each request is user-scoped with the step's offset and size, searches iff the title query is non-blank, and carries the normalised sort |
| ItemRoutes.Contribution | jellyfin_tag_ui/routes/items.py:102-111 | an item adds its serialised form when kept, nothing when excluded or filtered out, and fails when its tags cannot be read |
| ItemRoutes.CollectedAppend | jellyfin_tag_ui/routes/items.py:107-111 | matches of consecutive pages concatenate: no early exit |
| ItemRoutes.CollectedFailure | jellyfin_tag_ui/routes/items.py:107-111 | collection fails iff some non-excluded item's tags cannot be read |
| ItemRoutes.CollectedLength | jellyfin_tag_ui/routes/items.py:107-111 | at most one match per received item |
| ItemRoutes.CollectedSound | jellyfin_tag_ui/routes/items.py:102-111 | every match is the serialised form of a kept item |
| ItemRoutes.CollectedComplete | jellyfin_tag_ui/routes/items.py:102-111 | every kept item's serialised form is among the matches |
| ItemRoutes.CollectedExcludesTypes | jellyfin_tag_ui/routes/items.py:103-105 | no match has an excluded `Type` |
| ItemRoutes.CollectedFails | jellyfin_tag_ui/routes/items.py:107-111 | failing on a prefix fails on the whole |
| ItemRoutes.Contribute | jellyfin_tag_ui/routes/items.py:103-111 | the loop body computes `Contribution` |
| ItemRoutes.CollectMatches | jellyfin_tag_ui/routes/items.py:107-111 | the matching loop computes `Collected` |
| ItemRoutes.FirstFetch | jellyfin_tag_ui/routes/items.py:80 | the first size is the limit when positive, else 100 |
| ItemRoutes.FilterAndCollect | jellyfin_tag_ui/routes/items.py:63-127 | the requests sent are the walk's steps, and the matches are those of everything received |
| ItemRoutes.Window | jellyfin_tag_ui/routes/items.py:195-199 | `s[start:start+limit]` for a positive limit, [] otherwise |
| ItemRoutes.ItemsAnswer | jellyfin_tag_ui/routes/items.py:192-217 | both totals count all matches; the items are the window of the sorted matches; the returned count is its length, at most the limit |
| ItemRoutes.ResortNormalized | jellyfin_tag_ui/routes/items.py:194 | re-normalising normalised sort parameters sorts as they say |
| ItemRoutes.ApiItems | jellyfin_tag_ui/routes/items.py:131-217 | a rejected body sends no request and gets its 400; otherwise the walk from the sanitised size and the answer window, or a failure on an unreadable item |
| ItemRoutes.TagListOfStrings | jellyfin_tag_ui/routes/items.py:328 | reading back a serialised tag list gives the stored tags |
| ItemRoutes.RowOf | jellyfin_tag_ui/routes/items.py:323-331 | the `id`, `type`, `name` and `path` cells are the item's fields, "" when missing; the tags cell is empty for an item without tags |
| ItemRoutes.Rows | jellyfin_tag_ui/routes/items.py:322-331 | one row per item, in order |
| ItemRoutes.ExportRowTags | jellyfin_tag_ui/routes/items.py:328 | the tags cell lists the item's tags sorted by lower case, joined by `;` so that splitting gives them back |
| ItemRoutes.ApiExport | jellyfin_tag_ui/routes/items.py:221-331 | the same validation and walk from size 500, then one row per match in response order |
| ItemsCache.Without | jellyfin_tag_ui/services/items_cache.py:100 | taking a key out of the order keeps the others |
| ItemsCache.Lookup | jellyfin_tag_ui/services/items_cache.py:94-104 | a value iff the key has an unexpired entry, returned as stored with the entries unchanged; an expired key is dropped; a miss changes nothing |
| ItemsCache.LookupSpec | jellyfin_tag_ui/services/items_cache.py:94-104 | an entry is returned iff the key has one that has not expired, unchanged; expired entries are removed; a hit moves only its key to the newest position; a miss changes nothing |
| ItemsCache.Evicted | jellyfin_tag_ui/services/items_cache.py:85-87 | the kept order is the suffix of the old one of length min(size, bound), so the whole of it when within the bound already; an entry is kept iff its key is, with its value |
| ItemsCache.EvictedSpec | jellyfin_tag_ui/services/items_cache.py:85-87 | eviction keeps the cache well formed and keeps exactly the newest min(size, bound) keys, dropping only the oldest |
| ItemsCache.EvictedWithinBound | jellyfin_tag_ui/services/items_cache.py:85-87 | a cache within its bound is not changed |
| ItemsCache.EvictedKeepsNewest | jellyfin_tag_ui/services/items_cache.py:85-87 | with a positive bound, eviction keeps the newest key and its entry |
| ItemsCache.NewestSuffix | jellyfin_tag_ui/services/items_cache.py:85-87 | popping the oldest keys while over the bound, and no further, leaves exactly the newest keys within the bound |
| ItemsCache.EvictStep | jellyfin_tag_ui/services/items_cache.py:86-87 | one `popitem(last=False)` drops the oldest key and only its entry |
| ItemsCache.Store | jellyfin_tag_ui/services/items_cache.py:107-113 | the order becomes the newest min(size, bound) keys of the old order with the key moved to the end; with a positive bound the key is newest and maps to the value stored now; other keys keep their entries |
| ItemsCache.StoreSpec | jellyfin_tag_ui/services/items_cache.py:107-113 | after a write the cache is well formed, and the keys kept are exactly the newest min(size, bound) of the old order with the key moved to the end |
| ItemsCache.StoreEntries | jellyfin_tag_ui/services/items_cache.py:107-113 | after a write with a positive bound the written key is newest and holds the new entry; every other surviving key keeps its old entry |
| ItemsCache.StoreThenLookup | jellyfin_tag_ui/services/items_cache.py:94-113 | a value just written is read back until its time to live has passed |
| ItemsCache.LruCache.constructor | jellyfin_tag_ui/services/items_cache.py:44 | an empty ordered map with its bound and time to live |
| ItemsCache.LruCache.Get | jellyfin_tag_ui/services/items_cache.py:94-104 | a read in place leaves the cache and returns the entry as `Lookup` says |
| ItemsCache.LruCache.Set | jellyfin_tag_ui/services/items_cache.py:107-113 | a write in place leaves the cache as `Store` says |
| ItemsCache.LruCache.EvictIfNeeded | jellyfin_tag_ui/services/items_cache.py:85-87 | the `popitem(last=False)` loop leaves the cache as `Evicted` says |
| ItemsCache.PrefetchEntryOf | jellyfin_tag_ui/services/items_cache.py:136-144 | a prefix of the matches no longer than the limit; truncated iff fewer are kept than the total; total and completeness as given |
| ItemsCache.PrefetchTruncatedExactly | jellyfin_tag_ui/services/items_cache.py:136-137 | with the true total, truncated iff there were more matches than the limit |
| ItemsCache.ItemCaches.constructor | jellyfin_tag_ui/services/items_cache.py:44-73 | two empty caches with their own bounds and times to live |
| ItemsCache.ItemCaches.GetCachedResponse | jellyfin_tag_ui/services/items_cache.py:94-104 | the query cache read; the prefetch cache is unchanged |
| ItemsCache.ItemCaches.SetCachedResponse | jellyfin_tag_ui/services/items_cache.py:107-113 | the query cache write; the prefetch cache is unchanged |
| ItemsCache.ItemCaches.GetPrefetchCacheEntry | jellyfin_tag_ui/services/items_cache.py:116-127 | the prefetch cache read; the query cache is unchanged |
| ItemsCache.ItemCaches.SetPrefetchCacheEntry | jellyfin_tag_ui/services/items_cache.py:130-148 | stores the truncated entry in the prefetch cache; the query cache is unchanged |
| Apply.TruthyOnly | jellyfin_tag_ui/routes/apply.py:43-44 | exactly the truthy values, in order |
| Apply.TruthyOnlyKeepsTruthy | jellyfin_tag_ui/routes/apply.py:43-44 | filtering keeps a list of truthy values as it is |
| Apply.Chars | jellyfin_tag_ui/routes/apply.py:43-44 | iterating a string gives its one-character strings |
| Apply.Elements | jellyfin_tag_ui/routes/apply.py:43-44 | a list walks its elements and a string its characters; other truthy values are not walked |
| Apply.ChangeOutcome | jellyfin_tag_ui/routes/apply.py:41-84 | a result with the change's id; "Missing item id" and no call without a truthy id; nothing and no call with nothing to change; else exactly one update with the filtered lists, whose outcome gives the lists and tags or one error text |
| Apply.ApplyAll | jellyfin_tag_ui/routes/apply.py:41-84 | one result per change when no turn raises |
| Apply.ApplyAllSpec | jellyfin_tag_ui/routes/apply.py:40-86 | the loop succeeds iff every turn does; then the results are the turns' results in order and the calls are the turns' calls in order |
| Apply.ApplyChangesSpec | jellyfin_tag_ui/routes/apply.py:40-86 | one result per change in input order, each its change's outcome; every call comes from one change |
| Apply.ApplyAllCallsFrom | jellyfin_tag_ui/routes/apply.py:66-74 | every call the loop makes is the single call of one change |
| Apply.ApplyChanges | jellyfin_tag_ui/routes/apply.py:40-84 | the `for` loop computes `ApplyAll` |
| Apply.ApplyAllRaises | jellyfin_tag_ui/routes/apply.py:41-44 | once a turn raises, the loop raises after the calls made before it |
| Apply.ChangesOf | jellyfin_tag_ui/routes/apply.py:25 | a falsy `changes` walks nothing; a list walks its elements |
| Apply.ApiApply | jellyfin_tag_ui/routes/apply.py:20-86 | `len(changes)` may raise first; then a base error, then a falsy user id, each before any update; then the loop's results or the exception it raised |

## Left out

- Real HTTP is out: `requests.get`, `post` and `put` inside `jf_get`, `jf_post` and `jf_put`, and `_raise_for_status`. The network is an oracle: a catalog, a tag endpoint, or `send`/`fetch` functions.
- Locking is out: `_CACHE_LOCK` and all concurrency. Every operation is sequential.
- `time.time` is out. The clock is the `now` parameter.
- The `ITEM_*` cache settings are not defined in `config.py`, so they are constructor parameters. A negative bound or prefetch limit is excluded by using `nat`. A negative bound would make `popitem` raise on an empty dict; a negative limit would make the slice count from the end.
- Float timestamps are out. `tag_cache_version` is an `int`. `_parse_iso_datetime` and `_release_timestamp` use `datetime` and floats, so the release timestamp is a parameter `Item -> Option<int>` in whole seconds.
- `render_nfo` and the `.nfo` side file written by `jf_update_tags` are out (XML and filesystem). The model assumes that step never raises. In the source, a `ValueError` from `with_suffix`, an exception from `render_nfo` or an `OSError` from writing the file after a successful update turns that update into an error entry in `api_apply`, so `TagUpdate.UpdateTags` promises success exactly when the request succeeds.
- The CSV writer, `send_file`, Flask request parsing, `jsonify`, logging, templates, the app factory and `routes/tags.py` are out.
- The prefetch job manager and the tag-cache refresh are out. They are not part of this model's source.
- `Apply.ApiApply`: `jf_update_tags` is an oracle there. It is modelled on its own as `TagUpdate.UpdateTags`.
  - A non-HTTP exception is carried as its message text.
  - An object given as `add` or `remove` is treated as raising, because object key order is not represented.
- `ItemRoutes.ApiItems` and `ItemRoutes.ApiExport` process the items after the whole walk. Before an unreadable item, the source interleaves fetching and matching. After one, the source stops fetching at once, while the model still records the walk's later requests. The answers agree.
- `api_export`'s `total_processed` is only logged, so it is not modelled for export. For tag aggregation it is `TagPagination.AggregateTagsFromItems`'s `totalProcessed`.
- Several Python value semantics are narrowed:
  - `Text.Lower` models both `lower()` and `casefold()` as ASCII lower-casing.
  - Floats are not JSON values.
  - `str()` of an object renders by size only.
  - `repr()` of a string escapes only ASCII control characters. Python also escapes non-printable characters beyond ASCII (`\x..`, `\u....`, `\U........`); those stand for themselves here (`Json.ReprChar`).
  - `1 == True` equality in sets is not modelled.
  - An unhashable `Type` value is treated as not excluded, whereas the source would raise.
- In a tag field, an object or a number is treated as not walkable (None), whereas Python would iterate an object's keys or raise on a number.
- Payload and response key order is out. JSON objects are maps.
- `normalize_sort_params` keeps its unreachable `raw_order in SORT_ORDERS` branch. Any value it could take is already caught by the case-insensitive tests.
- `normalize_tags` orders pieces equal ignoring case by first occurrence. The source leaves that order to a set's iteration order, so `TagNames.NormalizeTagsSpec` does not state the order among such pieces.
- `Scan` models the server as a finite catalog whose reported total is the same in every reply. A page is a run of consecutive catalog items from the requested offset.
  - The reported total is an `Option<int>`. `Scan.ReportedTotal` maps a JSON total to it as `isinstance(total_count, int)` does: a boolean counts as 1 or 0, because Python's `bool` is a subclass of `int`; any other type counts as absent.
  - The source item loops (`routes/items.py:83-125`, `services/tags.py:232-262`) have no page cap and no repeated-page guard. A server that ignores `StartIndex` and keeps answering full pages makes them loop forever. The catalog model cannot express such a server, so that case is out.
  - Those loops call `.get` on each element of `Items`. An element that is not an object would raise `AttributeError`. The catalog holds objects only, so that error is out for items.
- Text.ParseInt: accepts ASCII digits only. Python's `int()` also accepts other Unicode decimal digits (`int("٤٢")` is 42) and `_` separators between digits; those strings are rejected here.
