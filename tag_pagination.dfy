/**
  The two remote loops that build a tag tally: `collect_paginated_tags`, which
  walks a tag-listing endpoint in pages of `TagPageLimit`, and
  `aggregate_tags_from_items`, which counts the tags of every item the adaptive
  item walk returns.

  The tag endpoint is an oracle from the requested `StartIndex` to the decoded
  JSON object it answers with (the other request parameters never change
  within one call).
 */
module TagPagination {
  import opened Wrappers
  import Json
  import Config
  import Dedup
  import Text
  import TagCounts
  import TagNames
  import Scan

  /**
    Why collection fails: the three `TagPaginationError`s, and an `Items` list
    holding something other than objects (where the source's `entry.get` raises
    AttributeError).
   */
  datatype PageError = UnexpectedPayload | RepeatedPage | TooManyPages | MalformedEntry

  type Entry = map<string, Json.Json>

  /** The `Items` of a reply, or the failure reading them causes. */
  datatype PageItems = Entries(entries: seq<Entry>) | Bad(error: PageError)

  /**
    `response.get("Items", [])` checked to be a sequence: a list of objects, or
    the empty string (a string is a sequence too, and a non-empty one fails on
    its first character's `.get`).
   */
  function PageEntries(response: Entry): (r: PageItems)
    ensures r.Bad? ==> r.error == UnexpectedPayload || r.error == MalformedEntry
    ensures "Items" !in response ==> r == Entries([])
  {
    if "Items" !in response then Entries([])
    else
      match response["Items"]
      case JArr(es) => if ObjectFields(es).Some? then Entries(ObjectFields(es).value) else Bad(MalformedEntry)
      case JStr(s) => if s == "" then Entries([]) else Bad(MalformedEntry)
      case _ => Bad(UnexpectedPayload)
  }

  /** The fields of each element of `es`, or None when one of them is not an object. */
  function ObjectFields(es: seq<Json.Json>): Option<seq<Entry>>
    decreases |es|
  {
    if es == [] then Some([])
    else
      match ObjectFields(es[..|es| - 1])
      case None => None
      case Some(front) =>
        if es[|es| - 1].JObj? then Some(front + [es[|es| - 1].fields]) else None
  }

  /** A list is read exactly when all its elements are objects, as their fields in order. */
  lemma {:induction false} ObjectFieldsSpec(es: seq<Json.Json>)
    ensures ObjectFields(es).Some? <==> forall i :: 0 <= i < |es| ==> es[i].JObj?
    ensures ObjectFields(es).Some? ==>
      |ObjectFields(es).value| == |es| && forall i :: 0 <= i < |es| ==> ObjectFields(es).value[i] == es[i].fields
    decreases |es|
  {
    if es != [] {
      var front := es[..|es| - 1];
      ObjectFieldsSpec(front);
      assert forall i :: 0 <= i < |front| ==> front[i] == es[i];
    }
  }

  type Signature = seq<(Json.Json, Option<nat>, Option<nat>)>

  /** The page signature: each entry's `Name` with its normalised `ItemCount` and `Count`. */
  function PageSignature(entries: seq<Entry>): Signature {
    seq(|entries|, i requires 0 <= i < |entries| =>
      (Json.Get(entries[i], "Name"),
       TagCounts.NormalizedCount(Json.Get(entries[i], "ItemCount")),
       TagCounts.NormalizedCount(Json.Get(entries[i], "Count"))))
  }

  /** The signature of the page served at `start`, when its items could be read. */
  function SignatureAt(read: nat -> Reply, start: nat): Option<Signature> {
    if read(start).page.Entries? then Some(read(start).signature) else None
  }

  /** `_normalized_count(response.get("TotalRecordCount") or response.get("TotalCount"))`. */
  function ReportedTotal(response: Entry): Option<nat> {
    TagCounts.NormalizedCount(Json.Or(Json.Get(response, "TotalRecordCount"), Json.Get(response, "TotalCount")))
  }

  /**
    What the loop reads from one reply: its items, their signature and their
    tally (both of no items when the items cannot be read), and the reported
    total.
   */
  datatype Reply = Reply(page: PageItems, total: Option<nat>, signature: Signature, counts: TagCounts.Tally)

  function ReadReply(response: Entry): (r: Reply)
    ensures r.page == PageEntries(response) && r.total == ReportedTotal(response)
    ensures r.page.Entries? ==>
      r.signature == PageSignature(r.page.entries) && r.counts == TagCounts.FromEntries(r.page.entries)
  {
    var page := PageEntries(response);
    var items := if page.Entries? then page.entries else [];
    Reply(page, ReportedTotal(response), PageSignature(items), TagCounts.FromEntries(items))
  }

  /** The endpoint as the loop reads it, offset by offset. */
  function Endpoint(fetch: nat -> Entry): (read: nat -> Reply)
    ensures forall start: nat {:trigger ReadReply(fetch(start))} :: read(start) == ReadReply(fetch(start))
  {
    (start: nat) => ReadReply(fetch(start))
  }

  datatype Outcome = Done(tally: TagCounts.Tally) | Failed(error: PageError)

  /**
    What one request leads to: a failure, the normal end of the loop (with the
    page just read counted or not), or the next request.
   */
  datatype Step = Fail(error: PageError) | Finish(counted: bool) | Go(next: nat, signature: Signature)

  /**
    One pass of the loop body for the request at `start`, with `pageNumber`
    non-empty pages already counted and the previous page's signature. The
    tally takes no part in the decision.
   */
  function StepAt(read: nat -> Reply, start: nat, pageNumber: nat, previous: Option<Signature>): (s: Step)
    ensures s.Go? ==> pageNumber + 1 < Config.MaxTagPages
    ensures s.Go? ==> read(start).page.Entries? && |read(start).page.entries| >= Config.TagPageLimit
                      && s.next == start + |read(start).page.entries| && previous != Some(read(start).signature)
    ensures read(start).page.Bad? ==> s == Fail(read(start).page.error)
  {
    var reply := read(start);
    match reply.page
    case Bad(e) => Fail(e)
    case Entries(items) =>
      if previous == Some(reply.signature) then Fail(RepeatedPage)
      else if items == [] then Finish(false)
      else
        var next := start + |items|;
        if pageNumber + 1 >= Config.MaxTagPages then Fail(TooManyPages)
        else if |items| < Config.TagPageLimit || (reply.total.Some? && next >= reply.total.value) then Finish(true)
        else Go(next, reply.signature)
  }

  /** How a step that ends the loop ends it, from the tally before the page and the page's own counts. */
  function Ending(s: Step, acc: TagCounts.Tally, counts: TagCounts.Tally): Outcome
    requires !s.Go?
  {
    if s.Fail? then Failed(s.error)
    else Done(if s.counted then TagCounts.Merge(acc, counts) else acc)
  }

  /** Every request made (its `StartIndex`), in order, and how collection ended. */
  datatype Run = Run(starts: seq<nat>, outcome: Outcome)

  /** The loop from the request at `start` on, with the tally `acc` so far. */
  function Collect(read: nat -> Reply, start: nat, pageNumber: nat, previous: Option<Signature>, acc: TagCounts.Tally): (r: Run)
    requires pageNumber < Config.MaxTagPages
    ensures |r.starts| >= 1 && r.starts[0] == start
    decreases Config.MaxTagPages - pageNumber
  {
    var s := StepAt(read, start, pageNumber, previous);
    if s.Go? then
      var rest := Collect(read, s.next, pageNumber + 1, Some(s.signature), TagCounts.Merge(acc, read(start).counts));
      Run([start] + rest.starts, rest.outcome)
    else Run([start], Ending(s, acc, read(start).counts))
  }

  /** `collect_paginated_tags`: the run it makes from `StartIndex` 0. */
  function CollectPaginatedTagsOf(read: nat -> Reply): Run {
    Collect(read, 0, 0, None, TagCounts.Empty)
  }

  /** The run from the request at `start`, after the requests `before`. */
  function RunAfter(read: nat -> Reply, before: seq<nat>, start: nat, pageNumber: nat, previous: Option<Signature>, acc: TagCounts.Tally): Run
    requires pageNumber < Config.MaxTagPages
  {
    var w := Collect(read, start, pageNumber, previous, acc);
    Run(before + w.starts, w.outcome)
  }

  /** Re-associates the loop invariant across a request that leads to another. */
  lemma CollectStep(read: nat -> Reply, before: seq<nat>, start: nat, pageNumber: nat, previous: Option<Signature>,
                    acc: TagCounts.Tally, next: nat, signature: Signature)
    requires pageNumber < Config.MaxTagPages
    requires StepAt(read, start, pageNumber, previous) == Go(next, signature)
    ensures RunAfter(read, before, start, pageNumber, previous, acc)
         == RunAfter(read, before + [start], next, pageNumber + 1, Some(signature), TagCounts.Merge(acc, read(start).counts))
  {
    var w' := Collect(read, next, pageNumber + 1, Some(signature), TagCounts.Merge(acc, read(start).counts));
    assert before + ([start] + w'.starts) == (before + [start]) + w'.starts;
  }

  /** A request that ends the loop ends the run with its ending. */
  lemma CollectStop(read: nat -> Reply, before: seq<nat>, start: nat, pageNumber: nat, previous: Option<Signature>,
                    acc: TagCounts.Tally)
    requires pageNumber < Config.MaxTagPages
    requires !StepAt(read, start, pageNumber, previous).Go?
    ensures RunAfter(read, before, start, pageNumber, previous, acc)
         == Run(before + [start], Ending(StepAt(read, start, pageNumber, previous), acc, read(start).counts))
  {
  }

  /**
    What the page served at `start` adds under key `k` once the loop merges it:
    its positive count there when the page is readable and non-empty, else 0.
   */
  function PageShare(read: nat -> Reply, start: nat, k: string): nat {
    var reply := read(start);
    if reply.page.Entries? && reply.page.entries != [] && TagCounts.CountOf(reply.counts, k) > 0
    then TagCounts.CountOf(reply.counts, k)
    else 0
  }

  /** The shares under `k` of the pages served at `starts`, added up. */
  function Shares(read: nat -> Reply, starts: seq<nat>, k: string): nat
    decreases |starts|
  {
    if starts == [] then 0 else PageShare(read, starts[0], k) + Shares(read, starts[1..], k)
  }

  /**
    A run that ends normally returns a valid tally that counts under each key
    what it counted before plus the share of every page requested.
   */
  lemma {:induction false} CollectTally(read: nat -> Reply, start: nat, pageNumber: nat, previous: Option<Signature>,
                                        acc: TagCounts.Tally, k: string)
    requires pageNumber < Config.MaxTagPages
    requires TagCounts.Valid(acc)
    requires forall s: nat :: TagCounts.WellFormed(read(s).counts)
    ensures var w := Collect(read, start, pageNumber, previous, acc);
      w.outcome.Done? ==>
        TagCounts.Valid(w.outcome.tally)
        && TagCounts.CountOf(w.outcome.tally, k) == TagCounts.CountOf(acc, k) + Shares(read, w.starts, k)
    decreases Config.MaxTagPages - pageNumber
  {
    var s := StepAt(read, start, pageNumber, previous);
    var counts := read(start).counts;
    assert TagCounts.WellFormed(counts);
    if s.Go? {
      var acc' := TagCounts.Merge(acc, counts);
      TagCounts.MergeValid(acc, counts);
      TagCounts.MergeCount(acc, counts, k);
      CollectTally(read, s.next, pageNumber + 1, Some(s.signature), acc', k);
      var rest := Collect(read, s.next, pageNumber + 1, Some(s.signature), acc');
      assert ([start] + rest.starts)[1..] == rest.starts;
    } else if s == Finish(true) {
      TagCounts.MergeValid(acc, counts);
      TagCounts.MergeCount(acc, counts, k);
      assert [start][1..] == [];
    } else {
      assert [start][1..] == [];
    }
  }

  /**
    `collect_paginated_tags` against the endpoint: when it ends normally its
    tally is valid and counts under each key the shares of the pages requested.
   */
  lemma CollectPaginatedTally(fetch: nat -> Entry, k: string)
    ensures var w := CollectPaginatedTagsOf(Endpoint(fetch));
      w.outcome.Done? ==>
        TagCounts.Valid(w.outcome.tally) && TagCounts.CountOf(w.outcome.tally, k) == Shares(Endpoint(fetch), w.starts, k)
  {
    var read := Endpoint(fetch);
    forall s: nat ensures TagCounts.WellFormed(read(s).counts) {
      var page := PageEntries(fetch(s));
      TagCounts.FromEntriesSpec(if page.Entries? then page.entries else [], k);
    }
    CollectTally(read, 0, 0, None, TagCounts.Empty, k);
  }

  /**
    One pass of the loop body: reads the page served at `start`, checks it
    against the previous signature and the page cap, merges its counts into
    `tally`, and says whether the loop stops (with the error, if any) or where
    it goes on.
   */
  method CollectPage(fetch: nat -> Entry, ghost read: nat -> Reply, start: nat, pageNumber: nat, previous: Option<Signature>, tally: TagCounts.TagTally)
      returns (stop: bool, error: Option<PageError>, next: nat, signature: Signature)
    requires read(start) == ReadReply(fetch(start))
    modifies tally
    ensures var s := StepAt(read, start, pageNumber, previous);
      if stop then !s.Go? && Ending(s, old(tally.State()), read(start).counts)
                               == (if error.Some? then Failed(error.value) else Done(tally.State()))
      else s == Go(next, signature) && tally.State() == TagCounts.Merge(old(tally.State()), read(start).counts)
  {
    ghost var acc := tally.State();
    ghost var step := StepAt(read, start, pageNumber, previous);
    var response := fetch(start);
    next, signature := start, [];
    var page := PageEntries(response);
    if page.Bad? {
      assert step == Fail(page.error);
      return true, Some(page.error), next, signature;
    }
    var items := page.entries;
    signature := PageSignature(items);
    assert read(start).signature == signature;
    if previous == Some(signature) {
      assert step == Fail(RepeatedPage);
      return true, Some(RepeatedPage), next, signature;
    }
    if items == [] {
      assert step == Finish(false);
      return true, None, next, signature;
    }
    var pageTally := TagCounts.TagCountsFromEndpointItems(items);
    tally.MergeTagCounts(pageTally);
    assert tally.State() == TagCounts.Merge(acc, read(start).counts);
    var pageSize := |items|;
    next := start + pageSize;
    if pageNumber + 1 >= Config.MaxTagPages {
      assert step == Fail(TooManyPages);
      return true, Some(TooManyPages), next, signature;
    }
    var total := ReportedTotal(response);
    if pageSize < Config.TagPageLimit {
      assert step == Finish(true);
      return true, None, next, signature;
    }
    if total.Some? && next >= total.value {
      assert step == Finish(true);
      return true, None, next, signature;
    }
    assert step == Go(next, signature);
    return false, None, next, signature;
  }

  /**
    The loop itself, with the tally mutated in place page by page. `read` is
    the endpoint as the loop reads it (`Endpoint(fetch)` is one);
    it only names the run the loop makes.
   */
  method CollectPaginatedTags(fetch: nat -> Entry, ghost read: nat -> Reply)
      returns (starts: seq<nat>, error: Option<PageError>, tally: TagCounts.TagTally)
    requires forall start: nat {:trigger ReadReply(fetch(start))} :: read(start) == ReadReply(fetch(start))
    ensures fresh(tally)
    ensures CollectPaginatedTagsOf(read)
         == Run(starts, if error.Some? then Failed(error.value) else Done(tally.State()))
  {
    var startIndex: nat := 0;
    tally := new TagCounts.TagTally();
    var previous: Option<Signature> := None;
    var pageNumber: nat := 0;
    starts := [];
    while true
      invariant pageNumber < Config.MaxTagPages
      invariant fresh(tally)
      invariant CollectPaginatedTagsOf(read) == RunAfter(read, starts, startIndex, pageNumber, previous, tally.State())
      decreases Config.MaxTagPages - pageNumber
    {
      ghost var before := starts;
      ghost var acc := tally.State();
      starts := starts + [startIndex];
      var stop, next, signature;
      stop, error, next, signature := CollectPage(fetch, read, startIndex, pageNumber, previous, tally);
      if stop {
        CollectStop(read, before, startIndex, pageNumber, previous, acc);
        return;
      }
      CollectStep(read, before, startIndex, pageNumber, previous, acc, next, signature);
      startIndex, previous, pageNumber := next, Some(signature), pageNumber + 1;
    }
  }

  function Last<X>(s: seq<X>): X
    requires s != []
  {
    s[|s| - 1]
  }

  /** A page after which the loop asks for another: at least `TagPageLimit` items, ending below the reported total. */
  ghost predicate Continues(read: nat -> Reply, start: nat) {
    var page := read(start).page;
    page.Entries? && |page.entries| >= Config.TagPageLimit
    && (read(start).total.None? || start + |page.entries| < read(start).total.value)
  }

  /** The number of items served at `start`, 0 when they cannot be read. */
  function PageLength(read: nat -> Reply, start: nat): nat {
    var page := read(start).page;
    if page.Entries? then |page.entries| else 0
  }

  /** A request leads to another exactly after a page that continues, with a new signature, below the page cap. */
  lemma StepGo(read: nat -> Reply, start: nat, pageNumber: nat, previous: Option<Signature>)
    ensures var s := StepAt(read, start, pageNumber, previous);
      s.Go? <==> (Continues(read, start) && pageNumber + 1 < Config.MaxTagPages
                  && SignatureAt(read, start) != previous)
    ensures var s := StepAt(read, start, pageNumber, previous);
      s.Go? ==> s.next == start + PageLength(read, start) && Some(s.signature) == SignatureAt(read, start)
  {
  }

  /** A reply whose items cannot be read fails with one of the two reading errors. */
  predicate ReadError(r: Reply) {
    r.page.Bad? ==> r.page.error == UnexpectedPayload || r.page.error == MalformedEntry
  }

  /**
    How a request that ends the loop ends it; a normal end counts the page
    just read exactly when it is not empty.
   */
  lemma StepStop(read: nat -> Reply, start: nat, pageNumber: nat, previous: Option<Signature>)
    requires ReadError(read(start))
    ensures var s := StepAt(read, start, pageNumber, previous);
      var page := read(start).page;
      ((s == Fail(UnexpectedPayload) || s == Fail(MalformedEntry)) <==> (page.Bad? && s == Fail(page.error)))
      && (s == Fail(RepeatedPage) <==> (page.Entries? && previous == SignatureAt(read, start)))
      && (s == Fail(TooManyPages) ==>
            page.Entries? && page.entries != [] && pageNumber + 1 >= Config.MaxTagPages)
      && (s.Finish? ==>
            page.Entries? && previous != SignatureAt(read, start) && (s.counted <==> page.entries != [])
            && (page.entries == [] || |page.entries| < Config.TagPageLimit
                || (read(start).total.Some? && start + |page.entries| >= read(start).total.value)))
  {
  }

  /** A request that leads to another prepends its offset to the rest of the run. */
  lemma CollectGo(read: nat -> Reply, start: nat, pageNumber: nat, previous: Option<Signature>, acc: TagCounts.Tally)
      returns (rest: Run)
    requires pageNumber < Config.MaxTagPages
    requires StepAt(read, start, pageNumber, previous).Go?
    ensures var s := StepAt(read, start, pageNumber, previous);
      pageNumber + 1 < Config.MaxTagPages
      && rest == Collect(read, s.next, pageNumber + 1, Some(s.signature), TagCounts.Merge(acc, read(start).counts))
      && Collect(read, start, pageNumber, previous, acc) == Run([start] + rest.starts, rest.outcome)
      && s.next == start + PageLength(read, start) && Continues(read, start)
      && Some(s.signature) == SignatureAt(read, start) && SignatureAt(read, start) != previous
  {
    var s := StepAt(read, start, pageNumber, previous);
    StepGo(read, start, pageNumber, previous);
    rest := Collect(read, s.next, pageNumber + 1, Some(s.signature), TagCounts.Merge(acc, read(start).counts));
  }

  /** A request that ends the loop is the last of the run. */
  lemma CollectHalt(read: nat -> Reply, start: nat, pageNumber: nat, previous: Option<Signature>, acc: TagCounts.Tally)
    requires pageNumber < Config.MaxTagPages
    requires !StepAt(read, start, pageNumber, previous).Go?
    ensures Collect(read, start, pageNumber, previous, acc)
         == Run([start], Ending(StepAt(read, start, pageNumber, previous), acc, read(start).counts))
  {
  }

  /**
    The requests: at most `MaxTagPages - pageNumber` of them, each but the first
    at the previous offset plus the previous page's length, after a page that
    continues.
   */
  lemma {:induction false} CollectChain(read: nat -> Reply, start: nat, pageNumber: nat, previous: Option<Signature>, acc: TagCounts.Tally)
    requires pageNumber < Config.MaxTagPages
    ensures var w := Collect(read, start, pageNumber, previous, acc);
      |w.starts| <= Config.MaxTagPages - pageNumber
      && (forall k :: 0 <= k < |w.starts| - 1 ==>
            Continues(read, w.starts[k]) && w.starts[k + 1] == w.starts[k] + PageLength(read, w.starts[k]))
    decreases Config.MaxTagPages - pageNumber
  {
    var step := StepAt(read, start, pageNumber, previous);
    if step.Go? {
      var rest := CollectGo(read, start, pageNumber, previous, acc);
      CollectChain(read, step.next, pageNumber + 1, Some(step.signature), TagCounts.Merge(acc, read(start).counts));
      var w := Collect(read, start, pageNumber, previous, acc);
      forall k | 0 <= k < |w.starts| - 1
        ensures Continues(read, w.starts[k]) && w.starts[k + 1] == w.starts[k] + PageLength(read, w.starts[k])
      {
        if k > 0 {
          assert w.starts[k] == rest.starts[k - 1] && w.starts[k + 1] == rest.starts[k];
        }
      }
    } else {
      CollectHalt(read, start, pageNumber, previous, acc);
    }
  }

  /** No page but the last has the signature of the page before it (or of `previous`, for the first). */
  lemma {:induction false} CollectSignatures(read: nat -> Reply, start: nat, pageNumber: nat, previous: Option<Signature>, acc: TagCounts.Tally)
    requires pageNumber < Config.MaxTagPages
    ensures var w := Collect(read, start, pageNumber, previous, acc);
      forall k :: 0 <= k < |w.starts| - 1 ==>
        SignatureAt(read, w.starts[k]) != (if k == 0 then previous else SignatureAt(read, w.starts[k - 1]))
    decreases Config.MaxTagPages - pageNumber
  {
    var step := StepAt(read, start, pageNumber, previous);
    if step.Go? {
      var rest := CollectGo(read, start, pageNumber, previous, acc);
      CollectSignatures(read, step.next, pageNumber + 1, Some(step.signature), TagCounts.Merge(acc, read(start).counts));
      var w := Collect(read, start, pageNumber, previous, acc);
      forall k | 0 <= k < |w.starts| - 1
        ensures SignatureAt(read, w.starts[k]) != (if k == 0 then previous else SignatureAt(read, w.starts[k - 1]))
      {
        if k > 0 {
          assert w.starts[k] == rest.starts[k - 1];
          if k > 1 {
            assert w.starts[k - 1] == rest.starts[k - 2];
          }
        }
      }
    } else {
      CollectHalt(read, start, pageNumber, previous, acc);
    }
  }

  /** The last two offsets of a run that one more request precedes. */
  lemma ConsLast(start: nat, rest: seq<nat>)
    requires rest != []
    ensures var starts := [start] + rest;
      |starts| == |rest| + 1 && Last(starts) == Last(rest)
      && starts[|starts| - 2] == (if |rest| >= 2 then rest[|rest| - 2] else start)
  {
  }

  /** The state of the loop at its last request, whose step ends the loop with the run's outcome. */
  lemma {:induction false} CollectTail(read: nat -> Reply, start: nat, pageNumber: nat, previous: Option<Signature>, acc: TagCounts.Tally)
      returns (pageNumber': nat, previous': Option<Signature>, acc': TagCounts.Tally)
    requires pageNumber < Config.MaxTagPages
    ensures var w := Collect(read, start, pageNumber, previous, acc);
      var s := StepAt(read, Last(w.starts), pageNumber', previous');
      pageNumber' == pageNumber + |w.starts| - 1
      && previous' == (if |w.starts| >= 2 then SignatureAt(read, w.starts[|w.starts| - 2]) else previous)
      && !s.Go? && Ending(s, acc', read(Last(w.starts)).counts) == w.outcome
    decreases Config.MaxTagPages - pageNumber
  {
    pageNumber', previous', acc' := pageNumber, previous, acc;
    var step := StepAt(read, start, pageNumber, previous);
    if step.Go? {
      var rest := CollectGo(read, start, pageNumber, previous, acc);
      pageNumber', previous', acc' :=
        CollectTail(read, step.next, pageNumber + 1, Some(step.signature), TagCounts.Merge(acc, read(start).counts));
      ConsLast(start, rest.starts);
      var w := Collect(read, start, pageNumber, previous, acc);
      assert w.starts == [start] + rest.starts && w.outcome == rest.outcome;
      assert previous' == SignatureAt(read, w.starts[|w.starts| - 2]);
    } else {
      CollectHalt(read, start, pageNumber, previous, acc);
    }
  }

  /**
    How the loop ends, read off its last request: a failure to read the items;
    a repeated signature, exactly when the last page's signature equals the one
    before it; the page cap, reached on a non-empty page after `MaxTagPages`
    requests in all; or a normal end on an empty page, a short page, or once
    the next offset reaches the reported total.
   */
  lemma CollectEnds(fetch: nat -> Entry, start: nat, pageNumber: nat, previous: Option<Signature>, acc: TagCounts.Tally)
    requires pageNumber < Config.MaxTagPages
    ensures var read := Endpoint(fetch);
      var w := Collect(read, start, pageNumber, previous, acc);
      var s := Last(w.starts);
      var page := PageEntries(fetch(s));
      var before := if |w.starts| >= 2 then SignatureAt(read, w.starts[|w.starts| - 2]) else previous;
      ((w.outcome == Failed(UnexpectedPayload) || w.outcome == Failed(MalformedEntry))
         <==> (page.Bad? && w.outcome == Failed(page.error)))
      && (w.outcome == Failed(RepeatedPage) <==> (page.Entries? && before == SignatureAt(read, s)))
      && (w.outcome == Failed(TooManyPages) ==>
            page.Entries? && page.entries != [] && |w.starts| == Config.MaxTagPages - pageNumber)
      && (w.outcome.Done? ==>
            page.Entries? && before != SignatureAt(read, s)
            && (page.entries == [] || |page.entries| < Config.TagPageLimit
                || (ReportedTotal(fetch(s)).Some? && s + |page.entries| >= ReportedTotal(fetch(s)).value)))
  {
    var read := Endpoint(fetch);
    var w := Collect(read, start, pageNumber, previous, acc);
    var pn, prev, a := CollectTail(read, start, pageNumber, previous, acc);
    CollectChain(read, start, pageNumber, previous, acc);
    StepStop(read, Last(w.starts), pn, prev);
  }

  /**
    The whole collection starts at offset 0, makes at most `MaxTagPages`
    requests, and asks for the next offset only after a page that continues,
    at the offset where that page ended.
   */
  lemma CollectPaginatedTagsRequests(fetch: nat -> Entry)
    ensures var read := Endpoint(fetch); var w := CollectPaginatedTagsOf(read);
      w.starts[0] == 0 && |w.starts| <= Config.MaxTagPages
      && (forall k :: 0 <= k < |w.starts| - 1 ==>
            Continues(read, w.starts[k]) && w.starts[k + 1] == w.starts[k] + PageLength(read, w.starts[k]))
  {
    CollectChain(Endpoint(fetch), 0, 0, None, TagCounts.Empty);
  }

  // aggregate_tags_from_items

  /** Counts 1 for each of `names`. */
  function AddNames(t: TagCounts.Tally, names: seq<string>): TagCounts.Tally
    decreases |names|
  {
    if names == [] then t
    else TagCounts.Add(AddNames(t, names[..|names| - 1]), names[|names| - 1], 1)
  }

  /** Counts 1 for each tag of each item, in order. */
  function AddItemTags(t: TagCounts.Tally, items: seq<TagNames.TagSources>): TagCounts.Tally
    decreases |items|
  {
    if items == [] then t
    else AddNames(AddItemTags(t, items[..|items| - 1]), TagNames.ItemTagsOf(items[|items| - 1]))
  }

  /** Counts 1 for each name of one item, in place. */
  method CountItemTags(tally: TagCounts.TagTally, names: seq<string>)
    modifies tally
    ensures tally.State() == AddNames(old(tally.State()), names)
  {
    ghost var t0 := tally.State();
    for j := 0 to |names|
      invariant tally.State() == AddNames(t0, names[..j])
    {
      assert names[..j + 1][..j] == names[..j];
      tally.AddTagCount(names[j], 1);
    }
    assert names[..|names|] == names;
  }

  /**
    `aggregate_tags_from_items`: the adaptive walk, then 1 for each tag of each
    item received; `totalProcessed` is the sum of the page lengths.
   */
  method AggregateTagsFromItems(c: Scan.Catalog<TagNames.TagSources>, start: nat, fetchLimit: nat)
      returns (tally: TagCounts.TagTally, totalProcessed: nat)
    ensures fresh(tally)
    ensures totalProcessed == |Scan.WalkFrom(c, Scan.Request(start, fetchLimit)).fetched|
    ensures tally.State() == AddItemTags(TagCounts.Empty, Scan.WalkFrom(c, Scan.Request(start, fetchLimit)).fetched)
  {
    var requests, fetched := Scan.AdaptiveScan(c, start, fetchLimit);
    tally := new TagCounts.TagTally();
    totalProcessed := |fetched|;
    CountItems(tally, fetched);
  }

  /** The counting loop of `aggregate_tags_from_items`: 1 for each tag of each item, in place. */
  method CountItems(tally: TagCounts.TagTally, items: seq<TagNames.TagSources>)
    modifies tally
    ensures tally.State() == AddItemTags(old(tally.State()), items)
  {
    ghost var t0 := tally.State();
    for i := 0 to |items|
      invariant tally.State() == AddItemTags(t0, items[..i])
    {
      assert items[..i + 1][..i] == items[..i];
      var names := TagNames.ItemTags(items[i]);
      CountItemTags(tally, names);
    }
    assert items[..|items|] == items;
  }

  /** In a sequence with distinct keys, the last key is not among the earlier ones. */
  lemma DistinctKeysSnoc(names: seq<string>)
    requires names != [] && Dedup.DistinctKeys(names, Text.Lower)
    ensures Dedup.DistinctKeys(names[..|names| - 1], Text.Lower)
    ensures Text.Lower(names[|names| - 1]) !in Dedup.KeysOf(names[..|names| - 1], Text.Lower)
  {
    var front := names[..|names| - 1];
    forall x | x in front ensures Text.Lower(x) != Text.Lower(names[|names| - 1]) {
      var i :| 0 <= i < |front| && front[i] == x;
      assert names[i] == x;
    }
  }

  /** Counting clean names with distinct keys adds exactly 1 under each of their keys. */
  lemma {:induction false} AddNamesCount(t: TagCounts.Tally, names: seq<string>, k: string)
    requires forall n :: n in names ==> n != "" && Text.IsStripped(n)
    requires Dedup.DistinctKeys(names, Text.Lower)
    ensures TagCounts.CountOf(AddNames(t, names), k)
         == TagCounts.CountOf(t, k) + (if k in Dedup.KeysOf(names, Text.Lower) then 1 else 0)
    decreases |names|
  {
    if names != [] {
      var front := names[..|names| - 1];
      var n := names[|names| - 1];
      assert names == front + [n];
      var t' := AddNames(t, front);
      assert AddNames(t, names) == TagCounts.Add(t', n, 1);
      DistinctKeysSnoc(names);
      assert n in names;
      assert forall x :: x in front ==> x in names;
      AddNamesCount(t, front, k);
      TagCounts.AddCount(t', n, 1, k);
      Text.StripOfStripped(n);
      assert TagCounts.AddsTo(n, 1, k) <==> Text.Lower(n) == k;
      Dedup.KeysOfSnoc(front, n, Text.Lower);
    }
  }

  lemma {:induction false} AddNamesValid(t: TagCounts.Tally, names: seq<string>)
    requires TagCounts.Valid(t)
    ensures TagCounts.Valid(AddNames(t, names))
    decreases |names|
  {
    if names != [] {
      AddNamesValid(t, names[..|names| - 1]);
      TagCounts.AddValid(AddNames(t, names[..|names| - 1]), names[|names| - 1], 1);
    }
  }

  /** The number of items among `items` that carry a tag with key `k`. */
  function Carrying(items: seq<TagNames.TagSources>, k: string): nat
    decreases |items|
  {
    if items == [] then 0
    else
      Carrying(items[..|items| - 1], k)
      + (if k in Dedup.KeysOf(TagNames.ItemTagsOf(items[|items| - 1]), Text.Lower) then 1 else 0)
  }

  /**
    Each item adds at most 1 per tag key: the count under a key is the number
    of items that carry that key.
   */
  lemma {:induction false} AggregateCount(items: seq<TagNames.TagSources>, k: string)
    ensures TagCounts.Valid(AddItemTags(TagCounts.Empty, items))
    ensures TagCounts.CountOf(AddItemTags(TagCounts.Empty, items), k) == Carrying(items, k)
    decreases |items|
  {
    if items != [] {
      var front := items[..|items| - 1];
      var it := items[|items| - 1];
      AggregateCount(front, k);
      TagNames.ItemTagsClean(it);
      Dedup.FirstByKeyDistinct(TagNames.Cleaned(TagNames.AllNames(it)), Text.Lower);
      AddNamesCount(AddItemTags(TagCounts.Empty, front), TagNames.ItemTagsOf(it), k);
      AddNamesValid(AddItemTags(TagCounts.Empty, front), TagNames.ItemTagsOf(it));
    }
  }
}
