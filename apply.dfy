/**
  The bulk apply route: each change names an item and the tags to add and
  remove, and is answered by one result in input order. The tag update itself
  (`jf_update_tags`, modelled in `TagUpdate`) is an oracle here that returns the
  item's final tags or the failure it raised.
 */
module Apply {
  import opened Wrappers
  import Json
  import Connection
  import Client

  const UserIdRequired: Connection.ErrorResponse := Connection.ErrorResponse(400, "userId is required")
  const MissingItemId: string := "Missing item id"

  /** The arguments of one `jf_update_tags` call. */
  datatype UpdateCall = UpdateCall(base: string, apiKey: string, itemId: Json.Json,
                                   add: seq<Json.Json>, remove: seq<Json.Json>, userId: Json.Json)

  /** `jf_update_tags`: the final tags, or the exception it raised. */
  type Update = UpdateCall -> Result<seq<string>, Client.Failure>

  /** The text recorded for a failed update: `format_http_error` for an HTTP error, `str(exc)` otherwise. */
  function ErrorText(f: Client.Failure): string {
    match f
    case HttpFailure(e) => Client.FormatHttpError(e)
    case OtherFailure(m) => m
  }

  /** One entry of `updated`; `tags` is present only after a successful update. */
  datatype ChangeResult = ChangeResult(id: Json.Json, added: seq<Json.Json>, removed: seq<Json.Json>,
                                       errors: seq<string>, tags: Option<seq<string>>)

  /** How the route ends without an answer of its own: a rejected body, or an exception escaping it. */
  datatype ApplyFailure = Rejected(response: Connection.ErrorResponse) | Raised

  /** `[t for t in values if t]`: the truthy values, in order. */
  function TruthyOnly(values: seq<Json.Json>): (r: seq<Json.Json>)
    ensures forall t :: t in r <==> t in values && Json.Truthy(t)
    ensures |r| <= |values|
    decreases |values|
  {
    if values == [] then []
    else if Json.Truthy(values[|values| - 1]) then TruthyOnly(values[..|values| - 1]) + [values[|values| - 1]]
    else TruthyOnly(values[..|values| - 1])
  }

  /** Filtering keeps a list of truthy values as it is. */
  lemma {:induction false} TruthyOnlyKeepsTruthy(values: seq<Json.Json>)
    requires forall i :: 0 <= i < |values| ==> Json.Truthy(values[i])
    ensures TruthyOnly(values) == values
    decreases |values|
  {
    if values != [] {
      TruthyOnlyKeepsTruthy(values[..|values| - 1]);
      assert values[..|values| - 1] + [values[|values| - 1]] == values;
    }
  }

  /** The one-character strings of a string, in order. */
  function Chars(s: string): (r: seq<Json.Json>)
    ensures |r| == |s|
    ensures forall i :: 0 <= i < |s| ==> r[i] == Json.JStr([s[i]])
    decreases |s|
  {
    if s == [] then [] else Chars(s[..|s| - 1]) + [Json.JStr([s[|s| - 1]])]
  }

  /**
    The elements a `for` loop walks over a value that is already `or []`-ed:
    a list's elements, a string's characters; None where the source raises
    (a number or boolean is not iterable) or where the model does not follow
    it (an object's key order).
   */
  function Elements(v: Json.Json): (r: Option<seq<Json.Json>>)
    ensures v.JArr? ==> r == Some(v.elems)
    ensures v.JStr? ==> r.Some? && |r.value| == |v.s|
    ensures r.Some? ==> v.JArr? || v.JStr? || !Json.Truthy(v)
  {
    match v
    case JArr(e) => Some(e)
    case JStr(s) => Some(Chars(s))
    case _ => if Json.Truthy(v) then None else Some([])
  }

  /** `[t for t in (change.get(name) or []) if t]`, None when that raises. */
  function TagArgument(change: map<string, Json.Json>, name: string): Option<seq<Json.Json>> {
    match Elements(Json.Or(Json.Get(change, name), Json.JArr([])))
    case None => None
    case Some(e) => Some(TruthyOnly(e))
  }

  /** The validated target of every update: base URL, API key and the user id as sent. */
  datatype Target = Target(base: string, apiKey: string, userId: Json.Json)

  /**
    One turn of the loop over changes: the result appended and the update calls
    made (at most one), or None when the turn raises. A change's result carries
    its id. Without a truthy id it records only "Missing item id"; with no tags
    to add or remove it records nothing; in neither case is an update
    attempted. Otherwise exactly one update is made with the filtered lists, and
    its outcome decides the result: the lists and the final tags on success,
    one error text and nothing added or removed on failure.
   */
  function ChangeOutcome(change: Json.Json, t: Target, update: Update): (o: Option<(ChangeResult, seq<UpdateCall>)>)
    ensures (o.Some? <==> change.JObj? && TagArgument(change.fields, "add").Some? && TagArgument(change.fields, "remove").Some?)
      && (o.Some? ==>
            var (result, calls) := o.value;
            var itemId := Json.Get(change.fields, "id");
            var adds := TagArgument(change.fields, "add").value;
            var removes := TagArgument(change.fields, "remove").value;
            result.id == itemId
            && (forall x :: x in result.added ==> Json.Truthy(x))
            && (forall x :: x in result.removed ==> Json.Truthy(x))
            && (!Json.Truthy(itemId) ==> result == ChangeResult(itemId, [], [], [MissingItemId], None) && calls == [])
            && (Json.Truthy(itemId) && adds == [] && removes == [] ==>
                  result == ChangeResult(itemId, [], [], [], None) && calls == [])
            && (calls != [] <==> Json.Truthy(itemId) && (adds != [] || removes != []))
            && (calls != [] ==>
                  calls == [UpdateCall(t.base, t.apiKey, itemId, adds, removes, t.userId)]
                  && match update(calls[0])
                     case Ok(tags) => result == ChangeResult(itemId, adds, removes, [], Some(tags))
                     case Err(f) => result == ChangeResult(itemId, [], [], [ErrorText(f)], None)))
  {
    if !change.JObj? then None
    else
      var itemId := Json.Get(change.fields, "id");
      var adds := TagArgument(change.fields, "add");
      var removes := TagArgument(change.fields, "remove");
      if adds.None? || removes.None? then None
      else if !Json.Truthy(itemId) then Some((ChangeResult(itemId, [], [], [MissingItemId], None), []))
      else if adds.value == [] && removes.value == [] then Some((ChangeResult(itemId, [], [], [], None), []))
      else
        var call := UpdateCall(t.base, t.apiKey, itemId, adds.value, removes.value, t.userId);
        match update(call)
        case Ok(tags) => Some((ChangeResult(itemId, adds.value, removes.value, [], Some(tags)), [call]))
        case Err(f) => Some((ChangeResult(itemId, [], [], [ErrorText(f)], None), [call]))
  }


  /** What one turn of the loop does with a change. */
  type Step = Json.Json -> Option<(ChangeResult, seq<UpdateCall>)>

  function StepOf(t: Target, update: Update): Step {
    change => ChangeOutcome(change, t, update)
  }

  /** The loop over `changes`: the results and calls of every turn, or None once a turn raises. */
  function ApplyAll(changes: seq<Json.Json>, step: Step): (r: (seq<UpdateCall>, Option<seq<ChangeResult>>))
    ensures r.1.Some? ==> |r.1.value| == |changes|
    decreases |changes|
  {
    if changes == [] then ([], Some([]))
    else
      var (calls, results) := ApplyAll(changes[..|changes| - 1], step);
      if results.None? then (calls, None)
      else match step(changes[|changes| - 1])
        case None => (calls, None)
        case Some((result, more)) => (calls + more, Some(results.value + [result]))
  }

  /**
    Every change gets exactly one result, in input order, unless some change
    raises; the results are the turns' results one by one, and the calls are
    the turns' calls one after the other.
   */
  lemma {:induction false} ApplyAllSpec(changes: seq<Json.Json>, step: Step)
    ensures var (calls, results) := ApplyAll(changes, step);
      (results.Some? <==> forall i :: 0 <= i < |changes| ==> step(changes[i]).Some?)
      && (results.Some? ==> (forall i :: 0 <= i < |changes| ==> results.value[i] == step(changes[i]).value.0)
                            && calls == CallsOf(changes, step))
    decreases |changes|
  {
    if changes != [] {
      var init := changes[..|changes| - 1];
      ApplyAllSpec(init, step);
      assert forall i :: 0 <= i < |init| ==> init[i] == changes[i];
    }
  }

  /** The calls each change makes, one after the other. */
  function CallsOf(changes: seq<Json.Json>, step: Step): seq<UpdateCall>
    requires forall i :: 0 <= i < |changes| ==> step(changes[i]).Some?
    decreases |changes|
  {
    if changes == [] then []
    else CallsOf(changes[..|changes| - 1], step) + step(changes[|changes| - 1]).value.1
  }

  /**
    With the update in place: one result per change in input order, each the
    outcome of its own change, and an update call only for a change with a
    truthy id and something to add or remove.
   */
  lemma ApplyChangesSpec(changes: seq<Json.Json>, t: Target, update: Update)
    ensures var (calls, results) := ApplyAll(changes, StepOf(t, update));
      (results.Some? <==> forall i :: 0 <= i < |changes| ==> ChangeOutcome(changes[i], t, update).Some?)
      && (results.Some? ==>
            (|results.value| == |changes|
             && forall i :: 0 <= i < |changes| ==> results.value[i] == ChangeOutcome(changes[i], t, update).value.0))
      && (forall c :: c in calls ==> exists i :: 0 <= i < |changes| && ChangeOutcome(changes[i], t, update).Some?
                                          && ChangeOutcome(changes[i], t, update).value.1 == [c])
  {
    ApplyAllSpec(changes, StepOf(t, update));
    ApplyAllCallsFrom(changes, StepOf(t, update));
  }

  /** Every call the loop makes is the single call of one of the changes. */
  lemma {:induction false} ApplyAllCallsFrom(changes: seq<Json.Json>, step: Step)
    requires forall c :: step(c).Some? ==> |step(c).value.1| <= 1
    ensures forall c :: c in ApplyAll(changes, step).0 ==>
      exists i :: 0 <= i < |changes| && step(changes[i]).Some? && step(changes[i]).value.1 == [c]
    decreases |changes|
  {
    if changes != [] {
      var init := changes[..|changes| - 1];
      ApplyAllCallsFrom(init, step);
      forall c | c in ApplyAll(changes, step).0
        ensures exists i :: 0 <= i < |changes| && step(changes[i]).Some? && step(changes[i]).value.1 == [c]
      {
        if c in ApplyAll(init, step).0 {
          var i :| 0 <= i < |init| && step(init[i]).Some? && step(init[i]).value.1 == [c];
          assert init[i] == changes[i];
        } else {
          var last := |changes| - 1;
          assert step(changes[last]).Some? && c in step(changes[last]).value.1;
          assert step(changes[last]).value.1 == [c];
        }
      }
    }
  }

  /** The loop of `api_apply` over the changes. */
  method ApplyChanges(changes: seq<Json.Json>, t: Target, update: Update)
      returns (calls: seq<UpdateCall>, results: Option<seq<ChangeResult>>)
    ensures (calls, results) == ApplyAll(changes, StepOf(t, update))
  {
    var done: seq<ChangeResult> := [];
    calls := [];
    for i := 0 to |changes|
      invariant ApplyAll(changes[..i], StepOf(t, update)) == (calls, Some(done))
    {
      assert changes[..i + 1][..i] == changes[..i];
      var outcome := ChangeOutcome(changes[i], t, update);
      assert changes[..i + 1][i] == changes[i];
      if outcome.None? {
        ApplyAllRaises(changes, i, StepOf(t, update));
        return calls, None;
      }
      var (result, more) := outcome.value;
      calls := calls + more;
      done := done + [result];
    }
    assert changes[..|changes|] == changes;
    results := Some(done);
  }

  /** Once a turn raises, the whole loop raises after the calls made before it. */
  lemma {:induction false} ApplyAllRaises(changes: seq<Json.Json>, i: nat, step: Step)
    requires i < |changes| && ApplyAll(changes[..i], step).1.Some?
    requires step(changes[i]).None?
    ensures ApplyAll(changes, step) == (ApplyAll(changes[..i], step).0, None)
    decreases |changes|
  {
    if i == |changes| - 1 {
      assert changes[..|changes| - 1] == changes[..i];
    } else {
      var init := changes[..|changes| - 1];
      assert init[..i] == changes[..i] && init[i] == changes[i];
      ApplyAllRaises(init, i, step);
    }
  }

  /**
    `data.get("changes") or []` as the route uses it: a list to walk, a value
    whose `len` raises (a number or boolean), or a non-empty string or object,
    whose first element is a string and has no `.get`.
   */
  datatype Changes = Walk(changes: seq<Json.Json>) | NoLength | FirstNotObject

  function ChangesOf(data: map<string, Json.Json>): (r: Changes)
    ensures !Json.Truthy(Json.Get(data, "changes")) ==> r == Walk([])
    ensures Json.Get(data, "changes").JArr? ==> r == Walk(Json.Get(data, "changes").elems)
  {
    match Json.Or(Json.Get(data, "changes"), Json.JArr([]))
    case JArr(e) => Walk(e)
    case JStr(_) => FirstNotObject
    case JObj(_) => FirstNotObject
    case _ => NoLength
  }

  /**
    `api_apply`: the base is resolved and validated, `len(changes)` is taken
    for the log line, a base error is answered first and a falsy `userId`
    next, and then each change is applied in turn; the answer is `updated`.
   */
  method ApiApply(data: map<string, Json.Json>, envBase: Option<string>, envKey: Option<string>, update: Update)
      returns (calls: seq<UpdateCall>, answer: Result<seq<ChangeResult>, ApplyFailure>)
    ensures var config := Connection.ResolveConfig(data, envBase, envKey);
      var base := Connection.ValidateBase(config.0);
      var userId := Json.Get(data, "userId");
      (ChangesOf(data).NoLength? ==> calls == [] && answer == Err(Raised))
      && (!ChangesOf(data).NoLength? && base.Err? ==> calls == [] && answer == Err(Rejected(base.error)))
      && (!ChangesOf(data).NoLength? && base.Ok? && !Json.Truthy(userId) ==>
            calls == [] && answer == Err(Rejected(UserIdRequired)))
      && (ChangesOf(data).FirstNotObject? && base.Ok? && Json.Truthy(userId) ==> calls == [] && answer == Err(Raised))
      && (ChangesOf(data).Walk? && base.Ok? && Json.Truthy(userId) ==>
            var (expected, results) := ApplyAll(ChangesOf(data).changes, StepOf(Target(base.value, config.1, userId), update));
            calls == expected && answer == (if results.Some? then Ok(results.value) else Err(Raised)))
  {
    var config := Connection.ResolveConfig(data, envBase, envKey);
    var base := Connection.ValidateBase(config.0);
    var changes := ChangesOf(data);
    var userId := Json.Get(data, "userId");
    calls := [];
    if changes.NoLength? {
      return calls, Err(Raised);
    }
    if base.Err? {
      return calls, Err(Rejected(base.error));
    }
    if !Json.Truthy(userId) {
      return calls, Err(Rejected(UserIdRequired));
    }
    if changes.FirstNotObject? {
      return calls, Err(Raised);
    }
    var results;
    calls, results := ApplyChanges(changes.changes, Target(base.value, config.1, userId), update);
    answer := if results.Some? then Ok(results.value) else Err(Raised);
  }
}
