/**
 * Throttling message and OpenAPI post-processing (core_directory/api_extras.py).
 *
 * `throttle_failure` always raises `Throttled`; the model stops at the
 * two arguments it passes to `Throttled(detail=..., wait=...)`, and what
 * the REST framework's exception then does with them is not modelled.
 * `wait()` is computed by the REST framework and is a parameter here, a
 * whole number of seconds or `None`.
 *
 * `add_retry_after_header_to_429_responses` walks the OpenAPI document and,
 * for every operation that documents a 429 response (RFC 6585, section 4),
 * sets that response's `Retry-After` header (RFC 9110, section 10.2.3).
 */
module ApiExtras {
  import opened Wrappers
  import opened Text
  import opened Json

  /** The arguments `throttle_failure` passes to `Throttled`. */
  datatype Throttled = Throttled(detail: string, wait: Option<int>)

  const LaterDetail: string := "API rate limit reached. Please try again later."
  const WaitPrefix: string := "API rate limit reached. Please try again in "

  /**
   * `divmod(w, 60)`. Python's division floors; for the positive divisor 60
   * that is the Euclidean division Dafny uses, also for negative `w`.
   */
  function DivMod60(w: int): (r: (int, int))
    ensures 0 <= r.1 < 60 && 60 * r.0 + r.1 == w
  {
    (w / 60, w % 60)
  }

  /** `wait_str`: minutes are shown whenever they are non-zero. */
  function WaitText(w: int): string
  {
    var minutes := DivMod60(w).0;
    var seconds := DivMod60(w).1;
    if minutes != 0 then IntToString(minutes) + " minute(s) and " + IntToString(seconds) + " second(s)"
    else IntToString(seconds) + " second(s)"
  }

  /**
   * `throttle_failure()`: the exception carries `wait` unchanged, and its
   * detail names a waiting time exactly when `wait` is known.
   */
  function ThrottleFailure(wait: Option<int>): (t: Throttled)
    ensures t.wait == wait
    ensures t.detail == LaterDetail <==> wait.None?
  {
    if wait.Some? then
      var detail := WaitPrefix + WaitText(wait.value) + ".";
      assert detail[41] == WaitPrefix[41] != LaterDetail[41];
      Throttled(detail, wait)
    else Throttled(LaterDetail, wait)
  }

  /** For a non-negative wait, minutes appear exactly from 60 seconds on, with the remaining seconds below 60. */
  lemma ThrottleDetail(w: nat)
    ensures ThrottleFailure(Some(w)).detail == WaitPrefix
      + (if w < 60 then NatToString(w) + " second(s)"
         else NatToString(w / 60) + " minute(s) and " + NatToString(w % 60) + " second(s)")
      + "."
  {
  }

  /** 125 seconds read as 2 minutes and 5 seconds. */
  lemma ThrottleMinutesExample()
    ensures ThrottleFailure(Some(125)).detail == WaitPrefix + "2 minute(s) and 5 second(s)" + "."
  {
    var text := WaitText(125);
    WaitText125();
    assert ThrottleFailure(Some(125)).detail == WaitPrefix + text + ".";
  }

  lemma WaitText125()
    ensures WaitText(125) == "2 minute(s) and 5 second(s)"
  {
    assert DivMod60(125) == (2, 5);
    assert IntToString(2) == "2" && IntToString(5) == "5";
  }

  /** 45 seconds read as 45 seconds. */
  lemma ThrottleSecondsExample()
    ensures ThrottleFailure(Some(45)).detail == WaitPrefix + "45 second(s)" + "."
  {
    ThrottleDetail(45);
    assert NatToString(45) == NatToString(4) + [DigitChar(5)];
    assert NatToString(45) == "45";
  }

  /** The header object that is set. */
  const RetryAfter: Json :=
    Obj([("description", Str("Seconds to wait before making a new request.")),
         ("schema", Obj([("type", Str("integer"))]))])

  /** `Lookup` that also fails on a value that is not a dict. */
  function Member(j: Json, key: string): Option<Json>
  {
    if j.Obj? then Lookup(j.fields, key) else None
  }

  /**
   * The shape the hook relies on without checking: the document, its
   * `paths`, every path item, every operation, its `responses`, the 429
   * response and its `headers` are dicts wherever they are present.
   */
  predicate ResponseShaped(response: Json)
  {
    response.Obj? && (Member(response, "headers").Some? ==> Member(response, "headers").value.Obj?)
  }

  predicate OperationShaped(op: Json)
  {
    && op.Obj?
    && (Member(op, "responses").Some? ==>
          var responses := Member(op, "responses").value;
          responses.Obj? && (Member(responses, "429").Some? ==> ResponseShaped(Member(responses, "429").value)))
  }

  predicate PathItemShaped(item: Json)
  {
    item.Obj? && forall k :: 0 <= k < |item.fields| ==> OperationShaped(item.fields[k].1)
  }

  predicate Shaped(result: Json)
  {
    && result.Obj?
    && (Member(result, "paths").Some? ==>
          var paths := Member(result, "paths").value;
          paths.Obj? && forall k :: 0 <= k < |paths.fields| ==> PathItemShaped(paths.fields[k].1))
  }

  /** `response.setdefault('headers', {})['Retry-After'] = {...}` */
  function WithRetryAfter(response: Json): Json
    requires ResponseShaped(response)
  {
    var headers := match Member(response, "headers") case Some(h) => h.fields case None => [];
    Obj(Assign(response.fields, "headers", Obj(Assign(headers, "Retry-After", RetryAfter))))
  }

  /** One operation: only when its responses hold `'429'` is anything changed. */
  function UpdateOperation(op: Json): (r: Json)
    requires OperationShaped(op)
  {
    match Member(op, "responses")
    case None => op
    case Some(responses) =>
      match Member(responses, "429")
      case None => op
      case Some(response) =>
        Obj(Assign(op.fields, "responses", Obj(Assign(responses.fields, "429", WithRetryAfter(response)))))
  }

  function UpdatePathItem(item: Json): (r: Json)
    requires PathItemShaped(item)
  {
    Obj(seq(|item.fields|, k requires 0 <= k < |item.fields| => (item.fields[k].0, UpdateOperation(item.fields[k].1))))
  }

  function UpdatePaths(paths: seq<(string, Json)>): (r: seq<(string, Json)>)
    requires forall k :: 0 <= k < |paths| ==> PathItemShaped(paths[k].1)
  {
    seq(|paths|, k requires 0 <= k < |paths| => (paths[k].0, UpdatePathItem(paths[k].1)))
  }

  /** The document after the hook. */
  function AddRetryAfter(result: Json): Json
    requires Shaped(result)
  {
    match Member(result, "paths")
    case None => result
    case Some(paths) => Obj(Assign(result.fields, "paths", Obj(UpdatePaths(paths.fields))))
  }

  /**
   * `add_retry_after_header_to_429_responses(result, ...)`: the outer loop
   * over the path items.
   */
  method AddRetryAfterHeaderTo429Responses(result: Json) returns (updated: Json)
    requires Shaped(result)
    ensures updated == AddRetryAfter(result)
  {
    var paths := Member(result, "paths");
    if paths.None? {
      return result;
    }
    var items := paths.value.fields;
    var newItems: seq<(string, Json)> := [];
    var i := 0;
    while i < |items|
      invariant 0 <= i <= |items|
      invariant newItems == UpdatePaths(items)[..i]
    {
      var newOperations := UpdateOperations(items[i].1);
      newItems := newItems + [(items[i].0, Obj(newOperations))];
      i := i + 1;
    }
    assert newItems == UpdatePaths(items);
    updated := Obj(Assign(result.fields, "paths", Obj(newItems)));
  }

  /** The inner loop over the operations of one path item. */
  method UpdateOperations(item: Json) returns (newOperations: seq<(string, Json)>)
    requires PathItemShaped(item)
    ensures Obj(newOperations) == UpdatePathItem(item)
  {
    var operations := item.fields;
    newOperations := [];
    var j := 0;
    while j < |operations|
      invariant 0 <= j <= |operations|
      invariant |newOperations| == j
      invariant forall k :: 0 <= k < j ==> newOperations[k] == (operations[k].0, UpdateOperation(operations[k].1))
    {
      var op := operations[j].1;
      UpdateOperationCases(op);
      var responses := Member(op, "responses");
      if responses.Some? && Member(responses.value, "429").Some? {
        var response := WithRetryAfter(Member(responses.value, "429").value);
        op := Obj(Assign(op.fields, "responses", Obj(Assign(responses.value.fields, "429", response))));
      }
      assert op == UpdateOperation(operations[j].1);
      newOperations := newOperations + [(operations[j].0, op)];
      j := j + 1;
    }
    UpdatePathItemFields(item, newOperations);
  }

  /** A list of operations updated one by one is the updated path item. */
  lemma UpdatePathItemFields(item: Json, operations: seq<(string, Json)>)
    requires PathItemShaped(item)
    requires |operations| == |item.fields|
    requires forall k :: 0 <= k < |operations| ==> operations[k] == (item.fields[k].0, UpdateOperation(item.fields[k].1))
    ensures Obj(operations) == UpdatePathItem(item)
  {
    assert operations == UpdatePathItem(item).fields;
  }

  /** The two cases of `UpdateOperation`, as the loop body tests them. */
  lemma UpdateOperationCases(op: Json)
    requires OperationShaped(op)
    ensures var responses := Member(op, "responses");
      UpdateOperation(op)
        == if responses.Some? && Member(responses.value, "429").Some?
           then Obj(Assign(op.fields, "responses",
                           Obj(Assign(responses.value.fields, "429", WithRetryAfter(Member(responses.value, "429").value)))))
           else op
  {
  }

  /* ---------------------------------------------------------------- */
  /* What the hook does to each operation                              */
  /* ---------------------------------------------------------------- */

  /** The 429 response an operation documents, if any. */
  function Response429(op: Json): Option<Json>
  {
    match Member(op, "responses")
    case None => None
    case Some(responses) => Member(responses, "429")
  }

  /** The path, the method and the operation at position `o` of the path item at position `p`. */
  function OperationAt(doc: Json, p: nat, o: nat): Option<(string, string, Json)>
  {
    match Member(doc, "paths")
    case None => None
    case Some(paths) =>
      if paths.Obj? && p < |paths.fields| && paths.fields[p].1.Obj? && o < |paths.fields[p].1.fields| then
        Some((paths.fields[p].0, paths.fields[p].1.fields[o].0, paths.fields[p].1.fields[o].1))
      else None
  }

  /**
   * The response then documents `Retry-After` with the fixed header object,
   * keeps every other header it had, and keeps every other member.
   */
  lemma WithRetryAfterSpec(response: Json, k: string)
    requires ResponseShaped(response)
    ensures ResponseShaped(WithRetryAfter(response))
    ensures Member(WithRetryAfter(response), "headers").Some?
    ensures Member(Member(WithRetryAfter(response), "headers").value, "Retry-After") == Some(RetryAfter)
    ensures k != "Retry-After" ==>
      Member(Member(WithRetryAfter(response), "headers").value, k)
        == (match Member(response, "headers") case Some(h) => Member(h, k) case None => None)
    ensures k != "headers" ==> Member(WithRetryAfter(response), k) == Member(response, k)
  {
    var headers := match Member(response, "headers") case Some(h) => h.fields case None => [];
    var updated := Assign(headers, "Retry-After", RetryAfter);
    assert WithRetryAfter(response) == Obj(Assign(response.fields, "headers", Obj(updated)));
    LookupAssign(response.fields, "headers", Obj(updated), "headers");
    LookupAssign(response.fields, "headers", Obj(updated), k);
    LookupAssign(headers, "Retry-After", RetryAfter, k);
    LookupAssign(headers, "Retry-After", RetryAfter, "Retry-After");
  }

  /** Setting the header a second time changes nothing. */
  lemma WithRetryAfterIdempotent(response: Json)
    requires ResponseShaped(response)
    ensures ResponseShaped(WithRetryAfter(response))
    ensures WithRetryAfter(WithRetryAfter(response)) == WithRetryAfter(response)
  {
    WithRetryAfterSpec(response, "headers");
    var headers := match Member(response, "headers") case Some(h) => h.fields case None => [];
    var updated := Assign(headers, "Retry-After", RetryAfter);
    LookupAssign(response.fields, "headers", Obj(updated), "headers");
    AssignAssign(headers, "Retry-After", RetryAfter, RetryAfter);
    AssignAssign(response.fields, "headers", Obj(updated), Obj(updated));
  }

  /**
   * An operation keeps every member but `responses`, and within it every
   * response but `429`; a documented 429 response gets the header; an
   * operation without one is left as it is.
   */
  lemma UpdateOperationSpec(op: Json, k: string)
    requires OperationShaped(op)
    ensures OperationShaped(UpdateOperation(op))
    ensures Response429(op).None? ==> UpdateOperation(op) == op
    ensures Response429(op).Some? ==> Response429(UpdateOperation(op)) == Some(WithRetryAfter(Response429(op).value))
    ensures k != "responses" ==> Member(UpdateOperation(op), k) == Member(op, k)
    ensures k != "429" && Member(op, "responses").Some? ==>
      Member(UpdateOperation(op), "responses").Some? &&
      Member(Member(UpdateOperation(op), "responses").value, k) == Member(Member(op, "responses").value, k)
  {
    if Response429(op).Some? {
      var responses := Member(op, "responses").value;
      var updated := Obj(Assign(responses.fields, "429", WithRetryAfter(Response429(op).value)));
      LookupAssign(op.fields, "responses", updated, k);
      LookupAssign(op.fields, "responses", updated, "responses");
      LookupAssign(responses.fields, "429", WithRetryAfter(Response429(op).value), k);
      LookupAssign(responses.fields, "429", WithRetryAfter(Response429(op).value), "429");
      WithRetryAfterSpec(Response429(op).value, "headers");
    }
  }

  /** Updating an operation twice is updating it once. */
  lemma UpdateOperationIdempotent(op: Json)
    requires OperationShaped(op)
    ensures OperationShaped(UpdateOperation(op))
    ensures UpdateOperation(UpdateOperation(op)) == UpdateOperation(op)
  {
    UpdateOperationSpec(op, "responses");
    if Response429(op).Some? {
      var responses := Member(op, "responses").value;
      var response := Response429(op).value;
      var updated := Obj(Assign(responses.fields, "429", WithRetryAfter(response)));
      LookupAssign(op.fields, "responses", updated, "responses");
      LookupAssign(responses.fields, "429", WithRetryAfter(response), "429");
      WithRetryAfterIdempotent(response);
      AssignAssign(responses.fields, "429", WithRetryAfter(response), WithRetryAfter(response));
      AssignAssign(op.fields, "responses", updated, updated);
    }
  }

  /** Every operation of the document is updated in place: same path, same method, same position. */
  lemma AddRetryAfterAt(result: Json, p: nat, o: nat)
    requires Shaped(result)
    ensures OperationAt(AddRetryAfter(result), p, o).Some? <==> OperationAt(result, p, o).Some?
    ensures OperationAt(result, p, o).Some? ==>
      var (path, verb, op) := OperationAt(result, p, o).value;
      OperationAt(AddRetryAfter(result), p, o) == Some((path, verb, UpdateOperation(op)))
  {
    match Member(result, "paths")
    case None =>
    case Some(paths) =>
      LookupAssign(result.fields, "paths", Obj(UpdatePaths(paths.fields)), "paths");
  }

  /** Updating a path item twice is updating it once. */
  lemma UpdatePathItemIdempotent(item: Json)
    requires PathItemShaped(item)
    ensures PathItemShaped(UpdatePathItem(item))
    ensures UpdatePathItem(UpdatePathItem(item)) == UpdatePathItem(item)
  {
    var updated := UpdatePathItem(item);
    forall j | 0 <= j < |updated.fields|
      ensures OperationShaped(updated.fields[j].1)
      ensures UpdateOperation(updated.fields[j].1) == updated.fields[j].1
    {
      UpdateOperationIdempotent(item.fields[j].1);
    }
  }

  /** Updating the path items twice is updating them once. */
  lemma UpdatePathsIdempotent(paths: seq<(string, Json)>)
    requires forall k :: 0 <= k < |paths| ==> PathItemShaped(paths[k].1)
    ensures forall k :: 0 <= k < |UpdatePaths(paths)| ==> PathItemShaped(UpdatePaths(paths)[k].1)
    ensures UpdatePaths(UpdatePaths(paths)) == UpdatePaths(paths)
  {
    var items := UpdatePaths(paths);
    forall k | 0 <= k < |items|
      ensures PathItemShaped(items[k].1)
      ensures UpdatePathItem(items[k].1) == items[k].1
    {
      UpdatePathItemIdempotent(paths[k].1);
    }
  }

  /** Running the hook on its own output changes nothing more. */
  lemma AddRetryAfterIdempotent(result: Json)
    requires Shaped(result)
    ensures Shaped(AddRetryAfter(result))
    ensures AddRetryAfter(AddRetryAfter(result)) == AddRetryAfter(result)
  {
    match Member(result, "paths")
    case None =>
    case Some(paths) =>
      var items := UpdatePaths(paths.fields);
      LookupAssign(result.fields, "paths", Obj(items), "paths");
      UpdatePathsIdempotent(paths.fields);
      AssignAssign(result.fields, "paths", Obj(items), Obj(items));
  }

  /** A document none of whose operations documents a 429 response comes back unchanged. */
  lemma AddRetryAfterWithout429(result: Json)
    requires Shaped(result)
    requires forall p, o :: OperationAt(result, p, o).Some? ==> Response429(OperationAt(result, p, o).value.2).None?
    ensures AddRetryAfter(result) == result
  {
    match Member(result, "paths")
    case None =>
    case Some(paths) =>
      forall k | 0 <= k < |paths.fields|
        ensures UpdatePathItem(paths.fields[k].1) == paths.fields[k].1
      {
        forall j | 0 <= j < |paths.fields[k].1.fields|
          ensures UpdateOperation(paths.fields[k].1.fields[j].1) == paths.fields[k].1.fields[j].1
        {
          assert OperationAt(result, k, j).Some?;
        }
      }
      assert UpdatePaths(paths.fields) == paths.fields;
      AssignPresent(result.fields, "paths", paths);
  }
}
