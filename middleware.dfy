/// What the dish and order controllers have in common: a request payload or
/// stored record (a JavaScript object), the three ways a middleware step
/// ends, the reply a route chain produces, the "missing" and "empty" key
/// checks both validators run over their list of required keys, the
/// reconciliation of a payload id with the route id done by both update
/// validators, the lookup of a record by id (`find` with `===`), and the
/// shallow merge of `Object.assign`.
module Middleware {
  import opened JsValues

  /** A JavaScript object: its own keys (what `Object.keys` lists) and their
      values. Request payloads and stored dishes and orders are records. */
  type Record = map<string, Value>

  /** `record[key]`, which is `undefined` for a key the record lacks. */
  function Get(r: Record, key: string): (v: Value) {
    if key in r then r[key] else Undefined
  }

  /** How a middleware step hands over: `next()`, `next({ status, message })`,
      or a TypeError thrown out of the handler. */
  datatype Outcome =
    | Next
    | NextError(status: nat, message: string)
    | TypeError(message: string)

  /** What a route chain ends with: a JSON response, an error passed to the
      application's error handler with its status and message, or an error
      thrown out of a handler. */
  datatype Reply<T> =
    | Respond(status: nat, data: T)
    | ErrorReply(status: nat, message: string)
    | Uncaught(message: string)

  /** The reply of a chain whose middleware step did not call `next()`: an
      error passed to `next` reaches the error handler with its status, a
      thrown TypeError leaves the chain uncaught. */
  function Halt<T>(o: Outcome): (r: Reply<T>)
    requires o != Next
  {
    match o
    case NextError(status, message) => ErrorReply(status, message)
    case TypeError(message) => Uncaught(message)
  }

  // ---------------------------------------------------------------------
  // Missing and empty required keys
  // ---------------------------------------------------------------------

  /** `[k]` when the payload's `Object.keys` does not include `k`. */
  function IfMissing(p: Record, k: string): (r: seq<string>) {
    if k in p then [] else [k]
  }

  /** `v == "" || v === undefined`: the test for an "empty" value, where it
      does not throw. */
  predicate IsBlank(v: Value) {
    LooseEqEmpty(v) || v == Undefined
  }

  /** `[k]` when the payload has `k` with an empty value. */
  function IfBlank(p: Record, k: string): (r: seq<string>) {
    if k in p && IsBlank(p[k]) then [k] else []
  }

  /** `p[k]` is there, can be compared with "" and is not empty: neither
      reported missing nor empty, and the comparison does not throw. */
  predicate Filled(p: Record, k: string) {
    k in p && !Throws(p[k]) && !IsBlank(p[k])
  }

  /** `p[k] == ""` throws. */
  predicate ThrowsAt(p: Record, k: string) {
    k in p && Throws(p[k])
  }

  /** Some required key is present with a value whose comparison with ""
      throws, so the validator's second loop throws. */
  predicate KeysThrow(keys: seq<string>, p: Record) {
    exists k | k in keys :: ThrowsAt(p, k)
  }

  /** The required keys the payload lacks, in the order of `keys`. */
  function MissingKeys(keys: seq<string>, p: Record): (r: seq<string>) {
    if keys == [] then [] else MissingKeys(keys[..|keys| - 1], p) + IfMissing(p, keys[|keys| - 1])
  }

  /** The required keys the payload has with an empty value, in the order of
      `keys`. */
  function BlankKeys(keys: seq<string>, p: Record): (r: seq<string>) {
    if keys == [] then [] else BlankKeys(keys[..|keys| - 1], p) + IfBlank(p, keys[|keys| - 1])
  }

  /** A key is reported missing exactly when it is required and absent. */
  lemma {:induction false} MissingKeysMembers(keys: seq<string>, p: Record, k: string)
    ensures k in MissingKeys(keys, p) <==> k in keys && k !in p
  {
    if keys != [] {
      var init := keys[..|keys| - 1];
      MissingKeysMembers(init, p, k);
      assert keys == init + [keys[|keys| - 1]];
    }
  }

  /** A key is reported empty exactly when it is required, present, and its
      value is empty. */
  lemma {:induction false} BlankKeysMembers(keys: seq<string>, p: Record, k: string)
    ensures k in BlankKeys(keys, p) <==> k in keys && k in p && IsBlank(p[k])
  {
    if keys != [] {
      var init := keys[..|keys| - 1];
      BlankKeysMembers(init, p, k);
      assert keys == init + [keys[|keys| - 1]];
    }
  }

  /** No key is ever reported both missing and empty. */
  lemma MissingAndBlankDisjoint(keys: seq<string>, p: Record, k: string)
    ensures !(k in MissingKeys(keys, p) && k in BlankKeys(keys, p))
  {
    MissingKeysMembers(keys, p, k);
    BlankKeysMembers(keys, p, k);
  }

  /** The first loop of a validator: push every required key the payload's
      `Object.keys` does not include. */
  method CollectMissing(keys: seq<string>, p: Record) returns (missing: seq<string>)
    ensures missing == MissingKeys(keys, p)
  {
    missing := [];
    for i := 0 to |keys|
      invariant missing == MissingKeys(keys[..i], p)
    {
      assert keys[..i + 1][..i] == keys[..i];
      if keys[i] !in p {
        missing := missing + [keys[i]];
      }
      assert missing == MissingKeys(keys[..i], p) + IfMissing(p, keys[i]);
    }
    assert keys[..|keys|] == keys;
  }

  /** The second loop of a validator: push every required key that is
      present with a value `== ""` or `=== undefined`. The comparison with ""
      throws out of the loop on the first present value that cannot be
      converted (`None`). */
  method CollectBlank(keys: seq<string>, p: Record) returns (blank: Option<seq<string>>)
    ensures blank.None? <==> KeysThrow(keys, p)
    ensures blank.Some? ==> blank.value == BlankKeys(keys, p)
  {
    var acc := [];
    for i := 0 to |keys|
      invariant acc == BlankKeys(keys[..i], p)
      invariant !KeysThrow(keys[..i], p)
    {
      assert keys[..i + 1] == keys[..i] + [keys[i]];
      assert keys[..i + 1][..i] == keys[..i];
      var value := Get(p, keys[i]);
      if keys[i] in p && Throws(value) {
        assert keys[i] in keys && ThrowsAt(p, keys[i]);
        return None;
      }
      if keys[i] in p && (LooseEqEmpty(value) || value == Undefined) {
        acc := acc + [keys[i]];
      }
      assert acc == BlankKeys(keys[..i], p) + IfBlank(p, keys[i]);
    }
    assert keys[..|keys|] == keys;
    return Some(acc);
  }

  function MissingMessage(missing: seq<string>): (r: string) {
    "The following data is missing: " + Join(missing, ",") + "!"
  }

  function BlankMessage(blank: seq<string>): (r: string) {
    "The following data should not be empty: " + Join(blank, ",") + "!"
  }

  /** The messages both validators build first: one for the missing keys,
      then one for the empty keys, each only when it has a key to list. */
  function KeyMessages(missing: seq<string>, blank: seq<string>): (r: seq<string>) {
    (if |missing| > 0 then [MissingMessage(missing)] else [])
    + (if |blank| > 0 then [BlankMessage(blank)] else [])
  }

  /** The end of an accumulating validator: a 400 carrying every collected
      message, one per line, or `next()` when there is none. */
  function Verdict(messages: seq<string>): (r: Outcome) {
    if |messages| > 0 then NextError(400, Join(messages, "\n")) else Next
  }

  // ---------------------------------------------------------------------
  // Payload id against route id
  // ---------------------------------------------------------------------

  /** `id === undefined || id === null || id == ""` holds (rather than
      being false or throwing). */
  predicate IdIsBlank(v: Value) {
    v == Undefined || v == Null || (!Throws(v) && LooseEqEmpty(v))
  }

  /** The payload after an empty id has been replaced by the route id. */
  function FillId(p: Record, routeId: string): (r: Record) {
    if IdIsBlank(Get(p, "id")) then p["id" := Str(routeId)] else p
  }

  /** `id != routeId` fails with 400, and throws on an id that cannot be
      converted; `noun` is "Dish" or "Order". */
  function IdCheck(noun: string, p: Record, routeId: string): (r: Outcome) {
    var id := Get(p, "id");
    if Throws(id) then TypeError(ConversionError)
    else if !LooseEq(id, Str(routeId)) then
      NextError(400, noun + " id " + ToString(id) + " does not match the route link!")
    else Next
  }

  /** After the fill, the id check passes exactly when the payload's id was
      empty or already loosely equal to the route id: an omitted id never
      fails, and a passing payload's id matches the route and converts. An
      id that cannot be converted throws already at the emptiness test; any
      other failing payload kept its own id, and the message names it. */
  lemma IdCheckAfterFill(noun: string, p: Record, routeId: string)
    ensures var o := IdCheck(noun, FillId(p, routeId), routeId);
      && (o == Next <==> IdIsBlank(Get(p, "id")) || (!Throws(Get(p, "id")) && LooseEq(Get(p, "id"), Str(routeId))))
      && (o == Next ==> LooseEq(Get(FillId(p, routeId), "id"), Str(routeId)))
      && (o == Next ==> !Throws(Get(FillId(p, routeId), "id")))
      && (o != Next ==> FillId(p, routeId) == p)
      && (o.TypeError? <==> Throws(Get(p, "id")))
      && (o.TypeError? ==> o.message == ConversionError)
      && (o.NextError? ==> o == NextError(400, noun + " id " + ToString(Get(p, "id")) + " does not match the route link!"))
  {
    LooseEqStrReflexive(routeId);
  }

  /** The id half of both update validators: an empty payload id takes the
      route id; then the ids must be loosely equal. An id that cannot be
      converted throws at `id == ""`. Returns the payload as the step leaves
      it. */
  method ReconcileId(noun: string, p: Record, routeId: string) returns (filled: Record, o: Outcome)
    ensures filled == FillId(p, routeId)
    ensures o == IdCheck(noun, filled, routeId)
    ensures o == Next <==> IdIsBlank(Get(p, "id")) || (!Throws(Get(p, "id")) && LooseEq(Get(p, "id"), Str(routeId)))
    ensures o == Next ==> LooseEq(Get(filled, "id"), Str(routeId))
    ensures o.TypeError? <==> Throws(Get(p, "id"))
    ensures o.TypeError? ==> o == TypeError(ConversionError) && filled == p
    ensures o.NextError? ==> o == NextError(400, noun + " id " + ToString(Get(p, "id")) + " does not match the route link!")
  {
    IdCheckAfterFill(noun, p, routeId);
    filled := p;
    var id := Get(filled, "id");
    if id != Undefined && id != Null && Throws(id) {
      return filled, TypeError(ConversionError);
    }
    if id == Undefined || id == Null || LooseEqEmpty(id) {
      filled := filled["id" := Str(routeId)];
    }
    if !LooseEq(Get(filled, "id"), Str(routeId)) {
      return filled, NextError(400, noun + " id " + ToString(Get(filled, "id")) + " does not match the route link!");
    }
    o := Next;
  }

  /** Filling twice is filling once (updateOrder repeats the fill that
      updateOrderValidation did). */
  lemma FillIdIdempotent(p: Record, routeId: string)
    ensures FillId(FillId(p, routeId), routeId) == FillId(p, routeId)
  {
    if IdIsBlank(Get(p, "id")) {
      assert Get(FillId(p, routeId), "id") == Str(routeId);
    }
  }

  // ---------------------------------------------------------------------
  // Lookup and merge
  // ---------------------------------------------------------------------

  /** `records.find(r => r.id === id)`, as the index of the first match. */
  function FindById(records: seq<Record>, id: string): (r: Option<nat>)
    ensures r.Some? ==> r.value < |records| && Get(records[r.value], "id") == Str(id)
    ensures r.Some? ==> forall j | 0 <= j < r.value :: Get(records[j], "id") != Str(id)
    ensures r.None? ==> forall j | 0 <= j < |records| :: Get(records[j], "id") != Str(id)
  {
    if records == [] then None
    else if StrictEq(Get(records[0], "id"), Str(id)) then Some(0)
    else match FindById(records[1..], id)
      case None => None
      case Some(k) => Some(k + 1)
  }

  /** The lookup depends on nothing but the records' ids. */
  lemma {:induction false} FindByIdSameIds(a: seq<Record>, b: seq<Record>, id: string)
    requires |a| == |b|
    requires forall i | 0 <= i < |a| :: Get(a[i], "id") == Get(b[i], "id")
    ensures FindById(a, id) == FindById(b, id)
  {
    if a != [] {
      FindByIdSameIds(a[1..], b[1..], id);
    }
  }

  /** A prefix that still holds the first match finds it at the same index. */
  lemma FindByIdInPrefix(records: seq<Record>, id: string, i: nat, k: nat)
    requires FindById(records, id) == Some(i) && i < k <= |records|
    ensures FindById(records[..k], id) == Some(i)
  {
    var prefix := records[..k];
    assert prefix[i] == records[i];
    var r := FindById(prefix, id);
    assert r.Some?;
    assert prefix[r.value] == records[r.value];
  }

  /** `Object.assign(target, source)`: every own key of `source` overwrites
      or adds that key of `target`. */
  function Assign(target: Record, source: Record): (r: Record) {
    target + source
  }

  /** What `for (r of records) if (r.id == patch.id) Object.assign(r, patch)`
      leaves after its first `n` rounds: every record before `n` whose id is
      loosely equal to the patch's id has the patch merged in; the others,
      and the number of records, stay. */
  function MergeBefore(records: seq<Record>, patch: Record, n: nat): (r: seq<Record>)
    ensures |r| == |records|
  {
    seq(|records|, i requires 0 <= i < |records| =>
      if i < n && LooseEq(Get(records[i], "id"), Get(patch, "id")) then Assign(records[i], patch) else records[i])
  }

  /** What the merge loop leaves when it runs to the end. */
  function MergeMatching(records: seq<Record>, patch: Record): (r: seq<Record>)
    ensures |r| == |records|
  {
    MergeBefore(records, patch, |records|)
  }

  /** The index of the first record whose `r.id == patch.id` throws, where
      the merge loop stops. */
  function FirstMergeThrow(records: seq<Record>, patch: Record): (r: Option<nat>)
    ensures r.Some? ==> r.value < |records| && LooseEqThrows(Get(records[r.value], "id"), Get(patch, "id"))
    ensures r.Some? ==> forall j | 0 <= j < r.value :: !LooseEqThrows(Get(records[j], "id"), Get(patch, "id"))
    ensures r.None? ==> forall j | 0 <= j < |records| :: !LooseEqThrows(Get(records[j], "id"), Get(patch, "id"))
  {
    if records == [] then None
    else if LooseEqThrows(Get(records[0], "id"), Get(patch, "id")) then Some(0)
    else match FirstMergeThrow(records[1..], patch)
      case None => None
      case Some(k) => Some(k + 1)
  }

  /** Every record's id can be converted. */
  predicate IdsConvert(records: seq<Record>) {
    forall i | 0 <= i < |records| :: !Throws(Get(records[i], "id"))
  }

  /** When neither the stored ids nor the patch's id throw, no comparison of
      the merge loop does. */
  lemma ConvertibleIdsNeverThrow(records: seq<Record>, patch: Record)
    requires IdsConvert(records) && !Throws(Get(patch, "id"))
    ensures FirstMergeThrow(records, patch) == None
  {
  }

  /** Merging a patch whose id converts keeps every stored id convertible,
      however many rounds of the loop ran. */
  lemma MergeKeepsIdsConvert(records: seq<Record>, patch: Record, n: nat)
    requires IdsConvert(records) && !Throws(Get(patch, "id"))
    ensures IdsConvert(MergeBefore(records, patch, n))
  {
    var merged := MergeBefore(records, patch, n);
    forall i | 0 <= i < |merged|
      ensures !Throws(Get(merged[i], "id"))
    {
      assert Get(Assign(records[i], patch), "id") in {Get(records[i], "id"), Get(patch, "id")};
    }
  }

  /** The record the route id found is among those the merge reaches when
      the patch's id is loosely equal to the route id, and it then carries
      every field of the patch. */
  lemma MergeReachesFoundRecord(records: seq<Record>, patch: Record, routeId: string, i: nat)
    requires FindById(records, routeId) == Some(i)
    requires LooseEq(Get(patch, "id"), Str(routeId))
    ensures MergeMatching(records, patch)[i] == Assign(records[i], patch)
    ensures forall k | k in patch :: Get(MergeMatching(records, patch)[i], k) == patch[k]
  {
    LooseEqSymmetric(Get(patch, "id"), Str(routeId));
  }
}
