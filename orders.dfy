/// The order controller: its validators, its handlers over the module-level
/// `orders` array, and the middleware chains the router mounts
/// (src/orders/orders.controller.js).
module Orders {
  import opened JsValues
  import opened Middleware

  /** The keys an order payload must carry, in the order they are reported. */
  const OrderKeys: seq<string> := ["deliverTo", "mobileNumber", "dishes"]

  /** The statuses updateOrderValidation accepts, spelled as in the code. */
  const ValidStatus: seq<string> := ["pending", "preparing", "out-for-deliver", "delivered"]

  const NoDishesMessage := "Order must include at least one dish"
  const StatusMessage := "Order must have a status of pending, preparing, out-for-delivery, delivered"
  const NotPendingMessage := "Only pending order can be removed!"

  function NotFoundMessage(orderId: string): (r: string) {
    "Order id not found " + orderId
  }

  function QuantityMessage(index: nat): (r: string) {
    "Dish " + NatToString(index) + " must have a quantity that is an integer greater than 0"
  }

  // ---------------------------------------------------------------------
  // orderValidation: the accumulated checks
  // ---------------------------------------------------------------------

  /** The messages orderValidation collects before its per-dish pass:
      missing keys, empty keys, and a `dishes` that is not an array. */
  function OrderMessages(order: Record): (r: seq<string>) {
    KeyMessages(MissingKeys(OrderKeys, order), BlankKeys(OrderKeys, order))
    + (if !Get(order, "dishes").Arr? then [NoDishesMessage] else [])
  }

  /** The two key lists of orderValidation, written out for the three keys. */
  lemma OrderKeyLists(order: Record)
    ensures MissingKeys(OrderKeys, order)
      == IfMissing(order, "deliverTo") + IfMissing(order, "mobileNumber") + IfMissing(order, "dishes")
    ensures BlankKeys(OrderKeys, order)
      == IfBlank(order, "deliverTo") + IfBlank(order, "mobileNumber") + IfBlank(order, "dishes")
  {
    var k1, k2 := OrderKeys[..1], OrderKeys[..2];
    assert k1[..0] == [] && k2[..1] == k1;
    assert k1 == ["deliverTo"] && k2 == ["deliverTo", "mobileNumber"];
    assert MissingKeys(k1, order) == IfMissing(order, "deliverTo");
    assert BlankKeys(k1, order) == IfBlank(order, "deliverTo");
  }

  /** The second loop of orderValidation throws on one of the three keys. */
  lemma OrderKeysThrow(order: Record)
    ensures KeysThrow(OrderKeys, order)
      <==> ThrowsAt(order, "deliverTo") || ThrowsAt(order, "mobileNumber") || ThrowsAt(order, "dishes")
  {
  }

  // ---------------------------------------------------------------------
  // orderValidation: the per-dish pass
  // ---------------------------------------------------------------------

  /** The TypeError reading `quantity` of null or undefined throws, in the
      wording of the V8 engine from Node 16.9 on (older engines say "Cannot
      read property 'quantity' of null"). */
  function ReadQuantityError(item: Value): (r: string) {
    "Cannot read properties of " + (if item == Null then "null" else "undefined") + " (reading 'quantity')"
  }

  /** `dish.quantity` for an element that is not null or undefined: only an
      object can have the property. */
  function Quantity(item: Value): (r: Value) {
    match item
    case Obj(fields) => Get(fields, "quantity")
    case _ => Undefined
  }

  /** `q === undefined || q === null || q == 0 || !Number.isInteger(q)` for
      the quantity of element `index`: a 400 naming the index when the test
      holds, a TypeError when `q == 0` throws. */
  function QuantityOutcome(q: Value, index: nat): (r: Outcome) {
    if q == Undefined || q == Null then NextError(400, QuantityMessage(index))
    else if Throws(q) then TypeError(ConversionError)
    else if !IsInteger(q) || LooseEq(q, Num(0, 0)) then NextError(400, QuantityMessage(index))
    else Next
  }

  /** The check passes exactly a non-zero integer, so a negative integer
      passes; it throws exactly on a quantity that cannot be converted, and
      every other failure is the 400 naming the index. */
  lemma QuantityCheckIff(q: Value, index: nat)
    ensures QuantityOutcome(q, index) == Next <==> q.Num? && IsInteger(q) && q.m != 0
    ensures QuantityOutcome(q, index).TypeError? <==> Throws(q)
    ensures QuantityOutcome(q, index).NextError? ==> QuantityOutcome(q, index) == NextError(400, QuantityMessage(index))
  {
    if q == Undefined || q == Null || Throws(q) {
    } else if q.Num? {
      NumComparisons(q.m, q.e);
    } else {
      assert QuantityOutcome(q, index) == NextError(400, QuantityMessage(index));
    }
  }

  /** What the forEach callback does with element `index`: reading
      `quantity` of null or undefined throws; otherwise the quantity check
      decides. */
  function ItemOutcome(item: Value, index: nat): (r: Outcome) {
    if IsNullish(item) then TypeError(ReadQuantityError(item))
    else QuantityOutcome(Quantity(item), index)
  }

  /** What the forEach callback does with each element, in order. */
  function ItemOutcomes(items: seq<Value>): (r: seq<Outcome>)
    ensures |r| == |items|
  {
    seq(|items|, i requires 0 <= i < |items| => ItemOutcome(items[i], i))
  }

  /** The first report of a forEach whose calls end with `outcomes`,
      looking from `from` on: the first call that does not continue. */
  function FirstFailure(outcomes: seq<Outcome>, from: nat): (r: Outcome)
    requires from <= |outcomes|
    decreases |outcomes| - from
  {
    if from == |outcomes| then Next
    else if outcomes[from] != Next then outcomes[from]
    else FirstFailure(outcomes, from + 1)
  }

  /** The pass continues exactly when every call continues, and otherwise
      reports the first call that does not. */
  lemma {:induction false} FirstFailureSpec(outcomes: seq<Outcome>, from: nat)
    requires from <= |outcomes|
    ensures FirstFailure(outcomes, from) == Next <==> forall i | from <= i < |outcomes| :: outcomes[i] == Next
    ensures FirstFailure(outcomes, from) != Next ==> exists i | from <= i < |outcomes| ::
      && FirstFailure(outcomes, from) == outcomes[i]
      && forall j | from <= j < i :: outcomes[j] == Next
    decreases |outcomes| - from
  {
    if from < |outcomes| {
      FirstFailureSpec(outcomes, from + 1);
      if outcomes[from] != Next {
        assert FirstFailure(outcomes, from) == outcomes[from];
      } else if FirstFailure(outcomes, from) != Next {
        var i :| from + 1 <= i < |outcomes|
          && FirstFailure(outcomes, from + 1) == outcomes[i]
          && forall j | from + 1 <= j < i :: outcomes[j] == Next;
        assert forall j | from <= j < i :: outcomes[j] == Next;
      }
    }
  }

  /** The `dishes.forEach` of orderValidation, up to the first report. */
  method CheckQuantities(items: seq<Value>) returns (o: Outcome)
    ensures o == FirstFailure(ItemOutcomes(items), 0)
  {
    ghost var outcomes := ItemOutcomes(items);
    for index := 0 to |items|
      invariant FirstFailure(outcomes, 0) == FirstFailure(outcomes, index)
    {
      var item := items[index];
      if item == Undefined || item == Null {
        return TypeError(ReadQuantityError(item));
      }
      var quantity := Quantity(item);
      if quantity == Undefined || quantity == Null {
        return NextError(400, QuantityMessage(index));
      }
      if Throws(quantity) {
        return TypeError(ConversionError);
      }
      if LooseEq(quantity, Num(0, 0)) || !IsInteger(quantity) {
        return NextError(400, QuantityMessage(index));
      }
    }
    o := Next;
  }

  /** Everything orderValidation decides: thrown out of its second loop when
      a required value cannot be compared with "", otherwise the accumulated
      400, or else the first report of the per-dish pass. */
  function OrderVerdict(order: Record): (r: Outcome) {
    var messages := OrderMessages(order);
    if KeysThrow(OrderKeys, order) then TypeError(ConversionError)
    else if |messages| > 0 then Verdict(messages)
    else FirstFailure(ItemOutcomes(Get(order, "dishes").items), 0)
  }

  /** orderValidation. */
  method OrderValidation(order: Record) returns (o: Outcome)
    ensures o == OrderVerdict(order)
  {
    var missing := CollectMissing(OrderKeys, order);
    var blankOrThrown := CollectBlank(OrderKeys, order);
    if blankOrThrown.None? {
      return TypeError(ConversionError);
    }
    var blank := blankOrThrown.value;
    var errors: seq<string> := [];
    if |missing| > 0 {
      errors := errors + [MissingMessage(missing)];
    }
    if |blank| > 0 {
      errors := errors + [BlankMessage(blank)];
    }
    assert errors == KeyMessages(MissingKeys(OrderKeys, order), BlankKeys(OrderKeys, order));
    if !Get(order, "dishes").Arr? {
      errors := errors + [NoDishesMessage];
    }
    assert errors == OrderMessages(order);
    if |errors| > 0 {
      return NextError(400, Join(errors, "\n"));
    }
    // `dishes` is an array here, so `dishes !== undefined` holds.
    o := CheckQuantities(Get(order, "dishes").items);
  }

  /** An element the per-dish pass lets through. */
  predicate WellFormedItem(item: Value) {
    item.Obj? && Quantity(item).Num? && IsInteger(Quantity(item)) && Quantity(item).m != 0
  }

  /** An order orderValidation lets through: delivery address, mobile number
      and dishes present, convertible and not empty, the dishes a non-empty
      array each with a non-zero integer quantity. */
  predicate WellFormedOrder(order: Record) {
    && Filled(order, "deliverTo") && Filled(order, "mobileNumber")
    && "dishes" in order && !Throws(order["dishes"])
    && order["dishes"].Arr? && |order["dishes"].items| > 0
    && forall i | 0 <= i < |order["dishes"].items| :: WellFormedItem(order["dishes"].items[i])
  }

  /** orderValidation continues exactly for a well-formed order. */
  lemma OrderValidationPassesIff(order: Record)
    ensures OrderVerdict(order) == Next <==> WellFormedOrder(order)
  {
    OrderKeyLists(order);
    OrderKeysThrow(order);
    var dishes := Get(order, "dishes");
    LooseEqEmptyCases(dishes);
    if dishes.Arr? {
      var items := dishes.items;
      ItemsPassIff(items);
      if |items| == 1 && WellFormedItem(items[0]) {
        assert ElementString(items[0]) == "[object Object]";
      }
    }
  }

  /** The per-dish pass continues exactly when every element has a non-zero
      integer quantity. */
  lemma ItemsPassIff(items: seq<Value>)
    ensures FirstFailure(ItemOutcomes(items), 0) == Next
      <==> forall i | 0 <= i < |items| :: WellFormedItem(items[i])
  {
    var outcomes := ItemOutcomes(items);
    FirstFailureSpec(outcomes, 0);
    forall i | 0 <= i < |items|
      ensures outcomes[i] == Next <==> WellFormedItem(items[i])
    {
      QuantityCheckIff(Quantity(items[i]), i);
    }
  }

  /** The id createOrder gives a valid payload keeps it valid. */
  lemma CreatedOrderWellFormed(order: Record, freshId: string)
    requires OrderVerdict(order) == Next
    ensures WellFormedOrder(order["id" := Str(freshId)])
  {
    OrderValidationPassesIff(order);
    var created := order["id" := Str(freshId)];
    assert created["dishes"] == order["dishes"];
  }

  /** Every stored order is one orderValidation lets through. */
  predicate AllWellFormedOrders(orders: seq<Record>) {
    forall i {:trigger WellFormedOrder(orders[i])} | 0 <= i < |orders| :: WellFormedOrder(orders[i])
  }

  /** An empty `dishes` array is "empty" (`[] == ""`), and that alone is
      reported. */
  lemma EmptyDishesReported(order: Record)
    requires Filled(order, "deliverTo") && Filled(order, "mobileNumber")
    requires "dishes" in order && order["dishes"] == Arr([])
    ensures OrderVerdict(order) == NextError(400, BlankMessage(["dishes"]))
  {
    OrderKeyLists(order);
    OrderKeysThrow(order);
    LooseEqEmptyCases(Arr([]));
    assert OrderMessages(order) == [BlankMessage(["dishes"])];
  }

  /** Without `dishes`, the missing-key message and "at least one dish" are
      reported together, before any per-dish check. */
  lemma MissingDishesReported(order: Record)
    requires Filled(order, "deliverTo") && Filled(order, "mobileNumber")
    requires "dishes" !in order
    ensures OrderVerdict(order) == NextError(400, MissingMessage(["dishes"]) + "\n" + NoDishesMessage)
  {
    OrderKeyLists(order);
    OrderKeysThrow(order);
    assert MissingKeys(OrderKeys, order) == ["dishes"];
    assert BlankKeys(OrderKeys, order) == [];
    var messages := [MissingMessage(["dishes"]), NoDishesMessage];
    assert OrderMessages(order) == messages;
    assert messages[1..] == [NoDishesMessage];
    assert Join(messages, "\n") == MissingMessage(["dishes"]) + "\n" + NoDishesMessage;
  }

  /** With a valid first dish and a second one of quantity 0, the 400 names
      index 1. */
  lemma SecondDishZeroQuantityReported(order: Record, first: Value, fields: map<string, Value>, e: int)
    requires Filled(order, "deliverTo") && Filled(order, "mobileNumber")
    requires WellFormedItem(first) && !Throws(first)
    requires "quantity" in fields && fields["quantity"] == Num(0, e) && "toString" !in fields
    requires "dishes" in order && order["dishes"] == Arr([first, Obj(fields)])
    ensures OrderVerdict(order) == NextError(400, QuantityMessage(1))
  {
    var items := [first, Obj(fields)];
    assert Filled(order, "dishes") by {
      PairNeitherThrowsNorBlank(first, Obj(fields));
    }
    OrderVerdictOfFilled(order);
    SecondItemZeroQuantity(first, fields, e);
  }

  /** A two-element array of values that convert is neither blank nor
      throwing. */
  lemma PairNeitherThrowsNorBlank(x: Value, y: Value)
    requires !Throws(x) && !Throws(y)
    ensures !Throws(Arr([x, y])) && !IsBlank(Arr([x, y]))
  {
    var items := [x, y];
    assert !Throws(items[0]) && !Throws(items[1]);
    LooseEqEmptyCases(Arr(items));
  }

  /** The per-dish pass over a valid dish and a dish of quantity 0 reports
      index 1. */
  lemma SecondItemZeroQuantity(first: Value, fields: map<string, Value>, e: int)
    requires WellFormedItem(first)
    requires "quantity" in fields && fields["quantity"] == Num(0, e) && "toString" !in fields
    ensures FirstFailure(ItemOutcomes([first, Obj(fields)]), 0) == NextError(400, QuantityMessage(1))
  {
    var items := [first, Obj(fields)];
    var outcomes := ItemOutcomes(items);
    assert outcomes[0] == Next by {
      QuantityCheckIff(Quantity(first), 0);
    }
    assert outcomes[1] == NextError(400, QuantityMessage(1)) by {
      NumComparisons(0, e);
      assert Quantity(items[1]) == Num(0, e);
    }
    assert FirstFailure(outcomes, 1) == outcomes[1];
  }

  /** With the three keys filled and `dishes` an array, only the per-dish
      pass is left to decide. */
  lemma OrderVerdictOfFilled(order: Record)
    requires Filled(order, "deliverTo") && Filled(order, "mobileNumber") && Filled(order, "dishes")
    requires order["dishes"].Arr?
    ensures OrderVerdict(order) == FirstFailure(ItemOutcomes(order["dishes"].items), 0)
  {
    OrderKeyLists(order);
    OrderKeysThrow(order);
    assert MissingKeys(OrderKeys, order) == [] && BlankKeys(OrderKeys, order) == [];
  }

  /** A dish object with its own `toString` key makes the `dishes == ""`
      test of the second loop throw, before any quantity is looked at. */
  lemma OwnToStringDishThrows(order: Record, fields: map<string, Value>)
    requires "toString" in fields
    requires "dishes" in order && order["dishes"] == Arr([Obj(fields)])
    ensures OrderVerdict(order) == TypeError(ConversionError)
  {
    assert order["dishes"].items[0] == Obj(fields);
    assert ThrowsAt(order, "dishes");
    assert "dishes" in OrderKeys;
  }

  // ---------------------------------------------------------------------
  // updateOrderValidation
  // ---------------------------------------------------------------------

  /** `status === undefined || status === null || status == "" ||
      !allowed.includes(status)`: a 400 when the test holds, a TypeError
      when `status == ""` throws. */
  function StatusOutcomeAgainst(status: Value, allowed: seq<string>): (r: Outcome) {
    if status == Undefined || status == Null then NextError(400, StatusMessage)
    else if Throws(status) then TypeError(ConversionError)
    else if LooseEqEmpty(status) || !(status.Str? && status.s in allowed) then NextError(400, StatusMessage)
    else Next
  }

  /** The status check of updateOrderValidation, over its `validStatus`. */
  function StatusOutcome(status: Value): (r: Outcome) {
    StatusOutcomeAgainst(status, ValidStatus)
  }

  /** The status check accepts exactly the four listed strings, throws
      exactly on a status that cannot be converted, and otherwise fails with
      the status message. */
  lemma StatusAcceptedIff(status: Value)
    ensures StatusOutcome(status) == Next <==>
      status == Str("pending") || status == Str("preparing")
      || status == Str("out-for-deliver") || status == Str("delivered")
    ensures StatusOutcome(status).TypeError? <==> Throws(status)
    ensures StatusOutcome(status).NextError? ==> StatusOutcome(status) == NextError(400, StatusMessage)
  {
    if status.Str? && status.s in ValidStatus {
      LooseEqEmptyCases(status);
    }
  }

  /** The status test of updateOrderValidation, in the order JavaScript
      evaluates it. */
  method CheckStatus(status: Value) returns (o: Outcome)
    ensures o == StatusOutcome(status)
  {
    if status == Undefined || status == Null {
      return NextError(400, StatusMessage);
    }
    if Throws(status) {
      return TypeError(ConversionError);
    }
    if LooseEqEmpty(status) || !(status.Str? && status.s in ValidStatus) {
      return NextError(400, StatusMessage);
    }
    o := Next;
  }

  /** updateOrderValidation: the status check first; then, as for dishes, an
      empty payload id takes the route id and the ids must be loosely equal.
      Returns the payload as the step leaves it. */
  method UpdateOrderValidation(orderId: string, order: Record) returns (filled: Record, o: Outcome)
    ensures StatusOutcome(Get(order, "status")) != Next ==> o == StatusOutcome(Get(order, "status")) && filled == order
    ensures StatusOutcome(Get(order, "status")) == Next ==>
      filled == FillId(order, orderId) && o == IdCheck("Order", filled, orderId)
  {
    o := CheckStatus(Get(order, "status"));
    if o != Next {
      return order, o;
    }
    filled, o := ReconcileId("Order", order, orderId);
  }

  // ---------------------------------------------------------------------
  // deleteOrder's lookup and removal
  // ---------------------------------------------------------------------

  /** `records.findIndex(r => r.id === n)`, -1 when nothing matches. */
  function FindIndexByNumber(records: seq<Record>, n: Number): (r: int)
    ensures -1 <= r < |records|
    ensures r >= 0 ==> StrictEqNumber(Get(records[r], "id"), n)
    ensures r >= 0 ==> forall j | 0 <= j < r :: !StrictEqNumber(Get(records[j], "id"), n)
    ensures r == -1 ==> forall j | 0 <= j < |records| :: !StrictEqNumber(Get(records[j], "id"), n)
  {
    if records == [] then -1
    else if StrictEqNumber(Get(records[0], "id"), n) then 0
    else
      var k := FindIndexByNumber(records[1..], n);
      if k == -1 then -1 else k + 1
  }

  /** The array `records.splice(start, 1)` leaves: a negative start counts
      from the end. */
  function SpliceOne(records: seq<Record>, start: int): (r: seq<Record>) {
    var len := |records|;
    var at := if start < 0 then (if len + start < 0 then 0 else len + start) else (if start > len then len else start);
    if at < len then records[..at] + records[at + 1..] else records
  }

  /** A splice at an index in range, or at -1 on a non-empty array, removes
      exactly one record and keeps the others in order. */
  lemma SpliceOneRemovesOne(records: seq<Record>, start: int)
    requires |records| > 0 && -1 <= start < |records|
    ensures var at := if start < 0 then |records| - 1 else start;
      && |SpliceOne(records, start)| == |records| - 1
      && SpliceOne(records, start) == records[..at] + records[at + 1..]
  {
    var at := if start < 0 then |records| - 1 else start;
    assert SpliceOne(records, start) == records[..at] + records[at + 1..];
  }

  /** Removing one order keeps every remaining order valid. */
  lemma SpliceKeepsWellFormed(orders: seq<Record>, start: int)
    requires AllWellFormedOrders(orders)
    ensures AllWellFormedOrders(SpliceOne(orders, start))
  {
    var rest := SpliceOne(orders, start);
    forall i | 0 <= i < |rest| ensures WellFormedOrder(rest[i]) {
      assert rest[i] in orders;
    }
  }

  // ---------------------------------------------------------------------
  // The store and the route chains
  // ---------------------------------------------------------------------

  /** The module-level `orders` array and the handlers that read and change it. */
  class OrderStore {
    var orders: seq<Record>

    /** The store as the seed data leaves it. */
    constructor (seed: seq<Record>)
      ensures orders == seed
    {
      orders := seed;
    }

    /** orderExists: 404 unless some order's id is strictly equal to the
        route id; otherwise the first such order is attached. */
    method OrderExists(orderId: string) returns (o: Outcome, found: Option<Record>)
      ensures o == Next <==> exists i | 0 <= i < |orders| :: Get(orders[i], "id") == Str(orderId)
      ensures o != Next ==> o == NextError(404, NotFoundMessage(orderId)) && found == None
      ensures o == Next ==> FindById(orders, orderId).Some? && found == Some(orders[FindById(orders, orderId).value])
    {
      var index := FindById(orders, orderId);
      if index.None? {
        return NextError(404, NotFoundMessage(orderId)), None;
      }
      return Next, Some(orders[index.value]);
    }

    /** The `readOrder` chain: orderExists, then readOrder, which sends the
        attached order. */
    method ReadOrder(orderId: string) returns (reply: Reply<Record>)
      ensures reply.Respond? <==> exists i | 0 <= i < |orders| :: Get(orders[i], "id") == Str(orderId)
      ensures !reply.Respond? ==> reply == ErrorReply(404, NotFoundMessage(orderId))
      ensures reply.Respond? ==> reply.status == 200 && exists i | 0 <= i < |orders| ::
        && reply.data == orders[i] && Get(orders[i], "id") == Str(orderId)
        && forall j | 0 <= j < i :: Get(orders[j], "id") != Str(orderId)
    {
      var o, found := OrderExists(orderId);
      if o != Next {
        return ErrorReply(o.status, o.message);
      }
      reply := Respond(200, found.value);
    }

    /** The `listOrders` handler: every order, in insertion order, unchanged. */
    method ListOrders() returns (reply: Reply<seq<Record>>)
      ensures reply == Respond(200, orders)
    {
      reply := Respond(200, orders);
    }

    /** The `createOrder` chain: orderValidation, then createOrder, which
        gives the payload the fresh id and appends it. `freshId` is what
        `nextId()` returns. */
    method CreateOrder(order: Record, freshId: string) returns (reply: Reply<Record>)
      modifies this
      ensures var check := OrderVerdict(order);
        var created := order["id" := Str(freshId)];
        if check.NextError? then
          reply == ErrorReply(check.status, check.message) && orders == old(orders)
        else if check.TypeError? then
          reply == Uncaught(check.message) && orders == old(orders)
        else
          reply == Respond(201, created) && orders == old(orders) + [created]
      ensures AllWellFormedOrders(old(orders)) ==> AllWellFormedOrders(orders)
    {
      var o := OrderValidation(order);
      if o.NextError? {
        return ErrorReply(o.status, o.message);
      } else if o.TypeError? {
        return Uncaught(o.message);
      }
      var created := order["id" := Str(freshId)];
      CreatedOrderWellFormed(order, freshId);
      orders := orders + [created];
      reply := Respond(201, created);
    }

    /** The `updateOrder` chain: orderExists, orderValidation,
        updateOrderValidation, updateOrder. The last step only fills the id
        again and sends the payload back: the chain never writes to the
        store (no `modifies` clause). */
    method UpdateOrder(orderId: string, order: Record) returns (reply: Reply<Record>)
      ensures var check := OrderVerdict(order);
        var statusCheck := StatusOutcome(Get(order, "status"));
        var filled := FillId(order, orderId);
        var idCheck := IdCheck("Order", filled, orderId);
        if FindById(orders, orderId).None? then
          reply == ErrorReply(404, NotFoundMessage(orderId))
        else if check != Next then
          reply == Halt(check)
        else if statusCheck != Next then
          reply == Halt(statusCheck)
        else if idCheck != Next then
          reply == Halt(idCheck)
        else
          reply == Respond(200, filled)
    {
      var o, _ := OrderExists(orderId);
      if o != Next {
        return ErrorReply(o.status, o.message);
      }
      o := OrderValidation(order);
      if o.NextError? {
        return ErrorReply(o.status, o.message);
      } else if o.TypeError? {
        return Uncaught(o.message);
      }
      var filled;
      filled, o := UpdateOrderValidation(orderId, order);
      if o != Next {
        return Halt(o);
      }
      IdCheckAfterFill("Order", order, orderId);
      // updateOrder: fill the id once more and send the payload.
      FillIdIdempotent(order, orderId);
      var id := Get(filled, "id");
      if id == Undefined || id == Null || LooseEqEmpty(id) {
        filled := filled["id" := Str(orderId)];
      }
      reply := Respond(200, filled);
    }

    /** The `deleteOrder` chain: orderExists, then deleteOrder. A found order
        whose status is not exactly "pending" gives a 400 and nothing
        changes; otherwise the array is spliced at the index of the first
        order whose id is the NUMBER the route id converts to, which is -1
        (the last order) when no id is such a number. */
    method DeleteOrder(orderId: string) returns (reply: Reply<()>)
      modifies this
      ensures var found := FindById(old(orders), orderId);
        if found.None? then
          reply == ErrorReply(404, NotFoundMessage(orderId)) && orders == old(orders)
        else if Get(old(orders)[found.value], "status") != Str("pending") then
          reply == ErrorReply(400, NotPendingMessage) && orders == old(orders)
        else
          && reply == Respond(204, ())
          && orders == SpliceOne(old(orders), FindIndexByNumber(old(orders), StringToNumber(orderId)))
      ensures reply.Respond? ==> |orders| == |old(orders)| - 1
      ensures AllWellFormedOrders(old(orders)) ==> AllWellFormedOrders(orders)
    {
      var o, found := OrderExists(orderId);
      if o != Next {
        return ErrorReply(o.status, o.message);
      }
      if !StrictEq(Get(found.value, "status"), Str("pending")) {
        return ErrorReply(400, NotPendingMessage);
      }
      var index := FindIndexByNumber(orders, StringToNumber(orderId));
      ghost var before := orders;
      orders := SpliceOne(orders, index);
      assert |orders| == |before| - 1 by {
        SpliceOneRemovesOne(before, index);
      }
      assert AllWellFormedOrders(before) ==> AllWellFormedOrders(orders) by {
        if AllWellFormedOrders(before) {
          SpliceKeepsWellFormed(before, index);
        }
      }
      reply := Respond(204, ());
    }
  }

  // ---------------------------------------------------------------------
  // Findings
  // ---------------------------------------------------------------------

  /** As written: when no stored id is a number (nextId and the seed data
      give strings), `findIndex` gives -1 and the splice removes the LAST
      order, whatever the route id. */
  lemma DeleteRemovesLastOrder(orders: seq<Record>, orderId: string)
    requires |orders| > 0
    requires forall j | 0 <= j < |orders| :: !Get(orders[j], "id").Num?
    ensures SpliceOne(orders, FindIndexByNumber(orders, StringToNumber(orderId))) == orders[..|orders| - 1]
  {
    assert FindIndexByNumber(orders, StringToNumber(orderId)) == -1;
  }

  /** As written: deleting a pending order that is not the last one leaves
      it in the store, still found by its id. */
  lemma DeletedOrderSurvives(orders: seq<Record>, orderId: string, i: nat)
    requires FindById(orders, orderId) == Some(i) && i < |orders| - 1
    requires forall j | 0 <= j < |orders| :: !Get(orders[j], "id").Num?
    ensures FindById(SpliceOne(orders, FindIndexByNumber(orders, StringToNumber(orderId))), orderId) == Some(i)
  {
    DeleteRemovesLastOrder(orders, orderId);
    FindByIdInPrefix(orders, orderId, i, |orders| - 1);
  }

  /** The intended delete: remove the order the route id found. */
  function RemoveFound(orders: seq<Record>, orderId: string): (r: seq<Record>) {
    match FindById(orders, orderId)
    case None => orders
    case Some(i) => orders[..i] + orders[i + 1..]
  }

  /** The intended delete removes exactly the found order, keeps the others
      in order, and, ids being unique, the order is gone from later lookups. */
  lemma RemoveFoundRemovesTarget(orders: seq<Record>, orderId: string, i: nat)
    requires FindById(orders, orderId) == Some(i)
    requires forall j | 0 <= j < |orders| && j != i :: Get(orders[j], "id") != Str(orderId)
    ensures |RemoveFound(orders, orderId)| == |orders| - 1
    ensures forall j | 0 <= j < i :: RemoveFound(orders, orderId)[j] == orders[j]
    ensures forall j | i <= j < |orders| - 1 :: RemoveFound(orders, orderId)[j] == orders[j + 1]
    ensures FindById(RemoveFound(orders, orderId), orderId) == None
  {
    var rest := RemoveFound(orders, orderId);
    assert rest == orders[..i] + orders[i + 1..];
    forall j | 0 <= j < |rest| ensures Get(rest[j], "id") != Str(orderId) {
      if j < i {
        assert rest[j] == orders[j];
      } else {
        assert rest[j] == orders[j + 1];
      }
    }
  }

  /** As written: "out-for-delivery", the spelling the error message gives,
      is rejected, while "out-for-deliver" is accepted. */
  lemma OutForDeliveryRejected()
    ensures StatusOutcome(Str("out-for-delivery")) == NextError(400, StatusMessage)
    ensures StatusOutcome(Str("out-for-deliver")) == Next
  {
    StatusAcceptedIff(Str("out-for-delivery"));
    StatusAcceptedIff(Str("out-for-deliver"));
  }

  /** The statuses the status message names. */
  const IntendedStatus: seq<string> := ["pending", "preparing", "out-for-delivery", "delivered"]

  /** The intended status check, over the statuses the message names. */
  function StatusOutcomeIntended(status: Value): (r: Outcome) {
    StatusOutcomeAgainst(status, IntendedStatus)
  }

  /** The intended check differs from the code only on the misspelt
      status: it accepts "out-for-delivery", the spelling the message gives,
      rejects "out-for-deliver", and agrees with the code on every other
      value. */
  lemma IntendedStatusFixesTypo(status: Value)
    ensures StatusOutcomeIntended(Str("out-for-delivery")) == Next
    ensures StatusOutcomeIntended(Str("out-for-deliver")) == NextError(400, StatusMessage)
    ensures status != Str("out-for-delivery") && status != Str("out-for-deliver") ==>
      StatusOutcomeIntended(status) == StatusOutcome(status)
  {
    LooseEqEmptyCases(Str("out-for-delivery"));
    if status.Str? {
      LooseEqEmptyCases(status);
    }
  }

  /** As written: a negative integer quantity passes the per-dish check,
      although the message asks for an integer greater than 0. */
  lemma NegativeQuantityAccepted(m: int, index: nat)
    requires m < 0
    ensures ItemOutcome(Obj(map["quantity" := Num(m, 0)]), index) == Next
  {
    QuantityCheckIff(Num(m, 0), index);
  }

  /** The intended check, "an integer greater than 0". */
  function QuantityOutcomeIntended(q: Value, index: nat): (r: Outcome) {
    if q.Num? && IsInteger(q) && q.m > 0 then Next else NextError(400, QuantityMessage(index))
  }

  /** The intended check accepts only what the code accepts, and of that
      exactly the quantities above 0: the two differ on the negative
      integers alone, where the code accepts. */
  lemma QuantityIntendedIff(q: Value, index: nat)
    ensures QuantityOutcomeIntended(q, index) == Next ==> QuantityOutcome(q, index) == Next
    ensures QuantityOutcomeIntended(q, index) == Next ==> DecimalValue(q.m, q.e) > 0.0
    ensures QuantityOutcome(q, index) == Next && QuantityOutcomeIntended(q, index) != Next
      <==> q.Num? && IsInteger(q) && q.m < 0
  {
    QuantityCheckIff(q, index);
    if q.Num? {
      DecimalValueSign(q.m, q.e);
    }
  }

  /** As written: after a successful PUT the stored order is what it was
      before; the reply only echoes the payload. */
  method UpdateIsNotStored(store: OrderStore, orderId: string, order: Record)
    returns (before: Reply<Record>, update: Reply<Record>, after: Reply<Record>)
    ensures after == before
    ensures update.Respond? ==> update.data == FillId(order, orderId)
  {
    before := store.ReadOrder(orderId);
    update := store.UpdateOrder(orderId, order);
    after := store.ReadOrder(orderId);
  }

  /** The intended update: merge the payload into the matching orders, as
      updateDish does for dishes. */
  function UpdateOrderIntended(orders: seq<Record>, orderId: string, order: Record): (r: seq<Record>) {
    MergeMatching(orders, FillId(order, orderId))
  }

  /** With the intended update, an order that passes updateOrderValidation
      is stored: the found order then carries the new status. */
  lemma UpdateOrderIntendedStoresStatus(orders: seq<Record>, orderId: string, order: Record, i: nat)
    requires FindById(orders, orderId) == Some(i)
    requires StatusOutcome(Get(order, "status")) == Next
    requires IdCheck("Order", FillId(order, orderId), orderId) == Next
    ensures Get(UpdateOrderIntended(orders, orderId, order)[i], "status") == Get(order, "status")
  {
    IdCheckAfterFill("Order", order, orderId);
    var filled := FillId(order, orderId);
    MergeReachesFoundRecord(orders, filled, orderId, i);
    assert "status" in filled;
  }
}
