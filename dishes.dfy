/// The dish controller: its validators, its handlers over the module-level
/// `dishes` array, and the middleware chains the router mounts
/// (src/dishes/dishes.controller.js).
module Dishes {
  import opened JsValues
  import opened Middleware

  /** The keys a dish payload must carry, in the order they are reported. */
  const DishKeys: seq<string> := ["name", "description", "price", "image_url"]

  const NotANumberMessage := "Dish price must be a number!"
  const ZeroPriceMessage := "Dish price can't be equal to 0!"
  const NegativePriceMessage := "Dish price can't be less than 0!"

  function NotFoundMessage(dishId: string): (r: string) {
    "Dish id not found " + dishId
  }

  // ---------------------------------------------------------------------
  // dishValidation
  // ---------------------------------------------------------------------

  /** The three independent checks run when `price !== undefined`, for a
      price whose comparisons do not throw. */
  function PriceMessages(price: Value): (r: seq<string>) {
    if price == Undefined then []
    else
      (if !price.Num? then [NotANumberMessage] else [])
      + (if LooseEq(price, Num(0, 0)) then [ZeroPriceMessage] else [])
      + (if LessThanZero(price) then [NegativePriceMessage] else [])
  }

  /** Every message dishValidation collects, in the order it pushes them:
      missing keys, empty keys, then the price checks. */
  function DishMessages(dish: Record): (r: seq<string>) {
    KeyMessages(MissingKeys(DishKeys, dish), BlankKeys(DishKeys, dish)) + PriceMessages(Get(dish, "price"))
  }

  /** How dishValidation ends: thrown out of its second loop when a required
      value cannot be compared with "", otherwise with every message. */
  function DishVerdict(dish: Record): (r: Outcome) {
    if KeysThrow(DishKeys, dish) then TypeError(ConversionError) else Verdict(DishMessages(dish))
  }

  /** The two key lists of dishValidation, written out for the four keys. */
  lemma DishKeyLists(dish: Record)
    ensures MissingKeys(DishKeys, dish)
      == IfMissing(dish, "name") + IfMissing(dish, "description") + IfMissing(dish, "price") + IfMissing(dish, "image_url")
    ensures BlankKeys(DishKeys, dish)
      == IfBlank(dish, "name") + IfBlank(dish, "description") + IfBlank(dish, "price") + IfBlank(dish, "image_url")
  {
    var k1, k2, k3 := DishKeys[..1], DishKeys[..2], DishKeys[..3];
    assert k1[..0] == [] && k2[..1] == k1 && k3[..2] == k2;
    assert k1 == ["name"] && k2 == ["name", "description"] && k3 == ["name", "description", "price"];
    assert MissingKeys(k1, dish) == IfMissing(dish, "name");
    assert MissingKeys(k2, dish) == IfMissing(dish, "name") + IfMissing(dish, "description");
    assert BlankKeys(k1, dish) == IfBlank(dish, "name");
    assert BlankKeys(k2, dish) == IfBlank(dish, "name") + IfBlank(dish, "description");
  }

  /** The second loop of dishValidation throws on one of the four keys. */
  lemma DishKeysThrow(dish: Record)
    ensures KeysThrow(DishKeys, dish)
      <==> ThrowsAt(dish, "name") || ThrowsAt(dish, "description") || ThrowsAt(dish, "price") || ThrowsAt(dish, "image_url")
  {
  }

  /** The price checks of dishValidation, each pushing its own message;
      `price == 0` throws (`None`) on a price that cannot be converted. */
  method CheckPrice(price: Value) returns (errors: Option<seq<string>>)
    ensures errors.None? <==> Throws(price)
    ensures errors.Some? ==> errors.value == PriceMessages(price)
  {
    var acc := [];
    if price != Undefined {
      if !price.Num? {
        acc := acc + [NotANumberMessage];
      }
      if Throws(price) {
        return None;
      }
      if LooseEq(price, Num(0, 0)) {
        acc := acc + [ZeroPriceMessage];
      }
      if LessThanZero(price) {
        acc := acc + [NegativePriceMessage];
      }
    }
    return Some(acc);
  }

  /** dishValidation: accumulate every message, then fail with all of them
      or continue. */
  method DishValidation(dish: Record) returns (o: Outcome)
    ensures o == DishVerdict(dish)
  {
    var missing := CollectMissing(DishKeys, dish);
    var blankOrThrown := CollectBlank(DishKeys, dish);
    if blankOrThrown.None? {
      return TypeError(ConversionError);
    }
    var blank := blankOrThrown.value;
    var errors: seq<string> := [];
    if |missing| > 0 {
      errors := errors + [MissingMessage(missing)];
    }
    if |blank| > 0 {
      errors := errors + [BlankMessage(blank)];
    }
    assert errors == KeyMessages(missing, blank);
    var priceErrors := CheckPrice(Get(dish, "price"));
    assert "price" in DishKeys && !ThrowsAt(dish, "price");
    assert priceErrors.Some?;
    errors := errors + priceErrors.value;
    if |errors| > 0 {
      return NextError(400, Join(errors, "\n"));
    }
    return Next;
  }

  /** A dish that dishValidation lets through: every required key present
      with a value that converts and is not empty, and a price that is a
      number above 0. */
  predicate WellFormedDish(dish: Record) {
    && Filled(dish, "name") && Filled(dish, "description") && Filled(dish, "price") && Filled(dish, "image_url")
    && dish["price"].Num? && dish["price"].m > 0
  }

  /** dishValidation continues exactly for a well-formed dish. */
  lemma DishValidationPassesIff(dish: Record)
    ensures DishVerdict(dish) == Next <==> WellFormedDish(dish)
  {
    DishKeyLists(dish);
    DishKeysThrow(dish);
    var price := Get(dish, "price");
    if price.Num? {
      NumComparisons(price.m, price.e);
    }
  }

  /** A payload lacking `name` and `price` fails with a 400 whose first line
      lists both, in that order. */
  lemma MissingNameAndPriceReported(dish: Record)
    requires "name" !in dish && "price" !in dish
    requires "description" in dish && "image_url" in dish
    requires !ThrowsAt(dish, "description") && !ThrowsAt(dish, "image_url")
    ensures var o := DishVerdict(dish);
      && o.NextError? && o.status == 400
      && |o.message| >= |MissingMessage(["name", "price"])|
      && o.message[..|MissingMessage(["name", "price"])|] == MissingMessage(["name", "price"])
  {
    DishKeyLists(dish);
    DishKeysThrow(dish);
    assert MissingKeys(DishKeys, dish) == ["name", "price"];
    var messages := DishMessages(dish);
    assert messages[0] == MissingMessage(["name", "price"]);
    JoinStartsWithFirst(messages, "\n");
  }

  /** A price of 0 is both "empty" (`0 == ""`) and "equal to 0": the two
      messages are reported together, and nothing else. */
  lemma ZeroPriceReportedTwice(dish: Record, e: int)
    requires Filled(dish, "name") && Filled(dish, "description") && Filled(dish, "image_url")
    requires "price" in dish && dish["price"] == Num(0, e)
    ensures DishVerdict(dish) == NextError(400, BlankMessage(["price"]) + "\n" + ZeroPriceMessage)
  {
    DishKeyLists(dish);
    DishKeysThrow(dish);
    LooseEqEmptyCases(Num(0, e));
    NumComparisons(0, e);
    var messages := [BlankMessage(["price"]), ZeroPriceMessage];
    assert DishMessages(dish) == messages;
    assert messages[1..] == [ZeroPriceMessage];
    assert Join(messages, "\n") == BlankMessage(["price"]) + "\n" + Join([ZeroPriceMessage], "\n");
  }

  /** A negative price is reported as "less than 0" and nothing else. */
  lemma NegativePriceReported(dish: Record, m: int, e: int)
    requires Filled(dish, "name") && Filled(dish, "description") && Filled(dish, "image_url")
    requires m < 0 && "price" in dish && dish["price"] == Num(m, e)
    ensures DishVerdict(dish) == NextError(400, NegativePriceMessage)
  {
    DishKeyLists(dish);
    DishKeysThrow(dish);
    LooseEqEmptyCases(Num(m, e));
    NumComparisons(m, e);
    assert DishMessages(dish) == [NegativePriceMessage];
  }

  /** A positive numeral string is neither `== 0` nor `< 0`, nor `== ""`. */
  lemma NumeralComparisons(n: nat)
    requires n > 0
    ensures var s := Str(NatToString(n));
      !LooseEq(s, Num(0, 0)) && !LessThanZero(s) && !LooseEqEmpty(s) && !Throws(s)
  {
    var s := NatToString(n);
    NatToStringRoundTrip(n);
    DigitsToNumber(s);
    DecimalValueSign(0, 0);
    LooseEqEmptyCases(Str(s));
  }

  /** A price sent as a numeral string is rejected for its type only:
      `"5" == 0` and `"5" < 0` are both false. */
  lemma NumeralPriceReported(dish: Record, n: nat)
    requires Filled(dish, "name") && Filled(dish, "description") && Filled(dish, "image_url")
    requires n > 0 && "price" in dish && dish["price"] == Str(NatToString(n))
    ensures DishVerdict(dish) == NextError(400, NotANumberMessage)
  {
    NumeralComparisons(n);
    assert PriceMessages(dish["price"]) == [NotANumberMessage];
    DishKeyLists(dish);
    DishKeysThrow(dish);
    assert !KeysThrow(DishKeys, dish);
    assert MissingKeys(DishKeys, dish) == [] && BlankKeys(DishKeys, dish) == [];
    assert DishMessages(dish) == [NotANumberMessage];
  }

  /** A required value with its own `toString` key, directly or as an
      element of an array, makes dishValidation throw, whatever else the
      payload holds. */
  lemma OwnToStringThrows(dish: Record, key: string, fields: map<string, Value>)
    requires key in DishKeys && "toString" in fields
    requires key in dish && (dish[key] == Obj(fields) || dish[key] == Arr([Obj(fields)]))
    ensures DishVerdict(dish) == TypeError(ConversionError)
  {
    assert Throws(Obj(fields));
    if dish[key].Arr? {
      assert dish[key].items[0] == Obj(fields);
    }
    assert ThrowsAt(dish, key);
  }

  // ---------------------------------------------------------------------
  // updateDishValidation
  // ---------------------------------------------------------------------

  /** updateDishValidation: the id reconciliation shared with orders, for
      "Dish". It ends as `IdCheck` after `FillId`, which
      `Middleware.IdCheckAfterFill` describes case by case. Returns the
      payload as the step leaves it. */
  method UpdateDishValidation(dishId: string, dish: Record) returns (filled: Record, o: Outcome)
    ensures filled == FillId(dish, dishId)
    ensures o == IdCheck("Dish", filled, dishId)
  {
    filled, o := ReconcileId("Dish", dish, dishId);
  }

  // ---------------------------------------------------------------------
  // The store invariant kept by the chains
  // ---------------------------------------------------------------------

  /** Merging a well-formed payload into any dish gives a well-formed dish:
      the payload's keys overwrite all four required ones. */
  lemma AssignWellFormed(target: Record, patch: Record)
    requires WellFormedDish(patch)
    ensures WellFormedDish(Assign(target, patch))
  {
  }

  /** Changing only the id keeps a dish well-formed. */
  lemma FillIdWellFormed(dish: Record, dishId: string)
    requires WellFormedDish(dish)
    ensures WellFormedDish(FillId(dish, dishId))
  {
  }

  predicate AllWellFormed(dishes: seq<Record>) {
    forall i | 0 <= i < |dishes| :: WellFormedDish(dishes[i])
  }

  /** A merge of a well-formed payload keeps every dish well-formed, however
      many rounds of the loop ran. */
  lemma MergeKeepsWellFormed(dishes: seq<Record>, patch: Record, n: nat)
    requires AllWellFormed(dishes) && WellFormedDish(patch)
    ensures AllWellFormed(MergeBefore(dishes, patch, n))
  {
    forall i | 0 <= i < |dishes| ensures WellFormedDish(MergeBefore(dishes, patch, n)[i]) {
      AssignWellFormed(dishes[i], patch);
    }
  }

  /** An update payload that passes dishValidation, once its id is filled,
      keeps a store of well-formed dishes well-formed. */
  lemma UpdateKeepsWellFormed(dishes: seq<Record>, dish: Record, dishId: string, n: nat)
    requires AllWellFormed(dishes) && DishVerdict(dish) == Next
    ensures AllWellFormed(MergeBefore(dishes, FillId(dish, dishId), n))
  {
    DishValidationPassesIff(dish);
    FillIdWellFormed(dish, dishId);
    MergeKeepsWellFormed(dishes, FillId(dish, dishId), n);
  }

  // ---------------------------------------------------------------------
  // The store and the route chains
  // ---------------------------------------------------------------------

  /** The module-level `dishes` array and the handlers that read and change it. */
  class DishStore {
    var dishes: seq<Record>

    /** The store as the seed data leaves it. */
    constructor (seed: seq<Record>)
      ensures dishes == seed
    {
      dishes := seed;
    }

    /** dishExists: 404 unless some dish's id is strictly equal to the route
        id; otherwise the first such dish is attached for the next steps. */
    method DishExists(dishId: string) returns (o: Outcome, found: Option<Record>)
      ensures o == Next <==> exists i | 0 <= i < |dishes| :: Get(dishes[i], "id") == Str(dishId)
      ensures o == Next <==> FindById(dishes, dishId).Some?
      ensures o != Next ==> o == NextError(404, NotFoundMessage(dishId)) && found == None
      ensures o == Next ==> exists i | 0 <= i < |dishes| ::
        && found == Some(dishes[i]) && Get(dishes[i], "id") == Str(dishId)
        && forall j | 0 <= j < i :: Get(dishes[j], "id") != Str(dishId)
    {
      var index := FindById(dishes, dishId);
      if index.None? {
        return NextError(404, NotFoundMessage(dishId)), None;
      }
      return Next, Some(dishes[index.value]);
    }

    /** The `readDish` chain: dishExists, then readDish, which finds the
        same dish again and sends it. */
    method ReadDish(dishId: string) returns (reply: Reply<Record>)
      ensures reply.Respond? <==> exists i | 0 <= i < |dishes| :: Get(dishes[i], "id") == Str(dishId)
      ensures !reply.Respond? ==> reply == ErrorReply(404, NotFoundMessage(dishId))
      ensures reply.Respond? ==> reply.status == 200 && exists i | 0 <= i < |dishes| ::
        && reply.data == dishes[i] && Get(dishes[i], "id") == Str(dishId)
        && forall j | 0 <= j < i :: Get(dishes[j], "id") != Str(dishId)
    {
      var o, _ := DishExists(dishId);
      if o != Next {
        return ErrorReply(o.status, o.message);
      }
      var index := FindById(dishes, dishId);
      reply := Respond(200, dishes[index.value]);
    }

    /** The `listDishes` handler: every dish, in insertion order, unchanged. */
    method ListDishes() returns (reply: Reply<seq<Record>>)
      ensures reply == Respond(200, dishes)
    {
      reply := Respond(200, dishes);
    }

    /** The updateDish handler: `Object.assign` the payload into every dish
        whose id is loosely equal to the payload's id. A comparison that
        throws stops the loop (`thrown`), with the dishes before it merged. */
    method MergeIntoMatching(patch: Record) returns (thrown: bool)
      modifies this
      ensures var stop := FirstMergeThrow(old(dishes), patch);
        && (thrown <==> stop.Some?)
        && (stop.None? ==> dishes == MergeMatching(old(dishes), patch))
        && (stop.Some? ==> dishes == MergeBefore(old(dishes), patch, stop.value))
    {
      var i := 0;
      while i < |dishes|
        invariant 0 <= i <= |dishes| == |old(dishes)|
        invariant forall j | 0 <= j < i :: !LooseEqThrows(Get(old(dishes)[j], "id"), Get(patch, "id"))
        invariant forall j | 0 <= j < |dishes| :: dishes[j] == MergeBefore(old(dishes), patch, i)[j]
      {
        if LooseEqThrows(Get(dishes[i], "id"), Get(patch, "id")) {
          assert FirstMergeThrow(old(dishes), patch) == Some(i);
          return true;
        }
        if LooseEq(Get(dishes[i], "id"), Get(patch, "id")) {
          dishes := dishes[i := Assign(dishes[i], patch)];
        }
        i := i + 1;
      }
      return false;
    }

    /** The `updateDish` chain: dishExists, dishValidation,
        updateDishValidation, updateDish. Nothing changes unless every step
        passes; then the payload (with its id filled in) is merged and sent,
        a store of well-formed dishes stays well-formed, and so does a store
        whose ids all convert. A merge comparison that throws (possible only
        when a stored id cannot be converted) leaves the dishes before it
        merged. */
    method UpdateDish(dishId: string, dish: Record) returns (reply: Reply<Record>)
      modifies this
      ensures var check := DishVerdict(dish);
        var filled := FillId(dish, dishId);
        var idCheck := IdCheck("Dish", filled, dishId);
        var stop := FirstMergeThrow(old(dishes), filled);
        if FindById(old(dishes), dishId).None? then
          reply == ErrorReply(404, NotFoundMessage(dishId)) && dishes == old(dishes)
        else if check != Next then
          reply == Halt(check) && dishes == old(dishes)
        else if idCheck != Next then
          reply == Halt(idCheck) && dishes == old(dishes)
        else if stop.Some? then
          reply == Uncaught(ConversionError) && dishes == MergeBefore(old(dishes), filled, stop.value)
        else
          reply == Respond(200, filled) && dishes == MergeMatching(old(dishes), filled)
      ensures AllWellFormed(old(dishes)) ==> AllWellFormed(dishes)
      ensures IdsConvert(old(dishes)) ==> IdsConvert(dishes)
      ensures IdsConvert(old(dishes)) && FindById(old(dishes), dishId).Some?
        && DishVerdict(dish) == Next && IdCheck("Dish", FillId(dish, dishId), dishId) == Next
        ==> reply == Respond(200, FillId(dish, dishId))
    {
      var o, _ := DishExists(dishId);
      if o != Next {
        return ErrorReply(o.status, o.message);
      }
      o := DishValidation(dish);
      if o != Next {
        return Halt(o);
      }
      var filled;
      filled, o := UpdateDishValidation(dishId, dish);
      if o != Next {
        return Halt(o);
      }
      ghost var before := dishes;
      var thrown := MergeIntoMatching(filled);
      ghost var stop := FirstMergeThrow(before, filled);
      ghost var rounds := if stop.Some? then stop.value else |before|;
      assert dishes == MergeBefore(before, filled, rounds);
      if AllWellFormed(before) {
        UpdateKeepsWellFormed(before, dish, dishId, rounds);
      }
      if IdsConvert(before) {
        IdCheckAfterFill("Dish", dish, dishId);
        MergeKeepsIdsConvert(before, filled, rounds);
        ConvertibleIdsNeverThrow(before, filled);
      }
      if thrown {
        return Uncaught(ConversionError);
      }
      reply := Respond(200, filled);
    }

    /** The `createDish` chain: dishValidation, then createDish, which gives
        the payload the fresh id and appends it. `freshId` is what `nextId()`
        returns. */
    method CreateDish(dish: Record, freshId: string) returns (reply: Reply<Record>)
      modifies this
      ensures var check := DishVerdict(dish);
        var created := dish["id" := Str(freshId)];
        if check != Next then
          reply == Halt(check) && dishes == old(dishes)
        else
          reply == Respond(201, created) && dishes == old(dishes) + [created]
      ensures AllWellFormed(old(dishes)) ==> AllWellFormed(dishes)
      ensures IdsConvert(old(dishes)) ==> IdsConvert(dishes)
    {
      var o := DishValidation(dish);
      if o != Next {
        return Halt(o);
      }
      var created := dish["id" := Str(freshId)];
      DishValidationPassesIff(dish);
      assert WellFormedDish(created);
      dishes := dishes + [created];
      reply := Respond(201, created);
    }
  }

  /** A dish created with an id no stored dish has is the one a later
      `readDish` of that id finds, at the end of the array. */
  lemma {:induction false} CreatedDishIsFound(dishes: seq<Record>, dish: Record, freshId: string)
    requires FindById(dishes, freshId).None?
    ensures FindById(dishes + [dish["id" := Str(freshId)]], freshId) == Some(|dishes|)
  {
    var all := dishes + [dish["id" := Str(freshId)]];
    if dishes != [] {
      assert FindById(dishes[1..], freshId).None?;
      CreatedDishIsFound(dishes[1..], dish, freshId);
      assert all[1..] == dishes[1..] + [dish["id" := Str(freshId)]];
      assert Get(all[0], "id") != Str(freshId);
    }
  }

  // ---------------------------------------------------------------------
  // Finding: an update can change a dish's id
  // ---------------------------------------------------------------------

  /** As written: PUT /dishes/5 with `{ id: 5 }` passes (`5 != "5"` is
      false), `Object.assign` stores the number 5 as the dish's id, and
      `find(dish => dish.id === "5")` no longer sees the dish. */
  lemma NumericIdUpdateHidesDish(n: nat, stored: Record, patch: Record)
    requires n > 0
    requires Get(stored, "id") == Str(NatToString(n))
    requires Get(patch, "id") == Num(n, 0)
    ensures FindById([stored], NatToString(n)) == Some(0)
    ensures IdCheck("Dish", FillId(patch, NatToString(n)), NatToString(n)) == Next
    ensures FindById(MergeMatching([stored], FillId(patch, NatToString(n))), NatToString(n)) == None
  {
    var route := NatToString(n);
    NumEqualsItsNumeral(n);
    LooseEqSymmetric(Num(n, 0), Str(route));
    LooseEqEmptyCases(Num(n, 0));
    assert FillId(patch, route) == patch;
    var merged := MergeMatching([stored], patch);
    assert merged[0] == Assign(stored, patch);
    assert Get(merged[0], "id") == Num(n, 0);
  }

  /** `Object.assign` that leaves the stored dish's own id in place. */
  function AssignKeepingId(target: Record, patch: Record): (r: Record)
    ensures Get(r, "id") == Get(target, "id")
    ensures forall k | k in patch && k != "id" :: k in r && r[k] == patch[k]
    ensures forall k | k in target && k !in patch :: k in r && r[k] == target[k]
  {
    if "id" in target then (target + patch)["id" := target["id"]] else (target + patch) - {"id"}
  }

  /** The intended update: merge into the matching dishes but keep ids. */
  function MergeKeepingIds(records: seq<Record>, patch: Record): (r: seq<Record>)
    ensures |r| == |records|
  {
    seq(|records|, i requires 0 <= i < |records| =>
      if LooseEq(Get(records[i], "id"), Get(patch, "id")) then AssignKeepingId(records[i], patch) else records[i])
  }

  /** With ids kept, every dish is found by its id after an update exactly
      as before it, and the found dish carries the payload's other fields. */
  lemma MergeKeepingIdsKeepsLookup(records: seq<Record>, patch: Record, routeId: string)
    requires LooseEq(Get(patch, "id"), Str(routeId))
    ensures FindById(MergeKeepingIds(records, patch), routeId) == FindById(records, routeId)
    ensures FindById(records, routeId).Some? ==>
      forall k | k in patch && k != "id" ::
        MergeKeepingIds(records, patch)[FindById(records, routeId).value][k] == patch[k]
  {
    var merged := MergeKeepingIds(records, patch);
    FindByIdSameIds(merged, records, routeId);
    LooseEqSymmetric(Get(patch, "id"), Str(routeId));
  }
}
