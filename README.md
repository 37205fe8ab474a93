# GrubDash dish and order controllers in Dafny

This project models the two Express controllers of the GrubDash API:
`src/dishes/dishes.controller.js` and `src/orders/orders.controller.js`.
Each controller keeps its records in a module-level array, validates request
payloads in middleware, and answers five kinds of request: list, create,
read, update and (for orders only) delete. The properties of the
validators and handlers are proved.

The project has four modules.

- `JsValues` (`js_values.dfy`) models the part of JavaScript the
  controllers depend on:
  - values, with numbers as exact decimals;
  - `==` (IsLooselyEqual) and `===`;
  - `String(v)`, `Number(s)` and `Number.isInteger`;
  - when converting an object to a primitive throws a TypeError.
- `Middleware` (`middleware.dfy`) holds what both controllers share:
  - payloads as records;
  - the three ways a middleware step ends (`next()`, `next({status, message})`, or a thrown TypeError);
  - the reply a route chain produces;
  - the "missing" and "empty" key loops;
  - the payload-id/route-id reconciliation;
  - lookup with `find(r => r.id === id)`;
  - the merge loop of `Object.assign`.
- `Dishes` (`dishes.dfy`) covers the dish validators and `DishStore`, a class
  whose `dishes` field is the array. Its methods are the route chains of
  `module.exports`.
- `Orders` (`orders.dfy`) covers the order validators and `OrderStore`, laid
  out the same way.

Each loop in the source is a method with a loop, proved equal to a
specification function. The properties are proved about those functions.
Each chain method states its reply and the new store contents for every
path through the chain. Where the source behaves in a way its own messages
or design evidently did not intend, the store models the code as written. A
corrected definition stands beside it with the intended property proved
(see "## Findings").

In several places the code does something other than what its own error
messages and comments promise. The model follows the code in each of them,
and "## Findings" lists them with the input that shows each one:

- The delete removes the last order, not the order it found.
- The status check accepts "out-for-deliver", while its message asks for
  "out-for-delivery".
- A negative integer quantity passes, while the message asks for an
  integer greater than 0.
- An update of an order is answered but never stored.
- An update with a numeric id replaces a dish's string id, so the dish can
  no longer be found by its route id.

Comparing an object with a string or a number converts the object, and the
conversion throws a TypeError when the object has its own `toString` key
(JSON cannot make that key callable). A parsed array converts by joining its
elements, so it throws when one of its elements does. The model tracks this
with `JsValues.Throws`. Every `==`, `!=` and `<` of the controllers throws
where JavaScript throws. A chain whose validator throws ends uncaught with
the store unchanged. So a dish whose `name` is `{"toString": 1}` is not created.

"Empty" in both validators means `== ""`. That covers not only "" and an
undefined value but also 0, false, `[]` and `[""]` (see
`JsValues.LooseEqEmptyCases`, `Dishes.ZeroPriceReportedTwice` and
`Orders.EmptyDishesReported`).

## Model

| member | source | states |
|---|---|---|
| Middleware.MissingKeysMembers | src/dishes/dishes.controller.js:31-35 | a key is reported missing exactly when it is required and not among the payload's own keys |
| Middleware.BlankKeysMembers | src/dishes/dishes.controller.js:37-42 | a key is reported empty exactly when it is required, present, and its value is `== ""` or undefined |
| Middleware.MissingAndBlankDisjoint | src/orders/orders.controller.js:30-41 | no key is reported both missing and empty |
| Middleware.CollectMissing | src/orders/orders.controller.js:30-34 | the first loop pushes exactly the missing keys, in the order of the key list |
| Middleware.CollectBlank | src/orders/orders.controller.js:36-41 | the second loop throws exactly when a required key is present with a value that cannot be converted; otherwise it pushes exactly the empty keys, in the order of the key list |
| Middleware.IdCheckAfterFill | src/dishes/dishes.controller.js:61-76 | after an empty id is filled from the route, the id check passes exactly when the payload id was empty, or converts and is loosely equal to the route id; it throws exactly on an id that cannot be converted; a failing payload keeps its id and the 400 names it |
| Middleware.ReconcileId | src/dishes/dishes.controller.js:64-75 | the id half of both update validators: fills an empty id from the route, throws on an id that cannot be converted, fails with the 400 naming the id when the ids are not loosely equal, and otherwise continues with an id loosely equal to the route's |
| Middleware.FillIdIdempotent | src/orders/orders.controller.js:119-121 | filling the id a second time, as updateOrder does after updateOrderValidation, changes nothing |
| Middleware.FindById | src/dishes/dishes.controller.js:11 | the lookup gives the first record whose id is strictly equal to the route id, or nothing when no record's id is |
| Middleware.FindByIdInPrefix | src/orders/orders.controller.js:10 | a prefix of the records that still holds the first match finds it at the same index |
| Middleware.FindByIdSameIds | src/dishes/dishes.controller.js:80 | the lookup depends only on the records' ids |
| Middleware.MergeReachesFoundRecord | src/dishes/dishes.controller.js:87-91 | when the payload id matches the route id, the record the route found is merged and then carries every field of the payload |
| Middleware.FirstMergeThrow | src/dishes/dishes.controller.js:87-88 | the merge loop's first comparison that throws is at the index given, and none before it throws; with no index, none throws |
| Middleware.ConvertibleIdsNeverThrow | src/dishes/dishes.controller.js:87-88 | when every stored id and the payload's id convert, no comparison of the merge loop throws |
| Middleware.MergeKeepsIdsConvert | src/dishes/dishes.controller.js:87-91 | merging a payload whose id converts keeps every stored id convertible, however many rounds ran |
| JsValues.LooseEqEmptyCases | src/dishes/dishes.controller.js:39 | `v == ""` holds exactly for "", a zero number, false, an empty array and an array whose one element is written as "" |
| JsValues.NumComparisons | src/dishes/dishes.controller.js:49-50 | a number is `== 0` exactly when it is zero and `< 0` exactly when it is negative |
| JsValues.NumEqualsItsNumeral | src/dishes/dishes.controller.js:69 | a natural number is loosely equal to its decimal numeral |
| JsValues.NatToStringRoundTrip | src/orders/orders.controller.js:59 | the decimal numeral of an index is all digits and reads back as the index |
| JsValues.DigitsToNumber | src/orders/orders.controller.js:135 | `Number` of a string of decimal digits is the value those digits denote |
| JsValues.ArrayToStringIsEmpty | src/orders/orders.controller.js:38 | an array converts to "" exactly when it is empty or its one element is written as "" |
| JsValues.JoinIsEmpty | src/dishes/dishes.controller.js:44 | a list joined with a non-empty separator is "" exactly when it is empty or a single "" |
| JsValues.DecimalValueSign | src/dishes/dishes.controller.js:49-50 | a decimal's value is zero or negative exactly when its digits are |
| JsValues.ThrowsOnlyObjects | src/dishes/dishes.controller.js:39 | only objects and arrays throw on conversion, and `v == ""` throws exactly where `v` does |
| Dishes.DishKeyLists | src/dishes/dishes.controller.js:26-42 | the two key loops over name, description, price and image_url report the keys in that order |
| Dishes.DishKeysThrow | src/dishes/dishes.controller.js:37-42 | the second key loop throws exactly when one of the four keys holds a value that cannot be converted |
| Dishes.CheckPrice | src/dishes/dishes.controller.js:47-51 | the price checks run only for a price that is not undefined; they throw exactly on a price that cannot be converted, and otherwise each pushes its own message |
| Dishes.DishValidation | src/dishes/dishes.controller.js:23-59 | dishValidation throws when a required value cannot be compared with ""; otherwise it ends with a 400 carrying every collected message, one per line, or continues when there is none |
| Dishes.DishValidationPassesIff | src/dishes/dishes.controller.js:23-59 | dishValidation continues exactly for a payload with the four keys present, convertible and not empty, and a price that is a number above 0 |
| Dishes.MissingNameAndPriceReported | src/dishes/dishes.controller.js:44 | a payload lacking name and price fails with a 400 whose first line lists both |
| Dishes.ZeroPriceReportedTwice | src/dishes/dishes.controller.js:39-49 | a zero price is reported as empty and as equal to 0, and nothing else |
| Dishes.NegativePriceReported | src/dishes/dishes.controller.js:50 | a negative price is reported as less than 0 and nothing else |
| Dishes.NumeralComparisons | src/dishes/dishes.controller.js:48-50 | the numeral of a positive number is not `== 0`, not `< 0`, not `== ""` and converts |
| Dishes.NumeralPriceReported | src/dishes/dishes.controller.js:48-50 | a price sent as a numeral string is rejected for its type only |
| Dishes.OwnToStringThrows | src/dishes/dishes.controller.js:37-42 | a required value that is an object with its own `toString` key, alone or inside an array, makes dishValidation throw |
| Dishes.UpdateDishValidation | src/dishes/dishes.controller.js:61-76 | the step leaves the payload with an empty id filled from the route and ends as the id check on it, for "Dish": by `Middleware.IdCheckAfterFill`, it throws exactly on an id that cannot be converted, continues exactly when the payload id was empty or is loosely equal to the route id, and otherwise fails with a 400 naming the payload id |
| Dishes.AssignWellFormed | src/dishes/dishes.controller.js:89 | merging a valid payload into any dish gives a valid dish |
| Dishes.FillIdWellFormed | src/dishes/dishes.controller.js:65-67 | filling the id keeps a valid payload valid |
| Dishes.MergeKeepsWellFormed | src/dishes/dishes.controller.js:87-91 | the merge loop with a valid payload keeps every dish valid, however many rounds ran |
| Dishes.UpdateKeepsWellFormed | src/dishes/dishes.controller.js:108 | a payload that passes the update chain keeps a store of valid dishes valid |
| Dishes.DishStore.constructor | src/dishes/dishes.controller.js:4 | the store starts as the seed data |
| Dishes.DishStore.DishExists | src/dishes/dishes.controller.js:9-20 | 404 "Dish id not found" unless some dish's id is strictly equal to the route id; otherwise the first such dish is attached |
| Dishes.DishStore.ReadDish | src/dishes/dishes.controller.js:78-82 | the read chain sends the first dish with the route id, or the 404 |
| Dishes.DishStore.ListDishes | src/dishes/dishes.controller.js:95-97 | the list handler sends the whole array unchanged |
| Dishes.DishStore.MergeIntoMatching | src/dishes/dishes.controller.js:87-91 | the loop merges the payload into every dish whose id is loosely equal to the payload's id and leaves the others; a comparison that throws stops it with the dishes before it merged |
| Dishes.DishStore.UpdateDish | src/dishes/dishes.controller.js:84-93 | the update chain answers 404, the validation 400 or the id 400 with the store unchanged, or ends uncaught when a validator throws; otherwise it merges the filled payload and sends it, unless a merge comparison throws; a store of valid dishes stays valid, and a store whose ids convert keeps them convertible and never throws in the merge |
| Dishes.DishStore.CreateDish | src/dishes/dishes.controller.js:99-104 | the create chain answers the validation 400, or ends uncaught when dishValidation throws, with the store unchanged; otherwise it appends the payload with the fresh id and sends it with 201; a store of valid dishes stays valid |
| Dishes.CreatedDishIsFound | src/dishes/dishes.controller.js:99-104 | a dish created with an unused id is the one a later read of that id finds |
| Dishes.NumericIdUpdateHidesDish | src/dishes/dishes.controller.js:69-91 | as written, an update of dish "n" with id n (a number) passes and makes the dish unreachable by its route id |
| Dishes.AssignKeepingId | src/dishes/dishes.controller.js:89 | the corrected merge keeps the stored id and takes every other field of the payload |
| Dishes.MergeKeepingIdsKeepsLookup | src/dishes/dishes.controller.js:87-91 | with ids kept, every lookup finds the same dish after an update as before, and the found dish carries the payload's other fields |
| Orders.OrderKeyLists | src/orders/orders.controller.js:25-41 | the two key loops over deliverTo, mobileNumber and dishes report the keys in that order |
| Orders.OrderKeysThrow | src/orders/orders.controller.js:36-41 | the second key loop throws exactly when one of the three keys holds a value that cannot be converted |
| Orders.QuantityCheckIff | src/orders/orders.controller.js:56 | the quantity check passes exactly a non-zero integer, throws exactly on a quantity that cannot be converted, and otherwise fails with the 400 naming the index |
| Orders.FirstFailureSpec | src/orders/orders.controller.js:55-62 | the per-dish pass continues exactly when every dish passes, and otherwise reports the first dish that does not |
| Orders.ItemsPassIff | src/orders/orders.controller.js:55-62 | the per-dish pass continues exactly when every element is an object with a non-zero integer quantity |
| Orders.CheckQuantities | src/orders/orders.controller.js:54-63 | the per-dish loop reports the first failing dish: a TypeError for a null or undefined element or a quantity that cannot be converted, a 400 naming the index for a bad quantity |
| Orders.OrderValidation | src/orders/orders.controller.js:22-65 | orderValidation throws when a required value cannot be compared with ""; otherwise it fails with every accumulated message, including "at least one dish" for a non-array; only then does it run the per-dish pass |
| Orders.OrderValidationPassesIff | src/orders/orders.controller.js:22-65 | orderValidation continues exactly for an order with deliverTo, mobileNumber and dishes present, convertible and not empty, dishes a non-empty array whose every element has a non-zero integer quantity |
| Orders.EmptyDishesReported | src/orders/orders.controller.js:38-45 | an empty dishes array is reported as empty and nothing else |
| Orders.MissingDishesReported | src/orders/orders.controller.js:43-45 | without dishes, the missing-key message and "at least one dish" are reported together |
| Orders.OrderVerdictOfFilled | src/orders/orders.controller.js:36-54 | with the three keys present, convertible and not empty and `dishes` an array, orderValidation ends as its per-dish pass |
| Orders.PairNeitherThrowsNorBlank | src/orders/orders.controller.js:38 | a two-element dishes array of convertible values is not `== ""` and does not throw |
| Orders.SecondItemZeroQuantity | src/orders/orders.controller.js:55-62 | the per-dish pass over a valid dish and then a dish of quantity 0 reports index 1 |
| Orders.SecondDishZeroQuantityReported | src/orders/orders.controller.js:55-62 | a valid first dish followed by one with quantity 0 fails with the message naming index 1 |
| Orders.OwnToStringDishThrows | src/orders/orders.controller.js:36-41 | a dishes array holding an object with its own `toString` key makes orderValidation throw before any quantity is checked |
| Orders.StatusAcceptedIff | src/orders/orders.controller.js:70-80 | the status check accepts exactly pending, preparing, out-for-deliver and delivered, throws exactly on a status that cannot be converted, and otherwise fails with the status message |
| Orders.CheckStatus | src/orders/orders.controller.js:72-80 | the status test, evaluated left to right, ends as the status check says |
| Orders.UpdateOrderValidation | src/orders/orders.controller.js:68-93 | a status the check refuses ends the step first, with the payload untouched (the status message, or a throw for a status that cannot be converted, by `Orders.StatusAcceptedIff`); otherwise the step leaves the payload with an empty id filled from the route and ends as the id check on it, for "Order", as `Middleware.IdCheckAfterFill` describes |
| Orders.FindIndexByNumber | src/orders/orders.controller.js:135 | the index is that of the first order whose id is strictly equal to the number, or -1 when there is none |
| Orders.SpliceOneRemovesOne | src/orders/orders.controller.js:136 | a splice at an index in range, or at -1, removes exactly one order and keeps the others in order |
| Orders.OrderStore.constructor | src/orders/orders.controller.js:3 | the store starts as the seed data |
| Orders.OrderStore.OrderExists | src/orders/orders.controller.js:8-19 | 404 "Order id not found" unless some order's id is strictly equal to the route id; otherwise the first such order is attached |
| Orders.OrderStore.ReadOrder | src/orders/orders.controller.js:110-113 | the read chain sends the first order with the route id, or the 404 |
| Orders.OrderStore.ListOrders | src/orders/orders.controller.js:96-98 | the list handler sends the whole array unchanged |
| Orders.CreatedOrderWellFormed | src/orders/orders.controller.js:101-104 | a payload that passes orderValidation is still valid once createOrder gives it its fresh id |
| Orders.SpliceKeepsWellFormed | src/orders/orders.controller.js:136 | removing one order keeps every remaining order valid |
| Orders.OrderStore.CreateOrder | src/orders/orders.controller.js:101-106 | the create chain answers the validation 400, or ends uncaught on a TypeError, with the store unchanged; otherwise it appends the payload with the fresh id and sends it with 201; a store of valid orders stays valid |
| Orders.OrderStore.UpdateOrder | src/orders/orders.controller.js:116-123 | the update chain answers 404, then the first failure of orderValidation, the status check or the id check (a 400, or uncaught on a TypeError), or sends the filled payload with 200, and changes nothing in the store |
| Orders.OrderStore.DeleteOrder | src/orders/orders.controller.js:127-139 | the delete chain answers 404, or 400 for an order not pending, with the store unchanged; otherwise it splices at the index of the id equal to `Number(orderId)` and removes exactly one order; a store of valid orders stays valid |
| Orders.DeleteRemovesLastOrder | src/orders/orders.controller.js:135-136 | as written, when no stored id is a number the delete removes the last order, whatever the route id |
| Orders.DeletedOrderSurvives | src/orders/orders.controller.js:135-136 | as written, deleting a pending order that is not the last one leaves it in the store, still found by its id |
| Orders.RemoveFoundRemovesTarget | src/orders/orders.controller.js:127-139 | the corrected delete removes exactly the found order, keeps the others in order, and with unique ids the order is no longer found |
| Orders.OutForDeliveryRejected | src/orders/orders.controller.js:70-78 | as written, "out-for-delivery", the spelling of the error message, is rejected and "out-for-deliver" is accepted |
| Orders.IntendedStatusFixesTypo | src/orders/orders.controller.js:70-78 | the corrected status check accepts "out-for-delivery", rejects "out-for-deliver", and ends exactly as the code's check on every other value |
| Orders.NegativeQuantityAccepted | src/orders/orders.controller.js:56-59 | as written, a negative integer quantity passes the per-dish check |
| Orders.QuantityIntendedIff | src/orders/orders.controller.js:56-59 | the corrected quantity check accepts only what the code accepts and only values above 0; the two differ exactly on the negative integers |
| Orders.UpdateIsNotStored | src/orders/orders.controller.js:116-123 | as written, reading an order after an update gives the same reply as before the update |
| Orders.UpdateOrderIntendedStoresStatus | src/orders/orders.controller.js:116-123 | with the corrected update, an order that passes updateOrderValidation is stored and the found order carries the new status |

## Left out

- The routers (`dishes.router.js`, `orders.router.js`), `methodNotAllowed`,
  the not-found and error handlers of the application, and the Express
  plumbing are not modelled. A chain's reply is its own response or the
  status and message it passes to `next`.
- `nextId` is a parameter (`freshId`) of the create methods. The seed data
  (`src/data/*`) is the constructors' parameter.
- Numbers are exact decimals. IEEE-754 rounding and `-0` are not modelled.
- `request.body.data` is taken to be an object (a record). `Object.keys`
  throws only on a `null` or `undefined` `data` (or a missing body); that
  case is not modelled. Any other non-object `data` (a string, number or
  boolean) has none of the required keys as own keys and behaves like an
  empty record. Only an empty record is modelled, not the primitive itself.
- Two different object or array values are never `==` in the model. This
  matches JavaScript for freshly parsed payloads, which share no references.
- The validators change the request body in place (the id fill). The model
  returns the changed payload instead, so the aliasing between the body and
  a stored record is not modelled.
- Orders.CheckQuantities: after the first failing dish, the source's forEach
  keeps calling `next` for later failing dishes, and line 64 calls `next()`
  once more. Only the first call decides the reply and the store, so only
  that one is modelled.
- The seed ids are strings, so every stored id converts
  (`Middleware.IdsConvert`). `UpdateDish` keeps this, and under it the
  merge loop never throws. A merge that throws (a seed id with its own
  `toString` key) is modelled but not reachable from the seed data.
- `Number(s)` gives the exact value of the numeral. Rounding it to the
  nearest double is not modelled.

## Findings

| source | as written | input that shows it | evidently intended | confidence | as-written member | corrected member |
|---|---|---|---|---|---|---|
| src/orders/orders.controller.js:135-136 | the index is searched with `order.id === Number(orderId)`, but stored ids are strings, so it is -1 and `splice(-1, 1)` removes the last order | orders with ids "a", "b"; DELETE /orders/a with order "a" pending | remove the order the route id found | not executed | Orders.DeleteRemovesLastOrder | Orders.RemoveFoundRemovesTarget |
| src/orders/orders.controller.js:70-78 | the accepted status is spelt "out-for-deliver" while the message asks for "out-for-delivery" | PUT with status "out-for-delivery" | accept the four statuses the message names | not executed | Orders.OutForDeliveryRejected | Orders.IntendedStatusFixesTypo |
| src/orders/orders.controller.js:56-59 | the quantity check rejects 0 but accepts negative integers | a dish with quantity -3 | an integer greater than 0, as the message says | not executed | Orders.NegativeQuantityAccepted | Orders.QuantityIntendedIff |
| src/orders/orders.controller.js:116-123 | updateOrder only echoes the payload and never writes it to the store | PUT /orders/x with status "delivered", then GET /orders/x | merge the payload into the stored order, as updateDish does | not executed | Orders.UpdateIsNotStored | Orders.UpdateOrderIntendedStoresStatus |
| src/dishes/dishes.controller.js:69-89 | the id check uses `!=`, so a numeric id equal to the route numeral passes, and `Object.assign` then stores the number as the id | dish "5"; PUT /dishes/5 with `{ id: 5, ... }`, then GET /dishes/5 | keep the stored id, so the dish stays reachable | not executed | Dishes.NumericIdUpdateHidesDish | Dishes.MergeKeepingIdsKeepsLookup |
