# Ordering core of the food-restaurant page

A Dafny model of the ordering core of `script.js`. This is the page of a restaurant
ordering site where customers order and cancel, synchronised with an admin tab through
`localStorage`. The model covers:

- **Cart** (`cart.dfy`, module `CartStore`): the cart object with its key order. It
  covers `addToCart`, `increase`, `decrease`, `updateQty` and the total that
  `renderCart` computes.
- **Submitting and cancelling orders** (`orders.dfy`, `actions.dfy`; modules `Orders`
  and `Actions`):
  - the validation gate and order building of `confirmOrder`;
  - `findIndex` by id;
  - the history filter and reversal of `renderOrders`;
  - `cancelOrder`'s decision, stamping, archiving (keyed by the UTC creation day, in
    `dates.dfy`) and the event it publishes.
- **Cross-tab sync** (`sync.dfy`, module `Sync`): the `storage` listener.
  - For `orders_v1`, it diffs a new snapshot against the last one seen.
  - For `lastOrderUpdate_v1`, it routes the event to the owning client only.
- **Client id** (`identity.dfy`, module `Identity`): created on first load, then read
  back from `clientId_v1`.
- **Host string operations** (`text.dfy`, module `Text`): `trim`, decimal rendering and
  zero padding.
- **The page object** (`client.dfy`): class `Client.OrderClient` holds the page's
  globals (`cart`, `total`, `orders`, `_prevOrdersJSON`, `clientId`) and the storage
  keys the page writes.
  - Its methods change those fields in place.
  - Each method is tied to the pure function that decides its outcome (`Submit`,
    `Cancel`, `Transitions`).
  - The properties are proved as lemmas about those functions.
  - `Valid()` is set up by the constructor and kept by every public operation
    (`AddToCart`, `Increase`, `Decrease`, `UpdateQty`, `ConfirmOrder`, `CancelOrder`,
    `OnOrdersChanged`): the cart is well formed and `total` is its sum, and the sync
    baseline and the stored list equal the in-memory list. `RenderCart` and
    `SaveOrders` are the steps those operations end with; each re-establishes one half
    of it.

Choices that differ from the page's plain reading:

- **A JavaScript object is a map plus its key insertion order.** So a cart is
  `Cart(keys, entries)`. The key order decides the order of an order's items.
- **JSON fields.** A string field that is absent or empty is `""`, since both are falsy
  to the page. An optional field is an `Option`.
- **Clocks, randomness and the dialog are parameters.** That means `Date.now()`, the
  random suffix and the `confirm` answer.
- **A thrown `TypeError` becomes `ok == false` with nothing changed.** `increase` and
  `decrease` throw for any name that is not in the cart. `updateQty` throws only when the
  value is a positive number and the name is missing; for an invalid value it deletes
  the (absent) key and succeeds.
- **Prices are integers** (the smallest currency unit).

Two behaviours of the code that are easy to misread:

- **Cancelling the same order twice.** The first cancel splices the order out of the
  active list (script.js:233), so the second finds no order and is a silent no-op
  (`UnknownOrder`; `Actions.CancelTwice`), not an "already cancelled" report. The
  `AlreadyCancelled` branch (script.js:215) is only reached for a cancelled order that
  is still in the list, for example one the admin tab wrote there.
- **The event's owner.** The event written at script.js:230 carries
  `ownerId || clientId`, so an order without an owner is announced to the cancelling
  client (`Sync.CancelUpdate`, `Actions.CancelAnnounces`).

## Model

| member | source | states |
|---|---|---|
| CartStore.Add | script.js:11-16 | An item already in the cart gains one unit at its recorded price, and the price passed in is ignored. A new item is stored as `{price, qty: 1}`, with its key last. All other items are unchanged, and a well-formed cart stays well formed. |
| CartStore.Increment | script.js:20-21 | The item's quantity goes up by one and its price is unchanged. Keys and the other items are unchanged. |
| CartStore.Decrement | script.js:25-27 | The item loses one unit. When its quantity is no longer positive, it and its key are deleted. Other items are unchanged, and no stored quantity drops below 1. |
| CartStore.Remove | script.js:27 | `delete cart[name]`: the entry and its key are gone, and the other keys keep their order. |
| CartStore.SetQty | script.js:31-38 | NaN or a value ≤ 0 deletes the item. A positive value becomes its quantity, and its price is kept. Other items are unchanged. |
| CartStore.SetQtyInvalidIdempotent | script.js:34-35 | Entering an invalid quantity a second time changes nothing more. |
| CartStore.Items | script.js:124 | The order's items are the cart's lines, one per key, in key order: item k has key k's name and that entry's price and quantity. |
| CartStore.Total | script.js:45-50 | An empty cart totals 0. |
| CartStore.TotalNonNegative | script.js:45-50 | A cart whose prices and quantities are not negative has a total that is not negative. |
| CartStore.TotalAdd | script.js:11-17 | After `addToCart`, the total rises by the recorded price, or by the given price for a new item. |
| CartStore.TotalIncrement | script.js:20-22 | After `increase`, the total rises by the item's price. |
| CartStore.TotalDecrement | script.js:25-28 | After `decrease`, the total falls by the item's price, also when the item is deleted. |
| CartStore.TotalRemove | script.js:35 | Deleting an item lowers the total by price × qty. Deleting an absent item changes nothing. |
| CartStore.TotalSetQty | script.js:31-39 | A positive quantity replaces the item's share of the total. Any other input acts as deletion. |
| CartStore.ItemsTotal | script.js:124-129 | An order's items add up to the cart total it was placed with. |
| CartStore.SumAgree | script.js:47-50 | The total depends only on the entries of the listed keys. |
| CartStore.SumUpdate | script.js:47-50 | Replacing one entry changes the total by the difference of the two shares. |
| CartStore.SumRemove | script.js:47-50 | Deleting one entry lowers the total by its share. |
| CartStore.WithoutDistinct | script.js:27 | Deleting a key keeps the key list free of repeats. |
| CartStore.WithoutAbsent | script.js:35 | Deleting a key that is not there leaves the key list as it was. |
| CartStore.ItemsOfTotal | script.js:124 | Items built from a key list add up to the sum over that list. |
| Client.OrderClient.RenderCart | script.js:45-51 | The loop leaves `total` equal to Σ price × qty over the cart's keys. |
| Client.OrderClient.AddToCart | script.js:11-18 | The cart becomes `Add(cart, name, price)` and the total rises by the price. The page invariant is kept. |
| Client.OrderClient.Increase | script.js:20-23 | Succeeds exactly when the item is in the cart, and then adds one unit and its price to the total. Otherwise nothing changes. |
| Client.OrderClient.Decrease | script.js:25-29 | Succeeds exactly when the item is in the cart, and then removes one unit and its price from the total. Otherwise nothing changes. |
| Client.OrderClient.UpdateQty | script.js:31-40 | Fails only for a positive value on a missing item. An invalid value deletes the item and lowers the total by its share. A positive value sets the quantity. |
| Client.OrderClient.SaveOrders | script.js:159-163 | The stored list and the sync baseline both become the in-memory list. |
| Client.OrderClient.ConfirmOrder | script.js:89-150 | The outcome is `Submit`'s. A refused submission leaves the cart and the orders unchanged. A placed order is appended last and stored, the cart is emptied and the total becomes 0. |
| Client.OrderClient.CancelOrder | script.js:212-235 | The archive is read afresh from storage on every call. The list, the archive written and the published event become what `Cancel` decides; on a refusal nothing is written. The list is stored and becomes the baseline. |
| Client.OrderClient.OnOrdersChanged | script.js:241-268 | The alerts are the transitions from the old baseline to the snapshot. The snapshot becomes the list and the baseline. |
| Client.OrderClient.constructor | script.js:1-9 | The client id is read back or made fresh. The cart starts empty with total 0, the stored list is both the list and the baseline, and nothing has been archived or published yet. |
| Orders.CheckSubmission | script.js:99-120 | An empty cart is refused exactly when the cart has no keys; a missing-name refusal means the name is blank. |
| Orders.CheckSubmissionSpec | script.js:99-120 | Each alert fires exactly when the earlier checks pass and its own fails. An empty cart fails whatever the form says. Next is a blank name. Then, for Delivery, a blank address or phone (fixing one is not enough). For other types, a missing people, date, time or table. The submission passes exactly when all checks pass. |
| Orders.OrderId | script.js:123 | The id is `ORD` followed by the clock digits. |
| Orders.OrderIdInjective | script.js:123 | Orders placed at different milliseconds get different ids. |
| Orders.NewOrder | script.js:124-141 | The built order has the given id, status `active`, owner `clientId` and creation time. Its items are the cart's in key order, each with its entry's price and quantity, and they add up to its total when the running total is the cart total. The name, address and phone are trimmed. It has no cancellation stamps. |
| Orders.FindIndex | script.js:213 | Returns the first position holding the id, or -1 exactly when no order has it. |
| Orders.ShownOf | script.js:171 | Keeps exactly the active orders owned by this client. |
| Orders.Reverse | script.js:179 | Same length, and element k is element n-1-k. |
| Orders.Visible | script.js:171-179 | The history lists exactly the active orders owned by this client, so the 'processing' label at script.js:185 is never shown. |
| Orders.VisibleAppend | script.js:171-179 | A new order heads the history when it is shown at all. The rest keep their places. |
| Orders.ShownConcat | script.js:171 | Filtering a concatenation is filtering each part. |
| Orders.VisibleSplice | script.js:171-179 | The history is the later orders' history, then the order at `i` if shown, then the earlier orders' history; after splicing out position `i` it is the later orders' history followed by the earlier ones', one shorter exactly when that order was shown. |
| Orders.VisibleConcat | script.js:171-179 | The history of two pieces is the later piece's history followed by the earlier piece's. |
| Orders.ReverseConcat | script.js:179 | Reversing a concatenation reverses each piece and swaps them. |
| Orders.CancelledCopy | script.js:220-223 | Status becomes `cancelled`, with the customer reason and the cancellation time. Every other field is unchanged. |
| Orders.ArchiveKey | script.js:224 | The archive key is ten characters long: the order's UTC creation day. |
| Orders.Archive | script.js:225-226 | The order goes last on its day's list, creating that list if absent. Earlier entries and other days are unchanged. |
| Orders.ArchiveGrows | script.js:225-226 | Archiving adds exactly one order to the archive. |
| Orders.CountWithout | script.js:225-226 | An archive's count is one day's count plus the rest. |
| Actions.Submit | script.js:99-141 | Refused exactly when a check fails. A placed order is active, owned by the placing client, and carries the cart's items. |
| Actions.SubmitSpec | script.js:99-141 | Refused exactly when a check fails, with that check's alert. A placed order has the clock id, status `active`, the placing client as owner, the creation time and the running total; item k is the cart's key k with its price and quantity; the items add up to its total when the running total is the cart total. |
| Actions.EmptyCartRefused | script.js:99-102 | An empty cart is refused whatever the form says. |
| Actions.PlacedHeadsHistory | script.js:144-146 | A placed order heads its client's history. |
| Actions.Cancel | script.js:212-233 | An event is published exactly when the order is cancelled; a cancelled order has status `cancelled` and leaves a list one shorter. |
| Actions.FindIndexFirst | script.js:213 | `findIndex` lands on the first position holding the id, and only there. |
| Actions.CancelUnknown | script.js:213-214 | Unknown is reported exactly when no order carries the id. |
| Actions.CancelDecidedByFirst | script.js:213-216 | The first order with the id decides. If it is already cancelled, nothing happens. Otherwise it is cancelled exactly when the dialog is confirmed. |
| Actions.CancelRefusedChangesNothing | script.js:214-216 | An unknown id, an already-cancelled order or a declined dialog leave the list and the archive unchanged and publish nothing. |
| Actions.CancelRemoves | script.js:213-233 | The cancelled order is the first with the id, stamped and otherwise unchanged. The list is one shorter, and the other orders keep their relative order. |
| Actions.CancelHidesOrder | script.js:233-235 | Before, the history is the later orders' history, the cancelled order if shown, then the earlier orders' history; afterwards it is the same with the cancelled order gone. |
| Actions.CancelArchives | script.js:219-227 | The order is archived exactly once, last under its UTC creation day. All other archive entries are unchanged. |
| Actions.CancelAnnounces | script.js:230 | The event carries the id, `cancelled`, the customer reason, the owner (or the cancelling client) and the time. Only that owner is alerted, with the customer reason. |
| Actions.CancelTwice | script.js:213-233 | With unique ids, cancelling again after a cancellation finds no order. |
| Sync.LastById | script.js:246-247 | `prevMap` holds exactly the ids of the previous snapshot, each mapped to an order of it with that id. |
| Sync.LastWins | script.js:247 | Of several orders with one id, the last one is kept. |
| Sync.Transitions | script.js:252-259 | At most one alert per snapshot order, each a status change to completed or cancelled. |
| Sync.TransitionsSpec | script.js:252-259 | Alerts are raised exactly for snapshot orders whose id was in the previous snapshot under another status and which are now completed or cancelled. |
| Sync.TransitionsCount | script.js:252-259 | The number of alerts is the number of snapshot positions that qualify: one alert per such order and no more. |
| Sync.TransitionsOnlyFinal | script.js:254-258 | No alert for `processing` or other statuses, none for removed orders, and none for new ids. |
| Sync.SameSnapshotQuiet | script.js:246-260 | Receiving the snapshot already held, with unique ids, raises no alert. |
| Sync.NothingReported | script.js:252-260 | If no order qualifies, there are no alerts. |
| Sync.DiffSnapshots | script.js:245-260 | The two loops return exactly `Transitions(LastById(prev), next)`. |
| Sync.CancelUpdate | script.js:230 | The event has the order's id, status `cancelled`, its reason, `ownerId \|\| clientId` and the time. |
| Sync.Route | script.js:271-288 | Alerts exactly when the event parsed, has an id, and has an owner equal to this client, with status cancelled or completed. A cancellation shows its reason or the default one. |
| Sync.CancelReachesOwner | script.js:273-281 | A customer's cancellation alerts exactly the owning client (or the cancelling one if there is no owner), with the customer reason. |
| Identity.ClientIdFor | script.js:5-7 | A stored non-empty id is kept. Otherwise the id is `C` + clock digits + random suffix. Never empty. |
| Identity.StoredAfterLoad | script.js:5-9 | `clientId_v1` is written only when no non-empty id was stored; either way it then holds the id in use. |
| Identity.ClientIdStable | script.js:5-8 | Every later load in the same browser runs with the same id. |
| Identity.FreshIdsDiffer | script.js:7 | Fresh ids made at different milliseconds, with equally long suffixes, differ. |
| Text.Trim | script.js:90-97 | Strips white space at both ends. The result is a slice of the input with no edge white space, and it is empty exactly when the input is blank. |
| Text.TrimIdempotent | script.js:90-97 | Trimming twice is trimming once. |
| Text.Decimal | script.js:123 | Renders a non-empty run of digits with no leading zero except for 0. |
| Text.DecimalRoundTrip | script.js:123 | Reading back the rendering of n gives n. |
| Text.DecimalInjective | script.js:123 | A fixed prefix followed by distinct numbers gives distinct strings. |
| Text.PadZeroSpec | script.js:224 | Zero padding ends with the original string and puts only zeros before it. |
| Text.DecimalBelow | script.js:224 | A number below 10^w has at most w digits. |
| Dates.CivilFromDays | script.js:224 | The civil date of a day number has month 1..12 and day 1..31. |
| Dates.YearOfEra | script.js:224 | Day `doe` of a 400-year era is day `doy` (0..365) of year `yoe` (0..399), counted from 1 March: `doe` is `365·yoe + yoe/4 − yoe/100 + doy`, and day 365 falls only in a year before a leap year. |
| Dates.MonthDay | script.js:224 | Day `doy` of a March-based year is day `d` of month `m`; only February can run to day 29, and only on day 365. |
| Dates.CivilRoundTrip | script.js:224 | Counting the calendar's days up to the date `CivilFromDays` names gives the day number back, so distinct instants' days get distinct dates. |
| Dates.EraRoundTrip | script.js:224 | The same round trip for day `doe` of era `era`. |
| Dates.CivilValid | script.js:224 | The date named is a real one: the day fits its month, and 29 February falls only in a leap year. |
| Dates.EraValid | script.js:224 | The same for day `doe` of era `era`. |
| Dates.EraYear | script.js:224 | Whole 400-year eras do not change whether a year is a leap year. |
| Dates.MarchFirst | script.js:224 | 1 March of year `yoe` of an era is day `365·yoe + yoe/4 − yoe/100` of the era, counted in the calendar's days. |
| Dates.MonthStep | script.js:224 | The calendar's days before month `m` agree with the algorithm's month offset from 1 March. |
| Dates.MonthOffsets | script.js:224 | The calendar's month lengths add up to the algorithm's March-based offsets. |
| Dates.LeapStep | script.js:224 | A year adds a leap day to the count exactly when it is a leap year. |
| Dates.DateKey | script.js:224 | The ISO date prefix is ten characters long. |
| Dates.DayKey | script.js:224 | The archive key of an instant is ten characters long. |
| Dates.SameDaySameKey | script.js:224 | Instants on the same UTC day share their key. |
| Dates.CivilOfEpoch | script.js:224 | Day 0 is 1970-01-01. |
| Dates.CivilBeforeEpoch | script.js:224 | Day -1 is 1969-12-31. |
| Dates.DateKeyShape | script.js:224 | For years 0 to 9999 the key is `YYYY-MM-DD`: digits with dashes at positions 4 and 7. |
| Dates.EpochDays | script.js:224 | Instant 0 falls on 1970-01-01, and instant -1 on 1969-12-31. |

## Left out

- **DOM rendering.** The HTML built by `renderCart` and `renderOrders` and the
  order-type radio listener (script.js:42-44, 52-87, 165-169, 180-209) are user
  interface only. What `renderOrders` selects and in which order is modelled.
- **`alert` and `confirm`.** Alerts are returned values (`SubmitError`, `Notice`,
  `CancelOutcome`). The `confirm` answer is a boolean parameter.
- **`localStorage` and JSON.**
  - Stored values are fields of `Client.OrderClient`.
  - A `lastOrderUpdate_v1` payload that fails to parse, or is not an object, is `None`.
  - A corrupt `orders_v1` value, which makes the listener throw, is not modelled.
  - Neither are the `JSON.stringify` round trip of orders and values that are not
    strings in string fields.
- **`parseInt`.** The quantity box's reading is passed in as an `Option<int>`.
- **`Date.now()` and `Math.random()`.** They are parameters.
- **Floating point.** JavaScript numbers are modelled as unbounded integers. Prices are
  in the smallest currency unit.
- **Integer-like cart keys.** JavaScript lists these first, in numeric order. The model
  uses insertion order for every key.
- **Item names that clash with `Object.prototype` members** (e.g. `constructor`). They
  make `cart[name]` truthy before any add; this is not modelled.
- Dates.DateKey: does not model the `toISOString` range limit. The model does not raise the
  `RangeError` that `toISOString` throws for a `createdAt` outside its range. For years
  beyond 9999 it gives the first ten characters of the extended-year form, as the page
  would for the times it can render.
- **The `newMap` built by the listener** (script.js:248-249). It is never read, so it
  is not modelled.
- **Snapshots with repeated ids.** A snapshot can repeat an id, e.g. one written by
  another tab. The listener then compares an order with the last one of that id, which
  can raise an alert for an unchanged order. `Sync.SameSnapshotQuiet` therefore
  requires unique ids, and `Actions.CancelTwice` needs them too.
- **Concurrency.** Cross-tab event delivery, races between tabs overwriting
  `orders_v1`, and the listener firing only in other tabs are out of scope.
  `orders_archive_v1`, which other tabs also write, is read afresh by each
  cancellation (the `stored` parameter of `CancelOrder`). The
  listener is a function of the baseline and the new snapshot.
- **The in-place stamping of `orders[idx]` before the splice.** It is not modelled
  separately: the stamped object leaves the list in the same call, so only the
  archived copy (`Orders.CancelledCopy`) is observable.
- **No checked order type.** If no order-type radio is checked, `confirmOrder` and the
  page's start-up throw. The model always takes a value.
- Client.OrderClient.ConfirmOrder: does not re-render the history as `renderOrders` does.
  That listing is `Orders.Visible` of the new list (`Actions.PlacedHeadsHistory`), not
  a field of the page object.
