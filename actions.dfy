/**
 * What the two order actions of the page decide, as functions of the state
 * they start from: `confirmOrder` either refuses a submission or places an
 * order, and `cancelOrder` either does nothing or moves an order from the
 * active list to the archive and announces it.
 */
module Actions {
  import opened Common
  import opened CartStore
  import opened Orders
  import opened Sync

  /** What `confirmOrder` does with a submission: an alert that refuses it, or the order placed. */
  datatype Submission = Rejected(error: SubmitError) | Placed(order: Order)

  /** How `cancelOrder` ends. */
  datatype CancelOutcome =
    | UnknownOrder            // no order with that id
    | AlreadyCancelled        // the order is already cancelled
    | NotConfirmed            // the customer answered no to the confirmation dialog
    | CancelledOrder(order: Order)

  /** The list, the archive and the event `cancelOrder` leaves behind (`event` is `None` when it publishes nothing). */
  datatype Cancellation = Cancellation(
    outcome: CancelOutcome,
    orders: seq<Order>,
    archive: map<string, seq<Order>>,
    event: Option<Update>)

  // ----- confirmOrder -----

  /**
   * The decision of `confirmOrder` on cart `c` with running total `total`,
   * form `f`, the two clock readings `idTime` and `createdAt`, placed by
   * `clientId`.
   */
  function Submit(c: Cart, total: int, f: Form, idTime: nat, createdAt: int, clientId: string): (s: Submission)
    requires CartStore.Valid(c)
    ensures s.Rejected? <==> CheckSubmission(c, f).Some?
    ensures s.Placed? ==> s.order.status == Active && s.order.ownerId == clientId && s.order.items == Items(c)
  {
    var check := CheckSubmission(c, f);
    if check.Some? then Rejected(check.value)
    else Placed(NewOrder(OrderId(idTime), c, total, f, createdAt, clientId))
  }

  /**
   * A submission is refused exactly when one of the checks fails, with the
   * first failing check's alert. A placed order is active, owned by the
   * placing client, carries the id made from the clock, lists each of the
   * cart's items with its price and quantity, in the cart's key order, and,
   * when the running total is the cart total, adds up to its own total.
   */
  lemma SubmitSpec(c: Cart, total: int, f: Form, idTime: nat, createdAt: int, clientId: string)
    requires CartStore.Valid(c)
    ensures var s := Submit(c, total, f, idTime, createdAt, clientId);
      && (s.Rejected? <==> CheckSubmission(c, f).Some?)
      && (s.Rejected? ==> s.error == CheckSubmission(c, f).value)
      && (s.Placed? ==>
        && s.order.id == OrderId(idTime) && s.order.status == Active && s.order.ownerId == clientId
        && s.order.createdAt == createdAt && s.order.total == total
        && |s.order.items| == |c.keys|
        && (forall k :: 0 <= k < |c.keys| ==>
              s.order.items[k] == Line(c.keys[k], c.entries[c.keys[k]].price, c.entries[c.keys[k]].qty))
        && (total == Total(c) ==> LinesTotal(s.order.items) == s.order.total))
  {
  }

  /** A cart without items is refused whatever the form says. */
  lemma EmptyCartRefused(total: int, f: Form, idTime: nat, createdAt: int, clientId: string)
    ensures Submit(Empty, total, f, idTime, createdAt, clientId) == Rejected(EmptyCart)
  {
  }

  /** A placed order heads the placing client's history, ahead of the orders shown before. */
  lemma PlacedHeadsHistory(orders: seq<Order>, c: Cart, total: int, f: Form, idTime: nat, createdAt: int, clientId: string)
    requires CartStore.Valid(c) && Submit(c, total, f, idTime, createdAt, clientId).Placed?
    ensures var o := Submit(c, total, f, idTime, createdAt, clientId).order;
      Visible(orders + [o], clientId) == [o] + Visible(orders, clientId)
  {
    VisibleAppend(orders, Submit(c, total, f, idTime, createdAt, clientId).order, clientId);
  }

  // ----- cancelOrder -----

  /**
   * The decision of `cancelOrder(id)` on the active list and the archive,
   * with `confirmed` the answer to the dialog, `cancelledAt` and
   * `publishedAt` the two clock readings, run by `clientId`.
   */
  function Cancel(orders: seq<Order>, archive: map<string, seq<Order>>, id: string, confirmed: bool,
                  cancelledAt: int, publishedAt: int, clientId: string): (r: Cancellation)
    ensures r.event.Some? <==> r.outcome.CancelledOrder?
    ensures r.outcome.CancelledOrder? ==> |r.orders| == |orders| - 1 && r.outcome.order.status == Cancelled
  {
    var i := FindIndex(orders, id);
    if i < 0 then Cancellation(UnknownOrder, orders, archive, None)
    else if orders[i].status == Cancelled then Cancellation(AlreadyCancelled, orders, archive, None)
    else if !confirmed then Cancellation(NotConfirmed, orders, archive, None)
    else
      var o := CancelledCopy(orders[i], cancelledAt);
      Cancellation(CancelledOrder(o), orders[..i] + orders[i + 1..], Archive(archive, ArchiveKey(orders[i]), o),
                   Some(CancelUpdate(o, clientId, publishedAt)))
  }

  /** `i` is the first position of an order with id `id`. */
  predicate FirstWithId(orders: seq<Order>, id: string, i: int)
  {
    0 <= i < |orders| && orders[i].id == id && forall k :: 0 <= k < i ==> orders[k].id != id
  }

  /** `findIndex` finds the first position of the id, and only that one. */
  lemma FindIndexFirst(orders: seq<Order>, id: string, i: int)
    ensures FirstWithId(orders, id, i) <==> FindIndex(orders, id) == i && 0 <= i
  {
  }

  /** An id no order carries is reported as unknown, and only such an id. */
  lemma CancelUnknown(orders: seq<Order>, archive: map<string, seq<Order>>, id: string, confirmed: bool,
                      cancelledAt: int, publishedAt: int, clientId: string)
    ensures Cancel(orders, archive, id, confirmed, cancelledAt, publishedAt, clientId).outcome == UnknownOrder <==>
      forall k :: 0 <= k < |orders| ==> orders[k].id != id
  {
    var i := FindIndex(orders, id);
    if 0 <= i {
      assert orders[i].id == id;
    }
  }

  /**
   * Of the orders with the id, the first decides: when it is already
   * cancelled nothing happens, otherwise it is cancelled exactly when the
   * customer confirms.
   */
  lemma CancelDecidedByFirst(orders: seq<Order>, archive: map<string, seq<Order>>, id: string, confirmed: bool,
                             cancelledAt: int, publishedAt: int, clientId: string, i: int)
    requires FirstWithId(orders, id, i)
    ensures var r := Cancel(orders, archive, id, confirmed, cancelledAt, publishedAt, clientId);
      && (r.outcome == AlreadyCancelled <==> orders[i].status == Cancelled)
      && (r.outcome == NotConfirmed <==> orders[i].status != Cancelled && !confirmed)
      && (r.outcome.CancelledOrder? <==> orders[i].status != Cancelled && confirmed)
  {
    FindIndexFirst(orders, id, i);
  }

  /** An unknown id, an order already cancelled and a refused dialog change neither the list nor the archive, and publish nothing. */
  lemma CancelRefusedChangesNothing(orders: seq<Order>, archive: map<string, seq<Order>>, id: string, confirmed: bool,
                                    cancelledAt: int, publishedAt: int, clientId: string)
    ensures var r := Cancel(orders, archive, id, confirmed, cancelledAt, publishedAt, clientId);
      !r.outcome.CancelledOrder? ==> r.orders == orders && r.archive == archive && r.event.None?
  {
  }

  /**
   * A cancelled order is the first one with the id, stamped as cancelled by
   * the customer at `cancelledAt` and otherwise unchanged. It leaves the
   * list, which is one shorter and keeps the other orders in their order.
   */
  lemma CancelRemoves(orders: seq<Order>, archive: map<string, seq<Order>>, id: string, confirmed: bool,
                      cancelledAt: int, publishedAt: int, clientId: string)
    requires Cancel(orders, archive, id, confirmed, cancelledAt, publishedAt, clientId).outcome.CancelledOrder?
    ensures var r := Cancel(orders, archive, id, confirmed, cancelledAt, publishedAt, clientId);
      var i := FindIndex(orders, id);
      && FirstWithId(orders, id, i)
      && r.outcome.order == orders[i].(status := Cancelled, cancelledReason := Some(CustomerReason), cancelledAt := Some(cancelledAt))
      && |r.orders| == |orders| - 1
      && (forall k :: 0 <= k < i ==> r.orders[k] == orders[k])
      && (forall k :: i <= k < |r.orders| ==> r.orders[k] == orders[k + 1])
  {
    var i := FindIndex(orders, id);
    assert Cancel(orders, archive, id, confirmed, cancelledAt, publishedAt, clientId).orders == orders[..i] + orders[i + 1..];
    SpliceShift(orders, i);
  }

  /** Taking out position `i` keeps the elements before it and moves each later one down by one. */
  lemma SpliceShift<T>(s: seq<T>, i: int)
    requires 0 <= i < |s|
    ensures var rest := s[..i] + s[i + 1..];
      && |rest| == |s| - 1
      && (forall k :: 0 <= k < i ==> rest[k] == s[k])
      && (forall k :: i <= k < |rest| ==> rest[k] == s[k + 1])
  {
  }

  /**
   * The client's history loses the cancelled order if it was shown there,
   * and nothing else: the orders after it and the orders before it are
   * listed as before, newest first.
   */
  lemma CancelHidesOrder(orders: seq<Order>, archive: map<string, seq<Order>>, id: string, confirmed: bool,
                         cancelledAt: int, publishedAt: int, clientId: string)
    requires Cancel(orders, archive, id, confirmed, cancelledAt, publishedAt, clientId).outcome.CancelledOrder?
    ensures var r := Cancel(orders, archive, id, confirmed, cancelledAt, publishedAt, clientId);
      var i := FindIndex(orders, id);
      && 0 <= i
      && Visible(orders, clientId) ==
           Visible(orders[i + 1..], clientId) + (if Shown(orders[i], clientId) then [orders[i]] else [])
             + Visible(orders[..i], clientId)
      && Visible(r.orders, clientId) == Visible(orders[i + 1..], clientId) + Visible(orders[..i], clientId)
  {
    var i := FindIndex(orders, id);
    assert Cancel(orders, archive, id, confirmed, cancelledAt, publishedAt, clientId).orders == orders[..i] + orders[i + 1..];
    VisibleSplice(orders, i, clientId);
  }

  /**
   * A cancelled order is archived exactly once, last on the list of the UTC
   * day it was created; the earlier entries of that day and all other days
   * stay as they were.
   */
  lemma CancelArchives(orders: seq<Order>, archive: map<string, seq<Order>>, id: string, confirmed: bool,
                       cancelledAt: int, publishedAt: int, clientId: string)
    requires Cancel(orders, archive, id, confirmed, cancelledAt, publishedAt, clientId).outcome.CancelledOrder?
    ensures var r := Cancel(orders, archive, id, confirmed, cancelledAt, publishedAt, clientId);
      var k := ArchiveKey(r.outcome.order);
      && ArchivedCount(r.archive) == ArchivedCount(archive) + 1
      && k in r.archive && r.archive[k] == (if k in archive then archive[k] else []) + [r.outcome.order]
      && forall d :: d != k ==> (d in r.archive <==> d in archive) && (d in r.archive ==> r.archive[d] == archive[d])
  {
    var i := FindIndex(orders, id);
    var o := CancelledCopy(orders[i], cancelledAt);
    var k := ArchiveKey(orders[i]);
    assert k == ArchiveKey(o);
    ArchiveGrows(archive, k, o);
    var day := Archive(archive, k, o)[k];
    assert day == day[..|day| - 1] + [o];
  }

  /**
   * The event a cancellation publishes names the order, the status
   * `cancelled` and the customer reason, and is shown by the owning client
   * only (by the cancelling client when the order has no owner).
   */
  lemma CancelAnnounces(orders: seq<Order>, archive: map<string, seq<Order>>, id: string, confirmed: bool,
                        cancelledAt: int, publishedAt: int, clientId: string, receiver: string)
    requires Cancel(orders, archive, id, confirmed, cancelledAt, publishedAt, clientId).outcome.CancelledOrder?
    requires id != "" && clientId != "" && receiver != ""
    ensures var r := Cancel(orders, archive, id, confirmed, cancelledAt, publishedAt, clientId);
      var o := r.outcome.order;
      var owner := if o.ownerId != "" then o.ownerId else clientId;
      && r.event == Some(Update(id, Cancelled, CustomerReason, owner, publishedAt))
      && Route(r.event, receiver) == if receiver == owner then Some(OrderCancelled(id, CustomerReason)) else None
  {
    var i := FindIndex(orders, id);
    CancelReachesOwner(orders[i], cancelledAt, clientId, publishedAt, receiver);
  }

  /** Cancelling the same id again right after a cancellation finds no order to cancel unless the id occurred twice. */
  lemma CancelTwice(orders: seq<Order>, archive: map<string, seq<Order>>, id: string, at1: int, ts1: int, at2: int, ts2: int,
                    clientId: string)
    requires DistinctIds(orders)
    requires Cancel(orders, archive, id, true, at1, ts1, clientId).outcome.CancelledOrder?
    ensures var r := Cancel(orders, archive, id, true, at1, ts1, clientId);
      Cancel(r.orders, r.archive, id, true, at2, ts2, clientId).outcome == UnknownOrder
  {
    var r := Cancel(orders, archive, id, true, at1, ts1, clientId);
    var i := FindIndex(orders, id);
    CancelRemoves(orders, archive, id, true, at1, ts1, clientId);
  }
}
