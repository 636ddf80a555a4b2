/**
 * One open ordering page. Its fields are the page's globals (`cart`, `total`,
 * `orders`, `clientId` and `_prevOrdersJSON`, here `baseline`) and the
 * `localStorage` keys it writes (`orders_v1`, `orders_archive_v1`,
 * `lastOrderUpdate_v1`). Every mutator of the cart ends by recomputing the
 * total, as the page's handlers end by calling `renderCart`.
 */
module Client {
  import opened Common
  import opened CartStore
  import opened Orders
  import opened Sync
  import opened Actions
  import Identity

  class OrderClient {
    /** The per-browser id, fixed for the life of the page. */
    const clientId: string
    var cart: Cart
    var total: int
    /** The active orders, as last loaded, saved or received. */
    var orders: seq<Order>
    /** `_prevOrdersJSON`: the snapshot the next `orders_v1` change is compared with. */
    var baseline: seq<Order>
    /** What `orders_v1` holds. */
    var storedOrders: seq<Order>
    /**
     * The archive (cancelled orders by UTC day of creation) this page last
     * wrote to `orders_archive_v1`, `None` before it writes one. Other tabs
     * write the key too, so each cancellation reads it afresh.
     */
    var archive: Option<map<string, seq<Order>>>
    /** The last event this page wrote to `lastOrderUpdate_v1`. */
    var published: Option<Update>

    /**
     * The cart is well formed and `total` is its sum; the id is not empty;
     * the sync baseline and the stored list are both the in-memory list.
     */
    ghost predicate Valid()
      reads this
    {
      && CartStore.Valid(cart) && total == Total(cart)
      && clientId != ""
      && baseline == orders && storedOrders == orders
    }

    /**
     * Loading the page: the client id is read back or made fresh, the cart
     * starts empty, and the stored order list becomes both the in-memory list
     * and the sync baseline.
     */
    constructor (storedId: Option<string>, now: nat, suffix: string, stored: seq<Order>)
      ensures Valid()
      ensures clientId == Identity.ClientIdFor(storedId, now, suffix)
      ensures cart == Empty && total == 0
      ensures orders == stored && archive == None && published == None
    {
      clientId := Identity.ClientIdFor(storedId, now, suffix);
      cart := Empty;
      total := 0;
      orders := stored;
      baseline := stored;
      storedOrders := stored;
      archive := None;
      published := None;
    }

    /** The total loop of `renderCart`: price times quantity, added up over the cart's keys in order. */
    method RenderCart()
      requires CartStore.Valid(cart)
      modifies this`total
      ensures total == Total(cart)
    {
      total := 0;
      var i := 0;
      while i < |cart.keys|
        invariant 0 <= i <= |cart.keys|
        invariant total == Sum(cart.keys[..i], cart.entries)
      {
        assert cart.keys[..i + 1][..i] == cart.keys[..i];
        var item := cart.entries[cart.keys[i]];
        total := total + item.price * item.qty;
        i := i + 1;
      }
      assert cart.keys[..i] == cart.keys;
    }

    /** `addToCart(name, price)`. */
    method AddToCart(name: string, price: int)
      requires Valid()
      modifies this`cart, this`total
      ensures Valid()
      ensures cart == Add(old(cart), name, price)
      ensures total == old(total) + (if name in old(cart).entries then old(cart).entries[name].price else price)
    {
      var c := cart;
      var r := Add(c, name, price);
      assert CartStore.Valid(r);
      TotalAdd(c, name, price);
      cart := r;
      RenderCart();
    }

    /** `increase(name)`; `ok` is false where the page would throw on an item that is not in the cart. */
    method Increase(name: string) returns (ok: bool)
      requires Valid()
      modifies this`cart, this`total
      ensures Valid()
      ensures ok <==> name in old(cart).entries
      ensures ok ==> cart == Increment(old(cart), name) && total == old(total) + old(cart).entries[name].price
      ensures !ok ==> cart == old(cart) && total == old(total)
    {
      var c := cart;
      if name !in c.entries {
        return false;
      }
      var r := Increment(c, name);
      assert CartStore.Valid(r);
      TotalIncrement(c, name);
      cart := r;
      RenderCart();
      ok := true;
    }

    /** `decrease(name)`; `ok` is false where the page would throw on an item that is not in the cart. */
    method Decrease(name: string) returns (ok: bool)
      requires Valid()
      modifies this`cart, this`total
      ensures Valid()
      ensures ok <==> name in old(cart).entries
      ensures ok ==> cart == Decrement(old(cart), name) && total == old(total) - old(cart).entries[name].price
      ensures !ok ==> cart == old(cart) && total == old(total)
    {
      var c := cart;
      if name !in c.entries {
        return false;
      }
      var r := Decrement(c, name);
      assert CartStore.Valid(r);
      TotalDecrement(c, name);
      cart := r;
      RenderCart();
      ok := true;
    }

    /**
     * `updateQty(name, input)` with `value` the `parseInt` reading of the box;
     * `ok` is false where the page would throw: a positive number for an item
     * that is not in the cart.
     */
    method UpdateQty(name: string, value: Option<int>) returns (ok: bool)
      requires Valid()
      modifies this`cart, this`total
      ensures Valid()
      ensures ok <==> !IsPositive(value) || name in old(cart).entries
      ensures ok ==> cart == SetQty(old(cart), name, value)
      ensures ok && !IsPositive(value) ==>
        name !in cart.entries && total == old(total) - (if name in old(cart).entries then Share(old(cart).entries[name]) else 0)
      ensures !ok ==> cart == old(cart) && total == old(total)
    {
      var c := cart;
      if IsPositive(value) && name !in c.entries {
        return false;
      }
      var r := SetQty(c, name, value);
      assert CartStore.Valid(r);
      TotalSetQty(c, name, value);
      TotalRemove(c, name);
      cart := r;
      RenderCart();
      ok := true;
    }

    /** `saveOrders()`: the list is stored and becomes the sync baseline. */
    method SaveOrders()
      modifies this`storedOrders, this`baseline
      ensures storedOrders == orders && baseline == orders
    {
      storedOrders := orders;
      baseline := orders;
    }

    /**
     * `confirmOrder()` with `idTime` and `createdAt` the two clock readings it
     * takes: the decision is `Submit`'s; a refused submission changes nothing,
     * a placed order goes last in the list, which is stored, and the cart is
     * emptied.
     */
    method ConfirmOrder(f: Form, idTime: nat, createdAt: int) returns (s: Submission)
      requires Valid()
      modifies this`cart, this`total, this`orders, this`storedOrders, this`baseline
      ensures Valid()
      ensures s == Submit(old(cart), old(total), f, idTime, createdAt, clientId)
      ensures s.Rejected? ==> cart == old(cart) && orders == old(orders)
      ensures s.Placed? ==> orders == old(orders) + [s.order] && cart == Empty
    {
      var c, before := cart, orders;
      var check := CheckSubmission(c, f);
      if check.Some? {
        return Rejected(check.value);
      }
      var order := NewOrder(OrderId(idTime), c, total, f, createdAt, clientId);
      orders := before + [order];
      SaveOrders();
      cart := Empty;
      RenderCart();
      s := Placed(order);
    }

    /**
     * `cancelOrder(id)` with `confirmed` the answer to the confirmation dialog,
     * `stored` what `orders_archive_v1` holds when it is read, and
     * `cancelledAt`, `publishedAt` the two clock readings: the list, the
     * written archive and the published event become what `Cancel` decides,
     * and the list is stored. Nothing is written when nothing is cancelled.
     */
    method CancelOrder(id: string, confirmed: bool, stored: map<string, seq<Order>>, cancelledAt: int, publishedAt: int)
      returns (r: CancelOutcome)
      requires Valid()
      modifies this`orders, this`storedOrders, this`baseline, this`archive, this`published
      ensures Valid()
      ensures var c := Cancel(old(orders), stored, id, confirmed, cancelledAt, publishedAt, clientId);
        && r == c.outcome && orders == c.orders
        && archive == (if c.outcome.CancelledOrder? then Some(c.archive) else old(archive))
        && published == if c.event.Some? then c.event else old(published)
    {
      var before := orders;
      var idx := FindIndex(before, id);
      if idx == -1 {
        return UnknownOrder;
      }
      if before[idx].status == Cancelled {
        return AlreadyCancelled;
      }
      if !confirmed {
        return NotConfirmed;
      }
      var o := CancelledCopy(before[idx], cancelledAt);
      var event := CancelUpdate(o, clientId, publishedAt);
      var rest := before[..idx] + before[idx + 1..];
      var written := Archive(stored, ArchiveKey(before[idx]), o);
      assert Cancel(before, stored, id, confirmed, cancelledAt, publishedAt, clientId) ==
        Cancellation(CancelledOrder(o), rest, written, Some(event));
      archive := Some(written);
      published := Some(event);
      orders := rest;
      SaveOrders();
      r := CancelledOrder(o);
    }

    /**
     * The `orders_v1` branch of the `storage` listener: alerts for the
     * transitions from the baseline to `snapshot`, which then becomes the list
     * and the baseline.
     */
    method OnOrdersChanged(snapshot: seq<Order>) returns (notices: seq<Notice>)
      requires Valid()
      modifies this`orders, this`storedOrders, this`baseline
      ensures Valid()
      ensures notices == Transitions(LastById(old(baseline)), snapshot)
      ensures orders == snapshot && baseline == snapshot
    {
      notices := DiffSnapshots(baseline, snapshot);
      orders := snapshot;
      storedOrders := snapshot;
      baseline := snapshot;
    }
  }
}
