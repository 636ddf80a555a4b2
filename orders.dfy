/**
 * Orders as the page stores them in `orders_v1`: the validation gate of
 * `confirmOrder`, the order it builds, `findIndex` by id, the order history the
 * customer sees (`renderOrders`) and the stamping and archiving done by
 * `cancelOrder`.
 */
module Orders {
  import opened Common
  import opened Text
  import opened Dates
  import CartStore

  /** The status values the page and the admin tab write. */
  const Active: string := "active"
  const Processing: string := "processing"
  const Completed: string := "completed"
  const Cancelled: string := "cancelled"

  /** The order type whose details are an address and a phone number; every other value means dining in. */
  const Delivery: string := "Delivery"

  /** The reason recorded when the customer cancels an order. */
  const CustomerReason: string := "Hủy bởi khách"

  /**
   * A stored order. Optional JSON fields are `None` when absent; a string
   * field that is absent or empty is `""` (both are falsy to the page).
   */
  datatype Order = Order(
    id: string,
    items: seq<CartStore.Line>,
    total: int,
    name: string,
    people: string,
    date: string,
    time: string,
    table: string,
    orderType: string,
    address: string,
    phone: string,
    createdAt: int,
    status: string,
    ownerId: string,
    cancelledReason: Option<string>,
    cancelledAt: Option<int>)

  /** The values of the order form's fields as read, before trimming; a field that is not on the page reads `""`. */
  datatype Form = Form(
    name: string,
    people: string,
    date: string,
    time: string,
    table: string,
    orderType: string,
    address: string,
    phone: string)

  /** The alerts with which `confirmOrder` refuses to place an order. */
  datatype SubmitError = EmptyCart | MissingName | MissingDeliveryInfo | MissingReservationInfo

  /**
   * The checks of `confirmOrder`, in the order the page makes them: the cart
   * has an item, the trimmed name is not empty, then a delivery needs a
   * non-blank address and phone, and any other order type needs people,
   * date, time and table. Only the name, address and phone are trimmed.
   */
  function CheckSubmission(c: CartStore.Cart, f: Form): (r: Option<SubmitError>)
    ensures r == Some(EmptyCart) <==> |c.keys| == 0
    ensures r == Some(MissingName) ==> IsBlank(f.name)
  {
    if |c.keys| == 0 then Some(EmptyCart)
    else if Trim(f.name) == "" then Some(MissingName)
    else if f.orderType == Delivery then
      if Trim(f.address) == "" || Trim(f.phone) == "" then Some(MissingDeliveryInfo) else None
    else if f.people == "" || f.date == "" || f.time == "" || f.table == "" then Some(MissingReservationInfo)
    else None
  }

  /**
   * Each alert is raised exactly when the earlier checks pass and its own
   * fails: an empty cart whatever the form says, then a blank name, then a
   * blank address or phone for a delivery (fixing one of them is not
   * enough), then a missing reservation detail for any other order type. A
   * submission passes exactly when every check passes.
   */
  lemma CheckSubmissionSpec(c: CartStore.Cart, f: Form)
    ensures CheckSubmission(c, f) == Some(EmptyCart) <==> |c.keys| == 0
    ensures CheckSubmission(c, f) == Some(MissingName) <==> |c.keys| > 0 && IsBlank(f.name)
    ensures CheckSubmission(c, f) == Some(MissingDeliveryInfo) <==>
      |c.keys| > 0 && !IsBlank(f.name) && f.orderType == Delivery && (IsBlank(f.address) || IsBlank(f.phone))
    ensures CheckSubmission(c, f) == Some(MissingReservationInfo) <==>
      && |c.keys| > 0 && !IsBlank(f.name) && f.orderType != Delivery
      && (f.people == "" || f.date == "" || f.time == "" || f.table == "")
    ensures CheckSubmission(c, f).None? <==>
      && |c.keys| > 0 && !IsBlank(f.name)
      && (if f.orderType == Delivery then !IsBlank(f.address) && !IsBlank(f.phone)
          else f.people != "" && f.date != "" && f.time != "" && f.table != "")
  {
  }

  /** `'ORD' + Date.now()`. */
  function OrderId(now: nat): (id: string)
    ensures |id| > 3 && id[..3] == "ORD"
  {
    "ORD" + Decimal(now)
  }

  /** Orders placed at different milliseconds get different ids. */
  lemma OrderIdInjective(a: nat, b: nat)
    requires OrderId(a) == OrderId(b)
    ensures a == b
  {
    DecimalInjective("ORD", a, b);
  }

  /**
   * The order `confirmOrder` builds: the cart's items in key order, the page's
   * running total, the trimmed name, address and phone, the other fields as
   * read, status `active` and the placing client as owner.
   */
  function NewOrder(id: string, c: CartStore.Cart, total: int, f: Form, createdAt: int, owner: string): (o: Order)
    requires CartStore.Valid(c)
    ensures o.id == id && o.status == Active && o.ownerId == owner && o.createdAt == createdAt
    ensures o.items == CartStore.Items(c)
    ensures |o.items| == |c.keys| && forall k :: 0 <= k < |o.items| ==>
      o.items[k] == CartStore.Line(c.keys[k], c.entries[c.keys[k]].price, c.entries[c.keys[k]].qty)
    ensures total == CartStore.Total(c) ==> CartStore.LinesTotal(o.items) == o.total
    ensures o.name == Trim(f.name) && o.address == Trim(f.address) && o.phone == Trim(f.phone)
    ensures o.cancelledReason.None? && o.cancelledAt.None?
  {
    CartStore.ItemsTotal(c);
    Order(id, CartStore.Items(c), total, Trim(f.name), f.people, f.date, f.time, f.table, f.orderType,
          Trim(f.address), Trim(f.phone), createdAt, Active, owner, None, None)
  }

  /** `orders.findIndex(o => o.id === id)`: the first position holding `id`, or -1. */
  function FindIndex(orders: seq<Order>, id: string): (i: int)
    ensures -1 <= i < |orders|
    ensures 0 <= i ==> orders[i].id == id && forall k :: 0 <= k < i ==> orders[k].id != id
    ensures i < 0 ==> forall k :: 0 <= k < |orders| ==> orders[k].id != id
  {
    if orders == [] then -1
    else if orders[0].id == id then 0
    else
      var j := FindIndex(orders[1..], id);
      assert forall k :: 1 <= k < |orders| ==> orders[k] == orders[1..][k - 1];
      if j < 0 then -1 else j + 1
  }

  /** The orders `renderOrders` lists: active ones placed by this client. */
  predicate Shown(o: Order, clientId: string)
  {
    o.status == Active && o.ownerId == clientId
  }

  /** `orders.filter(o => o.status === 'active' && o.ownerId === clientId)`. */
  function ShownOf(orders: seq<Order>, clientId: string): (r: seq<Order>)
    ensures |r| <= |orders|
    ensures forall o :: o in r <==> o in orders && Shown(o, clientId)
  {
    if orders == [] then []
    else
      var o := orders[|orders| - 1];
      assert orders == orders[..|orders| - 1] + [o];
      ShownOf(orders[..|orders| - 1], clientId) + (if Shown(o, clientId) then [o] else [])
  }

  /** `s.slice().reverse()`. */
  function Reverse<T>(s: seq<T>): (r: seq<T>)
    ensures |r| == |s|
    ensures forall k :: 0 <= k < |s| ==> r[k] == s[|s| - 1 - k]
  {
    if s == [] then [] else [s[|s| - 1]] + Reverse(s[..|s| - 1])
  }

  /** The order history as `renderOrders` lists it: this client's active orders, newest first. */
  function Visible(orders: seq<Order>, clientId: string): (r: seq<Order>)
    ensures forall o :: o in r <==> o in orders && Shown(o, clientId)
  {
    var s := ShownOf(orders, clientId);
    var r := Reverse(s);
    assert forall o :: o in r <==> o in s by {
      forall o | o in s ensures o in r {
        var k :| 0 <= k < |s| && s[k] == o;
        assert r[|s| - 1 - k] == o;
      }
    }
    r
  }

  /** A newly placed order heads this client's history when it is shown at all; the rest keep their places. */
  lemma VisibleAppend(orders: seq<Order>, o: Order, clientId: string)
    ensures Visible(orders + [o], clientId) == (if Shown(o, clientId) then [o] else []) + Visible(orders, clientId)
  {
    assert (orders + [o])[..|orders|] == orders;
    var s := ShownOf(orders, clientId);
    if Shown(o, clientId) {
      assert (s + [o])[..|s|] == s;
    }
  }

  /** Filtering two pieces one after the other. */
  lemma {:induction false} ShownConcat(a: seq<Order>, b: seq<Order>, clientId: string)
    ensures ShownOf(a + b, clientId) == ShownOf(a, clientId) + ShownOf(b, clientId)
  {
    if b != [] {
      assert (a + b)[..|a + b| - 1] == a + b[..|b| - 1];
      ShownConcat(a, b[..|b| - 1], clientId);
    } else {
      assert a + b == a;
    }
  }

  /** Reversing a concatenation reverses the pieces and swaps them. */
  lemma ReverseConcat<T>(a: seq<T>, b: seq<T>)
    ensures Reverse(a + b) == Reverse(b) + Reverse(a)
  {
    var l, r := Reverse(a + b), Reverse(b) + Reverse(a);
    forall k | 0 <= k < |l|
      ensures l[k] == r[k]
    {
      if k < |b| {
        assert l[k] == (a + b)[|a| + |b| - 1 - k] == b[|b| - 1 - k];
      } else {
        assert l[k] == (a + b)[|a| + |b| - 1 - k] == a[|a| - 1 - (k - |b|)];
      }
    }
  }

  /**
   * Taking out the order at `i` takes it out of the history if it was shown
   * there: the history before is the later orders' history, then that order
   * if shown, then the earlier orders' history; afterwards the middle part
   * is gone.
   */
  lemma VisibleSplice(orders: seq<Order>, i: int, clientId: string)
    requires 0 <= i < |orders|
    ensures var pre, post := orders[..i], orders[i + 1..];
      && Visible(pre + post, clientId) == Visible(post, clientId) + Visible(pre, clientId)
      && Visible(orders, clientId) ==
           Visible(post, clientId) + (if Shown(orders[i], clientId) then [orders[i]] else []) + Visible(pre, clientId)
    ensures |Visible(orders[..i] + orders[i + 1..], clientId)| ==
      |Visible(orders, clientId)| - (if Shown(orders[i], clientId) then 1 else 0)
  {
    var pre, post, o := orders[..i], orders[i + 1..], orders[i];
    SpliceParts(orders, i);
    VisibleConcat(pre + [o], post, clientId);
    VisibleAppend(pre, o, clientId);
    VisibleConcat(pre, post, clientId);
    var vp, vm, vq := Visible(pre, clientId), (if Shown(o, clientId) then [o] else []), Visible(post, clientId);
    assert Visible(orders, clientId) == vq + (vm + vp);
    AppendAssoc(vq, vm, vp);
  }

  /** A sequence is the part before `i`, the element at `i` and the part after it. */
  lemma SpliceParts<T>(s: seq<T>, i: int)
    requires 0 <= i < |s|
    ensures s == (s[..i] + [s[i]]) + s[i + 1..]
  {
  }

  lemma AppendAssoc<T>(a: seq<T>, b: seq<T>, c: seq<T>)
    ensures a + (b + c) == a + b + c
  {
  }

  /** The history of two pieces: the later piece's history, then the earlier one's. */
  lemma VisibleConcat(a: seq<Order>, b: seq<Order>, clientId: string)
    ensures Visible(a + b, clientId) == Visible(b, clientId) + Visible(a, clientId)
  {
    ShownConcat(a, b, clientId);
    ReverseConcat(ShownOf(a, clientId), ShownOf(b, clientId));
  }

  /** What `cancelOrder` writes into the order before archiving it. */
  function CancelledCopy(o: Order, at: int): (c: Order)
    ensures c.status == Cancelled && c.cancelledReason == Some(CustomerReason) && c.cancelledAt == Some(at)
    ensures c == o.(status := c.status, cancelledReason := c.cancelledReason, cancelledAt := c.cancelledAt)
  {
    o.(status := Cancelled, cancelledReason := Some(CustomerReason), cancelledAt := Some(at))
  }

  /** `new Date(o.createdAt).toISOString().slice(0, 10)`: the UTC day under which a cancelled order is archived. */
  function ArchiveKey(o: Order): (k: string)
    ensures |k| == 10
  {
    DayKey(o.createdAt)
  }

  /**
   * `archive[k].push(o)` after `if (!archive[k]) archive[k] = []`: the order
   * goes last on day `k`'s list, every earlier entry and every other day stay
   * as they were.
   */
  function Archive(archive: map<string, seq<Order>>, k: string, o: Order): (r: map<string, seq<Order>>)
    ensures k in r && |r[k]| >= 1 && r[k][|r[k]| - 1] == o
    ensures r[k][..|r[k]| - 1] == (if k in archive then archive[k] else [])
    ensures forall d :: d != k ==> (d in r <==> d in archive) && (d in r ==> r[d] == archive[d])
  {
    var day := if k in archive then archive[k] else [];
    assert (day + [o])[..|day|] == day;
    archive[k := day + [o]]
  }

  /** Archiving adds exactly one order, whatever the day. */
  lemma ArchiveGrows(archive: map<string, seq<Order>>, k: string, o: Order)
    ensures ArchivedCount(Archive(archive, k, o)) == ArchivedCount(archive) + 1
  {
    var r := Archive(archive, k, o);
    var rest := archive - {k};
    var before := if k in archive then |archive[k]| else 0;
    assert |r[k]| == before + 1;
    assert ArchivedCount(r) == |r[k]| + ArchivedCount(rest) by {
      assert r - {k} == rest;
      CountWithout(r, k);
    }
    assert ArchivedCount(archive) == before + ArchivedCount(rest) by {
      if k in archive {
        CountWithout(archive, k);
      } else {
        assert archive == rest;
      }
    }
  }

  /** How many orders an archive holds over all days. */
  ghost function ArchivedCount(archive: map<string, seq<Order>>): nat
    decreases |archive|
  {
    if archive == map[] then 0
    else
      var d :| d in archive;
      |archive[d]| + ArchivedCount(archive - {d})
  }

  /** The count of an archive is the count of any one day plus the count of the others. */
  lemma {:induction false} CountWithout(archive: map<string, seq<Order>>, k: string)
    requires k in archive
    ensures ArchivedCount(archive) == |archive[k]| + ArchivedCount(archive - {k})
    decreases |archive|
  {
    var d :| d in archive && ArchivedCount(archive) == |archive[d]| + ArchivedCount(archive - {d});
    if d != k {
      assert archive - {d} - {k} == archive - {k} - {d};
      CountWithout(archive - {d}, k);
      CountWithout(archive - {k}, d);
    }
  }
}
