/**
 * How a page learns what other tabs did. The `storage` listener reacts to two
 * keys: a new `orders_v1` snapshot is compared with the last one the page
 * saw, and a new `lastOrderUpdate_v1` event is shown only on the client that
 * owns the order.
 */
module Sync {
  import opened Common
  import opened Orders

  /**
   * The `lastOrderUpdate_v1` payload `{ id, status, reason, ownerId, ts }`; a
   * field that is absent or empty is `""`.
   */
  datatype Update = Update(id: string, status: string, reason: string, ownerId: string, ts: int)

  /** The alerts the listener raises. */
  datatype Notice =
    | StatusChanged(id: string, status: string)   // "order ... was updated: completed / cancelled"
    | OrderCancelled(id: string, reason: string)  // "order ... was cancelled. Reason: ..."
    | OrderCompleted(id: string)                  // "order ... was completed."

  /** The reason shown when a cancellation event carries none. */
  const NoReason: string := "Không có lý do"

  // ----- the orders_v1 snapshot diff -----

  /** `s.forEach(o => map[o.id] = o)`: each id of `s` mapped to an order of `s` carrying it. */
  function LastById(s: seq<Order>): (m: map<string, Order>)
    ensures forall id :: id in m <==> exists k :: 0 <= k < |s| && s[k].id == id
    ensures forall id :: id in m ==> m[id].id == id && m[id] in s
  {
    if s == [] then map[]
    else
      var pre := s[..|s| - 1];
      var o := s[|s| - 1];
      assert s == pre + [o];
      LastById(pre)[o.id := o]
  }

  /** Of several orders with the same id, the last one wins. */
  lemma {:induction false} LastWins(s: seq<Order>, k: int)
    requires 0 <= k < |s|
    requires forall j :: k < j < |s| ==> s[j].id != s[k].id
    ensures LastById(s)[s[k].id] == s[k]
  {
    if k < |s| - 1 {
      var pre := s[..|s| - 1];
      LastWins(pre, k);
    }
  }

  /**
   * The transition rule of the listener: `o`'s id was in the previous
   * snapshot under another status, and `o` is now completed or cancelled.
   */
  predicate Reported(prevMap: map<string, Order>, o: Order)
  {
    o.id in prevMap && prevMap[o.id].status != o.status && (o.status == Completed || o.status == Cancelled)
  }

  /** The alerts for a new snapshot, in snapshot order. */
  function Transitions(prevMap: map<string, Order>, next: seq<Order>): (t: seq<Notice>)
    ensures |t| <= |next|
    ensures forall k :: 0 <= k < |t| ==> t[k].StatusChanged? && (t[k].status == Completed || t[k].status == Cancelled)
  {
    if next == [] then []
    else
      var o := next[|next| - 1];
      Transitions(prevMap, next[..|next| - 1]) + (if Reported(prevMap, o) then [StatusChanged(o.id, o.status)] else [])
  }

  /** The positions of the snapshot orders the listener reports. */
  ghost function ReportedAt(prevMap: map<string, Order>, next: seq<Order>): set<int>
  {
    set k | 0 <= k < |next| && Reported(prevMap, next[k])
  }

  /**
   * The listener alerts for exactly the orders of the new snapshot whose id
   * was already there under another status and which are now completed or
   * cancelled.
   */
  lemma {:induction false} TransitionsSpec(prevMap: map<string, Order>, next: seq<Order>)
    ensures forall n :: n in Transitions(prevMap, next) <==>
      exists k :: 0 <= k < |next| && Reported(prevMap, next[k]) && n == StatusChanged(next[k].id, next[k].status)
  {
    if next != [] {
      var pre := next[..|next| - 1];
      TransitionsSpec(prevMap, pre);
      assert forall k :: 0 <= k < |pre| ==> next[k] == pre[k];
    }
  }

  /** One alert per reported order of the snapshot, and no more. */
  lemma {:induction false} TransitionsCount(prevMap: map<string, Order>, next: seq<Order>)
    ensures |Transitions(prevMap, next)| == |ReportedAt(prevMap, next)|
  {
    if next != [] {
      var pre := next[..|next| - 1];
      TransitionsCount(prevMap, pre);
      ReportedAtSnoc(prevMap, next);
    } else {
      assert ReportedAt(prevMap, next) == {};
    }
  }

  /** The reported positions of a longer snapshot: those of its prefix, and the last one if it is reported. */
  lemma ReportedAtSnoc(prevMap: map<string, Order>, next: seq<Order>)
    requires next != []
    ensures var last := |next| - 1;
      var before := ReportedAt(prevMap, next[..last]);
      && last !in before
      && ReportedAt(prevMap, next) == before + (if Reported(prevMap, next[last]) then {last} else {})
  {
    var last := |next| - 1;
    var pre := next[..last];
    forall k | 0 <= k < last
      ensures k in ReportedAt(prevMap, next) <==> k in ReportedAt(prevMap, pre)
    {
      assert next[k] == pre[k];
    }
  }

  /**
   * No alert names a status other than completed or cancelled (a move to
   * processing is kept quiet), and none is raised for an order that left the
   * snapshot or that was not in the previous one.
   */
  lemma TransitionsOnlyFinal(prevMap: map<string, Order>, next: seq<Order>)
    ensures forall n :: n in Transitions(prevMap, next) ==>
      && n.StatusChanged? && (n.status == Completed || n.status == Cancelled)
      && n.id in prevMap && exists k :: 0 <= k < |next| && next[k].id == n.id
  {
    TransitionsSpec(prevMap, next);
  }

  /** Ids that occur once each. */
  predicate DistinctIds(s: seq<Order>)
  {
    forall i, j :: 0 <= i < j < |s| ==> s[i].id != s[j].id
  }

  /** Receiving the snapshot the page already has raises no alert, as long as no id occurs twice in it. */
  lemma SameSnapshotQuiet(s: seq<Order>)
    requires DistinctIds(s)
    ensures Transitions(LastById(s), s) == []
  {
    var m := LastById(s);
    forall k | 0 <= k < |s|
      ensures !Reported(m, s[k])
    {
      LastWins(s, k);
    }
    NothingReported(m, s);
  }

  lemma {:induction false} NothingReported(prevMap: map<string, Order>, next: seq<Order>)
    requires forall k :: 0 <= k < |next| ==> !Reported(prevMap, next[k])
    ensures Transitions(prevMap, next) == []
  {
    if next != [] {
      NothingReported(prevMap, next[..|next| - 1]);
    }
  }

  /**
   * The `orders_v1` branch of the listener: `prevMap` is filled from the
   * previous snapshot, then the new snapshot is walked, alerting on each
   * reported transition. (The `newMap` the listener also fills is never read.)
   */
  method DiffSnapshots(prev: seq<Order>, next: seq<Order>) returns (notices: seq<Notice>)
    ensures notices == Transitions(LastById(prev), next)
  {
    var prevMap: map<string, Order> := map[];
    var i := 0;
    while i < |prev|
      invariant 0 <= i <= |prev|
      invariant prevMap == LastById(prev[..i])
    {
      assert prev[..i + 1][..i] == prev[..i];
      prevMap := prevMap[prev[i].id := prev[i]];
      i := i + 1;
    }
    assert prev[..i] == prev;
    notices := [];
    var j := 0;
    while j < |next|
      invariant 0 <= j <= |next|
      invariant notices == Transitions(prevMap, next[..j])
    {
      assert next[..j + 1][..j] == next[..j];
      var o := next[j];
      if o.id in prevMap && prevMap[o.id].status != o.status {
        if o.status == Completed || o.status == Cancelled {
          notices := notices + [StatusChanged(o.id, o.status)];
        }
      }
      j := j + 1;
    }
    assert next[..j] == next;
  }

  // ----- the lastOrderUpdate_v1 event -----

  /**
   * The event `cancelOrder` publishes for the cancelled order `o`: its id, the
   * status `cancelled`, its reason, its owner or else the cancelling client,
   * and the time.
   */
  function CancelUpdate(o: Order, clientId: string, ts: int): (u: Update)
    ensures u.id == o.id && u.status == Cancelled && u.ts == ts
    ensures o.cancelledReason.Some? ==> u.reason == o.cancelledReason.value
    ensures u.ownerId == (if o.ownerId != "" then o.ownerId else clientId)
  {
    Update(o.id, Cancelled, if o.cancelledReason.Some? then o.cancelledReason.value else "",
           if o.ownerId != "" then o.ownerId else clientId, ts)
  }

  /**
   * The `lastOrderUpdate_v1` branch: `None` stands for a payload that failed
   * to parse or is not an object. An event without id or owner, or owned by
   * another client, raises nothing; otherwise a cancellation alerts with its
   * reason (or the default one) and a completion alerts; other statuses raise
   * nothing.
   */
  function Route(upd: Option<Update>, clientId: string): (n: Option<Notice>)
    ensures n.Some? <==>
      && upd.Some? && upd.value.id != "" && upd.value.ownerId != "" && upd.value.ownerId == clientId
      && (upd.value.status == Cancelled || upd.value.status == Completed)
    ensures n.Some? && upd.value.status == Cancelled ==>
      n.value == OrderCancelled(upd.value.id, if upd.value.reason != "" then upd.value.reason else NoReason)
    ensures n.Some? && upd.value.status == Completed ==> n.value == OrderCompleted(upd.value.id)
  {
    match upd
    case None => None
    case Some(u) =>
      if u.id == "" then None
      else if u.ownerId == "" then None
      else if u.ownerId != clientId then None
      else if u.status == Cancelled then Some(OrderCancelled(u.id, if u.reason != "" then u.reason else NoReason))
      else if u.status == Completed then Some(OrderCompleted(u.id))
      else None
  }

  /**
   * A customer's cancellation reaches exactly one client: the one that owns
   * the order (or, for an order without owner, the one that cancelled it),
   * which shows the customer reason.
   */
  lemma CancelReachesOwner(o: Order, at: int, clientId: string, ts: int, receiver: string)
    requires o.id != "" && clientId != "" && receiver != ""
    ensures var owner := if o.ownerId != "" then o.ownerId else clientId;
      Route(Some(CancelUpdate(CancelledCopy(o, at), clientId, ts)), receiver) ==
        if receiver == owner then Some(OrderCancelled(o.id, CustomerReason)) else None
  {
  }
}
