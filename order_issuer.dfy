/** The order issuer: one active order per user, a disambiguated amount drawn
    against the in-use query, cancellation and the expiry sweep. */
module OrderIssuer {
  import opened PaymentTypes
  import opened OrderStore

  /** The amount for draw k: base price plus k/10000 USDT. */
  function Candidate(base: int, k: int): int {
    base + k * DRAW_UNIT
  }

  /** What the random draw delivers: 50 values, each in [1, 9999]. */
  predicate ValidDraws(draws: seq<int>) {
    |draws| == MAX_AMOUNT_ATTEMPTS && forall i :: 0 <= i < |draws| ==> MIN_DRAW <= draws[i] <= MAX_DRAW
  }

  /** The first candidate, in draw order, that the in-use query reports free. */
  function FirstFree(orders: OrderTable, base: int, draws: seq<int>): (r: Option<int>)
    ensures r.Some? ==> !AmountInUse(orders, r.value)
    decreases |draws|
  {
    if draws == [] then None
    else if !AmountInUse(orders, Candidate(base, draws[0])) then Some(Candidate(base, draws[0]))
    else FirstFree(orders, base, draws[1..])
  }

  /** A free amount is the candidate of some draw, free, and every earlier draw was in use. */
  lemma {:induction false} FirstFreeSound(orders: OrderTable, base: int, draws: seq<int>)
    ensures FirstFree(orders, base, draws).Some? ==>
      exists i :: 0 <= i < |draws| && FirstFree(orders, base, draws).value == Candidate(base, draws[i]) &&
        !AmountInUse(orders, Candidate(base, draws[i])) &&
        forall j :: 0 <= j < i ==> AmountInUse(orders, Candidate(base, draws[j]))
    decreases |draws|
  {
    if draws != [] && AmountInUse(orders, Candidate(base, draws[0])) {
      FirstFreeSound(orders, base, draws[1..]);
      if FirstFree(orders, base, draws).Some? {
        var i :| 0 <= i < |draws[1..]| && FirstFree(orders, base, draws[1..]).value == Candidate(base, draws[1..][i]) &&
          !AmountInUse(orders, Candidate(base, draws[1..][i])) &&
          forall j :: 0 <= j < i ==> AmountInUse(orders, Candidate(base, draws[1..][j]));
        assert FirstFree(orders, base, draws).value == Candidate(base, draws[i + 1]);
        forall j | 0 <= j < i + 1 ensures AmountInUse(orders, Candidate(base, draws[j])) {
          if j > 0 { assert draws[j] == draws[1..][j - 1]; }
        }
      }
    }
  }

  /** The draw fails exactly when every one of the draws is in use. */
  lemma {:induction false} FirstFreeNoneIff(orders: OrderTable, base: int, draws: seq<int>)
    ensures FirstFree(orders, base, draws).None? <==>
      forall i :: 0 <= i < |draws| ==> AmountInUse(orders, Candidate(base, draws[i]))
    decreases |draws|
  {
    if draws != [] {
      FirstFreeNoneIff(orders, base, draws[1..]);
      assert forall i :: 1 <= i < |draws| ==> draws[i] == draws[1..][i - 1];
    }
  }

  /** The order create_payment_order builds. */
  function NewOrder(orderId: string, userId: int, planId: string, amount: int, now: int): Order {
    Order(orderId, userId, planId, amount, Pending, now, now + ORDER_TIMEOUT_SECONDS, None, None, None, None)
  }

  /** Issuance once the user's stale order (if any) is retired: resolve the
      plan, draw a free amount, insert the order. Returns the issued order
      (if any) and the orders table afterwards. */
  function Issue(orders: OrderTable, userId: int, planId: string, now: int, orderId: string, draws: seq<int>)
    : (res: (Option<Order>, OrderTable))
    ensures res.0.None? ==> res.1 == orders
    ensures res.0.Some? ==>
      res.0.value.orderId !in orders && res.1 == orders[res.0.value.orderId := res.0.value] &&
      res.0.value.status == Pending && !AmountInUse(orders, res.0.value.amount)
  {
    match PlanOf(planId)
    case None => (None, orders)
    case Some(plan) =>
      match FirstFree(orders, plan.price, draws)
      case None => (None, orders)
      case Some(amount) =>
        if orderId in orders then (None, orders)
        else (Some(NewOrder(orderId, userId, planId, amount, now)),
              orders[orderId := NewOrder(orderId, userId, planId, amount, now)])
  }

  /** An issued order is PENDING for that user and plan, expires ten minutes
      after creation, and its amount is base + k/10000 for one of the draws,
      with k in [1, 9999], and not in use when drawn. */
  lemma IssuedOrderShape(orders: OrderTable, userId: int, planId: string, now: int, orderId: string, draws: seq<int>)
    requires ValidDraws(draws)
    ensures var (r, after) := Issue(orders, userId, planId, now, orderId, draws);
      r.Some? ==>
        && PlanOf(planId).Some?
        && r.value.orderId == orderId && orderId !in orders && after == orders[orderId := r.value]
        && r.value.status == Pending && r.value.userId == userId && r.value.planId == planId
        && r.value.createdAt == now && r.value.expiresAt == now + ORDER_TIMEOUT_SECONDS
        && (exists i :: 0 <= i < |draws| && r.value.amount == Candidate(PlanOf(planId).value.price, draws[i]))
        && PlanOf(planId).value.price + MIN_DRAW * DRAW_UNIT <= r.value.amount <= PlanOf(planId).value.price + MAX_DRAW * DRAW_UNIT
        && !AmountInUse(orders, r.value.amount)
  {
    var (r, after) := Issue(orders, userId, planId, now, orderId, draws);
    if r.Some? {
      FirstFreeSound(orders, PlanOf(planId).value.price, draws);
    }
  }

  /** Issuance refuses an unknown plan, an exhausted draw and a clashing id,
      and then leaves the table as it was. */
  lemma IssueRefusals(orders: OrderTable, userId: int, planId: string, now: int, orderId: string, draws: seq<int>)
    ensures PlanOf(planId).None? ==> Issue(orders, userId, planId, now, orderId, draws) == (None, orders)
    ensures PlanOf(planId).Some? &&
      (forall i :: 0 <= i < |draws| ==> AmountInUse(orders, Candidate(PlanOf(planId).value.price, draws[i])))
      ==> Issue(orders, userId, planId, now, orderId, draws) == (None, orders)
    ensures orderId in orders ==> Issue(orders, userId, planId, now, orderId, draws) == (None, orders)
  {
    if PlanOf(planId).Some? {
      FirstFreeNoneIff(orders, PlanOf(planId).value.price, draws);
    }
  }

  /** With no PENDING order left for the user, issuance keeps one active order
      per user, PENDING amounts pairwise apart and on the 0.0001 grid. */
  lemma IssueKeepsInvariants(orders: OrderTable, userId: int, planId: string, now: int, orderId: string, draws: seq<int>)
    requires ValidDraws(draws)
    requires IssuerInvariants(orders)
    requires forall id :: !IsPendingOf(orders, id, userId)
    ensures IssuerInvariants(Issue(orders, userId, planId, now, orderId, draws).1)
  {
    IssuedOrderShape(orders, userId, planId, now, orderId, draws);
    var (r, after) := Issue(orders, userId, planId, now, orderId, draws);
    if r.Some? {
      var o := r.value;
      var i :| 0 <= i < |draws| && o.amount == Candidate(PlanOf(planId).value.price, draws[i]);
      assert o.amount % DRAW_UNIT == 0;
      forall id | id in orders && orders[id].status == Pending ensures orders[id].userId != userId {
        assert !IsPendingOf(orders, id, userId);
      }
      forall a, b | a in after && b in after && a != b && after[a].status == Pending && after[b].status == Pending
        ensures Abs(after[a].amount - after[b].amount) >= IN_USE_TOLERANCE
      {
      }
      forall a, b | a in after && b in after && after[a].status == Pending && after[b].status == Pending &&
        after[a].userId == after[b].userId
        ensures a == b
      {
      }
    }
  }

  /** Two orders issued back to back, for different users on the same plan,
      receive different amounts. */
  lemma BackToBackAmountsDiffer(orders: OrderTable, u1: int, u2: int, planId: string, now: int,
                                id1: string, id2: string, draws1: seq<int>, draws2: seq<int>)
    requires ValidDraws(draws1) && ValidDraws(draws2)
    requires Issue(orders, u1, planId, now, id1, draws1).0.Some?
    requires Issue(Issue(orders, u1, planId, now, id1, draws1).1, u2, planId, now, id2, draws2).0.Some?
    ensures Issue(Issue(orders, u1, planId, now, id1, draws1).1, u2, planId, now, id2, draws2).0.value.amount
            != Issue(orders, u1, planId, now, id1, draws1).0.value.amount
  {
    var (r1, mid) := Issue(orders, u1, planId, now, id1, draws1);
    IssuedOrderShape(orders, u1, planId, now, id1, draws1);
    IssuedOrderShape(mid, u2, planId, now, id2, draws2);
    assert mid[id1] == r1.value;
  }

  /** The order manager: issues, cancels and expires orders in the store. */
  class OrderManager {
    const db: PaymentDatabase

    constructor (db: PaymentDatabase)
      ensures this.db == db
    {
      this.db := db;
    }

    /** create_payment_order. The order id, the clock and the 50 random draws
        are supplied by the caller. `existing` is the PENDING order the store
        returned for the user, if any. */
    method CreatePaymentOrder(userId: int, planId: string, now: int, orderId: string, draws: seq<int>)
      returns (r: Option<Order>, ghost existing: Option<Order>)
      requires db.Valid()
      requires ValidDraws(draws)
      modifies db
      ensures db.Valid() && db.transactions == old(db.transactions)
      ensures existing.None? <==> forall id :: !IsPendingOf(old(db.orders), id, userId)
      ensures existing.Some? ==> IsNewestPendingOf(old(db.orders), existing.value, userId)
      ensures existing.Some? && now < existing.value.expiresAt ==> r.None? && db.orders == old(db.orders)
      ensures existing.None? ==> (r, db.orders) == Issue(old(db.orders), userId, planId, now, orderId, draws)
      ensures existing.Some? && existing.value.expiresAt <= now ==>
        (r, db.orders) == Issue(SetStatus(old(db.orders), existing.value.orderId, Expired, None, now),
                                userId, planId, now, orderId, draws)
      ensures IssuerInvariants(old(db.orders)) ==> IssuerInvariants(db.orders)
    {
      var found := db.GetUserPendingOrder(userId);
      existing := found;
      if found.Some? {
        if now < found.value.expiresAt {
          r := None;
          return;
        }
        if IssuerInvariants(db.orders) {
          SetStatusKeepsInvariants(db.orders, found.value.orderId, Expired, None, now);
        }
        db.UpdateOrderStatus(found.value.orderId, Expired, None, now);
      }
      ghost var cleared := db.orders;
      assert IssuerInvariants(old(db.orders)) ==> forall id :: !IsPendingOf(cleared, id, userId);
      var plan := PlanOf(planId);
      if plan.None? {
        r := None;
        return;
      }
      var amount := DrawAmount(plan.value.price, draws);
      if amount.None? {
        r := None;
        return;
      }
      var order := NewOrder(orderId, userId, planId, amount.value, now);
      var ok := db.CreateOrder(order);
      r := if ok then Some(order) else None;
      if IssuerInvariants(old(db.orders)) {
        IssueKeepsInvariants(cleared, userId, planId, now, orderId, draws);
      }
    }

    /** The bounded draw loop: the first of the 50 draws whose amount the
        in-use query reports free. */
    method DrawAmount(base: int, draws: seq<int>) returns (amount: Option<int>)
      requires ValidDraws(draws)
      ensures amount == FirstFree(db.orders, base, draws)
      ensures amount.Some? ==> base + MIN_DRAW * DRAW_UNIT <= amount.value <= base + MAX_DRAW * DRAW_UNIT
      ensures amount.Some? ==> !AmountInUse(db.orders, amount.value)
    {
      var attempt := 0;
      while attempt < MAX_AMOUNT_ATTEMPTS
        invariant 0 <= attempt <= MAX_AMOUNT_ATTEMPTS
        invariant FirstFree(db.orders, base, draws) == FirstFree(db.orders, base, draws[attempt..])
      {
        var candidate := Candidate(base, draws[attempt]);
        var inUse := db.IsAmountInUse(candidate);
        if !inUse {
          return Some(candidate);
        }
        attempt := attempt + 1;
      }
      return None;
    }

    /** cancel_order: set CANCELLED, with no transition check. */
    method CancelOrder(orderId: string, now: int)
      requires db.Valid()
      modifies db
      ensures db.Valid() && db.transactions == old(db.transactions)
      ensures db.orders == SetStatus(old(db.orders), orderId, Cancelled, None, now)
    {
      db.UpdateOrderStatus(orderId, Cancelled, None, now);
    }

    /** expire_old_orders: every PENDING order past its expiry becomes EXPIRED;
        every other order is untouched. */
    method ExpireOldOrders(now: int)
      requires db.Valid()
      modifies db
      ensures db.Valid() && db.transactions == old(db.transactions)
      ensures db.orders == ExpireAll(old(db.orders), now)
    {
      var pending := db.GetPendingOrders();
      ghost var before := db.orders;
      ghost var done: set<string> := {};
      var i := 0;
      while i < |pending|
        invariant 0 <= i <= |pending|
        invariant db.Valid() && db.transactions == old(db.transactions)
        invariant db.orders.Keys == before.Keys
        invariant done == set j | 0 <= j < i :: pending[j].orderId
        invariant forall id :: id in db.orders ==> db.orders[id] == if id in done then Expire(before[id], now) else before[id]
      {
        var order := pending[i];
        assert order.orderId !in done;
        if now > order.expiresAt {
          db.UpdateOrderStatus(order.orderId, Expired, None, now);
        }
        done := done + {order.orderId};
        i := i + 1;
      }
      forall id | id in db.orders ensures db.orders[id] == ExpireAll(before, now)[id] {
      }
    }
  }
}
