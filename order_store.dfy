/** The order store: the orders table (order id -> row) and the transactions
    table (tx hash -> row), with the queries and updates the service issues. */
module OrderStore {
  import opened PaymentTypes

  type OrderTable = map<string, Order>
  type TxTable = map<string, TransactionRecord>

  /** Every row sits under its own primary key. */
  ghost predicate KeysMatch(orders: OrderTable) {
    forall id :: id in orders ==> orders[id].orderId == id
  }

  ghost predicate TxKeysMatch(txs: TxTable) {
    forall h :: h in txs ==> txs[h].txHash == h
  }

  /** The row create_order writes: only the seven leading columns are
      inserted, so the transaction hash, timestamps and message id are NULL. */
  function Inserted(o: Order): Order {
    o.(txHash := None, paidAt := None, completedAt := None, messageId := None)
  }

  /** The row after update_order_status: which columns are written depends on
      the target status; no transition is refused. */
  function WithStatus(o: Order, s: OrderStatus, txHash: Option<string>, now: int): (r: Order)
    ensures r.status == s
    ensures r.orderId == o.orderId && r.userId == o.userId && r.planId == o.planId
    ensures r.amount == o.amount && r.createdAt == o.createdAt && r.expiresAt == o.expiresAt
    ensures r.messageId == o.messageId
    ensures r.txHash == (if s == Paid then txHash else o.txHash)
    ensures r.paidAt == (if s == Paid then Some(now) else o.paidAt)
    ensures r.completedAt == (if s == Completed then Some(now) else o.completedAt)
  {
    match s
    case Paid => o.(status := s, txHash := txHash, paidAt := Some(now))
    case Completed => o.(status := s, completedAt := Some(now))
    case _ => o.(status := s)
  }

  /** The table after update_order_status: an unknown id updates no row. */
  function SetStatus(orders: OrderTable, id: string, s: OrderStatus, txHash: Option<string>, now: int): (r: OrderTable)
    ensures r.Keys == orders.Keys
    ensures id in orders ==> r[id] == WithStatus(orders[id], s, txHash, now)
    ensures forall other :: other in orders && other != id ==> r[other] == orders[other]
  {
    if id in orders then orders[id := WithStatus(orders[id], s, txHash, now)] else orders
  }

  /** is_transaction_processed: a row exists for the hash and its flag is set. */
  predicate IsProcessed(txs: TxTable, h: string) {
    h in txs && txs[h].processed
  }

  /** is_amount_in_use: some PENDING order lies within 0.00001 USDT. */
  predicate AmountInUse(orders: OrderTable, x: int) {
    exists id :: id in orders && orders[id].status == Pending && Abs(orders[id].amount - x) < IN_USE_TOLERANCE
  }

  /** The expiry rule both sweeps apply: PENDING and past its expiry. */
  predicate IsOverdue(o: Order, now: int) {
    o.status == Pending && o.expiresAt < now
  }

  function Expire(o: Order, now: int): Order {
    if IsOverdue(o, now) then o.(status := Expired) else o
  }

  /** The table after an expiry sweep at time now. */
  function ExpireAll(orders: OrderTable, now: int): (r: OrderTable)
    ensures r.Keys == orders.Keys
    ensures forall id :: id in orders && IsOverdue(orders[id], now) ==> r[id] == orders[id].(status := Expired)
    ensures forall id :: id in orders && !IsOverdue(orders[id], now) ==> r[id] == orders[id]
  {
    map id | id in orders :: Expire(orders[id], now)
  }

  /** get_order_message_id: a NULL or zero message id reads as absent. */
  function MessageIdOf(orders: OrderTable, id: string): Option<int> {
    if id in orders && orders[id].messageId.Some? && orders[id].messageId.value != 0
    then orders[id].messageId else None
  }

  function WithMessageId(orders: OrderTable, id: string, m: int): (r: OrderTable)
    ensures r.Keys == orders.Keys
  {
    if id in orders then orders[id := orders[id].(messageId := Some(m))] else orders
  }

  /** Which rows a listing query returns. */
  datatype Filter = AllPending | OverdueAt(now: int)

  predicate Selects(f: Filter, o: Order) {
    match f
    case AllPending => o.status == Pending
    case OverdueAt(now) => IsOverdue(o, now)
  }

  /** s lists, once each and in some order, exactly the rows f selects. */
  ghost predicate Enumerates(s: seq<Order>, orders: OrderTable, f: Filter) {
    && (forall i :: 0 <= i < |s| ==> s[i].orderId in orders && orders[s[i].orderId] == s[i] && Selects(f, s[i]))
    && (forall i, j :: 0 <= i < j < |s| ==> s[i].orderId != s[j].orderId)
    && (forall id :: id in orders && Selects(f, orders[id]) ==> exists i :: 0 <= i < |s| && s[i].orderId == id)
  }

  ghost predicate IsPendingOf(orders: OrderTable, id: string, userId: int) {
    id in orders && orders[id].status == Pending && orders[id].userId == userId
  }

  /** o is a most recently created PENDING order of the user. */
  ghost predicate IsNewestPendingOf(orders: OrderTable, o: Order, userId: int) {
    && IsPendingOf(orders, o.orderId, userId) && orders[o.orderId] == o
    && forall id :: IsPendingOf(orders, id, userId) ==> orders[id].createdAt <= o.createdAt
  }

  /** One active order per user. */
  ghost predicate OnePendingPerUser(orders: OrderTable) {
    forall a, b ::
      (a in orders && b in orders && orders[a].status == Pending && orders[b].status == Pending &&
       orders[a].userId == orders[b].userId) ==> a == b
  }

  /** Amount uniqueness among PENDING orders, as the in-use query sees it. */
  ghost predicate PendingAmountsApart(orders: OrderTable) {
    forall a, b :: a in orders && b in orders && a != b && orders[a].status == Pending && orders[b].status == Pending
      ==> Abs(orders[a].amount - orders[b].amount) >= IN_USE_TOLERANCE
  }

  /** Every PENDING amount is a whole number of 0.0001 USDT units. */
  ghost predicate PendingOnGrid(orders: OrderTable) {
    forall id :: id in orders && orders[id].status == Pending ==> orders[id].amount % DRAW_UNIT == 0
  }

  ghost predicate IssuerInvariants(orders: OrderTable) {
    OnePendingPerUser(orders) && PendingAmountsApart(orders) && PendingOnGrid(orders)
  }

  /** A status update to anything but PENDING only shrinks the set of PENDING
      orders, so the issuer's invariants survive it. */
  lemma SetStatusKeepsInvariants(orders: OrderTable, id: string, s: OrderStatus, txHash: Option<string>, now: int)
    requires s != Pending
    requires IssuerInvariants(orders)
    ensures IssuerInvariants(SetStatus(orders, id, s, txHash, now))
  {
  }

  lemma ExpireAllKeepsInvariants(orders: OrderTable, now: int)
    requires IssuerInvariants(orders)
    ensures IssuerInvariants(ExpireAll(orders, now))
  {
  }

  /** Running the expiry sweep twice equals running it once. */
  lemma ExpireAllIdempotent(orders: OrderTable, now: int)
    ensures ExpireAll(ExpireAll(orders, now), now) == ExpireAll(orders, now)
  {
  }

  /** Two amounts on the 0.0001 grid within 0.00001 of each other are equal. */
  lemma GridCloseIsEqual(a: int, x: int)
    requires a % DRAW_UNIT == 0 && x % DRAW_UNIT == 0
    requires Abs(a - x) < IN_USE_TOLERANCE
    ensures a == x
  {
    var d := a / DRAW_UNIT - x / DRAW_UNIT;
    assert a - x == DRAW_UNIT * d;
  }

  /** On the grid, the in-use query is exact equality with a PENDING amount. */
  lemma InUseOnGridIsEquality(orders: OrderTable, x: int)
    requires PendingOnGrid(orders) && x % DRAW_UNIT == 0
    ensures AmountInUse(orders, x) <==> exists id :: id in orders && orders[id].status == Pending && orders[id].amount == x
  {
    if AmountInUse(orders, x) {
      var id :| id in orders && orders[id].status == Pending && Abs(orders[id].amount - x) < IN_USE_TOLERANCE;
      GridCloseIsEqual(orders[id].amount, x);
    }
  }

  /** Distinct PENDING amounts on the grid lie at least 0.0001 USDT apart. */
  lemma GridApartIsMatchApart(a: int, b: int)
    requires a % DRAW_UNIT == 0 && b % DRAW_UNIT == 0
    requires Abs(a - b) >= IN_USE_TOLERANCE
    ensures Abs(a - b) >= MATCH_TOLERANCE
  {
    var d := a / DRAW_UNIT - b / DRAW_UNIT;
    assert a - b == DRAW_UNIT * d;
  }

  /** Reading back a saved message id yields it, unless the order is unknown
      or the id is zero (which the query reads as absent). */
  lemma MessageIdRoundTrip(orders: OrderTable, id: string, m: int)
    ensures MessageIdOf(WithMessageId(orders, id, m), id) == (if id in orders && m != 0 then Some(m) else None)
    ensures forall other :: other != id ==> MessageIdOf(WithMessageId(orders, id, m), other) == MessageIdOf(orders, other)
  {
  }

  /** The payment database, with its two tables held in memory. */
  class PaymentDatabase {
    var orders: OrderTable
    var transactions: TxTable

    ghost predicate Valid()
      reads this
    {
      KeysMatch(orders) && TxKeysMatch(transactions)
    }

    constructor ()
      ensures Valid() && orders == map[] && transactions == map[]
    {
      orders := map[];
      transactions := map[];
    }

    /** INSERT of a new order; a duplicate primary key makes it fail. */
    method CreateOrder(order: Order) returns (ok: bool)
      requires Valid()
      modifies this
      ensures Valid()
      ensures ok <==> order.orderId !in old(orders)
      ensures orders == if ok then old(orders)[order.orderId := Inserted(order)] else old(orders)
      ensures transactions == old(transactions)
    {
      ok := order.orderId !in orders;
      if ok {
        orders := orders[order.orderId := Inserted(order)];
      }
    }

    method GetOrder(orderId: string) returns (r: Option<Order>)
      ensures r.Some? <==> orderId in orders
      ensures r.Some? ==> r.value == orders[orderId]
    {
      r := if orderId in orders then Some(orders[orderId]) else None;
    }

    /** The rows a listing query selects, in no particular order (the queries
        carry no ORDER BY). */
    method SelectOrders(f: Filter) returns (s: seq<Order>)
      requires Valid()
      ensures Enumerates(s, orders, f)
    {
      s := [];
      var rest := orders.Keys;
      while rest != {}
        invariant rest <= orders.Keys
        invariant forall i :: 0 <= i < |s| ==>
          s[i].orderId in orders && orders[s[i].orderId] == s[i] && Selects(f, s[i]) && s[i].orderId !in rest
        invariant forall i, j :: 0 <= i < j < |s| ==> s[i].orderId != s[j].orderId
        invariant forall id :: id in orders && id !in rest && Selects(f, orders[id]) ==>
          exists i :: 0 <= i < |s| && s[i].orderId == id
        decreases rest
      {
        var id :| id in rest;
        ghost var prev := s;
        if Selects(f, orders[id]) {
          s := s + [orders[id]];
        }
        forall other | other in orders && other !in rest - {id} && Selects(f, orders[other])
          ensures exists i :: 0 <= i < |s| && s[i].orderId == other
        {
          if other == id {
            assert s[|s| - 1].orderId == other;
          } else {
            var i :| 0 <= i < |prev| && prev[i].orderId == other;
            assert s[i] == prev[i];
          }
        }
        rest := rest - {id};
      }
    }

    method GetPendingOrders() returns (s: seq<Order>)
      requires Valid()
      ensures Enumerates(s, orders, AllPending)
    {
      s := SelectOrders(AllPending);
    }

    method GetExpiredPendingOrders(now: int) returns (s: seq<Order>)
      requires Valid()
      ensures Enumerates(s, orders, OverdueAt(now))
    {
      s := SelectOrders(OverdueAt(now));
    }

    /** The newest PENDING order of a user (ORDER BY created_at DESC LIMIT 1). */
    method GetUserPendingOrder(userId: int) returns (r: Option<Order>)
      requires Valid()
      ensures r.None? <==> forall id :: !IsPendingOf(orders, id, userId)
      ensures r.Some? ==> IsNewestPendingOf(orders, r.value, userId)
    {
      r := None;
      var rest := orders.Keys;
      while rest != {}
        invariant rest <= orders.Keys
        invariant r.None? ==> forall id :: id !in rest ==> !IsPendingOf(orders, id, userId)
        invariant r.Some? ==> IsPendingOf(orders, r.value.orderId, userId) && orders[r.value.orderId] == r.value
        invariant r.Some? ==> forall id :: id !in rest && IsPendingOf(orders, id, userId) ==>
          orders[id].createdAt <= r.value.createdAt
        decreases rest
      {
        var id :| id in rest;
        var o := orders[id];
        if o.status == Pending && o.userId == userId && (r.None? || o.createdAt > r.value.createdAt) {
          r := Some(o);
        }
        rest := rest - {id};
      }
    }

    method UpdateOrderStatus(orderId: string, status: OrderStatus, txHash: Option<string>, now: int)
      requires Valid()
      modifies this
      ensures Valid()
      ensures orders == SetStatus(old(orders), orderId, status, txHash, now)
      ensures transactions == old(transactions)
    {
      orders := SetStatus(orders, orderId, status, txHash, now);
    }

    /** INSERT OR REPLACE keyed by the transaction hash. */
    method SaveTransaction(tx: TransactionRecord)
      requires Valid()
      modifies this
      ensures Valid()
      ensures transactions == old(transactions)[tx.txHash := tx]
      ensures orders == old(orders)
    {
      transactions := transactions[tx.txHash := tx];
    }

    method IsTransactionProcessed(txHash: string) returns (b: bool)
      ensures b <==> txHash in transactions && transactions[txHash].processed
    {
      b := IsProcessed(transactions, txHash);
    }

    method IsAmountInUse(amount: int) returns (b: bool)
      ensures b <==> exists id :: id in orders && orders[id].status == Pending &&
                                 Abs(orders[id].amount - amount) < IN_USE_TOLERANCE
    {
      b := AmountInUse(orders, amount);
    }

    method UpdateOrderMessageId(orderId: string, messageId: int)
      requires Valid()
      modifies this
      ensures Valid()
      ensures orders == WithMessageId(old(orders), orderId, messageId)
      ensures transactions == old(transactions)
    {
      orders := WithMessageId(orders, orderId, messageId);
    }

    method GetOrderMessageId(orderId: string) returns (r: Option<int>)
      ensures r.Some? <==> orderId in orders && orders[orderId].messageId.Some? && orders[orderId].messageId.value != 0
      ensures r.Some? ==> orders[orderId].messageId == r
    {
      r := MessageIdOf(orders, orderId);
    }
  }
}
