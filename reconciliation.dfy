/** The reconciliation tick of the payment service: the two expiry sweeps,
    the pending-order snapshot, the ledger poll, and the per-transfer
    disposition that matches incoming transfers to pending orders and grants
    memberships. */
module Reconciliation {
  import opened PaymentTypes
  import opened OrderStore
  import opened OrderIssuer
  import opened LedgerPoller

  /** One row of the memberships table of the main database. */
  datatype Membership = Membership(level: string, trialExpiry: Option<int>, expiry: Option<int>, createdAt: int)

  type Memberships = map<int, Membership>

  /** The level the grant writes. */
  const MEMBER_LEVEL: string := "会员"

  /** Everything the tick can change besides the key ring. */
  datatype Books = Books(orders: OrderTable, transactions: TxTable, memberships: Memberships)

  // ---------------------------------------------------------------------
  // Matching a transfer to an order
  // ---------------------------------------------------------------------

  /** The amounts differ by less than 0.0001 USDT. */
  predicate AmountMatches(tx: TransactionRecord, o: Order) {
    Abs(tx.amount - o.amount) < MATCH_TOLERANCE
  }

  /** The transfer lies between one minute before the order's creation and
      its expiry. */
  predicate InWindow(tx: TransactionRecord, o: Order) {
    o.createdAt - CLOCK_SKEW_GRACE_SECONDS <= tx.timestamp <= o.expiresAt
  }

  /** The order, not yet expired at now, accepts the transfer. */
  predicate Matches(tx: TransactionRecord, o: Order, now: int) {
    now <= o.expiresAt && AmountMatches(tx, o) && InWindow(tx, o)
  }

  /** Some snapshot entry for id is past its expiry at now. */
  predicate SnapshotOverdue(pending: seq<Order>, id: string, now: int) {
    exists l :: 0 <= l < |pending| && pending[l].orderId == id && now > pending[l].expiresAt
  }

  /** The first-match scan over the snapshot from entry i. An entry past its
      expiry is set EXPIRED in the table on the spot (whatever its current
      status there) and skipped; the scan stops at the first entry that
      accepts the transfer. */
  function ScanFrom(orders: OrderTable, pending: seq<Order>, tx: TransactionRecord, now: int, i: nat)
    : (res: (Option<Order>, OrderTable))
    ensures res.1.Keys == orders.Keys
    ensures res.0.Some? ==> Matches(tx, res.0.value, now)
    ensures res.0.Some? ==> exists l :: i <= l < |pending| && pending[l] == res.0.value
    ensures res.0.None? <==> forall l :: i <= l < |pending| ==> !Matches(tx, pending[l], now)
    ensures forall id :: id in orders ==>
      res.1[id] == orders[id] || (res.1[id] == orders[id].(status := Expired) && SnapshotOverdue(pending, id, now))
    decreases |pending| - i
  {
    if i >= |pending| then (None, orders)
    else
      var o := pending[i];
      if now > o.expiresAt then ScanFrom(SetStatus(orders, o.orderId, Expired, None, now), pending, tx, now, i + 1)
      else if !AmountMatches(tx, o) then ScanFrom(orders, pending, tx, now, i + 1)
      else if tx.timestamp < o.createdAt - CLOCK_SKEW_GRACE_SECONDS then ScanFrom(orders, pending, tx, now, i + 1)
      else if tx.timestamp > o.expiresAt then ScanFrom(orders, pending, tx, now, i + 1)
      else (Some(o), orders)
  }

  /** The scan returns the first entry that accepts the transfer. */
  lemma {:induction false} ScanTakesFirst(orders: OrderTable, pending: seq<Order>, tx: TransactionRecord, now: int,
                                          i: nat, j: nat)
    requires i <= j < |pending| && Matches(tx, pending[j], now)
    requires forall l :: i <= l < j ==> !Matches(tx, pending[l], now)
    ensures ScanFrom(orders, pending, tx, now, i).0 == Some(pending[j])
    decreases j - i
  {
    if i < j {
      var o := pending[i];
      var next := if now > o.expiresAt then SetStatus(orders, o.orderId, Expired, None, now) else orders;
      ScanTakesFirst(next, pending, tx, now, i + 1, j);
    }
  }

  /** Every overdue snapshot entry the scan passes over (no earlier entry
      accepted the transfer) ends EXPIRED in the table. */
  lemma {:induction false} ScanExpiresOverdue(orders: OrderTable, pending: seq<Order>, tx: TransactionRecord, now: int,
                                              i: nat)
    ensures forall l ::
      (i <= l < |pending| && now > pending[l].expiresAt && pending[l].orderId in orders &&
       forall m :: i <= m < l ==> !Matches(tx, pending[m], now))
      ==> ScanFrom(orders, pending, tx, now, i).1[pending[l].orderId].status == Expired
    decreases |pending| - i
  {
    if i < |pending| {
      var o := pending[i];
      if now > o.expiresAt {
        var next := SetStatus(orders, o.orderId, Expired, None, now);
        ScanExpiresOverdue(next, pending, tx, now, i + 1);
      } else if !Matches(tx, o, now) {
        ScanExpiresOverdue(orders, pending, tx, now, i + 1);
      }
    }
  }

  // ---------------------------------------------------------------------
  // Granting a membership
  // ---------------------------------------------------------------------

  /** The new expiry: the later of the current expiry and now, plus the
      plan's days. */
  function GrantExpiry(current: Option<int>, now: int, days: nat): (e: int)
    ensures e - days * SECONDS_PER_DAY >= now
    ensures current.Some? ==> e - days * SECONDS_PER_DAY >= current.value
    ensures e - days * SECONDS_PER_DAY == now || (current.Some? && e - days * SECONDS_PER_DAY == current.value)
  {
    var start := if current.Some? && current.value > now then current.value else now;
    start + days * SECONDS_PER_DAY
  }

  function CurrentExpiry(mem: Memberships, userId: int): Option<int> {
    if userId in mem then mem[userId].expiry else None
  }

  /** grant_membership: an unknown plan or a failure of the main database
      (`fault`) grants nothing; otherwise the user's row is replaced by one
      carrying the member level and the extended expiry. */
  function Grant(mem: Memberships, o: Order, now: int, fault: bool): (res: (bool, Memberships))
    ensures res.0 <==> PlanOf(o.planId).Some? && !fault
    ensures !res.0 ==> res.1 == mem
    ensures res.0 ==> res.1.Keys == mem.Keys + {o.userId}
    ensures res.0 ==> forall u :: u in mem && u != o.userId ==> res.1[u] == mem[u]
    ensures res.0 ==> res.1[o.userId].level == MEMBER_LEVEL && res.1[o.userId].expiry.Some?
    ensures res.0 ==>
      res.1[o.userId].expiry.value == GrantExpiry(CurrentExpiry(mem, o.userId), now, PlanOf(o.planId).value.days)
  {
    match PlanOf(o.planId)
    case None => (false, mem)
    case Some(plan) =>
      if fault then (false, mem)
      else
        var e := GrantExpiry(CurrentExpiry(mem, o.userId), now, plan.days);
        (true, mem[o.userId := Membership(MEMBER_LEVEL, None, Some(e), now)])
  }

  /** A successful grant extends the membership by the plan's days from the
      later of the old expiry and now: it never shortens a membership and never
      starts in the past. */
  lemma GrantExtends(mem: Memberships, o: Order, now: int, fault: bool)
    requires Grant(mem, o, now, fault).0
    ensures var days := PlanOf(o.planId).value.days;
      var e := Grant(mem, o, now, fault).1[o.userId].expiry.value;
      e >= now + days * SECONDS_PER_DAY &&
      (CurrentExpiry(mem, o.userId).Some? ==> e >= CurrentExpiry(mem, o.userId).value + days * SECONDS_PER_DAY)
  {
  }

  // ---------------------------------------------------------------------
  // One transfer
  // ---------------------------------------------------------------------

  /** What happened to a transfer. */
  datatype Disposition =
    | AlreadyProcessed
    | Unconfirmed
    | ForeignContract
    | Stale
    | Unmatched
    | Matched(order: Order, granted: bool)

  function MarkProcessed(txs: TxTable, tx: TransactionRecord): TxTable {
    txs[tx.txHash := tx.(processed := true)]
  }

  /** One pass of the loop over the fetched transfers. The checks run in the
      source's order: already processed, too few confirmations, foreign
      contract, older than 900 seconds; then the scan over the snapshot. */
  function ProcessTransfer(b: Books, pending: seq<Order>, tx: TransactionRecord, now: int, fault: bool)
    : (res: (Disposition, Books))
    ensures res.0.AlreadyProcessed? <==> IsProcessed(b.transactions, tx.txHash)
    ensures res.0.Unconfirmed? <==> !IsProcessed(b.transactions, tx.txHash) && tx.confirmations < MIN_CONFIRMATIONS
    ensures res.0.ForeignContract? <==>
      !IsProcessed(b.transactions, tx.txHash) && tx.confirmations >= MIN_CONFIRMATIONS && tx.contractAddress != USDT_CONTRACT
    ensures res.0.Stale? <==>
      !IsProcessed(b.transactions, tx.txHash) && tx.confirmations >= MIN_CONFIRMATIONS &&
      tx.contractAddress == USDT_CONTRACT && now - tx.timestamp > STALE_AFTER_SECONDS
    ensures res.0.AlreadyProcessed? || res.0.Unconfirmed? ==> res.1 == b
    ensures !(res.0.AlreadyProcessed? || res.0.Unconfirmed?) ==>
      res.1.transactions == MarkProcessed(b.transactions, tx) && IsProcessed(res.1.transactions, tx.txHash)
    ensures res.0.ForeignContract? || res.0.Stale? ==> res.1.orders == b.orders && res.1.memberships == b.memberships
    ensures res.0.Unmatched? ==>
      (res.1.memberships == b.memberships && forall l :: 0 <= l < |pending| ==> !Matches(tx, pending[l], now))
    ensures res.0.Matched? ==> Matches(tx, res.0.order, now) && res.0.order in pending
    ensures res.0.Matched? ==> (res.0.granted <==> PlanOf(res.0.order.planId).Some? && !fault)
    ensures res.1.orders.Keys == b.orders.Keys
    ensures res.0.Matched? ==> res.1.memberships == Grant(b.memberships, res.0.order, now, fault).1
    ensures forall id :: id in b.orders && !(res.0.Matched? && id == res.0.order.orderId) ==>
      res.1.orders[id] == b.orders[id] ||
      (res.1.orders[id] == b.orders[id].(status := Expired) && SnapshotOverdue(pending, id, now))
    ensures res.0.Unmatched? || res.0.Matched? ==>
      forall l ::
        (0 <= l < |pending| && now > pending[l].expiresAt && pending[l].orderId in b.orders &&
         (forall m :: 0 <= m < l ==> !Matches(tx, pending[m], now)) &&
         !(res.0.Matched? && pending[l].orderId == res.0.order.orderId))
        ==> res.1.orders[pending[l].orderId].status == Expired
    ensures res.0.Matched? && res.0.order.orderId in b.orders ==>
      var r := res.1.orders[res.0.order.orderId];
      r.status == (if res.0.granted then Completed else Paid) && r.txHash == Some(tx.txHash) && r.paidAt == Some(now)
    ensures res.0.Matched? && res.0.order.orderId in b.orders ==>
      var paid := WithStatus(b.orders[res.0.order.orderId], Paid, Some(tx.txHash), now);
      res.1.orders[res.0.order.orderId] == (if res.0.granted then WithStatus(paid, Completed, None, now) else paid)
  {
    if IsProcessed(b.transactions, tx.txHash) then (AlreadyProcessed, b)
    else if tx.confirmations < MIN_CONFIRMATIONS then (Unconfirmed, b)
    else if tx.contractAddress != USDT_CONTRACT then
      (ForeignContract, b.(transactions := MarkProcessed(b.transactions, tx)))
    else if now - tx.timestamp > STALE_AFTER_SECONDS then
      (Stale, b.(transactions := MarkProcessed(b.transactions, tx)))
    else
      var scan := ScanFrom(b.orders, pending, tx, now, 0);
      ScanExpiresOverdue(b.orders, pending, tx, now, 0);
      match scan.0
      case None => (Unmatched, Books(scan.1, MarkProcessed(b.transactions, tx), b.memberships))
      case Some(o) =>
        assert exists l :: 0 <= l < |pending| && pending[l] == o;
        var paid := SetStatus(scan.1, o.orderId, Paid, Some(tx.txHash), now);
        var grant := Grant(b.memberships, o, now, fault);
        var orders := if grant.0 then SetStatus(paid, o.orderId, Completed, None, now) else paid;
        (Matched(o, grant.0), Books(orders, MarkProcessed(b.transactions, tx), grant.1))
  }

  /** The books after the transfers txs[k..], transfer t handled at clock(t)
      with grant fault fault(t). */
  function ProcessFrom(b: Books, pending: seq<Order>, txs: seq<TransactionRecord>, k: nat,
                       clock: nat -> int, fault: nat -> bool): (r: Books)
    ensures r.orders.Keys == b.orders.Keys
    ensures b.transactions.Keys <= r.transactions.Keys
    ensures b.memberships.Keys <= r.memberships.Keys
    decreases |txs| - k
  {
    if k >= |txs| then b
    else ProcessFrom(ProcessTransfer(b, pending, txs[k], clock(k), fault(k)).1, pending, txs, k + 1, clock, fault)
  }

  /** A processed transfer stays processed. */
  lemma {:induction false} ProcessedStaysProcessed(b: Books, pending: seq<Order>, txs: seq<TransactionRecord>, k: nat,
                                                   clock: nat -> int, fault: nat -> bool, h: string)
    requires IsProcessed(b.transactions, h)
    ensures IsProcessed(ProcessFrom(b, pending, txs, k, clock, fault).transactions, h)
    decreases |txs| - k
  {
    if k < |txs| {
      var b1 := ProcessTransfer(b, pending, txs[k], clock(k), fault(k)).1;
      ProcessedStaysProcessed(b1, pending, txs, k + 1, clock, fault, h);
    }
  }

  /** After the loop, every transfer with enough confirmations is marked
      processed, matched or not. */
  lemma {:induction false} ConfirmedTransfersEndProcessed(b: Books, pending: seq<Order>, txs: seq<TransactionRecord>,
                                                          k: nat, clock: nat -> int, fault: nat -> bool)
    ensures forall t :: k <= t < |txs| && txs[t].confirmations >= MIN_CONFIRMATIONS ==>
      IsProcessed(ProcessFrom(b, pending, txs, k, clock, fault).transactions, txs[t].txHash)
    decreases |txs| - k
  {
    if k < |txs| {
      var b1 := ProcessTransfer(b, pending, txs[k], clock(k), fault(k)).1;
      ConfirmedTransfersEndProcessed(b1, pending, txs, k + 1, clock, fault);
      if txs[k].confirmations >= MIN_CONFIRMATIONS {
        ProcessedStaysProcessed(b1, pending, txs, k + 1, clock, fault, txs[k].txHash);
      }
    }
  }

  /** Transfers that are all already processed change nothing. */
  lemma {:induction false} AllProcessedIsNoop(b: Books, pending: seq<Order>, txs: seq<TransactionRecord>, k: nat,
                                              clock: nat -> int, fault: nat -> bool)
    requires forall t :: k <= t < |txs| ==> IsProcessed(b.transactions, txs[t].txHash)
    ensures ProcessFrom(b, pending, txs, k, clock, fault) == b
    decreases |txs| - k
  {
    if k < |txs| {
      AllProcessedIsNoop(b, pending, txs, k + 1, clock, fault);
    }
  }

  // ---------------------------------------------------------------------
  // The tick keeps the issuer's invariants
  // ---------------------------------------------------------------------

  /** Every PENDING row of after was PENDING in before, with the same user
      and amount: no order is created or put back to PENDING. */
  ghost predicate NoNewPending(before: OrderTable, after: OrderTable) {
    after.Keys == before.Keys &&
    forall id :: id in after && after[id].status == Pending ==>
      before[id].status == Pending && after[id].userId == before[id].userId && after[id].amount == before[id].amount
  }

  lemma NoNewPendingKeepsInvariants(before: OrderTable, after: OrderTable)
    requires NoNewPending(before, after) && IssuerInvariants(before)
    ensures IssuerInvariants(after)
  {
  }

  lemma ProcessTransferNoNewPending(b: Books, pending: seq<Order>, tx: TransactionRecord, now: int, fault: bool)
    ensures NoNewPending(b.orders, ProcessTransfer(b, pending, tx, now, fault).1.orders)
  {
  }

  lemma {:induction false} ProcessFromNoNewPending(b: Books, pending: seq<Order>, txs: seq<TransactionRecord>, k: nat,
                                                   clock: nat -> int, fault: nat -> bool)
    ensures NoNewPending(b.orders, ProcessFrom(b, pending, txs, k, clock, fault).orders)
    decreases |txs| - k
  {
    if k < |txs| {
      var b1 := ProcessTransfer(b, pending, txs[k], clock(k), fault(k)).1;
      ProcessTransferNoNewPending(b, pending, txs[k], clock(k), fault(k));
      ProcessFromNoNewPending(b1, pending, txs, k + 1, clock, fault);
    }
  }

  // ---------------------------------------------------------------------
  // The tick
  // ---------------------------------------------------------------------

  /** The orders after the two expiry sweeps at the start of a tick
      (check_expired_orders, then expire_old_orders). */
  function Swept(orders: OrderTable, now: int): (r: OrderTable)
    ensures r.Keys == orders.Keys
    ensures forall id :: id in orders && IsOverdue(orders[id], now) ==> r[id] == orders[id].(status := Expired)
    ensures forall id :: id in orders && !IsOverdue(orders[id], now) ==> r[id] == orders[id]
  {
    ExpireAll(ExpireAll(orders, now), now)
  }

  /** One tick, given the snapshot the pending-order query returned after the
      sweeps: with no pending order the tick stops before polling; otherwise
      it polls the ledger once and handles every fetched transfer against
      that one snapshot. */
  function TickSpec(b: Books, r: KeyRing, pending: seq<Order>, sweepNow: int,
                    server: (nat, string) -> Response, heights: nat -> int,
                    clock: nat -> int, fault: nat -> bool): (res: (Books, KeyRing))
    requires WellFormed(r)
    ensures WellFormed(res.1) && res.1.keys == r.keys
  {
    var swept := b.(orders := Swept(b.orders, sweepNow));
    if |pending| == 0 then (swept, r)
    else
      var fetched := FetchFrom(r, server, heights, 0, MaxRetries(|r.keys|));
      (ProcessFrom(swept, pending, fetched.0, 0, clock, fault), fetched.1)
  }

  /** The second sweep of a tick finds nothing left to expire. */
  lemma SweptIsOneSweep(orders: OrderTable, now: int)
    ensures Swept(orders, now) == ExpireAll(orders, now)
  {
    ExpireAllIdempotent(orders, now);
  }

  /** A tick never creates a PENDING order, so one active order per user,
      distinct amounts and the amount grid all survive it. */
  lemma TickKeepsInvariants(b: Books, r: KeyRing, pending: seq<Order>, sweepNow: int,
                            server: (nat, string) -> Response, heights: nat -> int,
                            clock: nat -> int, fault: nat -> bool)
    requires WellFormed(r) && IssuerInvariants(b.orders)
    ensures IssuerInvariants(TickSpec(b, r, pending, sweepNow, server, heights, clock, fault).0.orders)
  {
    var once := ExpireAll(b.orders, sweepNow);
    ExpireAllKeepsInvariants(b.orders, sweepNow);
    ExpireAllKeepsInvariants(once, sweepNow);
    var swept := b.(orders := Swept(b.orders, sweepNow));
    if |pending| > 0 {
      var fetched := FetchFrom(r, server, heights, 0, MaxRetries(|r.keys|));
      ProcessFromNoNewPending(swept, pending, fetched.0, 0, clock, fault);
      NoNewPendingKeepsInvariants(swept.orders, ProcessFrom(swept, pending, fetched.0, 0, clock, fault).orders);
    }
  }

  /** Polled transfers always carry the USDT contract, so within a tick the
      contract check never rejects one. */
  lemma TickNeverSeesForeignContract(r: KeyRing, server: (nat, string) -> Response, heights: nat -> int,
                                     b: Books, pending: seq<Order>, now: int, fault: bool, t: nat)
    requires WellFormed(r)
    requires t < |FetchFrom(r, server, heights, 0, MaxRetries(|r.keys|)).0|
    ensures !ProcessTransfer(b, pending, FetchFrom(r, server, heights, 0, MaxRetries(|r.keys|)).0[t], now, fault).0.ForeignContract?
  {
    FetchedRecordsAreFresh(r, server, heights, 0, MaxRetries(|r.keys|));
  }

  /** An exact payment for a snapshot order is matched to that order and no
      other: distinct PENDING amounts sit on the 0.0001 grid at least 0.0001
      apart, so the 0.0001 match tolerance cannot reach a neighbour. */
  lemma ExactPaymentMatchesItsOrder(orders: OrderTable, snapshotOf: OrderTable, pending: seq<Order>,
                                    tx: TransactionRecord, now: int, j: nat)
    requires Enumerates(pending, snapshotOf, AllPending) && IssuerInvariants(snapshotOf)
    requires j < |pending| && tx.amount == pending[j].amount && Matches(tx, pending[j], now)
    ensures ScanFrom(orders, pending, tx, now, 0).0 == Some(pending[j])
    ensures forall l :: 0 <= l < |pending| && l != j ==> !AmountMatches(tx, pending[l])
  {
    forall l | 0 <= l < |pending| && l != j
      ensures !AmountMatches(tx, pending[l])
    {
      var a := pending[l].orderId;
      var c := pending[j].orderId;
      assert a != c;
      assert Abs(snapshotOf[a].amount - snapshotOf[c].amount) >= IN_USE_TOLERANCE;
      GridApartIsMatchApart(snapshotOf[a].amount, snapshotOf[c].amount);
    }
    ScanTakesFirst(orders, pending, tx, now, 0, j);
  }

  // ---------------------------------------------------------------------
  // The amount test on floating-point amounts
  // ---------------------------------------------------------------------

  /** The amount test as the source evaluates it, on doubles: a difference
      below 0.0001 USDT always passes and one above never does; a difference
      of exactly 0.0001, one draw step, passes when the two decimal amounts
      round to doubles whose difference falls below the double nearest
      0.0001, which `roundsBelow(paid, price)` says. */
  predicate FloatAmountMatches(tx: TransactionRecord, o: Order, roundsBelow: (int, int) -> bool) {
    Abs(tx.amount - o.amount) < MATCH_TOLERANCE ||
    (Abs(tx.amount - o.amount) == MATCH_TOLERANCE && roundsBelow(tx.amount, o.amount))
  }

  /** The snapshot entry at which the source's scan stops, with the amount
      test on doubles. */
  function FirstAcceptingAsWritten(pending: seq<Order>, tx: TransactionRecord, now: int,
                                   roundsBelow: (int, int) -> bool, i: nat): (r: Option<Order>)
    ensures r.Some? ==> r.value in pending && FloatAmountMatches(tx, r.value, roundsBelow) && InWindow(tx, r.value)
    decreases |pending| - i
  {
    if i >= |pending| then None
    else
      var o := pending[i];
      if now <= o.expiresAt && FloatAmountMatches(tx, o, roundsBelow) && InWindow(tx, o) then Some(o)
      else FirstAcceptingAsWritten(pending, tx, now, roundsBelow, i + 1)
  }

  /** With no rounding below the tolerance, the double test is the exact
      integer test, and the source's scan stops where ScanFrom does. */
  lemma {:induction false} ScanIsExactFloatScan(orders: OrderTable, pending: seq<Order>, tx: TransactionRecord,
                                                now: int, i: nat)
    ensures ScanFrom(orders, pending, tx, now, i).0 == FirstAcceptingAsWritten(pending, tx, now, (_, _) => false, i)
    decreases |pending| - i
  {
    if i < |pending| {
      var o := pending[i];
      var next := if now > o.expiresAt then SetStatus(orders, o.orderId, Expired, None, now) else orders;
      ScanIsExactFloatScan(next, pending, tx, now, i + 1);
    }
  }

  /** On doubles, 5.0003 - 5.0002 evaluates to 9.999999999976694e-05, below
      the double 0.0001. Two PENDING plan_7d orders one draw step apart, both
      allowed by the in-use test: an exact payment of the higher amount stops
      the source's scan at the lower order when that order comes first, while
      the exact test pays the order whose amount was paid. */
  lemma FloatScanPaysNeighbour()
    ensures var lo := Order("o2", 2, "plan_7d", 5_000_200, Pending, 1000, 1000 + ORDER_TIMEOUT_SECONDS, None, None, None, None);
      var hi := Order("o3", 3, "plan_7d", 5_000_300, Pending, 1000, 1000 + ORDER_TIMEOUT_SECONDS, None, None, None, None);
      var orders := map["o2" := lo, "o3" := hi];
      var tx := DemoTransfer("h3", 5_000_300);
      var roundsBelow := (paid: int, price: int) => paid == 5_000_300 && price == 5_000_200;
      && IssuerInvariants(orders)
      && Enumerates([lo, hi], orders, AllPending)
      && FirstAcceptingAsWritten([lo, hi], tx, 1200, roundsBelow, 0) == Some(lo)
      && ScanFrom(orders, [lo, hi], tx, 1200, 0).0 == Some(hi)
  {
    var lo := Order("o2", 2, "plan_7d", 5_000_200, Pending, 1000, 1000 + ORDER_TIMEOUT_SECONDS, None, None, None, None);
    var hi := Order("o3", 3, "plan_7d", 5_000_300, Pending, 1000, 1000 + ORDER_TIMEOUT_SECONDS, None, None, None, None);
    var orders := map["o2" := lo, "o3" := hi];
    assert [lo, hi][0].orderId == "o2" && [lo, hi][1].orderId == "o3";
  }

  // ---------------------------------------------------------------------
  // Behaviour of the stale snapshot
  // ---------------------------------------------------------------------

  /** The scan reads only the snapshot: the transfer is matched to the first
      snapshot entry that accepts it, whatever that order's current status in
      the table, PAID and COMPLETED included. */
  lemma SnapshotDecidesMatch(b: Books, pending: seq<Order>, tx: TransactionRecord, now: int, fault: bool, j: nat)
    requires j < |pending| && Matches(tx, pending[j], now)
    requires forall l :: 0 <= l < j ==> !Matches(tx, pending[l], now)
    requires !IsProcessed(b.transactions, tx.txHash) && tx.confirmations >= MIN_CONFIRMATIONS
    requires tx.contractAddress == USDT_CONTRACT && now - tx.timestamp <= STALE_AFTER_SECONDS
    ensures ProcessTransfer(b, pending, tx, now, fault).0 == Matched(pending[j], PlanOf(pending[j].planId).Some? && !fault)
  {
    ScanTakesFirst(b.orders, pending, tx, now, 0, j);
  }

  /** A 7-day order. */
  function DemoOrder(): Order {
    Order("o1", 7, "plan_7d", 5_000_100, Pending, 1000, 1000 + ORDER_TIMEOUT_SECONDS, None, None, None, None)
  }

  function DemoTransfer(h: string, amount: int): TransactionRecord {
    TransactionRecord(h, "payer", "wallet", amount, 1100, 10, 25, USDT_CONTRACT, false)
  }

  /** Two transfers of the order's exact amount in one tick both match the
      same order: the order ends COMPLETED with the second hash, and the
      membership is extended twice, by 14 days in all. */
  lemma DoublePayInOneTick()
    ensures var b := Books(map["o1" := DemoOrder()], map[], map[]);
      var txs := [DemoTransfer("h1", 5_000_100), DemoTransfer("h2", 5_000_100)];
      var res := ProcessFrom(b, [DemoOrder()], txs, 0, _ => 1200, _ => false);
      && res.orders["o1"].status == Completed
      && res.orders["o1"].txHash == Some("h2")
      && res.memberships[7].expiry == Some(1200 + 14 * SECONDS_PER_DAY)
  {
    var o := DemoOrder();
    var b := Books(map["o1" := o], map[], map[]);
    var t1 := DemoTransfer("h1", 5_000_100);
    var t2 := DemoTransfer("h2", 5_000_100);
    var txs := [t1, t2];
    SnapshotDecidesMatch(b, [o], t1, 1200, false, 0);
    var b1 := ProcessTransfer(b, [o], t1, 1200, false).1;
    assert b1.memberships[7].expiry == Some(1200 + 7 * SECONDS_PER_DAY);
    assert !IsProcessed(b1.transactions, "h2");
    SnapshotDecidesMatch(b1, [o], t2, 1200, false, 0);
    var b2 := ProcessTransfer(b1, [o], t2, 1200, false).1;
    assert b2.memberships[7].expiry == Some(1200 + 14 * SECONDS_PER_DAY);
    assert ProcessFrom(b, [o], txs, 0, _ => 1200, _ => false) == ProcessFrom(b1, [o], txs, 1, _ => 1200, _ => false);
    assert ProcessFrom(b1, [o], txs, 1, _ => 1200, _ => false) == b2;
  }

  /** A later transfer in the same tick, handled after the order's expiry,
      sets the already COMPLETED order to EXPIRED: the on-the-spot expiry
      reads the snapshot and update_order_status checks no transition. */
  lemma CompletedOrderReexpiredInOneTick()
    ensures var b := Books(map["o1" := DemoOrder()], map[], map[]);
      var txs := [DemoTransfer("h1", 5_000_100), DemoTransfer("h2", 3_000_000)];
      var clock := (t: nat) => if t == 0 then 1200 else 1000 + ORDER_TIMEOUT_SECONDS + 1;
      var res := ProcessFrom(b, [DemoOrder()], txs, 0, clock, _ => false);
      && res.orders["o1"].status == Expired
      && res.orders["o1"].completedAt == Some(1200)
      && res.memberships[7].expiry == Some(1200 + 7 * SECONDS_PER_DAY)
  {
    var o := DemoOrder();
    var b := Books(map["o1" := o], map[], map[]);
    var t1 := DemoTransfer("h1", 5_000_100);
    var t2 := DemoTransfer("h2", 3_000_000);
    var txs := [t1, t2];
    var clock := (t: nat) => if t == 0 then 1200 else 1000 + ORDER_TIMEOUT_SECONDS + 1;
    SnapshotDecidesMatch(b, [o], t1, 1200, false, 0);
    var b1 := ProcessTransfer(b, [o], t1, 1200, false).1;
    assert b1.orders["o1"].status == Completed;
    var b2 := ProcessTransfer(b1, [o], t2, clock(1), false).1;
    assert ScanFrom(b1.orders, [o], t2, clock(1), 0).1["o1"] == b1.orders["o1"].(status := Expired);
    assert ProcessFrom(b, [o], txs, 0, clock, _ => false) == ProcessFrom(b1, [o], txs, 1, clock, _ => false);
    assert ProcessFrom(b1, [o], txs, 1, clock, _ => false) == b2;
  }

  // ---------------------------------------------------------------------
  // The service
  // ---------------------------------------------------------------------

  /** The payment service: the payment database, the order manager over it,
      the ledger monitor, and the memberships table of the main database. */
  class TronPaymentService {
    const db: PaymentDatabase
    const orderManager: OrderManager
    const monitor: TronUSDTMonitor
    var memberships: Memberships

    ghost predicate Valid()
      reads this, db, orderManager, monitor
    {
      orderManager.db == db && db.Valid() && monitor.Valid()
    }

    function State(): Books
      reads this, db
    {
      Books(db.orders, db.transactions, memberships)
    }

    constructor (apiKeys: seq<string>, memberships: Memberships)
      requires "" !in apiKeys
      ensures Valid() && fresh(db) && fresh(orderManager) && fresh(monitor)
      ensures State() == Books(map[], map[], memberships)
      ensures monitor.Ring() == KeyRing(apiKeys, 0, {})
    {
      var d := new PaymentDatabase();
      db := d;
      orderManager := new OrderManager(d);
      monitor := new TronUSDTMonitor(apiKeys);
      this.memberships := memberships;
    }

    /** grant_membership. */
    method GrantMembership(order: Order, now: int, fault: bool) returns (ok: bool)
      modifies this
      ensures (ok, memberships) == Grant(old(memberships), order, now, fault)
    {
      var plan := PlanOf(order.planId);
      if plan.None? || fault {
        return false;
      }
      var newExpiry := GrantExpiry(CurrentExpiry(memberships, order.userId), now, plan.value.days);
      memberships := memberships[order.userId := Membership(MEMBER_LEVEL, None, Some(newExpiry), now)];
      ok := true;
    }

    /** check_expired_orders: every order the overdue query lists is set
      EXPIRED. */
    method CheckExpiredOrders(now: int)
      requires Valid()
      modifies db
      ensures Valid() && db.transactions == old(db.transactions)
      ensures db.orders == ExpireAll(old(db.orders), now)
    {
      var expired := db.GetExpiredPendingOrders(now);
      ghost var before := db.orders;
      ghost var done: set<string> := {};
      var i := 0;
      while i < |expired|
        invariant 0 <= i <= |expired|
        invariant Valid() && db.transactions == old(db.transactions)
        invariant db.orders.Keys == before.Keys
        invariant done == set j | 0 <= j < i :: expired[j].orderId
        invariant forall id :: id in db.orders ==> db.orders[id] == if id in done then Expire(before[id], now) else before[id]
      {
        var order := expired[i];
        assert order.orderId !in done;
        db.UpdateOrderStatus(order.orderId, Expired, None, now);
        done := done + {order.orderId};
        i := i + 1;
      }
      forall id | id in db.orders ensures db.orders[id] == ExpireAll(before, now)[id] {
        if IsOverdue(before[id], now) {
          var j :| 0 <= j < |expired| && expired[j].orderId == id;
        }
      }
    }

    /** One pass of the loop over the fetched transfers. */
    method ProcessTransaction(pending: seq<Order>, tx: TransactionRecord, now: int, fault: bool)
      returns (d: Disposition)
      requires Valid()
      modifies this, db
      ensures Valid()
      ensures (d, State()) == ProcessTransfer(old(State()), pending, tx, now, fault)
    {
      var seen := db.IsTransactionProcessed(tx.txHash);
      if seen {
        return AlreadyProcessed;
      }
      if tx.confirmations < MIN_CONFIRMATIONS {
        return Unconfirmed;
      }
      if tx.contractAddress != USDT_CONTRACT {
        db.SaveTransaction(tx.(processed := true));
        return ForeignContract;
      }
      if now - tx.timestamp > STALE_AFTER_SECONDS {
        db.SaveTransaction(tx.(processed := true));
        return Stale;
      }
      var matched: Option<Order> := None;
      var i := 0;
      while i < |pending| && matched.None?
        invariant 0 <= i <= |pending|
        invariant Valid() && db.transactions == old(db.transactions) && memberships == old(memberships)
        invariant matched.None? ==> ScanFrom(old(db.orders), pending, tx, now, 0) == ScanFrom(db.orders, pending, tx, now, i)
        invariant matched.Some? ==> ScanFrom(old(db.orders), pending, tx, now, 0) == (matched, db.orders)
        decreases |pending| - i
      {
        var order := pending[i];
        if now > order.expiresAt {
          db.UpdateOrderStatus(order.orderId, Expired, None, now);
        } else if Abs(tx.amount - order.amount) >= MATCH_TOLERANCE {
        } else if tx.timestamp < order.createdAt - CLOCK_SKEW_GRACE_SECONDS {
        } else if tx.timestamp > order.expiresAt {
        } else {
          matched := Some(order);
        }
        i := i + 1;
      }
      if matched.Some? {
        var order := matched.value;
        db.UpdateOrderStatus(order.orderId, Paid, Some(tx.txHash), now);
        var ok := GrantMembership(order, now, fault);
        if ok {
          db.UpdateOrderStatus(order.orderId, Completed, None, now);
        }
        db.SaveTransaction(tx.(processed := true));
        d := Matched(order, ok);
      } else {
        db.SaveTransaction(tx.(processed := true));
        d := Unmatched;
      }
    }

    /** One iteration of the service loop. sweepNow is the clock both sweeps
        read, server and heights answer the ledger poll, clock(t) is the time
        at which transfer t is handled and fault(t) says whether its grant
        fails. `snapshot` is the pending-order list the tick works from. */
    method Tick(sweepNow: int, server: (nat, string) -> Response, heights: nat -> int,
                clock: nat -> int, fault: nat -> bool)
      returns (ghost snapshot: seq<Order>)
      requires Valid()
      modifies this, db, monitor
      ensures Valid()
      ensures Enumerates(snapshot, Swept(old(db.orders), sweepNow), AllPending)
      ensures (State(), monitor.Ring()) ==
        TickSpec(old(State()), old(monitor.Ring()), snapshot, sweepNow, server, heights, clock, fault)
    {
      CheckExpiredOrders(sweepNow);
      orderManager.ExpireOldOrders(sweepNow);
      var pending := db.GetPendingOrders();
      snapshot := pending;
      if |pending| == 0 {
        return;
      }
      var txs := monitor.GetTrc20Transactions(server, heights);
      ghost var start := State();
      ghost var ring := monitor.Ring();
      var k := 0;
      while k < |txs|
        invariant 0 <= k <= |txs|
        invariant Valid() && monitor.Ring() == ring
        invariant ProcessFrom(start, pending, txs, 0, clock, fault) == ProcessFrom(State(), pending, txs, k, clock, fault)
      {
        var _ := ProcessTransaction(pending, txs[k], clock(k), fault(k));
        k := k + 1;
      }
    }
  }
}
