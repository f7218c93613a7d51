# USDT-TRC20 payment reconciliation, modelled in Dafny

This project models the order and payment bookkeeping of `tron.py`, a
service that sells memberships for USDT on the TRON ledger. It covers:

- **the payment database**: the orders table and the transactions table,
  held as maps in a `PaymentDatabase` class;
- **the order issuer** (`OrderManager`): it allows one active order per
  user and draws an amount `price + k/10000 USDT` that no pending order uses;
  it also cancels orders and expires old ones;
- **the ledger monitor** (`TronUSDTMonitor`): it rotates round-robin over the
  API keys and keeps a set of failed keys. A fetch is bounded to
  `max(len(keys), 1) + 1` attempts, and each transfer gets a confirmation
  count;
- **the reconciliation tick** (`TronPaymentService`): two expiry sweeps, one
  snapshot of the pending orders, one ledger poll, and the per-transfer
  checks. The checks are: already processed, confirmations, contract, age,
  then the first-match scan. A match marks the order PAID, grants the
  membership, and marks it COMPLETED if the grant succeeds.

Amounts are integer micro-USDT; 0.0001 USDT is 100 and 0.00001 USDT is 10.
Times are integer seconds. Everything the service gets from outside is a
parameter: random draws, order ids, clocks, HTTP responses, block heights,
and failures of the membership database.

Each imperative method is proved against a pure function of the old state,
for example `ProcessTransfer`, `FetchFrom`, `NextKey`, `ExpireAll` and
`Issue`. The properties the service relies on are lemmas about those
functions.

Two behaviours of the tick are stated as they are, not corrected. The
pending-order snapshot is never refreshed during a tick (tron.py:1142), and
`update_order_status` accepts any transition (tron.py:360-386). Together
they have two consequences:

- a second transfer of the same amount in the same tick pays an order that
  the first transfer already completed, and extends the membership a second
  time (`DoublePayInOneTick`);
- a later transfer, handled after the order's expiry time, sets an order
  that is already COMPLETED back to EXPIRED
  (`CompletedOrderReexpiredInOneTick`).

## Model

| member | source | states |
|---|---|---|
| PaymentTypes.PlanOf | tron.py:58-63 | exactly the four plan ids resolve; every price is positive and on the 0.0001 USDT grid |
| OrderStore.WithStatus | tron.py:360-386 | the status is always written; PAID also writes tx_hash and paid_at; COMPLETED also writes completed_at; every other column is unchanged |
| OrderStore.SetStatus | tron.py:360-386 | only the row with the given id changes, as WithStatus says; an unknown id changes nothing; the key set is unchanged |
| OrderStore.ExpireAll | tron.py:608-616 | every PENDING row past its expiry becomes EXPIRED; every other row is unchanged |
| OrderStore.SetStatusKeepsInvariants | tron.py:360-386 | an update to any status other than PENDING keeps one pending order per user, pending amounts apart and on the grid |
| OrderStore.ExpireAllKeepsInvariants | tron.py:608-616 | the expiry sweep keeps the same three invariants |
| OrderStore.ExpireAllIdempotent | tron.py:608-616 | running the expiry sweep twice gives the same table as running it once |
| OrderStore.GridCloseIsEqual | tron.py:570-580 | two amounts on the 0.0001 grid that are less than 0.00001 apart are equal |
| OrderStore.InUseOnGridIsEquality | tron.py:442-461 | for grid amounts, "in use" means equal to the amount of some PENDING order |
| OrderStore.GridApartIsMatchApart | tron.py:1195-1197 | distinct grid amounts that pass the in-use test are at least the match tolerance apart |
| OrderStore.MessageIdRoundTrip | tron.py:463-490 | reading back a saved message id returns it, except for an unknown order or id 0 (read as absent); other orders are unaffected |
| OrderStore.PaymentDatabase.constructor | tron.py:180-182 | a new database starts with empty orders and transactions tables |
| OrderStore.PaymentDatabase.CreateOrder | tron.py:238-264 | the insert succeeds iff the id is new; the row stores the seven inserted columns and NULL elsewhere |
| OrderStore.PaymentDatabase.GetOrder | tron.py:266-293 | returns the row iff the id exists |
| OrderStore.PaymentDatabase.SelectOrders | tron.py:295-323 | lists every selected row exactly once, in an unspecified order |
| OrderStore.PaymentDatabase.GetPendingOrders | tron.py:295-323 | lists exactly the PENDING rows, each once |
| OrderStore.PaymentDatabase.GetExpiredPendingOrders | tron.py:492-526 | lists exactly the PENDING rows with expires_at < now, each once |
| OrderStore.PaymentDatabase.GetUserPendingOrder | tron.py:325-358 | None iff the user has no PENDING order; otherwise one of the user's PENDING rows with the latest created_at |
| OrderStore.PaymentDatabase.UpdateOrderStatus | tron.py:360-394 | the orders table becomes SetStatus of the old one; the transactions table is untouched |
| OrderStore.PaymentDatabase.SaveTransaction | tron.py:396-425 | insert or replace by hash; the orders table is untouched |
| OrderStore.PaymentDatabase.IsTransactionProcessed | tron.py:427-440 | true iff a row exists for the hash and its processed flag is set |
| OrderStore.PaymentDatabase.IsAmountInUse | tron.py:442-461 | true iff some PENDING order lies within 0.00001 USDT of the amount |
| OrderStore.PaymentDatabase.UpdateOrderMessageId | tron.py:463-477 | only the message id of the given order changes |
| OrderStore.PaymentDatabase.GetOrderMessageId | tron.py:479-490 | the stored message id if it is present and non-zero, otherwise None |
| OrderIssuer.FirstFree | tron.py:574-580 | an amount it returns is not in use |
| OrderIssuer.Issue | tron.py:559-602 | refusing leaves the table unchanged; an issued order has a new id, is PENDING with an amount not in use, and is the only row added |
| OrderIssuer.FirstFreeSound | tron.py:570-584 | a drawn amount comes from one of the draws, was free, and every earlier draw was in use |
| OrderIssuer.FirstFreeNoneIff | tron.py:570-584 | the draw fails iff all 50 candidates are in use |
| OrderIssuer.IssuedOrderShape | tron.py:559-602 | an issued order is PENDING for that user and plan, expires 600 s after creation, costs price + k/10000 with k in [1, 9999] from the draws, and was not in use |
| OrderIssuer.IssueRefusals | tron.py:559-602 | an unknown plan, exhausted draws or an id clash issue nothing and leave the table unchanged |
| OrderIssuer.IssueKeepsInvariants | tron.py:550-602 | when the user has no PENDING order, issuing keeps one pending order per user, amounts apart and on the grid |
| OrderIssuer.BackToBackAmountsDiffer | tron.py:570-584 | two orders issued one after the other get different amounts |
| OrderIssuer.OrderManager.constructor | tron.py:535-536 | the manager works on the database it is given |
| OrderIssuer.OrderManager.CreatePaymentOrder | tron.py:539-602 | refuses while the user's newest PENDING order is unexpired; otherwise retires it as EXPIRED first, then issues as Issue says; keeps the issuer invariants |
| OrderIssuer.OrderManager.DrawAmount | tron.py:570-584 | returns the first free candidate in draw order, or None if none is free |
| OrderIssuer.OrderManager.CancelOrder | tron.py:604-606 | the order's status becomes CANCELLED, whatever it was; no other column changes |
| OrderIssuer.OrderManager.ExpireOldOrders | tron.py:608-616 | the orders table becomes ExpireAll of the old one |
| LedgerPoller.Probe | tron.py:638-651 | keeps the key list; the index stays in range; the failed set is either kept or cleared |
| LedgerPoller.NextKey | tron.py:632-652 | keeps the ring well formed and the key list unchanged |
| LedgerPoller.ProbeFindsFirstLive | tron.py:638-651 | returns the first key, in ring order from the index, that is not failed, and moves the index past it; if every key has failed, clears the set and returns the key at the index |
| LedgerPoller.NextKeyContract | tron.py:632-652 | returns "" iff there are no keys; otherwise returns a listed key; returns a key that has not failed whenever one exists; clears the failed set exactly when every key has failed |
| LedgerPoller.MarkFailed | tron.py:654-658 | adds a non-empty key to the failed set; the empty key is ignored |
| LedgerPoller.Judge | tron.py:700-723 | a response is accepted iff it is HTTP 200 with success set; 401, 429, a timeout or a transport error mark the key failed; any other status retries without marking |
| LedgerPoller.Confirmations | tron.py:734-735 | max(0, current − block) |
| LedgerPoller.MaxRetries | tron.py:685 | the budget is at least 2 attempts and exceeds the key count by 1, or by 2 when there are no keys |
| LedgerPoller.ToRecord | tron.py:727-746 | a record keeps the item's hash, value and block; its timestamp is the millisecond timestamp divided by 1000, rounded down; it carries the USDT contract and is not processed |
| LedgerPoller.EnrichFrom | tron.py:724-753 | keeps the ring well formed and the key list unchanged |
| LedgerPoller.FetchFrom | tron.py:681-767 | keeps the ring well formed and the key list unchanged |
| LedgerPoller.FetchStaysWithinBudget | tron.py:685-687 | the fetch reads only the responses to attempts below max(len(keys), 1) + 1 |
| LedgerPoller.FetchAllFailedIsEmpty | tron.py:757-767 | if no attempt within the budget is accepted, the result is empty |
| LedgerPoller.EnrichedRecordsAreFresh | tron.py:724-753 | one record per item, with the item's hash, addresses and value; timestamp = block_timestamp // 1000; the item's block number; confirmations = max(0, height − block) for the height read for that item; the USDT contract; not processed |
| LedgerPoller.FetchedRecordsAreFresh | tron.py:736-746 | every fetched record carries the USDT contract and is not processed |
| LedgerPoller.TronUSDTMonitor.constructor | tron.py:625-630 | starts at index 0 with no failed keys |
| LedgerPoller.TronUSDTMonitor.GetNextApiKey | tron.py:632-652 | returns the key NextKey gives and moves to the state NextKey gives |
| LedgerPoller.TronUSDTMonitor.MarkKeyFailed | tron.py:654-658 | the ring becomes MarkFailed of the old ring |
| LedgerPoller.TronUSDTMonitor.Enrich | tron.py:724-753 | returns the records EnrichFrom gives, and takes one key per item |
| LedgerPoller.TronUSDTMonitor.GetTrc20Transactions | tron.py:681-767 | returns the records FetchFrom gives, with a budget of max(len(keys), 1) + 1 attempts, and ends in FetchFrom's ring |
| Reconciliation.ScanFrom | tron.py:1183-1211 | a found order accepts the transfer and is in the snapshot; None iff no snapshot entry accepts it; the only table change is EXPIRED on rows whose snapshot entry is overdue |
| Reconciliation.ScanExpiresOverdue | tron.py:1185-1192 | every overdue snapshot entry the scan reaches, i.e. with no earlier entry accepting the transfer, ends EXPIRED in the table |
| Reconciliation.ScanTakesFirst | tron.py:1183-1211 | the scan returns the first snapshot entry that accepts the transfer |
| Reconciliation.GrantExpiry | tron.py:1368-1384 | the new expiry is max(current expiry, now) + days |
| Reconciliation.Grant | tron.py:1323-1404 | succeeds iff the plan is known and the database does not fail; on success only the user's row is replaced, with the member level and the new expiry; on failure nothing changes |
| Reconciliation.GrantExtends | tron.py:1368-1384 | a grant never ends before now + days, nor before the old expiry + days |
| Reconciliation.ProcessTransfer | tron.py:1154-1251 | checks in order: already processed, fewer than 20 confirmations, foreign contract, older than 900 s. The first two change nothing. Every other transfer is saved as processed; foreign and stale transfers leave orders and memberships unchanged. After a scan, every overdue entry the scan reached is EXPIRED, and no other order changes except the matched one. A match sets that order PAID with the tx hash and paid_at = now, then COMPLETED with completed_at = now iff the grant succeeds; its other columns (user, plan, amount, created_at, expires_at, message_id) are unchanged; the memberships become what Grant gives |
| Reconciliation.ProcessFrom | tron.py:1154-1251 | the loop keeps the set of orders and never removes a transaction or membership row |
| Reconciliation.ProcessedStaysProcessed | tron.py:1154-1251 | a processed hash stays processed for the rest of the tick |
| Reconciliation.ConfirmedTransfersEndProcessed | tron.py:1154-1251 | after the loop, every transfer with at least 20 confirmations is marked processed, matched or not |
| Reconciliation.AllProcessedIsNoop | tron.py:1156-1158 | transfers that are all already processed change nothing |
| Reconciliation.NoNewPendingKeepsInvariants | tron.py:1134-1251 | a change that creates no PENDING row keeps the issuer invariants |
| Reconciliation.ProcessTransferNoNewPending | tron.py:1154-1251 | handling a transfer creates no PENDING row |
| Reconciliation.ProcessFromNoNewPending | tron.py:1154-1251 | the transfer loop creates no PENDING row |
| Reconciliation.TickSpec | tron.py:1134-1251 | keeps the key ring well formed over the same keys |
| Reconciliation.Swept | tron.py:1135-1139 | after both sweeps, every PENDING row past its expiry is EXPIRED and every other row is unchanged |
| Reconciliation.SweptIsOneSweep | tron.py:1135-1139 | the second expiry sweep of a tick changes nothing |
| Reconciliation.TickKeepsInvariants | tron.py:1134-1251 | a tick keeps one pending order per user, pending amounts apart and on the grid |
| Reconciliation.TickNeverSeesForeignContract | tron.py:1165-1170 | a polled transfer is never rejected by the contract check |
| Reconciliation.ExactPaymentMatchesItsOrder | tron.py:1192-1197 | with the exact amount test: a transfer of exactly a snapshot order's amount, inside that order's window, matches that order and no other |
| Reconciliation.SnapshotDecidesMatch | tron.py:1142-1211 | the scan reads only the snapshot: the first snapshot entry that accepts the transfer is matched, whatever its current status in the table |
| Reconciliation.FirstAcceptingAsWritten | tron.py:1183-1211 | the entry at which the source's scan stops when amounts are compared as doubles: a snapshot entry that passes the double amount test and the time window |
| Reconciliation.ScanIsExactFloatScan | tron.py:1195-1197 | when no difference of exactly 0.0001 rounds below the tolerance, the double scan stops where ScanFrom does |
| Reconciliation.FloatScanPaysNeighbour | tron.py:1195-1197 | two valid PENDING orders one draw step apart: with double rounding, an exact payment of the higher amount stops the scan at the lower order; the exact test pays the higher one |
| Reconciliation.DoublePayInOneTick | tron.py:1142-1231 | two exact payments in one tick complete one order twice: the order ends with the second hash and the membership is extended by 14 days |
| Reconciliation.CompletedOrderReexpiredInOneTick | tron.py:1185-1191 | a later transfer in the same tick, handled after the expiry time, sets a COMPLETED order to EXPIRED |
| Reconciliation.TronPaymentService.constructor | tron.py:1104-1112 | on a first start: an empty payment database, the order manager over it, and a monitor over the given keys |
| Reconciliation.TronPaymentService.GrantMembership | tron.py:1323-1404 | memberships become what Grant gives, and the result is Grant's flag |
| Reconciliation.TronPaymentService.CheckExpiredOrders | tron.py:1270-1282 | every listed overdue order is set EXPIRED, so the table becomes ExpireAll of the old one |
| Reconciliation.TronPaymentService.ProcessTransaction | tron.py:1154-1251 | the disposition and the new books are what ProcessTransfer gives |
| Reconciliation.TronPaymentService.Tick | tron.py:1134-1251 | the snapshot lists the pending orders after the sweeps; the books and the key ring become what TickSpec gives for that snapshot |

## Findings

| source | as written | input that shows it | evidently intended | confidence | as-written member | corrected member |
|---|---|---|---|---|---|---|
| tron.py:1195 | the amount test `abs(tx.amount - order.amount) >= 0.0001` runs on doubles, and its tolerance equals the draw step of tron.py:575, while the in-use test at tron.py:451 keeps PENDING amounts only 0.00001 apart | PENDING plan_7d orders of 5.0002 (first in the snapshot) and 5.0003 USDT; a transfer of exactly 5.0003 USDT. On doubles the difference is 9.999999999976694e-05, below 0.0001, so the scan stops at the 5.0002 order and pays it | an exact payment pays the order with that amount and no other | not executed; IEEE double arithmetic on the two amounts | Reconciliation.FloatScanPaysNeighbour | Reconciliation.ExactPaymentMatchesItsOrder |

The rest of the model uses the exact integer amount test `AmountMatches`.
`ScanIsExactFloatScan` states that this test agrees with the source's double
test whenever no difference of exactly one draw step rounds below the
tolerance.

## Left out

- **Telegram notifier**: deleting the order message, the timeout notice, the payment notice and its retry loops are all network I/O. The only thing they read from the core is the stored message id.
- **QR code generation**: a wrapper over an image library.
- **Schema creation and migrations**: table creation and the `ALTER TABLE` attempts are storage plumbing. The tables are maps.
- **Configuration loading, `main`, `start`/`stop`, the poll sleep**: process bootstrap and async scheduling. The one-second pause after a 429 is one of these.
- **Floats and time zones**: amounts are fixed-point integers and times are integer seconds, so IEEE rounding is not modelled. The one place where rounding changes which order gets paid, the amount test, is covered under "## Findings".
- **HTTP and JSON details of the fetch**: the URL, headers, `limit` and payload parsing are not modelled. A response is an abstract value and the block height is an input; an item that fails to parse is not modelled.
- **The order id format and the draw itself**: `time.time()` and `random.randint` are inputs.
- **Exceptions and boolean results of the store**: a failed SQL statement is not modelled. `is_amount_in_use` answers true when its query fails; the model has no failing query. An exception that ends a tick early is not modelled either.
- **Separate clock readings**: one clock reading serves both expiry sweeps, and one serves each transfer. That reading is also used for `paid_at`, `completed_at` and the grant. The source reads the clock anew in each of these places.
- OrderIssuer.OrderManager.CreatePaymentOrder: one `now` serves both the expiry test of the existing order (tron.py:553) and the new order's creation time (tron.py:587). The source reads the clock twice.
- **Concurrency**: other processes, such as the bot's cancel handler, write the same payment database. Between the snapshot (tron.py:1142) and the scan, an order can be cancelled or created, and two issuers can interleave their read-then-write (tron.py:550-598). The model runs operations one after another. OrderIssuer.IssueKeepsInvariants, Reconciliation.TickKeepsInvariants and the invariant clause of OrderIssuer.OrderManager.CreatePaymentOrder hold only under that serial order.
- Reconciliation.TronPaymentService.constructor: models a first start with an empty payment database. The source opens a persistent database file and creates its tables only if they are missing, so a restarted service keeps its rows.
- Reconciliation.ExactPaymentMatchesItsOrder: holds for the exact integer amount test. With the source's double arithmetic, a payment can pay the neighbouring order one draw step away (see "## Findings", Reconciliation.FloatScanPaysNeighbour).
- **Membership row details**: the grant writes the level, the new expiry, the grant time and a NULL trial expiry. Parsing a malformed stored expiry, which the source treats like a missing one, is not modelled.
- LedgerPoller.EnrichFrom: its own contract states only the ring's well-formedness. What the records hold is stated by LedgerPoller.EnrichedRecordsAreFresh.
- LedgerPoller.FetchFrom: its own contract states only the ring's well-formedness. Budget, emptiness and freshness are stated by the three lemmas after it.
- Reconciliation.TickSpec: its own contract states only the ring's well-formedness. Invariant preservation, and the behaviour of the snapshot, are stated by the lemmas after it.
