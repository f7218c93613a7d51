/** Entities and configuration constants of the USDT-TRC20 payment service.
    Amounts are integer micro-USDT (1 USDT = 1_000_000), times are integer seconds. */
module PaymentTypes {

  datatype Option<T> = None | Some(value: T)

  /** Lifecycle of a payment order. */
  datatype OrderStatus = Pending | Paid | Completed | Expired | Cancelled

  /** One row of the orders table: the fields of a payment order plus the
      message_id column that refers to the chat message showing the order. */
  datatype Order = Order(
    orderId: string,
    userId: int,
    planId: string,
    amount: int,
    status: OrderStatus,
    createdAt: int,
    expiresAt: int,
    txHash: Option<string>,
    paidAt: Option<int>,
    completedAt: Option<int>,
    messageId: Option<int>)

  /** One row of the transactions table, keyed by the ledger transaction hash. */
  datatype TransactionRecord = TransactionRecord(
    txHash: string,
    fromAddress: string,
    toAddress: string,
    amount: int,
    timestamp: int,
    blockNumber: int,
    confirmations: int,
    contractAddress: string,
    processed: bool)

  /** A membership plan: granted days and base price. */
  datatype Plan = Plan(days: nat, price: int)

  const USDT_CONTRACT: string := "TR7NHqjeKQxGTCi8q8ZY4pL8otSzgjLj6t"
  const MICRO_PER_USDT: int := 1_000_000
  /** One unit of the four-decimal disambiguator, 0.0001 USDT. */
  const DRAW_UNIT: int := 100
  const MIN_DRAW: int := 1
  const MAX_DRAW: int := 9999
  const MAX_AMOUNT_ATTEMPTS: nat := 50
  /** 0.00001 USDT: tolerance of the "amount in use" query. */
  const IN_USE_TOLERANCE: int := 10
  /** 0.0001 USDT: tolerance of the transaction/order amount match. */
  const MATCH_TOLERANCE: int := 100
  const ORDER_TIMEOUT_SECONDS: int := 600
  const MIN_CONFIRMATIONS: int := 20
  const STALE_AFTER_SECONDS: int := 900
  const CLOCK_SKEW_GRACE_SECONDS: int := 60
  const SECONDS_PER_DAY: int := 86400

  function Abs(x: int): int { if x < 0 then -x else x }

  /** The plan table; unknown plan identifiers have no plan. */
  function PlanOf(planId: string): (p: Option<Plan>)
    ensures p.Some? <==> planId in {"plan_7d", "plan_30d", "plan_120d", "plan_365d"}
    ensures p.Some? ==> p.value.price % DRAW_UNIT == 0 && p.value.price > 0
  {
    if planId == "plan_7d" then Some(Plan(7, 5 * MICRO_PER_USDT))
    else if planId == "plan_30d" then Some(Plan(30, 15 * MICRO_PER_USDT))
    else if planId == "plan_120d" then Some(Plan(120, 50 * MICRO_PER_USDT))
    else if planId == "plan_365d" then Some(Plan(365, 100 * MICRO_PER_USDT))
    else None
  }
}
