/** The ledger poller: API-key rotation with a failed-key set, the bounded
    retry loop of the transfer fetch, and the per-transfer confirmation count.
    HTTP responses and block heights are inputs. */
module LedgerPoller {
  import opened PaymentTypes

  /** The rotation state: the key list, the round-robin index and the keys
      marked failed in the current round. */
  datatype KeyRing = KeyRing(keys: seq<string>, index: nat, failed: set<string>)

  /** Keys come from the configuration stripped and non-empty; the index
      stays inside the list (and at 0 for an empty list). */
  predicate WellFormed(r: KeyRing) {
    && (|r.keys| == 0 ==> r.index == 0)
    && (|r.keys| > 0 ==> r.index < |r.keys|)
    && "" !in r.keys
  }

  /** The position j steps after i on a ring of n positions, for j <= n. */
  function Pos(i: nat, j: nat, n: nat): nat
    requires i < n && j <= n
  {
    if i + j < n then i + j else i + j - n
  }

  lemma PosBounds(i: nat, j: nat, n: nat)
    requires i < n && j <= n
    ensures Pos(i, j, n) < n
    ensures j == n ==> Pos(i, j, n) == i
  {
  }

  /** The index step of the source, (i + 1) % n, is one step along the ring. */
  lemma SuccIsMod(i: nat, j: nat, n: nat)
    requires i < n && j < n
    ensures (Pos(i, j, n) + 1) % n == Pos(i, j + 1, n)
  {
    var p := Pos(i, j, n);
    if p + 1 < n {
      assert (p + 1) % n == p + 1;
    } else {
      assert p + 1 == n;
    }
  }

  /** The scan of _get_next_api_key after `probes` keys were tried: take the
      key at the index, advance the index, return the key unless it failed;
      after a full round clear the failed set and take the next key. */
  function Probe(r: KeyRing, probes: nat): (res: (string, KeyRing))
    requires 0 < |r.keys| && r.index < |r.keys| && probes <= |r.keys|
    ensures res.1.keys == r.keys && res.1.index < |r.keys|
    ensures res.1.failed == r.failed || res.1.failed == {}
    decreases |r.keys| - probes
  {
    var n := |r.keys|;
    var key := r.keys[r.index];
    var next := (r.index + 1) % n;
    if probes < n then
      if key !in r.failed then (key, r.(index := next)) else Probe(r.(index := next), probes + 1)
    else
      (key, KeyRing(r.keys, next, {}))
  }

  function NextKey(r: KeyRing): (res: (string, KeyRing))
    requires WellFormed(r)
    ensures WellFormed(res.1) && res.1.keys == r.keys
  {
    if |r.keys| == 0 then ("", r) else Probe(r, 0)
  }

  /** Probing from the j-th position after i returns the first key at or after
      that position that has not failed, and leaves the index just past it;
      with none, it clears the failed set and returns the key at i. */
  lemma {:induction false} ProbeFindsFirstLive(r: KeyRing, i: nat, p: nat)
    requires 0 < |r.keys| && i < |r.keys| && p <= |r.keys| && r.index == Pos(i, p, |r.keys|)
    ensures var n := |r.keys|;
      var res := Probe(r, p);
      if exists j :: p <= j < n && r.keys[Pos(i, j, n)] !in r.failed then
        exists j :: p <= j < n && res.0 == r.keys[Pos(i, j, n)] && res.0 !in r.failed &&
          (forall m :: p <= m < j ==> r.keys[Pos(i, m, n)] in r.failed) &&
          res.1 == r.(index := Pos(i, j + 1, n))
      else
        res == (r.keys[i], KeyRing(r.keys, Pos(i, 1, n), {}))
    decreases |r.keys| - p
  {
    var n := |r.keys|;
    if p < n {
      SuccIsMod(i, p, n);
      if r.keys[Pos(i, p, n)] !in r.failed {
      } else {
        ProbeFindsFirstLive(r.(index := Pos(i, p + 1, n)), i, p + 1);
        if exists j :: p <= j < n && r.keys[Pos(i, j, n)] !in r.failed {
          var j :| p <= j < n && r.keys[Pos(i, j, n)] !in r.failed;
          assert j != p;
        }
      }
    } else {
      PosBounds(i, p, n);
      SuccIsMod(i, 0, n);
    }
  }

  /** Every position of the ring is some number of steps after i. */
  lemma RingCovers(i: nat, n: nat, q: nat)
    requires i < n && q < n
    ensures exists j :: 0 <= j < n && Pos(i, j, n) == q
  {
    var j := if q >= i then q - i else q + n - i;
    assert Pos(i, j, n) == q;
  }

  /** What _get_next_api_key promises: "" exactly for an empty list; otherwise
      a key of the list; a key not marked failed whenever one exists; the
      failed set cleared exactly when every key has failed; the index kept
      inside the list. */
  lemma NextKeyContract(r: KeyRing)
    requires WellFormed(r)
    ensures var (key, r') := NextKey(r);
      && (key == "" <==> r.keys == [])
      && (r.keys != [] ==> key in r.keys)
      && ((exists k :: k in r.keys && k !in r.failed) ==> key !in r.failed)
      && r'.failed == (if r.keys != [] && forall k :: k in r.keys ==> k in r.failed then {} else r.failed)
      && (r.keys != [] ==> r'.index < |r.keys|)
  {
    var n := |r.keys|;
    if n > 0 {
      ProbeFindsFirstLive(r, r.index, 0);
      assert Pos(r.index, 0, n) == r.index;
      if exists k :: k in r.keys && k !in r.failed {
        var k :| k in r.keys && k !in r.failed;
        var q :| 0 <= q < n && r.keys[q] == k;
        RingCovers(r.index, n, q);
      } else {
        forall j | 0 <= j < n ensures r.keys[Pos(r.index, j, n)] in r.failed {
          PosBounds(r.index, j, n);
        }
      }
    }
  }

  /** _mark_key_failed: the empty key is never recorded. */
  function MarkFailed(r: KeyRing, key: string): (r': KeyRing)
    ensures r'.keys == r.keys && r'.index == r.index
    ensures r'.failed == if key == "" then r.failed else r.failed + {key}
  {
    if key != "" then r.(failed := r.failed + {key}) else r
  }

  /** The retry budget of get_trc20_transactions: max(len(keys), 1) + 1. */
  function MaxRetries(keyCount: nat): (n: nat)
    ensures n >= 2 && keyCount < n <= keyCount + 2
    ensures keyCount >= 1 ==> n == keyCount + 1
  {
    (if keyCount > 1 then keyCount else 1) + 1
  }

  /** One transfer item of the ledger API response. */
  datatype RawTransfer = RawTransfer(
    transactionId: string, from: string, to: string, value: int, blockTimestampMs: int, block: int)

  /** What one attempt of the fetch observes. */
  datatype Response =
    | Http(status: int, success: bool, data: seq<RawTransfer>)
    | Timeout
    | TransportError

  datatype Verdict = Accept(data: seq<RawTransfer>) | Retry(keyFailed: bool)

  /** How the fetch treats a response: 401, 429, a timeout or a transport
      error mark the key failed and retry; any other non-200 status, or a 200
      without the success flag, retries without marking; only a successful
      200 is accepted. */
  function Judge(resp: Response): (v: Verdict)
    ensures v.Accept? <==> resp.Http? && resp.status == 200 && resp.success
    ensures v.Accept? ==> v.data == resp.data
    ensures v.Retry? ==> (v.keyFailed <==> !resp.Http? || resp.status == 401 || resp.status == 429)
  {
    match resp
    case Http(status, success, data) =>
      if status == 401 || status == 429 then Retry(true)
      else if status != 200 then Retry(false)
      else if !success then Retry(false)
      else Accept(data)
    case Timeout => Retry(true)
    case TransportError => Retry(true)
  }

  /** max(0, current - block). */
  function Confirmations(current: int, block: int): (c: int)
    ensures c >= 0 && c >= current - block
    ensures c == 0 || c == current - block
  {
    if current - block > 0 then current - block else 0
  }

  /** The record built from an item: micro-USDT value, seconds from
      milliseconds, the USDT contract, not yet processed. */
  function ToRecord(item: RawTransfer, confirmations: int): (rec: TransactionRecord)
    ensures rec.txHash == item.transactionId && rec.amount == item.value && rec.blockNumber == item.block
    ensures rec.timestamp * 1000 <= item.blockTimestampMs < rec.timestamp * 1000 + 1000
    ensures rec.contractAddress == USDT_CONTRACT && !rec.processed
  {
    TransactionRecord(item.transactionId, item.from, item.to, item.value, item.blockTimestampMs / 1000,
                      item.block, confirmations, USDT_CONTRACT, false)
  }

  /** Records for items[j..]; each item first asks for the current block
      height, which takes the next key, and heights(j) is the answer. */
  function EnrichFrom(r: KeyRing, items: seq<RawTransfer>, heights: nat -> int, j: nat): (res: (seq<TransactionRecord>, KeyRing))
    requires WellFormed(r)
    ensures WellFormed(res.1) && res.1.keys == r.keys
    decreases |items| - j
  {
    if j >= |items| then ([], r)
    else
      var r1 := NextKey(r).1;
      var rec := ToRecord(items[j], Confirmations(heights(j), items[j].block));
      var rest := EnrichFrom(r1, items, heights, j + 1);
      ([rec] + rest.0, rest.1)
  }

  /** The fetch from attempt `attempt` of `budget`: take the next key, ask the
      server, and either enrich the accepted items or retry. */
  function FetchFrom(r: KeyRing, server: (nat, string) -> Response, heights: nat -> int, attempt: nat, budget: nat)
    : (res: (seq<TransactionRecord>, KeyRing))
    requires WellFormed(r)
    ensures WellFormed(res.1) && res.1.keys == r.keys
    decreases budget - attempt
  {
    if attempt >= budget then ([], r)
    else
      var (key, r1) := NextKey(r);
      match Judge(server(attempt, key))
      case Accept(data) => EnrichFrom(r1, data, heights, 0)
      case Retry(keyFailed) =>
        FetchFrom(if keyFailed then MarkFailed(r1, key) else r1, server, heights, attempt + 1, budget)
  }

  /** The fetch consults the server only on attempts below the budget: two
      servers that agree there give the same records and the same rotation. */
  lemma {:induction false} FetchStaysWithinBudget(r: KeyRing, s1: (nat, string) -> Response, s2: (nat, string) -> Response,
                                                   heights: nat -> int, attempt: nat, budget: nat)
    requires WellFormed(r)
    requires forall a, k :: attempt <= a < budget ==> s1(a, k) == s2(a, k)
    ensures FetchFrom(r, s1, heights, attempt, budget) == FetchFrom(r, s2, heights, attempt, budget)
    decreases budget - attempt
  {
    if attempt < budget {
      var (key, r1) := NextKey(r);
      assert s1(attempt, key) == s2(attempt, key);
      var r2 := MarkFailed(r1, key);
      FetchStaysWithinBudget(r1, s1, s2, heights, attempt + 1, budget);
      FetchStaysWithinBudget(r2, s1, s2, heights, attempt + 1, budget);
    }
  }

  /** When no attempt within the budget is accepted, the fetch yields nothing. */
  lemma {:induction false} FetchAllFailedIsEmpty(r: KeyRing, server: (nat, string) -> Response, heights: nat -> int,
                                                 attempt: nat, budget: nat)
    requires WellFormed(r)
    requires forall a, k :: attempt <= a < budget ==> !Judge(server(a, k)).Accept?
    ensures FetchFrom(r, server, heights, attempt, budget).0 == []
    decreases budget - attempt
  {
    if attempt < budget {
      var (key, r1) := NextKey(r);
      assert !Judge(server(attempt, key)).Accept?;
      FetchAllFailedIsEmpty(r1, server, heights, attempt + 1, budget);
      FetchAllFailedIsEmpty(MarkFailed(r1, key), server, heights, attempt + 1, budget);
    }
  }

  /** A fetched record carries the USDT contract, is not processed, and has a
      non-negative confirmation count. */
  ghost predicate FreshUsdtRecord(t: TransactionRecord) {
    t.contractAddress == USDT_CONTRACT && !t.processed && t.confirmations >= 0
  }

  lemma {:induction false} EnrichedRecordsAreFresh(r: KeyRing, items: seq<RawTransfer>, heights: nat -> int, j: nat)
    requires WellFormed(r)
    ensures var recs := EnrichFrom(r, items, heights, j).0;
      |recs| == if j < |items| then |items| - j else 0
    ensures var recs := EnrichFrom(r, items, heights, j).0;
      forall t :: 0 <= t < |recs| ==>
        (&& FreshUsdtRecord(recs[t])
         && recs[t].txHash == items[j + t].transactionId && recs[t].amount == items[j + t].value
         && recs[t].fromAddress == items[j + t].from && recs[t].toAddress == items[j + t].to
         && recs[t].timestamp == items[j + t].blockTimestampMs / 1000
         && recs[t].blockNumber == items[j + t].block
         && recs[t].confirmations == Confirmations(heights(j + t), items[j + t].block))
    decreases |items| - j
  {
    if j < |items| {
      EnrichedRecordsAreFresh(NextKey(r).1, items, heights, j + 1);
    }
  }

  ghost predicate AllFresh(recs: seq<TransactionRecord>) {
    forall t :: 0 <= t < |recs| ==> FreshUsdtRecord(recs[t])
  }

  /** Every record the fetch returns carries the USDT contract and is not yet
      processed, whatever the server answers. */
  lemma {:induction false} FetchedRecordsAreFresh(r: KeyRing, server: (nat, string) -> Response, heights: nat -> int,
                                                  attempt: nat, budget: nat)
    requires WellFormed(r)
    ensures AllFresh(FetchFrom(r, server, heights, attempt, budget).0)
    decreases budget - attempt
  {
    if attempt < budget {
      var key := NextKey(r).0;
      var r1 := NextKey(r).1;
      var v := Judge(server(attempt, key));
      if v.Accept? {
        EnrichedRecordsAreFresh(r1, v.data, heights, 0);
      } else {
        var next := if v.keyFailed then MarkFailed(r1, key) else r1;
        FetchedRecordsAreFresh(next, server, heights, attempt + 1, budget);
      }
    }
  }

  /** The TRON USDT monitor's rotation state. */
  class TronUSDTMonitor {
    var apiKeys: seq<string>
    var currentKeyIndex: nat
    var failedKeys: set<string>

    function Ring(): KeyRing
      reads this
    {
      KeyRing(apiKeys, currentKeyIndex, failedKeys)
    }

    ghost predicate Valid()
      reads this
    {
      WellFormed(Ring())
    }

    constructor (apiKeys: seq<string>)
      requires "" !in apiKeys
      ensures Valid() && Ring() == KeyRing(apiKeys, 0, {})
    {
      this.apiKeys := apiKeys;
      currentKeyIndex := 0;
      failedKeys := {};
    }

    /** _get_next_api_key */
    method GetNextApiKey() returns (key: string)
      requires Valid()
      modifies this
      ensures Valid()
      ensures (key, Ring()) == NextKey(old(Ring()))
    {
      if |apiKeys| == 0 {
        return "";
      }
      var attempts := 0;
      while attempts < |apiKeys|
        invariant 0 <= attempts <= |apiKeys|
        invariant apiKeys == old(apiKeys) && failedKeys == old(failedKeys)
        invariant currentKeyIndex < |apiKeys|
        invariant NextKey(old(Ring())) == Probe(Ring(), attempts)
      {
        key := apiKeys[currentKeyIndex];
        currentKeyIndex := (currentKeyIndex + 1) % |apiKeys|;
        if key !in failedKeys {
          return key;
        }
        attempts := attempts + 1;
      }
      failedKeys := {};
      key := apiKeys[currentKeyIndex];
      currentKeyIndex := (currentKeyIndex + 1) % |apiKeys|;
    }

    /** _mark_key_failed */
    method MarkKeyFailed(key: string)
      requires Valid()
      modifies this
      ensures Valid()
      ensures Ring() == MarkFailed(old(Ring()), key)
    {
      if key != "" {
        failedKeys := failedKeys + {key};
      }
    }

    /** The per-item enrichment of a successful response. */
    method Enrich(items: seq<RawTransfer>, heights: nat -> int) returns (txs: seq<TransactionRecord>)
      requires Valid()
      modifies this
      ensures Valid()
      ensures (txs, Ring()) == EnrichFrom(old(Ring()), items, heights, 0)
    {
      txs := [];
      var j := 0;
      assert txs + EnrichFrom(Ring(), items, heights, j).0 == EnrichFrom(Ring(), items, heights, j).0;
      while j < |items|
        invariant 0 <= j <= |items|
        invariant Valid()
        invariant EnrichFrom(old(Ring()), items, heights, 0) ==
          (txs + EnrichFrom(Ring(), items, heights, j).0, EnrichFrom(Ring(), items, heights, j).1)
      {
        ghost var before := Ring();
        ghost var prev := txs;
        var _ := GetNextApiKey();
        var item := items[j];
        var current := heights(j);
        txs := txs + [ToRecord(item, Confirmations(current, item.block))];
        assert EnrichFrom(before, items, heights, j) ==
          ([ToRecord(item, Confirmations(current, item.block))] + EnrichFrom(Ring(), items, heights, j + 1).0,
           EnrichFrom(Ring(), items, heights, j + 1).1);
        assert prev + ([ToRecord(item, Confirmations(current, item.block))] + EnrichFrom(Ring(), items, heights, j + 1).0)
          == txs + EnrichFrom(Ring(), items, heights, j + 1).0;
        j := j + 1;
      }
      assert txs + EnrichFrom(Ring(), items, heights, j).0 == txs;
    }

    /** get_trc20_transactions: at most max(len(keys), 1) + 1 attempts;
        server(a, k) is the response to attempt a made with key k. */
    method GetTrc20Transactions(server: (nat, string) -> Response, heights: nat -> int)
      returns (txs: seq<TransactionRecord>)
      requires Valid()
      modifies this
      ensures Valid()
      ensures (txs, Ring()) == FetchFrom(old(Ring()), server, heights, 0, MaxRetries(|old(apiKeys)|))
    {
      var budget := MaxRetries(|apiKeys|);
      var attempt := 0;
      while attempt < budget
        invariant Valid() && apiKeys == old(apiKeys)
        invariant FetchFrom(old(Ring()), server, heights, 0, budget) == FetchFrom(Ring(), server, heights, attempt, budget)
      {
        var key := GetNextApiKey();
        var verdict := Judge(server(attempt, key));
        match verdict {
          case Accept(data) =>
            txs := Enrich(data, heights);
            return;
          case Retry(keyFailed) =>
            if keyFailed {
              MarkKeyFailed(key);
            }
        }
        attempt := attempt + 1;
      }
      txs := [];
    }
  }
}
