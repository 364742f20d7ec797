/**
 * `fetch_bscscan_transactions`: reads the latest token transfers of the pair
 * from BscScan, keeps those sent by the watched pair address, and caches the
 * batch for two minutes. The HTTP request itself is not modelled: its outcome
 * is the `ApiResponse` parameter.
 */
module Fetcher {
  import opened Wrappers
  import opened Text

  /**
   * One row of BscScan's `tokentx` answer. `blockNumber` and `timeStamp` are `None`
   * when their text is not an integer (Python's `int()` raises). `value` is the raw
   * token amount, `None` when `float()` would reject its text.
   */
  datatype RawTransfer = RawTransfer(
    hash: string, to: string, from: string,
    value: Option<int>, blockNumber: Option<int>, timeStamp: Option<int>)

  /** A transfer as the bot keeps it in `transaction_cache`. */
  datatype TransferRecord = TransferRecord(
    hash: string, to: string, from: string,
    value: Option<int>, blockNumber: int, timeStamp: int)

  /**
   * What the HTTP request gave: nothing usable (HTTP error, timeout, bad JSON), or a
   * JSON answer with its `status` field and its `result` rows.
   */
  datatype ApiResponse = Unreachable | Reply(status: string, result: seq<RawTransfer>)

  /** The PancakeSwap pair whose outgoing transfers are buys (the `TARGET_ADDRESS` default). */
  const TargetAddress: string := "0x4BdEcE4E422fA015336234e4fC4D39ae6dD75b01"

  /** `TRANSACTION_CACHE_THRESHOLD`: two minutes, in milliseconds. */
  const CacheThresholdMs: real := 120000.0

  /** A row is a buy when its sender is the pair, compared case-insensitively. */
  predicate IsBuy(row: RawTransfer, target: string) {
    Lower(row.from) == Lower(target)
  }

  /** The cached record of a row; `None` when its block number or time stamp does not parse. */
  function Normalize(row: RawTransfer): (r: Option<TransferRecord>)
    ensures r.Some? <==> row.blockNumber.Some? && row.timeStamp.Some?
    ensures r.Some? ==>
      r.value.hash == row.hash && r.value.from == row.from && r.value.to == row.to && r.value.value == row.value
  {
    if row.blockNumber.Some? && row.timeStamp.Some? then
      Some(TransferRecord(row.hash, row.to, row.from, row.value, row.blockNumber.value, row.timeStamp.value))
    else None
  }

  /**
   * The list comprehension over the answer: the buy rows, normalized, in upstream
   * order. It raises (here `None`) as soon as a buy row does not normalize; rows that
   * are not buys are never normalized.
   */
  function Buys(rows: seq<RawTransfer>, target: string): (r: Option<seq<TransferRecord>>)
    ensures r.Some? ==> |r.value| <= |rows|
    ensures r.Some? ==> forall k :: 0 <= k < |r.value| ==> Lower(r.value[k].from) == Lower(target)
  {
    if rows == [] then Some([])
    else
      var rest := Buys(rows[1..], target);
      assert forall i :: 1 <= i < |rows| ==> rows[i] == rows[1..][i - 1];
      if !IsBuy(rows[0], target) then rest
      else match Normalize(rows[0])
        case None => None
        case Some(t) => if rest.None? then None else Some([t] + rest.value)
  }

  /** The comprehension succeeds exactly when every buy row normalizes. */
  lemma {:induction false} BuysSucceeds(rows: seq<RawTransfer>, target: string)
    ensures Buys(rows, target).Some? <==>
      forall i :: 0 <= i < |rows| && IsBuy(rows[i], target) ==> Normalize(rows[i]).Some?
  {
    if rows != [] {
      BuysSucceeds(rows[1..], target);
      assert forall i :: 1 <= i < |rows| ==> rows[i] == rows[1..][i - 1];
    }
  }

  /** Every buy row is kept. */
  lemma {:induction false} BuysComplete(rows: seq<RawTransfer>, target: string, i: nat)
    requires i < |rows| && IsBuy(rows[i], target)
    requires Buys(rows, target).Some?
    ensures Normalize(rows[i]).Some?
    ensures Normalize(rows[i]).value in Buys(rows, target).value
  {
    if i > 0 {
      assert rows[1..][i - 1] == rows[i];
      BuysComplete(rows[1..], target, i - 1);
    }
  }

  /** Every kept record is the normalized form of some buy row. */
  lemma {:induction false} BuysSound(rows: seq<RawTransfer>, target: string, k: nat)
    requires Buys(rows, target).Some? && k < |Buys(rows, target).value|
    ensures exists j :: 0 <= j < |rows| && IsBuy(rows[j], target) && Normalize(rows[j]) == Some(Buys(rows, target).value[k])
  {
    var rest := Buys(rows[1..], target);
    if !IsBuy(rows[0], target) {
      BuysSound(rows[1..], target, k);
      var j :| 0 <= j < |rows[1..]| && IsBuy(rows[1..][j], target) && Normalize(rows[1..][j]) == Some(rest.value[k]);
      assert rows[j + 1] == rows[1..][j];
    } else if k > 0 {
      BuysSound(rows[1..], target, k - 1);
      var j :| 0 <= j < |rows[1..]| && IsBuy(rows[1..][j], target) && Normalize(rows[1..][j]) == Some(rest.value[k - 1]);
      assert rows[j + 1] == rows[1..][j];
    } else {
      assert Normalize(rows[0]) == Some(Buys(rows, target).value[0]);
    }
  }

  /** Filtering keeps upstream order: it distributes over concatenation. */
  lemma {:induction false} BuysConcat(a: seq<RawTransfer>, b: seq<RawTransfer>, target: string)
    requires Buys(a, target).Some? && Buys(b, target).Some?
    ensures Buys(a + b, target) == Some(Buys(a, target).value + Buys(b, target).value)
  {
    if a == [] {
      assert a + b == b;
      assert [] + Buys(b, target).value == Buys(b, target).value;
    } else {
      assert (a + b)[0] == a[0];
      assert (a + b)[1..] == a[1..] + b;
      assert Buys(a[1..], target).Some?;
      BuysConcat(a[1..], b, target);
      if IsBuy(a[0], target) {
        var t, rest := Normalize(a[0]).value, Buys(a[1..], target).value;
        assert [t] + (rest + Buys(b, target).value) == ([t] + rest) + Buys(b, target).value;
      }
    }
  }

  /** The globals `transaction_cache` and `last_transaction_fetch` (milliseconds). */
  datatype FetchCache = FetchCache(cache: seq<TransferRecord>, lastFetch: real)

  /** No start block (`None` or 0), a non-empty cache, younger than the threshold. */
  predicate ServeFromCache(startBlock: Option<int>, c: FetchCache, now: real) {
    && (startBlock.None? || startBlock.value == 0)
    && c.cache != []
    && now - c.lastFetch < CacheThresholdMs
  }

  /** The new batch a request gives, or `None` when the request or its processing raised. */
  function FreshBatch(response: ApiResponse, target: string): (r: Option<seq<TransferRecord>>)
    ensures r.Some? ==> forall k :: 0 <= k < |r.value| ==> Lower(r.value[k].from) == Lower(target)
  {
    match response
    case Unreachable => None
    case Reply(status, rows) => if status != "1" then None else Buys(rows, target)
  }

  /**
   * One call at time `now`: the new cache state and the returned list. Every path
   * returns the cache as it stands after the call.
   */
  function Fetch(c: FetchCache, startBlock: Option<int>, now: real, response: ApiResponse, target: string)
    : (r: (FetchCache, seq<TransferRecord>))
    ensures r.1 == r.0.cache
    ensures ServeFromCache(startBlock, c, now) ==> r.0 == c
    ensures !ServeFromCache(startBlock, c, now) && FreshBatch(response, target).None? ==> r.0 == c
    ensures !ServeFromCache(startBlock, c, now) && FreshBatch(response, target).Some? ==>
      r.0 == FetchCache(FreshBatch(response, target).value, now)
    ensures r.0 != c ==>
      r.0.lastFetch == now && forall k :: 0 <= k < |r.1| ==> Lower(r.1[k].from) == Lower(target)
  {
    if ServeFromCache(startBlock, c, now) then (c, c.cache)
    else match FreshBatch(response, target)
      case None => (c, c.cache)
      case Some(batch) => (FetchCache(batch, now), batch)
  }

  /**
   * Stale data over no data: after a call that fetched a non-empty batch, a call without
   * start block within the threshold returns that very batch, whatever the upstream does.
   */
  lemma CachedBatchWithinThreshold(c: FetchCache, now: real, response: ApiResponse,
                                   later: real, laterResponse: ApiResponse, target: string)
    requires !ServeFromCache(None, c, now)
    requires FreshBatch(response, target).Some? && FreshBatch(response, target).value != []
    requires later - now < CacheThresholdMs
    ensures Fetch(Fetch(c, None, now, response, target).0, None, later, laterResponse, target).1
      == FreshBatch(response, target).value
  {
  }

  /**
   * When the request fails: BscScan is unreachable, its status is not "1", or a buy row
   * does not parse and the comprehension raises.
   */
  lemma FreshBatchFails(response: ApiResponse, target: string)
    ensures FreshBatch(response, target).None? <==>
      || response.Unreachable?
      || response.status != "1"
      || exists i :: 0 <= i < |response.result| && IsBuy(response.result[i], target)
                                                && Normalize(response.result[i]).None?
  {
    if response.Reply? {
      BuysSucceeds(response.result, target);
    }
  }

  /** A failing request never empties a cache: the previous batch is returned unchanged. */
  lemma FailureReturnsPreviousBatch(c: FetchCache, startBlock: Option<int>, now: real,
                                    response: ApiResponse, target: string)
    requires FreshBatch(response, target).None?
    ensures Fetch(c, startBlock, now, response, target) == (c, c.cache)
  {
  }
}
