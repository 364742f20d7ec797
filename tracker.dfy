/**
 * The bot's module-level globals as one object, and the functions of `main.py` that
 * update them in place. Each method is proved to leave the object in the state the
 * corresponding function of `Monitor` describes, so every property proved there holds
 * of the object too.
 */
module Tracker {
  import opened Wrappers
  import opened Ledger
  import opened Fetcher
  import opened RecentErrors
  import opened Monitor

  class BuyTracker {
    var posted: set<string>                 // posted_transactions
    var lastHash: Option<string>            // last_transaction_hash
    var ledger: LedgerFile                  // posted_transactions.txt
    var cache: seq<TransferRecord>          // transaction_cache
    var lastFetch: real                     // last_transaction_fetch
    var recentErrors: seq<ErrorRecord>      // recent_errors

    /** The globals as a value. */
    function State(): BotState
      reads this
    {
      BotState(posted, lastHash, ledger, FetchCache(cache, lastFetch), recentErrors)
    }

    ghost predicate Valid()
      reads this
    {
      Monitor.Valid(State())
    }

    /** The globals at process start; the ledger file is whatever is on disk. */
    constructor (onDisk: LedgerFile)
      ensures State() == Fresh(onDisk) && Valid()
    {
      posted := {};
      lastHash := None;
      ledger := onDisk;
      cache := [];
      lastFetch := 0.0;
      recentErrors := [];
    }

    /** `posted_transactions.update(load_posted_transactions())`. */
    method MergeLedger()
      modifies this
      ensures posted == old(posted) + LoadPosted(ledger)
      ensures old(posted) <= posted
      ensures lastHash == old(lastHash) && ledger == old(ledger) && cache == old(cache)
      ensures lastFetch == old(lastFetch) && recentErrors == old(recentErrors)
    {
      var loaded := LoadPosted(ledger);
      posted := posted + loaded;
    }

    /** `log_posted_transaction`: one line appended; a failing write leaves the file as it was. */
    method LogPostedTransaction(h: string, writable: bool)
      modifies this
      ensures ledger == AppendHash(old(ledger), h, writable)
      ensures old(Terminated(ledger)) && CleanHash(h) && writable ==>
        LoadPosted(ledger) == old(LoadPosted(ledger)) + {h} && Terminated(ledger)
      ensures posted == old(posted) && lastHash == old(lastHash) && cache == old(cache)
      ensures lastFetch == old(lastFetch) && recentErrors == old(recentErrors)
    {
      if writable && Terminated(ledger) && CleanHash(h) {
        AppendRoundTrip(ledger, h);
      }
      ledger := AppendHash(ledger, h, writable);
    }

    /** Appends to `recent_errors`, then drops the oldest entry if more than five are kept. */
    method RecordError(e: ErrorRecord)
      modifies this
      ensures recentErrors == KeepRecent(old(recentErrors), e)
      ensures |old(recentErrors)| <= MaxRecentErrors ==> |recentErrors| <= MaxRecentErrors
      ensures recentErrors != [] && recentErrors[|recentErrors| - 1] == e
      ensures posted == old(posted) && lastHash == old(lastHash) && ledger == old(ledger)
      ensures cache == old(cache) && lastFetch == old(lastFetch)
    {
      recentErrors := recentErrors + [e];
      if |recentErrors| > MaxRecentErrors {
        recentErrors := recentErrors[1..];
      }
    }

    /**
     * `fetch_bscscan_transactions(startblock)` at time `now`, the upstream answering
     * `response` if it is asked.
     */
    method FetchTransactions(startBlock: Option<int>, now: real, response: ApiResponse)
      returns (txs: seq<TransferRecord>)
      modifies this
      ensures var r := Fetch(old(State()).fetch, startBlock, now, response, TargetAddress);
        FetchCache(cache, lastFetch) == r.0 && txs == r.1
      ensures txs == cache
      ensures ServeFromCache(startBlock, old(State()).fetch, now) ==> txs == old(cache)
      ensures posted == old(posted) && lastHash == old(lastHash) && ledger == old(ledger)
      ensures recentErrors == old(recentErrors)
    {
      if ServeFromCache(startBlock, FetchCache(cache, lastFetch), now) {
        return cache;
      }
      var batch := FreshBatch(response, TargetAddress);
      if batch.Some? {
        cache := batch.value;
        lastFetch := now;
      }
      return cache;
    }

    /**
     * `process_transaction` on the transfer at position `index` of the batch. `step`
     * is `Raised` where the function raises; `emission` is the message that reached the
     * chat, if any.
     */
    method ProcessTransaction(tx: TransferRecord, index: nat, petsPrice: real, o: Observation)
      returns (step: Step, emission: Option<Emission>)
      modifies this
      ensures Outcome(step, posted, ledger, emission) == Process(old(posted), old(ledger), tx, index, petsPrice, o)
      ensures old(posted) <= posted
      ensures step != Returned(true) ==> posted == old(posted) && ledger == old(ledger)
      ensures lastHash == old(lastHash) && cache == old(cache) && lastFetch == old(lastFetch)
      ensures recentErrors == old(recentErrors)
    {
      if tx.hash in posted {
        return Returned(false), None;
      }
      if o.bnbValue.None? || o.bnbValue.value <= 0.0 {
        return Returned(false), None;
      }
      if tx.value.None? {
        // float(transaction['value']) raises
        return Raised, None;
      }
      var usd := UsdValue(tx.value.value, petsPrice);
      if usd < MinimumUsd {
        return Returned(false), None;
      }
      var alert := MakeAlert(tx, usd);
      match o.send {
        case VideoSent =>
          posted := posted + {tx.hash};
          LogPostedTransaction(tx.hash, o.ledgerWritable);
          return Returned(true), Some(Emission(index, tx.hash, alert, true));
        case TextFallbackSent =>
          return Returned(false), Some(Emission(index, tx.hash, alert, false));
        case SendRaised =>
          return Raised, None;
      }
    }

    /**
     * The `for tx in reversed(txs)` loop, starting from `new_last_hash =
     * last_transaction_hash`: skip posted hashes, stop at `last_transaction_hash`,
     * process the rest, and leave the loop when processing raises.
     */
    method WalkBatch(txs: seq<TransferRecord>, petsPrice: real, observe: nat -> Observation)
      returns (halt: Halt, newLast: Option<string>, emitted: seq<Emission>)
      modifies this
      ensures var w := Walk(txs, |txs|, lastHash, Handler(petsPrice, observe), Progress(old(posted), old(ledger), lastHash));
        halt == w.halt && Progress(posted, ledger, newLast) == w.end && emitted == w.emitted
      ensures lastHash == old(lastHash) && cache == old(cache) && lastFetch == old(lastFetch)
      ensures recentErrors == old(recentErrors)
    {
      ghost var whole := Walk(txs, |txs|, lastHash, Handler(petsPrice, observe), Progress(posted, ledger, lastHash));
      halt, newLast, emitted := Completed, lastHash, [];
      var i := |txs|;
      while i > 0 && halt == Completed
        invariant 0 <= i <= |txs|
        invariant lastHash == old(lastHash) && cache == old(cache) && lastFetch == old(lastFetch)
        invariant recentErrors == old(recentErrors)
        invariant halt == Completed ==>
          Remains(whole, emitted, Walk(txs, i, lastHash, Handler(petsPrice, observe), Progress(posted, ledger, newLast)))
        invariant halt != Completed ==> whole == WalkResult(halt, Progress(posted, ledger, newLast), emitted)
        decreases i, if halt == Completed then 1 else 0
      {
        var tx := txs[i - 1];
        if tx.hash in posted {
          i := i - 1;
        } else if Truthy(lastHash) && tx.hash == lastHash.value {
          halt := Broke;
        } else {
          ghost var p := Progress(posted, ledger, newLast);
          var step, emission := ProcessTransaction(tx, i - 1, petsPrice, observe(i - 1));
          VisitStep(txs, i, lastHash, petsPrice, observe, p, Outcome(step, posted, ledger, emission), emitted, whole);
          if emission.Some? {
            emitted := emitted + [emission.value];
          }
          if step == Raised {
            halt := Aborted;
          } else {
            if step == Returned(true) {
              newLast := Some(tx.hash);
            }
            i := i - 1;
          }
        }
      }
    }

    /**
     * One pass of `monitor_transactions`' loop: merge the ledger, fetch, walk the batch
     * from its end, then either advance `last_transaction_hash` or record the failure.
     */
    method MonitorCycle(c: CycleInput) returns (halt: Halt, emitted: seq<Emission>)
      modifies this
      ensures var r := Cycle(old(State()), c);
        State() == r.state && halt == r.halt && emitted == r.emitted
      ensures old(Valid()) ==> Valid() && halt != Broke
    {
      ghost var s := State();
      MergeLedger();
      var txs := FetchTransactions(None, c.now, c.response);
      assert (FetchCache(cache, lastFetch), txs) == Batch(s, c);
      assert Progress(posted, ledger, lastHash) == Start(s);
      var newLast;
      halt, newLast, emitted := WalkBatch(txs, c.petsPrice, c.observe);
      if halt == Aborted {
        RecordError(c.failure);
      } else {
        lastHash := newLast;
      }
      if old(Valid()) {
        CycleKeepsValid(s, c);
      }
    }

    /**
     * The `while is_tracking_enabled` loop over successive cycles, without a restart in
     * between; `emitted` is every message sent, in order.
     */
    method MonitorLoop(inputs: seq<CycleInput>) returns (emitted: seq<Emission>)
      modifies this
      ensures (State(), emitted) == Run(old(State()), Ticks(inputs))
      ensures old(Valid()) ==> Valid()
    {
      ghost var s := State();
      emitted := [];
      var k := 0;
      while k < |inputs|
        invariant 0 <= k <= |inputs|
        invariant (State(), emitted) == Run(s, Ticks(inputs[..k]))
        invariant Monitor.Valid(s) ==> Valid()
      {
        var _, more := MonitorCycle(inputs[k]);
        emitted := emitted + more;
        RunTicksStep(s, inputs, k);
        k := k + 1;
      }
      assert inputs[..k] == inputs;
    }
  }

  /** Running one more cycle extends a run of cycles by that cycle. */
  lemma RunTicksStep(s: BotState, inputs: seq<CycleInput>, k: nat)
    requires k < |inputs|
    ensures var (m, sent) := Run(s, Ticks(inputs[..k]));
      Run(s, Ticks(inputs[..k + 1])) == (Cycle(m, inputs[k]).state, sent + Cycle(m, inputs[k]).emitted)
  {
    var events := Ticks(inputs[..k + 1]);
    assert events[..|events| - 1] == Ticks(inputs[..k]);
    assert events[|events| - 1] == Tick(inputs[k]);
  }

  /** The walk loop's invariant: what is left to walk, `w`, completes `whole` after the messages `sent`. */
  predicate Remains(whole: WalkResult, sent: seq<Emission>, w: WalkResult) {
    whole.halt == w.halt && whole.end == w.end && whole.emitted == sent + w.emitted
  }

  /** The loop's visit to `txs[i-1]` when `process_transaction` runs on it keeps the invariant. */
  lemma VisitStep(txs: seq<TransferRecord>, i: nat, lastHash: Option<string>, petsPrice: real,
                  observe: nat -> Observation, p: Progress, out: Outcome, sent: seq<Emission>, whole: WalkResult)
    requires 0 < i <= |txs| && !Passes(txs, i, lastHash, p)
    requires out == Process(p.posted, p.ledger, txs[i - 1], i - 1, petsPrice, observe(i - 1))
    requires Remains(whole, sent, Walk(txs, i, lastHash, Handler(petsPrice, observe), p))
    ensures var sent' := if out.emission.Some? then sent + [out.emission.value] else sent;
      var q := Advance(p, txs[i - 1], out);
      && (out.step == Raised ==> whole == WalkResult(Aborted, q, sent'))
      && (out.step != Raised ==> Remains(whole, sent', Walk(txs, i - 1, lastHash, Handler(petsPrice, observe), q)))
  {
    var o, q := WalkStep(txs, i, lastHash, Handler(petsPrice, observe), p);
    var sent' := if out.emission.Some? then sent + [out.emission.value] else sent;
    assert sent' == sent + Added(out);
    if out.step != Raised {
      var rest := Walk(txs, i - 1, lastHash, Handler(petsPrice, observe), q).emitted;
      assert sent + (Added(out) + rest) == sent' + rest;
    }
  }

  /** Cycles with no restart between them. */
  function Ticks(inputs: seq<CycleInput>): (events: seq<Event>)
    ensures |events| == |inputs|
    ensures forall k :: 0 <= k < |inputs| ==> events[k] == Tick(inputs[k])
  {
    seq(|inputs|, k requires 0 <= k < |inputs| => Tick(inputs[k]))
  }
}
