/**
 * The monitor's bookkeeping as functions of its inputs: how `process_transaction`
 * gates and records one transfer, how one cycle of `monitor_transactions` walks the
 * fetched batch oldest first, and how cycles and process restarts follow each other.
 * Every answer from the network or from Telegram is an input (`Observation`).
 */
module Monitor {
  import opened Wrappers
  import opened Text
  import opened Alerts
  import opened Prices
  import opened Ledger
  import opened Fetcher
  import opened RecentErrors

  /** How `send_video_with_retry` ended for one alert. */
  datatype SendResult =
    | VideoSent          // a video attempt succeeded: it returns True
    | TextFallbackSent   // all three video attempts failed, the caption went out as text: it returns False
    | SendRaised         // sending the text fallback raised as well

  /** What the outside world answers while one transfer is processed. */
  datatype Observation = Observation(
    bnbValue: Option<real>,   // `check_execute_function`'s BNB value, `None` when the lookup failed
    send: SendResult,
    ledgerWritable: bool)     // whether appending to the ledger file succeeds

  /** The facts an alert reports. */
  datatype Alert = Alert(category: Category, usdValue: real, emojiCount: int, hodler: string)

  /** The outcome of `process_transaction`'s checks, in the order it makes them. */
  datatype Gate = AlreadyPosted | InvalidBnbValue | ValueUnparsable | BelowMinimum | Post(alert: Alert)

  /** Transfers worth less than one dollar are not announced. */
  const MinimumUsd: real := 1.0

  /** `float(value) / 1e18 * pets_price`, in exact arithmetic. */
  function UsdValue(amount: int, petsPrice: real): real {
    amount as real / WeiPerToken * petsPrice
  }

  /** The alert a transfer worth `usd` dollars produces. */
  function MakeAlert(tx: TransferRecord, usd: real): (a: Alert)
    ensures a.usdValue == usd && a.category == CategorizeBuy(usd)
    ensures MinimumUsd <= usd ==> 1 <= a.emojiCount <= MaxEmojis
    ensures a.hodler == ShortenAddress(tx.to)
  {
    Alert(CategorizeBuy(usd), usd, EmojiCount(usd), ShortenAddress(tx.to))
  }

  /** `process_transaction`'s checks against the posted set and the observed values. */
  function Decide(tx: TransferRecord, posted: set<string>, bnbValue: Option<real>, petsPrice: real): Gate {
    if tx.hash in posted then AlreadyPosted
    else if bnbValue.None? || bnbValue.value <= 0.0 then InvalidBnbValue
    else if tx.value.None? then ValueUnparsable
    else
      var usd := UsdValue(tx.value.value, petsPrice);
      if usd < MinimumUsd then BelowMinimum else Post(MakeAlert(tx, usd))
  }

  /** The checks in the order the source makes them: each outcome holds exactly on its case. */
  lemma DecideOrder(tx: TransferRecord, posted: set<string>, bnbValue: Option<real>, petsPrice: real)
    ensures var g := Decide(tx, posted, bnbValue, petsPrice);
      && (g == AlreadyPosted <==> tx.hash in posted)
      && (g == InvalidBnbValue <==> tx.hash !in posted && (bnbValue.None? || bnbValue.value <= 0.0))
      && (g == ValueUnparsable <==> tx.hash !in posted && bnbValue.Some? && bnbValue.value > 0.0 && tx.value.None?)
      && (g == BelowMinimum <==>
            && tx.hash !in posted && bnbValue.Some? && bnbValue.value > 0.0 && tx.value.Some?
            && UsdValue(tx.value.value, petsPrice) < MinimumUsd)
      && (g.Post? <==>
            && tx.hash !in posted && bnbValue.Some? && bnbValue.value > 0.0 && tx.value.Some?
            && UsdValue(tx.value.value, petsPrice) >= MinimumUsd)
      && (g.Post? ==> g.alert == MakeAlert(tx, UsdValue(tx.value.value, petsPrice)))
  {
  }

  /** A message that reached the chat: for which transfer, and whether with its video. */
  datatype Emission = Emission(index: nat, hash: string, alert: Alert, withVideo: bool)

  /** How `process_transaction` ended: it returned a boolean, or it raised. */
  datatype Step = Returned(ok: bool) | Raised

  /** Everything one `process_transaction` call changes or produces. */
  datatype Outcome = Outcome(step: Step, posted: set<string>, ledger: LedgerFile, emission: Option<Emission>)

  /**
   * One `process_transaction` call on the transfer at position `index` of the batch.
   * The hash is added to the posted set and to the ledger file only after a video was sent.
   */
  function Process(posted: set<string>, ledger: LedgerFile, tx: TransferRecord, index: nat,
                   petsPrice: real, o: Observation): Outcome
  {
    match Decide(tx, posted, o.bnbValue, petsPrice)
    case Post(alert) =>
      (match o.send
       case VideoSent =>
         Outcome(Returned(true), posted + {tx.hash}, AppendHash(ledger, tx.hash, o.ledgerWritable),
                 Some(Emission(index, tx.hash, alert, true)))
       case TextFallbackSent => Outcome(Returned(false), posted, ledger, Some(Emission(index, tx.hash, alert, false)))
       case SendRaised => Outcome(Raised, posted, ledger, None))
    case ValueUnparsable => Outcome(Raised, posted, ledger, None)
    case _ => Outcome(Returned(false), posted, ledger, None)
  }

  /**
   * `process_transaction` returns True exactly when it posts and the video went out, and
   * raises exactly when the amount does not parse or the fallback send fails. Only a True
   * changes the posted set and the ledger; a message reaches the chat exactly when posting
   * does not raise, and only for a hash that was not posted.
   */
  lemma ProcessOutcome(posted: set<string>, ledger: LedgerFile, tx: TransferRecord, index: nat,
                       petsPrice: real, o: Observation)
    ensures var r := Process(posted, ledger, tx, index, petsPrice, o);
      var g := Decide(tx, posted, o.bnbValue, petsPrice);
      && (r.step == Returned(true) <==> g.Post? && o.send == VideoSent)
      && (r.step == Raised <==> g == ValueUnparsable || (g.Post? && o.send == SendRaised))
      && r.posted == (if r.step == Returned(true) then posted + {tx.hash} else posted)
      && r.ledger == (if r.step == Returned(true) then AppendHash(ledger, tx.hash, o.ledgerWritable) else ledger)
      && (r.emission.Some? <==> g.Post? && o.send != SendRaised)
      && (r.emission.Some? ==> r.emission.value == Emission(index, tx.hash, g.alert, o.send == VideoSent))
      && (r.emission.Some? ==> tx.hash !in posted)
  {
    DecideOrder(tx, posted, o.bnbValue, petsPrice);
  }

  /**
   * A text-only fallback is not recorded: neither the posted set nor the ledger changes,
   * so processing the same transfer again with the same answers sends the same alert again.
   */
  lemma TextFallbackNotRecorded(posted: set<string>, ledger: LedgerFile, tx: TransferRecord, index: nat,
                                petsPrice: real, o: Observation)
    requires Decide(tx, posted, o.bnbValue, petsPrice).Post? && o.send == TextFallbackSent
    ensures var out := Process(posted, ledger, tx, index, petsPrice, o);
      && out.step == Returned(false) && out.posted == posted && out.ledger == ledger
      && out.emission.Some? && !out.emission.value.withVideo
      && Process(out.posted, out.ledger, tx, index, petsPrice, o) == out
  {
  }

  /** How the walk over a batch ended: it ran out, hit `break`, or an exception left the loop. */
  datatype Halt = Completed | Broke | Aborted

  /** What the walk carries from one transfer to the next: the globals and `new_last_hash`. */
  datatype Progress = Progress(posted: set<string>, ledger: LedgerFile, newLast: Option<string>)

  /** How a walk ended, the progress at its end, and the messages it sent, in order. */
  datatype WalkResult = WalkResult(halt: Halt, end: Progress, emitted: seq<Emission>)

  /** Python's truth value of `last_transaction_hash`: neither `None` nor "". */
  predicate Truthy(h: Option<string>) {
    h.Some? && h.value != ""
  }

  /**
   * What the loop calls for one transfer: `process_transaction` on the posted set and the
   * ledger as they stand, the transfer, and its position in the batch.
   */
  type Processor = (set<string>, LedgerFile, TransferRecord, nat) -> Outcome

  /** `process_transaction` with the cycle's $PETS price and the answers observed at each position. */
  function Handler(petsPrice: real, observe: nat -> Observation): Processor {
    (posted: set<string>, ledger: LedgerFile, tx: TransferRecord, index: nat) =>
      Process(posted, ledger, tx, index, petsPrice, observe(index))
  }

  /** The progress after processing `tx` with outcome `out`. */
  function Advance(p: Progress, tx: TransferRecord, out: Outcome): Progress {
    Progress(out.posted, out.ledger, if out.step == Returned(true) then Some(tx.hash) else p.newLast)
  }

  /** The emission list of one outcome: empty or a single message. */
  function Added(out: Outcome): seq<Emission> {
    if out.emission.Some? then [out.emission.value] else []
  }

  /** The walk is skipping or stopping at `txs[i-1]` rather than processing it. */
  predicate Passes(txs: seq<TransferRecord>, i: nat, lastHash: Option<string>, p: Progress)
    requires 0 < i <= |txs|
  {
    txs[i - 1].hash in p.posted || (Truthy(lastHash) && txs[i - 1].hash == lastHash.value)
  }

  /**
   * The `for tx in reversed(txs)` loop: visits `txs[i-1]`, `txs[i-2]`, ..., `txs[0]`,
   * skipping posted hashes, stopping at `last_transaction_hash`, and remembering the
   * hash of each transfer that was posted.
   */
  function Walk(txs: seq<TransferRecord>, i: nat, lastHash: Option<string>, process: Processor, p: Progress)
    : WalkResult
    requires i <= |txs|
    decreases i
  {
    if i == 0 then WalkResult(Completed, p, [])
    else if txs[i - 1].hash in p.posted then Walk(txs, i - 1, lastHash, process, p)
    else if Truthy(lastHash) && txs[i - 1].hash == lastHash.value then WalkResult(Broke, p, [])
    else
      var out := process(p.posted, p.ledger, txs[i - 1], i - 1);
      var q := Advance(p, txs[i - 1], out);
      if out.step == Raised then WalkResult(Aborted, q, Added(out))
      else
        var w := Walk(txs, i - 1, lastHash, process, q);
        WalkResult(w.halt, w.end, Added(out) + w.emitted)
  }

  /**
   * What the walk relies on about one call: a message is only for the given, unposted
   * transfer at the given position; the call returns True exactly when the message went
   * out with its video, and then the hash is posted; a raising call sends nothing; the
   * ledger changes only on True.
   */
  predicate Sound(out: Outcome, posted: set<string>, ledger: LedgerFile, tx: TransferRecord, index: nat) {
    && (out.emission.Some? ==>
          out.emission.value.hash == tx.hash && out.emission.value.index == index && tx.hash !in posted)
    && (out.step == Returned(true) <==> out.emission.Some? && out.emission.value.withVideo)
    && (out.step == Raised ==> out.emission.None?)
    && out.posted == (if out.step == Returned(true) then posted + {tx.hash} else posted)
    && (out.step != Returned(true) ==> out.ledger == ledger)
  }

  /** Every call of `process` is sound. */
  ghost predicate Faithful(process: Processor) {
    forall posted, ledger, tx, index {:trigger Sound(process(posted, ledger, tx, index), posted, ledger, tx, index)} ::
      Sound(process(posted, ledger, tx, index), posted, ledger, tx, index)
  }

  /** `process_transaction` is sound, whatever the price and the observed answers. */
  lemma HandlerFaithful(petsPrice: real, observe: nat -> Observation)
    ensures Faithful(Handler(petsPrice, observe))
  {
    forall posted, ledger, tx, index
      ensures Sound(Handler(petsPrice, observe)(posted, ledger, tx, index), posted, ledger, tx, index)
    {
      ProcessOutcome(posted, ledger, tx, index, petsPrice, observe(index));
    }
  }

  /** One processed transfer of a walk: its outcome, the progress after it, and the rest of the walk. */
  lemma WalkStep(txs: seq<TransferRecord>, i: nat, lastHash: Option<string>, process: Processor, p: Progress)
    returns (out: Outcome, q: Progress)
    requires 0 < i <= |txs| && !Passes(txs, i, lastHash, p)
    ensures out == process(p.posted, p.ledger, txs[i - 1], i - 1)
    ensures Faithful(process) ==> Sound(out, p.posted, p.ledger, txs[i - 1], i - 1)
    ensures q == Advance(p, txs[i - 1], out)
    ensures out.step == Raised ==> Walk(txs, i, lastHash, process, p) == WalkResult(Aborted, q, Added(out))
    ensures Faithful(process) && out.step == Raised ==> Added(out) == []
    ensures out.step != Raised ==> Walk(txs, i, lastHash, process, p).halt == Walk(txs, i - 1, lastHash, process, q).halt
    ensures out.step != Raised ==>
      Walk(txs, i, lastHash, process, p).emitted == Added(out) + Walk(txs, i - 1, lastHash, process, q).emitted
    ensures out.step != Raised ==> Walk(txs, i, lastHash, process, p).end == Walk(txs, i - 1, lastHash, process, q).end
  {
    out := process(p.posted, p.ledger, txs[i - 1], i - 1);
    q := Advance(p, txs[i - 1], out);
  }

  /** The hashes of the emissions that carried a video. */
  function VideoHashes(es: seq<Emission>): set<string> {
    if es == [] then {}
    else (if es[0].withVideo then {es[0].hash} else {}) + VideoHashes(es[1..])
  }

  lemma {:induction false} VideoHashesConcat(a: seq<Emission>, b: seq<Emission>)
    ensures VideoHashes(a + b) == VideoHashes(a) + VideoHashes(b)
  {
    if a != [] {
      assert (a + b)[0] == a[0] && (a + b)[1..] == a[1..] + b;
      VideoHashesConcat(a[1..], b);
    } else {
      assert a + b == b;
    }
  }

  /** A hash is a video hash exactly when some emission with a video carries it. */
  lemma {:induction false} VideoHashesMembers(es: seq<Emission>, h: string)
    ensures h in VideoHashes(es) <==> exists k :: 0 <= k < |es| && es[k].withVideo && es[k].hash == h
  {
    if es != [] {
      VideoHashesMembers(es[1..], h);
      if h in VideoHashes(es[1..]) {
        var k :| 0 <= k < |es[1..]| && es[1..][k].withVideo && es[1..][k].hash == h;
        assert es[k + 1] == es[1..][k];
      }
      if exists k :: 0 <= k < |es| && es[k].withVideo && es[k].hash == h {
        var k :| 0 <= k < |es| && es[k].withVideo && es[k].hash == h;
        if k > 0 {
          assert es[1..][k - 1] == es[k];
        }
      }
    }
  }

  /** What one sound call adds to the posted set: the hash, exactly when its video went out. */
  lemma AdvancePosted(p: Progress, tx: TransferRecord, index: nat, out: Outcome)
    requires Sound(out, p.posted, p.ledger, tx, index)
    ensures Advance(p, tx, out).posted == p.posted + VideoHashes(Added(out))
  {
    if out.emission.Some? {
      assert Added(out)[1..] == [];
    }
  }

  /** A walk posts exactly the hashes it sent with a video. */
  lemma {:induction false} WalkPosted(txs: seq<TransferRecord>, i: nat, lastHash: Option<string>,
                                      process: Processor, p: Progress)
    requires i <= |txs| && Faithful(process)
    ensures var w := Walk(txs, i, lastHash, process, p);
      w.end.posted == p.posted + VideoHashes(w.emitted)
  {
    if i == 0 || Passes(txs, i, lastHash, p) {
      if i > 0 && txs[i - 1].hash in p.posted {
        WalkPosted(txs, i - 1, lastHash, process, p);
      }
    } else {
      var out, q := WalkStep(txs, i, lastHash, process, p);
      AdvancePosted(p, txs[i - 1], i - 1, out);
      if out.step != Raised {
        WalkPosted(txs, i - 1, lastHash, process, q);
        VideoHashesConcat(Added(out), Walk(txs, i - 1, lastHash, process, q).emitted);
      }
    }
  }

  /** No emission of `es` is for a hash of `posted`. */
  predicate AllFresh(posted: set<string>, es: seq<Emission>) {
    forall k :: 0 <= k < |es| ==> es[k].hash !in posted
  }

  lemma AllFreshConcat(posted: set<string>, more: set<string>, a: seq<Emission>, b: seq<Emission>)
    requires AllFresh(posted, a) && AllFresh(posted + more, b)
    ensures AllFresh(posted, a + b)
  {
    forall k | 0 <= k < |a + b|
      ensures (a + b)[k].hash !in posted
    {
      if k >= |a| {
        assert (a + b)[k] == b[k - |a|];
      }
    }
  }

  /** A walk announces only transfers whose hash was not posted when it started. */
  lemma {:induction false} WalkAvoidsPosted(txs: seq<TransferRecord>, i: nat, lastHash: Option<string>,
                                            process: Processor, p: Progress)
    requires i <= |txs| && Faithful(process)
    ensures AllFresh(p.posted, Walk(txs, i, lastHash, process, p).emitted)
  {
    if i == 0 || Passes(txs, i, lastHash, p) {
      if i > 0 && txs[i - 1].hash in p.posted {
        WalkAvoidsPosted(txs, i - 1, lastHash, process, p);
      }
    } else {
      var out, q := WalkStep(txs, i, lastHash, process, p);
      assert AllFresh(p.posted, Added(out));
      if out.step != Raised {
        WalkAvoidsPosted(txs, i - 1, lastHash, process, q);
        assert q.posted == p.posted + (q.posted - p.posted);
        AllFreshConcat(p.posted, q.posted - p.posted, Added(out), Walk(txs, i - 1, lastHash, process, q).emitted);
      }
    }
  }

  /** Emissions in visiting order: positions in the batch strictly decrease and stay below `bound`. */
  predicate OldestFirst(es: seq<Emission>, bound: nat) {
    && (forall k :: 0 <= k < |es| ==> es[k].index < bound)
    && (forall j, k :: 0 <= j < k < |es| ==> es[j].index > es[k].index)
  }

  /** At most one emission, and it is for position `index`. */
  predicate AtPosition(es: seq<Emission>, index: nat) {
    |es| <= 1 && forall k :: 0 <= k < |es| ==> es[k].index == index
  }

  lemma OldestFirstConcat(a: seq<Emission>, b: seq<Emission>, index: nat)
    requires AtPosition(a, index) && OldestFirst(b, index)
    ensures OldestFirst(a + b, index + 1)
  {
    forall j, k | 0 <= j < k < |a + b|
      ensures (a + b)[j].index > (a + b)[k].index
    {
      assert (a + b)[k] == b[k - |a|];
    }
  }

  /**
   * The batch arrives newest first; the walk starts from its end, so alerts go out
   * oldest first.
   */
  lemma {:induction false} WalkOldestFirst(txs: seq<TransferRecord>, i: nat, lastHash: Option<string>,
                                           process: Processor, p: Progress)
    requires i <= |txs| && Faithful(process)
    ensures OldestFirst(Walk(txs, i, lastHash, process, p).emitted, i)
  {
    if i == 0 || Passes(txs, i, lastHash, p) {
      if i > 0 && txs[i - 1].hash in p.posted {
        WalkOldestFirst(txs, i - 1, lastHash, process, p);
      }
    } else {
      var out, q := WalkStep(txs, i, lastHash, process, p);
      assert AtPosition(Added(out), i - 1);
      if out.step != Raised {
        WalkOldestFirst(txs, i - 1, lastHash, process, q);
        OldestFirstConcat(Added(out), Walk(txs, i - 1, lastHash, process, q).emitted, i - 1);
      }
    }
  }

  /** Once a transfer went out with its video, no later emission is for the same hash. */
  predicate NoRepeatAfterVideo(es: seq<Emission>) {
    forall j, k :: 0 <= j < k < |es| && es[j].withVideo ==> es[j].hash != es[k].hash
  }

  /** At most one emission, and if it carried a video its hash is in `posted`. */
  predicate VideoRecorded(es: seq<Emission>, posted: set<string>) {
    |es| <= 1 && forall k :: 0 <= k < |es| && es[k].withVideo ==> es[k].hash in posted
  }

  lemma NoRepeatConcat(a: seq<Emission>, b: seq<Emission>, posted: set<string>)
    requires VideoRecorded(a, posted) && AllFresh(posted, b) && NoRepeatAfterVideo(b)
    ensures NoRepeatAfterVideo(a + b)
  {
    forall j, k | 0 <= j < k < |a + b| && (a + b)[j].withVideo
      ensures (a + b)[j].hash != (a + b)[k].hash
    {
      assert (a + b)[k] == b[k - |a|];
      if j < |a| {
        assert (a + b)[j] == a[j];
      } else {
        assert (a + b)[j] == b[j - |a|];
      }
    }
  }

  /** Within one walk, a hash announced with its video is never announced again. */
  lemma {:induction false} WalkNoRepeat(txs: seq<TransferRecord>, i: nat, lastHash: Option<string>,
                                        process: Processor, p: Progress)
    requires i <= |txs| && Faithful(process)
    ensures NoRepeatAfterVideo(Walk(txs, i, lastHash, process, p).emitted)
  {
    if i == 0 || Passes(txs, i, lastHash, p) {
      if i > 0 && txs[i - 1].hash in p.posted {
        WalkNoRepeat(txs, i - 1, lastHash, process, p);
      }
    } else {
      var out, q := WalkStep(txs, i, lastHash, process, p);
      assert VideoRecorded(Added(out), q.posted);
      if out.step != Raised {
        WalkNoRepeat(txs, i - 1, lastHash, process, q);
        WalkAvoidsPosted(txs, i - 1, lastHash, process, q);
        NoRepeatConcat(Added(out), Walk(txs, i - 1, lastHash, process, q).emitted, q.posted);
      }
    }
  }

  /** The hash of the last emission of `es` that carried a video, or `default` when none did. */
  function LastVideoHash(es: seq<Emission>, default: Option<string>): Option<string> {
    if es == [] then default
    else if es[|es| - 1].withVideo then Some(es[|es| - 1].hash)
    else LastVideoHash(es[..|es| - 1], default)
  }

  lemma {:induction false} LastVideoHashConcat(a: seq<Emission>, b: seq<Emission>, default: Option<string>)
    ensures LastVideoHash(a + b, default) == LastVideoHash(b, LastVideoHash(a, default))
  {
    if b == [] {
      assert a + b == a;
    } else {
      assert (a + b)[..|a + b| - 1] == a + b[..|b| - 1];
      LastVideoHashConcat(a, b[..|b| - 1], default);
    }
  }

  lemma AdvanceLastHash(p: Progress, tx: TransferRecord, index: nat, out: Outcome)
    requires Sound(out, p.posted, p.ledger, tx, index)
    ensures Advance(p, tx, out).newLast == LastVideoHash(Added(out), p.newLast)
  {
    if out.emission.Some? {
      assert Added(out)[..0] == [];
    }
  }

  /**
   * `new_last_hash` ends as the hash of the last transfer of the walk that went out with
   * its video, or as it started when none did.
   */
  lemma {:induction false} WalkLastHash(txs: seq<TransferRecord>, i: nat, lastHash: Option<string>,
                                        process: Processor, p: Progress)
    requires i <= |txs| && Faithful(process)
    ensures var w := Walk(txs, i, lastHash, process, p);
      w.end.newLast == LastVideoHash(w.emitted, p.newLast)
  {
    if i == 0 || Passes(txs, i, lastHash, p) {
      if i > 0 && txs[i - 1].hash in p.posted {
        WalkLastHash(txs, i - 1, lastHash, process, p);
      }
    } else {
      var out, q := WalkStep(txs, i, lastHash, process, p);
      AdvanceLastHash(p, txs[i - 1], i - 1, out);
      if out.step != Raised {
        WalkLastHash(txs, i - 1, lastHash, process, q);
        LastVideoHashConcat(Added(out), Walk(txs, i - 1, lastHash, process, q).emitted, p.newLast);
      }
    }
  }

  /** A remembered last hash is always a posted hash. */
  predicate LastHashPosted(last: Option<string>, posted: set<string>) {
    last.Some? ==> last.value in posted
  }

  /** The walk keeps `new_last_hash` among the posted hashes. */
  lemma {:induction false} WalkKeepsLastHashPosted(txs: seq<TransferRecord>, i: nat, lastHash: Option<string>,
                                                   process: Processor, p: Progress)
    requires i <= |txs| && Faithful(process)
    requires LastHashPosted(p.newLast, p.posted)
    ensures var w := Walk(txs, i, lastHash, process, p);
      LastHashPosted(w.end.newLast, w.end.posted)
  {
    if i == 0 || Passes(txs, i, lastHash, p) {
      if i > 0 && txs[i - 1].hash in p.posted {
        WalkKeepsLastHashPosted(txs, i - 1, lastHash, process, p);
      }
    } else {
      var out, q := WalkStep(txs, i, lastHash, process, p);
      assert LastHashPosted(q.newLast, q.posted);
      if out.step != Raised {
        WalkKeepsLastHashPosted(txs, i - 1, lastHash, process, q);
      }
    }
  }

  /**
   * The `break` on `last_transaction_hash` is never taken while that hash is posted:
   * the posted check before it already skips the transfer.
   */
  lemma {:induction false} WalkNeverBreaks(txs: seq<TransferRecord>, i: nat, lastHash: Option<string>,
                                           process: Processor, p: Progress)
    requires i <= |txs| && Faithful(process)
    requires LastHashPosted(lastHash, p.posted)
    ensures Walk(txs, i, lastHash, process, p).halt != Broke
  {
    if i == 0 {
    } else if txs[i - 1].hash in p.posted {
      WalkNeverBreaks(txs, i - 1, lastHash, process, p);
    } else {
      var out, q := WalkStep(txs, i, lastHash, process, p);
      if out.step != Raised {
        assert p.posted <= q.posted;
        WalkNeverBreaks(txs, i - 1, lastHash, process, q);
      }
    }
  }

  /** Every call for a position below `i` that returns True has appended its hash to the ledger. */
  ghost predicate WritesThrough(process: Processor, i: nat) {
    forall posted, ledger, tx, index :: 0 <= index < i && process(posted, ledger, tx, index).step == Returned(true) ==>
      process(posted, ledger, tx, index).ledger == AppendHash(ledger, tx.hash, true)
  }

  /** When every write succeeds, `process_transaction` writes through. */
  lemma HandlerWritesThrough(petsPrice: real, observe: nat -> Observation, i: nat)
    requires forall j :: 0 <= j < i ==> observe(j).ledgerWritable
    ensures WritesThrough(Handler(petsPrice, observe), i)
  {
    forall posted, ledger, tx, index | 0 <= index < i && Handler(petsPrice, observe)(posted, ledger, tx, index).step == Returned(true)
      ensures Handler(petsPrice, observe)(posted, ledger, tx, index).ledger == AppendHash(ledger, tx.hash, true)
    {
      ProcessOutcome(posted, ledger, tx, index, petsPrice, observe(index));
    }
  }

  /** Every hash in `txs[..i]` can be stored as a line. */
  predicate CleanPrefix(txs: seq<TransferRecord>, i: nat)
    requires i <= |txs|
  {
    forall j :: 0 <= j < i ==> CleanHash(txs[j].hash)
  }

  /**
   * `after` is a well-formed ledger that reads back as `before` plus exactly the hashes
   * of `es` that went out with a video.
   */
  predicate LedgerFollows(before: LedgerFile, after: LedgerFile, es: seq<Emission>) {
    Terminated(after) && LoadPosted(after) == LoadPosted(before) + VideoHashes(es)
  }

  lemma AdvanceLedger(p: Progress, tx: TransferRecord, index: nat, out: Outcome)
    requires Sound(out, p.posted, p.ledger, tx, index)
    requires Terminated(p.ledger) && CleanHash(tx.hash)
    requires out.step == Returned(true) ==> out.ledger == AppendHash(p.ledger, tx.hash, true)
    ensures LedgerFollows(p.ledger, out.ledger, Added(out))
  {
    if out.step == Returned(true) {
      AppendRoundTrip(p.ledger, tx.hash);
      assert Added(out) == [out.emission.value];
      assert VideoHashes(Added(out)) == {tx.hash};
    } else if out.emission.Some? {
      assert VideoHashes(Added(out)) == {};
    }
  }

  lemma LedgerFollowsCompose(a: LedgerFile, b: LedgerFile, c: LedgerFile, first: seq<Emission>, second: seq<Emission>)
    requires LedgerFollows(a, b, first) && LedgerFollows(b, c, second)
    ensures LedgerFollows(a, c, first + second)
  {
    VideoHashesConcat(first, second);
  }

  /**
   * When every write succeeds, reading the ledger back after the walk gives what it gave
   * before plus exactly the hashes that went out with a video.
   */
  lemma {:induction false} WalkLedger(txs: seq<TransferRecord>, i: nat, lastHash: Option<string>,
                                      process: Processor, p: Progress)
    requires i <= |txs| && Faithful(process)
    requires Terminated(p.ledger) && WritesThrough(process, i) && CleanPrefix(txs, i)
    ensures LedgerFollows(p.ledger, Walk(txs, i, lastHash, process, p).end.ledger, Walk(txs, i, lastHash, process, p).emitted)
  {
    if i == 0 || Passes(txs, i, lastHash, p) {
      if i > 0 && txs[i - 1].hash in p.posted {
        WalkLedger(txs, i - 1, lastHash, process, p);
      } else {
        assert Walk(txs, i, lastHash, process, p).end == p && Walk(txs, i, lastHash, process, p).emitted == [];
      }
    } else {
      var out, q := WalkStep(txs, i, lastHash, process, p);
      AdvanceLedger(p, txs[i - 1], i - 1, out);
      if out.step != Raised {
        var w := Walk(txs, i - 1, lastHash, process, q);
        WalkLedger(txs, i - 1, lastHash, process, q);
        LedgerFollowsCompose(p.ledger, q.ledger, w.end.ledger, Added(out), w.emitted);
      }
    }
  }

  /** The globals one cycle of `monitor_transactions` reads and writes. */
  datatype BotState = BotState(
    posted: set<string>,               // posted_transactions
    lastHash: Option<string>,          // last_transaction_hash
    ledger: LedgerFile,                // posted_transactions.txt
    fetch: FetchCache,                 // transaction_cache, last_transaction_fetch
    recentErrors: seq<ErrorRecord>)    // recent_errors

  /** What the outside world supplies to one cycle. */
  datatype CycleInput = CycleInput(
    now: real,                         // the clock, in milliseconds
    response: ApiResponse,             // BscScan's answer, if a request is made
    petsPrice: real,                   // get_pets_price_from_pancakeswap's result
    observe: nat -> Observation,       // per position of the batch, what processing it observes
    failure: ErrorRecord)              // the record appended when the cycle raises

  /** The state after one cycle, how its walk ended, and the messages it sent. */
  datatype CycleResult = CycleResult(state: BotState, halt: Halt, emitted: seq<Emission>)

  /** The walk's starting point: the posted set merged with the ledger. */
  function Start(s: BotState): Progress {
    Progress(s.posted + LoadPosted(s.ledger), s.ledger, s.lastHash)
  }

  /** The batch a cycle works on: `fetch_bscscan_transactions()` without a start block. */
  function Batch(s: BotState, c: CycleInput): (FetchCache, seq<TransferRecord>) {
    Fetch(s.fetch, None, c.now, c.response, TargetAddress)
  }

  /** The walk a cycle performs over its batch. */
  function CycleWalk(s: BotState, c: CycleInput): WalkResult {
    var txs := Batch(s, c).1;
    Walk(txs, |txs|, s.lastHash, Handler(c.petsPrice, c.observe), Start(s))
  }

  /**
   * One pass of the `while is_tracking_enabled` loop. An empty batch walks nothing, as
   * the `continue` on `not txs` does. When processing raises, the transfers handled before
   * stay posted and written, `last_transaction_hash` keeps its old value and the failure is
   * recorded.
   */
  function Cycle(s: BotState, c: CycleInput): CycleResult {
    var w := CycleWalk(s, c);
    var aborted := w.halt == Aborted;
    CycleResult(
      BotState(w.end.posted, if aborted then s.lastHash else w.end.newLast, w.end.ledger, Batch(s, c).0,
               if aborted then KeepRecent(s.recentErrors, c.failure) else s.recentErrors),
      w.halt, w.emitted)
  }

  /** The state invariant: the remembered hash is posted and at most five errors are kept. */
  predicate Valid(s: BotState) {
    LastHashPosted(s.lastHash, s.posted) && |s.recentErrors| <= MaxRecentErrors
  }

  /** A cycle keeps the invariant, and so never takes the `break`. */
  lemma CycleKeepsValid(s: BotState, c: CycleInput)
    requires Valid(s)
    ensures Valid(Cycle(s, c).state) && Cycle(s, c).halt != Broke
  {
    var txs := Batch(s, c).1;
    HandlerFaithful(c.petsPrice, c.observe);
    WalkPosted(txs, |txs|, s.lastHash, Handler(c.petsPrice, c.observe), Start(s));
    WalkKeepsLastHashPosted(txs, |txs|, s.lastHash, Handler(c.petsPrice, c.observe), Start(s));
    WalkNeverBreaks(txs, |txs|, s.lastHash, Handler(c.petsPrice, c.observe), Start(s));
  }

  /**
   * What a cycle sends: only hashes that were neither in memory nor in the ledger,
   * oldest first, nothing again after its video went out; and the posted set grows by
   * exactly the hashes sent with a video.
   */
  lemma CycleEmissions(s: BotState, c: CycleInput)
    ensures var r := Cycle(s, c);
      && AllFresh(s.posted + LoadPosted(s.ledger), r.emitted)
      && OldestFirst(r.emitted, |Batch(s, c).1|)
      && NoRepeatAfterVideo(r.emitted)
      && r.state.posted == s.posted + LoadPosted(s.ledger) + VideoHashes(r.emitted)
  {
    var txs := Batch(s, c).1;
    HandlerFaithful(c.petsPrice, c.observe);
    WalkPosted(txs, |txs|, s.lastHash, Handler(c.petsPrice, c.observe), Start(s));
    WalkAvoidsPosted(txs, |txs|, s.lastHash, Handler(c.petsPrice, c.observe), Start(s));
    WalkOldestFirst(txs, |txs|, s.lastHash, Handler(c.petsPrice, c.observe), Start(s));
    WalkNoRepeat(txs, |txs|, s.lastHash, Handler(c.petsPrice, c.observe), Start(s));
  }

  /**
   * `last_transaction_hash` after a cycle: the hash of the last transfer sent with its
   * video, or unchanged when there was none or the cycle raised; a raising cycle appends
   * its failure to the bounded error list.
   */
  lemma CycleLastHash(s: BotState, c: CycleInput)
    ensures var r := Cycle(s, c);
      && (r.halt != Aborted ==> r.state.lastHash == LastVideoHash(r.emitted, s.lastHash))
      && (r.halt == Aborted ==> r.state.lastHash == s.lastHash)
      && (r.halt == Aborted ==> r.state.recentErrors == KeepRecent(s.recentErrors, c.failure))
      && (r.halt != Aborted ==> r.state.recentErrors == s.recentErrors)
  {
    var txs := Batch(s, c).1;
    HandlerFaithful(c.petsPrice, c.observe);
    WalkLastHash(txs, |txs|, s.lastHash, Handler(c.petsPrice, c.observe), Start(s));
  }

  /** Every hash of the batch can be stored as a ledger line. */
  predicate CleanRecords(txs: seq<TransferRecord>) {
    forall k :: 0 <= k < |txs| ==> CleanHash(txs[k].hash)
  }

  /** Every ledger write succeeds and BscScan only reports hashes that can be stored as lines. */
  ghost predicate WellBehaved(c: CycleInput) {
    && (forall j: nat :: c.observe(j).ledgerWritable)
    && (c.response.Reply? ==> forall j :: 0 <= j < |c.response.result| ==> CleanHash(c.response.result[j].hash))
  }

  /** `t` is the record the comprehension builds from some row of BscScan's reply. */
  predicate Reported(response: ApiResponse, t: TransferRecord) {
    response.Reply? && exists j :: 0 <= j < |response.result| && Normalize(response.result[j]) == Some(t)
  }

  /** After a cycle's fetch, every cached record was cached before or was built from a reported row. */
  lemma FetchReportedOnly(s: BotState, c: CycleInput)
    ensures forall k :: 0 <= k < |Batch(s, c).0.cache| ==>
      Batch(s, c).0.cache[k] in s.fetch.cache || Reported(c.response, Batch(s, c).0.cache[k])
  {
    var (fc, txs) := Batch(s, c);
    if fc != s.fetch {
      forall k | 0 <= k < |txs|
        ensures Reported(c.response, txs[k])
      {
        BuysSound(c.response.result, TargetAddress, k);
      }
    }
  }

  /** The cache only ever holds hashes that can be stored as ledger lines. */
  lemma FetchKeepsClean(s: BotState, c: CycleInput)
    requires CleanRecords(s.fetch.cache) && WellBehaved(c)
    ensures CleanRecords(Batch(s, c).0.cache)
  {
    var (fc, txs) := Batch(s, c);
    FetchReportedOnly(s, c);
    forall k | 0 <= k < |txs|
      ensures CleanHash(txs[k].hash)
    {
      if txs[k] !in s.fetch.cache {
        var j :| 0 <= j < |c.response.result| && Normalize(c.response.result[j]) == Some(txs[k]);
      }
    }
  }

  /**
   * With every write succeeding, the ledger read back after a cycle holds what it held
   * before plus exactly the hashes the cycle sent with a video.
   */
  lemma CycleLedger(s: BotState, c: CycleInput)
    requires Terminated(s.ledger) && CleanRecords(s.fetch.cache) && WellBehaved(c)
    ensures var r := Cycle(s, c);
      && Terminated(r.state.ledger) && CleanRecords(r.state.fetch.cache)
      && LoadPosted(r.state.ledger) == LoadPosted(s.ledger) + VideoHashes(r.emitted)
  {
    var txs := Batch(s, c).1;
    FetchKeepsClean(s, c);
    HandlerFaithful(c.petsPrice, c.observe);
    HandlerWritesThrough(c.petsPrice, c.observe, |txs|);
    assert CleanPrefix(txs, |txs|);
    WalkLedger(txs, |txs|, s.lastHash, Handler(c.petsPrice, c.observe), Start(s));
  }

  /** What happens between cycles: a cycle runs, or the process restarts. */
  datatype Event = Tick(input: CycleInput) | Restart

  /** The globals of a freshly started process; only the ledger file survives. */
  function Fresh(ledger: LedgerFile): BotState {
    BotState({}, None, ledger, FetchCache([], 0.0), [])
  }

  /** The state after `events`, and every message sent along the way, in order. */
  function Run(s: BotState, events: seq<Event>): (BotState, seq<Emission>)
    decreases |events|
  {
    if events == [] then (s, [])
    else
      var (m, sent) := Run(s, events[..|events| - 1]);
      match events[|events| - 1]
      case Restart => (Fresh(m.ledger), sent)
      case Tick(c) => (Cycle(m, c).state, sent + Cycle(m, c).emitted)
  }

  ghost predicate AllWellBehaved(events: seq<Event>) {
    forall k :: 0 <= k < |events| && events[k].Tick? ==> WellBehaved(events[k].input)
  }

  lemma AllFreshSubset(small: set<string>, large: set<string>, es: seq<Emission>)
    requires small <= large && AllFresh(large, es)
    ensures AllFresh(small, es)
  {
  }

  lemma AllFreshJoin(posted: set<string>, a: seq<Emission>, b: seq<Emission>)
    requires AllFresh(posted, a) && AllFresh(posted, b)
    ensures AllFresh(posted, a + b)
  {
    AllFreshConcat(posted, {}, a, b);
  }

  lemma NoRepeatJoin(a: seq<Emission>, b: seq<Emission>, posted: set<string>)
    requires NoRepeatAfterVideo(a) && NoRepeatAfterVideo(b)
    requires VideoHashes(a) <= posted && AllFresh(posted, b)
    ensures NoRepeatAfterVideo(a + b)
  {
    forall j, k | 0 <= j < k < |a + b| && (a + b)[j].withVideo
      ensures (a + b)[j].hash != (a + b)[k].hash
    {
      if j < |a| && k < |a| {
        assert (a + b)[j] == a[j] && (a + b)[k] == a[k];
      } else if j < |a| {
        assert (a + b)[j] == a[j] && (a + b)[k] == b[k - |a|];
        VideoHashesMembers(a, a[j].hash);
      } else {
        assert (a + b)[j] == b[j - |a|] && (a + b)[k] == b[k - |a|];
      }
    }
  }

  /**
   * At most once, across cycles and restarts: as long as every ledger write succeeds,
   * no message is sent for a hash the ledger held at the start, and once a transfer went
   * out with its video no later message is for it. The ledger ends holding exactly the
   * hashes sent with a video.
   */
  lemma {:induction false} AtMostOnce(s: BotState, events: seq<Event>)
    requires Terminated(s.ledger) && CleanRecords(s.fetch.cache) && AllWellBehaved(events)
    ensures var (f, es) := Run(s, events);
      && AllFresh(LoadPosted(s.ledger), es)
      && NoRepeatAfterVideo(es)
      && Terminated(f.ledger) && CleanRecords(f.fetch.cache)
      && LoadPosted(f.ledger) == LoadPosted(s.ledger) + VideoHashes(es)
    decreases |events|
  {
    if events != [] {
      var init := events[..|events| - 1];
      assert AllWellBehaved(init) by {
        forall k | 0 <= k < |init| && init[k].Tick?
          ensures WellBehaved(init[k].input)
        {
          assert init[k] == events[k];
        }
      }
      AtMostOnce(s, init);
      var (m, sent) := Run(s, init);
      match events[|events| - 1]
      case Restart =>
      case Tick(c) =>
        var r := Cycle(m, c);
        CycleLedger(m, c);
        CycleEmissions(m, c);
        AllFreshSubset(LoadPosted(s.ledger), m.posted + LoadPosted(m.ledger), r.emitted);
        AllFreshJoin(LoadPosted(s.ledger), sent, r.emitted);
        AllFreshSubset(LoadPosted(m.ledger), m.posted + LoadPosted(m.ledger), r.emitted);
        NoRepeatJoin(sent, r.emitted, LoadPosted(m.ledger));
        LedgerFollowsCompose(s.ledger, m.ledger, r.state.ledger, sent, r.emitted);
    }
  }
}
