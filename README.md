# MicroPets buy-alert bot: the bookkeeping core

The bot watches BscScan for $PETS transfers out of the PancakeSwap pair, which are buys. It posts one Telegram alert per buy, with a video when it can. Around the network calls sits a small piece of sequential bookkeeping, and this project models it and proves what it guarantees:

- **Posted hashes.** The in-memory posted set is merged each cycle with the ledger file `posted_transactions.txt`. That file is read as its stripped, non-blank lines and appended to one line per successful post.
- **`process_transaction`.** Its checks run in order: already posted, no positive BNB value, unparsable amount, under one dollar. Then the alert is sent, and the hash is recorded only when the video went out.
- **The cycle of `monitor_transactions`.** It walks the newest-first batch from its end, skips posted hashes, stops at `last_transaction_hash` and advances that hash only on a successful post. An exception leaves the walk: the hash is not advanced and the failure is recorded.
- **`recent_errors`.** A list bounded at five entries that keeps the newest.
- **`fetch_bscscan_transactions`.** Its cache decision, the buy filter and the fallback to the old cache on failure.
- **Pure helpers.** `categorize_buy`, `shorten_address`, the emoji count, and the price sources tried in order with a constant fallback.

Every answer from outside is an input to the model:

- BscScan's reply;
- the clock;
- each price source;
- `check_execute_function`'s BNB value;
- how `send_video_with_retry` ended;
- whether a ledger write succeeded.

Per transfer these come from a function of its position in the batch (`Monitor.Observation`). The ledger file is modelled as its text, or as missing or unreadable.

The loop over the batch (`Monitor.Walk`) takes the per-transfer call as a parameter (`Monitor.Processor`) and returns the messages it sent. Its properties are proved for any call that behaves as `process_transaction` promises (`Monitor.Faithful`), and `Monitor.HandlerFaithful` shows that `process_transaction` itself does.

The project has these files:

- `wrappers.dfy`: `Option`, `Min`.
- `text.dfy`: Python's `str.strip` with Python's whitespace set, and ASCII `lower`.
- `alerts.dfy`: tiers, address shortening, emojis.
- `prices.dfy`: price fallback order.
- `ledger.dfy`: the ledger file.
- `errors.dfy`: `recent_errors`.
- `fetcher.dfy`: the fetch cache and filter.
- `monitor.dfy`: processing, the walk, the cycle, and runs across restarts, all as functions.
- `tracker.dfy`: a class `BuyTracker` holding the globals. Its methods update them in place and are proved to agree with the `Monitor` functions.

The headline result is `Monitor.AtMostOnce`. Over any sequence of cycles and process restarts in which every ledger write succeeds:

- no alert is sent for a hash the ledger held at the start;
- once a transfer went out with its video, it is never announced again;
- the ledger ends holding exactly the hashes sent with a video.

Behaviours of the code that the proofs make explicit:

- The `break` on `last_transaction_hash` can never be taken. That hash is always posted (`Monitor.CycleKeepsValid`), and the posted check comes first (`Monitor.WalkNeverBreaks`).
- An alert that fell back to text after three failed video attempts is not recorded. Processing the same transfer again with the same answers sends the same alert again (`Monitor.TextFallbackNotRecorded`). So the transfer can be announced again on later cycles, for as long as it stays in the fetched page and passes the BNB and one-dollar checks again.
- A ledger file whose last line lacks a newline merges the next appended hash into that line. Neither hash can then be read back (`Ledger.AppendToUnterminatedLine`). The program itself always writes complete lines, so this needs a file edited by hand.
- A buy row whose block number or time stamp does not parse as an integer makes the whole list comprehension raise. The fetch then returns the previous cache; it does not drop that row alone.
- `main.py` as given does not parse:
  - every line is indented as a block;
  - line 12 dedents (line 1 is blank);
  - lines 9 and 14 import names that are not modules;
  - line 44 has an unbalanced quote.

  The model follows the evident intended logic of the functions below.

## Model

| member | source | states |
|---|---|---|
| Text.Strip | main.py:151 | Python's `strip()`: the result is no longer than the line and starts and ends with non-whitespace; that it is exactly the line minus its outer whitespace is `StripRemovesOnlyOuterSpace` |
| Text.StripRemovesOnlyOuterSpace | main.py:151 | `line.strip()` is the slice of the line left after removing the leading and the trailing run of Python whitespace; everything removed is whitespace and the result starts and ends with non-whitespace |
| Text.TrimStartDropsSpace | main.py:151 | everything removed from the front by strip is whitespace |
| Text.TrimEndDropsSpace | main.py:151 | everything removed from the back by strip is whitespace |
| Text.StripNoSpace | main.py:151 | a string without whitespace (a transaction hash) is left unchanged by strip |
| Text.Lower | main.py:386 | `lower()` keeps the length and maps each character to its lower-case form |
| Text.LowerIdempotent | main.py:386 | lower-casing twice is lower-casing once, so comparing lower-cased addresses is stable |
| Alerts.CategorizeBuy | main.py:134-141 | each tier holds exactly on its interval: below 100, 100 up to 500, 500 up to 1000, 1000 and above; a boundary value lands in the higher tier |
| Alerts.CategorizeMonotone | main.py:134-141 | a larger USD value never gets a lower tier |
| Alerts.CategoryNamesDistinct | main.py:130-141 | the four tier names are pairwise distinct, so each tier picks its own video |
| Alerts.ShortenAddress | main.py:143-144 | "" for an empty address; otherwise the first min(6, n) characters, "...", and the last min(4, n) characters; 13 characters for an address of length 10 or more |
| Alerts.Truncate | main.py:431 | `int(x)` truncates toward zero: the result is within one of x, on the side of zero |
| Alerts.EmojiCount | main.py:431 | at most 100 emojis; one per whole dollar below 100, exactly 100 from 100 dollars on; never negative for a non-negative value |
| Alerts.EmojiCountMonotone | main.py:431 | more dollars never give fewer emojis |
| Prices.FirstPositive | main.py:203-253 | the first strictly positive source wins; with none the fallback is used; the result is always the fallback or one of the positive sources |
| Prices.BnbToUsd | main.py:164-200 | GeckoTerminal if positive, else CoinMarketCap if positive, else 600; always positive |
| Prices.PancakeQuote | main.py:240-248 | no reserves gives no quote; an empty `reserve0` gives a non-positive quote; positive reserves and BNB price give a positive quote |
| Prices.PetsPrice | main.py:203-253 | always strictly positive; a positive GeckoTerminal answer is the price; otherwise a positive CoinMarketCap answer; otherwise a positive pair quote; otherwise the constant 0.00003886; the price is always exactly one source's answer, never a mix |
| Prices.PetsPriceEmptyPool | main.py:244-253 | when both APIs fail and `reserve0` is 0, the constant 0.00003886 is used |
| Ledger.Pieces | main.py:150-151 | the file text cut at every line break; there is always at least one piece |
| Ledger.PiecesConcat | main.py:150-151 | cutting concatenated text joins the last piece of the first part with the first piece of the second |
| Ledger.PiecesOfLine | main.py:150-151 | text without a line break is a single line |
| Ledger.LoadPosted | main.py:146-154 | `load_posted_transactions`, stated by `LoadedHashesAreStripped`, `LoadLine`, `LoadConcat`, `AppendRoundTrip` and `DuplicateLinesCollapse` |
| Ledger.LoadedHashesAreStripped | main.py:146-154 | the loaded set never contains "" and holds only stripped strings; a missing or unreadable file gives the empty set |
| Ledger.PiecesAfterTerminated | main.py:150-151 | after text that ends a line, the lines of what follows are read afresh, and the text itself ends in an empty piece |
| Ledger.TextEntriesConcat | main.py:151 | reading text after a complete line is the union of reading each part |
| Ledger.LoadConcat | main.py:146-154 | a file made of two parts, the first ending a line, loads as the union of the parts |
| Ledger.StripIdempotent | main.py:151 | stripping a stripped line changes nothing, so every loaded hash is its own strip |
| Ledger.LoadLine | main.py:146-161 | a file holding one written hash line loads as exactly that hash |
| Ledger.AppendHash | main.py:156-161 | a failed write changes nothing; a missing file becomes the hash and a newline; an existing file gets the hash and a newline appended after its content |
| Ledger.AppendRoundTrip | main.py:146-161 | appending a clean hash to a complete file adds exactly that hash to what loads back, and the file stays complete |
| Ledger.AppendToUnterminatedLine | main.py:146-161 | appending after a last line without newline loads back as the merged line, which is neither of the two hashes |
| Ledger.DuplicateLinesCollapse | main.py:151 | a file whose content is repeated loads as the same set |
| RecentErrors.RecordAll | main.py:490-492 | the list after a series of failures each appended with a single pop past five, stated by `RecordAllKeepsNewest`: the newest min(5, total) records in order |
| RecentErrors.KeepRecent | main.py:490-492 | from at most five entries: at most five after the append and pop, exactly the newest ones in order, the new record last |
| RecentErrors.KeepRecentSlides | main.py:490-492 | recording one failure after the newest min(5, n) of n records gives the newest min(5, n + 1) of the n + 1 records |
| RecentErrors.RecordAllKeepsNewest | main.py:819-821 | after any number of recorded failures the list is exactly the last min(5, total) records, oldest first |
| Fetcher.ServeFromCache | main.py:353-355 | the cache is served without a request exactly when there is no start block, the cache is non-empty and it is younger than two minutes; its effect is stated by `Fetch` and `CachedBatchWithinThreshold` |
| Fetcher.IsBuy | main.py:386 | a row is a buy when its sender equals the pair address after lower-casing both; stated through `Buys`, `BuysComplete` and `BuysSound` |
| Fetcher.Normalize | main.py:377-385 | a record is built exactly when block number and time stamp parse, with hash, sender, recipient and value copied |
| Fetcher.Buys | main.py:377-387 | no more records than rows; every record's sender equals the pair address case-insensitively |
| Fetcher.BuysSucceeds | main.py:377-387 | the comprehension succeeds exactly when every buy row normalizes |
| Fetcher.BuysComplete | main.py:386 | every buy row is kept |
| Fetcher.BuysSound | main.py:377-387 | every kept record is the normalized form of some buy row |
| Fetcher.BuysConcat | main.py:377-387 | the filter keeps upstream order: it distributes over concatenation |
| Fetcher.FreshBatch | main.py:372-387 | a new batch only holds records sent by the pair address |
| Fetcher.Fetch | main.py:352-393 | the returned list is the cache after the call; a fresh cache is returned as is; a failed request keeps the old cache; a successful one replaces it and stamps the time |
| Fetcher.CachedBatchWithinThreshold | main.py:354-356 | within the threshold after a non-empty fetch, the next call returns that batch whatever the upstream does |
| Fetcher.FreshBatchFails | main.py:372-387 | a request fails exactly when BscScan is unreachable, its status is not "1", or some buy row does not parse |
| Fetcher.FailureReturnsPreviousBatch | main.py:372-393 | whatever makes the request fail (unreachable, a status other than "1", a buy row that does not parse), the call returns the previous cache unchanged and does not touch it |
| Monitor.UsdValue | main.py:422-423 | `float(value) / 1e18 * pets_price` in exact reals; the one-dollar gate on it is stated by `DecideOrder` |
| Monitor.Decide | main.py:413-426 | `process_transaction`'s checks, stated by `DecideOrder`: each outcome holds exactly on its case, in the source's order |
| Monitor.Process | main.py:413-457 | one `process_transaction` call, stated by `ProcessOutcome`, `TextFallbackNotRecorded` and `HandlerFaithful` |
| Monitor.MakeAlert | main.py:427-434 | the alert's tier is the value's tier; from one dollar on it carries 1 to 100 emojis; the hodler is the shortened recipient |
| Monitor.DecideOrder | main.py:415-426 | the checks in order: skipped exactly when already posted, then exactly when the BNB value is missing or not positive, raises exactly when the amount does not parse, posts exactly when the value is at least one dollar |
| Monitor.ProcessOutcome | main.py:413-457 | returns True exactly when it posts and the video is sent; raises exactly on an unparsable amount or a failing fallback send; the posted set and the ledger change only on True, by that hash; a message goes out exactly when posting does not raise, and only for an unposted hash |
| Monitor.TextFallbackNotRecorded | main.py:451-457 | a text-only fallback changes neither the posted set nor the ledger, so reprocessing sends the same alert again |
| Monitor.Walk | main.py:476-486 | the `for tx in reversed(txs)` loop, stated by `WalkPosted`, `WalkAvoidsPosted`, `WalkOldestFirst`, `WalkNoRepeat`, `WalkLastHash`, `WalkKeepsLastHashPosted`, `WalkNeverBreaks` and `WalkLedger`, and run in place by `BuyTracker.WalkBatch` |
| Monitor.HandlerFaithful | main.py:413-457 | every call of `process_transaction`, whatever the price and the answers it observes, gives what the loop relies on: a message only for the unposted transfer at hand, True exactly when its video went out, nothing sent when it raises, posted set and ledger changed only on True |
| Monitor.AdvancePosted | main.py:451-456 | one call adds to the posted set exactly the hash of a message sent with its video |
| Monitor.WalkPosted | main.py:477-486 | over a walk the posted set grows by exactly the hashes sent with a video |
| Monitor.WalkAvoidsPosted | main.py:481-482 | no message of a walk is for a hash that was posted when it started |
| Monitor.WalkOldestFirst | main.py:477 | messages go out from the end of the batch: strictly decreasing positions |
| Monitor.WalkNoRepeat | main.py:477-486 | within a walk, no message follows one with a video for the same hash |
| Monitor.WalkLastHash | main.py:476-487 | `new_last_hash` ends as the hash of the last transfer sent with its video, or unchanged |
| Monitor.WalkKeepsLastHashPosted | main.py:453-486 | a remembered last hash stays in the posted set |
| Monitor.WalkNeverBreaks | main.py:481-484 | while `last_transaction_hash` is posted, the walk never takes the `break` |
| Monitor.AdvanceLedger | main.py:451-454 | with a successful write, one call leaves a complete ledger that reads back as before plus the hash sent with its video, if any |
| Monitor.LedgerFollowsCompose | main.py:451-454 | two successive ledger extensions read back as one extension by both lists of messages |
| Monitor.WalkLedger | main.py:451-454 | with every write succeeding, the ledger reads back as before plus exactly the hashes sent with a video, and stays complete |
| Monitor.Cycle | main.py:462-493 | one pass of the monitoring loop, stated by `CycleKeepsValid`, `CycleEmissions`, `CycleLastHash` and `CycleLedger`, and run in place by `BuyTracker.MonitorCycle` |
| Monitor.CycleKeepsValid | main.py:459-493 | a cycle keeps the last hash posted and at most five errors, and never breaks |
| Monitor.CycleEmissions | main.py:468-487 | a cycle only announces hashes in neither the posted set nor the ledger, oldest first, never again after a video; the posted set becomes the merge plus the hashes sent with a video |
| Monitor.CycleLastHash | main.py:476-492 | after a completed cycle the last hash is that of the last video post, or unchanged; after a raising cycle it is unchanged and the failure is appended to the bounded list |
| Monitor.FetchReportedOnly | main.py:352-393 | after a cycle's fetch every cached record was already cached or is the record built from a row of BscScan's reply |
| Monitor.FetchKeepsClean | main.py:377-393 | the fetch keeps every cached hash storable as a ledger line when BscScan only reports such hashes |
| Monitor.CycleLedger | main.py:468-487 | with every write succeeding, a cycle adds to the ledger exactly the hashes it sent with a video |
| Monitor.Run | main.py:459-495 | successive passes and restarts, stated by `AtMostOnce` and run in place by `BuyTracker.MonitorLoop` |
| Monitor.AtMostOnce | main.py:459-495 | across cycles and restarts with working writes: nothing is announced whose hash the ledger held at the start, nothing is announced again after its video went out, and the ledger ends as its start plus the video hashes |
| Tracker.BuyTracker.constructor | main.py:110-117 | the globals start empty, with no last hash and a zero fetch time |
| Tracker.BuyTracker.MergeLedger | main.py:468 | the posted set becomes itself united with the loaded ledger; nothing else changes |
| Tracker.BuyTracker.LogPostedTransaction | main.py:156-161 | the file is appended to as `AppendHash` says; with a complete file and a clean hash, exactly that hash is added to what loads back |
| Tracker.BuyTracker.RecordError | main.py:490-492 | append, then pop the oldest when over five; the bound is kept and the new record is last |
| Tracker.BuyTracker.FetchTransactions | main.py:352-393 | the cache, its time stamp and the result are those of `Fetch`; a fresh cache is returned unchanged |
| Tracker.BuyTracker.ProcessTransaction | main.py:413-457 | result, message, posted set and ledger are those of `Process`; the posted set only grows |
| Tracker.BuyTracker.WalkBatch | main.py:476-486 | the loop over `reversed(txs)` ends in the state `Walk` describes |
| Tracker.BuyTracker.MonitorCycle | main.py:462-493 | one pass leaves the globals as `Cycle` describes and keeps the invariant |
| Tracker.BuyTracker.MonitorLoop | main.py:462-493 | successive passes leave the globals and the sent messages as `Run` describes, and keep the invariant |

## Left out

- The HTTP and RPC calls are not modelled: BscScan, GeckoTerminal, CoinMarketCap and the web3 pair contract. They are foreign calls, and their results are inputs.
- The Telegram sends are not modelled. `send_video_with_retry`'s three attempts, its delays and the message text are reduced to how the send ended (`SendResult`).
- `check_execute_function` and `get_transaction_details` give only the BNB value; the `is_execute` flag is never used by the gating. `extract_market_cap`, the random holding change and the BNB-to-USD rate only feed the message text. `get_video_url` only picks the URL of the video sent with the alert (one per tier); the model keeps the tier and how the send ended, not the URL.
- The following are not modelled: asyncio tasks, `asyncio.Lock`, sleeping between cycles (`POLL_INTERVAL`), switching tracking on and off, `/track`, `/stop` and shutdown. They are concurrency and scheduling. A run is a sequence of cycles and restarts.
- tenacity's retry decorators are not modelled. Every decorated function modelled here catches its own exceptions, so a retry never happens.
- The commands `/stats`, `/test`, `/noV` and `/debug`, the FastAPI routes, the polling fallback and the environment checks are outside this core.
- The `isinstance(tx, dict)` check (main.py:478-480) is not modelled: every cached entry is a record the comprehension built.
- `endblock` and `startblock` are not modelled beyond the cache decision; they only shape the request.
- Monitor.UsdValue: computes `value / 1e18 * price` in exact reals. Float rounding, infinities and NaN are not modelled.
- Alerts.CategorizeBuy: compares exact reals, so NaN, which falls into the top tier in Python, is not modelled.
- Text.Lower: maps only ASCII letters. Python's `str.lower` is full Unicode. Addresses are hexadecimal text, so the two agree on them.
- Fetcher.Normalize: the text-to-integer parse of block numbers, time stamps and amounts is given as `Option<int>`. The digit syntax `int()` accepts is not modelled.
- Ledger.LoadPosted: an I/O error is the one state `Unreadable`. A file that fails part-way through reading is not modelled.
- Monitor.AtMostOnce: is proved for runs that start from a ledger that is missing or ends with a line break (`Terminated`), so an unreadable file or a hand-edited last line without newline is excluded. It also needs a start cache whose hashes are clean, every ledger write to succeed and every reported hash to be a non-empty string without whitespace. A failed write loses the record after a restart, and the transfer can then be announced again.

A restart keeps only the ledger file. `Monitor.Fresh` gives the state the process starts with.
