# Throttle — a verified model of the request-admission pipeline

The Throttle service is a small HTTP front that decides, for every incoming
request, whether to serve it, queue it or refuse it. For each request it:

- resolves a client identity, believing an `X-Forwarded-For` header only from
  a trusted proxy;
- records every request in a bounded global history (1000 entries);
- refuses identities that were flagged earlier (403);
- records the other requests in a bounded per-identity history (20 entries);
- rate-limits more than 10 requests in the last 5 seconds (429);
- flags an identity whose request intervals are too regular, with sample
  variance below 0.05 (403);
- admits the request into one of 100 concurrency slots, or parks it in a wait
  queue of 50, or refuses it when the queue is full (503).

An administrator can unblock a flagged identity. A periodic sweep drops
each history's leading run of entries older than 60 seconds, and the
identities left with nothing. A
statistics view reports the requests of the last 30 seconds.

The model is written in Dafny, in six modules:

| module | file | models |
|---|---|---|
| `Wrappers` | wrappers.dfy | the optional value used by the others |
| `Identity` | identity.dfy | client identity resolution, including Python's `split(",")[0].strip()` |
| `IncidentLog` | incident.dfy | the name of an identity's incident file (`safe_ip`) |
| `History` | history.dfy | the bounded deques, the sliding windows and the pruning of one history |
| `BotDetector` | botdetector.dfy | intervals, sample variance, the bot verdict |
| `Service` | throttle.dfy | the class `Throttle` holding the stores, and its operations |

`Service.Throttle` holds the process-wide stores as fields: `globalHistory`,
`ipHistory`, `flagged`, the free semaphore slots `free` and the wait queue
`queue`. Its methods change them in place. Timestamps are exact `real`s and
the clock is a parameter `now`.

Admission is modelled as sequential atomic steps:

- `HandleRequest` performs the capacity check and the acquire as one step.
- A `Processed` request holds its slot until `FinishWork` releases it.
- A `Waiting` request sits in the queue until `ResumeWaiter` gives it a freed
  slot and pops the front ticket. The front ticket is not necessarily the
  waiter's own.

## Model

| member | source | states |
|---|---|---|
| Identity.FirstToken | main.py:49 | `split(",")[0]`: the result is the longest prefix of the header without a comma; it stops at the first comma or at the end |
| Identity.LeadingCount | main.py:49 | the number of leading characters in the set: all of them are in it, and the next character is not |
| Identity.TrailingCount | main.py:49 | the number of trailing characters in the set: all of them are in it, and the character before them is not |
| Identity.Strip | main.py:49 | `strip()` with the set of characters Python's `str.isspace` accepts (`WHITESPACE`): the result is the infix of the input that starts after the leading whitespace; only whitespace is dropped, at either end; neither end of the result is whitespace; the result is empty exactly when the input is all whitespace |
| Identity.ClientIp | main.py:44-53 | a non-empty forwarded header from a trusted peer gives its first token, trimmed and comma-free; every other case gives the peer address, so the function never fails |
| Identity.UntrustedPeerCannotSpoof | main.py:50-53 | a peer outside TRUSTED_PROXIES is identified by its own address whatever header it sends |
| IncidentLog.Replace | main.py:56 | `str.replace` on one character: same length; each occurrence of the character is substituted and every other character is kept |
| IncidentLog.SafeIp | main.py:56 | dots and colons become underscores and the rest is kept in place, so the result holds no `.` or `:` |
| IncidentLog.LogFileName | main.py:56-57 | the file name is `SafeIp(ip)` followed by `.log`, and its only dot starts the extension |
| IncidentLog.SafeIpIdempotent | main.py:56 | sanitising twice is sanitising once |
| IncidentLog.DistinctIdentitiesShareLogFile | main.py:56-57 | `1.2` and `1:2` write to the same incident file `1_2.log` |
| History.BoundedAppend | main.py:25-27 | a `deque(maxlen=cap)` append: the newest `cap` entries of `h + [x]`; length grows by one below the bound and stays at the bound once reached; `x` is last; only the oldest entry is dropped and the order is kept |
| History.BoundedAppendSorted | main.py:96 | appending a time no earlier than the last entry keeps a history sorted |
| History.Within | main.py:109 | the comprehension `[t for t in h if now - t < span]`: every kept entry is inside the window, and each time occurs as often as in `h` when inside the window and not at all otherwise |
| History.WithinConcat | main.py:109 | the window of a concatenation is the concatenation of the windows |
| History.WithinAll | main.py:109 | when every entry is inside the window, the window is the whole history |
| History.WithinSortedIsSuffix | main.py:109 | on a sorted history the window is a suffix: the newest entries |
| History.WindowGrowsOnAppend | main.py:106-109 | recording a request at `now` never shrinks the window, and adds exactly one while the history is below its bound |
| History.LimitReachedStaysExceeded | main.py:106-113 | with a sorted history holding at least 10 in-window entries, the next request is over the limit whatever the deque bound drops |
| History.Prune | main.py:78-79 | the `popleft` loop: the result is a suffix, every dropped entry is strictly older than 60 s, and the result is empty or starts with an entry at most 60 s old |
| History.PruneUnique | main.py:78-79 | any cut that drops only stale entries and stops at a fresh entry (or at the end) is exactly the pruned history |
| History.PruneEmptyIff | main.py:78-81 | a history is pruned to nothing exactly when every entry is older than 60 s |
| History.PruneSortedKeepsFresh | main.py:78-79 | on a sorted history every entry kept is at most 60 s old |
| History.PruneIdempotent | main.py:78-79 | pruning twice at the same time is pruning once |
| History.PruneAll | main.py:74-83 | one sweep adds no key, and every surviving identity has a non-empty history no longer than before |
| History.PruneAllSpec | main.py:74-83 | an identity survives the sweep exactly when it has an entry no older than 60 s, and what survives is a suffix of its history |
| BotDetector.Intervals | main.py:117 | one interval per consecutive pair, each the later time minus the earlier |
| BotDetector.IntervalsSpan | main.py:117 | the intervals add up to the last time minus the first |
| BotDetector.Mean | main.py:118 | the mean times the number of values is their sum |
| BotDetector.SumSquares | main.py:118 | a sum of squared deviations is never negative |
| BotDetector.SampleVariance | main.py:118 | `statistics.variance` (divisor n - 1) is never negative |
| BotDetector.IntervalVariance | main.py:118 | never negative; with one interval or none it is the sentinel value 1, which is not below the threshold |
| BotDetector.IsBotLike | main.py:116-120 | the verdict on the windowed requests; when it fires there are at least 4 intervals, so the sentinel is never the value tested |
| BotDetector.BotLikeIff | main.py:116-120 | the test fires exactly when there are at least 5 windowed requests (so at least 4 intervals) and the sample variance is below 0.05; the sentinel can never fire |
| BotDetector.SumConstant | main.py:118 | equal values sum to the count times the value |
| BotDetector.SumSquaresAtValue | main.py:118 | deviations from a constant sequence's own value square-sum to zero |
| BotDetector.ConstantHasZeroVariance | main.py:118 | equal intervals have sample variance zero |
| BotDetector.EvenSpacingIsBotLike | main.py:116-120 | requests at any fixed period are flagged as soon as five are in the window |
| Service.AdmitStep | main.py:128-142 | from bounded slots and queue, one admission step keeps 0..100 free slots and at most 50 queued. The answer is `Processed`, `QueueFull` or `Waiting`. `Processed` reports 1..100 active and takes one slot, leaving the queue alone. The other two happen only when no slot is free |
| Service.Throttle.constructor | main.py:25-40 | empty histories and registry, all 100 slots free, empty queue |
| Service.Throttle.HandleRequest | main.py:92-153 | the global append happens for every request. A flagged identity gets `Blocked` with its stored variance and nothing else changes. Any other identity is recorded first. `RateLimited` iff more than 10 entries are in the 5 s window. `Blocked(AbuseDetected)` iff within the limit and bot-like, and only then is the identity flagged, with the variance and `now`. A refused request leaves slots and queue alone; an accepted one takes one admission step |
| Service.Throttle.Screen | main.py:98-124 | the checks before admission in their order: the result is None exactly when the request passes them all, with the recording and the flagging as above |
| Service.Throttle.Record | main.py:106-107 | the `defaultdict` read and append (`Lookup`, then `BoundedAppend`): the identity's history becomes its bounded append with `now`; an unknown identity's entry is created, starting from empty; no other identity changes |
| Service.Throttle.Flag | main.py:122 | the registry gains (or replaces) exactly the entry for the identity |
| Service.Throttle.Admit | main.py:127-142 | a free slot is taken at once and the reported active count is 1 to 100. With no free slot and a full queue the answer is `QueueFull` and nothing changes. Otherwise the request joins the back of the queue |
| Service.Throttle.FinishWork | main.py:129-135 | leaving the semaphore context releases one slot |
| Service.Throttle.ResumeWaiter | main.py:143-151 | with a free slot and a ticket, the waiter takes the slot and the front ticket leaves the queue; the answer reports the active count and the remaining queue length; otherwise nothing changes |
| Service.Throttle.Unblock | main.py:177-183 | `Unblocked` iff the identity was flagged: its flag is removed and its history (if any) emptied, nothing else changes; otherwise `NotFound` and nothing changes |
| Service.Throttle.PruneSweep | main.py:74-83 | the per-identity map becomes exactly the sweep of the old map, and the bounds are kept |
| Service.PruneHistories | main.py:74-83 | both passes of the sweep together compute the sweep of the map |
| Service.PruneEach | main.py:76-81 | every history is pruned, no key is added or removed, and the identities collected for deletion are exactly those pruned to nothing |
| Service.DeleteAll | main.py:82-83 | the collected keys are removed and every other entry is kept as it was |
| Service.DropStale | main.py:78-79 | the `popleft` loop computes exactly the pruned history |
| Service.Throttle.GlobalStats | main.py:155-164 | the timestamps are the global requests of the last 30 s in recorded order, each as often as recorded. The active count is `MAX_ACTIVE - free`, in 0..100. The queued count is the queue's length, in 0..50. The flagged count is the registry's size |
| Service.Throttle.HistoryOf | main.py:170-172 | `ip_history.get(ip, [])` (`Lookup`): a known identity's stored history, at most 20 long; empty for an unknown identity, without creating an entry |
| Service.RequestThenUnblock | main.py:176-183 | a request followed by an unblock of its identity: the unblock succeeds exactly when the request was refused with 403, and then the identity is no longer flagged and its history reads as empty |
| Service.Burst | main.py:128-142 | n simultaneous passing requests at an idle server: min(n, 100) are admitted, the next min(n - 100, 50) wait and the rest get `QueueFull` |

## Left out

- Concurrency: the asyncio semaphore and queue suspension, the check-then-acquire race at main.py:128, and waiter fairness. Admission is sequential atomic steps, so claims about scheduling are not stated.
- The one-second simulated work (`asyncio.sleep(1)`). `FinishWork` stands for its end. Both the active count and, for a waiter, the queue length are read at acquire time. The source reads them after the sleep, when other requests may have changed them.
- The periodic pruner: its `while True` loop, the 60-second sleep and the startup task. `PruneSweep` is one sweep at a given `now`.
- File I/O: the body of `log_abuse_to_file` beyond the file name, `clear_logs`, and `strftime` formatting.
- A failed incident write. main.py:123 writes the incident after main.py:122 has set the flag. If `open` fails, the flag stays set but the client gets a server error instead of the 403 that `HandleRequest` returns. One way to trigger this is an identity `a/b` arriving through the trusted proxy: `SafeIp` keeps `/`, so the write targets `a/b.log` in a subdirectory of the log directory that does not exist. The model always answers 403.
- IncidentLog.LogFileName: only the file name is modelled, not the path that `os.path.join` builds from it and the log directory. `SafeIp` does not replace `/`. A forwarded identity that starts with `/` therefore yields an absolute name, and `os.path.join` then discards the log directory. For example, a flagged `/tmp/x` is logged to `/tmp/x.log`.
- Floating point: `time.time()` doubles and the rounding of `statistics.variance`. The model uses exact reals, so results for variances within rounding distance of 0.05 may differ.
- The reason string `Bot-like regularity (Var: %.4f)`. The flag stores the exact variance (`Reason.BotRegularity`), not the formatted text.
- The web layer (FastAPI routing, JSON responses, static files, server startup). It maps to the `Decision`, `UnblockResult` and `Stats` datatypes. The browser scripts under static/ and the network test client verify_throttle.py are not part of this model.
- `request.client` being absent is not modelled. The peer address is always given.
- BotDetector.ConstantHasZeroVariance: only this direction is proved. The converse, that zero variance means equal intervals, is not stated, because it needs `d * d == 0 ==> d == 0` under a sum, which the solver's nonlinear real reasoning does not reach.
- Histories are not assumed to be sorted, because `time.time()` can run backwards. The lemmas that need order (`WithinSortedIsSuffix`, `PruneSortedKeepsFresh`, `LimitReachedStaysExceeded`) take sortedness as a hypothesis.
- Service.Throttle.ResumeWaiter: the ticket popped is the front one, as in the source. The model does not track which waiter owns which ticket.
- Service.Throttle.PruneSweep: it prunes a snapshot of the map and stores the result back once, rather than mutating each deque while iterating. The final state is the same, but the interleaving with concurrent requests is not modelled.
