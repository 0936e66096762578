/** The request-admission pipeline: the process-wide stores (global and
    per-identity histories, flagged identities, concurrency slots and wait
    queue) and the operations that read and change them. */
module Service {
  import opened Wrappers
  import opened Identity
  import opened History
  import opened BotDetector

  /** Slots of the concurrency semaphore. */
  const MAX_ACTIVE: nat := 100
  /** Capacity of the wait queue. */
  const MAX_QUEUE: nat := 50

  /** Why a request was refused with 403. */
  datatype Reason =
    | BotRegularity(variance: real)  // the stored reason of a flagged identity
    | AbuseDetected                  // the answer to the request that trips the bot test

  /** An entry of the flagged registry: the interval variance that tripped
      the test, and when. */
  datatype FlagEntry = FlagEntry(variance: real, flaggedAt: real)

  /** What the request handler answers. */
  datatype Decision =
    | Blocked(reason: Reason)                        // 403
    | RateLimited                                    // 429
    | Processed(active: int, queue: int)             // 200, admitted at once
    | Waiting                                        // suspended in the wait queue
    | ProcessedAfterWaiting(active: int, queue: int) // 200, admitted after waiting
    | QueueFull                                      // 503

  datatype UnblockResult = Unblocked | NotFound      // 200 | 404

  datatype Stats = Stats(timestamps: seq<real>, activeRequests: int, queuedRequests: int, totalFlagged: int)

  /** `ip_history[ip]` of a defaultdict, without creating the entry. */
  function Lookup(m: map<string, seq<real>>, ip: string): seq<real> {
    if ip in m then m[ip] else []
  }

  class Throttle {
    /** `global_history`, `deque(maxlen=1000)`. */
    var globalHistory: seq<real>
    /** `ip_history`, identity to `deque(maxlen=20)`. */
    var ipHistory: map<string, seq<real>>
    /** `flagged_ips`. */
    var flagged: map<string, FlagEntry>
    /** The semaphore's free slots, `semaphore._value`. */
    var free: int
    /** The contents of `request_queue`, front first. */
    var queue: seq<real>

    ghost predicate Valid()
      reads this
    {
      && |globalHistory| <= GLOBAL_CAP
      && (forall ip :: ip in ipHistory ==> |ipHistory[ip]| <= IP_CAP)
      && 0 <= free <= MAX_ACTIVE
      && |queue| <= MAX_QUEUE
    }

    /** The stores as the process starts: empty, every slot free. */
    constructor ()
      ensures Valid()
      ensures globalHistory == [] && ipHistory == map[] && flagged == map[]
      ensures free == MAX_ACTIVE && queue == []
    {
      globalHistory := [];
      ipHistory := map[];
      flagged := map[];
      free := MAX_ACTIVE;
      queue := [];
    }

    /** The history of `ip` once a request at `now` is recorded. */
    ghost function Recorded(ip: string, now: real): seq<real>
      reads this`ipHistory
      requires |Lookup(ipHistory, ip)| <= IP_CAP
    {
      BoundedAppend(Lookup(ipHistory, ip), now, IP_CAP)
    }

    /** The requests of `ip` that the rate limit and the bot test look at. */
    ghost function Window(ip: string, now: real): seq<real>
      reads this`ipHistory
      requires |Lookup(ipHistory, ip)| <= IP_CAP
    {
      Within(Recorded(ip, now), now, RATE_LIMIT_WINDOW)
    }

    /** A request of `ip` at `now` passes every check before admission. */
    ghost predicate PassesChecks(ip: string, now: real)
      reads this`ipHistory, this`flagged
      requires |Lookup(ipHistory, ip)| <= IP_CAP
    {
      ip !in flagged && |Window(ip, now)| <= RATE_LIMIT_MAX && !IsBotLike(Window(ip, now))
    }

    /** `handle_request`: resolve the identity, then the checks in their
        fixed order, then admission. */
    method HandleRequest(peer: string, forwarded: Option<string>, now: real) returns (ip: string, d: Decision)
      requires Valid()
      modifies this
      ensures Valid()
      ensures ip == ClientIp(peer, forwarded, TRUSTED_PROXIES)
      // every request is counted globally, even a blocked one
      ensures globalHistory == BoundedAppend(old(globalHistory), now, GLOBAL_CAP)
      // a flagged identity is refused with its stored reason, nothing else changes
      ensures ip in old(flagged) ==>
                && d == Blocked(BotRegularity(old(flagged)[ip].variance))
                && ipHistory == old(ipHistory) && flagged == old(flagged)
                && free == old(free) && queue == old(queue)
      // any other request is recorded first, refused or not
      ensures ip !in old(flagged) ==> ipHistory == old(ipHistory)[ip := old(Recorded(ip, now))]
      // rate limit: more than RATE_LIMIT_MAX requests in the window
      ensures d == RateLimited <==> ip !in old(flagged) && |old(Window(ip, now))| > RATE_LIMIT_MAX
      // bot test: only on a request within the limit; it flags the identity
      ensures d == Blocked(AbuseDetected) <==>
                ip !in old(flagged) && |old(Window(ip, now))| <= RATE_LIMIT_MAX && IsBotLike(old(Window(ip, now)))
      ensures flagged == if d == Blocked(AbuseDetected)
                         then old(flagged)[ip := FlagEntry(IntervalVariance(Intervals(old(Window(ip, now)))), now)]
                         else old(flagged)
      // admission, for a request that passed every check
      ensures !old(PassesChecks(ip, now)) ==> free == old(free) && queue == old(queue)
      ensures old(PassesChecks(ip, now)) ==> AdmitStep(old(free), old(queue), now, d, free, queue)
    {
      ip := ClientIp(peer, forwarded, TRUSTED_PROXIES);
      ghost var passes := PassesChecks(ip, now);
      globalHistory := BoundedAppend(globalHistory, now, GLOBAL_CAP);
      var refusal := Screen(ip, now);
      if refusal.Some? {
        d := refusal.value;
      } else {
        assert passes;
        d := Admit(now);
      }
    }

    /** The checks of `handle_request` before admission: the flagged
        short-circuit, recording the request, the rate limit and the bot
        test. Gives the refusal, or None when the request may be admitted. */
    method Screen(ip: string, now: real) returns (refusal: Option<Decision>)
      requires Valid()
      modifies this`ipHistory, this`flagged
      ensures Valid()
      ensures refusal == None <==> old(PassesChecks(ip, now))
      ensures ip in old(flagged) ==>
                refusal == Some(Blocked(BotRegularity(old(flagged)[ip].variance))) && ipHistory == old(ipHistory)
      ensures ip !in old(flagged) ==> ipHistory == old(ipHistory)[ip := old(Recorded(ip, now))]
      ensures refusal == Some(RateLimited) <==> ip !in old(flagged) && |old(Window(ip, now))| > RATE_LIMIT_MAX
      ensures refusal == Some(Blocked(AbuseDetected)) <==>
                ip !in old(flagged) && |old(Window(ip, now))| <= RATE_LIMIT_MAX && IsBotLike(old(Window(ip, now)))
      ensures flagged == if refusal == Some(Blocked(AbuseDetected))
                         then old(flagged)[ip := FlagEntry(IntervalVariance(Intervals(old(Window(ip, now)))), now)]
                         else old(flagged)
    {
      if ip in flagged {
        return Some(Blocked(BotRegularity(flagged[ip].variance)));
      }
      ghost var window := Window(ip, now);
      var history := Record(ip, now);
      var recent := Within(history, now, RATE_LIMIT_WINDOW);
      assert recent == window;
      if |recent| > RATE_LIMIT_MAX {
        return Some(RateLimited);
      }
      if IsBotLike(recent) {
        Flag(ip, IntervalVariance(Intervals(recent)), now);
        return Some(Blocked(AbuseDetected));
      }
      return None;
    }

    /** `ip_history[ip].append(now)`: the bounded per-identity append, creating
        the entry when the identity is new. */
    method Record(ip: string, now: real) returns (history: seq<real>)
      requires Valid()
      modifies this`ipHistory
      ensures Valid()
      ensures history == old(Recorded(ip, now)) && ipHistory == old(ipHistory)[ip := history]
    {
      history := BoundedAppend(Lookup(ipHistory, ip), now, IP_CAP);
      ipHistory := ipHistory[ip := history];
    }

    /** `flagged_ips[ip] = {...}`: register (or re-register) a flag. */
    method Flag(ip: string, variance: real, now: real)
      requires Valid()
      modifies this`flagged
      ensures Valid()
      ensures flagged == old(flagged)[ip := FlagEntry(variance, now)]
    {
      flagged := flagged[ip := FlagEntry(variance, now)];
    }

    /** The admission step of `handle_request`, taken as one atomic step:
        take a free slot (held until FinishWork), or refuse when the queue
        is full, or join the queue and wait. */
    method Admit(now: real) returns (d: Decision)
      requires Valid()
      modifies this`free, this`queue
      ensures Valid()
      ensures AdmitStep(old(free), old(queue), now, d, free, queue)
    {
      if free > 0 {
        free := free - 1;
        d := Processed(MAX_ACTIVE - free, 0);
      } else if |queue| == MAX_QUEUE {
        d := QueueFull;
      } else {
        queue := queue + [now];
        d := Waiting;
      }
    }

    /** The end of the simulated work: the slot is released. Only a request
        that holds a slot calls it, so one is taken. */
    method FinishWork()
      requires Valid() && free < MAX_ACTIVE
      modifies this`free
      ensures Valid() && free == old(free) + 1
    {
      free := free + 1;
    }

    /** A suspended waiter resumes once a slot is free: it takes the slot and
        pops the FRONT ticket of the queue, which need not be its own. With no
        free slot (or no ticket) it stays suspended and nothing changes. */
    method ResumeWaiter() returns (d: Option<Decision>)
      requires Valid()
      modifies this`free, this`queue
      ensures Valid()
      ensures old(free) > 0 && old(queue) != [] ==>
                && free == old(free) - 1 && queue == old(queue)[1..]
                && d == Some(ProcessedAfterWaiting(MAX_ACTIVE - free, |queue|))
                && 1 <= d.value.active <= MAX_ACTIVE && d.value.queue < MAX_QUEUE
      ensures !(old(free) > 0 && old(queue) != []) ==>
                d == None && free == old(free) && queue == old(queue)
    {
      if free > 0 && queue != [] {
        free := free - 1;
        queue := queue[1..];
        d := Some(ProcessedAfterWaiting(MAX_ACTIVE - free, |queue|));
      } else {
        d := None;
      }
    }

    /** `unblock_ip`: drop the flag and empty the identity's history, or
        report NotFound and change nothing. */
    method Unblock(ip: string) returns (r: UnblockResult)
      requires Valid()
      modifies this`flagged, this`ipHistory
      ensures Valid()
      ensures r == Unblocked <==> ip in old(flagged)
      ensures r == Unblocked ==>
                && flagged == old(flagged) - {ip}
                && ipHistory == if ip in old(ipHistory) then old(ipHistory)[ip := []] else old(ipHistory)
      ensures r == NotFound ==> flagged == old(flagged) && ipHistory == old(ipHistory)
    {
      if ip in flagged {
        flagged := flagged - {ip};
        if ip in ipHistory {
          ipHistory := ipHistory[ip := []];
        }
        return Unblocked;
      }
      return NotFound;
    }

    /** One sweep of `prune_ip_history` at time `now`: every history loses
        its stale prefix, then the identities left with nothing are deleted. */
    method PruneSweep(now: real)
      requires Valid()
      modifies this`ipHistory
      ensures Valid()
      ensures ipHistory == PruneAll(old(ipHistory), now)
    {
      ipHistory := PruneHistories(ipHistory, now);
    }

    /** `get_global_stats`: the requests of the last 30 seconds and the
        admission counters. */
    function GlobalStats(now: real): (s: Stats)
      reads this
      requires Valid()
      ensures s.timestamps == Within(globalHistory, now, STATS_WINDOW)
      ensures forall i :: 0 <= i < |s.timestamps| ==> now - s.timestamps[i] < STATS_WINDOW
      ensures forall t :: multiset(s.timestamps)[t] ==
                if now - t < STATS_WINDOW then multiset(globalHistory)[t] else 0
      ensures s.activeRequests == MAX_ACTIVE - free && s.queuedRequests == |queue|
      ensures 0 <= s.activeRequests <= MAX_ACTIVE && 0 <= s.queuedRequests <= MAX_QUEUE
      ensures s.totalFlagged == |flagged|
    {
      Stats(Within(globalHistory, now, STATS_WINDOW), MAX_ACTIVE - free, |queue|, |flagged|)
    }

    /** `get_ip_stats`: the recorded history of `ip`, empty if there is none. */
    function HistoryOf(ip: string): (h: seq<real>)
      reads this
      requires Valid()
      ensures |h| <= IP_CAP
      ensures ip in ipHistory ==> h == ipHistory[ip]
      ensures ip !in ipHistory ==> h == []
    {
      Lookup(ipHistory, ip)
    }
  }

  /** The inner loop of the pruner, `while history and now - history[0] >
      60: history.popleft()`: drops the longest prefix of entries older than
      the horizon, so the result is empty or starts with an entry at most 60
      seconds old. */
  method DropStale(h: seq<real>, now: real) returns (r: seq<real>)
    ensures |r| <= |h| && r == h[|h| - |r|..]
    ensures forall i :: 0 <= i < |h| - |r| ==> now - h[i] > PRUNE_HORIZON
    ensures r != [] ==> now - r[0] <= PRUNE_HORIZON
    ensures r == Prune(h, now)
  {
    r := h;
    while r != [] && now - r[0] > PRUNE_HORIZON
      invariant |r| <= |h| && r == h[|h| - |r|..]
      invariant forall i :: 0 <= i < |h| - |r| ==> now - h[i] > PRUNE_HORIZON
      decreases |r|
    {
      r := r[1..];
    }
    PruneUnique(h, now, |h| - |r|);
  }

  /** Both passes of the sweep over the per-identity map. */
  method PruneHistories(m: map<string, seq<real>>, now: real) returns (r: map<string, seq<real>>)
    ensures r == PruneAll(m, now)
  {
    var pruned, emptied := PruneEach(m, now);
    r := DeleteAll(pruned, emptied);
    assert r.Keys == PruneAll(m, now).Keys;
  }

  /** The first pass of the sweep: every history loses its stale prefix,
      and `emptied` collects the identities left with nothing. */
  method PruneEach(m: map<string, seq<real>>, now: real)
    returns (pruned: map<string, seq<real>>, emptied: set<string>)
    ensures pruned.Keys == m.Keys
    ensures forall ip :: ip in pruned ==> pruned[ip] == Prune(m[ip], now)
    ensures forall ip :: ip in emptied <==> ip in m && Prune(m[ip], now) == []
  {
    pruned := m;
    emptied := {};
    var pending := m.Keys;
    while pending != {}
      invariant pending <= m.Keys && pruned.Keys == m.Keys
      invariant forall ip :: ip in pruned && ip !in pending ==> pruned[ip] == Prune(m[ip], now)
      invariant forall ip :: ip in emptied <==> ip in pruned && ip !in pending && pruned[ip] == []
      decreases pending
    {
      var ip :| ip in pending;
      var history := DropStale(m[ip], now);
      pruned := pruned[ip := history];
      if history == [] {
        emptied := emptied + {ip};
      }
      pending := pending - {ip};
    }
  }

  /** The second pass of the sweep: `del ip_history[ip]` for each collected
      identity. */
  method DeleteAll(m: map<string, seq<real>>, keys: set<string>) returns (r: map<string, seq<real>>)
    ensures r.Keys == m.Keys - keys
    ensures forall ip :: ip in r ==> r[ip] == m[ip]
  {
    r := m;
    var rest := keys;
    while rest != {}
      invariant rest <= keys
      invariant r.Keys == m.Keys - (keys - rest)
      invariant forall ip :: ip in r ==> r[ip] == m[ip]
      decreases rest
    {
      var ip :| ip in rest;
      r := r - {ip};
      rest := rest - {ip};
    }
  }

  /** One admission step from slots `free` and queue `queue`, giving `d`
      and the new slots and queue: a free slot is taken at once; with none,
      a full queue refuses; otherwise the request joins the back of the
      queue. The reported number of active requests is 1 to MAX_ACTIVE. */
  ghost predicate AdmitStep(free: int, queue: seq<real>, now: real, d: Decision, free': int, queue': seq<real>)
    ensures AdmitStep(free, queue, now, d, free', queue') && 0 <= free <= MAX_ACTIVE && |queue| <= MAX_QUEUE ==>
              && 0 <= free' <= MAX_ACTIVE && |queue'| <= MAX_QUEUE
              && (d.Processed? || d.QueueFull? || d.Waiting?)
              && (d.Processed? ==> 1 <= d.active <= MAX_ACTIVE && free' == free - 1 && queue' == queue)
              && (!d.Processed? ==> free' == free == 0)
  {
    if free > 0 then
      free' == free - 1 && queue' == queue && d == Processed(MAX_ACTIVE - free', 0)
    else if |queue| >= MAX_QUEUE then
      d == QueueFull && free' == free && queue' == queue
    else
      d == Waiting && free' == free && queue' == queue + [now]
  }

  function Min(a: int, b: int): int {
    if a <= b then a else b
  }

  /** `n` requests arrive together at an idle server and pass every check:
      MAX_ACTIVE are admitted at once, the next MAX_QUEUE wait, and the
      rest are refused with QueueFull (161 arrivals: 100, 50 and 11). */
  method Burst(n: nat) returns (processed: nat, waiting: nat, refused: nat)
    ensures processed == Min(n, MAX_ACTIVE)
    ensures waiting == Min(n - processed, MAX_QUEUE)
    ensures refused == n - processed - waiting
  {
    var t := new Throttle();
    processed, waiting, refused := 0, 0, 0;
    var i := 0;
    while i < n
      invariant 0 <= i <= n && t.Valid()
      invariant processed == Min(i, MAX_ACTIVE)
      invariant waiting == Min(i - processed, MAX_QUEUE)
      invariant refused == i - processed - waiting
      invariant t.free == MAX_ACTIVE - processed && |t.queue| == waiting
    {
      var d := t.Admit(0.0);
      if d.Processed? {
        processed := processed + 1;
      } else if d.Waiting? {
        waiting := waiting + 1;
      } else {
        refused := refused + 1;
      }
      i := i + 1;
    }
  }

  /** A request followed by an administrator's unblock of its identity: the
      unblock succeeds exactly when the request was refused with 403, and
      then the identity is no longer flagged and its history is empty. */
  method RequestThenUnblock(t: Throttle, peer: string, forwarded: Option<string>, now: real)
    returns (d: Decision, r: UnblockResult, h: seq<real>)
    requires t.Valid()
    modifies t
    ensures t.Valid()
    ensures r == Unblocked <==> d.Blocked?
    ensures d.Blocked? ==> h == [] && ClientIp(peer, forwarded, TRUSTED_PROXIES) !in t.flagged
  {
    var ip;
    ip, d := t.HandleRequest(peer, forwarded, now);
    r := t.Unblock(ip);
    h := t.HistoryOf(ip);
  }
}
