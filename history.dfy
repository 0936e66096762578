/** Request histories: sequences of arrival times (seconds), oldest first.
    Each is a deque with a maximum length, read through time windows that
    slide with the current time, and trimmed by the periodic pruner. */
module History {

  /** `deque(maxlen=20)` per identity. */
  const IP_CAP: nat := 20
  /** `deque(maxlen=1000)` across all identities. */
  const GLOBAL_CAP: nat := 1000
  /** A request counts towards the rate limit while `now - t < 5`. */
  const RATE_LIMIT_WINDOW: real := 5.0
  /** More than this many in-window requests is rate limited. */
  const RATE_LIMIT_MAX: nat := 10
  /** The global statistics show the requests with `now - t < 30`. */
  const STATS_WINDOW: real := 30.0
  /** The pruner drops entries with `now - t > 60`. */
  const PRUNE_HORIZON: real := 60.0

  /** Non-decreasing times: what a history holds when the clock never
      runs backwards. */
  predicate Sorted(h: seq<real>) {
    forall i, j :: 0 <= i < j < |h| ==> h[i] <= h[j]
  }

  /** `deque.append(x)` on a deque with `maxlen` cap: the newest `cap`
      elements of `h + [x]`, so the oldest is dropped once the bound is
      reached and the order of the rest is kept. */
  function BoundedAppend(h: seq<real>, x: real, cap: nat): (r: seq<real>)
    requires 0 < cap && |h| <= cap
    ensures |r| == if |h| < cap then |h| + 1 else cap
    ensures r == (h + [x])[|h| + 1 - |r|..]
    ensures r[|r| - 1] == x
  {
    if |h| < cap then h + [x] else h[1..] + [x]
  }

  /** An append at a time no earlier than the last entry keeps a history
      sorted. */
  lemma BoundedAppendSorted(h: seq<real>, x: real, cap: nat)
    requires 0 < cap && |h| <= cap && Sorted(h)
    requires h != [] ==> h[|h| - 1] <= x
    ensures Sorted(BoundedAppend(h, x, cap))
  {
    var base := if |h| < cap then h else h[1..];
    assert BoundedAppend(h, x, cap) == base + [x];
    forall i, j | 0 <= i < j < |base| + 1 ensures (base + [x])[i] <= (base + [x])[j] {
      var d := |h| - |base|;
      assert (base + [x])[i] == h[d + i];
      if j < |base| {
        assert (base + [x])[j] == h[d + j];
      } else {
        assert h[d + i] <= h[|h| - 1];
      }
    }
  }

  /** `[t for t in h if now - t < span]`: the entries younger than `span`,
      each kept as often as it occurs and none added. */
  function Within(h: seq<real>, now: real, span: real): (r: seq<real>)
    ensures |r| <= |h|
    ensures forall i :: 0 <= i < |r| ==> now - r[i] < span
    ensures forall x :: multiset(r)[x] == if now - x < span then multiset(h)[x] else 0
  {
    if h == [] then []
    else
      assert h == [h[0]] + h[1..];
      (if now - h[0] < span then [h[0]] else []) + Within(h[1..], now, span)
  }

  /** The window of a concatenation is the concatenation of the windows. */
  lemma {:induction false} WithinConcat(a: seq<real>, b: seq<real>, now: real, span: real)
    ensures Within(a + b, now, span) == Within(a, now, span) + Within(b, now, span)
  {
    if a != [] {
      assert (a + b)[1..] == a[1..] + b;
      WithinConcat(a[1..], b, now, span);
    } else {
      assert a + b == b;
    }
  }

  /** When every entry is young enough, the window is the whole history. */
  lemma {:induction false} WithinAll(h: seq<real>, now: real, span: real)
    requires forall i :: 0 <= i < |h| ==> now - h[i] < span
    ensures Within(h, now, span) == h
  {
    if h != [] {
      WithinAll(h[1..], now, span);
    }
  }

  /** On a sorted history the window is a suffix: the newest entries. */
  lemma {:induction false} WithinSortedIsSuffix(h: seq<real>, now: real, span: real)
    requires Sorted(h)
    ensures Within(h, now, span) == h[|h| - |Within(h, now, span)|..]
  {
    if h != [] {
      WithinSortedIsSuffix(h[1..], now, span);
      if now - h[0] < span {
        WithinAll(h, now, span);
      }
    }
  }

  /** Recording a request at `now` never lowers the number of entries in a
      window ending at `now`, and raises it by one while the bound is not
      reached. */
  lemma WindowGrowsOnAppend(h: seq<real>, now: real, span: real, cap: nat)
    requires 0 < cap && |h| <= cap && 0.0 < span
    ensures |Within(BoundedAppend(h, now, cap), now, span)| >= |Within(h, now, span)|
    ensures |h| < cap ==> |Within(BoundedAppend(h, now, cap), now, span)| == |Within(h, now, span)| + 1
  {
    assert Within([now], now, span) == [now];
    if |h| < cap {
      WithinConcat(h, [now], now, span);
    } else {
      assert h == [h[0]] + h[1..];
      WithinConcat([h[0]], h[1..], now, span);
      WithinConcat(h[1..], [now], now, span);
    }
  }

  /** The rate-limit scenario: once a sorted history already holds
      `RATE_LIMIT_MAX` requests inside the window, the next request at `now`
      makes the in-window count exceed the limit, whatever the bound on the
      history does. */
  lemma LimitReachedStaysExceeded(h: seq<real>, now: real)
    requires |h| <= IP_CAP && Sorted(h)
    requires |Within(h, now, RATE_LIMIT_WINDOW)| >= RATE_LIMIT_MAX
    ensures |Within(BoundedAppend(h, now, IP_CAP), now, RATE_LIMIT_WINDOW)| > RATE_LIMIT_MAX
  {
    var r := BoundedAppend(h, now, IP_CAP);
    if |h| < IP_CAP {
      WindowGrowsOnAppend(h, now, RATE_LIMIT_WINDOW, IP_CAP);
    } else if now - h[0] < RATE_LIMIT_WINDOW {
      forall i | 0 <= i < |r| ensures now - r[i] < RATE_LIMIT_WINDOW {
        if i < |r| - 1 {
          assert r[i] == h[i + 1] && h[0] <= h[i + 1];
        }
      }
      WithinAll(r, now, RATE_LIMIT_WINDOW);
    } else {
      assert h == [h[0]] + h[1..];
      WithinConcat([h[0]], h[1..], now, RATE_LIMIT_WINDOW);
      WithinConcat(h[1..], [now], now, RATE_LIMIT_WINDOW);
      assert Within([now], now, RATE_LIMIT_WINDOW) == [now];
      assert Within([h[0]], now, RATE_LIMIT_WINDOW) == [];
    }
  }

  /** One pruning pass over a history: `while history and now - history[0]
      > 60: history.popleft()`. The result is the history without its
      longest prefix of stale entries; an entry exactly 60 seconds old
      stops the pass. */
  function Prune(h: seq<real>, now: real): (r: seq<real>)
    ensures |r| <= |h| && r == h[|h| - |r|..]
    ensures forall i :: 0 <= i < |h| - |r| ==> now - h[i] > PRUNE_HORIZON
    ensures r != [] ==> now - r[0] <= PRUNE_HORIZON
  {
    if h != [] && now - h[0] > PRUNE_HORIZON then Prune(h[1..], now) else h
  }

  /** Prune is determined by its contract: cutting any prefix of stale
      entries that stops at a fresh entry (or at the end) is pruning. */
  lemma {:induction false} PruneUnique(h: seq<real>, now: real, k: nat)
    requires k <= |h|
    requires forall i :: 0 <= i < k ==> now - h[i] > PRUNE_HORIZON
    requires k < |h| ==> now - h[k] <= PRUNE_HORIZON
    ensures Prune(h, now) == h[k..]
  {
    if k > 0 {
      PruneUnique(h[1..], now, k - 1);
      assert h[1..][k - 1..] == h[k..];
    }
  }

  /** A history is pruned to nothing exactly when every entry is stale. */
  lemma PruneEmptyIff(h: seq<real>, now: real)
    ensures Prune(h, now) == [] <==> forall i :: 0 <= i < |h| ==> now - h[i] > PRUNE_HORIZON
  {
    var r := Prune(h, now);
    if r != [] {
      assert r[0] == h[|h| - |r|];
    }
  }

  /** On a sorted history pruning keeps exactly the entries within the
      horizon. */
  lemma PruneSortedKeepsFresh(h: seq<real>, now: real)
    requires Sorted(h)
    ensures forall i :: 0 <= i < |Prune(h, now)| ==> now - Prune(h, now)[i] <= PRUNE_HORIZON
  {
    var r := Prune(h, now);
    var d := |h| - |r|;
    forall i | 0 <= i < |r| ensures now - r[i] <= PRUNE_HORIZON {
      assert r[0] == h[d] && r[i] == h[d + i];
      assert h[d] <= h[d + i];
    }
  }

  /** Pruning twice at the same time is pruning once. */
  lemma PruneIdempotent(h: seq<real>, now: real)
    ensures Prune(Prune(h, now), now) == Prune(h, now)
  {
  }

  /** What one sweep of the pruner leaves of the per-identity map: every
      history pruned, and the identities whose history became empty
      removed. */
  function PruneAll(m: map<string, seq<real>>, now: real): (r: map<string, seq<real>>)
    ensures r.Keys <= m.Keys
    ensures forall ip :: ip in r ==> r[ip] != [] && |r[ip]| <= |m[ip]|
  {
    map ip | ip in m && Prune(m[ip], now) != [] :: Prune(m[ip], now)
  }

  /** An identity survives the sweep exactly when its history holds an entry
      no older than the horizon; what survives is a suffix of what was
      there, and the bound on history length is kept. */
  lemma PruneAllSpec(m: map<string, seq<real>>, now: real, ip: string)
    requires ip in m
    ensures ip in PruneAll(m, now) <==> exists i :: 0 <= i < |m[ip]| && now - m[ip][i] <= PRUNE_HORIZON
    ensures ip in PruneAll(m, now) ==>
              PruneAll(m, now)[ip] == m[ip][|m[ip]| - |PruneAll(m, now)[ip]|..]
  {
    PruneEmptyIff(m[ip], now);
  }
}
