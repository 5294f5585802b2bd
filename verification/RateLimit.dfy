/**
 The fixed-window limiter: one Redis counter per client, method and route, whose
 first increment starts the window. The auth routes pass two limiters that share
 that counter.
 */
module RateLimit {
  import opened Wrappers

  type Millis = int

  /* ---------- The Lua script ---------- */

  /** expiresAt None: a key without a time to live. */
  datatype Counter = Counter(count: nat, expiresAt: Option<Millis>)

  type Slot = Option<Counter>

  function Aged(slot: Slot, now: Millis): Slot {
    if slot.Some? && slot.value.expiresAt.Some? && slot.value.expiresAt.value <= now then None else slot
  }

  /** The counter value that INCR returns. */
  function CountOf(slot: Slot, now: Millis): (n: nat)
    ensures n >= 1
  {
    var live := Aged(slot, now);
    if live.Some? then live.value.count + 1 else 1
  }

  /** The key after the script; PEXPIRE with no time left deletes it. */
  function After(slot: Slot, window: Millis, now: Millis): Slot {
    var live := Aged(slot, now);
    var count := CountOf(slot, now);
    if live.Some? && live.value.expiresAt.Some? && count != 1 then Some(Counter(count, live.value.expiresAt))
    else if window <= 0 then None
    else Some(Counter(count, Some(now + window)))
  }

  datatype Verdict = Verdict(allowed: bool, limit: int, remaining: int, resetAt: Millis)

  class RedisStore {
    var keys: map<string, Counter>

    constructor ()
      ensures keys == map[]
    {
      keys := map[];
    }

    function Slot(key: string): Slot
      reads this
    {
      if key in keys then Some(keys[key]) else None
    }

    /** INCR, PTTL, PEXPIRE as one script, then the comparison with the limit. */
    method Allow(key: string, limit: int, window: Millis, now: Millis) returns (v: Verdict)
      modifies this
      ensures Slot(key) == After(old(Slot(key)), window, now)
      ensures forall other :: other != key ==> Slot(other) == old(Slot(other))
      ensures v.limit == limit && (v.allowed <==> CountOf(old(Slot(key)), now) <= limit)
      ensures v.remaining == if v.allowed then limit - CountOf(old(Slot(key)), now) else 0
      ensures Slot(key).Some? ==> Slot(key).value.expiresAt == Some(v.resetAt)
    {
      if key in keys && keys[key].expiresAt.Some? && keys[key].expiresAt.value <= now { keys := keys - {key}; }
      var count: nat := 1;
      var ttl: int := -1;
      if key in keys {
        count := keys[key].count + 1;
        if keys[key].expiresAt.Some? { ttl := keys[key].expiresAt.value - now; }
        keys := keys[key := keys[key].(count := count)];
      } else {
        keys := keys[key := Counter(1, None)];
      }
      if count == 1 || ttl < 0 {
        if window <= 0 {
          keys := keys - {key};
        } else {
          keys := keys[key := Counter(count, Some(now + window))];
        }
        ttl := window;
      }
      var remaining := limit - count;
      if remaining < 0 { remaining := 0; }
      return Verdict(count <= limit, limit, remaining, now + ttl);
    }
  }

  /* ---------- The middleware ---------- */

  datatype Config = Config(limit: int, window: Millis, failClosed: bool, unmatchedKey: string)

  datatype Decision = Next | TooManyRequests | Unavailable

  function RouteKey(clientIp: string, httpMethod: string, route: string, cfg: Config): string {
    "ratelimit:" + clientIp + ":" + httpMethod + ":" + Segment(route, cfg)
  }

  ghost predicate Without(s: string, c: char) {
    c !in s
  }

  /** An address, a method and a route as the router hands them over: only a route has slashes, and starts with one. */
  ghost predicate Plain(clientIp: string, httpMethod: string, route: string) {
    && Without(clientIp, '/')
    && Without(httpMethod, '/') && Without(httpMethod, ':')
    && (route == "" || route[0] == '/')
  }

  /** Two requests count on one key exactly if client, method and matched route are the same, though an IPv6 address
      and a route may hold colons of their own; all unmatched paths of a client and method count as one. */
  lemma KeysTellApart(ipA: string, methodA: string, routeA: string, ipB: string, methodB: string, routeB: string, cfg: Config)
    requires Plain(ipA, methodA, routeA) && Plain(ipB, methodB, routeB)
    requires Without(cfg.unmatchedKey, '/') && Without(cfg.unmatchedKey, ':')
    ensures RouteKey(ipA, methodA, routeA, cfg) == RouteKey(ipB, methodB, routeB, cfg)
            <==> ipA == ipB && methodA == methodB && routeA == routeB
  {
    var keyA, keyB := RouteKey(ipA, methodA, routeA, cfg), RouteKey(ipB, methodB, routeB, cfg);
    var prefix := "ratelimit:";
    if keyA == keyB {
      var segA, segB := Segment(routeA, cfg), Segment(routeB, cfg);
      var frontA, frontB := prefix + ipA + ":" + methodA + ":", prefix + ipB + ":" + methodB + ":";
      assert keyA == frontA + segA && keyB == frontB + segB;
      assert Without(frontA, '/') && Without(frontB, '/');
      assert '/' in segA <==> '/' in keyA;
      assert '/' in segB <==> '/' in keyB;
      if '/' in segA {
        SplitFirst(frontA, segA, frontB, segB, '/');
      } else {
        SplitLast(frontA[..|frontA| - 1], segA, frontB[..|frontB| - 1], segB);
        assert frontA == frontB;
      }
      assert segA == segB && frontA == frontB;
      assert prefix + ipA + ":" + methodA == frontA[..|frontA| - 1] && prefix + ipB + ":" + methodB == frontB[..|frontB| - 1];
      SplitLast(prefix + ipA, methodA, prefix + ipB, methodB);
      assert ipA == (prefix + ipA)[|prefix|..] && ipB == (prefix + ipB)[|prefix|..];
    }
  }

  function Segment(route: string, cfg: Config): string {
    if route != "" then route else if cfg.unmatchedKey != "" then cfg.unmatchedKey else "unmatched"
  }

  /** Texts that begin with a character which the texts in front of them lack. */
  lemma SplitFirst(a: string, restA: string, b: string, restB: string, c: char)
    requires a + restA == b + restB
    requires Without(a, c) && Without(b, c) && restA != "" && restB != "" && restA[0] == c && restB[0] == c
    ensures a == b && restA == restB
  {
    var whole := a + restA;
    assert whole[|a|] == c && whole[|b|] == c;
    assert forall k :: 0 <= k < |a| ==> whole[k] == a[k];
    assert forall k :: 0 <= k < |b| ==> whole[k] == b[k];
    assert a == (a + restA)[..|a|] && b == (b + restB)[..|b|];
    assert restA == (a + restA)[|a|..] && restB == (b + restB)[|b|..];
  }

  /** Texts without a colon behind the last colon. */
  lemma SplitLast(a: string, lastA: string, b: string, lastB: string)
    requires a + ":" + lastA == b + ":" + lastB && Without(lastA, ':') && Without(lastB, ':')
    ensures a == b && lastA == lastB
  {
    var whole := a + ":" + lastA;
    assert whole == b + ":" + lastB;
    assert whole[|a|] == ':' && whole[|b|] == ':';
    assert forall k :: |a| < k < |whole| ==> whole[k] == lastA[k - |a| - 1];
    assert forall k :: |b| < k < |whole| ==> whole[k] == lastB[k - |b| - 1];
    assert a == whole[..|a|] && b == whole[..|b|];
    assert lastA == whole[|a| + 1..] && lastB == whole[|b| + 1..];
  }

  /** down: the store cannot be reached. */
  method Handle(store: RedisStore, cfg: Config, clientIp: string, httpMethod: string, route: string, now: Millis, down: bool)
    returns (d: Decision)
    modifies store
    ensures down ==> store.keys == old(store.keys) && d == if cfg.failClosed then Unavailable else Next
    ensures var key := RouteKey(clientIp, httpMethod, route, cfg);
            !down ==> && store.Slot(key) == After(old(store.Slot(key)), cfg.window, now)
                      && d == if CountOf(old(store.Slot(key)), now) <= cfg.limit then Next else TooManyRequests
  {
    if down {
      if cfg.failClosed { return Unavailable; }
      return Next;
    }
    var verdict := store.Allow(RouteKey(clientIp, httpMethod, route, cfg), cfg.limit, cfg.window, now);
    if !verdict.allowed { return TooManyRequests; }
    return Next;
  }

  /* ---------- One limiter over time ---------- */

  /** The requests of one key: request i comes at times[i] and finds slots[i]. */
  datatype Run = Run(window: Millis, times: seq<Millis>, slots: seq<Slot>)
  {
    ghost predicate StepAt(i: nat)
      requires i < |times| < |slots|
    {
      slots[i + 1] == After(slots[i], window, times[i]) && (i > 0 ==> times[i - 1] <= times[i])
    }

    ghost predicate Valid() {
      && window >= 1
      && |slots| == |times| + 1
      && slots[0] == None
      && forall i :: 0 <= i < |times| ==> StepAt(i)
    }

    /** The counter value of request i. */
    function Count(i: nat): nat
      requires i < |times| < |slots|
    {
      CountOf(slots[i], times[i])
    }

    /** When the window of request i ends. */
    ghost function End(i: nat): Millis
      requires Valid() && i < |times|
    {
      KeyExpires(this, i);
      slots[i + 1].value.expiresAt.value
    }
  }

  /** Every key carries an expiry, at most one window away. */
  lemma KeyExpires(run: Run, i: nat)
    requires run.Valid() && i < |run.times|
    ensures run.slots[i + 1].Some? && run.slots[i + 1].value.count == run.Count(i) && run.slots[i + 1].value.expiresAt.Some?
    ensures run.times[i] < run.slots[i + 1].value.expiresAt.value <= run.times[i] + run.window
  {
    assert run.StepAt(i);
    if i > 0 { KeyExpires(run, i - 1); }
  }

  /** A request either opens a window or is the next one of the running window. */
  lemma OpensOrContinues(run: Run, i: nat)
    requires run.Valid() && i < |run.times|
    ensures run.Count(i) == 1 ==> run.End(i) == run.times[i] + run.window
    ensures run.Count(i) != 1 ==> i > 0 && run.Count(i) == run.Count(i - 1) + 1 && run.End(i) == run.End(i - 1)
    ensures i > 0 && run.Count(i) == 1 ==> run.End(i - 1) <= run.times[i]
  {
    assert run.StepAt(i);
    if i > 0 { KeyExpires(run, i - 1); }
  }

  lemma {:induction false} TimesGrow(run: Run, i: nat, j: nat)
    requires run.Valid() && i <= j < |run.times|
    ensures run.times[i] <= run.times[j]
    decreases j
  {
    if i < j {
      TimesGrow(run, i, j - 1);
      assert run.StepAt(j);
    }
  }

  function Admitted(run: Run, limit: nat, i: nat, j: nat): nat
    requires i <= j <= |run.times| < |run.slots|
    decreases j
  {
    if i == j then 0 else Admitted(run, limit, i, j - 1) + (if run.Count(j - 1) <= limit then 1 else 0)
  }

  function Min(a: int, b: int): int {
    if a < b then a else b
  }

  /** No request between i and j opens a window. */
  ghost predicate NoOpening(run: Run, i: nat, j: nat)
    requires j <= |run.times| < |run.slots|
  {
    forall k :: i < k < j ==> run.Count(k) != 1
  }

  /** Within one window the counter numbers the requests. */
  lemma {:induction false} Numbered(run: Run, i: nat, j: nat)
    requires run.Valid() && i <= j < |run.times| && NoOpening(run, i, j + 1)
    ensures run.Count(j) == run.Count(i) + (j - i) && run.End(j) == run.End(i)
    decreases j
  {
    if i < j {
      Numbered(run, i, j - 1);
      OpensOrContinues(run, j);
    }
  }

  lemma {:induction false} AdmittedInWindow(run: Run, limit: nat, i: nat, j: nat)
    requires run.Valid() && i < j <= |run.times| && NoOpening(run, i, j)
    ensures Admitted(run, limit, i, j) == Min(j - i, if limit < run.Count(i) then 0 else limit - run.Count(i) + 1)
    decreases j
  {
    if i + 1 < j { AdmittedInWindow(run, limit, i, j - 1); }
    Numbered(run, i, j - 1);
  }

  /** A window of n requests admits exactly the first min(n, L). */
  lemma WindowAdmits(run: Run, limit: nat, i: nat, j: nat)
    requires run.Valid() && i < j <= |run.times|
    requires run.Count(i) == 1 && NoOpening(run, i, j)
    ensures Admitted(run, limit, i, j) == Min(j - i, limit)
    ensures forall k :: i <= k < j ==> (run.Count(k) <= limit <==> k - i < limit)
    ensures forall k :: i <= k < j ==> run.times[k] < run.times[i] + run.window
  {
    AdmittedInWindow(run, limit, i, j);
    OpensOrContinues(run, i);
    forall k | i <= k < j ensures run.Count(k) == k - i + 1 && run.times[k] < run.times[i] + run.window {
      Numbered(run, i, k);
      KeyExpires(run, k);
    }
  }

  lemma {:induction false} AdmittedSplits(run: Run, limit: nat, i: nat, m: nat, j: nat)
    requires i <= m <= j <= |run.times| < |run.slots|
    ensures Admitted(run, limit, i, j) == Admitted(run, limit, i, m) + Admitted(run, limit, m, j)
    decreases j
  {
    if m < j { AdmittedSplits(run, limit, i, m, j - 1); }
  }

  lemma {:induction false} FirstOpening(run: Run, i: nat, j: nat) returns (m: nat)
    requires run.Valid() && i < j <= |run.times|
    ensures i < m <= j && NoOpening(run, i, m) && (m < j ==> run.Count(m) == 1)
    decreases j
  {
    m := i + 1;
    while m < j && run.Count(m) != 1
      invariant i < m <= j && NoOpening(run, i, m)
    {
      m := m + 1;
    }
  }

  /** Any stretch of time as long as the window admits at most 2L - 1 requests, across at most two windows. */
  lemma AnyStretchAdmits(run: Run, limit: nat, i: nat, j: nat, from: Millis)
    requires run.Valid() && i <= j <= |run.times| && limit >= 1
    requires forall k :: i <= k < j ==> from <= run.times[k] < from + run.window
    ensures Admitted(run, limit, i, j) <= 2 * limit - 1
  {
    if i < j {
      var m := FirstOpening(run, i, j);
      AdmittedInWindow(run, limit, i, m);
      AdmittedSplits(run, limit, i, m, j);
      if m < j {
        NothingOpensAfter(run, m, j, from);
        AdmittedInWindow(run, limit, m, j);
        if run.Count(i) == 1 { NothingOpensAfter(run, i, j, from); }
      }
    }
  }

  /** A window that opens inside the stretch outlasts it. */
  lemma NothingOpensAfter(run: Run, m: nat, j: nat, from: Millis)
    requires run.Valid() && m < j <= |run.times| && run.Count(m) == 1
    requires forall k :: m <= k < j ==> from <= run.times[k] < from + run.window
    ensures NoOpening(run, m, j)
  {
    var n := FirstOpening(run, m, j);
    OpensOrContinues(run, m);
    if n < j {
      Numbered(run, m, n - 1);
      OpensOrContinues(run, n);
      assert false;
    }
  }

  /** L - 1 requests at the end of one window and L at the start of the next. */
  function Burst(limit: nat, window: Millis): Run
    requires limit >= 1
  {
    var times := seq(2 * limit, i requires 0 <= i < 2 * limit => if i == 0 then 0 else if i < limit then window - 1 else window);
    var slots := seq(2 * limit + 1, i requires 0 <= i <= 2 * limit =>
      if i == 0 then None
      else if i <= limit then Some(Counter(i, Some(window)))
      else Some(Counter(i - limit, Some(2 * window))));
    Run(window, times, slots)
  }

  lemma BurstStep(limit: nat, window: Millis, i: nat)
    requires limit >= 1 && window >= 2 && i < 2 * limit
    ensures Burst(limit, window).StepAt(i) && Burst(limit, window).Count(i) == (if i < limit then i + 1 else i - limit + 1)
    ensures i >= 1 ==> window - 1 <= Burst(limit, window).times[i] <= window
  {
  }

  /** The bound is reached for every limit and every window of at least two milliseconds. */
  lemma StretchBoundIsReached(limit: nat, window: Millis)
    requires limit >= 1 && window >= 2
    ensures var run := Burst(limit, window);
            && run.Valid()
            && (forall k :: 1 <= k < 2 * limit ==> window - 1 <= run.times[k] < (window - 1) + window)
            && Admitted(run, limit, 1, 2 * limit) == 2 * limit - 1
  {
    hide Run.StepAt, CountOf, After;
    var run := Burst(limit, window);
    forall i | 0 <= i < 2 * limit ensures run.StepAt(i) && run.Count(i) <= limit && (i >= 1 ==> window - 1 <= run.times[i] <= window) {
      BurstStep(limit, window, i);
    }
    AllAdmitted(run, limit, 1, 2 * limit);
  }

  lemma {:induction false} AllAdmitted(run: Run, limit: nat, i: nat, j: nat)
    requires i <= j <= |run.times| < |run.slots| && forall k :: i <= k < j ==> run.Count(k) <= limit
    ensures Admitted(run, limit, i, j) == j - i
    decreases j
  {
    if i < j { AllAdmitted(run, limit, i, j - 1); }
  }

  /** A window shorter than a millisecond limits nothing: the script deletes the key it has just set,
      so every request is the first one. */
  lemma {:induction false} NoWindowNoLimit(window: Millis, times: seq<Millis>, slots: seq<Slot>, i: nat)
    requires window <= 0 && |slots| == |times| + 1 && slots[0] == None
    requires forall k :: 0 <= k < |times| ==> slots[k + 1] == After(slots[k], window, times[k])
    requires i < |times|
    ensures CountOf(slots[i], times[i]) == 1 && slots[i + 1] == None
  {
    if i > 0 { NoWindowNoLimit(window, times, slots, i - 1); }
  }

  /* ---------- Two limiters on one counter ---------- */

  /** Requests to an auth route, handled one at a time: request i meets the global limiter at globalAt[i] and, if
      that lets it pass, the auth limiter at authAt[i], before request i + 1 comes. */
  datatype AuthRun = AuthRun(globalLimit: nat, globalWindow: Millis, authLimit: nat, authWindow: Millis,
                             globalAt: seq<Millis>, authAt: seq<Millis>, slots: seq<Slot>)
  {
    ghost predicate StepAt(i: nat)
      requires i < |globalAt| == |authAt| < |slots|
    {
      var between := After(slots[i], globalWindow, globalAt[i]);
      slots[i + 1] == if PassesGlobal(i) then After(between, authWindow, authAt[i]) else between
    }

    predicate PassesGlobal(i: nat)
      requires i < |globalAt| < |slots|
    {
      CountOf(slots[i], globalAt[i]) <= globalLimit
    }

    predicate Accepted(i: nat)
      requires i < |globalAt| == |authAt| < |slots|
    {
      PassesGlobal(i) && CountOf(After(slots[i], globalWindow, globalAt[i]), authAt[i]) <= authLimit
    }

    /** All requests fall into the lifetime of the key that the first one creates. */
    ghost predicate Valid() {
      && globalWindow >= 1
      && |globalAt| == |authAt| && |slots| == |globalAt| + 1
      && slots[0] == None
      && (forall i :: 0 <= i < |globalAt| ==>
            globalAt[0] <= globalAt[i] <= authAt[i] < globalAt[0] + globalWindow && StepAt(i))
    }
  }

  function AcceptedCount(run: AuthRun, n: nat): nat
    requires n <= |run.globalAt| == |run.authAt| < |run.slots|
  {
    if n == 0 then 0 else AcceptedCount(run, n - 1) + (if run.Accepted(n - 1) then 1 else 0)
  }

  /** Counter value after n requests: two per request until the global limiter refuses, then one. */
  function SharedCount(globalLimit: nat, n: nat): nat {
    var passed := Min(n, (globalLimit + 1) / 2);
    2 * passed + (n - passed)
  }

  /** One request that finds the shared counter at this value. */
  lemma AuthStep(run: AuthRun, i: nat)
    requires run.Valid() && i < |run.globalAt|
    requires i > 0 ==> run.slots[i] == Some(Counter(SharedCount(run.globalLimit, i), Some(run.globalAt[0] + run.globalWindow)))
    ensures var count := SharedCount(run.globalLimit, i);
            && run.slots[i + 1] == Some(Counter(if count < run.globalLimit then count + 2 else count + 1, Some(run.globalAt[0] + run.globalWindow)))
            && (run.Accepted(i) <==> count < run.globalLimit && count + 2 <= run.authLimit)
  {
    hide SharedCount;
    EachIsCounted(run.globalLimit, i);
    assert run.StepAt(i);
    assert run.globalAt[0] <= run.globalAt[i] <= run.authAt[i] < run.globalAt[0] + run.globalWindow;
    var count := SharedCount(run.globalLimit, i);
    assert CountOf(run.slots[i], run.globalAt[i]) == count + 1;
    assert After(run.slots[i], run.globalWindow, run.globalAt[i]) == Some(Counter(count + 1, Some(run.globalAt[0] + run.globalWindow)));
  }

  lemma EachIsCounted(globalLimit: nat, n: nat)
    ensures n == 0 ==> SharedCount(globalLimit, n) == 0
    ensures SharedCount(globalLimit, n) >= n
  {
  }

  /** Twice the requests so far while they all pass; the global limiter lets the next one pass if that is below its limit. */
  lemma NextCount(globalLimit: nat, n: nat)
    ensures var count := SharedCount(globalLimit, n);
            && SharedCount(globalLimit, n + 1) == (if count < globalLimit then count + 2 else count + 1)
            && (count < globalLimit <==> n < (globalLimit + 1) / 2)
            && (count < globalLimit ==> count == 2 * n)
  {
  }

  lemma AcceptedIff(run: AuthRun, i: nat)
    requires run.Valid() && i < |run.globalAt|
    requires i > 0 ==> run.slots[i] == Some(Counter(SharedCount(run.globalLimit, i), Some(run.globalAt[0] + run.globalWindow)))
    ensures run.slots[i + 1] == Some(Counter(SharedCount(run.globalLimit, i + 1), Some(run.globalAt[0] + run.globalWindow)))
    ensures run.Accepted(i) <==> i < run.authLimit / 2 && i < (run.globalLimit + 1) / 2
  {
    hide SharedCount, CountOf, After, AuthRun.Accepted, AuthRun.StepAt, AuthRun.PassesGlobal;
    AuthStep(run, i);
    NextCount(run.globalLimit, i);
  }

  lemma OneMoreAccepted(a: nat, g: nat, n: nat)
    ensures Min(n + 1, Min(a, g)) == Min(n, Min(a, g)) + (if n < a && n < g then 1 else 0)
  {
  }

  /** Of n requests that do not overlap, in one lifetime of the key, an auth route accepts min(n, floor(A/2), floor((G+1)/2)),
      and that lifetime is the global limiter's window, whatever the auth window says. */
  lemma {:induction false} AuthAccepts(run: AuthRun, n: nat)
    requires run.Valid() && n <= |run.globalAt|
    ensures AcceptedCount(run, n) == Min(n, Min(run.authLimit / 2, (run.globalLimit + 1) / 2))
    ensures n > 0 ==> run.slots[n] == Some(Counter(SharedCount(run.globalLimit, n), Some(run.globalAt[0] + run.globalWindow)))
  {
    if n > 0 {
      hide SharedCount, CountOf, After, AuthRun.Accepted, AuthRun.StepAt, AuthRun.PassesGlobal, AuthRun.Valid, Min;
      AuthAccepts(run, n - 1);
      AcceptedIff(run, n - 1);
      OneMoreAccepted(run.authLimit / 2, (run.globalLimit + 1) / 2, n - 1);
    }
  }

  /* ---------- Overlapping requests ---------- */

  /** One run of the script: a request at the global or at the auth limiter. */
  datatype Visit = Visit(request: nat, auth: bool)

  /** Any interleaving of requests to an auth route within one lifetime of the key. */
  datatype MixedRun = MixedRun(globalLimit: nat, globalWindow: Millis, authLimit: nat, authWindow: Millis,
                               visits: seq<Visit>, times: seq<Millis>, slots: seq<Slot>)
  {
    ghost predicate StepAt(i: nat)
      requires i < |visits| == |times| < |slots|
    {
      && times[0] <= times[i] < times[0] + globalWindow
      && slots[i + 1] == After(slots[i], if visits[i].auth then authWindow else globalWindow, times[i])
    }

    function Count(i: nat): nat
      requires i < |times| < |slots|
    {
      CountOf(slots[i], times[i])
    }

    /** Visit j let the request of visit i pass the global limiter before. */
    predicate Admits(j: nat, i: nat)
      requires i < |visits| == |times| < |slots|
    {
      j < i && visits[j] == Visit(visits[i].request, false) && Count(j) <= globalLimit
    }

    ghost predicate Valid() {
      && globalWindow >= 1
      && |slots| == |times| + 1 == |visits| + 1
      && slots[0] == None
      && (|visits| > 0 ==> !visits[0].auth)
      && (forall i :: 0 <= i < |visits| ==> StepAt(i))
      && (forall i, j :: 0 <= i < j < |visits| ==> visits[i] != visits[j])
      && (forall i :: 0 <= i < |visits| && visits[i].auth ==> exists j :: Admits(j, i))
    }

    /** The visits at which the auth limiter accepts. */
    function Accepted(): set<nat>
      requires |visits| == |times| < |slots|
    {
      set i: nat | i < |visits| && visits[i].auth && Count(i) <= authLimit
    }

    function Requests(): set<nat> {
      set i: nat | i < |visits| :: visits[i].request
    }
  }

  /** The one counter numbers the visits, whichever limiter they belong to. */
  lemma {:induction false} CountsVisits(run: MixedRun, i: nat)
    requires run.Valid() && i < |run.visits|
    ensures run.Count(i) == i + 1
    ensures run.slots[i + 1] == Some(Counter(i + 1, Some(run.times[0] + run.globalWindow)))
  {
    assert run.StepAt(i);
    if i > 0 { CountsVisits(run, i - 1); }
  }

  function Range(a: nat, b: nat): (r: set<nat>)
    requires a <= b
    ensures |r| == b - a && forall i :: i in r <==> a <= i < b
    decreases b
  {
    if a == b then {} else Range(a, b - 1) + {b - 1}
  }

  lemma AtMost(s: set<nat>, n: nat)
    requires forall i :: i in s ==> i < n
    ensures |s| <= n
  {
    SmallerSet(s, Range(0, n));
  }

  lemma {:induction false} InjectiveSize(m: map<nat, nat>)
    requires forall x, y :: x in m && y in m && x != y ==> m[x] != m[y]
    ensures |m.Values| == |m.Keys|
    decreases |m.Keys|
  {
    if m.Keys != {} {
      var x :| x in m.Keys;
      var rest := m - {x};
      assert rest.Keys == m.Keys - {x};
      InjectiveSize(rest);
      assert m.Values == rest.Values + {m[x]} by {
        forall v ensures v in m.Values <==> v in rest.Values + {m[x]} {
          if v in m.Values {
            var y :| y in m && m[y] == v;
            assert y != x ==> y in rest && rest[y] == v;
          }
          if v in rest.Values {
            var y :| y in rest && rest[y] == v;
            assert m[y] == v;
          }
        }
      }
    } else {
      assert m.Values == {};
    }
  }

  lemma SmallerSet(a: set<nat>, b: set<nat>)
    requires a <= b
    ensures |a| <= |b|
  {
    assert b == a + (b - a);
  }

  ghost function AdmittedAt(run: MixedRun, i: nat): (j: nat)
    requires run.Valid() && i in run.Accepted()
    ensures run.Admits(j, i)
  {
    var j: nat :| run.Admits(j, i);
    j
  }

  lemma AdmittedBelow(run: MixedRun, i: nat)
    requires run.Valid() && i in run.Accepted()
    ensures AdmittedAt(run, i) < run.globalLimit && AdmittedAt(run, i) < i < run.authLimit
    ensures AdmittedAt(run, i) !in run.Accepted() && run.visits[AdmittedAt(run, i)] == Visit(run.visits[i].request, false)
  {
    hide CountOf, After;
    CountsVisits(run, i);
    CountsVisits(run, AdmittedAt(run, i));
  }

  /** The visit at which each accepted request passed the global limiter. */
  lemma Admissions(run: MixedRun) returns (before: map<nat, nat>)
    requires run.Valid()
    ensures before.Keys == run.Accepted()
    ensures forall i :: i in before ==> before[i] < run.globalLimit && before[i] < i < run.authLimit && before[i] !in run.Accepted()
    ensures forall i, j :: i in before && j in before && i != j ==> before[i] != before[j]
  {
    hide CountOf, After;
    before := map i | i in run.Accepted() :: AdmittedAt(run, i);
    forall i | i in before
      ensures before[i] < run.globalLimit && before[i] < i < run.authLimit && before[i] !in run.Accepted()
      ensures run.visits[before[i]] == Visit(run.visits[i].request, false)
    {
      AdmittedBelow(run, i);
    }
    forall i, j | i in before && j in before && i < j ensures before[i] != before[j] {
      assert run.visits[i] != run.visits[j];
    }
  }

  /** Each request is accepted at one visit at most. */
  lemma OnePerRequest(run: MixedRun)
    requires run.Valid()
    ensures |run.Accepted()| <= |run.Requests()|
  {
    hide CountOf, After;
    var accepted := run.Accepted();
    var requests := map i | i in accepted :: run.visits[i].request;
    forall i, j | i in accepted && j in accepted && i < j ensures requests[i] != requests[j] {
      assert run.visits[i] != run.visits[j];
    }
    InjectiveSize(requests);
    assert requests.Keys == accepted;
    SmallerSet(requests.Values, run.Requests());
  }

  /** An accepted request used up two counter values, the first of them within the global limit and both within the
      auth limit. */
  lemma TwoPerAccepted(accepted: set<nat>, before: map<nat, nat>, globalLimit: nat, authLimit: nat)
    requires before.Keys == accepted
    requires forall i :: i in before ==> before[i] < globalLimit && before[i] < i < authLimit && before[i] !in accepted
    requires forall i, j :: i in before && j in before && i != j ==> before[i] != before[j]
    ensures |accepted| <= globalLimit && |accepted| <= authLimit / 2
  {
    InjectiveSize(before);
    assert before.Values !! accepted;
    assert |before.Values + accepted| == 2 * |accepted|;
    AtMost(before.Values, globalLimit);
    AtMost(before.Values + accepted, authLimit);
  }

  /** However the requests overlap: the auth route accepts at most one visit per request, at most G, and at most
      floor(A / 2). */
  lemma OverlappingAccepts(run: MixedRun)
    requires run.Valid()
    ensures |run.Accepted()| <= |run.Requests()|
    ensures |run.Accepted()| <= run.globalLimit
    ensures |run.Accepted()| <= run.authLimit / 2
  {
    OnePerRequest(run);
    var before := Admissions(run);
    TwoPerAccepted(run.Accepted(), before, run.globalLimit, run.authLimit);
  }

  /** n requests that all pass the global limiter before any of them reaches the auth limiter. */
  function GlobalsFirst(n: nat, globalLimit: nat, globalWindow: Millis, authLimit: nat, authWindow: Millis): MixedRun {
    MixedRun(globalLimit, globalWindow, authLimit, authWindow,
             seq(2 * n, i requires 0 <= i < 2 * n => if i < n then Visit(i, false) else Visit(i - n, true)),
             seq(2 * n, i => 0),
             seq(2 * n + 1, i requires 0 <= i <= 2 * n => if i == 0 then None else Some(Counter(i, Some(globalWindow)))))
  }

  lemma GlobalsFirstStep(n: nat, globalLimit: nat, globalWindow: Millis, authLimit: nat, authWindow: Millis, i: nat)
    requires globalWindow >= 1 && i < 2 * n
    ensures var run := GlobalsFirst(n, globalLimit, globalWindow, authLimit, authWindow);
            run.StepAt(i) && run.Count(i) == i + 1 && run.visits[i] == (if i < n then Visit(i, false) else Visit(i - n, true))
  {
  }

  lemma GlobalsFirstValid(n: nat, globalLimit: nat, globalWindow: Millis, authLimit: nat, authWindow: Millis)
    requires n <= globalLimit && globalWindow >= 1
    ensures GlobalsFirst(n, globalLimit, globalWindow, authLimit, authWindow).Valid()
  {
    hide CountOf, After, MixedRun.StepAt, MixedRun.Count;
    var run := GlobalsFirst(n, globalLimit, globalWindow, authLimit, authWindow);
    forall i | 0 <= i < 2 * n ensures run.StepAt(i) && run.Count(i) == i + 1 {
      GlobalsFirstStep(n, globalLimit, globalWindow, authLimit, authWindow, i);
    }
    forall i | 0 <= i < 2 * n && run.visits[i].auth ensures exists j :: run.Admits(j, i) {
      assert run.Admits(i - n, i);
    }
  }

  lemma GlobalsFirstAccepts(n: nat, globalLimit: nat, globalWindow: Millis, authLimit: nat, authWindow: Millis)
    requires n <= globalLimit && globalWindow >= 1
    ensures var run := GlobalsFirst(n, globalLimit, globalWindow, authLimit, authWindow);
            && run.Valid() && |run.Requests()| == n
            && |run.Accepted()| == if authLimit <= n then 0 else Min(n, authLimit - n)
  {
    GlobalsFirstValid(n, globalLimit, globalWindow, authLimit, authWindow);
    hide CountOf, After, MixedRun.StepAt, MixedRun.Count, MixedRun.Valid;
    var run := GlobalsFirst(n, globalLimit, globalWindow, authLimit, authWindow);
    forall i | 0 <= i < 2 * n ensures run.Count(i) == i + 1 {
      GlobalsFirstStep(n, globalLimit, globalWindow, authLimit, authWindow, i);
    }
    assert run.Requests() == Range(0, n) by {
      forall r: nat | r < n ensures r in run.Requests() { assert run.visits[r].request == r; }
    }
    assert run.Accepted() == Range(n, if authLimit <= n then n else Min(2 * n, authLimit));
  }

  /** So overlapping requests can all be refused where they would be accepted one at a time, and all be accepted up to
      the global limit where half of them would not. */
  lemma OverlappingExtremes(globalLimit: nat, globalWindow: Millis, authLimit: nat, authWindow: Millis)
    requires globalWindow >= 1
    ensures authLimit <= globalLimit ==>
              var run := GlobalsFirst(authLimit, globalLimit, globalWindow, authLimit, authWindow);
              run.Valid() && |run.Requests()| == authLimit && run.Accepted() == {}
    ensures authLimit >= 2 * globalLimit ==>
              var run := GlobalsFirst(globalLimit, globalLimit, globalWindow, authLimit, authWindow);
              run.Valid() && |run.Requests()| == |run.Accepted()| == globalLimit
  {
    if authLimit <= globalLimit { GlobalsFirstAccepts(authLimit, globalLimit, globalWindow, authLimit, authWindow); }
    if authLimit >= 2 * globalLimit { GlobalsFirstAccepts(globalLimit, globalLimit, globalWindow, authLimit, authWindow); }
  }
}
