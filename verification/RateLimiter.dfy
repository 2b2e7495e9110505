/** The sliding-window rate limiter of backend/app/middleware/rate_limit.py.

    One request is one atomic step: lines 61 to 81 hold the lock and never await.
    Time is a `real` read from a monotonic clock; float rounding is not modelled. */
module RateLimiter {

  const WINDOW: real := 60.0
  const PURGE_INTERVAL: real := 300.0
  const EXEMPT_PATHS: set<string> := {"/health", "/metrics", "/docs", "/openapi.json", "/redoc"}

  datatype Request = Request(ip: string, path: string, now: real)

  datatype Decision = Forwarded | Limited(retryAfter: int)

  datatype State = State(windows: map<string, seq<real>>, lastPurge: real)

  const INITIAL := State(map[], 0.0)

  // ---------------------------------------------------------------- one step

  /** The limits per path prefix, in the order they are tried. */
  const STRICT_PATHS: seq<(string, int)> :=
    [("/api/v1/auth/login", 10), ("/api/v1/auth/register", 10), ("/api/v1/auth/refresh", 20)]

  function LimitForPath(path: string, perMinute: int): int {
    if "/api/v1/auth/login" <= path then 10
    else if "/api/v1/auth/register" <= path then 10
    else if "/api/v1/auth/refresh" <= path then 20
    else perMinute
  }

  function KeyOf(r: Request): string {
    r.ip + ":" + r.path
  }

  predicate Counted(r: Request) {
    r.path !in EXEMPT_PATHS
  }

  /** Drops the leading timestamps that have left the window. */
  function Prune(q: seq<real>, now: real): seq<real> {
    if q != [] && now - q[0] > WINDOW then Prune(q[1..], now) else q
  }

  /** Python's int(): truncation toward zero. */
  function Trunc(x: real): int {
    if x >= 0.0 then x.Floor else -((-x).Floor)
  }

  function RetryAfter(oldest: real, now: real): int {
    Trunc(WINDOW - (now - oldest)) + 1
  }

  /** What one counted request does to the deque of its own key. */
  function KeyStep(q: seq<real>, limit: int, now: real): (seq<real>, Decision)
    requires limit >= 1
  {
    var p := Prune(q, now);
    if |p| >= limit then (p, Limited(RetryAfter(p[0], now))) else (p + [now], Forwarded)
  }

  function Lookup(windows: map<string, seq<real>>, k: string): seq<real> {
    if k in windows then windows[k] else []
  }

  function Purge(windows: map<string, seq<real>>): map<string, seq<real>> {
    map k | k in windows && windows[k] != [] :: windows[k]
  }

  function Step(s: State, r: Request, perMinute: int): (State, Decision)
    requires perMinute >= 1
  {
    if !Counted(r) then (s, Forwarded) else
      var (q, d) := KeyStep(Lookup(s.windows, KeyOf(r)), LimitForPath(r.path, perMinute), r.now);
      var windows := s.windows[KeyOf(r) := q];
      if d.Forwarded? && r.now - s.lastPurge > PURGE_INTERVAL
      then (State(Purge(windows), r.now), d)
      else (State(windows, s.lastPurge), d)
  }

  function Run(rs: seq<Request>, perMinute: int): State
    requires perMinute >= 1
  {
    if rs == [] then INITIAL
    else Step(Run(rs[..|rs| - 1], perMinute), rs[|rs| - 1], perMinute).0
  }

  /** The decision on `r` when it arrives after the requests `rs`. */
  function DecisionAfter(rs: seq<Request>, r: Request, perMinute: int): Decision
    requires perMinute >= 1
  {
    Step(Run(rs, perMinute), r, perMinute).1
  }

  /** The middleware object: the module globals `_windows` and `_last_purge`. */
  class Limiter {
    var windows: map<string, seq<real>>
    var lastPurge: real
    const perMinute: int
    const testEnvironment: bool

    ghost function View(): State
      reads this
    {
      State(windows, lastPurge)
    }

    constructor (perMinute: int, testEnvironment: bool)
      ensures View() == INITIAL
      ensures this.perMinute == perMinute && this.testEnvironment == testEnvironment
    {
      this.perMinute := perMinute;
      this.testEnvironment := testEnvironment;
      windows := map[];
      lastPurge := 0.0;
    }

    method Dispatch(r: Request) returns (d: Decision)
      requires perMinute >= 1
      modifies this
      ensures testEnvironment ==> View() == old(View()) && d == Forwarded
      ensures !testEnvironment ==> (View(), d) == Step(old(View()), r, perMinute)
    {
      if testEnvironment || r.path in EXEMPT_PATHS {
        return Forwarded;
      }
      var key := r.ip + ":" + r.path;
      var limit := PathLimit(r.path);
      var q := Lookup(windows, key);
      while q != [] && r.now - q[0] > WINDOW
        invariant Prune(q, r.now) == Prune(Lookup(old(windows), key), r.now)
        decreases |q|
      {
        q := q[1..];
      }
      windows := windows[key := q];
      if |q| >= limit {
        return Limited(Trunc(WINDOW - (r.now - q[0])) + 1);
      }
      windows := windows[key := q + [r.now]];
      assert windows == old(windows)[key := q + [r.now]];
      if r.now - lastPurge > PURGE_INTERVAL {
        PurgeStale();
        lastPurge := r.now;
      }
      return Forwarded;
    }

    /** The loop of `_limit_for_path`. */
    method PathLimit(path: string) returns (limit: int)
      ensures limit == LimitForPath(path, perMinute)
    {
      for i := 0 to |STRICT_PATHS|
        invariant forall j :: 0 <= j < i ==> !(STRICT_PATHS[j].0 <= path)
      {
        if STRICT_PATHS[i].0 <= path {
          assert i > 0 ==> !(STRICT_PATHS[0].0 <= path);
          assert i > 1 ==> !(STRICT_PATHS[1].0 <= path);
          return STRICT_PATHS[i].1;
        }
      }
      assert !(STRICT_PATHS[0].0 <= path) && !(STRICT_PATHS[1].0 <= path) && !(STRICT_PATHS[2].0 <= path);
      return perMinute;
    }

    method PurgeStale()
      modifies this`windows
      ensures windows == Purge(old(windows))
    {
      var stale := set k | k in windows && windows[k] == [];
      ghost var all := stale;
      while stale != {}
        invariant stale <= all
        invariant all == set k | k in old(windows) && old(windows)[k] == []
        invariant windows == old(windows) - (all - stale)
        decreases stale
      {
        var k :| k in stale;
        windows := windows - {k};
        stale := stale - {k};
      }
    }
  }

  // ------------------------------------------- the limiter that never forgets

  /** The admissions no older than one window at time `now`. */
  function Recent(h: seq<real>, now: real): seq<real> {
    if h == [] then []
    else (if now - h[0] <= WINDOW then [h[0]] else []) + Recent(h[1..], now)
  }

  /** The reference limiter keeps every admission of a key for ever and counts. */
  function Admitted(rs: seq<Request>, k: string, perMinute: int): seq<real> {
    if rs == [] then []
    else
      var r := rs[|rs| - 1];
      var before := Admitted(rs[..|rs| - 1], k, perMinute);
      if Counted(r) && KeyOf(r) == k && |Recent(before, r.now)| < LimitForPath(r.path, perMinute)
      then before + [r.now]
      else before
  }

  ghost predicate Nondecreasing(rs: seq<Request>) {
    forall i, j :: 0 <= i < j < |rs| ==> rs[i].now <= rs[j].now
  }

  ghost predicate Ascending(h: seq<real>) {
    forall i, j :: 0 <= i < j < |h| ==> h[i] <= h[j]
  }

  /** The last time a counted request touched key `k`. */
  function LastAccess(rs: seq<Request>, k: string): real {
    if rs == [] then 0.0
    else
      var r := rs[|rs| - 1];
      if Counted(r) && KeyOf(r) == k then r.now else LastAccess(rs[..|rs| - 1], k)
  }

  lemma {:induction false} RecentAppend(h: seq<real>, t: real, now: real)
    ensures Recent(h + [t], now) == Recent(h, now) + (if now - t <= WINDOW then [t] else [])
  {
    if h == [] {
    } else {
      assert (h + [t])[1..] == h[1..] + [t];
      RecentAppend(h[1..], t, now);
      var head := if now - h[0] <= WINDOW then [h[0]] else [];
      var last := if now - t <= WINDOW then [t] else [];
      assert head + (Recent(h[1..], now) + last) == (head + Recent(h[1..], now)) + last;
    }
  }

  lemma {:induction false} RecentTwice(h: seq<real>, early: real, late: real)
    requires early <= late
    ensures Recent(Recent(h, early), late) == Recent(h, late)
  {
    if h != [] {
      RecentTwice(h[1..], early, late);
      if early - h[0] <= WINDOW {
        assert ([h[0]] + Recent(h[1..], early))[1..] == Recent(h[1..], early);
      } else {
        assert Recent(h, early) == Recent(h[1..], early);
      }
    }
  }

  lemma {:induction false} RecentKeepsAll(h: seq<real>, now: real)
    requires forall i :: 0 <= i < |h| ==> now - h[i] <= WINDOW
    ensures Recent(h, now) == h
  {
    if h != [] {
      RecentKeepsAll(h[1..], now);
    }
  }

  lemma {:induction false} RecentSelects(h: seq<real>, now: real)
    ensures forall i :: 0 <= i < |Recent(h, now)| ==> Recent(h, now)[i] in h
  {
    if h != [] {
      RecentSelects(h[1..], now);
    }
  }

  lemma {:induction false} RecentAscending(h: seq<real>, now: real)
    requires Ascending(h)
    ensures Ascending(Recent(h, now))
  {
    if h != [] {
      var rest := Recent(h[1..], now);
      RecentAscending(h[1..], now);
      RecentSelects(h[1..], now);
      assert forall j :: 0 <= j < |rest| ==> h[0] <= rest[j];
    }
  }

  /** On an ascending deque, dropping a prefix is the same as filtering. */
  lemma {:induction false} PruneIsRecent(q: seq<real>, now: real)
    requires Ascending(q)
    ensures Prune(q, now) == Recent(q, now)
  {
    if q != [] {
      if now - q[0] > WINDOW {
        PruneIsRecent(q[1..], now);
      } else {
        RecentKeepsAll(q, now);
      }
    }
  }

  lemma AscendingAppend(h: seq<real>, t: real)
    requires Ascending(h) && forall x :: x in h ==> x <= t
    ensures Ascending(h + [t])
  {
    assert forall i :: 0 <= i < |h| ==> h[i] in h;
  }

  lemma {:induction false} AdmittedAscending(rs: seq<Request>, k: string, perMinute: int)
    requires Nondecreasing(rs)
    ensures Ascending(Admitted(rs, k, perMinute))
    ensures forall t :: t in Admitted(rs, k, perMinute) ==> t <= LastAccess(rs, k)
    ensures rs != [] ==> forall t :: t in Admitted(rs, k, perMinute) ==> t <= rs[|rs| - 1].now
  {
    if rs != [] {
      var before, r := Admitted(rs[..|rs| - 1], k, perMinute), rs[|rs| - 1];
      AdmittedAscending(rs[..|rs| - 1], k, perMinute);
      if |rs| > 1 {
        assert rs[|rs| - 2].now <= r.now;
      }
      assert forall t :: t in before ==> t <= r.now;
      AscendingAppend(before, r.now);
    }
  }

  lemma {:induction false} LastAccessBound(rs: seq<Request>, k: string, perMinute: int)
    requires Nondecreasing(rs)
    ensures Admitted(rs, k, perMinute) != [] ==> rs != [] && LastAccess(rs, k) <= rs[|rs| - 1].now
  {
    if rs != [] {
      LastAccessBound(rs[..|rs| - 1], k, perMinute);
      assert |rs| > 1 ==> rs[|rs| - 2].now <= rs[|rs| - 1].now;
    }
  }

  /** A step changes the deque of its own key only; a purge never shows. */
  lemma StepLookup(s: State, r: Request, k: string, perMinute: int)
    requires perMinute >= 1
    ensures Lookup(Step(s, r, perMinute).0.windows, k)
         == if Counted(r) && KeyOf(r) == k
            then KeyStep(Lookup(s.windows, k), LimitForPath(r.path, perMinute), r.now).0
            else Lookup(s.windows, k)
  {
  }

  /** The deque of every key is exactly its recent admissions. */
  lemma {:induction false} DequeIsRecentAdmissions(rs: seq<Request>, k: string, perMinute: int)
    requires perMinute >= 1 && Nondecreasing(rs)
    ensures Lookup(Run(rs, perMinute).windows, k)
         == Recent(Admitted(rs, k, perMinute), LastAccess(rs, k))
  {
    if rs != [] {
      var before, r := rs[..|rs| - 1], rs[|rs| - 1];
      DequeIsRecentAdmissions(before, k, perMinute);
      StepLookup(Run(before, perMinute), r, k, perMinute);
      if Counted(r) && KeyOf(r) == k {
        PruneMeetsNaive(before, r, perMinute);
        RecentAppend(Admitted(before, k, perMinute), r.now, r.now);
      }
    }
  }

  /** Pruning the deque of `before` at `r.now` leaves what the naive limiter counts. */
  lemma PruneMeetsNaive(before: seq<Request>, r: Request, perMinute: int)
    requires perMinute >= 1 && Nondecreasing(before + [r])
    requires Lookup(Run(before, perMinute).windows, KeyOf(r))
          == Recent(Admitted(before, KeyOf(r), perMinute), LastAccess(before, KeyOf(r)))
    ensures Prune(Lookup(Run(before, perMinute).windows, KeyOf(r)), r.now)
         == Recent(Admitted(before, KeyOf(r), perMinute), r.now)
  {
    var h, last := Admitted(before, KeyOf(r), perMinute), LastAccess(before, KeyOf(r));
    assert Nondecreasing(before) by {
      assert forall i :: 0 <= i < |before| ==> before[i] == (before + [r])[i];
    }
    AdmittedAscending(before, KeyOf(r), perMinute);
    RecentAscending(h, last);
    PruneIsRecent(Recent(h, last), r.now);
    if h != [] {
      LastAccessBound(before, KeyOf(r), perMinute);
      assert before[|before| - 1] == (before + [r])[|before| - 1];
      assert (before + [r])[|before|] == r;
      RecentTwice(h, last, r.now);
    }
  }

  /** The pruned limiter decides as the naive one does. */
  lemma DecisionIsNaive(rs: seq<Request>, r: Request, perMinute: int)
    requires perMinute >= 1 && Nondecreasing(rs + [r]) && Counted(r)
    ensures DecisionAfter(rs, r, perMinute).Forwarded?
       <==> |Recent(Admitted(rs, KeyOf(r), perMinute), r.now)| < LimitForPath(r.path, perMinute)
  {
    assert Nondecreasing(rs) by {
      assert forall i :: 0 <= i < |rs| ==> rs[i] == (rs + [r])[i];
    }
    DequeIsRecentAdmissions(rs, KeyOf(r), perMinute);
    PruneMeetsNaive(rs, r, perMinute);
  }

  // ---------------------------------------------------- keys do not interfere

  function OnlyKey(rs: seq<Request>, k: string): seq<Request> {
    if rs == [] then []
    else
      var r := rs[|rs| - 1];
      OnlyKey(rs[..|rs| - 1], k) + (if KeyOf(r) == k then [r] else [])
  }

  /** Deleting from the run every request of other keys leaves the deque of `k` as it
      was, whether or not those requests purge. */
  lemma {:induction false} OtherKeysNeverMatter(rs: seq<Request>, k: string, perMinute: int)
    requires perMinute >= 1
    ensures Lookup(Run(rs, perMinute).windows, k) == Lookup(Run(OnlyKey(rs, k), perMinute).windows, k)
  {
    if rs != [] {
      var before, r := rs[..|rs| - 1], rs[|rs| - 1];
      OtherKeysNeverMatter(before, k, perMinute);
      StepLookup(Run(before, perMinute), r, k, perMinute);
      var kept := OnlyKey(before, k);
      if KeyOf(r) != k {
        assert OnlyKey(rs, k) == kept;
      } else {
        assert OnlyKey(rs, k) == kept + [r];
        assert (kept + [r])[..|kept + [r]| - 1] == kept;
        StepLookup(Run(kept, perMinute), r, k, perMinute);
      }
    }
  }

  /** So every decision is the one the key alone would have met. */
  lemma DecisionDependsOnOwnKey(rs: seq<Request>, r: Request, perMinute: int)
    requires perMinute >= 1
    ensures DecisionAfter(rs, r, perMinute) == DecisionAfter(OnlyKey(rs, KeyOf(r)), r, perMinute)
  {
    OtherKeysNeverMatter(rs, KeyOf(r), perMinute);
  }

  lemma {:induction false} OnlyKeyAppendOthers(rs: seq<Request>, mid: seq<Request>, k: string)
    requires forall r :: r in mid ==> KeyOf(r) != k
    ensures OnlyKey(rs + mid, k) == OnlyKey(rs, k)
  {
    if mid == [] {
      assert rs + mid == rs;
    } else {
      var front := mid[..|mid| - 1];
      assert (rs + mid)[..|rs + mid| - 1] == rs + front;
      OnlyKeyAppendOthers(rs, front, k);
    }
  }

  /** No stored deque is ever empty: a rejection leaves `limit` entries or more, and
      an admission adds one. */
  lemma {:induction false} NoDequeIsEmpty(rs: seq<Request>, perMinute: int)
    requires perMinute >= 1
    ensures forall k :: k in Run(rs, perMinute).windows ==> Run(rs, perMinute).windows[k] != []
  {
    if rs != [] {
      NoDequeIsEmpty(rs[..|rs| - 1], perMinute);
    }
  }

  /** So the periodic purge finds nothing to delete: each counted request stores the
      deque of its key, and no step takes a key away. */
  lemma PurgeDeletesNothing(rs: seq<Request>, r: Request, perMinute: int)
    requires perMinute >= 1
    ensures var before := Run(rs, perMinute).windows;
            && Purge(before) == before
            && Step(Run(rs, perMinute), r, perMinute).0.windows
               == if Counted(r)
                  then before[KeyOf(r) := KeyStep(Lookup(before, KeyOf(r)), LimitForPath(r.path, perMinute), r.now).0]
                  else before
  {
    NoDequeIsEmpty(rs, perMinute);
  }

  // ------------------------------------------------ at most `limit` per window

  /** Client addresses hold no '/', request paths start with one. */
  predicate WellFormed(r: Request) {
    '/' !in r.ip && r.path != "" && r.path[0] == '/'
  }

  /** Two well-formed requests that share a key share the path, hence the limit. */
  lemma KeyDeterminesPath(a: Request, b: Request)
    requires WellFormed(a) && WellFormed(b) && KeyOf(a) == KeyOf(b)
    ensures a.path == b.path && a.ip == b.ip
  {
    var k := KeyOf(a);
    assert k[|a.ip| + 1] == '/' && k[|b.ip| + 1] == '/';
    if |a.ip| < |b.ip| {
      SlashOnlyInPath(b, |a.ip| + 1);
    } else if |b.ip| < |a.ip| {
      SlashOnlyInPath(a, |b.ip| + 1);
    }
    assert a.ip == k[..|a.ip|] && b.ip == k[..|b.ip|];
    assert a.path == k[|a.ip| + 1..] && b.path == k[|b.ip| + 1..];
  }

  lemma SlashOnlyInPath(r: Request, i: nat)
    requires WellFormed(r) && i <= |r.ip|
    ensures KeyOf(r)[i] != '/'
  {
  }

  /** Any admission comes more than a window after the one `limit` places before. */
  ghost predicate Spaced(h: seq<real>, limit: nat) {
    forall i :: 0 <= i < |h| - limit ==> h[i + limit] - h[i] > WINDOW
  }

  function CountIn(h: seq<real>, lo: real, hi: real): nat {
    if h == [] then 0
    else CountIn(h[..|h| - 1], lo, hi) + (if lo <= h[|h| - 1] <= hi then 1 else 0)
  }

  /** A filter that keeps fewer than `limit` of an ascending list drops the
      element `limit` places from the end. */
  lemma {:induction false} RecentCountsSuffix(h: seq<real>, now: real, i: nat)
    requires Ascending(h) && i < |h| && now - h[i] <= WINDOW
    ensures |Recent(h, now)| >= |h| - i
  {
    if i == 0 {
      RecentKeepsAll(h, now);
    } else {
      RecentCountsSuffix(h[1..], now, i - 1);
    }
  }

  lemma {:induction false} AdmissionsSpaced(rs: seq<Request>, r: Request, perMinute: int)
    requires perMinute >= 1 && Nondecreasing(rs) && WellFormed(r)
    requires forall x :: x in rs ==> WellFormed(x)
    ensures Spaced(Admitted(rs, KeyOf(r), perMinute), LimitForPath(r.path, perMinute))
  {
    if rs != [] {
      var before, last := rs[..|rs| - 1], rs[|rs| - 1];
      AdmissionsSpaced(before, r, perMinute);
      if Counted(last) && KeyOf(last) == KeyOf(r) {
        KeyDeterminesPath(last, r);
        var h, limit := Admitted(before, KeyOf(r), perMinute), LimitForPath(r.path, perMinute);
        AdmittedAscending(before, KeyOf(r), perMinute);
        if |h| >= limit && last.now - h[|h| - limit] <= WINDOW {
          RecentCountsSuffix(h, last.now, |h| - limit);
        }
        if |Recent(h, last.now)| < limit {
          SpacedAppend(h, limit, last.now);
        }
      }
    }
  }

  lemma SpacedAppend(h: seq<real>, limit: nat, t: real)
    requires limit >= 1 && Spaced(h, limit)
    requires |h| >= limit ==> t - h[|h| - limit] > WINDOW
    ensures Spaced(h + [t], limit)
  {
  }

  lemma {:induction false} NoneInRange(h: seq<real>, lo: real, hi: real)
    requires forall i :: 0 <= i < |h| ==> h[i] < lo
    ensures CountIn(h, lo, hi) == 0
  {
    if h != [] {
      NoneInRange(h[..|h| - 1], lo, hi);
    }
  }

  lemma {:induction false} CountAtMostTail(h: seq<real>, lo: real, hi: real, n: nat)
    requires n <= |h| && forall i :: 0 <= i < n ==> h[i] < lo
    ensures CountIn(h, lo, hi) <= |h| - n
  {
    if |h| == n {
      NoneInRange(h, lo, hi);
    } else {
      CountAtMostTail(h[..|h| - 1], lo, hi, n);
    }
  }

  lemma {:induction false} SpacedBoundsCount(h: seq<real>, limit: int, lo: real)
    requires limit >= 1 && Ascending(h) && Spaced(h, limit)
    ensures CountIn(h, lo, lo + WINDOW) <= limit
  {
    if h != [] {
      var t := h[|h| - 1];
      if lo <= t <= lo + WINDOW && |h| > limit {
        var i := |h| - 1 - limit;
        assert h[i + limit] - h[i] > WINDOW;
        CountAtMostTail(h, lo, lo + WINDOW, |h| - limit);
      } else if |h| <= limit {
        CountAtMostTail(h, lo, lo + WINDOW, 0);
      } else {
        SpacedBoundsCount(h[..|h| - 1], limit, lo);
      }
    }
  }

  /** Every closed interval of one window holds at most `limit` admissions of a key. */
  lemma AtMostLimitPerWindow(rs: seq<Request>, r: Request, lo: real, perMinute: int)
    requires perMinute >= 1 && Nondecreasing(rs) && WellFormed(r)
    requires forall x :: x in rs ==> WellFormed(x)
    ensures CountIn(Admitted(rs, KeyOf(r), perMinute), lo, lo + WINDOW) <= LimitForPath(r.path, perMinute)
  {
    AdmissionsSpaced(rs, r, perMinute);
    AdmittedAscending(rs, KeyOf(r), perMinute);
    SpacedBoundsCount(Admitted(rs, KeyOf(r), perMinute), LimitForPath(r.path, perMinute), lo);
  }

  /** In figures: in a minute an address gets at most 10 logins through at one such
      path, 10 registrations, 20 refreshes, and `perMinute` requests at any other. */
  lemma RequestsPerMinute(rs: seq<Request>, r: Request, lo: real, perMinute: int)
    requires perMinute >= 1 && Nondecreasing(rs) && WellFormed(r)
    requires forall x :: x in rs ==> WellFormed(x)
    ensures var count := CountIn(Admitted(rs, KeyOf(r), perMinute), lo, lo + 60.0);
            if "/api/v1/auth/login" <= r.path || "/api/v1/auth/register" <= r.path then count <= 10
            else if "/api/v1/auth/refresh" <= r.path then count <= 20
            else count <= perMinute
  {
    AtMostLimitPerWindow(rs, r, lo, perMinute);
  }

  /** The five exempt paths are never limited and leave no trace. */
  lemma ExemptUntouched(s: State, r: Request, perMinute: int)
    requires perMinute >= 1
    requires r.path in {"/health", "/metrics", "/docs", "/openapi.json", "/redoc"}
    ensures Step(s, r, perMinute) == (s, Forwarded)
  {
  }

  /** And no other path is exempt: a request to it is remembered when it comes through. */
  lemma OnlyFiveExempt(s: State, r: Request, perMinute: int)
    requires perMinute >= 1
    requires r.path !in {"/health", "/metrics", "/docs", "/openapi.json", "/redoc"}
    ensures var (t, d) := Step(s, r, perMinute);
            d.Forwarded? ==> Lookup(t.windows, KeyOf(r)) == Prune(Lookup(s.windows, KeyOf(r)), r.now) + [r.now]
  {
  }

  /** Where fewer requests came through in the last minute than that, the next one does. */
  lemma NeverLimitedEarly(rs: seq<Request>, r: Request, perMinute: int)
    requires perMinute >= 1 && Nondecreasing(rs + [r])
    requires |Recent(Admitted(rs, KeyOf(r), perMinute), r.now)|
           < if "/api/v1/auth/login" <= r.path || "/api/v1/auth/register" <= r.path then 10
             else if "/api/v1/auth/refresh" <= r.path then 20 else perMinute
    ensures DecisionAfter(rs, r, perMinute).Forwarded?
  {
    if Counted(r) {
      DecisionIsNaive(rs, r, perMinute);
    }
  }

  // ------------------------------------------------------------- Retry-After

  lemma {:induction false} PruneFacts(q: seq<real>, now: real)
    ensures |Prune(q, now)| <= |q|
    ensures Prune(q, now) != [] ==> now - Prune(q, now)[0] <= WINDOW
    ensures forall t :: t in Prune(q, now) ==> t in q
  {
    if q != [] && now - q[0] > WINDOW {
      PruneFacts(q[1..], now);
    }
  }

  /** No deque ever outgrows the limit of its key. */
  lemma {:induction false} DequeWithinLimit(rs: seq<Request>, r: Request, perMinute: int)
    requires perMinute >= 1 && WellFormed(r) && forall x :: x in rs ==> WellFormed(x)
    ensures |Lookup(Run(rs, perMinute).windows, KeyOf(r))| <= LimitForPath(r.path, perMinute)
  {
    if rs != [] {
      var before, last := rs[..|rs| - 1], rs[|rs| - 1];
      DequeWithinLimit(before, r, perMinute);
      StepLookup(Run(before, perMinute), last, KeyOf(r), perMinute);
      if Counted(last) && KeyOf(last) == KeyOf(r) {
        KeyDeterminesPath(last, r);
        PruneFacts(Lookup(Run(before, perMinute).windows, KeyOf(r)), last.now);
      }
    }
  }

  /** A rejected request leaves the pruned deque, and requests on other keys leave it alone. */
  lemma DequeAfterRejection(rs: seq<Request>, r: Request, mid: seq<Request>, perMinute: int)
    requires perMinute >= 1 && DecisionAfter(rs, r, perMinute).Limited?
    requires forall x :: x in mid ==> KeyOf(x) != KeyOf(r)
    ensures Lookup(Run(rs + [r] + mid, perMinute).windows, KeyOf(r))
         == Prune(Lookup(Run(rs, perMinute).windows, KeyOf(r)), r.now)
  {
    var k := KeyOf(r);
    assert (rs + [r])[..|rs + [r]| - 1] == rs;
    StepLookup(Run(rs, perMinute), r, k, perMinute);
    OtherKeysNeverMatter(rs + [r], k, perMinute);
    OtherKeysNeverMatter(rs + [r] + mid, k, perMinute);
    OnlyKeyAppendOthers(rs + [r], mid, k);
  }

  /** Retry-After is the least sufficient number of whole seconds (delay-seconds,
      section 10.2.3 of RFC 9110): with no other request on the key in between, a
      retry `n` seconds later is forwarded exactly when `n` is at least that many. */
  lemma RetryAfterIsLeast(rs: seq<Request>, r: Request, mid: seq<Request>, t: real, perMinute: int)
    requires perMinute >= 1 && Nondecreasing(rs + [r])
    requires WellFormed(r) && forall x :: x in rs ==> WellFormed(x)
    requires DecisionAfter(rs, r, perMinute).Limited?
    requires forall x :: x in mid ==> KeyOf(x) != KeyOf(r)
    ensures var wait := DecisionAfter(rs, r, perMinute).retryAfter;
            var retry := DecisionAfter(rs + [r] + mid, r.(now := t), perMinute);
            && 1 <= wait <= 61
            && (t >= r.now + wait as real ==> retry.Forwarded?)
            && (r.now <= t <= r.now + (wait - 1) as real ==> retry.Limited?)
  {
    var k, limit := KeyOf(r), LimitForPath(r.path, perMinute);
    var q := Lookup(Run(rs, perMinute).windows, k);
    var p := Prune(q, r.now);
    DequeWithinLimit(rs, r, perMinute);
    PruneFacts(q, r.now);
    assert |p| == limit && p[0] in p;
    OldestNotInFuture(rs, r, perMinute);
    DequeAfterRejection(rs, r, mid, perMinute);
    if t - p[0] > WINDOW {
      PruneFacts(p[1..], t);
    }
  }

  lemma OldestNotInFuture(rs: seq<Request>, r: Request, perMinute: int)
    requires perMinute >= 1 && Nondecreasing(rs + [r])
    ensures forall t :: t in Lookup(Run(rs, perMinute).windows, KeyOf(r)) ==> t <= r.now
  {
    assert Nondecreasing(rs) by {
      assert forall i :: 0 <= i < |rs| ==> rs[i] == (rs + [r])[i];
    }
    DequeIsRecentAdmissions(rs, KeyOf(r), perMinute);
    AdmittedAscending(rs, KeyOf(r), perMinute);
    RecentSelects(Admitted(rs, KeyOf(r), perMinute), LastAccess(rs, KeyOf(r)));
    if rs != [] {
      assert (rs + [r])[|rs| - 1] == rs[|rs| - 1] && (rs + [r])[|rs|] == r;
    }
  }

  // ------------------------------------------------------- what an address may do

  /** The requests of a run that the middleware forwards, exempt ones included. */
  function Passed(rs: seq<Request>, perMinute: int): seq<Request>
    requires perMinute >= 1
  {
    if rs == [] then []
    else
      var before, r := rs[..|rs| - 1], rs[|rs| - 1];
      Passed(before, perMinute) + (if DecisionAfter(before, r, perMinute).Forwarded? then [r] else [])
  }

  function TimesAt(passed: seq<Request>, ip: string, path: string): seq<real> {
    if passed == [] then []
    else
      var r := passed[|passed| - 1];
      TimesAt(passed[..|passed| - 1], ip, path) + (if r.ip == ip && r.path == path then [r.now] else [])
  }

  /** The number of these requests that one address made from `lo` to `hi`. */
  function CountOfAddress(passed: seq<Request>, ip: string, lo: real, hi: real): nat {
    if passed == [] then 0
    else
      var r := passed[|passed| - 1];
      CountOfAddress(passed[..|passed| - 1], ip, lo, hi) + (if r.ip == ip && lo <= r.now <= hi then 1 else 0)
  }

  lemma PrefixNondecreasing(rs: seq<Request>)
    requires rs != [] && Nondecreasing(rs)
    ensures rs == rs[..|rs| - 1] + [rs[|rs| - 1]]
    ensures Nondecreasing(rs[..|rs| - 1])
  {
  }

  /** The reference limiter's admissions are the requests the middleware forwards. */
  lemma {:induction false} PassedAreAdmitted(rs: seq<Request>, r: Request, perMinute: int)
    requires perMinute >= 1 && Nondecreasing(rs) && Counted(r)
    requires WellFormed(r) && forall x :: x in rs ==> WellFormed(x)
    ensures TimesAt(Passed(rs, perMinute), r.ip, r.path) == Admitted(rs, KeyOf(r), perMinute)
  {
    if rs != [] {
      var before, last := rs[..|rs| - 1], rs[|rs| - 1];
      PrefixNondecreasing(rs);
      PassedAreAdmitted(before, r, perMinute);
      TimesAppend(Passed(before, perMinute), last, r.ip, r.path);
      if KeyOf(last) == KeyOf(r) {
        KeyDeterminesPath(last, r);
        DecisionIsNaive(before, last, perMinute);
      }
    }
  }

  lemma TimesAppend(passed: seq<Request>, r: Request, ip: string, path: string)
    ensures TimesAt(passed + [r], ip, path)
         == TimesAt(passed, ip, path) + (if r.ip == ip && r.path == path then [r.now] else [])
    ensures passed + [] == passed
  {
  }

  ghost predicate Distinct(paths: seq<string>) {
    forall i, j :: 0 <= i < j < |paths| ==> paths[i] != paths[j]
  }

  function SumAt(passed: seq<Request>, ip: string, paths: seq<string>, lo: real, hi: real): nat {
    if paths == [] then 0
    else
      var n := |paths| - 1;
      SumAt(passed, ip, paths[..n], lo, hi) + CountIn(TimesAt(passed, ip, paths[n]), lo, hi)
  }

  /** The limits of these paths together. */
  function SumLimits(paths: seq<string>, perMinute: int): int {
    if paths == [] then 0
    else SumLimits(paths[..|paths| - 1], perMinute) + LimitForPath(paths[|paths| - 1], perMinute)
  }

  lemma CountInAppend(h: seq<real>, t: real, lo: real, hi: real)
    ensures CountIn(h + [t], lo, hi) == CountIn(h, lo, hi) + (if lo <= t <= hi then 1 else 0)
    ensures h + [] == h
  {
    assert (h + [t])[..|h|] == h;
  }

  /** One more forwarded request shows at its own path and at no other. */
  lemma {:induction false} SumAtAppend(passed: seq<Request>, r: Request, ip: string, paths: seq<string>,
                                       lo: real, hi: real)
    requires Distinct(paths)
    ensures SumAt(passed + [r], ip, paths, lo, hi)
         == SumAt(passed, ip, paths, lo, hi)
            + (if r.ip == ip && r.path in paths && lo <= r.now <= hi then 1 else 0)
  {
    if paths != [] {
      var n := |paths| - 1;
      SumAtAppend(passed, r, ip, paths[..n], lo, hi);
      TimesAppend(passed, r, ip, paths[n]);
      CountInAppend(TimesAt(passed, ip, paths[n]), r.now, lo, hi);
      assert paths == paths[..n] + [paths[n]];
    }
  }

  lemma {:induction false} SumOfNothing(ip: string, paths: seq<string>, lo: real, hi: real)
    ensures SumAt([], ip, paths, lo, hi) == 0
  {
    if paths != [] {
      SumOfNothing(ip, paths[..|paths| - 1], lo, hi);
    }
  }

  /** The requests of an address are those of its paths together. */
  lemma {:induction false} AddressIsSumOfPaths(passed: seq<Request>, ip: string, paths: seq<string>,
                                               lo: real, hi: real)
    requires Distinct(paths) && forall r :: r in passed && r.ip == ip ==> r.path in paths
    ensures CountOfAddress(passed, ip, lo, hi) == SumAt(passed, ip, paths, lo, hi)
  {
    if passed == [] {
      SumOfNothing(ip, paths, lo, hi);
    } else {
      var before, r := passed[..|passed| - 1], passed[|passed| - 1];
      assert passed == before + [r];
      AddressIsSumOfPaths(before, ip, paths, lo, hi);
      SumAtAppend(before, r, ip, paths, lo, hi);
    }
  }

  lemma {:induction false} PassedSubset(rs: seq<Request>, perMinute: int)
    requires perMinute >= 1
    ensures forall r :: r in Passed(rs, perMinute) ==> r in rs
  {
    if rs != [] {
      PassedSubset(rs[..|rs| - 1], perMinute);
    }
  }

  predicate OrdinaryPath(path: string) {
    path != "" && path[0] == '/'
  }

  /** Runs on a clock that does not go back in which an address asks for these paths only. */
  ghost predicate StaysWithin(rs: seq<Request>, ip: string, paths: seq<string>) {
    && Nondecreasing(rs)
    && (forall r :: r in rs ==> WellFormed(r))
    && forall r :: r in rs && r.ip == ip ==> r.path in paths
  }

  lemma {:induction false} SumAtBound(rs: seq<Request>, ip: string, paths: seq<string>, lo: real, perMinute: int)
    requires perMinute >= 1 && '/' !in ip && Nondecreasing(rs) && forall r :: r in rs ==> WellFormed(r)
    requires forall p :: p in paths ==> OrdinaryPath(p) && p !in EXEMPT_PATHS
    ensures SumAt(Passed(rs, perMinute), ip, paths, lo, lo + WINDOW) <= SumLimits(paths, perMinute)
  {
    if paths != [] {
      var n := |paths| - 1;
      SumAtBound(rs, ip, paths[..n], lo, perMinute);
      var r := Request(ip, paths[n], lo);
      assert paths[n] in paths;
      PassedAreAdmitted(rs, r, perMinute);
      AtMostLimitPerWindow(rs, r, lo, perMinute);
    }
  }

  /** In every window an address gets at most the limits of its paths together. */
  lemma AddressBound(rs: seq<Request>, ip: string, paths: seq<string>, lo: real, perMinute: int)
    requires perMinute >= 1 && '/' !in ip && Distinct(paths) && StaysWithin(rs, ip, paths)
    requires forall p :: p in paths ==> OrdinaryPath(p) && p !in EXEMPT_PATHS
    ensures CountOfAddress(Passed(rs, perMinute), ip, lo, lo + WINDOW) <= SumLimits(paths, perMinute)
  {
    PassedSubset(rs, perMinute);
    AddressIsSumOfPaths(Passed(rs, perMinute), ip, paths, lo, lo + WINDOW);
    SumAtBound(rs, ip, paths, lo, perMinute);
  }

  // ------------------------------------------------- and that bound is reached

  function Repeat(r: Request, n: nat): seq<Request> {
    if n == 0 then [] else Repeat(r, n - 1) + [r]
  }

  lemma {:induction false} RepeatFacts(r: Request, n: nat)
    ensures |Repeat(r, n)| == n && forall x :: x in Repeat(r, n) ==> x == r
  {
    if n > 0 {
      RepeatFacts(r, n - 1);
    }
  }

  /** Well-formed requests of one address at one instant. */
  predicate AtOnce(rs: seq<Request>, ip: string, now: real) {
    rs == [] || (AtOnce(rs[..|rs| - 1], ip, now)
                 && rs[|rs| - 1].ip == ip && rs[|rs| - 1].now == now && WellFormed(rs[|rs| - 1]))
  }

  lemma {:induction false} AtOnceFacts(rs: seq<Request>, ip: string, now: real)
    requires AtOnce(rs, ip, now)
    ensures forall i :: 0 <= i < |rs| ==> rs[i].ip == ip && rs[i].now == now && WellFormed(rs[i])
  {
    if rs != [] {
      AtOnceFacts(rs[..|rs| - 1], ip, now);
    }
  }

  lemma AtOnceRuns(rs: seq<Request>, ip: string, now: real)
    requires AtOnce(rs, ip, now)
    ensures Nondecreasing(rs) && forall x :: x in rs ==> WellFormed(x)
  {
    AtOnceFacts(rs, ip, now);
  }

  lemma {:induction false} CountAtOnce(rs: seq<Request>, ip: string, now: real)
    requires AtOnce(rs, ip, now)
    ensures CountOfAddress(rs, ip, now, now + WINDOW) == |rs|
  {
    if rs != [] {
      CountAtOnce(rs[..|rs| - 1], ip, now);
    }
  }

  /** Everything is asked at one instant and forwarded. */
  predicate Burst(rs: seq<Request>, ip: string, now: real, perMinute: int)
    requires perMinute >= 1
  {
    Passed(rs, perMinute) == rs && AtOnce(rs, ip, now)
  }

  lemma {:induction false} RecentAtMost(h: seq<real>, now: real)
    ensures |Recent(h, now)| <= |h|
  {
    if h != [] {
      RecentAtMost(h[1..], now);
    }
  }

  lemma StillForwarded(rs: seq<Request>, r: Request, perMinute: int)
    requires perMinute >= 1 && AtOnce(rs, r.ip, r.now) && WellFormed(r) && Passed(rs, perMinute) == rs
    requires Counted(r) ==> |TimesAt(rs, r.ip, r.path)| < LimitForPath(r.path, perMinute)
    ensures DecisionAfter(rs, r, perMinute).Forwarded?
  {
    if Counted(r) {
      AtOnceFacts(rs, r.ip, r.now);
      PassedAreAdmitted(rs, r, perMinute);
      DecisionIsNaive(rs, r, perMinute);
      RecentAtMost(Admitted(rs, KeyOf(r), perMinute), r.now);
    }
  }

  /** A burst can go on with a path while fewer requests than its limit were made there. */
  lemma BurstGrows(rs: seq<Request>, r: Request, perMinute: int)
    requires perMinute >= 1 && Burst(rs, r.ip, r.now, perMinute) && WellFormed(r)
    requires Counted(r) ==> |TimesAt(rs, r.ip, r.path)| < LimitForPath(r.path, perMinute)
    ensures Burst(rs + [r], r.ip, r.now, perMinute)
  {
    StillForwarded(rs, r, perMinute);
    assert (rs + [r])[..|rs|] == rs;
  }

  lemma {:induction false} NoTimesAt(rs: seq<Request>, ip: string, path: string)
    requires forall r :: r in rs ==> r.path != path
    ensures TimesAt(rs, ip, path) == []
  {
    if rs != [] {
      assert rs[|rs| - 1] in rs;
      NoTimesAt(rs[..|rs| - 1], ip, path);
    }
  }

  lemma RepeatStep(rs: seq<Request>, r: Request, n: nat)
    requires n > 0
    ensures rs + Repeat(r, n) == (rs + Repeat(r, n - 1)) + [r]
  {
  }

  /** `n` requests more, to a path not asked for yet. */
  lemma {:induction false} BurstOnPath(rs: seq<Request>, r: Request, n: nat, perMinute: int)
    returns (t: seq<Request>)
    requires perMinute >= 1 && Burst(rs, r.ip, r.now, perMinute) && WellFormed(r)
    requires TimesAt(rs, r.ip, r.path) == []
    requires Counted(r) ==> n <= LimitForPath(r.path, perMinute)
    ensures t == rs + Repeat(r, n) && Burst(t, r.ip, r.now, perMinute) && |TimesAt(t, r.ip, r.path)| == n
  {
    if n == 0 {
      t := rs;
    } else {
      var front := BurstOnPath(rs, r, n - 1, perMinute);
      BurstGrows(front, r, perMinute);
      TimesAppend(front, r, r.ip, r.path);
      RepeatStep(rs, r, n);
      t := front + [r];
    }
  }

  /** A burst on one path. */
  lemma BurstFromNothing(r: Request, n: nat, perMinute: int)
    requires perMinute >= 1 && WellFormed(r)
    requires Counted(r) ==> n <= LimitForPath(r.path, perMinute)
    ensures Burst(Repeat(r, n), r.ip, r.now, perMinute)
  {
    var t := BurstOnPath([], r, n, perMinute);
    assert t == Repeat(r, n);
  }

  /** Every path asked for as often as its limit allows, at one instant. */
  function FullBurst(ip: string, paths: seq<string>, now: real, perMinute: int): seq<Request>
    requires perMinute >= 1
  {
    if paths == [] then []
    else
      var p := paths[|paths| - 1];
      FullBurst(ip, paths[..|paths| - 1], now, perMinute) + Repeat(Request(ip, p, now), LimitForPath(p, perMinute))
  }

  lemma {:induction false} FullBurstOn(ip: string, paths: seq<string>, now: real, perMinute: int)
    requires perMinute >= 1
    ensures |FullBurst(ip, paths, now, perMinute)| == SumLimits(paths, perMinute)
    ensures forall x :: x in FullBurst(ip, paths, now, perMinute) ==> x.path in paths
  {
    if paths != [] {
      var n := |paths| - 1;
      FullBurstOn(ip, paths[..n], now, perMinute);
      RepeatFacts(Request(ip, paths[n], now), LimitForPath(paths[n], perMinute));
      assert paths[n] in paths;
    }
  }

  lemma {:induction false} FullBurstPasses(ip: string, paths: seq<string>, now: real, perMinute: int)
    requires perMinute >= 1 && '/' !in ip && Distinct(paths) && forall p :: p in paths ==> OrdinaryPath(p)
    ensures Burst(FullBurst(ip, paths, now, perMinute), ip, now, perMinute)
  {
    if paths != [] {
      var n := |paths| - 1;
      var front, r := FullBurst(ip, paths[..n], now, perMinute), Request(ip, paths[n], now);
      FullBurstPasses(ip, paths[..n], now, perMinute);
      FullBurstOn(ip, paths[..n], now, perMinute);
      assert paths[n] in paths && paths[n] !in paths[..n];
      NoTimesAt(front, ip, paths[n]);
      var t := BurstOnPath(front, r, LimitForPath(paths[n], perMinute), perMinute);
      assert t == FullBurst(ip, paths, now, perMinute);
    }
  }

  /** The requests of an address forwarded in the window that starts at `lo`. */
  function InWindow(rs: seq<Request>, ip: string, lo: real, perMinute: int): nat
    requires perMinute >= 1
  {
    CountOfAddress(Passed(rs, perMinute), ip, lo, lo + WINDOW)
  }

  /** No window of the address holds more than `perMinute` forwarded requests, as the
      documentation has it. */
  ghost predicate DocumentedBound(rs: seq<Request>, ip: string, perMinute: int)
    requires perMinute >= 1
  {
    forall lo: real :: InWindow(rs, ip, lo, perMinute) <= perMinute
  }

  ghost predicate BoundOver(ip: string, paths: seq<string>, perMinute: int)
    requires perMinute >= 1
  {
    forall rs :: StaysWithin(rs, ip, paths) ==> DocumentedBound(rs, ip, perMinute)
  }

  lemma BurstBreaks(rs: seq<Request>, ip: string, paths: seq<string>, now: real, perMinute: int)
    requires perMinute >= 1 && Burst(rs, ip, now, perMinute) && |rs| > perMinute
    requires forall x :: x in rs ==> x.path in paths
    ensures !BoundOver(ip, paths, perMinute)
  {
    CountAtOnce(rs, ip, now);
    AtOnceRuns(rs, ip, now);
    assert StaysWithin(rs, ip, paths);
    assert InWindow(rs, ip, now, perMinute) > perMinute;
  }

  /** An exempt request can be repeated past any bound. */
  lemma ExemptBreaks(r: Request, paths: seq<string>, perMinute: int)
    requires perMinute >= 1 && WellFormed(r) && !Counted(r) && r.path in paths
    ensures !BoundOver(r.ip, paths, perMinute)
  {
    BurstFromNothing(r, perMinute + 1, perMinute);
    RepeatFacts(r, perMinute + 1);
    BurstBreaks(Repeat(r, perMinute + 1), r.ip, paths, r.now, perMinute);
  }

  lemma SumBreaks(ip: string, paths: seq<string>, perMinute: int)
    requires perMinute >= 1 && '/' !in ip && Distinct(paths) && forall p :: p in paths ==> OrdinaryPath(p)
    requires SumLimits(paths, perMinute) > perMinute
    ensures !BoundOver(ip, paths, perMinute)
  {
    FullBurstPasses(ip, paths, 0.0, perMinute);
    FullBurstOn(ip, paths, 0.0, perMinute);
    BurstBreaks(FullBurst(ip, paths, 0.0, perMinute), ip, paths, 0.0, perMinute);
  }

  lemma SumSuffices(ip: string, paths: seq<string>, perMinute: int)
    requires perMinute >= 1 && '/' !in ip && Distinct(paths)
    requires forall p :: p in paths ==> OrdinaryPath(p) && p !in EXEMPT_PATHS
    requires SumLimits(paths, perMinute) <= perMinute
    ensures BoundOver(ip, paths, perMinute)
  {
    forall rs, lo: real | StaysWithin(rs, ip, paths) ensures InWindow(rs, ip, lo, perMinute) <= perMinute {
      AddressBound(rs, ip, paths, lo, perMinute);
    }
  }

  /** Whatever the paths, some run gives the address the limits of all of them at once. */
  lemma AddressBoundReached(ip: string, paths: seq<string>, now: real, perMinute: int)
    requires perMinute >= 1 && '/' !in ip && Distinct(paths) && forall p :: p in paths ==> OrdinaryPath(p)
    ensures var rs := FullBurst(ip, paths, now, perMinute);
            StaysWithin(rs, ip, paths) && InWindow(rs, ip, now, perMinute) == SumLimits(paths, perMinute)
  {
    var rs := FullBurst(ip, paths, now, perMinute);
    FullBurstPasses(ip, paths, now, perMinute);
    FullBurstOn(ip, paths, now, perMinute);
    CountAtOnce(rs, ip, now);
    AtOnceRuns(rs, ip, now);
  }

  /** The documented bound per address holds on all runs over some paths if and only
      if none of them is exempt and their limits together do not exceed it. */
  lemma AddressBoundExactly(ip: string, paths: seq<string>, perMinute: int)
    requires perMinute >= 1 && '/' !in ip && Distinct(paths) && forall p :: p in paths ==> OrdinaryPath(p)
    ensures BoundOver(ip, paths, perMinute)
       <==> (forall p :: p in paths ==> p !in EXEMPT_PATHS) && SumLimits(paths, perMinute) <= perMinute
  {
    if p :| p in paths && p in EXEMPT_PATHS {
      ExemptBreaks(Request(ip, p, 0.0), paths, perMinute);
    } else if SumLimits(paths, perMinute) > perMinute {
      SumBreaks(ip, paths, perMinute);
    } else {
      SumSuffices(ip, paths, perMinute);
    }
  }

  lemma TwoPathsPass(ip: string, a: string, b: string, now: real, perMinute: int)
    requires perMinute >= 1 && '/' !in ip && a != b && OrdinaryPath(a) && OrdinaryPath(b)
    requires LimitForPath(a, perMinute) == perMinute
    ensures Burst(Repeat(Request(ip, a, now), perMinute) + [Request(ip, b, now)], ip, now, perMinute)
  {
    var front := Repeat(Request(ip, a, now), perMinute);
    RepeatFacts(Request(ip, a, now), perMinute);
    BurstFromNothing(Request(ip, a, now), perMinute, perMinute);
    NoTimesAt(front, ip, b);
    BurstGrows(front, Request(ip, b, now), perMinute);
  }

  /** A run that breaks it: `perMinute` requests to one path and one to another, all
      from one address at one instant, and all forwarded. */
  lemma TwoPathsExceed(ip: string, a: string, b: string, now: real, perMinute: int)
    requires perMinute >= 1 && '/' !in ip && a != b && OrdinaryPath(a) && OrdinaryPath(b)
    requires LimitForPath(a, perMinute) == perMinute
    ensures var rs := Repeat(Request(ip, a, now), perMinute) + [Request(ip, b, now)];
            Passed(rs, perMinute) == rs && InWindow(rs, ip, now, perMinute) == perMinute + 1
  {
    var rs := Repeat(Request(ip, a, now), perMinute) + [Request(ip, b, now)];
    RepeatFacts(Request(ip, a, now), perMinute);
    TwoPathsPass(ip, a, b, now, perMinute);
    CountAtOnce(rs, ip, now);
  }
}
