/** The lockout counter of `login` (backend/app/services/auth_service.py).

    A login reads the clock twice: once to test the lock and once, after the
    password check, to set it. Logins of one account are whole steps.

    The theorems about the service take its flushes to stick. The endpoint
    (backend/app/routers/auth.py:39-42) runs it in the request wrapper, which rolls
    back when a handler raises (backend/app/database.py:37-46), and a failed login
    raises after its flush. The last section says exactly what is left of the
    lockout under that wrapper. */
module Login {
  import opened Wrappers

  /** MAX_LOGIN_ATTEMPTS and LOCKOUT_DURATION_MINUTES. */
  datatype Settings = Settings(maxAttempts: int, lockout: real)

  datatype Account = Account(failed: nat, lockedUntil: Option<real>, lastLogin: Option<real>)

  /** A login by this account, or a platform password reset. */
  datatype Event =
    | Attempt(checkedAt: real, passwordOk: bool, active: bool, recordedAt: real)
    | Reset

  datatype Outcome = Locked | BadCredentials | Deactivated | LoggedIn | WasReset

  const FRESH := Account(0, None, None)

  function Step(a: Account, e: Event, cfg: Settings): (Account, Outcome) {
    match e
    case Reset => (Account(0, None, a.lastLogin), WasReset)
    case Attempt(checkedAt, passwordOk, active, recordedAt) =>
      if a.lockedUntil.Some? && a.lockedUntil.value > checkedAt then (a, Locked)
      else if !passwordOk then
        var failed := a.failed + 1;
        (a.(failed := failed,
            lockedUntil := if failed >= cfg.maxAttempts then Some(recordedAt + cfg.lockout) else a.lockedUntil),
         BadCredentials)
      else if !active then (a, Deactivated)
      else (Account(0, None, Some(recordedAt)), LoggedIn)
  }

  function Run(es: seq<Event>, cfg: Settings): Account {
    if es == [] then FRESH else Step(Run(es[..|es| - 1], cfg), es[|es| - 1], cfg).0
  }

  /** The row of one user. */
  class UserRow {
    var failedLoginAttempts: nat
    var lockedUntil: Option<real>
    var lastLogin: Option<real>
    var isActive: bool

    ghost function View(): Account
      reads this
    {
      Account(failedLoginAttempts, lockedUntil, lastLogin)
    }

    constructor ()
      ensures View() == FRESH && isActive
    {
      failedLoginAttempts, lockedUntil, lastLogin, isActive := 0, None, None, true;
    }

    method TryLogin(checkedAt: real, passwordOk: bool, recordedAt: real, cfg: Settings) returns (r: Outcome)
      modifies this`failedLoginAttempts, this`lockedUntil, this`lastLogin
      ensures (View(), r) == Step(old(View()), Attempt(checkedAt, passwordOk, isActive, recordedAt), cfg)
    {
      if lockedUntil.Some? && lockedUntil.value > checkedAt {
        return Locked;
      }
      if !passwordOk {
        failedLoginAttempts := failedLoginAttempts + 1;
        if failedLoginAttempts >= cfg.maxAttempts {
          lockedUntil := Some(recordedAt + cfg.lockout);
        }
        return BadCredentials;
      }
      if !isActive {
        return Deactivated;
      }
      failedLoginAttempts := 0;
      lockedUntil := None;
      lastLogin := Some(recordedAt);
      return LoggedIn;
    }

    method ResetPassword()
      modifies this`failedLoginAttempts, this`lockedUntil
      ensures View() == Step(old(View()), Reset, Settings(1, 0.0)).0
    {
      failedLoginAttempts := 0;
      lockedUntil := None;
    }
  }

  /** The accounts by address. A login under an unknown one fails as a wrong password
      does and leaves every account alone. */
  function TableStep(accounts: map<string, Account>, email: string, e: Event, cfg: Settings)
    : (map<string, Account>, Outcome)
  {
    if email !in accounts then (accounts, if e.Attempt? then BadCredentials else WasReset)
    else
      var (a, r) := Step(accounts[email], e, cfg);
      (accounts[email := a], r)
  }

  class AuthService {
    const users: map<string, UserRow>

    constructor (users: map<string, UserRow>)
      ensures this.users == users
    {
      this.users := users;
    }

    /** No two addresses share a row (the column is unique). */
    ghost predicate Valid()
    {
      forall a, b :: a in users && b in users && users[a] == users[b] ==> a == b
    }

    ghost function View(): map<string, Account>
      reads users.Values
    {
      map email | email in users :: users[email].View()
    }

    /** `passwordOk` is the check against the stored hash, or against the dummy one. */
    method Login(email: string, checkedAt: real, passwordOk: bool, recordedAt: real, cfg: Settings)
      returns (r: Outcome)
      requires Valid()
      modifies users.Values
      ensures var active := email in users && old(users[email].isActive);
              (View(), r) == TableStep(old(View()), email, Attempt(checkedAt, passwordOk, active, recordedAt), cfg)
    {
      if email !in users {
        return BadCredentials;
      }
      ghost var before := View();
      r := users[email].TryLogin(checkedAt, passwordOk, recordedAt, cfg);
      assert forall other :: other in users && other != email ==> users[other].View() == before[other];
      assert View() == before[email := users[email].View()];
    }
  }

  // --------------------------------------------------------------- the history

  function OutcomeAfter(es: seq<Event>, e: Event, cfg: Settings): Outcome {
    Step(Run(es, cfg), e, cfg).1
  }

  /** The failed password checks since the last successful login or reset. */
  function Failures(es: seq<Event>, cfg: Settings): (fs: seq<Event>)
    ensures forall f :: f in fs ==> f.Attempt? && f in es
  {
    if es == [] then []
    else
      var before, e := es[..|es| - 1], es[|es| - 1];
      match OutcomeAfter(before, e, cfg)
      case BadCredentials => Failures(before, cfg) + [e]
      case LoggedIn => []
      case WasReset => []
      case _ => Failures(before, cfg)
  }

  /** Both clock readings of every event, and the events themselves, are in order. */
  ghost predicate WellTimed(es: seq<Event>) {
    && (forall e :: e in es && e.Attempt? ==> e.checkedAt <= e.recordedAt)
    && forall i, j :: 0 <= i < j < |es| && es[i].Attempt? && es[j].Attempt? ==> es[i].recordedAt <= es[j].checkedAt
  }

  /** The counter always equals the failures since the last success or reset, and
      the lock ends one lockout after the last of them once there are enough. */
  lemma {:induction false} CounterIsFailures(es: seq<Event>, cfg: Settings)
    requires cfg.maxAttempts >= 1
    ensures var a, fs := Run(es, cfg), Failures(es, cfg);
            && a.failed == |fs|
            && a.lockedUntil == if |fs| >= cfg.maxAttempts then Some(fs[|fs| - 1].recordedAt + cfg.lockout) else None
  {
    if es != [] {
      CounterIsFailures(es[..|es| - 1], cfg);
    }
  }

  /** A login is turned away unheard, even with the right password, exactly while
      the lock of the last failure lasts. */
  lemma LockedExactly(es: seq<Event>, e: Event, cfg: Settings)
    requires cfg.maxAttempts >= 1 && e.Attempt?
    ensures var fs := Failures(es, cfg);
            OutcomeAfter(es, e, cfg) == Locked
            <==> |fs| >= cfg.maxAttempts && e.checkedAt < fs[|fs| - 1].recordedAt + cfg.lockout
  {
    CounterIsFailures(es, cfg);
  }

  /** From the maxAttempts-th failure on, each failure comes at least one lockout
      after the one before it. */
  ghost predicate SpacedOut(fs: seq<Event>, cfg: Settings)
    requires forall f :: f in fs ==> f.Attempt?
  {
    forall i, j :: 0 <= i < j < |fs| && j == i + 1 && j >= cfg.maxAttempts ==>
      fs[j].checkedAt >= fs[i].recordedAt + cfg.lockout
  }

  lemma {:induction false} FailuresSpacedOut(es: seq<Event>, cfg: Settings)
    requires cfg.maxAttempts >= 1
    ensures SpacedOut(Failures(es, cfg), cfg)
  {
    if es != [] {
      FailuresSpacedOut(es[..|es| - 1], cfg);
      CounterIsFailures(es[..|es| - 1], cfg);
    }
  }

  lemma AppendInOrder(fs: seq<Event>, e: Event)
    requires WellTimed(fs) && e.Attempt? && e.checkedAt <= e.recordedAt
    requires forall f :: f in fs ==> f.Attempt? && f.recordedAt <= e.checkedAt
    ensures WellTimed(fs + [e])
  {
    assert forall i :: 0 <= i < |fs| ==> fs[i] in fs;
  }

  lemma FailuresPrecede(es: seq<Event>, cfg: Settings)
    requires es != [] && WellTimed(es) && es[|es| - 1].Attempt?
    ensures forall f :: f in Failures(es[..|es| - 1], cfg) ==> f.recordedAt <= es[|es| - 1].checkedAt
  {
    var n := |es| - 1;
    forall f | f in Failures(es[..n], cfg) ensures f.recordedAt <= es[n].checkedAt {
      assert f in es[..n];
      var k :| 0 <= k < n && es[..n][k] == f;
      assert es[k] == f;
    }
  }

  lemma {:induction false} FailuresInOrder(es: seq<Event>, cfg: Settings)
    requires WellTimed(es)
    ensures WellTimed(Failures(es, cfg))
  {
    if es != [] {
      var before, e := es[..|es| - 1], es[|es| - 1];
      assert WellTimed(before) by {
        assert forall x :: x in before ==> x in es;
      }
      FailuresInOrder(before, cfg);
      if OutcomeAfter(before, e, cfg) == BadCredentials {
        FailuresPrecede(es, cfg);
        AppendInOrder(Failures(before, cfg), e);
      }
    }
  }

  /** j * d, by repeated addition */
  function Times(j: nat, d: real): real {
    if j == 0 then 0.0 else Times(j - 1, d) + d
  }

  lemma {:induction false} TimesIsProduct(j: nat, d: real)
    ensures Times(j, d) == j as real * d
  {
    if j > 0 {
      TimesIsProduct(j - 1, d);
      assert j as real * d == (j - 1) as real * d + d;
    }
  }

  lemma {:induction false} SpacedSlowDown(fs: seq<Event>, j: nat, cfg: Settings)
    requires cfg.maxAttempts >= 1
    requires forall f :: f in fs ==> f.Attempt?
    requires SpacedOut(fs, cfg) && WellTimed(fs)
    requires cfg.maxAttempts - 1 + j < |fs|
    ensures fs[cfg.maxAttempts - 1 + j].recordedAt >= fs[cfg.maxAttempts - 1].recordedAt + Times(j, cfg.lockout)
  {
    if j > 0 {
      SpacedSlowDown(fs, j - 1, cfg);
      var m := cfg.maxAttempts - 1 + j;
      assert fs[m] in fs && fs[m].checkedAt >= fs[m - 1].recordedAt + cfg.lockout;
    }
  }

  lemma FailuresSlowDownBy(es: seq<Event>, j: nat, cfg: Settings)
    requires cfg.maxAttempts >= 1 && WellTimed(es)
    requires cfg.maxAttempts - 1 + j < |Failures(es, cfg)|
    ensures var fs := Failures(es, cfg);
            fs[cfg.maxAttempts - 1 + j].recordedAt >= fs[cfg.maxAttempts - 1].recordedAt + Times(j, cfg.lockout)
  {
    FailuresSpacedOut(es, cfg);
    FailuresInOrder(es, cfg);
    SpacedSlowDown(Failures(es, cfg), j, cfg);
  }

  /** `late` comes at least `j` times `d` after `early`. */
  predicate LaterBy(late: real, early: real, j: nat, d: real) {
    late - early >= j as real * d
  }

  lemma LaterByTimes(late: real, early: real, j: nat, d: real)
    requires late >= early + Times(j, d)
    ensures LaterBy(late, early, j, d)
  {
    TimesIsProduct(j, d);
  }

  /** Failure maxAttempts + j comes at least j lockouts after failure maxAttempts. */
  lemma FailuresSlowDown(es: seq<Event>, j: nat, cfg: Settings)
    requires cfg.maxAttempts >= 1 && WellTimed(es)
    requires cfg.maxAttempts - 1 + j < |Failures(es, cfg)|
    ensures var fs := Failures(es, cfg);
            LaterBy(fs[cfg.maxAttempts - 1 + j].recordedAt, fs[cfg.maxAttempts - 1].recordedAt, j, cfg.lockout)
  {
    var fs := Failures(es, cfg);
    FailuresSlowDownBy(es, j, cfg);
    LaterByTimes(fs[cfg.maxAttempts - 1 + j].recordedAt, fs[cfg.maxAttempts - 1].recordedAt, j, cfg.lockout);
  }

  function CountIn(fs: seq<Event>, lo: real, hi: real): nat
    requires forall f :: f in fs ==> f.Attempt?
  {
    if fs == [] then 0
    else
      var n := |fs| - 1;
      assert fs[n] in fs;
      CountIn(fs[..n], lo, hi) + (if lo <= fs[n].checkedAt < hi then 1 else 0)
  }

  lemma {:induction false} CountAtMostLength(fs: seq<Event>, lo: real, hi: real)
    requires forall f :: f in fs ==> f.Attempt?
    ensures CountIn(fs, lo, hi) <= |fs|
    ensures (forall f :: f in fs ==> f.checkedAt < lo) ==> CountIn(fs, lo, hi) == 0
  {
    if fs != [] {
      CountAtMostLength(fs[..|fs| - 1], lo, hi);
      assert fs[|fs| - 1] in fs;
    }
  }

  /** Any half-open interval of one lockout holds at most maxAttempts failed
      password checks of an unbroken series. */
  lemma LockoutBound(es: seq<Event>, lo: real, cfg: Settings)
    requires cfg.maxAttempts >= 1 && cfg.lockout >= 0.0 && WellTimed(es)
    ensures CountIn(Failures(es, cfg), lo, lo + cfg.lockout) <= cfg.maxAttempts
  {
    FailuresSpacedOut(es, cfg);
    FailuresInOrder(es, cfg);
    SpacedCountBound(Failures(es, cfg), lo, cfg);
  }

  /** What happened no later than the last but one failure happened before it was recorded. */
  lemma OlderFailures(fs: seq<Event>, lo: real)
    requires forall f :: f in fs ==> f.Attempt?
    requires WellTimed(fs) && |fs| > 1 && fs[|fs| - 2].recordedAt < lo
    ensures forall f :: f in fs[..|fs| - 1] ==> f.checkedAt < lo
  {
  }

  /** The last but one failure was recorded before the interval. */
  lemma LastButOne(fs: seq<Event>, lo: real, cfg: Settings)
    requires cfg.maxAttempts >= 1 && |fs| > cfg.maxAttempts
    requires forall f :: f in fs ==> f.Attempt?
    requires SpacedOut(fs, cfg)
    requires fs[|fs| - 1] in fs && fs[|fs| - 1].checkedAt < lo + cfg.lockout
    ensures fs[|fs| - 2] in fs && fs[|fs| - 2].recordedAt < lo
  {
    var i, j := |fs| - 2, |fs| - 1;
    assert fs[i] in fs && fs[j] in fs && fs[j].checkedAt >= fs[i].recordedAt + cfg.lockout;
  }

  lemma PrefixSpaced(fs: seq<Event>, n: nat, cfg: Settings)
    requires n <= |fs| && forall f :: f in fs ==> f.Attempt?
    requires SpacedOut(fs, cfg) && WellTimed(fs)
    ensures forall f :: f in fs[..n] ==> f.Attempt?
    ensures SpacedOut(fs[..n], cfg) && WellTimed(fs[..n])
  {
  }

  /** Where the last failure is in the interval, none before it is. */
  lemma LastInWindowIsAlone(fs: seq<Event>, lo: real, cfg: Settings)
    requires cfg.maxAttempts >= 1 && |fs| > cfg.maxAttempts
    requires forall f :: f in fs ==> f.Attempt?
    requires SpacedOut(fs, cfg) && WellTimed(fs)
    requires fs[|fs| - 1] in fs && fs[|fs| - 1].checkedAt < lo + cfg.lockout
    ensures CountIn(fs[..|fs| - 1], lo, lo + cfg.lockout) == 0
  {
    LastButOne(fs, lo, cfg);
    OlderFailures(fs, lo);
    CountAtMostLength(fs[..|fs| - 1], lo, lo + cfg.lockout);
  }

  lemma CountWithLast(fs: seq<Event>, lo: real, hi: real)
    requires fs != [] && forall f :: f in fs ==> f.Attempt?
    requires fs[|fs| - 1] in fs
    ensures CountIn(fs, lo, hi)
         == CountIn(fs[..|fs| - 1], lo, hi) + (if lo <= fs[|fs| - 1].checkedAt < hi then 1 else 0)
  {
  }

  lemma LastInWindow(fs: seq<Event>, lo: real, cfg: Settings)
    requires cfg.maxAttempts >= 1 && |fs| > cfg.maxAttempts
    requires forall f :: f in fs ==> f.Attempt?
    requires SpacedOut(fs, cfg) && WellTimed(fs)
    requires fs[|fs| - 1] in fs && lo <= fs[|fs| - 1].checkedAt < lo + cfg.lockout
    ensures CountIn(fs, lo, lo + cfg.lockout) == 1
  {
    LastInWindowIsAlone(fs, lo, cfg);
    CountWithLast(fs, lo, lo + cfg.lockout);
  }

  lemma {:induction false} SpacedCountBound(fs: seq<Event>, lo: real, cfg: Settings)
    requires cfg.maxAttempts >= 1 && cfg.lockout >= 0.0
    requires forall f :: f in fs ==> f.Attempt?
    requires SpacedOut(fs, cfg) && WellTimed(fs)
    ensures CountIn(fs, lo, lo + cfg.lockout) <= cfg.maxAttempts
  {
    if |fs| <= cfg.maxAttempts {
      CountAtMostLength(fs, lo, lo + cfg.lockout);
    } else {
      var n := |fs| - 1;
      assert fs[n] in fs;
      if lo <= fs[n].checkedAt < lo + cfg.lockout {
        LastInWindow(fs, lo, cfg);
      } else {
        CountWithLast(fs, lo, lo + cfg.lockout);
        PrefixSpaced(fs, n, cfg);
        SpacedCountBound(fs[..n], lo, cfg);
      }
    }
  }

  // ------------------------------------------------------ under the request wrapper

  /** The request wrapper keeps what the handler did only if it did not raise. */
  function RequestStep(a: Account, e: Event, cfg: Settings): (Account, Outcome) {
    var (b, r) := Step(a, e, cfg);
    (if r == LoggedIn || r == WasReset then b else a, r)
  }

  function RequestRun(es: seq<Event>, cfg: Settings): Account {
    if es == [] then FRESH else RequestStep(RequestRun(es[..|es| - 1], cfg), es[|es| - 1], cfg).0
  }

  /** The outcome of the event at `i`, for the service on its own and for the endpoint. */
  function ServiceOutcome(es: seq<Event>, i: nat, cfg: Settings): Outcome
    requires i < |es|
  {
    Step(Run(es[..i], cfg), es[i], cfg).1
  }

  function RequestOutcome(es: seq<Event>, i: nat, cfg: Settings): Outcome
    requires i < |es|
  {
    RequestStep(RequestRun(es[..i], cfg), es[i], cfg).1
  }

  /** What an event comes to when there is no lock. */
  function Unlocked(e: Event): Outcome {
    match e
    case Reset => WasReset
    case Attempt(_, passwordOk, active, _) =>
      if !passwordOk then BadCredentials else if !active then Deactivated else LoggedIn
  }

  function LastSuccess(es: seq<Event>): Option<real> {
    if es == [] then None
    else
      var e := es[|es| - 1];
      if Unlocked(e) == LoggedIn then Some(e.recordedAt) else LastSuccess(es[..|es| - 1])
  }

  /** Over whole requests the counter stays at zero, the lock is never set, and every
      login is answered on its own merits, whatever came before it. */
  lemma {:induction false} NeverLockedOverRequests(es: seq<Event>, cfg: Settings)
    ensures RequestRun(es, cfg) == Account(0, None, LastSuccess(es))
    ensures forall i :: 0 <= i < |es| ==> RequestOutcome(es, i, cfg) == Unlocked(es[i])
  {
    if es != [] {
      var before := es[..|es| - 1];
      NeverLockedOverRequests(before, cfg);
      forall i | 0 <= i < |es| ensures RequestOutcome(es, i, cfg) == Unlocked(es[i]) {
        if i < |before| {
          assert es[..i] == before[..i];
          assert RequestOutcome(before, i, cfg) == Unlocked(before[i]);
        }
      }
    }
  }

  /** So the endpoint answers a run as the service alone would if and only if the
      lockout would turn no login of it away, and it keeps the same counter and lock
      if and only if no failure stands on the service's. */
  lemma RequestsKeepLockoutExactly(es: seq<Event>, cfg: Settings)
    requires cfg.maxAttempts >= 1
    ensures (forall i :: 0 <= i < |es| ==> RequestOutcome(es, i, cfg) == ServiceOutcome(es, i, cfg))
       <==> (forall i :: 0 <= i < |es| ==> ServiceOutcome(es, i, cfg) != Locked)
    ensures var a, b := RequestRun(es, cfg), Run(es, cfg);
            a.failed == b.failed && a.lockedUntil == b.lockedUntil <==> Failures(es, cfg) == []
  {
    NeverLockedOverRequests(es, cfg);
    CounterIsFailures(es, cfg);
    forall i | 0 <= i < |es|
      ensures RequestOutcome(es, i, cfg) == ServiceOutcome(es, i, cfg) <==> ServiceOutcome(es, i, cfg) != Locked
    {
      assert RequestOutcome(es, i, cfg) == Unlocked(es[i]);
    }
  }

  // --------------------------------------------------------- where the two differ

  /** The same wrong password over and over, at one time. */
  function WrongPasswords(now: real, n: nat): (es: seq<Event>)
    ensures |es| == n && forall e :: e in es ==> e.Attempt?
  {
    if n == 0 then [] else WrongPasswords(now, n - 1) + [Attempt(now, false, true, now)]
  }

  lemma OneMoreFailure(es: seq<Event>, e: Event, cfg: Settings)
    requires 1 <= cfg.maxAttempts && |Failures(es, cfg)| < cfg.maxAttempts
    requires e.Attempt? && !e.passwordOk
    ensures Failures(es + [e], cfg) == Failures(es, cfg) + [e]
  {
    CounterIsFailures(es, cfg);
    assert (es + [e])[..|es|] == es;
  }

  lemma {:induction false} WrongPasswordsFail(now: real, n: nat, cfg: Settings)
    requires 1 <= cfg.maxAttempts && n <= cfg.maxAttempts
    ensures Failures(WrongPasswords(now, n), cfg) == WrongPasswords(now, n)
    ensures n > 0 ==> WrongPasswords(now, n)[n - 1] == Attempt(now, false, true, now)
  {
    if n > 0 {
      WrongPasswordsFail(now, n - 1, cfg);
      OneMoreFailure(WrongPasswords(now, n - 1), Attempt(now, false, true, now), cfg);
    }
  }

  /** After as many wrong passwords as are allowed, the service alone turns the right
      one away for the whole lockout; the endpoint lets it in at once. */
  lemma LockoutLostOverRequests(now: real, later: real, cfg: Settings)
    requires cfg.maxAttempts >= 1 && now <= later < now + cfg.lockout
    ensures var es := WrongPasswords(now, cfg.maxAttempts) + [Attempt(later, true, true, later)];
            && ServiceOutcome(es, cfg.maxAttempts, cfg) == Locked
            && RequestOutcome(es, cfg.maxAttempts, cfg) == LoggedIn
  {
    var wrong, right := WrongPasswords(now, cfg.maxAttempts), Attempt(later, true, true, later);
    var es := wrong + [right];
    assert es[..cfg.maxAttempts] == wrong && es[cfg.maxAttempts] == right;
    WrongPasswordsFail(now, cfg.maxAttempts, cfg);
    LockedExactly(wrong, right, cfg);
    NeverLockedOverRequests(es, cfg);
  }

  // ------------------------------------------------------------ all the addresses

  datatype Call = Call(email: string, event: Event)

  /** A run over the accounts of these addresses, all new at first. */
  function TableRun(emails: set<string>, calls: seq<Call>, cfg: Settings): map<string, Account> {
    if calls == [] then map email | email in emails :: FRESH
    else
      var call := calls[|calls| - 1];
      TableStep(TableRun(emails, calls[..|calls| - 1], cfg), call.email, call.event, cfg).0
  }

  function EventsOf(calls: seq<Call>, email: string): seq<Event> {
    if calls == [] then []
    else
      var call := calls[|calls| - 1];
      EventsOf(calls[..|calls| - 1], email) + (if call.email == email then [call.event] else [])
  }

  lemma RunAppend(es: seq<Event>, e: Event, cfg: Settings)
    ensures Run(es + [e], cfg) == Step(Run(es, cfg), e, cfg).0 && es + [] == es
  {
    assert (es + [e])[..|es|] == es;
  }

  /** Every account is what the calls to its own address made it, and no call adds or
      removes one. */
  lemma {:induction false} AccountsIndependent(emails: set<string>, calls: seq<Call>, email: string, cfg: Settings)
    ensures email in TableRun(emails, calls, cfg) <==> email in emails
    ensures email in emails ==> TableRun(emails, calls, cfg)[email] == Run(EventsOf(calls, email), cfg)
  {
    if calls != [] {
      var before, call := calls[..|calls| - 1], calls[|calls| - 1];
      AccountsIndependent(emails, before, email, cfg);
      RunAppend(EventsOf(before, email), call.event, cfg);
    }
  }

  /** A login under an unknown address is answered as a wrong password is on an account
      that nobody ever tried, and a known one as if it were alone. */
  lemma AnswersByAddress(emails: set<string>, calls: seq<Call>, email: string, e: Event, cfg: Settings)
    requires e.Attempt?
    ensures var (t, r) := TableStep(TableRun(emails, calls, cfg), email, e, cfg);
            && (email in emails ==> r == OutcomeAfter(EventsOf(calls, email), e, cfg))
            && (email !in emails ==>
                  && r == OutcomeAfter([], e.(passwordOk := false), cfg) == BadCredentials
                  && t == TableRun(emails, calls, cfg))
  {
    AccountsIndependent(emails, calls, email, cfg);
  }
}
