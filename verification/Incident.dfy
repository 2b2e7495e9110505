/** The incident status machine: `create` and `transition_status` of
    backend/app/services/incident_service.py. */
module IncidentStatus {
  import opened Wrappers

  /** The values of IncidentStatus; the column and the request are plain strings,
      so any other text is possible too. */
  datatype Status = New | Triaging | Contained | Eradicating | Recovering | Closed | Reopened | Other(text: string)

  /** The `valid_transitions` table; a status outside it allows nothing. */
  function Allowed(status: Status): seq<Status> {
    match status
    case New => [Triaging]
    case Triaging => [Contained, Closed]
    case Contained => [Eradicating, Closed]
    case Eradicating => [Recovering]
    case Recovering => [Closed]
    case Closed => [Reopened]
    case Reopened => [Triaging, Closed]
    case Other(_) => []
  }

  datatype Action = Created | StatusChange(from: Status, to: Status)

  datatype Error = ConflictError

  datatype State = State(status: Status, closedAt: Option<real>, actions: seq<Action>)

  /** A call of transition_status: the requested status and the clock. */
  datatype Request = Request(to: Status, now: real)

  const CREATED := State(New, None, [Created])

  function Step(s: State, r: Request): (State, Result<Status, Error>) {
    if r.to !in Allowed(s.status) then (s, Err(ConflictError))
    else
      var closedAt := if r.to == Closed then Some(r.now) else if r.to == Reopened then None else s.closedAt;
      (State(r.to, closedAt, s.actions + [StatusChange(s.status, r.to)]), Ok(r.to))
  }

  function Run(rs: seq<Request>): State {
    if rs == [] then CREATED else Step(Run(rs[..|rs| - 1]), rs[|rs| - 1]).0
  }

  class Incident {
    var status: Status
    var closedAt: Option<real>
    var actions: seq<Action>

    ghost function View(): State
      reads this
    {
      State(status, closedAt, actions)
    }

    constructor ()
      ensures View() == CREATED
    {
      status, closedAt, actions := New, None, [Created];
    }

    method TransitionStatus(newStatus: Status, now: real) returns (r: Result<Status, Error>)
      modifies this
      ensures (View(), r) == Step(old(View()), Request(newStatus, now))
    {
      if newStatus !in Allowed(status) {
        return Err(ConflictError);
      }
      var oldStatus := status;
      status := newStatus;
      if newStatus == Closed {
        closedAt := Some(now);
      } else if newStatus == Reopened {
        closedAt := None;
      }
      actions := actions + [StatusChange(oldStatus, newStatus)];
      return Ok(newStatus);
    }
  }

  // ------------------------------------------------------------ replaying the log

  /** The status the log leads to from "new", None where an entry does not start
      where the one before it ended. */
  function Replay(actions: seq<Action>): Option<Status> {
    if actions == [] then Some(New)
    else
      var before := Replay(actions[..|actions| - 1]);
      match actions[|actions| - 1]
      case Created => before
      case StatusChange(from, to) => if before == Some(from) then Some(to) else None
  }

  function Entries(actions: seq<Action>, status: Status): nat {
    if actions == [] then 0
    else
      var a := actions[|actions| - 1];
      Entries(actions[..|actions| - 1], status) + (if a.StatusChange? && a.to == status then 1 else 0)
  }

  /** When the incident was last closed, from the accepted requests alone. */
  function LastClosed(rs: seq<Request>): Option<real> {
    if rs == [] then None
    else
      var before, r := rs[..|rs| - 1], rs[|rs| - 1];
      if r.to == Closed && Step(Run(before), r).1.Ok? then Some(r.now) else LastClosed(before)
  }

  /** The log replays to the status and chains, closed_at is set exactly while
      closed, closings outnumber reopenings by one exactly while closed, and "new"
      is never entered again. */
  ghost predicate LogOk(s: State) {
    && !s.status.Other?
    && Replay(s.actions) == Some(s.status)
    && (s.closedAt.Some? <==> s.status == Closed)
    && Entries(s.actions, Closed) == Entries(s.actions, Reopened) + (if s.status == Closed then 1 else 0)
    && Entries(s.actions, New) == 0
  }

  lemma LogAppend(actions: seq<Action>, from: Status, to: Status, status: Status)
    ensures var log := actions + [StatusChange(from, to)];
            && Replay(log) == (if Replay(actions) == Some(from) then Some(to) else None)
            && Entries(log, status) == Entries(actions, status) + (if to == status then 1 else 0)
  {
    var log := actions + [StatusChange(from, to)];
    assert log[..|log| - 1] == actions;
  }

  lemma StepLogOk(s: State, r: Request)
    requires LogOk(s)
    ensures LogOk(Step(s, r).0)
  {
    if r.to in Allowed(s.status) {
      LogAppend(s.actions, s.status, r.to, Closed);
      LogAppend(s.actions, s.status, r.to, Reopened);
      LogAppend(s.actions, s.status, r.to, New);
    }
  }

  lemma {:induction false} LogTellsTheStatus(rs: seq<Request>)
    ensures LogOk(Run(rs))
  {
    if rs == [] {
      assert CREATED.actions[..0] == [];
    } else {
      LogTellsTheStatus(rs[..|rs| - 1]);
      StepLogOk(Run(rs[..|rs| - 1]), rs[|rs| - 1]);
    }
  }

  /** While closed, closed_at is the time of the last accepted closing. */
  lemma {:induction false} ClosedAtIsLastClosing(rs: seq<Request>)
    ensures Run(rs).status == Closed ==> Run(rs).closedAt == LastClosed(rs)
  {
    if rs != [] {
      ClosedAtIsLastClosing(rs[..|rs| - 1]);
    }
  }

  /** Every logged change is one the table allows. */
  lemma {:induction false} LogObeysTable(rs: seq<Request>)
    ensures forall a :: a in Run(rs).actions && a.StatusChange? ==> a.to in Allowed(a.from)
  {
    if rs != [] {
      LogObeysTable(rs[..|rs| - 1]);
    }
  }

  /** The edges of the status graph: containment follows triage, eradication follows
      containment, recovery follows eradication; an incident is closed from triage,
      containment, recovery or after reopening, and reopened only once closed. */
  lemma EdgesExactly(s: State, r: Request)
    ensures Step(s, r).1 == Ok(r.to) <==>
              match r.to
              case New => false
              case Triaging => s.status == New || s.status == Reopened
              case Contained => s.status == Triaging
              case Eradicating => s.status == Contained
              case Recovering => s.status == Eradicating
              case Closed => s.status in {Triaging, Contained, Recovering, Reopened}
              case Reopened => s.status == Closed
              case Other(_) => false
    ensures Step(s, r).1 != Ok(r.to) ==> Step(s, r) == (s, Err(ConflictError))
  {
  }

  /** The shortest list of requests that closes an incident. */
  function WayToClose(status: Status): seq<Status> {
    if status == Closed then []
    else if Closed in Allowed(status) then [Closed]
    else if status == New then [Triaging, Closed]
    else [Recovering, Closed]
  }

  function Follow(s: State, path: seq<Status>, now: real): State
    decreases |path|
  {
    if path == [] then s else Follow(Step(s, Request(path[0], now)).0, path[1..], now)
  }

  /** From any reachable state closed is at most two transitions away, and no
      shorter way than WayToClose exists. */
  lemma AlwaysClosable(rs: seq<Request>, now: real)
    ensures var s := Run(rs);
            && |WayToClose(s.status)| <= 2
            && Follow(s, WayToClose(s.status), now).status == Closed
            && (forall path :: |path| < |WayToClose(s.status)| ==> Follow(s, path, now).status != Closed)
  {
    LogTellsTheStatus(rs);
    var s := Run(rs);
    var way := WayToClose(s.status);
    WayCloses(s, now);
    forall path: seq<Status> | |path| < |way| ensures Follow(s, path, now).status != Closed {
      NoShorterWay(s, path, now);
    }
  }

  lemma WayCloses(s: State, now: real)
    requires !s.status.Other?
    ensures Follow(s, WayToClose(s.status), now).status == Closed
  {
    var way := WayToClose(s.status);
    if |way| == 1 {
      FollowOne(s, Closed, now);
    } else if |way| == 2 {
      FollowTwo(s, way[0], Closed, now);
    }
  }

  lemma NoShorterWay(s: State, path: seq<Status>, now: real)
    requires !s.status.Other? && |path| < |WayToClose(s.status)|
    ensures Follow(s, path, now).status != Closed
  {
  }

  lemma FollowOne(s: State, to: Status, now: real)
    ensures Follow(s, [to], now) == Step(s, Request(to, now)).0
  {
  }

  lemma FollowTwo(s: State, first: Status, second: Status, now: real)
    ensures Follow(s, [first, second], now) == Step(Step(s, Request(first, now)).0, Request(second, now)).0
  {
    assert [first, second][1..] == [second];
    FollowOne(Step(s, Request(first, now)).0, second, now);
  }
}
