/** The project and invitation operations under the request wrapper
    (backend/app/database.py:37-46): a request whose handler raises is rolled back,
    what it flushed included. */
module Requests {
  import opened Wrappers
  import opened Database
  import opened Membership
  import I = Invitations
  import P = Projects

  ghost function RequestStep(db: Db, op: Op, hash: string -> string): Db {
    if Returns(db, op, hash) then Step(db, op, hash) else db
  }

  ghost function RequestRun(ops: seq<Op>, hash: string -> string): Db {
    if ops == [] then EMPTY else RequestStep(RequestRun(ops[..|ops| - 1], hash), ops[|ops| - 1], hash)
  }

  // ----------------------------------------------------------- what carries over

  /** The table invariants hold after every run of requests as well. */
  lemma {:induction false} RequestsAlwaysValid(ops: seq<Op>, hash: string -> string)
    ensures Valid(RequestRun(ops, hash))
  {
    if ops != [] {
      RequestsAlwaysValid(ops[..|ops| - 1], hash);
      StepKeeps(RequestRun(ops[..|ops| - 1], hash), ops[|ops| - 1], hash);
    }
  }

  lemma RequestKeepsAdmin(db: Db, op: Op, hash: string -> string, p: nat)
    requires Valid(db) && HasAdmin(db, p) && !TakesLastAdmin(db, op, p)
    ensures HasAdmin(RequestStep(db, op, hash), p)
  {
    StepKeepsAdmin(db, op, hash, p);
  }

  lemma RequestRunLast(ops: seq<Op>, hash: string -> string)
    requires ops != []
    ensures RequestRun(ops, hash) == RequestStep(RequestRun(ops[..|ops| - 1], hash), ops[|ops| - 1], hash)
  {
  }

  lemma RequestRunSplit(before: seq<Op>, after: seq<Op>, hash: string -> string)
    requires after != []
    ensures var n := |after| - 1;
            RequestRun(before + after, hash) == RequestStep(RequestRun(before + after[..n], hash), after[n], hash)
  {
    SplitLast(before, after);
    RequestRunLast(before + after, hash);
  }

  /** No request takes the last admin of `p` away. */
  ghost predicate AdminStays(before: seq<Op>, after: seq<Op>, hash: string -> string, p: nat) {
    forall i :: 0 <= i < |after| ==> !TakesLastAdmin(RequestRun(before + after[..i], hash), after[i], p)
  }

  lemma ShorterAdminStays(before: seq<Op>, after: seq<Op>, hash: string -> string, p: nat)
    requires after != [] && AdminStays(before, after, hash, p)
    ensures AdminStays(before, after[..|after| - 1], hash, p)
  {
    assert forall i :: 0 <= i < |after| - 1 ==> after[..|after| - 1][..i] == after[..i];
  }

  /** A project keeps an effective admin through every run of requests that deletes
      neither it nor, at the time, its only effective admin. */
  lemma {:induction false} RequestsKeepAdmin(before: seq<Op>, after: seq<Op>, hash: string -> string, p: nat)
    requires HasAdmin(RequestRun(before, hash), p)
    requires AdminStays(before, after, hash, p)
    ensures HasAdmin(RequestRun(before + after, hash), p)
  {
    if after == [] {
      assert before + after == before;
    } else {
      var n := |after| - 1;
      ShorterAdminStays(before, after, hash, p);
      RequestsKeepAdmin(before, after[..n], hash, p);
      RequestsAlwaysValid(before + after[..n], hash);
      RequestKeepsAdmin(RequestRun(before + after[..n], hash), after[n], hash, p);
      RequestRunSplit(before, after, hash);
    }
  }

  // ------------------------------------------------------------- what is different

  /** An acceptance that returns settles one invitation in time and adds one row. */
  ghost predicate Joined(db: Db, t: Db, id: nat, user: nat, rowId: nat, now: real)
    requires id in db.invitations
  {
    var i := db.invitations[id];
    && i.status == Pending && now < i.expiresAt
    && !IsMember(db.members, i.project, user) && rowId !in db.members
    && t.members == db.members[rowId := Member(i.project, user, i.role, i.invitedBy)]
    && t.invitations == db.invitations[id := i.(status := Accepted, acceptedAt := Some(now), acceptedBy := Some(user))]
  }

  lemma AcceptedJoins(db: Db, id: nat, user: nat, token: string, rowId: nat, now: real, hash: string -> string)
    requires id in db.invitations && I.AcceptChecked(db, id, user, token, rowId, now, hash).1.Ok?
    ensures Joined(db, I.AcceptChecked(db, id, user, token, rowId, now, hash).0, id, user, rowId, now)
  {
  }

  predicate Accepts(op: Op) {
    op.AcceptInvitation? || op.AcceptToken?
  }

  lemma AcceptRequestJoins(db: Db, op: Op, hash: string -> string) returns (id: nat)
    requires Accepts(op) && Returns(db, op, hash)
    ensures id in db.invitations && Joined(db, RequestStep(db, op, hash), id, op.user, op.rowId, op.now)
  {
    match op
    case AcceptInvitation(i, user, token, rowId, now) =>
      AcceptedJoins(db, i, user, token, rowId, now, hash);
      id := i;
    case AcceptToken(token, user, rowId, now) =>
      id :| id in I.Matches(db, token, hash)
            && I.AcceptByToken(db, token, user, rowId, now, hash)
               == I.AcceptChecked(db, id, user, token, rowId, now, hash);
      AcceptedJoins(db, id, user, token, rowId, now, hash);
  }

  lemma OthersNeverAccept(db: Db, op: Op, hash: string -> string, id: nat)
    requires !Accepts(op) && id in Step(db, op, hash).invitations
    ensures Step(db, op, hash).invitations[id].status == Accepted ==>
              id in db.invitations && db.invitations[id].status == Accepted
    ensures Step(db, op, hash).invitations[id].status == Expired ==>
              id in db.invitations && db.invitations[id].status == Expired
  {
  }

  /** A request makes an invitation accepted only together with the membership row it
      is for: a user who is a member already leaves it pending. */
  lemma AcceptedWithMembership(db: Db, op: Op, hash: string -> string, id: nat)
    requires id in RequestStep(db, op, hash).invitations
    requires RequestStep(db, op, hash).invitations[id].status == Accepted
    requires id in db.invitations ==> db.invitations[id].status != Accepted
    ensures Accepts(op) && id in db.invitations
    ensures Joined(db, RequestStep(db, op, hash), id, op.user, op.rowId, op.now)
  {
    if Accepts(op) {
      if Returns(db, op, hash) {
        var j := AcceptRequestJoins(db, op, hash);
      }
    } else {
      OthersNeverAccept(db, op, hash, id);
    }
  }

  /** No invitation is ever stored as expired: the request that finds it so is rolled
      back, and the row stays pending. */
  lemma {:induction false} NeverExpiredOverRequests(ops: seq<Op>, hash: string -> string)
    ensures forall id :: id in RequestRun(ops, hash).invitations ==>
              RequestRun(ops, hash).invitations[id].status != Expired
  {
    if ops != [] {
      var db, op := RequestRun(ops[..|ops| - 1], hash), ops[|ops| - 1];
      NeverExpiredOverRequests(ops[..|ops| - 1], hash);
      forall id | id in RequestStep(db, op, hash).invitations
        ensures RequestStep(db, op, hash).invitations[id].status != Expired
      {
        RequestNeverExpires(db, op, hash, id);
      }
    }
  }

  lemma RequestNeverExpires(db: Db, op: Op, hash: string -> string, id: nat)
    requires id in RequestStep(db, op, hash).invitations
    ensures RequestStep(db, op, hash).invitations[id].status == Expired ==>
              id in db.invitations && db.invitations[id].status == Expired
  {
    if Returns(db, op, hash) {
      if Accepts(op) {
        var j := AcceptRequestJoins(db, op, hash);
      } else {
        OthersNeverAccept(db, op, hash, id);
      }
    }
  }

  /** Accepting an invitation that has expired, or of a project the user is in, changes
      nothing at all: the row goes back to pending. */
  lemma LateAcceptanceChangesNothing(db: Db, id: nat, user: nat, token: string, rowId: nat, now: real,
                                     hash: string -> string)
    requires id in db.invitations
    requires db.invitations[id].expiresAt <= now || IsMember(db.members, db.invitations[id].project, user)
    ensures RequestStep(db, AcceptInvitation(id, user, token, rowId, now), hash) == db
  {
  }

  /** So a pending invitation stops being pending only by being cancelled or declined,
      by an acceptance in time, or with its project. */
  lemma PendingEndsExactly(db: Db, op: Op, hash: string -> string, id: nat)
    requires id in db.invitations && db.invitations[id].status == Pending
    ensures var t := RequestStep(db, op, hash);
            (id in t.invitations && t.invitations[id].status == Pending)
            <==> !Returns(db, op, hash)
                 || !(|| ((op.CancelInvitation? || op.DeclineInvitation?) && op.id == id)
                      || (op.DeleteProject? && op.project == db.invitations[id].project)
                      || (Accepts(op) && Joined(db, t, id, op.user, op.rowId, op.now)))
  {
    if Returns(db, op, hash) {
      if Accepts(op) {
        var j := AcceptRequestJoins(db, op, hash);
      } else {
        OtherRequestsLeavePending(db, op, hash, id);
      }
    }
  }

  lemma OtherRequestsLeavePending(db: Db, op: Op, hash: string -> string, id: nat)
    requires id in db.invitations && db.invitations[id].status == Pending && !Accepts(op) && Returns(db, op, hash)
    ensures var t := Step(db, op, hash);
            (id in t.invitations && t.invitations[id].status == Pending)
            <==> !(|| ((op.CancelInvitation? || op.DeclineInvitation?) && op.id == id)
                   || (op.DeleteProject? && op.project == db.invitations[id].project))
  {
  }

  /** Until then it blocks every new invitation of its address, expired or not. */
  lemma PendingBlocksInvite(db: Db, id: nat, op: Op, hash: string -> string)
    requires id in db.invitations && db.invitations[id].status == Pending
    requires op.Invite? && op.project == db.invitations[id].project
    requires I.Normalize(op.email) == db.invitations[id].email
    ensures RequestStep(db, op, hash) == db
  {
  }
}
