/** `InvitationService` (backend/app/services/invitation_service.py) and the token
    helpers of backend/app/core/invitation_tokens.py. The keyed hash is a parameter;
    the absent token of `accept` and the empty one behave alike and are "". */
module Invitations {
  import opened Wrappers
  import opened Text
  import opened Database

  const INVITATION_TTL: real := 7.0 * 24.0 * 3600.0

  /** normalize_invitation_email, on ASCII addresses. */
  function Normalize(email: string): string {
    Lower(StripBy(email, IsSpace))
  }

  predicate Verifies(hash: string -> string, token: string, storedHash: string) {
    token != "" && storedHash != "" && hash(token) == storedHash
  }

  predicate MemberWithEmail(db: Db, project: nat, email: string) {
    exists m :: m in db.members && db.members[m].project == project
             && db.members[m].user in db.users && db.users[db.members[m].user].email == email
  }

  predicate PendingFor(invitations: map<nat, Invitation>, project: nat, email: string) {
    exists i :: i in invitations && invitations[i].project == project
             && invitations[i].email == email && invitations[i].status == Pending
  }

  function Create(db: Db, id: nat, project: nat, email: string, role: Role, invitedBy: nat, tokenHash: string,
                  now: real)
    : (Db, Result<nat, Error>)
  {
    var normalized := Normalize(email);
    if role.OtherRole? then (db, Err(Conflict))
    else if project !in db.projects then (db, Err(NotFound))
    else if MemberWithEmail(db, project, normalized) then (db, Err(Conflict))
    else if PendingFor(db.invitations, project, normalized) then (db, Err(Conflict))
    else if id in db.invitations || invitedBy !in db.users then (db, Err(IntegrityError))
    else
      var i := Invitation(project, normalized, role, Some(invitedBy), tokenHash, Pending, now + INVITATION_TTL,
                          None, None);
      (db.(invitations := db.invitations[id := i]), Ok(id))
  }

  function Cancel(db: Db, id: nat, project: nat): (Db, Result<nat, Error>) {
    if id !in db.invitations || db.invitations[id].project != project then (db, Err(NotFound))
    else if db.invitations[id].status != Pending then (db, Err(Conflict))
    else (db.(invitations := db.invitations[id := db.invitations[id].(status := Cancelled)]), Ok(id))
  }

  predicate Invitee(db: Db, user: nat, i: Invitation) {
    user in db.users && Normalize(db.users[user].email) == i.email
  }

  function Decline(db: Db, id: nat, user: nat): (Db, Result<nat, Error>) {
    if user !in db.users then (db, Err(Unauthenticated))
    else if id !in db.invitations then (db, Err(NotFound))
    else if !Invitee(db, user, db.invitations[id]) then (db, Err(Forbidden))
    else if db.invitations[id].status != Pending then (db, Err(Conflict))
    else (db.(invitations := db.invitations[id := db.invitations[id].(status := Cancelled)]), Ok(id))
  }

  /** `_accept_invitation`. An expired invitation, and one of a user who is already
      a member, are updated before the exception is raised. */
  function AcceptFound(db: Db, id: nat, user: nat, token: string, rowId: nat, now: real, hash: string -> string)
    : (Db, Result<nat, Error>)
    requires id in db.invitations
  {
    var i := db.invitations[id];
    var accepted := i.(status := Accepted, acceptedAt := Some(now), acceptedBy := Some(user));
    if i.status != Pending then (db, Err(Conflict))
    else if i.expiresAt <= now then (db.(invitations := db.invitations[id := i.(status := Expired)]), Err(Gone))
    else if token != "" && !Verifies(hash, token, i.tokenHash) then (db, Err(BadRequest))
    else if i.project !in db.projects then (db, Err(NotFound))
    else if db.projects[i.project].status != Active then (db, Err(BadRequest))
    else if IsMember(db.members, i.project, user) then
      (db.(invitations := db.invitations[id := accepted]), Err(Conflict))
    else if rowId in db.members then (db, Err(IntegrityError))
    else
      (db.(members := db.members[rowId := Member(i.project, user, i.role, i.invitedBy)],
           invitations := db.invitations[id := accepted]),
       Ok(rowId))
  }

  /** `_assert_invitee`, then `_accept_invitation`. */
  function AcceptChecked(db: Db, id: nat, user: nat, token: string, rowId: nat, now: real, hash: string -> string)
    : (Db, Result<nat, Error>)
    requires id in db.invitations
  {
    if !Invitee(db, user, db.invitations[id]) then (db, Err(Forbidden))
    else AcceptFound(db, id, user, token, rowId, now, hash)
  }

  function Accept(db: Db, id: nat, user: nat, token: string, rowId: nat, now: real, hash: string -> string)
    : (Db, Result<nat, Error>)
  {
    if user !in db.users then (db, Err(Unauthenticated))
    else if id !in db.invitations then (db, Err(NotFound))
    else AcceptChecked(db, id, user, token, rowId, now, hash)
  }

  /** The pending invitations a token verifies against. */
  function Matches(db: Db, token: string, hash: string -> string): set<nat> {
    set i | i in db.invitations && db.invitations[i].status == Pending
            && Verifies(hash, token, db.invitations[i].tokenHash)
  }

  /** The loop takes the first match in row order, which the query leaves open. */
  ghost function AcceptByToken(db: Db, token: string, user: nat, rowId: nat, now: real, hash: string -> string)
    : (Db, Result<nat, Error>)
  {
    if user !in db.users then (db, Err(Unauthenticated))
    else if token == "" then (db, Err(BadRequest))
    else if Matches(db, token, hash) == {} then (db, Err(NotFound))
    else
      var id :| id in Matches(db, token, hash);
      AcceptChecked(db, id, user, token, rowId, now, hash)
  }

  class InvitationService {
    const db: Session
    const hash: string -> string

    constructor (db: Session, hash: string -> string)
      ensures this.db == db && this.hash == hash
    {
      this.db := db;
      this.hash := hash;
    }

    /** Returns the plaintext token with the row; only its hash is stored. */
    method CreateInvitation(id: nat, project: nat, email: string, role: Role, invitedBy: nat, token: string, now: real)
      returns (r: Result<(nat, string), Error>)
      modifies db`invitations
      ensures var (after, out) := Create(old(db.View()), id, project, email, role, invitedBy, hash(token), now);
              && db.View() == after
              && (r.Ok? <==> out.Ok?) && (r.Ok? ==> r.value == (id, token))
              && (r.Err? ==> r.error == out.error)
    {
      var normalized := Normalize(email);
      if role.OtherRole? {
        return Err(Conflict);
      }
      if project !in db.projects {
        return Err(NotFound);
      }
      var existingMember :=
        exists m ::
          && m in db.members && db.members[m].project == project
          && db.members[m].user in db.users && db.users[db.members[m].user].email == normalized;
      if existingMember {
        return Err(Conflict);
      }
      var pending :=
        exists i ::
          && i in db.invitations && db.invitations[i].project == project
          && db.invitations[i].email == normalized && db.invitations[i].status == Pending;
      if pending {
        return Err(Conflict);
      }
      if id in db.invitations || invitedBy !in db.users {
        return Err(IntegrityError);
      }
      db.invitations := db.invitations[id :=
        Invitation(project, normalized, role, Some(invitedBy), hash(token), Pending, now + INVITATION_TTL, None, None)];
      return Ok((id, token));
    }

    method CancelInvitation(id: nat, project: nat) returns (r: Result<nat, Error>)
      modifies db`invitations
      ensures (db.View(), r) == Cancel(old(db.View()), id, project)
    {
      if id !in db.invitations || db.invitations[id].project != project {
        return Err(NotFound);
      }
      var i := db.invitations[id];
      if i.status != Pending {
        return Err(Conflict);
      }
      db.invitations := db.invitations[id := i.(status := Cancelled)];
      return Ok(id);
    }

    method DeclineInvitation(id: nat, user: nat) returns (r: Result<nat, Error>)
      modifies db`invitations
      ensures (db.View(), r) == Decline(old(db.View()), id, user)
    {
      if user !in db.users {
        return Err(Unauthenticated);
      }
      if id !in db.invitations {
        return Err(NotFound);
      }
      var i := db.invitations[id];
      if Normalize(db.users[user].email) != i.email {
        return Err(Forbidden);
      }
      if i.status != Pending {
        return Err(Conflict);
      }
      db.invitations := db.invitations[id := i.(status := Cancelled)];
      return Ok(id);
    }

    method AcceptInvitation(id: nat, user: nat, token: string, rowId: nat, now: real) returns (r: Result<nat, Error>)
      modifies db`invitations, db`members
      ensures (db.View(), r) == Accept(old(db.View()), id, user, token, rowId, now, hash)
    {
      if user !in db.users {
        return Err(Unauthenticated);
      }
      if id !in db.invitations {
        return Err(NotFound);
      }
      if Normalize(db.users[user].email) != db.invitations[id].email {
        return Err(Forbidden);
      }
      r := AcceptPending(id, user, token, rowId, now);
    }

    /** The search loop with break, then the same steps as for `accept`. */
    method AcceptInvitationByToken(token: string, user: nat, rowId: nat, now: real) returns (r: Result<nat, Error>)
      modifies db`invitations, db`members
      ensures user !in db.users ==> db.View() == old(db.View()) && r == Err(Unauthenticated)
      ensures user in db.users && token == "" ==> db.View() == old(db.View()) && r == Err(BadRequest)
      ensures user in db.users && token != "" ==>
                var ms := Matches(old(db.View()), token, hash);
                if ms == {} then db.View() == old(db.View()) && r == Err(NotFound)
                else exists id :: id in ms
                       && (db.View(), r) == AcceptChecked(old(db.View()), id, user, token, rowId, now, hash)
    {
      if user !in db.users {
        return Err(Unauthenticated);
      }
      if token == "" {
        return Err(BadRequest);
      }
      var rows := set i | i in db.invitations && db.invitations[i].status == Pending;
      var left := rows;
      var found: Option<nat> := None;
      while left != {}
        invariant left <= rows
        invariant found.None? && forall i :: i in rows - left ==> !Verifies(hash, token, db.invitations[i].tokenHash)
        decreases left
      {
        var i :| i in left;
        if Verifies(hash, token, db.invitations[i].tokenHash) {
          found := Some(i);
          break;
        }
        left := left - {i};
      }
      if found.None? {
        return Err(NotFound);
      }
      var id := found.value;
      assert id in Matches(db.View(), token, hash);
      if Normalize(db.users[user].email) != db.invitations[id].email {
        return Err(Forbidden);
      }
      r := AcceptPending(id, user, token, rowId, now);
    }

    method AcceptPending(id: nat, user: nat, token: string, rowId: nat, now: real) returns (r: Result<nat, Error>)
      requires id in db.invitations
      modifies db`invitations, db`members
      ensures (db.View(), r) == AcceptFound(old(db.View()), id, user, token, rowId, now, hash)
    {
      var i := db.invitations[id];
      if i.status != Pending {
        return Err(Conflict);
      }
      if i.expiresAt <= now {
        db.invitations := db.invitations[id := i.(status := Expired)];
        return Err(Gone);
      }
      if token != "" && !Verifies(hash, token, i.tokenHash) {
        return Err(BadRequest);
      }
      if i.project !in db.projects {
        return Err(NotFound);
      }
      if db.projects[i.project].status != Active {
        return Err(BadRequest);
      }
      var accepted := i.(status := Accepted, acceptedAt := Some(now), acceptedBy := Some(user));
      var existing := exists m :: m in db.members && db.members[m].project == i.project && db.members[m].user == user;
      if existing {
        db.invitations := db.invitations[id := accepted];
        return Err(Conflict);
      }
      if rowId in db.members {
        return Err(IntegrityError);
      }
      db.members := db.members[rowId := Member(i.project, user, i.role, i.invitedBy)];
      db.invitations := db.invitations[id := accepted];
      return Ok(rowId);
    }
  }

  // -------------------------------------------------------------------- addresses

  lemma {:induction false} LowerTwice(s: string)
    ensures Lower(Lower(s)) == Lower(s)
  {
    if s != "" {
      LowerTwice(s[1..]);
    }
  }

  lemma {:induction false} LowerAt(s: string, i: nat)
    requires i < |s|
    ensures |Lower(s)| == |s| && Lower(s)[i] == LowerChar(s[i])
  {
    if i > 0 {
      LowerAt(s[1..], i - 1);
    } else if |s| > 1 {
      LowerAt(s[1..], 0);
    }
  }

  /** Normalising an address twice is normalising it once. */
  lemma NormalizeTwice(email: string)
    ensures Normalize(Normalize(email)) == Normalize(email)
  {
    var t := StripBy(email, IsSpace);
    var a, b := StripFacts(email, IsSpace);
    assert t == email[a..b];
    if t != "" {
      LowerAt(t, 0);
      LowerAt(t, |t| - 1);
    }
    StripFixed(Lower(t), IsSpace);
    LowerTwice(t);
  }

  /** A normalised address is the address in small letters without the white space
      around it. */
  lemma NormalizeExactly(p: string, m: string, q: string)
    requires forall i :: 0 <= i < |p| ==> IsSpace(p[i])
    requires forall i :: 0 <= i < |q| ==> IsSpace(q[i])
    requires m == "" || (!IsSpace(m[0]) && !IsSpace(m[|m| - 1]))
    ensures Normalize(p + (m + q)) == Lower(m)
  {
    StripSandwich(p, m, q, IsSpace);
  }

  // ----------------------------------------------------------------------- tokens

  ghost predicate UniqueHashes(invitations: map<nat, Invitation>) {
    forall i, j | i in invitations && j in invitations ::
      invitations[i].tokenHash == invitations[j].tokenHash ==> i == j
  }

  /** Accepting by token is accepting, with that token, the invitation that issued
      it; the two differ only once that invitation is no longer pending, where the
      search finds nothing and `accept` reports a conflict. */
  lemma AcceptByTokenIsAccept(db: Db, id: nat, token: string, user: nat, rowId: nat, now: real, hash: string -> string)
    requires UniqueHashes(db.invitations)
    requires id in db.invitations && token != "" && hash(token) != "" && db.invitations[id].tokenHash == hash(token)
    requires user in db.users
    ensures db.invitations[id].status == Pending ==>
              AcceptByToken(db, token, user, rowId, now, hash) == Accept(db, id, user, token, rowId, now, hash)
    ensures db.invitations[id].status != Pending ==>
              AcceptByToken(db, token, user, rowId, now, hash) == (db, Err(NotFound))
              && Accept(db, id, user, token, rowId, now, hash)
                 == (db, Err(if Invitee(db, user, db.invitations[id]) then Conflict else Forbidden))
  {
    forall i | i in Matches(db, token, hash) ensures i == id {
      assert db.invitations[i].tokenHash == db.invitations[id].tokenHash;
    }
    if db.invitations[id].status == Pending {
      assert id in Matches(db, token, hash);
    }
  }
}
