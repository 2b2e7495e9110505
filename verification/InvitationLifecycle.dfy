/** What happens to one invitation over a run of project and invitation operations. */
module InvitationLifecycle {
  import opened Wrappers
  import opened Database
  import opened Membership
  import I = Invitations

  // ------------------------------------------------------------ one step at a time

  /** Everything but the status columns of an invitation is fixed when it is made
      (a deleted inviter is forgotten). */
  predicate SameOffer(a: Invitation, b: Invitation) {
    && a.project == b.project && a.email == b.email && a.role == b.role
    && a.tokenHash == b.tokenHash && a.expiresAt == b.expiresAt
  }

  predicate SameOutcome(a: Invitation, b: Invitation) {
    a.status == b.status && a.acceptedAt == b.acceptedAt && (b.acceptedBy == a.acceptedBy || b.acceptedBy == None)
  }

  /** Where an invitation row of the next state comes from. */
  ghost predicate ComesFrom(db: Db, op: Op, hash: string -> string, id: nat, i: Invitation) {
    || (id in db.invitations && SameOffer(db.invitations[id], i))
    || (op.Invite? && op.id == id && id !in db.invitations && i.status == Pending
        && i.tokenHash == hash(op.token) && i.email == I.Normalize(op.email))
  }

  lemma AcceptChangesOne(db: Db, id: nat, user: nat, token: string, rowId: nat, now: real, hash: string -> string,
                         j: nat)
    requires id in db.invitations && j in db.invitations
    ensures var t := I.AcceptChecked(db, id, user, token, rowId, now, hash).0;
            && t.invitations.Keys == db.invitations.Keys
            && SameOffer(db.invitations[j], t.invitations[j])
            && (j != id || db.invitations[j].status != Pending ==> t.invitations[j] == db.invitations[j])
  {
  }

  lemma TokenChangesOne(db: Db, token: string, user: nat, rowId: nat, now: real, hash: string -> string, j: nat)
    requires j in db.invitations
    ensures var t := I.AcceptByToken(db, token, user, rowId, now, hash).0;
            && t.invitations.Keys == db.invitations.Keys
            && SameOffer(db.invitations[j], t.invitations[j])
            && (db.invitations[j].status != Pending ==> t.invitations[j] == db.invitations[j])
  {
    forall id | id in I.Matches(db, token, hash)
      ensures var t := I.AcceptChecked(db, id, user, token, rowId, now, hash).0;
              && t.invitations.Keys == db.invitations.Keys
              && SameOffer(db.invitations[j], t.invitations[j])
              && (db.invitations[j].status != Pending ==> t.invitations[j] == db.invitations[j])
    {
      AcceptChangesOne(db, id, user, token, rowId, now, hash, j);
    }
  }

  lemma TokenAddsNone(db: Db, token: string, user: nat, rowId: nat, now: real, hash: string -> string, j: nat)
    ensures j in I.AcceptByToken(db, token, user, rowId, now, hash).0.invitations ==> j in db.invitations
  {
  }

  lemma AcceptOrigins(db: Db, op: Op, hash: string -> string, id: nat)
    requires op.AcceptToken? || op.AcceptInvitation?
    requires id in Step(db, op, hash).invitations
    ensures ComesFrom(db, op, hash, id, Step(db, op, hash).invitations[id])
  {
    match op
    case AcceptToken(token, user, rowId, now) =>
      TokenAddsNone(db, token, user, rowId, now, hash, id);
      TokenChangesOne(db, token, user, rowId, now, hash, id);
    case AcceptInvitation(i, user, token, rowId, now) =>
      if i in db.invitations {
        AcceptChangesOne(db, i, user, token, rowId, now, hash, id);
      }
  }

  lemma StepOrigins(db: Db, op: Op, hash: string -> string, id: nat)
    requires id in Step(db, op, hash).invitations
    ensures ComesFrom(db, op, hash, id, Step(db, op, hash).invitations[id])
  {
    if op.AcceptToken? || op.AcceptInvitation? {
      AcceptOrigins(db, op, hash, id);
    } else if op.Invite? || op.CancelInvitation? || op.DeclineInvitation? {
      OfferOrigins(db, op, hash, id);
    }
  }

  lemma OfferOrigins(db: Db, op: Op, hash: string -> string, id: nat)
    requires op.Invite? || op.CancelInvitation? || op.DeclineInvitation?
    requires id in Step(db, op, hash).invitations
    ensures ComesFrom(db, op, hash, id, Step(db, op, hash).invitations[id])
  {
  }

  /** Accepted, cancelled and expired are final: no operation changes such a row,
      except that deleting its project deletes it and deleting the user who
      accepted forgets who that was. */
  lemma SettledIsFinal(db: Db, op: Op, hash: string -> string, id: nat)
    requires id in db.invitations && db.invitations[id].status != Pending
    requires !(op.DeleteProject? && op.project == db.invitations[id].project)
    ensures var t := Step(db, op, hash);
            && id in t.invitations
            && SameOutcome(db.invitations[id], t.invitations[id])
            && (!op.DeleteUser? ==> t.invitations[id] == db.invitations[id])
  {
    match op
    case AcceptToken(token, user, rowId, now) =>
      TokenChangesOne(db, token, user, rowId, now, hash, id);
    case AcceptInvitation(i, user, token, rowId, now) =>
      if i in db.invitations {
        AcceptChangesOne(db, i, user, token, rowId, now, hash, id);
      }
    case _ =>
  }

  /** What an acceptance by `user` at `now` must have met, and leaves behind. */
  ghost predicate AcceptedProperly(db: Db, t: Db, id: nat, user: nat, now: real)
    requires id in db.invitations && id in t.invitations
  {
    var i, j := db.invitations[id], t.invitations[id];
    && j.acceptedAt == Some(now) && now < j.expiresAt
    && j.acceptedBy == Some(user) && user in db.users && I.Normalize(db.users[user].email) == j.email
    && IsMember(t.members, j.project, user)
    && j.project in db.projects && db.projects[j.project].status == Active
  }

  lemma AcceptFoundProperly(db: Db, id: nat, user: nat, token: string, rowId: nat, now: real, hash: string -> string,
                            j: nat)
    requires id in db.invitations && j in db.invitations && db.invitations[j].status == Pending
    requires I.AcceptChecked(db, id, user, token, rowId, now, hash).0.invitations[j].status == Accepted
    ensures j == id && AcceptedProperly(db, I.AcceptChecked(db, id, user, token, rowId, now, hash).0, id, user, now)
  {
    var t := I.AcceptChecked(db, id, user, token, rowId, now, hash).0;
    var i := db.invitations[id];
    if !IsMember(db.members, i.project, user) {
      assert t.members[rowId].project == i.project && t.members[rowId].user == user;
    }
  }

  lemma OnlyAcceptingAccepts(db: Db, op: Op, hash: string -> string, id: nat)
    requires id in db.invitations && db.invitations[id].status == Pending
    requires !op.AcceptInvitation? && !op.AcceptToken?
    ensures id in Step(db, op, hash).invitations ==> Step(db, op, hash).invitations[id].status != Accepted
  {
  }

  /** An invitation becomes accepted only before it expires, only by a user with
      the invited address, on an active project, and that user is then a member. */
  lemma AcceptanceIsProper(db: Db, op: Op, hash: string -> string, id: nat)
    requires id in db.invitations && db.invitations[id].status == Pending
    requires id in Step(db, op, hash).invitations && Step(db, op, hash).invitations[id].status == Accepted
    ensures op.AcceptInvitation? || op.AcceptToken?
    ensures AcceptedProperly(db, Step(db, op, hash), id, op.user, op.now)
  {
    match op
    case AcceptToken(token, user, rowId, now) =>
      forall i | i in I.Matches(db, token, hash)
               && I.AcceptChecked(db, i, user, token, rowId, now, hash).0.invitations[id].status == Accepted
        ensures AcceptedProperly(db, I.AcceptChecked(db, i, user, token, rowId, now, hash).0, id, user, now)
      {
        AcceptFoundProperly(db, i, user, token, rowId, now, hash, id);
      }
    case AcceptInvitation(i, user, token, rowId, now) =>
      AcceptFoundProperly(db, i, user, token, rowId, now, hash, id);
    case _ =>
      OnlyAcceptingAccepts(db, op, hash, id);
  }

  // -------------------------------------------------------------------- whole runs

  /** No two of these tokens have the same hash. */
  ghost predicate CollisionFree(hash: string -> string, tokens: set<string>) {
    forall a, b :: a in tokens && b in tokens && hash(a) == hash(b) ==> a == b
  }

  /** The tokens handed out by the invitations of a run. */
  function Issued(ops: seq<Op>): set<string> {
    set op | op in ops && op.Invite? :: op.token
  }

  /** No token is drawn twice (each is 32 random bytes). */
  ghost predicate TokensDistinct(ops: seq<Op>) {
    forall i, j :: 0 <= i < j < |ops| && ops[i].Invite? && ops[j].Invite? ==> ops[i].token != ops[j].token
  }

  /** Stored addresses are normalised, and stored hashes are those of issued tokens. */
  lemma {:induction false} RowsComeFromInvites(ops: seq<Op>, hash: string -> string)
    ensures forall id :: id in Run(ops, hash).invitations ==>
              var i := Run(ops, hash).invitations[id];
              I.Normalize(i.email) == i.email && exists t :: t in Issued(ops) && i.tokenHash == hash(t)
  {
    if ops != [] {
      var before, op := ops[..|ops| - 1], ops[|ops| - 1];
      RowsComeFromInvites(before, hash);
      assert ops == before + [op];
      assert Issued(before) <= Issued(ops) by {
        assert forall o :: o in before ==> o in ops;
      }
      var db := Run(before, hash);
      forall id | id in Run(ops, hash).invitations
        ensures var i := Run(ops, hash).invitations[id];
                I.Normalize(i.email) == i.email && exists t :: t in Issued(ops) && i.tokenHash == hash(t)
      {
        StepOrigins(db, op, hash, id);
        if id !in db.invitations {
          I.NormalizeTwice(op.email);
          assert op in ops && op.token in Issued(ops);
        }
      }
    }
  }

  lemma IssuedGrows(ops: seq<Op>)
    requires ops != []
    ensures Issued(ops[..|ops| - 1]) <= Issued(ops)
    ensures ops[|ops| - 1].Invite? ==> ops[|ops| - 1].token in Issued(ops)
  {
    assert forall o :: o in ops[..|ops| - 1] ==> o in ops;
    assert ops[|ops| - 1] in ops;
  }

  lemma {:induction false} HashesUnique(ops: seq<Op>, hash: string -> string)
    requires CollisionFree(hash, Issued(ops)) && TokensDistinct(ops)
    ensures I.UniqueHashes(Run(ops, hash).invitations)
  {
    if ops != [] {
      var before, op := ops[..|ops| - 1], ops[|ops| - 1];
      IssuedGrows(ops);
      HashesUnique(before, hash);
      RowsComeFromInvites(before, hash);
      var db, t := Run(before, hash), Run(ops, hash);
      forall i, j | i in t.invitations && j in t.invitations
        ensures t.invitations[i].tokenHash == t.invitations[j].tokenHash ==> i == j
      {
        StepOrigins(db, op, hash, i);
        StepOrigins(db, op, hash, j);
        if op.Invite? {
          NewTokenIsNew(ops, hash);
        }
      }
    }
  }

  lemma NewTokenIsNew(ops: seq<Op>, hash: string -> string)
    requires CollisionFree(hash, Issued(ops)) && TokensDistinct(ops) && ops != [] && ops[|ops| - 1].Invite?
    ensures var db := Run(ops[..|ops| - 1], hash);
            forall i :: i in db.invitations ==> db.invitations[i].tokenHash != hash(ops[|ops| - 1].token)
  {
    var before := ops[..|ops| - 1];
    RowsComeFromInvites(before, hash);
    IssuedGrows(ops);
    assert ops[|ops| - 1].token !in Issued(before);
  }

  /** In every reachable state, where no token is drawn twice and no two of the issued
      tokens and the one presented share a hash: accepting by token acts as accepting,
      with that token, the pending invitation that issued it, and a token that was
      never issued finds nothing. */
  lemma TokenNamesItsInvitation(ops: seq<Op>, hash: string -> string, token: string, user: nat, rowId: nat, now: real)
    requires CollisionFree(hash, Issued(ops) + {token}) && TokensDistinct(ops)
    requires token != "" && hash(token) != "" && user in Run(ops, hash).users
    ensures var db := Run(ops, hash);
            && (forall id :: id in db.invitations && db.invitations[id].tokenHash == hash(token)
                             && db.invitations[id].status == Pending ==>
                  I.AcceptByToken(db, token, user, rowId, now, hash) == I.Accept(db, id, user, token, rowId, now, hash))
            && (token !in Issued(ops) ==> I.AcceptByToken(db, token, user, rowId, now, hash) == (db, Err(NotFound)))
  {
    var db := Run(ops, hash);
    HashesUnique(ops, hash);
    forall id | id in db.invitations && db.invitations[id].tokenHash == hash(token)
                && db.invitations[id].status == Pending
      ensures I.AcceptByToken(db, token, user, rowId, now, hash) == I.Accept(db, id, user, token, rowId, now, hash)
    {
      I.AcceptByTokenIsAccept(db, id, token, user, rowId, now, hash);
    }
    if token !in Issued(ops) {
      RowsComeFromInvites(ops, hash);
      assert I.Matches(db, token, hash) == {};
    }
  }
}
