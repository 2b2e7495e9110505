/** When each project and invitation operation succeeds, and what it raises otherwise. */
module Outcomes {
  import opened Wrappers
  import opened Database
  import I = Invitations
  import N = Naming
  import P = Projects

  // -------------------------------------------------------------------- projects

  /** Creation takes fresh keys and an existing owner; the slug is the first candidate
      of the name that no project holds. */
  lemma CreateExactly(db: Db, id: nat, rowId: nat, name: string, owner: nat, now: real)
    ensures var (t, r) := P.Create(db, id, rowId, name, owner, now);
            && (r == Ok(id) <==> id !in db.projects && rowId !in db.members && owner in db.users)
            && (r != Ok(id) ==> r == Err(IntegrityError) && t == db)
            && (r.Ok? ==> id in t.projects && exists k: nat ::
                  && t.projects[id].slug == N.Candidate(N.Slugify(name), "-", k)
                  && (forall p :: p in db.projects ==> db.projects[p].slug != t.projects[id].slug)
                  && forall j: nat :: j < k ==>
                       exists p :: p in db.projects && db.projects[p].slug == N.Candidate(N.Slugify(name), "-", j))
  {
    var t := P.Create(db, id, rowId, name, owner, now).0;
    if t != db {
      var slugs, base := P.Slugs(db.projects, None), N.Slugify(name);
      var slug := N.FirstFree(base, "-", slugs);
      var k: nat :| slug == N.Candidate(base, "-", k) && forall j: nat :: j < k ==> N.Candidate(base, "-", j) in slugs;
      assert forall p :: p in db.projects ==> db.projects[p].slug in slugs;
      assert t.projects[id].slug == N.Candidate(base, "-", k);
    }
  }

  /** A pair joins once, with a known role, by existing users. */
  lemma AddMemberExactly(db: Db, rowId: nat, project: nat, user: nat, role: Role, invitedBy: nat)
    ensures var (t, r) := P.AddMember(db, rowId, project, user, role, invitedBy);
            var conflict := IsMember(db.members, project, user) || role.OtherRole?;
            var linked := project in db.projects && user in db.users && invitedBy in db.users;
            && (r == Ok(rowId) <==> !conflict && linked && rowId !in db.members)
            && (r == Err(Conflict) <==> conflict)
            && (r == Err(IntegrityError) <==> !conflict && !(linked && rowId !in db.members))
            && (r.Err? ==> t == db)
  {
  }

  ghost predicate RowOfProject(db: Db, project: nat, rowId: nat) {
    project in db.projects && rowId in db.members && db.members[rowId].project == project
  }

  /** The row is the owner's, or that of the only effective admin. */
  ghost predicate Protected(db: Db, project: nat, rowId: nat)
    requires RowOfProject(db, project, rowId)
  {
    var u := db.members[rowId].user;
    db.projects[project].owner == Some(u) || EffectiveAdmins(db, project) == {u}
  }

  /** A role changes unless the role or the row is unknown, or the owner or the only
      effective admin would be demoted. */
  lemma UpdateRoleExactly(db: Db, project: nat, rowId: nat, role: Role)
    requires UniqueMembers(db.members)
    ensures var (t, r) := P.UpdateMemberRole(db, project, rowId, role);
            && (r == Err(Conflict) <==> role.OtherRole?)
            && (r == Err(NotFound) <==> !role.OtherRole? && !RowOfProject(db, project, rowId))
            && (r == Err(BadRequest) <==>
                  && !role.OtherRole? && RowOfProject(db, project, rowId)
                  && role != Admin && Protected(db, project, rowId))
            && (r == Ok(rowId) <==>
                  && !role.OtherRole? && RowOfProject(db, project, rowId)
                  && (role == Admin || !Protected(db, project, rowId)))
            && (r.Err? ==> t == db)
  {
    if RowOfProject(db, project, rowId) && !role.OtherRole? && role != Admin {
      P.DemotionRefusedExactly(db, project, rowId, role);
    }
  }

  /** A member goes unless the row is unknown or protected. */
  lemma RemoveExactly(db: Db, project: nat, rowId: nat)
    requires UniqueMembers(db.members)
    ensures var (t, r) := P.RemoveMember(db, project, rowId);
            && (r == Err(NotFound) <==> !RowOfProject(db, project, rowId))
            && (r == Err(BadRequest) <==> RowOfProject(db, project, rowId) && Protected(db, project, rowId))
            && (r == Ok(rowId) <==> RowOfProject(db, project, rowId) && !Protected(db, project, rowId))
            && (r.Err? ==> t == db)
            && (r.Ok? ==>
                  && !IsMember(t.members, project, db.members[rowId].user)
                  && t.members.Keys == db.members.Keys - {rowId}
                  && forall m :: m in t.members ==> t.members[m] == db.members[m])
  {
    var t := P.RemoveMember(db, project, rowId).0;
    if RowOfProject(db, project, rowId) {
      P.RemovalRefusedExactly(db, project, rowId);
      forall m | m in t.members && t != db ensures !SamePair(db.members[m], db.members[rowId]) {
        assert SamePair(db.members[m], db.members[rowId]) ==> m == rowId;
      }
    }
  }

  lemma AssignAdminExactly(db: Db, rowId: nat, project: nat, user: nat, actor: nat)
    ensures var (t, r) := P.AssignAdmin(db, rowId, project, user, actor);
            var known := project in db.projects && user in db.users;
            var possible := IsMember(db.members, project, user) || (rowId !in db.members && actor in db.users);
            && (r == Err(NotFound) <==> !known)
            && (r == Err(IntegrityError) <==> known && !possible)
            && (r == Ok(user) <==> known && possible)
            && (r.Err? ==> t == db)
  {
  }

  lemma ProjectFoundExactly(db: Db, project: nat, name: Option<string>, status: Option<ProjectStatus>)
    ensures var (t, r) := P.Update(db, project, name, status);
            var (u, q) := P.Delete(db, project);
            && r == (if project in db.projects then Ok(project) else Err(NotFound))
            && q == (if project in db.projects then Ok(project) else Err(NotFound))
            && (r.Err? ==> t == db && u == db)
  {
  }

  /** A saved name brings the first of its candidates that no other project holds; a
      save without a name leaves name and slug. */
  lemma RenameExactly(db: Db, project: nat, name: Option<string>, status: Option<ProjectStatus>)
    requires project in db.projects
    ensures var t := P.Update(db, project, name, status).0;
            && project in t.projects
            && (name.None? ==> t.projects[project].slug == db.projects[project].slug)
            && (name.Some? ==>
                  && (forall p :: p in db.projects && p != project ==> db.projects[p].slug != t.projects[project].slug)
                  && exists k: nat ::
                       && t.projects[project].slug == N.Candidate(N.Slugify(name.value), "-", k)
                       && forall j: nat :: j < k ==>
                            exists p :: p in db.projects && p != project
                                        && db.projects[p].slug == N.Candidate(N.Slugify(name.value), "-", j))
  {
    if name.Some? {
      var others, base := P.Slugs(db.projects, Some(project)), N.Slugify(name.value);
      var slug := N.FirstFree(base, "-", others);
      var k: nat :| slug == N.Candidate(base, "-", k) && forall j: nat :: j < k ==> N.Candidate(base, "-", j) in others;
      assert forall p :: p in db.projects && p != project ==> db.projects[p].slug in others;
      assert P.Update(db, project, name, status).0.projects[project].slug == N.Candidate(base, "-", k);
    }
  }

  // ----------------------------------------------------------------- invitations

  /** Some member of the project has this address. */
  ghost predicate AddressJoined(db: Db, project: nat, email: string) {
    exists m :: m in db.members && db.members[m].project == project
                && db.members[m].user in db.users && db.users[db.members[m].user].email == email
  }

  ghost predicate AddressInvited(db: Db, project: nat, email: string) {
    exists i :: i in db.invitations && db.invitations[i].project == project
                && db.invitations[i].email == email && db.invitations[i].status == Pending
  }

  /** An address is invited once at a time, and not if a member has it. */
  lemma InviteExactly(db: Db, id: nat, project: nat, email: string, role: Role, invitedBy: nat, tokenHash: string,
                      now: real)
    ensures var (t, r) := I.Create(db, id, project, email, role, invitedBy, tokenHash, now);
            var e := I.Normalize(email);
            var conflict := AddressJoined(db, project, e) || AddressInvited(db, project, e);
            && (r == Err(NotFound) <==> !role.OtherRole? && project !in db.projects)
            && (r == Err(Conflict) <==> role.OtherRole? || (project in db.projects && conflict))
            && (r == Err(IntegrityError) <==>
                  && !role.OtherRole? && project in db.projects && !conflict
                  && (id in db.invitations || invitedBy !in db.users))
            && (r == Ok(id) <==>
                  && !role.OtherRole? && project in db.projects && !conflict
                  && id !in db.invitations && invitedBy in db.users)
            && (r.Err? ==> t == db)
  {
  }

  lemma CancelExactly(db: Db, id: nat, project: nat)
    ensures var (t, r) := I.Cancel(db, id, project);
            var found := id in db.invitations && db.invitations[id].project == project;
            && (r == Err(NotFound) <==> !found)
            && (r == Err(Conflict) <==> found && db.invitations[id].status != Pending)
            && (r == Ok(id) <==> found && db.invitations[id].status == Pending)
            && (r.Err? ==> t == db)
  {
  }

  /** The user has the invited address. */
  ghost predicate Invited(db: Db, user: nat, id: nat) {
    user in db.users && id in db.invitations && I.Normalize(db.users[user].email) == db.invitations[id].email
  }

  lemma DeclineExactly(db: Db, id: nat, user: nat)
    ensures var (t, r) := I.Decline(db, id, user);
            && (r == Err(Unauthenticated) <==> user !in db.users)
            && (r == Err(NotFound) <==> user in db.users && id !in db.invitations)
            && (r == Err(Forbidden) <==> user in db.users && id in db.invitations && !Invited(db, user, id))
            && (r == Err(Conflict) <==> Invited(db, user, id) && db.invitations[id].status != Pending)
            && (r == Ok(id) <==> Invited(db, user, id) && db.invitations[id].status == Pending)
            && (r.Err? ==> t == db)
  {
  }

  /** No token was presented, or it is the one whose hash is stored. */
  predicate TokenFits(i: Invitation, token: string, hash: string -> string) {
    token == "" || (i.tokenHash != "" && hash(token) == i.tokenHash)
  }

  /** Pending, in time, and with a fitting token. */
  ghost predicate Open(db: Db, id: nat, token: string, now: real, hash: string -> string) {
    && id in db.invitations && db.invitations[id].status == Pending && now < db.invitations[id].expiresAt
    && TokenFits(db.invitations[id], token, hash)
  }

  ghost predicate ProjectActive(db: Db, p: nat) {
    p in db.projects && db.projects[p].status == Active
  }

  /** An invitation is accepted exactly by the invited address, while it is pending and
      in time, with the right token or none, into an active project that the user is
      not in yet; everything else has its error. */
  lemma AcceptExactly(db: Db, id: nat, user: nat, token: string, rowId: nat, now: real, hash: string -> string)
    requires Invited(db, user, id)
    ensures var r := I.Accept(db, id, user, token, rowId, now, hash).1;
            var i, open := db.invitations[id], Open(db, id, token, now, hash);
            var joined := IsMember(db.members, i.project, user);
            && (r == Ok(rowId) <==> open && ProjectActive(db, i.project) && !joined && rowId !in db.members)
            && (r == Err(Gone) <==> i.status == Pending && i.expiresAt <= now)
            && (r == Err(Conflict) <==> i.status != Pending || (open && ProjectActive(db, i.project) && joined))
            && (r == Err(NotFound) <==> open && i.project !in db.projects)
            && (r == Err(BadRequest) <==>
                  && i.status == Pending && now < i.expiresAt
                  && (!TokenFits(i, token, hash)
                      || (i.project in db.projects && !ProjectActive(db, i.project))))
            && (r == Err(IntegrityError)
                <==> open && ProjectActive(db, i.project) && !joined && rowId in db.members)
  {
  }

  /** Nobody else gets that far. */
  lemma AcceptForInviteeOnly(db: Db, id: nat, user: nat, token: string, rowId: nat, now: real, hash: string -> string)
    requires !Invited(db, user, id)
    ensures I.Accept(db, id, user, token, rowId, now, hash)
         == (db, Err(if user !in db.users then Unauthenticated else if id !in db.invitations then NotFound
                     else Forbidden))
  {
  }

  /** A token finds the pending invitations that store its hash, and nothing else. */
  lemma TokenFindsExactly(db: Db, token: string, user: nat, rowId: nat, now: real, hash: string -> string)
    ensures var found := exists i :: i in db.invitations && db.invitations[i].status == Pending
                           && db.invitations[i].tokenHash != "" && db.invitations[i].tokenHash == hash(token);
            var r := I.AcceptByToken(db, token, user, rowId, now, hash);
            && (user !in db.users ==> r == (db, Err(Unauthenticated)))
            && (user in db.users && token == "" ==> r == (db, Err(BadRequest)))
            && (user in db.users && token != "" && !found ==> r == (db, Err(NotFound)))
            && (user in db.users && token != "" && found ==>
                  exists i :: i in db.invitations && db.invitations[i].status == Pending
                    && db.invitations[i].tokenHash == hash(token)
                    && r == I.Accept(db, i, user, token, rowId, now, hash))
  {
    if user in db.users && token != "" && I.Matches(db, token, hash) != {} {
      var i :| i in I.Matches(db, token, hash)
               && I.AcceptByToken(db, token, user, rowId, now, hash)
                  == I.AcceptChecked(db, i, user, token, rowId, now, hash);
    } else if i :| i in db.invitations && db.invitations[i].status == Pending
                   && db.invitations[i].tokenHash != "" && db.invitations[i].tokenHash == hash(token) && token != "" {
      assert user in db.users ==> i in I.Matches(db, token, hash);
    }
  }
}
