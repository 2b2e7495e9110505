/** Runs of project, membership and invitation operations, and what holds in every
    state they reach. */
module Membership {
  import opened Wrappers
  import opened Database
  import P = Projects
  import I = Invitations
  import N = Naming

  /** The service operations, and the three that reach these tables from elsewhere:
      a new user, a changed address, a deleted user. */
  datatype Op =
    | CreateProject(id: nat, rowId: nat, name: string, owner: nat, now: real)
    | AddMember(rowId: nat, project: nat, user: nat, role: Role, invitedBy: nat)
    | UpdateRole(project: nat, rowId: nat, role: Role)
    | RemoveMember(project: nat, rowId: nat)
    | AssignAdmin(rowId: nat, project: nat, user: nat, actor: nat)
    | UpdateProject(project: nat, newName: Option<string>, status: Option<ProjectStatus>)
    | DeleteProject(project: nat)
    | Invite(id: nat, project: nat, email: string, role: Role, invitedBy: nat, token: string, now: real)
    | CancelInvitation(id: nat, project: nat)
    | DeclineInvitation(id: nat, user: nat)
    | AcceptInvitation(id: nat, user: nat, token: string, rowId: nat, now: real)
    | AcceptToken(token: string, user: nat, rowId: nat, now: real)
    | NewUser(id: nat, row: User)
    | ChangeEmail(id: nat, email: string)
    | DeleteUser(id: nat)

  function Forget(ref: Option<nat>, user: nat): Option<nat> {
    if ref == Some(user) then None else ref
  }

  /** The foreign keys of a deleted user: memberships go, other references become null. */
  function WithoutUser(db: Db, u: nat): Db {
    Db(db.users - {u},
       map p | p in db.projects :: db.projects[p].(owner := Forget(db.projects[p].owner, u)),
       map m | m in db.members && db.members[m].user != u ::
         db.members[m].(invitedBy := Forget(db.members[m].invitedBy, u)),
       map i | i in db.invitations ::
         db.invitations[i].(invitedBy := Forget(db.invitations[i].invitedBy, u),
                            acceptedBy := Forget(db.invitations[i].acceptedBy, u)))
  }

  ghost function Step(db: Db, op: Op, hash: string -> string): Db {
    match op
    case CreateProject(id, rowId, name, owner, now) => P.Create(db, id, rowId, name, owner, now).0
    case AddMember(rowId, project, user, role, invitedBy) => P.AddMember(db, rowId, project, user, role, invitedBy).0
    case UpdateRole(project, rowId, role) => P.UpdateMemberRole(db, project, rowId, role).0
    case RemoveMember(project, rowId) => P.RemoveMember(db, project, rowId).0
    case AssignAdmin(rowId, project, user, actor) => P.AssignAdmin(db, rowId, project, user, actor).0
    case UpdateProject(project, name, status) => P.Update(db, project, name, status).0
    case DeleteProject(project) => P.Delete(db, project).0
    case Invite(id, project, email, role, invitedBy, token, now) =>
      I.Create(db, id, project, email, role, invitedBy, hash(token), now).0
    case CancelInvitation(id, project) => I.Cancel(db, id, project).0
    case DeclineInvitation(id, user) => I.Decline(db, id, user).0
    case AcceptInvitation(id, user, token, rowId, now) => I.Accept(db, id, user, token, rowId, now, hash).0
    case AcceptToken(token, user, rowId, now) => I.AcceptByToken(db, token, user, rowId, now, hash).0
    case NewUser(id, user) => if id in db.users then db else db.(users := db.users[id := user])
    case ChangeEmail(id, email) =>
      if id in db.users then db.(users := db.users[id := db.users[id].(email := email)]) else db
    case DeleteUser(id) => WithoutUser(db, id)
  }

  /** The handler of the operation returns. */
  ghost predicate Returns(db: Db, op: Op, hash: string -> string) {
    match op
    case CreateProject(id, rowId, name, owner, now) => P.Create(db, id, rowId, name, owner, now).1.Ok?
    case AddMember(rowId, project, user, role, invitedBy) =>
      P.AddMember(db, rowId, project, user, role, invitedBy).1.Ok?
    case UpdateRole(project, rowId, role) => P.UpdateMemberRole(db, project, rowId, role).1.Ok?
    case RemoveMember(project, rowId) => P.RemoveMember(db, project, rowId).1.Ok?
    case AssignAdmin(rowId, project, user, actor) => P.AssignAdmin(db, rowId, project, user, actor).1.Ok?
    case UpdateProject(project, name, status) => P.Update(db, project, name, status).1.Ok?
    case DeleteProject(project) => P.Delete(db, project).1.Ok?
    case Invite(id, project, email, role, invitedBy, token, now) =>
      I.Create(db, id, project, email, role, invitedBy, hash(token), now).1.Ok?
    case CancelInvitation(id, project) => I.Cancel(db, id, project).1.Ok?
    case DeclineInvitation(id, user) => I.Decline(db, id, user).1.Ok?
    case AcceptInvitation(id, user, token, rowId, now) => I.Accept(db, id, user, token, rowId, now, hash).1.Ok?
    case AcceptToken(token, user, rowId, now) => I.AcceptByToken(db, token, user, rowId, now, hash).1.Ok?
    case NewUser(_, _) => true
    case ChangeEmail(_, _) => true
    case DeleteUser(_) => true
  }

  ghost function Run(ops: seq<Op>, hash: string -> string): Db {
    if ops == [] then EMPTY else Step(Run(ops[..|ops| - 1], hash), ops[|ops| - 1], hash)
  }

  // --------------------------------------------------- what each operation keeps

  /** The new slug is held by no other project. */
  lemma CreateKeepsSlugs(db: Db, id: nat, rowId: nat, name: string, owner: nat, now: real)
    requires SlugsDistinct(db.projects)
    ensures SlugsDistinct(P.Create(db, id, rowId, name, owner, now).0.projects)
  {
    var t := P.Create(db, id, rowId, name, owner, now).0;
    if t != db {
      assert t.projects[id].slug !in P.Slugs(db.projects, None);
      assert forall p :: p in db.projects ==> db.projects[p].slug in P.Slugs(db.projects, None);
    }
  }

  /** The owner's row is new, and makes the owner an admin. */
  lemma CreateKeepsMembers(db: Db, id: nat, rowId: nat, name: string, owner: nat, now: real)
    requires UniqueMembers(db.members) && OwnersAreAdmins(db.projects, db.members)
    requires MembersLinked(db.projects, db.members)
    ensures var t := P.Create(db, id, rowId, name, owner, now).0;
            && UniqueMembers(t.members) && OwnersAreAdmins(t.projects, t.members)
            && MembersLinked(t.projects, t.members) && t.invitations == db.invitations
  {
    var t := P.Create(db, id, rowId, name, owner, now).0;
    if t != db {
      AddRowKeeps(db.projects, db.members, rowId, t.members[rowId]);
      forall p | p in t.projects && t.projects[p].owner.Some?
        ensures HasAdminRow(t.members, p, t.projects[p].owner.value)
      {
        if p == id {
          assert rowId in t.members;
        }
      }
    }
  }

  lemma CreateKeeps(db: Db, id: nat, rowId: nat, name: string, owner: nat, now: real)
    requires Valid(db)
    ensures Valid(P.Create(db, id, rowId, name, owner, now).0)
  {
    CreateKeepsSlugs(db, id, rowId, name, owner, now);
    CreateKeepsMembers(db, id, rowId, name, owner, now);
  }

  /** A new row for a pair that has none keeps pairs unique and every admin row. */
  lemma AddRowKeeps(projects: map<nat, Project>, members: map<nat, Member>, rowId: nat, row: Member)
    requires UniqueMembers(members) && OwnersAreAdmins(projects, members)
    requires rowId !in members && !IsMember(members, row.project, row.user)
    ensures UniqueMembers(members[rowId := row]) && OwnersAreAdmins(projects, members[rowId := row])
  {
    var t := members[rowId := row];
    assert forall m :: m in members ==> !SamePair(members[m], row);
    forall p | p in projects && projects[p].owner.Some?
      ensures HasAdminRow(t, p, projects[p].owner.value)
    {
      AdminRowKept(members, t, p, projects[p].owner.value);
    }
  }

  lemma AdminRowKept(members: map<nat, Member>, t: map<nat, Member>, p: nat, u: nat)
    requires HasAdminRow(members, p, u)
    requires forall m :: m in members && SamePair(members[m], Member(p, u, Admin, None)) && members[m].role == Admin ==>
               m in t && SamePair(t[m], members[m]) && t[m].role == Admin
    ensures HasAdminRow(t, p, u)
  {
  }

  lemma AddMemberKeeps(db: Db, rowId: nat, project: nat, user: nat, role: Role, invitedBy: nat)
    requires Valid(db)
    ensures Valid(P.AddMember(db, rowId, project, user, role, invitedBy).0)
  {
    var t := P.AddMember(db, rowId, project, user, role, invitedBy).0;
    if t != db {
      AddRowKeeps(db.projects, db.members, rowId, t.members[rowId]);
    }
  }

  /** Changing the role of a row that is not the owner's, or to admin. */
  lemma SetRoleKeeps(db: Db, rowId: nat, role: Role)
    requires Valid(db) && rowId in db.members
    requires var m := db.members[rowId];
             role == Admin || (m.project in db.projects && db.projects[m.project].owner != Some(m.user))
    ensures Valid(db.(members := db.members[rowId := db.members[rowId].(role := role)]))
  {
    var t := db.members[rowId := db.members[rowId].(role := role)];
    forall m, n | m in t && n in t ensures SamePair(t[m], t[n]) ==> m == n {
      assert SamePair(t[m], t[n]) <==> SamePair(db.members[m], db.members[n]);
    }
    forall p | p in db.projects && db.projects[p].owner.Some?
      ensures HasAdminRow(t, p, db.projects[p].owner.value)
    {
      AdminRowKept(db.members, t, p, db.projects[p].owner.value);
    }
  }

  lemma UpdateRoleKeeps(db: Db, project: nat, rowId: nat, role: Role)
    requires Valid(db)
    ensures Valid(P.UpdateMemberRole(db, project, rowId, role).0)
  {
    if P.UpdateMemberRole(db, project, rowId, role).1.Ok? {
      SetRoleKeeps(db, rowId, role);
    }
  }

  lemma RemoveKeeps(db: Db, project: nat, rowId: nat)
    requires Valid(db)
    ensures Valid(P.RemoveMember(db, project, rowId).0)
  {
    var t := P.RemoveMember(db, project, rowId).0;
    if P.RemoveMember(db, project, rowId).1.Ok? {
      forall p | p in db.projects && db.projects[p].owner.Some?
        ensures HasAdminRow(t.members, p, db.projects[p].owner.value)
      {
        AdminRowKept(db.members, t.members, p, db.projects[p].owner.value);
      }
    }
  }

  lemma AssignAdminKeeps(db: Db, rowId: nat, project: nat, user: nat, actor: nat)
    requires Valid(db)
    ensures Valid(P.AssignAdmin(db, rowId, project, user, actor).0)
  {
    var t := P.AssignAdmin(db, rowId, project, user, actor).0;
    if t != db {
      if IsMember(db.members, project, user) {
        forall m, n | m in t.members && n in t.members ensures SamePair(t.members[m], t.members[n]) ==> m == n {
          assert SamePair(t.members[m], t.members[n]) <==> SamePair(db.members[m], db.members[n]);
        }
        forall p | p in db.projects && db.projects[p].owner.Some?
          ensures HasAdminRow(t.members, p, db.projects[p].owner.value)
        {
          AdminRowKept(db.members, t.members, p, db.projects[p].owner.value);
        }
      } else {
        AddRowKeeps(db.projects, db.members, rowId, t.members[rowId]);
      }
    }
  }

  lemma UpdateProjectKeeps(db: Db, project: nat, name: Option<string>, status: Option<ProjectStatus>)
    requires Valid(db)
    ensures Valid(P.Update(db, project, name, status).0)
  {
  }

  lemma DeleteProjectKeeps(db: Db, project: nat)
    requires Valid(db)
    ensures Valid(P.Delete(db, project).0)
  {
    var t := P.Delete(db, project).0;
    if project in db.projects {
      forall p | p in t.projects && t.projects[p].owner.Some?
        ensures HasAdminRow(t.members, p, t.projects[p].owner.value)
      {
        AdminRowKept(db.members, t.members, p, t.projects[p].owner.value);
      }
    }
  }

  lemma InviteKeeps(db: Db, id: nat, project: nat, email: string, role: Role, invitedBy: nat, tokenHash: string,
                    now: real)
    requires Valid(db)
    ensures Valid(I.Create(db, id, project, email, role, invitedBy, tokenHash, now).0)
  {
  }

  /** Replacing an invitation by one that is no longer pending. */
  lemma SettleKeeps(db: Db, id: nat, i: Invitation)
    requires Valid(db) && id in db.invitations && InvitationOk(i) && i.status != Pending
    ensures Valid(db.(invitations := db.invitations[id := i]))
  {
  }

  lemma AcceptFoundKeeps(db: Db, id: nat, user: nat, token: string, rowId: nat, now: real, hash: string -> string)
    requires Valid(db) && id in db.invitations
    ensures Valid(I.AcceptFound(db, id, user, token, rowId, now, hash).0)
  {
    var t := I.AcceptFound(db, id, user, token, rowId, now, hash).0;
    var i := db.invitations[id];
    assert InvitationOk(i);
    if i.status == Pending {
      if i.expiresAt <= now {
        SettleKeeps(db, id, i.(status := Expired));
      } else if t != db {
        var accepted := i.(status := Accepted, acceptedAt := Some(now), acceptedBy := Some(user));
        SettleKeeps(db, id, accepted);
        if t.members != db.members {
          AddRowKeeps(db.projects, db.members, rowId, t.members[rowId]);
        }
      }
    }
  }

  lemma DeleteUserKeeps(db: Db, u: nat)
    requires Valid(db)
    ensures Valid(WithoutUser(db, u))
  {
    var t := WithoutUser(db, u);
    forall m, n | m in t.members && n in t.members ensures SamePair(t.members[m], t.members[n]) ==> m == n {
      assert SamePair(t.members[m], t.members[n]) <==> SamePair(db.members[m], db.members[n]);
    }
    forall p | p in t.projects && t.projects[p].owner.Some?
      ensures HasAdminRow(t.members, p, t.projects[p].owner.value)
    {
      AdminRowKept(db.members, t.members, p, t.projects[p].owner.value);
    }
    forall i, j | i in t.invitations && j in t.invitations
      ensures BothPending(t.invitations[i], t.invitations[j]) ==> i == j
    {
      assert BothPending(t.invitations[i], t.invitations[j]) <==> BothPending(db.invitations[i], db.invitations[j]);
    }
    forall i | i in t.invitations ensures InvitationOk(t.invitations[i]) {
      assert InvitationOk(db.invitations[i]);
    }
  }

  lemma CancelKeeps(db: Db, id: nat, project: nat)
    requires Valid(db)
    ensures Valid(I.Cancel(db, id, project).0)
  {
  }

  lemma DeclineKeeps(db: Db, id: nat, user: nat)
    requires Valid(db)
    ensures Valid(I.Decline(db, id, user).0)
  {
  }

  lemma AcceptKeeps(db: Db, id: nat, user: nat, token: string, rowId: nat, now: real, hash: string -> string)
    requires Valid(db)
    ensures Valid(I.Accept(db, id, user, token, rowId, now, hash).0)
  {
    if id in db.invitations {
      AcceptFoundKeeps(db, id, user, token, rowId, now, hash);
    }
  }

  lemma AcceptTokenKeeps(db: Db, token: string, user: nat, rowId: nat, now: real, hash: string -> string)
    requires Valid(db)
    ensures Valid(I.AcceptByToken(db, token, user, rowId, now, hash).0)
  {
    forall id | id in I.Matches(db, token, hash)
      ensures Valid(I.AcceptChecked(db, id, user, token, rowId, now, hash).0)
    {
      AcceptFoundKeeps(db, id, user, token, rowId, now, hash);
    }
  }

  predicate OnInvitations(op: Op) {
    op.Invite? || op.CancelInvitation? || op.DeclineInvitation? || op.AcceptInvitation? || op.AcceptToken?
  }

  lemma InvitationStepKeeps(db: Db, op: Op, hash: string -> string)
    requires Valid(db) && OnInvitations(op)
    ensures Valid(Step(db, op, hash))
  {
    match op
    case Invite(id, project, email, role, invitedBy, token, now) =>
      InviteKeeps(db, id, project, email, role, invitedBy, hash(token), now);
    case CancelInvitation(id, project) => CancelKeeps(db, id, project);
    case DeclineInvitation(id, user) => DeclineKeeps(db, id, user);
    case AcceptInvitation(id, user, token, rowId, now) => AcceptKeeps(db, id, user, token, rowId, now, hash);
    case AcceptToken(token, user, rowId, now) => AcceptTokenKeeps(db, token, user, rowId, now, hash);
  }

  lemma ProjectStepKeeps(db: Db, op: Op, hash: string -> string)
    requires Valid(db) && !OnInvitations(op)
    ensures Valid(Step(db, op, hash))
  {
    match op
    case CreateProject(id, rowId, name, owner, now) => CreateKeeps(db, id, rowId, name, owner, now);
    case AddMember(rowId, project, user, role, invitedBy) => AddMemberKeeps(db, rowId, project, user, role, invitedBy);
    case UpdateRole(project, rowId, role) => UpdateRoleKeeps(db, project, rowId, role);
    case RemoveMember(project, rowId) => RemoveKeeps(db, project, rowId);
    case AssignAdmin(rowId, project, user, actor) => AssignAdminKeeps(db, rowId, project, user, actor);
    case UpdateProject(project, name, status) => UpdateProjectKeeps(db, project, name, status);
    case DeleteProject(project) => DeleteProjectKeeps(db, project);
    case NewUser(_, _) =>
    case ChangeEmail(_, _) =>
    case DeleteUser(id) => DeleteUserKeeps(db, id);
  }

  lemma StepKeeps(db: Db, op: Op, hash: string -> string)
    requires Valid(db)
    ensures Valid(Step(db, op, hash))
  {
    if OnInvitations(op) {
      InvitationStepKeeps(db, op, hash);
    } else {
      ProjectStepKeeps(db, op, hash);
    }
  }

  /** In every reachable state: memberships are unique, owners are admin members,
      slugs are distinct, at most one invitation is pending per project and address,
      and accepted invitations were accepted before they expired. */
  lemma {:induction false} AlwaysValid(ops: seq<Op>, hash: string -> string)
    ensures Valid(Run(ops, hash))
  {
    if ops != [] {
      AlwaysValid(ops[..|ops| - 1], hash);
      StepKeeps(Run(ops[..|ops| - 1], hash), ops[|ops| - 1], hash);
    }
  }

  // ------------------------------------------------- no project loses its last admin

  ghost predicate HasAdmin(db: Db, p: nat) {
    p in db.projects && EffectiveAdmins(db, p) != {}
  }

  /** The steps that take a project's last admin away: deleting the project, or the
      user who is its only effective admin. */
  ghost predicate TakesLastAdmin(db: Db, op: Op, p: nat) {
    || (op.DeleteProject? && op.project == p)
    || (op.DeleteUser? && p in db.projects && EffectiveAdmins(db, p) == {op.id})
  }

  /** Same owner, and every admin row of `p` is still one: the admins are still there. */
  lemma AdminsGrow(db: Db, t: Db, p: nat)
    requires HasAdmin(db, p) && p in t.projects && t.projects[p].owner == db.projects[p].owner
    requires forall m :: m in db.members && db.members[m].project == p && db.members[m].role == Admin ==>
               m in t.members && t.members[m].project == p && t.members[m].role == Admin
    ensures HasAdmin(t, p)
  {
    if db.projects[p].owner.Some? {
      assert db.projects[p].owner.value in EffectiveAdmins(t, p);
    } else {
      var u :| u in EffectiveAdmins(db, p);
      var m :| m in db.members && db.members[m].project == p && db.members[m].role == Admin && db.members[m].user == u;
      assert t.members[m].user in EffectiveAdmins(t, p);
    }
  }

  /** Where the count lets one admin row go, another effective admin remains. */
  lemma AnotherAdminRemains(db: Db, t: Db, p: nat, rowId: nat)
    requires Valid(db) && p in db.projects && t.projects == db.projects
    requires rowId in db.members && db.members[rowId].project == p
    requires db.projects[p].owner != Some(db.members[rowId].user)
    requires db.members[rowId].role == Admin ==> P.CountAdmins(db, p) > 1
    requires forall m :: m in db.members && m != rowId ==> m in t.members && t.members[m] == db.members[m]
    requires HasAdmin(db, p)
    ensures HasAdmin(t, p)
  {
    if db.projects[p].owner.Some? {
      assert db.projects[p].owner.value in EffectiveAdmins(t, p);
    } else if db.members[rowId].role == Admin {
      var u := db.members[rowId].user;
      assert u in EffectiveAdmins(db, p);
      P.AtMostOneAdmin(db, p, u);
      var v :| v in EffectiveAdmins(db, p) && v != u;
      var m :| m in db.members && db.members[m].project == p && db.members[m].role == Admin && db.members[m].user == v;
      assert t.members[m].user in EffectiveAdmins(t, p);
    } else {
      AdminsGrow(db, t, p);
    }
  }

  lemma UpdateRoleKeepsAdmin(db: Db, project: nat, rowId: nat, role: Role, p: nat)
    requires Valid(db) && HasAdmin(db, p)
    ensures HasAdmin(P.UpdateMemberRole(db, project, rowId, role).0, p)
  {
    var t := P.UpdateMemberRole(db, project, rowId, role).0;
    if P.UpdateMemberRole(db, project, rowId, role).1.Ok? {
      if project == p && role != Admin {
        AnotherAdminRemains(db, t, p, rowId);
      } else {
        AdminsGrow(db, t, p);
      }
    }
  }

  lemma RemoveKeepsAdmin(db: Db, project: nat, rowId: nat, p: nat)
    requires Valid(db) && HasAdmin(db, p)
    ensures HasAdmin(P.RemoveMember(db, project, rowId).0, p)
  {
    var t := P.RemoveMember(db, project, rowId).0;
    if P.RemoveMember(db, project, rowId).1.Ok? {
      if project == p {
        AnotherAdminRemains(db, t, p, rowId);
      } else {
        AdminsGrow(db, t, p);
      }
    }
  }

  /** Owner and admin rows of `p` are all still there. */
  ghost predicate AdminRowsStay(db: Db, t: Db, p: nat) {
    && p in db.projects && p in t.projects && t.projects[p].owner == db.projects[p].owner
    && forall m :: m in db.members && db.members[m].project == p && db.members[m].role == Admin ==>
         m in t.members && t.members[m].project == p && t.members[m].role == Admin
  }

  lemma AcceptAddsOnly(db: Db, id: nat, user: nat, token: string, rowId: nat, now: real, hash: string -> string, p: nat)
    requires id in db.invitations && p in db.projects
    ensures AdminRowsStay(db, I.AcceptChecked(db, id, user, token, rowId, now, hash).0, p)
  {
  }

  lemma InvitationOpsKeepAdmins(db: Db, op: Op, hash: string -> string, p: nat)
    requires p in db.projects && OnInvitations(op)
    ensures AdminRowsStay(db, Step(db, op, hash), p)
  {
    match op
    case AcceptInvitation(id, user, token, rowId, now) =>
      if id in db.invitations {
        AcceptAddsOnly(db, id, user, token, rowId, now, hash, p);
      }
    case AcceptToken(token, user, rowId, now) =>
      forall id | id in I.Matches(db, token, hash)
        ensures AdminRowsStay(db, I.AcceptChecked(db, id, user, token, rowId, now, hash).0, p)
      {
        AcceptAddsOnly(db, id, user, token, rowId, now, hash, p);
      }
    case _ =>
  }

  lemma AssignAdminKeepsRows(db: Db, rowId: nat, project: nat, user: nat, actor: nat, p: nat)
    requires p in db.projects
    ensures AdminRowsStay(db, P.AssignAdmin(db, rowId, project, user, actor).0, p)
  {
  }

  /** Every other operation leaves owners and admin rows alone. */
  lemma OtherOpsKeepAdmins(db: Db, op: Op, hash: string -> string, p: nat)
    requires p in db.projects && !op.DeleteUser? && !(op.DeleteProject? && op.project == p)
    requires !op.UpdateRole? && !op.RemoveMember?
    ensures AdminRowsStay(db, Step(db, op, hash), p)
  {
    if OnInvitations(op) {
      InvitationOpsKeepAdmins(db, op, hash, p);
    } else {
      match op
      case AssignAdmin(rowId, project, user, actor) => AssignAdminKeepsRows(db, rowId, project, user, actor, p);
      case _ =>
    }
  }

  /** Deleting a user takes that user, and nobody else, from the effective admins. */
  lemma AdminsWithoutUser(db: Db, u: nat, p: nat)
    requires p in db.projects
    ensures p in WithoutUser(db, u).projects
    ensures EffectiveAdmins(WithoutUser(db, u), p) == EffectiveAdmins(db, p) - {u}
  {
    var t := WithoutUser(db, u);
    forall v | v in EffectiveAdmins(db, p) - {u} ensures v in EffectiveAdmins(t, p) {
      if db.projects[p].owner != Some(v) {
        var m :| m in db.members && db.members[m].project == p && db.members[m].role == Admin
                 && db.members[m].user == v;
        assert t.members[m].user == v && t.members[m].role == Admin && t.members[m].project == p;
      }
    }
  }

  lemma DeleteUserKeepsAdminExactly(db: Db, u: nat, p: nat)
    requires HasAdmin(db, p)
    ensures HasAdmin(WithoutUser(db, u), p) <==> EffectiveAdmins(db, p) != {u}
  {
    AdminsWithoutUser(db, u, p);
  }

  lemma OtherStepKeepsAdmin(db: Db, op: Op, hash: string -> string, p: nat)
    requires Valid(db) && HasAdmin(db, p)
    requires !op.DeleteUser? && !(op.DeleteProject? && op.project == p)
    ensures HasAdmin(Step(db, op, hash), p)
  {
    match op
    case UpdateRole(project, rowId, role) => UpdateRoleKeepsAdmin(db, project, rowId, role, p);
    case RemoveMember(project, rowId) => RemoveKeepsAdmin(db, project, rowId, p);
    case _ =>
      OtherOpsKeepAdmins(db, op, hash, p);
      AdminsGrow(db, Step(db, op, hash), p);
  }

  /** A step keeps an effective admin if and only if it is none of those. */
  lemma StepKeepsAdmin(db: Db, op: Op, hash: string -> string, p: nat)
    requires Valid(db) && HasAdmin(db, p)
    ensures HasAdmin(Step(db, op, hash), p) <==> !TakesLastAdmin(db, op, p)
  {
    if op.DeleteUser? {
      DeleteUserKeepsAdminExactly(db, op.id, p);
    } else if !TakesLastAdmin(db, op, p) {
      OtherStepKeepsAdmin(db, op, hash, p);
    } else {
      assert Step(db, op, hash) == P.Delete(db, p).0;
    }
  }

  lemma RunLast(ops: seq<Op>, hash: string -> string)
    requires ops != []
    ensures Run(ops, hash) == Step(Run(ops[..|ops| - 1], hash), ops[|ops| - 1], hash)
  {
  }

  lemma SplitLast(before: seq<Op>, after: seq<Op>)
    requires after != []
    ensures var all := before + after;
            all[..|all| - 1] == before + after[..|after| - 1] && all[|all| - 1] == after[|after| - 1]
  {
  }

  lemma RunSplit(before: seq<Op>, after: seq<Op>, hash: string -> string)
    requires after != []
    ensures var n := |after| - 1;
            Run(before + after, hash) == Step(Run(before + after[..n], hash), after[n], hash)
  {
    SplitLast(before, after);
    RunLast(before + after, hash);
  }

  lemma RunAt(before: seq<Op>, after: seq<Op>, hash: string -> string, i: nat)
    requires i < |after|
    ensures Run(before + after[..i + 1], hash) == Step(Run(before + after[..i], hash), after[i], hash)
  {
    assert after[..i + 1][..i] == after[..i];
    RunSplit(before, after[..i + 1], hash);
  }

  /** No step of the run takes the last admin of `p` away. */
  ghost predicate LastAdminStays(before: seq<Op>, after: seq<Op>, hash: string -> string, p: nat) {
    forall i :: 0 <= i < |after| ==> !TakesLastAdmin(Run(before + after[..i], hash), after[i], p)
  }

  lemma ShorterLastAdminStays(before: seq<Op>, after: seq<Op>, hash: string -> string, p: nat)
    requires after != [] && LastAdminStays(before, after, hash, p)
    ensures LastAdminStays(before, after[..|after| - 1], hash, p)
  {
    assert forall i :: 0 <= i < |after| - 1 ==> after[..|after| - 1][..i] == after[..i];
  }

  /** A project that has an effective admin keeps having one, whether it has an owner
      or not, through every run that deletes neither the project nor, at the time, its
      only effective admin. */
  lemma {:induction false} AdminNeverLost(before: seq<Op>, after: seq<Op>, hash: string -> string, p: nat)
    requires HasAdmin(Run(before, hash), p)
    requires LastAdminStays(before, after, hash, p)
    ensures HasAdmin(Run(before + after, hash), p)
  {
    if after == [] {
      assert before + after == before;
    } else {
      var n := |after| - 1;
      ShorterLastAdminStays(before, after, hash, p);
      AdminNeverLost(before, after[..n], hash, p);
      AlwaysValid(before + after[..n], hash);
      StepKeepsAdmin(Run(before + after[..n], hash), after[n], hash, p);
      RunSplit(before, after, hash);
    }
  }

  lemma AdminKept(before: seq<Op>, after: seq<Op>, hash: string -> string, p: nat, n: nat)
    requires HasAdmin(Run(before, hash), p) && n <= |after| && LastAdminStays(before, after, hash, p)
    ensures HasAdmin(Run(before + after[..n], hash), p)
  {
    assert LastAdminStays(before, after[..n], hash, p) by {
      assert forall i :: 0 <= i < n ==> after[..n][..i] == after[..i];
    }
    AdminNeverLost(before, after[..n], hash, p);
  }

  lemma AdminTaken(before: seq<Op>, after: seq<Op>, hash: string -> string, p: nat, i: nat)
    requires i < |after| && HasAdmin(Run(before + after[..i], hash), p)
    requires TakesLastAdmin(Run(before + after[..i], hash), after[i], p)
    ensures !HasAdmin(Run(before + after[..i + 1], hash), p)
  {
    AlwaysValid(before + after[..i], hash);
    StepKeepsAdmin(Run(before + after[..i], hash), after[i], hash, p);
    RunAt(before, after, hash, i);
  }

  /** And only through those: it has an admin at every point of a run if and only if
      no step takes the last one. */
  lemma AdminKeptExactly(before: seq<Op>, after: seq<Op>, hash: string -> string, p: nat)
    requires HasAdmin(Run(before, hash), p)
    ensures (forall n :: 0 <= n <= |after| ==> HasAdmin(Run(before + after[..n], hash), p))
       <==> LastAdminStays(before, after, hash, p)
  {
    if LastAdminStays(before, after, hash, p) {
      forall n | 0 <= n <= |after| ensures HasAdmin(Run(before + after[..n], hash), p) {
        AdminKept(before, after, hash, p, n);
      }
    } else {
      var i :| 0 <= i < |after| && TakesLastAdmin(Run(before + after[..i], hash), after[i], p);
      if HasAdmin(Run(before + after[..i], hash), p) {
        AdminTaken(before, after, hash, p, i);
      }
    }
  }

  /** A project is born with an admin. */
  lemma CreatedWithAdmin(db: Db, id: nat, rowId: nat, name: string, owner: nat, now: real)
    requires P.Create(db, id, rowId, name, owner, now).1.Ok?
    ensures HasAdmin(P.Create(db, id, rowId, name, owner, now).0, id)
  {
  }

  // -------------------------------------------------------------- slugs and names

  /** The slug is a candidate for the project's name. */
  ghost predicate SlugOfName(p: Project) {
    exists k: nat :: p.slug == N.Candidate(N.Slugify(p.name), "-", k)
  }

  ghost predicate SlugsOfNames(projects: map<nat, Project>) {
    forall p :: p in projects ==> SlugOfName(projects[p])
  }

  lemma StepKeepsSlugs(db: Db, op: Op, hash: string -> string)
    requires SlugsOfNames(db.projects)
    ensures SlugsOfNames(Step(db, op, hash).projects)
  {
    if OnInvitations(op) {
      InvitationsLeaveProjects(db, op, hash);
    } else {
      match op
      case CreateProject(id, rowId, name, owner, now) => CreateSlugs(db, id, rowId, name, owner, now);
      case UpdateProject(project, name, status) => UpdateSlugs(db, project, name, status);
      case DeleteProject(project) => DeleteProjectSlugs(db, project);
      case DeleteUser(id) => DeleteUserSlugs(db, id);
      case _ => MemberOpsLeaveProjects(db, op, hash);
    }
  }

  predicate OnMembersOrUsers(op: Op) {
    op.AddMember? || op.UpdateRole? || op.RemoveMember? || op.AssignAdmin? || op.NewUser? || op.ChangeEmail?
  }

  lemma MemberOpsLeaveProjects(db: Db, op: Op, hash: string -> string)
    requires OnMembersOrUsers(op)
    ensures Step(db, op, hash).projects == db.projects
  {
    match op
    case AddMember(rowId, project, user, role, invitedBy) =>
    case UpdateRole(project, rowId, role) =>
    case RemoveMember(project, rowId) =>
    case AssignAdmin(rowId, project, user, actor) => AssignLeavesProjects(db, rowId, project, user, actor);
    case NewUser(_, _) =>
    case ChangeEmail(_, _) =>
  }

  lemma AssignLeavesProjects(db: Db, rowId: nat, project: nat, user: nat, actor: nat)
    ensures P.AssignAdmin(db, rowId, project, user, actor).0.projects == db.projects
  {
  }

  lemma DeleteProjectSlugs(db: Db, project: nat)
    requires SlugsOfNames(db.projects)
    ensures SlugsOfNames(P.Delete(db, project).0.projects)
  {
  }

  lemma AcceptLeavesProjects(db: Db, id: nat, user: nat, token: string, rowId: nat, now: real, hash: string -> string)
    requires id in db.invitations
    ensures I.AcceptChecked(db, id, user, token, rowId, now, hash).0.projects == db.projects
  {
  }

  lemma InvitationsLeaveProjects(db: Db, op: Op, hash: string -> string)
    requires OnInvitations(op)
    ensures Step(db, op, hash).projects == db.projects
  {
    match op
    case Invite(_, _, _, _, _, _, _) =>
    case CancelInvitation(_, _) =>
    case DeclineInvitation(_, _) =>
    case AcceptInvitation(id, user, token, rowId, now) =>
      if id in db.invitations {
        AcceptLeavesProjects(db, id, user, token, rowId, now, hash);
      }
    case AcceptToken(token, user, rowId, now) =>
      forall id | id in I.Matches(db, token, hash)
        ensures I.AcceptChecked(db, id, user, token, rowId, now, hash).0.projects == db.projects
      {
        AcceptLeavesProjects(db, id, user, token, rowId, now, hash);
      }
  }

  lemma CreateSlugs(db: Db, id: nat, rowId: nat, name: string, owner: nat, now: real)
    requires SlugsOfNames(db.projects)
    ensures SlugsOfNames(P.Create(db, id, rowId, name, owner, now).0.projects)
  {
  }

  lemma UpdateSlugs(db: Db, project: nat, name: Option<string>, status: Option<ProjectStatus>)
    requires SlugsOfNames(db.projects)
    ensures SlugsOfNames(P.Update(db, project, name, status).0.projects)
  {
  }

  lemma DeleteUserSlugs(db: Db, u: nat)
    requires SlugsOfNames(db.projects)
    ensures SlugsOfNames(WithoutUser(db, u).projects)
  {
    forall p | p in db.projects ensures SlugOfName(WithoutUser(db, u).projects[p]) {
      assert SlugOfName(db.projects[p]);
    }
  }

  /** In every reachable state each slug is a candidate for its project's name. */
  lemma {:induction false} SlugsComeFromNames(ops: seq<Op>, hash: string -> string)
    ensures SlugsOfNames(Run(ops, hash).projects)
  {
    if ops != [] {
      SlugsComeFromNames(ops[..|ops| - 1], hash);
      StepKeepsSlugs(Run(ops[..|ops| - 1], hash), ops[|ops| - 1], hash);
    }
  }

  /** Saving a project under its own name in a reachable state: where its slug is
      candidate `k` of the name, it is kept if and only if all earlier candidates
      belong to other projects; otherwise it falls back to an earlier one. */
  lemma ResavingKeepsSlugExactly(ops: seq<Op>, hash: string -> string, p: nat, k: nat)
    requires var db := Run(ops, hash);
             p in db.projects && db.projects[p].slug == N.Candidate(N.Slugify(db.projects[p].name), "-", k)
    ensures var db := Run(ops, hash);
            var name, others := db.projects[p].name, P.Slugs(db.projects, Some(p));
            var saved := P.Update(db, p, Some(name), None).0.projects[p];
            && saved.name == name
            && (saved.slug == db.projects[p].slug
                <==> forall j: nat :: j < k ==> N.Candidate(N.Slugify(name), "-", j) in others)
            && exists j: nat :: j <= k && saved.slug == N.Candidate(N.Slugify(name), "-", j)
  {
    AlwaysValid(ops, hash);
    var db := Run(ops, hash);
    var base, others := N.Slugify(db.projects[p].name), P.Slugs(db.projects, Some(p));
    assert N.Candidate(base, "-", k) !in others;
    var slug := N.FirstFree(base, "-", others);
    var n: nat :| slug == N.Candidate(base, "-", n) && forall j: nat :: j < n ==> N.Candidate(base, "-", j) in others;
    assert n <= k;
    if slug == N.Candidate(base, "-", k) {
      N.CandidateInjective(base, "-", n, k);
    }
    if n < k {
      assert N.Candidate(base, "-", n) !in others;
    }
  }

  function SharedName(name: string, user: User): seq<Op> {
    [NewUser(1, user), CreateProject(1, 1, name, 1, 0.0), CreateProject(2, 2, name, 1, 0.0), DeleteProject(1)]
  }

  /** After the user and the first of the two projects. */
  lemma FirstOfName(name: string, user: User, hash: string -> string)
    ensures var row, first := Member(1, 1, Admin, Some(1)), Project(name, N.Slugify(name), Active, Some(1), 0.0);
            Run(SharedName(name, user)[..2], hash) == Db(map[1 := user], map[1 := first], map[1 := row], map[])
  {
    var ops := SharedName(name, user);
    assert ops[..2][..1] == [NewUser(1, user)] && [NewUser(1, user)][..0] == [];
    assert Run([], hash) == EMPTY;
    var one := Run([NewUser(1, user)], hash);
    assert one == EMPTY.(users := map[1 := user]);
    assert P.Slugs(one.projects, None) == {};
    N.FirstFreeUnique(N.Slugify(name), "-", {}, 0);
    assert Run(ops[..2], hash) == Step(one, CreateProject(1, 1, name, 1, 0.0), hash);
  }

  lemma SharedNameProjects(name: string, user: User, hash: string -> string)
    ensures var slug := N.Candidate(N.Slugify(name), "-", 1);
            Run(SharedName(name, user), hash).projects == map[2 := Project(name, slug, Active, Some(1), 0.0)]
  {
    var ops := SharedName(name, user);
    FirstOfName(name, user, hash);
    var two := Run(ops[..2], hash);
    assert P.Slugs(two.projects, None) == {N.Slugify(name)};
    SecondCandidate(N.Slugify(name));
    assert ops[..3][..2] == ops[..2];
    var three := Run(ops[..3], hash);
    assert three == Step(two, CreateProject(2, 2, name, 1, 0.0), hash);
    assert Run(ops, hash) == Step(three, DeleteProject(1), hash);
  }

  lemma SecondCandidate(base: string)
    ensures N.FirstFree(base, "-", {base}) == N.Candidate(base, "-", 1)
  {
    assert |N.Candidate(base, "-", 1)| > |base|;
    N.FirstFreeUnique(base, "-", {base}, 1);
  }

  /** Two projects of one name, the first of them deleted: saving the second under
      its own name changes its slug, whatever the name. */
  lemma ResavingMayChangeSlug(name: string, user: User, hash: string -> string)
    ensures var db := Run(SharedName(name, user), hash);
            && 2 in db.projects && db.projects[2].name == name
            && db.projects[2].slug == N.Candidate(N.Slugify(name), "-", 1)
            && P.Update(db, 2, Some(name), None).0.projects[2].slug == N.Slugify(name) != db.projects[2].slug
  {
    var db, base := Run(SharedName(name, user), hash), N.Slugify(name);
    SharedNameProjects(name, user, hash);
    assert P.Slugs(db.projects, Some(2)) == {};
    N.FirstFreeUnique(base, "-", {}, 0);
    assert |N.Candidate(base, "-", 1)| > |base|;
  }
}
