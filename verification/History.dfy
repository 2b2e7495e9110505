/** The tables told from the calls: what each membership row, project and invitation
    holds is decided by the last successful operation on it. */
module History {
  import opened Wrappers
  import opened Database
  import opened Membership
  import I = Invitations
  import L = InvitationLifecycle
  import O = Outcomes
  import P = Projects

  // ------------------------------------------------------------------ memberships

  /** The one row of a pair, or none. */
  ghost predicate HasRow(members: map<nat, Member>, p: nat, u: nat, row: Option<Member>) {
    match row
    case None => !IsMember(members, p, u)
    case Some(r) => r.project == p && r.user == u && exists m :: m in members && members[m] == r
  }

  /** The invitation that the step accepted. */
  ghost predicate JustAccepted(db: Db, t: Db, id: nat) {
    && id in db.invitations && db.invitations[id].status == Pending
    && id in t.invitations && t.invitations[id].status == Accepted
  }

  /** What a successful operation leaves of the row of a pair. */
  ghost function RowAfter(db: Db, op: Op, hash: string -> string, p: nat, u: nat, row: Option<Member>): Option<Member>
    requires Returns(db, op, hash)
  {
    match op
    case CreateProject(id, _, _, owner, _) =>
      if id == p && owner == u then Some(Member(p, u, Admin, Some(u))) else row
    case AddMember(_, project, user, role, inviter) =>
      if project == p && user == u then Some(Member(p, u, role, Some(inviter))) else row
    case UpdateRole(project, rowId, role) =>
      if project == p && db.members[rowId].user == u then Some(db.members[rowId].(role := role)) else row
    case RemoveMember(project, rowId) =>
      if project == p && db.members[rowId].user == u then None else row
    case AssignAdmin(_, project, user, actor) =>
      if project != p || user != u then row
      else if row.Some? then Some(row.value.(role := Admin))
      else Some(Member(p, u, Admin, Some(actor)))
    case AcceptInvitation(id, user, _, _, _) =>
      if user == u && db.invitations[id].project == p
      then Some(Member(p, u, db.invitations[id].role, db.invitations[id].invitedBy)) else row
    case AcceptToken(_, user, _, _) =>
      if user == u && exists id :: JustAccepted(db, Step(db, op, hash), id) && db.invitations[id].project == p then
        var id :| JustAccepted(db, Step(db, op, hash), id) && db.invitations[id].project == p;
        Some(Member(p, u, db.invitations[id].role, db.invitations[id].invitedBy))
      else row
    case DeleteProject(project) => if project == p then None else row
    case DeleteUser(user) =>
      if user == u then None
      else if row.Some? then Some(row.value.(invitedBy := Forget(row.value.invitedBy, user)))
      else None
    case _ => row
  }

  lemma AddRow(members: map<nat, Member>, rowId: nat, r: Member, p: nat, u: nat, row: Option<Member>)
    requires rowId !in members && !IsMember(members, r.project, r.user) && HasRow(members, p, u, row)
    ensures HasRow(members[rowId := r], p, u, if r.project == p && r.user == u then Some(r) else row)
  {
    var t := members[rowId := r];
    assert t[rowId] == r;
    if !(r.project == p && r.user == u) && row.Some? {
      var m :| m in members && members[m] == row.value;
      assert t[m] == row.value;
    }
  }

  lemma SetRow(members: map<nat, Member>, rowId: nat, r: Member, p: nat, u: nat, row: Option<Member>)
    requires rowId in members && SamePair(members[rowId], r) && HasRow(members, p, u, row)
    ensures HasRow(members[rowId := r], p, u, if r.project == p && r.user == u then Some(r) else row)
  {
    var t := members[rowId := r];
    assert t[rowId] == r;
    if !(r.project == p && r.user == u) && row.Some? {
      var m :| m in members && members[m] == row.value;
      assert t[m] == row.value;
    }
  }

  lemma TakeRow(members: map<nat, Member>, rowId: nat, p: nat, u: nat, row: Option<Member>)
    requires UniqueMembers(members) && rowId in members && HasRow(members, p, u, row)
    ensures HasRow(members - {rowId}, p, u,
                   if members[rowId].project == p && members[rowId].user == u then None else row)
  {
    var r, t := members[rowId], members - {rowId};
    if r.project == p && r.user == u {
      forall m | m in t ensures !SamePair(t[m], r) {
        assert SamePair(members[m], members[rowId]) ==> m == rowId;
      }
    } else if row.Some? {
      var m :| m in members && members[m] == row.value;
      assert t[m] == row.value;
    }
  }

  lemma AssignRow(db: Db, rowId: nat, project: nat, user: nat, actor: nat, p: nat, u: nat, row: Option<Member>)
    requires UniqueMembers(db.members) && HasRow(db.members, p, u, row)
    requires P.AssignAdmin(db, rowId, project, user, actor).1.Ok?
    ensures HasRow(P.AssignAdmin(db, rowId, project, user, actor).0.members, p, u,
                   if project != p || user != u then row
                   else if row.Some? then Some(row.value.(role := Admin)) else Some(Member(p, u, Admin, Some(actor))))
  {
    var t := P.AssignAdmin(db, rowId, project, user, actor).0.members;
    if IsMember(db.members, project, user) {
      if row.Some? {
        var m :| m in db.members && db.members[m] == row.value;
        assert m in t && t[m] == if project == p && user == u then row.value.(role := Admin) else row.value;
      }
    } else {
      AddRow(db.members, rowId, Member(project, user, Admin, Some(actor)), p, u, row);
    }
  }

  lemma DeleteProjectRow(db: Db, project: nat, p: nat, u: nat, row: Option<Member>)
    requires HasRow(db.members, p, u, row) && project in db.projects
    ensures HasRow(P.Delete(db, project).0.members, p, u, if project == p then None else row)
  {
    var t := P.Delete(db, project).0.members;
    if project != p && row.Some? {
      var m :| m in db.members && db.members[m] == row.value;
      assert t[m] == row.value;
    }
  }

  lemma DeleteUserRow(db: Db, v: nat, p: nat, u: nat, row: Option<Member>)
    requires HasRow(db.members, p, u, row)
    ensures HasRow(WithoutUser(db, v).members, p, u,
                   if v == u || row.None? then None
                   else Some(row.value.(invitedBy := Forget(row.value.invitedBy, v))))
  {
    var t := WithoutUser(db, v).members;
    if v != u && row.Some? {
      var m :| m in db.members && db.members[m] == row.value;
      assert t[m] == row.value.(invitedBy := Forget(row.value.invitedBy, v));
    }
  }

  /** A successful acceptance adds the row the invitation offers. */
  lemma AcceptRow(db: Db, id: nat, user: nat, token: string, rowId: nat, now: real, hash: string -> string,
                  p: nat, u: nat, row: Option<Member>)
    requires id in db.invitations && HasRow(db.members, p, u, row)
    requires I.AcceptChecked(db, id, user, token, rowId, now, hash).1.Ok?
    ensures var t, i := I.AcceptChecked(db, id, user, token, rowId, now, hash).0, db.invitations[id];
            && HasRow(t.members, p, u,
                      if i.project == p && user == u then Some(Member(p, u, i.role, i.invitedBy)) else row)
            && JustAccepted(db, t, id) && forall j :: JustAccepted(db, t, j) ==> j == id
  {
    var i := db.invitations[id];
    AddRow(db.members, rowId, Member(i.project, user, i.role, i.invitedBy), p, u, row);
  }

  lemma AcceptTokenRow(db: Db, op: Op, hash: string -> string, p: nat, u: nat, row: Option<Member>)
    requires op.AcceptToken? && Returns(db, op, hash) && HasRow(db.members, p, u, row)
    ensures HasRow(Step(db, op, hash).members, p, u, RowAfter(db, op, hash, p, u, row))
  {
    var id :| id in I.Matches(db, op.token, hash)
              && I.AcceptByToken(db, op.token, op.user, op.rowId, op.now, hash)
                 == I.AcceptChecked(db, id, op.user, op.token, op.rowId, op.now, hash);
    AcceptRow(db, id, op.user, op.token, op.rowId, op.now, hash, p, u, row);
  }

  lemma MemberStepRows(db: Db, op: Op, hash: string -> string, p: nat, u: nat, row: Option<Member>)
    requires op.AddMember? || op.UpdateRole? || op.RemoveMember? || op.AssignAdmin?
    requires Valid(db) && HasRow(db.members, p, u, row) && Returns(db, op, hash)
    ensures HasRow(Step(db, op, hash).members, p, u, RowAfter(db, op, hash, p, u, row))
  {
    match op
    case AddMember(rowId, project, user, role, inviter) =>
      AddRow(db.members, rowId, Member(project, user, role, Some(inviter)), p, u, row);
    case UpdateRole(project, rowId, role) => SetRow(db.members, rowId, db.members[rowId].(role := role), p, u, row);
    case RemoveMember(project, rowId) => TakeRow(db.members, rowId, p, u, row);
    case AssignAdmin(rowId, project, user, actor) => AssignRow(db, rowId, project, user, actor, p, u, row);
  }

  /** A row that a successful operation does not speak of stays as it is. */
  lemma StepRows(db: Db, op: Op, hash: string -> string, p: nat, u: nat, row: Option<Member>)
    requires Valid(db) && HasRow(db.members, p, u, row) && Returns(db, op, hash)
    ensures HasRow(Step(db, op, hash).members, p, u, RowAfter(db, op, hash, p, u, row))
  {
    if op.AddMember? || op.UpdateRole? || op.RemoveMember? || op.AssignAdmin? {
      MemberStepRows(db, op, hash, p, u, row);
    } else if op.AcceptToken? {
      AcceptTokenRow(db, op, hash, p, u, row);
    } else {
      match op
      case CreateProject(id, rowId, name, owner, now) => CreateRow(db, id, rowId, name, owner, now, p, u, row);
      case AcceptInvitation(id, user, token, rowId, now) => AcceptRow(db, id, user, token, rowId, now, hash, p, u, row);
      case DeleteProject(project) => DeleteProjectRow(db, project, p, u, row);
      case DeleteUser(user) => DeleteUserRow(db, user, p, u, row);
      case _ => OtherRows(db, op, hash);
    }
  }

  lemma CreateRow(db: Db, id: nat, rowId: nat, name: string, owner: nat, now: real, p: nat, u: nat, row: Option<Member>)
    requires MembersLinked(db.projects, db.members) && HasRow(db.members, p, u, row)
    requires P.Create(db, id, rowId, name, owner, now).1.Ok?
    ensures HasRow(P.Create(db, id, rowId, name, owner, now).0.members, p, u,
                   if id == p && owner == u then Some(Member(p, u, Admin, Some(u))) else row)
  {
    AddRow(db.members, rowId, Member(id, owner, Admin, Some(owner)), p, u, row);
  }

  lemma OtherRows(db: Db, op: Op, hash: string -> string)
    requires op.UpdateProject? || op.Invite? || op.CancelInvitation? || op.DeclineInvitation?
          || op.NewUser? || op.ChangeEmail?
    ensures Step(db, op, hash).members == db.members
  {
  }

  lemma RaisingAccept(db: Db, id: nat, user: nat, token: string, rowId: nat, now: real, hash: string -> string)
    requires id in db.invitations && !I.AcceptChecked(db, id, user, token, rowId, now, hash).1.Ok?
    ensures I.AcceptChecked(db, id, user, token, rowId, now, hash).0.members == db.members
  {
  }

  /** An operation that raises changes no membership. */
  lemma RaisingKeepsRows(db: Db, op: Op, hash: string -> string)
    requires !Returns(db, op, hash)
    ensures Step(db, op, hash).members == db.members
  {
    match op
    case AcceptInvitation(id, user, token, rowId, now) =>
      if user in db.users && id in db.invitations {
        RaisingAccept(db, id, user, token, rowId, now, hash);
      }
    case AcceptToken(token, user, rowId, now) =>
      forall id | id in I.Matches(db, token, hash) && !I.AcceptChecked(db, id, user, token, rowId, now, hash).1.Ok?
        ensures I.AcceptChecked(db, id, user, token, rowId, now, hash).0.members == db.members
      {
        RaisingAccept(db, id, user, token, rowId, now, hash);
      }
    case _ =>
  }

  /** The row of a pair, told by the successful operations of the run. */
  ghost function RowOfRun(ops: seq<Op>, hash: string -> string, p: nat, u: nat): Option<Member> {
    if ops == [] then None
    else
      var before, op := ops[..|ops| - 1], ops[|ops| - 1];
      var row := RowOfRun(before, hash, p, u);
      if Returns(Run(before, hash), op, hash) then RowAfter(Run(before, hash), op, hash, p, u, row) else row
  }

  /** On every run, who is in a project, with which role and invited by whom is what
      the last successful operation on the pair made it. */
  lemma {:induction false} MembershipsFollowRun(ops: seq<Op>, hash: string -> string, p: nat, u: nat)
    ensures HasRow(Run(ops, hash).members, p, u, RowOfRun(ops, hash, p, u))
  {
    if ops != [] {
      var before, op := ops[..|ops| - 1], ops[|ops| - 1];
      MembershipsFollowRun(before, hash, p, u);
      AlwaysValid(before, hash);
      RunLast(ops, hash);
      if Returns(Run(before, hash), op, hash) {
        StepRows(Run(before, hash), op, hash, p, u, RowOfRun(before, hash, p, u));
      } else {
        RaisingKeepsRows(Run(before, hash), op, hash);
      }
    }
  }

  // ---------------------------------------------------------------------- projects

  /** The project row of `p` but for its slug, or none. */
  ghost predicate HasProject(projects: map<nat, Project>, p: nat, row: Option<Project>) {
    match row
    case None => p !in projects
    case Some(r) =>
      && p in projects && projects[p].name == r.name && projects[p].status == r.status
      && projects[p].owner == r.owner && projects[p].createdAt == r.createdAt
  }

  ghost function ProjectAfter(op: Op, p: nat, row: Option<Project>): Option<Project> {
    match op
    case CreateProject(id, _, name, owner, now) =>
      if id == p then Some(Project(name, "", Active, Some(owner), now)) else row
    case UpdateProject(project, newName, status) =>
      if project != p || row.None? then row
      else
        Some(row.value.(name := if newName.Some? then newName.value else row.value.name,
                        status := if status.Some? then status.value else row.value.status))
    case DeleteProject(project) => if project == p then None else row
    case DeleteUser(user) =>
      if row.Some? then Some(row.value.(owner := Forget(row.value.owner, user))) else None
    case _ => row
  }

  ghost function ProjectOfRun(ops: seq<Op>, hash: string -> string, p: nat): Option<Project> {
    if ops == [] then None
    else
      var before, op := ops[..|ops| - 1], ops[|ops| - 1];
      var row := ProjectOfRun(before, hash, p);
      if Returns(Run(before, hash), op, hash) then ProjectAfter(op, p, row) else row
  }

  predicate OnProjects(op: Op) {
    op.CreateProject? || op.UpdateProject? || op.DeleteProject? || op.DeleteUser?
  }

  lemma OthersLeaveProjects(db: Db, op: Op, hash: string -> string)
    requires !OnProjects(op) || !Returns(db, op, hash)
    ensures Step(db, op, hash).projects == db.projects
  {
    if OnInvitations(op) {
      InvitationsLeaveProjects(db, op, hash);
    } else if OnMembersOrUsers(op) {
      MemberOpsLeaveProjects(db, op, hash);
    }
  }

  lemma StepProjects(db: Db, op: Op, hash: string -> string, p: nat, row: Option<Project>)
    requires OnProjects(op) && Returns(db, op, hash) && HasProject(db.projects, p, row)
    ensures HasProject(Step(db, op, hash).projects, p, ProjectAfter(op, p, row))
  {
  }

  /** On every run, which projects there are, and their name, status, owner and time of
      creation, is told by the successful operations. */
  lemma {:induction false} ProjectsFollowRun(ops: seq<Op>, hash: string -> string, p: nat)
    ensures HasProject(Run(ops, hash).projects, p, ProjectOfRun(ops, hash, p))
  {
    if ops != [] {
      var before, op := ops[..|ops| - 1], ops[|ops| - 1];
      ProjectsFollowRun(before, hash, p);
      RunLast(ops, hash);
      if OnProjects(op) && Returns(Run(before, hash), op, hash) {
        StepProjects(Run(before, hash), op, hash, p, ProjectOfRun(before, hash, p));
      } else {
        OthersLeaveProjects(Run(before, hash), op, hash);
      }
    }
  }

  // ------------------------------------------------------------------- invitations

  ghost predicate HasInvitation(invitations: map<nat, Invitation>, id: nat, row: Option<Invitation>) {
    match row
    case None => id !in invitations
    case Some(i) => id in invitations && invitations[id] == i
  }

  /** What an attempt to accept leaves of a row: the invited user finds it expired, or
      settles it with a fitting token while the project is active (also when a member
      already); nobody else changes it. */
  ghost function Attempted(db: Db, i: Invitation, user: nat, token: string, rowId: nat, now: real,
                           hash: string -> string): Invitation
  {
    if user !in db.users || I.Normalize(db.users[user].email) != i.email || i.status != Pending then i
    else if i.expiresAt <= now then i.(status := Expired)
    else if O.TokenFits(i, token, hash) && O.ProjectActive(db, i.project)
            && (IsMember(db.members, i.project, user) || rowId !in db.members)
    then i.(status := Accepted, acceptedAt := Some(now), acceptedBy := Some(user))
    else i
  }

  /** The search by token can only meet this row. */
  predicate TokenNames(i: Invitation, token: string, hash: string -> string) {
    token != "" && i.status == Pending && i.tokenHash != "" && i.tokenHash == hash(token)
  }

  ghost function InvitationAfter(db: Db, op: Op, hash: string -> string, id: nat, row: Option<Invitation>)
    : Option<Invitation>
  {
    match op
    case Invite(i, project, email, role, inviter, token, now) =>
      if i == id && Returns(db, op, hash)
      then Some(Invitation(project, I.Normalize(email), role, Some(inviter), hash(token), Pending, now + 604800.0,
                           None, None))
      else row
    case CancelInvitation(i, _) =>
      if i == id && row.Some? && Returns(db, op, hash) then Some(row.value.(status := Cancelled)) else row
    case DeclineInvitation(i, _) =>
      if i == id && row.Some? && Returns(db, op, hash) then Some(row.value.(status := Cancelled)) else row
    case AcceptInvitation(i, user, token, rowId, now) =>
      if i == id && row.Some? then Some(Attempted(db, row.value, user, token, rowId, now, hash)) else row
    case AcceptToken(token, user, rowId, now) =>
      if row.Some? && TokenNames(row.value, token, hash)
      then Some(Attempted(db, row.value, user, token, rowId, now, hash)) else row
    case DeleteProject(project) =>
      if row.Some? && row.value.project == project && project in db.projects then None else row
    case DeleteUser(user) =>
      if row.None? then None
      else Some(row.value.(invitedBy := Forget(row.value.invitedBy, user),
                           acceptedBy := Forget(row.value.acceptedBy, user)))
    case _ => row
  }

  lemma AcceptAttempts(db: Db, id: nat, user: nat, token: string, rowId: nat, now: real, hash: string -> string, j: nat)
    requires id in db.invitations && user in db.users
    ensures var t := I.AcceptChecked(db, id, user, token, rowId, now, hash).0;
            && t.invitations.Keys == db.invitations.Keys
            && t.invitations[id] == Attempted(db, db.invitations[id], user, token, rowId, now, hash)
            && (j in db.invitations && j != id ==> t.invitations[j] == db.invitations[j])
  {
  }

  lemma TokenAttempts(db: Db, token: string, user: nat, rowId: nat, now: real, hash: string -> string, id: nat,
                      row: Option<Invitation>)
    requires I.UniqueHashes(db.invitations) && HasInvitation(db.invitations, id, row)
    ensures HasInvitation(I.AcceptByToken(db, token, user, rowId, now, hash).0.invitations, id,
                          InvitationAfter(db, AcceptToken(token, user, rowId, now), hash, id, row))
  {
    assert row.Some? && TokenNames(row.value, token, hash) ==> id in I.Matches(db, token, hash);
    if user in db.users && token != "" && I.Matches(db, token, hash) != {} {
      var i :| i in I.Matches(db, token, hash)
               && I.AcceptByToken(db, token, user, rowId, now, hash)
                  == I.AcceptChecked(db, i, user, token, rowId, now, hash);
      AcceptAttempts(db, i, user, token, rowId, now, hash, id);
      if id in db.invitations && TokenNames(db.invitations[id], token, hash) {
        assert db.invitations[i].tokenHash == db.invitations[id].tokenHash;
      }
    }
  }

  lemma StepInvitations(db: Db, op: Op, hash: string -> string, id: nat, row: Option<Invitation>)
    requires I.UniqueHashes(db.invitations) && HasInvitation(db.invitations, id, row)
    ensures HasInvitation(Step(db, op, hash).invitations, id, InvitationAfter(db, op, hash, id, row))
  {
    match op
    case AcceptToken(token, user, rowId, now) => TokenAttempts(db, token, user, rowId, now, hash, id, row);
    case AcceptInvitation(i, user, token, rowId, now) =>
      if i in db.invitations && user in db.users {
        AcceptAttempts(db, i, user, token, rowId, now, hash, id);
      }
    case Invite(_, _, _, _, _, _, _) => OfferedInvitations(db, op, hash, id, row);
    case CancelInvitation(_, _) => OfferedInvitations(db, op, hash, id, row);
    case DeclineInvitation(_, _) => OfferedInvitations(db, op, hash, id, row);
    case _ => OtherInvitations(db, op, hash, id, row);
  }

  lemma OfferedInvitations(db: Db, op: Op, hash: string -> string, id: nat, row: Option<Invitation>)
    requires op.Invite? || op.CancelInvitation? || op.DeclineInvitation?
    requires HasInvitation(db.invitations, id, row)
    ensures HasInvitation(Step(db, op, hash).invitations, id, InvitationAfter(db, op, hash, id, row))
  {
  }

  lemma OtherInvitations(db: Db, op: Op, hash: string -> string, id: nat, row: Option<Invitation>)
    requires !OnInvitations(op) && HasInvitation(db.invitations, id, row)
    ensures HasInvitation(Step(db, op, hash).invitations, id, InvitationAfter(db, op, hash, id, row))
  {
  }

  ghost function InvitationOfRun(ops: seq<Op>, hash: string -> string, id: nat): Option<Invitation> {
    if ops == [] then None
    else
      var before := ops[..|ops| - 1];
      InvitationAfter(Run(before, hash), ops[|ops| - 1], hash, id, InvitationOfRun(before, hash, id))
  }

  /** On every run with distinct tokens and hashes, each invitation is what the calls on
      it made it. */
  lemma {:induction false} InvitationsFollowRun(ops: seq<Op>, hash: string -> string, id: nat)
    requires L.CollisionFree(hash, L.Issued(ops)) && L.TokensDistinct(ops)
    ensures HasInvitation(Run(ops, hash).invitations, id, InvitationOfRun(ops, hash, id))
  {
    if ops != [] {
      var before := ops[..|ops| - 1];
      L.IssuedGrows(ops);
      InvitationsFollowRun(before, hash, id);
      L.HashesUnique(before, hash);
      RunLast(ops, hash);
      StepInvitations(Run(before, hash), ops[|ops| - 1], hash, id, InvitationOfRun(before, hash, id));
    }
  }

  // ------------------------------------------------------------------------- users

  ghost predicate HasUser(users: map<nat, User>, id: nat, row: Option<User>) {
    match row
    case None => id !in users
    case Some(u) => id in users && users[id] == u
  }

  /** Users come and go, and change their address, only by the operations on users. */
  function UserAfter(op: Op, id: nat, row: Option<User>): Option<User> {
    if op.NewUser? && op.id == id && row.None? then Some(op.row)
    else if op.ChangeEmail? && op.id == id && row.Some? then Some(row.value.(email := op.email))
    else if op.DeleteUser? && op.id == id then None
    else row
  }

  function UserOfRun(ops: seq<Op>, id: nat): Option<User> {
    if ops == [] then None else UserAfter(ops[|ops| - 1], id, UserOfRun(ops[..|ops| - 1], id))
  }

  lemma AcceptLeavesUsers(db: Db, id: nat, user: nat, token: string, rowId: nat, now: real, hash: string -> string)
    requires id in db.invitations
    ensures I.AcceptChecked(db, id, user, token, rowId, now, hash).0.users == db.users
  {
  }

  lemma OthersLeaveUsers(db: Db, op: Op, hash: string -> string)
    requires !op.NewUser? && !op.ChangeEmail? && !op.DeleteUser?
    ensures Step(db, op, hash).users == db.users
  {
    match op
    case AcceptInvitation(id, user, token, rowId, now) =>
      if id in db.invitations {
        AcceptLeavesUsers(db, id, user, token, rowId, now, hash);
      }
    case AcceptToken(token, user, rowId, now) =>
      forall id | id in I.Matches(db, token, hash)
        ensures I.AcceptChecked(db, id, user, token, rowId, now, hash).0.users == db.users
      {
        AcceptLeavesUsers(db, id, user, token, rowId, now, hash);
      }
    case _ =>
  }

  lemma {:induction false} UsersFollowRun(ops: seq<Op>, hash: string -> string, id: nat)
    ensures HasUser(Run(ops, hash).users, id, UserOfRun(ops, id))
  {
    if ops != [] {
      var before, op := ops[..|ops| - 1], ops[|ops| - 1];
      UsersFollowRun(before, hash, id);
      RunLast(ops, hash);
      if !op.NewUser? && !op.ChangeEmail? && !op.DeleteUser? {
        OthersLeaveUsers(Run(before, hash), op, hash);
      }
    }
  }
}
