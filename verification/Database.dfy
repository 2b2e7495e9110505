/** The tables behind projects, memberships and invitations (backend/app/models/).

    Service methods are steps over one store whose flushes stick. The request
    wrapper that rolls back when a handler raises (backend/app/database.py:37-46)
    is outside these claims, so a row that is flushed before an exception stays
    changed here. Primary keys, chosen by uuid4 in the source, are arguments; a
    duplicate key or a missing referenced row is an IntegrityError that leaves the
    tables alone. */
module Database {
  import opened Wrappers

  datatype Role = Admin | Analyst | Viewer | OtherRole(text: string)

  datatype PlatformRole = SuperAdmin | PlatformAdmin | Ordinary(text: string)

  datatype ProjectStatus = Active | Inactive(text: string)

  datatype InvitationStatus = Pending | Accepted | Cancelled | Expired

  datatype User = User(email: string, platformRole: PlatformRole)

  datatype Project = Project(name: string, slug: string, status: ProjectStatus, owner: Option<nat>, createdAt: real)

  datatype Member = Member(project: nat, user: nat, role: Role, invitedBy: Option<nat>)

  datatype Invitation = Invitation(project: nat, email: string, role: Role, invitedBy: Option<nat>,
                                   tokenHash: string, status: InvitationStatus, expiresAt: real,
                                   acceptedAt: Option<real>, acceptedBy: Option<nat>)

  datatype Db = Db(users: map<nat, User>, projects: map<nat, Project>,
                   members: map<nat, Member>, invitations: map<nat, Invitation>)

  const EMPTY := Db(map[], map[], map[], map[])

  datatype Error = NotFound | Conflict | BadRequest | Forbidden | Gone | IntegrityError | Unauthenticated

  /** The tables as one session sees them. */
  class Session {
    var users: map<nat, User>
    var projects: map<nat, Project>
    var members: map<nat, Member>
    var invitations: map<nat, Invitation>

    ghost function View(): Db
      reads this
    {
      Db(users, projects, members, invitations)
    }

    constructor ()
      ensures View() == EMPTY
    {
      users, projects, members, invitations := map[], map[], map[], map[];
    }
  }

  predicate IsMember(members: map<nat, Member>, project: nat, user: nat) {
    exists m :: m in members && members[m].project == project && members[m].user == user
  }

  predicate HasAdminRow(members: map<nat, Member>, project: nat, user: nat) {
    exists m :: m in members && members[m].project == project && members[m].user == user && members[m].role == Admin
  }

  // ----------------------------------------------------------------- invariants

  predicate SamePair(a: Member, b: Member) {
    a.project == b.project && a.user == b.user
  }

  /** No (project, user) pair has two membership rows. */
  ghost predicate UniqueMembers(members: map<nat, Member>) {
    forall m, n | m in members && n in members :: SamePair(members[m], members[n]) ==> m == n
  }

  /** The owner of an owned project has a membership row with role admin. */
  ghost predicate OwnersAreAdmins(projects: map<nat, Project>, members: map<nat, Member>) {
    forall p :: p in projects && projects[p].owner.Some? ==> HasAdminRow(members, p, projects[p].owner.value)
  }

  ghost predicate MembersLinked(projects: map<nat, Project>, members: map<nat, Member>) {
    forall m :: m in members ==> members[m].project in projects
  }

  ghost predicate SlugsDistinct(projects: map<nat, Project>) {
    forall p, q :: p in projects && q in projects && projects[p].slug == projects[q].slug ==> p == q
  }

  /** Two pending invitations of one address to one project. */
  predicate BothPending(a: Invitation, b: Invitation) {
    a.status == Pending && b.status == Pending && a.project == b.project && a.email == b.email
  }

  /** At most one invitation is pending per project and address. */
  ghost predicate OnePending(invitations: map<nat, Invitation>) {
    forall i, j | i in invitations && j in invitations :: BothPending(invitations[i], invitations[j]) ==> i == j
  }

  /** An acceptance time is recorded exactly on accepted invitations, before the
      expiry. */
  ghost predicate InvitationOk(i: Invitation) {
    && (i.status == Accepted <==> i.acceptedAt.Some?)
    && (i.acceptedAt.Some? ==> i.acceptedAt.value < i.expiresAt)
    && (i.acceptedBy.Some? ==> i.status == Accepted)
  }

  ghost predicate Valid(db: Db) {
    && UniqueMembers(db.members)
    && OwnersAreAdmins(db.projects, db.members)
    && MembersLinked(db.projects, db.members)
    && SlugsDistinct(db.projects)
    && OnePending(db.invitations)
    && (forall i :: i in db.invitations ==> InvitationOk(db.invitations[i]))
  }

  /** The users with admin rights on a project: its owner and its admin members. */
  ghost function EffectiveAdmins(db: Db, p: nat): set<nat>
    requires p in db.projects
  {
    (if db.projects[p].owner.Some? then {db.projects[p].owner.value} else {})
    + set m | m in db.members && db.members[m].project == p && db.members[m].role == Admin :: db.members[m].user
  }
}
