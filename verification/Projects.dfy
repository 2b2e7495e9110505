/** `ProjectService` (backend/app/services/project_service.py) and the platform's
    assign-admin endpoint (backend/app/routers/platform.py). Authorisation checks
    made by the routers come before these methods. */
module Projects {
  import opened Wrappers
  import opened Database
  import opened Naming
  import Text

  predicate KnownRole(role: Role) {
    !role.OtherRole?
  }

  function Slugs(projects: map<nat, Project>, except: Option<nat>): set<string> {
    set p | p in projects && Some(p) != except :: projects[p].slug
  }

  function Create(db: Db, id: nat, rowId: nat, name: string, owner: nat, now: real): (Db, Result<nat, Error>) {
    if id in db.projects || rowId in db.members || owner !in db.users then (db, Err(IntegrityError))
    else
      var slug := FirstFree(Slugify(name), "-", Slugs(db.projects, None));
      (db.(projects := db.projects[id := Project(name, slug, Active, Some(owner), now)],
           members := db.members[rowId := Member(id, owner, Admin, Some(owner))]),
       Ok(id))
  }

  function Linked(db: Db, project: nat, user: nat, invitedBy: nat): bool {
    project in db.projects && user in db.users && invitedBy in db.users
  }

  function AddMember(db: Db, rowId: nat, project: nat, user: nat, role: Role, invitedBy: nat)
    : (Db, Result<nat, Error>)
  {
    if IsMember(db.members, project, user) then (db, Err(Conflict))
    else if !KnownRole(role) then (db, Err(Conflict))
    else if rowId in db.members || !Linked(db, project, user, invitedBy) then (db, Err(IntegrityError))
    else (db.(members := db.members[rowId := Member(project, user, role, Some(invitedBy))]), Ok(rowId))
  }

  /** The admin rows of a project that belong to somebody other than its owner. */
  function OtherAdminRows(db: Db, project: nat): set<nat>
    requires project in db.projects
  {
    set m | m in db.members && db.members[m].project == project && db.members[m].role == Admin
            && Some(db.members[m].user) != db.projects[project].owner
  }

  /** count_project_admins: one for the owner, one for each such row. */
  function CountAdmins(db: Db, project: nat): nat
    requires project in db.projects
  {
    (if db.projects[project].owner.Some? then 1 else 0) + |OtherAdminRows(db, project)|
  }

  function UpdateMemberRole(db: Db, project: nat, rowId: nat, role: Role): (Db, Result<nat, Error>) {
    if !KnownRole(role) then (db, Err(Conflict))
    else if project !in db.projects then (db, Err(NotFound))
    else if rowId !in db.members || db.members[rowId].project != project then (db, Err(NotFound))
    else
      var m := db.members[rowId];
      if db.projects[project].owner == Some(m.user) && role != Admin then (db, Err(BadRequest))
      else if m.role == Admin && role != Admin && CountAdmins(db, project) <= 1 then (db, Err(BadRequest))
      else (db.(members := db.members[rowId := m.(role := role)]), Ok(rowId))
  }

  function RemoveMember(db: Db, project: nat, rowId: nat): (Db, Result<nat, Error>) {
    if project !in db.projects then (db, Err(NotFound))
    else if rowId !in db.members || db.members[rowId].project != project then (db, Err(NotFound))
    else
      var m := db.members[rowId];
      if db.projects[project].owner == Some(m.user) then (db, Err(BadRequest))
      else if m.role == Admin && CountAdmins(db, project) <= 1 then (db, Err(BadRequest))
      else (db.(members := db.members - {rowId}), Ok(rowId))
  }

  /** The platform's upsert: the existing row becomes admin, or a new one is added. */
  function AssignAdmin(db: Db, rowId: nat, project: nat, user: nat, actor: nat): (Db, Result<nat, Error>) {
    if project !in db.projects || user !in db.users then (db, Err(NotFound))
    else if IsMember(db.members, project, user) then
      (db.(members := map m | m in db.members ::
             if db.members[m].project == project && db.members[m].user == user
             then db.members[m].(role := Admin) else db.members[m]),
       Ok(user))
    else if rowId in db.members || actor !in db.users then (db, Err(IntegrityError))
    else (db.(members := db.members[rowId := Member(project, user, Admin, Some(actor))]), Ok(user))
  }

  function Update(db: Db, project: nat, name: Option<string>, status: Option<ProjectStatus>): (Db, Result<nat, Error>) {
    if project !in db.projects then (db, Err(NotFound))
    else
      var p := db.projects[project];
      var named := if name.None? then p else
        p.(name := name.value, slug := FirstFree(Slugify(name.value), "-", Slugs(db.projects, Some(project))));
      var done := if status.None? then named else named.(status := status.value);
      (db.(projects := db.projects[project := done]), Ok(project))
  }

  /** Deleting a project takes its memberships and invitations with it. */
  function Delete(db: Db, project: nat): (Db, Result<nat, Error>) {
    if project !in db.projects then (db, Err(NotFound))
    else
      (db.(projects := db.projects - {project},
           members := map m | m in db.members && db.members[m].project != project :: db.members[m],
           invitations := map i | i in db.invitations && db.invitations[i].project != project :: db.invitations[i]),
       Ok(project))
  }

  class ProjectService {
    const db: Session

    constructor (db: Session)
      ensures this.db == db
    {
      this.db := db;
    }

    method CreateProject(id: nat, rowId: nat, name: string, owner: nat, now: real) returns (r: Result<nat, Error>)
      modifies db
      ensures (db.View(), r) == Create(old(db.View()), id, rowId, name, owner, now)
    {
      var slug := UniqueSlug(Slugify(name), None);
      if id in db.projects || owner !in db.users || rowId in db.members {
        return Err(IntegrityError);
      }
      db.projects := db.projects[id := Project(name, slug, Active, Some(owner), now)];
      db.members := db.members[rowId := Member(id, owner, Admin, Some(owner))];
      return Ok(id);
    }

    /** The loop of `_unique_slug`; it ends because only finitely many names are taken. */
    method UniqueSlug(base: string, exclude: Option<nat>) returns (slug: string)
      ensures slug == FirstFree(base, "-", Slugs(db.projects, exclude))
    {
      ghost var taken := Slugs(db.projects, exclude);
      slug := base;
      var suffix := 1;
      while true
        invariant suffix >= 1 && slug == Candidate(base, "-", suffix - 1)
        invariant forall j: nat :: j < suffix - 1 ==> Candidate(base, "-", j) in taken
        decreases |taken| - suffix
      {
        var existing := exists p :: p in db.projects && db.projects[p].slug == slug && Some(p) != exclude;
        if !existing {
          FirstFreeUnique(base, "-", taken, suffix - 1);
          return;
        }
        Pigeonhole(base, "-", taken, suffix);
        slug := base + "-" + Text.Decimal(suffix);
        suffix := suffix + 1;
      }
    }

    method AddProjectMember(rowId: nat, project: nat, user: nat, role: Role, invitedBy: nat)
      returns (r: Result<nat, Error>)
      modifies db`members
      ensures (db.View(), r) == AddMember(old(db.View()), rowId, project, user, role, invitedBy)
    {
      var existing := exists m :: m in db.members && db.members[m].project == project && db.members[m].user == user;
      if existing {
        return Err(Conflict);
      }
      if role.OtherRole? {
        return Err(Conflict);
      }
      if rowId in db.members || project !in db.projects || user !in db.users || invitedBy !in db.users {
        return Err(IntegrityError);
      }
      db.members := db.members[rowId := Member(project, user, role, Some(invitedBy))];
      return Ok(rowId);
    }

    method CountProjectAdmins(project: nat) returns (r: Result<nat, Error>)
      ensures project !in db.projects ==> r == Err(NotFound)
      ensures project in db.projects ==> r == Ok(CountAdmins(db.View(), project))
      ensures project in db.projects && UniqueMembers(db.members) ==> r == Ok(|EffectiveAdmins(db.View(), project)|)
    {
      if project !in db.projects {
        return Err(NotFound);
      }
      var count := if db.projects[project].owner.Some? then 1 else 0;
      var others := CountOtherAdmins(project);
      if UniqueMembers(db.members) {
        CountIsDistinctUsers(db.View(), project);
      }
      return Ok(count + others);
    }

    /** The loop over the admin rows, which come in no particular order. */
    method CountOtherAdmins(project: nat) returns (count: nat)
      requires project in db.projects
      ensures count == |OtherAdminRows(db.View(), project)|
    {
      var owner := db.projects[project].owner;
      count := 0;
      var rows := set m | m in db.members && db.members[m].project == project && db.members[m].role == Admin;
      var left := rows;
      ghost var counted: set<nat> := {};
      while left != {}
        invariant left <= rows
        invariant counted == set m | m in rows - left && Some(db.members[m].user) != owner
        invariant count == |counted|
        decreases left
      {
        var m :| m in left;
        left := left - {m};
        if Some(db.members[m].user) != owner {
          count := count + 1;
          counted := counted + {m};
        }
      }
      assert counted == OtherAdminRows(db.View(), project);
    }

    method UpdateRole(project: nat, rowId: nat, role: Role) returns (r: Result<nat, Error>)
      modifies db`members
      ensures (db.View(), r) == UpdateMemberRole(old(db.View()), project, rowId, role)
    {
      if role.OtherRole? {
        return Err(Conflict);
      }
      if project !in db.projects || rowId !in db.members || db.members[rowId].project != project {
        return Err(NotFound);
      }
      var m := db.members[rowId];
      if db.projects[project].owner == Some(m.user) && role != Admin {
        return Err(BadRequest);
      }
      if m.role == Admin && role != Admin {
        var admins := CountProjectAdmins(project);
        if admins.value <= 1 {
          return Err(BadRequest);
        }
      }
      db.members := db.members[rowId := m.(role := role)];
      return Ok(rowId);
    }

    method RemoveProjectMember(project: nat, rowId: nat) returns (r: Result<nat, Error>)
      modifies db`members
      ensures (db.View(), r) == RemoveMember(old(db.View()), project, rowId)
    {
      if project !in db.projects || rowId !in db.members || db.members[rowId].project != project {
        return Err(NotFound);
      }
      var m := db.members[rowId];
      if db.projects[project].owner == Some(m.user) {
        return Err(BadRequest);
      }
      if m.role == Admin {
        var admins := CountProjectAdmins(project);
        if admins.value <= 1 {
          return Err(BadRequest);
        }
      }
      db.members := db.members - {rowId};
      return Ok(rowId);
    }

    method PlatformAssignAdmin(rowId: nat, project: nat, user: nat, actor: nat) returns (r: Result<nat, Error>)
      requires UniqueMembers(db.members)
      modifies db`members
      ensures (db.View(), r) == AssignAdmin(old(db.View()), rowId, project, user, actor)
    {
      if project !in db.projects || user !in db.users {
        return Err(NotFound);
      }
      var existing := set m | m in db.members && db.members[m].project == project && db.members[m].user == user;
      if existing != {} {
        var m :| m in existing;
        db.members := db.members[m := db.members[m].(role := Admin)];
        assert db.members == AssignAdmin(old(db.View()), rowId, project, user, actor).0.members;
      } else {
        assert !IsMember(db.members, project, user) by {
          assert forall m :: m in db.members && db.members[m].project == project && db.members[m].user == user ==>
                   m in existing;
        }
        if rowId in db.members || actor !in db.users {
          return Err(IntegrityError);
        }
        db.members := db.members[rowId := Member(project, user, Admin, Some(actor))];
      }
      return Ok(user);
    }

    method UpdateProject(project: nat, name: Option<string>, status: Option<ProjectStatus>)
      returns (r: Result<nat, Error>)
      modifies db`projects
      ensures (db.View(), r) == Update(old(db.View()), project, name, status)
    {
      if project !in db.projects {
        return Err(NotFound);
      }
      var p := db.projects[project];
      if name.Some? {
        p := p.(name := name.value);
        var slug := UniqueSlug(Slugify(name.value), Some(project));
        p := p.(slug := slug);
      }
      if status.Some? {
        p := p.(status := status.value);
      }
      db.projects := db.projects[project := p];
      return Ok(project);
    }
  }

  // ------------------------------------------------------------------- counting

  lemma {:induction false} ImageSize(members: map<nat, Member>, rows: set<nat>, users: set<nat>)
    requires rows <= members.Keys
    requires users == set m | m in rows :: members[m].user
    requires forall m, n :: m in rows && n in rows && members[m].user == members[n].user ==> m == n
    ensures |users| == |rows|
  {
    if rows == {} {
      assert users == {};
    } else {
      var m :| m in rows;
      var rest := rows - {m};
      ImageSize(members, rest, set n | n in rest :: members[n].user);
      assert users == (set n | n in rest :: members[n].user) + {members[m].user};
    }
  }

  /** The loop of count_project_admins counts the distinct users who are owner or
      admin member. */
  lemma CountIsDistinctUsers(db: Db, project: nat)
    requires project in db.projects && UniqueMembers(db.members)
    ensures CountAdmins(db, project) == |EffectiveAdmins(db, project)|
  {
    var rows := OtherAdminRows(db, project);
    var users := set m | m in rows :: db.members[m].user;
    assert |users| == |rows| by {
      forall m, n | m in rows && n in rows && db.members[m].user == db.members[n].user ensures m == n {
        assert SamePair(db.members[m], db.members[n]);
      }
      ImageSize(db.members, rows, users);
    }
    AdminsSplit(db, project, users);
  }

  /** The effective admins are the owner and the users of the other admin rows. */
  lemma AdminsSplit(db: Db, project: nat, users: set<nat>)
    requires project in db.projects
    requires users == set m | m in OtherAdminRows(db, project) :: db.members[m].user
    ensures var owner := db.projects[project].owner;
            && (owner.None? ==> EffectiveAdmins(db, project) == users)
            && (owner.Some? ==> EffectiveAdmins(db, project) == {owner.value} + users && owner.value !in users)
  {
  }

  lemma AtMostOneAdmin(db: Db, project: nat, user: nat)
    requires project in db.projects && UniqueMembers(db.members) && user in EffectiveAdmins(db, project)
    ensures CountAdmins(db, project) <= 1 <==> EffectiveAdmins(db, project) == {user}
  {
    CountIsDistinctUsers(db, project);
    SubsetSize({user}, EffectiveAdmins(db, project));
  }

  /** Demotion is refused exactly for the owner and for the only effective admin. */
  lemma DemotionRefusedExactly(db: Db, project: nat, rowId: nat, role: Role)
    requires UniqueMembers(db.members) && KnownRole(role) && role != Admin
    requires project in db.projects && rowId in db.members && db.members[rowId].project == project
    ensures var u := db.members[rowId].user;
            UpdateMemberRole(db, project, rowId, role).1.Err?
            <==> db.projects[project].owner == Some(u) || EffectiveAdmins(db, project) == {u}
  {
    var u := db.members[rowId].user;
    if db.members[rowId].role == Admin {
      assert u in EffectiveAdmins(db, project);
      AtMostOneAdmin(db, project, u);
    } else if EffectiveAdmins(db, project) == {u} {
      assert u in EffectiveAdmins(db, project);
    }
  }

  /** Removal is refused exactly for the owner and for the only effective admin. */
  lemma RemovalRefusedExactly(db: Db, project: nat, rowId: nat)
    requires UniqueMembers(db.members)
    requires project in db.projects && rowId in db.members && db.members[rowId].project == project
    ensures var u := db.members[rowId].user;
            RemoveMember(db, project, rowId).1.Err?
            <==> db.projects[project].owner == Some(u) || EffectiveAdmins(db, project) == {u}
  {
    var u := db.members[rowId].user;
    if db.members[rowId].role == Admin {
      assert u in EffectiveAdmins(db, project);
      AtMostOneAdmin(db, project, u);
    } else if EffectiveAdmins(db, project) == {u} {
      assert u in EffectiveAdmins(db, project);
    }
  }

  // ------------------------------------------------------------------------ slugs

  /** Saving a project under a name keeps its slug exactly when that slug is a
      candidate for the name and every candidate before it belongs to another
      project. */
  lemma SlugKeptExactly(db: Db, project: nat, name: string)
    requires project in db.projects && SlugsDistinct(db.projects)
    ensures var others := Slugs(db.projects, Some(project));
            var slug := db.projects[project].slug;
            Update(db, project, Some(name), None).0.projects[project].slug == slug
            <==> exists k: nat :: slug == Candidate(Slugify(name), "-", k)
                   && forall j: nat :: j < k ==> Candidate(Slugify(name), "-", j) in others
  {
  }
}
