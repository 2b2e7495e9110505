/** Project access control (backend/app/core/project_access.py) and
    `list_accessible` (backend/app/services/project_service.py).

    The uniqueness of memberships, which the unique constraint of the table gives
    and `scalar_one_or_none` relies on, is a requirement here. */
module Access {
  import opened Wrappers
  import opened Database

  predicate Privileged(u: User) {
    u.platformRole == PlatformAdmin || u.platformRole == SuperAdmin
  }

  function Rank(role: Role): nat {
    match role
    case Viewer => 1
    case Analyst => 2
    case Admin => 3
    case OtherRole(_) => 0
  }

  predicate OfPair(m: Member, project: nat, user: nat) {
    m.project == project && m.user == user
  }

  function GetMembership(db: Db, user: nat, project: nat): (row: Option<nat>)
    requires UniqueMembers(db.members)
    ensures row.Some? <==> IsMember(db.members, project, user)
    ensures row.Some? ==> row.value in db.members
                          && db.members[row.value].project == project && db.members[row.value].user == user
  {
    if IsMember(db.members, project, user) then
      assert forall m, n | m in db.members && n in db.members && OfPair(db.members[m], project, user) ::
               OfPair(db.members[n], project, user) ==> SamePair(db.members[m], db.members[n]);
      var m :| m in db.members && db.members[m].project == project && db.members[m].user == user;
      Some(m)
    else None
  }

  /** get_effective_project_role */
  function EffectiveRole(db: Db, user: nat, project: nat): Option<Role>
    requires UniqueMembers(db.members) && user in db.users && project in db.projects
  {
    if Privileged(db.users[user]) then Some(Admin)
    else if db.projects[project].owner == Some(user) then Some(Admin)
    else
      match GetMembership(db, user, project)
      case Some(m) => Some(db.members[m].role)
      case None => None
  }

  /** accessible_project_ids: None for "all", else owned and member projects that are active. */
  function AccessibleIds(db: Db, user: nat): Option<set<nat>>
    requires user in db.users
  {
    if Privileged(db.users[user]) then None
    else
      var owned := set p | p in db.projects && db.projects[p].owner == Some(user) && db.projects[p].status == Active;
      var member := set m | m in db.members && db.members[m].user == user && db.members[m].project in db.projects
                            && db.projects[db.members[m].project].status == Active :: db.members[m].project;
      Some(owned + member)
  }

  function AssertProjectAccess(db: Db, project: nat, user: nat): Result<nat, Error>
    requires UniqueMembers(db.members) && user in db.users
  {
    if project !in db.projects then Err(NotFound)
    else if Privileged(db.users[user]) then Ok(project)
    else if db.projects[project].owner == Some(user) then Ok(project)
    else if GetMembership(db, user, project).Some? then Ok(project)
    else Err(Forbidden)
  }

  function AssertProjectRole(db: Db, project: nat, user: nat, minRole: Role): Result<nat, Error>
    requires UniqueMembers(db.members) && user in db.users
  {
    var access := AssertProjectAccess(db, project, user);
    if access.Err? then access
    else if Privileged(db.users[user]) then Ok(project)
    else
      var role := EffectiveRole(db, user, project);
      if role.Some? && role.value != OtherRole("") && Rank(role.value) >= Rank(minRole) then Ok(project)
      else Err(Forbidden)
  }

  // ------------------------------------------------------------- list_accessible

  predicate Passes(p: Project, includeArchived: bool) {
    includeArchived || p.status == Active
  }

  ghost predicate NewestFirst(db: Db, items: seq<(nat, Role)>)
    requires forall x :: x in items ==> x.0 in db.projects
  {
    forall i, j :: 0 <= i < j < |items| ==> db.projects[items[i].0].createdAt >= db.projects[items[j].0].createdAt
  }

  ghost predicate DistinctIds(items: seq<(nat, Role)>) {
    forall i, j :: 0 <= i < j < |items| ==> items[i].0 != items[j].0
  }

  /** Puts an item behind every one that is at least as new. */
  function InsertNewest(db: Db, x: (nat, Role), items: seq<(nat, Role)>): seq<(nat, Role)>
    requires x.0 in db.projects && forall y :: y in items ==> y.0 in db.projects
  {
    if items == [] then [x]
    else if db.projects[items[0].0].createdAt >= db.projects[x.0].createdAt
    then [items[0]] + InsertNewest(db, x, items[1..])
    else [x] + items
  }

  lemma {:induction false} InsertNewestMembers(db: Db, x: (nat, Role), items: seq<(nat, Role)>)
    requires x.0 in db.projects && forall y :: y in items ==> y.0 in db.projects
    ensures forall y :: y in InsertNewest(db, x, items) <==> y == x || y in items
  {
    if items != [] && db.projects[items[0].0].createdAt >= db.projects[x.0].createdAt {
      InsertNewestMembers(db, x, items[1..]);
      assert items == [items[0]] + items[1..];
    }
  }

  /** What is inserted behind the head stays behind it. */
  lemma InsertedBehind(db: Db, first: (nat, Role), x: (nat, Role), rest: seq<(nat, Role)>)
    requires first.0 in db.projects && x.0 in db.projects && first.0 != x.0
    requires db.projects[first.0].createdAt >= db.projects[x.0].createdAt
    requires forall y :: y in rest ==>
               y.0 in db.projects && db.projects[first.0].createdAt >= db.projects[y.0].createdAt && y.0 != first.0
    ensures forall y :: y in InsertNewest(db, x, rest) ==>
              y.0 in db.projects && db.projects[first.0].createdAt >= db.projects[y.0].createdAt && y.0 != first.0
  {
    InsertNewestMembers(db, x, rest);
  }

  /** What is newer than the head is newer than all. */
  lemma NewerThanAll(db: Db, x: (nat, Role), first: (nat, Role), rest: seq<(nat, Role)>)
    requires x.0 in db.projects && first.0 in db.projects
    requires db.projects[first.0].createdAt < db.projects[x.0].createdAt
    requires forall y :: y in rest ==>
               y.0 in db.projects && db.projects[first.0].createdAt >= db.projects[y.0].createdAt
    ensures forall y :: y in [first] + rest ==>
              y.0 in db.projects && db.projects[x.0].createdAt >= db.projects[y.0].createdAt
  {
  }

  lemma {:induction false} InsertNewestFacts(db: Db, x: (nat, Role), items: seq<(nat, Role)>)
    requires x.0 in db.projects && forall y :: y in items ==> y.0 in db.projects
    requires NewestFirst(db, items) && DistinctIds(items) && forall y :: y in items ==> y.0 != x.0
    ensures forall y :: y in InsertNewest(db, x, items) <==> y == x || y in items
    ensures NewestFirst(db, InsertNewest(db, x, items)) && DistinctIds(InsertNewest(db, x, items))
  {
    InsertNewestMembers(db, x, items);
    if items != [] {
      var first, rest := items[0], items[1..];
      assert items == [first] + rest && first in items;
      HeadIsNewest(db, first, rest);
      if db.projects[first.0].createdAt >= db.projects[x.0].createdAt {
        InsertNewestFacts(db, x, rest);
        InsertedBehind(db, first, x, rest);
        PrependNewest(db, first, InsertNewest(db, x, rest));
      } else {
        NewerThanAll(db, x, first, rest);
        PrependNewest(db, x, items);
      }
    }
  }

  lemma HeadIsNewest(db: Db, x: (nat, Role), rest: seq<(nat, Role)>)
    requires forall y :: y in [x] + rest ==> y.0 in db.projects
    requires NewestFirst(db, [x] + rest) && DistinctIds([x] + rest)
    ensures forall y :: y in rest ==>
              y.0 in db.projects && db.projects[x.0].createdAt >= db.projects[y.0].createdAt && y.0 != x.0
    ensures NewestFirst(db, rest) && DistinctIds(rest)
  {
    var all := [x] + rest;
    assert x in all;
    forall y | y in rest
      ensures y.0 in db.projects && db.projects[x.0].createdAt >= db.projects[y.0].createdAt && y.0 != x.0
    {
      var k :| 0 <= k < |rest| && rest[k] == y;
      assert all[0] == x && all[k + 1] == y && y in all;
    }
    assert forall i :: 0 <= i < |rest| ==> rest[i] == all[i + 1];
  }

  lemma PrependNewest(db: Db, x: (nat, Role), items: seq<(nat, Role)>)
    requires x.0 in db.projects && forall y :: y in items ==> y.0 in db.projects
    requires NewestFirst(db, items) && DistinctIds(items)
    requires forall y :: y in items ==> db.projects[x.0].createdAt >= db.projects[y.0].createdAt && y.0 != x.0
    ensures forall y :: y in [x] + items ==> y.0 in db.projects
    ensures NewestFirst(db, [x] + items) && DistinctIds([x] + items)
  {
  }

  /** sorted(by_id.values(), key=created_at, reverse=True) */
  method SortNewestFirst(db: Db, byId: map<nat, Role>) returns (items: seq<(nat, Role)>)
    requires forall p :: p in byId ==> p in db.projects
    ensures forall x :: x in items <==> x.0 in byId && byId[x.0] == x.1
    ensures DistinctIds(items)
    ensures NewestFirst(db, items)
  {
    items := [];
    var left := byId.Keys;
    while left != {}
      invariant left <= byId.Keys
      invariant forall x :: x in items <==> x.0 in byId && x.0 !in left && byId[x.0] == x.1
      invariant DistinctIds(items)
      invariant NewestFirst(db, items)
      decreases left
    {
      var p :| p in left;
      InsertNewestFacts(db, (p, byId[p]), items);
      items := InsertNewest(db, (p, byId[p]), items);
      left := left - {p};
    }
  }

  function Owned(db: Db, user: nat, includeArchived: bool): set<nat> {
    set p | p in db.projects && db.projects[p].owner == Some(user) && Passes(db.projects[p], includeArchived)
  }

  /** The membership rows of a user, joined with the projects that pass the filter. */
  function MemberRows(db: Db, user: nat, includeArchived: bool): (rows: set<nat>)
    ensures forall m :: m in rows ==> m in db.members && db.members[m].project in db.projects
  {
    set m | m in db.members && db.members[m].user == user && db.members[m].project in db.projects
            && Passes(db.projects[db.members[m].project], includeArchived)
  }

  /** What the dictionary holds once all rows have been seen. */
  ghost predicate Collected(db: Db, user: nat, includeArchived: bool, rows: set<nat>, byId: map<nat, Role>)
    requires forall m :: m in rows ==> m in db.members
  {
    var owned := Owned(db, user, includeArchived);
    && (forall p :: p in owned ==> p in byId && byId[p] == Admin)
    && (forall m :: m in rows ==> db.members[m].project in byId)
    && (forall p :: p in byId && p !in owned ==>
          exists m :: m in rows && db.members[m].project == p && db.members[m].role == byId[p])
  }

  /** Owned projects enter with role admin; a membership row adds a project that is
      not there yet. */
  method CollectRoles(db: Db, user: nat, includeArchived: bool) returns (byId: map<nat, Role>)
    ensures Collected(db, user, includeArchived, MemberRows(db, user, includeArchived), byId)
  {
    byId := map[];
    var owned := Owned(db, user, includeArchived);
    var left := owned;
    while left != {}
      invariant left <= owned
      invariant byId == map p | p in owned - left :: Admin
      decreases left
    {
      var p :| p in left;
      byId := byId[p := Admin];
      left := left - {p};
    }
    var rows := MemberRows(db, user, includeArchived);
    left := rows;
    while left != {}
      invariant left <= rows
      invariant Collected(db, user, includeArchived, rows - left, byId)
      decreases left
    {
      var m :| m in left;
      var p := db.members[m].project;
      ghost var was := byId;
      if p !in byId {
        byId := byId[p := db.members[m].role];
      }
      AddRowCollected(db, user, includeArchived, rows - left, was, m);
      assert rows - (left - {m}) == (rows - left) + {m};
      left := left - {m};
    }
    assert rows - left == rows;
  }

  lemma AddRowCollected(db: Db, user: nat, includeArchived: bool, rows: set<nat>, byId: map<nat, Role>, m: nat)
    requires m in db.members && forall n :: n in rows ==> n in db.members
    requires Collected(db, user, includeArchived, rows, byId)
    ensures var p := db.members[m].project;
            Collected(db, user, includeArchived, rows + {m}, if p in byId then byId else byId[p := db.members[m].role])
  {
  }

  /** The dictionary maps exactly the visible projects to the effective role. */
  lemma CollectedIsEffective(db: Db, user: nat, includeArchived: bool, byId: map<nat, Role>, p: nat)
    requires UniqueMembers(db.members) && user in db.users && !Privileged(db.users[user])
    requires Collected(db, user, includeArchived, MemberRows(db, user, includeArchived), byId)
    ensures p in byId
       <==> p in db.projects && Passes(db.projects[p], includeArchived) && EffectiveRole(db, user, p).Some?
    ensures p in byId ==> EffectiveRole(db, user, p) == Some(byId[p])
  {
  }

  method ListAccessible(db: Db, user: nat, includeArchived: bool) returns (items: seq<(nat, Role)>)
    requires UniqueMembers(db.members) && user in db.users
    ensures forall x :: x in items <==>
              && x.0 in db.projects && (includeArchived || db.projects[x.0].status == Active)
              && EffectiveRole(db, user, x.0) == Some(x.1)
    ensures DistinctIds(items)
    ensures forall x :: x in items ==> x.0 in db.projects
    ensures NewestFirst(db, items)
  {
    var byId: map<nat, Role>;
    if Privileged(db.users[user]) {
      byId := map p | p in db.projects && Passes(db.projects[p], includeArchived) :: Admin;
    } else {
      byId := CollectRoles(db, user, includeArchived);
      forall p
        ensures p in byId
           <==> p in db.projects && Passes(db.projects[p], includeArchived) && EffectiveRole(db, user, p).Some?
        ensures p in byId ==> EffectiveRole(db, user, p) == Some(byId[p])
      {
        CollectedIsEffective(db, user, includeArchived, byId, p);
      }
    }
    items := SortNewestFirst(db, byId);
  }

  // ---------------------------------------------------------------- they all agree

  /** accessible_project_ids is exactly the active projects in which the user has
      an effective role. */
  lemma AccessibleIdsExact(db: Db, user: nat, project: nat)
    requires UniqueMembers(db.members) && user in db.users && !Privileged(db.users[user])
    ensures project in AccessibleIds(db, user).value
            <==> project in db.projects && db.projects[project].status == Active
                 && EffectiveRole(db, user, project).Some?
  {
  }

  /** assert_project_access succeeds exactly when the effective role exists, and
      answers 404 before 403. */
  lemma AccessExact(db: Db, project: nat, user: nat)
    requires UniqueMembers(db.members) && user in db.users
    ensures AssertProjectAccess(db, project, user)
            == if project !in db.projects then Err(NotFound)
               else if EffectiveRole(db, user, project).Some? then Ok(project) else Err(Forbidden)
  {
  }

  /** The two platform roles that may access all projects. */
  predicate Global(u: User) {
    u.platformRole in {SuperAdmin, PlatformAdmin}
  }

  /** Who has which role: platform admins, the owner and admin members are admins;
      anyone else has the role of the membership row, or none. */
  lemma EffectiveRoleExactly(db: Db, user: nat, project: nat, role: Role)
    requires UniqueMembers(db.members) && user in db.users && project in db.projects && role != Admin
    ensures var effective, everywhere := EffectiveRole(db, user, project), Global(db.users[user]);
            && (effective == Some(Admin) <==> everywhere || user in EffectiveAdmins(db, project))
            && (effective == Some(role) <==>
                  && !everywhere && db.projects[project].owner != Some(user)
                  && exists m :: m in db.members && db.members[m].project == project
                                 && db.members[m].user == user && db.members[m].role == role)
            && (effective == None <==>
                  !everywhere && db.projects[project].owner != Some(user) && !IsMember(db.members, project, user))
  {
    var row := GetMembership(db, user, project);
    forall m | m in db.members && OfPair(db.members[m], project, user) ensures row == Some(m) {
      assert SamePair(db.members[m], db.members[row.value]);
    }
  }

  /** Only platform admins are not restricted to a list of projects. */
  lemma UnrestrictedExactly(db: Db, user: nat)
    requires user in db.users
    ensures AccessibleIds(db, user) == None <==> Global(db.users[user])
  {
  }

  /** What assert_project_role answers. */
  lemma RoleAnswers(db: Db, project: nat, user: nat, minRole: Role)
    requires UniqueMembers(db.members) && user in db.users
    ensures var r := AssertProjectRole(db, project, user, minRole);
            && (r == Err(NotFound) <==> project !in db.projects)
            && (r.Ok? ==> r.value == project)
            && (r.Err? ==> r.error in {NotFound, Forbidden})
            && (project in db.projects && Global(db.users[user]) ==> r.Ok?)
            && (project in db.projects && EffectiveRole(db, user, project) == None ==> r == Err(Forbidden))
            && (project in db.projects && minRole.OtherRole? ==>
                  (r.Ok? <==> EffectiveRole(db, user, project) !in {None, Some(OtherRole(""))}))
  {
  }

  /** A user who meets a minimum role meets every lower one, and meets some minimum
      exactly when the effective role ranks that high. */
  lemma RoleDownwardClosed(db: Db, project: nat, user: nat, high: Role, low: Role)
    requires UniqueMembers(db.members) && user in db.users && Rank(low) <= Rank(high)
    ensures AssertProjectRole(db, project, user, high).Ok? ==> AssertProjectRole(db, project, user, low).Ok?
    ensures AssertProjectRole(db, project, user, low).Ok? ==> AssertProjectAccess(db, project, user).Ok?
    ensures AssertProjectRole(db, project, user, Admin).Ok?
            <==> project in db.projects && EffectiveRole(db, user, project) == Some(Admin)
    ensures AssertProjectRole(db, project, user, Analyst).Ok?
            <==> project in db.projects && EffectiveRole(db, user, project) in {Some(Admin), Some(Analyst)}
    ensures AssertProjectRole(db, project, user, Viewer).Ok?
            <==> project in db.projects
                 && EffectiveRole(db, user, project) in {Some(Admin), Some(Analyst), Some(Viewer)}
  {
  }

  /** The admins that the membership operations protect are the users whose
      effective role is admin without a platform role. */
  lemma EffectiveAdminsExact(db: Db, project: nat, user: nat)
    requires UniqueMembers(db.members) && user in db.users && project in db.projects && !Privileged(db.users[user])
    ensures user in EffectiveAdmins(db, project) <==> EffectiveRole(db, user, project) == Some(Admin)
  {
  }
}
