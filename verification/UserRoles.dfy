/** Users with their roles and permissions: the queries, the in-memory join over shared
    role objects, and the permission lists taken from the result. */
module UserRoles {
  import opened Options

  datatype UserRow = UserRow(id: nat, deleted: bool)
  datatype RoleRow = RoleRow(id: nat, name: string, deleted: bool)
  datatype Permission = Permission(id: nat, resource: string, action: string)
  datatype Assignment = Assignment(user: nat, role: nat, expires: Option<int>)
  datatype Grant = Grant(role: nat, permission: nat)

  /** One snapshot. The order of `assignments` and `grants` is the order in which the
      database happens to return them. */
  datatype Database = Database(
    users: seq<UserRow>,
    roles: map<nat, RoleRow>,
    permissions: map<nat, Permission>,
    assignments: seq<Assignment>,
    grants: seq<Grant>)

  ghost predicate WellKeyed(db: Database) {
    && (forall i, j | 0 <= i < j < |db.users| :: db.users[i].id < db.users[j].id)
    && (forall id | id in db.roles :: db.roles[id].id == id)
  }

  // ---- The joined rows ----

  datatype UserRole = UserRole(user: nat, role: RoleRow)
  datatype RolePermission = RolePermission(role: nat, permission: Permission)

  predicate Live(db: Database, a: Assignment, now: int) {
    && (a.expires.None? || a.expires.value > now)
    && a.role in db.roles && !db.roles[a.role].deleted
  }

  function UserRoleRows(db: Database, assignments: seq<Assignment>, now: int): seq<UserRole>
    decreases |assignments|
  {
    if assignments == [] then [] else
    var k := |assignments| - 1;
    var a := assignments[k];
    UserRoleRows(db, assignments[..k], now) + if Live(db, a, now) then [UserRole(a.user, db.roles[a.role])] else []
  }

  function RolePermissionRows(db: Database, grants: seq<Grant>): seq<RolePermission>
    decreases |grants|
  {
    if grants == [] then [] else
    var k := |grants| - 1;
    var g := grants[k];
    RolePermissionRows(db, grants[..k])
    + if g.permission in db.permissions then [RolePermission(g.role, db.permissions[g.permission])] else []
  }

  lemma {:induction false} UserRoleRowsAre(db: Database, assignments: seq<Assignment>, now: int, row: UserRole)
    ensures row in UserRoleRows(db, assignments, now) <==>
            exists a :: a in assignments && Live(db, a, now) && row == UserRole(a.user, db.roles[a.role])
    decreases |assignments|
  {
    if assignments != [] {
      var k := |assignments| - 1;
      UserRoleRowsAre(db, assignments[..k], now, row);
      assert forall a :: a in assignments <==> a in assignments[..k] || a == assignments[k];
    }
  }

  lemma {:induction false} RolePermissionRowsAre(db: Database, grants: seq<Grant>, row: RolePermission)
    ensures row in RolePermissionRows(db, grants) <==>
            exists g :: g in grants && g.permission in db.permissions && row == RolePermission(g.role, db.permissions[g.permission])
    decreases |grants|
  {
    if grants != [] {
      var k := |grants| - 1;
      RolePermissionRowsAre(db, grants[..k], row);
      assert forall g :: g in grants <==> g in grants[..k] || g == grants[k];
    }
  }

  /** WHERE user_id IN ids. */
  function ForUsers(rows: seq<UserRole>, ids: set<nat>): seq<UserRole>
    decreases |rows|
  {
    if rows == [] then [] else
    var k := |rows| - 1;
    ForUsers(rows[..k], ids) + if rows[k].user in ids then [rows[k]] else []
  }

  /** WHERE role_id IN ids. */
  function ForRoles(rows: seq<RolePermission>, ids: set<nat>): seq<RolePermission>
    decreases |rows|
  {
    if rows == [] then [] else
    var k := |rows| - 1;
    ForRoles(rows[..k], ids) + if rows[k].role in ids then [rows[k]] else []
  }

  // ---- The nested-loop join ----

  datatype Role = Role(row: RoleRow, permissions: seq<Permission>)

  function PermissionsOf(granted: seq<RolePermission>, role: nat): seq<Permission>
    decreases |granted|
  {
    if granted == [] then [] else
    var k := |granted| - 1;
    PermissionsOf(granted[..k], role) + if granted[k].role == role then [granted[k].permission] else []
  }

  function RolesOf(rows: seq<UserRole>, granted: seq<RolePermission>, user: nat): seq<Role>
    decreases |rows|
  {
    if rows == [] then [] else
    var k := |rows| - 1;
    RolesOf(rows[..k], granted, user)
    + if rows[k].user == user then [Role(rows[k].role, PermissionsOf(granted, rows[k].role.id))] else []
  }

  /** What the database says a user's roles are: for each assignment of the user, in
      order, the role with all its permissions. */
  function JoinedRoles(db: Database, user: nat, now: int): seq<Role> {
    RolesOf(UserRoleRows(db, db.assignments, now), RolePermissionRows(db, db.grants), user)
  }

  lemma {:induction false} RolesOfSelected(rows: seq<UserRole>, ids: set<nat>, granted: seq<RolePermission>, user: nat)
    requires user in ids
    ensures RolesOf(ForUsers(rows, ids), granted, user) == RolesOf(rows, granted, user)
    decreases |rows|
  {
    if rows != [] {
      var k := |rows| - 1;
      RolesOfSelected(rows[..k], ids, granted, user);
      var before, after := ForUsers(rows[..k], ids), ForUsers(rows, ids);
      if rows[k].user in ids {
        assert after[..|after| - 1] == before;
      } else {
        assert after == before;
      }
    }
  }

  lemma {:induction false} PermissionsOfSelected(granted: seq<RolePermission>, ids: set<nat>, role: nat)
    requires role in ids
    ensures PermissionsOf(ForRoles(granted, ids), role) == PermissionsOf(granted, role)
    decreases |granted|
  {
    if granted != [] {
      var k := |granted| - 1;
      PermissionsOfSelected(granted[..k], ids, role);
      var before, after := ForRoles(granted[..k], ids), ForRoles(granted, ids);
      if granted[k].role in ids {
        assert after[..|after| - 1] == before;
      } else {
        assert after == before;
      }
    }
  }

  lemma {:induction false} SelectedRow(rows: seq<UserRole>, ids: set<nat>, row: UserRole)
    ensures row in ForUsers(rows, ids) <==> row in rows && row.user in ids
    decreases |rows|
  {
    if rows != [] {
      var k := |rows| - 1;
      SelectedRow(rows[..k], ids, row);
      assert row in rows <==> row in rows[..k] || row == rows[k];
    }
  }

  // ---- ListUsers ----

  class RoleObject {
    const row: RoleRow
    var permissions: seq<Permission>

    constructor (row: RoleRow)
      ensures this.row == row && permissions == []
    {
      this.row, permissions := row, [];
    }
  }

  class UserObject {
    const row: UserRow
    var roles: seq<Role>

    constructor (row: UserRow)
      ensures this.row == row && roles == []
    {
      this.row, roles := row, [];
    }
  }

  function LiveUsers(users: seq<UserRow>): seq<UserRow>
    decreases |users|
  {
    if users == [] then [] else
    var k := |users| - 1;
    LiveUsers(users[..k]) + if users[k].deleted then [] else [users[k]]
  }

  /** ORDER BY id LIMIT limit OFFSET offset. */
  function UserPage(users: seq<UserRow>, limit: nat, offset: nat): seq<UserRow> {
    var live := LiveUsers(users);
    if offset >= |live| then []
    else if limit > |live| - offset then live[offset..] else live[offset..offset + limit]
  }

  lemma {:induction false} LiveUsersAre(users: seq<UserRow>, u: UserRow)
    ensures u in LiveUsers(users) <==> u in users && !u.deleted
    decreases |users|
  {
    if users != [] {
      var k := |users| - 1;
      LiveUsersAre(users[..k], u);
      assert u in users <==> u in users[..k] || u == users[k];
    }
  }

  /** The live users with a smaller ID. */
  ghost function LiveBelow(users: seq<UserRow>, id: nat): set<nat> {
    set u | u in users && !u.deleted && u.id < id :: u.id
  }

  ghost function IdsOf(users: seq<UserRow>): set<nat> { set u | u in users :: u.id }

  lemma {:induction false} IdsCount(users: seq<UserRow>)
    requires Ascending(users)
    ensures |IdsOf(users)| == |users|
    decreases |users|
  {
    if users != [] {
      var k := |users| - 1;
      IdsCount(users[..k]);
      assert IdsOf(users) == IdsOf(users[..k]) + {users[k].id};
    }
  }

  lemma PrefixBelow(live: seq<UserRow>, k: nat, u: UserRow)
    requires Ascending(live) && k < |live|
    ensures u in live[..k] <==> u in live && u.id < live[k].id
  {
    if u in live && u.id < live[k].id {
      var i :| 0 <= i < |live| && live[i] == u;
      assert i < k && live[..k][i] == u;
    }
    if u in live[..k] {
      var i :| 0 <= i < k && live[..k][i] == u;
      assert live[i] == u;
    }
  }

  lemma LiveIndex(users: seq<UserRow>, k: nat)
    requires Ascending(users) && k < |LiveUsers(users)|
    ensures |LiveBelow(users, LiveUsers(users)[k].id)| == k
  {
    var live := LiveUsers(users);
    LiveUsersAscend(users);
    forall u ensures u in live[..k] <==> u in users && !u.deleted && u.id < live[k].id {
      LiveUsersAre(users, u);
      PrefixBelow(live, k, u);
    }
    assert LiveBelow(users, live[k].id) == IdsOf(live[..k]);
    IdsCount(live[..k]);
  }

  /** The page in full: its i-th user is the live one with exactly offset + i live users
      of smaller ID, and it is as long as the limit and the table allow. */
  lemma PageMeans(users: seq<UserRow>, limit: nat, offset: nat, i: nat)
    requires Ascending(users)
    ensures var page := UserPage(users, limit, offset);
            && (i < |page| ==>
                  page[i] in users && !page[i].deleted && |LiveBelow(users, page[i].id)| == offset + i)
            && |page| <= limit
            && (|page| < limit ==> |page| + offset >= |LiveUsers(users)|)
  {
    var page, live := UserPage(users, limit, offset), LiveUsers(users);
    if i < |page| {
      assert page[i] == live[offset + i];
      LiveIndex(users, offset + i);
      LiveUsersAre(users, live[offset + i]);
    }
  }

  predicate Indexed(userMap: map<nat, UserObject>) {
    forall id | id in userMap :: userMap[id].row.id == id
  }

  predicate IndexedRoles(roleMap: map<nat, RoleObject>) {
    forall id | id in roleMap :: roleMap[id].row.id == id
  }

  ghost predicate OneRowPerRole(rows: seq<UserRole>) {
    forall r, q | r in rows && q in rows && r.role.id == q.role.id :: r.role == q.role
  }

  ghost predicate Ascending(page: seq<UserRow>) {
    forall i, j | 0 <= i < j < |page| :: page[i].id < page[j].id
  }

  method MapUsers(page: seq<UserRow>) returns (users: seq<UserObject>, userMap: map<nat, UserObject>)
    requires Ascending(page)
    ensures |users| == |page| && Indexed(userMap)
    ensures forall i | 0 <= i < |users| :: users[i].row == page[i] && users[i].roles == [] && fresh(users[i])
    ensures forall i | 0 <= i < |users| :: page[i].id in userMap && userMap[page[i].id] == users[i]
    ensures forall id | id in userMap :: userMap[id] in users
  {
    users, userMap := [], map[];
    for i := 0 to |page|
      invariant |users| == i && Indexed(userMap)
      invariant forall j | 0 <= j < i :: users[j].row == page[j] && users[j].roles == [] && fresh(users[j])
      invariant forall j | 0 <= j < i :: page[j].id in userMap && userMap[page[j].id] == users[j]
      invariant forall id | id in userMap :: userMap[id] in users
    {
      var user := new UserObject(page[i]);
      users, userMap := users + [user], userMap[page[i].id := user];
    }
  }

  /** One shared object per role, made for the first row that names it. */
  method MapRoles(rows: seq<UserRole>) returns (roleMap: map<nat, RoleObject>)
    requires OneRowPerRole(rows)
    ensures IndexedRoles(roleMap)
    ensures forall r | r in rows :: r.role.id in roleMap && roleMap[r.role.id].row == r.role
    ensures forall id | id in roleMap :: fresh(roleMap[id]) && roleMap[id].permissions == []
  {
    roleMap := map[];
    for i := 0 to |rows|
      invariant IndexedRoles(roleMap)
      invariant forall r | r in rows[..i] :: r.role.id in roleMap && roleMap[r.role.id].row == r.role
      invariant forall id | id in roleMap :: fresh(roleMap[id]) && roleMap[id].permissions == []
      invariant forall id | id in roleMap :: exists r :: r in rows[..i] && r.role == roleMap[id].row
    {
      assert rows[..i + 1] == rows[..i] + [rows[i]];
      if rows[i].role.id !in roleMap {
        var role := new RoleObject(rows[i].role);
        roleMap := roleMap[rows[i].role.id := role];
      } else {
        var r :| r in rows[..i] && r.role == roleMap[rows[i].role.id].row;
        assert r in rows && rows[i] in rows;
      }
    }
    assert rows[..|rows|] == rows;
  }

  method AttachPermissions(roleMap: map<nat, RoleObject>, granted: seq<RolePermission>)
    requires IndexedRoles(roleMap)
    requires forall id | id in roleMap :: roleMap[id].permissions == []
    modifies roleMap.Values
    ensures forall id | id in roleMap :: roleMap[id].permissions == PermissionsOf(granted, id)
  {
    for i := 0 to |granted|
      invariant forall id | id in roleMap :: roleMap[id].permissions == PermissionsOf(granted[..i], id)
    {
      var rp := granted[i];
      assert granted[..i + 1][..i] == granted[..i];
      if rp.role in roleMap {
        var role := roleMap[rp.role];
        role.permissions := role.permissions + [rp.permission];
      }
    }
    assert granted[..|granted|] == granted;
  }

  /** Every user gets a copy of each shared role it has. */
  method AttachRoles(
      userMap: map<nat, UserObject>, roleMap: map<nat, RoleObject>, rows: seq<UserRole>, granted: seq<RolePermission>)
    requires Indexed(userMap) && IndexedRoles(roleMap)
    requires forall r | r in rows :: r.role.id in roleMap && roleMap[r.role.id].row == r.role
    requires forall id | id in roleMap :: roleMap[id].permissions == PermissionsOf(granted, id)
    requires forall id | id in userMap :: userMap[id].roles == []
    modifies userMap.Values
    ensures forall id | id in userMap :: userMap[id].roles == RolesOf(rows, granted, id)
  {
    for i := 0 to |rows|
      invariant forall id | id in userMap :: userMap[id].roles == RolesOf(rows[..i], granted, id)
    {
      var ur := rows[i];
      assert rows[..i + 1][..i] == rows[..i];
      assert ur in rows;
      if ur.user in userMap {
        var user, role := userMap[ur.user], roleMap[ur.role.id];
        user.roles := user.roles + [Role(role.row, role.permissions)];
      }
    }
    assert rows[..|rows|] == rows;
  }

  lemma {:induction false} LiveUsersAscend(users: seq<UserRow>)
    requires Ascending(users)
    ensures Ascending(LiveUsers(users))
    decreases |users|
  {
    if users != [] {
      var k := |users| - 1;
      LiveUsersAscend(users[..k]);
      var before := LiveUsers(users[..k]);
      forall i | 0 <= i < |before| ensures before[i].id < users[k].id {
        LiveUsersAre(users[..k], before[i]);
        BelowLast(users, before[i]);
      }
    }
  }

  lemma BelowLast(users: seq<UserRow>, u: UserRow)
    requires Ascending(users) && users != [] && u in users[..|users| - 1]
    ensures u.id < users[|users| - 1].id
  {
    var i :| 0 <= i < |users| - 1 && users[..|users| - 1][i] == u;
  }

  lemma OneRow(db: Database, ids: set<nat>, now: int)
    requires WellKeyed(db)
    ensures OneRowPerRole(ForUsers(UserRoleRows(db, db.assignments, now), ids))
  {
    var rows := UserRoleRows(db, db.assignments, now);
    forall r, q | r in ForUsers(rows, ids) && q in ForUsers(rows, ids) && r.role.id == q.role.id
      ensures r.role == q.role
    {
      SelectedRow(rows, ids, r);
      SelectedRow(rows, ids, q);
      UserRoleRowsAre(db, db.assignments, now, r);
      UserRoleRowsAre(db, db.assignments, now, q);
    }
  }

  /** The indexed join gives each listed user exactly the nested-loop join's roles,
      each with all of its permissions, in the same order. */
  method ListUsers(db: Database, limit: nat, offset: nat, now: int) returns (users: seq<UserObject>)
    requires WellKeyed(db)
    ensures |users| == |UserPage(db.users, limit, offset)|
    ensures forall i | 0 <= i < |users| ::
              && users[i].row == UserPage(db.users, limit, offset)[i]
              && users[i].roles == JoinedRoles(db, users[i].row.id, now)
  {
    var page := UserPage(db.users, limit, offset);
    LiveUsersAscend(db.users);
    if |page| == 0 {
      return [];
    }
    var userMap;
    users, userMap := MapUsers(page);
    var userIds := set u | u in page :: u.id;
    var rows := ForUsers(UserRoleRows(db, db.assignments, now), userIds);
    OneRow(db, userIds, now);
    var roleMap := MapRoles(rows);
    var granted := ForRoles(RolePermissionRows(db, db.grants), roleMap.Keys);
    if |roleMap| > 0 {
      AttachPermissions(roleMap, granted);
    }
    AttachRoles(userMap, roleMap, rows, granted);
    forall i | 0 <= i < |users| ensures users[i].roles == JoinedRoles(db, users[i].row.id, now) {
      assert page[i] in page;
      RolesOfSelected(UserRoleRows(db, db.assignments, now), userIds, granted, page[i].id);
      GrantedSelected(rows, RolePermissionRows(db, db.grants), roleMap.Keys, page[i].id);
      RolesOfSelected(UserRoleRows(db, db.assignments, now), userIds, RolePermissionRows(db, db.grants), page[i].id);
    }
  }

  /** The roles' permissions are all among the selected ones. */
  lemma {:induction false} GrantedSelected(rows: seq<UserRole>, granted: seq<RolePermission>, ids: set<nat>, user: nat)
    requires forall r | r in rows :: r.role.id in ids
    ensures RolesOf(rows, ForRoles(granted, ids), user) == RolesOf(rows, granted, user)
    decreases |rows|
  {
    if rows != [] {
      var k := |rows| - 1;
      GrantedSelected(rows[..k], granted, ids, user);
      assert rows[k] in rows;
      PermissionsOfSelected(granted, ids, rows[k].role.id);
    }
  }
}
