/** What a user or an API token is allowed to do: one user's roles as the single-user
    lookup builds them, and the permission lists without repetitions. */
module UserPermissions {
  import opened Options
  import opened UserRoles

  // ---- First occurrences ----

  function FirstOccurrences<T(==)>(s: seq<T>): seq<T>
    decreases |s|
  {
    if s == [] then [] else
    var k := |s| - 1;
    var before := FirstOccurrences(s[..k]);
    if s[k] in before then before else before + [s[k]]
  }

  ghost predicate NoRepeats<T>(s: seq<T>) {
    forall i, j | 0 <= i < j < |s| :: s[i] != s[j]
  }

  lemma {:induction false} FirstOccurrencesKeep<T>(s: seq<T>)
    ensures forall x :: x in FirstOccurrences(s) <==> x in s
    ensures NoRepeats(FirstOccurrences(s))
    decreases |s|
  {
    if s != [] {
      var k := |s| - 1;
      FirstOccurrencesKeep(s[..k]);
      assert forall x :: x in s <==> x in s[..k] || x == s[k];
      var before := FirstOccurrences(s[..k]);
      assert forall i | 0 <= i < |before| :: before[i] in before;
    }
  }

  /** Names come in the order in which they first occur: a longer list only adds names at
      the end. */
  lemma {:induction false} FirstOccurrencesExtend<T>(s: seq<T>, n: nat)
    requires n <= |s|
    ensures FirstOccurrences(s[..n]) <= FirstOccurrences(s)
    decreases |s|
  {
    if n < |s| {
      FirstOccurrencesExtend(s[..|s| - 1], n);
      assert s[..|s| - 1][..n] == s[..n];
    } else {
      assert s[..n] == s;
    }
  }

  lemma {:induction false} NothingRepeats<T>(s: seq<T>)
    requires NoRepeats(s)
    ensures FirstOccurrences(s) == s
    decreases |s|
  {
    if s != [] {
      var k := |s| - 1;
      NothingRepeats(s[..k]);
      assert s == s[..k] + [s[k]];
    }
  }

  // ---- The single-user lookup ----

  function RoleRowsOf(rows: seq<UserRole>, user: nat): seq<RoleRow>
    decreases |rows|
  {
    if rows == [] then [] else
    var k := |rows| - 1;
    RoleRowsOf(rows[..k], user) + if rows[k].user == user then [rows[k].role] else []
  }

  function WithPermissions(rows: seq<RoleRow>, granted: seq<RolePermission>): seq<Role>
    decreases |rows|
  {
    if rows == [] then [] else
    var k := |rows| - 1;
    WithPermissions(rows[..k], granted) + [Role(rows[k], PermissionsOf(granted, rows[k].id))]
  }

  lemma {:induction false} JoinInTwoSteps(rows: seq<UserRole>, granted: seq<RolePermission>, user: nat)
    ensures RolesOf(rows, granted, user) == WithPermissions(RoleRowsOf(rows, user), granted)
    decreases |rows|
  {
    if rows != [] {
      var k := |rows| - 1;
      JoinInTwoSteps(rows[..k], granted, user);
      var before, after := RoleRowsOf(rows[..k], user), RoleRowsOf(rows, user);
      if rows[k].user == user {
        assert after[..|after| - 1] == before;
      } else {
        assert after == before;
      }
    }
  }

  lemma {:induction false} WithPermissionsHas(rows: seq<RoleRow>, granted: seq<RolePermission>, row: RoleRow)
    ensures Role(row, PermissionsOf(granted, row.id)) in WithPermissions(rows, granted) <==> row in rows
    decreases |rows|
  {
    if rows != [] {
      var k := |rows| - 1;
      WithPermissionsHas(rows[..k], granted, row);
      assert row in rows <==> row in rows[..k] || row == rows[k];
    }
  }

  /** Making the rows distinct before or after attaching permissions is the same. */
  lemma {:induction false} DistinctCommutes(rows: seq<RoleRow>, granted: seq<RolePermission>)
    ensures FirstOccurrences(WithPermissions(rows, granted)) == WithPermissions(FirstOccurrences(rows), granted)
    decreases |rows|
  {
    if rows != [] {
      var k := |rows| - 1;
      DistinctCommutes(rows[..k], granted);
      var last := Role(rows[k], PermissionsOf(granted, rows[k].id));
      var all, before := WithPermissions(rows, granted), FirstOccurrences(rows[..k]);
      assert all[..|all| - 1] == WithPermissions(rows[..k], granted) && all[|all| - 1] == last;
      WithPermissionsHas(before, granted, rows[k]);
      if rows[k] !in before {
        assert (before + [rows[k]])[..|before|] == before;
      }
    }
  }

  predicate Registered(db: Database, id: nat) {
    exists u | u in db.users :: u.id == id && !u.deleted
  }

  function Granted(permissionMap: map<nat, seq<Permission>>, role: nat): seq<Permission> {
    if role in permissionMap then permissionMap[role] else []
  }

  /** The permission lists by role, in the order the rows arrive. */
  method GroupByRole(granted: seq<RolePermission>) returns (permissionMap: map<nat, seq<Permission>>)
    ensures forall role :: Granted(permissionMap, role) == PermissionsOf(granted, role)
  {
    permissionMap := map[];
    for i := 0 to |granted|
      invariant forall role :: Granted(permissionMap, role) == PermissionsOf(granted[..i], role)
    {
      var rp := granted[i];
      assert granted[..i + 1][..i] == granted[..i];
      permissionMap := permissionMap[rp.role := Granted(permissionMap, rp.role) + [rp.permission]];
    }
    assert granted[..|granted|] == granted;
  }

  method FillRoles(rows: seq<RoleRow>, granted: seq<RolePermission>) returns (roles: seq<Role>)
    ensures roles == WithPermissions(rows, granted)
  {
    roles := [];
    if |rows| > 0 {
      var ids := set r | r in rows :: r.id;
      var permissionMap := GroupByRole(ForRoles(granted, ids));
      for i := 0 to |rows|
        invariant roles == WithPermissions(rows[..i], granted)
      {
        assert rows[..i + 1][..i] == rows[..i];
        assert rows[i] in rows;
        PermissionsOfSelected(granted, ids, rows[i].id);
        roles := roles + [Role(rows[i], Granted(permissionMap, rows[i].id))];
      }
      assert rows[..|rows|] == rows;
    }
  }

  /** The lookup of one user finds the roles that ListUsers gives it, each once. */
  method GetUser(db: Database, id: nat, now: int) returns (r: Option<UserObject>)
    requires WellKeyed(db)
    ensures r.Some? <==> Registered(db, id)
    ensures r.Some? ==>
              && r.value.row.id == id && r.value.row in db.users && !r.value.row.deleted
              && r.value.roles == FirstOccurrences(JoinedRoles(db, id, now))
  {
    if !Registered(db, id) {
      return None;
    }
    var row :| row in db.users && row.id == id && !row.deleted;
    var user := new UserObject(row);
    var rows := UserRoleRows(db, db.assignments, now);
    var granted := RolePermissionRows(db, db.grants);
    user.roles := FillRoles(FirstOccurrences(RoleRowsOf(rows, id)), granted);
    DistinctCommutes(RoleRowsOf(rows, id), granted);
    JoinInTwoSteps(rows, granted, id);
    return Some(user);
  }

  // ---- Permission lists ----

  function Name(p: Permission): string {
    p.resource + ":" + p.action
  }

  function NamesOf(permissions: seq<Permission>): seq<string>
    decreases |permissions|
  {
    if permissions == [] then [] else
    var k := |permissions| - 1;
    NamesOf(permissions[..k]) + [Name(permissions[k])]
  }

  function AllNames(roles: seq<Role>): seq<string>
    decreases |roles|
  {
    if roles == [] then [] else
    var k := |roles| - 1;
    AllNames(roles[..k]) + NamesOf(roles[k].permissions)
  }

  method AppendNew(names: seq<string>, ghost seen: seq<string>, permissions: seq<Permission>) returns (r: seq<string>)
    requires names == FirstOccurrences(seen)
    ensures r == FirstOccurrences(seen + NamesOf(permissions))
  {
    r := names;
    assert seen + [] == seen;
    for i := 0 to |permissions|
      invariant r == FirstOccurrences(seen + NamesOf(permissions[..i]))
    {
      assert permissions[..i + 1][..i] == permissions[..i];
      var name := Name(permissions[i]);
      ghost var before, after := seen + NamesOf(permissions[..i]), seen + NamesOf(permissions[..i + 1]);
      assert after == before + [name];
      assert after[..|after| - 1] == before;
      if name !in r {
        r := r + [name];
      }
    }
    assert permissions[..|permissions|] == permissions;
  }

  method UserPermissionList(roles: seq<Role>) returns (names: seq<string>)
    ensures names == FirstOccurrences(AllNames(roles))
  {
    names := [];
    for i := 0 to |roles|
      invariant names == FirstOccurrences(AllNames(roles[..i]))
    {
      assert roles[..i + 1][..i] == roles[..i];
      names := AppendNew(names, AllNames(roles[..i]), roles[i].permissions);
    }
    assert roles[..|roles|] == roles;
  }

  method TokenPermissionList(permissions: seq<Permission>) returns (names: seq<string>)
    ensures names == FirstOccurrences(NamesOf(permissions))
  {
    names := AppendNew([], [], permissions);
    assert [] + NamesOf(permissions) == NamesOf(permissions);
  }

  /** One name per role, in the order of the roles, repetitions kept. */
  method RoleList(roles: seq<Role>) returns (names: seq<string>)
    ensures |names| == |roles| && forall i | 0 <= i < |roles| :: names[i] == roles[i].row.name
  {
    names := [];
    for i := 0 to |roles|
      invariant |names| == i && forall j | 0 <= j < i :: names[j] == roles[j].row.name
    {
      names := names + [roles[i].row.name];
    }
  }

  // ---- What the tables grant ----

  /** The tables assign the user a role, not expired and not deleted, that is granted
      this permission. */
  ghost predicate Holds(db: Database, user: nat, now: int, name: string) {
    exists a, g ::
      && a in db.assignments && a.user == user
      && (a.expires.None? || a.expires.value > now)
      && a.role in db.roles && !db.roles[a.role].deleted
      && g in db.grants && g.role == a.role && g.permission in db.permissions
      && db.permissions[g.permission].resource + ":" + db.permissions[g.permission].action == name
  }

  lemma {:induction false} NamesOfHas(permissions: seq<Permission>, name: string)
    ensures name in NamesOf(permissions) <==> exists p :: p in permissions && Name(p) == name
    decreases |permissions|
  {
    if permissions != [] {
      var k := |permissions| - 1;
      NamesOfHas(permissions[..k], name);
      assert forall p :: p in permissions <==> p in permissions[..k] || p == permissions[k];
    }
  }

  lemma {:induction false} AllNamesHas(roles: seq<Role>, name: string)
    ensures name in AllNames(roles) <==> exists r, p :: r in roles && p in r.permissions && Name(p) == name
    decreases |roles|
  {
    if roles != [] {
      var k := |roles| - 1;
      AllNamesHas(roles[..k], name);
      NamesOfHas(roles[k].permissions, name);
      assert forall r :: r in roles <==> r in roles[..k] || r == roles[k];
    }
  }

  lemma {:induction false} PermissionsOfHas(granted: seq<RolePermission>, role: nat, p: Permission)
    ensures p in PermissionsOf(granted, role) <==> RolePermission(role, p) in granted
    decreases |granted|
  {
    if granted != [] {
      var k := |granted| - 1;
      PermissionsOfHas(granted[..k], role, p);
      assert RolePermission(role, p) in granted <==> RolePermission(role, p) in granted[..k] || RolePermission(role, p) == granted[k];
    }
  }

  lemma {:induction false} RolesOfHas(rows: seq<UserRole>, granted: seq<RolePermission>, user: nat, role: Role)
    ensures role in RolesOf(rows, granted, user) <==>
            UserRole(user, role.row) in rows && role.permissions == PermissionsOf(granted, role.row.id)
    decreases |rows|
  {
    if rows != [] {
      var k := |rows| - 1;
      RolesOfHas(rows[..k], granted, user, role);
      assert UserRole(user, role.row) in rows <==> UserRole(user, role.row) in rows[..k] || UserRole(user, role.row) == rows[k];
    }
  }

  lemma JoinGrantsOnly(db: Database, user: nat, now: int, name: string)
    requires WellKeyed(db) && name in AllNames(JoinedRoles(db, user, now))
    ensures Holds(db, user, now, name)
  {
    var rows, granted := UserRoleRows(db, db.assignments, now), RolePermissionRows(db, db.grants);
    AllNamesHas(RolesOf(rows, granted, user), name);
    var r, p :| r in RolesOf(rows, granted, user) && p in r.permissions && Name(p) == name;
    RolesOfHas(rows, granted, user, r);
    UserRoleRowsAre(db, db.assignments, now, UserRole(user, r.row));
    PermissionsOfHas(granted, r.row.id, p);
    RolePermissionRowsAre(db, db.grants, RolePermission(r.row.id, p));
  }

  lemma JoinGrantsAll(db: Database, user: nat, now: int, name: string)
    requires WellKeyed(db) && Holds(db, user, now, name)
    ensures name in AllNames(JoinedRoles(db, user, now))
  {
    var rows, granted := UserRoleRows(db, db.assignments, now), RolePermissionRows(db, db.grants);
    var a, g :| && a in db.assignments && a.user == user
                && (a.expires.None? || a.expires.value > now)
                && a.role in db.roles && !db.roles[a.role].deleted
                && g in db.grants && g.role == a.role && g.permission in db.permissions
                && db.permissions[g.permission].resource + ":" + db.permissions[g.permission].action == name;
    var row, p := db.roles[a.role], db.permissions[g.permission];
    var r := Role(row, PermissionsOf(granted, row.id));
    UserRoleRowsAre(db, db.assignments, now, UserRole(user, row));
    RolePermissionRowsAre(db, db.grants, RolePermission(row.id, p));
    PermissionsOfHas(granted, row.id, p);
    RolesOfHas(rows, granted, user, r);
    AllNamesHas(RolesOf(rows, granted, user), name);
    assert r in RolesOf(rows, granted, user) && p in r.permissions && Name(p) == name;
  }

  /** A listed user's permissions are exactly what the tables grant. */
  lemma ListedIffGranted(db: Database, user: nat, now: int, name: string)
    requires WellKeyed(db)
    ensures name in FirstOccurrences(AllNames(JoinedRoles(db, user, now))) <==> Holds(db, user, now, name)
  {
    FirstOccurrencesKeep(AllNames(JoinedRoles(db, user, now)));
    if Holds(db, user, now, name) {
      JoinGrantsAll(db, user, now, name);
    }
    if name in AllNames(JoinedRoles(db, user, now)) {
      JoinGrantsOnly(db, user, now, name);
    }
  }

  /** A listed user has a role iff an assignment of it has not expired and the role is not
      deleted. */
  lemma RoleListedIff(db: Database, user: nat, now: int, row: RoleRow)
    ensures (exists r :: r in JoinedRoles(db, user, now) && r.row == row)
            <==> exists a :: a in db.assignments && a.user == user && (a.expires.None? || a.expires.value > now)
                   && a.role in db.roles && !db.roles[a.role].deleted && db.roles[a.role] == row
  {
    var rows, granted := UserRoleRows(db, db.assignments, now), RolePermissionRows(db, db.grants);
    UserRoleRowsAre(db, db.assignments, now, UserRole(user, row));
    RolesOfHas(rows, granted, user, Role(row, PermissionsOf(granted, row.id)));
    forall r | r in RolesOf(rows, granted, user) && r.row == row ensures UserRole(user, row) in rows {
      RolesOfHas(rows, granted, user, r);
    }
  }

  /** The same rows, in whatever order each query returns them. */
  ghost predicate SameRows(db: Database, other: Database) {
    && db.roles == other.roles && db.permissions == other.permissions
    && (forall a :: a in db.assignments <==> a in other.assignments)
    && (forall g :: g in db.grants <==> g in other.grants)
  }

  /** The lookup and the listing agree on what a user may do. */
  lemma LookupAgreesWithListing(db: Database, other: Database, user: nat, now: int, name: string)
    requires WellKeyed(db) && WellKeyed(other) && SameRows(db, other)
    ensures name in FirstOccurrences(AllNames(FirstOccurrences(JoinedRoles(db, user, now))))
            <==> name in FirstOccurrences(AllNames(JoinedRoles(other, user, now)))
  {
    var listed := JoinedRoles(db, user, now);
    FirstOccurrencesKeep(listed);
    FirstOccurrencesKeep(AllNames(FirstOccurrences(listed)));
    FirstOccurrencesKeep(AllNames(listed));
    AllNamesHas(listed, name);
    AllNamesHas(FirstOccurrences(listed), name);
    ListedIffGranted(db, user, now, name);
    ListedIffGranted(other, user, now, name);
    if Holds(db, user, now, name) {
      SameGrants(db, other, user, now, name);
    }
    if Holds(other, user, now, name) {
      SameGrants(other, db, user, now, name);
    }
  }

  lemma SameGrants(db: Database, other: Database, user: nat, now: int, name: string)
    requires SameRows(db, other) && Holds(db, user, now, name)
    ensures Holds(other, user, now, name)
  {
  }

  /** The tables' primary key on (user, role). */
  ghost predicate AssignedOnce(assignments: seq<Assignment>) {
    forall i, j | 0 <= i < j < |assignments| ::
      assignments[i].user != assignments[j].user || assignments[i].role != assignments[j].role
  }

  ghost predicate Assigned(assignments: seq<Assignment>, user: nat, role: nat) {
    exists a :: a in assignments && a.user == user && a.role == role
  }

  lemma {:induction false} RowsOnce(db: Database, assignments: seq<Assignment>, now: int, user: nat)
    requires WellKeyed(db) && AssignedOnce(assignments)
    ensures var rows := RoleRowsOf(UserRoleRows(db, assignments, now), user);
            && NoRepeats(rows)
            && (forall r | r in rows :: Assigned(assignments, user, r.id))
    decreases |assignments|
  {
    if assignments != [] {
      var k := |assignments| - 1;
      RowsOnce(db, assignments[..k], now, user);
      var a := assignments[k];
      var before, after := UserRoleRows(db, assignments[..k], now), UserRoleRows(db, assignments, now);
      assert a in assignments && forall b | b in assignments[..k] :: b in assignments;
      var rows := RoleRowsOf(before, user);
      forall r | r in rows ensures Assigned(assignments, user, r.id) {
        assert Assigned(assignments[..k], user, r.id);
      }
      if Live(db, a, now) {
        assert after[..|after| - 1] == before;
        assert forall i | 0 <= i < |rows| :: rows[i] in rows;
      } else {
        assert after == before;
      }
    }
  }

  /** With that key, the lookup and the listing give a user the very same roles. */
  lemma KeyedLookupIsListing(db: Database, user: nat, now: int)
    requires WellKeyed(db) && AssignedOnce(db.assignments)
    ensures FirstOccurrences(JoinedRoles(db, user, now)) == JoinedRoles(db, user, now)
  {
    var rows, granted := UserRoleRows(db, db.assignments, now), RolePermissionRows(db, db.grants);
    RowsOnce(db, db.assignments, now, user);
    NothingRepeats(RoleRowsOf(rows, user));
    DistinctCommutes(RoleRowsOf(rows, user), granted);
    JoinInTwoSteps(rows, granted, user);
  }
}
