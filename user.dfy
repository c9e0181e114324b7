/**
 * User-level rules (grouper/models/user.py): the direct permissions of a user and the checks
 * built on them, the role a user holds in a group's member list, the metadata upsert, and
 * enabling and disabling an account.
 *
 * Unlike the repository walk, these look at direct memberships only and do not skip np-owner
 * edges.
 */
module Users {
  import opened Wrappers
  import opened GroupEdges
  import opened Schema
  import opened Ordering
  import Tables
  import Permissions
  import PermissionGrants

  /** A row of `my_permissions`: permission name, argument, grant time and the granting group. */
  datatype MyPermission = MyPermission(name: string, argument: Option<string>, grantedOn: int, group: Group)

  /**
   * A membership `my_permissions` joins on: user-typed, of this user, active and unexpired.
   * The role is not looked at, so np-owner edges count.
   */
  predicate DirectEdge(user: User, now: int, e: GroupEdge)
  {
    e.memberType == UserMemberType && e.memberPk == user.id && e.active && Unexpired(e, now)
  }

  predicate HasDirectEdge(dir: Directory, user: User, now: int, groupId: nat)
  {
    exists e :: e in dir.edges && DirectEdge(user, now, e) && e.groupId == groupId
  }

  /** The row the join of a permission, a grant and an enabled group yields, when their ids agree. */
  function PermissionRow(p: Permission, m: PermissionMap, g: Group): Option<MyPermission>
  {
    if p.id == m.permissionId && g.id == m.groupId && g.enabled then Some(MyPermission(p.name, m.argument, m.grantedOn, g))
    else None
  }

  /** The rows of one (permission, grant, group) triple: one per direct edge into the group. */
  function RowsOfGroup(dir: Directory, user: User, now: int, p: Permission, m: PermissionMap, g: Group): (r: seq<MyPermission>)
    ensures forall x :: x in r <==> PermissionRow(p, m, g) == Some(x) && HasDirectEdge(dir, user, now, g.id)
  {
    match PermissionRow(p, m, g)
    case None => []
    case Some(row) =>
      Tables.Map(Tables.Filter(dir.edges, (e: GroupEdge) => DirectEdge(user, now, e) && e.groupId == g.id),
                 (e: GroupEdge) => row)
  }

  /** The rows of one (permission, grant) pair, group by group. */
  function RowsOfPermission(dir: Directory, user: User, now: int, p: Permission, m: PermissionMap): (r: seq<MyPermission>)
    ensures forall x :: x in r <==>
      exists g :: g in dir.groups && PermissionRow(p, m, g) == Some(x) && HasDirectEdge(dir, user, now, g.id)
  {
    var r := Tables.FlatMap(dir.groups, (g: Group) => RowsOfGroup(dir, user, now, p, m, g));
    assert forall x :: x in r <==> exists g :: g in dir.groups && x in RowsOfGroup(dir, user, now, p, m, g);
    r
  }

  /** The rows of one grant, permission by permission. */
  function RowsOfMap(dir: Directory, user: User, now: int, m: PermissionMap): (r: seq<MyPermission>)
    ensures forall x :: x in r <==> exists p :: p in dir.permissions && x in RowsOfPermission(dir, user, now, p, m)
  {
    Tables.FlatMap(dir.permissions, (p: Permission) => RowsOfPermission(dir, user, now, p, m))
  }

  /** The ORDER BY of `my_permissions`: name, argument, group name. */
  function MyPermissionKey(x: MyPermission): Key
  {
    [Some(x.name), x.argument, Some(x.group.name)]
  }

  /**
   * `my_permissions`: the grants of enabled groups the enabled user belongs to directly, one
   * row per joined grant, permission, group and membership, ordered by name, argument and
   * group name.
   */
  function MyPermissions(dir: Directory, user: User, now: int): (r: seq<MyPermission>)
    ensures !user.enabled ==> r == []
    ensures user.enabled ==> multiset(r) == multiset(JoinedRows(dir, user, now))
    ensures SortedBy(r, ByKey(MyPermissionKey))
  {
    if !user.enabled then []
    else
      ByKeyIsTotalPreorder(MyPermissionKey);
      SortBy(JoinedRows(dir, user, now), ByKey(MyPermissionKey))
  }

  /** The joined rows before sorting, grant by grant. */
  function JoinedRows(dir: Directory, user: User, now: int): (r: seq<MyPermission>)
    ensures forall x :: x in r <==> exists m :: m in dir.grants && x in RowsOfMap(dir, user, now, m)
  {
    Tables.FlatMap(dir.grants, (m: PermissionMap) => RowsOfMap(dir, user, now, m))
  }

  /**
   * A row is in `my_permissions` exactly when the user is enabled and some grant, permission,
   * enabled group and active unexpired direct membership of the user join to it.
   */
  lemma MyPermissionsMembers(dir: Directory, user: User, now: int, x: MyPermission)
    ensures x in MyPermissions(dir, user, now) <==>
      user.enabled &&
      exists m, p, g, e :: m in dir.grants && p in dir.permissions && g in dir.groups && e in dir.edges &&
        PermissionRow(p, m, g) == Some(x) && DirectEdge(user, now, e) && e.groupId == g.id
  {
    if user.enabled {
      ByKeyIsTotalPreorder(MyPermissionKey);
      SortByMembers(JoinedRows(dir, user, now), ByKey(MyPermissionKey), x);
    }
  }

  /**
   * The two ways of resolving permissions disagree on np-owner edges: the repository walk never
   * follows one, while `my_permissions` joins on it like any other membership.
   */
  lemma NpOwnerEdgesDisagree(dir: Directory, user: User, now: int, e: GroupEdge)
    requires e in dir.edges && e.role == NpOwner && DirectEdge(user, now, e)
    ensures !PermissionGrants.UserHop(dir, now, user, e)
    ensures HasDirectEdge(dir, user, now, e.groupId)
  {
  }

  /**
   * At the permission level: a user whose only user-typed membership is an np-owner edge into
   * a group holding a grant has that permission by `has_permission`, while the repository
   * walk resolves no grant at all for them.
   */
  lemma NpOwnerPermissionDisagrees(dir: Directory, user: User, now: int, e: GroupEdge, m: PermissionMap, p: Permission, g: Group)
    requires UserNamed(dir, user.name) == Some(user) && user.enabled
    requires e in dir.edges && e.role == NpOwner && DirectEdge(user, now, e)
    requires forall f :: f in dir.edges && f.memberType == UserMemberType && f.memberPk == user.id ==> f == e
    requires m in dir.grants && p in dir.permissions && g in dir.groups && g.id == e.groupId
    requires PermissionRow(p, m, g).Some?
    ensures HasPermission(dir, user, now, p.name, None)
    ensures PermissionGrants.ResolvedGrants(dir, user.name, now) == []
  {
    var x := PermissionRow(p, m, g).value;
    MyPermissionsMembers(dir, user, now, x);
    assert Satisfies(x, p.name, None);
    assert forall f :: f in dir.edges ==> !PermissionGrants.UserHop(dir, now, user, f);
    assert PermissionGrants.DirectGroups(dir, user, now) == {};
  }

  /** The row answers `has_permission(permission, argument)`. */
  predicate Satisfies(x: MyPermission, permission: string, argument: Option<string>)
  {
    x.name == permission && (x.argument == Some("*") || argument.None? || x.argument == argument)
  }

  /** The scan of `has_permission` over the rows of `my_permissions`, stopping at the first hit. */
  function HasPermissionIn(rows: seq<MyPermission>, permission: string, argument: Option<string>): (b: bool)
    ensures b <==> exists x :: x in rows && Satisfies(x, permission, argument)
  {
    if rows == [] then false
    else
      assert forall x :: x in rows <==> x == rows[0] || x in rows[1..];
      if rows[0].name != permission then HasPermissionIn(rows[1..], permission, argument)
      else if rows[0].argument == Some("*") || argument.None? then assert Satisfies(rows[0], permission, argument); true
      else if rows[0].argument == argument then assert Satisfies(rows[0], permission, argument); true
      else HasPermissionIn(rows[1..], permission, argument)
  }

  /**
   * `has_permission`: some direct grant has the name and either the argument "*", or no
   * argument was asked for, or exactly the asked argument.
   */
  function HasPermission(dir: Directory, user: User, now: int, permission: string, argument: Option<string>): (b: bool)
    ensures b <==> exists x :: x in MyPermissions(dir, user, now) && Satisfies(x, permission, argument)
  {
    HasPermissionIn(MyPermissions(dir, user, now), permission, argument)
  }

  /** A "*" grant answers every argument, and any grant of the name answers the bare question. */
  lemma WildcardAnswersEverything(dir: Directory, user: User, now: int, x: MyPermission, argument: Option<string>)
    requires x in MyPermissions(dir, user, now)
    ensures x.argument == Some("*") ==> HasPermission(dir, user, now, x.name, argument)
    ensures HasPermission(dir, user, now, x.name, None)
  {
  }

  /** A disabled user has no permission at all. */
  lemma DisabledHasNothing(dir: Directory, user: User, now: int, permission: string, argument: Option<string>)
    requires !user.enabled
    ensures !HasPermission(dir, user, now, permission, argument)
  {
  }

  predicate IsUserAdmin(dir: Directory, user: User, now: int)
  {
    HasPermission(dir, user, now, UserAdmin, None)
  }

  predicate IsGroupAdmin(dir: Directory, user: User, now: int)
  {
    HasPermission(dir, user, now, GroupAdmin, None)
  }

  predicate IsPermissionAdmin(dir: Directory, user: User, now: int)
  {
    HasPermission(dir, user, now, PermissionAdmin, None)
  }

  /**
   * What `Group.my_members()` returns, as far as these rules look at it: the role of each
   * member, keyed by ("User" or "Group", name).
   */
  type Members = map<(string, string), Role>

  /** `is_member`: the user appears among the members. */
  predicate IsMember(user: User, members: Members)
  {
    ("User", user.name) in members
  }

  /** `my_role_index`: the owner index for a group admin, else the member's role index, if a member. */
  function MyRoleIndex(dir: Directory, user: User, now: int, members: Members): (r: Option<nat>)
    ensures r.Some? <==> IsGroupAdmin(dir, user, now) || IsMember(user, members)
    ensures r.Some? ==> r.value < |GroupEdgeRoles|
    ensures IsGroupAdmin(dir, user, now) ==> r == Some(RoleIndex(Owner))
    ensures !IsGroupAdmin(dir, user, now) && IsMember(user, members) ==> r == Some(RoleIndex(members[("User", user.name)]))
  {
    if IsGroupAdmin(dir, user, now) then Some(RoleIndex(Owner))
    else if ("User", user.name) !in members then None
    else Some(RoleIndex(members[("User", user.name)]))
  }

  /** `my_role`: the role at that index, where index 0 (member) is falsy and gives None. */
  function MyRole(dir: Directory, user: User, now: int, members: Members): (r: Option<Role>)
    ensures r != Some(Member)
    ensures r.Some? <==> IsGroupAdmin(dir, user, now) || (IsMember(user, members) && members[("User", user.name)] != Member)
    ensures IsGroupAdmin(dir, user, now) ==> r == Some(Owner)
    ensures !IsGroupAdmin(dir, user, now) && r.Some? ==> r == Some(members[("User", user.name)])
  {
    var index := MyRoleIndex(dir, user, now, members);
    if index.None? || index.value == 0 then None
    else
      RoleEncodingIsFixed();
      RoleAt(index.value)
  }

  /** `can_manage`: a present group whose member list gives the user a managing role. */
  predicate CanManage(dir: Directory, user: User, now: int, group: Option<Group>, members: Members)
  {
    group.Some? && MyRole(dir, user, now, members) in {Some(Owner), Some(NpOwner), Some(Manager)}
  }

  /**
   * A user can manage a group exactly when it is present and the user is a group admin or a
   * member whose role index is an approver index.
   */
  lemma CanManageIffApprover(dir: Directory, user: User, now: int, group: Option<Group>, members: Members)
    ensures CanManage(dir, user, now, group, members) <==>
      group.Some? &&
      (IsGroupAdmin(dir, user, now) ||
       (IsMember(user, members) && RoleIndex(members[("User", user.name)]) in ApproverRoleIndices))
  {
    ApproverRolesAreManagerAndOwners();
  }

  /** What `my_creatable_permissions` returns: the string "*", or a list of argument globs. */
  datatype Creatable = Everything | Globs(globs: seq<Option<string>>)

  /**
   * `my_creatable_permissions`: "*" for a permission admin; otherwise the arguments of the
   * user's direct PERMISSION_CREATE rows, in row order.
   */
  function MyCreatablePermissions(dir: Directory, user: User, now: int): (r: Creatable)
    ensures IsPermissionAdmin(dir, user, now) <==> r == Everything
    ensures r.Globs? ==> forall a :: a in r.globs <==>
      exists x :: x in MyPermissions(dir, user, now) && x.name == PermissionCreate && x.argument == a
    ensures r.Globs? ==> forall a :: multiset(r.globs)[a] == multiset(Tables.Map(MyPermissions(dir, user, now), Label))[(PermissionCreate, a)]
    ensures r.Globs? ==> SortedBy(r.globs, CellLe)
  {
    if IsPermissionAdmin(dir, user, now) then Everything
    else
      var rows := MyPermissions(dir, user, now);
      CreateArgumentsSorted(rows);
      forall a ensures multiset(CreateArguments(rows))[a] == multiset(Tables.Map(rows, Label))[(PermissionCreate, a)] {
        CreateArgumentsCount(rows, a);
      }
      Globs(CreateArguments(rows))
  }

  /** A row's permission name and argument. */
  function Label(x: MyPermission): (string, Option<string>)
  {
    (x.name, x.argument)
  }

  /** `[permission.argument for permission in rows if permission.name == PERMISSION_CREATE]`. */
  function CreateArguments(rows: seq<MyPermission>): (r: seq<Option<string>>)
    ensures forall a :: a in r <==> exists x :: x in rows && x.name == PermissionCreate && x.argument == a
  {
    if rows == [] then []
    else
      var k := |rows| - 1;
      assert rows == rows[..k] + [rows[k]];
      CreateArguments(rows[..k]) + (if rows[k].name == PermissionCreate then [rows[k].argument] else [])
  }

  /** Each argument appears once per PERMISSION_CREATE row that carries it. */
  lemma {:induction false} CreateArgumentsCount(rows: seq<MyPermission>, a: Option<string>)
    ensures multiset(CreateArguments(rows))[a] == multiset(Tables.Map(rows, Label))[(PermissionCreate, a)]
  {
    if rows != [] {
      var k := |rows| - 1;
      var front := rows[..k];
      assert rows == front + [rows[k]];
      CreateArgumentsCount(front, a);
      Tables.MapSnoc(front, rows[k], Label);
    }
  }

  /** Rows of one name ordered by (name, argument, ...) have their arguments in order. */
  lemma SameNameArgumentOrder(x: MyPermission, y: MyPermission)
    requires x.name == y.name && KeyLe(MyPermissionKey(x), MyPermissionKey(y))
    ensures CellLe(x.argument, y.argument)
  {
    var a := MyPermissionKey(x);
    var b := MyPermissionKey(y);
    assert a[0] == b[0];
    assert KeyLe(a[1..], b[1..]);
    assert a[1..][0] == x.argument && b[1..][0] == y.argument;
    if x.argument == y.argument {
      CellLeTotal(x.argument, x.argument);
    }
  }

  /** Taken from rows in `my_permissions` order, the PERMISSION_CREATE arguments come sorted. */
  lemma {:induction false} CreateArgumentsSorted(rows: seq<MyPermission>)
    requires SortedBy(rows, ByKey(MyPermissionKey))
    ensures SortedBy(CreateArguments(rows), CellLe)
  {
    if rows != [] {
      var k := |rows| - 1;
      var front := rows[..k];
      var last := rows[k];
      assert rows == front + [last];
      assert SortedBy(front, ByKey(MyPermissionKey)) by {
        forall i, j | 0 <= i < j < |front| ensures ByKey(MyPermissionKey)(front[i], front[j]) {
          assert front[i] == rows[i] && front[j] == rows[j];
        }
      }
      CreateArgumentsSorted(front);
      var f := CreateArguments(front);
      if last.name == PermissionCreate {
        var r := f + [last.argument];
        assert CreateArguments(rows) == r;
        forall i, j | 0 <= i < j < |r| ensures CellLe(r[i], r[j]) {
          if j == |f| {
            assert f[i] in f;
            var x :| x in front && x.name == PermissionCreate && x.argument == f[i];
            var n :| 0 <= n < |front| && front[n] == x;
            assert rows[n] == x;
            assert ByKey(MyPermissionKey)(rows[n], rows[k]);
            SameNameArgumentOrder(x, last);
          } else {
            assert r[i] == f[i] && r[j] == f[j];
          }
        }
      } else {
        assert CreateArguments(rows) == f;
      }
    }
  }

  /** A permission admin may grant every permission with "*", ordered by `name + "*"`. */
  function AdminGrantable(perms: seq<Permission>): (r: seq<(Permission, string)>)
    ensures multiset(r) == multiset(Tables.Map(perms, (p: Permission) => (p, "*")))
    ensures SortedBy(r, ByKey(Permissions.GrantableKey))
  {
    ByKeyIsTotalPreorder(Permissions.GrantableKey);
    SortBy(Tables.Map(perms, (p: Permission) => (p, "*")), ByKey(Permissions.GrantableKey))
  }

  /** The admin list has every permission once per occurrence, each with "*", and nothing else. */
  lemma AdminGrantableMembers(perms: seq<Permission>, x: (Permission, string))
    ensures x in AdminGrantable(perms) <==> x.0 in perms && x.1 == "*"
    ensures |AdminGrantable(perms)| == |perms|
  {
    var pairs := Tables.Map(perms, (p: Permission) => (p, "*"));
    assert x in AdminGrantable(perms) <==> x in multiset(pairs);
    assert |multiset(AdminGrantable(perms))| == |multiset(pairs)|;
    if x.0 in perms && x.1 == "*" {
      var i :| 0 <= i < |perms| && perms[i] == x.0;
      assert pairs[i] == x;
    }
  }

  /** The `Grant` view of a row, as `filter_grantable_permissions` reads it. */
  function AsGrant(x: MyPermission): Grant
  {
    Grant(x.name, x.argument)
  }

  /** The user's direct PERMISSION_GRANT rows, as grants. */
  function GrantRows(dir: Directory, user: User, now: int): (r: seq<Grant>)
    ensures forall g :: g in r ==> g.name == PermissionGrant
  {
    var rows := Tables.Filter(MyPermissions(dir, user, now), (x: MyPermission) => x.name == PermissionGrant);
    Tables.Map(rows, AsGrant)
  }

  /** What `my_grantable_permissions` returns. */
  function ExpectedGrantable(dir: Directory, user: User, now: int): Result<seq<(Permission, string)>, Permissions.Failure>
  {
    if IsPermissionAdmin(dir, user, now) then Ok(AdminGrantable(dir.permissions))
    else Permissions.Grantable(GrantRows(dir, user, now), dir.permissions)
  }

  /**
   * `my_grantable_permissions`: everything with "*" for a permission admin, otherwise the
   * expansion of the user's direct PERMISSION_GRANT rows.
   */
  method MyGrantablePermissions(dir: Directory, user: User, now: int) returns (r: Result<seq<(Permission, string)>, Permissions.Failure>)
    ensures r == ExpectedGrantable(dir, user, now)
  {
    if IsPermissionAdmin(dir, user, now) {
      var result := Tables.Map(dir.permissions, (p: Permission) => (p, "*"));
      ByKeyIsTotalPreorder(Permissions.GrantableKey);
      return Ok(SortBy(result, ByKey(Permissions.GrantableKey)));
    }
    var grants := GrantRows(dir, user, now);
    r := Permissions.FilterGrantablePermissions(grants, dir.permissions);
  }

  /**
   * The grants handed over are all PERMISSION_GRANT rows, so the only way the expansion can
   * fail is a grant with a NULL argument.
   */
  lemma GrantableFailsOnlyOnNullArgument(dir: Directory, user: User, now: int)
    ensures ExpectedGrantable(dir, user, now).Err? <==>
      !IsPermissionAdmin(dir, user, now) && exists g :: g in GrantRows(dir, user, now) && g.argument.None?
    ensures ExpectedGrantable(dir, user, now).Err? ==> ExpectedGrantable(dir, user, now).error == Permissions.AttributeError
  {
    if !IsPermissionAdmin(dir, user, now) {
      GrantsFailOnNullArgument(GrantRows(dir, user, now), dir.permissions);
    }
  }

  /** Expanding PERMISSION_GRANT grants fails exactly when one has a NULL argument. */
  lemma GrantsFailOnNullArgument(grants: seq<Grant>, perms: seq<Permission>)
    requires forall g :: g in grants ==> g.name == PermissionGrant
    ensures Permissions.Grantable(grants, perms).Err? <==> exists g :: g in grants && g.argument.None?
    ensures Permissions.Grantable(grants, perms).Err? ==> Permissions.Grantable(grants, perms).error == Permissions.AttributeError
  {
    Permissions.ExpansionFails(grants, perms);
    if Permissions.Expansion(grants, perms).Err? {
      var i :| Permissions.FirstFailure(grants, i) &&
        Permissions.GrantFailure(grants[i]) == Some(Permissions.Expansion(grants, perms).error);
      assert grants[i] in grants;
    }
  }

  /** A non-admin may grant a pair exactly when one of its direct PERMISSION_GRANT rows covers it. */
  lemma NonAdminGrantableMembers(dir: Directory, user: User, now: int, x: (Permission, string))
    requires !IsPermissionAdmin(dir, user, now) && ExpectedGrantable(dir, user, now).Ok?
    ensures x in ExpectedGrantable(dir, user, now).value <==>
      exists g :: g in GrantRows(dir, user, now) && g.argument.Some? && x in Permissions.ExpandGrant(g.argument.value, dir.permissions)
  {
    var grants := GrantRows(dir, user, now);
    assert ExpectedGrantable(dir, user, now) == Permissions.Grantable(grants, dir.permissions);
    GrantsExpandTo(grants, dir.permissions, x);
  }

  /** A successful expansion holds exactly the pairs some grant's own expansion holds. */
  lemma GrantsExpandTo(grants: seq<Grant>, perms: seq<Permission>, x: (Permission, string))
    requires Permissions.Grantable(grants, perms).Ok?
    ensures x in Permissions.Grantable(grants, perms).value <==>
      exists g :: g in grants && g.argument.Some? && x in Permissions.ExpandGrant(g.argument.value, perms)
  {
    Permissions.GrantableMembers(grants, perms, x);
    forall g | g in grants && g.argument.Some? {
      Permissions.ExpandGrantMembers(g.argument.value, perms, x);
    }
  }

  /** A metadata row of this user: key and value. */
  datatype Metadata = Metadata(key: string, value: string)

  /** The raise of `set_metadata` for a key the validation pattern rejects. */
  datatype MetadataError = KeyDoesNotMatch

  /** The first row with the key, as the loop of `set_metadata` finds it. */
  function FirstWithKey(rows: seq<Metadata>, key: string): (r: Option<nat>)
    ensures r.Some? ==> r.value < |rows| && rows[r.value].key == key && forall j :: 0 <= j < r.value ==> rows[j].key != key
    ensures r.None? ==> forall j :: 0 <= j < |rows| ==> rows[j].key != key
  {
    if rows == [] then None
    else if rows[0].key == key then Some(0)
    else
      match FirstWithKey(rows[1..], key)
      case None => None
      case Some(i) => Some(i + 1)
  }

  /** The value stored under a key (the first row's), if any. */
  function Lookup(rows: seq<Metadata>, key: string): Option<string>
  {
    match FirstWithKey(rows, key)
    case None => None
    case Some(i) => Some(rows[i].value)
  }

  /** Each key is stored at most once. */
  predicate DistinctKeys(rows: seq<Metadata>)
  {
    forall i, j :: 0 <= i < j < |rows| ==> rows[i].key != rows[j].key
  }

  /** The rows after `set_metadata(key, value)` with a valid key. */
  function Upserted(rows: seq<Metadata>, key: string, value: Option<string>): seq<Metadata>
  {
    match FirstWithKey(rows, key)
    case Some(i) => if value.None? then rows[..i] + rows[i + 1..] else rows[i := Metadata(key, value.value)]
    case None => if value.None? then rows else rows + [Metadata(key, value.value)]
  }

  /**
   * After an upsert the key holds exactly the new value (none for a delete), every other key
   * holds what it held, and no key is stored twice.
   */
  lemma UpsertedLookup(rows: seq<Metadata>, key: string, value: Option<string>, other: string)
    requires DistinctKeys(rows)
    ensures DistinctKeys(Upserted(rows, key, value))
    ensures Lookup(Upserted(rows, key, value), key) == value
    ensures other != key ==> Lookup(Upserted(rows, key, value), other) == Lookup(rows, other)
  {
    match FirstWithKey(rows, key)
    case Some(i) =>
      if value.None? { DeleteLookup(rows, key, i, other); } else { OverwriteLookup(rows, key, i, value.value, other); }
    case None =>
      if value.Some? { InsertLookup(rows, key, value.value, other); }
  }

  lemma DeleteLookup(rows: seq<Metadata>, key: string, i: nat, other: string)
    requires DistinctKeys(rows) && FirstWithKey(rows, key) == Some(i)
    ensures DistinctKeys(rows[..i] + rows[i + 1..])
    ensures Lookup(rows[..i] + rows[i + 1..], key) == None
    ensures other != key ==> Lookup(rows[..i] + rows[i + 1..], other) == Lookup(rows, other)
  {
    var r := rows[..i] + rows[i + 1..];
    forall a, b | 0 <= a < b < |r| ensures r[a].key != r[b].key {
      var a' := if a < i then a else a + 1;
      var b' := if b < i then b else b + 1;
      assert r[a] == rows[a'] && r[b] == rows[b'];
    }
    DeleteOther(rows, i, key);
    if other != key {
      DeleteOther(rows, i, other);
    }
  }

  /** Deleting row `i` moves the first row of any other key down by one if it came after. */
  lemma DeleteOther(rows: seq<Metadata>, i: nat, other: string)
    requires i < |rows| && (rows[i].key == other ==> FirstWithKey(rows, other) == Some(i))
    requires DistinctKeys(rows)
    ensures Lookup(rows[..i] + rows[i + 1..], other) == if rows[i].key == other then None else Lookup(rows, other)
  {
    var r := rows[..i] + rows[i + 1..];
    if FirstWithKey(rows, other).Some? && rows[i].key != other {
      var k := FirstWithKey(rows, other).value;
      var k' := if k > i then k - 1 else k;
      assert r[k'] == rows[k];
      forall j | 0 <= j < k' ensures r[j].key != other {
        if j >= i { assert r[j] == rows[j + 1]; }
      }
      FirstWithKeyIs(r, other, k');
    } else {
      forall j | 0 <= j < |r| ensures r[j].key != other {
        if j >= i { assert r[j] == rows[j + 1]; } else { assert r[j] == rows[j]; }
      }
    }
  }

  lemma OverwriteLookup(rows: seq<Metadata>, key: string, i: nat, v: string, other: string)
    requires DistinctKeys(rows) && FirstWithKey(rows, key) == Some(i)
    ensures DistinctKeys(rows[i := Metadata(key, v)])
    ensures Lookup(rows[i := Metadata(key, v)], key) == Some(v)
    ensures other != key ==> Lookup(rows[i := Metadata(key, v)], other) == Lookup(rows, other)
  {
    var r := rows[i := Metadata(key, v)];
    FirstWithKeyIs(r, key, i);
    if other != key && FirstWithKey(rows, other).Some? {
      FirstWithKeyIs(r, other, FirstWithKey(rows, other).value);
    }
  }

  lemma InsertLookup(rows: seq<Metadata>, key: string, v: string, other: string)
    requires DistinctKeys(rows) && FirstWithKey(rows, key) == None
    ensures DistinctKeys(rows + [Metadata(key, v)])
    ensures Lookup(rows + [Metadata(key, v)], key) == Some(v)
    ensures other != key ==> Lookup(rows + [Metadata(key, v)], other) == Lookup(rows, other)
  {
    var r := rows + [Metadata(key, v)];
    FirstWithKeyIs(r, key, |rows|);
    if other != key && FirstWithKey(rows, other).Some? {
      FirstWithKeyIs(r, other, FirstWithKey(rows, other).value);
    }
  }

  /** The first row with the key is the one the loop stops at. */
  lemma {:induction false} FirstWithKeyIs(rows: seq<Metadata>, key: string, i: nat)
    requires i < |rows| && rows[i].key == key && forall j :: 0 <= j < i ==> rows[j].key != key
    ensures FirstWithKey(rows, key) == Some(i)
  {
    if i > 0 {
      FirstWithKeyIs(rows[1..], key, i - 1);
    }
  }

  /** Setting the value a key already holds changes nothing. */
  lemma UpsertSameValue(rows: seq<Metadata>, key: string, v: string)
    requires Lookup(rows, key) == Some(v)
    ensures Upserted(rows, key, Some(v)) == rows
  {
  }

  /** Revoking the next group removes it from what is left. */
  lemma RevokeStep(groups: seq<string>, i: nat)
    requires i < |groups|
    ensures Tables.Filter(Tables.Filter(groups, (g: string) => g !in groups[..i]), (g: string) => g != groups[i]) ==
      Tables.Filter(groups, (g: string) => g !in groups[..i + 1])
  {
    var before := groups[..i];
    var after := groups[..i + 1];
    assert after == before + [groups[i]];
    var p := (g: string) => g !in before;
    var q := (g: string) => g != groups[i];
    var pq := (g: string) => g !in after;
    forall g: string ensures pq(g) == (p(g) && q(g)) {
      assert g in after <==> g in before || g == groups[i];
    }
    Tables.FilterFilter(groups, p, q, pq);
  }

  /**
   * A user account: the `enabled` flag, the user's metadata rows, and the names of the groups
   * the user is a direct member of (what `get_groups_by_user` reports).
   */
  class UserAccount {
    var enabled: bool
    var metadata: seq<Metadata>
    var memberships: seq<string>

    constructor (enabled: bool, metadata: seq<Metadata>, memberships: seq<string>)
      ensures this.enabled == enabled && this.metadata == metadata && this.memberships == memberships
    {
      this.enabled := enabled;
      this.metadata := metadata;
      this.memberships := memberships;
    }

    /**
     * `set_metadata`: a key the validation pattern rejects raises and changes nothing; otherwise
     * the first row with the key is overwritten or deleted, or a row is inserted, and setting an
     * absent key to None does nothing.
     */
    method SetMetadata(key: string, value: Option<string>, keyIsValid: string -> bool) returns (r: Result<(), MetadataError>)
      modifies this
      ensures !keyIsValid(key) ==> r == Err(KeyDoesNotMatch) && metadata == old(metadata)
      ensures keyIsValid(key) ==> r == Ok(()) && metadata == Upserted(old(metadata), key, value)
      ensures enabled == old(enabled) && memberships == old(memberships)
    {
      if !keyIsValid(key) {
        return Err(KeyDoesNotMatch);
      }
      var found: Option<nat> := None;
      var i := 0;
      while i < |metadata|
        invariant 0 <= i <= |metadata|
        invariant forall j :: 0 <= j < i ==> metadata[j].key != key
      {
        if metadata[i].key == key {
          found := Some(i);
          break;
        }
        i := i + 1;
      }
      assert found == FirstWithKey(metadata, key);
      match found {
        case Some(k) =>
          if value.None? {
            metadata := metadata[..k] + metadata[k + 1..];
          } else {
            metadata := metadata[k := Metadata(key, value.value)];
          }
        case None =>
          if value.Some? {
            metadata := metadata + [Metadata(key, value.value)];
          }
      }
      return Ok(());
    }

    /** `disable`. */
    method Disable()
      modifies this
      ensures !enabled
      ensures metadata == old(metadata) && memberships == old(memberships)
    {
      enabled := false;
    }

    /** `revoke_member` for this user: the user leaves the group. */
    method Revoke(group: string)
      modifies this
      ensures memberships == Tables.Filter(old(memberships), (g: string) => g != group)
      ensures enabled == old(enabled) && metadata == old(metadata)
    {
      memberships := Tables.Filter(memberships, (g: string) => g != group);
    }

    /**
     * `enable`: unless memberships are preserved, the user is first removed from every group it
     * belongs to, one group at a time; then the account is enabled.
     */
    method Enable(preserveMembership: bool)
      modifies this
      ensures enabled
      ensures preserveMembership ==> memberships == old(memberships)
      ensures !preserveMembership ==> memberships == []
      ensures metadata == old(metadata)
    {
      if !preserveMembership {
        var groups := memberships;
        var i := 0;
        Tables.FilterAll(groups, (g: string) => g !in groups[..0]);
        while i < |groups|
          invariant 0 <= i <= |groups|
          invariant memberships == Tables.Filter(groups, (g: string) => g !in groups[..i])
          invariant metadata == old(metadata)
        {
          Revoke(groups[i]);
          RevokeStep(groups, i);
          i := i + 1;
        }
        assert groups[..i] == groups;
        Tables.FilterNone(groups, (g: string) => g !in groups[..i]);
      }
      enabled := true;
    }
  }
}
