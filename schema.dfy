/**
 * The records of the tables the core reads and writes, the permission-name constants of
 * grouper/constants.py, and the read-only directory of users, groups, memberships and grants
 * every query runs against. Timestamps are integers; "now" is always a parameter.
 */
module Schema {
  import opened Wrappers
  import opened GroupEdges
  import Tables

  const PermissionGrant: string := "grouper.permission.grant"
  const PermissionCreate: string := "grouper.permission.create"
  const PermissionAdmin: string := "grouper.admin.permissions"
  const GroupAdmin: string := "grouper.admin.groups"
  const UserAdmin: string := "grouper.admin.users"

  /** `GroupEdge.member_type` of an edge whose member is a user / a group (the OBJ_TYPES tags). */
  const UserMemberType: nat := 0
  const GroupMemberType: nat := 1

  datatype Group = Group(id: nat, name: string, enabled: bool)

  datatype Permission = Permission(id: nat, name: string, audited: bool, enabled: bool)

  /** A membership: `memberPk` is a user id or a group id according to `memberType`. */
  datatype GroupEdge = GroupEdge(
    groupId: nat, memberType: nat, memberPk: nat, role: Role, active: bool, expiration: Option<int>)

  /** A row of permissions_map; the argument is a string, "*", or NULL. */
  datatype PermissionMap = PermissionMap(permissionId: nat, groupId: nat, argument: Option<string>, grantedOn: int)

  datatype User = User(id: nat, name: string, enabled: bool, roleUser: bool, isServiceAccount: bool)

  datatype ServiceAccount = ServiceAccount(id: nat, userId: nat)

  datatype ServiceAccountPermissionMap = ServiceAccountPermissionMap(
    permissionId: nat, serviceAccountId: nat, argument: Option<string>)

  /** A (permission name, argument) pair: the `Grant` namedtuple and the PermissionGrant entity. */
  datatype Grant = Grant(name: string, argument: Option<string>)

  datatype Directory = Directory(
    users: seq<User>,
    groups: seq<Group>,
    edges: seq<GroupEdge>,
    permissions: seq<Permission>,
    grants: seq<PermissionMap>,
    serviceAccounts: seq<ServiceAccount>,
    serviceAccountGrants: seq<ServiceAccountPermissionMap>)

  /** `expiration > now or expiration == None`. */
  predicate Unexpired(e: GroupEdge, now: int)
  {
    e.expiration.None? || e.expiration.value > now
  }

  /**
   * The unique constraint uidx1 on (permission_id, group_id, argument). SQL treats NULLs as
   * distinct, so two rows whose argument is NULL never collide.
   */
  predicate UniqueGrants(grants: seq<PermissionMap>)
  {
    forall i, j :: 0 <= i < j < |grants| && grants[i].argument.Some? ==>
      (grants[i].permissionId, grants[i].groupId, grants[i].argument) !=
      (grants[j].permissionId, grants[j].groupId, grants[j].argument)
  }

  /** Permission.name is a unique column. */
  predicate DistinctNames(perms: seq<Permission>)
  {
    forall i, j :: 0 <= i < j < |perms| ==> perms[i].name != perms[j].name
  }

  /** `User.get(name=...)`; usernames are unique, so the first match is the only one. */
  function UserNamed(dir: Directory, name: string): (r: Option<User>)
    ensures r.Some? ==> r.value in dir.users && r.value.name == name
    ensures r.None? ==> forall u :: u in dir.users ==> u.name != name
  {
    Tables.Find(dir.users, (u: User) => u.name == name)
  }

  /** `Permission.get(name=...)`. */
  function PermissionNamed(dir: Directory, name: string): (r: Option<Permission>)
    ensures r.Some? ==> r.value in dir.permissions && r.value.name == name
    ensures r.None? ==> forall p :: p in dir.permissions ==> p.name != name
  {
    Tables.Find(dir.permissions, (p: Permission) => p.name == name)
  }

  /** With unique names, looking up a permission's own name finds that permission. */
  lemma PermissionNamedIsUnique(dir: Directory, p: Permission)
    requires DistinctNames(dir.permissions) && p in dir.permissions
    ensures PermissionNamed(dir, p.name) == Some(p)
  {
    var q := PermissionNamed(dir, p.name).value;
    var i :| 0 <= i < |dir.permissions| && dir.permissions[i] == p;
    var j :| 0 <= j < |dir.permissions| && dir.permissions[j] == q;
    if i < j {
      assert dir.permissions[i].name != dir.permissions[j].name;
    } else if j < i {
      assert dir.permissions[j].name != dir.permissions[i].name;
    }
  }
}
