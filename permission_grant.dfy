/**
 * Effective permissions (grouper/repositories/permission_grant.py, the SQL repository): the
 * breadth-first walk from a user's direct groups up through parent groups, and the per-permission
 * listings of group and service-account grants.
 */
module PermissionGrants {
  import opened Wrappers
  import opened GroupEdges
  import opened Schema
  import opened Ordering
  import Tables

  /** The group of an edge exists and is enabled (`Group.id == GroupEdge.group_id, Group.enabled`). */
  predicate GroupEnabled(dir: Directory, id: nat)
  {
    exists i :: 0 <= i < |dir.groups| && dir.groups[i].id == id && dir.groups[i].enabled
  }

  /** The filter both hops share: active, unexpired, not np-owner, into an enabled group. */
  predicate Follows(dir: Directory, e: GroupEdge, now: int)
  {
    e.active && Unexpired(e, now) && e.role != NpOwner && GroupEnabled(dir, e.groupId)
  }

  /** The first hop: a followed edge whose member is the user. */
  predicate UserHop(dir: Directory, now: int, user: User, e: GroupEdge)
  {
    e.memberType == UserMemberType && e.memberPk == user.id && Follows(dir, e, now)
  }

  /** A later hop: a followed edge whose member is one of `children`. */
  predicate GroupHop(dir: Directory, now: int, children: set<nat>, e: GroupEdge)
  {
    e.memberType == GroupMemberType && e.memberPk in children && Follows(dir, e, now)
  }

  /** The groups the user belongs to directly through a followed user-typed edge. */
  function DirectGroups(dir: Directory, user: User, now: int): (r: set<nat>)
    ensures forall g :: g in r <==> exists e :: e in dir.edges && UserHop(dir, now, user, e) && e.groupId == g
  {
    set e | e in dir.edges && UserHop(dir, now, user, e) :: e.groupId
  }

  /** The groups that have one of `children` as a member through a followed group-typed edge. */
  function Parents(dir: Directory, now: int, children: set<nat>): (r: set<nat>)
    ensures forall g :: g in r <==> exists e :: e in dir.edges && GroupHop(dir, now, children, e) && e.groupId == g
  {
    set e | e in dir.edges && GroupHop(dir, now, children, e) :: e.groupId
  }

  /** Every group id an edge points at: a bound on everything the walk can reach. */
  function EdgeGroups(dir: Directory): set<nat>
  {
    set e | e in dir.edges :: e.groupId
  }

  /** The groups reachable from `start` in at most `k` parent hops. */
  function Reach(dir: Directory, now: int, start: set<nat>, k: nat): set<nat>
  {
    if k == 0 then start
    else
      var prev := Reach(dir, now, start, k - 1);
      prev + Parents(dir, now, prev)
  }

  /** The walk keeps its start groups and reaches only groups some edge points at. */
  lemma ReachBounds(dir: Directory, now: int, start: set<nat>, k: nat)
    ensures start <= Reach(dir, now, start, k) <= start + EdgeGroups(dir)
  {
    var f := (n: nat) => Reach(dir, now, start, n);
    var step := (x: set<nat>) => Parents(dir, now, x);
    forall n: nat ensures f(n + 1) == f(n) + step(f(n)) {
      ReachGrows(dir, now, start, n);
    }
    forall x ensures step(x) <= EdgeGroups(dir) {
      ParentsWithinEdgeGroups(dir, now, x);
    }
    ChainBounded(f, step, EdgeGroups(dir), k);
  }

  /** A chain that each step extends by a subset of `bound` stays between its first set and that set plus `bound`. */
  lemma {:induction false} ChainBounded(f: nat -> set<nat>, step: set<nat> -> set<nat>, bound: set<nat>, k: nat)
    requires forall n: nat :: f(n + 1) == f(n) + step(f(n))
    requires forall x :: step(x) <= bound
    ensures f(0) <= f(k) <= f(0) + bound
    decreases k
  {
    if k > 0 {
      ChainBounded(f, step, bound, k - 1);
      assert f(k) == f(k - 1) + step(f(k - 1));
      assert step(f(k - 1)) <= bound;
    }
  }

  /** The least set of groups that contains `start` and is closed under parents. */
  function Closure(dir: Directory, now: int, start: set<nat>): set<nat>
  {
    Reach(dir, now, start, |start + EdgeGroups(dir)|)
  }

  lemma ParentsMonotone(dir: Directory, now: int, a: set<nat>, b: set<nat>)
    requires a <= b
    ensures Parents(dir, now, a) <= Parents(dir, now, b)
  {
  }

  /** One more hop only adds groups. */
  lemma ReachGrows(dir: Directory, now: int, start: set<nat>, k: nat)
    ensures Reach(dir, now, start, k) <= Reach(dir, now, start, k + 1)
    ensures Reach(dir, now, start, k + 1) == Reach(dir, now, start, k) + Parents(dir, now, Reach(dir, now, start, k))
  {
  }

  /** In a chain where each step only adds, an earlier set lies inside a later one. */
  lemma {:induction false} ChainMonotone(f: nat -> set<nat>, i: nat, j: nat)
    requires forall k: nat :: f(k) <= f(k + 1)
    requires i <= j
    ensures f(i) <= f(j)
    decreases j
  {
    if i < j {
      ChainMonotone(f, i, j - 1);
      assert f(j - 1) <= f(j);
    }
  }

  /** In a chain where each set is a function of the one before, a repeat repeats forever. */
  lemma {:induction false} ChainStable(f: nat -> set<nat>, step: set<nat> -> set<nat>, k: nat, j: nat)
    requires forall n: nat :: f(n + 1) == step(f(n))
    requires f(k + 1) == f(k)
    requires k <= j
    ensures f(j) == f(k)
    decreases j
  {
    if k < j {
      ChainStable(f, step, k, j - 1);
      assert f(j) == step(f(j - 1));
      assert f(k + 1) == step(f(k));
    }
  }

  lemma ReachMonotone(dir: Directory, now: int, start: set<nat>, i: nat, j: nat)
    requires i <= j
    ensures Reach(dir, now, start, i) <= Reach(dir, now, start, j)
  {
    var f := (n: nat) => Reach(dir, now, start, n);
    forall k: nat ensures f(k) <= f(k + 1) {
      ReachGrows(dir, now, start, k);
    }
    ChainMonotone(f, i, j);
  }

  /** Once a step adds nothing, no later step adds anything. */
  lemma ReachStable(dir: Directory, now: int, start: set<nat>, k: nat, j: nat)
    requires Reach(dir, now, start, k + 1) == Reach(dir, now, start, k)
    requires k <= j
    ensures Reach(dir, now, start, j) == Reach(dir, now, start, k)
  {
    var f := (n: nat) => Reach(dir, now, start, n);
    var step := (s: set<nat>) => s + Parents(dir, now, s);
    forall n: nat ensures f(n + 1) == step(f(n)) {
      ReachGrows(dir, now, start, n);
    }
    ChainStable(f, step, k, j);
  }

  lemma SubsetCardinality(a: set<nat>, b: set<nat>)
    requires a <= b
    ensures |a| <= |b|
    ensures a != b ==> |a| < |b|
  {
    assert b == a + (b - a);
    if a != b {
      var x :| x in b - a;
    }
  }

  /** Each of the first `k` steps of the chain `f` adds an element. */
  predicate StrictChain(f: nat -> set<nat>, k: nat)
  {
    k == 0 || (StrictChain(f, k - 1) && f(k - 1) < f(k))
  }

  /** A chain whose first `k` steps each add an element has at least `k` elements after them. */
  lemma {:induction false} StrictChainGrows(f: nat -> set<nat>, k: nat)
    requires StrictChain(f, k)
    ensures |f(k)| >= k
  {
    if k > 0 {
      StrictChainGrows(f, k - 1);
      SubsetCardinality(f(k - 1), f(k));
    }
  }

  /** A step among the first `k` that adds nothing, when not all of them add something. */
  lemma {:induction false} FirstStall(f: nat -> set<nat>, k: nat) returns (j: nat)
    requires !StrictChain(f, k)
    ensures j < k && !(f(j) < f(j + 1))
  {
    if StrictChain(f, k - 1) {
      j := k - 1;
    } else {
      j := FirstStall(f, k - 1);
    }
  }

  /** The closure is closed: its parents are already in it (the pigeonhole step). */
  lemma ClosureIsClosed(dir: Directory, now: int, start: set<nat>)
    ensures start <= Closure(dir, now, start)
    ensures Parents(dir, now, Closure(dir, now, start)) <= Closure(dir, now, start)
  {
    var n := |start + EdgeGroups(dir)|;
    var f := (i: nat) => Reach(dir, now, start, i);
    ReachBounds(dir, now, start, n + 1);
    ReachBounds(dir, now, start, n);
    if StrictChain(f, n + 1) {
      StrictChainGrows(f, n + 1);
      SubsetCardinality(f(n + 1), start + EdgeGroups(dir));
      assert false;
    }
    var j := FirstStall(f, n + 1);
    ReachMonotone(dir, now, start, j, j + 1);
    ReachStable(dir, now, start, j, n);
    ReachStable(dir, now, start, j, n + 1);
    var c := Reach(dir, now, start, n);
    assert Reach(dir, now, start, n + 1) == c + Parents(dir, now, c);
  }

  /** Every hop count stays inside any parent-closed set that contains the start. */
  lemma {:induction false} ReachWithin(dir: Directory, now: int, start: set<nat>, s: set<nat>, k: nat)
    requires start <= s && Parents(dir, now, s) <= s
    ensures Reach(dir, now, start, k) <= s
  {
    if k > 0 {
      ReachWithin(dir, now, start, s, k - 1);
      ParentsMonotone(dir, now, Reach(dir, now, start, k - 1), s);
    }
  }

  /** The closure is the least parent-closed set containing the start. */
  lemma ClosureIsLeast(dir: Directory, now: int, start: set<nat>, s: set<nat>)
    requires start <= s && Parents(dir, now, s) <= s
    ensures Closure(dir, now, start) <= s
  {
    ReachWithin(dir, now, start, s, |start + EdgeGroups(dir)|);
  }

  /** A followed group-typed edge into `g` whose member is in `groups`. */
  predicate Supported(dir: Directory, now: int, groups: set<nat>, g: nat)
  {
    exists e :: e in dir.edges && GroupHop(dir, now, groups, e) && e.groupId == g
  }

  lemma {:induction false} ReachSupported(dir: Directory, now: int, start: set<nat>, k: nat, g: nat)
    requires g in Reach(dir, now, start, k) && g !in start
    ensures Supported(dir, now, Reach(dir, now, start, k), g)
  {
    if k > 0 {
      var prev := Reach(dir, now, start, k - 1);
      assert Reach(dir, now, start, k) == prev + Parents(dir, now, prev);
      if g in prev {
        ReachSupported(dir, now, start, k - 1, g);
        var e :| e in dir.edges && GroupHop(dir, now, prev, e) && e.groupId == g;
        assert GroupHop(dir, now, Reach(dir, now, start, k), e);
      } else {
        var e :| e in dir.edges && GroupHop(dir, now, prev, e) && e.groupId == g;
        assert GroupHop(dir, now, Reach(dir, now, start, k), e);
      }
    }
  }

  /**
   * A group in the closure that is not a start group is there through a followed group-typed
   * edge whose member is itself in the closure.
   */
  lemma ClosureSupported(dir: Directory, now: int, start: set<nat>, g: nat)
    requires g in Closure(dir, now, start)
    ensures g in start || Supported(dir, now, Closure(dir, now, start), g)
  {
    if g !in start {
      ReachSupported(dir, now, start, |start + EdgeGroups(dir)|, g);
    }
  }

  /** The rows one permissions_map row contributes to the join with permissions. */
  function GrantsOfMap(dir: Directory, groups: set<nat>, m: PermissionMap): (r: seq<Grant>)
    ensures forall x :: x in r <==> m.groupId in groups && exists p :: p in dir.permissions && GrantOf(p, m) == Some(x)
  {
    if m.groupId in groups then
      Tables.Map(Tables.Filter(dir.permissions, (p: Permission) => p.id == m.permissionId),
                 (p: Permission) => Grant(p.name, m.argument))
    else []
  }

  /** The row the join of a permission with a permissions_map row yields, when their ids agree. */
  function GrantOf(p: Permission, m: PermissionMap): Option<Grant>
  {
    if p.id == m.permissionId then Some(Grant(p.name, m.argument)) else None
  }

  /** The `permission_grants_for_user` query over a set of groups, in grants-table order. */
  function GrantsOfGroups(dir: Directory, groups: set<nat>): (r: seq<Grant>)
    ensures forall x :: x in r <==>
      exists m, p :: m in dir.grants && m.groupId in groups && p in dir.permissions && GrantOf(p, m) == Some(x)
  {
    var r := Tables.FlatMap(dir.grants, (m: PermissionMap) => GrantsOfMap(dir, groups, m));
    assert forall x :: x in r <==> exists m :: m in dir.grants && x in GrantsOfMap(dir, groups, m);
    r
  }

  /** Users the walk does not run for: unknown, role users, service accounts, disabled. */
  predicate Excluded(u: Option<User>)
  {
    u.None? || u.value.roleUser || u.value.isServiceAccount || !u.value.enabled
  }

  /** What `permission_grants_for_user(name)` returns. */
  function ResolvedGrants(dir: Directory, name: string, now: int): (r: seq<Grant>)
    ensures Excluded(UserNamed(dir, name)) ==> r == []
    ensures !Excluded(UserNamed(dir, name)) && DirectGroups(dir, UserNamed(dir, name).value, now) == {} ==> r == []
  {
    var u := UserNamed(dir, name);
    if Excluded(u) then []
    else
      var direct := DirectGroups(dir, u.value, now);
      if direct == {} then [] else GrantsOfGroups(dir, Closure(dir, now, direct))
  }

  /**
   * The resolved grants are exactly those of the groups in the closure of the user's direct
   * groups, for a user the walk runs for.
   */
  lemma ResolvedGrantsMembers(dir: Directory, name: string, now: int, x: Grant)
    ensures x in ResolvedGrants(dir, name, now) <==>
      !Excluded(UserNamed(dir, name)) &&
      exists m, p :: m in dir.grants && p in dir.permissions && GrantOf(p, m) == Some(x) &&
        m.groupId in Closure(dir, now, DirectGroups(dir, UserNamed(dir, name).value, now))
  {
    var u := UserNamed(dir, name);
    if !Excluded(u) && DirectGroups(dir, u.value, now) == {} {
      assert Closure(dir, now, {}) == {} by {
        ClosureIsLeast(dir, now, {}, {});
      }
    }
  }

  /**
   * The resolved grants are one per joined row, not a set: the same permission and argument
   * granted through two grant rows to groups in the closure comes back twice.
   */
  lemma ResolvedGrantsKeepsDuplicates(dir: Directory, name: string, now: int, i: nat, j: nat, p: Permission, x: Grant)
    requires !Excluded(UserNamed(dir, name))
    requires i < j < |dir.grants| && p in dir.permissions
    requires GrantOf(p, dir.grants[i]) == Some(x) && GrantOf(p, dir.grants[j]) == Some(x)
    requires dir.grants[i].groupId in Closure(dir, now, DirectGroups(dir, UserNamed(dir, name).value, now))
    requires dir.grants[j].groupId in Closure(dir, now, DirectGroups(dir, UserNamed(dir, name).value, now))
    ensures multiset(ResolvedGrants(dir, name, now))[x] >= 2
  {
    var direct := DirectGroups(dir, UserNamed(dir, name).value, now);
    if direct == {} {
      ClosureIsLeast(dir, now, {}, {});
    }
    var groups := Closure(dir, now, direct);
    Tables.FlatMapKeepsBoth(dir.grants, (m: PermissionMap) => GrantsOfMap(dir, groups, m), i, j, x);
  }

  lemma ParentsWithinEdgeGroups(dir: Directory, now: int, children: set<nat>)
    ensures Parents(dir, now, children) <= EdgeGroups(dir)
  {
    forall g | g in Parents(dir, now, children) ensures g in EdgeGroups(dir) {
      var e :| e in dir.edges && GroupHop(dir, now, children, e) && e.groupId == g;
    }
  }

  /**
   * One round of the walk: when the parents of the already-expanded groups are known, the
   * parents of the frontier are all that the next hop adds.
   */
  lemma WalkStep(dir: Directory, now: int, seen: set<nat>, frontier: set<nat>)
    requires frontier <= seen
    requires Parents(dir, now, seen - frontier) <= seen
    ensures seen + Parents(dir, now, seen) == seen + Parents(dir, now, frontier)
  {
    ParentsMonotone(dir, now, frontier, seen);
    forall g | g in Parents(dir, now, seen) ensures g in seen + Parents(dir, now, frontier) {
      var e :| e in dir.edges && GroupHop(dir, now, seen, e) && e.groupId == g;
      if e.memberPk in frontier {
        assert GroupHop(dir, now, frontier, e);
      } else {
        assert GroupHop(dir, now, seen - frontier, e);
      }
    }
  }

  /**
   * `SQLPermissionGrantRepository.permission_grants_for_user`: walks parent edges breadth-first,
   * querying only the groups first seen in the previous round.
   */
  method PermissionGrantsForUser(dir: Directory, name: string, now: int) returns (r: seq<Grant>)
    ensures r == ResolvedGrants(dir, name, now)
  {
    var user := UserNamed(dir, name);
    if Excluded(user) {
      return [];
    }
    var groupIds := DirectGroups(dir, user.value, now);
    if groupIds == {} {
      return [];
    }
    ghost var start := groupIds;
    ghost var k: nat := 0;
    var seen := groupIds;
    while groupIds != {}
      invariant seen == Reach(dir, now, start, k)
      invariant groupIds <= seen
      invariant Parents(dir, now, seen - groupIds) <= seen
      decreases start + EdgeGroups(dir) - seen, groupIds
    {
      var parents := Parents(dir, now, groupIds);
      ReachBounds(dir, now, start, k);
      WalkStep(dir, now, seen, groupIds);
      ParentsWithinEdgeGroups(dir, now, groupIds);
      groupIds := parents - seen;
      seen := seen + groupIds;
      k := k + 1;
    }
    assert seen - groupIds == seen;
    ReachBounds(dir, now, start, k);
    ClosureIsClosed(dir, now, start);
    ReachWithin(dir, now, start, Closure(dir, now, start), k);
    ClosureIsLeast(dir, now, start, seen);
    assert seen == Closure(dir, now, start);
    return GrantsOfGroups(dir, seen);
  }

  /** `user_has_permission`: some resolved grant has the name; the argument plays no part. */
  method UserHasPermission(dir: Directory, user: string, permission: string, now: int) returns (b: bool)
    ensures b <==> exists x :: x in ResolvedGrants(dir, user, now) && x.name == permission
  {
    var grants := PermissionGrantsForUser(dir, user, now);
    b := AnyNamed(grants, permission);
  }

  /** The scan of `user_has_permission`: stops at the first grant with the name. */
  method AnyNamed(grants: seq<Grant>, permission: string) returns (b: bool)
    ensures b <==> exists x :: x in grants && x.name == permission
  {
    var i := 0;
    while i < |grants|
      invariant 0 <= i <= |grants|
      invariant forall j :: 0 <= j < i ==> grants[j].name != permission
    {
      if permission == grants[i].name {
        assert grants[i] in grants;
        return true;
      }
      i := i + 1;
    }
    return false;
  }

  /** GroupPermissionGrant: a grant of one permission to one group. */
  datatype GroupPermissionGrant = GroupPermissionGrant(groupName: string, permission: string, argument: Option<string>)

  /** ServiceAccountPermissionGrant: a grant of one permission to one service account. */
  datatype ServiceAccountPermissionGrant =
    ServiceAccountPermissionGrant(serviceAccount: string, permission: string, argument: Option<string>)

  /** A permission the listings report on: present and enabled. */
  predicate Listable(p: Option<Permission>)
  {
    p.Some? && p.value.enabled
  }

  /** The joined row of a grant of `p` and an enabled group it names. */
  function GroupRow(p: Permission, m: PermissionMap, g: Group): Option<GroupPermissionGrant>
  {
    if g.id == m.groupId && g.enabled then Some(GroupPermissionGrant(g.name, p.name, m.argument)) else None
  }

  /** The joined row of a service-account grant of `p`, its account and the account's enabled user. */
  function AccountRow(p: Permission, m: ServiceAccountPermissionMap, a: ServiceAccount, u: User): Option<ServiceAccountPermissionGrant>
  {
    if a.id == m.serviceAccountId && u.id == a.userId && u.enabled then
      Some(ServiceAccountPermissionGrant(u.name, p.name, m.argument))
    else None
  }

  /** The rows one permissions_map row of permission `p` contributes: one per enabled group it names. */
  function GroupRowsOfMap(dir: Directory, p: Permission, m: PermissionMap): (r: seq<GroupPermissionGrant>)
    ensures forall x :: x in r <==> m.permissionId == p.id && exists g :: g in dir.groups && GroupRow(p, m, g) == Some(x)
  {
    if m.permissionId == p.id then
      Tables.Map(Tables.Filter(dir.groups, (g: Group) => g.id == m.groupId && g.enabled),
                 (g: Group) => GroupPermissionGrant(g.name, p.name, m.argument))
    else []
  }

  /** The unordered join of `group_grants_for_permission`: one row per grant of `p` and enabled group it names. */
  function GroupJoin(dir: Directory, p: Permission): (r: seq<GroupPermissionGrant>)
    ensures forall x :: x in r <==> exists m :: m in dir.grants && x in GroupRowsOfMap(dir, p, m)
  {
    Tables.FlatMap(dir.grants, (m: PermissionMap) => GroupRowsOfMap(dir, p, m))
  }

  /**
   * `group_grants_for_permission`: the grants of the permission to enabled groups, ordered by
   * group name then argument (a NULL argument first).
   */
  function GroupGrantsForPermission(dir: Directory, name: string): (r: seq<GroupPermissionGrant>)
    ensures !Listable(PermissionNamed(dir, name)) ==> r == []
    ensures Listable(PermissionNamed(dir, name)) ==> forall x :: x in r <==>
      exists m :: m in dir.grants && x in GroupRowsOfMap(dir, PermissionNamed(dir, name).value, m)
    ensures Listable(PermissionNamed(dir, name)) ==> multiset(r) == multiset(GroupJoin(dir, PermissionNamed(dir, name).value))
    ensures SortedBy(r, ByKey((x: GroupPermissionGrant) => [Some(x.groupName), x.argument]))
  {
    var p := PermissionNamed(dir, name);
    if !Listable(p) then []
    else
      var rows := GroupJoin(dir, p.value);
      var key := (x: GroupPermissionGrant) => [Some(x.groupName), x.argument];
      ByKeyIsTotalPreorder(key);
      forall x ensures x in SortBy(rows, ByKey(key)) <==> x in rows {
        SortByMembers(rows, ByKey(key), x);
      }
      SortBy(rows, ByKey(key))
  }

  /** The rows one service-account grant contributes: one per enabled user behind the account. */
  function AccountRowsOfMap(dir: Directory, p: Permission, m: ServiceAccountPermissionMap): (r: seq<ServiceAccountPermissionGrant>)
    ensures forall x :: x in r <==>
      m.permissionId == p.id && exists a, u :: a in dir.serviceAccounts && u in dir.users && AccountRow(p, m, a, u) == Some(x)
  {
    if m.permissionId == p.id then
      var accounts := Tables.Filter(dir.serviceAccounts, (a: ServiceAccount) => a.id == m.serviceAccountId);
      var rows := Tables.FlatMap(accounts, (a: ServiceAccount) => AccountUserRows(dir, p, m, a));
      assert forall x :: x in rows <==> exists a :: a in accounts && x in AccountUserRows(dir, p, m, a);
      rows
    else []
  }

  function AccountUserRows(dir: Directory, p: Permission, m: ServiceAccountPermissionMap, a: ServiceAccount): (r: seq<ServiceAccountPermissionGrant>)
    ensures a.id == m.serviceAccountId ==> forall x :: x in r <==> exists u :: u in dir.users && AccountRow(p, m, a, u) == Some(x)
  {
    Tables.Map(Tables.Filter(dir.users, (u: User) => u.id == a.userId && u.enabled),
               (u: User) => ServiceAccountPermissionGrant(u.name, p.name, m.argument))
  }

  /**
   * The unordered join of `service_account_grants_for_permission`: one row per grant of `p`,
   * service account and enabled user behind it.
   */
  function AccountJoin(dir: Directory, p: Permission): (r: seq<ServiceAccountPermissionGrant>)
    ensures forall x :: x in r <==> exists m :: m in dir.serviceAccountGrants && x in AccountRowsOfMap(dir, p, m)
  {
    Tables.FlatMap(dir.serviceAccountGrants, (m: ServiceAccountPermissionMap) => AccountRowsOfMap(dir, p, m))
  }

  /**
   * `service_account_grants_for_permission`: the grants of the permission to service accounts
   * whose user is enabled, ordered by username then argument.
   */
  function ServiceAccountGrantsForPermission(dir: Directory, name: string): (r: seq<ServiceAccountPermissionGrant>)
    ensures !Listable(PermissionNamed(dir, name)) ==> r == []
    ensures Listable(PermissionNamed(dir, name)) ==> forall x :: x in r <==>
      exists m :: m in dir.serviceAccountGrants && x in AccountRowsOfMap(dir, PermissionNamed(dir, name).value, m)
    ensures Listable(PermissionNamed(dir, name)) ==> multiset(r) == multiset(AccountJoin(dir, PermissionNamed(dir, name).value))
    ensures SortedBy(r, ByKey((x: ServiceAccountPermissionGrant) => [Some(x.serviceAccount), x.argument]))
  {
    var p := PermissionNamed(dir, name);
    if !Listable(p) then []
    else
      var rows := AccountJoin(dir, p.value);
      var key := (x: ServiceAccountPermissionGrant) => [Some(x.serviceAccount), x.argument];
      ByKeyIsTotalPreorder(key);
      forall x ensures x in SortBy(rows, ByKey(key)) <==> x in rows {
        SortByMembers(rows, ByKey(key), x);
      }
      SortBy(rows, ByKey(key))
  }
}
