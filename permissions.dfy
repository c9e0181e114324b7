/**
 * Grant delegation and ownership (grouper/permissions.py, the pure half): expanding
 * PERMISSION_GRANT grants into grantable (permission, argument) pairs, the map from permission
 * and argument pattern to owning groups, matching a requested argument against that map, and
 * the reduction of argument lists.
 */
module Permissions {
  import opened Wrappers
  import opened Schema
  import opened Ordering
  import opened Glob
  import Tables
  import PermissionGrants

  /** The exceptions the loops below raise: a failed assert, and `None.split`. */
  datatype Failure = AssertionError | AttributeError

  /** `argument.split('/', 1)`: the text before the first '/', and the text after it if any. */
  function SplitGrantArgument(arg: string): (r: (string, Option<string>))
    ensures '/' !in r.0
    ensures r.1.None? <==> '/' !in arg
    ensures r.1.None? ==> r.0 == arg
    ensures r.1.Some? ==> arg == r.0 + "/" + r.1.value
  {
    if arg == [] then ("", None)
    else if arg[0] == '/' then ("", Some(arg[1..]))
    else
      var rest := SplitGrantArgument(arg[1..]);
      assert arg == [arg[0]] + arg[1..];
      ([arg[0]] + rest.0, rest.1)
  }

  /** Splitting a glob with no '/' joined to any text by '/' gives both back. */
  lemma {:induction false} SplitGrantArgumentInverts(glob: string, rest: string)
    requires '/' !in glob
    ensures SplitGrantArgument(glob + "/" + rest) == (glob, Some(rest))
  {
    var arg := glob + "/" + rest;
    if glob != [] {
      assert arg[0] == glob[0] && arg[1..] == glob[1..] + "/" + rest;
      assert '/' !in glob[1..];
      SplitGrantArgumentInverts(glob[1..], rest);
      assert glob == [glob[0]] + glob[1..];
    } else {
      assert arg[0] == '/' && arg[1..] == rest;
    }
  }

  /** The argument a grant delegates: the text after the '/', or "*" when there is none. */
  function DelegatedArgument(after: Option<string>): string
  {
    if after.Some? then after.value else "*"
  }

  /** The pairs one PERMISSION_GRANT argument expands to, in the order of `perms`. */
  function ExpandGrant(arg: string, perms: seq<Permission>): seq<(Permission, string)>
  {
    var (glob, after) := SplitGrantArgument(arg);
    Tables.Map(Tables.Filter(perms, (p: Permission) => Matches(glob, p.name)),
               (p: Permission) => (p, DelegatedArgument(after)))
  }

  /** A grant covers the permissions its glob matches, each with the delegated argument. */
  lemma ExpandGrantMembers(arg: string, perms: seq<Permission>, x: (Permission, string))
    ensures x in ExpandGrant(arg, perms) <==>
      x.0 in perms && Matches(SplitGrantArgument(arg).0, x.0.name) && x.1 == DelegatedArgument(SplitGrantArgument(arg).1)
  {
  }

  /** Why a grant handed to `filter_grantable_permissions` makes it raise, if it does. */
  function GrantFailure(g: Grant): Option<Failure>
  {
    if g.name != PermissionGrant then Some(AssertionError)
    else if g.argument.None? then Some(AttributeError)
    else None
  }

  /** The unsorted result of the loop: the expansions of the grants in order, or the first failure. */
  function Expansion(grants: seq<Grant>, perms: seq<Permission>): Result<seq<(Permission, string)>, Failure>
  {
    if grants == [] then Ok([])
    else
      var k := |grants| - 1;
      var front := Expansion(grants[..k], perms);
      if front.Err? then front
      else if GrantFailure(grants[k]).Some? then Err(GrantFailure(grants[k]).value)
      else Ok(front.value + ExpandGrant(grants[k].argument.value, perms))
  }

  /** Grant `i` fails and no grant before it does. */
  predicate FirstFailure(grants: seq<Grant>, i: int)
  {
    0 <= i < |grants| && GrantFailure(grants[i]).Some? && forall j :: 0 <= j < i ==> GrantFailure(grants[j]).None?
  }

  /**
   * The expansion fails exactly when some grant is not a PERMISSION_GRANT or has no argument,
   * and then with the failure of the first such grant.
   */
  lemma {:induction false} ExpansionFails(grants: seq<Grant>, perms: seq<Permission>)
    ensures Expansion(grants, perms).Err? <==> exists g :: g in grants && GrantFailure(g).Some?
    ensures Expansion(grants, perms).Err? ==>
      exists i :: FirstFailure(grants, i) && GrantFailure(grants[i]) == Some(Expansion(grants, perms).error)
  {
    if grants != [] {
      var k := |grants| - 1;
      assert grants == grants[..k] + [grants[k]];
      ExpansionFails(grants[..k], perms);
      if Expansion(grants[..k], perms).Err? {
        var i :| FirstFailure(grants[..k], i) && GrantFailure(grants[..k][i]) == Some(Expansion(grants[..k], perms).error);
        assert grants[i] == grants[..k][i];
        assert forall j :: 0 <= j < i ==> grants[j] == grants[..k][j];
        assert FirstFailure(grants, i);
      } else if GrantFailure(grants[k]).Some? {
        assert forall j :: 0 <= j < k ==> grants[j] in grants[..k];
        assert FirstFailure(grants, k);
      }
    }
  }

  /** Without a failure, the expansion holds the pairs of every grant. */
  lemma {:induction false} ExpansionMembers(grants: seq<Grant>, perms: seq<Permission>, x: (Permission, string))
    requires Expansion(grants, perms).Ok?
    ensures x in Expansion(grants, perms).value <==>
      exists g :: g in grants && g.argument.Some? && x in ExpandGrant(g.argument.value, perms)
  {
    if grants != [] {
      var k := |grants| - 1;
      assert grants == grants[..k] + [grants[k]];
      ExpansionMembers(grants[..k], perms, x);
    }
  }

  /** `key=lambda x: x[0].name + x[1]`: one string, not the (name, argument) pair. */
  function GrantableKey(x: (Permission, string)): Key
  {
    [Some(x.0.name + x.1)]
  }

  /** What `filter_grantable_permissions` returns: the expansion sorted by the concatenated key. */
  function Grantable(grants: seq<Grant>, perms: seq<Permission>): (r: Result<seq<(Permission, string)>, Failure>)
    ensures r.Err? <==> Expansion(grants, perms).Err?
    ensures r.Ok? ==> multiset(r.value) == multiset(Expansion(grants, perms).value)
    ensures r.Ok? ==> SortedBy(r.value, ByKey(GrantableKey))
  {
    match Expansion(grants, perms)
    case Err(e) => Err(e)
    case Ok(xs) =>
      ByKeyIsTotalPreorder(GrantableKey);
      Ok(SortBy(xs, ByKey(GrantableKey)))
  }

  /**
   * A pair is grantable exactly when some grant's text before its first '/' glob-matches the
   * permission's name and the pair's argument is the text after that '/', or "*".
   */
  lemma GrantableMembers(grants: seq<Grant>, perms: seq<Permission>, x: (Permission, string))
    requires Grantable(grants, perms).Ok?
    ensures x in Grantable(grants, perms).value <==>
      exists g :: g in grants && g.argument.Some? && x.0 in perms &&
        Matches(SplitGrantArgument(g.argument.value).0, x.0.name) &&
        x.1 == DelegatedArgument(SplitGrantArgument(g.argument.value).1)
  {
    var r := Grantable(grants, perms).value;
    var xs := Expansion(grants, perms).value;
    assert x in r <==> x in multiset(r);
    assert x in xs <==> x in multiset(xs);
    ExpansionMembers(grants, perms, x);
    forall g | g in grants && g.argument.Some? {
      ExpandGrantMembers(g.argument.value, perms, x);
    }
  }

  /** `filter_grantable_permissions`; every grant must be a PERMISSION_GRANT with an argument. */
  method FilterGrantablePermissions(grants: seq<Grant>, allPermissions: seq<Permission>)
    returns (r: Result<seq<(Permission, string)>, Failure>)
    ensures r == Grantable(grants, allPermissions)
  {
    var result: seq<(Permission, string)> := [];
    var i := 0;
    while i < |grants|
      invariant 0 <= i <= |grants|
      invariant Expansion(grants[..i], allPermissions) == Ok(result)
    {
      var grant := grants[i];
      ExpansionStep(grants, allPermissions, i);
      if grant.name != PermissionGrant {
        PrefixFailure(grants, allPermissions, i + 1);
        return Err(AssertionError);
      }
      if grant.argument.None? {
        PrefixFailure(grants, allPermissions, i + 1);
        return Err(AttributeError);
      }
      result := AppendExpansion(result, grant.argument.value, allPermissions);
      i := i + 1;
    }
    assert grants[..i] == grants;
    ByKeyIsTotalPreorder(GrantableKey);
    return Ok(SortBy(result, ByKey(GrantableKey)));
  }

  /** The inner loop of `filter_grantable_permissions`: appends the pairs one grant covers. */
  method AppendExpansion(result: seq<(Permission, string)>, arg: string, allPermissions: seq<Permission>)
    returns (r: seq<(Permission, string)>)
    ensures r == result + ExpandGrant(arg, allPermissions)
  {
    var (glob, after) := SplitGrantArgument(arg);
    r := result;
    var j := 0;
    while j < |allPermissions|
      invariant 0 <= j <= |allPermissions|
      invariant r == result + ExpandGrant(arg, allPermissions[..j])
    {
      ExpandGrantSnoc(arg, allPermissions, j);
      if Matches(glob, allPermissions[j].name) {
        r := r + [(allPermissions[j], DelegatedArgument(after))];
      }
      j := j + 1;
    }
    assert allPermissions[..j] == allPermissions;
  }

  lemma ExpansionStep(grants: seq<Grant>, perms: seq<Permission>, i: nat)
    requires i < |grants| && Expansion(grants[..i], perms).Ok?
    ensures Expansion(grants[..i + 1], perms) ==
      if GrantFailure(grants[i]).Some? then Err(GrantFailure(grants[i]).value)
      else Ok(Expansion(grants[..i], perms).value + ExpandGrant(grants[i].argument.value, perms))
  {
    assert grants[..i + 1][..i] == grants[..i];
  }

  lemma ExpandGrantSnoc(arg: string, perms: seq<Permission>, j: nat)
    requires j < |perms|
    ensures ExpandGrant(arg, perms[..j + 1]) ==
      ExpandGrant(arg, perms[..j]) + (if Matches(SplitGrantArgument(arg).0, perms[j].name)
                                      then [(perms[j], DelegatedArgument(SplitGrantArgument(arg).1))] else [])
  {
    var s := perms[..j + 1];
    assert s[..|s| - 1] == perms[..j];
  }

  /** A failure in the first `n` grants is the failure of the whole expansion. */
  lemma {:induction false} PrefixFailure(grants: seq<Grant>, perms: seq<Permission>, n: nat)
    requires n <= |grants|
    requires Expansion(grants[..n], perms).Err?
    ensures Expansion(grants, perms) == Expansion(grants[..n], perms)
    decreases |grants| - n
  {
    if n < |grants| {
      assert grants[..n + 1][..n] == grants[..n];
      PrefixFailure(grants, perms, n + 1);
    } else {
      assert grants[..n] == grants;
    }
  }

  /** One permission's argument patterns with their owner groups, in insertion order. */
  type OwnerEntries = seq<(string, seq<Group>)>

  /** `owners_by_arg_by_perm`: permission name to argument pattern to owner groups. */
  type OwnersMap = map<string, OwnerEntries>

  /** The owners listed under `arg`, or none. */
  function Owners(entries: OwnerEntries, arg: string): seq<Group>
  {
    if entries == [] then []
    else if entries[0].0 == arg then entries[0].1
    else Owners(entries[1..], arg)
  }

  /** The argument patterns present. */
  function ArgKeys(entries: OwnerEntries): set<string>
  {
    set e | e in entries :: e.0
  }

  /** A dict has each key once. */
  predicate DistinctArgs(entries: OwnerEntries)
  {
    forall i, j :: 0 <= i < j < |entries| ==> entries[i].0 != entries[j].0
  }

  /**
   * `d[arg] += groups` on a `defaultdict(list)`: extends the list under `arg`, creating it at
   * the end when `arg` is new (even when `groups` is empty).
   */
  function AppendOwners(entries: OwnerEntries, arg: string, groups: seq<Group>): OwnerEntries
  {
    if entries == [] then [(arg, groups)]
    else if entries[0].0 == arg then [(arg, entries[0].1 + groups)] + entries[1..]
    else [entries[0]] + AppendOwners(entries[1..], arg, groups)
  }

  /** The append extends the list under `arg` and leaves every other list as it was. */
  lemma {:induction false} AppendOwnersView(entries: OwnerEntries, arg: string, groups: seq<Group>, a: string)
    ensures Owners(AppendOwners(entries, arg, groups), a) == Owners(entries, a) + (if a == arg then groups else [])
  {
    if entries != [] && entries[0].0 != arg {
      AppendOwnersView(entries[1..], arg, groups, a);
    }
  }

  /** The append adds `arg` to the keys, keeps the others, and keeps each key once. */
  lemma {:induction false} AppendOwnersKeys(entries: OwnerEntries, arg: string, groups: seq<Group>)
    ensures ArgKeys(AppendOwners(entries, arg, groups)) == ArgKeys(entries) + {arg}
    ensures DistinctArgs(entries) ==> DistinctArgs(AppendOwners(entries, arg, groups))
  {
    if entries != [] {
      assert entries == [entries[0]] + entries[1..];
      assert ArgKeys(entries) == {entries[0].0} + ArgKeys(entries[1..]);
      if entries[0].0 != arg {
        AppendOwnersKeys(entries[1..], arg, groups);
        var r := AppendOwners(entries, arg, groups);
        assert r == [entries[0]] + AppendOwners(entries[1..], arg, groups);
        assert ArgKeys(r) == {entries[0].0} + ArgKeys(AppendOwners(entries[1..], arg, groups));
        if DistinctArgs(entries) {
          assert entries[0].0 !in ArgKeys(entries[1..]) by {
            forall e | e in entries[1..] ensures e.0 != entries[0].0 {
              var j :| 0 <= j < |entries[1..]| && entries[1..][j] == e;
              assert entries[j + 1] == e;
            }
          }
          forall i, j | 0 <= i < j < |r| ensures r[i].0 != r[j].0 {
            if i == 0 {
              assert r[j] in AppendOwners(entries[1..], arg, groups);
            }
          }
        }
      } else {
        var r := AppendOwners(entries, arg, groups);
        assert ArgKeys(r) == {arg} + ArgKeys(entries[1..]) by {
          assert r == [(arg, entries[0].1 + groups)] + entries[1..];
        }
      }
    }
  }

  function Entries(m: OwnersMap, perm: string): OwnerEntries
  {
    if perm in m then m[perm] else []
  }

  /** `owners_by_arg_by_perm[perm][arg]`. */
  function OwnersOf(m: OwnersMap, perm: string, arg: string): seq<Group>
  {
    Owners(Entries(m, perm), arg)
  }

  /** One append into the map: `owners_by_arg_by_perm[perm][arg] += owners`. */
  datatype Contribution = Contribution(perm: string, arg: string, owners: seq<Group>)

  function Add(m: OwnersMap, c: Contribution): OwnersMap
  {
    m[c.perm := AppendOwners(Entries(m, c.perm), c.arg, c.owners)]
  }

  /** The appends in order. */
  function AddAll(m: OwnersMap, cs: seq<Contribution>): OwnersMap
  {
    if cs == [] then m else Add(AddAll(m, cs[..|cs| - 1]), cs[|cs| - 1])
  }

  /** The owners the appends of `cs` put under (`perm`, `arg`), in order. */
  function Contributed(cs: seq<Contribution>, perm: string, arg: string): seq<Group>
  {
    if cs == [] then []
    else
      var c := cs[|cs| - 1];
      Contributed(cs[..|cs| - 1], perm, arg) + (if c.perm == perm && c.arg == arg then c.owners else [])
  }

  /** Appends only ever extend a list: what was there stays in front, in order. */
  lemma {:induction false} AddAllOwners(m: OwnersMap, cs: seq<Contribution>, perm: string, arg: string)
    ensures OwnersOf(AddAll(m, cs), perm, arg) == OwnersOf(m, perm, arg) + Contributed(cs, perm, arg)
  {
    if cs != [] {
      var k := |cs| - 1;
      var c := cs[k];
      var before := AddAll(m, cs[..k]);
      AddAllOwners(m, cs[..k], perm, arg);
      assert AddAll(m, cs) == Add(before, c);
      assert Contributed(cs, perm, arg) ==
        Contributed(cs[..k], perm, arg) + (if c.perm == perm && c.arg == arg then c.owners else []);
      if c.perm == perm {
        assert Entries(Add(before, c), perm) == AppendOwners(Entries(before, perm), c.arg, c.owners);
        AppendOwnersView(Entries(before, perm), c.arg, c.owners, arg);
      } else {
        assert Entries(Add(before, c), perm) == Entries(before, perm);
      }
    }
  }

  /** A permission or argument is a key exactly when it was there or some append named it. */
  lemma {:induction false} AddAllKeys(m: OwnersMap, cs: seq<Contribution>, perm: string, arg: string)
    ensures perm in AddAll(m, cs) <==> perm in m || exists c :: c in cs && c.perm == perm
    ensures arg in ArgKeys(Entries(AddAll(m, cs), perm)) <==>
      arg in ArgKeys(Entries(m, perm)) || exists c :: c in cs && c.perm == perm && c.arg == arg
  {
    if cs != [] {
      var k := |cs| - 1;
      assert cs == cs[..k] + [cs[k]];
      AddAllKeys(m, cs[..k], perm, arg);
      AppendOwnersKeys(Entries(AddAll(m, cs[..k]), cs[k].perm), cs[k].arg, cs[k].owners);
    }
  }

  lemma {:induction false} AddAllConcat(m: OwnersMap, a: seq<Contribution>, b: seq<Contribution>)
    ensures AddAll(m, a + b) == AddAll(AddAll(m, a), b)
  {
    if b != [] {
      var k := |b| - 1;
      assert (a + b)[..|a + b| - 1] == a + b[..k];
      assert (a + b)[|a + b| - 1] == b[k];
      AddAllConcat(m, a, b[..k]);
      calc {
        AddAll(m, a + b);
        Add(AddAll(m, a + b[..k]), b[k]);
        Add(AddAll(AddAll(m, a), b[..k]), b[k]);
        AddAll(AddAll(m, a), b);
      }
    } else {
      assert a + b == a;
    }
  }

  lemma {:induction false} ContributedHas(cs: seq<Contribution>, i: nat, g: Group)
    requires i < |cs| && g in cs[i].owners
    ensures g in Contributed(cs, cs[i].perm, cs[i].arg)
  {
    var k := |cs| - 1;
    if i < k {
      assert cs[..k][i] == cs[i];
      ContributedHas(cs[..k], i, g);
    }
  }

  /** The rows of the `group_permissions` query for one group. */
  function GroupPermissions(dir: Directory, group: Group): seq<Grant>
  {
    PermissionGrants.GrantsOfGroups(dir, {group.id})
  }

  /** `any(filter(lambda g: g.name == PERMISSION_ADMIN, group_permissions))`. */
  predicate HoldsPermissionAdmin(dir: Directory, group: Group)
  {
    exists x :: x in GroupPermissions(dir, group) && x.name == PermissionAdmin
  }

  /** The appends of a PERMISSION_ADMIN group: "*" of every permission, in permission order. */
  function AdminContributions(dir: Directory, group: Group): seq<Contribution>
  {
    Tables.Map(dir.permissions, (p: Permission) => Contribution(p.name, "*", [group]))
  }

  /** The appends one enabled group makes. */
  function GroupContributions(dir: Directory, group: Group): Result<seq<Contribution>, Failure>
  {
    if HoldsPermissionAdmin(dir, group) then Ok(AdminContributions(dir, group))
    else
      var grants := Tables.Filter(GroupPermissions(dir, group), (x: Grant) => x.name == PermissionGrant);
      match Grantable(grants, dir.permissions)
      case Err(e) => Err(e)
      case Ok(pairs) => Ok(Tables.Map(pairs, (x: (Permission, string)) => Contribution(x.0.name, x.1, [group])))
  }

  /** The appends of the groups in order, or the failure of the first group that fails. */
  function CoreContributions(dir: Directory, groups: seq<Group>): Result<seq<Contribution>, Failure>
  {
    Tables.Concatenated(groups, (g: Group) => GroupContributions(dir, g))
  }

  /** `session.query(Group).filter(Group.enabled == True)`. */
  function EnabledGroups(dir: Directory): seq<Group>
  {
    Tables.Filter(dir.groups, (g: Group) => g.enabled)
  }

  /** What one plugin's `get_owner_by_arg_by_perm` returns, with its dict order made explicit. */
  type PluginOwners = seq<(string, OwnerEntries)>

  /** The appends the plugin merge makes, plugin by plugin, permission by permission. */
  function PluginContributions(plugins: seq<PluginOwners>): seq<Contribution>
  {
    Tables.FlatMap(plugins, (res: PluginOwners) =>
      Tables.FlatMap(res, (pe: (string, OwnerEntries)) =>
        Tables.Map(pe.1, (ae: (string, seq<Group>)) => Contribution(pe.0, ae.0, ae.1))))
  }

  /** What `get_owners_by_grantable_permission` returns: core appends, then plugin appends. */
  function ExpectedOwners(dir: Directory, plugins: seq<PluginOwners>): Result<OwnersMap, Failure>
  {
    match CoreContributions(dir, EnabledGroups(dir))
    case Err(e) => Err(e)
    case Ok(cs) => Ok(AddAll(map[], cs + PluginContributions(plugins)))
  }

  /** The appends of `cs` into `owners`, one at a time. */
  method AddContributions(owners: OwnersMap, cs: seq<Contribution>) returns (r: OwnersMap)
    ensures r == AddAll(owners, cs)
  {
    r := owners;
    var i := 0;
    while i < |cs|
      invariant 0 <= i <= |cs|
      invariant r == AddAll(owners, cs[..i])
    {
      assert cs[..i + 1][..i] == cs[..i];
      var c := cs[i];
      r := r[c.perm := AppendOwners(Entries(r, c.perm), c.arg, c.owners)];
      i := i + 1;
    }
    assert cs[..i] == cs;
  }

  /** The loop body of `get_owners_by_grantable_permission` for one group. */
  method ContributionsOfGroup(dir: Directory, group: Group) returns (r: Result<seq<Contribution>, Failure>)
    ensures r == GroupContributions(dir, group)
  {
    var groupPermissions := GroupPermissions(dir, group);
    if exists x :: x in groupPermissions && x.name == PermissionAdmin {
      return Ok(AdminContributions(dir, group));
    }
    var grants := Tables.Filter(groupPermissions, (x: Grant) => x.name == PermissionGrant);
    var grantable := FilterGrantablePermissions(grants, dir.permissions);
    if grantable.Err? {
      return Err(grantable.error);
    }
    return Ok(Tables.Map(grantable.value, (x: (Permission, string)) => Contribution(x.0.name, x.1, [group])));
  }

  /**
   * `get_owners_by_grantable_permission`: for each enabled group, a PERMISSION_ADMIN holder owns
   * "*" of every permission and otherwise its PERMISSION_GRANT grants are expanded; the plugin
   * owner lists are appended afterwards.
   */
  method OwnersByGrantablePermission(dir: Directory, plugins: seq<PluginOwners>) returns (r: Result<OwnersMap, Failure>)
    ensures r == ExpectedOwners(dir, plugins)
  {
    var allGroups := EnabledGroups(dir);
    var owners: OwnersMap := map[];
    var i := 0;
    while i < |allGroups|
      invariant 0 <= i <= |allGroups|
      invariant CoreContributions(dir, allGroups[..i]).Ok?
      invariant owners == AddAll(map[], CoreContributions(dir, allGroups[..i]).value)
    {
      Tables.ConcatenatedStep(allGroups, (g: Group) => GroupContributions(dir, g), i);
      var contributions := ContributionsOfGroup(dir, allGroups[i]);
      if contributions.Err? {
        Tables.ConcatenatedFailureStays(allGroups, (g: Group) => GroupContributions(dir, g), i + 1);
        return Err(contributions.error);
      }
      AddAllConcat(map[], CoreContributions(dir, allGroups[..i]).value, contributions.value);
      owners := AddContributions(owners, contributions.value);
      i := i + 1;
    }
    assert allGroups[..i] == allGroups;
    AddAllConcat(map[], CoreContributions(dir, allGroups).value, PluginContributions(plugins));
    owners := AddContributions(owners, PluginContributions(plugins));
    return Ok(owners);
  }

  lemma ExpectedOwnersValue(dir: Directory, plugins: seq<PluginOwners>)
    requires ExpectedOwners(dir, plugins).Ok?
    ensures CoreContributions(dir, EnabledGroups(dir)).Ok?
    ensures ExpectedOwners(dir, plugins).value ==
      AddAll(map[], CoreContributions(dir, EnabledGroups(dir)).value + PluginContributions(plugins))
  {
  }

  /** Plugin owners are appended after the core owners and never replace them. */
  lemma PluginOwnersAppended(dir: Directory, plugins: seq<PluginOwners>, perm: string, arg: string)
    requires ExpectedOwners(dir, plugins).Ok?
    ensures OwnersOf(ExpectedOwners(dir, plugins).value, perm, arg) ==
      OwnersOf(AddAll(map[], CoreContributions(dir, EnabledGroups(dir)).value), perm, arg) +
      Contributed(PluginContributions(plugins), perm, arg)
  {
    var cs := CoreContributions(dir, EnabledGroups(dir)).value;
    AddAllConcat(map[], cs, PluginContributions(plugins));
    AddAllOwners(AddAll(map[], cs), PluginContributions(plugins), perm, arg);
  }

  /** Every enabled group's appends are among the core appends, contiguous and in order. */
  lemma CoreHasGroup(dir: Directory, group: Group) returns (pre: seq<Contribution>)
    requires CoreContributions(dir, EnabledGroups(dir)).Ok?
    requires group in dir.groups && group.enabled
    ensures GroupContributions(dir, group).Ok?
    ensures pre + GroupContributions(dir, group).value <= CoreContributions(dir, EnabledGroups(dir)).value
  {
    var groups := EnabledGroups(dir);
    var i :| 0 <= i < |groups| && groups[i] == group;
    pre := Tables.ConcatenatedHas(groups, (g: Group) => GroupContributions(dir, g), i);
  }

  /** An enabled PERMISSION_ADMIN group's "*" append for `p` is among the core appends. */
  lemma CoreHasAdmin(dir: Directory, group: Group, p: Permission) returns (n: nat)
    requires CoreContributions(dir, EnabledGroups(dir)).Ok?
    requires group in dir.groups && group.enabled && HoldsPermissionAdmin(dir, group)
    requires p in dir.permissions
    ensures n < |CoreContributions(dir, EnabledGroups(dir)).value|
    ensures CoreContributions(dir, EnabledGroups(dir)).value[n] == Contribution(p.name, "*", [group])
  {
    var pre := CoreHasGroup(dir, group);
    var cs := CoreContributions(dir, EnabledGroups(dir)).value;
    var own := AdminContributions(dir, group);
    assert GroupContributions(dir, group) == Ok(own);
    var j :| 0 <= j < |dir.permissions| && dir.permissions[j] == p;
    assert own[j] == Contribution(p.name, "*", [group]);
    Tables.PrefixIndex(pre, own, cs, j);
    n := |pre| + j;
  }

  /** Whatever an append contributes ends up under its permission and argument. */
  lemma AddAllHas(m: OwnersMap, cs: seq<Contribution>, n: nat, g: Group)
    requires n < |cs| && g in cs[n].owners
    ensures g in OwnersOf(AddAll(m, cs), cs[n].perm, cs[n].arg)
  {
    ContributedHas(cs, n, g);
    AddAllOwners(m, cs, cs[n].perm, cs[n].arg);
  }

  /** An enabled group holding PERMISSION_ADMIN owns "*" of every permission. */
  lemma AdminOwnsEverything(dir: Directory, plugins: seq<PluginOwners>, group: Group, p: Permission)
    requires ExpectedOwners(dir, plugins).Ok?
    requires group in dir.groups && group.enabled && HoldsPermissionAdmin(dir, group)
    requires p in dir.permissions
    ensures group in OwnersOf(ExpectedOwners(dir, plugins).value, p.name, "*")
  {
    ExpectedOwnersValue(dir, plugins);
    var cs := CoreContributions(dir, EnabledGroups(dir)).value;
    var n := CoreHasAdmin(dir, group, p);
    var all := cs + PluginContributions(plugins);
    assert all[n] == cs[n];
    AddAllHas(map[], all, n, group);
  }

  /** The (owner, pattern) pairs of the patterns the requested argument matches, in entry order. */
  function OwnerArgs(entries: OwnerEntries, argument: string): seq<(Group, string)>
  {
    if entries == [] then []
    else
      var k := |entries| - 1;
      var (pattern, owners) := entries[k];
      OwnerArgs(entries[..k], argument) +
        (if Matches(pattern, argument) then Tables.Map(owners, (o: Group) => (o, pattern)) else [])
  }

  /** A pair is returned exactly when its pattern matches and it lists the owner. */
  lemma {:induction false} OwnerArgsMembers(entries: OwnerEntries, argument: string, x: (Group, string))
    ensures x in OwnerArgs(entries, argument) <==>
      Matches(x.1, argument) && exists e :: e in entries && e.0 == x.1 && x.0 in e.1
  {
    if entries != [] {
      var k := |entries| - 1;
      assert entries == entries[..k] + [entries[k]];
      OwnerArgsMembers(entries[..k], argument, x);
    }
  }

  /** `get_owner_arg_list`: the owners, with the pattern they own, whose pattern matches. */
  method GetOwnerArgList(owners: OwnersMap, permission: Permission, argument: string) returns (r: seq<(Group, string)>)
    ensures r == OwnerArgs(Entries(owners, permission.name), argument)
  {
    var ownersByArg := Entries(owners, permission.name);
    r := [];
    var i := 0;
    while i < |ownersByArg|
      invariant 0 <= i <= |ownersByArg|
      invariant r == OwnerArgs(ownersByArg[..i], argument)
    {
      assert ownersByArg[..i + 1][..i] == ownersByArg[..i];
      var (arg, os) := ownersByArg[i];
      if Matches(arg, argument) {
        r := r + Tables.Map(os, (o: Group) => (o, arg));
      }
      i := i + 1;
    }
    assert ownersByArg[..i] == ownersByArg;
  }

  /**
   * With "*" owned by one group and "foo" by another, a request for "foo" goes to both and a
   * request for "bar" only to the "*" owner.
   */
  lemma OwnerArgsExample(a: Group, b: Group)
    ensures OwnerArgs([("*", [a]), ("foo", [b])], "foo") == [(a, "*"), (b, "foo")]
    ensures OwnerArgs([("*", [a]), ("foo", [b])], "bar") == [(a, "*")]
  {
    StarMatchesAnything("foo");
    StarMatchesAnything("bar");
    MatchesItself("foo");
    assert !Matches("foo", "bar");
    var entries: OwnerEntries := [("*", [a]), ("foo", [b])];
    var first: OwnerEntries := [("*", [a])];
    assert entries[..1] == first;
    assert first[..0] == [];
    var aStar := Tables.Map([a], (o: Group) => (o, "*"));
    var bFoo := Tables.Map([b], (o: Group) => (o, "foo"));
    assert aStar == [(a, "*")];
    assert bFoo == [(b, "foo")];
    assert OwnerArgs(first, "foo") == aStar;
    assert OwnerArgs(first, "bar") == aStar;
    assert OwnerArgs(entries, "foo") == OwnerArgs(first, "foo") + bFoo;
    assert OwnerArgs(entries, "bar") == OwnerArgs(first, "bar") + [];
  }

  /** `_reduce_args`: the arguments offered for a permission, least permissive first. */
  function ReduceArgs(permName: string, args: seq<string>, restricted: seq<string>): (r: seq<string>)
    ensures StrictlySorted(r)
    ensures "*" in r ==> r == ["*"]
    ensures r == ["*"] <==> "*" in args && !(permName in restricted && exists a :: a in args && a != "*")
    ensures r != ["*"] ==> forall a :: a in r <==> a in args && a != "*"
  {
    var nonWildcardArgs := Tables.Map(args, (a: string) => a != "*");
    if |restricted| > 0 && permName in restricted && true in nonWildcardArgs then
      SortedSet(Tables.Filter(args, (a: string) => a != "*"))
    else if false !in nonWildcardArgs then
      SortedSet(args)
    else
      ["*"]
  }

  /**
   * `get_grantable_permissions`: every permission that has owners, with its reduced argument
   * list.
   */
  method GetGrantablePermissions(dir: Directory, plugins: seq<PluginOwners>, restricted: seq<string>)
    returns (r: Result<map<string, seq<string>>, Failure>)
    ensures r.Ok? <==> ExpectedOwners(dir, plugins).Ok?
    ensures r.Ok? ==> forall p :: p in r.value <==> p in ExpectedOwners(dir, plugins).value
    ensures r.Ok? ==> forall p :: p in r.value ==>
      r.value[p] == ReduceArgs(p, Tables.Map(ExpectedOwners(dir, plugins).value[p], (e: (string, seq<Group>)) => e.0), restricted)
  {
    var owners := OwnersByGrantablePermission(dir, plugins);
    if owners.Err? {
      return Err(owners.error);
    }
    var m := owners.value;
    return Ok(map p | p in m :: ReduceArgs(p, Tables.Map(m[p], (e: (string, seq<Group>)) => e.0), restricted));
  }
}
