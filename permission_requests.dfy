/**
 * The permission request workflow (grouper/permissions.py, the stateful half): creating a
 * request, moving it between statuses, and listing the requests a user's groups can approve.
 *
 * The store holds the tables the workflow writes: permission requests, their status changes,
 * the comments attached to status changes, and the directory whose permissions_map table an
 * actioned request grants into.
 */
module PermissionRequests {
  import opened Wrappers
  import opened Schema
  import opened Ordering
  import Tables
  import ModelBase
  import opened Permissions

  /** REQUEST_STATUS_CHOICES. */
  datatype Status = Pending | Actioned | Cancelled

  datatype PermissionRequest = PermissionRequest(
    id: nat, requesterId: nat, groupId: nat, permissionId: nat, argument: string, status: Status, requestedAt: int)

  datatype StatusChange = StatusChange(
    id: nat, requestId: nat, userId: nat, fromStatus: Option<Status>, toStatus: Status, changeAt: int)

  datatype Comment = Comment(id: nat, objType: nat, objPk: nat, userId: nat, comment: string, createdOn: int)

  /** The exceptions of the workflow, and the failures of the owner computation it calls. */
  datatype RequestError =
    | RequestAlreadyGranted
    | RequestAlreadyExists
    | NoOwnersAvailable
    | UserNotAuditor
    | Raised(failure: Failure)

  /** `OBJ_TYPES_IDX.index("PermissionRequestStatusChange")`: the tag of comments on status changes. */
  const StatusChangeObjType: nat := 4

  lemma StatusChangeObjTypeIsItsIndex()
    ensures ModelBase.ObjTypesIdx[StatusChangeObjType] == "PermissionRequestStatusChange"
    ensures forall i :: 0 <= i < StatusChangeObjType ==> ModelBase.ObjTypesIdx[i] != "PermissionRequestStatusChange"
  {
    forall i | 0 <= i < StatusChangeObjType
      ensures ModelBase.ObjTypesIdx[i] != "PermissionRequestStatusChange"
    {
      assert |ModelBase.ObjTypesIdx[i]| != |"PermissionRequestStatusChange"|;
    }
  }

  /** The mail a step sends: to whom, and with which subject. */
  datatype Notification = Notification(recipients: set<string>, subject: string)

  /** What `Group.my_members()` lists for a group: (type, name) pairs. */
  type MembersOf = Group -> set<(string, string)>

  /** The group already has the permission with exactly this argument. */
  predicate AlreadyGranted(groupPermissions: seq<Grant>, name: string, argument: string)
  {
    exists g :: g in groupPermissions && g.name == name && g.argument == Some(argument)
  }

  /** A pending request of the group for the permission and argument exists. */
  predicate PendingExists(requests: seq<PermissionRequest>, groupId: nat, permissionId: nat, argument: string)
  {
    exists r :: r in requests && r.groupId == groupId && r.permissionId == permissionId && r.argument == argument && r.status == Pending
  }

  /** The owners that are mailed: those owning a pattern other than "*" if any, else all. */
  function MailOwners(ownerArgs: seq<(Group, string)>): seq<(Group, string)>
  {
    var nonWildcard := Tables.Filter(ownerArgs, (x: (Group, string)) => x.1 != "*");
    if |nonWildcard| > 0 then nonWildcard else ownerArgs
  }

  /**
   * The recipients of a new request: the user members of the mailed owners. When some owner
   * owns a pattern other than "*", owners of "*" alone get nothing.
   */
  function Recipients(ownerArgs: seq<(Group, string)>, membersOf: MembersOf): set<string>
  {
    set x, m | x in MailOwners(ownerArgs) && m in membersOf(x.0) && m.0 == "User" :: m.1
  }

  lemma RecipientsMembers(ownerArgs: seq<(Group, string)>, membersOf: MembersOf)
    ensures (exists x :: x in ownerArgs && x.1 != "*") ==>
      forall u :: u in Recipients(ownerArgs, membersOf) <==> exists x :: x in ownerArgs && x.1 != "*" && ("User", u) in membersOf(x.0)
    ensures (forall x :: x in ownerArgs ==> x.1 == "*") ==>
      forall u :: u in Recipients(ownerArgs, membersOf) <==> exists x :: x in ownerArgs && ("User", u) in membersOf(x.0)
  {
    var nonWildcard := Tables.Filter(ownerArgs, (x: (Group, string)) => x.1 != "*");
    if exists x :: x in ownerArgs && x.1 != "*" {
      var x :| x in ownerArgs && x.1 != "*";
      assert x in nonWildcard;
      assert MailOwners(ownerArgs) == nonWildcard;
    } else {
      Tables.FilterNone(ownerArgs, (x: (Group, string)) => x.1 != "*");
      assert MailOwners(ownerArgs) == ownerArgs;
    }
  }

  /** The rows of the permission with this id, as `request.permission` loads it. */
  function PermissionById(dir: Directory, id: nat): (r: Option<Permission>)
    ensures r.Some? ==> r.value in dir.permissions && r.value.id == id
    ensures r.None? ==> forall p :: p in dir.permissions ==> p.id != id
  {
    Tables.Find(dir.permissions, (p: Permission) => p.id == id)
  }

  /** The status the latest status change of request `id` moved it to. */
  function LastStatus(changes: seq<StatusChange>, id: nat): Option<Status>
  {
    if changes == [] then None
    else
      var k := |changes| - 1;
      if changes[k].requestId == id then Some(changes[k].toStatus) else LastStatus(changes[..k], id)
  }

  lemma LastStatusAppend(changes: seq<StatusChange>, c: StatusChange, id: nat)
    ensures LastStatus(changes + [c], id) == if c.requestId == id then Some(c.toStatus) else LastStatus(changes, id)
  {
    assert (changes + [c])[..|changes|] == changes;
  }

  /** `grant_permission` as the unique index uidx1 allows it: a grant the group already has stays single. */
  function WithGrant(grants: seq<PermissionMap>, permissionId: nat, groupId: nat, argument: string, now: int): (r: seq<PermissionMap>)
    ensures UniqueGrants(grants) ==> UniqueGrants(r)
    ensures exists m :: m in r && m.permissionId == permissionId && m.groupId == groupId && m.argument == Some(argument)
    ensures grants <= r && |r| <= |grants| + 1
  {
    if exists m :: m in grants && m.permissionId == permissionId && m.groupId == groupId && m.argument == Some(argument) then grants
    else
      var r := grants + [PermissionMap(permissionId, groupId, Some(argument), now)];
      assert r[|grants|] in r;
      r
  }

  /** The subject of the mail an update sends to the requester. */
  function UpdateSubject(newStatus: Status): string
  {
    if newStatus == Actioned then "Request for Permission Actioned" else "Request for Permission Cancelled"
  }

  /** What `update_request` did: nothing, or an update whose mail goes to the requester. */
  datatype UpdateOutcome = Unchanged | Updated(subject: string, requesterId: nat)

  /** `PermissionRequest.requested_at.desc()`: newest first. */
  function NewestFirst(): (le: (PermissionRequest, PermissionRequest) -> bool)
    ensures TotalPreorder(le)
    ensures forall a, b :: le(a, b) <==> a.requestedAt >= b.requestedAt
  {
    (a: PermissionRequest, b: PermissionRequest) => a.requestedAt >= b.requestedAt
  }

  /** The requests of the status asked for (all of them for none), newest first. */
  function Listed(requests: seq<PermissionRequest>, status: Option<Status>): (r: seq<PermissionRequest>)
    ensures forall x :: x in r <==> x in requests && (status.Some? ==> x.status == status.value)
    ensures SortedBy(r, NewestFirst())
    ensures forall x :: multiset(r)[x] == if status.None? || x.status == status.value then multiset(requests)[x] else 0
  {
    var selected := if status.Some? then Tables.Filter(requests, (x: PermissionRequest) => x.status == status.value) else requests;
    forall x ensures x in SortBy(selected, NewestFirst()) <==> x in selected {
      SortByMembers(selected, NewestFirst(), x);
    }
    forall x ensures multiset(selected)[x] == if status.None? || x.status == status.value then multiset(requests)[x] else 0 {
      if status.Some? {
        Tables.FilterCount(requests, (y: PermissionRequest) => y.status == status.value, x);
      }
    }
    SortBy(selected, NewestFirst())
  }

  /** One of the owner's groups owns a pattern the request's argument matches. */
  predicate OwnedBy(dir: Directory, owners: OwnersMap, ownerGroups: set<nat>, x: PermissionRequest)
  {
    var p := PermissionById(dir, x.permissionId);
    p.Some? && exists o :: o in OwnerArgs(Entries(owners, p.value.name), x.argument) && o.0.id in ownerGroups
  }

  /** The requests the owner can approve, in listing order. */
  function Owned(dir: Directory, owners: OwnersMap, ownerGroups: set<nat>, listed: seq<PermissionRequest>): seq<PermissionRequest>
  {
    Tables.Filter(listed, (x: PermissionRequest) => OwnedBy(dir, owners, ownerGroups, x))
  }

  /** Python's `s[start:stop]` for non-negative bounds: clamped to the list, empty when start >= stop. */
  function Slice<T>(s: seq<T>, start: nat, stop: nat): (r: seq<T>)
    ensures start <= stop ==> |r| <= stop - start
    ensures stop <= start ==> r == []
  {
    var lo := if start < |s| then start else |s|;
    var hi := if stop < |s| then stop else |s|;
    if lo <= hi then s[lo..hi] else []
  }

  /** The page as written: `requests[offset:limit]`, which reads `limit` as an end index. */
  function PageAsWritten<T>(s: seq<T>, limit: nat, offset: nat): seq<T>
  {
    Slice(s, offset, limit)
  }

  /** The page as documented: at most `limit` results, starting at `offset`. */
  function Page<T>(s: seq<T>, limit: nat, offset: nat): (r: seq<T>)
    ensures |r| == if offset >= |s| then 0 else if |s| - offset < limit then |s| - offset else limit
    ensures |r| <= limit
    ensures offset + limit <= |s| ==> |r| == limit
    ensures forall i :: 0 <= i < |r| ==> offset + i < |s| && r[i] == s[offset + i]
  {
    Slice(s, offset, offset + limit)
  }

  /** Consecutive pages cover the list: the next page starts where this one ends. */
  lemma PagesAreConsecutive<T>(s: seq<T>, limit: nat, offset: nat)
    ensures Page(s, limit, offset) + Page(s, limit, offset + limit) == Page(s, 2 * limit, offset)
  {
    var lo := if offset < |s| then offset else |s|;
    var mid := if offset + limit < |s| then offset + limit else |s|;
    var hi := if offset + 2 * limit < |s| then offset + 2 * limit else |s|;
    assert s[lo..mid] + s[mid..hi] == s[lo..hi];
  }

  /** The first page is right as written: the slice's end index is then the page size. */
  lemma PageAsWrittenFirstPage<T>(s: seq<T>, limit: nat)
    ensures PageAsWritten(s, limit, 0) == Page(s, limit, 0)
  {
  }

  /** The second page of three requests at one per page: as written it is empty instead of the second request. */
  lemma PageAsWrittenLosesPages<T>(a: T, b: T, c: T)
    ensures PageAsWritten([a, b, c], 1, 1) == []
    ensures Page([a, b, c], 1, 1) == [b]
  {
  }

  /** A filter keeps the order of what it keeps. */
  lemma {:induction false} FilterKeepsOrder<T(!new)>(s: seq<T>, p: T -> bool, le: (T, T) -> bool)
    requires SortedBy(s, le)
    ensures SortedBy(Tables.Filter(s, p), le)
  {
    if s != [] {
      var k := |s| - 1;
      var front := s[..k];
      var x := s[k];
      assert s == front + [x];
      FilterKeepsOrder(front, p, le);
      Tables.FilterSnoc(front, x, p);
      var f := Tables.Filter(front, p);
      if p(x) {
        var r := f + [x];
        forall i, j | 0 <= i < j < |r|
          ensures le(r[i], r[j])
        {
          if j == |f| {
            assert r[i] == f[i] && r[j] == x;
            assert f[i] in f;
            assert f[i] in front;
            var m :| 0 <= m < k && front[m] == f[i];
            assert s[m] == f[i] && s[k] == x;
          } else {
            assert r[i] == f[i] && r[j] == f[j];
          }
        }
      }
    }
  }

  /**
   * Every request on a page can be approved by one of the owner's groups and has the status
   * asked for; the page holds at most `limit` of them, newest first.
   */
  lemma OwnerPageIsOwnedNewestFirst(
    dir: Directory, owners: OwnersMap, ownerGroups: set<nat>, requests: seq<PermissionRequest>, status: Option<Status>, limit: nat, offset: nat)
    ensures var page := Page(Owned(dir, owners, ownerGroups, Listed(requests, status)), limit, offset);
      |page| <= limit && SortedBy(page, NewestFirst()) &&
      forall x :: x in page ==> x in requests && OwnedBy(dir, owners, ownerGroups, x) && (status.Some? ==> x.status == status.value)
  {
    var listed := Listed(requests, status);
    var owned := Owned(dir, owners, ownerGroups, listed);
    FilterKeepsOrder(listed, (x: PermissionRequest) => OwnedBy(dir, owners, ownerGroups, x), NewestFirst());
    var page := Page(owned, limit, offset);
    forall x | x in page
      ensures x in owned
    {
      var i :| 0 <= i < |page| && page[i] == x;
    }
  }

  /** The request ids the status changes name. */
  function RequestIds(changes: seq<StatusChange>): set<nat>
  {
    set c | c in changes :: c.requestId
  }

  /** The ids of the status changes. */
  function ChangeIds(changes: seq<StatusChange>): set<nat>
  {
    set c | c in changes :: c.id
  }

  /** The ids of the requests on a page. */
  function RequestIdsOf(page: seq<PermissionRequest>): set<nat>
  {
    set x | x in page :: x.id
  }

  /** The status changes grouped by request id, each group in table order. */
  function ChangesByRequest(changes: seq<StatusChange>): map<nat, seq<StatusChange>>
  {
    map id | id in RequestIds(changes) :: Tables.Filter(changes, (c: StatusChange) => c.requestId == id)
  }

  lemma RequestIdsSnoc(changes: seq<StatusChange>, c: StatusChange)
    ensures RequestIds(changes + [c]) == RequestIds(changes) + {c.requestId}
  {
    assert forall x :: x in changes + [c] <==> x in changes || x == c;
  }

  /** Adding a status change appends it to the group of its request, creating the group if needed. */
  lemma ChangesByRequestSnoc(changes: seq<StatusChange>, c: StatusChange)
    ensures ChangesByRequest(changes + [c]) ==
      ChangesByRequest(changes)[c.requestId := (if c.requestId in ChangesByRequest(changes) then ChangesByRequest(changes)[c.requestId] else []) + [c]]
  {
    var s := changes + [c];
    var before := ChangesByRequest(changes);
    var after := ChangesByRequest(s);
    var expected := before[c.requestId := (if c.requestId in before then before[c.requestId] else []) + [c]];
    RequestIdsSnoc(changes, c);
    assert after.Keys == expected.Keys;
    forall id | id in after.Keys
      ensures after[id] == expected[id]
    {
      GroupSnoc(changes, c, id);
    }
  }

  /** The group of one request id after one more status change. */
  lemma GroupSnoc(changes: seq<StatusChange>, c: StatusChange, id: nat)
    requires id in RequestIds(changes + [c])
    ensures ChangesByRequest(changes + [c])[id] ==
      (if id in ChangesByRequest(changes) then ChangesByRequest(changes)[id] else []) + (if c.requestId == id then [c] else [])
  {
    var p := (x: StatusChange) => x.requestId == id;
    Tables.FilterSnoc(changes, c, p);
    if id !in RequestIds(changes) {
      Tables.FilterNone(changes, p);
    }
  }

  /** The status changes of the requests on a page, in table order. */
  function PageChanges(statusChanges: seq<StatusChange>, page: seq<PermissionRequest>): (r: seq<StatusChange>)
    ensures forall c :: c in r <==> c in statusChanges && exists x :: x in page && x.id == c.requestId
  {
    Tables.Filter(statusChanges, (c: StatusChange) => c.requestId in RequestIdsOf(page))
  }

  /** A comment made on the status change `id`. */
  predicate Tagged(c: Comment, id: nat)
  {
    c.objType == StatusChangeObjType && c.objPk == id
  }

  /** `{c.obj_pk: c for c in comments}` over the comments on the given status changes: the last one wins. */
  function CommentsByChange(comments: seq<Comment>, changeIds: set<nat>): (m: map<nat, Comment>)
    ensures m.Keys <= changeIds
  {
    if comments == [] then map[]
    else
      var k := |comments| - 1;
      var c := comments[k];
      var front := CommentsByChange(comments[..k], changeIds);
      if c.objType == StatusChangeObjType && c.objPk in changeIds then front[c.objPk := c] else front
  }

  /**
   * A selected status change has an entry exactly when some comment is on it, and the entry
   * is the last comment on it in table order.
   */
  lemma {:induction false} CommentsByChangeLast(comments: seq<Comment>, changeIds: set<nat>, id: nat)
    ensures id in CommentsByChange(comments, changeIds) <==> id in changeIds && exists c :: c in comments && Tagged(c, id)
    ensures id in CommentsByChange(comments, changeIds) ==>
      var m := CommentsByChange(comments, changeIds);
      Tagged(m[id], id) &&
      exists j :: 0 <= j < |comments| && comments[j] == m[id] && forall k :: j < k < |comments| ==> !Tagged(comments[k], id)
  {
    if comments != [] {
      var k := |comments| - 1;
      var c := comments[k];
      var front := comments[..k];
      CommentsByChangeLast(front, changeIds, id);
      assert comments == front + [c];
      assert forall x :: x in comments <==> x in front || x == c;
      var m := CommentsByChange(comments, changeIds);
      if Tagged(c, id) && id in changeIds {
        assert m[id] == comments[k];
      } else if id in m {
        var fm := CommentsByChange(front, changeIds);
        assert m[id] == fm[id];
        var j :| 0 <= j < |front| && front[j] == fm[id] && forall i :: j < i < |front| ==> !Tagged(front[i], id);
        assert comments[j] == front[j];
        assert forall i :: j < i < |comments| ==> !Tagged(comments[i], id);
      }
    }
  }

  /** What `get_requests_by_owner` returns: the page, the status changes and comments of its requests, and the total. */
  datatype RequestsPage = RequestsPage(
    requests: seq<PermissionRequest>,
    statusChangeByRequestId: map<nat, seq<StatusChange>>,
    commentByStatusChangeId: map<nat, Comment>,
    total: nat)

  class RequestStore {
    var dir: Directory
    var requests: seq<PermissionRequest>
    var statusChanges: seq<StatusChange>
    var comments: seq<Comment>

    /**
     * Ids are row positions; every status change names a request and every status-change
     * comment a status change; every request names a permission; a request's status is the
     * one its latest status change moved it to; the unique index on grants holds.
     */
    predicate Valid()
      reads this
    {
      UniqueGrants(dir.grants) &&
      (forall i :: 0 <= i < |requests| ==> requests[i].id == i) &&
      (forall i :: 0 <= i < |requests| ==> PermissionById(dir, requests[i].permissionId).Some?) &&
      (forall i :: 0 <= i < |requests| ==> LastStatus(statusChanges, i) == Some(requests[i].status)) &&
      (forall i :: 0 <= i < |statusChanges| ==> statusChanges[i].id == i && statusChanges[i].requestId < |requests|) &&
      (forall i :: 0 <= i < |comments| ==> comments[i].id == i) &&
      (forall i :: 0 <= i < |comments| && comments[i].objType == StatusChangeObjType ==> comments[i].objPk < |statusChanges|)
    }

    constructor (dir: Directory)
      requires UniqueGrants(dir.grants)
      ensures Valid()
      ensures this.dir == dir && requests == [] && statusChanges == [] && comments == []
    {
      this.dir := dir;
      requests := [];
      statusChanges := [];
      comments := [];
    }

    /**
     * `create_request`: refuses a pair the group already has, then a duplicate pending request,
     * then (after any failure of the owner computation) a pair nobody owns, each time before
     * adding anything; otherwise adds a pending request, its first status change and the
     * reason, all stamped `now`, and mails the owners' user members.
     */
    method CreateRequest(
      userId: nat, group: Group, permission: Permission, argument: string, reason: string,
      groupPermissions: seq<Grant>, plugins: seq<PluginOwners>, membersOf: MembersOf, now: int)
      returns (r: Result<Notification, RequestError>)
      requires Valid() && permission in dir.permissions
      modifies this
      ensures Valid()
      ensures r == Err(RequestAlreadyGranted) <==> AlreadyGranted(groupPermissions, permission.name, argument)
      ensures r == Err(RequestAlreadyExists) <==>
        !AlreadyGranted(groupPermissions, permission.name, argument) &&
        PendingExists(old(requests), group.id, permission.id, argument)
      ensures r.Err? && r.error.Raised? <==>
        !AlreadyGranted(groupPermissions, permission.name, argument) &&
        !PendingExists(old(requests), group.id, permission.id, argument) &&
        ExpectedOwners(old(dir), plugins).Err?
      ensures r == Err(NoOwnersAvailable) <==>
        !AlreadyGranted(groupPermissions, permission.name, argument) &&
        !PendingExists(old(requests), group.id, permission.id, argument) &&
        ExpectedOwners(old(dir), plugins).Ok? &&
        OwnerArgs(Entries(ExpectedOwners(old(dir), plugins).value, permission.name), argument) == []
      ensures r.Ok? <==>
        !AlreadyGranted(groupPermissions, permission.name, argument) &&
        !PendingExists(old(requests), group.id, permission.id, argument) &&
        ExpectedOwners(old(dir), plugins).Ok? &&
        OwnerArgs(Entries(ExpectedOwners(old(dir), plugins).value, permission.name), argument) != []
      ensures r.Err? ==>
        requests == old(requests) && statusChanges == old(statusChanges) && comments == old(comments) && dir == old(dir)
      ensures r.Ok? ==>
        var ownerArgs := OwnerArgs(Entries(ExpectedOwners(old(dir), plugins).value, permission.name), argument);
        var requestId := |old(requests)|;
        var changeId := |old(statusChanges)|;
        r.value == Notification(Recipients(ownerArgs, membersOf), "Request for permission: " + permission.name) &&
        requests == old(requests) + [PermissionRequest(requestId, userId, group.id, permission.id, argument, Pending, now)] &&
        statusChanges == old(statusChanges) + [StatusChange(changeId, requestId, userId, None, Pending, now)] &&
        comments == old(comments) + [Comment(|old(comments)|, StatusChangeObjType, changeId, userId, reason, now)] &&
        dir == old(dir)
    {
      if exists g :: g in groupPermissions && g.name == permission.name && g.argument == Some(argument) {
        return Err(RequestAlreadyGranted);
      }
      if exists x :: x in requests && x.groupId == group.id && x.permissionId == permission.id && x.argument == argument && x.status == Pending {
        return Err(RequestAlreadyExists);
      }
      var owners := OwnersByGrantablePermission(dir, plugins);
      if owners.Err? {
        return Err(Raised(owners.error));
      }
      var ownerArgList := GetOwnerArgList(owners.value, permission, argument);
      if ownerArgList == [] {
        return Err(NoOwnersAvailable);
      }
      AddPending(userId, group.id, permission, argument, reason, now);
      return Ok(Notification(Recipients(ownerArgList, membersOf), "Request for permission: " + permission.name));
    }

    /** The three rows of a new request. */
    method AddPending(userId: nat, groupId: nat, permission: Permission, argument: string, reason: string, now: int)
      requires Valid() && permission in dir.permissions
      modifies this
      ensures Valid()
      ensures requests == old(requests) + [PermissionRequest(|old(requests)|, userId, groupId, permission.id, argument, Pending, now)]
      ensures statusChanges == old(statusChanges) + [StatusChange(|old(statusChanges)|, |old(requests)|, userId, None, Pending, now)]
      ensures comments == old(comments) + [Comment(|old(comments)|, StatusChangeObjType, |old(statusChanges)|, userId, reason, now)]
      ensures dir == old(dir)
    {
      var requestId := |requests|;
      var changeId := |statusChanges|;
      var change := StatusChange(changeId, requestId, userId, None, Pending, now);
      forall i | 0 <= i < requestId + 1
        ensures LastStatus(statusChanges + [change], i) == if i == requestId then Some(Pending) else LastStatus(statusChanges, i)
      {
        LastStatusAppend(statusChanges, change, i);
      }
      requests := requests + [PermissionRequest(requestId, userId, groupId, permission.id, argument, Pending, now)];
      statusChanges := statusChanges + [change];
      comments := comments + [Comment(|comments|, StatusChangeObjType, changeId, userId, reason, now)];
    }

    /**
     * `update_request`: nothing happens when the status does not change; an audited permission
     * is not actioned unless the group's controllers are auditors; otherwise the change and the
     * comment are added, the status is set, an actioned request is granted, and the requester
     * is mailed "Actioned" or "Cancelled".
     */
    method UpdateRequest(id: nat, userId: nat, newStatus: Status, comment: string, controllersAreAuditors: bool, now: int)
      returns (r: Result<UpdateOutcome, RequestError>)
      requires Valid() && id < |requests|
      modifies this
      ensures Valid()
      ensures r == Ok(Unchanged) <==> old(requests[id].status) == newStatus
      ensures r == Err(UserNotAuditor) <==>
        old(requests[id].status) != newStatus && newStatus == Actioned &&
        old(PermissionById(dir, requests[id].permissionId).value.audited) && !controllersAreAuditors
      ensures r.Err? ==> r == Err(UserNotAuditor)
      ensures !r.Ok? || r.value == Unchanged ==>
        requests == old(requests) && statusChanges == old(statusChanges) && comments == old(comments) && dir == old(dir)
      ensures r.Ok? && r.value != Unchanged ==>
        var before := old(requests[id]);
        var changeId := |old(statusChanges)|;
        r.value == Updated(UpdateSubject(newStatus), before.requesterId) &&
        requests == old(requests)[id := before.(status := newStatus)] &&
        statusChanges == old(statusChanges) + [StatusChange(changeId, id, userId, Some(before.status), newStatus, now)] &&
        comments == old(comments) + [Comment(|old(comments)|, StatusChangeObjType, changeId, userId, comment, now)] &&
        dir == if newStatus == Actioned
               then old(dir).(grants := WithGrant(old(dir.grants), before.permissionId, before.groupId, before.argument, now))
               else old(dir)
    {
      var request := requests[id];
      if request.status == newStatus {
        return Ok(Unchanged);
      }
      if newStatus == Actioned {
        var permission := PermissionById(dir, request.permissionId).value;
        if permission.audited && !controllersAreAuditors {
          return Err(UserNotAuditor);
        }
      }
      var changeId := |statusChanges|;
      var change := StatusChange(changeId, id, userId, Some(request.status), newStatus, now);
      forall i | 0 <= i < |requests|
        ensures LastStatus(statusChanges + [change], i) == if i == id then Some(newStatus) else LastStatus(statusChanges, i)
      {
        LastStatusAppend(statusChanges, change, i);
      }
      statusChanges := statusChanges + [change];
      comments := comments + [Comment(|comments|, StatusChangeObjType, changeId, userId, comment, now)];
      requests := requests[id := request.(status := newStatus)];
      if newStatus == Actioned {
        dir := dir.(grants := WithGrant(dir.grants, request.permissionId, request.groupId, request.argument, now));
      }
      return Ok(Updated(UpdateSubject(newStatus), request.requesterId));
    }

    /**
     * `get_requests_by_owner`: the requests (of the given status, if any) that a group of the
     * owner can approve, newest first; the total of them; one page of them, with the status
     * changes and comments of the page's requests.
     */
    method GetRequestsByOwner(ownerGroups: set<nat>, status: Option<Status>, limit: nat, offset: nat, plugins: seq<PluginOwners>)
      returns (r: Result<RequestsPage, Failure>)
      requires Valid()
      ensures r.Err? <==> ExpectedOwners(dir, plugins).Err?
      ensures r.Ok? ==>
        var owned := Owned(dir, ExpectedOwners(dir, plugins).value, ownerGroups, Listed(requests, status));
        r.value.total == |owned| && r.value.requests == Page(owned, limit, offset)
      ensures r.Ok? ==>
        var changes := PageChanges(statusChanges, r.value.requests);
        r.value.statusChangeByRequestId == ChangesByRequest(changes) &&
        r.value.commentByStatusChangeId == (if r.value.requests == [] then map[] else CommentsByChange(comments, ChangeIds(changes)))
    {
      var allRequests := Listed(requests, status);
      var owners := OwnersByGrantablePermission(dir, plugins);
      if owners.Err? {
        return Err(owners.error);
      }
      forall x | x in allRequests
        ensures PermissionById(dir, x.permissionId).Some?
      {
        var i :| 0 <= i < |requests| && requests[i] == x;
      }
      var selected := SelectOwned(allRequests, owners.value, ownerGroups);
      var result := PageOf(selected, limit, offset, statusChanges, comments);
      return Ok(result);
    }

    /** The tail of `get_requests_by_owner`: the total, the page, and its status changes and comments. */
    static method PageOf(selected: seq<PermissionRequest>, limit: nat, offset: nat, statusChanges: seq<StatusChange>, comments: seq<Comment>)
      returns (r: RequestsPage)
      ensures r.total == |selected| && r.requests == Page(selected, limit, offset)
      ensures var changes := PageChanges(statusChanges, r.requests);
        r.statusChangeByRequestId == ChangesByRequest(changes) &&
        r.commentByStatusChangeId == (if r.requests == [] then map[] else CommentsByChange(comments, ChangeIds(changes)))
    {
      var page := Page(selected, limit, offset);
      var changes := PageChanges(statusChanges, page);
      var changesByRequest := GroupByRequest(changes);
      var commentByChange: map<nat, Comment> := map[];
      if page != [] {
        commentByChange := CommentsByChange(comments, ChangeIds(changes));
      }
      return RequestsPage(page, changesByRequest, commentByChange, |selected|);
    }

    /** The loop of `get_requests_by_owner` grouping the page's status changes by request. */
    static method GroupByRequest(changes: seq<StatusChange>) returns (m: map<nat, seq<StatusChange>>)
      ensures m == ChangesByRequest(changes)
    {
      m := map[];
      var i := 0;
      while i < |changes|
        invariant 0 <= i <= |changes|
        invariant m == ChangesByRequest(changes[..i])
      {
        var c := changes[i];
        assert changes[..i + 1] == changes[..i] + [c];
        ChangesByRequestSnoc(changes[..i], c);
        var group := if c.requestId in m then m[c.requestId] else [];
        m := m[c.requestId := group + [c]];
        i := i + 1;
      }
      assert changes[..i] == changes;
    }

    /** The loop of `get_requests_by_owner` keeping the requests an owner group can approve. */
    method SelectOwned(listed: seq<PermissionRequest>, owners: OwnersMap, ownerGroups: set<nat>) returns (selected: seq<PermissionRequest>)
      requires forall x :: x in listed ==> PermissionById(dir, x.permissionId).Some?
      ensures selected == Owned(dir, owners, ownerGroups, listed)
    {
      selected := [];
      var i := 0;
      while i < |listed|
        invariant 0 <= i <= |listed|
        invariant selected == Owned(dir, owners, ownerGroups, listed[..i])
      {
        var x := listed[i];
        assert listed[..i + 1] == listed[..i] + [x];
        var permission := PermissionById(dir, x.permissionId).value;
        var ownerArgList := GetOwnerArgList(owners, permission, x.argument);
        if exists o :: o in ownerArgList && o.0.id in ownerGroups {
          selected := selected + [x];
        }
        i := i + 1;
      }
      assert listed[..i] == listed;
    }
  }
}
