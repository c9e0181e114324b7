# Grouper permission grants and requests, in Dafny

This project models the core of Grouper's permission system and proves properties of the model. Grouper is a group-membership and permission-management service. The model covers:

- **Grant delegation.** A group holding `grouper.permission.grant` with argument `"<permGlob>/<argGlob>"` may grant every permission whose name matches `permGlob`, with the arguments `argGlob` allows.
- **Ownership.** This is the map from permission and argument pattern to the groups that may approve requests. A group holding `grouper.admin.permissions` owns `*` of every permission, and plugin owners are appended after the core owners.
- **The request workflow.** Creating a permission request, moving it between pending, actioned and cancelled, and listing the requests a user's groups can approve.
- **Effective permissions.**
  - The repository's breadth-first walk from a user's direct groups up through parent groups.
  - The user model's direct-membership view (`has_permission`, `my_permissions`).
- **The user model's rules.** Roles, `can_manage`, metadata upsert, creatable and grantable permissions, enable and disable.
- **Small tables.**
  - The role encoding of group edges.
  - The polymorphic object-type tags.
  - `get`/`get_or_create`.
  - The expiration-notification keys and queue.

The database is replaced by in-memory tables. A `Schema.Directory` holds the read-only tables: users, groups, group edges, permissions, grants, service accounts and their grants. The tables that the workflow and the models write are fields of classes:

- `PermissionRequests.RequestStore`
- `Users.UserAccount`
- `AsyncNotifications.NotificationQueue`
- `ModelBase.ModelTable`

Timestamps are integers, and "now" is always a parameter. The unique index `uidx1` on (permission_id, group_id, argument) is a table invariant (`Schema.UniqueGrants`). Every operation that adds grants keeps it.

The modules are:

- **`Wrappers`:** `Option` and `Result`.
- **`Ordering`:** code-point string order (Python's `<` on strings, and the collation assumed for SQL), `NULL`-first tuple keys, a sort and its proofs.
- **`Glob`:** `fnmatch` with `*`, `?` and literals.
- **`Tables`:** find, filter, map and flat-map over tables, and a concatenation that stops at the first failure.
- **`Schema`:** the record types and the constants of `grouper.constants`.
- **`GroupEdges`:** the role encoding.
- **`ModelBase`:** the object-type tags, `get` and `get_or_create`.
- **`AsyncNotifications`:** expiration keys and the notification queue.
- **`PermissionGrants`:** the permission-grant repository.
- **`Permissions`:** grant expansion, ownership and argument reduction.
- **`PermissionRequests`:** the request workflow.
- **`Users`:** the user model.

## Model

| member | source | states |
|---|---|---|
| Permissions.SplitGrantArgument | grouper/permissions.py:55-57 | The part before the first `/` holds no `/`. Without a `/`, the whole argument is the permission glob. Otherwise the argument is `glob + "/" + rest`. |
| Permissions.SplitGrantArgumentInverts | grouper/permissions.py:55-57 | Splitting `glob + "/" + rest` gives back `(glob, rest)` when `glob` has no `/`. |
| Permissions.ExpandGrantMembers | grouper/permissions.py:55-61 | One grant argument yields `(P, a)` exactly when P is a known permission whose name matches the glob before the first `/`, and `a` is the text after it, or `*` when there is none. |
| Permissions.ExpansionFails | grouper/permissions.py:52-55 | The expansion fails exactly when some grant is not a PERMISSION_GRANT (AssertionError) or has a NULL argument (AttributeError). It then fails with the failure of the first such grant. |
| Permissions.ExpansionMembers | grouper/permissions.py:52-61 | Without a failure, the expansion holds exactly the pairs that some grant's argument yields. |
| Permissions.Grantable | grouper/permissions.py:33-63 | The result fails exactly when the expansion does. Otherwise it is a permutation of the expansion, so duplicates are kept, and it is sorted by the single string `name + argument`. |
| Permissions.GrantableMembers | grouper/permissions.py:33-63 | A sorted result holds exactly the pairs some grant's argument yields. |
| Permissions.FilterGrantablePermissions | grouper/permissions.py:33-63 | The loop over grants and permissions returns exactly `Grantable`, including its first failure. |
| Permissions.OwnersByGrantablePermission | grouper/permissions.py:66-115 | The nested-defaultdict loop returns exactly the owners map `ExpectedOwners`: core contributions of the enabled groups, then plugin contributions. It fails when a non-admin group's grant expansion fails. |
| Permissions.ContributionsOfGroup | grouper/permissions.py:96-108 | A PERMISSION_ADMIN group contributes `*` for every permission, and its grants are not consulted. Any other group contributes its grantable pairs. |
| Permissions.AdminOwnsEverything | grouper/permissions.py:97-101 | An enabled group holding PERMISSION_ADMIN is among the owners of `*` of every known permission. |
| Permissions.PluginOwnersAppended | grouper/permissions.py:110-113 | For every permission and argument, the owners are the core owners followed by the plugins' owners. Plugins never replace core owners. |
| Permissions.AddAllOwners | grouper/permissions.py:104-113 | Adding contributions to the map appends, for each (permission, argument), exactly the contributed groups in order. |
| Permissions.AddAllKeys | grouper/permissions.py:104-113 | A permission or argument key is present after adding exactly when it was present or some contribution names it. |
| Permissions.ReduceArgs | grouper/permissions.py:139-149 | The result is strictly sorted, so it holds distinct values. It is `["*"]` exactly when `*` is among the arguments and the permission is not restricted with a specific argument. Otherwise it is exactly the non-`*` arguments. |
| Permissions.GetGrantablePermissions | grouper/permissions.py:118-150 | The result has a key for every permission of the owners map, each holding the reduced list of its argument patterns. It fails when the owners map does. |
| Permissions.OwnerArgsMembers | grouper/permissions.py:170-176 | `(owner, pattern)` is listed exactly when the permission's entry for `pattern` lists `owner` and the requested argument matches `pattern`. |
| Permissions.GetOwnerArgList | grouper/permissions.py:153-176 | The loop returns exactly `OwnerArgs` of the permission's entries, which is empty for a permission with no entries. |
| Permissions.OwnerArgsExample | grouper/permissions.py:170-176 | Owners of `*` are listed for every argument, and owners of `foo` only for `foo`. |
| PermissionRequests.StatusChangeObjTypeIsItsIndex | grouper/permissions.py:260-262 | The comment tag 4 is the first position of `PermissionRequestStatusChange` in OBJ_TYPES_IDX. |
| PermissionRequests.RecipientsMembers | grouper/permissions.py:281-291 | If some owner holds a non-`*` pattern, the recipients are exactly the user members of those owners. Otherwise they are the user members of all owners. |
| PermissionRequests.RequestStore.CreateRequest | grouper/permissions.py:200-293 | The errors come in order: RequestAlreadyGranted, then RequestAlreadyExists, then a failure of the owner computation, then NoOwnersAvailable. Each is an if-and-only-if, and none changes a table. The request succeeds exactly when none of them applies. On success the store gains exactly one pending request, one None→pending status change and one reason comment on that change, all stamped `now`. The mail goes to `Recipients` with subject `Request for permission: <name>`. The store invariant is kept. |
| PermissionRequests.RequestStore.AddPending | grouper/permissions.py:238-263 | It appends the three rows of a new request with consecutive ids and links, and keeps the invariant. |
| PermissionRequests.RequestStore.UpdateRequest | grouper/permissions.py:382-459 | The result is `Unchanged`, with nothing changed, exactly when the status is unchanged. Actioning an audited permission whose group's controllers are not auditors raises UserNotAuditor and changes nothing. Otherwise it appends an old→new status change and a comment, sets the status, and grants only on `actioned`. The subject is "Actioned" for `actioned` and "Cancelled" otherwise. The invariant, including the unique grant index and "status = last status change", is kept. |
| PermissionRequests.WithGrant | grouper/models/permission_map.py:23-26 | After granting, the group holds the (permission, argument) pair, earlier rows are kept, at most one row is added, and the unique index still holds. |
| PermissionRequests.LastStatusAppend | grouper/permissions.py:405-421 | A new status change becomes its request's latest. Other requests' latest changes are untouched. |
| PermissionRequests.Listed | grouper/permissions.py:331-335 | It holds exactly the requests of the given status (all of them for none), sorted newest first. Each such request appears as many times as in the table, and no other request appears. |
| PermissionRequests.RequestStore.SelectOwned | grouper/permissions.py:339-344 | The loop keeps exactly the requests whose owner list shares a group with the owner's groups, in listing order. |
| PermissionRequests.RequestStore.GetRequestsByOwner | grouper/permissions.py:313-366 | The total counts every approvable request. The page is `Page` of them. Status changes are grouped per page request, and comments are keyed by status change (`{}` for an empty page). It fails when the owners map does. |
| PermissionRequests.OwnerPageIsOwnedNewestFirst | grouper/permissions.py:329-348 | Every request on a page has the status asked for and an owner among the user's groups. The page holds at most `limit` of them, newest first. |
| PermissionRequests.RequestStore.GroupByRequest | grouper/permissions.py:357-358 | The defaultdict loop builds exactly `ChangesByRequest`: one group per request id, each in table order. |
| PermissionRequests.ChangesByRequestSnoc | grouper/permissions.py:357-358 | One more status change is appended to its own request's group, which is created if absent. |
| PermissionRequests.CommentsByChangeLast | grouper/permissions.py:360-364 | Keys are exactly the selected status-change ids that have a comment. Each value is the last such comment in table order. |
| PermissionRequests.PageChanges | grouper/permissions.py:354-356 | It holds exactly the status changes of the requests on the page. |
| PermissionRequests.Page | grouper/permissions.py:320-321 | A page has exactly `limit` requests when that many remain after `offset`, exactly the rest when fewer remain, and none when `offset` is past the end. It is always the contiguous run starting at `offset`. |
| PermissionRequests.PagesAreConsecutive | grouper/permissions.py:320-321 | Two consecutive pages of size `limit` make up the page of size `2 * limit`. |
| PermissionRequests.PageAsWrittenFirstPage | grouper/permissions.py:348 | The slice as written agrees with the documented page when `offset` is 0. |
| PermissionRequests.PageAsWrittenLosesPages | grouper/permissions.py:348 | With three requests, limit 1 and offset 1, the slice as written is empty while the documented page holds the second request. |
| PermissionGrants.DirectGroups | grouper/repositories/permission_grant.py:95-107 | The first hop is exactly the groups the user has an active, unexpired, non-np-owner, user-typed edge to, when the group is enabled. |
| PermissionGrants.Parents | grouper/repositories/permission_grant.py:118-131 | A later hop is exactly the groups a group-typed qualifying edge leads to from the current groups. |
| PermissionGrants.ClosureIsClosed | grouper/repositories/permission_grant.py:116-134 | The closure contains the start and is closed under the parent step. |
| PermissionGrants.ClosureIsLeast | grouper/repositories/permission_grant.py:116-134 | The closure lies inside every set that contains the start and is closed under the parent step. |
| PermissionGrants.ClosureSupported | grouper/repositories/permission_grant.py:116-134 | Every group of the closure is a start group or the parent of a closure group by a qualifying edge. |
| PermissionGrants.ReachBounds | grouper/repositories/permission_grant.py:116-134 | Each round of the walk only adds groups named by edges. This bounds the walk on cyclic graphs. |
| PermissionGrants.ResolvedGrants | grouper/repositories/permission_grant.py:87-145 | The result is empty for an unknown, role, service-account or disabled user, and for a user without a qualifying direct group. |
| PermissionGrants.ResolvedGrantsMembers | grouper/repositories/permission_grant.py:137-145 | The result holds exactly the grants of the groups in the closure of the user's direct groups. |
| PermissionGrants.ResolvedGrantsKeepsDuplicates | grouper/repositories/permission_grant.py:137-145 | The result has one entry per joined grant row: the same permission and argument granted to two groups in the closure appears at least twice. |
| PermissionGrants.PermissionGrantsForUser | grouper/repositories/permission_grant.py:87-145 | The `while group_ids` loop with its seen-set terminates and returns exactly `ResolvedGrants`. |
| PermissionGrants.WalkStep | grouper/repositories/permission_grant.py:118-134 | Querying only the new frontier finds the same parents as querying all seen groups. |
| PermissionGrants.UserHasPermission | grouper/repositories/permission_grant.py:165-170 | True exactly when some resolved grant has the permission's name. The argument is ignored. |
| PermissionGrants.GroupGrantsForPermission | grouper/repositories/permission_grant.py:70-85 | The result is empty for a missing or disabled permission. Otherwise it is exactly the grants to enabled groups, ordered by group name then argument. It is a permutation of the unordered join (`GroupJoin`), so each joined row appears once. |
| PermissionGrants.ServiceAccountGrantsForPermission | grouper/repositories/permission_grant.py:147-163 | The result is empty for a missing or disabled permission. Otherwise it is exactly the grants whose service account's user is enabled, ordered by username then argument. It is a permutation of the unordered join (`AccountJoin`), so each joined row appears once. |
| PermissionGrants.GroupJoin | grouper/repositories/permission_grant.py:75-81 | The joined rows are exactly the grants of the permission to the enabled groups the grant rows name. |
| PermissionGrants.AccountJoin | grouper/repositories/permission_grant.py:153-160 | The joined rows are exactly the grants of the permission to service accounts whose user is enabled. |
| Users.MyPermissions | grouper/models/user.py:222-251 | A disabled user has no rows. Rows are sorted by (name, argument, group name). For an enabled user the rows are a permutation of the unordered join (`JoinedRows`): one row per grant, permission, enabled group and qualifying membership. |
| Users.MyPermissionsMembers | grouper/models/user.py:228-249 | A row is present exactly when the user is enabled and has an active, unexpired, user-typed direct edge to the enabled group that holds the grant. Any role qualifies. |
| Users.NpOwnerEdgesDisagree | grouper/models/user.py:228-249 | An np-owner edge counts for `my_permissions` but is not followed by the repository walk. |
| Users.NpOwnerPermissionDisagrees | grouper/models/user.py:228-249 | A user whose only user-typed membership is an np-owner edge into a group holding a grant has that permission by `has_permission`, while the repository walk resolves no grant for them. |
| Users.HasPermissionIn | grouper/models/user.py:213-220 | The early-return scan answers true exactly when some row has the name and its argument is `*`, or no argument was asked, or it equals the argument asked. |
| Users.HasPermission | grouper/models/user.py:199-220 | `has_permission` is true exactly when some row of `my_permissions` satisfies the test above. |
| Users.WildcardAnswersEverything | grouper/models/user.py:213-220 | A `*` row answers every argument, and any row answers a question without an argument. |
| Users.DisabledHasNothing | grouper/models/user.py:199-251 | A disabled user has no permission. |
| Users.MyRoleIndex | grouper/models/user.py:127-133 | The result is defined exactly for a group admin or a member. For a group admin it is the owner index; for any other member it is the index of that member's role. It is always a valid index. |
| Users.MyRole | grouper/models/user.py:135-140 | It never returns "member". It is defined exactly for a group admin or a non-member-role member. A group admin gets owner, and anyone else gets their edge's role. |
| Users.CanManageIffApprover | grouper/models/user.py:57-76 | `can_manage` is false for a missing group. Otherwise it is true exactly for a group admin or a member whose role index is an approver index. |
| Users.MyCreatablePermissions | grouper/models/user.py:253-274 | It is "everything" exactly for a permission admin. Otherwise it is exactly the arguments of the PERMISSION_CREATE rows: each argument appears once per such row, and they come in `my_permissions` order, which sorts them NULL first. |
| Users.CreateArgumentsCount | grouper/models/user.py:270-274 | Each argument appears as many times as there are PERMISSION_CREATE rows carrying it. |
| Users.CreateArgumentsSorted | grouper/models/user.py:270-274 | Taken from rows in `my_permissions` order, the arguments are sorted, NULL first. |
| Users.AdminGrantable | grouper/models/user.py:292-294 | A permission admin gets a permutation of every permission paired with `*`, sorted by `name + "*"`. |
| Users.AdminGrantableMembers | grouper/models/user.py:292-294 | It holds exactly `(p, "*")` for known p, one per permission. |
| Users.MyGrantablePermissions | grouper/models/user.py:276-299 | It returns the admin list for a permission admin. Otherwise it returns `filter_grantable_permissions` of the PERMISSION_GRANT rows. |
| Users.GrantableFailsOnlyOnNullArgument | grouper/models/user.py:292-299 | It fails exactly for a non-admin with a NULL-argument PERMISSION_GRANT row, and then with AttributeError. |
| Users.NonAdminGrantableMembers | grouper/models/user.py:296-299 | For a non-admin, it holds exactly the pairs that the PERMISSION_GRANT rows' arguments expand to. |
| Users.UpsertedLookup | grouper/models/user.py:142-166 | After an upsert, the key reads as the new value, or absent for None. Every other key is unchanged, and keys stay distinct. |
| Users.DeleteLookup | grouper/models/user.py:146-154 | Deleting the key's row leaves it absent and every other key unchanged. |
| Users.OverwriteLookup | grouper/models/user.py:146-156 | Overwriting the key's row sets it and leaves every other key unchanged. |
| Users.InsertLookup | grouper/models/user.py:157-163 | Inserting an absent key sets it and leaves every other key unchanged. |
| Users.UpsertSameValue | grouper/models/user.py:142-166 | Setting a key to the value it holds changes nothing. |
| Users.UserAccount.SetMetadata | grouper/models/user.py:142-166 | A key the pattern rejects raises and changes nothing. Otherwise the metadata becomes `Upserted`. |
| Users.UserAccount.Enable | grouper/models/user.py:78-101 | The account is enabled. Memberships are kept when preserved, and otherwise every membership is revoked. |
| Users.UserAccount.Disable | grouper/models/user.py:103-105 | The account is disabled, and nothing else changes. |
| Users.UserAccount.Revoke | grouper/models/user.py:90-98 | The user leaves exactly that group. |
| Schema.PermissionNamedIsUnique | grouper/models/permission.py:20-28 | Permission names are unique, so `Permission.get(name=...)` on a permission's own name finds exactly that permission. |
| GroupEdges.RoleIndex | grouper/models/group_edge.py:3-8 | A role's stored index is its first position in GROUP_EDGE_ROLES. |
| GroupEdges.RoleAt | grouper/models/group_edge.py:3-8 | Decoding an index is defined exactly on the tuple's positions and inverts `RoleIndex`. |
| GroupEdges.RoleEncodingIsFixed | grouper/models/group_edge.py:1-8 | member=0, manager=1, owner=2, np-owner=3, and the encoding is injective and decodes back. |
| GroupEdges.OwnerRolesAreOwnerAndNpOwner | grouper/models/group_edge.py:9 | The owner indices are exactly {2, 3}, the indices of owner and np-owner. |
| GroupEdges.ApproverRolesAreManagerAndOwners | grouper/models/group_edge.py:10-11 | The approver indices are exactly {1, 2, 3}, every role but member. |
| GroupEdges.OwnersAreApprovers | grouper/models/group_edge.py:9-11 | Every owner index is an approver index. Member is in neither set, and manager is an approver but not an owner. |
| AsyncNotifications.ExpirationKeyData | grouper/models/async_notification.py:41-44 | A key decodes exactly when it splits into three pieces and the first is `EXPIRATION`. The names returned are the other two pieces. |
| AsyncNotifications.ExpirationKeyRoundTrip | grouper/models/async_notification.py:41-49 | Decoding the key of (group, member) gives (group, member) back exactly when neither name holds the separator. |
| AsyncNotifications.SplitJoin | grouper/models/async_notification.py:41-49 | Splitting a join of separator-free pieces gives the pieces back. |
| AsyncNotifications.JoinSplit | grouper/models/async_notification.py:41-49 | Joining the pieces of a split gives the string back. |
| AsyncNotifications.SendAfter | grouper/models/async_notification.py:53-54 | `send_after` plus the notice period is the expiration. It is no later than the expiration for a non-negative notice period. |
| AsyncNotifications.DueExpirations | grouper/models/async_notification.py:29-33 | It holds exactly the rows with an EXPIRATION key that are unsent and due strictly before now, each as many times as in the table. |
| AsyncNotifications.NotificationQueue.GetUnsentExpirations | grouper/models/async_notification.py:24-38 | It succeeds exactly when every due row's key decodes. It then returns one (group, member, email) per due row, in table order. Otherwise it fails with a due row's decoding error. |
| AsyncNotifications.NotificationQueue.AddExpiration | grouper/models/async_notification.py:52-71 | One unsent row per recipient is appended, with the expiration key and `send_after`. Earlier rows are kept. |
| AsyncNotifications.Remaining | grouper/models/async_notification.py:73-83 | It keeps exactly the rows that cancelling does not match, each as many times as in the table. An empty recipient list restricts nothing, as an empty `or_()` drops out of the query. |
| AsyncNotifications.NotificationQueue.CancelExpiration | grouper/models/async_notification.py:73-83 | It deletes exactly the unsent rows with the key, restricted to the recipients when the list is non-empty. Sent rows, other keys and other recipients stay. Without recipients, or with an empty list, no unsent row with the key remains. |
| AsyncNotifications.CancelIsIdempotent | grouper/models/async_notification.py:73-83 | Cancelling twice removes nothing more than cancelling once. |
| ModelBase.ObjTypesInvertsIdx | grouper/models/model_base.py:5-6 | OBJ_TYPES maps each name in OBJ_TYPES_IDX to its position, and back. |
| ModelBase.Enumerate | grouper/models/model_base.py:6 | The dict comprehension maps each name to its last position. |
| ModelBase.MemberType | grouper/models/model_base.py:17-21 | It succeeds exactly for a class name in the table, with its position. Otherwise it raises ValueError. |
| ModelBase.Get | grouper/models/model_base.py:24-28 | It returns nothing exactly when no row matches, and the matching row when one does. It raises MultipleResultsFound exactly when two or more match. |
| ModelBase.ModelTable.GetOrCreate | grouper/models/model_base.py:31-41 | An existing match is returned with False and nothing is added. Otherwise one new row is added, `just_created` is called once, and (new, True) is returned. Afterwards `get` finds the returned row. |
| Glob.StarMatchesAnything | grouper/permissions.py:170-176 | The pattern `*` matches every argument. |
| Glob.LiteralMatchesOnlyItself | grouper/permissions.py:170-176 | A pattern without wildcards matches exactly itself. |

## Left out

- **Email.** `send_email` is external I/O: the request workflow returns the recipients and the subject of each mail instead of sending it. `send_async_email` is not part of this model; `AsyncNotifications.NotificationQueue.AddExpiration` assumes it queues one unsent notification row per recipient, with the given key, subject, body and send-after time. Templates, contexts and settings are not modelled.
- **Side logs.** `AuditLog.log` and `Counter.incr` are not modelled.
- **Sessions, queries and transactions.** Sessions, flushes, commits, the ORM and transactions are not modelled; every operation is one atomic step. Concurrent creation of the same request is not modelled.
- **Dict order.** Python 2 dict order is arbitrary. The owners map keeps each permission's argument entries in insertion order, and `get_owner_arg_list` walks them in that order.
- **Glob patterns.** `fnmatch` character classes (`[...]`) are not modelled; `*`, `?` and literal characters are.
- **matches_glob.** `grouper.util.matches_glob` is not part of this model. It is assumed to behave as `Glob.Matches`, the same matcher as `fnmatch`. The proved properties rely only on "`*` matches anything" and "a literal pattern matches only itself".
- **Unseen collaborators.** These become inputs:
  - the constants module (`grouper.constants`);
  - the `PERMISSION_VALIDATION` pattern, a key predicate passed to `SetMetadata`;
  - `assert_controllers_are_auditors`, a boolean passed to `UpdateRequest`;
  - `get_groups_by_user`, the owner's group ids passed to `GetRequestsByOwner`;
  - `Group.my_permissions`, the group's grants passed to `CreateRequest`;
  - `Group.my_members`, a function passed to `CreateRequest`;
  - `get_plugins`, a list of owner maps.
- **Constants.** The constant strings are assumed; the proofs rely only on them being distinct.
- **Permission.enabled.** The `Permission` record carries an `enabled` flag because the grant queries read `permission.enabled`; grouper/models/permission.py does not declare that column.
- **Group.grant_permission.** It is not part of this model. `PermissionRequests.WithGrant` stands in for it. It appends the grant unless the group already holds the same permission and argument. In that case the unique index `uidx1` would refuse a second row, and the model keeps the table unchanged rather than raising.
- **get_pending_request_by_group and get_request_by_id.** These are single filtered queries outside the modelled workflow.
- **InvalidRequestID.** It is declared but raised only by code outside this model.
- **User.enable:** the `requester` argument only feeds `revoke_member`'s audit entry and is not modelled. `revoke_member` itself is modelled as removing the group from the user's memberships.
- **Collation.** The SQL ORDER BY and LIKE are modelled under an assumed binary collation: strings compare code point by code point, NULL sorts first, and LIKE is case-sensitive. A database whose collation ignores case, or that sorts NULL last, orders or filters differently. This applies to the lines below.
- Users.MyPermissions: assumes the binary collation, NULL first, for its ORDER BY.
- PermissionGrants.GroupGrantsForPermission: assumes the binary collation, NULL first, for its ORDER BY.
- PermissionGrants.ServiceAccountGrantsForPermission: assumes the binary collation, NULL first, for its ORDER BY.
- AsyncNotifications.DueExpirations: models `key LIKE 'EXPIRATION%'` as a case-sensitive prefix test.
- Users.MyPermissions: orders rows by (name, argument, group name) with a NULL argument first. Ties between rows with equal keys come in an unspecified order; the model sorts stably.
- **Large join queries.** `my_requests_aggregate`, `my_open_audits`, `my_public_keys`, `my_metadata` and `my_log_entries` are not modelled.
- **GraphPermissionGrantRepository.** It delegates to a group graph that is not part of this model.
- **Schema-only models.** `comment.py`, `request_status_change.py`, `permission_request_status_change.py`, `public_key.py`, `user_metadata.py`, `permission.py`, `permission_map.py` and `audit_member.py` appear only as record datatypes.
- PermissionRequests.RequestStore.GetRequestsByOwner: pages with the documented "limit results from offset" (`Page`), not the slice as written; see Findings.
- **REQUEST_STATUS_CHOICES.** The source does not show it. The status values `pending`, `actioned` and `cancelled` are the ones the workflow uses.

## Findings

| source | as written | input that shows it | evidently intended | confidence | as-written member | corrected member |
|---|---|---|---|---|---|---|
| grouper/permissions.py:348 | `requests[offset:limit]` reads `limit` as an end index. Every page after the first is cut short or empty. | Three approvable requests with limit 1 and offset 1: as written the page is empty. | `limit` results starting at `offset`, as the docstring at grouper/permissions.py:320-321 says: `requests[offset:offset + limit]`. | medium, not executed | PermissionRequests.PageAsWrittenLosesPages | PermissionRequests.Page |
