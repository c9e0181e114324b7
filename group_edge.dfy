/**
 * The roles a membership edge can carry (grouper/models/group_edge.py). The source stores a
 * role as its position in GROUP_EDGE_ROLES; the position is part of the persistent encoding,
 * so it is fixed here and new roles could only be appended.
 */
module GroupEdges {
  import opened Wrappers

  datatype Role = Member | Manager | Owner | NpOwner

  /** GROUP_EDGE_ROLES: the roles in their stored order. */
  const GroupEdgeRoles: seq<Role> := [Member, Manager, Owner, NpOwner]

  /** The role names used by the web layer and by `User.my_role`. */
  function RoleName(r: Role): string
  {
    match r
    case Member => "member"
    case Manager => "manager"
    case Owner => "owner"
    case NpOwner => "np-owner"
  }

  /** `GROUP_EDGE_ROLES.index(r)`: the first position of `r`, the value an edge stores. */
  function RoleIndex(r: Role): (i: nat)
    ensures i < |GroupEdgeRoles| && GroupEdgeRoles[i] == r
    ensures forall j :: 0 <= j < i ==> GroupEdgeRoles[j] != r
  {
    match r
    case Member => 0
    case Manager => 1
    case Owner => 2
    case NpOwner => 3
  }

  /** `GROUP_EDGE_ROLES[i]`; a stored index outside the tuple decodes to nothing. */
  function RoleAt(i: int): (r: Option<Role>)
    ensures r.Some? <==> 0 <= i < |GroupEdgeRoles|
    ensures r.Some? ==> RoleIndex(r.value) == i
  {
    if 0 <= i < |GroupEdgeRoles| then Some(GroupEdgeRoles[i]) else None
  }

  /** OWNER_ROLE_INDICES. */
  const OwnerRoleIndices: set<nat> := {RoleIndex(Owner), RoleIndex(NpOwner)}

  /** APPROVER_ROLE_INDICIES (the source's spelling). */
  const ApproverRoleIndices: set<nat> := {RoleIndex(Owner), RoleIndex(NpOwner), RoleIndex(Manager)}

  /** The stored encoding: member=0, manager=1, owner=2, np-owner=3, and it decodes back. */
  lemma RoleEncodingIsFixed()
    ensures RoleIndex(Member) == 0 && RoleIndex(Manager) == 1
    ensures RoleIndex(Owner) == 2 && RoleIndex(NpOwner) == 3
    ensures forall r :: RoleAt(RoleIndex(r)) == Some(r)
    ensures forall r, s :: RoleIndex(r) == RoleIndex(s) ==> r == s
  {
  }

  lemma OwnerRolesAreOwnerAndNpOwner()
    ensures OwnerRoleIndices == {2, 3}
    ensures forall r :: RoleIndex(r) in OwnerRoleIndices <==> r == Owner || r == NpOwner
  {
  }

  lemma ApproverRolesAreManagerAndOwners()
    ensures ApproverRoleIndices == {1, 2, 3}
    ensures forall r :: RoleIndex(r) in ApproverRoleIndices <==> r != Member
  {
  }

  /** Every owner is an approver; a plain member is neither. */
  lemma OwnersAreApprovers()
    ensures OwnerRoleIndices <= ApproverRoleIndices
    ensures RoleIndex(Member) !in ApproverRoleIndices && RoleIndex(Member) !in OwnerRoleIndices
    ensures RoleIndex(Manager) in ApproverRoleIndices - OwnerRoleIndices
  {
  }
}
