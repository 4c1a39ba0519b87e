/**
 * The repositories behind the group (shared-vault) services, as one mutable
 * store: groups, their members, the pending invites and the records of
 * removed members. Each map is keyed by its records' uuid.
 */
module SharingStore {
  import opened Wrappers
  import opened Items

  datatype Group = Group(
    uuid: Uuid,
    userUuid: Uuid,                 // the owner
    specifiedItemsKeyUuid: Uuid,
    fileUploadBytesLimit: int,
    fileUploadBytesUsed: int,
    createdAtTimestamp: int,
    updatedAtTimestamp: int)

  datatype GroupUser = GroupUser(
    uuid: Uuid,
    userUuid: Uuid,
    groupUuid: Uuid,
    permissions: Permission,
    createdAtTimestamp: int,
    updatedAtTimestamp: int)

  datatype InviteType = Join | KeyChange

  datatype Invite = Invite(
    uuid: Uuid,
    userUuid: Uuid,                 // the invitee
    sharedVaultUuid: Uuid,
    inviterUuid: Uuid,
    inviterPublicKey: string,
    encryptedVaultKeyContent: string,
    inviteType: InviteType,
    permissions: Permission,
    createdAtTimestamp: int,
    updatedAtTimestamp: int)

  datatype RemovedGroupUser = RemovedGroupUser(groupUuid: Uuid, userUuid: Uuid, removedBy: Uuid)

  class Store {
    var groups: map<Uuid, Group>
    var groupUsers: map<Uuid, GroupUser>
    var invites: map<Uuid, Invite>
    var removedGroupUsers: seq<RemovedGroupUser>

    /**
     * Every record is stored under its own uuid. The services maintain this
     * invariant, but no other contract of the model depends on it.
     */
    ghost predicate Valid()
      reads this
    {
      && (forall k | k in groups :: groups[k].uuid == k)
      && (forall k | k in groupUsers :: groupUsers[k].uuid == k)
      && (forall k | k in invites :: invites[k].uuid == k)
    }

    constructor ()
      ensures Valid()
      ensures groups == map[] && groupUsers == map[] && invites == map[] && removedGroupUsers == []
    {
      groups, groupUsers, invites, removedGroupUsers := map[], map[], map[], [];
    }
  }

  /** Whether `userUuid` has a membership in `groupUuid`. */
  predicate IsMember(groupUsers: map<Uuid, GroupUser>, groupUuid: Uuid, userUuid: Uuid) {
    exists k :: k in groupUsers && groupUsers[k].groupUuid == groupUuid && groupUsers[k].userUuid == userUuid
  }

  /** Whether `userUuid` owns the existing group `groupUuid`. */
  predicate IsOwner(groups: map<Uuid, Group>, groupUuid: Uuid, userUuid: Uuid) {
    groupUuid in groups && groups[groupUuid].userUuid == userUuid
  }

  /** The keys of the memberships of a group. */
  function MembershipKeys(groupUsers: map<Uuid, GroupUser>, groupUuid: Uuid): (keys: set<Uuid>)
    ensures forall k :: k in keys <==> k in groupUsers && groupUsers[k].groupUuid == groupUuid
  {
    set k | k in groupUsers && groupUsers[k].groupUuid == groupUuid
  }

  /** The keys of the invites addressed to `userUuid`. */
  function InboundInviteKeys(invites: map<Uuid, Invite>, userUuid: Uuid): (keys: set<Uuid>)
    ensures forall k :: k in keys <==> k in invites && invites[k].userUuid == userUuid
  {
    set k | k in invites && invites[k].userUuid == userUuid
  }

  /** The keys of the invites to the shared vault `sharedVaultUuid`. */
  function SharedVaultInviteKeys(invites: map<Uuid, Invite>, sharedVaultUuid: Uuid): (keys: set<Uuid>)
    ensures forall k :: k in keys <==> k in invites && invites[k].sharedVaultUuid == sharedVaultUuid
  {
    set k | k in invites && invites[k].sharedVaultUuid == sharedVaultUuid
  }

  /** The removal records with those of (group, user) dropped, the others kept in order. */
  function WithoutRemovalsOf(records: seq<RemovedGroupUser>, groupUuid: Uuid, userUuid: Uuid): (r: seq<RemovedGroupUser>)
    ensures forall x :: x in r <==> x in records && !(x.groupUuid == groupUuid && x.userUuid == userUuid)
    ensures |r| <= |records|
  {
    if records == [] then []
    else
      var tail := WithoutRemovalsOf(records[1..], groupUuid, userUuid);
      if records[0].groupUuid == groupUuid && records[0].userUuid == userUuid then tail else [records[0]] + tail
  }

  /** One removal record, by `removedBy`, per membership key in `order`. */
  function RemovalRecords(groupUsers: map<Uuid, GroupUser>, order: seq<Uuid>, groupUuid: Uuid, removedBy: Uuid)
    : (r: seq<RemovedGroupUser>)
    requires forall k | k in order :: k in groupUsers
    ensures |r| == |order|
    ensures forall i | 0 <= i < |order| :: r[i] == RemovedGroupUser(groupUuid, groupUsers[order[i]].userUuid, removedBy)
  {
    if order == [] then []
    else
      RemovalRecords(groupUsers, order[..|order| - 1], groupUuid, removedBy)
        + [RemovedGroupUser(groupUuid, groupUsers[order[|order| - 1]].userUuid, removedBy)]
  }

  /** Visiting one more membership appends its removal record after the earlier ones. */
  lemma RemovalRecordsAppend(
    earlier: seq<RemovedGroupUser>, groupUsers: map<Uuid, GroupUser>, order: seq<Uuid>, k: Uuid,
    groupUuid: Uuid, removedBy: Uuid)
    requires forall j | j in order :: j in groupUsers
    requires k in groupUsers
    ensures earlier + RemovalRecords(groupUsers, order + [k], groupUuid, removedBy)
         == (earlier + RemovalRecords(groupUsers, order, groupUuid, removedBy))
            + [RemovedGroupUser(groupUuid, groupUsers[k].userUuid, removedBy)]
  {
    assert (order + [k])[..|order|] == order;
  }

  /** `order` lists each element of `visited` exactly once. */
  ghost predicate VisitedExactly(order: seq<Uuid>, visited: set<Uuid>) {
    NoDuplicates(order) && forall k :: k in order <==> k in visited
  }

  /** Visiting a new element keeps the listing exact. */
  lemma VisitOne(order: seq<Uuid>, visited: set<Uuid>, k: Uuid)
    requires VisitedExactly(order, visited) && k !in visited
    ensures VisitedExactly(order + [k], visited + {k})
  {
  }

  /** Removing one more key from a map with some keys removed. */
  lemma RemoveOne(m: map<Uuid, GroupUser>, removed: set<Uuid>, k: Uuid)
    ensures (m - removed) - {k} == m - (removed + {k})
  {
  }

  /** Every membership and every invite belongs to a group that exists. */
  predicate NoOrphans(groups: map<Uuid, Group>, groupUsers: map<Uuid, GroupUser>, invites: map<Uuid, Invite>) {
    && (forall k | k in groupUsers :: groupUsers[k].groupUuid in groups)
    && (forall k | k in invites :: invites[k].sharedVaultUuid in groups)
  }

  predicate NoDuplicates<T(==)>(s: seq<T>) {
    forall i, j | 0 <= i < j < |s| :: s[i] != s[j]
  }
}
