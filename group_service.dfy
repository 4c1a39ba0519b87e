/**
 * Groups (shared vaults): creating one with its owner as admin member,
 * listing a user's groups, updating and deleting them. Deleting a group is
 * modelled twice: as written, and with the cascade run before the removal.
 */
module GroupService {
  import opened Wrappers
  import opened Items
  import opened SharingStore
  import opened GroupUserService
  import opened SharedVaultInviteService

  /** The upload quota of a new group, in bytes. */
  const FileUploadBytesLimit: int := 1_000_000

  datatype CreateGroupDto = CreateGroupDto(userUuid: Uuid, groupUuid: Uuid, specifiedItemsKeyUuid: Uuid)

  datatype UpdateGroupDto = UpdateGroupDto(groupUuid: Uuid, originatorUuid: Uuid, specifiedItemsKeyUuid: Uuid)

  datatype CreateGroupResult = CreateGroupResult(group: Group, groupUser: GroupUser)

  /** The repository's `lastSyncTime` filter: groups updated after it, or all groups when it is absent. */
  predicate UpdatedAfter(group: Group, lastSyncTime: Option<int>) {
    lastSyncTime.None? || group.updatedAtTimestamp > lastSyncTime.value
  }

  class GroupService {
    const store: Store
    const groupUserService: GroupUserService
    const groupInviteService: SharedVaultInviteService

    constructor (store: Store, groupUserService: GroupUserService, groupInviteService: SharedVaultInviteService)
      requires groupUserService.store == store && groupInviteService.store == store && groupInviteService.Wired()
      ensures this.store == store && this.groupUserService == groupUserService
      ensures this.groupInviteService == groupInviteService && Wired()
    {
      this.store := store;
      this.groupUserService := groupUserService;
      this.groupInviteService := groupInviteService;
    }

    /** All three services work on the same store. */
    predicate Wired() {
      groupUserService.store == store && groupInviteService.store == store && groupInviteService.Wired()
    }

    /**
     * Creates the group with the default upload quota and makes its creator an
     * admin member. `groupTimestamp` and `memberTimestamp` are the two readings
     * of the timer, `memberUuid` what uuidv4() returns for the membership.
     */
    method CreateGroup(dto: CreateGroupDto, memberUuid: Uuid, groupTimestamp: int, memberTimestamp: int)
      returns (r: Option<CreateGroupResult>)
      requires Wired() && store.Valid()
      requires memberUuid !in store.groupUsers
      modifies store
      ensures store.Valid()
      ensures store.invites == old(store.invites)
      ensures NoOrphans(old(store.groups), old(store.groupUsers), old(store.invites))
              ==> NoOrphans(store.groups, store.groupUsers, store.invites)
      ensures r.None? <==> dto.groupUuid in old(store.groups)
      ensures r.None? ==>
        && store.groups == old(store.groups) && store.groupUsers == old(store.groupUsers)
        && store.removedGroupUsers == old(store.removedGroupUsers)
      ensures r.Some? ==>
        var group := Group(dto.groupUuid, dto.userUuid, dto.specifiedItemsKeyUuid, FileUploadBytesLimit, 0,
                           groupTimestamp, groupTimestamp);
        var admin := GroupUser(memberUuid, dto.userUuid, dto.groupUuid, Admin, memberTimestamp, memberTimestamp);
        && r.value == CreateGroupResult(group, admin)
        && store.groups == old(store.groups)[dto.groupUuid := group]
        && store.groupUsers == old(store.groupUsers)[memberUuid := admin]
        && store.removedGroupUsers == WithoutRemovalsOf(old(store.removedGroupUsers), dto.groupUuid, dto.userUuid)
        && IsOwner(store.groups, dto.groupUuid, dto.userUuid)
        && IsMember(store.groupUsers, dto.groupUuid, dto.userUuid)
    {
      if dto.groupUuid in store.groups {
        return None;
      }
      var group := Group(dto.groupUuid, dto.userUuid, dto.specifiedItemsKeyUuid, FileUploadBytesLimit, 0,
                         groupTimestamp, groupTimestamp);
      store.groups := store.groups[dto.groupUuid := group];
      var groupUser := groupUserService.AddGroupUser(group.uuid, dto.userUuid, Admin, memberUuid, memberTimestamp);
      assert store.groupUsers[memberUuid].groupUuid == dto.groupUuid;
      return Some(CreateGroupResult(group, groupUser.value));
    }

    /** The groups the user is a member of, restricted by `lastSyncTime` when it is given. */
    method GetGroups(userUuid: Uuid, lastSyncTime: Option<int>) returns (r: set<Group>)
      requires Wired()
      ensures forall g :: g in r <==>
        g in store.groups.Values && IsMember(store.groupUsers, g.uuid, userUuid) && UpdatedAfter(g, lastSyncTime)
      ensures (forall k | k in store.groupUsers :: store.groupUsers[k].userUuid != userUuid) ==> r == {}
    {
      var groupUsers := groupUserService.GetAllGroupUsersForUser(userUuid);
      var groupUuids := set m | m in groupUsers :: m.groupUuid;
      forall g | g in store.groups.Values && IsMember(store.groupUsers, g.uuid, userUuid)
        ensures g.uuid in groupUuids
      {
        var k :| k in store.groupUsers && store.groupUsers[k].groupUuid == g.uuid && store.groupUsers[k].userUuid == userUuid;
        assert store.groupUsers[k] in store.groupUsers.Values;
        assert store.groupUsers[k] in groupUsers;
      }
      if groupUuids == {} {
        return {};
      }
      r := set g | g in store.groups.Values && g.uuid in groupUuids && UpdatedAfter(g, lastSyncTime);
      forall g | g in r
        ensures IsMember(store.groupUsers, g.uuid, userUuid)
      {
        var m :| m in groupUsers && m.groupUuid == g.uuid;
        assert m in store.groupUsers.Values;
        var k :| k in store.groupUsers && store.groupUsers[k] == m;
      }
    }

    /** The owner sets the group's items key; its update time is refreshed. */
    method UpdateGroup(dto: UpdateGroupDto, timestamp: int) returns (r: Option<Group>)
      requires store.Valid()
      modifies store
      ensures store.Valid()
      ensures store.groupUsers == old(store.groupUsers) && store.invites == old(store.invites)
      ensures store.removedGroupUsers == old(store.removedGroupUsers)
      ensures r.None? <==> !IsOwner(old(store.groups), dto.groupUuid, dto.originatorUuid)
      ensures r.None? ==> store.groups == old(store.groups)
      ensures r.Some? ==>
        && r.value == old(store.groups)[dto.groupUuid].(specifiedItemsKeyUuid := dto.specifiedItemsKeyUuid,
                                                        updatedAtTimestamp := timestamp)
        && store.groups == old(store.groups)[dto.groupUuid := r.value]
      ensures NoOrphans(old(store.groups), old(store.groupUsers), old(store.invites))
              ==> NoOrphans(store.groups, store.groupUsers, store.invites)
    {
      if dto.groupUuid !in store.groups || store.groups[dto.groupUuid].userUuid != dto.originatorUuid {
        return None;
      }
      var group := store.groups[dto.groupUuid];
      group := group.(specifiedItemsKeyUuid := dto.specifiedItemsKeyUuid);
      group := group.(updatedAtTimestamp := timestamp);
      store.groups := store.groups[dto.groupUuid := group];
      return Some(group);
    }

    /**
     * Deletion in the order the service performs it: the group is removed
     * first, so the two cascading calls find no group, are refused, and leave
     * every membership, invite and removal record in place.
     */
    method DeleteGroupAsWritten(groupUuid: Uuid, originatorUuid: Uuid) returns (ok: bool)
      requires Wired() && store.Valid()
      modifies store
      ensures store.Valid()
      ensures ok <==> IsOwner(old(store.groups), groupUuid, originatorUuid)
      ensures store.groups == if ok then old(store.groups) - {groupUuid} else old(store.groups)
      ensures store.groupUsers == old(store.groupUsers) && store.invites == old(store.invites)
      ensures store.removedGroupUsers == old(store.removedGroupUsers)
    {
      if groupUuid !in store.groups || store.groups[groupUuid].userUuid != originatorUuid {
        return false;
      }
      store.groups := store.groups - {groupUuid};
      var usersDeleted, visited := groupUserService.DeleteAllGroupUsersForGroup(originatorUuid, groupUuid);
      var invitesDeleted := groupInviteService.DeleteAllInvitesForSharedVault(originatorUuid, groupUuid);
      return true;
    }

    /**
     * Deletion with the cascade first: the members are removed (each removal
     * recorded), then the invites, then the group. No membership or invite of
     * the group survives, so a store without orphans stays without orphans.
     */
    method DeleteGroup(groupUuid: Uuid, originatorUuid: Uuid) returns (ok: bool, ghost order: seq<Uuid>)
      requires Wired() && store.Valid()
      modifies store
      ensures store.Valid()
      ensures ok <==> IsOwner(old(store.groups), groupUuid, originatorUuid)
      ensures !ok ==>
        && store.groups == old(store.groups) && store.groupUsers == old(store.groupUsers)
        && store.invites == old(store.invites) && store.removedGroupUsers == old(store.removedGroupUsers)
      ensures ok ==>
        && store.groups == old(store.groups) - {groupUuid}
        && store.groupUsers == old(store.groupUsers) - MembershipKeys(old(store.groupUsers), groupUuid)
        && store.invites == old(store.invites) - SharedVaultInviteKeys(old(store.invites), groupUuid)
        && (forall k :: k in order <==> k in MembershipKeys(old(store.groupUsers), groupUuid))
        && NoDuplicates(order)
        && store.removedGroupUsers
           == old(store.removedGroupUsers) + RemovalRecords(old(store.groupUsers), order, groupUuid, originatorUuid)
      ensures NoOrphans(old(store.groups), old(store.groupUsers), old(store.invites))
              ==> NoOrphans(store.groups, store.groupUsers, store.invites)
    {
      order := [];
      if groupUuid !in store.groups || store.groups[groupUuid].userUuid != originatorUuid {
        return false, order;
      }
      var usersDeleted;
      usersDeleted, order := groupUserService.DeleteAllGroupUsersForGroup(originatorUuid, groupUuid);
      var invitesDeleted := groupInviteService.DeleteAllInvitesForSharedVault(originatorUuid, groupUuid);
      store.groups := store.groups - {groupUuid};
      return true, order;
    }
  }

  /**
   * A run of the deletion as written: an owner creates a vault, which makes
   * them its admin member, then deletes it. The membership outlives the
   * vault, so the store, free of orphans before, holds one afterwards.
   */
  method DeleteGroupAsWrittenLeavesOrphan() returns (deleted: bool, memberSurvives: bool, orphaned: bool)
    ensures deleted && memberSurvives && orphaned
  {
    var store := new Store();
    var users := new GroupUserService(store);
    var invites := new SharedVaultInviteService(store, users);
    var groups := new GroupService(store, users, invites);
    var created := groups.CreateGroup(CreateGroupDto("owner", "vault", "items-key"), "member-1", 1, 1);
    assert NoOrphans(store.groups, store.groupUsers, store.invites);
    deleted := groups.DeleteGroupAsWritten("vault", "owner");
    assert store.groupUsers["member-1"].groupUuid == "vault";
    memberSurvives := IsMember(store.groupUsers, "vault", "owner");
    orphaned := !NoOrphans(store.groups, store.groupUsers, store.invites);
  }

  /** The same run with the corrected deletion leaves neither the membership nor an orphan behind. */
  method DeleteGroupRemovesMembers() returns (deleted: bool, memberSurvives: bool, orphaned: bool)
    ensures deleted && !memberSurvives && !orphaned
  {
    var store := new Store();
    var users := new GroupUserService(store);
    var invites := new SharedVaultInviteService(store, users);
    var groups := new GroupService(store, users, invites);
    var created := groups.CreateGroup(CreateGroupDto("owner", "vault", "items-key"), "member-1", 1, 1);
    ghost var order;
    deleted, order := groups.DeleteGroup("vault", "owner");
    memberSurvives := IsMember(store.groupUsers, "vault", "owner");
    orphaned := !NoOrphans(store.groups, store.groupUsers, store.invites);
  }
}
