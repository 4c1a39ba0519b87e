/** Memberships of groups: adding, listing and removing members, with a record of each removal. */
module GroupUserService {
  import opened Wrappers
  import opened Items
  import opened SharingStore

  /** The error `addGroupUser` throws when the group does not exist. */
  datatype AddGroupUserError = NonExistentGroup

  /** The members of a group as its owner or a member sees them. */
  datatype GroupUsersView = GroupUsersView(users: set<GroupUser>, isAdmin: bool)

  class GroupUserService {
    const store: Store

    constructor (store: Store)
      ensures this.store == store
    {
      this.store := store;
    }

    /**
     * Adds a member with the given permissions, after dropping any record of
     * an earlier removal of that user from the group. A failure stands for the
     * exception thrown when the group does not exist. `uuid` and `timestamp`
     * are what uuidv4() and the timer return.
     */
    method AddGroupUser(groupUuid: Uuid, userUuid: Uuid, permissions: Permission, uuid: Uuid, timestamp: int)
      returns (r: Result<GroupUser, AddGroupUserError>)
      requires store.Valid()
      requires uuid !in store.groupUsers
      modifies store
      ensures store.Valid()
      ensures store.groups == old(store.groups) && store.invites == old(store.invites)
      ensures r.Failure? <==> groupUuid !in old(store.groups)
      ensures NoOrphans(old(store.groups), old(store.groupUsers), old(store.invites))
              ==> NoOrphans(store.groups, store.groupUsers, store.invites)
      ensures r.Failure? ==>
        store.groupUsers == old(store.groupUsers) && store.removedGroupUsers == old(store.removedGroupUsers)
      ensures r.Success? ==>
        && r.value == GroupUser(uuid, userUuid, groupUuid, permissions, timestamp, timestamp)
        && store.groupUsers == old(store.groupUsers)[uuid := r.value]
        && store.removedGroupUsers == WithoutRemovalsOf(old(store.removedGroupUsers), groupUuid, userUuid)
    {
      if groupUuid !in store.groups {
        return Failure(NonExistentGroup);
      }
      store.removedGroupUsers := WithoutRemovalsOf(store.removedGroupUsers, groupUuid, userUuid);
      var groupUser := GroupUser(uuid, userUuid, groupUuid, permissions, timestamp, timestamp);
      store.groupUsers := store.groupUsers[uuid := groupUser];
      return Success(groupUser);
    }

    /** The memberships of a user, in every group. */
    method GetAllGroupUsersForUser(userUuid: Uuid) returns (r: set<GroupUser>)
      ensures forall m :: m in r <==> m in store.groupUsers.Values && m.userUuid == userUuid
    {
      r := set m | m in store.groupUsers.Values && m.userUuid == userUuid;
    }

    /** A membership of the user in the group, if there is one. */
    method GetUserForGroup(userUuid: Uuid, groupUuid: Uuid) returns (r: Option<GroupUser>)
      ensures r.Some? <==> IsMember(store.groupUsers, groupUuid, userUuid)
      ensures r.Some? ==> r.value in store.groupUsers.Values && r.value.userUuid == userUuid && r.value.groupUuid == groupUuid
    {
      if IsMember(store.groupUsers, groupUuid, userUuid) {
        var k :| k in store.groupUsers && store.groupUsers[k].groupUuid == groupUuid && store.groupUsers[k].userUuid == userUuid;
        return Some(store.groupUsers[k]);
      }
      return None;
    }

    /** The members of a group, for its owner or one of its members only. */
    method GetGroupUsersForGroup(groupUuid: Uuid, originatorUuid: Uuid) returns (r: Option<GroupUsersView>)
      ensures r.Some? <==>
        groupUuid in store.groups
        && (store.groups[groupUuid].userUuid == originatorUuid || IsMember(store.groupUsers, groupUuid, originatorUuid))
      ensures r.Some? ==>
        && (forall m :: m in r.value.users <==> m in store.groupUsers.Values && m.groupUuid == groupUuid)
        && (r.value.isAdmin <==> IsOwner(store.groups, groupUuid, originatorUuid))
    {
      if groupUuid !in store.groups {
        return None;
      }
      var isUserGroupAdmin := store.groups[groupUuid].userUuid == originatorUuid;
      var doesUserBelongToGroup := GetUserForGroup(originatorUuid, groupUuid);
      if !isUserGroupAdmin && doesUserBelongToGroup.None? {
        return None;
      }
      var users := set m | m in store.groupUsers.Values && m.groupUuid == groupUuid;
      return Some(GroupUsersView(users, isUserGroupAdmin));
    }

    /**
     * Removes one membership of `userUuid` in the group and records who removed
     * it. Only the owner, or the member themself, may do so, and the owner's
     * own membership is never removed.
     */
    method DeleteGroupUser(originatorUuid: Uuid, groupUuid: Uuid, userUuid: Uuid) returns (ok: bool)
      requires store.Valid()
      modifies store
      ensures store.Valid()
      ensures store.groups == old(store.groups) && store.invites == old(store.invites)
      ensures ok <==>
        && groupUuid in old(store.groups)
        && old(store.groups)[groupUuid].userUuid != userUuid
        && (old(store.groups)[groupUuid].userUuid == originatorUuid || userUuid == originatorUuid)
        && IsMember(old(store.groupUsers), groupUuid, userUuid)
      ensures !ok ==>
        store.groupUsers == old(store.groupUsers) && store.removedGroupUsers == old(store.removedGroupUsers)
      ensures ok ==>
        && (exists k :: && k in old(store.groupUsers)
                        && old(store.groupUsers)[k].groupUuid == groupUuid
                        && old(store.groupUsers)[k].userUuid == userUuid
                        && store.groupUsers == old(store.groupUsers) - {k})
        && store.removedGroupUsers == old(store.removedGroupUsers) + [RemovedGroupUser(groupUuid, userUuid, originatorUuid)]
    {
      if groupUuid !in store.groups {
        return false;
      }
      var group := store.groups[groupUuid];
      if group.userUuid == userUuid {
        return false;
      }
      var isAuthorized := group.userUuid == originatorUuid || userUuid == originatorUuid;
      if !isAuthorized {
        return false;
      }
      if !IsMember(store.groupUsers, groupUuid, userUuid) {
        return false;
      }
      var k :| k in store.groupUsers && store.groupUsers[k].groupUuid == groupUuid && store.groupUsers[k].userUuid == userUuid;
      store.groupUsers := store.groupUsers - {k};
      store.removedGroupUsers := store.removedGroupUsers + [RemovedGroupUser(groupUuid, userUuid, originatorUuid)];
      return true;
    }

    /**
     * The owner removes every member of the group, recording one removal per
     * member; `order` is the (ghost) order in which the members were visited.
     */
    method DeleteAllGroupUsersForGroup(originatorUuid: Uuid, groupUuid: Uuid) returns (ok: bool, ghost order: seq<Uuid>)
      requires store.Valid()
      modifies store
      ensures store.Valid()
      ensures store.groups == old(store.groups) && store.invites == old(store.invites)
      ensures ok <==> IsOwner(old(store.groups), groupUuid, originatorUuid)
      ensures !ok ==>
        store.groupUsers == old(store.groupUsers) && store.removedGroupUsers == old(store.removedGroupUsers)
      ensures ok ==>
        && store.groupUsers == old(store.groupUsers) - MembershipKeys(old(store.groupUsers), groupUuid)
        && (forall k :: k in order <==> k in MembershipKeys(old(store.groupUsers), groupUuid))
        && NoDuplicates(order)
        && store.removedGroupUsers
           == old(store.removedGroupUsers) + RemovalRecords(old(store.groupUsers), order, groupUuid, originatorUuid)
    {
      order := [];
      if groupUuid !in store.groups || store.groups[groupUuid].userUuid != originatorUuid {
        return false, order;
      }
      var groupUsers := MembershipKeys(store.groupUsers, groupUuid);
      ghost var before := store.groupUsers;
      ghost var visited: set<Uuid> := {};
      var remaining := groupUsers;
      while remaining != {}
        invariant visited + remaining == groupUsers && visited !! remaining
        invariant store.Valid()
        invariant store.groups == old(store.groups) && store.invites == old(store.invites)
        invariant store.groupUsers == before - visited
        invariant VisitedExactly(order, visited)
        invariant store.removedGroupUsers
                  == old(store.removedGroupUsers) + RemovalRecords(before, order, groupUuid, originatorUuid)
        decreases remaining
      {
        var k :| k in remaining;
        var groupUser := store.groupUsers[k];
        assert k in before && before[k] == groupUser;
        assert forall j | j in order :: j in before;
        RemovalRecordsAppend(old(store.removedGroupUsers), before, order, k, groupUuid, originatorUuid);
        VisitOne(order, visited, k);
        RemoveOne(before, visited, k);
        store.groupUsers := store.groupUsers - {k};
        store.removedGroupUsers := store.removedGroupUsers + [RemovedGroupUser(groupUuid, groupUser.userUuid, originatorUuid)];
        remaining := remaining - {k};
        visited := visited + {k};
        order := order + [k];
      }
      return true, order;
    }
  }
}
