/**
 * Invites to a shared vault: the owner invites, the inviter updates, the
 * invitee accepts or declines, either of them deletes. A shared vault is a
 * group of the store; joining goes through GroupUserService.AddGroupUser.
 */
module SharedVaultInviteService {
  import opened Wrappers
  import opened Items
  import opened SharingStore
  import opened GroupUserService

  datatype CreateInviteDto = CreateInviteDto(
    originatorUuid: Uuid,
    userUuid: Uuid,
    sharedVaultUuid: Uuid,
    inviterPublicKey: string,
    encryptedVaultKeyContent: string,
    inviteType: InviteType,
    permissions: Permission)

  datatype UpdateInviteDto = UpdateInviteDto(
    inviteUuid: Uuid,
    originatorUuid: Uuid,
    inviterPublicKey: string,
    encryptedVaultKeyContent: string,
    permissions: Option<Permission>)

  /** Whether `originatorUuid` may delete the invite: its inviter or its invitee. */
  predicate MayDeleteInvite(invite: Invite, originatorUuid: Uuid) {
    invite.inviterUuid == originatorUuid || invite.userUuid == originatorUuid
  }

  class SharedVaultInviteService {
    const store: Store
    const sharedVaultUserService: GroupUserService

    constructor (store: Store, sharedVaultUserService: GroupUserService)
      requires sharedVaultUserService.store == store
      ensures this.store == store && this.sharedVaultUserService == sharedVaultUserService && Wired()
    {
      this.store := store;
      this.sharedVaultUserService := sharedVaultUserService;
    }

    /** Both services work on the same store. */
    predicate Wired() {
      sharedVaultUserService.store == store
    }

    /** The vault's owner invites `dto.userUuid`; `uuid` and `timestamp` are what uuidv4() and the timer return. */
    method CreateInvite(dto: CreateInviteDto, uuid: Uuid, timestamp: int) returns (r: Option<Invite>)
      requires store.Valid()
      requires uuid !in store.invites
      modifies store
      ensures store.Valid()
      ensures store.groups == old(store.groups) && store.groupUsers == old(store.groupUsers)
      ensures store.removedGroupUsers == old(store.removedGroupUsers)
      ensures r.None? <==> !IsOwner(old(store.groups), dto.sharedVaultUuid, dto.originatorUuid)
      ensures NoOrphans(old(store.groups), old(store.groupUsers), old(store.invites))
              ==> NoOrphans(store.groups, store.groupUsers, store.invites)
      ensures r.None? ==> store.invites == old(store.invites)
      ensures r.Some? ==>
        && r.value == Invite(uuid, dto.userUuid, dto.sharedVaultUuid, dto.originatorUuid, dto.inviterPublicKey,
                             dto.encryptedVaultKeyContent, dto.inviteType, dto.permissions, timestamp, timestamp)
        && r.value.inviterUuid == dto.originatorUuid
        && r.value.createdAtTimestamp == r.value.updatedAtTimestamp
        && store.invites == old(store.invites)[uuid := r.value]
    {
      if dto.sharedVaultUuid !in store.groups || store.groups[dto.sharedVaultUuid].userUuid != dto.originatorUuid {
        return None;
      }
      var invite := Invite(uuid, dto.userUuid, dto.sharedVaultUuid, dto.originatorUuid, dto.inviterPublicKey,
                           dto.encryptedVaultKeyContent, dto.inviteType, dto.permissions, timestamp, timestamp);
      store.invites := store.invites[uuid := invite];
      return Some(invite);
    }

    /** The inviter replaces the key material and, when given, the permissions of an invite. */
    method UpdateInvite(dto: UpdateInviteDto, timestamp: int) returns (r: Option<Invite>)
      requires store.Valid()
      modifies store
      ensures store.Valid()
      ensures store.groups == old(store.groups) && store.groupUsers == old(store.groupUsers)
      ensures store.removedGroupUsers == old(store.removedGroupUsers)
      ensures r.None? <==>
        !(dto.inviteUuid in old(store.invites) && old(store.invites)[dto.inviteUuid].inviterUuid == dto.originatorUuid)
      ensures r.None? ==> store.invites == old(store.invites)
      ensures r.Some? ==>
        var before := old(store.invites)[dto.inviteUuid];
        && store.invites == old(store.invites)[dto.inviteUuid := r.value]
        && r.value.inviterPublicKey == dto.inviterPublicKey
        && r.value.encryptedVaultKeyContent == dto.encryptedVaultKeyContent
        && r.value.permissions == (if dto.permissions.Some? then dto.permissions.value else before.permissions)
        && r.value.updatedAtTimestamp == timestamp
        && r.value.uuid == before.uuid && r.value.userUuid == before.userUuid
        && r.value.sharedVaultUuid == before.sharedVaultUuid && r.value.inviterUuid == before.inviterUuid
        && r.value.inviteType == before.inviteType && r.value.createdAtTimestamp == before.createdAtTimestamp
    {
      if dto.inviteUuid !in store.invites || store.invites[dto.inviteUuid].inviterUuid != dto.originatorUuid {
        return None;
      }
      var invite := store.invites[dto.inviteUuid];
      invite := invite.(inviterPublicKey := dto.inviterPublicKey, encryptedVaultKeyContent := dto.encryptedVaultKeyContent);
      if dto.permissions.Some? {
        invite := invite.(permissions := dto.permissions.value);
      }
      invite := invite.(updatedAtTimestamp := timestamp);
      store.invites := store.invites[dto.inviteUuid := invite];
      return Some(invite);
    }

    /** The invites addressed to a user. */
    method GetInvitesForUser(userUuid: Uuid) returns (r: set<Invite>)
      ensures forall i :: i in r <==> i in store.invites.Values && i.userUuid == userUuid
    {
      r := set i | i in store.invites.Values && i.userUuid == userUuid;
    }

    /** The invites a user has sent. */
    method GetOutboundInvitesForUser(userUuid: Uuid) returns (r: set<Invite>)
      ensures forall i :: i in r <==> i in store.invites.Values && i.inviterUuid == userUuid
    {
      r := set i | i in store.invites.Values && i.inviterUuid == userUuid;
    }

    /** Removes the invites with the given keys, one at a time. */
    method RemoveInvites(keys: set<Uuid>)
      requires store.Valid()
      modifies store
      ensures store.Valid()
      ensures store.groups == old(store.groups) && store.groupUsers == old(store.groupUsers)
      ensures store.removedGroupUsers == old(store.removedGroupUsers)
      ensures store.invites == old(store.invites) - keys
    {
      var remaining := keys;
      while remaining != {}
        invariant remaining <= keys
        invariant store.Valid()
        invariant store.groups == old(store.groups) && store.groupUsers == old(store.groupUsers)
        invariant store.removedGroupUsers == old(store.removedGroupUsers)
        invariant store.invites == old(store.invites) - (keys - remaining)
        decreases remaining
      {
        var k :| k in remaining;
        store.invites := store.invites - {k};
        remaining := remaining - {k};
      }
    }

    /** Removes every invite addressed to the user. */
    method DeleteAllInboundInvites(userUuid: Uuid)
      requires store.Valid()
      modifies store
      ensures store.Valid()
      ensures store.groups == old(store.groups) && store.groupUsers == old(store.groupUsers)
      ensures store.removedGroupUsers == old(store.removedGroupUsers)
      ensures store.invites == old(store.invites) - InboundInviteKeys(old(store.invites), userUuid)
      ensures forall k | k in store.invites :: store.invites[k].userUuid != userUuid
    {
      var inboundInvites := InboundInviteKeys(store.invites, userUuid);
      RemoveInvites(inboundInvites);
    }

    /** The invites of a shared vault, for its owner only. */
    method GetInvitesForSharedVault(sharedVaultUuid: Uuid, originatorUuid: Uuid) returns (r: Option<set<Invite>>)
      ensures r.Some? <==> IsOwner(store.groups, sharedVaultUuid, originatorUuid)
      ensures r.Some? ==> forall i :: i in r.value <==> i in store.invites.Values && i.sharedVaultUuid == sharedVaultUuid
    {
      if sharedVaultUuid !in store.groups {
        return None;
      }
      var isUserSharedVaultAdmin := store.groups[sharedVaultUuid].userUuid == originatorUuid;
      if !isUserSharedVaultAdmin {
        return None;
      }
      var invites := set i | i in store.invites.Values && i.sharedVaultUuid == sharedVaultUuid;
      return Some(invites);
    }

    /**
     * The invitee accepts: a join invite makes them a member with the invite's
     * permissions; the invite is then removed. A join invite to a vault that no
     * longer exists fails with the error AddGroupUser throws, which `acceptInvite`
     * does not catch; nothing changes then. `memberUuid` and `timestamp` are
     * what uuidv4() and the timer return inside AddGroupUser.
     */
    method AcceptInvite(originatorUuid: Uuid, inviteUuid: Uuid, memberUuid: Uuid, timestamp: int)
      returns (r: Result<bool, AddGroupUserError>)
      requires Wired() && store.Valid()
      requires memberUuid !in store.groupUsers
      modifies store
      ensures store.Valid()
      ensures store.groups == old(store.groups)
      ensures r == Success(true) <==>
        && inviteUuid in old(store.invites)
        && old(store.invites)[inviteUuid].userUuid == originatorUuid
        && (old(store.invites)[inviteUuid].inviteType == Join ==> old(store.invites)[inviteUuid].sharedVaultUuid in old(store.groups))
      ensures r.Failure? <==>
        && inviteUuid in old(store.invites)
        && old(store.invites)[inviteUuid].userUuid == originatorUuid
        && old(store.invites)[inviteUuid].inviteType == Join
        && old(store.invites)[inviteUuid].sharedVaultUuid !in old(store.groups)
      ensures NoOrphans(old(store.groups), old(store.groupUsers), old(store.invites))
              ==> NoOrphans(store.groups, store.groupUsers, store.invites)
      ensures r != Success(true) ==>
        && store.invites == old(store.invites) && store.groupUsers == old(store.groupUsers)
        && store.removedGroupUsers == old(store.removedGroupUsers)
      ensures r == Success(true) ==> store.invites == old(store.invites) - {inviteUuid}
      ensures r == Success(true) && old(store.invites)[inviteUuid].inviteType == Join ==>
        var invite := old(store.invites)[inviteUuid];
        && store.groupUsers == old(store.groupUsers)[memberUuid :=
             GroupUser(memberUuid, originatorUuid, invite.sharedVaultUuid, invite.permissions, timestamp, timestamp)]
        && store.removedGroupUsers == WithoutRemovalsOf(old(store.removedGroupUsers), invite.sharedVaultUuid, originatorUuid)
      ensures r == Success(true) && old(store.invites)[inviteUuid].inviteType != Join ==>
        store.groupUsers == old(store.groupUsers) && store.removedGroupUsers == old(store.removedGroupUsers)
    {
      if inviteUuid !in store.invites {
        return Success(false);
      }
      var invite := store.invites[inviteUuid];
      var isAuthorized := invite.userUuid == originatorUuid;
      if !isAuthorized {
        return Success(false);
      }
      if invite.inviteType == Join {
        var addedUser := sharedVaultUserService.AddGroupUser(invite.sharedVaultUuid, originatorUuid, invite.permissions,
                                                             memberUuid, timestamp);
        if addedUser.Failure? {
          return Failure(addedUser.error);
        }
      }
      store.invites := store.invites - {inviteUuid};
      return Success(true);
    }

    /** The invitee declines, which removes the invite. */
    method DeclineInvite(originatorUuid: Uuid, inviteUuid: Uuid) returns (ok: bool)
      requires store.Valid()
      modifies store
      ensures store.Valid()
      ensures store.groups == old(store.groups) && store.groupUsers == old(store.groupUsers)
      ensures store.removedGroupUsers == old(store.removedGroupUsers)
      ensures ok <==> inviteUuid in old(store.invites) && old(store.invites)[inviteUuid].userUuid == originatorUuid
      ensures store.invites == if ok then old(store.invites) - {inviteUuid} else old(store.invites)
    {
      if inviteUuid !in store.invites {
        return false;
      }
      var isAuthorized := store.invites[inviteUuid].userUuid == originatorUuid;
      if !isAuthorized {
        return false;
      }
      store.invites := store.invites - {inviteUuid};
      return true;
    }

    /** The inviter or the invitee deletes the invite. */
    method DeleteInvite(originatorUuid: Uuid, inviteUuid: Uuid) returns (ok: bool)
      requires store.Valid()
      modifies store
      ensures store.Valid()
      ensures store.groups == old(store.groups) && store.groupUsers == old(store.groupUsers)
      ensures store.removedGroupUsers == old(store.removedGroupUsers)
      ensures ok <==> inviteUuid in old(store.invites) && MayDeleteInvite(old(store.invites)[inviteUuid], originatorUuid)
      ensures store.invites == if ok then old(store.invites) - {inviteUuid} else old(store.invites)
    {
      if inviteUuid !in store.invites {
        return false;
      }
      var invite := store.invites[inviteUuid];
      var isAuthorized := invite.inviterUuid == originatorUuid || invite.userUuid == originatorUuid;
      if !isAuthorized {
        return false;
      }
      store.invites := store.invites - {inviteUuid};
      return true;
    }

    /** The vault's owner removes every invite to it. */
    method DeleteAllInvitesForSharedVault(originatorUuid: Uuid, sharedVaultUuid: Uuid) returns (ok: bool)
      requires store.Valid()
      modifies store
      ensures store.Valid()
      ensures store.groups == old(store.groups) && store.groupUsers == old(store.groupUsers)
      ensures store.removedGroupUsers == old(store.removedGroupUsers)
      ensures ok <==> IsOwner(old(store.groups), sharedVaultUuid, originatorUuid)
      ensures !ok ==> store.invites == old(store.invites)
      ensures ok ==>
        && store.invites == old(store.invites) - SharedVaultInviteKeys(old(store.invites), sharedVaultUuid)
        && forall k | k in store.invites :: store.invites[k].sharedVaultUuid != sharedVaultUuid
    {
      if sharedVaultUuid !in store.groups || store.groups[sharedVaultUuid].userUuid != originatorUuid {
        return false;
      }
      var sharedVaultInvites := SharedVaultInviteKeys(store.invites, sharedVaultUuid);
      RemoveInvites(sharedVaultInvites);
      return true;
    }
  }
}
