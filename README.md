# Shared vaults and item sync, modelled in Dafny

This project models the core of the Standard Notes syncing server's item-sync and shared-vault logic:

- **The shared-vault save rule** (`SharedVaultFilter`). It decides whether a write that touches a shared vault passes. The write is an add to a vault, a removal from one, a move between two, or a save or create inside one. When the write fails, the rule names the conflict: not a member, invalid state, insufficient permissions, or uuid conflict.
- **Paginated retrieval** (`GetItems`). It decodes a sync or cursor token into a last sync time. It builds the item query: the comparison, the clamped page size and the vault scoping. It emits a cursor token when more items remain.
- **The sync use case** (`SyncItems`). It drops the retrieved items that the save step just reported as sync conflicts. It front-loads key items on a first, unscoped sync. It assembles the response.
- **The group (shared-vault) services**, over one mutable `SharingStore.Store` that holds groups, memberships, invites and removal records:
  - `GroupUserService` manages memberships;
  - `SharedVaultInviteService` manages invites;
  - `GroupService` manages groups.

How the model is built:

- **Pure code and mixed code.** The save rule and the token and query helpers are functions. The two use cases' `execute` procedures are methods proved against those functions. The loop that collects conflict ids is a `while` loop with its invariant.
- **Repositories and collaborators.** In the use cases, the item repository, the transfer calculator, base64, the date parser and the services called by `SyncItems` are function parameters.
- **The services.** Each service is a class holding the shared store. Its methods say what they add or remove, and that nothing else changes. The bulk deletes are loops over the matching keys.
- **Groups and shared vaults.** The source is midway through renaming "group" to "shared vault". The model treats the two as one entity:
  - the shared-vault repository is `Store.groups`;
  - `addSharedVaultUser` is `GroupUserService.AddGroupUser`;
  - the group invite service's `deleteAllInvitesForGroup` is `SharedVaultInviteService.DeleteAllInvitesForSharedVault`.
- **Cursor token precedence.** A cursor token that is present takes precedence over the sync token, as `getLastSyncTime` does (GetItems.ts:96-100).
- **Cursor tokens carry decimal seconds.** A cursor token's version 2 payload is the last item's time in seconds, as a decimal with a fractional part, not an integer. That is what `${updatedAt / 1e6}` renders.
- **Exact timestamps.** Timestamps are microseconds as `nat`. The cursor's seconds are rendered as an exact decimal, so the round trip through a cursor token is proved exactly.

## Model

| member | source | states |
|---|---|---|
| SharedVaultFilter.IsAuthorizedToSaveContentType | packages/syncing-server/src/Domain/Item/SaveRule/SharedVaultFilter.ts:52-58 | A key-system items key may be saved only with admin permission; any other content type is authorized for every permission. |
| SharedVaultFilter.BuildFailResult | packages/syncing-server/src/Domain/Item/SaveRule/SharedVaultFilter.ts:60-74 | A failure carries its kind and the incoming item. It echoes the server item only for invalid-state and insufficient-permission failures, and never for a create. |
| SharedVaultFilter.HandleAddToSharedVault | packages/syncing-server/src/Domain/Item/SaveRule/SharedVaultFilter.ts:82-105 | Each outcome holds exactly when the earlier checks pass and its own check fails, in this order: not a member; invalid state when either item is deleted; insufficient permissions for read or an unauthorized content type; uuid conflict when the user does not own the existing item. Otherwise the add passes. |
| SharedVaultFilter.HandleRemoveFromSharedVault | packages/syncing-server/src/Domain/Item/SaveRule/SharedVaultFilter.ts:107-132 | The same order, except that an owner mismatch gives insufficient permissions, not uuid conflict. A removal never yields a uuid conflict. |
| SharedVaultFilter.HandleMoveToOtherSharedVault | packages/syncing-server/src/Domain/Item/SaveRule/SharedVaultFilter.ts:134-166 | A move needs membership in both vaults and an undeleted item. It also needs write access, meaning not read and the content type authorized, in both vaults. Each failure kind holds exactly when its check is the first to fail. |
| SharedVaultFilter.HandleSaveOrCreateToSharedVault | packages/syncing-server/src/Domain/Item/SaveRule/SharedVaultFilter.ts:168-206 | A save or create ignores deletion state and ownership. It passes exactly when the user is a member with write access. It fails as not-member or insufficient-permissions otherwise, never as invalid state or uuid conflict. |
| SharedVaultFilter.GetResultForOperation | packages/syncing-server/src/Domain/Item/SaveRule/SharedVaultFilter.ts:36-50 | The dispatch on the operation's kind yields only well-formed failures. |
| SharedVaultFilter.Check | packages/syncing-server/src/Domain/Item/SaveRule/SharedVaultFilter.ts:21-34 | A write with no derived vault operation passes. Every failure is well-formed. An item with a vault uuid but no key-system identifier fails as invalid state. |
| SharedVaultFilter.InvalidStateIgnoresMembership | packages/syncing-server/src/Domain/Item/SaveRule/SharedVaultFilter.ts:29-31 | That invalid-state failure comes before any membership lookup: the result is the same whatever the lookup says. |
| SharedVaultFilter.MoveIsSymmetric | packages/syncing-server/src/Domain/Item/SaveRule/SharedVaultFilter.ts:146-163 | Swapping the source and target permissions does not change a move's outcome. |
| SharedVaultFilter.MoveWithReadSideFails | packages/syncing-server/src/Domain/Item/SaveRule/SharedVaultFilter.ts:154-156 | A valid move where either side has read permission fails with insufficient permissions. |
| SharedVaultFilter.PassedWriteHasWriteAccess | packages/syncing-server/src/Domain/Item/SaveRule/SharedVaultFilter.ts:82-206 | In every vault a passing write touches, the user is a member above read, and an admin when the item is a key-system items key. |
| TokenText.JoinSplit | packages/syncing-server/src/Domain/UseCase/Syncing/GetItems/GetItems.ts:108-113 | Joining the parts of `split(':')` with ':' gives back the original text. |
| TokenText.RenderSecondsRoundTrip | packages/syncing-server/src/Domain/UseCase/Syncing/GetItems/GetItems.ts:79-80 | JavaScript's `+` read of the rendered seconds `updatedAt / 1e6` gives exactly `updatedAt / 1e6`. |
| GetItems.SelectedToken | packages/syncing-server/src/Domain/UseCase/Syncing/GetItems/GetItems.ts:96-100 | A cursor token that is present (not undefined or null) takes precedence over the sync token. |
| GetItems.DecodeTokenText | packages/syncing-server/src/Domain/UseCase/Syncing/GetItems/GetItems.ts:106-118 | Decoding fails, with the missing-version-part error, exactly when the text before the first ':' is neither "1" nor "2". |
| GetItems.GetLastSyncTime | packages/syncing-server/src/Domain/UseCase/Syncing/GetItems/GetItems.ts:96-118 | A missing or empty token gives no last sync time. A failure is only the version error on a truthy token. A successful decode of a truthy token gives a time. |
| GetItems.DecodeVersion1 | packages/syncing-server/src/Domain/UseCase/Syncing/GetItems/GetItems.ts:112-113 | A version 1 token hands everything after the first ':', colons included, to the date parser. |
| GetItems.DecodeVersion2 | packages/syncing-server/src/Domain/UseCase/Syncing/GetItems/GetItems.ts:114-115 | A version 2 token of T whole seconds decodes to T × 1 000 000 microseconds. |
| GetItems.CursorRoundTrip | packages/syncing-server/src/Domain/UseCase/Syncing/GetItems/GetItems.ts:76-81 | Decoding an emitted cursor token gives back exactly the timestamp it was built from, when base64 decoding undoes base64 encoding. |
| GetItems.UpperBoundLimit | packages/syncing-server/src/Domain/UseCase/Syncing/GetItems/GetItems.ts:39-40 | The page size is at most the server maximum. It is 150 (capped) when the limit is absent or below 1. Otherwise it is the requested limit, or the maximum when the maximum is smaller. |
| GetItems.ExclusiveSharedVaultUuids | packages/syncing-server/src/Domain/UseCase/Syncing/GetItems/GetItems.ts:45-47 | The exclusive vault list is an order-preserving subsequence of the requested list. It holds exactly the requested vaults that the user is a member of, each as many times as it was requested. |
| GetItems.BuildItemQuery | packages/syncing-server/src/Domain/UseCase/Syncing/GetItems/GetItems.ts:38-60 | The query compares with >= exactly when a truthy cursor token is given, uses the clamped limit, and excludes deleted items only without a truthy last sync time. It includes all memberships only when no vault list was requested, and otherwise scopes to the filtered list. |
| GetItems.NeedsCursor | packages/syncing-server/src/Domain/UseCase/Syncing/GetItems/GetItems.ts:63-78 | A page needs a cursor when the byte budget ran out before the end of the items, or when `countAll` finds more matching rows than the page size. |
| GetItems.FetchPage | packages/syncing-server/src/Domain/UseCase/Syncing/GetItems/GetItems.ts:38-87 | Once the token and the user uuid are checked, the call fails, only with the no-item-for-cursor error, exactly when a cursor is needed but no row was fetched. Otherwise it returns a page (`IsPage`): the selection's rows (none for an empty selection), and a cursor exactly when the byte budget ran out or `countAll` exceeds the page size, encoding the last row's time. |
| GetItems.PageCursorResumes | packages/syncing-server/src/Domain/UseCase/Syncing/GetItems/GetItems.ts:76-81 | Resuming from a page's cursor reads back exactly the time of the page's last row, when base64 decoding undoes base64 encoding. |
| GetItems.Execute | packages/syncing-server/src/Domain/UseCase/Syncing/GetItems/GetItems.ts:25-88 | Each error is returned exactly when its cause holds: the version error for an undecodable token, the user-uuid error for an invalid uuid after a good token, and the no-item-for-cursor error for a needed cursor with no fetched row. So a valid request whose page needs no cursor succeeds. A success is the page for the decoded last sync time, and resuming from its cursor reads back the last row's time. |
| SyncItems.SyncConflictIds | packages/syncing-server/src/Domain/UseCase/SyncItems.ts:82-87 | An id is collected exactly when some sync conflict carries a server item with that uuid. |
| SyncItems.WithoutIds | packages/syncing-server/src/Domain/UseCase/SyncItems.ts:89 | The filter keeps an order-preserving subsequence: exactly the items whose uuid is not listed, every copy of each. |
| SyncItems.FilterOutSyncConflictsForConsecutiveSyncs | packages/syncing-server/src/Domain/UseCase/SyncItems.ts:78-90 | The loop's result is the filter of the retrieved items by the collected conflict ids. It is an order-preserving subsequence, and it drops an item, every copy of it, exactly when a sync conflict with a server item names its uuid; other items keep their multiplicity. |
| SyncItems.IsFirstSync | packages/syncing-server/src/Domain/UseCase/SyncItems.ts:74-76 | A first sync is one whose sync token is undefined or null. |
| SyncItems.FirstSyncIgnoresCursor | packages/syncing-server/src/Domain/UseCase/SyncItems.ts:74-76 | Whether a sync is a first sync does not depend on the cursor token. |
| SyncItems.IsGroupExclusiveSync | packages/syncing-server/src/Domain/UseCase/SyncItems.ts:37 | A sync is group-exclusive when it names a non-empty list of groups. |
| SyncItems.GroupSyncTestsAgree | packages/syncing-server/src/Domain/UseCase/SyncItems.ts:37-49 | The two tests on the group list are complementary: group keys are fetched exactly when the sync is not group-exclusive. |
| SyncItems.Execute | packages/syncing-server/src/Domain/UseCase/SyncItems.ts:18-72 | The sync token, saved items and conflicts come from the save; the cursor comes from the retrieval. Contacts and group keys use the same last sync time, and group keys are empty on a vault-scoped sync. The retrieved items are exactly the retrieval's items without the sync-conflict ids, front-loaded only on a first sync (no sync token) that is not vault-scoped. |
| GroupUserService.GroupUserService.AddGroupUser | packages/syncing-server/src/Domain/GroupUser/Service/GroupUserService.ts:21-47 | Adding a member to a missing group fails with the thrown error, as a `NonExistentGroup` failure, and changes nothing. Otherwise it drops the user's removal records for the group and adds exactly one member with the given permissions, with created == updated. It keeps the store free of orphans. |
| GroupUserService.GroupUserService.GetAllGroupUsersForUser | packages/syncing-server/src/Domain/GroupUser/Service/GroupUserService.ts:49-51 | The result is exactly the user's memberships. |
| GroupUserService.GroupUserService.GetUserForGroup | packages/syncing-server/src/Domain/GroupUser/Service/GroupUserService.ts:53-55 | A membership is found exactly when the user belongs to the group, and the one found is theirs in that group. |
| GroupUserService.GroupUserService.GetGroupUsersForGroup | packages/syncing-server/src/Domain/GroupUser/Service/GroupUserService.ts:57-82 | The members are listed only for an existing group and an originator who is its owner or a member. The list holds exactly the group's members, and `isAdmin` is true exactly for the owner. |
| GroupUserService.GroupUserService.DeleteGroupUser | packages/syncing-server/src/Domain/GroupUser/Service/GroupUserService.ts:84-112 | A removal succeeds exactly for an existing group, a target who is not its owner, an originator who is the owner or the target, and an existing membership. It removes exactly one such membership and appends one removal record naming the originator. A refusal changes nothing. |
| GroupUserService.GroupUserService.DeleteAllGroupUsersForGroup | packages/syncing-server/src/Domain/GroupUser/Service/GroupUserService.ts:114-131 | Only the owner may remove all members. It removes exactly the group's memberships and appends one removal record per removed member, in visiting order. |
| SharedVaultInviteService.SharedVaultInviteService.CreateInvite | packages/syncing-server/src/Domain/SharedVaultInvite/Service/SharedVaultInviteService.ts:23-45 | Only the vault's owner may invite. The invite copies the request, names the originator as inviter, has created == updated, and is the only change. |
| SharedVaultInviteService.SharedVaultInviteService.UpdateInvite | packages/syncing-server/src/Domain/SharedVaultInvite/Service/SharedVaultInviteService.ts:47-61 | Only the inviter may update. The key material is replaced, the permissions only when given, and the update time is refreshed. Invitee, vault, inviter, type and creation time are unchanged. |
| SharedVaultInviteService.SharedVaultInviteService.GetInvitesForUser | packages/syncing-server/src/Domain/SharedVaultInvite/Service/SharedVaultInviteService.ts:63-65 | The result is exactly the invites addressed to the user. |
| SharedVaultInviteService.SharedVaultInviteService.GetOutboundInvitesForUser | packages/syncing-server/src/Domain/SharedVaultInvite/Service/SharedVaultInviteService.ts:67-71 | The result is exactly the invites the user sent. |
| SharedVaultInviteService.SharedVaultInviteService.RemoveInvites | packages/syncing-server/src/Domain/SharedVaultInvite/Service/SharedVaultInviteService.ts:78-80 | The removal loop removes exactly the invites with the given keys, one at a time, and no other record changes. |
| SharedVaultInviteService.SharedVaultInviteService.DeleteAllInboundInvites | packages/syncing-server/src/Domain/SharedVaultInvite/Service/SharedVaultInviteService.ts:73-81 | It removes exactly the invites whose invitee is the user, and no other record changes. |
| SharedVaultInviteService.SharedVaultInviteService.GetInvitesForSharedVault | packages/syncing-server/src/Domain/SharedVaultInvite/Service/SharedVaultInviteService.ts:83-100 | The listing is given only to the owner of an existing vault, and holds exactly that vault's invites. |
| SharedVaultInviteService.SharedVaultInviteService.AcceptInvite | packages/syncing-server/src/Domain/SharedVaultInvite/Service/SharedVaultInviteService.ts:102-128 | A missing invite or an originator who is not the invitee gives false. A join invite adds the invitee as a member with the invite's permissions; when its vault no longer exists, the error thrown by the membership add propagates and nothing changes. Otherwise the invite is removed and the result is true. |
| SharedVaultInviteService.SharedVaultInviteService.DeclineInvite | packages/syncing-server/src/Domain/SharedVaultInvite/Service/SharedVaultInviteService.ts:130-144 | Only the invitee may decline, and declining removes exactly that invite. |
| SharedVaultInviteService.SharedVaultInviteService.DeleteInvite | packages/syncing-server/src/Domain/SharedVaultInvite/Service/SharedVaultInviteService.ts:146-160 | The inviter or the invitee may delete an invite, and nobody else. Deleting removes exactly that invite. |
| SharedVaultInviteService.SharedVaultInviteService.DeleteAllInvitesForSharedVault | packages/syncing-server/src/Domain/SharedVaultInvite/Service/SharedVaultInviteService.ts:162-176 | Only the owner may remove a vault's invites. It removes exactly those invites, and none for the vault remains. |
| GroupService.GroupService.CreateGroup | packages/syncing-server/src/Domain/Group/Service/GroupService.ts:18-47 | Creating an existing group returns nothing and changes nothing. A new group has a 1 000 000-byte quota with 0 used and created == updated. Its creator becomes its owner and an admin member. |
| GroupService.GroupService.GetGroups | packages/syncing-server/src/Domain/Group/Service/GroupService.ts:55-67 | The result is exactly the groups the user is a member of, filtered by the last sync time. It is empty when the user has no memberships. |
| GroupService.GroupService.UpdateGroup | packages/syncing-server/src/Domain/Group/Service/GroupService.ts:69-81 | Only the owner may update. The update changes only the items-key uuid and the update time. |
| GroupService.GroupService.DeleteGroupAsWritten | packages/syncing-server/src/Domain/Group/Service/GroupService.ts:83-100 | In the source's order, an owner's deletion removes the group, and every membership, invite and removal record stays as it was. |
| GroupService.DeleteGroupAsWrittenLeavesOrphan | packages/syncing-server/src/Domain/Group/Service/GroupService.ts:89-97 | An owner who creates a vault and deletes it is still its member afterwards, and the store holds an orphan. |
| GroupService.GroupService.DeleteGroup | packages/syncing-server/src/Domain/Group/Service/GroupService.ts:83-100 | Only the owner may delete. Deletion removes the group, exactly its memberships (one removal record each) and exactly its invites, and keeps the store free of orphans. |
| GroupService.DeleteGroupRemovesMembers | packages/syncing-server/src/Domain/Group/Service/GroupService.ts:83-100 | The same create-then-delete run with the corrected deletion leaves no membership of the vault and no orphan. |

## Left out

- **Outside the model.** Base64 encoding and decoding, the version 1 date parser, the item repository, the transfer calculator's byte-budget algorithm, `frontLoadKeysItemsToTop`, and the contact and group-key lookups are function parameters. Their code is not part of this model.
- **Clocks and uuids.** `uuidv4()` and the timer are method parameters. A fresh uuid is required not to be in use already.
- `GetItems.Execute` does not model the repository's ordering by `updated_at_timestamp` or what `findAll` returns. The "last item" of the cursor is the last of whatever `findAll` returns.
- `TokenText.ToNumber` models JavaScript's unary `+` only for the empty string and unsigned decimals. Other number syntaxes (signs, exponents, hex, whitespace, Infinity) read as NaN.
- `TokenText.RenderSeconds` renders `updatedAt / 1e6` as an exact decimal. It does not model IEEE-754 rounding or exponent notation for very large or very small values.
- **Asynchrony.** All repository calls are taken as atomic and sequential; interleaving of concurrent requests is not modelled.
- **Integer widths.** Integers are unbounded; the 64-bit representation of timestamps is not modelled.
- **Removal records.** `deleteRemovedGroupUser` is not part of this model. `AddGroupUser` takes it to drop every removal record of that user in that group.
- `GroupUserService.GroupUserService.GetAllGroupUsersForUser` filters by user only. `findAllForUser(dto)` receives the whole request (GroupUserService.ts:50), and any other filter in it is not modelled, because the repository's code is not part of this model.
- `SharedVaultInviteService.SharedVaultInviteService.AcceptInvite` has no counterpart of the `return false` for a falsy membership (SharedVaultInviteService.ts:120-122): the repository's `create` is taken to return the stored membership, so the add either succeeds or throws.
- `GroupService.getGroup` is not modelled: it is a plain repository lookup with no rule of its own.
- `SharedVaultInviteService.SharedVaultInviteService.GetInvitesForUser` filters by invitee only. Any other filter in the request is not modelled, because the request's type is not part of this model.
- `GroupService.GroupService.GetGroups` takes the repository's `lastSyncTime` filter to be "updated strictly after". The repository's code is not part of this model.
- **Record identity.** Entities are values stored in maps, so aliasing between a fetched entity and the stored one is not modelled. An in-place field update is modelled as replacing the stored record.
- `SyncItems.Execute` does not model that `itemService.getItems` is called with `groupUuids` while the retrieval use case reads `sharedVaultUuids`.
- **The save-operation classifier.** `GetSharedVaultSaveOperation`, which derives the save operation, is not part of this model. `SharedVaultFilter.Check` takes its result as an input.
- `SharedVaultFilter.GetResultForOperation` has no unsupported-operation error (SharedVaultFilter.ts:49): the operation datatype has exactly the five supported kinds.

## Findings

| source | as written | input that shows it | evidently intended | confidence | as-written member | corrected member |
|---|---|---|---|---|---|---|
| packages/syncing-server/src/Domain/Group/Service/GroupService.ts:89-97 | The group is removed first. `deleteAllGroupUsersForGroup` then looks the group up again, finds none and returns false, so no membership is removed. The invite cascade is written the same way and is refused the same way. | Owner "owner" creates vault "vault", which makes them its admin member, and then deletes it. The membership of "owner" in "vault" remains, pointing to a vault that no longer exists. | Deleting a group removes its members, each with a removal record, and its invites; no membership or invite of a deleted group remains. | not executed; high for memberships (GroupUserService.ts:115-118 re-reads the group), the same for invites if the group invite service checks ownership the way SharedVaultInviteService.ts:163-166 does | GroupService.GroupService.DeleteGroupAsWritten, GroupService.DeleteGroupAsWrittenLeavesOrphan | GroupService.GroupService.DeleteGroup |
