/**
 * The sync use case: retrieve, save, drop the retrieved items that the save
 * just reported as sync conflicts, and assemble the response with the group
 * keys and contacts. The item, group-user and contact services are the
 * function fields of `Services`.
 */
module SyncItems {
  import opened Wrappers
  import opened Items
  import opened TokenText
  import opened Subsequences

  /** A membership record as the group-user service returns it (its other fields are not modelled). */
  datatype GroupUserKey = GroupUserKey(uuid: Uuid, groupUuid: Uuid, userUuid: Uuid)

  /** A contact record (its fields are not modelled). */
  datatype Contact = Contact(uuid: Uuid)

  datatype SyncItemsDto = SyncItemsDto(
    userUuid: Uuid,
    syncToken: Option<string>,
    cursorToken: Option<string>,
    limit: Option<int>,
    contentType: Option<string>,
    groupUuids: Option<seq<Uuid>>,
    itemHashes: seq<ItemHash>,
    apiVersion: string,
    readOnlyAccess: bool,
    sessionUuid: Option<string>)

  datatype GetItemsRequest = GetItemsRequest(
    userUuid: Uuid, syncToken: Option<string>, groupUuids: Option<seq<Uuid>>,
    cursorToken: Option<string>, limit: Option<int>, contentType: Option<string>)

  datatype GetItemsReply = GetItemsReply(items: seq<Item>, cursorToken: Option<string>)

  datatype SaveItemsRequest = SaveItemsRequest(
    itemHashes: seq<ItemHash>, userUuid: Uuid, apiVersion: string, readOnlyAccess: bool, sessionUuid: Option<string>)

  datatype SaveItemsReply = SaveItemsReply(savedItems: seq<Item>, conflicts: seq<Conflict>, syncToken: string)

  datatype Services = Services(
    getItems: GetItemsRequest -> GetItemsReply,
    saveItems: SaveItemsRequest -> SaveItemsReply,
    frontLoadKeysItemsToTop: (Uuid, seq<Item>) -> seq<Item>,
    getLastSyncTime: (Option<string>, Option<string>) -> Option<JsNumber>,
    getGroupUsersForUser: (Uuid, Option<JsNumber>) -> seq<GroupUserKey>,
    getUserContacts: (Uuid, Option<JsNumber>) -> seq<Contact>)

  datatype SyncItemsResponse = SyncItemsResponse(
    retrievedItems: seq<Item>,
    syncToken: string,
    savedItems: seq<Item>,
    conflicts: seq<Conflict>,
    cursorToken: Option<string>,
    groupKeys: seq<GroupUserKey>,
    contacts: seq<Contact>)

  /** A conflict that names a server item the client must not also receive as retrieved. */
  predicate IsSyncConflictWithServerItem(c: Conflict) {
    c.conflictType == SyncConflict && c.serverItem.Some?
  }

  /** Whether some sync conflict carries the server item `uuid`. */
  predicate ConflictsWithServerItem(conflicts: seq<Conflict>, uuid: Uuid) {
    exists c :: c in conflicts && IsSyncConflictWithServerItem(c) && c.serverItem.value.uuid == uuid
  }

  /** The server-item uuids of the sync conflicts, in conflict order. */
  function SyncConflictIds(conflicts: seq<Conflict>): (ids: seq<Uuid>)
    ensures forall id :: id in ids <==> ConflictsWithServerItem(conflicts, id)
  {
    if conflicts == [] then []
    else
      var c := conflicts[|conflicts| - 1];
      var front := conflicts[..|conflicts| - 1];
      assert conflicts == front + [c];
      SyncConflictIds(front) + if IsSyncConflictWithServerItem(c) then [c.serverItem.value.uuid] else []
  }

  /**
   * The items whose uuid is not listed, in their order. Every copy of a kept
   * item is kept, so the subsequence is determined by the multiplicities.
   */
  function WithoutIds(items: seq<Item>, ids: seq<Uuid>): (r: seq<Item>)
    ensures IsSubsequence(r, items)
    ensures forall it :: it in r <==> it in items && it.uuid !in ids
    ensures forall it :: multiset(r)[it] == if it.uuid in ids then 0 else multiset(items)[it]
  {
    if items == [] then []
    else
      var tail := WithoutIds(items[1..], ids);
      assert items == [items[0]] + items[1..];
      if items[0].uuid in ids then tail else [items[0]] + tail
  }

  method FilterOutSyncConflictsForConsecutiveSyncs(retrievedItems: seq<Item>, conflicts: seq<Conflict>)
    returns (kept: seq<Item>)
    ensures kept == WithoutIds(retrievedItems, SyncConflictIds(conflicts))
    ensures IsSubsequence(kept, retrievedItems)
    ensures forall it :: it in kept <==> it in retrievedItems && !ConflictsWithServerItem(conflicts, it.uuid)
    ensures forall it :: multiset(kept)[it]
                         == if ConflictsWithServerItem(conflicts, it.uuid) then 0 else multiset(retrievedItems)[it]
  {
    var syncConflictIds: seq<Uuid> := [];
    var i := 0;
    while i < |conflicts|
      invariant 0 <= i <= |conflicts|
      invariant syncConflictIds == SyncConflictIds(conflicts[..i])
    {
      var conflict := conflicts[i];
      if conflict.conflictType == SyncConflict && conflict.serverItem.Some? {
        syncConflictIds := syncConflictIds + [conflict.serverItem.value.uuid];
      }
      assert conflicts[..i + 1][..i] == conflicts[..i];
      i := i + 1;
    }
    assert conflicts[..i] == conflicts;
    kept := WithoutIds(retrievedItems, syncConflictIds);
  }

  /** A first sync is one without a sync token (undefined or null); the cursor token plays no part. */
  predicate IsFirstSync(dto: SyncItemsDto) {
    dto.syncToken.None?
  }

  /** A sync scoped to a non-empty list of groups. */
  predicate IsGroupExclusiveSync(dto: SyncItemsDto) {
    dto.groupUuids.Some? && |dto.groupUuids.value| > 0
  }

  /** Whether a sync is a first sync does not depend on the cursor token. */
  lemma FirstSyncIgnoresCursor(dto: SyncItemsDto, cursorToken: Option<string>)
    ensures IsFirstSync(dto.(cursorToken := cursorToken)) == IsFirstSync(dto)
  {
  }

  /**
   * The two tests of `execute` on the group list are complementary: group
   * keys are fetched exactly when the sync is not group-exclusive.
   */
  lemma GroupSyncTestsAgree(dto: SyncItemsDto)
    ensures IsGroupExclusiveSync(dto) <==> !(dto.groupUuids.None? || |dto.groupUuids.value| == 0)
  {
  }

  method Execute(dto: SyncItemsDto, services: Services) returns (response: SyncItemsResponse)
    ensures
      var got := services.getItems(GetItemsRequest(dto.userUuid, dto.syncToken, dto.groupUuids, dto.cursorToken,
                                                   dto.limit, dto.contentType));
      var saved := services.saveItems(SaveItemsRequest(dto.itemHashes, dto.userUuid, dto.apiVersion,
                                                       dto.readOnlyAccess, dto.sessionUuid));
      var lastSyncTime := services.getLastSyncTime(dto.syncToken, dto.cursorToken);
      && response.syncToken == saved.syncToken
      && response.savedItems == saved.savedItems
      && response.conflicts == saved.conflicts
      && response.cursorToken == got.cursorToken
      && response.contacts == services.getUserContacts(dto.userUuid, lastSyncTime)
      && response.groupKeys == (if IsGroupExclusiveSync(dto) then [] else services.getGroupUsersForUser(dto.userUuid, lastSyncTime))
      && var kept := WithoutIds(got.items, SyncConflictIds(saved.conflicts));
         && (IsFirstSync(dto) && !IsGroupExclusiveSync(dto) ==>
               response.retrievedItems == services.frontLoadKeysItemsToTop(dto.userUuid, kept))
         && (!IsFirstSync(dto) || IsGroupExclusiveSync(dto) ==> response.retrievedItems == kept)
  {
    var getItemsResult := services.getItems(GetItemsRequest(dto.userUuid, dto.syncToken, dto.groupUuids,
                                                            dto.cursorToken, dto.limit, dto.contentType));
    var saveItemsResult := services.saveItems(SaveItemsRequest(dto.itemHashes, dto.userUuid, dto.apiVersion,
                                                               dto.readOnlyAccess, dto.sessionUuid));

    var retrievedItems := FilterOutSyncConflictsForConsecutiveSyncs(getItemsResult.items, saveItemsResult.conflicts);
    var isGroupExclusiveSync := dto.groupUuids.Some? && |dto.groupUuids.value| > 0;
    if IsFirstSync(dto) && !isGroupExclusiveSync {
      retrievedItems := services.frontLoadKeysItemsToTop(dto.userUuid, retrievedItems);
    }

    var lastSyncTime := services.getLastSyncTime(dto.syncToken, dto.cursorToken);

    var newUserKeys: seq<GroupUserKey> := [];
    var isNotPerformingGroupSpecificSync := dto.groupUuids.None? || |dto.groupUuids.value| == 0;
    if isNotPerformingGroupSpecificSync {
      newUserKeys := services.getGroupUsersForUser(dto.userUuid, lastSyncTime);
    }

    var contacts := services.getUserContacts(dto.userUuid, lastSyncTime);

    response := SyncItemsResponse(retrievedItems, saveItemsResult.syncToken, saveItemsResult.savedItems,
                                  saveItemsResult.conflicts, getItemsResult.cursorToken, newUserKeys, contacts);
  }
}
