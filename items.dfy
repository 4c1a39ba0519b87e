/** The item, item-hash and conflict shapes that the save rules and the sync use cases exchange. */
module Items {
  import opened Wrappers

  type Uuid = string

  /** Content type of the privileged items key of a key system. */
  const KeySystemItemsKey: string := "SN|KeySystemItemsKey"

  /** Permission of a member of a shared vault (or group). */
  datatype Permission = Read | Write | Admin

  /** An item as the client sends it; an absent `deleted` flag reads as false. */
  datatype ItemHash = ItemHash(
    uuid: Uuid,
    contentType: string,
    deleted: bool,
    sharedVaultUuid: Option<string>,
    keySystemIdentifier: Option<string>)

  /** An item as the server stores it; `updatedAt` is in microseconds. */
  datatype Item = Item(
    uuid: Uuid,
    userUuid: Uuid,
    contentType: string,
    deleted: bool,
    updatedAt: nat)

  datatype ConflictType =
    | SyncConflict                           // 'sync_conflict'
    | UuidConflict                           // 'uuid_conflict'
    | SharedVaultNotMemberError              // 'shared_vault_not_member_error'
    | SharedVaultInsufficientPermissionsError  // 'shared_vault_insufficient_permissions_error'
    | SharedVaultInvalidState                // 'shared_vault_invalid_state'
    | OtherConflict(name: string)            // the kinds no rule of this model produces

  /** A rejected write: the item the client sent and, for some kinds, the server's copy. */
  datatype Conflict = Conflict(unsavedItem: Option<ItemHash>, serverItem: Option<Item>, conflictType: ConflictType)

  /** JavaScript truthiness of an optional string: present and not empty. */
  predicate Truthy(s: Option<string>) {
    s.Some? && s.value != ""
  }
}
