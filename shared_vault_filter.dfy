/**
 * The save rule that authorizes writes touching a shared vault. The derived
 * operation (computed from the incoming item hash and the server item by
 * GetSharedVaultSaveOperation) is an input; the membership lookup is a
 * function parameter.
 */
module SharedVaultFilter {
  import opened Wrappers
  import opened Items

  /** The shared-vault save operations, one per tag. */
  datatype SaveOperation =
    | AddToSharedVault(userUuid: Uuid, sharedVaultUuid: Uuid, incomingItem: ItemHash, existingItem: Item)
    | RemoveFromSharedVault(userUuid: Uuid, sharedVaultUuid: Uuid, incomingItem: ItemHash, existingItem: Item)
    | MoveToOtherSharedVault(userUuid: Uuid, sharedVaultUuid: Uuid, targetSharedVaultUuid: Uuid,
                             incomingItem: ItemHash, existingItem: Item)
    | SaveToSharedVault(userUuid: Uuid, sharedVaultUuid: Uuid, incomingItem: ItemHash, existingItem: Item)
    | CreateToSharedVault(userUuid: Uuid, sharedVaultUuid: Uuid, incomingItem: ItemHash)
  {
    /** The server item the operation carries (a create carries none). */
    function ServerItem(): Option<Item> {
      if CreateToSharedVault? then None else Some(existingItem)
    }

    /** Every vault whose membership the operation's handler consults. */
    function Vaults(): set<Uuid> {
      if MoveToOtherSharedVault? then {sharedVaultUuid, targetSharedVaultUuid} else {sharedVaultUuid}
    }
  }

  /** The membership lookup: the permission of (user, vault), or None for a non-member. */
  type PermissionLookup = (Uuid, Uuid) -> Option<Permission>

  datatype RuleResult = Passed | Failed(conflict: Conflict)

  predicate FailsWith(r: RuleResult, kind: ConflictType) {
    r.Failed? && r.conflict.conflictType == kind
  }

  /** The kinds whose conflict echoes the server item back to the client. */
  predicate EchoesServerItem(kind: ConflictType) {
    kind == SharedVaultInvalidState || kind == SharedVaultInsufficientPermissionsError
  }

  /** The shape every failure of this rule has: the incoming item, and the server item only for the echoing kinds. */
  predicate WellFormedFailure(op: SaveOperation, r: RuleResult) {
    r.Failed? ==>
      && r.conflict.unsavedItem == Some(op.incomingItem)
      && r.conflict.serverItem == (if EchoesServerItem(r.conflict.conflictType) then op.ServerItem() else None)
  }

  /** Only an admin may write the items key of a key system; any member may write other content types. */
  function IsAuthorizedToSaveContentType(contentType: string, permissions: Permission): (ok: bool)
    ensures ok <==> (contentType == KeySystemItemsKey ==> permissions == Admin)
    ensures contentType == KeySystemItemsKey ==> (ok <==> permissions == Admin)
  {
    if contentType == KeySystemItemsKey then permissions == Admin else true
  }

  function BuildFailResult(op: SaveOperation, kind: ConflictType): (r: RuleResult)
    ensures FailsWith(r, kind) && WellFormedFailure(op, r)
  {
    Failed(Conflict(Some(op.incomingItem), if EchoesServerItem(kind) then op.ServerItem() else None, kind))
  }

  /** Write access in a vault, by the rules every handler applies. */
  predicate CanWrite(p: Permission, contentType: string) {
    p != Read && IsAuthorizedToSaveContentType(contentType, p)
  }

  function HandleAddToSharedVault(op: SaveOperation, lookup: PermissionLookup): (r: RuleResult)
    requires op.AddToSharedVault?
    ensures WellFormedFailure(op, r)
    ensures FailsWith(r, SharedVaultNotMemberError) <==> lookup(op.userUuid, op.sharedVaultUuid).None?
    ensures FailsWith(r, SharedVaultInvalidState) <==>
      lookup(op.userUuid, op.sharedVaultUuid).Some? && (op.existingItem.deleted || op.incomingItem.deleted)
    ensures FailsWith(r, SharedVaultInsufficientPermissionsError) <==>
      && lookup(op.userUuid, op.sharedVaultUuid).Some?
      && !op.existingItem.deleted && !op.incomingItem.deleted
      && !CanWrite(lookup(op.userUuid, op.sharedVaultUuid).value, op.incomingItem.contentType)
    ensures FailsWith(r, UuidConflict) <==>
      && lookup(op.userUuid, op.sharedVaultUuid).Some?
      && !op.existingItem.deleted && !op.incomingItem.deleted
      && CanWrite(lookup(op.userUuid, op.sharedVaultUuid).value, op.incomingItem.contentType)
      && op.existingItem.userUuid != op.userUuid
    ensures r.Passed? <==>
      && lookup(op.userUuid, op.sharedVaultUuid).Some?
      && !op.existingItem.deleted && !op.incomingItem.deleted
      && CanWrite(lookup(op.userUuid, op.sharedVaultUuid).value, op.incomingItem.contentType)
      && op.existingItem.userUuid == op.userUuid
  {
    var permissions := lookup(op.userUuid, op.sharedVaultUuid);
    if permissions.None? then BuildFailResult(op, SharedVaultNotMemberError)
    else if op.existingItem.deleted || op.incomingItem.deleted then BuildFailResult(op, SharedVaultInvalidState)
    else if !IsAuthorizedToSaveContentType(op.incomingItem.contentType, permissions.value) then
      BuildFailResult(op, SharedVaultInsufficientPermissionsError)
    else if permissions.value == Read then BuildFailResult(op, SharedVaultInsufficientPermissionsError)
    else if op.existingItem.userUuid != op.userUuid then BuildFailResult(op, UuidConflict)
    else Passed
  }

  function HandleRemoveFromSharedVault(op: SaveOperation, lookup: PermissionLookup): (r: RuleResult)
    requires op.RemoveFromSharedVault?
    ensures WellFormedFailure(op, r)
    ensures !FailsWith(r, UuidConflict)
    ensures FailsWith(r, SharedVaultNotMemberError) <==> lookup(op.userUuid, op.sharedVaultUuid).None?
    ensures FailsWith(r, SharedVaultInvalidState) <==>
      lookup(op.userUuid, op.sharedVaultUuid).Some? && (op.existingItem.deleted || op.incomingItem.deleted)
    ensures FailsWith(r, SharedVaultInsufficientPermissionsError) <==>
      && lookup(op.userUuid, op.sharedVaultUuid).Some?
      && !op.existingItem.deleted && !op.incomingItem.deleted
      && (op.existingItem.userUuid != op.userUuid
          || !CanWrite(lookup(op.userUuid, op.sharedVaultUuid).value, op.incomingItem.contentType))
    ensures r.Passed? <==>
      && lookup(op.userUuid, op.sharedVaultUuid).Some?
      && !op.existingItem.deleted && !op.incomingItem.deleted
      && op.existingItem.userUuid == op.userUuid
      && CanWrite(lookup(op.userUuid, op.sharedVaultUuid).value, op.incomingItem.contentType)
  {
    var permissions := lookup(op.userUuid, op.sharedVaultUuid);
    if permissions.None? then BuildFailResult(op, SharedVaultNotMemberError)
    else if op.existingItem.deleted || op.incomingItem.deleted then BuildFailResult(op, SharedVaultInvalidState)
    else if op.existingItem.userUuid != op.userUuid then BuildFailResult(op, SharedVaultInsufficientPermissionsError)
    else if !IsAuthorizedToSaveContentType(op.incomingItem.contentType, permissions.value) then
      BuildFailResult(op, SharedVaultInsufficientPermissionsError)
    else if permissions.value == Read then BuildFailResult(op, SharedVaultInsufficientPermissionsError)
    else Passed
  }

  function HandleMoveToOtherSharedVault(op: SaveOperation, lookup: PermissionLookup): (r: RuleResult)
    requires op.MoveToOtherSharedVault?
    ensures WellFormedFailure(op, r)
    ensures !FailsWith(r, UuidConflict)
    ensures FailsWith(r, SharedVaultNotMemberError) <==>
      lookup(op.userUuid, op.sharedVaultUuid).None? || lookup(op.userUuid, op.targetSharedVaultUuid).None?
    ensures FailsWith(r, SharedVaultInvalidState) <==>
      && lookup(op.userUuid, op.sharedVaultUuid).Some? && lookup(op.userUuid, op.targetSharedVaultUuid).Some?
      && (op.existingItem.deleted || op.incomingItem.deleted)
    ensures FailsWith(r, SharedVaultInsufficientPermissionsError) <==>
      && lookup(op.userUuid, op.sharedVaultUuid).Some? && lookup(op.userUuid, op.targetSharedVaultUuid).Some?
      && !op.existingItem.deleted && !op.incomingItem.deleted
      && (!CanWrite(lookup(op.userUuid, op.sharedVaultUuid).value, op.incomingItem.contentType)
          || !CanWrite(lookup(op.userUuid, op.targetSharedVaultUuid).value, op.incomingItem.contentType))
    ensures r.Passed? <==>
      && lookup(op.userUuid, op.sharedVaultUuid).Some? && lookup(op.userUuid, op.targetSharedVaultUuid).Some?
      && !op.existingItem.deleted && !op.incomingItem.deleted
      && CanWrite(lookup(op.userUuid, op.sharedVaultUuid).value, op.incomingItem.contentType)
      && CanWrite(lookup(op.userUuid, op.targetSharedVaultUuid).value, op.incomingItem.contentType)
  {
    var source := lookup(op.userUuid, op.sharedVaultUuid);
    var target := lookup(op.userUuid, op.targetSharedVaultUuid);
    if source.None? || target.None? then BuildFailResult(op, SharedVaultNotMemberError)
    else if op.existingItem.deleted || op.incomingItem.deleted then BuildFailResult(op, SharedVaultInvalidState)
    else if source.value == Read || target.value == Read then
      BuildFailResult(op, SharedVaultInsufficientPermissionsError)
    else if !IsAuthorizedToSaveContentType(op.incomingItem.contentType, source.value)
         || !IsAuthorizedToSaveContentType(op.incomingItem.contentType, target.value) then
      BuildFailResult(op, SharedVaultInsufficientPermissionsError)
    else Passed
  }

  /** Shared by save-to and create-to: neither looks at deletion state or ownership. */
  function HandleSaveOrCreateToSharedVault(op: SaveOperation, lookup: PermissionLookup): (r: RuleResult)
    requires op.SaveToSharedVault? || op.CreateToSharedVault?
    ensures WellFormedFailure(op, r)
    ensures !FailsWith(r, UuidConflict) && !FailsWith(r, SharedVaultInvalidState)
    ensures FailsWith(r, SharedVaultNotMemberError) <==> lookup(op.userUuid, op.sharedVaultUuid).None?
    ensures FailsWith(r, SharedVaultInsufficientPermissionsError) <==>
      && lookup(op.userUuid, op.sharedVaultUuid).Some?
      && !CanWrite(lookup(op.userUuid, op.sharedVaultUuid).value, op.incomingItem.contentType)
    ensures r.Passed? <==>
      && lookup(op.userUuid, op.sharedVaultUuid).Some?
      && CanWrite(lookup(op.userUuid, op.sharedVaultUuid).value, op.incomingItem.contentType)
  {
    var permissions := lookup(op.userUuid, op.sharedVaultUuid);
    if permissions.None? then BuildFailResult(op, SharedVaultNotMemberError)
    else if !IsAuthorizedToSaveContentType(op.incomingItem.contentType, permissions.value) then
      BuildFailResult(op, SharedVaultInsufficientPermissionsError)
    else if permissions.value == Read then BuildFailResult(op, SharedVaultInsufficientPermissionsError)
    else Passed
  }

  function GetResultForOperation(op: SaveOperation, lookup: PermissionLookup): (r: RuleResult)
    ensures WellFormedFailure(op, r)
  {
    match op
    case AddToSharedVault(_, _, _, _) => HandleAddToSharedVault(op, lookup)
    case RemoveFromSharedVault(_, _, _, _) => HandleRemoveFromSharedVault(op, lookup)
    case MoveToOtherSharedVault(_, _, _, _, _) => HandleMoveToOtherSharedVault(op, lookup)
    case SaveToSharedVault(_, _, _, _) => HandleSaveOrCreateToSharedVault(op, lookup)
    case CreateToSharedVault(_, _, _) => HandleSaveOrCreateToSharedVault(op, lookup)
  }

  /**
   * The rule: `operation` is what GetSharedVaultSaveOperation derived from the
   * save request whose incoming item hash is `itemHash` (None: not a shared-vault write).
   */
  function Check(itemHash: ItemHash, operation: Option<SaveOperation>, lookup: PermissionLookup): (r: RuleResult)
    ensures operation.None? ==> r == Passed
    ensures operation.Some? ==> WellFormedFailure(operation.value, r)
    ensures operation.Some? && Truthy(itemHash.sharedVaultUuid) && !Truthy(itemHash.keySystemIdentifier) ==>
      FailsWith(r, SharedVaultInvalidState)
  {
    if operation.None? then Passed
    else if Truthy(itemHash.sharedVaultUuid) && !Truthy(itemHash.keySystemIdentifier) then
      BuildFailResult(operation.value, SharedVaultInvalidState)
    else GetResultForOperation(operation.value, lookup)
  }

  /** An item in a vault without a key system fails as invalid state before, and whatever, the membership lookup says. */
  lemma InvalidStateIgnoresMembership(itemHash: ItemHash, op: SaveOperation, lookup1: PermissionLookup, lookup2: PermissionLookup)
    requires Truthy(itemHash.sharedVaultUuid) && !Truthy(itemHash.keySystemIdentifier)
    ensures Check(itemHash, Some(op), lookup1) == Check(itemHash, Some(op), lookup2)
    ensures Check(itemHash, Some(op), lookup1) == BuildFailResult(op, SharedVaultInvalidState)
  {
  }

  /** A move is symmetric in the source and target permissions. */
  lemma MoveIsSymmetric(op: SaveOperation, lookup: PermissionLookup, swapped: PermissionLookup)
    requires op.MoveToOtherSharedVault?
    requires swapped(op.userUuid, op.sharedVaultUuid) == lookup(op.userUuid, op.targetSharedVaultUuid)
    requires swapped(op.userUuid, op.targetSharedVaultUuid) == lookup(op.userUuid, op.sharedVaultUuid)
    ensures HandleMoveToOtherSharedVault(op, swapped) == HandleMoveToOtherSharedVault(op, lookup)
  {
  }

  /** Demoting either side of a valid move to read makes it fail with insufficient permissions. */
  lemma MoveWithReadSideFails(op: SaveOperation, lookup: PermissionLookup)
    requires op.MoveToOtherSharedVault?
    requires lookup(op.userUuid, op.sharedVaultUuid).Some? && lookup(op.userUuid, op.targetSharedVaultUuid).Some?
    requires !op.existingItem.deleted && !op.incomingItem.deleted
    requires lookup(op.userUuid, op.sharedVaultUuid) == Some(Read) || lookup(op.userUuid, op.targetSharedVaultUuid) == Some(Read)
    ensures FailsWith(HandleMoveToOtherSharedVault(op, lookup), SharedVaultInsufficientPermissionsError)
  {
  }

  /**
   * What a passing shared-vault write needs: in every vault the operation
   * touches, a membership above read, and admin for a key-system items key.
   */
  lemma PassedWriteHasWriteAccess(itemHash: ItemHash, op: SaveOperation, lookup: PermissionLookup, vault: Uuid)
    requires Check(itemHash, Some(op), lookup).Passed?
    requires vault in op.Vaults()
    ensures lookup(op.userUuid, vault).Some?
    ensures lookup(op.userUuid, vault).value != Read
    ensures op.incomingItem.contentType == KeySystemItemsKey ==> lookup(op.userUuid, vault).value == Admin
  {
  }
}
