/**
 * The paginated retrieval use case: decode the sync or cursor token, build
 * the item query, select items within the transfer budget, and emit a cursor
 * when more items remain. The repositories, the transfer calculator, base64
 * and the date parser are the function fields of `Collaborators`.
 */
module GetItems {
  import opened Wrappers
  import opened Items
  import opened TokenText
  import opened Subsequences

  const DefaultItemsLimit: int := 150
  const SyncTokenVersion: string := "2"

  datatype GetItemsDto = GetItemsDto(
    userUuid: string,
    syncToken: Option<string>,
    cursorToken: Option<string>,
    limit: Option<int>,
    contentType: Option<string>,
    sharedVaultUuids: Option<seq<Uuid>>)

  /** '>' or '>=' against the last sync time. */
  datatype Comparison = GreaterThan | GreaterThanOrEqual

  /** The query sent to the item repository; it always sorts by `updated_at_timestamp` ascending. */
  datatype ItemQuery = ItemQuery(
    userUuid: Uuid,
    lastSyncTime: Option<JsNumber>,
    syncTimeComparison: Comparison,
    contentType: Option<string>,
    deleted: Option<bool>,
    limit: int,
    includeSharedVaultUuids: Option<seq<Uuid>>,
    exclusiveSharedVaultUuids: Option<seq<Uuid>>)

  datatype ContentSizeDescriptor = ContentSizeDescriptor(uuid: Uuid, contentSize: int)

  /** What the transfer calculator selected, and whether the byte budget ran out first. */
  datatype TransferSelection = TransferSelection(uuids: seq<Uuid>, transferLimitBreachedBeforeEndOfItems: bool)

  datatype Collaborators = Collaborators(
    base64Decode: string -> string,
    base64Encode: string -> string,
    convertStringDateToMicroseconds: string -> JsNumber,
    isValidUuid: string -> bool,
    sharedVaultUuidsOfUser: Uuid -> seq<Uuid>,
    findContentSizeForComputingTransferLimit: ItemQuery -> seq<ContentSizeDescriptor>,
    computeItemUuidsToFetch: (seq<ContentSizeDescriptor>, int) -> TransferSelection,
    findAll: seq<Uuid> -> seq<Item>,
    countAll: ItemQuery -> int,
    contentSizeTransferLimit: int,
    maxItemsSyncLimit: int)

  datatype GetItemsError =
    | MissingVersionPart   // 'Sync token is missing version part'
    | InvalidUserUuid      // 'User uuid is invalid: ...'
    | NoItemForCursor      // reading the last item of an empty page throws

  datatype GetItemsResult = GetItemsResult(items: seq<Item>, cursorToken: Option<string>, lastSyncTime: Option<JsNumber>)

  // ---- tokens ----

  /** The token to decode: the cursor token whenever it is neither undefined nor null. */
  function SelectedToken(dto: GetItemsDto): (token: Option<string>)
    ensures dto.cursorToken.Some? ==> token == dto.cursorToken
    ensures dto.cursorToken.None? ==> token == dto.syncToken
  {
    if dto.cursorToken.Some? then dto.cursorToken else dto.syncToken
  }

  /** Decodes the text of a token: `<version>:<payload>`. */
  function DecodeTokenText(decoded: string, convertDate: string -> JsNumber): (r: Result<JsNumber, GetItemsError>)
    ensures r.Failure? <==> Split(decoded, ':')[0] != "1" && Split(decoded, ':')[0] != "2"
    ensures r.Failure? ==> r.error == MissingVersionPart
  {
    var parts := Split(decoded, ':');
    var version, rest := parts[0], parts[1..];
    if version == "1" then Success(convertDate(Join(rest, ':')))
    else if version == "2" then
      Success(Times(if |rest| > 0 then ToNumber(rest[0]) else NaN, MicrosecondsInASecond as real))
    else Failure(MissingVersionPart)
  }

  function GetLastSyncTime(dto: GetItemsDto, env: Collaborators): (r: Result<Option<JsNumber>, GetItemsError>)
    ensures !Truthy(SelectedToken(dto)) ==> r == Success(None)
    ensures r.Failure? ==> r.error == MissingVersionPart && Truthy(SelectedToken(dto))
    ensures r.Success? && Truthy(SelectedToken(dto)) ==> r.value.Some?
  {
    var token := SelectedToken(dto);
    if !Truthy(token) then Success(None)
    else
      match DecodeTokenText(env.base64Decode(token.value), env.convertStringDateToMicroseconds)
      case Success(t) => Success(Some(t))
      case Failure(e) => Failure(e)
  }

  /** A version 1 token hands everything after the first ':' to the date parser, colons included. */
  lemma DecodeVersion1(payload: string, convertDate: string -> JsNumber)
    ensures DecodeTokenText("1:" + payload, convertDate) == Success(convertDate(payload))
  {
    assert "1:" + payload == "1" + [':'] + payload;
    SplitAt("1", ':', payload);
    JoinSplit(payload, ':');
  }

  /** A version 2 token hands the text after the ':' to `+` and scales it to microseconds. */
  lemma DecodeVersion2Payload(payload: string, convertDate: string -> JsNumber)
    requires ':' !in payload
    ensures DecodeTokenText(SyncTokenVersion + ":" + payload, convertDate)
         == Success(Times(ToNumber(payload), MicrosecondsInASecond as real))
  {
    var text := SyncTokenVersion + ":" + payload;
    assert text == "2" + [':'] + payload;
    SplitAt("2", ':', payload);
    assert Split(payload, ':') == [payload];
    assert Split(text, ':') == ["2", payload];
  }

  /** A version 2 token of whole epoch seconds decodes to exactly that many seconds in microseconds. */
  lemma DecodeVersion2(epochSeconds: nat, convertDate: string -> JsNumber)
    ensures DecodeTokenText("2:" + NatToDigits(epochSeconds), convertDate)
         == Success(Finite(epochSeconds as real * MicrosecondsInASecond as real))
  {
    var digits := NatToDigits(epochSeconds);
    DigitsHaveNoColon(digits);
    DecodeVersion2Payload(digits, convertDate);
    assert "2:" + digits == SyncTokenVersion + ":" + digits;
    DigitsHaveNoPoint(digits);
    assert ToNumber(digits) == Finite(epochSeconds as real);
  }

  lemma DigitsHaveNoColon(s: string)
    requires AllDigits(s)
    ensures ':' !in s
  {
    forall k | 0 <= k < |s| ensures s[k] != ':' {
      assert IsDigit(s[k]);
    }
  }

  /** The text a cursor token encodes: version 2 and the last item's time in seconds. */
  function CursorText(updatedAt: nat): string {
    SyncTokenVersion + ":" + RenderSeconds(updatedAt)
  }

  /** The text of a cursor decodes to exactly the timestamp it was built from. */
  lemma DecodeCursorText(updatedAt: nat, convertDate: string -> JsNumber)
    ensures DecodeTokenText(CursorText(updatedAt), convertDate) == Success(Finite(updatedAt as real))
  {
    var seconds := RenderSeconds(updatedAt);
    assert CursorText(updatedAt) == SyncTokenVersion + ":" + seconds;
    DecodeVersion2Payload(seconds, convertDate);
    RenderSecondsRoundTrip(updatedAt);
    Unscale(updatedAt as real, MicrosecondsInASecond as real);
  }

  /** Scaling seconds back to microseconds restores the timestamp. */
  lemma Unscale(x: real, m: real)
    requires m != 0.0
    ensures Times(Finite(x / m), m) == Finite(x)
  {
    assert (x / m) * m == x;
  }

  /**
   * Resuming from an emitted cursor reads back exactly the timestamp it was
   * built from (when base64 decoding undoes the encoding).
   */
  lemma CursorRoundTrip(updatedAt: nat, dto: GetItemsDto, env: Collaborators)
    requires dto.cursorToken == Some(env.base64Encode(CursorText(updatedAt)))
    requires dto.cursorToken.value != ""
    requires env.base64Decode(env.base64Encode(CursorText(updatedAt))) == CursorText(updatedAt)
    ensures GetLastSyncTime(dto, env) == Success(Some(Finite(updatedAt as real)))
  {
    DecodeCursorText(updatedAt, env.convertStringDateToMicroseconds);
  }

  // ---- the query ----

  /** The page size: the requested limit, or 150 when absent or below 1, capped at the server maximum. */
  function UpperBoundLimit(limit: Option<int>, maxItemsSyncLimit: int): (upper: int)
    ensures upper <= maxItemsSyncLimit
    ensures (limit.None? || limit.value < 1) ==> upper == if DefaultItemsLimit < maxItemsSyncLimit then DefaultItemsLimit else maxItemsSyncLimit
    ensures limit.Some? && limit.value >= 1 ==> upper <= limit.value && (upper == limit.value || upper == maxItemsSyncLimit)
  {
    var requested := if limit.None? || limit.value < 1 then DefaultItemsLimit else limit.value;
    if requested < maxItemsSyncLimit then requested else maxItemsSyncLimit
  }

  /** The requested vaults the user is actually a member of, in request order. */
  function ExclusiveSharedVaultUuids(requested: seq<Uuid>, memberships: seq<Uuid>): (r: seq<Uuid>)
    ensures IsSubsequence(r, requested)
    ensures forall v :: v in r <==> v in requested && v in memberships
    ensures forall v :: multiset(r)[v] == if v in memberships then multiset(requested)[v] else 0
  {
    if requested == [] then []
    else
      var tail := ExclusiveSharedVaultUuids(requested[1..], memberships);
      assert requested == [requested[0]] + requested[1..];
      if requested[0] in memberships then [requested[0]] + tail else tail
  }

  predicate IsTruthyTime(t: Option<JsNumber>) {
    t.Some? && IsTruthy(t.value)
  }

  function BuildItemQuery(dto: GetItemsDto, lastSyncTime: Option<JsNumber>, userSharedVaultUuids: seq<Uuid>,
                          maxItemsSyncLimit: int): (q: ItemQuery)
    ensures q.userUuid == dto.userUuid && q.contentType == dto.contentType && q.lastSyncTime == lastSyncTime
    ensures q.syncTimeComparison == GreaterThanOrEqual <==> Truthy(dto.cursorToken)
    ensures q.limit == UpperBoundLimit(dto.limit, maxItemsSyncLimit)
    ensures q.deleted == (if IsTruthyTime(lastSyncTime) then None else Some(false))
    ensures q.includeSharedVaultUuids.Some? <==> dto.sharedVaultUuids.None?
    ensures q.includeSharedVaultUuids.Some? ==> q.includeSharedVaultUuids.value == userSharedVaultUuids
    ensures q.exclusiveSharedVaultUuids.Some? <==> dto.sharedVaultUuids.Some?
    ensures q.exclusiveSharedVaultUuids.Some? ==>
      && IsSubsequence(q.exclusiveSharedVaultUuids.value, dto.sharedVaultUuids.value)
      && forall v :: v in q.exclusiveSharedVaultUuids.value <==>
           v in dto.sharedVaultUuids.value && v in userSharedVaultUuids
  {
    ItemQuery(
      dto.userUuid,
      lastSyncTime,
      if Truthy(dto.cursorToken) then GreaterThanOrEqual else GreaterThan,
      dto.contentType,
      if IsTruthyTime(lastSyncTime) then None else Some(false),
      UpperBoundLimit(dto.limit, maxItemsSyncLimit),
      if dto.sharedVaultUuids.None? then Some(userSharedVaultUuids) else None,
      if dto.sharedVaultUuids.Some? then
        Some(ExclusiveSharedVaultUuids(dto.sharedVaultUuids.value, userSharedVaultUuids))
      else None)
  }

  /** The query `execute` sends for a decoded last sync time. */
  function QueryFor(dto: GetItemsDto, env: Collaborators, lastSyncTime: Option<JsNumber>): ItemQuery {
    BuildItemQuery(dto, lastSyncTime, env.sharedVaultUuidsOfUser(dto.userUuid), env.maxItemsSyncLimit)
  }

  function SelectionFor(env: Collaborators, q: ItemQuery): TransferSelection {
    env.computeItemUuidsToFetch(env.findContentSizeForComputingTransferLimit(q), env.contentSizeTransferLimit)
  }

  /** Whether a page needs a cursor: the byte budget ran out, or more rows match than the page holds. */
  predicate NeedsCursor(env: Collaborators, q: ItemQuery) {
    SelectionFor(env, q).transferLimitBreachedBeforeEndOfItems || env.countAll(q) > q.limit
  }

  /** The request that resumes from `cursorToken`. */
  function Resume(dto: GetItemsDto, cursorToken: string): GetItemsDto {
    dto.(cursorToken := Some(cursorToken))
  }

  /** The time of the last row of a non-empty page. */
  function LastUpdatedAt(page: GetItemsResult): nat
    requires page.items != []
  {
    page.items[|page.items| - 1].updatedAt
  }

  /**
   * `page` is the page `execute` returns for the decoded `lastSyncTime`: the
   * rows of the selection (none when it is empty), and a cursor exactly when
   * one is needed, encoding the time of the last row.
   */
  predicate IsPage(dto: GetItemsDto, env: Collaborators, lastSyncTime: Option<JsNumber>, page: GetItemsResult) {
    && page.lastSyncTime == lastSyncTime
    && var q := QueryFor(dto, env, lastSyncTime);
       var uuids := SelectionFor(env, q).uuids;
       && page.items == (if |uuids| > 0 then env.findAll(uuids) else [])
       && (page.cursorToken.Some? <==> NeedsCursor(env, q))
       && (page.cursorToken.Some? ==>
             page.items != [] && page.cursorToken.value == env.base64Encode(CursorText(LastUpdatedAt(page))))
  }

  /** Resuming from a page's cursor reads back the time of its last row, when base64 decodes what it encoded. */
  lemma PageCursorResumes(dto: GetItemsDto, env: Collaborators, lastSyncTime: Option<JsNumber>, page: GetItemsResult)
    requires IsPage(dto, env, lastSyncTime, page)
    requires page.cursorToken.Some? && page.cursorToken.value != ""
    requires env.base64Decode(page.cursorToken.value) == CursorText(LastUpdatedAt(page))
    ensures GetLastSyncTime(Resume(dto, page.cursorToken.value), env) == Success(Some(Finite(LastUpdatedAt(page) as real)))
  {
    CursorRoundTrip(LastUpdatedAt(page), Resume(dto, page.cursorToken.value), env);
  }

  /** The part of `execute` after the token and the user uuid have been checked. */
  method FetchPage(dto: GetItemsDto, env: Collaborators, lastSyncTime: Option<JsNumber>)
    returns (r: Result<GetItemsResult, GetItemsError>)
    ensures r.Failure? ==> r.error == NoItemForCursor
    ensures r.Failure? <==>
      var q := QueryFor(dto, env, lastSyncTime);
      NeedsCursor(env, q) && (|SelectionFor(env, q).uuids| == 0 || env.findAll(SelectionFor(env, q).uuids) == [])
    ensures r.Success? ==> IsPage(dto, env, lastSyncTime, r.value)
  {
    var userSharedVaultUuids := env.sharedVaultUuidsOfUser(dto.userUuid);
    var itemQuery := BuildItemQuery(dto, lastSyncTime, userSharedVaultUuids, env.maxItemsSyncLimit);

    var itemContentSizeDescriptors := env.findContentSizeForComputingTransferLimit(itemQuery);
    var selection := env.computeItemUuidsToFetch(itemContentSizeDescriptors, env.contentSizeTransferLimit);
    var items: seq<Item> := [];
    if |selection.uuids| > 0 {
      items := env.findAll(selection.uuids);
    }

    var cursorToken: Option<string> := None;
    var thereAreStillMoreItemsToFetch := env.countAll(itemQuery) > itemQuery.limit;
    if selection.transferLimitBreachedBeforeEndOfItems || thereAreStillMoreItemsToFetch {
      if items == [] {
        return Failure(NoItemForCursor);
      }
      var last := items[|items| - 1].updatedAt;
      cursorToken := Some(env.base64Encode(CursorText(last)));
    }

    return Success(GetItemsResult(items, cursorToken, lastSyncTime));
  }

  method Execute(dto: GetItemsDto, env: Collaborators) returns (r: Result<GetItemsResult, GetItemsError>)
    ensures r == Failure(MissingVersionPart) <==> GetLastSyncTime(dto, env).Failure?
    ensures r == Failure(InvalidUserUuid) <==> GetLastSyncTime(dto, env).Success? && !env.isValidUuid(dto.userUuid)
    ensures r == Failure(NoItemForCursor) <==>
      && GetLastSyncTime(dto, env).Success? && env.isValidUuid(dto.userUuid)
      && var q := QueryFor(dto, env, GetLastSyncTime(dto, env).value);
         NeedsCursor(env, q) && (|SelectionFor(env, q).uuids| == 0 || env.findAll(SelectionFor(env, q).uuids) == [])
    ensures r.Success? ==>
      && GetLastSyncTime(dto, env).Success? && env.isValidUuid(dto.userUuid)
      && IsPage(dto, env, GetLastSyncTime(dto, env).value, r.value)
    ensures r.Success? && r.value.cursorToken.Some? && r.value.cursorToken.value != "" ==>
      env.base64Decode(r.value.cursorToken.value) == CursorText(LastUpdatedAt(r.value)) ==>
        GetLastSyncTime(Resume(dto, r.value.cursorToken.value), env) == Success(Some(Finite(LastUpdatedAt(r.value) as real)))
  {
    var lastSyncTimeOrError := GetLastSyncTime(dto, env);
    if lastSyncTimeOrError.Failure? {
      return Failure(lastSyncTimeOrError.error);
    }
    var lastSyncTime := lastSyncTimeOrError.value;

    if !env.isValidUuid(dto.userUuid) {
      return Failure(InvalidUserUuid);
    }

    r := FetchPage(dto, env, lastSyncTime);
    if r.Success? && r.value.cursorToken.Some? && r.value.cursorToken.value != ""
       && env.base64Decode(r.value.cursorToken.value) == CursorText(LastUpdatedAt(r.value))
    {
      PageCursorResumes(dto, env, lastSyncTime, r.value);
    }
  }
}
