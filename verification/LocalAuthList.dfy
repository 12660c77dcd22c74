/** Local authorization lists: what may be sent to a station, and what is recorded when it answers. */
module LocalAuthList {
  import opened Options

  datatype UpdateType = Full | Differential

  datatype TokenType = Central | EMAID | ISO14443 | ISO15693 | KeyCode | Local | MacAddress | NoAuthorization

  function TypeName(tokenType: TokenType): string {
    match tokenType
    case Central => "Central"
    case EMAID => "eMAID"
    case ISO14443 => "ISO14443"
    case ISO15693 => "ISO15693"
    case KeyCode => "KeyCode"
    case Local => "Local"
    case MacAddress => "MacAddress"
    case NoAuthorization => "NoAuthorization"
  }

  datatype IdToken = IdToken(idToken: string, tokenType: TokenType)

  /** An entry of a list, with the group token it names, if any. */
  datatype Entry = Entry(idToken: IdToken, group: Option<IdToken>)

  datatype Request = Request(versionNumber: int, updateType: UpdateType, list: Option<seq<Entry>>)

  /** A stored authorization, with the identity of the authorization of its group, if any. */
  datatype Authorization = Authorization(id: nat, group: Option<nat>)

  /** A LocalListAuthorization: an own identity, and that of the authorization it was copied from. */
  datatype Row = Row(id: nat, authorizationId: nat)

  datatype SendLocalList = SendLocalList(versionNumber: int, updateType: UpdateType, rows: seq<Row>)

  datatype ListVersion = ListVersion(versionNumber: int, rows: set<Row>)

  type Authorizations = map<IdToken, Authorization>

  datatype Error =
    | VersionNotPositive | VersionNotHigher | DuplicatedIdToken | AuthorizationNotFound | GroupNotMatching
    | NoMaxEntries | TooManyEntries | TooManyPerMessage | VersionNotFound

  datatype Result<+T> = Success(value: T) | Failure(error: Error)

  // Checks before sending.

  function Entries(request: Request): seq<Entry> {
    request.list.OrElse([])
  }

  /** The duplicate check compares token and type run together. */
  function Joined(token: IdToken): string {
    token.idToken + TypeName(token.tokenType)
  }

  function JoinedList(entries: seq<Entry>): seq<string> {
    seq(|entries|, i requires 0 <= i < |entries| => Joined(entries[i].idToken))
  }

  function JoinedTokens(entries: seq<Entry>): set<string> {
    Elements(JoinedList(entries))
  }

  function Elements(texts: seq<string>): set<string> {
    set text | text in texts
  }

  /** The entries as rows with identities from `firstId` on. An entry without authorization is refused, and so is every
      entry that names a group. */
  function RowsOf(entries: seq<Entry>, authorizations: Authorizations, firstId: nat): (r: Result<seq<Row>>)
    ensures r.Failure? ==> r.error == AuthorizationNotFound || r.error == GroupNotMatching
    decreases |entries|
  {
    if entries == [] then Success([])
    else
      var n := |entries| - 1;
      var before := RowsOf(entries[..n], authorizations, firstId);
      if before.Failure? then before
      else if entries[n].idToken !in authorizations then Failure(AuthorizationNotFound)
      else if entries[n].group.Some? then Failure(GroupNotMatching)
      else Success(before.value + [Row(firstId + n, authorizations[entries[n].idToken].id)])
  }

  /** The rows made before the first entry that is refused. */
  function RowsBefore(entries: seq<Entry>, authorizations: Authorizations, firstId: nat): seq<Row>
    decreases |entries|
  {
    match RowsOf(entries, authorizations, firstId)
    case Success(rows) => rows
    case Failure(_) => if entries == [] then [] else RowsBefore(entries[..|entries| - 1], authorizations, firstId)
  }

  function AuthorizationIds(rows: set<Row>): set<nat> {
    set row | row in rows :: row.authorizationId
  }

  function SetOf(rows: seq<Row>): set<Row> {
    set row | row in rows
  }

  function CurrentRows(current: Option<ListVersion>): set<Row> {
    if current.Some? then current.value.rows else {}
  }

  /** The length the list will have when the station accepts. */
  function CountUpdated(send: SendLocalList, current: Option<ListVersion>): nat {
    match send.updateType
    case Full => |send.rows|
    case Differential => |AuthorizationIds(SetOf(send.rows)) + AuthorizationIds(CurrentRows(current))|
  }

  /** A missing or zero limit is an error. */
  function CheckSize(send: SendLocalList, current: Option<ListVersion>, maxEntries: Option<nat>): Option<Error> {
    if maxEntries.OrElse(0) == 0 then Some(NoMaxEntries)
    else if CountUpdated(send, current) > maxEntries.value then Some(TooManyEntries)
    else None
  }

  /** A missing or zero batch limit means no limit. */
  predicate ExceedsMessage(request: Request, itemsPerMessage: Option<nat>) {
    && itemsPerMessage.OrElse(0) != 0
    && request.list.Some? && itemsPerMessage.value < |request.list.value|
  }

  function Create(request: Request, current: Option<ListVersion>, authorizations: Authorizations, firstId: nat)
    : Result<SendLocalList>
  {
    if request.versionNumber <= 0 then Failure(VersionNotPositive)
    else if current.Some? && current.value.versionNumber >= request.versionNumber then Failure(VersionNotHigher)
    else if |Entries(request)| > 1 && |JoinedTokens(Entries(request))| != |Entries(request)|
        then Failure(DuplicatedIdToken)
    else
      match RowsOf(Entries(request), authorizations, firstId)
      case Failure(error) => Failure(error)
      case Success(rows) => Success(SendLocalList(request.versionNumber, request.updateType, rows))
  }

  function Persist(request: Request, current: Option<ListVersion>, authorizations: Authorizations, firstId: nat,
                   maxEntries: Option<nat>, itemsPerMessage: Option<nat>): Result<SendLocalList>
  {
    var created := Create(request, current, authorizations, firstId);
    if created.Failure? then created
    else
      var tooLong := CheckSize(created.value, current, maxEntries);
      if tooLong.Some? then Failure(tooLong.value)
      else if ExceedsMessage(request, itemsPerMessage) then Failure(TooManyPerMessage)
      else created
  }

  // What an acceptance commits.

  /** A full update replaces the list; a differential one replaces the entries of the same authorizations and adds the
      others, and needs a list to start from. */
  function Commit(send: SendLocalList, current: Option<ListVersion>): Result<ListVersion> {
    match send.updateType
    case Full => Success(ListVersion(send.versionNumber, SetOf(send.rows)))
    case Differential =>
      if current.None? then Failure(VersionNotFound)
      else Success(ListVersion(send.versionNumber, Merge(current.value.rows, send.rows)))
  }

  function Merge(rows: set<Row>, sent: seq<Row>): set<Row>
    decreases |sent|
  {
    if sent == [] then rows
    else Put(Merge(rows, sent[..|sent| - 1]), sent[|sent| - 1])
  }

  function Put(rows: set<Row>, row: Row): set<Row> {
    (set r | r in rows && r.authorizationId != row.authorizationId) + {row}
  }

  /** A station that reports another version has a list nobody knows. */
  function Replace(current: Option<ListVersion>, reported: int): ListVersion {
    if current.Some? && current.value.versionNumber == reported then current.value else ListVersion(reported, {})
  }

  // The code.

  datatype Status = Accepted | Failed | VersionMismatch

  class LocalAuthListRepository {
    var versions: map<string, ListVersion>
    var sendLists: map<(string, string), SendLocalList>
    var nextRowId: nat
    const authorizations: Authorizations

    constructor (authorizations: Authorizations)
      ensures this.authorizations == authorizations && versions == map[] && sendLists == map[] && nextRowId == 0
    {
      this.authorizations, versions, sendLists, nextRowId := authorizations, map[], map[], 0;
    }

    function Version(stationId: string): Option<ListVersion>
      reads this
    {
      if stationId in versions then Some(versions[stationId]) else None
    }

    /** The list is on record before its entries are looked at, and stays there when one of them is refused. */
    method CreateSendLocalListFromRequestData(stationId: string, correlationId: string, updateType: UpdateType,
                                              versionNumber: int, entries: seq<Entry>)
      returns (r: Result<SendLocalList>)
      modifies this`sendLists, this`nextRowId
      ensures var rows := RowsOf(entries, authorizations, old(nextRowId));
              r == if rows.Failure? then Failure(rows.error)
                   else Success(SendLocalList(versionNumber, updateType, rows.value))
      ensures var recorded := RowsBefore(entries, authorizations, old(nextRowId));
              && sendLists == old(sendLists)[(stationId, correlationId) :=
                  SendLocalList(versionNumber, updateType, recorded)]
              && nextRowId == old(nextRowId) + |recorded|
    {
      ghost var firstId := nextRowId;
      var key := (stationId, correlationId);
      sendLists := sendLists[key := SendLocalList(versionNumber, updateType, [])];
      for i := 0 to |entries|
        invariant key in sendLists
        invariant RowsOf(entries[..i], authorizations, firstId) == Success(sendLists[key].rows)
        invariant sendLists == old(sendLists)[key := SendLocalList(versionNumber, updateType, sendLists[key].rows)]
        invariant nextRowId == firstId + i && |sendLists[key].rows| == i
      {
        assert entries[..i + 1][..i] == entries[..i];
        if entries[i].idToken !in authorizations {
          RefusedEntry(entries, authorizations, firstId, i + 1);
          return Failure(AuthorizationNotFound);
        }
        var auth := authorizations[entries[i].idToken];
        var matches := GroupMatches(auth, entries[i].group);
        if !matches {
          RefusedEntry(entries, authorizations, firstId, i + 1);
          return Failure(GroupNotMatching);
        }
        sendLists := sendLists[key := sendLists[key].(rows := sendLists[key].rows + [Row(nextRowId, auth.id)])];
        nextRowId := nextRowId + 1;
      }
      assert entries[..|entries|] == entries;
      return Success(sendLists[key]);
    }

    /** The identity found for the group token is kept in a variable of an inner block; the comparison after that block
        reads an outer one of the same name, which is never assigned. */
    method GroupMatches(auth: Authorization, group: Option<IdToken>) returns (matches: bool)
      ensures matches <==> group.None?
    {
      if group.None? {
        return true;
      }
      var groupAuthorizationAuthId: Option<nat> := None;
      var groupAuthId := if group.value in authorizations then Some(authorizations[group.value].id) else None;
      if auth.group.None? || groupAuthId != auth.group {
        return false;
      }
      return auth.group.Some? && groupAuthorizationAuthId == auth.group;
    }

    method CreateOrUpdateLocalListVersion(stationId: string, send: SendLocalList) returns (r: Result<ListVersion>)
      modifies this`versions
      ensures r == Commit(send, old(Version(stationId)))
      ensures versions == if r.Success? then old(versions)[stationId := r.value] else old(versions)
    {
      match send.updateType {
        case Full =>
          r := Success(ListVersion(send.versionNumber, SetOf(send.rows)));
        case Differential =>
          if stationId !in versions {
            return Failure(VersionNotFound);
          }
          var rows := versions[stationId].rows;
          for i := 0 to |send.rows|
            invariant rows == Merge(versions[stationId].rows, send.rows[..i])
          {
            assert send.rows[..i + 1][..i] == send.rows[..i];
            rows := Put(rows, send.rows[i]);
          }
          assert send.rows[..|send.rows|] == send.rows;
          r := Success(ListVersion(send.versionNumber, rows));
      }
      versions := versions[stationId := r.value];
    }

    method ValidateOrReplaceLocalListVersion(stationId: string, versionNumber: int)
      modifies this`versions
      ensures versions ==
        if stationId in old(versions) && old(versions)[stationId].versionNumber == versionNumber then old(versions)
        else old(versions)[stationId := ListVersion(versionNumber, {})]
    {
      if stationId in versions && versions[stationId].versionNumber == versionNumber {
        return;
      }
      versions := versions[stationId := ListVersion(versionNumber, {})];
    }
  }

  lemma {:induction false} RefusedEntry(entries: seq<Entry>, authorizations: Authorizations, firstId: nat, n: nat)
    requires 0 < n <= |entries| && RowsOf(entries[..n], authorizations, firstId).Failure?
    requires RowsOf(entries[..n - 1], authorizations, firstId).Success?
    ensures RowsOf(entries, authorizations, firstId) == RowsOf(entries[..n], authorizations, firstId)
    ensures RowsBefore(entries, authorizations, firstId) == RowsOf(entries[..n - 1], authorizations, firstId).value
    decreases |entries|
  {
    if n == |entries| {
      assert entries[..n] == entries;
    } else {
      assert entries[..|entries| - 1][..n] == entries[..n];
      assert entries[..|entries| - 1][..n - 1] == entries[..n - 1];
      RefusedEntry(entries[..|entries| - 1], authorizations, firstId, n);
    }
  }

  /** The token of the entry is known, and its group is the one on record. */
  predicate Matching(entry: Entry, authorizations: Authorizations) {
    && entry.idToken in authorizations
    && (entry.group.Some? ==>
          && entry.group.value in authorizations
          && authorizations[entry.idToken].group == Some(authorizations[entry.group.value].id))
  }

  /** A list of matching entries is created exactly if none of them names a group. */
  lemma {:induction false} MatchingListIsCreatedIff(entries: seq<Entry>, authorizations: Authorizations, firstId: nat)
    requires forall entry :: entry in entries ==> Matching(entry, authorizations)
    ensures RowsOf(entries, authorizations, firstId).Success? <==>
        forall entry :: entry in entries ==> entry.group.None?
    decreases |entries|
  {
    if entries != [] {
      var n := |entries| - 1;
      MatchingListIsCreatedIff(entries[..n], authorizations, firstId);
      assert entries == entries[..n] + [entries[n]];
      assert Matching(entries[n], authorizations);
    }
  }

  class LocalAuthListService {
    const repository: LocalAuthListRepository
    const maxLocalAuthListEntries: Option<nat>
    const itemsPerMessage: Option<nat>

    constructor (repository: LocalAuthListRepository, maxLocalAuthListEntries: Option<nat>,
                 itemsPerMessage: Option<nat>)
      ensures this.repository == repository
    {
      this.repository := repository;
      this.maxLocalAuthListEntries, this.itemsPerMessage := maxLocalAuthListEntries, itemsPerMessage;
    }

    method PersistSendLocalList(stationId: string, correlationId: string, request: Request)
      returns (r: Result<SendLocalList>)
      modifies repository`sendLists, repository`nextRowId
      ensures r == Persist(request, repository.Version(stationId), repository.authorizations, old(repository.nextRowId),
                           maxLocalAuthListEntries, itemsPerMessage)
      ensures r.Success? ==>
        && maxLocalAuthListEntries.Some?
        && LengthAfter(request, repository.Version(stationId), repository.authorizations)
           <= maxLocalAuthListEntries.value
        && (itemsPerMessage.Some? && itemsPerMessage.value > 0 ==> |Entries(request)| <= itemsPerMessage.value)
      // A list refused for its entries or its size stays on record, although it is not sent.
      ensures var recorded := RowsBefore(Entries(request), repository.authorizations, old(repository.nextRowId));
              var refusedAtOnce := r.Failure? && r.error in {VersionNotPositive, VersionNotHigher, DuplicatedIdToken};
              && repository.sendLists ==
                 (if refusedAtOnce then old(repository.sendLists)
                  else old(repository.sendLists)[(stationId, correlationId) :=
                         SendLocalList(request.versionNumber, request.updateType, recorded)])
              && repository.nextRowId == old(repository.nextRowId) + if refusedAtOnce then 0 else |recorded|
    {
      var localListVersion := repository.Version(stationId);
      PersistAcceptsIff(request, localListVersion, repository.authorizations, repository.nextRowId,
                        maxLocalAuthListEntries, itemsPerMessage);
      if request.versionNumber <= 0 {
        return Failure(VersionNotPositive);
      }
      if localListVersion.Some? && localListVersion.value.versionNumber >= request.versionNumber {
        return Failure(VersionNotHigher);
      }
      if |Entries(request)| > 1 && |JoinedTokens(Entries(request))| != |Entries(request)| {
        return Failure(DuplicatedIdToken);
      }
      r := repository.CreateSendLocalListFromRequestData(stationId, correlationId, request.updateType,
                                                         request.versionNumber,
                                                         Entries(request));
      if r.Failure? {
        return;
      }
      var tooLong := CheckSize(r.value, localListVersion, maxLocalAuthListEntries);
      if tooLong.Some? {
        return Failure(tooLong.value);
      }
      if ExceedsMessage(request, itemsPerMessage) {
        return Failure(TooManyPerMessage);
      }
    }

    /** The handler of a SendLocalListResponse; `asksVersion` tells whether it asks the station for its version. */
    method HandleSendLocalList(stationId: string, correlationId: string, status: Status) returns (asksVersion: bool)
      modifies repository`versions
      ensures status != Accepted || (stationId, correlationId) !in repository.sendLists ==>
        repository.versions == old(repository.versions)
      ensures status == Accepted && (stationId, correlationId) in repository.sendLists ==>
        var r := Commit(repository.sendLists[(stationId, correlationId)], old(repository.Version(stationId)));
        repository.versions == if r.Success? then old(repository.versions)[stationId := r.value]
            else old(repository.versions)
      ensures status == Accepted && (stationId, correlationId) in repository.sendLists ==>
        var send := repository.sendLists[(stationId, correlationId)];
        && (send.updateType == Full ==>
              repository.versions == old(repository.versions)[stationId :=
                ListVersion(send.versionNumber, set row | row in send.rows)])
        && (send.updateType == Differential && stationId !in old(repository.versions) ==>
              repository.versions == old(repository.versions))
      // The station goes on as in the runs below.
      ensures (stationId, correlationId) in repository.sendLists ==>
        var outstanding := map[correlationId := repository.sendLists[(stationId, correlationId)]];
        var limits := Limits(repository.authorizations, maxLocalAuthListEntries, itemsPerMessage);
        var station := Station(old(repository.Version(stationId)), outstanding);
        repository.Version(stationId) == Next(station, limits, Answered(correlationId, status)).current
      ensures asksVersion <==> status == VersionMismatch && (stationId, correlationId) in repository.sendLists
    {
      asksVersion := false;
      if (stationId, correlationId) !in repository.sendLists {
        return;
      }
      match status {
        case Accepted =>
          var send := repository.sendLists[(stationId, correlationId)];
          var _ := repository.CreateOrUpdateLocalListVersion(stationId, send);
        case Failed =>
        case VersionMismatch => asksVersion := true;
      }
    }

    method HandleGetLocalListVersion(stationId: string, versionNumber: int)
      modifies repository`versions
      ensures repository.versions ==
        if stationId in old(repository.versions) && old(repository.versions)[stationId].versionNumber == versionNumber
        then old(repository.versions)
        else old(repository.versions)[stationId := ListVersion(versionNumber, {})]
      ensures repository.Version(stationId) == Some(Replace(old(repository.Version(stationId)), versionNumber))
    {
      repository.ValidateOrReplaceLocalListVersion(stationId, versionNumber);
    }
  }

  // The count is the size of what is committed.

  /** No authorization has two rows. */
  ghost predicate OneRowEach(rows: set<Row>) {
    forall r, s :: r in rows && s in rows && r.authorizationId == s.authorizationId ==> r == s
  }

  /** The positions of a list carry different authorizations. */
  predicate DistinctAuthorizations(rows: seq<Row>) {
    forall i, j :: 0 <= i < j < |rows| ==> rows[i].authorizationId != rows[j].authorizationId
  }

  lemma {:induction false} OneRowEachCounts(rows: set<Row>)
    requires OneRowEach(rows)
    ensures |AuthorizationIds(rows)| == |rows|
    decreases |rows|
  {
    if rows != {} {
      var row :| row in rows;
      OneRowEachCounts(rows - {row});
      assert AuthorizationIds(rows) == AuthorizationIds(rows - {row}) + {row.authorizationId};
      assert row.authorizationId !in AuthorizationIds(rows - {row});
    }
  }

  lemma PutAddsOne(rows: set<Row>, row: Row)
    requires OneRowEach(rows)
    ensures OneRowEach(Put(rows, row))
    ensures AuthorizationIds(Put(rows, row)) == AuthorizationIds(rows) + {row.authorizationId}
  {
    forall a | a in AuthorizationIds(rows) && a != row.authorizationId ensures a in AuthorizationIds(Put(rows, row)) {
      var r :| r in rows && r.authorizationId == a;
      assert r in Put(rows, row);
    }
    assert row in Put(rows, row);
  }

  lemma {:induction false} MergeIsUnion(rows: set<Row>, sent: seq<Row>)
    requires OneRowEach(rows)
    ensures OneRowEach(Merge(rows, sent))
    ensures AuthorizationIds(Merge(rows, sent)) == AuthorizationIds(rows) + AuthorizationIds(SetOf(sent))
    decreases |sent|
  {
    if sent != [] {
      var n := |sent| - 1;
      MergeIsUnion(rows, sent[..n]);
      assert sent == sent[..n] + [sent[n]];
      var merged := Merge(rows, sent[..n]);
      PutAddsOne(merged, sent[n]);
      assert AuthorizationIds(SetOf(sent)) == AuthorizationIds(SetOf(sent[..n])) + {sent[n].authorizationId} by {
        assert SetOf(sent) == SetOf(sent[..n]) + {sent[n]};
      }
    }
  }

  lemma {:induction false} DistinctRowsCount(rows: seq<Row>)
    requires DistinctAuthorizations(rows)
    ensures OneRowEach(SetOf(rows)) && |SetOf(rows)| == |rows|
    decreases |rows|
  {
    if rows != [] {
      var n := |rows| - 1;
      DistinctRowsCount(rows[..n]);
      assert SetOf(rows) == SetOf(rows[..n]) + {rows[n]};
      forall r | r in rows[..n] ensures r.authorizationId != rows[n].authorizationId {
        var i :| 0 <= i < n && rows[i] == r;
      }
    }
  }

  /** The list committed by an acceptance is exactly as long as counted before sending. */
  lemma CountIsCommittedSize(send: SendLocalList, current: Option<ListVersion>)
    requires DistinctAuthorizations(send.rows) && OneRowEach(CurrentRows(current)) && Commit(send, current).Success?
    ensures |Commit(send, current).value.rows| == CountUpdated(send, current)
    ensures OneRowEach(Commit(send, current).value.rows)
  {
    DistinctRowsCount(send.rows);
    if send.updateType == Differential {
      MergeIsUnion(CurrentRows(current), send.rows);
      OneRowEachCounts(Merge(CurrentRows(current), send.rows));
      assert AuthorizationIds(CurrentRows(current)) + AuthorizationIds(SetOf(send.rows))
          == AuthorizationIds(SetOf(send.rows)) + AuthorizationIds(CurrentRows(current));
    }
  }

  // The duplicate check.

  predicate JoinedApart(entries: seq<Entry>) {
    AllDifferent(JoinedList(entries))
  }

  predicate AllDifferent(texts: seq<string>) {
    forall i, j :: 0 <= i < j < |texts| ==> texts[i] != texts[j]
  }

  predicate DistinctTokens(entries: seq<Entry>) {
    forall i, j :: 0 <= i < j < |entries| ==> entries[i].idToken != entries[j].idToken
  }

  /** No type name ends like another, so that token and type can be told from the two run together. */
  lemma JoinedIsInjective(u: IdToken, v: IdToken)
    ensures Joined(u) == Joined(v) <==> u == v
  {
    if Joined(u) == Joined(v) {
      EndsLikeType(u);
      EndsLikeType(v);
      assert u.tokenType == v.tokenType;
      assert Joined(u)[..|u.idToken|] == u.idToken;
      assert Joined(v)[..|v.idToken|] == v.idToken;
    }
  }

  lemma EndsLikeType(token: IdToken)
    ensures var joined, name := Joined(token), TypeName(token.tokenType);
            && |joined| >= |name| >= 3
            && joined[|joined| - 1] == name[|name| - 1]
            && joined[|joined| - 2] == name[|name| - 2]
            && joined[|joined| - 3] == name[|name| - 3]
  {
  }

  lemma {:induction false} ElementsCount(texts: seq<string>)
    ensures |Elements(texts)| <= |texts|
    ensures |Elements(texts)| == |texts| <==> AllDifferent(texts)
    decreases |texts|
  {
    if texts == [] {
      assert Elements(texts) == {};
    } else {
      var n := |texts| - 1;
      ElementsCount(texts[..n]);
      assert texts == texts[..n] + [texts[n]];
      assert Elements(texts) == Elements(texts[..n]) + {texts[n]};
      AllDifferentFromLast(texts);
    }
  }

  lemma AllDifferentFromLast(texts: seq<string>)
    requires texts != []
    ensures var n := |texts| - 1;
            AllDifferent(texts) <==> AllDifferent(texts[..n]) && texts[n] !in texts[..n]
  {
    var n := |texts| - 1;
    if AllDifferent(texts[..n]) && texts[n] !in texts[..n] {
      forall i, j | 0 <= i < j <= n ensures texts[i] != texts[j] {
        assert texts[i] == texts[..n][i];
        assert j < n ==> texts[j] == texts[..n][j];
      }
    }
  }

  /** Once the version is in order, a list is refused as a duplicate exactly if some token occurs twice. */
  lemma DuplicatesAreRefusedIff(request: Request, current: Option<ListVersion>, authorizations: Authorizations,
                                firstId: nat)
    requires request.versionNumber > 0
    requires current.Some? ==> current.value.versionNumber < request.versionNumber
    ensures Create(request, current, authorizations, firstId) == Failure(DuplicatedIdToken)
            <==> !DistinctTokens(Entries(request))
  {
    ElementsCount(JoinedList(Entries(request)));
    ApartIffDistinct(Entries(request));
  }

  lemma ApartIffDistinct(entries: seq<Entry>)
    ensures JoinedApart(entries) <==> DistinctTokens(entries)
  {
    var texts := JoinedList(entries);
    forall i, j | 0 <= i < j < |entries| ensures texts[i] != texts[j] <==> entries[i].idToken != entries[j].idToken {
      JoinedIsInjective(entries[i].idToken, entries[j].idToken);
    }
  }

  // What is let through, and what is recorded.

  predicate NoneRefused(entries: seq<Entry>, authorizations: Authorizations) {
    forall i :: 0 <= i < |entries| ==> entries[i].idToken in authorizations && entries[i].group.None?
  }

  /** Entry `i` is the first without authorization or with a group. */
  predicate FirstRefused(entries: seq<Entry>, authorizations: Authorizations, i: nat) {
    && i < |entries| && (entries[i].idToken !in authorizations || entries[i].group.Some?)
    && NoneRefused(entries[..i], authorizations)
  }

  /** Rows with consecutive identities for the authorizations of the first entries. */
  predicate AreRowsFor(rows: seq<Row>, entries: seq<Entry>, authorizations: Authorizations, firstId: nat) {
    |rows| <= |entries| && forall i :: 0 <= i < |rows| ==>
      entries[i].idToken in authorizations && rows[i] == Row(firstId + i, authorizations[entries[i].idToken].id)
  }

  lemma {:induction false} RowsOfAll(entries: seq<Entry>, authorizations: Authorizations, firstId: nat)
    requires NoneRefused(entries, authorizations)
    ensures var r := RowsOf(entries, authorizations, firstId);
            && r.Success? && |r.value| == |entries| && AreRowsFor(r.value, entries, authorizations, firstId)
            && RowsBefore(entries, authorizations, firstId) == r.value
    decreases |entries|
  {
    if entries != [] {
      RowsOfAll(entries[..|entries| - 1], authorizations, firstId);
    }
  }

  /** A refused list is recorded with a row for each entry before the first one that is refused. */
  lemma {:induction false} RowsOfRefused(entries: seq<Entry>, authorizations: Authorizations, firstId: nat, i: nat)
    requires FirstRefused(entries, authorizations, i)
    ensures RowsOf(entries, authorizations, firstId) ==
            Failure(if entries[i].idToken !in authorizations then AuthorizationNotFound else GroupNotMatching)
    ensures var recorded := RowsBefore(entries, authorizations, firstId);
            |recorded| == i && AreRowsFor(recorded, entries, authorizations, firstId)
    decreases |entries|
  {
    var n := |entries| - 1;
    if i == n {
      RowsOfAll(entries[..n], authorizations, firstId);
    } else {
      assert entries[..n][..i] == entries[..i];
      RowsOfRefused(entries[..n], authorizations, firstId, i);
    }
  }

  lemma {:induction false} FindRefused(entries: seq<Entry>, authorizations: Authorizations) returns (i: nat)
    requires !NoneRefused(entries, authorizations)
    ensures FirstRefused(entries, authorizations, i)
    decreases |entries|
  {
    var n := |entries| - 1;
    if NoneRefused(entries[..n], authorizations) {
      i := n;
    } else {
      i := FindRefused(entries[..n], authorizations);
      assert entries[..n][..i] == entries[..i];
    }
  }

  predicate IsHigher(versionNumber: int, current: Option<ListVersion>) {
    versionNumber > 0 && (current.Some? ==> current.value.versionNumber < versionNumber)
  }

  /** The length of the list of a station that accepts the request. */
  function LengthAfter(request: Request, current: Option<ListVersion>, authorizations: Authorizations): nat {
    match request.updateType
    case Full => |Entries(request)|
    case Differential =>
      |(set entry | entry in Entries(request) && entry.idToken in authorizations :: authorizations[entry.idToken].id)
       + (set row | row in CurrentRows(current) :: row.authorizationId)|
  }

  lemma RowsHaveIdsOfEntries(rows: seq<Row>, entries: seq<Entry>, authorizations: Authorizations, firstId: nat)
    requires |rows| == |entries| && AreRowsFor(rows, entries, authorizations, firstId)
    ensures AuthorizationIds(SetOf(rows)) ==
            set entry | entry in entries && entry.idToken in authorizations :: authorizations[entry.idToken].id
  {
    var ids := set entry | entry in entries && entry.idToken in authorizations :: authorizations[entry.idToken].id;
    forall id | id in AuthorizationIds(SetOf(rows)) ensures id in ids {
      var i :| 0 <= i < |rows| && rows[i].authorizationId == id;
      assert entries[i] in entries;
    }
    forall id | id in ids ensures id in AuthorizationIds(SetOf(rows)) {
      var i :| 0 <= i < |entries| && authorizations[entries[i].idToken].id == id;
      assert rows[i] in SetOf(rows);
    }
  }

  /** Why a list is not created. */
  lemma CreateRefusesIff(request: Request, current: Option<ListVersion>, authorizations: Authorizations, firstId: nat)
    ensures var r, entries := Create(request, current, authorizations, firstId), Entries(request);
            && (r == Failure(VersionNotPositive) <==> request.versionNumber <= 0)
            && (r == Failure(VersionNotHigher) <==>
                  request.versionNumber > 0 && !IsHigher(request.versionNumber, current))
            && (r == Failure(DuplicatedIdToken) <==>
                  IsHigher(request.versionNumber, current) && !DistinctTokens(entries))
            && (r.Success? <==>
                  && IsHigher(request.versionNumber, current) && DistinctTokens(entries)
                  && NoneRefused(entries, authorizations))
            && (r.Success? ==>
                  && r.value == SendLocalList(request.versionNumber, request.updateType, r.value.rows)
                  && |r.value.rows| == |entries| && AreRowsFor(r.value.rows, entries, authorizations, firstId))
            && (forall i: nat ::
                  IsHigher(request.versionNumber, current) && DistinctTokens(entries)
                  && FirstRefused(entries, authorizations, i) ==>
                    r == Failure(if entries[i].idToken !in authorizations then AuthorizationNotFound
                                 else GroupNotMatching))
  {
    var entries := Entries(request);
    if IsHigher(request.versionNumber, current) {
      DuplicatesAreRefusedIff(request, current, authorizations, firstId);
      if NoneRefused(entries, authorizations) {
        RowsOfAll(entries, authorizations, firstId);
      } else {
        var first := FindRefused(entries, authorizations);
        RowsOfRefused(entries, authorizations, firstId, first);
      }
      forall i: nat | FirstRefused(entries, authorizations, i)
        ensures RowsOf(entries, authorizations, firstId) ==
                Failure(if entries[i].idToken !in authorizations then AuthorizationNotFound else GroupNotMatching)
      {
        RowsOfRefused(entries, authorizations, firstId, i);
      }
    }
  }

  lemma CountIsLengthAfter(request: Request, current: Option<ListVersion>, authorizations: Authorizations, firstId: nat)
    requires Create(request, current, authorizations, firstId).Success?
    ensures CountUpdated(Create(request, current, authorizations, firstId).value, current) ==
            LengthAfter(request, current, authorizations)
  {
    CreateRefusesIff(request, current, authorizations, firstId);
    var rows := Create(request, current, authorizations, firstId).value.rows;
    RowsHaveIdsOfEntries(rows, Entries(request), authorizations, firstId);
  }

  /** Why a list that is created is not sent, and what is sent otherwise: a limit is needed, the list must not get
      longer than it, and must not have more entries than a message holds, if that is limited. */
  lemma PersistAcceptsIff(request: Request, current: Option<ListVersion>, authorizations: Authorizations, firstId: nat,
                          maxEntries: Option<nat>, itemsPerMessage: Option<nat>)
    ensures var r := Persist(request, current, authorizations, firstId, maxEntries, itemsPerMessage);
            var created := Create(request, current, authorizations, firstId);
            var limited := maxEntries.Some? && maxEntries.value > 0;
            var short := limited && LengthAfter(request, current, authorizations) <= maxEntries.value;
            var fits := itemsPerMessage.Some? && itemsPerMessage.value > 0 ==>
                          |Entries(request)| <= itemsPerMessage.value;
            && (created.Failure? ==> r == created)
            && (created.Success? ==>
                  && (r == Failure(NoMaxEntries) <==> !limited)
                  && (r == Failure(TooManyEntries) <==> limited && !short)
                  && (r == Failure(TooManyPerMessage) <==> short && !fits)
                  && (r.Success? <==> short && fits)
                  && (r.Success? ==> r == created))
  {
    if Create(request, current, authorizations, firstId).Success? {
      CountIsLengthAfter(request, current, authorizations, firstId);
    }
  }

  /** Row `row` is in the merged list exactly if it is the last one sent for its authorization, or is there already and
      nothing is sent for its authorization. */
  predicate SurvivesMerge(row: Row, rows: set<Row>, sent: seq<Row>) {
    || (row in rows && forall i :: 0 <= i < |sent| ==> sent[i].authorizationId != row.authorizationId)
    || (exists i :: 0 <= i < |sent| && sent[i] == row
                    && forall j :: i < j < |sent| ==> sent[j].authorizationId != row.authorizationId)
  }

  lemma {:induction false} MergeHoldsIff(rows: set<Row>, sent: seq<Row>, row: Row)
    ensures row in Merge(rows, sent) <==> SurvivesMerge(row, rows, sent)
    decreases |sent|
  {
    if sent != [] {
      var n := |sent| - 1;
      var before := sent[..n];
      MergeHoldsIff(rows, before, row);
      assert forall i :: 0 <= i < n ==> before[i] == sent[i];
      if sent[n].authorizationId == row.authorizationId {
        assert SurvivesMerge(row, rows, sent) <==> sent[n] == row;
      } else {
        assert SurvivesMerge(row, rows, sent) <==> SurvivesMerge(row, rows, before);
      }
    }
  }

  /** What an acceptance commits: the version sent, with the rows sent, or with these merged into the list on record. */
  lemma CommitStores(send: SendLocalList, current: Option<ListVersion>)
    ensures var r := Commit(send, current);
            && (r.Failure? <==> send.updateType == Differential && current.None?)
            && (r.Success? ==> r.value.versionNumber == send.versionNumber)
            && (send.updateType == Full ==> forall row :: row in r.value.rows <==> row in send.rows)
            && (send.updateType == Differential && current.Some? ==>
                  forall row :: row in r.value.rows <==> SurvivesMerge(row, current.value.rows, send.rows))
  {
    if send.updateType == Differential && current.Some? {
      forall row ensures row in Merge(current.value.rows, send.rows) <==>
                         SurvivesMerge(row, current.value.rows, send.rows)
      {
        MergeHoldsIff(current.value.rows, send.rows, row);
      }
    }
  }

  /** No two tokens share an authorization. */
  ghost predicate OneTokenEach(authorizations: Authorizations) {
    forall s, t :: s in authorizations && t in authorizations && authorizations[s].id == authorizations[t].id ==> s == t
  }

  lemma {:induction false} RowsAreDistinct(entries: seq<Entry>, authorizations: Authorizations, firstId: nat)
    requires OneTokenEach(authorizations) && DistinctTokens(entries)
    requires RowsOf(entries, authorizations, firstId).Success?
    ensures var rows := RowsOf(entries, authorizations, firstId).value;
            && |rows| == |entries| && DistinctAuthorizations(rows)
            && forall i :: 0 <= i < |rows| ==>
                 entries[i].idToken in authorizations
                     && rows[i].authorizationId == authorizations[entries[i].idToken].id
    decreases |entries|
  {
    if entries != [] {
      RowsAreDistinct(entries[..|entries| - 1], authorizations, firstId);
    }
  }

  lemma PersistedIsDistinct(request: Request, current: Option<ListVersion>, limits: Limits, firstId: nat)
    requires OneTokenEach(limits.authorizations) && PersistWithin(request, current, limits, firstId).Success?
    ensures DistinctAuthorizations(PersistWithin(request, current, limits, firstId).value.rows)
  {
    ElementsCount(JoinedList(Entries(request)));
    ApartIffDistinct(Entries(request));
    RowsAreDistinct(Entries(request), limits.authorizations, firstId);
  }

  // Runs.

  datatype Limits = Limits(authorizations: Authorizations, maxEntries: Option<nat>, itemsPerMessage: Option<nat>)

  function PersistWithin(request: Request, current: Option<ListVersion>, limits: Limits, firstId: nat)
    : Result<SendLocalList>
  {
    Persist(request, current, limits.authorizations, firstId, limits.maxEntries, limits.itemsPerMessage)
  }

  /** One station: its committed list, and the lists sent and not yet answered, by correlation id. */
  datatype Station = Station(current: Option<ListVersion>, outstanding: map<string, SendLocalList>)

  /** The rows of a sent list get identities from `firstId` on. */
  datatype Event =
    | Sent(correlationId: string, request: Request, firstId: nat)
    | Answered(correlationId: string, status: Status)
    | Reported(version: int)

  predicate Enabled(st: Station, event: Event) {
    match event
    case Sent(id, _, _) => id !in st.outstanding
    case Answered(id, _) => id in st.outstanding
    case Reported(_) => true
  }

  /** The acceptance of an outstanding list leads to a new committed list. */
  predicate Commits(st: Station, event: Event)
    requires Enabled(st, event)
  {
    event.Answered? && event.status == Accepted && Commit(st.outstanding[event.correlationId], st.current).Success?
  }

  function Next(st: Station, limits: Limits, event: Event): Station
    requires Enabled(st, event)
  {
    match event
    case Sent(id, request, firstId) =>
      var r := PersistWithin(request, st.current, limits, firstId);
      if r.Failure? then st else st.(outstanding := st.outstanding[id := r.value])
    case Answered(id, _) =>
      Station(if Commits(st, event) then Some(Commit(st.outstanding[id], st.current).value) else st.current,
              st.outstanding - {id})
    case Reported(version) => st.(current := Some(Replace(st.current, version)))
  }

  predicate EnabledRun(st: Station, limits: Limits, events: seq<Event>)
    decreases |events|
  {
    events != [] ==> Enabled(st, events[0]) && EnabledRun(Next(st, limits, events[0]), limits, events[1..])
  }

  function Run(st: Station, limits: Limits, events: seq<Event>): Station
    requires EnabledRun(st, limits, events)
    decreases |events|
  {
    if events == [] then st else Run(Next(st, limits, events[0]), limits, events[1..])
  }

  const INITIAL := Station(None, map[])

  // The length of the committed list.

  ghost predicate WellFormed(st: Station) {
    && OneRowEach(CurrentRows(st.current))
    && forall id :: id in st.outstanding ==> DistinctAuthorizations(st.outstanding[id].rows)
  }

  function CurrentIds(st: Station): set<nat> {
    AuthorizationIds(CurrentRows(st.current))
  }

  function SentIds(send: SendLocalList): set<nat> {
    AuthorizationIds(SetOf(send.rows))
  }

  function AddedBy(send: SendLocalList): set<nat> {
    if send.updateType == Differential then SentIds(send) else {}
  }

  /** What the outstanding differential lists would add, all of them. */
  function Additions(outstanding: map<string, SendLocalList>): set<nat> {
    set id, a | id in outstanding && a in AddedBy(outstanding[id]) :: a
  }

  /** With all outstanding differential lists added, neither a list of `ids` nor any outstanding full one is too
      long. */
  predicate Fits(ids: set<nat>, outstanding: map<string, SendLocalList>, max: nat) {
    && |ids + Additions(outstanding)| <= max
    && forall id :: id in outstanding && outstanding[id].updateType == Full ==>
         |SentIds(outstanding[id]) + Additions(outstanding)| <= max
  }

  predicate Within(st: Station, max: nat) {
    Fits(CurrentIds(st), st.outstanding, max)
  }

  lemma SubsetCount(a: set<nat>, b: set<nat>)
    requires a <= b
    ensures |a| <= |b|
  {
    assert b == a + (b - a);
  }

  lemma FewerCount(a: set<nat>, b: set<nat>, c: set<nat>)
    requires b <= c
    ensures |a + b| <= |a + c|
  {
    SubsetCount(a + b, a + c);
  }

  lemma NextIsWellFormed(st: Station, limits: Limits, event: Event)
    requires OneTokenEach(limits.authorizations) && WellFormed(st) && Enabled(st, event)
    ensures WellFormed(Next(st, limits, event))
  {
    match event
    case Sent(_, request, firstId) =>
      if PersistWithin(request, st.current, limits, firstId).Success? {
        PersistedIsDistinct(request, st.current, limits, firstId);
      }
    case Answered(id, _) =>
      if Commits(st, event) {
        CountIsCommittedSize(st.outstanding[id], st.current);
      }
    case Reported(_) =>
  }

  lemma AnsweredAdditions(outstanding: map<string, SendLocalList>, id: string)
    requires id in outstanding
    ensures Additions(outstanding) == Additions(outstanding - {id}) + AddedBy(outstanding[id])
  {
    var rest := outstanding - {id};
    forall a | a in Additions(outstanding) ensures a in Additions(rest) + AddedBy(outstanding[id]) {
      var other :| other in outstanding && a in AddedBy(outstanding[other]);
      assert other != id ==> other in rest && rest[other] == outstanding[other];
    }
    forall a | a in Additions(rest) ensures a in Additions(outstanding) {
      var other :| other in rest && a in AddedBy(rest[other]);
      assert other in outstanding;
    }
  }

  /** Fewer ids and fewer lists fit as well, and so do the ids of a list once it is committed. */
  lemma FitsAfterAnswer(ids: set<nat>, outstanding: map<string, SendLocalList>, id: string, after: set<nat>, max: nat)
    requires Fits(ids, outstanding, max) && id in outstanding
    requires after <= ids + AddedBy(outstanding[id]) ||
             (outstanding[id].updateType == Full && after == SentIds(outstanding[id]))
    ensures Fits(after, outstanding - {id}, max)
  {
    var rest := outstanding - {id};
    AnsweredAdditions(outstanding, id);
    forall other | other in rest && rest[other].updateType == Full
      ensures |SentIds(rest[other]) + Additions(rest)| <= max
    {
      FewerCount(SentIds(outstanding[other]), Additions(rest), Additions(outstanding));
    }
    if after <= ids + AddedBy(outstanding[id]) {
      SubsetCount(after + Additions(rest), ids + Additions(outstanding));
    } else {
      FewerCount(after, Additions(rest), Additions(outstanding));
    }
  }

  lemma CommittedIds(st: Station, limits: Limits, event: Event)
    requires WellFormed(st) && Enabled(st, event) && Commits(st, event)
    ensures var send := st.outstanding[event.correlationId];
            CurrentIds(Next(st, limits, event)) ==
            SentIds(send) + if send.updateType == Full then {} else CurrentIds(st)
  {
    if st.outstanding[event.correlationId].updateType == Differential {
      MergeIsUnion(CurrentRows(st.current), st.outstanding[event.correlationId].rows);
    }
  }

  lemma ReportedIds(st: Station, limits: Limits, version: int)
    ensures var next := Next(st, limits, Reported(version));
            && next.current.Some? && CurrentIds(next) <= CurrentIds(st)
            && (st.current.None? ==> CurrentIds(next) == CurrentIds(st))
  {
    assert AuthorizationIds({}) == {};
    assert CurrentRows(None) == {} && CurrentRows(Some(ListVersion(version, {}))) == {};
  }

  /** Answers and reports, in whatever order they come, keep a station within the limit. */
  lemma AnswersKeepWithin(st: Station, limits: Limits, event: Event, max: nat)
    requires WellFormed(st) && Within(st, max) && Enabled(st, event) && !event.Sent?
    ensures Within(Next(st, limits, event), max)
  {
    var next := Next(st, limits, event);
    match event
    case Reported(version) =>
      ReportedIds(st, limits, version);
      SubsetCount(CurrentIds(next) + Additions(st.outstanding), CurrentIds(st) + Additions(st.outstanding));
    case Answered(id, status) =>
      if Commits(st, event) {
        CommittedIds(st, limits, event);
        assert SentIds(st.outstanding[id]) + {} == SentIds(st.outstanding[id]);
      }
      FitsAfterAnswer(CurrentIds(st), st.outstanding, id, CurrentIds(next), max);
  }

  lemma WithinBoundsCurrent(st: Station, max: nat)
    requires WellFormed(st) && Within(st, max)
    ensures |CurrentRows(st.current)| <= max
  {
    OneRowEachCounts(CurrentRows(st.current));
    SubsetCount(CurrentIds(st), CurrentIds(st) + Additions(st.outstanding));
  }

  /** Every list is sent only when it keeps the station within the limit. */
  predicate Guarded(st: Station, limits: Limits, events: seq<Event>, max: nat)
    requires EnabledRun(st, limits, events)
    decreases |events|
  {
    events != [] ==>
      && (events[0].Sent? ==> Within(Next(st, limits, events[0]), max))
      && Guarded(Next(st, limits, events[0]), limits, events[1..], max)
  }

  /** With any number of lists outstanding, a guarded run never exceeds the limit. */
  lemma {:induction false} GuardedRunStaysWithin(st: Station, limits: Limits, events: seq<Event>, max: nat)
    requires OneTokenEach(limits.authorizations) && WellFormed(st) && Within(st, max)
    requires EnabledRun(st, limits, events) && Guarded(st, limits, events, max)
    ensures WellFormed(Run(st, limits, events)) && |CurrentRows(Run(st, limits, events).current)| <= max
    decreases |events|
  {
    if events == [] {
      WithinBoundsCurrent(st, max);
    } else {
      NextIsWellFormed(st, limits, events[0]);
      if !events[0].Sent? {
        AnswersKeepWithin(st, limits, events[0], max);
      }
      GuardedRunStaysWithin(Next(st, limits, events[0]), limits, events[1..], max);
    }
  }

  /** No list is sent while another is outstanding. */
  predicate OneAtATime(st: Station, limits: Limits, events: seq<Event>)
    requires EnabledRun(st, limits, events)
    decreases |events|
  {
    events != [] ==>
      && (events[0].Sent? ==> st.outstanding == map[])
      && OneAtATime(Next(st, limits, events[0]), limits, events[1..])
  }

  /** With nothing else outstanding, the check before sending is the guard. */
  lemma CheckedListIsWithin(st: Station, limits: Limits, event: Event)
    requires st.outstanding == map[] && event.Sent? && Within(st, limits.maxEntries.OrElse(0))
    ensures Within(Next(st, limits, event), limits.maxEntries.OrElse(0))
  {
    assert CurrentIds(st) + Additions(st.outstanding) == CurrentIds(st);
    var r := PersistWithin(event.request, st.current, limits, event.firstId);
    if r.Success? {
      CheckedCount(event.request, st.current, limits, event.firstId);
      FitsAlone(CurrentIds(st), event.correlationId, r.value, limits.maxEntries.OrElse(0));
    }
  }

  lemma CheckedCount(request: Request, current: Option<ListVersion>, limits: Limits, firstId: nat)
    requires PersistWithin(request, current, limits, firstId).Success?
    ensures CountUpdated(PersistWithin(request, current, limits, firstId).value, current) <= limits.maxEntries.OrElse(0)
  {
  }

  lemma FitsAlone(ids: set<nat>, id: string, send: SendLocalList, max: nat)
    requires |ids| <= max
    requires send.updateType == Full ==> |send.rows| <= max
    requires send.updateType == Differential ==> |SentIds(send) + ids| <= max
    ensures Fits(ids, map[id := send], max)
  {
    AdditionsAlone(id, send);
    RowsBoundIds(send.rows);
    var sent := SentIds(send);
    UnionLaws(ids, sent);
    UnionLaws(sent, ids);
  }

  lemma UnionLaws(a: set<nat>, b: set<nat>)
    ensures a + b == b + a && a + {} == a
  {
  }

  lemma AdditionsAlone(id: string, send: SendLocalList)
    ensures Additions(map[id := send]) == AddedBy(send)
  {
    var outstanding := map[id := send];
    forall a | a in AddedBy(send) ensures a in Additions(outstanding) {
      assert id in outstanding && a in AddedBy(outstanding[id]);
    }
  }

  lemma {:induction false} RowsBoundIds(rows: seq<Row>)
    ensures |AuthorizationIds(SetOf(rows))| <= |rows|
    decreases |rows|
  {
    if rows == [] {
      assert AuthorizationIds(SetOf(rows)) == {};
    } else {
      var n := |rows| - 1;
      RowsBoundIds(rows[..n]);
      assert SetOf(rows) == SetOf(rows[..n]) + {rows[n]} by {
        assert rows == rows[..n] + [rows[n]];
      }
      assert AuthorizationIds(SetOf(rows)) == AuthorizationIds(SetOf(rows[..n])) + {rows[n].authorizationId};
    }
  }

  lemma {:induction false} OneAtATimeIsGuarded(st: Station, limits: Limits, events: seq<Event>)
    requires OneTokenEach(limits.authorizations) && WellFormed(st) && Within(st, limits.maxEntries.OrElse(0))
    requires EnabledRun(st, limits, events) && OneAtATime(st, limits, events)
    ensures Guarded(st, limits, events, limits.maxEntries.OrElse(0))
    decreases |events|
  {
    if events != [] {
      NextIsWellFormed(st, limits, events[0]);
      if events[0].Sent? {
        CheckedListIsWithin(st, limits, events[0]);
      } else {
        AnswersKeepWithin(st, limits, events[0], limits.maxEntries.OrElse(0));
      }
      OneAtATimeIsGuarded(Next(st, limits, events[0]), limits, events[1..]);
    }
  }

  /** Over every run with one list outstanding at a time, the committed list never exceeds the maximum. */
  lemma ListNeverTooLong(limits: Limits, events: seq<Event>)
    requires OneTokenEach(limits.authorizations) && EnabledRun(INITIAL, limits, events)
    requires OneAtATime(INITIAL, limits, events)
    ensures |CurrentRows(Run(INITIAL, limits, events).current)| <= limits.maxEntries.OrElse(0)
    ensures OneRowEach(CurrentRows(Run(INITIAL, limits, events).current))
  {
    assert CurrentIds(INITIAL) + Additions(INITIAL.outstanding) == {};
    OneAtATimeIsGuarded(INITIAL, limits, events);
    GuardedRunStaysWithin(INITIAL, limits, events, limits.maxEntries.OrElse(0));
  }

  // Several outstanding lists.

  predicate NothingSent(events: seq<Event>) {
    forall event :: event in events ==> !event.Sent?
  }

  ghost predicate MayExceed(st: Station, limits: Limits, max: nat) {
    exists events :: NothingSent(events) && EnabledRun(st, limits, events) &&
                     |CurrentRows(Run(st, limits, events).current)| > max
  }

  /** Some answers to the outstanding lists, with version reports among them, make the committed list too long
      exactly if the station is not within the limit: a condition on what is known before sending. */
  lemma AnswersMayExceedIff(st: Station, limits: Limits, max: nat)
    requires OneTokenEach(limits.authorizations) && WellFormed(st)
    ensures MayExceed(st, limits, max) <==> !Within(st, max)
  {
    if Within(st, max) {
      forall events | NothingSent(events) && EnabledRun(st, limits, events)
        ensures |CurrentRows(Run(st, limits, events).current)| <= max
      {
        AnswersAreGuarded(st, limits, events, max);
        GuardedRunStaysWithin(st, limits, events, max);
      }
    } else if |CurrentIds(st) + Additions(st.outstanding)| > max {
      ExceedCurrent(st, limits, max);
    } else {
      var id :| id in st.outstanding && st.outstanding[id].updateType == Full
                && |SentIds(st.outstanding[id]) + Additions(st.outstanding)| > max;
      ExceedFull(st, limits, id, max);
    }
  }

  lemma ExceedCurrent(st: Station, limits: Limits, max: nat)
    requires OneTokenEach(limits.authorizations) && WellFormed(st)
    requires |CurrentIds(st) + Additions(st.outstanding)| > max
    ensures MayExceed(st, limits, max)
  {
    if st.current.None? {
      ReportedIds(st, limits, 0);
      ExceedAfter(st, limits, Reported(0), max);
    } else {
      ExceedNow(st, limits, max);
    }
  }

  lemma ExceedFull(st: Station, limits: Limits, id: string, max: nat)
    requires OneTokenEach(limits.authorizations) && WellFormed(st)
    requires id in st.outstanding && st.outstanding[id].updateType == Full
    requires |SentIds(st.outstanding[id]) + Additions(st.outstanding)| > max
    ensures MayExceed(st, limits, max)
  {
    var next := Next(st, limits, Answered(id, Accepted));
    CommittedIds(st, limits, Answered(id, Accepted));
    AnsweredAdditions(st.outstanding, id);
    assert CurrentIds(next) == SentIds(st.outstanding[id]);
    assert Additions(next.outstanding) == Additions(st.outstanding);
    ExceedAfter(st, limits, Answered(id, Accepted), max);
  }

  lemma {:induction false} AnswersAreGuarded(st: Station, limits: Limits, events: seq<Event>, max: nat)
    requires EnabledRun(st, limits, events) && NothingSent(events)
    ensures Guarded(st, limits, events, max)
    decreases |events|
  {
    if events != [] {
      assert !events[0].Sent?;
      AnswersAreGuarded(Next(st, limits, events[0]), limits, events[1..], max);
    }
  }

  /** Accepting all differential lists does it. */
  lemma ExceedNow(st: Station, limits: Limits, max: nat)
    requires OneTokenEach(limits.authorizations) && WellFormed(st)
    requires st.current.Some? && |CurrentIds(st) + Additions(st.outstanding)| > max
    ensures MayExceed(st, limits, max)
  {
    var events := AcceptDifferentials(st, limits);
    OneRowEachCounts(CurrentRows(Run(st, limits, events).current));
  }

  lemma ExceedAfter(st: Station, limits: Limits, event: Event, max: nat)
    requires OneTokenEach(limits.authorizations) && WellFormed(st) && Enabled(st, event) && !event.Sent?
    requires var next := Next(st, limits, event);
             next.current.Some? && |CurrentIds(next) + Additions(next.outstanding)| > max
    ensures MayExceed(st, limits, max)
  {
    var next := Next(st, limits, event);
    NextIsWellFormed(st, limits, event);
    ExceedNow(next, limits, max);
    var events :| NothingSent(events) && EnabledRun(next, limits, events) &&
                  |CurrentRows(Run(next, limits, events).current)| > max;
    RunCons(st, limits, event, events);
    assert NothingSent([event] + events);
  }

  lemma {:induction false} AcceptDifferentials(st: Station, limits: Limits) returns (events: seq<Event>)
    requires OneTokenEach(limits.authorizations) && WellFormed(st) && st.current.Some?
    ensures NothingSent(events) && EnabledRun(st, limits, events)
    ensures WellFormed(Run(st, limits, events))
    ensures CurrentIds(Run(st, limits, events)) == CurrentIds(st) + Additions(st.outstanding)
    decreases |st.outstanding|
  {
    if id :| id in st.outstanding && st.outstanding[id].updateType == Differential {
      AcceptOne(st, limits, id);
      var rest := AcceptDifferentials(Next(st, limits, Answered(id, Accepted)), limits);
      events := [Answered(id, Accepted)] + rest;
      assert events[1..] == rest;
    } else {
      assert Additions(st.outstanding) == {};
      events := [];
    }
  }

  lemma AcceptOne(st: Station, limits: Limits, id: string)
    requires OneTokenEach(limits.authorizations) && WellFormed(st) && st.current.Some?
    requires id in st.outstanding && st.outstanding[id].updateType == Differential
    ensures var next := Next(st, limits, Answered(id, Accepted));
            && WellFormed(next) && next.current.Some? && |next.outstanding| < |st.outstanding|
            && CurrentIds(next) + Additions(next.outstanding) == CurrentIds(st) + Additions(st.outstanding)
  {
    CommittedIds(st, limits, Answered(id, Accepted));
    AnsweredAdditions(st.outstanding, id);
    NextIsWellFormed(st, limits, Answered(id, Accepted));
    assert (st.outstanding - {id}).Keys == st.outstanding.Keys - {id};
  }

  lemma PersistSingle(token: IdToken, version: int, current: ListVersion, limits: Limits, firstId: nat)
    requires token in limits.authorizations && version > 0 && current.versionNumber < version && current.rows == {}
    requires limits.maxEntries.OrElse(0) >= 1 && limits.itemsPerMessage.None?
    ensures PersistWithin(Request(version, Differential, Some([Entry(token, None)])), Some(current), limits, firstId) ==
            Success(SendLocalList(version, Differential, [Row(firstId, limits.authorizations[token].id)]))
  {
    var row := Row(firstId, limits.authorizations[token].id);
    var entries := [Entry(token, None)];
    assert entries[..0] == [] && [] + [row] == [row];
    assert RowsOf(entries[..0], limits.authorizations, firstId) == Success([]);
    assert RowsOf([Entry(token, None)], limits.authorizations, firstId) == Success([row]);
    SingleRowIds(row);
    UnionLaws({row.authorizationId}, {});
  }

  lemma SingleRowIds(row: Row)
    ensures AuthorizationIds(SetOf([row])) == {row.authorizationId} && AuthorizationIds({}) == {}
  {
    assert SetOf([row]) == {row};
  }

  /** Two lists of one token each pass the check against a limit of one, and together they exceed it. */
  lemma CheckedListsMayExceed(s: IdToken, t: IdToken, a: Authorization, b: Authorization)
    requires s != t && a.id != b.id
    ensures var limits := Limits(map[s := a, t := b], Some(1), None);
            var events := [Reported(0), SentSingle("x", s, 1, 0), SentSingle("y", t, 2, 1)];
            && OneTokenEach(limits.authorizations) && EnabledRun(INITIAL, limits, events)
            && MayExceed(Run(INITIAL, limits, events), limits, 1)
  {
    var limits := Limits(map[s := a, t := b], Some(1), None);
    var first, second := SentSingle("x", s, 1, 0), SentSingle("y", t, 2, 1);
    var s1 := Next(INITIAL, limits, Reported(0));
    var s2 := Next(s1, limits, first);
    SendSingle(s1, limits, "x", s, 1, 0);
    var s3 := Next(s2, limits, second);
    SendSingle(s2, limits, "y", t, 2, 1);
    RunThree(INITIAL, limits, Reported(0), first, second);
    NextIsWellFormed(INITIAL, limits, Reported(0));
    NextIsWellFormed(s1, limits, first);
    NextIsWellFormed(s2, limits, second);
    TwoSingles(CurrentIds(s3), s3.outstanding, a.id, b.id);
    AnswersMayExceedIff(s3, limits, 1);
  }

  lemma SendSingle(st: Station, limits: Limits, id: string, token: IdToken, version: int, firstId: nat)
    requires st.current == Some(ListVersion(0, {})) && id !in st.outstanding && version > 0
    requires token in limits.authorizations && limits.maxEntries == Some(1) && limits.itemsPerMessage.None?
    ensures var row := Row(firstId, limits.authorizations[token].id);
            Next(st, limits, SentSingle(id, token, version, firstId)) ==
            st.(outstanding := st.outstanding[id := SendLocalList(version, Differential, [row])])
  {
    PersistSingle(token, version, st.current.value, limits, firstId);
  }

  lemma RunThree(st: Station, limits: Limits, a: Event, b: Event, c: Event)
    requires Enabled(st, a) && Enabled(Next(st, limits, a), b) && Enabled(Next(Next(st, limits, a), limits, b), c)
    ensures EnabledRun(st, limits, [a, b, c])
    ensures Run(st, limits, [a, b, c]) == Next(Next(Next(st, limits, a), limits, b), limits, c)
  {
    var s1 := Next(st, limits, a);
    RunCons(Next(s1, limits, b), limits, c, []);
    RunCons(s1, limits, b, [c]);
    RunCons(st, limits, a, [b, c]);
    assert [b] + [c] == [b, c] && [a] + [b, c] == [a, b, c] && [c] + [] == [c];
  }

  lemma RunCons(st: Station, limits: Limits, event: Event, rest: seq<Event>)
    requires Enabled(st, event) && EnabledRun(Next(st, limits, event), limits, rest)
    ensures EnabledRun(st, limits, [event] + rest)
    ensures Run(st, limits, [event] + rest) == Run(Next(st, limits, event), limits, rest)
  {
    assert ([event] + rest)[1..] == rest;
  }

  function SentSingle(id: string, token: IdToken, version: int, firstId: nat): Event {
    Sent(id, Request(version, Differential, Some([Entry(token, None)])), firstId)
  }

  lemma TwoSingles(ids: set<nat>, outstanding: map<string, SendLocalList>, a: nat, b: nat)
    requires a != b && "x" in outstanding && "y" in outstanding
    requires outstanding["x"] == SendLocalList(1, Differential, [Row(0, a)])
    requires outstanding["y"] == SendLocalList(2, Differential, [Row(1, b)])
    ensures !Fits(ids, outstanding, 1)
  {
    SingleIsAdded(outstanding, "x", Row(0, a));
    SingleIsAdded(outstanding, "y", Row(1, b));
    SubsetCount({a, b}, ids + Additions(outstanding));
  }

  lemma SingleIsAdded(outstanding: map<string, SendLocalList>, id: string, row: Row)
    requires id in outstanding && outstanding[id].updateType == Differential && outstanding[id].rows == [row]
    ensures row.authorizationId in Additions(outstanding)
  {
    var send := outstanding[id];
    assert row in SetOf(send.rows);
    assert row.authorizationId in AddedBy(send);
  }

  /** Two differential lists, both accepted, fit exactly if the union of everything does. */
  lemma TwoDifferentialListsFitIff(first: SendLocalList, second: SendLocalList, current: ListVersion, max: nat)
    requires first.updateType == Differential && second.updateType == Differential && OneRowEach(current.rows)
    ensures |Commit(second, Some(Commit(first, Some(current)).value)).value.rows| <= max <==>
            |SentIds(first) + SentIds(second) + AuthorizationIds(current.rows)| <= max
  {
    var merged := Merge(current.rows, first.rows);
    MergeIsUnion(current.rows, first.rows);
    MergeIsUnion(merged, second.rows);
    OneRowEachCounts(Merge(merged, second.rows));
    assert AuthorizationIds(Merge(merged, second.rows)) ==
           AuthorizationIds(SetOf(first.rows)) + AuthorizationIds(SetOf(second.rows)) + AuthorizationIds(current.rows);
  }

  // Versions.

  /** The version numbers committed by a run, in order. */
  function CommittedVersions(st: Station, limits: Limits, events: seq<Event>): seq<int>
    requires EnabledRun(st, limits, events)
    decreases |events|
  {
    if events == [] then []
    else
      var rest := CommittedVersions(Next(st, limits, events[0]), limits, events[1..]);
      if Commits(st, events[0]) then [st.outstanding[events[0].correlationId].versionNumber] + rest else rest
  }

  predicate Increasing(versions: seq<int>) {
    forall i, j :: 0 <= i < j < |versions| ==> versions[i] < versions[j]
  }

  predicate AllAbove(versions: seq<int>, bound: int) {
    forall i :: 0 <= i < |versions| ==> bound < versions[i]
  }

  /** At most one list is outstanding, and it has a higher version than the committed one. */
  predicate Ordered(st: Station) {
    && (forall a, b :: a in st.outstanding && b in st.outstanding ==> a == b)
    && (st.current.Some? ==>
          forall id :: id in st.outstanding ==> st.current.value.versionNumber < st.outstanding[id].versionNumber)
  }

  /** Between reports of the station, with one list outstanding at a time, committed versions strictly increase. */
  lemma {:induction false} VersionsIncrease(st: Station, limits: Limits, events: seq<Event>)
    requires Ordered(st) && EnabledRun(st, limits, events) && OneAtATime(st, limits, events)
    requires forall event :: event in events ==> !event.Reported?
    ensures var versions := CommittedVersions(st, limits, events);
            Increasing(versions) && (st.current.Some? ==> AllAbove(versions, st.current.value.versionNumber))
    decreases |events|
  {
    if events != [] {
      assert !events[0].Reported?;
      VersionsIncrease(Next(st, limits, events[0]), limits, events[1..]);
    }
  }

  /** `b` is not of a higher version than `a`, and `a` may be committed without `b`. */
  predicate Disorders(st: Station, a: string, b: string) {
    && a in st.outstanding && b in st.outstanding && a != b
    && st.outstanding[b].versionNumber <= st.outstanding[a].versionNumber
    && (st.current.Some? || exists c :: c in st.outstanding && c != b && st.outstanding[c].updateType == Full)
  }

  ghost predicate MayDisorder(st: Station) {
    exists a, b :: Disorders(st, a, b)
  }

  predicate AllAnswered(events: seq<Event>) {
    forall event :: event in events ==> event.Answered?
  }

  ghost predicate SomeAnswersDisorder(st: Station, limits: Limits) {
    exists events ::
      AllAnswered(events) && EnabledRun(st, limits, events) && !Increasing(CommittedVersions(st, limits, events))
  }

  /** Some answers to the outstanding lists commit versions that do not increase exactly if two lists may be
      committed in the wrong order; with a committed list, exactly if two lists are outstanding. */
  lemma AnswersMayDisorderIff(st: Station, limits: Limits)
    ensures SomeAnswersDisorder(st, limits) <==> MayDisorder(st)
    ensures st.current.Some? ==>
              (MayDisorder(st) <==> exists a, b :: a in st.outstanding && b in st.outstanding && a != b)
  {
    if MayDisorder(st) {
      var a, b :| Disorders(st, a, b);
      if st.current.Some? || st.outstanding[a].updateType == Full {
        AcceptBoth(st, limits, a, b);
      } else {
        var c :| c in st.outstanding && c != b && st.outstanding[c].updateType == Full;
        AcceptThree(st, limits, c, a, b);
      }
    } else {
      forall events | AllAnswered(events) && EnabledRun(st, limits, events)
        ensures Increasing(CommittedVersions(st, limits, events))
      {
        AnswersKeepOrder(st, limits, events);
      }
    }
    if a, b :| a in st.outstanding && b in st.outstanding && a != b {
      var low := if st.outstanding[b].versionNumber <= st.outstanding[a].versionNumber then b else a;
      var high := if low == b then a else b;
      assert st.current.Some? ==> Disorders(st, high, low);
    }
  }

  lemma AcceptBoth(st: Station, limits: Limits, a: string, b: string)
    requires a in st.outstanding && b in st.outstanding && a != b
    requires st.outstanding[b].versionNumber <= st.outstanding[a].versionNumber
    requires st.current.Some? || st.outstanding[a].updateType == Full
    ensures SomeAnswersDisorder(st, limits)
  {
    var first, second := Answered(a, Accepted), Answered(b, Accepted);
    var events := [first, second];
    var mid := Next(st, limits, first);
    assert Commits(st, first) && Commits(mid, second);
    assert events[1..] == [second] && [second][1..] == [];
    assert CommittedVersions(mid, limits, [second]) == [st.outstanding[b].versionNumber];
    var versions := CommittedVersions(st, limits, events);
    assert versions[0] == st.outstanding[a].versionNumber && versions[1] == st.outstanding[b].versionNumber;
    assert AllAnswered(events) && EnabledRun(st, limits, events);
  }

  lemma AcceptThree(st: Station, limits: Limits, c: string, a: string, b: string)
    requires a in st.outstanding && b in st.outstanding && c in st.outstanding && a != b && a != c && b != c
    requires st.outstanding[b].versionNumber <= st.outstanding[a].versionNumber
    requires st.outstanding[c].updateType == Full
    ensures SomeAnswersDisorder(st, limits)
  {
    var event := Answered(c, Accepted);
    var mid := Next(st, limits, event);
    AcceptBoth(mid, limits, a, b);
    var events :| AllAnswered(events) && EnabledRun(mid, limits, events) &&
                  !Increasing(CommittedVersions(mid, limits, events));
    var later := CommittedVersions(mid, limits, events);
    var i, j :| 0 <= i < j < |later| && later[i] >= later[j];
    assert ([event] + events)[1..] == events;
    var versions := CommittedVersions(st, limits, [event] + events);
    assert versions[i + 1] == later[i] && versions[j + 1] == later[j];
    assert AllAnswered([event] + events) && EnabledRun(st, limits, [event] + events);
  }

  lemma {:induction false} AnswersKeepOrder(st: Station, limits: Limits, events: seq<Event>)
    requires !MayDisorder(st) && AllAnswered(events) && EnabledRun(st, limits, events)
    ensures var versions := CommittedVersions(st, limits, events);
            Increasing(versions) && forall i :: 0 <= i < |versions| ==> IsOutstanding(st, versions[i])
    decreases |events|
  {
    if events != [] {
      assert events[0].Answered?;
      var x, next := events[0].correlationId, Next(st, limits, events[0]);
      AnswerAddsNoDisorder(st, limits, events[0]);
      AnswersKeepOrder(next, limits, events[1..]);
      var rest := CommittedVersions(next, limits, events[1..]);
      forall i | 0 <= i < |rest|
        ensures IsOutstanding(st, rest[i])
        ensures Commits(st, events[0]) ==> st.outstanding[x].versionNumber < rest[i]
      {
        var id :| id in next.outstanding && next.outstanding[id].versionNumber == rest[i];
        assert !Disorders(st, x, id);
        assert id in st.outstanding && st.outstanding[id].versionNumber == rest[i];
      }
      assert Commits(st, events[0]) ==> IsOutstanding(st, st.outstanding[x].versionNumber);
    }
  }

  predicate IsOutstanding(st: Station, version: int) {
    exists id :: id in st.outstanding && st.outstanding[id].versionNumber == version
  }

  lemma AnswerAddsNoDisorder(st: Station, limits: Limits, event: Event)
    requires Enabled(st, event) && event.Answered?
    ensures var x, next := event.correlationId, Next(st, limits, event);
            && (forall a, b :: Disorders(next, a, b) ==> Disorders(st, a, b))
            && (Commits(st, event) ==> forall id :: id in next.outstanding ==>
                  Disorders(st, x, id) || st.outstanding[x].versionNumber < st.outstanding[id].versionNumber)
  {
    var x, next := event.correlationId, Next(st, limits, event);
    forall a, b | Disorders(next, a, b) ensures Disorders(st, a, b) {
      if next.current.None? {
        var c :| c in next.outstanding && c != b && next.outstanding[c].updateType == Full;
        assert c in st.outstanding;
      }
    }
  }

  // How the stored implementation departs from this.

  /** The repository finds the sent list again without its entries, and so commits none. */
  function StoredCommit(send: SendLocalList, current: Option<ListVersion>): Result<ListVersion> {
    match send.updateType
    case Full => Success(ListVersion(send.versionNumber, {}))
    case Differential =>
      if current.None? then Failure(VersionNotFound) else Success(ListVersion(send.versionNumber, current.value.rows))
  }

  /** It commits what it should exactly when the list sent is empty, or is refused for lack of a list to update. */
  lemma StoredCommitIsRightIff(send: SendLocalList, current: Option<ListVersion>)
    requires DistinctAuthorizations(send.rows)
    requires forall row :: row in send.rows ==> row !in CurrentRows(current)
    ensures StoredCommit(send, current) == Commit(send, current)
            <==> send.rows == [] || (send.updateType == Differential && current.None?)
  {
    assert send.rows == [] ==> SetOf(send.rows) == {};
    if send.rows != [] {
      assert send.rows[0] in SetOf(send.rows);
      if current.Some? {
        MergeHoldsSent(current.value.rows, send.rows, 0);
      }
    }
  }

  lemma {:induction false} MergeHoldsSent(rows: set<Row>, sent: seq<Row>, i: nat)
    requires DistinctAuthorizations(sent) && i < |sent|
    ensures sent[i] in Merge(rows, sent)
    decreases |sent|
  {
    if i < |sent| - 1 {
      MergeHoldsSent(rows, sent[..|sent| - 1], i);
    }
  }

  /** The differential update would look for the row to delete by the identity of the authorization, among row
      identities. It does not come to that: the list it is given has no entries, as said above. */
  function StoredPut(rows: set<Row>, stale: Row, row: Row): set<Row> {
    (set r | r in rows && r.id != stale.authorizationId) + {row}
  }

  /** Given entries, it would replace the old row exactly when that row and its authorization happen to have the
      same identity. */
  lemma StoredPutIsRightIff(rows: set<Row>, stale: Row, row: Row)
    requires OneRowEach(rows) && stale in rows && stale.authorizationId == row.authorizationId && row !in rows
    requires forall r, s :: r in rows && s in rows && r.id == s.id ==> r == s
    ensures StoredPut(rows, stale, row) == Put(rows, row) <==> stale.id == stale.authorizationId
  {
    if stale.id == stale.authorizationId {
      forall r ensures r in StoredPut(rows, stale, row) <==> r in Put(rows, row) {
      }
    } else {
      assert stale in StoredPut(rows, stale, row) && stale !in Put(rows, row);
    }
  }
}
