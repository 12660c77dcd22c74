/** The OCPP 1.6 boot protocol of one station. */
module Boot16 {
  import opened Options
  import opened CacheModel
  import opened CacheInvariants
  import opened BootCache
  import M = MemoryCache

  const CHANGE_CONFIGURATION := "ChangeConfiguration"
  const GET_CONFIGURATION := "GetConfiguration"
  const TRIGGER_MESSAGE := "TriggerMessage"

  /** The keys of OCPP1_6_CALL_SCHEMA_MAP, in order. */
  const ACTIONS: seq<string> := [
    "Authorize", "BootNotification", "DataTransfer", "DiagnosticsStatusNotification", "FirmwareStatusNotification",
    "Heartbeat", "MeterValues", "StartTransaction", "StatusNotification", "StopTransaction"
  ]

  /** The calls that the configuration round unblocks are not charger-originated, so that they are never blocked. */
  predicate Actions16(actions: seq<string>) {
    ProtocolActions(actions)
    && CHANGE_CONFIGURATION !in actions && GET_CONFIGURATION !in actions && TRIGGER_MESSAGE !in actions
  }

  lemma ActionsAreProtocolActions()
    ensures Actions16(ACTIONS)
  {
    assert ACTIONS[1] == BOOT_NOTIFICATION;
    assert forall i :: 0 <= i < |ACTIONS| ==>
      && ACTIONS[i][0] != 'b' && ACTIONS[i][0] != '0'
      && ACTIONS[i][0] != 'C' && ACTIONS[i][0] != 'G' && ACTIONS[i][0] != 'T';
  }

  /** `actions` are the charger-originated actions. */
  datatype Config = Config(actions: seq<string>, unknownChargerStatus: Status)

  datatype BootRecord = BootRecord(
    status: string,
    getConfigurationsOnPending: Option<bool>,
    changeConfigurationsOnPending: Option<bool>)

  /** Both kinds of configuration are needed unless the record says otherwise. */
  predicate Configured(record: BootRecord) {
    record.getConfigurationsOnPending == Some(false) && record.changeConfigurationsOnPending == Some(false)
  }

  function DetermineBootStatus(record: Option<BootRecord>, config: Config): Option<Status> {
    match record
    case None => Some(config.unknownChargerStatus)
    case Some(r) =>
      if ToStatus(r.status) == Some(Pending) && Configured(r) then Some(Accepted) else ToStatus(r.status)
  }

  /** The reply is stored at every boot, in a new record if there is none. */
  function UpdateBootConfig(record: Option<BootRecord>, reply: Status): BootRecord {
    record.OrElse(BootRecord("", None, None)).(status := Name(reply))
  }

  predicate StartsRound(reply: Status, cached: Option<string>) {
    reply == Pending && cached != Some(Name(Pending))
  }

  datatype BootResult = BootResult(cache: State, record: Option<BootRecord>, reply: Option<Status>, startsRound: bool)

  /** The handler up to the start of a round, as one step. */
  function Boot(s: State, station: string, record: Option<BootRecord>, config: Config, sent: bool): BootResult {
    match DetermineBootStatus(record, config)
    case None => BootResult(s, record, None, false)
    case Some(reply) =>
      var cached := Get(s, NamespaceKey(BOOT_STATUS, station));
      var permitted := Permissions(s, station, config.actions, cached, reply);
      if !sent then BootResult(permitted, record, None, false)
      else BootResult(CacheStatus(permitted, station, cached, reply), Some(UpdateBootConfig(record, reply)),
                      Some(reply), StartsRound(reply, cached))
  }

  /** The round changes configurations one by one, then asks for all of them; it notes what could not be sent. */
  function AfterRound(record: BootRecord, changesSent: seq<bool>, getSent: bool): BootRecord {
    record.(changeConfigurationsOnPending := Some(false in changesSent), getConfigurationsOnPending := Some(!getSent))
  }

  class ConfigurationModule {
    const service: PermissionService
    const config: Config
    var boots: map<string, BootRecord>

    constructor (cache: M.MemoryCache, config: Config)
      ensures this.config == config && service.cache == cache && service.actions == config.actions && boots == map[]
      ensures fresh(service)
    {
      this.config, boots := config, map[];
      service := new PermissionService(cache, config.actions);
    }

    ghost function Record(stationId: string): Option<BootRecord>
      reads this
    {
      if stationId in boots then Some(boots[stationId]) else None
    }

    /** `sent` is the confirmation of the reply; without it the handler throws after changing the blacklist. */
    method HandleBootNotification(stationId: string, sent: bool) returns (reply: Option<Status>, startsRound: bool)
      requires service.cache.Valid() && service.actions == config.actions
      modifies this, service.cache, service.cache.loop
      ensures service.cache.Valid()
      ensures var r := Boot(old(service.cache.State()), stationId, old(Record(stationId)), config, sent);
              && service.cache.State() == r.cache && Record(stationId) == r.record
              && reply == r.reply && startsRound == r.startsRound
      ensures forall other :: other != stationId ==> Record(other) == old(Record(other))
    {
      var record := if stationId in boots then Some(boots[stationId]) else None;
      var status := DetermineBootStatus(record, config);
      if status.None? {
        return None, false;
      }
      var cachedBootStatus := service.cache.Get(BOOT_STATUS, stationId);
      service.CacheChargerActionsPermissions(stationId, cachedBootStatus, status.value);
      if !sent {
        return None, false;
      }
      service.CacheBootStatus(stationId, cachedBootStatus, status.value);
      boots := boots[stationId := UpdateBootConfig(record, status.value)];
      if status.value != Pending || (cachedBootStatus.Some? && cachedBootStatus.value == Name(Pending)) {
        return status, false;
      }
      return status, true;
    }

    /** `confirmations` are the answers of the message broker to the ChangeConfiguration sends, `getSent` to the
        GetConfiguration send. */
    method SyncConfigurations(stationId: string, confirmations: seq<bool>, getSent: bool)
      requires service.cache.Valid() && stationId in boots
      modifies this, service.cache, service.cache.loop
      ensures service.cache.Valid()
      ensures boots == old(boots)[stationId := AfterRound(old(boots)[stationId], confirmations, getSent)]
      ensures var r := boots[stationId];
              && r.status == old(boots)[stationId].status
              && r.changeConfigurationsOnPending == Some(exists i :: 0 <= i < |confirmations| && !confirmations[i])
              && r.getConfigurationsOnPending == Some(!getSent)
      ensures service.cache.State() == Unblocked(old(service.cache.State()), stationId)
    {
      var changeConfigurationsOnPending, getConfigurationsOnPending := false, true;
      var _ := service.cache.Remove(CHANGE_CONFIGURATION, stationId);
      for i := 0 to |confirmations|
        invariant changeConfigurationsOnPending == (false in confirmations[..i])
      {
        if !confirmations[i] {
          changeConfigurationsOnPending := true;
        }
        assert confirmations[..i + 1] == confirmations[..i] + [confirmations[i]];
      }
      assert confirmations[..|confirmations|] == confirmations;
      var _ := service.cache.Remove(GET_CONFIGURATION, stationId);
      if getSent {
        getConfigurationsOnPending := false;
      }
      boots := boots[stationId := boots[stationId].(
        changeConfigurationsOnPending := Some(changeConfigurationsOnPending),
        getConfigurationsOnPending := Some(getConfigurationsOnPending))];
      var _ := service.cache.Remove(TRIGGER_MESSAGE, stationId);
    }
  }

  function Unblocked(s: State, station: string): State {
    Remove(Remove(Remove(s, NamespaceKey(CHANGE_CONFIGURATION, station)), NamespaceKey(GET_CONFIGURATION, station)),
           NamespaceKey(TRIGGER_MESSAGE, station))
  }

  // Runs.

  datatype Event =
    | BootEvent
    | RoundEnded(changesSent: seq<bool>, getSent: bool)
    | RecordChanged(record: Option<BootRecord>)
    | CacheEvent(step: Step)

  /** `open` counts the rounds started and not yet ended, `started` all of them. */
  datatype System = System(cache: State, record: Option<BootRecord>, open: nat, started: nat, replies: seq<Status>)

  ghost predicate Enabled(sys: System, station: string, config: Config, event: Event) {
    match event
    case RoundEnded(_, _) => sys.open > 0
    case CacheEvent(step) => Legal(sys.cache, step) && Foreign(step, station, config.actions)
    case _ => true
  }

  function Next(sys: System, station: string, config: Config, event: Event): System
    requires Enabled(sys, station, config, event)
  {
    match event
    case BootEvent =>
      var r := Boot(sys.cache, station, sys.record, config, true);
      var added := if r.startsRound then 1 else 0;
      System(r.cache, r.record, sys.open + added, sys.started + added,
             if r.reply.Some? then sys.replies + [r.reply.value] else sys.replies)
    case RoundEnded(changesSent, getSent) =>
      var record := if sys.record.None? then None else Some(AfterRound(sys.record.value, changesSent, getSent));
      sys.(cache := Unblocked(sys.cache, station), record := record, open := sys.open - 1)
    case RecordChanged(record) => sys.(record := record)
    case CacheEvent(step) => sys.(cache := Apply(sys.cache, step))
  }

  ghost predicate EnabledRun(sys: System, station: string, config: Config, events: seq<Event>)
    decreases |events|
  {
    events != [] ==>
      && Enabled(sys, station, config, events[0])
      && EnabledRun(Next(sys, station, config, events[0]), station, config, events[1..])
  }

  ghost function Run(sys: System, station: string, config: Config, events: seq<Event>): System
    requires EnabledRun(sys, station, config, events)
    decreases |events|
  {
    if events == [] then sys else Run(Next(sys, station, config, events[0]), station, config, events[1..])
  }

  function Last(replies: seq<Status>): Option<Status> {
    if replies == [] then None else Some(replies[|replies| - 1])
  }

  function CachedAfter(replies: seq<Status>): Option<Status> {
    if Last(replies) == Some(Accepted) then None else Last(replies)
  }

  ghost predicate Safe(sys: System, station: string, config: Config) {
    Consistent(sys.cache, station, config.actions, CachedAfter(sys.replies), {})
  }

  lemma RoundEndIsSafe(s: State, station: string, actions: seq<string>, status: Option<Status>)
    requires Actions16(actions) && Consistent(s, station, actions, status, {})
    ensures Consistent(Unblocked(s, station), station, actions, status, {})
  {
    ForeignRemoval(s, station, actions, status, CHANGE_CONFIGURATION);
    var s1 := Remove(s, NamespaceKey(CHANGE_CONFIGURATION, station));
    ForeignRemoval(s1, station, actions, status, GET_CONFIGURATION);
    ForeignRemoval(Remove(s1, NamespaceKey(GET_CONFIGURATION, station)), station, actions, status, TRIGGER_MESSAGE);
  }

  lemma ForeignRemoval(s: State, station: string, actions: seq<string>, status: Option<Status>, name: string)
    requires Actions16(actions) && Consistent(s, station, actions, status, {}) && !Owned(actions, name)
    ensures Consistent(Remove(s, NamespaceKey(name, station)), station, actions, status, {})
  {
    forall other | Owned(actions, other) ensures NamespaceKey(other, station) != NamespaceKey(name, station) {
      NamesAreDistinct(other, name, station);
    }
    ForeignKeepsConsistent(s, RemoveStep(NamespaceKey(name, station)), station, actions, status, {});
  }

  lemma EventIsSafe(sys: System, station: string, config: Config, event: Event)
    requires Actions16(config.actions) && Safe(sys, station, config) && Enabled(sys, station, config, event)
    ensures Safe(Next(sys, station, config, event), station, config)
  {
    match event
    case BootEvent =>
      var reply := DetermineBootStatus(sys.record, config);
      if reply.Some? {
        ReplyKeepsConsistent(sys.cache, station, config.actions, CachedAfter(sys.replies), {}, reply.value);
      }
    case RoundEnded(_, _) => RoundEndIsSafe(sys.cache, station, config.actions, CachedAfter(sys.replies));
    case RecordChanged(_) =>
    case CacheEvent(step) =>
      ForeignKeepsConsistent(sys.cache, step, station, config.actions, CachedAfter(sys.replies), {});
  }

  lemma {:induction false} RunIsSafe(sys: System, station: string, config: Config, events: seq<Event>)
    requires Actions16(config.actions) && Safe(sys, station, config) && EnabledRun(sys, station, config, events)
    ensures Safe(Run(sys, station, config, events), station, config)
    decreases |events|
  {
    if events != [] {
      EventIsSafe(sys, station, config, events[0]);
      RunIsSafe(Next(sys, station, config, events[0]), station, config, events[1..]);
    }
  }

  function Initial(record: Option<BootRecord>): System {
    System(EMPTY, record, 0, 0, [])
  }

  /** Over every run: while a status is cached, the blacklist is exactly all charger actions except BootNotification;
      otherwise nothing is blocked; the cached status is the last reply that was not an acceptance. */
  lemma BlacklistIsExact(record: Option<BootRecord>, station: string, config: Config, events: seq<Event>)
    requires Actions16(config.actions) && EnabledRun(Initial(record), station, config, events)
    ensures var end := Run(Initial(record), station, config, events);
            var status := CachedAfter(end.replies);
            && Lookup(end.cache, station, BOOT_STATUS) == (if status.Some? then Some(Name(status.value)) else None)
            && forall name :: name in config.actions ==>
                 (Lookup(end.cache, station, name).Some? <==> status.Some? && name != BOOT_NOTIFICATION)
  {
    RunIsSafe(Initial(record), station, config, events);
    assert Owned(config.actions, BOOT_STATUS);
  }

  /** The end of a round unblocks the three calls that it makes, and changes nothing else in the cache. */
  lemma RoundUnblocks(s: State, station: string, name: string)
    ensures Lookup(Unblocked(s, station), station, name) ==
            if name in {"ChangeConfiguration", "GetConfiguration", "TriggerMessage"} then None
            else Lookup(s, station, name)
    ensures Unblocked(s, station) == s.(cache := Unblocked(s, station).cache)
  {
    NamesAreDistinct(name, CHANGE_CONFIGURATION, station);
    NamesAreDistinct(name, GET_CONFIGURATION, station);
    NamesAreDistinct(name, TRIGGER_MESSAGE, station);
  }

  // What a boot answers, by the record.

  /** An unknown station is answered exactly like one on record with the configured status and nothing else, and gets
      that record. */
  lemma UnknownIsTreatedAsConfigured(sys: System, station: string, config: Config)
    requires sys.record == None
    ensures var like := BootRecord(Name(config.unknownChargerStatus), None, None);
            && Next(sys, station, config, BootEvent) ==
               Next(sys.(record := Some(like)), station, config, BootEvent)
            && Next(sys, station, config, BootEvent).record == Some(like)
            && Next(sys, station, config, BootEvent).replies == sys.replies + [config.unknownChargerStatus]
  {
  }

  /** A station on record is answered its stored status, except that a pending one is accepted exactly if the record
      says that neither kind of configuration is wanted; the reply is stored and the flags stay. Any other text ends
      the handler at once. */
  lemma KnownStationIsAnswered(sys: System, r: BootRecord, station: string, config: Config)
    requires sys.record == Some(r)
    ensures var next := Next(sys, station, config, BootEvent);
            && (next.replies == sys.replies + [Accepted] && next.record == Some(r.(status := "Accepted")) <==>
                  || r.status == "Accepted"
                  || (&& r.status == "Pending" && r.getConfigurationsOnPending == Some(false)
                      && r.changeConfigurationsOnPending == Some(false)))
            && (next.replies == sys.replies + [Rejected] && next.record == sys.record <==> r.status == "Rejected")
            && (next == sys <==> r.status != "Accepted" && r.status != "Pending" && r.status != "Rejected")
            && (next != sys ==>
                  && |next.replies| == |sys.replies| + 1
                  && next.record == Some(r.(status := Name(next.replies[|sys.replies|]))))
  {
    var next := Next(sys, station, config, BootEvent);
    if next.replies != sys.replies {
      assert next.replies[|sys.replies|] == DetermineBootStatus(sys.record, config).value;
    }
  }

  /** The record, once there is one, says the status, and everything answered so far is the status. */
  predicate AlwaysAnswers(sys: System, status: Status) {
    && sys.started == 0 && sys.open == 0
    && (sys.record.Some? ==> sys.record.value.status == Name(status))
    && forall i :: 0 <= i < |sys.replies| ==> sys.replies[i] == status
  }

  lemma {:induction false} AnswersStayTheSame(sys: System, station: string, config: Config, events: seq<Event>)
    requires EnabledRun(sys, station, config, events) && forall event :: event in events ==> !event.RecordChanged?
    requires config.unknownChargerStatus != Pending && AlwaysAnswers(sys, config.unknownChargerStatus)
    ensures AlwaysAnswers(Run(sys, station, config, events), config.unknownChargerStatus)
    decreases |events|
  {
    if events != [] {
      assert !events[0].RecordChanged?;
      AnswersStayTheSame(Next(sys, station, config, events[0]), station, config, events[1..]);
    }
  }

  /** Over every run from an unknown station: with unknown stations rejected no reply is anything but Rejected, with
      unknown stations accepted none is anything but Accepted, and no round starts, until the record is changed from
      outside. */
  lemma UnknownStaysAsConfigured(station: string, config: Config, events: seq<Event>)
    requires EnabledRun(Initial(None), station, config, events)
    requires forall event :: event in events ==> !event.RecordChanged?
    requires config.unknownChargerStatus != Pending
    ensures var end := Run(Initial(None), station, config, events);
            && end.started == 0
            && forall i :: 0 <= i < |end.replies| ==> end.replies[i] == config.unknownChargerStatus
  {
    AnswersStayTheSame(Initial(None), station, config, events);
  }

  /** A round starts exactly at a Pending reply that does not follow one. */
  lemma RoundStartsIff(sys: System, station: string, config: Config)
    requires Actions16(config.actions) && Safe(sys, station, config)
    ensures var next := Next(sys, station, config, BootEvent);
            next.started == sys.started + (if Last(next.replies) == Some(Pending) && Last(sys.replies) != Some(Pending)
                                           then 1 else 0)
  {
    var reply := DetermineBootStatus(sys.record, config);
    if reply.Some? {
      ReplyKeepsConsistent(sys.cache, station, config.actions, CachedAfter(sys.replies), {}, reply.value);
    }
  }

  // From a pending boot to acceptance.

  /** While nobody else changes the record, it stores the last reply. */
  lemma {:induction false} StoredStatusIsLastReply(sys: System, station: string, config: Config, events: seq<Event>)
    requires EnabledRun(sys, station, config, events) && forall event :: event in events ==> !event.RecordChanged?
    requires sys.record.Some? && Last(sys.replies).Some? && sys.record.value.status == Name(Last(sys.replies).value)
    ensures var end := Run(sys, station, config, events);
            end.record.Some? && Last(end.replies).Some? && end.record.value.status == Name(Last(end.replies).value)
    decreases |events|
  {
    if events != [] {
      assert !events[0].RecordChanged?;
      StoredStatusIsLastReply(Next(sys, station, config, events[0]), station, config, events[1..]);
    }
  }

  lemma {:induction false} CacheEventsKeepRecord(sys: System, station: string, config: Config, events: seq<Event>)
    requires EnabledRun(sys, station, config, events) && forall event :: event in events ==> event.CacheEvent?
    ensures var end := Run(sys, station, config, events);
            end.record == sys.record && end.replies == sys.replies && end.started == sys.started && end.open == sys.open
    decreases |events|
  {
    if events != [] {
      assert events[0].CacheEvent?;
      CacheEventsKeepRecord(Next(sys, station, config, events[0]), station, config, events[1..]);
    }
  }

  /** After a round whose every send succeeds, the next boot of a station stored as pending is accepted and
      everything is unblocked. */
  lemma SuccessfulRoundLeadsToAcceptance(sys: System, station: string, config: Config, changesSent: seq<bool>,
                                         idle: seq<Event>)
    requires Actions16(config.actions) && Safe(sys, station, config)
    requires sys.record.Some? && sys.record.value.status == Name(Pending)
    requires sys.open > 0 && false !in changesSent
    requires EnabledRun(Next(sys, station, config, RoundEnded(changesSent, true)), station, config, idle)
    requires forall event :: event in idle ==> event.CacheEvent?
    ensures var ready := Run(Next(sys, station, config, RoundEnded(changesSent, true)), station, config, idle);
            var end := Next(ready, station, config, BootEvent);
            && end.replies == ready.replies + [Accepted]
            && Free(end.cache, station, config.actions)
  {
    var done := Next(sys, station, config, RoundEnded(changesSent, true));
    EventIsSafe(sys, station, config, RoundEnded(changesSent, true));
    RunIsSafe(done, station, config, idle);
    CacheEventsKeepRecord(done, station, config, idle);
    ConfiguredBootIsAccepted(Run(done, station, config, idle), station, config);
  }

  lemma ConfiguredBootIsAccepted(sys: System, station: string, config: Config)
    requires Actions16(config.actions) && Safe(sys, station, config)
    requires sys.record.Some? && sys.record.value.status == Name(Pending) && Configured(sys.record.value)
    ensures var end := Next(sys, station, config, BootEvent);
            end.replies == sys.replies + [Accepted] && Free(end.cache, station, config.actions)
  {
    EventIsSafe(sys, station, config, BootEvent);
    AcceptedIsFree(Next(sys, station, config, BootEvent), station, config);
  }

  /** From a pending boot on: whatever happens except an outside change of the record, as long as the last reply is
      Pending, the round that then ends with every send made leads to acceptance. */
  lemma PendingBootLeadsToAcceptance(sys: System, station: string, config: Config, during: seq<Event>, mid: System,
                                     changesSent: seq<bool>)
    requires Actions16(config.actions) && Safe(sys, station, config)
    requires DetermineBootStatus(sys.record, config) == Some(Pending)
    requires EnabledRun(Next(sys, station, config, BootEvent), station, config, during)
    requires forall event :: event in during ==> !event.RecordChanged?
    requires mid == Run(Next(sys, station, config, BootEvent), station, config, during)
    requires Last(mid.replies) == Some(Pending) && mid.open > 0 && false !in changesSent
    ensures var end := Next(Next(mid, station, config, RoundEnded(changesSent, true)), station, config, BootEvent);
            end.replies == mid.replies + [Accepted] && Free(end.cache, station, config.actions)
  {
    var booted := Next(sys, station, config, BootEvent);
    EventIsSafe(sys, station, config, BootEvent);
    RunIsSafe(booted, station, config, during);
    StoredStatusIsLastReply(booted, station, config, during);
    SuccessfulRoundLeadsToAcceptance(mid, station, config, changesSent, []);
  }

  lemma AcceptedIsFree(sys: System, station: string, config: Config)
    requires Safe(sys, station, config) && CachedAfter(sys.replies) == None
    ensures Free(sys.cache, station, config.actions)
  {
    forall i | 0 <= i < |config.actions| ensures Lookup(sys.cache, station, config.actions[i]) == None {
      assert config.actions[i] in config.actions;
    }
  }

  // A send that fails is never repeated.

  predicate Stuck(sys: System, config: Config) {
    && Last(sys.replies) == Some(Pending) && sys.open == 0
    && sys.record.Some? && sys.record.value.status == Name(Pending) && !Configured(sys.record.value)
  }

  /** Once the only open round has ended with a failed send, every later boot is answered Pending and none starts a
      round, until the record is changed from outside. */
  lemma {:induction false} FailedSendIsNeverRetried(sys: System, station: string, config: Config, events: seq<Event>)
    requires Actions16(config.actions) && Safe(sys, station, config) && Stuck(sys, config)
    requires EnabledRun(sys, station, config, events) && forall event :: event in events ==> !event.RecordChanged?
    ensures var end := Run(sys, station, config, events);
            && Stuck(end, config) && end.started == sys.started
            && |sys.replies| <= |end.replies|
            && end.replies[..|sys.replies|] == sys.replies
            && forall i :: |sys.replies| <= i < |end.replies| ==> end.replies[i] == Pending
    decreases |events|
  {
    if events != [] {
      var next := Next(sys, station, config, events[0]);
      assert !events[0].RecordChanged?;
      EventIsSafe(sys, station, config, events[0]);
      ReplyKeepsConsistent(sys.cache, station, config.actions, CachedAfter(sys.replies), {}, Pending);
      FailedSendIsNeverRetried(next, station, config, events[1..]);
      var end := Run(sys, station, config, events);
      forall i | |sys.replies| <= i < |end.replies| ensures end.replies[i] == Pending {
        if i < |next.replies| {
          assert end.replies[i] == end.replies[..|next.replies|][i];
        }
      }
    }
  }

  lemma FailedSendIsStuck(sys: System, station: string, config: Config, changesSent: seq<bool>, getSent: bool)
    requires sys.open == 1 && Last(sys.replies) == Some(Pending)
    requires sys.record.Some? && sys.record.value.status == Name(Pending)
    ensures Stuck(Next(sys, station, config, RoundEnded(changesSent, getSent)), config) <==>
              false in changesSent || !getSent
  {
  }

  // When a reply cannot be sent.

  /** The cache stays consistent exactly when the reply was an acceptance or a status was cached already. */
  lemma UnsentReplyIsConsistentIff(s: State, station: string, record: Option<BootRecord>, config: Config,
                                   status: Option<Status>, reply: Status, action: string)
    requires Actions16(config.actions) && Consistent(s, station, config.actions, status, {})
    requires DetermineBootStatus(record, config) == Some(reply)
    requires action in config.actions && action != BOOT_NOTIFICATION
    ensures var r := Boot(s, station, record, config, false);
            && r.record == record && r.reply.None? && !r.startsRound
            && ((exists after :: Consistent(r.cache, station, config.actions, after, {})) <==>
                  reply == Accepted || status.Some?)
  {
    UnsentIsConsistentIff(s, station, config.actions, status, {}, reply, action);
  }
}
