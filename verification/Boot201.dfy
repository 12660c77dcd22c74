/** The OCPP 2.0.1 boot protocol of one station: boots, configuration rounds and everything else that happens
    to the cache and to the stored boot record, in any order. */
module Boot201 {
  import opened Options
  import opened CacheModel
  import opened CacheInvariants
  import opened BootCache
  import B = Batches
  import M = MemoryCache
  import R = BaseReport
  import W = CacheWaiters

  const NOTIFY_REPORT := "NotifyReport"

  /** The keys of OCPP2_0_1_CALL_SCHEMA_MAP, in order. */
  const ACTIONS: seq<string> := [
    "Authorize", "BootNotification", "ClearedChargingLimit", "DataTransfer", "FirmwareStatusNotification",
    "Get15118EVCertificate", "GetCertificateStatus", "Heartbeat", "LogStatusNotification", "MeterValues",
    "NotifyChargingLimit", "NotifyCustomerInformation", "NotifyDisplayMessages", "NotifyEVChargingNeeds",
    "NotifyEVChargingSchedule", "NotifyEvent", "NotifyMonitoringReport", "NotifyReport",
    "PublishFirmwareStatusNotification", "ReportChargingProfiles", "ReservationStatusUpdate",
    "SecurityEventNotification", "SignCertificate", "StatusNotification", "TransactionEvent"
  ]

  lemma ActionsAreProtocolActions()
    ensures ProtocolActions(ACTIONS)
  {
    assert ACTIONS[1] == BOOT_NOTIFICATION;
    assert forall i :: 0 <= i < |ACTIONS| ==> ACTIONS[i][0] != 'b' && ACTIONS[i][0] != '0';
  }

  lemma NotifyReportIsAnAction()
    ensures NOTIFY_REPORT in ACTIONS
  {
    assert ACTIONS[17] == NOTIFY_REPORT;
  }

  /** `actions` are the charger-originated actions. */
  datatype Config = Config(
    actions: seq<string>,
    unknownChargerStatus: Status,
    getBaseReportOnPending: bool,
    bootWithRejectedVariables: bool,
    autoAccept: bool,
    maxCachingSeconds: nat)

  /** The stored record of a station. `pendingSetVariables` counts the variables to set on a pending boot. */
  datatype BootRecord = BootRecord(
    status: string,
    getBaseReportOnPending: Option<bool>,
    pendingSetVariables: nat,
    bootWithRejectedVariables: Option<bool>)

  predicate NeedsReport(record: BootRecord, config: Config) {
    record.getBaseReportOnPending.OrElse(config.getBaseReportOnPending)
  }

  /** None when the stored status is not a registration status: the handler throws. */
  function DetermineBootStatus(record: Option<BootRecord>, config: Config): Option<Status> {
    match record
    case None =>
      if config.unknownChargerStatus == Pending && !config.getBaseReportOnPending && config.autoAccept
      then Some(Accepted)
      else Some(config.unknownChargerStatus)
    case Some(r) =>
      if ToStatus(r.status) == Some(Pending) && !NeedsReport(r, config) && r.pendingSetVariables == 0
         && config.autoAccept
      then Some(Accepted)
      else ToStatus(r.status)
  }

  /** An unknown station gets a record with the status it was answered. */
  function UpdateBootConfig(record: Option<BootRecord>, reply: Status): BootRecord {
    record.OrElse(BootRecord(Name(reply), None, 0, None))
  }

  /** A configuration round starts at a pending reply unless a pending status was cached already. */
  predicate StartsRound(reply: Status, cached: Option<string>) {
    reply == Pending && cached != Some(Name(Pending))
  }

  /** The handler of a BootNotification up to the start of a round, as one step. */
  datatype BootResult = BootResult(cache: State, record: Option<BootRecord>, reply: Option<Status>, startsRound: bool)

  function Boot(s: State, station: string, record: Option<BootRecord>, config: Config, sent: bool): BootResult {
    match DetermineBootStatus(record, config)
    case None => BootResult(s, record, None, false)
    case Some(reply) =>
      var cached := Get(s, NamespaceKey(BOOT_STATUS, station));
      var permitted := Permissions(s, station, config.actions, cached, reply);
      if !sent then BootResult(permitted, record, None, false)
      else BootResult(CacheStatus(permitted, station, cached, reply), Some(UpdateBootConfig(record, reply)),
                      Some(reply), StartsRound(reply, cached))
  }

  class ConfigurationModule {
    const service: PermissionService
    const config: Config
    var boots: map<string, BootRecord>

    constructor (cache: M.MemoryCache, config: Config)
      ensures this.config == config && service.cache == cache && service.actions == config.actions && boots == map[]
      ensures fresh(service)
    {
      this.config, boots := config, map[];
      service := new PermissionService(cache, config.actions);
    }

    ghost function Record(stationId: string): Option<BootRecord>
      reads this
    {
      if stationId in boots then Some(boots[stationId]) else None
    }

    /** `sent` is the confirmation of the reply; without it the handler throws after changing the blacklist. */
    method HandleBootNotification(stationId: string, sent: bool) returns (reply: Option<Status>, startsRound: bool)
      requires service.cache.Valid() && service.actions == config.actions
      modifies this, service.cache, service.cache.loop
      ensures service.cache.Valid()
      ensures var r := Boot(old(service.cache.State()), stationId, old(Record(stationId)), config, sent);
              && service.cache.State() == r.cache && Record(stationId) == r.record
              && reply == r.reply && startsRound == r.startsRound
      ensures forall other :: other != stationId ==> Record(other) == old(Record(other))
    {
      var record := if stationId in boots then Some(boots[stationId]) else None;
      var status := DetermineBootStatus(record, config);
      if status.None? {
        return None, false;
      }
      var cachedBootStatus := service.cache.Get(BOOT_STATUS, stationId);
      service.CacheChargerActionsPermissions(stationId, cachedBootStatus, status.value);
      if !sent {
        return None, false;
      }
      service.CacheBootStatus(stationId, cachedBootStatus, status.value);
      if stationId !in boots {
        boots := boots[stationId := BootRecord(Name(status.value), None, 0, None)];
      }
      if status.value != Pending || (cachedBootStatus.Some? && cachedBootStatus.value == Name(Pending)) {
        return status, false;
      }
      return status, true;
    }

    /** `save` on the record of a station: only the status was changed. */
    method SaveStatusOf(stationId: string, status: Status)
      modifies this
      ensures Record(stationId) == SaveStatus(old(Record(stationId)), status)
      ensures forall other :: other != stationId ==> Record(other) == old(Record(other))
    {
      if stationId in boots {
        boots := boots[stationId := boots[stationId].(status := Name(status))];
      }
    }

    /**
      * The handler from the SetVariables loop to its end. Whatever the answers are, the round of the machine below ends
      * the same way: `event` says whether every call was answered and whether any variable was rejected.
      */
    method FinishRound<T>(stationId: string, entity: BootRecord, data: seq<T>, itemsPerMessage: Option<int>,
                          answers: nat -> B.Answer, ghost sys: System, ghost round: nat)
      returns (sent: seq<seq<T>>, reset: bool, ghost event: Event)
      requires InPhase(sys, round, Reported) && sys.rounds[round].entity == entity && sys.record == Record(stationId)
      requires entity.pendingSetVariables > 0 ==> B.MayEnd(data, B.BatchSize(data, itemsPerMessage), answers)
      modifies this
      ensures event.VariablesEnded? && event.round == round && Enabled(sys, stationId, config, event)
      ensures Record(stationId) == Next(sys, stationId, config, event).record
      ensures forall other :: other != stationId ==> Record(other) == old(Record(other))
      ensures entity.pendingSetVariables == 0 ==> sent == []
      ensures entity.pendingSetVariables > 0 ==>
                && B.AreCutOff(data, B.BatchSize(data, itemsPerMessage), sent)
                && B.FailsAtLast(answers, |sent|, !event.answered)
                && (event.answered ==>
                      && B.Left(data, B.BatchSize(data, itemsPerMessage), |sent|) == []
                      && (event.rejected <==> B.Reported(answers, |sent|, B.Rejected)))
      ensures reset <==>
              && InPhase(Next(sys, stationId, config, event), round, Finished)
              && B.Reported(answers, |sent|, B.RebootRequired)
    {
      var rejected, reboot := false, false;
      sent, reset := [], false;
      if entity.pendingSetVariables > 0 {
        var outcome;
        sent, outcome := B.SendSetVariables(data, itemsPerMessage, answers);
        if outcome.Thrown? {
          event := VariablesEnded(round, false, false);
          return;
        }
        rejected, reboot := outcome.rejected, outcome.reboot;
        if rejected && RejectionStops(entity, config) {
          SaveStatusOf(stationId, Rejected);
          event := VariablesEnded(round, true, true);
          return;
        }
      }
      if config.autoAccept {
        SaveStatusOf(stationId, Accepted);
      }
      event := VariablesEnded(round, true, rejected);
      reset := reboot;
    }
  }

  // Configuration rounds.

  /** A round works on the record as loaded when it started; saving writes the changed fields only. */
  datatype Round = Round(entity: BootRecord, phase: Phase)

  /** Before the base report is known the round has requested it, and then waits as waiter `w` of the cache. */
  datatype Phase = Started | Requested | Waiting(w: nat) | Reported | Finished | Stopped | Aborted

  datatype Event =
    | BootEvent
    | ReportRequested(round: nat)
    | ReportSkipped(round: nat)
    | ReportSent(round: nat, success: bool)
    | ReportAnswered(round: nat)
    | VariablesEnded(round: nat, answered: bool, rejected: bool)
    | RecordChanged(record: Option<BootRecord>)
    | CacheEvent(step: Step)

  /** One station: its part of the cache, its record, the rounds started so far and the replies sent so far. */
  datatype System = System(cache: State, record: Option<BootRecord>, rounds: seq<Round>, replies: seq<Status>)

  predicate InPhase(sys: System, round: nat, phase: Phase) {
    round < |sys.rounds| && sys.rounds[round].phase == phase
  }

  predicate IsWaiting(sys: System, round: nat) {
    round < |sys.rounds| && sys.rounds[round].phase.Waiting?
  }

  /** What the wait of the round has come to, if it is over. */
  function ReportAnswer(sys: System, round: nat): Option<Option<string>>
    requires IsWaiting(sys, round)
  {
    R.Answer(sys.cache, sys.rounds[round].phase.w)
  }

  function ReportKey(station: string): string {
    NamespaceKey(REPORT_REQUEST, station)
  }

  ghost predicate Enabled(sys: System, station: string, config: Config, event: Event) {
    match event
    case BootEvent => true
    case ReportRequested(i) => InPhase(sys, i, Started) && NeedsReport(sys.rounds[i].entity, config)
    case ReportSkipped(i) => InPhase(sys, i, Started) && !NeedsReport(sys.rounds[i].entity, config)
    case ReportSent(i, _) => InPhase(sys, i, Requested)
    case ReportAnswered(i) => IsWaiting(sys, i) && ReportAnswer(sys, i).Some?
    case VariablesEnded(i, answered, rejected) =>
      && InPhase(sys, i, Reported)
      && (sys.rounds[i].entity.pendingSetVariables == 0 ==> answered && !rejected)
    case RecordChanged(_) => true
    case CacheEvent(step) => Legal(sys.cache, step) && Foreign(step, station, config.actions)
  }

  function Goto(sys: System, round: nat, phase: Phase): System
    requires round < |sys.rounds|
  {
    sys.(rounds := sys.rounds[round := sys.rounds[round].(phase := phase)])
  }

  function Subscribe(sys: System, station: string, config: Config, round: nat): System
    requires round < |sys.rounds|
  {
    Goto(sys, round, Waiting(NewWaiter(sys.cache, ReportKey(station)))).(
      cache := OnChange(sys.cache, ReportKey(station), config.maxCachingSeconds))
  }

  function SaveStatus(record: Option<BootRecord>, status: Status): Option<BootRecord> {
    if record.Some? then Some(record.value.(status := Name(status))) else None
  }

  function SaveReported(record: Option<BootRecord>): Option<BootRecord> {
    if record.Some? then Some(record.value.(getBaseReportOnPending := Some(false))) else None
  }

  /** A rejected variable stops the round unless the record, or else the configuration, lets it boot all the same. */
  predicate RejectionStops(entity: BootRecord, config: Config) {
    !entity.bootWithRejectedVariables.OrElse(config.bootWithRejectedVariables)
  }

  function Next(sys: System, station: string, config: Config, event: Event): System
    requires Enabled(sys, station, config, event)
  {
    match event
    case BootEvent =>
      var r := Boot(sys.cache, station, sys.record, config, true);
      System(r.cache, r.record,
             if r.startsRound then sys.rounds + [Round(r.record.value, Started)] else sys.rounds,
             if r.reply.Some? then sys.replies + [r.reply.value] else sys.replies)
    case ReportRequested(i) =>
      var unblocked := Remove(sys.cache, NamespaceKey(NOTIFY_REPORT, station));
      Goto(sys, i, Requested).(cache := Set(unblocked, ReportKey(station), R.ONGOING, config.maxCachingSeconds))
    case ReportSkipped(i) => Goto(sys, i, Reported)
    case ReportSent(i, success) =>
      if success then Subscribe(sys, station, config, i) else Goto(sys, i, Aborted)
    case ReportAnswered(i) =>
      if ReportAnswer(sys, i) == Some(Some(R.ONGOING)) then Subscribe(sys, station, config, i)
      else if ReportAnswer(sys, i) == Some(Some(R.COMPLETE)) then
        Goto(sys, i, Reported).(record := SaveReported(sys.record))
      else Goto(sys, i, Aborted)
    case VariablesEnded(i, answered, rejected) =>
      if !answered then Goto(sys, i, Aborted)
      else if rejected && RejectionStops(sys.rounds[i].entity, config) then
        Goto(sys, i, Stopped).(record := SaveStatus(sys.record, Rejected))
      else if config.autoAccept then Goto(sys, i, Finished).(record := SaveStatus(sys.record, Accepted))
      else Goto(sys, i, Finished)
    case RecordChanged(record) => sys.(record := record)
    case CacheEvent(step) => sys.(cache := Apply(sys.cache, step))
  }

  ghost predicate EnabledRun(sys: System, station: string, config: Config, events: seq<Event>)
    decreases |events|
  {
    events != [] ==>
      && Enabled(sys, station, config, events[0])
      && EnabledRun(Next(sys, station, config, events[0]), station, config, events[1..])
  }

  ghost function Run(sys: System, station: string, config: Config, events: seq<Event>): System
    requires EnabledRun(sys, station, config, events)
    decreases |events|
  {
    if events == [] then sys else Run(Next(sys, station, config, events[0]), station, config, events[1..])
  }

  // The blacklist follows the last reply.

  /** What is cached after a reply: nothing for an acceptance. */
  function CachedAfter(replies: seq<Status>): Option<Status> {
    if replies == [] || replies[|replies| - 1] == Accepted then None else Some(replies[|replies| - 1])
  }

  /** Pending replies that do not follow a pending reply. */
  function PendingEpisodes(replies: seq<Status>): nat
    decreases |replies|
  {
    if replies == [] then 0
    else
      var before := replies[..|replies| - 1];
      PendingEpisodes(before) +
        (if replies[|replies| - 1] == Pending && CachedAfter(before) != Some(Pending) then 1 else 0)
  }

  ghost predicate Safe(sys: System, station: string, config: Config) {
    && Consistent(sys.cache, station, config.actions, CachedAfter(sys.replies), {NOTIFY_REPORT})
    && |sys.rounds| == PendingEpisodes(sys.replies)
  }

  /** A sent reply starts a round exactly if it opens a pending episode. */
  lemma ReplyCountsEpisode(replies: seq<Status>, reply: Status)
    ensures PendingEpisodes(replies + [reply]) == PendingEpisodes(replies) +
              if StartsRound(reply, NameOf(CachedAfter(replies))) then 1 else 0
    ensures CachedAfter(replies + [reply]) == if reply == Accepted then None else Some(reply)
  {
    assert (replies + [reply])[..|replies|] == replies;
  }

  function NameOf(status: Option<Status>): Option<string> {
    if status.Some? then Some(Name(status.value)) else None
  }

  lemma BootIsSafe(sys: System, station: string, config: Config)
    requires ProtocolActions(config.actions) && Safe(sys, station, config)
    ensures Safe(Next(sys, station, config, BootEvent), station, config)
  {
    var reply := DetermineBootStatus(sys.record, config);
    if reply.Some? {
      ReplyCountsEpisode(sys.replies, reply.value);
      SentReplyIsConsistent(sys, station, config, reply.value);
    }
  }

  lemma SentReplyIsConsistent(sys: System, station: string, config: Config, reply: Status)
    requires ProtocolActions(config.actions) && Safe(sys, station, config)
    requires DetermineBootStatus(sys.record, config) == Some(reply)
    ensures var r := Boot(sys.cache, station, sys.record, config, true);
            && r.startsRound == StartsRound(reply, NameOf(CachedAfter(sys.replies)))
            && Consistent(r.cache, station, config.actions, if reply == Accepted then None else Some(reply),
                          {NOTIFY_REPORT})
  {
    ReplyKeepsConsistent(sys.cache, station, config.actions, CachedAfter(sys.replies), {NOTIFY_REPORT}, reply);
  }

  lemma SubscribingKeepsConsistent(sys: System, station: string, config: Config)
    requires ProtocolActions(config.actions) && Safe(sys, station, config)
    ensures Consistent(OnChange(sys.cache, ReportKey(station), config.maxCachingSeconds), station, config.actions,
                       CachedAfter(sys.replies), {NOTIFY_REPORT})
  {
    ForeignKeepsConsistent(sys.cache, OnChangeStep(ReportKey(station), config.maxCachingSeconds), station,
                           config.actions, CachedAfter(sys.replies), {NOTIFY_REPORT});
  }

  lemma EventIsSafe(sys: System, station: string, config: Config, event: Event)
    requires ProtocolActions(config.actions) && Safe(sys, station, config) && Enabled(sys, station, config, event)
    ensures Safe(Next(sys, station, config, event), station, config)
  {
    match event
    case BootEvent => BootIsSafe(sys, station, config);
    case ReportRequested(_) =>
      var status := CachedAfter(sys.replies);
      FreeingKeepsConsistent(sys.cache, station, config.actions, status, {NOTIFY_REPORT}, NOTIFY_REPORT);
      OtherNameKeepsConsistent(Remove(sys.cache, NamespaceKey(NOTIFY_REPORT, station)), station, config.actions, status,
                               {NOTIFY_REPORT}, REPORT_REQUEST, "ongoing", config.maxCachingSeconds);
    case ReportSent(_, _) => SubscribingKeepsConsistent(sys, station, config);
    case ReportAnswered(_) => SubscribingKeepsConsistent(sys, station, config);
    case CacheEvent(step) =>
      ForeignKeepsConsistent(sys.cache, step, station, config.actions, CachedAfter(sys.replies), {NOTIFY_REPORT});
    case _ =>
  }

  lemma {:induction false} RunIsSafe(sys: System, station: string, config: Config, events: seq<Event>)
    requires ProtocolActions(config.actions) && Safe(sys, station, config) && EnabledRun(sys, station, config, events)
    ensures Safe(Run(sys, station, config, events), station, config)
    decreases |events|
  {
    if events != [] {
      EventIsSafe(sys, station, config, events[0]);
      RunIsSafe(Next(sys, station, config, events[0]), station, config, events[1..]);
    }
  }

  function Initial(record: Option<BootRecord>): System {
    System(EMPTY, record, [], [])
  }

  /** Over every run: the cached status is the last reply, absent when that was an acceptance; without it nothing is
      blocked; with it every charger action is, except BootNotification and possibly NotifyReport; and as many
      rounds were started as there were pending episodes. */
  lemma BlacklistFollowsReplies(record: Option<BootRecord>, station: string, config: Config, events: seq<Event>)
    requires ProtocolActions(config.actions) && EnabledRun(Initial(record), station, config, events)
    ensures var end := Run(Initial(record), station, config, events);
            var status := CachedAfter(end.replies);
            && Lookup(end.cache, station, BOOT_STATUS) == (if status.Some? then Some(Name(status.value)) else None)
            && (status.None? ==> Free(end.cache, station, config.actions))
            && (status.Some? ==>
                  forall name :: name in config.actions && name != BOOT_NOTIFICATION && name != NOTIFY_REPORT ==>
                    Lookup(end.cache, station, name) == Some(BLACKLISTED))
            && Lookup(end.cache, station, BOOT_NOTIFICATION) == None
            && |end.rounds| == PendingEpisodes(end.replies)
  {
    RunIsSafe(Initial(record), station, config, events);
    var end := Run(Initial(record), station, config, events);
    assert Owned(config.actions, BOOT_STATUS);
    forall i | 0 <= i < |config.actions| && CachedAfter(end.replies).None?
      ensures Lookup(end.cache, station, config.actions[i]) == None
    {
      assert config.actions[i] in config.actions;
    }
  }

  // What a boot answers, by the record.

  /** An unknown station is answered exactly like one on record with the configured status and nothing else, and gets
      a record with the status it was answered. */
  lemma UnknownIsTreatedAsConfigured(sys: System, station: string, config: Config)
    requires sys.record == None
    ensures var like := BootRecord(Name(config.unknownChargerStatus), None, 0, None);
            var known := Next(sys.(record := Some(like)), station, config, BootEvent);
            var next, n := Next(sys, station, config, BootEvent), |sys.replies|;
            && next.cache == known.cache && next.replies == known.replies
            && |next.replies| == n + 1 && next.replies[..n] == sys.replies
            && next.record == Some(BootRecord(Name(next.replies[n]), None, 0, None))
            && next.rounds == (if known.rounds == sys.rounds then sys.rounds
                               else sys.rounds + [Round(next.record.value, Started)])
  {
  }

  /** A station on record is answered its stored status, except that a pending one is accepted exactly if autoAccept is
      on, no variable is pending and no report is needed; any other text ends the handler at once. */
  lemma KnownStationIsAnswered(sys: System, r: BootRecord, station: string, config: Config)
    requires sys.record == Some(r)
    ensures var next := Next(sys, station, config, BootEvent);
            && next.record == sys.record
            && (next.replies == sys.replies + [Accepted] <==>
                  || r.status == "Accepted"
                  || (&& r.status == "Pending" && config.autoAccept && r.pendingSetVariables == 0
                      && (r.getBaseReportOnPending == Some(false)
                          || (r.getBaseReportOnPending.None? && !config.getBaseReportOnPending))))
            && (next.replies == sys.replies + [Rejected] <==> r.status == "Rejected")
            && (next == sys <==> r.status != "Accepted" && r.status != "Pending" && r.status != "Rejected")
            && (next != sys ==> |next.replies| == |sys.replies| + 1)
  {
    var next := Next(sys, station, config, BootEvent);
    if next.replies != sys.replies {
      assert next.replies[|sys.replies|] == DetermineBootStatus(sys.record, config).value;
    }
  }

  /** The record, once there is one, says the status, and everything answered so far is the status. */
  predicate AlwaysAnswers(sys: System, status: Status) {
    && sys.rounds == [] && (sys.record.Some? ==> sys.record.value.status == Name(status))
    && forall i :: 0 <= i < |sys.replies| ==> sys.replies[i] == status
  }

  lemma {:induction false} AnswersStayTheSame(sys: System, station: string, config: Config, events: seq<Event>)
    requires EnabledRun(sys, station, config, events) && forall event :: event in events ==> !event.RecordChanged?
    requires config.unknownChargerStatus != Pending && AlwaysAnswers(sys, config.unknownChargerStatus)
    ensures AlwaysAnswers(Run(sys, station, config, events), config.unknownChargerStatus)
    decreases |events|
  {
    if events != [] {
      assert !events[0].RecordChanged?;
      AnswersStayTheSame(Next(sys, station, config, events[0]), station, config, events[1..]);
    }
  }

  /** Over every run from an unknown station: with unknown stations rejected no reply is anything but Rejected, with
      unknown stations accepted none is anything but Accepted, and no round starts, until the record is changed from
      outside. */
  lemma UnknownStaysAsConfigured(station: string, config: Config, events: seq<Event>)
    requires EnabledRun(Initial(None), station, config, events)
    requires forall event :: event in events ==> !event.RecordChanged?
    requires config.unknownChargerStatus != Pending
    ensures var end := Run(Initial(None), station, config, events);
            && end.rounds == []
            && forall i :: 0 <= i < |end.replies| ==> end.replies[i] == config.unknownChargerStatus
  {
    AnswersStayTheSame(Initial(None), station, config, events);
  }

  /** A round asks for its report exactly if the record it started with, or else the configuration, has it so, and a
      round without variables to set cannot fail on them. */
  lemma RoundTakesItsSteps(sys: System, station: string, config: Config, i: nat, answered: bool, rejected: bool)
    requires i < |sys.rounds|
    ensures var entity := sys.rounds[i].entity;
            var needed := entity.getBaseReportOnPending == Some(true)
                          || (entity.getBaseReportOnPending.None? && config.getBaseReportOnPending);
            && (Enabled(sys, station, config, ReportRequested(i)) <==> InPhase(sys, i, Started) && needed)
            && (Enabled(sys, station, config, ReportSkipped(i)) <==> InPhase(sys, i, Started) && !needed)
            && (Enabled(sys, station, config, ReportSkipped(i)) ==>
                  Next(sys, station, config, ReportSkipped(i)) == Goto(sys, i, Reported))
            && var ended := VariablesEnded(i, answered, rejected);
               entity.pendingSetVariables == 0 && Enabled(sys, station, config, ended) ==>
                 InPhase(Next(sys, station, config, ended), i, Finished)
  {
  }

  // What a round does to later boots.

  predicate OnlyRejectedAdded(before: seq<Status>, after: seq<Status>) {
    && |before| <= |after| && after[..|before|] == before
    && forall i :: |before| <= i < |after| ==> after[i] == Rejected
  }

  lemma {:induction false} RejectedStaysRejected(sys: System, station: string, config: Config, events: seq<Event>)
    requires EnabledRun(sys, station, config, events) && sys.record.Some? && sys.record.value.status == "Rejected"
    requires forall event :: event in events ==> !event.RecordChanged? && !event.VariablesEnded?
    ensures OnlyRejectedAdded(sys.replies, Run(sys, station, config, events).replies)
    decreases |events|
  {
    if events != [] {
      var next := Next(sys, station, config, events[0]);
      assert !events[0].RecordChanged? && !events[0].VariablesEnded?;
      assert OnlyRejectedAdded(sys.replies, next.replies);
      RejectedStaysRejected(next, station, config, events[1..]);
      var end := Run(sys, station, config, events);
      forall i | |sys.replies| <= i < |end.replies| ensures end.replies[i] == Rejected {
        if i < |next.replies| {
          assert end.replies[i] == end.replies[..|next.replies|][i];
        }
      }
      assert end.replies[..|sys.replies|] == end.replies[..|next.replies|][..|sys.replies|];
    }
  }

  /** Rejected variables stop a round unless the record, or else the configuration, lets the station boot with them. A
      stopped round leaves a rejected record, and every boot is answered Rejected until another round ends or the
      record is changed from outside; one that is not stopped leaves an accepted record with autoAccept, and the record
      as it was without. */
  lemma RejectedVariablesDecide(sys: System, station: string, config: Config, round: nat, rejected: bool, r: BootRecord,
                                later: seq<Event>)
    requires Enabled(sys, station, config, VariablesEnded(round, true, rejected)) && sys.record == Some(r)
    requires var ended := Next(sys, station, config, VariablesEnded(round, true, rejected));
             EnabledRun(ended, station, config, later)
    requires forall event :: event in later ==> !event.RecordChanged? && !event.VariablesEnded?
    ensures var ended := Next(sys, station, config, VariablesEnded(round, true, rejected));
            var entity := sys.rounds[round].entity;
            var allowed := entity.bootWithRejectedVariables == Some(true)
                           || (entity.bootWithRejectedVariables.None? && config.bootWithRejectedVariables);
            && (rejected && !allowed ==>
                  && ended.record == Some(r.(status := "Rejected"))
                  && OnlyRejectedAdded(sys.replies, Run(ended, station, config, later).replies))
            && (!rejected || allowed ==>
                  ended.record == Some(if config.autoAccept then r.(status := "Accepted") else r))
  {
    var ended := Next(sys, station, config, VariablesEnded(round, true, rejected));
    if ended.record == Some(r.(status := "Rejected")) {
      RejectedStaysRejected(ended, station, config, later);
    }
  }

  /** The record needs no report, nor does any round from number `n` on. */
  predicate ReportIsDone(sys: System, n: nat) {
    && n <= |sys.rounds| && sys.record.Some? && sys.record.value.getBaseReportOnPending == Some(false)
    && forall i :: n <= i < |sys.rounds| ==> sys.rounds[i].entity.getBaseReportOnPending == Some(false)
  }

  lemma {:induction false} ReportStaysDone(sys: System, station: string, config: Config, events: seq<Event>, n: nat)
    requires EnabledRun(sys, station, config, events) && ReportIsDone(sys, n)
    requires forall event :: event in events ==> !event.RecordChanged?
    ensures ReportIsDone(Run(sys, station, config, events), n)
    decreases |events|
  {
    if events != [] {
      assert !events[0].RecordChanged?;
      ReportStaysDone(Next(sys, station, config, events[0]), station, config, events[1..], n);
    }
  }

  /** Once its report is complete, no round started later requests one again, until the record is changed from
      outside. */
  lemma CompletedReportIsNotRequestedAgain(sys: System, station: string, config: Config, round: nat, later: seq<Event>,
                                           other: nat)
    requires Enabled(sys, station, config, ReportAnswered(round)) && sys.record.Some?
    requires ReportAnswer(sys, round) == Some(Some("complete"))
    requires EnabledRun(Next(sys, station, config, ReportAnswered(round)), station, config, later)
    requires forall event :: event in later ==> !event.RecordChanged?
    ensures var end := Run(Next(sys, station, config, ReportAnswered(round)), station, config, later);
            |sys.rounds| <= other ==> !Enabled(end, station, config, ReportRequested(other))
  {
    ReportStaysDone(Next(sys, station, config, ReportAnswered(round)), station, config, later, |sys.rounds|);
  }

  /** A request marks its report as ongoing under the name 0 and unblocks NotifyReport. */
  lemma RequestMarksOngoing(sys: System, station: string, config: Config, round: nat)
    requires Inv(sys.cache) && Enabled(sys, station, config, ReportRequested(round))
    ensures var next := Next(sys, station, config, ReportRequested(round));
            && Lookup(next.cache, station, "0") == Some("ongoing")
            && Lookup(next.cache, station, "NotifyReport") == None
            && (forall name :: name != "0" && name != "NotifyReport" ==>
                  Lookup(next.cache, station, name) == Lookup(sys.cache, station, name))
            && (1 <= config.maxCachingSeconds <= 2147483 ==>
                  && ReportKey(station) in next.cache.timeouts
                  && var t := next.cache.timeouts[ReportKey(station)];
                     t in next.cache.timers
                     && next.cache.timers[t].due == sys.cache.now + 1000 * config.maxCachingSeconds)
  {
    forall name ensures NamespaceKey(name, station) == ReportKey(station) <==> name == "0" {
      NamesAreDistinct(name, "0", station);
    }
    forall name ensures NamespaceKey(name, station) == NamespaceKey(NOTIFY_REPORT, station) <==> name == NOTIFY_REPORT {
      NamesAreDistinct(name, NOTIFY_REPORT, station);
    }
  }

  /** The station has a status cached, and may send NotifyReport all the same. */
  ghost predicate MayNotify(sys: System, station: string, config: Config) {
    && Safe(sys, station, config) && CachedAfter(sys.replies).Some?
    && Lookup(sys.cache, station, NOTIFY_REPORT) == None
  }

  lemma EventKeepsNotifying(sys: System, station: string, config: Config, event: Event)
    requires ProtocolActions(config.actions) && NOTIFY_REPORT in config.actions && MayNotify(sys, station, config)
    requires Enabled(sys, station, config, event)
    requires NoAcceptanceAdded(sys.replies, Next(sys, station, config, event).replies)
    ensures MayNotify(Next(sys, station, config, event), station, config)
  {
    EventIsSafe(sys, station, config, event);
    match event
    case BootEvent =>
      var reply := DetermineBootStatus(sys.record, config);
      if reply.Some? {
        ReplyEffect(sys.cache, station, config.actions, CachedAfter(sys.replies), {NOTIFY_REPORT}, reply.value,
                    NOTIFY_REPORT);
      }
    case ReportRequested(i) => RequestMarksOngoing(sys, station, config, i);
    case CacheEvent(step) =>
      ForeignKeepsEntry(sys.cache, step, station, config.actions, NOTIFY_REPORT);
    case _ =>
  }

  lemma RepliesOnlyGrow(sys: System, station: string, config: Config, event: Event)
    requires Enabled(sys, station, config, event)
    ensures sys.replies <= Next(sys, station, config, event).replies
  {
  }

  lemma {:induction false} RunKeepsNotifying(sys: System, station: string, config: Config, events: seq<Event>)
    requires ProtocolActions(config.actions) && NOTIFY_REPORT in config.actions && MayNotify(sys, station, config)
    requires EnabledRun(sys, station, config, events)
    requires NoAcceptanceAdded(sys.replies, Run(sys, station, config, events).replies)
    ensures MayNotify(Run(sys, station, config, events), station, config)
    decreases |events|
  {
    if events != [] {
      var next, end := Next(sys, station, config, events[0]), Run(sys, station, config, events);
      RepliesOnlyGrow(sys, station, config, events[0]);
      AllRepliesOnlyGrow(next, station, config, events[1..]);
      forall i | |sys.replies| <= i < |next.replies| ensures next.replies[i] != Accepted {
        assert next.replies[i] == end.replies[i];
      }
      EventKeepsNotifying(sys, station, config, events[0]);
      RunKeepsNotifying(next, station, config, events[1..]);
    }
  }

  lemma {:induction false} AllRepliesOnlyGrow(sys: System, station: string, config: Config, events: seq<Event>)
    requires EnabledRun(sys, station, config, events)
    ensures sys.replies <= Run(sys, station, config, events).replies
    decreases |events|
  {
    if events != [] {
      RepliesOnlyGrow(sys, station, config, events[0]);
      AllRepliesOnlyGrow(Next(sys, station, config, events[0]), station, config, events[1..]);
    }
  }

  /** From its request on, the station may send the report, whatever happens, until a boot is answered Accepted. */
  lemma ReportMayBeNotified(sys: System, station: string, config: Config, round: nat, later: seq<Event>)
    requires ProtocolActions(config.actions) && "NotifyReport" in config.actions && Safe(sys, station, config)
    requires CachedAfter(sys.replies).Some? && Enabled(sys, station, config, ReportRequested(round))
    requires EnabledRun(Next(sys, station, config, ReportRequested(round)), station, config, later)
    ensures var end := Run(Next(sys, station, config, ReportRequested(round)), station, config, later);
            NoAcceptanceAdded(sys.replies, end.replies) ==> Lookup(end.cache, station, "NotifyReport") == None
  {
    EventIsSafe(sys, station, config, ReportRequested(round));
    RequestMarksOngoing(sys, station, config, round);
    if NoAcceptanceAdded(sys.replies, Run(Next(sys, station, config, ReportRequested(round)), station, config,
                                          later).replies) {
      RunKeepsNotifying(Next(sys, station, config, ReportRequested(round)), station, config, later);
    }
  }

  /** A sent request, and an answer 'ongoing', make the round wait anew, for the caching time. */
  lemma RoundWaitsAnew(sys: System, station: string, config: Config, round: nat, event: Event)
    requires Inv(sys.cache) && Enabled(sys, station, config, event)
    requires event == ReportSent(round, true)
             || (event == ReportAnswered(round) && ReportAnswer(sys, round) == Some(Some("ongoing")))
    ensures var next := Next(sys, station, config, event);
            && next.record == sys.record && IsWaiting(next, round) && ReportAnswer(next, round).None?
            && var w := next.rounds[round].phase.w;
               && w in next.cache.waiters && next.cache.waiters[w].key == ReportKey(station)
               && w in next.cache.timers
               && (1 <= config.maxCachingSeconds <= 2147483 ==>
                     next.cache.timers[w].due == sys.cache.now + 1000 * config.maxCachingSeconds)
  {
    W.OnChangeOpensWaiter(sys.cache, ReportKey(station), config.maxCachingSeconds);
  }

  // A finished round leads to acceptance.

  predicate StoredAs(record: Option<BootRecord>, status: string) {
    record.Some? && record.value.status == status
  }

  /** Neither an outside change of the record nor the end of a round that a rejected variable stops. */
  ghost predicate LeavesAcceptance(sys: System, station: string, config: Config, event: Event)
    requires Enabled(sys, station, config, event)
  {
    && !event.RecordChanged?
    && (event.VariablesEnded? && event.answered && event.rejected ==>
          !RejectionStops(sys.rounds[event.round].entity, config))
  }

  ghost predicate LeaveAcceptance(sys: System, station: string, config: Config, events: seq<Event>)
    requires EnabledRun(sys, station, config, events)
    decreases |events|
  {
    events != [] ==>
      && LeavesAcceptance(sys, station, config, events[0])
      && LeaveAcceptance(Next(sys, station, config, events[0]), station, config, events[1..])
  }

  lemma {:induction false} AcceptanceIsKept(sys: System, station: string, config: Config, events: seq<Event>)
    requires ProtocolActions(config.actions) && Safe(sys, station, config) && config.autoAccept
    requires EnabledRun(sys, station, config, events) && LeaveAcceptance(sys, station, config, events)
    requires StoredAs(sys.record, Name(Accepted))
    ensures StoredAs(Run(sys, station, config, events).record, Name(Accepted))
    ensures Safe(Run(sys, station, config, events), station, config)
    decreases |events|
  {
    if events != [] {
      EventIsSafe(sys, station, config, events[0]);
      AcceptanceIsKept(Next(sys, station, config, events[0]), station, config, events[1..]);
    }
  }

  /** With autoAccept, once a round ends without the rejected-variable stop, the next boot, however late, is accepted
      and nothing stays blocked or cached, unless the record is changed from outside or another round is stopped. */
  lemma FinishedRoundLeadsToAcceptance(sys: System, station: string, config: Config, round: nat, rejected: bool,
                                       later: seq<Event>)
    requires ProtocolActions(config.actions) && Safe(sys, station, config) && sys.record.Some? && config.autoAccept
    requires Enabled(sys, station, config, VariablesEnded(round, true, rejected))
    requires !(rejected && RejectionStops(sys.rounds[round].entity, config))
    requires var finished := Next(sys, station, config, VariablesEnded(round, true, rejected));
             EnabledRun(finished, station, config, later) && LeaveAcceptance(finished, station, config, later)
    ensures var mid := Run(Next(sys, station, config, VariablesEnded(round, true, rejected)), station, config, later);
            var end := Next(mid, station, config, BootEvent);
            end.replies == mid.replies + [Accepted] && Free(end.cache, station, config.actions)
  {
    var finished := Next(sys, station, config, VariablesEnded(round, true, rejected));
    EventIsSafe(sys, station, config, VariablesEnded(round, true, rejected));
    AcceptanceIsKept(finished, station, config, later);
    var mid := Run(finished, station, config, later);
    BootIsSafe(mid, station, config);
    SafeAfterAcceptanceIsFree(Next(mid, station, config, BootEvent), station, config);
  }

  lemma SafeAfterAcceptanceIsFree(sys: System, station: string, config: Config)
    requires Safe(sys, station, config) && CachedAfter(sys.replies) == None
    ensures Free(sys.cache, station, config.actions)
  {
    forall i | 0 <= i < |config.actions| ensures Lookup(sys.cache, station, config.actions[i]) == None {
      assert config.actions[i] in config.actions;
    }
  }

  // Without autoAccept only an outside change of the record leads to acceptance.

  predicate NoAcceptanceAdded(before: seq<Status>, after: seq<Status>) {
    && |before| <= |after| && after[..|before|] == before
    && forall i :: |before| <= i < |after| ==> after[i] != Accepted
  }

  predicate KnownUnaccepted(record: Option<BootRecord>) {
    record.Some? && record.value.status != Name(Accepted)
  }

  lemma StepAddsNoAcceptance(sys: System, station: string, config: Config, event: Event)
    requires Enabled(sys, station, config, event) && !event.RecordChanged?
    requires !config.autoAccept && KnownUnaccepted(sys.record)
    ensures var next := Next(sys, station, config, event);
            KnownUnaccepted(next.record) && NoAcceptanceAdded(sys.replies, next.replies)
  {
  }

  lemma NoAcceptanceAddedTwice(a: seq<Status>, b: seq<Status>, c: seq<Status>)
    requires NoAcceptanceAdded(a, b) && NoAcceptanceAdded(b, c)
    ensures NoAcceptanceAdded(a, c)
  {
    assert c[..|a|] == c[..|b|][..|a|];
    forall i | |a| <= i < |c| ensures c[i] != Accepted {
      if i < |b| {
        assert c[i] == c[..|b|][i];
      }
    }
  }

  lemma {:induction false} NeverAcceptedByItself(sys: System, station: string, config: Config, events: seq<Event>)
    requires EnabledRun(sys, station, config, events) && !config.autoAccept && KnownUnaccepted(sys.record)
    requires forall event :: event in events ==> !event.RecordChanged?
    ensures NoAcceptanceAdded(sys.replies, Run(sys, station, config, events).replies)
    decreases |events|
  {
    if events != [] {
      var next := Next(sys, station, config, events[0]);
      assert !events[0].RecordChanged?;
      StepAddsNoAcceptance(sys, station, config, events[0]);
      NeverAcceptedByItself(next, station, config, events[1..]);
      NoAcceptanceAddedTwice(sys.replies, next.replies, Run(sys, station, config, events).replies);
    }
  }

  // A failed round is never retried.

  predicate Over(round: Round) {
    round.phase == Finished || round.phase == Stopped || round.phase == Aborted
  }

  predicate OthersAreOver(rounds: seq<Round>, round: nat) {
    forall i :: 0 <= i < |rounds| && i != round ==> Over(rounds[i])
  }

  predicate StaysPending(sys: System, config: Config) {
    && CachedAfter(sys.replies) == Some(Pending)
    && DetermineBootStatus(sys.record, config) == Some(Pending) && sys.record.Some?
  }

  /** Pending, with no round left to change that. */
  predicate Stuck(sys: System, config: Config) {
    StaysPending(sys, config) && forall i :: 0 <= i < |sys.rounds| ==> Over(sys.rounds[i])
  }

  /** The base report cannot be sent or ends without completion, or a SetVariables call is not answered. */
  predicate FailsRound(sys: System, event: Event) {
    match event
    case ReportSent(_, success) => !success
    case ReportAnswered(i) =>
      && IsWaiting(sys, i)
      && ReportAnswer(sys, i) != Some(Some(R.ONGOING)) && ReportAnswer(sys, i) != Some(Some(R.COMPLETE))
    case VariablesEnded(_, answered, _) => !answered
    case _ => false
  }

  /** The round is completed, but nothing accepts the station. */
  predicate CompletesInVain(sys: System, config: Config, event: Event) {
    && event.VariablesEnded? && event.answered && !config.autoAccept
    && event.round < |sys.rounds|
    && !(event.rejected && RejectionStops(sys.rounds[event.round].entity, config))
  }

  predicate IsRoundStep(event: Event) {
    !event.BootEvent? && !event.RecordChanged? && !event.CacheEvent?
  }

  /** A step of the last open round of a pending station leaves the station stuck exactly if the round fails by it,
      or is completed without autoAccept. */
  lemma LastRoundIsStuckIff(sys: System, station: string, config: Config, event: Event)
    requires StaysPending(sys, config) && Enabled(sys, station, config, event)
    requires IsRoundStep(event) && OthersAreOver(sys.rounds, event.round)
    ensures Stuck(Next(sys, station, config, event), config) <==>
            FailsRound(sys, event) || CompletesInVain(sys, config, event)
  {
    var rounds := Next(sys, station, config, event).rounds;
    assert Over(rounds[event.round]) <==> FailsRound(sys, event) || event.VariablesEnded?;
  }

  /** Boots add Pending replies, and nothing else. */
  predicate OnlyPendingAdded(before: seq<Status>, after: seq<Status>) {
    && |before| <= |after| && after[..|before|] == before
    && forall i :: |before| <= i < |after| ==> after[i] == Pending
  }

  lemma StuckStepStaysStuck(sys: System, station: string, config: Config, event: Event)
    requires ProtocolActions(config.actions) && Safe(sys, station, config) && Stuck(sys, config)
    requires Enabled(sys, station, config, event) && !event.RecordChanged?
    ensures var next := Next(sys, station, config, event);
            && Stuck(next, config) && next.rounds == sys.rounds && next.record == sys.record
            && OnlyPendingAdded(sys.replies, next.replies)
  {
    if event.BootEvent? {
      SentReplyIsConsistent(sys, station, config, Pending);
    }
  }

  lemma {:induction false} StuckStaysStuck(sys: System, station: string, config: Config, events: seq<Event>)
    requires ProtocolActions(config.actions) && Safe(sys, station, config) && Stuck(sys, config)
    requires EnabledRun(sys, station, config, events) && forall event :: event in events ==> !event.RecordChanged?
    ensures var end := Run(sys, station, config, events);
            && Stuck(end, config) && end.rounds == sys.rounds && end.record == sys.record
            && OnlyPendingAdded(sys.replies, end.replies)
    decreases |events|
  {
    if events != [] {
      var next := Next(sys, station, config, events[0]);
      assert !events[0].RecordChanged?;
      EventIsSafe(sys, station, config, events[0]);
      StuckStepStaysStuck(sys, station, config, events[0]);
      StuckStaysStuck(next, station, config, events[1..]);
      PendingAddedTwice(sys.replies, next.replies, Run(sys, station, config, events).replies);
    }
  }

  lemma PendingAddedTwice(a: seq<Status>, b: seq<Status>, c: seq<Status>)
    requires OnlyPendingAdded(a, b) && OnlyPendingAdded(b, c)
    ensures OnlyPendingAdded(a, c)
  {
    assert c[..|a|] == c[..|b|][..|a|];
    forall i | |a| <= i < |c| ensures c[i] == Pending {
      if i < |b| {
        assert c[i] == c[..|b|][i];
      }
    }
  }

  /** A last open round that fails, in its report or in its variables, or is completed without autoAccept, leaves a
      pending station pending for good: every later boot is answered Pending and none starts a round, until the
      record is changed from outside. */
  lemma FailedRoundIsNeverRetried(sys: System, station: string, config: Config, event: Event, later: seq<Event>)
    requires ProtocolActions(config.actions) && Safe(sys, station, config)
    requires StaysPending(sys, config) && Enabled(sys, station, config, event)
    requires IsRoundStep(event) && (FailsRound(sys, event) || CompletesInVain(sys, config, event))
    requires OthersAreOver(sys.rounds, event.round)
    requires EnabledRun(Next(sys, station, config, event), station, config, later)
    requires forall e :: e in later ==> !e.RecordChanged?
    ensures var end := Run(Next(sys, station, config, event), station, config, later);
            && |end.rounds| == |sys.rounds|
            && OnlyPendingAdded(sys.replies, end.replies)
  {
    EventIsSafe(sys, station, config, event);
    LastRoundIsStuckIff(sys, station, config, event);
    StuckStaysStuck(Next(sys, station, config, event), station, config, later);
  }

  // A base report is over when it is complete.

  predicate WritesCompletion(event: Event, station: string) {
    event.CacheEvent? && R.WritesValue(event.step, ReportKey(station), R.COMPLETE)
  }

  /** Completion is not on record, and has not been told to waiter `w`. */
  predicate Incomplete(s: State, key: string, w: Option<nat>) {
    && !R.ReadsComplete(s, key)
    && (w.Some? ==>
          w.value in s.waiters && s.waiters[w.value].key == key
          && s.waiters[w.value].outcome != Some(Some(R.COMPLETE)))
  }

  lemma SetKeepsIncomplete(s: State, key: string, value: string, expire: int, report: string, w: Option<nat>)
    requires Incomplete(s, report, w) && value != R.COMPLETE
    ensures Incomplete(Set(s, key, value, expire), report, w)
  {
  }

  lemma {:induction false} BlockKeepsIncomplete(s: State, station: string, actions: seq<string>, report: string,
                                                w: Option<nat>)
    requires Incomplete(s, report, w)
    ensures Incomplete(Block(s, station, actions), report, w)
    decreases |actions|
  {
    if actions != [] {
      var n := |actions| - 1;
      BlockKeepsIncomplete(s, station, actions[..n], report, w);
      SetKeepsIncomplete(Block(s, station, actions[..n]), NamespaceKey(actions[n], station), BLACKLISTED, 0, report, w);
    }
  }

  lemma {:induction false} UnblockKeepsIncomplete(s: State, station: string, actions: seq<string>, report: string,
                                                  w: Option<nat>)
    requires Incomplete(s, report, w)
    ensures Incomplete(Unblock(s, station, actions), report, w)
    decreases |actions|
  {
    if actions != [] {
      UnblockKeepsIncomplete(s, station, actions[..|actions| - 1], report, w);
    }
  }

  lemma BootKeepsIncomplete(sys: System, station: string, config: Config, report: string, w: Option<nat>)
    requires Incomplete(sys.cache, report, w)
    ensures Incomplete(Boot(sys.cache, station, sys.record, config, true).cache, report, w)
  {
    var cached := Get(sys.cache, NamespaceKey(BOOT_STATUS, station));
    BlockKeepsIncomplete(sys.cache, station, config.actions, report, w);
    UnblockKeepsIncomplete(sys.cache, station, config.actions, report, w);
    var reply := DetermineBootStatus(sys.record, config);
    if reply.Some? {
      var permitted := Permissions(sys.cache, station, config.actions, cached, reply.value);
      assert Incomplete(permitted, report, w);
      SetKeepsIncomplete(permitted, NamespaceKey(BOOT_STATUS, station), Name(reply.value), 0, report, w);
    }
  }

  lemma CacheStepKeepsIncomplete(s: State, step: Step, report: string, w: Option<nat>)
    requires Inv(s) && Legal(s, step) && Incomplete(s, report, w) && !R.WritesValue(step, report, R.COMPLETE)
    ensures Incomplete(Apply(s, step), report, w)
  {
    R.IncompleteStep(s, step, report);
    if w.Some? {
      W.StepDecides(s, step, w.value);
    }
  }

  /** The round has requested its base report and knows of no completion, or has failed. */
  predicate Unreported(sys: System, station: string, round: nat) {
    && round < |sys.rounds|
    && match sys.rounds[round].phase
       case Requested => Incomplete(sys.cache, ReportKey(station), None)
       case Waiting(w) => Incomplete(sys.cache, ReportKey(station), Some(w))
       case phase => phase == Aborted
  }

  lemma SubscribingKeepsUnreported(sys: System, station: string, config: Config, round: nat, other: nat)
    requires Inv(sys.cache) && Unreported(sys, station, round) && other < |sys.rounds|
    requires other == round ==> sys.rounds[round].phase != Aborted
    ensures Unreported(Subscribe(sys, station, config, other), station, round)
  {
    W.OnChangeOpensWaiter(sys.cache, ReportKey(station), config.maxCachingSeconds);
  }

  lemma StepKeepsUnreported(sys: System, station: string, config: Config, event: Event, round: nat)
    requires Inv(sys.cache) && Unreported(sys, station, round)
    requires Enabled(sys, station, config, event) && !WritesCompletion(event, station)
    ensures Unreported(Next(sys, station, config, event), station, round)
  {
    var key := ReportKey(station);
    var phase := sys.rounds[round].phase;
    var w := if phase.Waiting? then Some(phase.w) else None;
    match event
    case BootEvent =>
      if phase != Aborted {
        BootKeepsIncomplete(sys, station, config, key, w);
      }
    case ReportRequested(_) =>
      if phase != Aborted {
        var unblocked := Remove(sys.cache, NamespaceKey(NOTIFY_REPORT, station));
        SetKeepsIncomplete(unblocked, key, R.ONGOING, config.maxCachingSeconds, key, w);
      }
    case ReportSent(i, success) =>
      if success {
        SubscribingKeepsUnreported(sys, station, config, round, i);
      }
    case ReportAnswered(i) =>
      if ReportAnswer(sys, i) == Some(Some(R.ONGOING)) {
        SubscribingKeepsUnreported(sys, station, config, round, i);
      }
    case CacheEvent(step) =>
      if phase != Aborted {
        CacheStepKeepsIncomplete(sys.cache, step, key, w);
      }
    case _ =>
  }

  lemma {:induction false} RunKeepsUnreported(sys: System, station: string, config: Config, events: seq<Event>,
                                              round: nat)
    requires ProtocolActions(config.actions) && Safe(sys, station, config) && Unreported(sys, station, round)
    requires EnabledRun(sys, station, config, events)
    requires forall event :: event in events ==> !WritesCompletion(event, station)
    ensures Unreported(Run(sys, station, config, events), station, round)
    decreases |events|
  {
    if events != [] {
      assert !WritesCompletion(events[0], station);
      StepKeepsUnreported(sys, station, config, events[0], round);
      EventIsSafe(sys, station, config, events[0]);
      RunKeepsUnreported(Next(sys, station, config, events[0]), station, config, events[1..], round);
    }
  }

  /** Whatever happens, a round that requests its base report does not get past it until completion is written, however
      many completions were written before. */
  lemma ReportNeedsCompletion(sys: System, station: string, config: Config, round: nat, events: seq<Event>)
    requires ProtocolActions(config.actions) && Safe(sys, station, config)
    requires Enabled(sys, station, config, ReportRequested(round))
    requires EnabledRun(Next(sys, station, config, ReportRequested(round)), station, config, events)
    requires forall event :: event in events ==> !WritesCompletion(event, station)
    ensures var end := Run(Next(sys, station, config, ReportRequested(round)), station, config, events);
            round < |end.rounds| &&
            var phase := end.rounds[round].phase; phase == Requested || phase.Waiting? || phase == Aborted
  {
    var next := Next(sys, station, config, ReportRequested(round));
    EventIsSafe(sys, station, config, ReportRequested(round));
    assert Unreported(next, station, round);
    RunKeepsUnreported(next, station, config, events, round);
  }

  // Rounds that wait for the same request.

  /** Every waiting round has a waiter on the request, which all rounds of a station share. */
  predicate Attentive(sys: System, station: string) {
    forall i :: 0 <= i < |sys.rounds| && sys.rounds[i].phase.Waiting? ==>
      var w := sys.rounds[i].phase.w;
      w in sys.cache.waiters && sys.cache.waiters[w].key == ReportKey(station)
  }

  /** The round is past its report as soon as it resumes. */
  predicate IsCompleted(sys: System, round: nat) {
    IsWaiting(sys, round) && ReportAnswer(sys, round) == Some(Some(R.COMPLETE))
  }

  /** One completion ends the reports of two overlapping rounds exactly if each of them still waits for an answer when
      it is written, or has had one. */
  lemma CompletionEndsBothIff(sys: System, station: string, config: Config, i: nat, j: nat, expire: int)
    requires ProtocolActions(config.actions) && Safe(sys, station, config) && Attentive(sys, station)
    requires IsWaiting(sys, i) && IsWaiting(sys, j) && i != j
    ensures var write := CacheEvent(SetStep(ReportKey(station), R.COMPLETE, expire));
            && Enabled(sys, station, config, write)
            && var written := Next(sys, station, config, write);
               && (IsCompleted(written, i) && IsCompleted(written, j) <==>
                     && (ReportAnswer(sys, i).None? || IsCompleted(sys, i))
                     && (ReportAnswer(sys, j).None? || IsCompleted(sys, j)))
               && (IsCompleted(written, i) && IsCompleted(written, j) ==>
                     && EnabledRun(written, station, config, [ReportAnswered(i), ReportAnswered(j)])
                     && var end := Run(written, station, config, [ReportAnswered(i), ReportAnswered(j)]);
                        InPhase(end, i, Reported) && InPhase(end, j, Reported))
  {
    var step := SetStep(ReportKey(station), R.COMPLETE, expire);
    ReportIsForeign(step, station, config);
    W.StepDecides(sys.cache, step, sys.rounds[i].phase.w);
    W.StepDecides(sys.cache, step, sys.rounds[j].phase.w);
    var written := Next(sys, station, config, CacheEvent(step));
    if IsCompleted(written, i) && IsCompleted(written, j) {
      BothResume(written, station, config, i, j);
    }
  }

  lemma ReportIsForeign(step: Step, station: string, config: Config)
    requires ProtocolActions(config.actions) && step.SetStep? && step.key == ReportKey(station)
    ensures Foreign(step, station, config.actions)
  {
    forall name | Owned(config.actions, name) ensures step.key != NamespaceKey(name, station) {
      NamesAreDistinct(REPORT_REQUEST, name, station);
    }
  }

  lemma BothResume(sys: System, station: string, config: Config, i: nat, j: nat)
    requires IsCompleted(sys, i) && IsCompleted(sys, j) && i != j
    ensures EnabledRun(sys, station, config, [ReportAnswered(i), ReportAnswered(j)])
    ensures var end := Run(sys, station, config, [ReportAnswered(i), ReportAnswered(j)]);
            InPhase(end, i, Reported) && InPhase(end, j, Reported)
  {
    var events := [ReportAnswered(i), ReportAnswered(j)];
    var mid := Next(sys, station, config, ReportAnswered(i));
    assert mid == Goto(sys, i, Reported).(record := SaveReported(sys.record));
    assert IsCompleted(mid, j);
    assert events[1..] == [ReportAnswered(j)];
    OneStepRun(mid, station, config, ReportAnswered(j));
  }

  lemma OneStepRun(sys: System, station: string, config: Config, event: Event)
    ensures EnabledRun(sys, station, config, [event]) <==> Enabled(sys, station, config, event)
    ensures Enabled(sys, station, config, event) ==>
              Run(sys, station, config, [event]) == Next(sys, station, config, event)
  {
    assert [event][1..] == [];
  }

  predicate KeepsWaiters(a: State, b: State) {
    forall w :: w in a.waiters ==> w in b.waiters && b.waiters[w].key == a.waiters[w].key
  }

  lemma {:induction false} BlockKeepsWaiters(s: State, station: string, actions: seq<string>)
    ensures KeepsWaiters(s, Block(s, station, actions)) && KeepsWaiters(s, Unblock(s, station, actions))
    decreases |actions|
  {
    if actions != [] {
      BlockKeepsWaiters(s, station, actions[..|actions| - 1]);
    }
  }

  lemma BootKeepsWaiters(sys: System, station: string, config: Config)
    ensures KeepsWaiters(sys.cache, Boot(sys.cache, station, sys.record, config, true).cache)
  {
    BlockKeepsWaiters(sys.cache, station, config.actions);
  }

  lemma StepKeepsWaiters(s: State, step: Step)
    requires Inv(s) && Legal(s, step)
    ensures KeepsWaiters(s, Apply(s, step))
  {
    forall w | w in s.waiters ensures w in Apply(s, step).waiters && Apply(s, step).waiters[w].key == s.waiters[w].key {
      W.StepDecides(s, step, w);
    }
  }

  lemma SubscribingIsAttentive(sys: System, station: string, config: Config, round: nat)
    requires Inv(sys.cache) && Attentive(sys, station) && round < |sys.rounds|
    ensures Attentive(Subscribe(sys, station, config, round), station)
  {
  }

  lemma AttentiveFrame(a: System, b: System, station: string)
    requires Attentive(a, station) && KeepsWaiters(a.cache, b.cache)
    requires forall i :: 0 <= i < |b.rounds| && b.rounds[i].phase.Waiting? ==>
               i < |a.rounds| && a.rounds[i].phase == b.rounds[i].phase
    ensures Attentive(b, station)
  {
  }

  lemma EventIsAttentive(sys: System, station: string, config: Config, event: Event)
    requires Inv(sys.cache) && Attentive(sys, station) && Enabled(sys, station, config, event)
    ensures Attentive(Next(sys, station, config, event), station)
  {
    var next := Next(sys, station, config, event);
    match event
    case BootEvent =>
      BootKeepsWaiters(sys, station, config);
      AttentiveFrame(sys, next, station);
    case CacheEvent(step) =>
      StepKeepsWaiters(sys.cache, step);
      AttentiveFrame(sys, next, station);
    case ReportRequested(_) => AttentiveFrame(sys, next, station);
    case ReportSent(i, success) =>
      if success {
        SubscribingIsAttentive(sys, station, config, i);
      }
    case ReportAnswered(i) =>
      if ReportAnswer(sys, i) == Some(Some(R.ONGOING)) {
        SubscribingIsAttentive(sys, station, config, i);
      }
    case _ =>
  }

  lemma {:induction false} RunIsAttentive(sys: System, station: string, config: Config, events: seq<Event>)
    requires ProtocolActions(config.actions) && Safe(sys, station, config) && Attentive(sys, station)
    requires EnabledRun(sys, station, config, events)
    ensures Attentive(Run(sys, station, config, events), station)
    decreases |events|
  {
    if events != [] {
      EventIsAttentive(sys, station, config, events[0]);
      EventIsSafe(sys, station, config, events[0]);
      RunIsAttentive(Next(sys, station, config, events[0]), station, config, events[1..]);
    }
  }

  ghost predicate Reaches(sys: System, station: string, config: Config, end: System) {
    exists events :: EnabledRun(sys, station, config, events) && Run(sys, station, config, events) == end
  }

  lemma ReachesItself(sys: System, station: string, config: Config)
    ensures Reaches(sys, station, config, sys)
  {
    assert EnabledRun(sys, station, config, []) && Run(sys, station, config, []) == sys;
  }

  lemma ReachesNext(sys: System, station: string, config: Config, mid: System, event: Event)
    requires Reaches(sys, station, config, mid) && Enabled(mid, station, config, event)
    ensures Reaches(sys, station, config, Next(mid, station, config, event))
  {
    var events :| EnabledRun(sys, station, config, events) && Run(sys, station, config, events) == mid;
    OneStepRun(mid, station, config, event);
    JoinedRun(sys, station, config, events, [event]);
  }

  /** Rounds do overlap: a pending station is rejected from outside while its round runs, and then pending again. */
  lemma OverlapArises(r: BootRecord, station: string, config: Config)
    requires ProtocolActions(config.actions)
    requires DetermineBootStatus(Some(r), config) == Some(Pending) && NeedsReport(r, config)
    ensures exists end ::
              && Reaches(Initial(Some(r)), station, config, end)
              && Safe(end, station, config) && Attentive(end, station)
              && IsWaiting(end, 0) && ReportAnswer(end, 0).None?
              && IsWaiting(end, 1) && ReportAnswer(end, 1).None?
  {
    InitialIsSafe(Some(r), station, config);
    var end := OverlapFrom(Initial(Some(r)), r, station, config);
  }

  lemma InitialIsSafe(record: Option<BootRecord>, station: string, config: Config)
    ensures Safe(Initial(record), station, config) && Attentive(Initial(record), station)
  {
  }

  lemma OverlapFrom(start: System, r: BootRecord, station: string, config: Config) returns (end: System)
    requires ProtocolActions(config.actions) && Safe(start, station, config) && Attentive(start, station)
    requires start.rounds == [] && start.replies == []
    requires DetermineBootStatus(Some(r), config) == Some(Pending) && NeedsReport(r, config)
    ensures Reaches(start, station, config, end) && Safe(end, station, config) && Attentive(end, station)
    ensures IsWaiting(end, 0) && ReportAnswer(end, 0).None? && IsWaiting(end, 1) && ReportAnswer(end, 1).None?
  {
    end := TwoRoundsArise(start, r, station, config);
    end := BothWait(start, station, config, end);
    ReachedIsSafe(start, station, config, end);
  }

  lemma ReachedIsSafe(start: System, station: string, config: Config, end: System)
    requires ProtocolActions(config.actions) && Safe(start, station, config) && Attentive(start, station)
    requires Reaches(start, station, config, end)
    ensures Safe(end, station, config) && Attentive(end, station)
  {
    var events :| EnabledRun(start, station, config, events) && Run(start, station, config, events) == end;
    RunIsSafe(start, station, config, events);
    RunIsAttentive(start, station, config, events);
  }

  lemma TwoRoundsArise(start: System, r: BootRecord, station: string, config: Config) returns (end: System)
    requires ProtocolActions(config.actions) && Safe(start, station, config)
    requires start.rounds == [] && start.replies == []
    requires DetermineBootStatus(Some(r), config) == Some(Pending)
    ensures Reaches(start, station, config, end) && Safe(end, station, config)
    ensures end.rounds == [Round(r, Started), Round(r, Started)]
  {
    var rejected := RejectedRecord(r, config);
    ReachesItself(start, station, config);
    end := BootAs(start, station, config, start, r, Pending);
    end := BootAs(start, station, config, end, rejected, Rejected);
    end := BootAs(start, station, config, end, r, Pending);
  }

  /** The record is changed, and the station boots. */
  lemma BootAs(start: System, station: string, config: Config, sys: System, r: BootRecord, reply: Status)
    returns (next: System)
    requires ProtocolActions(config.actions) && Reaches(start, station, config, sys) && Safe(sys, station, config)
    requires DetermineBootStatus(Some(r), config) == Some(reply) && reply != Accepted
    ensures Reaches(start, station, config, next) && Safe(next, station, config)
    ensures CachedAfter(next.replies) == Some(reply)
    ensures next.rounds == if reply == Pending && CachedAfter(sys.replies) != Some(Pending)
                           then sys.rounds + [Round(r, Started)] else sys.rounds
  {
    next := ChangeRecord(start, station, config, sys, Some(r));
    next := BootStarts(start, station, config, next);
  }

  lemma RejectedRecord(r: BootRecord, config: Config) returns (rejected: BootRecord)
    ensures DetermineBootStatus(Some(rejected), config) == Some(Rejected)
  {
    rejected := r.(status := Name(Rejected));
  }

  lemma ChangeRecord(start: System, station: string, config: Config, sys: System, record: Option<BootRecord>)
    returns (next: System)
    requires Reaches(start, station, config, sys) && Safe(sys, station, config)
    ensures Reaches(start, station, config, next) && Safe(next, station, config)
    ensures next.record == record && next.rounds == sys.rounds && next.replies == sys.replies
  {
    next := Next(sys, station, config, RecordChanged(record));
    ReachesNext(start, station, config, sys, RecordChanged(record));
  }

  lemma BootStarts(start: System, station: string, config: Config, sys: System) returns (next: System)
    requires ProtocolActions(config.actions) && Safe(sys, station, config) && sys.record.Some?
    requires Reaches(start, station, config, sys) && DetermineBootStatus(sys.record, config).Some?
    ensures Reaches(start, station, config, next) && Safe(next, station, config) && next.record == sys.record
    ensures var reply := DetermineBootStatus(sys.record, config).value;
            && CachedAfter(next.replies) == (if reply == Accepted then None else Some(reply))
            && next.rounds == if reply == Pending && CachedAfter(sys.replies) != Some(Pending)
                              then sys.rounds + [Round(sys.record.value, Started)] else sys.rounds
  {
    var reply := DetermineBootStatus(sys.record, config).value;
    next := Next(sys, station, config, BootEvent);
    ReachesNext(start, station, config, sys, BootEvent);
    BootIsSafe(sys, station, config);
    SentReplyIsConsistent(sys, station, config, reply);
    ReplyCountsEpisode(sys.replies, reply);
  }

  lemma BothWait(start: System, station: string, config: Config, sys: System) returns (end: System)
    requires Reaches(start, station, config, sys) && Inv(sys.cache) && |sys.rounds| == 2
    requires InPhase(sys, 0, Started) && NeedsReport(sys.rounds[0].entity, config)
    requires InPhase(sys, 1, Started) && NeedsReport(sys.rounds[1].entity, config)
    ensures Reaches(start, station, config, end)
    ensures IsWaiting(end, 0) && ReportAnswer(end, 0).None? && IsWaiting(end, 1) && ReportAnswer(end, 1).None?
  {
    end := RequestReport(start, station, config, sys, 0);
    end := RequestReport(start, station, config, end, 1);
    end := AwaitReport(start, station, config, end, 0);
    var w := end.rounds[0].phase.w;
    end := AwaitReport(start, station, config, end, 1);
    assert end.rounds[0].phase == Waiting(w);
  }

  lemma RequestReport(start: System, station: string, config: Config, sys: System, i: nat) returns (next: System)
    requires Reaches(start, station, config, sys) && Inv(sys.cache)
    requires InPhase(sys, i, Started) && NeedsReport(sys.rounds[i].entity, config)
    ensures Reaches(start, station, config, next) && Inv(next.cache)
    ensures next.rounds == sys.rounds[i := sys.rounds[i].(phase := Requested)]
  {
    next := Next(sys, station, config, ReportRequested(i));
    ReachesNext(start, station, config, sys, ReportRequested(i));
    SetKeepsInv(Remove(sys.cache, NamespaceKey(NOTIFY_REPORT, station)), ReportKey(station), R.ONGOING,
                config.maxCachingSeconds);
  }

  lemma AwaitReport(start: System, station: string, config: Config, sys: System, i: nat) returns (next: System)
    requires Reaches(start, station, config, sys) && Inv(sys.cache) && InPhase(sys, i, Requested)
    ensures Reaches(start, station, config, next) && Inv(next.cache)
    ensures IsWaiting(next, i) && ReportAnswer(next, i).None?
    ensures next.rounds == sys.rounds[i := sys.rounds[i].(phase := next.rounds[i].phase)]
    ensures forall w :: w in sys.cache.waiters ==> R.Answer(next.cache, w) == R.Answer(sys.cache, w)
    ensures forall w :: w in sys.cache.waiters ==> w in next.cache.waiters
    ensures next.rounds[i].phase.w in next.cache.waiters
  {
    next := Next(sys, station, config, ReportSent(i, true));
    ReachesNext(start, station, config, sys, ReportSent(i, true));
    W.OnChangeOpensWaiter(sys.cache, ReportKey(station), config.maxCachingSeconds);
    OnChangeKeepsInv(sys.cache, ReportKey(station), config.maxCachingSeconds);
  }

  lemma {:induction false} JoinedRun(sys: System, station: string, config: Config, a: seq<Event>, b: seq<Event>)
    requires EnabledRun(sys, station, config, a) && EnabledRun(Run(sys, station, config, a), station, config, b)
    ensures EnabledRun(sys, station, config, a + b)
    ensures Run(sys, station, config, a + b) == Run(Run(sys, station, config, a), station, config, b)
    decreases |a|
  {
    if a == [] {
      assert a + b == b;
    } else {
      assert (a + b)[1..] == a[1..] + b;
      JoinedRun(Next(sys, station, config, a[0]), station, config, a[1..], b);
    }
  }

  // When a reply cannot be sent.

  /** The cache stays consistent exactly when the reply was an acceptance or a status was cached already. */
  lemma UnsentReplyIsConsistentIff(s: State, station: string, record: Option<BootRecord>, config: Config,
                                   status: Option<Status>, reply: Status, action: string)
    requires ProtocolActions(config.actions) && Consistent(s, station, config.actions, status, {NOTIFY_REPORT})
    requires DetermineBootStatus(record, config) == Some(reply)
    requires action in config.actions && action != BOOT_NOTIFICATION
    ensures var r := Boot(s, station, record, config, false);
            && r.record == record && r.reply.None? && !r.startsRound
            && ((exists after :: Consistent(r.cache, station, config.actions, after, {NOTIFY_REPORT})) <==>
                  reply == Accepted || status.Some?)
  {
    UnsentIsConsistentIff(s, station, config.actions, status, {NOTIFY_REPORT}, reply, action);
  }

  // When the pending variables are not loaded.

  /** What the stored repository finds: the record without its variables. */
  function WithoutVariables(record: Option<BootRecord>): Option<BootRecord> {
    if record.Some? then Some(record.value.(pendingSetVariables := 0)) else None
  }

  /** The reply differs exactly if variables are pending, no base report is needed and autoAccept is on: then the
      station is accepted with its variables unset, instead of kept pending. */
  lemma LookupIsRightIff(record: Option<BootRecord>, config: Config)
    ensures DetermineBootStatus(WithoutVariables(record), config) != DetermineBootStatus(record, config) <==>
            record.Some? && ToStatus(record.value.status) == Some(Pending) && !NeedsReport(record.value, config)
            && record.value.pendingSetVariables > 0 && config.autoAccept
    ensures DetermineBootStatus(WithoutVariables(record), config) != DetermineBootStatus(record, config) ==>
              && DetermineBootStatus(WithoutVariables(record), config) == Some(Accepted)
              && DetermineBootStatus(record, config) == Some(Pending)
  {
  }
}
