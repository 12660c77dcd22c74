/** A call to a charging station and the wait for its response: the caller subscribes on a fresh
    correlation id, then sends, then awaits; the module that handles the response writes the
    payload under that id. */
module CorrelatedCall {
  import opened Options
  import opened CacheModel
  import opened CacheInvariants
  import opened CacheWaiters
  import M = MemoryCache

  const CALLBACK_URL_CACHE_PREFIX := "CALLBACK_URL_"
  const CONNECTIONS := "conn"

  datatype Message =
    | Response(correlationId: string, stationId: string, payload: string)
    | Request(correlationId: string, stationId: string, payload: string)

  /** `AbstractModule.handle`: a response is written under its correlation id, a request writes nothing. */
  method Handle(cache: M.MemoryCache, message: Message, maxCachingSeconds: int)
    requires cache.Valid()
    modifies cache, cache.loop
    ensures cache.Valid()
    ensures message.Response? ==>
      cache.State() == Set(old(cache.State()), NamespaceKey(message.correlationId, message.stationId),
                           message.payload, maxCachingSeconds)
    ensures message.Request? ==> cache.State() == old(cache.State())
  {
    if message.Response? {
      var _ := cache.Set(message.correlationId, message.payload, message.stationId, maxCachingSeconds);
    }
  }

  /** `accepted` is what the message broker answers; the request is handed over only when the station
      is connected with the right protocol. `protocolOf` reads the protocol off a stored connection. */
  method SendCall(cache: M.MemoryCache, stationId: string, identifier: string, protocol: string,
                  callbackUrl: string, correlationId: string, maxCachingSeconds: int,
                  protocolOf: string -> string, accepted: bool)
    returns (success: bool, handedOver: bool)
    requires cache.Valid()
    modifies cache, cache.loop
    ensures cache.Valid()
    ensures cache.State() == AfterSend(old(cache.State()), stationId, callbackUrl, correlationId, maxCachingSeconds)
    ensures callbackUrl == "" ==> cache.State() == old(cache.State())
    ensures callbackUrl != "" ==>
      cache.cache == old(cache.cache)["CALLBACK_URL_" + stationId + ":" + correlationId := callbackUrl]
    ensures handedOver <==>
      var key := "conn:" + identifier;
      key in cache.cache && cache.cache[key] != "" && protocolOf(cache.cache[key]) == protocol
    ensures handedOver <==> Connected(cache.State(), identifier, protocol, protocolOf)
    ensures success <==> handedOver && accepted
  {
    if callbackUrl != "" {
      var _ := cache.Set(correlationId, callbackUrl, CALLBACK_URL_CACHE_PREFIX + stationId, maxCachingSeconds);
    }
    assert NamespaceKey(identifier, CONNECTIONS) == "conn:" + identifier;
    var connection := cache.Get(identifier, CONNECTIONS);
    if connection.None? {
      return false, false;
    }
    if protocolOf(connection.value) != protocol {
      return false, false;
    }
    return accepted, true;
  }

  function AfterSend(s: State, stationId: string, callbackUrl: string, correlationId: string,
                     maxCachingSeconds: int): State {
    if callbackUrl == "" then s
    else Set(s, NamespaceKey(correlationId, CALLBACK_URL_CACHE_PREFIX + stationId), callbackUrl, maxCachingSeconds)
  }

  predicate Connected(s: State, identifier: string, protocol: string, protocolOf: string -> string) {
    var connection := Get(s, NamespaceKey(identifier, CONNECTIONS));
    connection.Some? && protocolOf(connection.value) == protocol
  }

  /** The callback URL is not mistaken for the response. */
  lemma CallbackKeyIsAnother(correlationId: string, stationId: string)
    ensures NamespaceKey(correlationId, CALLBACK_URL_CACHE_PREFIX + stationId) != NamespaceKey(correlationId, stationId)
  {
    assert |NamespaceKey(correlationId, CALLBACK_URL_CACHE_PREFIX + stationId)| == |correlationId| + |stationId| + 14;
  }

  datatype Outcome = SendFailed | NoAnswer | Refused | Updated | Waiting

  /** The race gave a text that is not empty. */
  predicate Answered(answer: Option<Option<string>>) {
    answer.Some? && answer.value.Some? && answer.value.value != ""
  }

  /** What the caller makes of the race. */
  ghost predicate Concludes(outcome: Outcome, answer: Option<Option<string>>, allAccepted: string -> bool) {
    && outcome != SendFailed
    && (outcome == Waiting <==> answer == None)
    && (outcome == NoAnswer <==> answer.Some? && !Answered(answer))
    && (outcome == Updated <==> Answered(answer) && allAccepted(answer.value.value))
    && (outcome == Refused <==> Answered(answer) && !allAccepted(answer.value.value))
  }

  /** `whileSending` and `whileWaiting` are what the rest of the system does before the send is confirmed
      and afterwards. The await returns as soon as the race is over; `Waiting` means that it is not over yet. */
  method UpdatePasswordOnStation(cache: M.MemoryCache, stationId: string, identifier: string, correlationId: string,
                                 callbackUrl: string, maxCachingSeconds: int,
                                 protocolOf: string -> string, accepted: bool, allAccepted: string -> bool,
                                 whileSending: seq<Step>, whileWaiting: seq<Step>)
    returns (outcome: Outcome, confirmed: bool)
    requires cache.Valid()
    requires LegalRun(Subscribed(cache.State(), stationId, correlationId, callbackUrl, maxCachingSeconds),
                      whileSending + whileWaiting)
    modifies cache, cache.loop
    ensures cache.Valid()
    ensures outcome == SendFailed <==> !confirmed
    ensures var asked := old(Subscribed(cache.State(), stationId, correlationId, callbackUrl, maxCachingSeconds));
            && (confirmed <==> accepted && Connected(asked, identifier, "ocpp2.0.1", protocolOf))
            && (confirmed ==> cache.State() == Run(asked, whileSending + whileWaiting))
            && (!confirmed ==> LegalRun(asked, whileSending) && cache.State() == Run(asked, whileSending))
    ensures confirmed ==>
      var key := NamespaceKey(correlationId, stationId);
      var w := NewWaiter(old(cache.State()), key);
      var answer := Expected(old(Subscribed(cache.State(), stationId, correlationId, callbackUrl, maxCachingSeconds)),
                             whileSending + whileWaiting, w, key);
      Concludes(outcome, answer, allAccepted)
  {
    var answer;
    answer, confirmed := AwaitAnswer(cache, stationId, identifier, correlationId, callbackUrl, maxCachingSeconds,
                                     protocolOf, accepted, whileSending, whileWaiting);
    if !confirmed {
      return SendFailed, false;
    }
    outcome := Conclude(answer, allAccepted);
  }

  /** The call and the race that it waits for; a send that fails is not waited for. */
  method AwaitAnswer(cache: M.MemoryCache, stationId: string, identifier: string, correlationId: string,
                     callbackUrl: string, maxCachingSeconds: int, protocolOf: string -> string, accepted: bool,
                     whileSending: seq<Step>, whileWaiting: seq<Step>)
    returns (answer: Option<Option<string>>, confirmed: bool)
    requires cache.Valid()
    requires LegalRun(Subscribed(cache.State(), stationId, correlationId, callbackUrl, maxCachingSeconds),
                      whileSending + whileWaiting)
    modifies cache, cache.loop
    ensures cache.Valid()
    ensures var asked := old(Subscribed(cache.State(), stationId, correlationId, callbackUrl, maxCachingSeconds));
            && (confirmed <==> accepted && Connected(asked, identifier, "ocpp2.0.1", protocolOf))
            && (confirmed ==> cache.State() == Run(asked, whileSending + whileWaiting))
            && (!confirmed ==> LegalRun(asked, whileSending) && cache.State() == Run(asked, whileSending))
    ensures confirmed ==>
      var key := NamespaceKey(correlationId, stationId);
      answer == Expected(old(Subscribed(cache.State(), stationId, correlationId, callbackUrl, maxCachingSeconds)),
                         whileSending + whileWaiting, NewWaiter(old(cache.State()), key), key)
  {
    ghost var key := NamespaceKey(correlationId, stationId);
    ghost var asked := Subscribed(cache.State(), stationId, correlationId, callbackUrl, maxCachingSeconds);
    SubscribedIsOpen(cache.State(), stationId, correlationId, callbackUrl, maxCachingSeconds);
    var w;
    w, confirmed := Ask(cache, stationId, identifier, correlationId, callbackUrl, maxCachingSeconds, protocolOf,
                        accepted);
    WaiterAfterInterleaving(asked, whileSending, whileWaiting, w, key);
    Play(cache, whileSending);
    if !confirmed {
      return None, false;
    }
    Play(cache, whileWaiting);
    answer := cache.loop.waiters[w].outcome;
  }

  method Conclude(answer: Option<Option<string>>, allAccepted: string -> bool) returns (outcome: Outcome)
    ensures Concludes(outcome, answer, allAccepted)
  {
    match answer {
      case None => outcome := Waiting;
      case Some(None) => outcome := NoAnswer;
      case Some(Some(json)) =>
        outcome := if json == "" then NoAnswer else if allAccepted(json) then Updated else Refused;
    }
  }

  /** Subscribing on the correlation id, then sending. */
  method Ask(cache: M.MemoryCache, stationId: string, identifier: string, correlationId: string, callbackUrl: string,
             maxCachingSeconds: int, protocolOf: string -> string, accepted: bool)
    returns (w: nat, success: bool)
    requires cache.Valid()
    modifies cache, cache.loop
    ensures cache.Valid()
    ensures cache.State() == old(Subscribed(cache.State(), stationId, correlationId, callbackUrl, maxCachingSeconds))
    ensures w == NewWaiter(old(cache.State()), NamespaceKey(correlationId, stationId))
    ensures success <==> accepted && Connected(cache.State(), identifier, "ocpp2.0.1", protocolOf)
  {
    w := cache.OnChange(correlationId, maxCachingSeconds, stationId);
    var handedOver;
    success, handedOver := SendCall(cache, stationId, identifier, "ocpp2.0.1", callbackUrl, correlationId,
                                    maxCachingSeconds, protocolOf, accepted);
  }

  lemma WaiterAfterInterleaving(s: State, a: seq<Step>, b: seq<Step>, w: nat, key: string)
    requires Inv(s) && Open(s, w, key) && LegalRun(s, a + b)
    ensures LegalRun(s, a) && LegalRun(Run(s, a), b) && Run(s, a + b) == Run(Run(s, a), b)
    ensures w in Run(s, a + b).waiters && Run(s, a + b).waiters[w].outcome == Expected(s, a + b, w, key)
  {
    RunOfConcatenation(s, a, b);
    WaiterGetsExpected(s, a + b, w, key);
  }

  function Subscribed(s: State, stationId: string, correlationId: string, callbackUrl: string,
                      maxCachingSeconds: int): State {
    AfterSend(OnChange(s, NamespaceKey(correlationId, stationId), maxCachingSeconds),
              stationId, callbackUrl, correlationId, maxCachingSeconds)
  }

  /** Storing the callback URL disturbs neither the subscription nor its timer. */
  lemma SubscribedIsOpen(s: State, stationId: string, correlationId: string, callbackUrl: string,
                         maxCachingSeconds: int)
    requires Inv(s)
    ensures var key := NamespaceKey(correlationId, stationId);
            var w, r := NewWaiter(s, key), Subscribed(s, stationId, correlationId, callbackUrl, maxCachingSeconds);
            && Inv(r) && Open(r, w, key)
            && w in r.timers && r.timers[w].due == s.now + DelayMs(maxCachingSeconds)
            && r.now == s.now && (Exists(r, key) <==> Exists(s, key))
  {
    var key := NamespaceKey(correlationId, stationId);
    var urlKey := NamespaceKey(correlationId, CALLBACK_URL_CACHE_PREFIX + stationId);
    var w, asked := NewWaiter(s, key), OnChange(s, key, maxCachingSeconds);
    OnChangeOpensWaiter(s, key, maxCachingSeconds);
    OnChangeKeepsInv(s, key, maxCachingSeconds);
    CallbackKeyIsAnother(correlationId, stationId);
    if callbackUrl != "" {
      var step := SetStep(urlKey, callbackUrl, maxCachingSeconds);
      WriteWakesEveryWaiter(asked, urlKey, callbackUrl, maxCachingSeconds, w);
      StepKeepsInv(asked, step);
      StepKeepsWakeTimer(asked, step, w);
    }
  }

  /** The rest of the system takes its steps on the cache. */
  method Play(cache: M.MemoryCache, steps: seq<Step>)
    requires cache.Valid() && LegalRun(cache.State(), steps)
    modifies cache, cache.loop
    ensures cache.Valid() && cache.State() == Run(old(cache.State()), steps)
    decreases |steps|
  {
    if steps == [] {
      return;
    }
    PlayStep(cache, steps[0]);
    Play(cache, steps[1..]);
  }

  method PlayStep(cache: M.MemoryCache, step: Step)
    requires cache.Valid() && Legal(cache.State(), step)
    modifies cache, cache.loop
    ensures cache.Valid() && cache.State() == Apply(old(cache.State()), step)
  {
    StepKeepsInv(cache.State(), step);
    match step {
      case SetStep(key, value, expire) => cache.Write(key, value, expire);
      case SetIfNotExistStep(key, value, expire) =>
        if key !in cache.cache {
          cache.Write(key, value, expire);
        }
      case RemoveStep(key) => cache.cache := cache.cache - {key};
      case OnChangeStep(key, wait) => var _ := cache.Watch(key, wait);
      case FireStep(t) => cache.RunTimer(t);
      case AdvanceStep(ms) => cache.Sleep(ms);
    }
  }

  // No response is lost.

  /** In every interleaving: a response handled before the caller's deadline is what the caller receives,
      whether or not it was already awaiting. */
  lemma NoLostResponse(s: State, w: nat, key: string, due: int, before: seq<Step>, payload: string, expire: int,
                       after: seq<Step>)
    requires Inv(s) && Open(s, w, key) && w in s.timers && s.timers[w].due == due
    requires LegalRun(s, before + ([SetStep(key, payload, expire)] + after))
    requires WritesNot(before, key)
    requires LegalRun(s, before) ==> Run(s, before).now < due
    ensures Expected(s, before + ([SetStep(key, payload, expire)] + after), w, key) == Some(Some(payload))
  {
    RunOfConcatenation(s, before, [SetStep(key, payload, expire)] + after);
    if FireStep(w) in before {
      FiresNoEarlier(s, before, w, key);
    }
    QuietStepsLeaveOpen(s, before, [SetStep(key, payload, expire)] + after, w, key);
  }

  /** The same for `updatePasswordOnStation`, from its own subscription to its outcome. */
  lemma PasswordResponseIsReceived(s: State, stationId: string, correlationId: string, callbackUrl: string,
                                   maxCachingSeconds: int, before: seq<Step>, payload: string, after: seq<Step>,
                                   outcome: Outcome, allAccepted: string -> bool)
    requires Inv(s) && payload != ""
    requires var key := NamespaceKey(correlationId, stationId);
             var asked := Subscribed(s, stationId, correlationId, callbackUrl, maxCachingSeconds);
             var steps := before + ([SetStep(key, payload, maxCachingSeconds)] + after);
             && LegalRun(asked, steps) && WritesNot(before, key)
             && (LegalRun(asked, before) ==> Run(asked, before).now < s.now + DelayMs(maxCachingSeconds))
             && Concludes(outcome, Expected(asked, steps, NewWaiter(s, key), key), allAccepted)
    ensures outcome == if allAccepted(payload) then Updated else Refused
  {
    var key := NamespaceKey(correlationId, stationId);
    SubscribedIsOpen(s, stationId, correlationId, callbackUrl, maxCachingSeconds);
    NoLostResponse(Subscribed(s, stationId, correlationId, callbackUrl, maxCachingSeconds), NewWaiter(s, key), key,
                   s.now + DelayMs(maxCachingSeconds), before, payload, maxCachingSeconds, after);
  }

  /** Without a response before the caller's timer fires, a fresh correlation id yields no answer. */
  lemma SilenceIsNoAnswer(s: State, w: nat, key: string, before: seq<Step>, after: seq<Step>)
    requires Inv(s) && Open(s, w, key) && !Exists(s, key)
    requires LegalRun(s, before + ([FireStep(w)] + after))
    requires WritesNot(before, key) && FireStep(w) !in before
    ensures Expected(s, before + ([FireStep(w)] + after), w, key) == Some(None)
  {
    RunOfConcatenation(s, before, [FireStep(w)] + after);
    QuietStepsLeaveOpen(s, before, [FireStep(w)] + after, w, key);
    UnwrittenStaysAbsent(s, before, key);
  }

  /** The same for `updatePasswordOnStation`, from its own subscription to its outcome: once its time is over. */
  lemma SilentStationIsNoAnswer(s: State, stationId: string, correlationId: string, callbackUrl: string,
                                maxCachingSeconds: int, steps: seq<Step>, outcome: Outcome, allAccepted: string -> bool)
    requires Inv(s)
    requires var key := NamespaceKey(correlationId, stationId);
             var asked := Subscribed(s, stationId, correlationId, callbackUrl, maxCachingSeconds);
             && !Exists(s, key) && LegalRun(asked, steps) && WritesNot(steps, key)
             && Run(asked, steps).now > s.now + DelayMs(maxCachingSeconds)
             && Concludes(outcome, Expected(asked, steps, NewWaiter(s, key), key), allAccepted)
    ensures outcome == NoAnswer
  {
    var key := NamespaceKey(correlationId, stationId);
    var w, asked := NewWaiter(s, key), Subscribed(s, stationId, correlationId, callbackUrl, maxCachingSeconds);
    SubscribedIsOpen(s, stationId, correlationId, callbackUrl, maxCachingSeconds);
    WaiterGetsExpected(asked, steps, w, key);
    WaiterEndsInTime(asked, steps, w, s.now + DelayMs(maxCachingSeconds));
    UnwrittenRaceIsUnanswered(asked, steps, w, key);
  }

  /** A race on an absent key that is over without a write has no answer. */
  lemma {:induction false} UnwrittenRaceIsUnanswered(s: State, steps: seq<Step>, w: nat, key: string)
    requires LegalRun(s, steps) && WritesNot(steps, key) && !Exists(s, key)
    ensures Expected(s, steps, w, key).Some? ==> Expected(s, steps, w, key) == Some(None)
    decreases |steps|
  {
    if steps != [] && steps[0] != FireStep(w) {
      assert steps[0] in steps;
      UnwrittenStepStaysAbsent(s, steps[0], key);
      UnwrittenRaceIsUnanswered(Apply(s, steps[0]), steps[1..], w, key);
    }
  }

  lemma UnwrittenStepStaysAbsent(s: State, step: Step, key: string)
    requires Legal(s, step) && WritesNot([step], key) && !Exists(s, key)
    ensures !Exists(Apply(s, step), key)
  {
    assert step in [step];
  }

  lemma {:induction false} UnwrittenStaysAbsent(s: State, steps: seq<Step>, key: string)
    requires LegalRun(s, steps) && WritesNot(steps, key) && !Exists(s, key)
    ensures !Exists(Run(s, steps), key)
    decreases |steps|
  {
    if steps != [] {
      UnwrittenStepStaysAbsent(s, steps[0], key);
      UnwrittenStaysAbsent(Apply(s, steps[0]), steps[1..], key);
    }
  }
}
