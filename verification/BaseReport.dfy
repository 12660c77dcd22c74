/** Waiting for a base report: the cache value of the request is 'ongoing' while NotifyReport messages
    arrive and 'complete' after the last one. */
module BaseReport {
  import opened Options
  import opened CacheModel
  import opened CacheInvariants
  import opened CacheWaiters
  import opened CorrelatedCall
  import M = MemoryCache

  const ONGOING := "ongoing"
  const COMPLETE := "complete"

  datatype Report = StillWaiting(w: nat) | Completed | Failed

  // The wait loop as a function of the steps of the rest of the system. The loop resumes in the same
  // turn of the event loop in which its await is decided, that is, before the next step.

  function Answer(s: State, w: nat): Option<Option<string>> {
    if w in s.waiters then s.waiters[w].outcome else None
  }

  predicate Again(s: State, w: nat) {
    Answer(s, w) == Some(Some(ONGOING))
  }

  predicate LegalLoop(s: State, w: nat, key: string, maxSeconds: int, steps: seq<Step>)
    decreases |steps|
  {
    steps != [] ==>
      && Legal(s, steps[0])
      && var next := Apply(s, steps[0]);
         if Answer(next, w).None? then LegalLoop(next, w, key, maxSeconds, steps[1..])
         else Again(next, w) ==>
           LegalLoop(OnChange(next, key, maxSeconds), NewWaiter(next, key), key, maxSeconds, steps[1..])
  }

  /** The state in which the loop stops looking at the steps, and what has become of it. */
  function Loop(s: State, w: nat, key: string, maxSeconds: int, steps: seq<Step>): (State, Report)
    requires LegalLoop(s, w, key, maxSeconds, steps)
    decreases |steps|
  {
    if steps == [] then (s, StillWaiting(w))
    else
      var next := Apply(s, steps[0]);
      if Answer(next, w).None? then Loop(next, w, key, maxSeconds, steps[1..])
      else if Again(next, w) then
        Loop(OnChange(next, key, maxSeconds), NewWaiter(next, key), key, maxSeconds, steps[1..])
      else (next, if Answer(next, w) == Some(Some(COMPLETE)) then Completed else Failed)
  }

  /** The race of `w` is over with `answer`, or the steps are; what remains leads to `result`. */
  ghost predicate Reached(s: State, w: nat, answer: Option<Option<string>>, rest: seq<Step>, key: string,
                          maxSeconds: int, result: (State, Report)) {
    match answer
    case None => result == (s, StillWaiting(w))
    case Some(value) =>
      if value == Some(ONGOING) then
        && LegalLoop(OnChange(s, key, maxSeconds), NewWaiter(s, key), key, maxSeconds, rest)
        && result == Loop(OnChange(s, key, maxSeconds), NewWaiter(s, key), key, maxSeconds, rest)
      else
        result == (s, if value == Some(COMPLETE) then Completed else Failed)
  }

  // The code.

  method CreateGetBaseReportRequest(cache: M.MemoryCache, stationId: string, maxCachingSeconds: int)
    returns (requestId: string)
    requires cache.Valid()
    modifies cache, cache.loop
    ensures cache.Valid() && requestId == "0"
    ensures cache.State() == Set(old(cache.State()), NamespaceKey(requestId, stationId), ONGOING, maxCachingSeconds)
    ensures maxCachingSeconds != 0 ==> OngoingExpires(cache.State(), NamespaceKey(requestId, stationId),
                                                      DelayMs(maxCachingSeconds))
  {
    requestId := "0";
    var _ := cache.Set(requestId, ONGOING, stationId, maxCachingSeconds);
  }

  /** `steps` is what the rest of the system does; `StillWaiting` means that the loop is still waiting when they end. */
  method ConfirmGetBaseReportSuccess(cache: M.MemoryCache, stationId: string, requestId: string, success: bool,
                                     maxCachingSeconds: int, steps: seq<Step>)
    returns (report: Report)
    requires cache.Valid()
    requires var key := NamespaceKey(requestId, stationId);
             LegalLoop(OnChange(cache.State(), key, maxCachingSeconds), NewWaiter(cache.State(), key), key,
                       maxCachingSeconds, steps)
    modifies cache, cache.loop
    ensures cache.Valid()
    ensures !success ==> report == Failed && cache.State() == old(cache.State())
    ensures success ==>
      var key, before := NamespaceKey(requestId, stationId), old(cache.State());
      (cache.State(), report) == Loop(OnChange(before, key, maxCachingSeconds), NewWaiter(before, key), key,
                                      maxCachingSeconds, steps)
  {
    if !success {
      return Failed;
    }
    ghost var key := NamespaceKey(requestId, stationId);
    ghost var s0, w0 := OnChange(cache.State(), key, maxCachingSeconds), NewWaiter(cache.State(), key);
    ghost var result := Loop(s0, w0, key, maxCachingSeconds, steps);
    OnChangeOpensWaiter(cache.State(), key, maxCachingSeconds);
    var w := cache.OnChange(requestId, maxCachingSeconds, stationId);
    var answer, rest := Await(cache, w, key, maxCachingSeconds, steps);
    while answer == Some(Some(ONGOING))
      invariant cache.Valid()
      invariant Reached(cache.State(), w, answer, rest, key, maxCachingSeconds, result)
      decreases |rest| + (if answer == Some(Some(ONGOING)) then 1 else 0)
    {
      OnChangeOpensWaiter(cache.State(), key, maxCachingSeconds);
      w := cache.OnChange(requestId, maxCachingSeconds, stationId);
      answer, rest := Await(cache, w, key, maxCachingSeconds, rest);
    }
    if answer.None? {
      return StillWaiting(w);
    }
    if answer == Some(Some(COMPLETE)) {
      return Completed;
    }
    return Failed;
  }

  /** The rest of the system runs until the race of `w` is over. */
  method Await(cache: M.MemoryCache, w: nat, ghost key: string, ghost maxSeconds: int, steps: seq<Step>)
    returns (answer: Option<Option<string>>, rest: seq<Step>)
    requires cache.Valid() && Answer(cache.State(), w).None? && LegalLoop(cache.State(), w, key, maxSeconds, steps)
    modifies cache, cache.loop
    ensures cache.Valid()
    ensures |rest| <= |steps| && (answer.Some? ==> |rest| < |steps|)
    ensures Reached(cache.State(), w, answer, rest, key, maxSeconds,
                    Loop(old(cache.State()), w, key, maxSeconds, steps))
  {
    if steps == [] {
      return None, [];
    }
    PlayStep(cache, steps[0]);
    rest := steps[1..];
    if w in cache.loop.waiters && cache.loop.waiters[w].outcome.Some? {
      return cache.loop.waiters[w].outcome, rest;
    }
    answer, rest := Await(cache, w, key, maxSeconds, rest);
  }

  // The loop ends once progress writes stop.

  /** An 'ongoing' value goes away by itself within `delay` milliseconds of its writing. */
  ghost predicate OngoingExpires(s: State, key: string, delay: int) {
    key in s.cache && s.cache[key] == ONGOING ==>
      && key in s.timeouts && s.timeouts[key] in s.timers
      && s.timers[s.timeouts[key]].delay <= delay
  }

  /** An 'ongoing' value goes away no later than the waiter's timer, and by an older timer. */
  ghost predicate ExpiresFirst(s: State, key: string, w: nat, delay: int) {
    && w in s.timers && s.timers[w].delay == delay
    && (key in s.cache && s.cache[key] == ONGOING ==>
          && key in s.timeouts && s.timeouts[key] in s.timers
          && s.timeouts[key] < w
          && var expiry := s.timers[s.timeouts[key]];
             expiry.due < s.timers[w].due || (expiry.due == s.timers[w].due && expiry.delay == delay))
  }

  lemma SubscribingComesAfterWriting(s: State, key: string, maxSeconds: int)
    requires Inv(s) && OngoingExpires(s, key, DelayMs(maxSeconds))
    ensures ExpiresFirst(OnChange(s, key, maxSeconds), key, NewWaiter(s, key), DelayMs(maxSeconds))
  {
  }

  lemma QuietStepKeepsOrder(s: State, step: Step, key: string, w: nat, delay: int)
    requires Inv(s) && Legal(s, step) && Open(s, w, key) && ExpiresFirst(s, key, w, delay)
    requires Written(s, step, key).None? && step != FireStep(w)
    ensures ExpiresFirst(Apply(s, step), key, w, delay)
  {
    StepKeepsWakeTimer(s, step, w);
  }

  /** When the waiter's timer fires, 'ongoing' has expired. */
  lemma TimeoutDoesNotReadOngoing(s: State, key: string, w: nat, delay: int)
    requires Inv(s) && CanFire(s, w) && ExpiresFirst(s, key, w, delay)
    ensures Get(s, key) != Some(ONGOING)
  {
  }

  /** Without further writes to the key, the loop ends by the deadline of its last subscription. */
  lemma {:induction false} LoopEndsWithoutProgress(s: State, w: nat, key: string, maxSeconds: int, steps: seq<Step>)
    requires Inv(s) && Open(s, w, key) && ExpiresFirst(s, key, w, DelayMs(maxSeconds))
    requires LegalLoop(s, w, key, maxSeconds, steps) && WritesNot(steps, key)
    ensures var (end, report) := Loop(s, w, key, maxSeconds, steps);
            report.StillWaiting? ==> report.w == w && end.now <= s.timers[w].due
    decreases |steps|
  {
    if steps != [] {
      var next := Apply(s, steps[0]);
      StepDecides(s, steps[0], w);
      StepKeepsInv(s, steps[0]);
      assert WritesNot(steps[1..], key) && Written(s, steps[0], key).None?;
      if steps[0] == FireStep(w) {
        TimeoutDoesNotReadOngoing(s, key, w, DelayMs(maxSeconds));
      } else {
        QuietStepKeepsOrder(s, steps[0], key, w, DelayMs(maxSeconds));
        StepKeepsWakeTimer(s, steps[0], w);
        LoopEndsWithoutProgress(next, w, key, maxSeconds, steps[1..]);
      }
    }
  }

  predicate WritesValue(step: Step, key: string, value: string) {
    (step.SetStep? || step.SetIfNotExistStep?) && step.key == key && step.value == value
  }

  /** Every report of progress carries an expiry that is no longer than the caller's patience. */
  predicate ProgressExpires(steps: seq<Step>, key: string, delay: int) {
    forall step :: step in steps && WritesValue(step, key, ONGOING) ==>
      step.expire != 0 && DelayMs(step.expire) <= delay
  }

  lemma ProgressStepExpires(s: State, step: Step, key: string, delay: int)
    requires Inv(s) && Legal(s, step) && OngoingExpires(s, key, delay)
    requires ProgressExpires([step], key, delay)
    ensures OngoingExpires(Apply(s, step), key, delay)
  {
    assert step in [step];
  }

  /** Whatever happens, the loop is finished or holds a subscription from which it ends without progress. */
  lemma {:induction false} LoopStaysBounded(s: State, w: nat, key: string, maxSeconds: int, steps: seq<Step>)
    requires Inv(s) && Open(s, w, key) && ExpiresFirst(s, key, w, DelayMs(maxSeconds))
    requires OngoingExpires(s, key, DelayMs(maxSeconds))
    requires LegalLoop(s, w, key, maxSeconds, steps) && ProgressExpires(steps, key, DelayMs(maxSeconds))
    ensures var (end, report) := Loop(s, w, key, maxSeconds, steps);
            report.StillWaiting? ==>
              && Inv(end) && Open(end, report.w, key)
              && ExpiresFirst(end, key, report.w, DelayMs(maxSeconds))
              && end.timers[report.w].due <= end.now + DelayMs(maxSeconds)
    decreases |steps|
  {
    if steps != [] {
      var next := Apply(s, steps[0]);
      StepDecides(s, steps[0], w);
      StepKeepsInv(s, steps[0]);
      assert ProgressExpires([steps[0]], key, DelayMs(maxSeconds));
      assert ProgressExpires(steps[1..], key, DelayMs(maxSeconds));
      ProgressStepExpires(s, steps[0], key, DelayMs(maxSeconds));
      if Answer(next, w).None? {
        QuietStepKeepsOrder(s, steps[0], key, w, DelayMs(maxSeconds));
        LoopStaysBounded(next, w, key, maxSeconds, steps[1..]);
      } else if Again(next, w) {
        ResubscribingIsBounded(next, key, maxSeconds);
        LoopStaysBounded(OnChange(next, key, maxSeconds), NewWaiter(next, key), key, maxSeconds, steps[1..]);
      }
    }
  }

  lemma ResubscribingIsBounded(s: State, key: string, maxSeconds: int)
    requires Inv(s) && OngoingExpires(s, key, DelayMs(maxSeconds))
    ensures var r, w := OnChange(s, key, maxSeconds), NewWaiter(s, key);
            && Inv(r) && Open(r, w, key)
            && ExpiresFirst(r, key, w, DelayMs(maxSeconds)) && OngoingExpires(r, key, DelayMs(maxSeconds))
  {
    OnChangeKeepsInv(s, key, maxSeconds);
    OnChangeOpensWaiter(s, key, maxSeconds);
    SubscribingComesAfterWriting(s, key, maxSeconds);
  }

  lemma {:induction false} SendingKeepsExpiry(s: State, steps: seq<Step>, key: string, delay: int)
    requires Inv(s) && LegalRun(s, steps) && OngoingExpires(s, key, delay) && ProgressExpires(steps, key, delay)
    ensures OngoingExpires(Run(s, steps), key, delay)
    decreases |steps|
  {
    if steps != [] {
      assert forall step :: step in [steps[0]] || step in steps[1..] ==> step in steps;
      ProgressStepExpires(s, steps[0], key, delay);
      StepKeepsInv(s, steps[0]);
      SendingKeepsExpiry(Apply(s, steps[0]), steps[1..], key, delay);
    }
  }

  /** The request is marked as ongoing, is sent, and the loop subscribes. */
  function Asked(s: State, key: string, maxSeconds: int, sending: seq<Step>): State
    requires LegalRun(Set(s, key, ONGOING, maxSeconds), sending)
  {
    Run(Set(s, key, ONGOING, maxSeconds), sending)
  }

  /** From the marking of the request on, whatever happens while it is sent and after any amount of progress,
      silence ends the loop within `maxSeconds` of its last subscription. */
  lemma ConfirmTerminates(s: State, key: string, maxSeconds: int, sending: seq<Step>, busy: seq<Step>,
                          quiet: seq<Step>)
    requires Inv(s) && maxSeconds != 0 && LegalRun(Set(s, key, ONGOING, maxSeconds), sending)
    requires var asked := Asked(s, key, maxSeconds, sending);
             LegalLoop(OnChange(asked, key, maxSeconds), NewWaiter(asked, key), key, maxSeconds, busy)
    requires ProgressExpires(sending, key, DelayMs(maxSeconds)) && ProgressExpires(busy, key, DelayMs(maxSeconds))
    requires WritesNot(quiet, key)
    ensures var asked := Asked(s, key, maxSeconds, sending);
            var (mid, report) := Loop(OnChange(asked, key, maxSeconds), NewWaiter(asked, key), key, maxSeconds, busy);
            report.StillWaiting? && LegalLoop(mid, report.w, key, maxSeconds, quiet) ==>
              && report.w in mid.timers && mid.timers[report.w].due <= mid.now + DelayMs(maxSeconds)
              && var (end, last) := Loop(mid, report.w, key, maxSeconds, quiet);
                 end.now > mid.timers[report.w].due ==> !last.StillWaiting?
  {
    var asked := Asked(s, key, maxSeconds, sending);
    SetKeepsInv(s, key, ONGOING, maxSeconds);
    MarkedExpires(s, key, maxSeconds);
    RunKeepsInv(Set(s, key, ONGOING, maxSeconds), sending);
    SendingKeepsExpiry(Set(s, key, ONGOING, maxSeconds), sending, key, DelayMs(maxSeconds));
    SubscribedTerminates(asked, key, maxSeconds, busy, quiet);
  }

  lemma MarkedExpires(s: State, key: string, maxSeconds: int)
    requires Inv(s) && maxSeconds != 0
    ensures OngoingExpires(Set(s, key, ONGOING, maxSeconds), key, DelayMs(maxSeconds))
  {
  }

  lemma SubscribedTerminates(s: State, key: string, maxSeconds: int, busy: seq<Step>, quiet: seq<Step>)
    requires Inv(s) && OngoingExpires(s, key, DelayMs(maxSeconds))
    requires LegalLoop(OnChange(s, key, maxSeconds), NewWaiter(s, key), key, maxSeconds, busy)
    requires ProgressExpires(busy, key, DelayMs(maxSeconds)) && WritesNot(quiet, key)
    ensures var (mid, report) := Loop(OnChange(s, key, maxSeconds), NewWaiter(s, key), key, maxSeconds, busy);
            report.StillWaiting? && LegalLoop(mid, report.w, key, maxSeconds, quiet) ==>
              && report.w in mid.timers && mid.timers[report.w].due <= mid.now + DelayMs(maxSeconds)
              && var (end, last) := Loop(mid, report.w, key, maxSeconds, quiet);
                 end.now > mid.timers[report.w].due ==> !last.StillWaiting?
  {
    ResubscribingIsBounded(s, key, maxSeconds);
    LoopStaysBounded(OnChange(s, key, maxSeconds), NewWaiter(s, key), key, maxSeconds, busy);
    var (mid, report) := Loop(OnChange(s, key, maxSeconds), NewWaiter(s, key), key, maxSeconds, busy);
    if report.StillWaiting? && LegalLoop(mid, report.w, key, maxSeconds, quiet) {
      LoopEndsWithoutProgress(mid, report.w, key, maxSeconds, quiet);
    }
  }

  /** The first write while the loop waits decides it: 'ongoing' makes it wait anew for the caching time, 'complete'
      ends it with success and any other text without. */
  lemma WriteDecidesWait(s: State, w: nat, key: string, maxSeconds: int, value: string, expire: int)
    requires Inv(s) && Open(s, w, key) && LegalLoop(s, w, key, maxSeconds, [SetStep(key, value, expire)])
    ensures var (end, report) := Loop(s, w, key, maxSeconds, [SetStep(key, value, expire)]);
            && (value == "complete" <==> report == Completed)
            && (value != "complete" && value != "ongoing" <==> report == Failed)
            && (value == "ongoing" <==> report.StillWaiting?)
            && (value == "ongoing" ==>
                  && report.w != w && Open(end, report.w, key) && report.w in end.timers
                  && (1 <= maxSeconds <= 2147483 ==> end.timers[report.w].due == s.now + 1000 * maxSeconds))
  {
    var step := SetStep(key, value, expire);
    var next := Apply(s, step);
    assert [step][1..] == [];
    StepDecides(s, step, w);
    StepKeepsInv(s, step);
    OnChangeOpensWaiter(next, key, maxSeconds);
  }

  /** The same after any progress. */
  lemma ProgressKeepsWaiting(s: State, key: string, maxSeconds: int, before: seq<Step>, value: string, expire: int)
    requires Inv(s)
    requires LegalLoop(OnChange(s, key, maxSeconds), NewWaiter(s, key), key, maxSeconds,
                       before + [SetStep(key, value, expire)])
    ensures var asked, w := OnChange(s, key, maxSeconds), NewWaiter(s, key);
            && LegalLoop(asked, w, key, maxSeconds, before)
            && var (mid, waiting) := Loop(asked, w, key, maxSeconds, before);
               var (end, report) := Loop(asked, w, key, maxSeconds, before + [SetStep(key, value, expire)]);
               waiting.StillWaiting? ==>
                 && (value == "complete" <==> report == Completed)
                 && (value == "ongoing" <==> report.StillWaiting?)
                 && (value == "ongoing" && 1 <= maxSeconds <= 2147483 ==>
                       report.w in end.timers && end.timers[report.w].due == mid.now + 1000 * maxSeconds)
  {
    var asked, w := OnChange(s, key, maxSeconds), NewWaiter(s, key);
    OnChangeKeepsInv(s, key, maxSeconds);
    OnChangeOpensWaiter(s, key, maxSeconds);
    LoopGoesOn(asked, w, key, maxSeconds, before, [SetStep(key, value, expire)]);
    var (mid, waiting) := Loop(asked, w, key, maxSeconds, before);
    if waiting.StillWaiting? {
      WriteDecidesWait(mid, waiting.w, key, maxSeconds, value, expire);
    }
  }

  // Success means completion.

  predicate NeverReportsCompletion(steps: seq<Step>, key: string) {
    forall step :: step in steps ==> !WritesValue(step, key, COMPLETE)
  }

  predicate ReadsComplete(s: State, key: string) {
    key in s.cache && s.cache[key] == COMPLETE
  }

  lemma {:induction false} LoopNeedsCompletion(s: State, w: nat, key: string, maxSeconds: int, steps: seq<Step>)
    requires Inv(s) && Open(s, w, key) && !ReadsComplete(s, key)
    requires LegalLoop(s, w, key, maxSeconds, steps) && NeverReportsCompletion(steps, key)
    ensures Loop(s, w, key, maxSeconds, steps).1 != Completed
    decreases |steps|
  {
    if steps != [] {
      var next := Apply(s, steps[0]);
      StepDecides(s, steps[0], w);
      StepKeepsInv(s, steps[0]);
      IncompleteStep(s, steps[0], key);
      assert NeverReportsCompletion(steps[1..], key);
      if Answer(next, w).None? {
        LoopNeedsCompletion(next, w, key, maxSeconds, steps[1..]);
      } else if Again(next, w) {
        OnChangeKeepsInv(next, key, maxSeconds);
        OnChangeOpensWaiter(next, key, maxSeconds);
        LoopNeedsCompletion(OnChange(next, key, maxSeconds), NewWaiter(next, key), key, maxSeconds, steps[1..]);
      }
    }
  }

  lemma {:induction false} IncompleteRun(s: State, steps: seq<Step>, key: string)
    requires LegalRun(s, steps) && !ReadsComplete(s, key) && NeverReportsCompletion(steps, key)
    ensures !ReadsComplete(Run(s, steps), key)
    decreases |steps|
  {
    if steps != [] {
      assert steps[0] in steps && NeverReportsCompletion(steps[1..], key);
      IncompleteStep(s, steps[0], key);
      IncompleteRun(Apply(s, steps[0]), steps[1..], key);
    }
  }

  /** From the marking of the request on, the loop never reports success unless completion is written: one on record
      from an earlier request does not count. */
  lemma SuccessNeedsCompletion(s: State, key: string, maxSeconds: int, sending: seq<Step>, waiting: seq<Step>)
    requires Inv(s) && LegalRun(Set(s, key, ONGOING, maxSeconds), sending)
    requires var asked := Asked(s, key, maxSeconds, sending);
             LegalLoop(OnChange(asked, key, maxSeconds), NewWaiter(asked, key), key, maxSeconds, waiting)
    requires NeverReportsCompletion(sending, key) && NeverReportsCompletion(waiting, key)
    ensures var asked := Asked(s, key, maxSeconds, sending);
            Loop(OnChange(asked, key, maxSeconds), NewWaiter(asked, key), key, maxSeconds, waiting).1 != Completed
  {
    var asked := Asked(s, key, maxSeconds, sending);
    SetKeepsInv(s, key, ONGOING, maxSeconds);
    RunKeepsInv(Set(s, key, ONGOING, maxSeconds), sending);
    IncompleteRun(Set(s, key, ONGOING, maxSeconds), sending, key);
    OnChangeKeepsInv(asked, key, maxSeconds);
    OnChangeOpensWaiter(asked, key, maxSeconds);
    LoopNeedsCompletion(OnChange(asked, key, maxSeconds), NewWaiter(asked, key), key, maxSeconds, waiting);
  }

  lemma IncompleteStep(s: State, step: Step, key: string)
    requires Legal(s, step) && !ReadsComplete(s, key)
    requires !WritesValue(step, key, COMPLETE)
    ensures !ReadsComplete(Apply(s, step), key)
  {
  }

  /** A completion written while the loop waits ends it with success at once. */
  lemma CompletionEndsWait(s: State, w: nat, key: string, maxSeconds: int, expire: int, rest: seq<Step>)
    requires Inv(s) && Open(s, w, key)
    requires LegalLoop(s, w, key, maxSeconds, [SetStep(key, COMPLETE, expire)] + rest)
    ensures Loop(s, w, key, maxSeconds, [SetStep(key, COMPLETE, expire)] + rest).1 == Completed
  {
    StepDecides(s, SetStep(key, COMPLETE, expire), w);
  }

  /** A loop that still waits after some steps goes on with the others. */
  lemma {:induction false} LoopGoesOn(s: State, w: nat, key: string, maxSeconds: int, a: seq<Step>, b: seq<Step>)
    requires Inv(s) && Open(s, w, key) && LegalLoop(s, w, key, maxSeconds, a + b)
    ensures LegalLoop(s, w, key, maxSeconds, a)
    ensures var (mid, report) := Loop(s, w, key, maxSeconds, a);
            report.StillWaiting? ==>
              && Inv(mid) && Open(mid, report.w, key) && LegalLoop(mid, report.w, key, maxSeconds, b)
              && Loop(s, w, key, maxSeconds, a + b) == Loop(mid, report.w, key, maxSeconds, b)
    decreases |a|
  {
    if a == [] {
      assert a + b == b;
    } else {
      assert (a + b)[1..] == a[1..] + b;
      var next := Apply(s, a[0]);
      StepDecides(s, a[0], w);
      StepKeepsInv(s, a[0]);
      if Answer(next, w).None? {
        LoopGoesOn(next, w, key, maxSeconds, a[1..], b);
      } else if Again(next, w) {
        OnChangeKeepsInv(next, key, maxSeconds);
        OnChangeOpensWaiter(next, key, maxSeconds);
        LoopGoesOn(OnChange(next, key, maxSeconds), NewWaiter(next, key), key, maxSeconds, a[1..], b);
      }
    }
  }

  /** Completion is on record, and no timer will take it away. */
  ghost predicate CompletionLasts(s: State, key: string) {
    ReadsComplete(s, key) && (key in s.timeouts ==> s.timeouts[key] !in s.timers)
  }

  lemma PartsLeaveAlone(steps: seq<Step>, key: string)
    requires steps != [] && LeavesAlone(steps, key)
    ensures LeavesAlone([steps[0]], key) && LeavesAlone(steps[1..], key)
    ensures forall s: State :: Written(s, steps[0], key).None?
  {
    assert forall step :: step in [steps[0]] || step in steps[1..] ==> step in steps;
    assert steps[0] in steps;
  }

  lemma WrittenCompletionLasts(s: State, key: string)
    requires Inv(s)
    ensures CompletionLasts(Set(s, key, COMPLETE, 0), key)
  {
  }

  lemma StepKeepsCompletion(s: State, step: Step, key: string)
    requires Inv(s) && Legal(s, step) && CompletionLasts(s, key) && LeavesAlone([step], key)
    ensures CompletionLasts(Apply(s, step), key)
  {
    assert step in [step];
  }

  lemma {:induction false} RunKeepsCompletion(s: State, steps: seq<Step>, key: string)
    requires Inv(s) && LegalRun(s, steps) && CompletionLasts(s, key) && LeavesAlone(steps, key)
    ensures CompletionLasts(Run(s, steps), key)
    decreases |steps|
  {
    if steps != [] {
      PartsLeaveAlone(steps, key);
      StepKeepsCompletion(s, steps[0], key);
      StepKeepsInv(s, steps[0]);
      RunKeepsCompletion(Apply(s, steps[0]), steps[1..], key);
    }
  }

  /** With completion on record, the loop cannot fail, and waits no longer than for its own timer. */
  lemma {:induction false} LoopFindsCompletion(s: State, w: nat, key: string, maxSeconds: int, steps: seq<Step>)
    requires Inv(s) && Open(s, w, key) && CompletionLasts(s, key)
    requires LegalLoop(s, w, key, maxSeconds, steps) && LeavesAlone(steps, key)
    ensures var (end, report) := Loop(s, w, key, maxSeconds, steps);
            report == Completed || (report == StillWaiting(w) && end.now <= s.timers[w].due)
    decreases |steps|
  {
    if steps != [] {
      var next := Apply(s, steps[0]);
      PartsLeaveAlone(steps, key);
      StepDecides(s, steps[0], w);
      StepKeepsInv(s, steps[0]);
      StepKeepsCompletion(s, steps[0], key);
      if steps[0] != FireStep(w) {
        StepKeepsWakeTimer(s, steps[0], w);
        LoopFindsCompletion(next, w, key, maxSeconds, steps[1..]);
      }
    }
  }

  /** Once completion is written, at any time and with nothing written or removed later, the loop ends with success
      within the caching time of its last subscription: `sending` is what happens before the loop subscribes,
      `waiting` afterwards. Completion may come before the subscription, ... */
  lemma EarlyCompletionSucceeds(s: State, key: string, maxSeconds: int, sending: seq<Step>, waiting: seq<Step>)
    requires Inv(s) && LegalRun(Set(s, key, COMPLETE, 0), sending)
    requires LeavesAlone(sending, key) && LeavesAlone(waiting, key)
    requires var asked := Run(Set(s, key, COMPLETE, 0), sending);
             LegalLoop(OnChange(asked, key, maxSeconds), NewWaiter(asked, key), key, maxSeconds, waiting)
    ensures var asked := Run(Set(s, key, COMPLETE, 0), sending);
            var (end, report) := Loop(OnChange(asked, key, maxSeconds), NewWaiter(asked, key), key, maxSeconds,
                                      waiting);
            && (report == Completed || report == StillWaiting(NewWaiter(asked, key)))
            && (end.now > asked.now + DelayMs(maxSeconds) ==> report == Completed)
  {
    var written := Set(s, key, COMPLETE, 0);
    var asked := Run(written, sending);
    SetKeepsInv(s, key, COMPLETE, 0);
    WrittenCompletionLasts(s, key);
    RunKeepsInv(written, sending);
    RunKeepsCompletion(written, sending, key);
    OnChangeKeepsInv(asked, key, maxSeconds);
    OnChangeOpensWaiter(asked, key, maxSeconds);
    assert LeavesAlone([OnChangeStep(key, maxSeconds)], key);
    StepKeepsCompletion(asked, OnChangeStep(key, maxSeconds), key);
    LoopFindsCompletion(OnChange(asked, key, maxSeconds), NewWaiter(asked, key), key, maxSeconds, waiting);
  }

  /** ... or while the loop is waiting, after any progress: then it ends the loop at once. */
  lemma CompletionSucceeds(s: State, key: string, maxSeconds: int, before: seq<Step>, expire: int, after: seq<Step>)
    requires Inv(s)
    requires LegalLoop(OnChange(s, key, maxSeconds), NewWaiter(s, key), key, maxSeconds,
                       before + ([SetStep(key, COMPLETE, expire)] + after))
    ensures var asked, w := OnChange(s, key, maxSeconds), NewWaiter(s, key);
            && LegalLoop(asked, w, key, maxSeconds, before)
            && (Loop(asked, w, key, maxSeconds, before).1.StillWaiting? ==>
                  Loop(asked, w, key, maxSeconds, before + ([SetStep(key, COMPLETE, expire)] + after)).1 == Completed)
  {
    var asked, w := OnChange(s, key, maxSeconds), NewWaiter(s, key);
    var rest := [SetStep(key, COMPLETE, expire)] + after;
    OnChangeKeepsInv(s, key, maxSeconds);
    OnChangeOpensWaiter(s, key, maxSeconds);
    LoopGoesOn(asked, w, key, maxSeconds, before, rest);
    var (mid, report) := Loop(asked, w, key, maxSeconds, before);
    if report.StillWaiting? {
      CompletionEndsWait(mid, report.w, key, maxSeconds, expire, after);
    }
  }
}
