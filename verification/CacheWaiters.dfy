/** What an `onChange` call returns: the first value written to its key afterwards,
    or the value found when its own patience ends, whichever comes first. */
module CacheWaiters {
  import opened Options
  import opened CacheModel
  import opened CacheInvariants
  import opened CacheRefinement

  /** The outcome of waiter `w` on `key`, read off the steps that follow the call:
      nothing is said of promises, subscriptions or timers other than the waiter's own. */
  function Expected(s: State, steps: seq<Step>, w: nat, key: string): Option<Option<string>>
    requires LegalRun(s, steps)
    decreases |steps|
  {
    if steps == [] then None
    else if Written(s, steps[0], key).Some? then Some(Written(s, steps[0], key))
    else if steps[0] == FireStep(w) then Some(Get(s, key))
    else Expected(Apply(s, steps[0]), steps[1..], w, key)
  }

  predicate Open(s: State, w: nat, key: string) {
    w in s.waiters && s.waiters[w].key == key && s.waiters[w].outcome.None?
  }

  /** A fresh waiter is open and its timer runs for the time asked for. */
  lemma OnChangeOpensWaiter(s: State, key: string, wait: int)
    requires Inv(s)
    ensures var w, r := NewWaiter(s, key), OnChange(s, key, wait);
            && w !in s.waiters
            && Open(r, w, key)
            && w in r.timers && r.timers[w] == Timer(s.now + DelayMs(wait), DelayMs(wait), Wake)
  {
  }

  /** A write ends exactly the open races on its key, all of them with the value written. */
  lemma WriteWakesEveryWaiter(s: State, key: string, value: string, expire: int, w: nat)
    requires Inv(s) && w in s.waiters
    ensures var r := Set(s, key, value, expire);
            && w in r.waiters
            && r.waiters[w] == if Open(s, w, key) then s.waiters[w].(outcome := Some(Some(value))) else s.waiters[w]
  {
  }

  lemma StepDecides(s: State, step: Step, w: nat)
    requires Inv(s) && Legal(s, step) && w in s.waiters
    ensures var key, r := s.waiters[w].key, Apply(s, step);
            && w in r.waiters && r.waiters[w].key == key
            && r.waiters[w].outcome ==
               if s.waiters[w].outcome.Some? then s.waiters[w].outcome
               else if Written(s, step, key).Some? then Some(Written(s, step, key))
               else if step == FireStep(w) then Some(Get(s, key))
               else None
  {
    match step
    case SetStep(key, value, expire) => WriteWakesEveryWaiter(s, key, value, expire, w);
    case SetIfNotExistStep(key, value, expire) => WriteWakesEveryWaiter(s, key, value, expire, w);
    case FireStep(t) =>
    case _ =>
  }

  lemma {:induction false} SettledStaysSettled(s: State, steps: seq<Step>, w: nat)
    requires Inv(s) && LegalRun(s, steps) && w in s.waiters && s.waiters[w].outcome.Some?
    ensures w in Run(s, steps).waiters && Run(s, steps).waiters[w].outcome == s.waiters[w].outcome
    decreases |steps|
  {
    if steps != [] {
      StepDecides(s, steps[0], w);
      StepKeepsInv(s, steps[0]);
      SettledStaysSettled(Apply(s, steps[0]), steps[1..], w);
    }
  }

  /** Every waiter gets its expected outcome, over every run. */
  lemma {:induction false} WaiterGetsExpected(s: State, steps: seq<Step>, w: nat, key: string)
    requires Inv(s) && LegalRun(s, steps) && Open(s, w, key)
    ensures w in Run(s, steps).waiters && Run(s, steps).waiters[w].outcome == Expected(s, steps, w, key)
    decreases |steps|
  {
    if steps != [] {
      StepDecides(s, steps[0], w);
      StepKeepsInv(s, steps[0]);
      if Open(Apply(s, steps[0]), w, key) {
        WaiterGetsExpected(Apply(s, steps[0]), steps[1..], w, key);
      } else {
        SettledStaysSettled(Apply(s, steps[0]), steps[1..], w);
      }
    }
  }

  /** All callers waiting on a key at the moment of a write get the same value. */
  lemma WaitersOfOneKeyAgree(s: State, step: Step, rest: seq<Step>, v: nat, w: nat, key: string)
    requires Inv(s) && LegalRun(s, [step] + rest)
    requires Open(s, v, key) && Open(s, w, key) && Written(s, step, key).Some?
    ensures var r := Run(s, [step] + rest);
            && v in r.waiters && w in r.waiters
            && r.waiters[v].outcome == r.waiters[w].outcome == Some(Written(s, step, key))
  {
    WaiterGetsExpected(s, [step] + rest, v, key);
    WaiterGetsExpected(s, [step] + rest, w, key);
  }

  /** While waiter `w` waits, `value` is what the first write to `key` writes, or it is the live entry of `key` at the
      waiter's own timeout and nothing has been written to `key` before. */
  predicate Current(s: State, ledger: Ledger, steps: seq<Step>, w: nat, key: string, value: string)
    requires LegalRun(s, steps)
    decreases |steps|
  {
    steps != [] &&
    if Written(s, steps[0], key).Some? then Written(s, steps[0], key) == Some(value)
    else if steps[0] == FireStep(w) then key in ledger && ledger[key].value == value && !After(s.now, ledger[key])
    else Current(Apply(s, steps[0]), Record(ledger, s.now, Taken(s, steps[0]), steps[0]), steps[1..], w, key, value)
  }

  /** A value overwritten, removed or expired before the call, or before the deciding step, is never returned. */
  lemma {:induction false} WaiterNeverGetsStaleValue(s: State, ledger: Ledger, steps: seq<Step>, w: nat, key: string)
    requires Inv(s) && Matches(s, ledger) && LegalRun(s, steps)
    ensures Expected(s, steps, w, key).Some? && Expected(s, steps, w, key).value.Some? ==>
              Current(s, ledger, steps, w, key, Expected(s, steps, w, key).value.value)
    decreases |steps|
  {
    if steps != [] {
      MatchingStateAnswers(s, ledger);
      StepMatches(s, ledger, steps[0]);
      StepKeepsInv(s, steps[0]);
      WaiterNeverGetsStaleValue(Apply(s, steps[0]), Record(ledger, s.now, Taken(s, steps[0]), steps[0]), steps[1..],
                                w, key);
    }
  }

  /** No waiter outlives its timer: once the clock has passed it, the race is over. */
  lemma WaiterEndsInTime(s: State, steps: seq<Step>, w: nat, due: int)
    requires Inv(s) && LegalRun(s, steps)
    requires w in s.waiters && w in s.timers && s.timers[w].due == due
    requires Run(s, steps).now > due
    ensures w in Run(s, steps).waiters && Run(s, steps).waiters[w].outcome.Some?
  {
    RunKeepsInv(s, steps);
    OpenKeepsTimer(s, steps, w);
  }

  /** Only the waiter's own firing disarms its timer. */
  lemma StepKeepsWakeTimer(s: State, step: Step, w: nat)
    requires Inv(s) && Legal(s, step) && w in s.waiters && w in s.timers && s.timers[w].task == Wake
    requires step != FireStep(w)
    ensures w in Apply(s, step).timers && Apply(s, step).timers[w] == s.timers[w]
  {
  }

  lemma {:induction false} OpenKeepsTimer(s: State, steps: seq<Step>, w: nat)
    requires Inv(s) && LegalRun(s, steps) && w in s.waiters && w in s.timers
    ensures var r := Run(s, steps);
            && w in r.waiters
            && (r.waiters[w].outcome.None? ==> w in r.timers && r.timers[w] == s.timers[w])
    decreases |steps|
  {
    if steps != [] {
      var next := Apply(s, steps[0]);
      StepKeepsInv(s, steps[0]);
      StepDecides(s, steps[0], w);
      if next.waiters[w].outcome.Some? {
        SettledStaysSettled(next, steps[1..], w);
      } else {
        StepKeepsWakeTimer(s, steps[0], w);
        OpenKeepsTimer(next, steps[1..], w);
      }
    }
  }

  /** The promise map and the resolver map have the same keys at all times, and a key is in them
      exactly while its promise is unresolved: nobody waits on a promise that will never be resolved. */
  lemma SubscriptionsOverEveryRun(steps: seq<Step>, w: nat)
    requires LegalRun(EMPTY, steps)
    ensures var s := Run(EMPTY, steps);
            && s.resolvers.Keys == s.promises.Keys
            && (forall key :: key in s.promises ==>
                s.resolvers[key] == s.promises[key] && s.promises[key] !in s.settled)
            && (w in s.waiters && s.waiters[w].outcome.None? ==>
                  s.waiters[w].key in s.promises && s.promises[s.waiters[w].key] == s.waiters[w].promise)
  {
    RunKeepsInv(EMPTY, steps);
  }

  /** An `onChange` call made anywhere in any run, and all that follows it. */
  lemma OnChangeReturns(before: seq<Step>, key: string, wait: int, after: seq<Step>)
    requires LegalRun(EMPTY, before)
    requires LegalRun(OnChange(Run(EMPTY, before), key, wait), after)
    ensures var called := Run(EMPTY, before);
            var subscribed := OnChange(called, key, wait);
            var w := NewWaiter(called, key);
            var end := Run(subscribed, after);
            && w in end.waiters
            && end.waiters[w].outcome == Expected(subscribed, after, w, key)
            && (end.now > called.now + DelayMs(wait) ==> end.waiters[w].outcome.Some?)
  {
    var called := Run(EMPTY, before);
    RunKeepsInv(EMPTY, before);
    OnChangeKeepsInv(called, key, wait);
    OnChangeOpensWaiter(called, key, wait);
    WaiterGetsExpected(OnChange(called, key, wait), after, NewWaiter(called, key), key);
    if Run(OnChange(called, key, wait), after).now > called.now + DelayMs(wait) {
      WaiterEndsInTime(OnChange(called, key, wait), after, NewWaiter(called, key), called.now + DelayMs(wait));
    }
  }

  // Steps that write nothing to a key leave its waiters alone.

  lemma {:induction false} RunOfConcatenation(s: State, a: seq<Step>, b: seq<Step>)
    ensures LegalRun(s, a + b) <==> LegalRun(s, a) && LegalRun(Run(s, a), b)
    ensures LegalRun(s, a + b) ==> Run(s, a + b) == Run(Run(s, a), b)
    decreases |a|
  {
    if a == [] {
      assert a + b == b;
    } else {
      assert (a + b)[1..] == a[1..] + b;
      if Legal(s, a[0]) {
        RunOfConcatenation(Apply(s, a[0]), a[1..], b);
      }
    }
  }

  lemma StepIsForward(s: State, step: Step)
    requires Legal(s, step)
    ensures s.now <= Apply(s, step).now
  {
  }

  lemma {:induction false} ClockIsMonotone(s: State, steps: seq<Step>)
    requires LegalRun(s, steps)
    ensures s.now <= Run(s, steps).now
    decreases |steps|
  {
    if steps != [] {
      StepIsForward(s, steps[0]);
      ClockIsMonotone(Apply(s, steps[0]), steps[1..]);
    }
  }

  /** The timer of an open waiter fires no earlier than it is due. */
  lemma {:induction false} FiresNoEarlier(s: State, steps: seq<Step>, w: nat, key: string)
    requires Inv(s) && LegalRun(s, steps) && Open(s, w, key)
    requires WritesNot(steps, key) && FireStep(w) in steps
    ensures w in s.timers && s.timers[w].due <= Run(s, steps).now
    decreases |steps|
  {
    if steps[0] == FireStep(w) {
      ClockIsMonotone(s, steps);
    } else {
      StepDecides(s, steps[0], w);
      StepKeepsInv(s, steps[0]);
      StepKeepsWakeTimer(s, steps[0], w);
      FiresNoEarlier(Apply(s, steps[0]), steps[1..], w, key);
    }
  }

  lemma {:induction false} QuietStepsLeaveOpen(s: State, before: seq<Step>, rest: seq<Step>, w: nat, key: string)
    requires Inv(s) && LegalRun(s, before + rest) && Open(s, w, key)
    requires WritesNot(before, key) && FireStep(w) !in before
    ensures LegalRun(s, before) && LegalRun(Run(s, before), rest)
    ensures Open(Run(s, before), w, key)
    ensures Expected(s, before + rest, w, key) == Expected(Run(s, before), rest, w, key)
    decreases |before|
  {
    RunOfConcatenation(s, before, rest);
    if before == [] {
      assert before + rest == rest;
    } else {
      assert (before + rest)[1..] == before[1..] + rest;
      StepDecides(s, before[0], w);
      StepKeepsInv(s, before[0]);
      QuietStepsLeaveOpen(Apply(s, before[0]), before[1..], rest, w, key);
    }
  }

  /** A call with a patience of whole seconds that a timer can hold waits exactly as long, to the millisecond, unless
      its key is written; with one that no timer can hold it waits a millisecond. */
  lemma WaiterWaitsItsTime(before: seq<Step>, key: string, wait: int, after: seq<Step>)
    requires LegalRun(EMPTY, before)
    requires LegalRun(OnChange(Run(EMPTY, before), key, wait), after) && WritesNot(after, key)
    ensures var called := Run(EMPTY, before);
            var w, end := NewWaiter(called, key), Run(OnChange(called, key, wait), after);
            var patience := if 1 <= wait <= 2147483 then 1000 * wait else 1;
            && w in end.waiters
            && (end.now < called.now + patience ==> end.waiters[w].outcome.None?)
            && (end.now > called.now + patience ==> end.waiters[w].outcome.Some?)
  {
    var called := Run(EMPTY, before);
    var w, subscribed := NewWaiter(called, key), OnChange(called, key, wait);
    RunKeepsInv(EMPTY, before);
    OnChangeKeepsInv(called, key, wait);
    OnChangeOpensWaiter(called, key, wait);
    OnChangeReturns(before, key, wait, after);
    if FireStep(w) in after {
      FiresNoEarlier(subscribed, after, w, key);
    } else {
      assert after + [] == after;
      QuietStepsLeaveOpen(subscribed, after, [], w, key);
    }
  }
}
