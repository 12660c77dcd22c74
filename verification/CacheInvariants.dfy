/** The invariant of the cache holds over every run. */
module CacheInvariants {
  import opened Options
  import opened CacheModel

  // Effects on the maps that the parts of the invariant speak about.

  lemma DisarmKeepsExpiries(timers: map<nat, Timer>, timeouts: map<string, nat>, nextId: nat, t: nat)
    requires ExpiriesOk(timers, timeouts, nextId)
    ensures ExpiriesOk(timers - {t}, timeouts, nextId)
  {
  }

  lemma ArmKeepsExpiries(timers: map<nat, Timer>, timeouts: map<string, nat>, id: nat, key: string, timer: Timer)
    requires ClockOk(timers, timer.due - timer.delay, id) && ExpiriesOk(timers, timeouts, id)
    requires timer.task == Expire(key)
    requires key in timeouts ==> timeouts[key] !in timers
    ensures ExpiriesOk(timers[id := timer], timeouts[key := id], id + 1)
  {
  }

  lemma WakeTimerKeepsExpiries(timers: map<nat, Timer>, timeouts: map<string, nat>, nextId: nat, w: nat, timer: Timer)
    requires ExpiriesOk(timers, timeouts, nextId) && nextId <= w && timer.task == Wake
    ensures ExpiriesOk(timers[w := timer], timeouts, w + 1)
  {
  }

  lemma DisarmKeepsWaiters(waiters: map<nat, Waiter>, timers: map<nat, Timer>, promises: map<string, nat>,
                           nextId: nat, t: nat)
    requires WaitersOk(waiters, timers, promises, nextId)
    requires t in waiters && t in timers && timers[t].task == Wake ==> waiters[t].outcome.Some?
    ensures WaitersOk(waiters, timers - {t}, promises, nextId)
  {
  }

  lemma ArmKeepsWaiters(waiters: map<nat, Waiter>, timers: map<nat, Timer>, promises: map<string, nat>,
                        nextId: nat, timer: Timer)
    requires WaitersOk(waiters, timers, promises, nextId)
    ensures WaitersOk(waiters, timers[nextId := timer], promises, nextId + 1)
  {
  }

  lemma NotifyKeepsWaiters(waiters: map<nat, Waiter>, timers: map<nat, Timer>, promises: map<string, nat>,
                           settled: map<nat, string>, nextId: nat, key: string, value: string)
    requires SubscriptionsOk(promises, promises, settled, nextId) && WaitersOk(waiters, timers, promises, nextId)
    requires key in promises
    ensures WaitersOk(Notify(waiters, promises[key], value), timers, promises - {key}, nextId)
  {
    var r := Notify(waiters, promises[key], value);
    forall w | w in r && r[w].outcome.None?
      ensures r[w] == waiters[w] && waiters[w].key != key
    {
    }
  }

  lemma UnsubscribeKeepsSubscriptions(promises: map<string, nat>, settled: map<nat, string>, nextId: nat,
                                      key: string, value: string)
    requires SubscriptionsOk(promises, promises, settled, nextId) && key in promises
    ensures SubscriptionsOk(promises - {key}, promises - {key}, settled[promises[key] := value], nextId)
  {
  }

  lemma SubscribeKeepsSubscriptions(promises: map<string, nat>, settled: map<nat, string>, nextId: nat, key: string)
    requires SubscriptionsOk(promises, promises, settled, nextId)
    ensures key !in promises ==>
      SubscriptionsOk(promises[key := nextId], promises[key := nextId], settled, nextId + 2)
    ensures key in promises ==> promises[key := promises[key]] == promises
    ensures SubscriptionsOk(promises, promises, settled, nextId + 1)
  {
  }

  // The operations.

  lemma SetKeepsTimers(s: State, key: string, value: string, expire: int)
    requires Inv(s)
    ensures var r := Set(s, key, value, expire);
            && ClockOk(r.timers, r.now, r.nextId)
            && ExpiriesOk(r.timers, r.timeouts, r.nextId)
            && WaitersOk(s.waiters, r.timers, s.promises, r.nextId)
  {
    if key in s.timeouts {
      DisarmKeepsExpiries(s.timers, s.timeouts, s.nextId, s.timeouts[key]);
      DisarmKeepsWaiters(s.waiters, s.timers, s.promises, s.nextId, s.timeouts[key]);
    }
    if expire != 0 {
      ArmKeepsExpiries(Cleared(s, key), s.timeouts, s.nextId, key, ExpiryTimer(s, key, expire));
      ArmKeepsWaiters(s.waiters, Cleared(s, key), s.promises, s.nextId, ExpiryTimer(s, key, expire));
    }
  }

  lemma SetKeepsInv(s: State, key: string, value: string, expire: int)
    requires Inv(s)
    ensures Inv(Set(s, key, value, expire))
  {
    var r := Set(s, key, value, expire);
    SetKeepsTimers(s, key, value, expire);
    assert SubscriptionsOk(s.promises, s.promises, s.settled, r.nextId);
    if key in s.resolvers {
      UnsubscribeKeepsSubscriptions(s.promises, s.settled, r.nextId, key, value);
      NotifyKeepsWaiters(s.waiters, r.timers, s.promises, s.settled, r.nextId, key, value);
    } else {
      assert r.resolvers == s.resolvers;
    }
  }

  lemma SubscribeKeepsWaiters(waiters: map<nat, Waiter>, timers: map<nat, Timer>, promises: map<string, nat>,
                              nextId: nat, key: string, p: nat, w: nat, timer: Timer)
    requires WaitersOk(waiters, timers, promises, nextId) && timer.task == Wake
    requires if key in promises then p == promises[key] && w == nextId else p == nextId && w == nextId + 1
    requires forall k :: k in promises ==> promises[k] < nextId
    ensures WaitersOk(waiters[w := Waiter(key, p, None)], timers[w := timer], promises[key := p], w + 1)
  {
  }

  lemma OnChangeKeepsInv(s: State, key: string, wait: int)
    requires Inv(s)
    ensures Inv(OnChange(s, key, wait))
  {
    var r := OnChange(s, key, wait);
    var w := NewWaiter(s, key);
    WakeTimerKeepsExpiries(s.timers, s.timeouts, s.nextId, w, r.timers[w]);
    SubscribeKeepsSubscriptions(s.promises, s.settled, s.nextId, key);
    SubscribeKeepsWaiters(s.waiters, s.timers, s.promises, s.nextId, key, SharedPromise(s, key), w, r.timers[w]);
    assert r.resolvers == r.promises;
  }

  lemma FireKeepsInv(s: State, t: nat)
    requires Inv(s) && t in s.timers
    ensures Inv(Fire(s, t))
  {
    DisarmKeepsExpiries(s.timers, s.timeouts, s.nextId, t);
    if s.timers[t].task.Wake? {
      assert WaitersOk(TimedOut(s, t), s.timers, s.promises, s.nextId);
      DisarmKeepsWaiters(TimedOut(s, t), s.timers, s.promises, s.nextId, t);
    } else {
      DisarmKeepsWaiters(s.waiters, s.timers, s.promises, s.nextId, t);
    }
  }

  // Runs.

  lemma StepKeepsInv(s: State, step: Step)
    requires Inv(s) && Legal(s, step)
    ensures Inv(Apply(s, step))
  {
    match step
    case SetStep(key, value, expire) => SetKeepsInv(s, key, value, expire);
    case SetIfNotExistStep(key, value, expire) => SetKeepsInv(s, key, value, expire);
    case OnChangeStep(key, wait) => OnChangeKeepsInv(s, key, wait);
    case FireStep(t) => FireKeepsInv(s, t);
    case RemoveStep(_) =>
    case AdvanceStep(_) =>
  }

  lemma {:induction false} RunKeepsInv(s: State, steps: seq<Step>)
    requires Inv(s) && LegalRun(s, steps)
    ensures Inv(Run(s, steps))
    decreases |steps|
  {
    if steps != [] {
      StepKeepsInv(s, steps[0]);
      RunKeepsInv(Apply(s, steps[0]), steps[1..]);
    }
  }
}
