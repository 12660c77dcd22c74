/** The model never gets stuck: whatever has happened, timers can fire until any later time is reached. What the other
    modules say of times to come is therefore never said of nothing. */
module CacheProgress {
  import opened Options
  import opened CacheModel
  import opened CacheInvariants
  import opened CacheWaiters

  /** Of two timers with the same delay, the one armed first is due first. */
  ghost predicate TimersInOrder(timers: map<nat, Timer>) {
    forall t, u :: t in timers && u in timers && t < u && timers[t].delay == timers[u].delay ==>
      timers[t].due <= timers[u].due
  }

  lemma ArmKeepsOrder(timers: map<nat, Timer>, now: int, id: nat, timer: Timer)
    requires TimersInOrder(timers) && ClockOk(timers, now, id) && timer.due == now + timer.delay
    ensures TimersInOrder(timers[id := timer])
  {
  }

  lemma StepKeepsOrder(s: State, step: Step)
    requires Inv(s) && Legal(s, step) && TimersInOrder(s.timers)
    ensures TimersInOrder(Apply(s, step).timers)
  {
    match step
    case SetStep(key, _, expire) =>
      if expire != 0 {
        ArmKeepsOrder(Cleared(s, key), s.now, s.nextId, ExpiryTimer(s, key, expire));
      }
    case SetIfNotExistStep(key, _, expire) =>
      if expire != 0 && !Exists(s, key) {
        ArmKeepsOrder(Cleared(s, key), s.now, s.nextId, ExpiryTimer(s, key, expire));
      }
    case OnChangeStep(key, wait) =>
      ArmKeepsOrder(s.timers, s.now, NewWaiter(s, key), OnChange(s, key, wait).timers[NewWaiter(s, key)]);
    case _ =>
  }

  lemma {:induction false} RunKeepsOrder(s: State, steps: seq<Step>)
    requires Inv(s) && LegalRun(s, steps) && TimersInOrder(s.timers)
    ensures TimersInOrder(Run(s, steps).timers)
    decreases |steps|
  {
    if steps != [] {
      StepKeepsOrder(s, steps[0]);
      StepKeepsInv(s, steps[0]);
      RunKeepsOrder(Apply(s, steps[0]), steps[1..]);
    }
  }

  predicate FiresBefore(timers: map<nat, Timer>, t: nat, u: nat)
    requires t in timers && u in timers
  {
    timers[t].due < timers[u].due || (timers[t].due == timers[u].due && t <= u)
  }

  lemma {:induction false} FirstOf(timers: map<nat, Timer>, ids: set<nat>) returns (t: nat)
    requires ids != {} && ids <= timers.Keys
    ensures t in ids && forall u :: u in ids ==> FiresBefore(timers, t, u)
    decreases |ids|
  {
    assert exists id :: id in ids by {
      if forall id :: id !in ids {
        assert false;
      }
    }
    var id :| id in ids;
    var rest := ids - {id};
    t := id;
    if rest != {} {
      var first := FirstOf(timers, rest);
      t := if FiresBefore(timers, id, first) then id else first;
      assert forall u :: u in rest ==> FiresBefore(timers, first, u);
    }
    forall u | u in ids ensures FiresBefore(timers, t, u) {
      assert u == id || u in rest;
    }
  }

  /** Waiting for the next timer that is due, then letting it fire. */
  lemma NextTimerFires(s: State, t: nat) returns (due: State, fired: State)
    requires Inv(s) && TimersInOrder(s.timers) && t in s.timers
    requires forall u :: u in s.timers ==> FiresBefore(s.timers, t, u)
    ensures Legal(s, AdvanceStep(s.timers[t].due - s.now)) && due == Apply(s, AdvanceStep(s.timers[t].due - s.now))
    ensures Legal(due, FireStep(t)) && fired == Apply(due, FireStep(t))
    ensures Inv(fired) && TimersInOrder(fired.timers)
    ensures fired.timers == s.timers - {t} && fired.now == s.timers[t].due
  {
    var wait := AdvanceStep(s.timers[t].due - s.now);
    StepKeepsInv(s, wait);
    due := Apply(s, wait);
    forall u | u in due.timers && u < t ensures due.timers[u].delay != due.timers[t].delay {
      assert FiresBefore(s.timers, t, u);
    }
    StepKeepsInv(due, FireStep(t));
    StepKeepsOrder(due, FireStep(t));
    fired := Apply(due, FireStep(t));
  }

  lemma JustWait(s: State, time: int) returns (steps: seq<Step>)
    requires s.now <= time && forall t :: t in s.timers ==> time <= s.timers[t].due
    ensures steps == [AdvanceStep(time - s.now)] && LegalRun(s, steps) && Run(s, steps).now == time
  {
    steps := [AdvanceStep(time - s.now)];
    assert steps[1..] == [];
  }

  lemma RunOfTwoFirst(s: State, a: Step, b: Step, rest: seq<Step>)
    requires Legal(s, a) && Legal(Apply(s, a), b) && LegalRun(Apply(Apply(s, a), b), rest)
    ensures LegalRun(s, [a, b] + rest) && Run(s, [a, b] + rest) == Run(Apply(Apply(s, a), b), rest)
  {
    assert ([a, b] + rest)[1..] == [b] + rest && ([b] + rest)[1..] == rest;
    assert LegalRun(Apply(s, a), [b] + rest);
  }

  /** The event loop alone gets to any later time. */
  lemma {:induction false} LoopReaches(s: State, time: int) returns (steps: seq<Step>)
    requires Inv(s) && TimersInOrder(s.timers) && s.now <= time
    ensures LegalRun(s, steps) && Run(s, steps).now == time
    ensures forall step :: step in steps ==> step.FireStep? || step.AdvanceStep?
    decreases |s.timers|
  {
    var t := 0;
    if s.timers != map[] {
      t := FirstOf(s.timers, s.timers.Keys);
    }
    if t in s.timers && s.timers[t].due < time {
      var due, fired := NextTimerFires(s, t);
      var rest := LoopReaches(fired, time);
      var wait := AdvanceStep(s.timers[t].due - s.now);
      RunOfTwoFirst(s, wait, FireStep(t), rest);
      steps := [wait, FireStep(t)] + rest;
    } else {
      steps := JustWait(s, time);
    }
  }

  /** After any run there are further steps of the event loop, and no others, that lead to any time not yet past. */
  lemma TimeAlwaysPasses(before: seq<Step>, time: int)
    requires LegalRun(EMPTY, before) && Run(EMPTY, before).now <= time
    ensures exists after: seq<Step> ::
              && (forall step: Step :: step in after ==> step.FireStep? || step.AdvanceStep?)
              && LegalRun(EMPTY, before + after) && Run(EMPTY, before + after).now == time
  {
    RunKeepsInv(EMPTY, before);
    RunKeepsOrder(EMPTY, before);
    var after := LoopReaches(Run(EMPTY, before), time);
    RunOfConcatenation(EMPTY, before, after);
  }
}
