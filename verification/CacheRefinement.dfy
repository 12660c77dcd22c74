/** The cache answers like a plain map from keys to a value and an optional deadline. */
module CacheRefinement {
  import opened Options
  import opened CacheModel
  import opened CacheInvariants

  datatype Entry = Entry(value: string, deadline: Option<int>)

  /** The plain map knows nothing of timers: a write replaces an entry, a removal deletes it,
      and the passing of time changes no entry. */
  type Ledger = map<string, Entry>

  function Deadline(now: int, expireSeconds: int): Option<int> {
    if expireSeconds == 0 then None else Some(now + DelayMs(expireSeconds))
  }

  /** `taken` tells whether a conditional write finds its key present. */
  function Record(ledger: Ledger, now: int, taken: bool, step: Step): Ledger {
    match step
    case SetStep(key, value, expire) => ledger[key := Entry(value, Deadline(now, expire))]
    case SetIfNotExistStep(key, value, expire) =>
      if taken then ledger else ledger[key := Entry(value, Deadline(now, expire))]
    case RemoveStep(key) => ledger - {key}
    case _ => ledger
  }

  predicate Taken(s: State, step: Step) {
    step.SetIfNotExistStep? && Exists(s, step.key)
  }

  function RecordRun(s: State, ledger: Ledger, steps: seq<Step>): Ledger
    requires LegalRun(s, steps)
    decreases |steps|
  {
    if steps == [] then ledger
    else RecordRun(Apply(s, steps[0]), Record(ledger, s.now, Taken(s, steps[0]), steps[0]), steps[1..])
  }

  predicate Before(now: int, entry: Entry) {
    entry.deadline.Some? ==> now < entry.deadline.value
  }

  predicate After(now: int, entry: Entry) {
    entry.deadline.Some? && entry.deadline.value < now
  }

  /** What `exists` and `get` answer: before its deadline an entry is there, after it the entry is gone,
      and nothing is there that the ledger does not hold. At the very instant of the deadline the answer
      depends on whether the expiry timer has fired yet. */
  ghost predicate Answers(s: State, ledger: Ledger) {
    forall key ::
      && (key !in ledger ==> !Exists(s, key) && Get(s, key) == None)
      && (key in ledger && After(s.now, ledger[key]) ==> !Exists(s, key) && Get(s, key) == None)
      && (key in ledger && Before(s.now, ledger[key]) ==>
            Exists(s, key) && Get(s, key) == (if ledger[key].value == "" then None else Some(ledger[key].value)))
      && (Exists(s, key) ==> key in ledger && s.cache[key] == ledger[key].value)
  }

  /** Every armed expiry timer agrees with the ledger, a timer left behind by `remove` included:
      it speaks of a key that the ledger does not hold. */
  ghost predicate TimersMatch(timers: map<nat, Timer>, ledger: Ledger) {
    forall t :: t in timers && timers[t].task.Expire? && timers[t].task.key in ledger ==>
      ledger[timers[t].task.key].deadline == Some(timers[t].due)
  }

  ghost predicate EntriesMatch(cache: map<string, string>, timers: map<nat, Timer>, timeouts: map<string, nat>,
                               now: int, ledger: Ledger) {
    && (forall k :: k in cache ==> k in ledger && ledger[k].value == cache[k])
    && (forall k :: k in cache && ledger[k].deadline.Some? ==>
          k in timeouts && timeouts[k] in timers && timers[timeouts[k]].due == ledger[k].deadline.value)
    && (forall k :: k in ledger && k !in cache ==> ledger[k].deadline.Some? && ledger[k].deadline.value <= now)
  }

  ghost predicate Matches(s: State, ledger: Ledger) {
    TimersMatch(s.timers, ledger) && EntriesMatch(s.cache, s.timers, s.timeouts, s.now, ledger)
  }

  // One step.

  /** Clearing the timer of a key concerns no other key. */
  lemma ClearedMatches(s: State, ledger: Ledger, key: string)
    requires Inv(s) && Matches(s, ledger)
    ensures TimersMatch(Cleared(s, key), ledger)
    ensures EntriesMatch(s.cache - {key}, Cleared(s, key), s.timeouts, s.now, ledger - {key})
    ensures forall t :: t in Cleared(s, key) ==> Cleared(s, key)[t].task != Expire(key)
  {
  }

  lemma LastingWriteMatches(timers: map<nat, Timer>, timeouts: map<string, nat>, cache: map<string, string>, now: int,
                            ledger: Ledger, key: string, value: string)
    requires TimersMatch(timers, ledger) && EntriesMatch(cache - {key}, timers, timeouts, now, ledger - {key})
    requires forall t :: t in timers ==> timers[t].task != Expire(key)
    ensures TimersMatch(timers, ledger[key := Entry(value, None)])
    ensures EntriesMatch(cache[key := value], timers, timeouts, now, ledger[key := Entry(value, None)])
  {
    var cache', ledger' := cache - {key}, ledger - {key};
    assert cache[key := value] == cache'[key := value];
    assert ledger[key := Entry(value, None)] == ledger'[key := Entry(value, None)];
  }

  lemma ExpiringWriteMatches(timers: map<nat, Timer>, timeouts: map<string, nat>, cache: map<string, string>, now: int,
                             ledger: Ledger, key: string, value: string, id: nat, timer: Timer)
    requires timer.task == Expire(key)
    requires forall k :: k in timeouts ==> timeouts[k] < id
    requires TimersMatch(timers, ledger) && EntriesMatch(cache - {key}, timers, timeouts, now, ledger - {key})
    requires forall t :: t in timers ==> timers[t].task != Expire(key)
    ensures TimersMatch(timers[id := timer], ledger[key := Entry(value, Some(timer.due))])
    ensures EntriesMatch(cache[key := value], timers[id := timer], timeouts[key := id], now,
                         ledger[key := Entry(value, Some(timer.due))])
  {
    var cache', ledger' := cache - {key}, ledger - {key};
    assert EntriesMatch(cache', timers[id := timer], timeouts[key := id], now, ledger');
    assert cache[key := value] == cache'[key := value];
    assert ledger[key := Entry(value, Some(timer.due))] == ledger'[key := Entry(value, Some(timer.due))];
  }

  lemma SetMatches(s: State, ledger: Ledger, key: string, value: string, expire: int)
    requires Inv(s) && Matches(s, ledger)
    ensures Matches(Set(s, key, value, expire), ledger[key := Entry(value, Deadline(s.now, expire))])
  {
    ClearedMatches(s, ledger, key);
    var cleared := Cleared(s, key);
    if expire == 0 {
      LastingWriteMatches(cleared, s.timeouts, s.cache, s.now, ledger, key, value);
    } else {
      ExpiringWriteMatches(cleared, s.timeouts, s.cache, s.now, ledger, key, value, s.nextId,
                           ExpiryTimer(s, key, expire));
    }
  }

  lemma RemoveMatches(s: State, ledger: Ledger, key: string)
    requires Inv(s) && Matches(s, ledger)
    ensures Matches(Remove(s, key), ledger - {key})
  {
  }

  lemma OnChangeMatches(s: State, ledger: Ledger, key: string, wait: int)
    requires Inv(s) && Matches(s, ledger)
    ensures Matches(OnChange(s, key, wait), ledger)
  {
    var timers := OnChange(s, key, wait).timers;
    assert EntriesMatch(s.cache, timers, s.timeouts, s.now, ledger);
  }

  /** An expiry timer that fires speaks of the entry now in the ledger, or of none. */
  lemma FireMatches(s: State, ledger: Ledger, t: nat)
    requires Inv(s) && Matches(s, ledger) && CanFire(s, t)
    ensures Matches(Fire(s, t), ledger)
  {
    var r := Fire(s, t);
    assert r.timers == s.timers - {t};
    match s.timers[t].task
    case Expire(key) => assert r.cache == s.cache - {key};
    case Wake =>
  }

  lemma StepMatches(s: State, ledger: Ledger, step: Step)
    requires Inv(s) && Matches(s, ledger) && Legal(s, step)
    ensures Matches(Apply(s, step), Record(ledger, s.now, Taken(s, step), step))
  {
    match step
    case SetStep(key, value, expire) => SetMatches(s, ledger, key, value, expire);
    case SetIfNotExistStep(key, value, expire) => SetMatches(s, ledger, key, value, expire);
    case RemoveStep(key) => RemoveMatches(s, ledger, key);
    case OnChangeStep(key, wait) => OnChangeMatches(s, ledger, key, wait);
    case FireStep(t) => FireMatches(s, ledger, t);
    case AdvanceStep(_) =>
  }

  // Whole runs.

  lemma {:induction false} RunMatches(s: State, ledger: Ledger, steps: seq<Step>)
    requires Inv(s) && Matches(s, ledger) && LegalRun(s, steps)
    ensures Matches(Run(s, steps), RecordRun(s, ledger, steps))
    decreases |steps|
  {
    if steps != [] {
      StepMatches(s, ledger, steps[0]);
      StepKeepsInv(s, steps[0]);
      RunMatches(Apply(s, steps[0]), Record(ledger, s.now, Taken(s, steps[0]), steps[0]), steps[1..]);
    }
  }

  lemma MatchingStateAnswers(s: State, ledger: Ledger)
    requires Inv(s) && Matches(s, ledger)
    ensures Answers(s, ledger)
  {
  }

  /** Over every run from the empty cache, `exists` and `get` answer like the plain map. */
  lemma CacheRefinesLedger(steps: seq<Step>)
    requires LegalRun(EMPTY, steps)
    ensures Answers(Run(EMPTY, steps), RecordRun(EMPTY, map[], steps))
  {
    RunMatches(EMPTY, map[], steps);
    RunKeepsInv(EMPTY, steps);
    MatchingStateAnswers(Run(EMPTY, steps), RecordRun(EMPTY, map[], steps));
  }

  /** `setIfNotExist` is a lock: when it succeeds on a key that the ledger still holds,
      the holder's expiry has passed; a holder without expiry is never displaced. */
  lemma LockIsExclusive(steps: seq<Step>, key: string)
    requires LegalRun(EMPTY, steps)
    requires !Exists(Run(EMPTY, steps), key) && key in RecordRun(EMPTY, map[], steps)
    ensures var entry := RecordRun(EMPTY, map[], steps)[key];
            entry.deadline.Some? && entry.deadline.value <= Run(EMPTY, steps).now
  {
    RunMatches(EMPTY, map[], steps);
  }

  // How long an entry lives.

  lemma {:induction false} LedgerIsLeftAlone(s: State, ledger: Ledger, steps: seq<Step>, key: string)
    requires LegalRun(s, steps) && LeavesAlone(steps, key) && key in ledger
    ensures var end := RecordRun(s, ledger, steps);
            key in end && end[key] == ledger[key]
    decreases |steps|
  {
    if steps != [] {
      assert steps[0] in steps;
      assert forall step :: step in steps[1..] ==> step in steps;
      LedgerIsLeftAlone(Apply(s, steps[0]), Record(ledger, s.now, Taken(s, steps[0]), steps[0]), steps[1..], key);
    }
  }

  /** An entry written with an expiry of whole seconds that a timer can hold, and then left alone, is there for exactly
      that time, to the millisecond; without expiry it stays; with one that no timer can hold it is gone after a
      millisecond. */
  lemma EntryLivesItsTime(before: seq<Step>, key: string, value: string, expire: int, after: seq<Step>)
    requires LegalRun(EMPTY, before)
    requires LegalRun(Set(Run(EMPTY, before), key, value, expire), after) && LeavesAlone(after, key)
    ensures var written, end := Run(EMPTY, before).now, Run(Set(Run(EMPTY, before), key, value, expire), after);
            && (Exists(end, key) ==> end.cache[key] == value)
            && (1 <= expire <= 2147483 ==>
                  && (end.now < written + 1000 * expire ==> Exists(end, key))
                  && (end.now > written + 1000 * expire ==> !Exists(end, key)))
            && (expire == 0 ==> Exists(end, key))
            && (expire < 0 || expire > 2147483 ==> end.now > written + 1 ==> !Exists(end, key))
  {
    var s, ledger := Run(EMPTY, before), RecordRun(EMPTY, map[], before);
    var t, recorded := Set(s, key, value, expire), ledger[key := Entry(value, Deadline(s.now, expire))];
    RunKeepsInv(EMPTY, before);
    RunMatches(EMPTY, map[], before);
    SetKeepsInv(s, key, value, expire);
    SetMatches(s, ledger, key, value, expire);
    RunKeepsInv(t, after);
    RunMatches(t, recorded, after);
    LedgerIsLeftAlone(t, recorded, after, key);
    MatchingStateAnswers(Run(t, after), RecordRun(t, recorded, after));
  }
}
