/** The in-memory cache together with the part of the JavaScript event loop it runs on:
    a clock, the armed timers, the settled promises and the pending races.
    Every operation is a function on `State`; class `MemoryCache` performs them in place. */
module CacheModel {
  import opened Options

  /** Node replaces a delay outside 1..2147483647 milliseconds by 1. */
  const MAX_DELAY := 2147483647

  function DelayMs(seconds: int): (ms: int)
    ensures 1 <= ms <= MAX_DELAY
  {
    if 1 <= seconds * 1000 <= MAX_DELAY then seconds * 1000 else 1
  }

  /** `${namespace || 'default'}:${key}` */
  function NamespaceKey(key: string, namespace: string): string {
    (if namespace == "" then "default" else namespace) + ":" + key
  }

  /** What a timer does when it fires: delete a key, or end a waiter's patience.
      A waiter has the identity of its own timer. */
  datatype Task = Expire(key: string) | Wake

  datatype Timer = Timer(due: int, delay: int, task: Task)

  /** One `onChange` call: a race between the promise shared by all callers on `key`
      and the caller's own timer. `outcome` is what the race resolved to. */
  datatype Waiter = Waiter(key: string, promise: nat, outcome: Option<Option<string>>)

  datatype State = State(
    cache: map<string, string>,
    resolvers: map<string, nat>,
    promises: map<string, nat>,
    timeouts: map<string, nat>,
    now: int,
    nextId: nat,
    timers: map<nat, Timer>,
    settled: map<nat, string>,
    waiters: map<nat, Waiter>)

  const EMPTY := State(map[], map[], map[], map[], 0, 0, map[], map[], map[])

  // The operations of the cache.

  predicate Exists(s: State, key: string) {
    key in s.cache
  }

  /** An empty string is reported as absent. */
  function Get(s: State, key: string): Option<string> {
    if key in s.cache && s.cache[key] != "" then Some(s.cache[key]) else None
  }

  function Remove(s: State, key: string): State {
    s.(cache := s.cache - {key})
  }

  /** The armed timers without the one last armed for `key`. */
  function Cleared(s: State, key: string): map<nat, Timer> {
    if key in s.timeouts then s.timers - {s.timeouts[key]} else s.timers
  }

  function ExpiryTimer(s: State, key: string, expireSeconds: int): Timer {
    Timer(s.now + DelayMs(expireSeconds), DelayMs(expireSeconds), Expire(key))
  }

  /** Every race still open on promise `p` ends with the value. */
  function Notify(waiters: map<nat, Waiter>, p: nat, value: string): map<nat, Waiter> {
    map w | w in waiters ::
      if waiters[w].promise == p && waiters[w].outcome.None? then
        waiters[w].(outcome := Some(Some(value)))
      else
        waiters[w]
  }

  /** Settling a promise a second time has no effect. */
  predicate Settles(s: State, key: string) {
    key in s.resolvers && s.resolvers[key] !in s.settled
  }

  /** `expireSeconds == 0` stands for an absent expiry. */
  function Set(s: State, key: string, value: string, expireSeconds: int): State {
    s.(cache := s.cache[key := value],
       timers := if expireSeconds == 0 then Cleared(s, key)
                 else Cleared(s, key)[s.nextId := ExpiryTimer(s, key, expireSeconds)],
       timeouts := if expireSeconds == 0 then s.timeouts else s.timeouts[key := s.nextId],
       nextId := if expireSeconds == 0 then s.nextId else s.nextId + 1,
       resolvers := s.resolvers - {key},
       promises := if key in s.resolvers then s.promises - {key} else s.promises,
       settled := if Settles(s, key) then s.settled[s.resolvers[key] := value] else s.settled,
       waiters := if Settles(s, key) then Notify(s.waiters, s.resolvers[key], value) else s.waiters)
  }

  function SetIfNotExist(s: State, key: string, value: string, expireSeconds: int): State {
    if Exists(s, key) then s else Set(s, key, value, expireSeconds)
  }

  /** The promise shared by all callers waiting on `key`, created when there is none. */
  function SharedPromise(s: State, key: string): nat {
    if key in s.promises then s.promises[key] else s.nextId
  }

  function NewWaiter(s: State, key: string): nat {
    if key in s.promises then s.nextId else s.nextId + 1
  }

  function OnChange(s: State, key: string, waitSeconds: int): State {
    var w := NewWaiter(s, key);
    s.(resolvers := if key in s.promises then s.resolvers else s.resolvers[key := s.nextId],
       promises := s.promises[key := SharedPromise(s, key)],
       timers := s.timers[w := Timer(s.now + DelayMs(waitSeconds), DelayMs(waitSeconds), Wake)],
       waiters := s.waiters[w := Waiter(key, SharedPromise(s, key), None)],
       nextId := w + 1)
  }

  // The event loop.

  /** A due timer may fire unless an older timer with the same delay is still armed. */
  predicate CanFire(s: State, t: nat) {
    && t in s.timers
    && s.timers[t].due <= s.now
    && forall u :: u in s.timers && u < t ==> s.timers[u].delay != s.timers[t].delay
  }

  function Fire(s: State, t: nat): State
    requires t in s.timers
  {
    match s.timers[t].task
    case Expire(key) => s.(timers := s.timers - {t}, cache := s.cache - {key})
    case Wake => s.(timers := s.timers - {t}, waiters := TimedOut(s, t))
  }

  /** The race of waiter `w`, unless it is over, ends with the value found now. */
  function TimedOut(s: State, w: nat): map<nat, Waiter> {
    if w in s.waiters && s.waiters[w].outcome.None? then
      s.waiters[w := s.waiters[w].(outcome := Some(Get(s, s.waiters[w].key)))]
    else
      s.waiters
  }

  // Runs.

  datatype Step =
    | SetStep(key: string, value: string, expire: int)
    | SetIfNotExistStep(key: string, value: string, expire: int)
    | RemoveStep(key: string)
    | OnChangeStep(key: string, wait: int)
    | FireStep(timer: nat)
    | AdvanceStep(ms: nat)

  /** Time passes only up to the next due timer. */
  predicate Legal(s: State, step: Step) {
    match step
    case FireStep(t) => CanFire(s, t)
    case AdvanceStep(ms) => forall t :: t in s.timers ==> s.now + ms <= s.timers[t].due
    case _ => true
  }

  function Apply(s: State, step: Step): State
    requires Legal(s, step)
  {
    match step
    case SetStep(key, value, expire) => Set(s, key, value, expire)
    case SetIfNotExistStep(key, value, expire) => SetIfNotExist(s, key, value, expire)
    case RemoveStep(key) => Remove(s, key)
    case OnChangeStep(key, wait) => OnChange(s, key, wait)
    case FireStep(t) => Fire(s, t)
    case AdvanceStep(ms) => s.(now := s.now + ms)
  }

  predicate LegalRun(s: State, steps: seq<Step>)
    decreases |steps|
  {
    steps == [] || (Legal(s, steps[0]) && LegalRun(Apply(s, steps[0]), steps[1..]))
  }

  function Run(s: State, steps: seq<Step>): State
    requires LegalRun(s, steps)
    decreases |steps|
  {
    if steps == [] then s else Run(Apply(s, steps[0]), steps[1..])
  }

  /** The value a step writes under `key`, if it writes there. */
  function Written(s: State, step: Step, key: string): Option<string> {
    match step
    case SetStep(k, v, _) => if k == key then Some(v) else None
    case SetIfNotExistStep(k, v, _) => if k == key && !Exists(s, k) then Some(v) else None
    case _ => None
  }

  /** None of the steps writes under the key. */
  predicate WritesNot(steps: seq<Step>, key: string) {
    forall step :: step in steps && (step.SetStep? || step.SetIfNotExistStep?) ==> step.key != key
  }

  /** None of them removes it either. */
  predicate LeavesAlone(steps: seq<Step>, key: string) {
    WritesNot(steps, key) && forall step :: step in steps ==> step != RemoveStep(key)
  }

  // What every step keeps.

  /** No timer is overdue. */
  ghost predicate ClockOk(timers: map<nat, Timer>, now: int, nextId: nat) {
    forall t :: t in timers ==> t < nextId && now <= timers[t].due <= now + timers[t].delay
  }

  /** An armed expiry timer is the one that the next write to its key would clear. */
  ghost predicate ExpiriesOk(timers: map<nat, Timer>, timeouts: map<string, nat>, nextId: nat) {
    && (forall t :: t in timers && timers[t].task.Expire? ==>
          timers[t].task.key in timeouts && timeouts[timers[t].task.key] == t)
    && (forall k :: k in timeouts ==> timeouts[k] < nextId)
    && (forall k :: k in timeouts && timeouts[k] in timers ==> timers[timeouts[k]].task == Expire(k))
  }

  /** The two subscription maps agree and hold exactly one unresolved promise per key. */
  ghost predicate SubscriptionsOk(resolvers: map<string, nat>, promises: map<string, nat>,
                                  settled: map<nat, string>, nextId: nat) {
    && resolvers == promises
    && (forall k :: k in promises ==> promises[k] < nextId && promises[k] !in settled)
    && (forall p :: p in settled ==> p < nextId)
    && (forall j, k :: j in promises && k in promises && promises[j] == promises[k] ==> j == k)
  }

  /** An open race still has its timer armed and listens on the promise registered for its key. */
  ghost predicate WaitersOk(waiters: map<nat, Waiter>, timers: map<nat, Timer>,
                            promises: map<string, nat>, nextId: nat) {
    forall w :: w in waiters ==>
      && w < nextId && waiters[w].promise < nextId
      && (waiters[w].outcome.None? ==>
            && w in timers && timers[w].task == Wake
            && waiters[w].key in promises && promises[waiters[w].key] == waiters[w].promise)
  }

  ghost predicate Inv(s: State) {
    && ClockOk(s.timers, s.now, s.nextId)
    && ExpiriesOk(s.timers, s.timeouts, s.nextId)
    && SubscriptionsOk(s.resolvers, s.promises, s.settled, s.nextId)
    && WaitersOk(s.waiters, s.timers, s.promises, s.nextId)
  }

  // Keys and namespaces.

  /** The longer name starts with the shorter one and a colon. */
  predicate GoesOn(longer: string, shorter: string) {
    |shorter| < |longer| && longer[..|shorter|] == shorter && longer[|shorter|] == ':'
  }

  lemma LongerNameMeets(name: string, key: string, name': string, key': string)
    requires |name| < |name'|
    ensures name + ":" + key == name' + ":" + key' <==>
            GoesOn(name', name) && key == name'[|name| + 1..] + ":" + key'
  {
    var a, b := name + ":" + key, name' + ":" + key';
    assert b[|name| + 1..] == name'[|name| + 1..] + ":" + key';
    assert a[..|name|] == name && a[|name|] == ':' && a[|name| + 1..] == key;
    assert b[..|name|] == name'[..|name|] && b[|name|] == name'[|name|];
    assert a == a[..|name|] + [a[|name|]] + a[|name| + 1..];
    assert b == b[..|name|] + [b[|name|]] + b[|name| + 1..];
  }

  /** Keys of different namespaces meet exactly if one name goes on with a colon after the other, and what follows
      stands in the key. An absent namespace has the name `default`. */
  lemma KeysMeetIff(key: string, namespace: string, key': string, namespace': string)
    ensures var name := if namespace == "" then "default" else namespace;
            var name' := if namespace' == "" then "default" else namespace';
            NamespaceKey(key, namespace) == NamespaceKey(key', namespace') <==>
              || (name == name' && key == key')
              || (GoesOn(name', name) && key == name'[|name| + 1..] + ":" + key')
              || (GoesOn(name, name') && key' == name[|name'| + 1..] + ":" + key)
  {
    var name := if namespace == "" then "default" else namespace;
    var name' := if namespace' == "" then "default" else namespace';
    if |name| < |name'| {
      LongerNameMeets(name, key, name', key');
    } else if |name'| < |name| {
      LongerNameMeets(name', key', name, key);
    } else {
      assert (name + ":" + key)[..|name|] == name && (name + ":" + key)[|name| + 1..] == key;
      assert (name' + ":" + key')[..|name|] == name' && (name' + ":" + key')[|name| + 1..] == key';
    }
  }

  /** So they stay apart when no namespace contains a colon. */
  lemma NamespacesAreApart(key: string, namespace: string, key': string, namespace': string)
    requires ':' !in namespace && ':' !in namespace'
    ensures NamespaceKey(key, namespace) == NamespaceKey(key', namespace') <==>
            key == key' && (namespace == namespace' || {namespace, namespace'} == {"", "default"})
  {
    KeysMeetIff(key, namespace, key', namespace');
  }
}
