/** `MemoryCache` and the event loop it runs on, updated in place. */
module MemoryCache {
  import opened Options
  import opened CacheModel
  import opened CacheInvariants

  /** Timers, promises and races of the JavaScript runtime. */
  class EventLoop {
    var now: int
    var nextId: nat
    var timers: map<nat, Timer>
    var settled: map<nat, string>
    var waiters: map<nat, Waiter>

    constructor ()
      ensures now == 0 && nextId == 0 && timers == map[] && settled == map[] && waiters == map[]
    {
      now, nextId, timers, settled, waiters := 0, 0, map[], map[], map[];
    }

    method SetTimeout(seconds: int, task: Task) returns (t: nat)
      modifies `timers, `nextId
      ensures t == old(nextId) && nextId == t + 1
      ensures timers == old(timers)[t := Timer(now + DelayMs(seconds), DelayMs(seconds), task)]
    {
      t := nextId;
      timers := timers[t := Timer(now + DelayMs(seconds), DelayMs(seconds), task)];
      nextId := nextId + 1;
    }

    method ClearTimeout(t: nat)
      modifies `timers
      ensures timers == old(timers) - {t}
    {
      timers := timers - {t};
    }

    method NewPromise() returns (p: nat)
      modifies `nextId
      ensures p == old(nextId) && nextId == p + 1
    {
      p := nextId;
      nextId := nextId + 1;
    }

    /** Settling a promise ends the races that are still open on it. */
    method Resolve(p: nat, value: string)
      modifies `settled, `waiters
      ensures p in old(settled) ==> settled == old(settled) && waiters == old(waiters)
      ensures p !in old(settled) ==> settled == old(settled)[p := value] && waiters == Notify(old(waiters), p, value)
    {
      if p !in settled {
        settled := settled[p := value];
        waiters := Notify(waiters, p, value);
      }
    }

    /** A race between promise `p` and a timer of its own. */
    method Race(key: string, p: nat, seconds: int) returns (w: nat)
      modifies `timers, `nextId, `waiters
      ensures w == old(nextId) && nextId == w + 1
      ensures timers == old(timers)[w := Timer(now + DelayMs(seconds), DelayMs(seconds), Wake)]
      ensures waiters == old(waiters)[w := Waiter(key, p, None)]
    {
      w := SetTimeout(seconds, Wake);
      waiters := waiters[w := Waiter(key, p, None)];
    }
  }

  class MemoryCache {
    var cache: map<string, string>
    var keySubscriptionMap: map<string, nat>
    var keySubscriptionPromiseMap: map<string, nat>
    var timeoutMap: map<string, nat>
    const loop: EventLoop

    ghost function State(): State
      reads this, loop
    {
      CacheModel.State(cache, keySubscriptionMap, keySubscriptionPromiseMap, timeoutMap,
                       loop.now, loop.nextId, loop.timers, loop.settled, loop.waiters)
    }

    ghost predicate Valid()
      reads this, loop
    {
      Inv(State())
    }

    constructor ()
      ensures State() == EMPTY && Valid() && fresh(loop)
    {
      cache, keySubscriptionMap, keySubscriptionPromiseMap, timeoutMap := map[], map[], map[], map[];
      loop := new EventLoop();
    }

    method Exists(key: string, namespace: string) returns (found: bool)
      ensures found == CacheModel.Exists(State(), NamespaceKey(key, namespace))
    {
      found := NamespaceKey(key, namespace) in cache;
    }

    method Remove(key: string, namespace: string) returns (removed: bool)
      requires Valid()
      modifies this
      ensures Valid() && State() == CacheModel.Remove(old(State()), NamespaceKey(key, namespace))
      ensures removed == CacheModel.Exists(old(State()), NamespaceKey(key, namespace))
    {
      var namespaceKey := NamespaceKey(key, namespace);
      removed := namespaceKey in cache;
      cache := cache - {namespaceKey};
    }

    method Get(key: string, namespace: string) returns (value: Option<string>)
      ensures value == CacheModel.Get(State(), NamespaceKey(key, namespace))
    {
      var namespaceKey := NamespaceKey(key, namespace);
      if namespaceKey in cache && cache[namespaceKey] != "" {
        return Some(cache[namespaceKey]);
      }
      return None;
    }

    /** The result names the race that the returned promise stands for. */
    method OnChange(key: string, waitSeconds: int, namespace: string) returns (w: nat)
      requires Valid()
      modifies this, loop
      ensures Valid() && State() == CacheModel.OnChange(old(State()), NamespaceKey(key, namespace), waitSeconds)
      ensures w == NewWaiter(old(State()), NamespaceKey(key, namespace))
    {
      w := Watch(NamespaceKey(key, namespace), waitSeconds);
    }

    method Watch(namespaceKey: string, waitSeconds: int) returns (w: nat)
      requires Valid()
      modifies this, loop
      ensures Valid() && State() == CacheModel.OnChange(old(State()), namespaceKey, waitSeconds)
      ensures w == NewWaiter(old(State()), namespaceKey)
    {
      ghost var before := State();
      if namespaceKey !in keySubscriptionPromiseMap {
        var p := loop.NewPromise();
        keySubscriptionMap := keySubscriptionMap[namespaceKey := p];
        keySubscriptionPromiseMap := keySubscriptionPromiseMap[namespaceKey := p];
      }
      w := loop.Race(namespaceKey, keySubscriptionPromiseMap[namespaceKey], waitSeconds);
      assert State() == CacheModel.OnChange(before, namespaceKey, waitSeconds);
      OnChangeKeepsInv(before, namespaceKey, waitSeconds);
    }

    method Set(key: string, value: string, namespace: string, expireSeconds: int) returns (done: bool)
      requires Valid()
      modifies this, loop
      ensures Valid() && State() == CacheModel.Set(old(State()), NamespaceKey(key, namespace), value, expireSeconds)
      ensures done
    {
      ghost var before := State();
      var namespaceKey := NamespaceKey(key, namespace);
      Write(namespaceKey, value, expireSeconds);
      SetKeepsInv(before, namespaceKey, value, expireSeconds);
      return true;
    }

    method SetIfNotExist(key: string, value: string, namespace: string, expireSeconds: int) returns (done: bool)
      requires Valid()
      modifies this, loop
      ensures Valid()
      ensures State() == CacheModel.SetIfNotExist(old(State()), NamespaceKey(key, namespace), value, expireSeconds)
      ensures done == !CacheModel.Exists(old(State()), NamespaceKey(key, namespace))
    {
      ghost var before := State();
      var namespaceKey := NamespaceKey(key, namespace);
      if namespaceKey in cache {
        return false;
      }
      Write(namespaceKey, value, expireSeconds);
      SetKeepsInv(before, namespaceKey, value, expireSeconds);
      return true;
    }

    /** The statements that `set` and `setIfNotExist` share. */
    method Write(namespaceKey: string, value: string, expireSeconds: int)
      modifies this, loop
      ensures State() == CacheModel.Set(old(State()), namespaceKey, value, expireSeconds)
    {
      cache := cache[namespaceKey := value];
      if namespaceKey in timeoutMap {
        loop.ClearTimeout(timeoutMap[namespaceKey]);
      }
      if expireSeconds != 0 {
        var t := loop.SetTimeout(expireSeconds, Expire(namespaceKey));
        timeoutMap := timeoutMap[namespaceKey := t];
      }
      ResolveOnChange(namespaceKey, value);
    }

    method ResolveOnChange(namespaceKey: string, value: string)
      modifies this`keySubscriptionMap, this`keySubscriptionPromiseMap, loop`settled, loop`waiters
      ensures keySubscriptionMap == old(keySubscriptionMap) - {namespaceKey}
      ensures keySubscriptionPromiseMap ==
        if namespaceKey in old(keySubscriptionMap) then old(keySubscriptionPromiseMap) - {namespaceKey}
        else old(keySubscriptionPromiseMap)
      ensures loop.settled ==
        if old(Settles(State(), namespaceKey)) then old(loop.settled)[old(keySubscriptionMap)[namespaceKey] := value]
        else old(loop.settled)
      ensures loop.waiters ==
        if old(Settles(State(), namespaceKey)) then
          Notify(old(loop.waiters), old(keySubscriptionMap)[namespaceKey], value)
        else old(loop.waiters)
    {
      if namespaceKey in keySubscriptionMap {
        loop.Resolve(keySubscriptionMap[namespaceKey], value);
        keySubscriptionMap := keySubscriptionMap - {namespaceKey};
        keySubscriptionPromiseMap := keySubscriptionPromiseMap - {namespaceKey};
      }
    }

    /** The event loop runs the callback of a timer that may fire. */
    method RunTimer(t: nat)
      requires Valid() && CanFire(State(), t)
      modifies this, loop
      ensures Valid() && State() == Fire(old(State()), t)
    {
      ghost var before := State();
      var task := loop.timers[t].task;
      loop.ClearTimeout(t);
      match task {
        case Expire(namespaceKey) =>
          cache := cache - {namespaceKey};
        case Wake =>
          if t in loop.waiters && loop.waiters[t].outcome.None? {
            var namespaceKey := loop.waiters[t].key;
            var value := if namespaceKey in cache && cache[namespaceKey] != "" then Some(cache[namespaceKey]) else None;
            loop.waiters := loop.waiters[t := loop.waiters[t].(outcome := Some(value))];
          }
      }
      FireKeepsInv(before, t);
    }

    /** Time passes while no timer is due. */
    method Sleep(ms: nat)
      requires Valid() && Legal(State(), AdvanceStep(ms))
      modifies loop
      ensures Valid() && State() == Apply(old(State()), AdvanceStep(ms))
    {
      StepKeepsInv(State(), AdvanceStep(ms));
      loop.now := loop.now + ms;
    }
  }
}
