/** What the boot protocols keep in the cache of one station: its boot status and the blacklist of actions
    that the charger may not originate. */
module BootCache {
  import opened Options
  import opened CacheModel
  import opened CacheInvariants
  import M = MemoryCache

  const BOOT_STATUS := "boot_status"
  const BOOT_NOTIFICATION := "BootNotification"
  const REPORT_REQUEST := "0"
  const BLACKLISTED := "blacklisted"

  datatype Status = Accepted | Pending | Rejected

  /** `BootMapper.toRegistrationStatusEnumType`; other strings make it throw. */
  function ToStatus(status: string): Option<Status> {
    if status == "Accepted" then Some(Accepted)
    else if status == "Pending" then Some(Pending)
    else if status == "Rejected" then Some(Rejected)
    else None
  }

  function Name(status: Status): (name: string)
    ensures ToStatus(name) == Some(status) && name != ""
  {
    match status
    case Accepted => "Accepted"
    case Pending => "Pending"
    case Rejected => "Rejected"
  }

  /** What the cache holds for a station under a name. */
  function Lookup(s: State, station: string, name: string): Option<string> {
    var key := NamespaceKey(name, station);
    if key in s.cache then Some(s.cache[key]) else None
  }

  lemma NamesAreDistinct(a: string, b: string, station: string)
    ensures NamespaceKey(a, station) == NamespaceKey(b, station) <==> a == b
  {
    var prefix := (if station == "" then "default" else station) + ":";
    assert NamespaceKey(a, station)[|prefix|..] == a;
    assert NamespaceKey(b, station)[|prefix|..] == b;
  }

  // Blocking and unblocking the charger-originated actions.

  function Block(s: State, station: string, actions: seq<string>): State
    decreases |actions|
  {
    if actions == [] then s
    else
      var action := actions[|actions| - 1];
      var rest := Block(s, station, actions[..|actions| - 1]);
      if action == BOOT_NOTIFICATION then rest else Set(rest, NamespaceKey(action, station), BLACKLISTED, 0)
  }

  function Unblock(s: State, station: string, actions: seq<string>): State
    decreases |actions|
  {
    if actions == [] then s
    else
      var action := actions[|actions| - 1];
      var rest := Unblock(s, station, actions[..|actions| - 1]);
      if action == BOOT_NOTIFICATION then rest else Remove(rest, NamespaceKey(action, station))
  }

  /** The new cache after a reply: an accepted boot lifts the blacklist and forgets the status of a station that had
      one; any other boot blacklists a station that had none. */
  function Permissions(s: State, station: string, actions: seq<string>, cached: Option<string>, reply: Status): State {
    if reply == Accepted then
      if cached.Some? then Remove(Unblock(s, station, actions), NamespaceKey(BOOT_STATUS, station)) else s
    else if cached.None? then Block(s, station, actions)
    else s
  }

  /** A reply that is not an acceptance is cached when it differs from what is cached. */
  function CacheStatus(s: State, station: string, cached: Option<string>, reply: Status): State {
    if reply != Accepted && cached != Some(Name(reply)) then
      Set(s, NamespaceKey(BOOT_STATUS, station), Name(reply), 0)
    else s
  }

  class PermissionService {
    const cache: M.MemoryCache
    const actions: seq<string>

    constructor (cache: M.MemoryCache, actions: seq<string>)
      ensures this.cache == cache && this.actions == actions
    {
      this.cache, this.actions := cache, actions;
    }

    method CacheChargerActionsPermissions(stationId: string, cachedBootStatus: Option<string>, reply: Status)
      requires cache.Valid()
      modifies cache, cache.loop
      ensures cache.Valid()
      ensures cache.State() == Permissions(old(cache.State()), stationId, actions, cachedBootStatus, reply)
    {
      ghost var before := cache.State();
      if reply == Accepted {
        if cachedBootStatus.Some? {
          for i := 0 to |actions|
            invariant cache.Valid() && cache.State() == Unblock(before, stationId, actions[..i])
          {
            assert actions[..i + 1][..i] == actions[..i];
            if actions[i] != BOOT_NOTIFICATION {
              var _ := cache.Remove(actions[i], stationId);
            }
          }
          assert actions[..|actions|] == actions;
          var _ := cache.Remove(BOOT_STATUS, stationId);
        }
      } else if cachedBootStatus.None? {
        for i := 0 to |actions|
          invariant cache.Valid() && cache.State() == Block(before, stationId, actions[..i])
        {
          assert actions[..i + 1][..i] == actions[..i];
          if actions[i] != BOOT_NOTIFICATION {
            var _ := cache.Set(actions[i], BLACKLISTED, stationId, 0);
          }
        }
        assert actions[..|actions|] == actions;
      }
    }

    method CacheBootStatus(stationId: string, cachedBootStatus: Option<string>, reply: Status)
      requires cache.Valid()
      modifies cache, cache.loop
      ensures cache.Valid()
      ensures cache.State() == CacheStatus(old(cache.State()), stationId, cachedBootStatus, reply)
    {
      if reply != Accepted && (cachedBootStatus.None? || Name(reply) != cachedBootStatus.value) {
        var _ := cache.Set(BOOT_STATUS, Name(reply), stationId, 0);
      }
    }
  }

  // Effects on single entries.

  /** A value that no armed timer will delete. */
  ghost predicate Lasting(s: State, station: string, name: string) {
    var key := NamespaceKey(name, station);
    key in s.cache && key in s.timeouts ==> s.timeouts[key] !in s.timers
  }

  lemma SetEffect(s: State, station: string, name: string, value: string, other: string)
    requires Inv(s)
    ensures var r := Set(s, NamespaceKey(name, station), value, 0);
            && Inv(r)
            && Lookup(r, station, other) == (if other == name then Some(value) else Lookup(s, station, other))
            && (other == name || Lasting(s, station, other) ==> Lasting(r, station, other))
  {
    NamesAreDistinct(name, other, station);
    SetKeepsInv(s, NamespaceKey(name, station), value, 0);
  }

  lemma RemoveEffect(s: State, station: string, name: string, other: string)
    requires Inv(s)
    ensures var r := Remove(s, NamespaceKey(name, station));
            && Inv(r)
            && Lookup(r, station, other) == (if other == name then None else Lookup(s, station, other))
            && (Lasting(s, station, other) ==> Lasting(r, station, other))
  {
    NamesAreDistinct(name, other, station);
  }

  lemma {:induction false} BlockEffect(s: State, station: string, actions: seq<string>, name: string)
    requires Inv(s)
    ensures var r := Block(s, station, actions);
            && Inv(r)
            && Lookup(r, station, name) == (if name in actions && name != BOOT_NOTIFICATION then Some(BLACKLISTED)
                                            else Lookup(s, station, name))
            && (Lasting(s, station, name) ==> Lasting(r, station, name))
    decreases |actions|
  {
    if actions != [] {
      var n := |actions| - 1;
      assert actions == actions[..n] + [actions[n]];
      BlockEffect(s, station, actions[..n], name);
      SetEffect(Block(s, station, actions[..n]), station, actions[n], BLACKLISTED, name);
    }
  }

  lemma {:induction false} UnblockEffect(s: State, station: string, actions: seq<string>, name: string)
    requires Inv(s)
    ensures var r := Unblock(s, station, actions);
            && Inv(r)
            && Lookup(r, station, name) == (if name in actions && name != BOOT_NOTIFICATION then None
                                            else Lookup(s, station, name))
            && (Lasting(s, station, name) ==> Lasting(r, station, name))
    decreases |actions|
  {
    if actions != [] {
      var n := |actions| - 1;
      assert actions == actions[..n] + [actions[n]];
      UnblockEffect(s, station, actions[..n], name);
      RemoveEffect(Unblock(s, station, actions[..n]), station, actions[n], name);
    }
  }

  // What the protocols keep.

  predicate Owned(actions: seq<string>, name: string) {
    name in actions || name == BOOT_STATUS
  }

  /** A step by anybody else: it writes and removes none of the names the protocol owns. Timers may fire. */
  ghost predicate Foreign(step: Step, station: string, actions: seq<string>) {
    step.SetStep? || step.SetIfNotExistStep? || step.RemoveStep? ==>
      forall name :: Owned(actions, name) ==> step.key != NamespaceKey(name, station)
  }

  lemma ForeignKeepsEntry(s: State, step: Step, station: string, actions: seq<string>, name: string)
    requires Inv(s) && Legal(s, step) && Foreign(step, station, actions) && Owned(actions, name)
    requires Lasting(s, station, name)
    ensures Lookup(Apply(s, step), station, name) == Lookup(s, station, name)
    ensures Lasting(Apply(s, step), station, name)
  {
    ForeignKeepsKey(s, step, NamespaceKey(name, station));
  }

  lemma ForeignKeepsKey(s: State, step: Step, key: string)
    requires Inv(s) && Legal(s, step)
    requires step.SetStep? || step.SetIfNotExistStep? || step.RemoveStep? ==> step.key != key
    requires key in s.cache && key in s.timeouts ==> s.timeouts[key] !in s.timers
    ensures var r := Apply(s, step);
            && (key in r.cache <==> key in s.cache)
            && (key in s.cache ==> r.cache[key] == s.cache[key])
            && (key in r.cache && key in r.timeouts ==> r.timeouts[key] !in r.timers)
  {
  }

  /** `status` is what the cache says of the station; `free` are actions that may be unblocked meanwhile. */
  ghost predicate Consistent(s: State, station: string, actions: seq<string>, status: Option<Status>,
                             free: set<string>) {
    && Inv(s)
    && (forall name :: Owned(actions, name) ==> Lasting(s, station, name))
    && status != Some(Accepted)
    && Lookup(s, station, BOOT_STATUS) == (if status.Some? then Some(Name(status.value)) else None)
    && Lookup(s, station, BOOT_NOTIFICATION) == None
    && (forall name :: name in actions && Lookup(s, station, name).Some? ==> status.Some?)
    && (status.Some? ==> forall name :: name in actions && name != BOOT_NOTIFICATION && name !in free ==>
          Lookup(s, station, name) == Some(BLACKLISTED))
  }

  /** Nothing is blocked, and no status is cached. */
  predicate Free(s: State, station: string, actions: seq<string>) {
    && Lookup(s, station, BOOT_STATUS) == None
    && forall i :: 0 <= i < |actions| ==> Lookup(s, station, actions[i]) == None
  }

  /** The charger-originated actions include BootNotification; the names of the cached status and of the base report
      request are not among them. */
  predicate ProtocolActions(actions: seq<string>) {
    BOOT_NOTIFICATION in actions && BOOT_STATUS !in actions && REPORT_REQUEST !in actions
  }

  lemma ForeignKeepsConsistent(s: State, step: Step, station: string, actions: seq<string>, status: Option<Status>,
                               free: set<string>)
    requires Consistent(s, station, actions, status, free) && BOOT_NOTIFICATION in actions
    requires Legal(s, step) && Foreign(step, station, actions)
    ensures Consistent(Apply(s, step), station, actions, status, free)
  {
    StepKeepsInv(s, step);
    forall name | Owned(actions, name)
      ensures Lookup(Apply(s, step), station, name) == Lookup(s, station, name)
      ensures Lasting(Apply(s, step), station, name)
    {
      ForeignKeepsEntry(s, step, station, actions, name);
    }
  }

  lemma FreeingKeepsConsistent(s: State, station: string, actions: seq<string>, status: Option<Status>,
                               free: set<string>, name: string)
    requires BOOT_NOTIFICATION in actions && Consistent(s, station, actions, status, free)
    requires name in free && name != BOOT_STATUS
    ensures Consistent(Remove(s, NamespaceKey(name, station)), station, actions, status, free)
  {
    var r := Remove(s, NamespaceKey(name, station));
    forall other | Owned(actions, other)
      ensures Lasting(r, station, other)
      ensures Lookup(r, station, other) == if other == name then None else Lookup(s, station, other)
    {
      RemoveEffect(s, station, name, other);
    }
  }

  lemma OtherNameKeepsConsistent(s: State, station: string, actions: seq<string>, status: Option<Status>,
                                 free: set<string>, name: string, value: string, expire: int)
    requires BOOT_NOTIFICATION in actions && Consistent(s, station, actions, status, free)
    requires !Owned(actions, name)
    ensures Consistent(Set(s, NamespaceKey(name, station), value, expire), station, actions, status, free)
  {
    forall other | Owned(actions, other) ensures NamespaceKey(other, station) != NamespaceKey(name, station) {
      NamesAreDistinct(other, name, station);
    }
    ForeignKeepsConsistent(s, SetStep(NamespaceKey(name, station), value, expire), station, actions, status, free);
  }

  /** What a sent reply leaves under each name. */
  lemma ReplyEffect(s: State, station: string, actions: seq<string>, status: Option<Status>, free: set<string>,
                    reply: Status, name: string)
    requires ProtocolActions(actions) && Consistent(s, station, actions, status, free) && Owned(actions, name)
    ensures var cached := Get(s, NamespaceKey(BOOT_STATUS, station));
            var r := CacheStatus(Permissions(s, station, actions, cached, reply), station, cached, reply);
            && Lasting(r, station, name)
            && Lookup(r, station, name) ==
               if name == BOOT_STATUS then (if reply == Accepted then None else Some(Name(reply)))
               else if name == BOOT_NOTIFICATION || reply == Accepted then None
               else if status.None? then Some(BLACKLISTED)
               else Lookup(s, station, name)
  {
    var cached := Get(s, NamespaceKey(BOOT_STATUS, station));
    PermissionsEffect(s, station, actions, cached, reply, name);
    SetEffect(Permissions(s, station, actions, cached, reply), station, BOOT_STATUS, Name(reply), name);
  }

  /** A reply that is sent: the cached status becomes the reply, nothing when it is an acceptance. */
  lemma ReplyKeepsConsistent(s: State, station: string, actions: seq<string>, status: Option<Status>,
                             free: set<string>, reply: Status)
    requires ProtocolActions(actions) && Consistent(s, station, actions, status, free)
    ensures var cached := Get(s, NamespaceKey(BOOT_STATUS, station));
            && cached == (if status.Some? then Some(Name(status.value)) else None)
            && Consistent(CacheStatus(Permissions(s, station, actions, cached, reply), station, cached, reply),
                          station, actions, if reply == Accepted then None else Some(reply), free)
  {
    var cached := Get(s, NamespaceKey(BOOT_STATUS, station));
    var p := Permissions(s, station, actions, cached, reply);
    PermissionsEffect(s, station, actions, cached, reply, BOOT_STATUS);
    SetEffect(p, station, BOOT_STATUS, Name(reply), BOOT_STATUS);
    assert Owned(actions, BOOT_STATUS) && Owned(actions, BOOT_NOTIFICATION);
    forall name | Owned(actions, name)
      ensures var r := CacheStatus(p, station, cached, reply);
              && Lasting(r, station, name)
              && Lookup(r, station, name) ==
                 if name == BOOT_STATUS then (if reply == Accepted then None else Some(Name(reply)))
                 else if name == BOOT_NOTIFICATION || reply == Accepted then None
                 else if status.None? then Some(BLACKLISTED)
                 else Lookup(s, station, name)
    {
      ReplyEffect(s, station, actions, status, free, reply, name);
    }
  }

  lemma PermissionsEffect(s: State, station: string, actions: seq<string>, cached: Option<string>, reply: Status,
                          name: string)
    requires Inv(s)
    ensures var p := Permissions(s, station, actions, cached, reply);
            && Inv(p)
            && (Lasting(s, station, name) ==> Lasting(p, station, name))
            && Lookup(p, station, name) ==
               if reply == Accepted && cached.Some?
                  && (name == BOOT_STATUS || (name in actions && name != BOOT_NOTIFICATION))
               then None
               else if reply != Accepted && cached.None? && name in actions && name != BOOT_NOTIFICATION
               then Some(BLACKLISTED)
               else Lookup(s, station, name)
  {
    BlockEffect(s, station, actions, name);
    UnblockEffect(s, station, actions, name);
    RemoveEffect(Unblock(s, station, actions), station, BOOT_STATUS, name);
  }

  // Replies that cannot be sent.

  /** The handlers throw between changing the blacklist and caching the status. The cache stays consistent exactly when
      the reply was an acceptance or a status was cached already. */
  lemma UnsentIsConsistentIff(s: State, station: string, actions: seq<string>, status: Option<Status>,
                              free: set<string>, reply: Status, action: string)
    requires ProtocolActions(actions) && Consistent(s, station, actions, status, free)
    requires action in actions && action != BOOT_NOTIFICATION
    ensures var unsent := Permissions(s, station, actions, Get(s, NamespaceKey(BOOT_STATUS, station)), reply);
            (exists after :: Consistent(unsent, station, actions, after, free)) <==> reply == Accepted || status.Some?
  {
    var cached := Get(s, NamespaceKey(BOOT_STATUS, station));
    var r := Permissions(s, station, actions, cached, reply);
    ReplyKeepsConsistent(s, station, actions, status, free, reply);
    if reply == Accepted {
      assert Consistent(r, station, actions, None, free);
    } else if status.Some? {
      assert Consistent(r, station, actions, status, free);
    } else {
      BlockEffect(s, station, actions, action);
      BlockEffect(s, station, actions, BOOT_STATUS);
    }
  }

  /** Otherwise even a later acceptance leaves every action blocked. */
  lemma UnsentRejectionOutlivesAcceptance(s: State, station: string, actions: seq<string>, free: set<string>,
                                          reply: Status, action: string)
    requires ProtocolActions(actions) && Consistent(s, station, actions, None, free) && reply != Accepted
    requires action in actions && action != BOOT_NOTIFICATION
    ensures var unsent := Permissions(s, station, actions, None, reply);
            var cached := Get(unsent, NamespaceKey(BOOT_STATUS, station));
            var permitted := Permissions(unsent, station, actions, cached, Accepted);
            Lookup(CacheStatus(permitted, station, cached, Accepted), station, action) == Some(BLACKLISTED)
  {
    BlockEffect(s, station, actions, action);
    BlockEffect(s, station, actions, BOOT_STATUS);
    assert Owned(actions, BOOT_STATUS);
  }
}
