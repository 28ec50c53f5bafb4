/**
  The runtime pool. Each method is one stretch between awaits of one of its tasks, so that any
  interleaving is a sequence of calls. The outcome of whatever was awaited is a parameter.
 */
module RuntimePool {
  import opened Wrappers
  import opened PoolState

  /** What the event loop can let happen next; the outcome of an await comes with it. */
  datatype Event = Acquires(check: Check)
                 | EntersKey(task: nat, alive: bool)
                 | EntersStart(task: nat, backedOff: bool)
                 | TakesSlot(task: nat)
                 | IsStarted(task: nat, runtime: nat)
                 | FailsToStart(task: nat)
                 | IsDiscarded(task: nat)
                 | FreshIsUsed(task: nat)
                 | PersistentIsUsed(task: nat, leaves: bool, retire: bool)
                 | EntersCheckup(task: nat, alive: bool)
                 | HasStopped(task: nat, raised: bool)
                 | IsCancelled(task: nat)
                 | Reconciles(wanted: map<Key, Generation>)
                 | Closes
                 | SweepsKey(task: nat, key: Key, alive: bool)
                 | SweepHasStopped(task: nat, raised: bool)
                 | SweepReturns(task: nat)

  predicate WantedIn(desired: Option<map<Key, Generation>>, k: Key, g: Generation) {
    desired.None? || (k in desired.value && desired.value[k] == g)
  }

  /** The last sweep over the keys begun and the sweep of close, with the keys each has yet to visit. */
  datatype SweepState = SweepState(desired: Option<map<Key, Generation>>, closed: bool,
                                   latest: nat, unsettled: set<Key>, closer: nat, toClose: set<Key>)

  /**
    Whatever is published is wanted, or the latest sweep has yet to see it; after close nothing is
    published any more.
   */
  ghost predicate SweepsOk(tasks: seq<Task>, persistent: map<Key, Persistent>, locked: set<Key>, s: SweepState) {
    && (forall k :: k in persistent ==> k in s.unsettled || WantedIn(s.desired, k, persistent[k].generation))
    && (s.closed ==> persistent.Keys <= s.toClose && locked <= s.toClose)
    && (forall i :: 0 <= i < |tasks| && tasks[i].Sweeping? ==> SweepOk(tasks[i], i, s))
  }

  ghost predicate SweepOk(t: Task, i: nat, s: SweepState)
    requires t.Sweeping?
  {
    && (i == s.latest ==> t.remaining == s.unsettled && s.desired == Some(t.wanted))
    && (t.closing ==> s.closed && i == s.closer && t.wanted == map[])
    && (s.closed && i == s.closer ==> t.closing && t.remaining == s.toClose)
  }

  lemma SweepsStep(tasks: seq<Task>, persistent: map<Key, Persistent>, locked: set<Key>, s: SweepState,
                   i: nat, next: Task, after: map<Key, Persistent>, lockedAfter: set<Key>)
    requires SweepsOk(tasks, persistent, locked, s) && i < |tasks|
    requires next.Sweeping? ==> SweepOk(next, i, s)
    requires forall k :: k in after ==> || (k in persistent && after[k] == persistent[k])
                                        || (!s.closed && WantedIn(s.desired, k, after[k].generation))
    requires s.closed ==> lockedAfter <= s.toClose
    ensures SweepsOk(tasks[i := next], after, lockedAfter, s)
  {
  }

  /** What withdrawing the runtime under key k does to the books. */
  lemma Withdrawn(tasks: seq<Task>, persistent: map<Key, Persistent>, locked: set<Key>, s: SweepState, i: nat, k: Key,
                  next: Task)
    requires Sound(tasks, locked, persistent) && SweepsOk(tasks, persistent, locked, s)
    requires i < |tasks| && Held(tasks[i]) == {k} && k in persistent && !OwnsSlot(tasks[i])
    requires Held(next) <= {k} && !OwnsSlot(next) && TaskOk(next, persistent - {k})
    requires next.Sweeping? ==> SweepOk(next, i, s)
    ensures Sound(tasks[i := next], locked - {k} + Held(next), persistent - {k})
    ensures SweepsOk(tasks[i := next], persistent - {k}, locked - {k} + Held(next), s)
    ensures Owners(tasks[i := next]) == Owners(tasks) && Count(persistent - {k}) == Count(persistent) - 1
    ensures locked - {k} + Held(next) <= locked
  {
    HeldIsLocked(tasks, locked, i);
    SoundStep(tasks, locked, persistent, i, next, persistent - {k});
    SweepsStep(tasks, persistent, locked, s, i, next, persistent - {k}, locked - {k} + Held(next));
    OwnersMove(tasks, i, next);
    Unpublished(persistent, k);
  }

  /** The sweeps once task i has visited key k. */
  ghost function AfterVisit(s: SweepState, i: nat, k: Key): SweepState {
    s.(unsettled := if i == s.latest then s.unsettled - {k} else s.unsettled,
       toClose := if s.closed && i == s.closer then s.toClose - {k} else s.toClose)
  }

  lemma KeyVisited(tasks: seq<Task>, persistent: map<Key, Persistent>, locked: set<Key>, s: SweepState, i: nat, k: Key)
    requires Sound(tasks, locked, persistent) && SweepsOk(tasks, persistent, locked, s)
    requires i < |tasks| && tasks[i].Sweeping? && tasks[i].stopping.None? && k !in locked
    requires k in persistent ==> k in tasks[i].wanted && tasks[i].wanted[k] == persistent[k].generation
    ensures var next := tasks[i].(remaining := tasks[i].remaining - {k});
            && Sound(tasks[i := next], locked, persistent) && Owners(tasks[i := next]) == Owners(tasks)
            && SweepsOk(tasks[i := next], persistent, locked, AfterVisit(s, i, k))
  {
    var next := tasks[i].(remaining := tasks[i].remaining - {k});
    SoundStep(tasks, locked, persistent, i, next, persistent);
    assert locked - Held(tasks[i]) + Held(next) == locked;
    OwnersMove(tasks, i, next);
  }

  /** When close begins, its sweep is the latest and has every key there may be still to visit. */
  lemma CloseBegins(tasks: seq<Task>, persistent: map<Key, Persistent>, locked: set<Key>, s: SweepState, keys: set<Key>)
    requires SweepsOk(tasks, persistent, locked, s) && !s.closed && persistent.Keys + locked <= keys
    ensures SweepsOk(tasks, persistent, locked, SweepState(Some(map[]), true, |tasks|, keys, |tasks|, keys))
  {
  }

  class RuntimePool {
    const limit: nat
    // The semaphore, the published persistent runtimes, the key locks that exist and those held.
    var free: nat
    var persistent: map<Key, Persistent>
    var locks: set<Key>
    var locked: set<Key>
    // None until the first inventory.
    var desired: Option<map<Key, Generation>>
    var closed: bool
    var tasks: seq<Task>
    // The last sweep over the keys begun and the sweep of close, with the keys each has yet to visit.
    ghost var latest: nat
    ghost var unsettled: set<Key>
    ghost var closer: nat
    ghost var toClose: set<Key>

    ghost function Sweeps(): SweepState
      reads this
    {
      SweepState(desired, closed, latest, unsettled, closer, toClose)
    }

    ghost predicate SlotsOk()
      reads this
    {
      free + Count(persistent) + Owners(tasks) == limit
    }

    ghost predicate Valid()
      reads this
    {
      && Sound(tasks, locked, persistent) && SlotsOk() && SweepsOk(tasks, persistent, locked, Sweeps())
      && locked <= locks && (closed ==> closer < |tasks|)
    }

    predicate Wanted(k: Key, g: Generation)
      reads this`desired
    {
      WantedIn(desired, k, g)
    }

    constructor (limit: nat)
      requires limit >= 1
      ensures Valid() && this.limit == limit && free == limit && persistent == map[] && tasks == [] && !closed
      ensures desired == None
    {
      this.limit, free := limit, limit;
      persistent, locks, locked, desired, closed, tasks := map[], {}, {}, None, false, [];
      latest, unsettled, closer, toClose := 0, {}, 0, {};
    }

    // ---- What a step changes ---------------------------------------------------------------------------

    /** Task i comes to its next await with the slot it had or did not have. */
    method Become(i: nat, next: Task)
      requires Valid() && i < |tasks| && TaskOk(next, persistent)
      requires Held(next) !! locked - Held(tasks[i]) && Held(next) <= locks
      requires OwnsSlot(next) <==> OwnsSlot(tasks[i])
      requires !next.Sweeping? && (closed ==> Held(next) <= Held(tasks[i]) + toClose)
      modifies this`tasks, this`locked
      ensures Valid() && tasks == old(tasks)[i := next]
      ensures locked == old(locked) - Held(old(tasks)[i]) + Held(next)
    {
      HeldIsLocked(tasks, locked, i);
      SoundStep(tasks, locked, persistent, i, next, persistent);
      OwnersMove(tasks, i, next);
      locked := locked - Held(tasks[i]) + Held(next);
      tasks := tasks[i := next];
    }

    /** Task i gives its slot back and ends. */
    method ReleaseSlot(i: nat)
      requires Valid() && i < |tasks| && OwnsSlot(tasks[i])
      modifies this`tasks, this`locked, this`free
      ensures Valid() && tasks == old(tasks)[i := Done] && free == old(free) + 1
      ensures locked == old(locked) - Held(old(tasks)[i])
    {
      SoundStep(tasks, locked, persistent, i, Done, persistent);
      assert locked - Held(tasks[i]) + Held(Done) == locked - Held(tasks[i]);
      OwnersMove(tasks, i, Done);
      locked := locked - Held(tasks[i]);
      tasks := tasks[i := Done];
      free := free + 1;
    }

    // ---- acquire ---------------------------------------------------------------------------------------

    /** A caller wants a runtime for its check. */
    method Acquire(check: Check) returns (r: Result<nat, ()>)
      requires Valid()
      modifies this`tasks, this`locks
      ensures Valid()
      ensures r == if closed then Raise(()) else Ok(|old(tasks)|)
      ensures r.Raise? ==> tasks == old(tasks)
      ensures r.Ok? ==> tasks == old(tasks) + [if check.persistent then AwaitingKey(check) else AwaitingStart(check)]
      ensures locks == if r.Ok? && check.persistent then old(locks) + {check.key} else old(locks)
    {
      if closed {
        return Raise(());
      }
      var task := if check.persistent then AwaitingKey(check) else AwaitingStart(check);
      if check.persistent {
        locks := locks + {check.key};
      }
      r := Ok(|tasks|);
      Spawn(task);
    }

    /** With the key lock: reuse the published runtime, replace it, or start one. */
    method EnterKey(i: nat, alive: bool)
      requires Valid() && i < |tasks| && tasks[i].AwaitingKey? && tasks[i].check.persistent
      requires tasks[i].check.key !in locked
      modifies this`tasks, this`locked, this`locks
      ensures Valid()
      ensures var check := old(tasks)[i].check;
              var wanted := desired == None
                            || (check.key in desired.value && desired.value[check.key] == check.generation);
              var next := if closed || !wanted then Done
                          else if check.key !in persistent then AwaitingStart(check)
                          else if persistent[check.key].generation == check.generation && alive
                            then UsingPersistent(check, persistent[check.key].runtime)
                          else Replacing(check, persistent[check.key].runtime);
              tasks == old(tasks)[i := next] && locked == old(locked) + Held(next) && locks == old(locks) + {check.key}
    {
      var check := tasks[i].check;
      locks := locks + {check.key};
      if closed || !Wanted(check.key, check.generation) {
        Become(i, Done);
      } else if check.key !in persistent {
        Become(i, AwaitingStart(check));
      } else if persistent[check.key].generation == check.generation && alive {
        Become(i, UsingPersistent(check, persistent[check.key].runtime));
      } else {
        Become(i, Replacing(check, persistent[check.key].runtime));
      }
    }

    /** With the start lock: refused while a restart is backed off. */
    method EnterStart(i: nat, backedOff: bool)
      requires Valid() && i < |tasks| && tasks[i].AwaitingStart?
      modifies this`tasks, this`locked
      ensures Valid() && tasks == old(tasks)[i := if backedOff then Done else AwaitingSlot(old(tasks)[i].check)]
      ensures locked == if backedOff then old(locked) - Held(old(tasks)[i]) else old(locked)
    {
      HeldIsLocked(tasks, locked, i);
      Become(i, if backedOff then Done else AwaitingSlot(tasks[i].check));
    }

    method TakeSlot(i: nat)
      requires Valid() && i < |tasks| && tasks[i].AwaitingSlot? && free > 0
      modifies this`tasks, this`free
      ensures Valid() && free == old(free) - 1 && tasks == old(tasks)[i := Starting(old(tasks)[i].check)]
    {
      var next := Starting(tasks[i].check);
      HeldIsLocked(tasks, locked, i);
      SoundStep(tasks, locked, persistent, i, next, persistent);
      OwnersMove(tasks, i, next);
      assert locked - Held(tasks[i]) + Held(next) == locked;
      tasks := tasks[i := next];
      free := free - 1;
    }

    /** The manager delivered a runtime. A persistent one is published only if its generation is wanted now. */
    method Started(i: nat, runtime: nat)
      requires Valid() && i < |tasks| && tasks[i].Starting?
      modifies this`tasks, this`locked, this`persistent
      ensures Valid()
      ensures var check := old(tasks)[i].check;
              var wanted := desired == None
                            || (check.key in desired.value && desired.value[check.key] == check.generation);
              var publishes := check.persistent && !closed && wanted;
              && tasks == old(tasks)[i := if !check.persistent then UsingFresh(check)
                                          else if publishes then UsingPersistent(check, runtime)
                                          else DiscardingObsolete(check)]
              && persistent == (if publishes then old(persistent)[check.key := Persistent(runtime, check.generation)]
                                else old(persistent))
              && locked == (if publishes then old(locked) - {check.key} else old(locked))
    {
      var check := tasks[i].check;
      HeldIsLocked(tasks, locked, i);
      if !check.persistent {
        Become(i, UsingFresh(check));
        assert locked == old(locked);
      } else if closed || !Wanted(check.key, check.generation) {
        Become(i, DiscardingObsolete(check));
        assert locked == old(locked);
      } else {
        Publish(i, check, runtime);
      }
    }

    method Publish(i: nat, check: Check, runtime: nat)
      requires Valid() && i < |tasks| && tasks[i] == Starting(check)
      requires check.persistent && !closed && Wanted(check.key, check.generation)
      modifies this`tasks, this`locked, this`persistent
      ensures Valid() && tasks == old(tasks)[i := UsingPersistent(check, runtime)]
      ensures persistent == old(persistent)[check.key := Persistent(runtime, check.generation)]
      ensures locked == old(locked) - {check.key}
    {
      var next := UsingPersistent(check, runtime);
      var after := persistent[check.key := Persistent(runtime, check.generation)];
      assert TaskOk(tasks[i], persistent);
      SoundStep(tasks, locked, persistent, i, next, after);
      assert locked - {check.key} + Held(next) == locked - {check.key};
      SweepsStep(tasks, persistent, locked, Sweeps(), i, next, after, locked - {check.key});
      OwnersMove(tasks, i, next);
      PoolState.Published(persistent, check.key, Persistent(runtime, check.generation));
      persistent := after;
      locked := locked - {check.key};
      tasks := tasks[i := next];
    }

    /** The start failed or was cancelled; what was started is being discarded. */
    method StartFails(i: nat)
      requires Valid() && i < |tasks| && tasks[i].Starting?
      modifies this`tasks, this`locked
      ensures Valid() && tasks == old(tasks)[i := AbandoningStart(old(tasks)[i].check)] && locked == old(locked)
    {
      HeldIsLocked(tasks, locked, i);
      Become(i, AbandoningStart(tasks[i].check));
      assert locked == old(locked);
    }

    /** An abandoned, obsolete or finished runtime has been discarded, in whatever way that ended. */
    method Discarded(i: nat)
      requires Valid() && i < |tasks|
      requires tasks[i].AbandoningStart? || tasks[i].DiscardingObsolete? || tasks[i].StoppingFresh?
      modifies this`tasks, this`locked, this`free
      ensures Valid() && tasks == old(tasks)[i := Done] && free == old(free) + 1
      ensures locked == old(locked) - Held(old(tasks)[i])
    {
      ReleaseSlot(i);
    }

    method FreshUsed(i: nat)
      requires Valid() && i < |tasks| && tasks[i].UsingFresh?
      modifies this`tasks, this`locked
      ensures Valid() && tasks == old(tasks)[i := StoppingFresh(old(tasks)[i].check)]
    {
      Become(i, StoppingFresh(tasks[i].check));
    }

    /** The caller is done with a persistent runtime: it leaves, or goes on to retire it or to finish the cycle. */
    method PersistentUsed(i: nat, leaves: bool, retire: bool)
      requires Valid() && i < |tasks| && tasks[i].UsingPersistent?
      modifies this`tasks, this`locked
      ensures Valid()
      ensures tasks == old(tasks)[i := if leaves then Done
              else AwaitingCheckup(old(tasks)[i].check, old(tasks)[i].runtime, retire)]
    {
      Become(i, if leaves then Done else AwaitingCheckup(tasks[i].check, tasks[i].runtime, retire));
    }

    /** With the key lock: retire the runtime if it is still the published one and is to go or is dead. */
    method EnterCheckup(i: nat, alive: bool)
      requires Valid() && i < |tasks| && tasks[i].AwaitingCheckup? && tasks[i].check.key !in locked
      modifies this`tasks, this`locked, this`locks
      ensures Valid()
      ensures var t := old(tasks)[i];
              var current := t.check.key in persistent && persistent[t.check.key].runtime == t.runtime;
              && tasks == old(tasks)[i := if current && (t.retire || !alive) then Retiring(t.check, t.runtime)
                 else Done]
              && locked == if current && (t.retire || !alive) then old(locked) + {t.check.key} else old(locked)
    {
      var t := tasks[i];
      locks := locks + {t.check.key};
      if t.check.key in persistent && persistent[t.check.key].runtime == t.runtime && (t.retire || !alive) {
        Become(i, Retiring(t.check, t.runtime));
      } else {
        Become(i, Done);
      }
    }

    /** A replaced or retired runtime has stopped: whether that raised or not, it is withdrawn and its slot freed. */
    method Stopped(i: nat, raised: bool)
      requires Valid() && i < |tasks| && (tasks[i].Replacing? || tasks[i].Retiring?)
      modifies this`tasks, this`locked, this`persistent, this`free
      ensures Valid() && free == old(free) + 1
      ensures persistent == old(persistent) - {old(tasks)[i].check.key}
      ensures tasks == old(tasks)[i := if raised || old(tasks)[i].Retiring? then Done
              else AwaitingStart(old(tasks)[i].check)]
      ensures locked == old(locked) - {old(tasks)[i].check.key} + Held(tasks[i])
    {
      var t := tasks[i];
      Withdraw(i, t.check.key, if raised || t.Retiring? then Done else AwaitingStart(t.check));
    }

    method Withdraw(i: nat, k: Key, next: Task)
      requires Valid() && i < |tasks| && Held(tasks[i]) == {k} && k in persistent && !OwnsSlot(tasks[i])
      requires Held(next) <= {k} && !OwnsSlot(next) && TaskOk(next, persistent - {k})
      requires next.Sweeping? ==> SweepOk(next, i, Sweeps())
      modifies this`tasks, this`locked, this`persistent, this`free
      ensures Valid() && free == old(free) + 1 && persistent == old(persistent) - {k}
      ensures tasks == old(tasks)[i := next] && locked == old(locked) - {k} + Held(next)
    {
      Withdrawn(tasks, persistent, locked, Sweeps(), i, k, next);
      persistent := persistent - {k};
      free := free + 1;
      locked := locked - {k} + Held(next);
      tasks := tasks[i := next];
    }

    /** A task suspended at a lock, at the semaphore or between two keys is cancelled. */
    method Cancel(i: nat)
      requires Valid() && i < |tasks|
      requires tasks[i].AwaitingKey? || tasks[i].AwaitingStart? || tasks[i].AwaitingSlot? || tasks[i].AwaitingCheckup?
               || (tasks[i].Sweeping? && tasks[i].stopping.None?)
      modifies this`tasks, this`locked
      ensures Valid() && tasks == old(tasks)[i := Done] && locked == old(locked) - Held(old(tasks)[i])
    {
      Become(i, Done);
    }

    // ---- reconcile and close ---------------------------------------------------------------------------

    /** A new inventory: what is wanted changes at once, the keys are visited one by one after that. */
    method Reconcile(wanted: map<Key, Generation>)
      requires Valid()
      modifies this`desired, this`tasks, this`latest, this`unsettled
      ensures Valid() && desired == Some(wanted) && latest == |old(tasks)| && unsettled == persistent.Keys + locks
      ensures tasks == old(tasks) + [Sweeping(wanted, persistent.Keys + locks, None, false)]
    {
      var task := Sweeping(wanted, persistent.Keys + locks, None, false);
      desired := Some(wanted);
      latest, unsettled := |tasks|, persistent.Keys + locks;
      Spawn(task);
    }

    method Close()
      requires Valid()
      modifies this`desired, this`tasks, this`closed, this`latest, this`unsettled, this`closer, this`toClose
      ensures Valid() && closed
      ensures old(closed) ==>
                tasks == old(tasks) && desired == old(desired) && unsettled == old(unsettled) && toClose == old(toClose)
      ensures !old(closed) ==> desired == Some(map[]) && closer == |old(tasks)|
                               && tasks == old(tasks) + [Sweeping(map[], persistent.Keys + locks, None, true)]
    {
      if closed {
        return;
      }
      var task := Sweeping(map[], persistent.Keys + locks, None, true);
      CloseBegins(tasks, persistent, locked, Sweeps(), persistent.Keys + locks);
      closed := true;
      desired := Some(map[]);
      latest, unsettled := |tasks|, persistent.Keys + locks;
      closer, toClose := |tasks|, persistent.Keys + locks;
      assert Sweeps() == SweepState(Some(map[]), true, |tasks|, task.remaining, |tasks|, task.remaining);
      Spawn(task);
    }

    method Spawn(task: Task)
      requires Sound(tasks, locked, persistent) && SlotsOk() && locked <= locks
      requires SweepsOk(tasks, persistent, locked, Sweeps())
      requires closed ==> closer <= |tasks|
      requires Held(task) == {} && !OwnsSlot(task) && TaskOk(task, persistent)
      requires task.Sweeping? ==> SweepOk(task, |tasks|, Sweeps())
      modifies this`tasks
      ensures Valid() && tasks == old(tasks) + [task]
    {
      SoundSpawn(tasks, locked, persistent, task);
      tasks := tasks + [task];
    }

    /** With the lock of key k: leave its runtime published, or stop it. */
    method SweepKey(i: nat, k: Key, alive: bool)
      requires Valid() && i < |tasks| && tasks[i].Sweeping? && tasks[i].stopping.None? && k in tasks[i].remaining
      requires k !in locked
      modifies this`tasks, this`locked, this`locks, this`unsettled, this`toClose
      ensures Valid() && unsettled <= old(unsettled) && locks == old(locks) + {k}
      ensures var t := old(tasks)[i];
              var stays := k !in persistent || (k in t.wanted && t.wanted[k] == persistent[k].generation && alive);
              tasks == old(tasks)[i := if stays then t.(remaining := t.remaining - {k})
                else t.(stopping := Some((k, persistent[k].runtime)))]
    {
      var t := tasks[i];
      locks := locks + {k};
      if k !in persistent || (k in t.wanted && t.wanted[k] == persistent[k].generation && alive) {
        Visited(i, k);
      } else {
        BeginStopping(i, k);
      }
    }

    method BeginStopping(i: nat, k: Key)
      requires Valid() && i < |tasks| && tasks[i].Sweeping? && tasks[i].stopping.None? && k in tasks[i].remaining
      requires k !in locked
      requires k in persistent && k in locks
      modifies this`tasks, this`locked
      ensures Valid() && tasks == old(tasks)[i := old(tasks)[i].(stopping := Some((k, persistent[k].runtime)))]
    {
      var next := tasks[i].(stopping := Some((k, persistent[k].runtime)));
      SoundStep(tasks, locked, persistent, i, next, persistent);
      assert locked - Held(tasks[i]) + Held(next) == locked + {k};
      SweepsStep(tasks, persistent, locked, Sweeps(), i, next, persistent, locked + {k});
      OwnersMove(tasks, i, next);
      locked := locked + {k};
      tasks := tasks[i := next];
    }

    /** A sweep is through with key k. */
    method Visited(i: nat, k: Key)
      requires Valid() && i < |tasks| && tasks[i].Sweeping? && tasks[i].stopping.None? && k in tasks[i].remaining
      requires k !in locked
      requires k in persistent ==> k in tasks[i].wanted && tasks[i].wanted[k] == persistent[k].generation
      modifies this`tasks, this`unsettled, this`toClose
      ensures Valid() && unsettled <= old(unsettled)
      ensures tasks == old(tasks)[i := old(tasks)[i].(remaining := old(tasks)[i].remaining - {k})]
    {
      var next := tasks[i].(remaining := tasks[i].remaining - {k});
      KeyVisited(tasks, persistent, locked, Sweeps(), i, k);
      if i == latest {
        unsettled := unsettled - {k};
      }
      if closed && i == closer {
        toClose := toClose - {k};
      }
      tasks := tasks[i := next];
    }

    /** The runtime a sweep was stopping has stopped; if that raised, the sweep is over. */
    method SweepStopped(i: nat, raised: bool)
      requires Valid() && i < |tasks| && tasks[i].Sweeping? && tasks[i].stopping.Some?
      modifies this`tasks, this`locked, this`persistent, this`free, this`unsettled, this`toClose
      ensures Valid() && unsettled <= old(unsettled) && free == old(free) + 1
      ensures var t := old(tasks)[i];
              && persistent == old(persistent) - {t.stopping.value.0}
              && tasks == old(tasks)[i := if raised then Done
                 else t.(remaining := t.remaining - {t.stopping.value.0}, stopping := None)]
    {
      var t := tasks[i];
      var k := t.stopping.value.0;
      if raised {
        Withdraw(i, k, Done);
      } else {
        Withdraw(i, k, t.(stopping := None));
        Visited(i, k);
        assert tasks == old(tasks)[i := t.(remaining := t.remaining - {k}, stopping := None)];
      }
    }

    /** All keys visited. After the latest reconcile everything published is wanted. */
    method ReconcileReturns(i: nat)
      requires Valid() && i < |tasks| && tasks[i].Sweeping? && !tasks[i].closing && tasks[i].stopping.None?
      requires tasks[i].remaining == {}
      modifies this`tasks, this`locked
      ensures Valid() && tasks == old(tasks)[i := Done]
      ensures i == latest ==> unsettled == {} && desired == Some(old(tasks)[i].wanted)
      ensures i == latest ==> forall k :: k in persistent ==>
                k in desired.value && desired.value[k] == persistent[k].generation
    {
      Become(i, Done);
    }

    /** Close has visited all keys: nothing is published, so that clearing the dictionary loses no slot. */
    method CloseReturns(i: nat)
      requires Valid() && i < |tasks| && tasks[i].Sweeping? && tasks[i].closing && tasks[i].stopping.None?
      requires tasks[i].remaining == {}
      modifies this`tasks, this`locked, this`persistent, this`locks
      ensures Valid() && tasks == old(tasks)[i := Done] && closed && toClose == {}
      ensures old(persistent) == persistent == map[] && locked == {} && locks == {} && free + Owners(tasks) == limit
    {
      assert persistent == map[];
      Become(i, Done);
      persistent := map[];
      locks := {};
    }

    // ---- Every run -------------------------------------------------------------------------------------

    predicate Enabled(e: Event)
      reads this
    {
      if e.Acquires? || e.Reconciles? || e.Closes? then true
      else if e.task >= |tasks| then false
      else
        var t := tasks[e.task];
        match e
        case EntersKey(_, _) => t.AwaitingKey? && t.check.persistent && t.check.key !in locked
        case EntersStart(_, _) => t.AwaitingStart?
        case TakesSlot(_) => t.AwaitingSlot? && free > 0
        case IsStarted(_, _) => t.Starting?
        case FailsToStart(_) => t.Starting?
        case IsDiscarded(_) => t.AbandoningStart? || t.DiscardingObsolete? || t.StoppingFresh?
        case FreshIsUsed(_) => t.UsingFresh?
        case PersistentIsUsed(_, _, _) => t.UsingPersistent?
        case EntersCheckup(_, _) => t.AwaitingCheckup? && t.check.key !in locked
        case HasStopped(_, _) => t.Replacing? || t.Retiring?
        case IsCancelled(_) =>
          || t.AwaitingKey? || t.AwaitingStart? || t.AwaitingSlot? || t.AwaitingCheckup?
          || (t.Sweeping? && t.stopping.None?)
        case SweepsKey(_, k, _) => t.Sweeping? && t.stopping.None? && k in t.remaining && k !in locked
        case SweepHasStopped(_, _) => t.Sweeping? && t.stopping.Some?
        case SweepReturns(_) => t.Sweeping? && t.stopping.None? && t.remaining == {}
    }

    /**
      Nothing gets stuck: while a task is not done, something other than a cancellation can happen,
      unless every slot is taken by a published runtime and no task is about to give one back.
      Callers are never held back.
     */
    lemma SomethingCanHappen(i: nat) returns (e: Event)
      requires Valid() && i < |tasks| && !tasks[i].Done?
      requires free + Owners(tasks) > 0
      ensures Enabled(e) && !e.IsCancelled? && !e.Acquires? && !e.Reconciles? && !e.Closes?
      ensures forall call: Event :: call.Acquires? || call.Reconciles? || call.Closes? ==> Enabled(call)
    {
      assert TaskOk(tasks[i], persistent);
      match tasks[i] {
        case AwaitingKey(check) =>
          if check.key in locked {
            var j := LockedIsHeld(tasks, locked, check.key);
            e := HolderCanMove(j, check.key);
          } else {
            e := EntersKey(i, true);
          }
        case AwaitingCheckup(check, _, _) =>
          if check.key in locked {
            var j := LockedIsHeld(tasks, locked, check.key);
            e := HolderCanMove(j, check.key);
          } else {
            e := EntersCheckup(i, true);
          }
        case Sweeping(_, remaining, None, _) =>
          if k :| k in remaining {
            if k in locked {
              var j := LockedIsHeld(tasks, locked, k);
              e := HolderCanMove(j, k);
            } else {
              e := SweepsKey(i, k, true);
            }
          } else {
            e := SweepReturns(i);
          }
        case UsingPersistent(_, _) => e := PersistentIsUsed(i, true, true);
        case UsingFresh(_) => e := OwnerCanMove(i);
        case StoppingFresh(_) => e := OwnerCanMove(i);
        case AwaitingStart(_) => e := EntersStart(i, true);
        case AwaitingSlot(_) => e := SlotComesFree(i);
        case _ => e := HolderOrOwnerCanMove(i);
      }
    }

    lemma HolderCanMove(j: nat, k: Key) returns (e: Event)
      requires Valid() && j < |tasks| && k in Held(tasks[j]) && free + Owners(tasks) > 0
      ensures Enabled(e) && !e.IsCancelled? && !e.Acquires? && !e.Reconciles? && !e.Closes?
    {
      match tasks[j] {
        case AwaitingStart(_) => e := EntersStart(j, true);
        case AwaitingSlot(_) => e := SlotComesFree(j);
        case _ => e := HolderOrOwnerCanMove(j);
      }
    }

    lemma HolderOrOwnerCanMove(j: nat) returns (e: Event)
      requires j < |tasks|
      requires tasks[j].Replacing? || tasks[j].Retiring? || tasks[j].Starting? || tasks[j].AbandoningStart?
               || tasks[j].DiscardingObsolete? || (tasks[j].Sweeping? && tasks[j].stopping.Some?)
      ensures Enabled(e) && !e.IsCancelled? && !e.Acquires? && !e.Reconciles? && !e.Closes?
    {
      match tasks[j] {
        case Replacing(_, _) => e := HasStopped(j, false);
        case Retiring(_, _) => e := HasStopped(j, false);
        case Sweeping(_, _, _, _) => e := SweepHasStopped(j, false);
        case _ => e := OwnerCanMove(j);
      }
    }

    lemma OwnerCanMove(j: nat) returns (e: Event)
      requires j < |tasks| && OwnsSlot(tasks[j])
      ensures Enabled(e) && !e.IsCancelled? && !e.Acquires? && !e.Reconciles? && !e.Closes?
    {
      match tasks[j] {
        case Starting(_) => e := FailsToStart(j);
        case UsingFresh(_) => e := FreshIsUsed(j);
        case _ => e := IsDiscarded(j);
      }
    }

    /** Who waits for a slot gets one, or somebody who has one can go on. */
    lemma SlotComesFree(i: nat) returns (e: Event)
      requires Valid() && i < |tasks| && tasks[i].AwaitingSlot? && free + Owners(tasks) > 0
      ensures Enabled(e) && !e.IsCancelled? && !e.Acquires? && !e.Reconciles? && !e.Closes?
    {
      if free > 0 {
        e := TakesSlot(i);
      } else {
        var j := SomebodyOwns(tasks);
        e := OwnerCanMove(j);
      }
    }

    method Step(e: Event)
      requires Valid() && Enabled(e)
      modifies this
      ensures Valid()
      ensures !e.Reconciles? && !e.Closes? ==>
                desired == old(desired) && latest == old(latest) && unsettled <= old(unsettled)
      ensures old(closed) ==> closed
    {
      match e {
        case Acquires(check) => var _ := Acquire(check);
        case EntersKey(i, alive) => EnterKey(i, alive);
        case EntersStart(i, backedOff) => EnterStart(i, backedOff);
        case TakesSlot(i) => TakeSlot(i);
        case IsStarted(i, runtime) => Started(i, runtime);
        case FailsToStart(i) => StartFails(i);
        case IsDiscarded(i) => Discarded(i);
        case FreshIsUsed(i) => FreshUsed(i);
        case PersistentIsUsed(i, leaves, retire) => PersistentUsed(i, leaves, retire);
        case EntersCheckup(i, alive) => EnterCheckup(i, alive);
        case HasStopped(i, raised) => Stopped(i, raised);
        case IsCancelled(i) => Cancel(i);
        case _ => SweepStep(e);
      }
    }

    /** A stretch of reconcile or of close. */
    method SweepStep(e: Event)
      requires e.Reconciles? || e.Closes? || e.SweepsKey? || e.SweepHasStopped? || e.SweepReturns?
      requires Valid() && Enabled(e)
      modifies this
      ensures Valid()
      ensures !e.Reconciles? && !e.Closes? ==>
                desired == old(desired) && latest == old(latest) && unsettled <= old(unsettled)
      ensures old(closed) ==> closed
    {
      match e {
        case Reconciles(wanted) => Reconcile(wanted);
        case Closes => Close();
        case SweepsKey(i, k, alive) => SweepKey(i, k, alive);
        case SweepHasStopped(i, raised) => SweepStopped(i, raised);
        case SweepReturns(i) =>
          if tasks[i].closing {
            CloseReturns(i);
          } else {
            ReconcileReturns(i);
          }
      }
    }

    /**
      Whatever happens, in whatever order: no slot is lost or freed twice, and once settled the
      pool stays so until the next sweep.
     */
    method RunEvents(events: seq<Event>)
      requires Valid()
      modifies this
      ensures Valid() && free + |persistent| + Owners(tasks) == limit
      ensures old(unsettled) == {} && (forall e :: e in events ==> !e.Reconciles? && !e.Closes?) ==>
                unsettled == {} && desired == old(desired)
    {
      CountIsSize(persistent);
      for n := 0 to |events|
        invariant Valid()
        invariant old(unsettled) == {} && (forall e :: e in events ==> !e.Reconciles? && !e.Closes?) ==>
                    unsettled == {} && desired == old(desired)
      {
        if Enabled(events[n]) {
          assert events[n] in events;
          Step(events[n]);
        }
      }
      CountIsSize(persistent);
    }

    // ---- What the invariant means ----------------------------------------------------------------------

    /** Closed, and no task in flight: every slot is free. */
    lemma AllSlotsFreeAfterClose()
      requires Valid() && closed && toClose == {} && forall i :: 0 <= i < |tasks| ==> tasks[i].Done?
      ensures free == limit
    {
      DoneHoldsNothing(tasks, locked);
      assert Count(persistent) == 0;
    }

    /**
      Until the next sweep begins nothing obsolete is published, so persistent runtimes take no
      more slots than there are wanted keys.
     */
    lemma NothingObsoleteIsPublished()
      requires Valid() && unsettled == {} && desired.Some?
      ensures forall k :: k in persistent ==> k in desired.value && desired.value[k] == persistent[k].generation
      ensures |persistent| <= |desired.value|
    {
      KeysBound(persistent.Keys, desired.value.Keys);
      assert |persistent.Keys| == |persistent| && |desired.value.Keys| == |desired.value|;
    }
  }

  lemma {:induction false} KeysBound(a: set<Key>, b: set<Key>)
    requires a <= b
    ensures |a| <= |b|
  {
    if a != {} {
      var k :| k in a;
      KeysBound(a - {k}, b - {k});
    }
  }
}
