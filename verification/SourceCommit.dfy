/** Accepting a source generation in the running service: the durable pointer decides, and memory follows it. */
module SourceCommit {
  import opened Wrappers
  import opened Faults
  import opened SourceStore

  datatype Exit = Returns | Raises | CancelsCommitted

  /** How the attempts to publish and the executor maintenance go, and whether the caller is cancelled meanwhile. */
  datatype Schedule = Schedule(
    first: PublishFaults, firstId: string,
    second: PublishFaults, secondId: string,
    hasPool: bool, poolReconciles: bool,
    resultsPrune: bool,
    hasScheduler: bool, schedulerUpdates: bool,
    cancelled: bool)

  predicate ExecutorFails(s: Schedule) {
    (s.hasPool && !s.poolReconciles) || !s.resultsPrune || (s.hasScheduler && !s.schedulerUpdates)
  }

  /** What a restart loads once the generation and its bindings are accepted. */
  function AcceptedState(g: Generation, registry: Bindings): Result<Accepted, LoadError> {
    Ok(Accepted(Some(g), BindingsIn(registry, g.sourceId)))
  }

  /** Publication keeps a well-formed store well formed. */
  lemma PublishedIsWellFormed(d: Store, d': Store, s: string)
    requires WellFormed(d) && Load(d', s).Ok?
    requires OthersUndisturbed(d, d', s)
    requires d'.mirror == d.mirror || (d'.mirror.Some? && d'.mirror.value.Good?)
    ensures WellFormed(d')
  {
    forall t | t in d'.sources && t != s
      ensures Load(d', t).Ok?
    {
      LoadsAnyway(d, t);
    }
  }

  lemma LoadsAnyway(d: Store, t: string)
    requires WellFormed(d)
    ensures Load(d, t).Ok?
  {
  }

  /** State identifiers are random: new to the source, and different for the two attempts. */
  predicate FreshIds(d: Store, g: Generation, s: Schedule) {
    s.firstId !in DirOf(d, g.sourceId).states && s.secondId !in DirOf(d, g.sourceId).states && s.firstId != s.secondId
  }

  /** The second attempt, made after the first raised, gets as far as the pointer. */
  predicate SecondReaches(d: Store, g: Generation, s: Schedule) {
    && !Rebinds(d, g)
    && (g.id in DirOf(d, g.sourceId).generations || !s.first.generation.RaisesBefore? || s.second.generation.NoFault?)
    && s.second.state.NoFault?
  }

  /** One of the two attempts to publish returns; decided by the store and the schedule before. */
  predicate AttemptReturns(d: Store, g: Generation, s: Schedule) {
    (ReachesPointer(d, g, s.first) && s.first.pointer.NoFault?) || (SecondReaches(d, g, s) && s.second.pointer.NoFault?)
  }

  /** One of the two attempts switches the pointer. */
  predicate AttemptSwitches(d: Store, g: Generation, s: Schedule) {
    PointerSwitches(d, g, s.first) || (SecondReaches(d, g, s) && !s.second.pointer.RaisesBefore?)
  }

  /** Everything the registry is read from, but for source s, can be read. */
  predicate OthersRead(d: Store, s: string) {
    MirrorBindings(d).Ok? && forall t :: t in d.sources && t != s ==> SourceReads(d, t)
  }

  /** Once source s loads, the registry can be read exactly if the rest could be read before. */
  lemma ReadsIffOthersRead(d: Store, d': Store, s: string)
    requires d'.mirror == d.mirror && OthersSame(d, d', s) && Load(d', s).Ok?
    ensures RegistryReads(d') <==> OthersRead(d, s)
  {
    forall t | t != s
      ensures SourceReads(d', t) <==> SourceReads(d, t)
    {
      assert DirOf(d', t) == DirOf(d, t);
    }
    assert forall t :: t !in d'.sources ==> SourceReads(d', t);
    assert forall t :: t !in d.sources ==> SourceReads(d, t);
  }

  /** A restart would load this generation with these bindings. */
  predicate IsDurable(d: Store, g: Generation, registry: Bindings) {
    Load(d, g.sourceId) == AcceptedState(g, registry)
  }

  class Service<Inventory> {
    const store: DataStore
    var identity: Bindings
    var generations: map<string, Generation>
    var inventory: Inventory
    var ready: bool
    var refreshSucceeded: Option<bool>
    var schedulerRunning: bool

    constructor (store: DataStore, inventory: Inventory)
      ensures this.store == store && this.inventory == inventory
      ensures identity == map[] && generations == map[] && !ready && refreshSucceeded == None && !schedulerRunning
    {
      this.store, this.inventory := store, inventory;
      identity, generations, ready, refreshSucceeded, schedulerRunning := map[], map[], false, None, false;
    }

    /** Resolve an ambiguous write error by asking what a restart would load; a damaged store answers no. */
    method SourcePublishIsVisible(g: Generation, registry: Bindings) returns (visible: bool)
      ensures visible <==> RegistryReads(store.store) && IsDurable(store.store, g, registry)
    {
      var persisted := LoadLkg(store.store, g.sourceId);
      var loaded := store.LoadIdentityRegistry();
      if persisted.Raise? || loaded.Raise? {
        return false;
      }
      visible := persisted.value == Some(g) && BindingsIn(loaded.value, g.sourceId) == BindingsIn(registry, g.sourceId);
      assert Ok(BindingsIn(loaded.value, g.sourceId)) == LoadBindings(store.store, g.sourceId);
    }

    /** Publish, once more if that raised, and find out whether the pointer was switched after all. */
    method PublishDurably(g: Generation, registry: Bindings, s: Schedule) returns (accepted: bool)
      requires FreshIds(store.store, g, s)
      modifies store
      ensures accepted <==> IsDurable(store.store, g, registry)
                            && (AttemptReturns(old(store.store), g, s) || OthersRead(old(store.store), g.sourceId))
      ensures WellFormed(old(store.store)) ==> (accepted <==> IsDurable(store.store, g, registry))
      ensures AttemptSwitches(old(store.store), g, s) ==> IsDurable(store.store, g, registry)
      ensures Load(old(store.store), g.sourceId).Ok? ==>
                (IsDurable(store.store, g, registry)
                 <==> AttemptSwitches(old(store.store), g, s) || IsDurable(old(store.store), g, registry))
      ensures !AttemptSwitches(old(store.store), g, s) && Load(old(store.store), g.sourceId).Ok? ==>
                Load(store.store, g.sourceId) == Load(old(store.store), g.sourceId)
      ensures WellFormed(old(store.store)) ==> WellFormed(store.store)
      ensures OthersUndisturbed(old(store.store), store.store, g.sourceId)
    {
      ghost var d0 := store.store;
      var published := store.PublishSourceState(g, registry, s.firstId, s.first);
      if WellFormed(d0) {
        LoadsAnyway(d0, g.sourceId);
        PublishedIsWellFormed(d0, store.store, g.sourceId);
      }
      if published.Ok? {
        return true;
      }
      ghost var d1 := store.store;
      published := store.PublishSourceState(g, registry, s.secondId, s.second);
      if WellFormed(d0) {
        PublishedIsWellFormed(d1, store.store, g.sourceId);
        WellFormedRegistryReads(store.store);
      }
      if published.Ok? {
        return true;
      }
      if IsDurable(store.store, g, registry) {
        ReadsIffOthersRead(d0, store.store, g.sourceId);
      }
      accepted := SourcePublishIsVisible(g, registry);
    }

    /** The executor is brought to the accepted state; if it cannot follow, readiness goes and its scheduler stops. */
    method FollowExecutor(s: Schedule)
      modifies this`ready, this`schedulerRunning
      ensures ready == (old(ready) && !ExecutorFails(s))
      ensures schedulerRunning == (old(schedulerRunning) && !(ExecutorFails(s) && s.hasScheduler))
    {
      var executorFailed := s.hasPool && !s.poolReconciles;
      if !s.resultsPrune {
        executorFailed := true;
      }
      if s.hasScheduler && !executorFailed && !s.schedulerUpdates {
        executorFailed := true;
      }
      if executorFailed {
        ready := false;
        if s.hasScheduler {
          schedulerRunning := false;
        }
      }
    }

    /** Memory follows the disk, and stays when the executor cannot follow. */
    method Adopt(registry: Bindings, newGenerations: map<string, Generation>, newInventory: Inventory,
                 reconcileExecutor: bool, s: Schedule)
      modifies this
      ensures identity == registry && generations == newGenerations && inventory == newInventory
      ensures refreshSucceeded == Some(true)
      ensures ready == (old(ready) && !(reconcileExecutor && ExecutorFails(s)))
      ensures schedulerRunning == (old(schedulerRunning) && !(reconcileExecutor && ExecutorFails(s) && s.hasScheduler))
    {
      identity := registry;
      generations := newGenerations;
      inventory := newInventory;
      refreshSucceeded := Some(true);
      if reconcileExecutor {
        FollowExecutor(s);
      }
    }

    /** Accept a generation with its bindings. */
    method CommitSourceState(g: Generation, registry: Bindings, newGenerations: map<string, Generation>,
                             newInventory: Inventory, reconcileExecutor: bool, s: Schedule)
      returns (exit: Exit)
      requires FreshIds(store.store, g, s)
      modifies this, store
      ensures WellFormed(old(store.store)) ==> WellFormed(store.store)
      // Accepted in memory exactly if accepted on disk, as long as failed writes can be looked into.
      ensures !exit.Raises? <==> IsDurable(store.store, g, registry)
                                 && (AttemptReturns(old(store.store), g, s) || OthersRead(old(store.store), g.sourceId))
      ensures WellFormed(old(store.store)) ==> (!exit.Raises? <==> IsDurable(store.store, g, registry))
      ensures AttemptSwitches(old(store.store), g, s) ==> IsDurable(store.store, g, registry)
      ensures Load(old(store.store), g.sourceId).Ok? ==>
                (IsDurable(store.store, g, registry)
                 <==> AttemptSwitches(old(store.store), g, s) || IsDurable(old(store.store), g, registry))
      ensures !AttemptSwitches(old(store.store), g, s) && Load(old(store.store), g.sourceId).Ok? ==>
                Load(store.store, g.sourceId) == Load(old(store.store), g.sourceId)
      ensures exit.CancelsCommitted? <==> !exit.Raises? && s.cancelled
      // Rejected: everything in memory is as it was.
      ensures exit.Raises? ==>
                && identity == old(identity) && generations == old(generations) && inventory == old(inventory)
                && ready == old(ready) && refreshSucceeded == old(refreshSucceeded)
                && schedulerRunning == old(schedulerRunning)
      // Accepted: everything is switched, and stays switched when the executor cannot follow.
      ensures !exit.Raises? ==>
                && identity == registry && generations == newGenerations && inventory == newInventory
                && refreshSucceeded == Some(true)
                && ready == (old(ready) && !(reconcileExecutor && ExecutorFails(s)))
                && (ready <==> old(ready) && (!reconcileExecutor
                                              || ((s.hasPool ==> s.poolReconciles) && s.resultsPrune
                                                  && (s.hasScheduler ==> s.schedulerUpdates))))
                && schedulerRunning == (old(schedulerRunning) &&
                   !(reconcileExecutor && ExecutorFails(s) && s.hasScheduler))
      ensures OthersUndisturbed(old(store.store), store.store, g.sourceId)
    {
      var accepted := PublishDurably(g, registry, s);
      if !accepted {
        return Raises;
      }
      Adopt(registry, newGenerations, newInventory, reconcileExecutor, s);
      exit := if s.cancelled then CancelsCommitted else Returns;
    }
  }

  /** Both pointer renames take effect but report a failure. */
  function BothReportFailure(): Schedule {
    var faults := PublishFaults(NoFault, NoFault, RaisesAfter, NoFault, []);
    Schedule(faults, "1", faults, "2", false, true, true, false, true, false)
  }

  /** Commits that are rejected although they are durable: the damaged state of another source cannot be looked into. */
  method RejectedThoughDurable() returns (service: Service<int>, exit: Exit)
    ensures fresh(service) && exit.Raises? && service.identity == map[]
    ensures IsDurable(service.store.store, Generation("a", "g", "new"), map[])
  {
    var damaged := SourceDir(Some(Good(Pointer("h", Some("missing")))), map[], map[]);
    assert "a"[0] == 'a' && "b"[0] == 'b';
    var d := Store(map["b" := damaged], None);
    assert !SourceReads(d, "b");
    service, exit := RejectedOn(d);
  }

  /** The same without any other source: the damaged mirror of all bindings cannot be looked into. */
  method RejectedForTheMirror() returns (service: Service<int>, exit: Exit)
    ensures fresh(service) && exit.Raises? && service.identity == map[]
    ensures IsDurable(service.store.store, Generation("a", "g", "new"), map[])
  {
    service, exit := RejectedOn(Store(map[], Some(Corrupt)));
  }

  method RejectedOn(d: Store) returns (service: Service<int>, exit: Exit)
    requires DirOf(d, "a") == EMPTY && !OthersRead(d, "a")
    ensures fresh(service) && exit.Raises? && service.identity == map[]
    ensures IsDurable(service.store.store, Generation("a", "g", "new"), map[])
  {
    assert "1"[0] == '1' && "2"[0] == '2';
    var store := new DataStore(d);
    service := new Service(store, 0);
    exit := service.CommitSourceState(Generation("a", "g", "new"), map[], map[], 0, true, BothReportFailure());
  }
}
