/**
  Accepted source state on disk: immutable generation files, immutable state records, and one
  pointer per source whose replacement is the commit.
 */
module SourceStore {
  import opened Wrappers
  import opened IdentitySpec
  import opened Faults

  datatype Generation = Generation(sourceId: string, id: string, entries: string)

  datatype StateRecord = StateRecord(sourceId: string, generation: string, bindings: seq<Binding>)

  /** A file that parses, or one that does not. */
  datatype Stored<T> = Good(value: T) | Corrupt

  /** Pointers written by generation-only commits name no state. */
  datatype Pointer = Pointer(generation: string, state: Option<string>)

  datatype SourceDir = SourceDir(
    pointer: Option<Stored<Pointer>>,
    states: map<string, Stored<StateRecord>>,
    generations: map<string, Stored<Generation>>)

  type Bindings = map<string, seq<Binding>>

  datatype Store = Store(sources: map<string, SourceDir>, mirror: Option<Stored<Bindings>>)

  datatype LoadError =
    | PointerInvalid
    | StateMissing
    | StateInvalid
    | GenerationMissing
    | GenerationInvalid
    | RegistryInvalid
    | GenerationRebound
    | WriteFailed

  const EMPTY: SourceDir := SourceDir(None, map[], map[])

  function DirOf(d: Store, s: string): SourceDir {
    if s in d.sources then d.sources[s] else EMPTY
  }

  function WithDir(d: Store, s: string, dir: SourceDir): Store {
    d.(sources := d.sources[s := dir])
  }

  function BindingsIn(m: Bindings, s: string): seq<Binding> {
    if s in m then m[s] else []
  }

  /** What a pointer resolves to: a generation and, if it names a state, that state's bindings. */
  function LoadState(dir: SourceDir, s: string, p: Pointer): Result<(Generation, Option<seq<Binding>>), LoadError> {
    if p.state.Some? && p.state.value !in dir.states then Raise(StateMissing)
    else if p.state.Some? && (dir.states[p.state.value].Corrupt?
                              || dir.states[p.state.value].value.sourceId != s
                              || dir.states[p.state.value].value.generation != p.generation) then Raise(StateInvalid)
    else if p.generation !in dir.generations then Raise(GenerationMissing)
    else if dir.generations[p.generation].Corrupt?
            || dir.generations[p.generation].value.sourceId != s
            || dir.generations[p.generation].value.id != p.generation then Raise(GenerationInvalid)
    else Ok((dir.generations[p.generation].value,
             if p.state.Some? then Some(dir.states[p.state.value].value.bindings) else None))
  }

  function LoadLkg(d: Store, s: string): Result<Option<Generation>, LoadError> {
    match DirOf(d, s).pointer
    case None => Ok(None)
    case Some(Corrupt) => Raise(PointerInvalid)
    case Some(Good(p)) =>
      match LoadState(DirOf(d, s), s, p)
      case Ok(loaded) => Ok(Some(loaded.0))
      case Raise(e) => Raise(e)
  }

  /** The source has a coupled pointer, which outranks the mirror. */
  predicate HasStatePointer(d: Store, s: string) {
    DirOf(d, s).pointer.Some? && DirOf(d, s).pointer.value.Good? && DirOf(d, s).pointer.value.value.state.Some?
  }

  function StateBindings(d: Store, s: string): Result<seq<Binding>, LoadError>
    requires HasStatePointer(d, s)
  {
    match LoadState(DirOf(d, s), s, DirOf(d, s).pointer.value.value)
    case Ok(loaded) => Ok(if loaded.1.Some? then loaded.1.value else [])
    case Raise(e) => Raise(e)
  }

  function MirrorBindings(d: Store): Result<Bindings, LoadError> {
    match d.mirror
    case None => Ok(map[])
    case Some(Corrupt) => Raise(RegistryInvalid)
    case Some(Good(m)) => Ok(m)
  }

  /** The bindings a restart would use for one source. */
  function LoadBindings(d: Store, s: string): Result<seq<Binding>, LoadError> {
    if HasStatePointer(d, s) then StateBindings(d, s)
    else match MirrorBindings(d)
         case Ok(m) => Ok(BindingsIn(m, s))
         case Raise(e) => Raise(e)
  }

  /** Everything a restart knows of one source. */
  datatype Accepted = Accepted(generation: Option<Generation>, bindings: seq<Binding>)

  function Load(d: Store, s: string): Result<Accepted, LoadError> {
    match (LoadLkg(d, s), LoadBindings(d, s))
    case (Ok(g), Ok(b)) => Ok(Accepted(g, b))
    case (Raise(e), _) => Raise(e)
    case (_, Raise(e)) => Raise(e)
  }

  /** The whole store reads without error. */
  predicate WellFormed(d: Store) {
    MirrorBindings(d).Ok? && forall s :: s in d.sources ==> Load(d, s).Ok?
  }

  /** What loading the registry looks at of one source. */
  predicate SourceReads(d: Store, s: string) {
    DirOf(d, s).pointer != Some(Corrupt) && (HasStatePointer(d, s) ==> StateBindings(d, s).Ok?)
  }

  predicate RegistryReads(d: Store) {
    MirrorBindings(d).Ok? && forall s :: s in d.sources ==> SourceReads(d, s)
  }

  lemma WellFormedRegistryReads(d: Store)
    requires WellFormed(d)
    ensures RegistryReads(d)
  {
    forall s | s in d.sources
      ensures SourceReads(d, s)
    {
      assert Load(d, s).Ok?;
    }
  }

  // ---- What loading looks at, file by file -----------------------------------------------------------

  /** Following a pointer: the state it names, if any, and then the generation, each of this source and generation. */
  lemma LoadStateMeans(dir: SourceDir, s: string, p: Pointer)
    ensures var stateReads := p.state.Some? ==>
              && p.state.value in dir.states && dir.states[p.state.value].Good?
              && dir.states[p.state.value].value.sourceId == s
              && dir.states[p.state.value].value.generation == p.generation;
            match LoadState(dir, s, p)
            case Ok((g, bindings)) =>
              && stateReads && p.generation in dir.generations && dir.generations[p.generation] == Good(g)
              && g.sourceId == s && g.id == p.generation
              && bindings == if p.state == None then None else Some(dir.states[p.state.value].value.bindings)
            case Raise(StateMissing) => p.state.Some? && p.state.value !in dir.states
            case Raise(StateInvalid) => !stateReads && p.state.value in dir.states
            case Raise(GenerationMissing) => stateReads && p.generation !in dir.generations
            case Raise(error) =>
              && error == GenerationInvalid && stateReads && p.generation in dir.generations
              && !(&& dir.generations[p.generation].Good? && dir.generations[p.generation].value.sourceId == s
                   && dir.generations[p.generation].value.id == p.generation)
  {
  }

  /** What a restart knows of a source: by its pointer alone, or with the mirror where no state is named. */
  lemma LoadMeans(d: Store, s: string)
    ensures var dir := if s in d.sources then d.sources[s] else SourceDir(None, map[], map[]);
            var mirrored := match d.mirror
                            case None => Ok([])
                            case Some(Good(m)) => Ok(if s in m then m[s] else [])
                            case Some(Corrupt) => Raise(RegistryInvalid);
            match dir.pointer
            case None => Load(d, s) == if mirrored.Ok? then Ok(Accepted(None, mirrored.value))
                                       else Raise(RegistryInvalid)
            case Some(Corrupt) => Load(d, s) == Raise(PointerInvalid)
            case Some(Good(p)) =>
              match LoadState(dir, s, p)
              case Raise(error) => Load(d, s) == Raise(error)
              case Ok((g, Some(bindings))) => Load(d, s) == Ok(Accepted(Some(g), bindings))
              case Ok((g, None)) => Load(d, s) == if mirrored.Ok? then Ok(Accepted(Some(g), mirrored.value))
                                                  else Raise(RegistryInvalid)
  {
  }

  /** The registry takes each source's bindings from where a load takes them, and fails where a load would. */
  lemma BindingsMean(d: Store, s: string)
    ensures Load(d, s).Ok? ==> LoadBindings(d, s) == Ok(Load(d, s).value.bindings)
    ensures SourceReads(d, s)
       <==> var dir := if s in d.sources then d.sources[s] else SourceDir(None, map[], map[]);
            match dir.pointer
            case None => true
            case Some(Corrupt) => false
            case Some(Good(p)) => p.state == None || LoadState(dir, s, p).Ok?
  {
  }

  // ---- Single file operations, and what they do to what a restart would load -----------------------

  function PutGeneration(d: Store, s: string, g: Generation): Store {
    var dir := DirOf(d, s);
    WithDir(d, s, dir.(generations := dir.generations[g.id := Good(g)]))
  }

  function PutState(d: Store, s: string, id: string, r: StateRecord): Store {
    var dir := DirOf(d, s);
    WithDir(d, s, dir.(states := dir.states[id := Good(r)]))
  }

  function PutPointer(d: Store, s: string, p: Pointer): Store {
    WithDir(d, s, DirOf(d, s).(pointer := Some(Good(p))))
  }

  function DropState(d: Store, s: string, id: string): Store {
    var dir := DirOf(d, s);
    WithDir(d, s, dir.(states := dir.states - {id}))
  }

  function DropGeneration(d: Store, s: string, id: string): Store {
    var dir := DirOf(d, s);
    WithDir(d, s, dir.(generations := dir.generations - {id}))
  }

  /** Same pointer, same files behind it: same load. */
  ghost predicate SameBehindPointer(d: Store, d': Store, s: string) {
    && DirOf(d', s).pointer == DirOf(d, s).pointer
    && (DirOf(d, s).pointer.Some? && DirOf(d, s).pointer.value.Good? ==>
          var p := DirOf(d, s).pointer.value.value;
          && SameEntry(DirOf(d, s).generations, DirOf(d', s).generations, p.generation)
          && (p.state.Some? ==> SameEntry(DirOf(d, s).states, DirOf(d', s).states, p.state.value)))
  }

  ghost predicate SameEntry<T(!new)>(a: map<string, T>, b: map<string, T>, k: string) {
    (k in a <==> k in b) && (k in a ==> a[k] == b[k])
  }

  lemma SameBehindSameLoad(d: Store, d': Store, s: string)
    requires SameBehindPointer(d, d', s)
    ensures LoadLkg(d', s) == LoadLkg(d, s)
    ensures HasStatePointer(d', s) <==> HasStatePointer(d, s)
    ensures HasStatePointer(d, s) ==> Load(d', s) == Load(d, s)
    ensures d'.mirror == d.mirror ==> Load(d', s) == Load(d, s)
  {
  }

  /** A new immutable generation file changes no load: the pointer does not name it, or names exactly this content. */
  lemma NewGenerationIsInvisible(d: Store, s: string, g: Generation, t: string)
    requires Load(d, s).Ok? && g.sourceId == s
    requires g.id !in DirOf(d, s).generations
    ensures Load(PutGeneration(d, s, g), t) == Load(d, t)
    ensures HasStatePointer(PutGeneration(d, s, g), t) <==> HasStatePointer(d, t)
  {
    SameBehindSameLoad(d, PutGeneration(d, s, g), t);
  }

  lemma NewStateIsInvisible(d: Store, s: string, id: string, r: StateRecord, t: string)
    requires Load(d, s).Ok? && id !in DirOf(d, s).states
    ensures Load(PutState(d, s, id, r), t) == Load(d, t)
    ensures HasStatePointer(PutState(d, s, id, r), t) <==> HasStatePointer(d, t)
  {
    SameBehindSameLoad(d, PutState(d, s, id, r), t);
  }

  /** The pointer rename is the commit: it switches generation and bindings together. */
  lemma PointerCommits(d: Store, s: string, g: Generation, id: string, bindings: seq<Binding>, t: string)
    requires g.sourceId == s
    requires g.id in DirOf(d, s).generations && DirOf(d, s).generations[g.id] == Good(g)
    requires id in DirOf(d, s).states && DirOf(d, s).states[id] == Good(StateRecord(s, g.id, bindings))
    ensures Load(PutPointer(d, s, Pointer(g.id, Some(id))), s) == Ok(Accepted(Some(g), bindings))
    ensures HasStatePointer(PutPointer(d, s, Pointer(g.id, Some(id))), s)
    ensures t != s ==> Load(PutPointer(d, s, Pointer(g.id, Some(id))), t) == Load(d, t)
    ensures t != s ==> (HasStatePointer(PutPointer(d, s, Pointer(g.id, Some(id))), t) <==> HasStatePointer(d, t))
  {
    if t != s {
      SameBehindSameLoad(d, PutPointer(d, s, Pointer(g.id, Some(id))), t);
    }
  }

  /** The mirror is not read for a source with a coupled pointer. */
  lemma MirrorIsInvisible(d: Store, m: Bindings, t: string)
    requires HasStatePointer(d, t)
    ensures Load(d.(mirror := Some(Good(m))), t) == Load(d, t)
    ensures HasStatePointer(d.(mirror := Some(Good(m))), t)
  {
    SameBehindSameLoad(d, d.(mirror := Some(Good(m))), t);
  }

  /** Files the pointer does not name can go. */
  lemma UnnamedFilesAreInvisible(d: Store, s: string, id: string, t: string)
    requires DirOf(d, s).pointer.Some? && DirOf(d, s).pointer.value.Good?
    ensures DirOf(d, s).pointer.value.value.state != Some(id) ==>
              && Load(DropState(d, s, id), t) == Load(d, t)
              && (HasStatePointer(DropState(d, s, id), t) <==> HasStatePointer(d, t))
    ensures DirOf(d, s).pointer.value.value.generation != id ==>
              && Load(DropGeneration(d, s, id), t) == Load(d, t)
              && (HasStatePointer(DropGeneration(d, s, id), t) <==> HasStatePointer(d, t))
  {
    if DirOf(d, s).pointer.value.value.state != Some(id) {
      SameBehindSameLoad(d, DropState(d, s, id), t);
    }
    if DirOf(d, s).pointer.value.value.generation != id {
      SameBehindSameLoad(d, DropGeneration(d, s, id), t);
    }
  }

  // ---- The store ---------------------------------------------------------------------------------

  /** A directory listing: every name once, in an order that depends on modification times. */
  ghost predicate Lists<T>(order: seq<string>, files: map<string, T>) {
    && (forall n :: n in order <==> n in files)
    && (forall i, j :: 0 <= i < j < |order| ==> order[i] != order[j])
  }

  const RETENTION: nat := 3

  /** A load is unaffected, for every source. */
  ghost predicate SameLoads(d: Store, d': Store) {
    forall t :: Load(d', t) == Load(d, t) && (HasStatePointer(d', t) <==> HasStatePointer(d, t))
  }

  /** The generations that pruning must keep: the current one and those named by readable retained states. */
  function NamedGenerations(states: map<string, Stored<StateRecord>>, retained: seq<string>,
                            current: string): (r: set<string>)
    ensures current in r
    ensures forall n :: n in retained && n in states && states[n].Good? ==> states[n].value.generation in r
    ensures |r| <= 1 + |retained|
    ensures (exists n :: n in retained && n in states && states[n].Good? && states[n].value.generation == current) ==>
              |r| <= |retained|
  {
    if retained == [] then {current}
    else
      var init, last := retained[..|retained| - 1], retained[|retained| - 1];
      var r := NamedGenerations(states, init, current);
      assert retained == init + [last];
      if last in states && states[last].Good? then
        var g := states[last].value.generation;
        assert g in r ==> r + {g} == r;
        assert g !in r ==> |r + {g}| == |r| + 1;
        r + {g}
      else r
  }

  class DataStore {
    var store: Store

    constructor (store: Store)
      ensures this.store == store
    {
      this.store := store;
    }

    /** Succeeds exactly if the registry reads, and then holds the bindings of every source. */
    method LoadIdentityRegistry() returns (r: Result<Bindings, LoadError>)
      ensures r.Ok? <==> RegistryReads(store)
      ensures r.Ok? ==> forall s :: Ok(BindingsIn(r.value, s)) == LoadBindings(store, s)
    {
      if store.mirror.Some? && store.mirror.value.Corrupt? {
        return Raise(RegistryInvalid);
      }
      var sources := if store.mirror.Some? then store.mirror.value.value else map[];
      var todo := store.sources.Keys;
      while todo != {}
        invariant todo <= store.sources.Keys
        invariant forall s :: s in store.sources && s !in todo ==> SourceReads(store, s)
        invariant forall s :: Ok(BindingsIn(sources, s)) ==
                    if s in todo then Ok(BindingsIn(MirrorBindings(store).value, s)) else LoadBindings(store, s)
      {
        var s :| s in todo;
        var dir := store.sources[s];
        if dir.pointer == Some(Corrupt) {
          assert !SourceReads(store, s);
          return Raise(PointerInvalid);
        }
        if dir.pointer.Some? && dir.pointer.value.value.state.Some? {
          var loaded := LoadState(dir, s, dir.pointer.value.value);
          if loaded.Raise? {
            assert !SourceReads(store, s);
            return Raise(loaded.error);
          }
          sources := sources[s := loaded.value.1.value];
        }
        todo := todo - {s};
      }
      r := Ok(sources);
    }

    /** Write an immutable generation once; writing it again is checked, not repeated. */
    method SaveGenerationFile(g: Generation, fault: Fault) returns (r: Result<(), LoadError>)
      modifies this
      ensures OnlySource(old(store), store, g.sourceId)
      ensures Load(old(store), g.sourceId).Ok? ==> Load(store, g.sourceId) == Load(old(store), g.sourceId)
      ensures DirOf(store, g.sourceId).pointer == DirOf(old(store), g.sourceId).pointer
      ensures DirOf(store, g.sourceId).states == DirOf(old(store), g.sourceId).states
      ensures r.Ok?
          <==> !Rebinds(old(store), g) && (g.id in DirOf(old(store), g.sourceId).generations || fault.NoFault?)
      ensures r.Ok? ==>
                g.id in DirOf(store, g.sourceId).generations && DirOf(store, g.sourceId).generations[g.id] == Good(g)
      ensures Rebinds(store, g) <==> Rebinds(old(store), g)
      ensures g.id in DirOf(store, g.sourceId).generations
              <==> g.id in DirOf(old(store), g.sourceId).generations || !fault.RaisesBefore?
    {
      var s := g.sourceId;
      if g.id in DirOf(store, s).generations {
        return if DirOf(store, s).generations[g.id] == Good(g) then Ok(()) else Raise(GenerationRebound);
      }
      if Load(store, s).Ok? {
        NewGenerationIsInvisible(store, s, g, s);
      }
      if !fault.RaisesBefore? {
        store := PutGeneration(store, s, g);
      }
      r := if fault.NoFault? then Ok(()) else Raise(WriteFailed);
    }

    /**
      Publish a generation together with its identity bindings: the immutable records first, then
      the pointer, then, best effort, the mirror and the pruning of old history.
     */
    method PublishSourceState(g: Generation, registry: Bindings, stateId: string, f: PublishFaults)
      returns (r: Result<(), LoadError>)
      requires stateId !in DirOf(store, g.sourceId).states
      modifies this
      // Stopped anywhere, the source loads entirely as before or entirely as published.
      ensures PointerSwitches(old(store), g, f) ==>
                Load(store, g.sourceId) == Ok(Accepted(Some(g), BindingsIn(registry, g.sourceId)))
      ensures !PointerSwitches(old(store), g, f) && Load(old(store), g.sourceId).Ok? ==>
                Load(store, g.sourceId) == Load(old(store), g.sourceId)
      ensures r.Ok? <==> ReachesPointer(old(store), g, f) && f.pointer.NoFault?
      ensures PointerSwitches(old(store), g, f) ==> HasStatePointer(store, g.sourceId)
      ensures OthersUndisturbed(old(store), store, g.sourceId) && OthersSame(old(store), store, g.sourceId)
      ensures r.Raise? ==> store.mirror == old(store).mirror
      ensures r.Ok? ==> store.mirror == if f.mirror.RaisesBefore? then old(store).mirror else Some(Good(registry))
      ensures DirOf(store, g.sourceId).states.Keys <= DirOf(old(store), g.sourceId).states.Keys + {stateId}
      // Afterwards at most three states and three generations are left, whatever there was before.
      ensures r.Ok? && !Faulty(f.prune) ==>
                |DirOf(store, g.sourceId).states| <= 3 && |DirOf(store, g.sourceId).generations| <= 3
      ensures r.Raise? ==> (Rebinds(store, g) <==> Rebinds(old(store), g))
      ensures r.Raise? ==>
                (g.id in DirOf(store, g.sourceId).generations
                 <==> g.id in DirOf(old(store), g.sourceId).generations || !f.generation.RaisesBefore?)
    {
      ghost var before := store;
      var s := g.sourceId;
      var bindings := BindingsIn(registry, s);
      r := StageState(g, bindings, stateId, f);
      OnlySourceUndisturbed(before, store, s);
      if r.Raise? {
        return;
      }
      PointerCommits(store, s, g, stateId, bindings, s);
      if !f.pointer.RaisesBefore? {
        store := PutPointer(store, s, Pointer(g.id, Some(stateId)));
      }
      OnlySourceUndisturbed(before, store, s);
      if !f.pointer.NoFault? {
        return Raise(WriteFailed);
      }
      FollowUp(s, registry, f);
      OnlySourceUndisturbed(before, store, s);
    }

    /** The immutable records, which nothing names yet. */
    method StageState(g: Generation, bindings: seq<Binding>, stateId: string, f: PublishFaults)
      returns (r: Result<(), LoadError>)
      requires stateId !in DirOf(store, g.sourceId).states
      modifies this
      ensures OnlySource(old(store), store, g.sourceId)
      ensures Load(old(store), g.sourceId).Ok? ==> Load(store, g.sourceId) == Load(old(store), g.sourceId)
      ensures r.Ok? <==> ReachesPointer(old(store), g, f)
      ensures var dir := DirOf(store, g.sourceId);
              r.Ok? ==>
                && g.id in dir.generations && dir.generations[g.id] == Good(g)
                && stateId in dir.states && dir.states[stateId] == Good(StateRecord(g.sourceId, g.id, bindings))
      ensures DirOf(store, g.sourceId).states.Keys <= DirOf(old(store), g.sourceId).states.Keys + {stateId}
      ensures Rebinds(store, g) <==> Rebinds(old(store), g)
      ensures g.id in DirOf(store, g.sourceId).generations
              <==> g.id in DirOf(old(store), g.sourceId).generations || !f.generation.RaisesBefore?
    {
      var s := g.sourceId;
      r := SaveGenerationFile(g, f.generation);
      if r.Raise? {
        return;
      }
      var record := StateRecord(s, g.id, bindings);
      if Load(store, s).Ok? {
        NewStateIsInvisible(store, s, stateId, record, s);
      }
      if !f.state.RaisesBefore? {
        store := PutState(store, s, stateId, record);
      }
      r := if f.state.NoFault? then Ok(()) else Raise(WriteFailed);
    }

    /** Best effort once the pointer is switched: the mirror of all bindings, and the pruning of old history. */
    method FollowUp(s: string, registry: Bindings, f: PublishFaults)
      requires HasStatePointer(store, s)
      modifies this
      ensures Load(store, s) == Load(old(store), s) && HasStatePointer(store, s)
      ensures OthersSame(old(store), store, s)
      ensures store.mirror == if f.mirror.RaisesBefore? then old(store).mirror else Some(Good(registry))
      ensures DirOf(store, s).states.Keys <= DirOf(old(store), s).states.Keys
      ensures Load(old(store), s).Ok? && !Faulty(f.prune) ==>
                |DirOf(store, s).states| <= 3 && |DirOf(store, s).generations| <= 3
    {
      MirrorIsInvisible(store, registry, s);
      if !f.mirror.RaisesBefore? {
        store := store.(mirror := Some(Good(registry)));
      }
      var states := ListDirectory(DirOf(store, s).states);
      var generations := ListDirectory(DirOf(store, s).generations);
      var pruned := PruneSourceHistory(s, states, generations, f.prune);
    }

    /** Delete the state records that are not retained, oldest last, stopping at a failure. */
    method DropStates(s: string, order: seq<string>, retained: seq<string>, faults: seq<Fault>)
      returns (ok: bool, dropped: nat)
      requires DirOf(store, s).pointer.Some? && DirOf(store, s).pointer.value.Good?
      requires Lists(order, DirOf(store, s).states)
      requires var p := DirOf(store, s).pointer.value.value;
               p.state.Some? && p.state.value in order ==> p.state.value in retained
      modifies this
      ensures SameLoads(old(store), store) && OnlySource(old(store), store, s)
      ensures DirOf(store, s).pointer == DirOf(old(store), s).pointer
      ensures DirOf(store, s).generations == DirOf(old(store), s).generations
      ensures DirOf(store, s).states.Keys <= DirOf(old(store), s).states.Keys
      ensures ok ==> DirOf(store, s).states == DirOf(old(store), s).states - Unkept(order, |order|, Members(retained))
      ensures !ok ==> Faulty(faults)
    {
      ghost var before := store;
      var dir := DirOf(store, s);
      dropped := 0;
      for i := 0 to |order|
        invariant SameLoads(before, store) && OnlySource(before, store, s)
        invariant DirOf(store, s).pointer == dir.pointer && DirOf(store, s).generations == dir.generations
        invariant DirOf(store, s).states == dir.states - Unkept(order, i, Members(retained))
      {
        var n := order[i];
        UnkeptNext(dir.states, order, i, Members(retained));
        if n !in retained {
          DropStateIsInvisible(store, s, n);
          var fault := FaultAt(faults, dropped);
          if !fault.RaisesBefore? {
            store := DropState(store, s, n);
          }
          if !fault.NoFault? {
            return false, dropped;
          }
          dropped := dropped + 1;
        }
      }
      ok := true;
    }

    method DropGenerations(s: string, order: seq<string>, keep: set<string>, faults: seq<Fault>, start: nat)
      returns (ok: bool)
      requires DirOf(store, s).pointer.Some? && DirOf(store, s).pointer.value.Good?
      requires DirOf(store, s).pointer.value.value.generation in keep
      modifies this
      ensures SameLoads(old(store), store) && OnlySource(old(store), store, s)
      ensures DirOf(store, s).pointer == DirOf(old(store), s).pointer
      ensures DirOf(store, s).states == DirOf(old(store), s).states
      ensures ok ==> DirOf(store, s).generations == DirOf(old(store), s).generations - Unkept(order, |order|, keep)
      ensures !ok ==> Faulty(faults)
    {
      ghost var before := store;
      var dir := DirOf(store, s);
      var dropped := start;
      for i := 0 to |order|
        invariant SameLoads(before, store) && OnlySource(before, store, s)
        invariant DirOf(store, s).pointer == dir.pointer && DirOf(store, s).states == dir.states
        invariant DirOf(store, s).generations == dir.generations - Unkept(order, i, keep)
      {
        var n := order[i];
        UnkeptNext(dir.generations, order, i, keep);
        if n !in keep {
          DropGenerationIsInvisible(store, s, n);
          var fault := FaultAt(faults, dropped);
          if !fault.RaisesBefore? {
            store := DropGeneration(store, s, n);
          }
          if !fault.NoFault? {
            return false;
          }
          dropped := dropped + 1;
        }
      }
      ok := true;
    }

    /** Keep the current state and generation and the newest others; delete the rest, one file at a time. */
    method PruneSourceHistory(s: string, stateOrder: seq<string>, generationOrder: seq<string>, faults: seq<Fault>)
      returns (r: Result<(), LoadError>)
      requires Lists(stateOrder, DirOf(store, s).states) && Lists(generationOrder, DirOf(store, s).generations)
      modifies this
      // Whichever deletion fails or comes last, every source loads as before.
      ensures SameLoads(old(store), store) && OnlySource(old(store), store, s)
      ensures DirOf(store, s).states.Keys <= DirOf(old(store), s).states.Keys
      ensures r.Raise? ==> DirOf(old(store), s).pointer == Some(Corrupt) || Faulty(faults)
      ensures r.Ok? && DirOf(old(store), s).pointer.Some? ==>
                && DirOf(old(store), s).pointer.value.Good?
                && DirOf(store, s).states == KeptStates(DirOf(old(store), s), stateOrder)
                && PrunedWell(DirOf(old(store), s), stateOrder, DirOf(store, s))
                && NewestKept(stateOrder, generationOrder, DirOf(old(store), s), DirOf(store, s))
                && |DirOf(store, s).states| <= 3 && |DirOf(store, s).generations| <= 4
                && (DirOf(store, s).states.Keys == DirOf(old(store), s).states.Keys || |DirOf(store, s).states| == 3)
    {
      ghost var before := store;
      var dir := DirOf(store, s);
      if dir.pointer.None? {
        return Ok(());
      }
      if dir.pointer.value.Corrupt? {
        return Raise(PointerInvalid);
      }
      var p := dir.pointer.value.value;
      var retained := RetainStates(stateOrder, p.state);
      var ok, dropped := DropStates(s, stateOrder, retained, faults);
      if !ok {
        return Raise(WriteFailed);
      }
      RetainedStatesRemain(dir.states, stateOrder, retained, DirOf(store, s).states);
      var named := NamedGenerations(DirOf(store, s).states, retained, p.generation);
      var keep := RetainGenerations(generationOrder, named);
      ok := DropGenerations(s, generationOrder, keep, faults, dropped);
      if !ok {
        return Raise(WriteFailed);
      }
      r := Ok(());
      KeptStatesRemain(dir, stateOrder, retained, DirOf(store, s).states);
      PruneBound(dir, stateOrder, generationOrder, retained, named, keep, DirOf(store, s));
      PruneKeepsNewest(dir, stateOrder, generationOrder, retained, named, keep, DirOf(store, s));
    }
  }

  /** A directory listing, in some order. */
  method ListDirectory<T>(files: map<string, T>) returns (order: seq<string>)
    ensures Lists(order, files)
  {
    order := [];
    var todo := files.Keys;
    while todo != {}
      invariant todo <= files.Keys
      invariant forall n :: n in order <==> n in files && n !in todo
      invariant forall i, j :: 0 <= i < j < |order| ==> order[i] != order[j]
    {
      var n :| n in todo;
      order := order + [n];
      todo := todo - {n};
    }
  }

  /** Where the file system fails during one publication. */
  datatype PublishFaults = PublishFaults(generation: Fault, state: Fault, pointer: Fault, mirror: Fault,
           prune: seq<Fault>)

  /** The generation ID already stands for something else. */
  predicate Rebinds(d: Store, g: Generation) {
    g.id in DirOf(d, g.sourceId).generations && DirOf(d, g.sourceId).generations[g.id] != Good(g)
  }

  /** Everything up to the pointer goes through. */
  predicate ReachesPointer(d: Store, g: Generation, f: PublishFaults) {
    && !Rebinds(d, g)
    && (g.id in DirOf(d, g.sourceId).generations || f.generation.NoFault?)
    && f.state.NoFault?
  }

  predicate PointerSwitches(d: Store, g: Generation, f: PublishFaults) {
    ReachesPointer(d, g, f) && !f.pointer.RaisesBefore?
  }

  /** Sources other than s: those with a coupled pointer load as before, all resolve to the same generation. */
  ghost predicate OthersUndisturbed(d: Store, d': Store, s: string) {
    forall t :: t != s ==>
      && (HasStatePointer(d', t) <==> HasStatePointer(d, t))
      && LoadLkg(d', t) == LoadLkg(d, t)
      && (HasStatePointer(d, t) ==> Load(d', t) == Load(d, t))
      && (d'.mirror == d.mirror ==> Load(d', t) == Load(d, t))
  }

  /** The directories of the other sources are as they were. */
  ghost predicate OthersSame(d: Store, d': Store, s: string) {
    forall t :: t != s ==> DirOf(d', t) == DirOf(d, t)
  }

  lemma SameLoadsSameLkg(d: Store, d': Store, t: string)
    requires DirOf(d, t) == DirOf(d', t)
    ensures LoadLkg(d', t) == LoadLkg(d, t) && (HasStatePointer(d', t) <==> HasStatePointer(d, t))
    ensures HasStatePointer(d, t) ==> Load(d', t) == Load(d, t)
    ensures d'.mirror == d.mirror ==> Load(d', t) == Load(d, t)
  {
    SameBehindSameLoad(d, d', t);
  }

  lemma OnlySourceUndisturbed(d: Store, d': Store, s: string)
    requires OthersSame(d, d', s)
    ensures OthersUndisturbed(d, d', s)
  {
    forall t | t != s
      ensures LoadLkg(d', t) == LoadLkg(d, t) && (HasStatePointer(d', t) <==> HasStatePointer(d, t))
      ensures HasStatePointer(d, t) ==> Load(d', t) == Load(d, t)
      ensures d'.mirror == d.mirror ==> Load(d', t) == Load(d, t)
    {
      SameLoadsSameLkg(d, d', t);
    }
  }

  predicate Faulty(faults: seq<Fault>) {
    exists i :: 0 <= i < |faults| && !faults[i].NoFault?
  }

  ghost predicate OnlySource(d: Store, d': Store, s: string) {
    d'.mirror == d.mirror && OthersSame(d, d', s)
  }

  ghost function Members(names: seq<string>): set<string> {
    set n | n in names
  }

  /** The listed names, among the first i, that are not kept. */
  ghost function Unkept(order: seq<string>, i: nat, keep: set<string>): set<string>
    requires i <= |order|
  {
    set n | n in order[..i] && n !in keep
  }

  lemma UnkeptNext<V>(files: map<string, V>, order: seq<string>, i: nat, keep: set<string>)
    requires i < |order|
    ensures files - Unkept(order, i + 1, keep)
         == if order[i] in keep then files - Unkept(order, i, keep) else files - Unkept(order, i, keep) - {order[i]}
  {
    assert order[..i + 1] == order[..i] + [order[i]];
    assert Unkept(order, i + 1, keep) == Unkept(order, i, keep) + if order[i] in keep then {} else {order[i]};
  }

  lemma DropStateIsInvisible(d: Store, s: string, id: string)
    requires DirOf(d, s).pointer.Some? && DirOf(d, s).pointer.value.Good?
    requires DirOf(d, s).pointer.value.value.state != Some(id)
    ensures SameLoads(d, DropState(d, s, id))
  {
    forall t {
      UnnamedFilesAreInvisible(d, s, id, t);
    }
  }

  lemma DropGenerationIsInvisible(d: Store, s: string, id: string)
    requires DirOf(d, s).pointer.Some? && DirOf(d, s).pointer.value.Good?
    requires DirOf(d, s).pointer.value.value.generation != id
    ensures SameLoads(d, DropGeneration(d, s, id))
  {
    forall t {
      UnnamedFilesAreInvisible(d, s, id, t);
    }
  }

  /**
    A finished prune: at most three states; no generation named by a state that is still there
    and readable was deleted; at most three generations exactly when the directory, as it was
    before, pins at most three.
   */
  ghost predicate PrunedWell(before: SourceDir, stateOrder: seq<string>, after: SourceDir)
    requires before.pointer.Some? && before.pointer.value.Good?
  {
    && |after.states| <= RETENTION
    && (forall n :: n in after.states && after.states[n].Good? ==>
          SameEntry(before.generations, after.generations, after.states[n].value.generation))
    && (|after.generations| <= RETENTION <==> |WillPin(before, stateOrder)| <= RETENTION)
    && |after.generations| <= RETENTION + 1
    && (CurrentStateAgrees(before) ==> |after.generations| <= RETENTION)
  }

  /** The current state file is there, reads well, and belongs to the current generation. */
  predicate CurrentStateAgrees(dir: SourceDir) {
    && dir.pointer.Some? && dir.pointer.value.Good? && dir.pointer.value.value.state.Some?
    && var p := dir.pointer.value.value;
    && p.state.value in dir.states && dir.states[p.state.value].Good?
    && dir.states[p.state.value].value.generation == p.generation
  }

  /** The generation files that the current pointer and the remaining readable states name. */
  ghost function Pinned(dir: SourceDir, states: map<string, Stored<StateRecord>>): set<string> {
    set g | g in dir.generations
            && ((dir.pointer.Some? && dir.pointer.value.Good? && dir.pointer.value.value.generation == g)
                || exists n :: n in states && states[n].Good? && states[n].value.generation == g)
  }

  /**
    The states a prune keeps, decided by the listing and the pointer: the current one if listed,
    then the newest, three in all.
   */
  function Retain(order: seq<string>, current: Option<string>, i: nat): (r: seq<string>)
    requires i <= |order|
  {
    if i == 0 then (if current.Some? && current.value in order then [current.value] else [])
    else
      var r := Retain(order, current, i - 1);
      if order[i - 1] !in r && |r| < RETENTION then r + [order[i - 1]] else r
  }

  ghost function KeptStates(dir: SourceDir, order: seq<string>): map<string, Stored<StateRecord>>
    requires dir.pointer.Some? && dir.pointer.value.Good?
  {
    map n | n in dir.states && n in Retain(order, dir.pointer.value.value.state, |order|) :: dir.states[n]
  }

  /** The generation files that a prune of this directory has to keep. */
  ghost function WillPin(dir: SourceDir, order: seq<string>): set<string>
    requires dir.pointer.Some? && dir.pointer.value.Good?
  {
    Pinned(dir, KeptStates(dir, order))
  }

  lemma KeptStatesRemain(dir: SourceDir, order: seq<string>, retained: seq<string>,
                         after: map<string, Stored<StateRecord>>)
    requires dir.pointer.Some? && dir.pointer.value.Good?
    requires retained == Retain(order, dir.pointer.value.value.state, |order|)
    requires after.Keys == Members(retained) && forall n :: n in retained ==>
               n in dir.states && after[n] == dir.states[n]
    ensures after == KeptStates(dir, order)
  {
  }

  /** Listed newest first: of the names that nothing pins, none is kept unless all newer ones are. */
  ghost predicate NewestFirst(order: seq<string>, kept: set<string>, pinned: set<string>) {
    forall i, j :: 0 <= i < j < |order| && order[j] in kept && order[j] !in pinned ==> order[i] in kept
  }

  /** What a finished prune keeps: nothing goes while there is room, and the newest stay. */
  ghost predicate NewestKept(stateOrder: seq<string>, generationOrder: seq<string>, before: SourceDir, after: SourceDir)
    requires before.pointer.Some? && before.pointer.value.Good?
  {
    var p := before.pointer.value.value;
    && (after.states.Keys == before.states.Keys || |after.states| == RETENTION)
    && NewestFirst(stateOrder, after.states.Keys, if p.state.Some? then {p.state.value} else {})
    && (after.generations.Keys == before.generations.Keys
        || |after.generations.Keys + NamedGenerations(after.states, stateOrder, p.generation)| >= RETENTION)
    && NewestFirst(generationOrder, after.generations.Keys, Pinned(before, after.states))
  }

  /** The retained states: distinct, listed, the current one among them, all if there is room, and else the newest. */
  ghost predicate RetainsWell(order: seq<string>, current: Option<string>, i: nat, r: seq<string>)
    requires i <= |order|
  {
    && |r| <= RETENTION
    && (forall j, k :: 0 <= j < k < |r| ==> r[j] != r[k])
    && (forall n :: n in r ==> n in order)
    && (current.Some? && current.value in order ==> current.value in r)
    && (|r| < RETENTION ==> forall j :: 0 <= j < i ==> order[j] in r)
    && (forall j :: i <= j < |order| && order[j] in r ==> Some(order[j]) == current)
    && (forall j, k :: 0 <= j < k < i && order[k] in r && Some(order[k]) != current ==> order[j] in r)
  }

  lemma {:induction false} RetainIsGood(order: seq<string>, current: Option<string>, i: nat)
    requires i <= |order| && forall j, k :: 0 <= j < k < |order| ==> order[j] != order[k]
    ensures RetainsWell(order, current, i, Retain(order, current, i))
  {
    if i > 0 {
      RetainIsGood(order, current, i - 1);
    }
  }

  /** The current state if it is there, then the newest others, three in all. */
  method RetainStates(order: seq<string>, current: Option<string>) returns (retained: seq<string>)
    requires forall i, j :: 0 <= i < j < |order| ==> order[i] != order[j]
    ensures retained == Retain(order, current, |order|)
    ensures RetainsWell(order, current, |order|, retained)
    ensures NewestFirst(order, Members(retained), if current.Some? then {current.value} else {})
  {
    retained := if current.Some? && current.value in order then [current.value] else [];
    for i := 0 to |order|
      invariant retained == Retain(order, current, i)
    {
      if order[i] !in retained && |retained| < RETENTION {
        retained := retained + [order[i]];
      }
    }
    RetainIsGood(order, current, |order|);
  }

  /** What is to be kept, filled up with the first k of the others. */
  ghost predicate FilledTo(keep: set<string>, named: set<string>, order: seq<string>, k: nat)
    requires k <= |order|
  {
    keep == named + Members(order[..k]) && (k == |order| || |keep| >= RETENTION)
  }

  /** What must stay, filled up to three with the newest. */
  method RetainGenerations(order: seq<string>, named: set<string>) returns (keep: set<string>)
    ensures named <= keep
    ensures |named| >= RETENTION ==> keep == named
    ensures |named| < RETENTION ==> |keep| <= RETENTION
    ensures exists k: nat :: k <= |order| && FilledTo(keep, named, order, k)
  {
    keep := named;
    assert named + Members(order[..0]) == named;
    for i := 0 to |order|
      invariant keep == named + Members(order[..i])
      invariant named <= keep
      invariant |named| >= RETENTION ==> keep == named
      invariant |named| < RETENTION ==> |keep| <= RETENTION
    {
      if |keep| >= RETENTION {
        assert FilledTo(keep, named, order, i);
        return;
      }
      assert order[..i + 1] == order[..i] + [order[i]];
      keep := keep + {order[i]};
    }
    assert FilledTo(keep, named, order, |order|);
  }

  lemma RetainedStatesRemain(states: map<string, Stored<StateRecord>>, order: seq<string>, retained: seq<string>,
                             after: map<string, Stored<StateRecord>>)
    requires Lists(order, states) && forall n :: n in retained ==> n in order
    requires after == states - Unkept(order, |order|, Members(retained))
    ensures after.Keys == Members(retained)
    ensures forall n :: n in retained ==> n in states && after[n] == states[n]
  {
    assert order[..|order|] == order;
  }

  lemma DistinctCount(names: seq<string>)
    requires forall i, j :: 0 <= i < j < |names| ==> names[i] != names[j]
    ensures |Members(names)| == |names|
  {
    if names != [] {
      var init, last := names[..|names| - 1], names[|names| - 1];
      DistinctCount(init);
      assert Members(names) == Members(init) + {last};
    }
  }

  lemma SubsetCount(a: set<string>, b: set<string>)
    requires a <= b
    ensures |a| <= |b|
  {
    if a != {} {
      var x :| x in a;
      SubsetCount(a - {x}, b - {x});
    }
  }

  lemma PruneBound(before: SourceDir, stateOrder: seq<string>, order: seq<string>, retained: seq<string>,
                   named: set<string>, keep: set<string>, after: SourceDir)
    requires before.pointer.Some? && before.pointer.value.Good? && Lists(order, before.generations)
    requires |retained| <= RETENTION && forall i, j :: 0 <= i < j < |retained| ==> retained[i] != retained[j]
    requires after.states.Keys == Members(retained) && forall n :: n in retained ==>
               n in before.states && after.states[n] == before.states[n]
    requires before.pointer.value.value.state.Some? && before.pointer.value.value.state.value in before.states ==>
               before.pointer.value.value.state.value in retained
    requires named == NamedGenerations(after.states, retained, before.pointer.value.value.generation)
    requires named <= keep && (|named| >= RETENTION ==> keep == named) && (|named| < RETENTION ==> |keep| <= RETENTION)
    requires after.generations == before.generations - Unkept(order, |order|, keep)
    requires after.states == KeptStates(before, stateOrder)
    ensures PrunedWell(before, stateOrder, after)
  {
    var current := before.pointer.value.value.generation;
    DistinctCount(retained);
    assert |after.states.Keys| == |after.states|;
    KeptGenerations(before.generations, order, keep, after.generations);
    NamedIsPinned(before, after.states, retained, named);
    PinnedBound(before.generations.Keys, named, keep);
    assert |after.generations.Keys| == |after.generations|;
    forall n | n in after.states && after.states[n].Good?
      ensures after.states[n].value.generation in keep
    {
      assert n in retained;
    }
    if CurrentStateAgrees(before) {
      AgreeingStateIsNoExtra(after.states, retained, current, before.pointer.value.value.state.value);
    }
  }

  lemma PruneKeepsNewest(before: SourceDir, stateOrder: seq<string>, order: seq<string>, retained: seq<string>,
                         named: set<string>, keep: set<string>, after: SourceDir)
    requires before.pointer.Some? && before.pointer.value.Good? && Lists(order, before.generations)
    requires Lists(stateOrder, before.states)
    requires after.states.Keys == Members(retained) && forall n :: n in retained ==> n in stateOrder
    requires forall i, j :: 0 <= i < j < |retained| ==> retained[i] != retained[j]
    requires |retained| <= RETENTION && (|retained| < RETENTION ==> forall n :: n in stateOrder ==> n in retained)
    requires var p := before.pointer.value.value; NewestFirst(stateOrder, Members(retained), if p.state.Some?
             then {p.state.value} else {})
    requires named == NamedGenerations(after.states, retained, before.pointer.value.value.generation)
    requires exists k: nat :: k <= |order| && FilledTo(keep, named, order, k)
    requires after.generations == before.generations - Unkept(order, |order|, keep)
    ensures NewestKept(stateOrder, order, before, after)
  {
    DistinctCount(retained);
    assert |after.states.Keys| == |after.states|;
    KeptGenerations(before.generations, order, keep, after.generations);
    NamedIsPinned(before, after.states, retained, named);
    NamedByList(after.states, retained, stateOrder, before.pointer.value.value.generation);
    GenerationsNewestFirst(order, named, keep, before.generations.Keys);
  }

  /** Naming depends on the states that are there, not on the list that is gone through. */
  lemma NamedByList(states: map<string, Stored<StateRecord>>, a: seq<string>, b: seq<string>, current: string)
    requires states.Keys == Members(a) && forall n :: n in a ==> n in b
    ensures NamedGenerations(states, a, current) == NamedGenerations(states, b, current)
  {
    NamedExactly(states, a, current);
    NamedExactly(states, b, current);
  }

  lemma GenerationsNewestFirst(order: seq<string>, named: set<string>, keep: set<string>, files: set<string>)
    requires exists k: nat :: k <= |order| && FilledTo(keep, named, order, k)
    requires (forall n :: n in order <==> n in files) && forall i, j :: 0 <= i < j < |order| ==> order[i] != order[j]
    ensures NewestFirst(order, files * keep, files * named)
    ensures files * keep == files || |files * keep + named| >= RETENTION
  {
    var k: nat :| k <= |order| && FilledTo(keep, named, order, k);
    forall i, j | 0 <= i < j < |order| && order[j] in files * keep && order[j] !in files * named
      ensures order[i] in files * keep
    {
      var m :| 0 <= m < k && order[..k][m] == order[j];
      assert order[..k][i] == order[i];
    }
    if k == |order| {
      assert order[..k] == order;
      assert files * keep == files;
    } else {
      SubsetCount(keep, files * keep + named);
    }
  }

  lemma KeptGenerations(gens: map<string, Stored<Generation>>, order: seq<string>, keep: set<string>,
                        after: map<string, Stored<Generation>>)
    requires Lists(order, gens) && after == gens - Unkept(order, |order|, keep)
    ensures after.Keys == gens.Keys * keep
    ensures forall g :: g in keep ==> SameEntry(gens, after, g)
  {
    assert order[..|order|] == order;
  }

  /** When a retained state names the current generation, the retained states alone bound what is named. */
  lemma AgreeingStateIsNoExtra(states: map<string, Stored<StateRecord>>, retained: seq<string>, current: string,
                               n: string)
    requires n in retained && n in states && states[n].Good? && states[n].value.generation == current
    ensures |NamedGenerations(states, retained, current)| <= |retained|
  {
  }

  lemma PinnedBound(gens: set<string>, named: set<string>, keep: set<string>)
    requires named <= keep && (|named| >= RETENTION ==> keep == named) && (|named| < RETENTION ==> |keep| <= RETENTION)
    requires |named| <= RETENTION + 1
    ensures |gens * keep| <= RETENTION <==> |gens * named| <= RETENTION
    ensures |gens * keep| <= RETENTION + 1
    ensures |named| <= RETENTION ==> |gens * keep| <= RETENTION
  {
    SubsetCount(gens * named, gens * keep);
    SubsetCount(gens * keep, keep);
  }

  lemma NamedIsPinned(before: SourceDir, states: map<string, Stored<StateRecord>>, retained: seq<string>,
                      named: set<string>)
    requires before.pointer.Some? && before.pointer.value.Good?
    requires states.Keys == Members(retained)
    requires named == NamedGenerations(states, retained, before.pointer.value.value.generation)
    ensures Pinned(before, states) == before.generations.Keys * named
  {
    NamedExactly(states, retained, before.pointer.value.value.generation);
  }

  lemma {:induction false} NamedExactly(states: map<string, Stored<StateRecord>>, retained: seq<string>,
                                        current: string)
    ensures forall g :: g in NamedGenerations(states, retained, current) ==>
              g == current || exists n ::
                n in retained && n in states && states[n].Good? && states[n].value.generation == g
  {
    if retained != [] {
      var init, last := retained[..|retained| - 1], retained[|retained| - 1];
      NamedExactly(states, init, current);
      assert retained == init + [last];
    }
  }

  /**
    Without a state behind the pointer, four generations can be pinned: the current one and one for
    each retained state.
   */
  lemma FourGenerationsCanBePinned(g: seq<string>, n: seq<string>, files: map<string, Stored<Generation>>,
                                   r: seq<StateRecord>)
    requires |g| == 4 && (forall i, j :: 0 <= i < j < 4 ==> g[i] != g[j]) && files.Keys == {g[0], g[1], g[2], g[3]}
    requires |n| == 3 && forall i, j :: 0 <= i < j < 3 ==> n[i] != n[j]
    requires |r| == 3 && forall i :: 0 <= i < 3 ==> r[i].generation == g[i + 1]
    ensures var states := map[n[0] := Good(r[0]), n[1] := Good(r[1]), n[2] := Good(r[2])];
            |Pinned(SourceDir(Some(Good(Pointer(g[0], None))), states, files), states)| == RETENTION + 1
  {
    var states := map[n[0] := Good(r[0]), n[1] := Good(r[1]), n[2] := Good(r[2])];
    var dir := SourceDir(Some(Good(Pointer(g[0], None))), states, files);
    assert states[n[0]].value.generation == g[1] && states[n[1]].value.generation == g[2];
    assert states[n[2]].value.generation == g[3];
    assert Pinned(dir, states) == {g[0], g[1], g[2], g[3]};
  }

  /** And a prune without any fault leaves all four. */
  method FourGenerationsSurvive() returns (store: DataStore)
    ensures fresh(store) && |DirOf(store.store, "s").generations| == RETENTION + 1
  {
    var g, n := ["g0", "g1", "g2", "g3"], ["n1", "n2", "n3"];
    assert g[0][1] == '0' && g[1][1] == '1' && g[2][1] == '2' && g[3][1] == '3';
    assert n[0][1] == '1' && n[1][1] == '2' && n[2][1] == '3';
    var files := map[g[0] := Good(Generation("s", g[0], "")), g[1] := Good(Generation("s", g[1], "")),
                     g[2] := Good(Generation("s", g[2], "")), g[3] := Good(Generation("s", g[3], ""))];
    var r := [StateRecord("s", g[1], []), StateRecord("s", g[2], []), StateRecord("s", g[3], [])];
    var states := map[n[0] := Good(r[0]), n[1] := Good(r[1]), n[2] := Good(r[2])];
    var dir := SourceDir(Some(Good(Pointer(g[0], None))), states, files);
    store := new DataStore(Store(map["s" := dir], None));
    FourGenerationsCanBePinned(g, n, files, r);
    AllThreeRetained(n);
    assert KeptStates(dir, n) == states;
    var pruned := store.PruneSourceHistory("s", n, g, []);
  }

  lemma AllThreeRetained(n: seq<string>)
    requires |n| == 3 && forall i, j :: 0 <= i < j < 3 ==> n[i] != n[j]
    ensures Retain(n, None, 3) == n
  {
    assert Retain(n, None, 0) == [];
    assert Retain(n, None, 1) == [n[0]];
    assert Retain(n, None, 2) == [n[0], n[1]];
    assert Retain(n, None, 3) == [n[0], n[1], n[2]];
  }
}
