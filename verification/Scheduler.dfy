/**
  The bounded scheduler. Each method is one stretch between awaits, so that any interleaving of
  the event loop is a sequence of calls, and Valid() holds at every await of every run.
 */
module Scheduler {
  import opened Wrappers

  /** Check identifiers and generations are only ever compared. */
  type CheckId(==, !new)

  type Generation(==, !new)

  datatype Check = Check(id: CheckId, generation: Generation, interval: real)

  /** A manual item carries the future its caller awaits. */
  datatype WorkItem = WorkItem(check: Check, future: Option<nat>)

  datatype FutureState = Pending | Finished | Failed | Cancelled

  datatype AdmissionError = AlreadyScheduled | QueueFull

  /** What the event loop can let happen next. */
  datatype Event = Starts
                 | Updates(checks: seq<Check>)
                 | Asks(check: Check, future: nat)
                 | Ticks(check: Check)
                 | Takes(worker: nat)
                 | Ends(worker: nat, outcome: FutureState, workerEnds: bool)
                 | GivesUp(future: nat)
                 | StopBegins
                 | IdleWorkerEnds(worker: nat)
                 | StopEnds

  /** One start of the runner, with what the scheduler knew at that moment. */
  datatype RunnerStart = RunnerStart(item: WorkItem, job: Option<Check>, tracked: Option<Option<Generation>>)

  /** A periodic item runs only for the current job's generation, a tracked manual item only for the tracked one. */
  predicate Legitimate(s: RunnerStart) {
    && (s.item.future.None? ==> s.job.Some? && s.job.value.generation == s.item.check.generation)
    && (s.tracked.Some? ==> s.tracked.value == Some(s.item.check.generation))
  }

  function Desired(checks: seq<Check>): (r: map<CheckId, Check>)
    ensures forall id :: id in r ==> r[id].id == id && r[id] in checks
    ensures forall c :: c in checks ==> c.id in r
  {
    if checks == [] then map[]
    else
      var last := checks[|checks| - 1];
      assert checks == checks[..|checks| - 1] + [last];
      Desired(checks[..|checks| - 1])[last.id := last]
  }

  ghost predicate IsLast(checks: seq<Check>, i: int, id: CheckId) {
    0 <= i < |checks| && checks[i].id == id && forall j :: i < j < |checks| ==> checks[j].id != id
  }

  lemma StillLast(checks: seq<Check>, i: int, id: CheckId)
    requires checks != [] && IsLast(checks[..|checks| - 1], i, id) && checks[|checks| - 1].id != id
    ensures IsLast(checks, i, id) && checks[i] == checks[..|checks| - 1][i]
  {
    forall j | i < j < |checks| - 1
      ensures checks[j].id != id
    {
      assert checks[..|checks| - 1][j] == checks[j];
    }
  }

  lemma {:induction false} DesiredIsLast(checks: seq<Check>, id: CheckId) returns (i: int)
    requires id in Desired(checks)
    ensures IsLast(checks, i, id) && Desired(checks)[id] == checks[i]
  {
    var n := |checks| - 1;
    if id == checks[n].id {
      i := n;
    } else {
      i := DesiredIsLast(checks[..n], id);
      StillLast(checks, i, id);
    }
  }

  method ById(checks: seq<Check>) returns (desired: map<CheckId, Check>)
    ensures desired == Desired(checks)
  {
    desired := map[];
    for i := 0 to |checks|
      invariant desired == Desired(checks[..i])
    {
      assert checks[..i + 1][..i] == checks[..i];
      desired := desired[checks[i].id := checks[i]];
    }
    assert checks[..|checks|] == checks;
  }

  /**
    What is tracked after an update: every job's generation, and a tombstone for a gone check while
    items of it are still about.
   */
  function Tracked(known: map<CheckId, Option<Generation>>, jobs: map<CheckId, Check>, desired: map<CheckId, Check>,
                   busy: set<CheckId>)
    : map<CheckId, Option<Generation>>
  {
    map id | id in desired.Keys + busy && (id in desired || id in jobs || id in known)
      :: if id in desired then Some(desired[id].generation) else None
  }

  // ---- The invariant, part by part -----------------------------------------------------------------

  /** The queued checks, no two items of one, and their generations, item by item. */
  ghost predicate QueueOk(queue: seq<WorkItem>, queued: set<CheckId>, generations: map<CheckId, Generation>) {
    if queue == [] then queued == {} && generations == map[]
    else
      var last := queue[|queue| - 1].check;
      && last.id in queued
      && last.id in generations && generations[last.id] == last.generation
      && QueueOk(queue[..|queue| - 1], queued - {last.id}, generations - {last.id})
  }

  /** The running checks, each at one of n workers, and their generations, worker by worker. */
  ghost predicate WorkersOk(inFlight: map<nat, WorkItem>, running: set<CheckId>, generations: map<CheckId, Generation>,
                            n: nat) {
    if n == 0 then inFlight == map[] && running == {} && generations == map[]
    else if n - 1 in inFlight then
      var check := inFlight[n - 1].check;
      && check.id in running
      && check.id in generations && generations[check.id] == check.generation
      && WorkersOk(inFlight - {n - 1}, running - {check.id}, generations - {check.id}, n - 1)
    else WorkersOk(inFlight, running, generations, n - 1)
  }

  ghost predicate KnownOk(jobs: map<CheckId, Check>, known: map<CheckId, Option<Generation>>, busy: set<CheckId>) {
    && (forall id :: id in jobs ==> jobs[id].id == id)
    && (forall id :: id in known && known[id].Some? ==> id in jobs && jobs[id].generation == known[id].value)
    && (forall id :: id in known && known[id].None? ==> id !in jobs && id in busy)
  }

  function FutureOf(item: WorkItem): set<nat> {
    if item.future.Some? then {item.future.value} else {}
  }

  function QueuedFutures(queue: seq<WorkItem>): set<nat> {
    if queue == [] then {} else QueuedFutures(queue[..|queue| - 1]) + FutureOf(queue[|queue| - 1])
  }

  function RunningFutures(inFlight: map<nat, WorkItem>, n: nat): set<nat> {
    if n == 0 then {} else RunningFutures(inFlight, n - 1) + if n - 1 in inFlight then FutureOf(inFlight[n - 1]) else {}
  }

  /** A caller only ever waits for an item that is queued or running, and every item's future was handed out. */
  ghost predicate FuturesOk(futures: map<nat, FutureState>, awaited: set<nat>) {
    && (forall f :: f in futures && futures[f].Pending? ==> f in awaited)
    && awaited <= futures.Keys
  }

  lemma {:induction false} QueueTakes(queue: seq<WorkItem>, queued: set<CheckId>, generations: map<CheckId, Generation>)
    requires QueueOk(queue, queued, generations) && queue != []
    ensures var head := queue[0].check;
            && head.id in queued && head.id in generations && generations[head.id] == head.generation
            && QueueOk(queue[1..], queued - {head.id}, generations - {head.id})
  {
    var n := |queue| - 1;
    if n > 0 {
      var head, last := queue[0].check.id, queue[n].check.id;
      QueueTakes(queue[..n], queued - {last}, generations - {last});
      assert queue[..n][1..] == queue[1..][..n - 1];
      assert queued - {last} - {head} == queued - {head} - {last};
      assert generations - {last} - {head} == generations - {head} - {last};
    } else {
      assert queue[1..] == queue[..n] == [];
    }
  }

  lemma QueuePuts(queue: seq<WorkItem>, queued: set<CheckId>, generations: map<CheckId, Generation>, item: WorkItem)
    requires QueueOk(queue, queued, generations) && item.check.id !in queued
    ensures QueueOk(queue + [item], queued + {item.check.id}, generations[item.check.id := item.check.generation])
  {
    QueueKeys(queue, queued, generations);
    assert (queue + [item])[..|queue|] == queue;
    assert queued + {item.check.id} - {item.check.id} == queued;
    assert generations[item.check.id := item.check.generation] - {item.check.id} == generations;
  }

  lemma {:induction false} QueueKeys(queue: seq<WorkItem>, queued: set<CheckId>, generations: map<CheckId, Generation>)
    requires QueueOk(queue, queued, generations)
    ensures generations.Keys == queued && |queued| == |queue|
  {
    if queue != [] {
      var n := |queue| - 1;
      var last := queue[n].check.id;
      QueueKeys(queue[..n], queued - {last}, generations - {last});
      assert (generations - {last}).Keys == generations.Keys - {last};
      assert generations.Keys == (generations - {last}).Keys + {last};
    }
  }

  lemma {:induction false} WorkersTake(inFlight: map<nat, WorkItem>, running: set<CheckId>,
                                       generations: map<CheckId, Generation>, n: nat,
                                       w: nat, item: WorkItem)
    requires WorkersOk(inFlight, running, generations, n)
    requires w < n && w !in inFlight && item.check.id !in running
    ensures WorkersOk(inFlight[w := item], running + {item.check.id},
            generations[item.check.id := item.check.generation], n)
  {
    var id := item.check.id;
    WorkersKeys(inFlight, running, generations, n);
    if w == n - 1 {
      assert inFlight[w := item] - {w} == inFlight;
      assert running + {id} - {id} == running;
      assert generations[id := item.check.generation] - {id} == generations;
    } else if n - 1 in inFlight {
      var other := inFlight[n - 1].check.id;
      WorkersTake(inFlight - {n - 1}, running - {other}, generations - {other}, n - 1, w, item);
      assert inFlight[w := item] - {n - 1} == (inFlight - {n - 1})[w := item];
      assert running + {id} - {other} == running - {other} + {id};
      assert generations[id := item.check.generation] - {other} == (generations - {other})[id := item.check.generation];
    } else {
      WorkersTake(inFlight, running, generations, n - 1, w, item);
    }
  }

  lemma {:induction false} WorkersFinish(inFlight: map<nat, WorkItem>, running: set<CheckId>,
                                         generations: map<CheckId, Generation>, n: nat, w: nat)
    requires WorkersOk(inFlight, running, generations, n) && w in inFlight
    ensures var check := inFlight[w].check;
            && w < n && check.id in running && check.id in generations && generations[check.id] == check.generation
            && WorkersOk(inFlight - {w}, running - {check.id}, generations - {check.id}, n)
  {
    if n > 0 && w != n - 1 {
      if n - 1 in inFlight {
        var id, other := inFlight[w].check.id, inFlight[n - 1].check.id;
        WorkersFinish(inFlight - {n - 1}, running - {other}, generations - {other}, n - 1, w);
        assert inFlight - {n - 1} - {w} == inFlight - {w} - {n - 1};
        assert running - {other} - {id} == running - {id} - {other};
        assert generations - {other} - {id} == generations - {id} - {other};
      } else {
        WorkersFinish(inFlight, running, generations, n - 1, w);
      }
    } else if n > 0 {
      assert w !in inFlight - {w};
    }
  }

  lemma {:induction false} WorkersKeys(inFlight: map<nat, WorkItem>, running: set<CheckId>,
                                       generations: map<CheckId, Generation>, n: nat)
    requires WorkersOk(inFlight, running, generations, n)
    ensures generations.Keys == running
  {
    if n > 0 {
      if n - 1 in inFlight {
        var id := inFlight[n - 1].check.id;
        WorkersKeys(inFlight - {n - 1}, running - {id}, generations - {id}, n - 1);
        assert generations.Keys == (generations - {id}).Keys + {id};
      } else {
        WorkersKeys(inFlight, running, generations, n - 1);
      }
    }
  }

  lemma {:induction false} WorkersCount(inFlight: map<nat, WorkItem>, running: set<CheckId>,
                                        generations: map<CheckId, Generation>, n: nat)
    requires WorkersOk(inFlight, running, generations, n)
    ensures |running| == AtRunner(inFlight, n) <= n
  {
    if n > 0 {
      if n - 1 in inFlight {
        var id := inFlight[n - 1].check.id;
        WorkersCount(inFlight - {n - 1}, running - {id}, generations - {id}, n - 1);
        OthersIgnored(inFlight, inFlight - {n - 1}, n - 1);
        assert running == (running - {id}) + {id};
      } else {
        WorkersCount(inFlight, running, generations, n - 1);
      }
    }
  }

  /** The queued generations are those of the items. */
  lemma {:induction false} QueuedAs(queue: seq<WorkItem>, queued: set<CheckId>, generations: map<CheckId, Generation>,
                                    id: CheckId, g: Generation)
    requires QueueOk(queue, queued, generations)
    ensures id in generations && generations[id] == g
       <==> exists i :: 0 <= i < |queue| && queue[i].check.id == id && queue[i].check.generation == g
    ensures id in queued <==> exists i :: 0 <= i < |queue| && queue[i].check.id == id
  {
    if queue != [] {
      var n := |queue| - 1;
      var last := queue[n].check.id;
      QueuedAs(queue[..n], queued - {last}, generations - {last}, id, g);
      QueueKeys(queue, queued, generations);
      assert forall i :: 0 <= i < n ==> queue[..n][i] == queue[i];
    }
  }

  /** The running generations are those of the items at the workers. */
  lemma {:induction false} RunningAs(inFlight: map<nat, WorkItem>, running: set<CheckId>,
                                     generations: map<CheckId, Generation>, n: nat, id: CheckId, g: Generation)
    requires WorkersOk(inFlight, running, generations, n)
    ensures id in generations && generations[id] == g
       <==> exists w :: w in inFlight && inFlight[w].check.id == id && inFlight[w].check.generation == g
    ensures id in running <==> exists w :: w in inFlight && inFlight[w].check.id == id
  {
    if n > 0 {
      if n - 1 in inFlight {
        var last := inFlight[n - 1].check.id;
        RunningAs(inFlight - {n - 1}, running - {last}, generations - {last}, n - 1, id, g);
        WorkersKeys(inFlight, running, generations, n);
        assert forall w :: w in inFlight && w != n - 1 ==> w in inFlight - {n - 1};
      } else {
        RunningAs(inFlight, running, generations, n - 1, id, g);
      }
    }
  }

  lemma {:induction false} NobodyRuns(n: nat)
    ensures WorkersOk(map[], {}, map[], n) && RunningFutures(map[], n) == {} && AtRunner(map[], n) == 0
  {
    if n > 0 {
      NobodyRuns(n - 1);
    }
  }

  lemma {:induction false} QueuedFuturesTake(queue: seq<WorkItem>)
    requires queue != []
    ensures QueuedFutures(queue) == FutureOf(queue[0]) + QueuedFutures(queue[1..])
  {
    var n := |queue| - 1;
    if n > 0 {
      QueuedFuturesTake(queue[..n]);
      assert queue[..n][1..] == queue[1..][..n - 1];
    } else {
      assert queue[1..] == queue[..n] == [];
    }
  }

  lemma {:induction false} RunningTake(inFlight: map<nat, WorkItem>, n: nat, w: nat, item: WorkItem)
    requires w < n && w !in inFlight
    ensures RunningFutures(inFlight[w := item], n) == RunningFutures(inFlight, n) + FutureOf(item)
    ensures AtRunner(inFlight[w := item], n) == AtRunner(inFlight, n) + 1
  {
    if w < n - 1 {
      RunningTake(inFlight, n - 1, w, item);
    } else {
      OthersIgnored(inFlight, inFlight[w := item], n - 1);
    }
  }

  lemma {:induction false} RunningFinish(inFlight: map<nat, WorkItem>, n: nat, w: nat)
    requires w < n && w in inFlight
    ensures RunningFutures(inFlight, n) == RunningFutures(inFlight - {w}, n) + FutureOf(inFlight[w])
    ensures AtRunner(inFlight, n) == AtRunner(inFlight - {w}, n) + 1
  {
    if w < n - 1 {
      RunningFinish(inFlight, n - 1, w);
    } else {
      OthersIgnored(inFlight, inFlight - {w}, n - 1);
    }
  }

  lemma {:induction false} OthersIgnored(a: map<nat, WorkItem>, b: map<nat, WorkItem>, n: nat)
    requires forall w :: w < n ==> (w in a <==> w in b) && (w in a ==> a[w] == b[w])
    ensures RunningFutures(a, n) == RunningFutures(b, n) && AtRunner(a, n) == AtRunner(b, n)
  {
    if n > 0 {
      OthersIgnored(a, b, n - 1);
    }
  }

  /** What becomes of the tracked generations when a check leaves. */
  function Forgotten(jobs: map<CheckId, Check>, known: map<CheckId, Option<Generation>>, busy: set<CheckId>,
                     id: CheckId): map<CheckId, Option<Generation>> {
    if id in known && known[id].None? && id !in jobs && id !in busy then known - {id} else known
  }

  lemma KnownForgets(jobs: map<CheckId, Check>, known: map<CheckId, Option<Generation>>, busy: set<CheckId>,
                     id: CheckId)
    requires KnownOk(jobs, known, busy + {id})
    ensures KnownOk(jobs, Forgotten(jobs, known, busy, id), busy)
  {
  }

  function HandedOut(futures: map<nat, FutureState>, item: WorkItem): map<nat, FutureState> {
    if item.future.Some? then futures[item.future.value := Pending] else futures
  }

  lemma FuturesResolve(futures: map<nat, FutureState>, awaited: set<nat>, item: WorkItem, rest: set<nat>,
                       outcome: FutureState)
    requires FuturesOk(futures, awaited) && awaited == FutureOf(item) + rest && outcome != Pending
    ensures FuturesOk(Resolve(futures, item.future, outcome), rest)
    ensures Settled(Resolve(futures, item.future, outcome), item.future)
  {
    ResolveSettles(futures, item.future, outcome);
  }

  /** Nobody waits for this future any more. */
  predicate Settled(futures: map<nat, FutureState>, f: Option<nat>) {
    f.Some? ==> f.value in futures && !futures[f.value].Pending?
  }

  /** How many of n workers are at the runner. */
  function AtRunner(inFlight: map<nat, WorkItem>, n: nat): nat {
    if n == 0 then 0 else AtRunner(inFlight, n - 1) + if n - 1 in inFlight then 1 else 0
  }

  function WorkerIds(n: nat): (r: set<nat>)
    ensures forall w: nat :: w in r <==> w < n
  {
    if n == 0 then {} else WorkerIds(n - 1) + {n - 1}
  }

  class Scheduler {
    const concurrency: nat
    const maxQueue: nat
    var jobs: map<CheckId, Check>
    var producers: map<CheckId, Check>
    var queue: seq<WorkItem>
    var unfinished: nat
    var queued: set<CheckId>
    var running: set<CheckId>
    var queuedGenerations: map<CheckId, Generation>
    var runningGenerations: map<CheckId, Generation>
    var known: map<CheckId, Option<Generation>>
    var started: bool
    var stopping: bool
    // The worker tasks: those alive, and the item each is at the runner with.
    var workers: set<nat>
    var inFlight: map<nat, WorkItem>
    // Every future handed to a caller.
    var futures: map<nat, FutureState>
    ghost var starts: seq<RunnerStart>

    ghost function Awaited(): set<nat>
      reads this
    {
      QueuedFutures(queue) + RunningFutures(inFlight, concurrency)
    }

    ghost predicate Valid()
      reads this
    {
      && QueueOk(queue, queued, queuedGenerations) && |queue| <= maxQueue
      && WorkersOk(inFlight, running, runningGenerations, concurrency)
      && (forall w :: w in inFlight ==> w in workers)
      && (forall w :: w in workers ==> w < concurrency)
      && KnownOk(jobs, known, queued + running)
      && FuturesOk(futures, Awaited())
      && queued !! running
      && unfinished == |queue| + AtRunner(inFlight, concurrency)
      && (!started ==> workers == {})
      && (forall i :: 0 <= i < |starts| ==> Legitimate(starts[i]))
    }

    /** Between awaits: an item has left the queue or the runner and is not yet accounted for. */
    ghost predicate Holding(item: WorkItem)
      reads this
    {
      && QueueOk(queue, queued, queuedGenerations) && |queue| <= maxQueue
      && WorkersOk(inFlight, running, runningGenerations, concurrency)
      && (forall w :: w in inFlight ==> w in workers)
      && (forall w :: w in workers ==> w < concurrency)
      && KnownOk(jobs, known, queued + running + {item.check.id})
      && FuturesOk(futures, FutureOf(item) + Awaited())
      && queued !! running && item.check.id !in queued && item.check.id !in running
      && unfinished == |queue| + AtRunner(inFlight, concurrency) + 1
      && (!started ==> workers == {})
      && (forall i :: 0 <= i < |starts| ==> Legitimate(starts[i]))
    }

    constructor (concurrency: nat, maxQueue: nat)
      requires concurrency >= 1 && maxQueue >= 1
      ensures Valid() && this.concurrency == concurrency && this.maxQueue == maxQueue
      ensures jobs == map[] && queue == [] && futures == map[] && starts == [] && !started
    {
      this.concurrency, this.maxQueue := concurrency, maxQueue;
      jobs, producers, queue, unfinished := map[], map[], [], 0;
      queued, running, queuedGenerations, runningGenerations, known := {}, {}, map[], map[], map[];
      started, stopping, workers, inFlight, futures, starts := false, false, {}, map[], map[], [];
      NobodyRuns(concurrency);
    }

    predicate Obsolete(item: WorkItem)
      reads this
    {
      if item.check.id in known then known[item.check.id] != Some(item.check.generation)
      else if item.future.Some? then false
      else item.check.id !in jobs || jobs[item.check.id].generation != item.check.generation
    }

    predicate ConflictsWithSameGeneration(check: Check)
      reads this
    {
      || (check.id in queuedGenerations && queuedGenerations[check.id] == check.generation)
      || (check.id in runningGenerations && runningGenerations[check.id] == check.generation)
    }

    predicate Busy(id: CheckId)
      reads this
    {
      id in queued || id in running
    }

    /** An item of the check in this generation is queued or at a worker. */
    ghost predicate AboutInGeneration(check: Check)
      reads this
    {
      || (exists i :: 0 <= i < |queue|
                      && queue[i].check.id == check.id && queue[i].check.generation == check.generation)
      || (exists w :: w in inFlight
                      && inFlight[w].check.id == check.id && inFlight[w].check.generation == check.generation)
    }

    lemma ConflictsMean(check: Check)
      requires Valid()
      ensures ConflictsWithSameGeneration(check) <==> AboutInGeneration(check)
    {
      QueuedAs(queue, queued, queuedGenerations, check.id, check.generation);
      RunningAs(inFlight, running, runningGenerations, concurrency, check.id, check.generation);
    }

    method Start()
      requires Valid()
      modifies this`started, this`stopping, this`workers, this`producers
      ensures Valid() && started
      ensures !old(started) ==> workers == WorkerIds(concurrency) && producers == jobs && !stopping
      ensures old(started) ==> workers == old(workers) && producers == old(producers) && stopping == old(stopping)
    {
      if started {
        return;
      }
      started, stopping := true, false;
      workers := WorkerIds(concurrency);
      producers := jobs;
    }

    /** Install a new job list; what is tracked follows it. */
    method Update(checks: seq<Check>)
      requires Valid()
      modifies this`jobs, this`known, this`producers
      ensures Valid()
      // The last check given under an ID is its job.
      ensures jobs == Desired(checks)
      ensures forall id :: id in jobs ==> exists i :: IsLast(checks, i, id) && jobs[id] == checks[i]
      ensures forall c :: c in checks ==> c.id in jobs
      ensures known == Tracked(old(known), old(jobs), jobs, queued + running)
      // Tracked are the generations of all jobs, and as gone the checks that had one and are still queued or running.
      ensures forall id :: id in jobs ==> id in known && known[id] == Some(jobs[id].generation)
      ensures forall id :: id !in jobs ==>
                (id in known <==> (id in queued || id in running) && (id in old(jobs) || id in old(known)))
                && (id in known ==> known[id] == None)
      ensures started ==> producers == jobs
      ensures !started ==>
                forall id :: id in producers
                             <==> id in old(producers) && id in jobs && id in old(jobs) && old(jobs)[id] == jobs[id]
    {
      forall id | id in Desired(checks)
        ensures exists i :: IsLast(checks, i, id) && Desired(checks)[id] == checks[i]
      {
        var i := DesiredIsLast(checks, id);
      }
      var desired := ById(checks);
      ReplaceProducers(desired);
      Install(desired);
    }

    /** Producers of gone and changed jobs end; a started scheduler has one for each new job. */
    method ReplaceProducers(desired: map<CheckId, Check>)
      modifies this`producers
      ensures started ==> producers == desired
      ensures !started ==>
                forall id :: id in producers
                             <==> id in old(producers) && id in desired && id in jobs && jobs[id] == desired[id]
    {
      producers := map id | id in producers && id in desired && id in jobs && jobs[id] == desired[id] :: producers[id];
      if started {
        producers := desired;
      }
    }

    method Install(desired: map<CheckId, Check>)
      requires Valid() && forall id :: id in desired ==> desired[id].id == id
      modifies this`jobs, this`known
      ensures Valid() && jobs == desired
      ensures known == Tracked(old(known), old(jobs), desired, queued + running)
    {
      TrackedIsOk(known, jobs, desired, queued + running);
      known := Retrack(known, jobs, desired, queued + running);
      jobs := desired;
    }

    /** A manual cycle enters the queue, or is refused. */
    method RunOnce(check: Check, future: nat) returns (r: Result<nat, AdmissionError>, reported: bool)
      requires Valid() && future !in futures
      modifies this`queue, this`queued, this`queuedGenerations, this`unfinished, this`futures
      ensures Valid()
      ensures r == if check.id in old(queued) || check.id in old(running) then Raise(AlreadyScheduled)
                   else if |old(queue)| >= maxQueue then Raise(QueueFull) else Ok(future)
      ensures reported
          <==> || r == Raise(QueueFull)
               || (r == Raise(AlreadyScheduled) && old(AboutInGeneration(check)))
      ensures r.Raise? ==> queue == old(queue) && futures == old(futures) && unfinished == old(unfinished)
      ensures r.Ok? ==>
                queue == old(queue) + [WorkItem(check, Some(future))] && futures == old(futures)[future := Pending]
    {
      ConflictsMean(check);
      if Busy(check.id) {
        return Raise(AlreadyScheduled), ConflictsWithSameGeneration(check);
      }
      if |queue| >= maxQueue {
        return Raise(QueueFull), true;
      }
      Put(WorkItem(check, Some(future)));
      r, reported := Ok(future), false;
    }

    /** A periodic tick enters the queue unless its check is still about. */
    method EnqueueScheduled(check: Check) returns (reported: bool)
      requires Valid()
      modifies this`queue, this`queued, this`queuedGenerations, this`unfinished, this`futures
      ensures Valid() && futures == old(futures)
      ensures queue == if check.id in old(queued) || check.id in old(running) || |old(queue)| >= maxQueue
                       then old(queue) else old(queue) + [WorkItem(check, None)]
      ensures reported
          <==> if check.id in old(queued) || check.id in old(running) then old(AboutInGeneration(check))
               else |old(queue)| >= maxQueue
    {
      ConflictsMean(check);
      if Busy(check.id) {
        return ConflictsWithSameGeneration(check);
      }
      if |queue| >= maxQueue {
        return true;
      }
      Put(WorkItem(check, None));
      reported := false;
    }

    method Put(item: WorkItem)
      requires Valid() && !Busy(item.check.id) && |queue| < maxQueue
      requires item.future.Some? ==> item.future.value !in futures
      modifies this`queue, this`queued, this`queuedGenerations, this`unfinished, this`futures
      ensures Valid()
      ensures queue == old(queue) + [item]
      ensures futures == HandedOut(old(futures), item)
    {
      unfinished := unfinished + 1;
      futures := HandedOut(futures, item);
      Enqueue(item);
    }

    method Enqueue(item: WorkItem)
      requires Holding(item) && |queue| < maxQueue
      modifies this`queue, this`queued, this`queuedGenerations
      ensures Valid() && queue == old(queue) + [item]
    {
      QueuePuts(queue, queued, queuedGenerations, item);
      assert (queue + [item])[..|queue|] == queue;
      queue := queue + [item];
      queued := queued + {item.check.id};
      queuedGenerations := queuedGenerations[item.check.id := item.check.generation];
      assert queued + running == old(queued) + running + {item.check.id};
    }

    /** A producer's period is over; it enqueues only while its job is the current one. */
    method Tick(check: Check) returns (reported: bool)
      requires Valid()
      modifies this`queue, this`queued, this`queuedGenerations, this`unfinished, this`futures
      ensures Valid() && futures == old(futures)
      ensures var accepted :=
                check.id in jobs && jobs[check.id] == check && check.id !in old(queued) && check.id !in old(running)
                && |old(queue)| < maxQueue;
              queue == if accepted then old(queue) + [WorkItem(check, None)] else old(queue)
    {
      reported := false;
      if check.id in jobs && jobs[check.id] == check {
        reported := EnqueueScheduled(check);
      }
    }

    ghost function Moment(item: WorkItem): RunnerStart
      reads this
    {
      RunnerStart(item,
            if item.check.id in jobs then Some(jobs[item.check.id]) else None,
            if item.check.id in known then Some(known[item.check.id]) else None)
    }

    /**
      An idle worker takes the first item: an obsolete one is dropped and its caller told, any
      other goes to the runner.
     */
    method TakeNext(w: nat) returns (runs: bool)
      requires Valid() && w in workers && w !in inFlight && queue != []
      modifies this`queue, this`queued, this`queuedGenerations, this`running, this`runningGenerations, this`inFlight,
               this`futures, this`unfinished, this`known, this`starts
      ensures Valid() && queue == old(queue)[1..]
      ensures runs <==> !old(Obsolete(queue[0]))
      // Obsolete: another generation is tracked, or it is a tick of a job that is gone or another one by now.
      ensures !runs <==> old(var check, id := queue[0].check, queue[0].check.id;
                             if id in known then known[id] != Some(check.generation)
                             else queue[0].future == None && (id in jobs ==> jobs[id].generation != check.generation))
      ensures runs ==> inFlight == old(inFlight)[w := old(queue)[0]] && futures == old(futures)
      ensures runs ==> unfinished == old(unfinished)
      ensures runs ==> starts == old(starts) + [old(Moment(queue[0]))]
      ensures old(var id := queue[0].check.id;
                  Moment(queue[0]) == RunnerStart(queue[0], if id in jobs then Some(jobs[id]) else None,
                                                  if id in known then Some(known[id]) else None))
      ensures !runs ==> inFlight == old(inFlight) && unfinished == old(unfinished) - 1 && starts == old(starts)
      // The caller of a dropped item is told, unless it has given up.
      ensures !runs ==> forall g :: g in old(futures) ==>
                g in futures && futures[g] == if old(queue)[0].future == Some(g) && old(futures)[g].Pending? then Failed
                                              else old(futures)[g]
      ensures !runs ==>
                futures == Resolve(old(futures), old(queue)[0].future, Failed) && Settled(futures, old(queue)[0].future)
    {
      var item := Dequeue();
      runs := !Obsolete(item);
      if runs {
        SendToRunner(w, item);
      } else {
        Release(item, Failed);
      }
    }

    method Dequeue() returns (item: WorkItem)
      requires Valid() && queue != []
      modifies this`queue, this`queued, this`queuedGenerations
      ensures Holding(item) && item == old(queue)[0] && queue == old(queue)[1..]
    {
      item := queue[0];
      var id := item.check.id;
      QueueTakes(queue, queued, queuedGenerations);
      QueuedFuturesTake(queue);
      queue := queue[1..];
      queued := queued - {id};
      if id in queuedGenerations && queuedGenerations[id] == item.check.generation {
        queuedGenerations := queuedGenerations - {id};
      }
      assert queued + running + {id} == old(queued) + running;
    }

    method SendToRunner(w: nat, item: WorkItem)
      requires Holding(item) && !Obsolete(item) && w in workers && w !in inFlight
      modifies this`running, this`runningGenerations, this`inFlight, this`starts
      ensures Valid() && inFlight == old(inFlight)[w := item]
      ensures starts == old(starts) + [old(Moment(item))]
    {
      var id := item.check.id;
      WorkersTake(inFlight, running, runningGenerations, concurrency, w, item);
      RunningTake(inFlight, concurrency, w, item);
      NoteStart(item);
      running := running + {id};
      runningGenerations := runningGenerations[id := item.check.generation];
      inFlight := inFlight[w := item];
      assert queued + running == queued + old(running) + {id};
    }

    ghost method NoteStart(item: WorkItem)
      requires Holding(item) && !Obsolete(item)
      modifies this`starts
      ensures Holding(item) && starts == old(starts) + [old(Moment(item))]
    {
      TakenIsLegitimate(item);
      starts := starts + [Moment(item)];
    }

    /** The item is done with: its caller is told, and the queue's count and the tracked generations follow. */
    method Release(item: WorkItem, outcome: FutureState)
      requires Holding(item) && outcome != Pending
      modifies this`futures, this`unfinished, this`known
      ensures Valid() && futures == Resolve(old(futures), item.future, outcome) && unfinished == old(unfinished) - 1
      ensures Settled(futures, item.future)
      ensures forall g :: g in old(futures) ==>
                g in futures
                && futures[g] == if item.future == Some(g) && old(futures)[g].Pending? then outcome else old(futures)[g]
      ensures var id := item.check.id;
              known == if id in old(known) && old(known)[id] == None && id !in jobs && id !in queued && id !in running
                       then old(known) - {id} else old(known)
    {
      FuturesResolve(futures, FutureOf(item) + Awaited(), item, Awaited(), outcome);
      KnownForgets(jobs, known, queued + running, item.check.id);
      futures := Resolve(futures, item.future, outcome);
      unfinished := unfinished - 1;
      ForgetRemovedGeneration(item.check.id);
    }

    lemma TakenIsLegitimate(item: WorkItem)
      requires KnownOk(jobs, known, queued + running + {item.check.id}) && !Obsolete(item)
      ensures Legitimate(Moment(item))
    {
    }

    /** The runner is through with the item of worker w, which goes back to the queue or, cancelled, ends. */
    method Finish(w: nat, outcome: FutureState, workerEnds: bool)
      requires Valid() && w in inFlight && outcome != Pending
      modifies this`running, this`runningGenerations, this`inFlight, this`unfinished, this`known, this`futures,
               this`workers
      ensures Valid()
      ensures inFlight == old(inFlight) - {w} && running == old(running) - {old(inFlight)[w].check.id}
      ensures workers == if workerEnds then old(workers) - {w} else old(workers)
      // The caller gets this very outcome, unless it has given up.
      ensures forall g :: g in old(futures) ==>
                g in futures
                && futures[g] == if old(inFlight)[w].future == Some(g) && old(futures)[g].Pending? then outcome
                                 else old(futures)[g]
      ensures futures == Resolve(old(futures), old(inFlight)[w].future, outcome)
      ensures Settled(futures, old(inFlight)[w].future)
      ensures unfinished == old(unfinished) - 1
    {
      var item := LeaveRunner(w);
      Release(item, outcome);
      if workerEnds {
        Dismiss(w);
      }
    }

    method LeaveRunner(w: nat) returns (item: WorkItem)
      requires Valid() && w in inFlight
      modifies this`running, this`runningGenerations, this`inFlight
      ensures Holding(item) && item == old(inFlight)[w]
      ensures inFlight == old(inFlight) - {w} && running == old(running) - {item.check.id}
    {
      item := inFlight[w];
      var id := item.check.id;
      WorkersFinish(inFlight, running, runningGenerations, concurrency, w);
      RunningFinish(inFlight, concurrency, w);
      running := running - {id};
      if id in runningGenerations && runningGenerations[id] == item.check.generation {
        runningGenerations := runningGenerations - {id};
      }
      inFlight := inFlight - {w};
      assert queued + running + {id} == queued + old(running);
    }

    method ForgetRemovedGeneration(id: CheckId)
      modifies this`known
      ensures known == Forgotten(jobs, old(known), queued + running, id)
    {
      if (id !in known || known[id].None?) && id !in jobs && id !in queued && id !in running {
        known := known - {id};
      }
    }

    /** The caller of a manual cycle gives up waiting. */
    method CancelFuture(f: nat)
      requires Valid() && f in futures
      modifies this`futures
      ensures Valid() && futures == Resolve(old(futures), Some(f), Cancelled)
      ensures forall g :: g in old(futures) ==>
                g in futures && futures[g] == if g == f && old(futures)[g].Pending? then Cancelled else old(futures)[g]
    {
      futures := Resolve(futures, Some(f), Cancelled);
    }

    /** Stop cancels every task and then waits for them all; in between other steps may happen. */
    method BeginStop()
      requires Valid()
      modifies this`stopping
      ensures Valid() && stopping == (old(stopping) || started)
    {
      if started {
        stopping := true;
      }
    }

    /** A cancelled worker that is not at the runner just ends. */
    method EndIdleWorker(w: nat)
      requires Valid() && stopping && w in workers && w !in inFlight
      modifies this`workers
      ensures Valid() && workers == old(workers) - {w}
    {
      Dismiss(w);
    }

    method Dismiss(w: nat)
      requires Valid() && w !in inFlight
      modifies this`workers
      ensures Valid() && workers == old(workers) - {w}
    {
      workers := workers - {w};
    }

    /** All tasks are gone: drain what is left. */
    method FinishStop()
      requires Valid() && started && stopping && workers == {}
      modifies this`queue, this`futures, this`unfinished, this`producers,
               this`queued, this`running, this`queuedGenerations, this`runningGenerations, this`known, this`started
      ensures Valid() && !started && queue == [] && inFlight == map[] && unfinished == 0
      ensures queued == {} && running == {} && known == map[] && producers == map[]
      // Nobody is left waiting.
      ensures forall f :: f in futures ==> !futures[f].Pending?
      ensures forall f :: f in old(futures) ==>
                f in futures && futures[f] == if old(futures)[f].Pending? then Cancelled else old(futures)[f]
    {
      assert inFlight == map[];
      producers := map[];
      Drain();
      Clear();
    }

    method Clear()
      requires queue == [] && inFlight == map[] && workers == {} && unfinished == 0 && FuturesOk(futures, {})
      requires forall id :: id in jobs ==> jobs[id].id == id
      requires forall i :: 0 <= i < |starts| ==> Legitimate(starts[i])
      modifies this`queued, this`running, this`queuedGenerations, this`runningGenerations, this`known, this`started
      ensures Valid() && queued == {} && running == {} && known == map[] && !started
    {
      NobodyRuns(concurrency);
      queued, running := {}, {};
      queuedGenerations, runningGenerations, known := map[], map[], map[];
      started := false;
    }

    method Drain()
      requires Valid() && inFlight == map[]
      modifies this`queue, this`futures, this`unfinished
      ensures queue == [] && unfinished == 0 && FuturesOk(futures, {})
      ensures forall f :: f in old(futures) ==>
                f in futures && futures[f] == if old(futures)[f].Pending? then Cancelled else old(futures)[f]
    {
      NobodyRuns(concurrency);
      while queue != []
        invariant unfinished == |queue| && FuturesOk(futures, QueuedFutures(queue))
        invariant forall f :: f in old(futures) ==>
                    && f in futures
                    && (futures[f] == old(futures)[f] || (old(futures)[f].Pending? && futures[f].Cancelled?))
      {
        var item := queue[0];
        QueuedFuturesTake(queue);
        FuturesResolve(futures, QueuedFutures(queue), item, QueuedFutures(queue[1..]), Cancelled);
        queue := queue[1..];
        futures := Resolve(futures, item.future, Cancelled);
        unfinished := unfinished - 1;
      }
    }

    predicate Enabled(e: Event)
      reads this
    {
      match e
      case Starts => true
      case Updates(_) => true
      case Asks(_, f) => f !in futures
      case Ticks(_) => true
      case Takes(w) => w in workers && w !in inFlight && queue != []
      case Ends(w, outcome, _) => w in inFlight && outcome != Pending
      case GivesUp(f) => f in futures
      case StopBegins => true
      case IdleWorkerEnds(w) => stopping && w in workers && w !in inFlight
      case StopEnds => started && stopping && workers == {}
    }

    /**
      Nothing gets stuck: while workers are left, queued items are taken or running ones end, and
      stopping comes to its end.  Calls, ticks and callers that give up are never held back.
     */
    lemma SomethingCanHappen() returns (e: Event)
      requires Valid()
      ensures (if workers == {} then started && stopping else queue != [] || inFlight != map[] || stopping) ==>
                Enabled(e) && (e.Takes? || e.Ends? || e.IdleWorkerEnds? || e.StopEnds?)
      ensures Enabled(Starts) && Enabled(StopBegins)
      ensures forall checks :: Enabled(Updates(checks))
      ensures forall check, f :: Enabled(Asks(check, f)) || f in futures
      ensures forall check :: Enabled(Ticks(check))
      ensures forall f :: f in futures ==> Enabled(GivesUp(f))
    {
      if w :| w in inFlight {
        e := Ends(w, Finished, false);
      } else if workers == {} {
        e := StopEnds;
      } else {
        var w :| w in workers;
        e := if queue != [] then Takes(w) else IdleWorkerEnds(w);
      }
    }

    method Step(e: Event)
      requires Valid() && Enabled(e)
      modifies this
      ensures Valid()
      ensures e.StopEnds? ==> forall f :: f in futures ==> !futures[f].Pending?
      ensures old(starts) <= starts
      ensures |starts| > |old(starts)| ==> e.Takes? && starts == old(starts) + [old(Moment(queue[0]))]
    {
      match e {
        case Starts => Start();
        case Updates(checks) => Update(checks);
        case Asks(check, future) => var _, _ := RunOnce(check, future);
        case Ticks(check) => var _ := Tick(check);
        case Takes(w) => var _ := TakeNext(w);
        case Ends(w, outcome, workerEnds) => Finish(w, outcome, workerEnds);
        case GivesUp(f) => CancelFuture(f);
        case StopBegins => BeginStop();
        case IdleWorkerEnds(w) => EndIdleWorker(w);
        case StopEnds => FinishStop();
      }
    }

    /**
      Whatever the event loop does, in whatever order: the invariant holds at every await and every
      start was legitimate.
     */
    method RunEvents(events: seq<Event>)
      requires Valid()
      modifies this
      ensures Valid()
      ensures old(starts) <= starts && forall i :: 0 <= i < |starts| ==> Legitimate(starts[i])
      // Periodic items start in their job's generation, tracked ones in the tracked generation.
      ensures forall i :: 0 <= i < |starts| ==>
                var s := starts[i];
                && (s.item.future == None ==> s.job.Some? && s.job.value.generation == s.item.check.generation)
                && (s.tracked == None || s.tracked == Some(Some(s.item.check.generation)))
    {
      for i := 0 to |events|
        invariant Valid() && old(starts) <= starts
      {
        if Enabled(events[i]) {
          Step(events[i]);
        }
      }
    }

    /**
      At every await: never more running checks than workers, nor more queued ones than the limit,
      nothing in two places, and what is tracked is the job's generation or a tombstone of a busy check.
     */
    lemma InvariantMeans()
      requires Valid()
      ensures forall id :: id in known ==> if known[id].Some? then id in jobs && jobs[id].generation == known[id].value
                                           else id !in jobs && id in queued + running
      ensures |running| == AtRunner(inFlight, concurrency) <= concurrency && |queued| == |queue| <= maxQueue
      ensures queued !! running && queuedGenerations.Keys == queued && runningGenerations.Keys == running
      ensures unfinished == |queued| + |running|
    {
      QueueKeys(queue, queued, queuedGenerations);
      WorkersKeys(inFlight, running, runningGenerations, concurrency);
      WorkersCount(inFlight, running, runningGenerations, concurrency);
    }
  }

  /** Settle a future that is not settled yet. */
  function Resolve(futures: map<nat, FutureState>, f: Option<nat>, outcome: FutureState): (r: map<nat, FutureState>)
    ensures r.Keys == futures.Keys
  {
    if f.Some? && f.value in futures && futures[f.value].Pending? then futures[f.value := outcome] else futures
  }

  lemma ResolveSettles(futures: map<nat, FutureState>, f: Option<nat>, outcome: FutureState)
    requires outcome != Pending
    ensures f.Some? && f.value in futures ==> !Resolve(futures, f, outcome)[f.value].Pending?
    ensures forall g :: g in futures && Some(g) != f ==> Resolve(futures, f, outcome)[g] == futures[g]
  {
  }

  lemma TrackedIsOk(known: map<CheckId, Option<Generation>>, jobs: map<CheckId, Check>, desired: map<CheckId, Check>,
                    busy: set<CheckId>)
    requires KnownOk(jobs, known, busy)
    requires forall id :: id in desired ==> desired[id].id == id
    ensures KnownOk(desired, Tracked(known, jobs, desired, busy), busy)
  {
  }

  /** A job already looked at whose generation is gone or replaced. */
  predicate Changed(jobs: map<CheckId, Check>, desired: map<CheckId, Check>, todo: set<CheckId>, id: CheckId) {
    id in jobs && id !in todo && (id !in desired || desired[id].generation != jobs[id].generation)
  }

  function NewMark(desired: map<CheckId, Check>, id: CheckId): Option<Generation> {
    if id in desired then Some(desired[id].generation) else None
  }

  /** The loops over dictionaries at the start and end of an update. */
  method Retrack(known: map<CheckId, Option<Generation>>, jobs: map<CheckId, Check>, desired: map<CheckId, Check>,
                 busy: set<CheckId>)
    returns (r: map<CheckId, Option<Generation>>)
    requires KnownOk(jobs, known, busy)
    ensures r == Tracked(known, jobs, desired, busy)
  {
    r := known;
    var todo := jobs.Keys;
    while todo != {}
      invariant todo <= jobs.Keys
      invariant forall id :: id in r <==> id in known || Changed(jobs, desired, todo, id)
      invariant forall id :: id in r ==>
                  r[id] == if Changed(jobs, desired, todo, id) then NewMark(desired, id) else known[id]
    {
      var id :| id in todo;
      if id !in desired || desired[id].generation != jobs[id].generation {
        r := r[id := NewMark(desired, id)];
      }
      todo := todo - {id};
    }
    ghost var marked := r;
    r := r + map id | id in desired :: Some(desired[id].generation);
    r := map id | id in r && (r[id].Some? || id in busy) :: r[id];
    RetrackedIsTracked(known, jobs, desired, busy, marked, r);
  }

  lemma RetrackedIsTracked(known: map<CheckId, Option<Generation>>, jobs: map<CheckId, Check>,
                           desired: map<CheckId, Check>, busy: set<CheckId>,
                           marked: map<CheckId, Option<Generation>>, r: map<CheckId, Option<Generation>>)
    requires KnownOk(jobs, known, busy)
    requires forall id :: id in marked <==> id in known || Changed(jobs, desired, {}, id)
    requires forall id :: id in marked ==>
               marked[id] == if Changed(jobs, desired, {}, id) then NewMark(desired, id) else known[id]
    requires var all := marked + map id | id in desired :: Some(desired[id].generation);
             r == map id | id in all && (all[id].Some? || id in busy) :: all[id]
    ensures r == Tracked(known, jobs, desired, busy)
  {
    var t := Tracked(known, jobs, desired, busy);
    assert forall id :: id in r <==> id in t;
    assert forall id :: id in r ==> r[id] == t[id];
  }
}
