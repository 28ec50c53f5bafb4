/**
  What the tasks of the runtime pool hold between awaits. A task is one call into the pool; its
  state says at which await it is suspended, and with it which slot and which key lock it owns.
 */
module PoolState {
  import opened Wrappers

  /** A key names an entry, a mode and its tags; keys and generations are only ever compared. */
  type Key(==, !new)

  type Generation(==, !new)

  datatype Check = Check(key: Key, generation: Generation, persistent: bool)

  datatype Persistent = Persistent(runtime: nat, generation: Generation)

  datatype Task =
    | AwaitingKey(check: Check)
    | Replacing(check: Check, runtime: nat)
    | AwaitingStart(check: Check)
    | AwaitingSlot(check: Check)
    | Starting(check: Check)
    | AbandoningStart(check: Check)
    | DiscardingObsolete(check: Check)
    | UsingPersistent(check: Check, runtime: nat)
    | AwaitingCheckup(check: Check, runtime: nat, retire: bool)
    | Retiring(check: Check, runtime: nat)
    | UsingFresh(check: Check)
    | StoppingFresh(check: Check)
    | Sweeping(wanted: map<Key, Generation>, remaining: set<Key>, stopping: Option<(Key, nat)>, closing: bool)
    | Done

  predicate OwnsSlot(t: Task) {
    t.Starting? || t.AbandoningStart? || t.DiscardingObsolete? || t.UsingFresh? || t.StoppingFresh?
  }

  /** The key lock a task holds while it is suspended. */
  function Held(t: Task): set<Key> {
    match t
    case Replacing(c, _) => {c.key}
    case Retiring(c, _) => {c.key}
    case DiscardingObsolete(c) => {c.key}
    case AwaitingStart(c) => if c.persistent then {c.key} else {}
    case AwaitingSlot(c) => if c.persistent then {c.key} else {}
    case Starting(c) => if c.persistent then {c.key} else {}
    case AbandoningStart(c) => if c.persistent then {c.key} else {}
    case Sweeping(_, _, stopping, _) => if stopping.Some? then {stopping.value.0} else {}
    case _ => {}
  }

  /** What a task that holds its key lock relies on. */
  predicate TaskOk(t: Task, persistent: map<Key, Persistent>) {
    match t
    case AwaitingKey(c) => c.persistent
    case Replacing(c, r) => c.key in persistent && persistent[c.key].runtime == r
    case Retiring(c, r) => c.key in persistent && persistent[c.key].runtime == r
    case DiscardingObsolete(c) => c.persistent && c.key !in persistent
    case AwaitingStart(c) => c.persistent ==> c.key !in persistent
    case AwaitingSlot(c) => c.persistent ==> c.key !in persistent
    case Starting(c) => c.persistent ==> c.key !in persistent
    case AbandoningStart(c) => c.persistent ==> c.key !in persistent
    case UsingFresh(c) => !c.persistent
    case StoppingFresh(c) => !c.persistent
    case Sweeping(_, remaining, Some((k, r)), _) => k in remaining && k in persistent && persistent[k].runtime == r
    case _ => true
  }

  ghost function Owners(tasks: seq<Task>): nat {
    if tasks == [] then 0 else Owners(tasks[..|tasks| - 1]) + if OwnsSlot(tasks[|tasks| - 1]) then 1 else 0
  }

  /** The locked keys are those the tasks hold, and no two tasks hold the same. */
  ghost predicate LocksOk(tasks: seq<Task>, locked: set<Key>) {
    if tasks == [] then locked == {}
    else
      var mine := Held(tasks[|tasks| - 1]);
      mine <= locked && LocksOk(tasks[..|tasks| - 1], locked - mine)
  }

  ghost predicate Sound(tasks: seq<Task>, locked: set<Key>, persistent: map<Key, Persistent>) {
    LocksOk(tasks, locked) && forall i :: 0 <= i < |tasks| ==> TaskOk(tasks[i], persistent)
  }

  lemma {:induction false} HeldIsLocked(tasks: seq<Task>, locked: set<Key>, i: nat)
    requires LocksOk(tasks, locked) && i < |tasks|
    ensures Held(tasks[i]) <= locked
  {
    var n := |tasks| - 1;
    if i < n {
      HeldIsLocked(tasks[..n], locked - Held(tasks[n]), i);
    }
  }

  /** Mutual exclusion. */
  lemma {:induction false} HeldByOne(tasks: seq<Task>, locked: set<Key>, i: nat, j: nat)
    requires LocksOk(tasks, locked) && i < |tasks| && j < |tasks| && i != j
    ensures Held(tasks[i]) !! Held(tasks[j])
  {
    var n := |tasks| - 1;
    var rest := locked - Held(tasks[n]);
    if i == n {
      HeldIsLocked(tasks[..n], rest, j);
    } else if j == n {
      HeldIsLocked(tasks[..n], rest, i);
    } else {
      HeldByOne(tasks[..n], rest, i, j);
    }
  }

  /** A locked key is held by some task. */
  lemma {:induction false} LockedIsHeld(tasks: seq<Task>, locked: set<Key>, k: Key) returns (i: nat)
    requires LocksOk(tasks, locked) && k in locked
    ensures i < |tasks| && k in Held(tasks[i])
  {
    var n := |tasks| - 1;
    if k in Held(tasks[n]) {
      i := n;
    } else {
      i := LockedIsHeld(tasks[..n], locked - Held(tasks[n]), k);
    }
  }

  lemma {:induction false} SomebodyOwns(tasks: seq<Task>) returns (i: nat)
    requires Owners(tasks) > 0
    ensures i < |tasks| && OwnsSlot(tasks[i])
  {
    var n := |tasks| - 1;
    if OwnsSlot(tasks[n]) {
      i := n;
    } else {
      i := SomebodyOwns(tasks[..n]);
    }
  }

  lemma {:induction false} LocksMove(tasks: seq<Task>, locked: set<Key>, i: nat, next: Task)
    requires LocksOk(tasks, locked) && i < |tasks| && Held(next) !! locked - Held(tasks[i])
    ensures LocksOk(tasks[i := next], locked - Held(tasks[i]) + Held(next))
  {
    var n := |tasks| - 1;
    var was, mine := Held(tasks[i]), Held(tasks[n]);
    if i == n {
      assert tasks[i := next][..n] == tasks[..n];
      assert locked - was + Held(next) - Held(next) == locked - was;
    } else {
      HeldByOne(tasks, locked, i, n);
      HeldIsLocked(tasks, locked, n);
      LocksMove(tasks[..n], locked - mine, i, next);
      assert tasks[i := next][..n] == tasks[..n][i := next];
      assert locked - mine - was + Held(next) == locked - was + Held(next) - mine;
    }
  }

  lemma {:induction false} OwnersMove(tasks: seq<Task>, i: nat, next: Task)
    requires i < |tasks|
    ensures Owners(tasks[i := next]) + (if OwnsSlot(tasks[i]) then 1 else 0)
         == Owners(tasks) + if OwnsSlot(next) then 1 else 0
  {
    var n := |tasks| - 1;
    if i == n {
      assert tasks[i := next][..n] == tasks[..n];
    } else {
      OwnersMove(tasks[..n], i, next);
      assert tasks[i := next][..n] == tasks[..n][i := next];
    }
  }

  /** A task takes a step that changes what is published at most under the key it holds. */
  lemma SoundStep(tasks: seq<Task>, locked: set<Key>, persistent: map<Key, Persistent>, i: nat, next: Task,
                  after: map<Key, Persistent>)
    requires Sound(tasks, locked, persistent) && i < |tasks|
    requires Held(next) !! locked - Held(tasks[i])
    requires TaskOk(next, after)
    requires forall k :: k !in Held(tasks[i]) ==>
               (k in after <==> k in persistent) && (k in after ==> after[k] == persistent[k])
    ensures Sound(tasks[i := next], locked - Held(tasks[i]) + Held(next), after)
  {
    LocksMove(tasks, locked, i, next);
    forall j | 0 <= j < |tasks| && j != i
      ensures TaskOk(tasks[j], after)
    {
      HeldByOne(tasks, locked, i, j);
      OthersUnaffected(tasks[j], persistent, after, Held(tasks[i]));
    }
  }

  lemma OthersUnaffected(t: Task, persistent: map<Key, Persistent>, after: map<Key, Persistent>, others: set<Key>)
    requires TaskOk(t, persistent) && Held(t) !! others
    requires forall k :: k !in others ==>
               (k in after <==> k in persistent) && (k in after ==> after[k] == persistent[k])
    ensures TaskOk(t, after)
  {
  }

  lemma SoundSpawn(tasks: seq<Task>, locked: set<Key>, persistent: map<Key, Persistent>, t: Task)
    requires Sound(tasks, locked, persistent) && TaskOk(t, persistent) && Held(t) == {}
    ensures Sound(tasks + [t], locked, persistent)
    ensures Owners(tasks + [t]) == Owners(tasks) + if OwnsSlot(t) then 1 else 0
  {
    assert (tasks + [t])[..|tasks|] == tasks;
    assert locked - Held(t) == locked;
  }

  lemma {:induction false} DoneHoldsNothing(tasks: seq<Task>, locked: set<Key>)
    requires LocksOk(tasks, locked) && forall i :: 0 <= i < |tasks| ==> tasks[i].Done?
    ensures Owners(tasks) == 0 && locked == {}
  {
    if tasks != [] {
      DoneHoldsNothing(tasks[..|tasks| - 1], locked - Held(tasks[|tasks| - 1]));
      assert locked - Held(tasks[|tasks| - 1]) == locked;
    }
  }

  /** How many keys have a published runtime. */
  ghost function Count(persistent: map<Key, Persistent>): nat {
    if persistent == map[] then 0 else var k :| k in persistent; 1 + Count(persistent - {k})
  }

  lemma {:induction false} CountIsSize(persistent: map<Key, Persistent>)
    ensures Count(persistent) == |persistent|
  {
    if persistent != map[] {
      var k :| k in persistent && Count(persistent) == 1 + Count(persistent - {k});
      CountIsSize(persistent - {k});
      assert (persistent - {k}).Keys == persistent.Keys - {k};
      assert |persistent.Keys| == |persistent| && |(persistent - {k}).Keys| == |persistent - {k}|;
    }
  }

  lemma Unpublished(persistent: map<Key, Persistent>, k: Key)
    requires k in persistent
    ensures Count(persistent - {k}) == Count(persistent) - 1
  {
    CountIsSize(persistent);
    CountIsSize(persistent - {k});
    assert (persistent - {k}).Keys == persistent.Keys - {k};
    assert |persistent.Keys| == |persistent| && |(persistent - {k}).Keys| == |persistent - {k}|;
  }

  lemma Published(persistent: map<Key, Persistent>, k: Key, p: Persistent)
    requires k !in persistent
    ensures Count(persistent[k := p]) == Count(persistent) + 1
  {
    CountIsSize(persistent);
    CountIsSize(persistent[k := p]);
    assert persistent[k := p].Keys == persistent.Keys + {k};
    assert |persistent.Keys| == |persistent| && |persistent[k := p].Keys| == |persistent[k := p]|;
  }
}
