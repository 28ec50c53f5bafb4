/** The capacity guard at the end of compiling an inventory, and what it gives the runtime pool. */
module Inventory {
  import opened Wrappers
  import opened PoolState
  import opened RuntimePool

  datatype Lifecycle = Fresh | Lasting

  datatype Definition = Definition(key: Key, generation: Generation, lifecycle: Option<Lifecycle>, enabled: bool)

  datatype InventoryError = TooManyPersistent | NoSlotForFresh

  function PersistentProfiles(checks: seq<Definition>): set<(Key, Generation)> {
    set i | 0 <= i < |checks| && checks[i].enabled && checks[i].lifecycle == Some(Lasting) ::
      (checks[i].key, checks[i].generation)
  }

  predicate HasFresh(checks: seq<Definition>) {
    exists i :: 0 <= i < |checks| && checks[i].enabled && checks[i].lifecycle == Some(Fresh)
  }

  /** Only enabled checks count, each persistent key and generation once. */
  lemma ProfilesMean(checks: seq<Definition>)
    ensures forall k, g :: (k, g) in PersistentProfiles(checks) <==> Definition(k, g, Some(Lasting), true) in checks
    ensures HasFresh(checks) <==> exists k, g :: Definition(k, g, Some(Fresh), true) in checks
  {
    forall k, g | Definition(k, g, Some(Lasting), true) in checks
      ensures (k, g) in PersistentProfiles(checks)
    {
      var i :| 0 <= i < |checks| && checks[i] == Definition(k, g, Some(Lasting), true);
    }
    if HasFresh(checks) {
      var i :| 0 <= i < |checks| && checks[i].enabled && checks[i].lifecycle == Some(Fresh);
      assert checks[i] == Definition(checks[i].key, checks[i].generation, Some(Fresh), true);
    }
    if k, g :| Definition(k, g, Some(Fresh), true) in checks {
      var i :| 0 <= i < |checks| && checks[i] == Definition(k, g, Some(Fresh), true);
    }
  }

  /**
    An inventory is accepted exactly if every persistent profile and one fresh check, if there is
    any, can hold a slot at once.
   */
  function Admit(checks: seq<Definition>, maxActive: nat): (r: Result<seq<Definition>, InventoryError>)
    ensures r.Ok? <==> |PersistentProfiles(checks)| + (if HasFresh(checks) then 1 else 0) <= maxActive
    ensures r.Ok? ==> r.value == checks
    ensures r == Raise(NoSlotForFresh) <==> HasFresh(checks) && |PersistentProfiles(checks)| == maxActive
  {
    var profiles := PersistentProfiles(checks);
    if |profiles| > maxActive then Raise(TooManyPersistent)
    else if HasFresh(checks) && |profiles| >= maxActive then Raise(NoSlotForFresh)
    else Ok(checks)
  }

  /** What a reconcile over the enabled checks wants; a later check of the same key decides. */
  function WantedBy(checks: seq<Definition>): (r: map<Key, Generation>)
  {
    if checks == [] then map[]
    else
      var last := checks[|checks| - 1];
      var rest := WantedBy(checks[..|checks| - 1]);
      if last.enabled && last.lifecycle == Some(Lasting) then rest[last.key := last.generation] else rest
  }

  /** Wanted is the last enabled persistent check under a key. */
  ghost predicate LastUnder(checks: seq<Definition>, i: int, k: Key) {
    && 0 <= i < |checks| && checks[i] == Definition(k, checks[i].generation, Some(Lasting), true)
    && forall j :: i < j < |checks| ==>
         !(checks[j].key == k && checks[j].enabled && checks[j].lifecycle == Some(Lasting))
  }

  lemma {:induction false} WantedIsLast(checks: seq<Definition>, k: Key)
    ensures k in WantedBy(checks) ==> exists i :: LastUnder(checks, i, k) && checks[i].generation == WantedBy(checks)[k]
    ensures k !in WantedBy(checks) ==> forall g :: Definition(k, g, Some(Lasting), true) !in checks
  {
    if checks != [] {
      var n := |checks| - 1;
      WantedIsLast(checks[..n], k);
      if checks[n].enabled && checks[n].lifecycle == Some(Lasting) && checks[n].key == k {
        assert LastUnder(checks, n, k);
      } else if k in WantedBy(checks) {
        var i :| LastUnder(checks[..n], i, k) && checks[..n][i].generation == WantedBy(checks[..n])[k];
        assert forall j :: i < j < n ==> checks[j] == checks[..n][j];
        assert LastUnder(checks, i, k);
      }
      assert checks == checks[..n] + [checks[n]];
    }
  }

  lemma {:induction false} WantedAreProfiles(checks: seq<Definition>)
    ensures forall k :: k in WantedBy(checks) ==> (k, WantedBy(checks)[k]) in PersistentProfiles(checks)
  {
    if checks != [] {
      var n := |checks| - 1;
      WantedAreProfiles(checks[..n]);
      forall k | k in WantedBy(checks)
        ensures (k, WantedBy(checks)[k]) in PersistentProfiles(checks)
      {
        if k in WantedBy(checks[..n]) && WantedBy(checks)[k] == WantedBy(checks[..n])[k] {
          var i :| 0 <= i < n && checks[..n][i].enabled && checks[..n][i].lifecycle == Some(Lasting)
                   && (checks[..n][i].key, checks[..n][i].generation) == (k, WantedBy(checks)[k]);
          assert checks[i] == checks[..n][i];
        }
      }
    }
  }

  lemma {:induction false} FewerKeysThanProfiles(wanted: map<Key, Generation>, keys: set<Key>,
                                                 profiles: set<(Key, Generation)>)
    requires keys <= wanted.Keys && forall k :: k in keys ==> (k, wanted[k]) in profiles
    ensures |keys| <= |profiles|
  {
    if keys != {} {
      var k :| k in keys;
      FewerKeysThanProfiles(wanted, keys - {k}, profiles - {(k, wanted[k])});
    }
  }

  /**
    Once the pool has settled on an accepted inventory, the published runtimes fit, and leave a
    slot for an enabled fresh check.
   */
  lemma PersistentRuntimesNeverPinAllSlots(pool: RuntimePool, checks: seq<Definition>)
    requires pool.Valid() && Admit(checks, pool.limit).Ok?
    requires pool.desired == Some(WantedBy(checks)) && pool.unsettled == {}
    ensures |pool.persistent| <= |PersistentProfiles(checks)| <= pool.limit
    ensures HasFresh(checks) ==> |pool.persistent| < pool.limit && pool.free + Owners(pool.tasks) > 0
  {
    var wanted := WantedBy(checks);
    WantedAreProfiles(checks);
    FewerKeysThanProfiles(wanted, wanted.Keys, PersistentProfiles(checks));
    assert |wanted.Keys| == |wanted|;
    pool.NothingObsoleteIsPublished();
    CountIsSize(pool.persistent);
  }

  /**
    So on such an inventory with a fresh check nothing gets stuck: as long as somebody waits,
    something other than a cancellation can happen.
   */
  lemma NothingGetsStuck(pool: RuntimePool, checks: seq<Definition>, i: nat) returns (e: Event)
    requires pool.Valid() && Admit(checks, pool.limit).Ok? && HasFresh(checks)
    requires pool.desired == Some(WantedBy(checks)) && pool.unsettled == {}
    requires i < |pool.tasks| && !pool.tasks[i].Done?
    ensures pool.Enabled(e) && !e.IsCancelled? && !e.Acquires? && !e.Reconciles? && !e.Closes?
  {
    PersistentRuntimesNeverPinAllSlots(pool, checks);
    e := pool.SomethingCanHappen(i);
  }
}
