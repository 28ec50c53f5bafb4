/** What the registry promises across calls, about the results its methods are proved to return. */
module IdentityLaws {
  import opened Wrappers
  import opened IdentitySpec
  import opened IdentityStability
  import opened IdentityMatching
  import opened IdentityAnswers
  import opened Identity

  ghost predicate InSomeConflict(r: Reconciliation, id: string) {
    exists x :: x in r.conflicts && id in x.candidateIds
  }

  /**
    Whatever the registry holds, two candidates without a stable identity that share name and
    fingerprint are not assigned anything but listed in a conflict, both of them.
   */
  lemma TwinsAreListed(cs: seq<Candidate>, bs: seq<Binding>, supply: seq<string>, r: Reconciliation,
                       c: Candidate, d: Candidate)
    requires Answers(cs, bs, supply, r)
    requires c in cs && d in cs && c != d && !HasText(c.external) && !HasText(d.external)
    requires c.name == d.name && c.fingerprint == d.fingerprint
    ensures c.id !in r.assignments && InSomeConflict(r, c.id)
    ensures d.id !in r.assignments && InSomeConflict(r, d.id)
  {
    TwinsAreRefused(SetOf(cs), SetOf(bs), c, d);
    RefusedIsInConflict(SetOf(cs), SetOf(bs), r.conflicts, c);
    RefusedIsInConflict(SetOf(cs), SetOf(bs), r.conflicts, d);
  }

  lemma RefusedIsInConflict(cs: set<Candidate>, bs: set<Binding>, conflicts: seq<Conflict>, c: Candidate)
    requires ConflictsAnswered(cs, bs, conflicts) && Refusal(cs, bs, c)
    ensures exists x :: x in conflicts && c.id in x.candidateIds
  {
    var x :| x in conflicts && IdentityAnswers.Listed(cs, bs, c, View(x));
    ListedIsRefused(cs, bs, c, View(x));
  }

  lemma ConflictsMeanRefusals(cs: set<Candidate>, bs: set<Binding>, conflicts: seq<Conflict>)
    requires ConflictsAnswered(cs, bs, conflicts)
    ensures conflicts == [] <==> forall c :: c in cs ==> !Refusal(cs, bs, c)
  {
    if conflicts != [] {
      var x := conflicts[0];
      assert x in conflicts;
      var c :| IdentityAnswers.Listed(cs, bs, c, View(x));
      ListedIsRefused(cs, bs, c, View(x));
    }
    if c :| c in cs && Refusal(cs, bs, c) {
      RefusedIsInConflict(cs, bs, conflicts, c);
    }
  }

  /**
    Against an empty registry: no conflict exactly if no two candidates share a stable identity, or
    a name and a fingerprint.
   */
  lemma EmptyRegistryAccepts(cs: seq<Candidate>, supply: seq<string>, r: Reconciliation)
    requires Answers(cs, [], supply, r)
    ensures r.conflicts == [] <==> forall c, d :: c in cs && d in cs && c != d ==> !Clash(c, d)
  {
    EmptyRegistryRefusesClashes(SetOf(cs));
    var none: set<Binding> := SetOf([]);
    assert none == {};
    ConflictsMeanRefusals(SetOf(cs), none, r.conflicts);
  }

  /** Both results give this candidate the same old entry, or both a new one, or both none. */
  ghost predicate SameFate(previous: seq<Binding>, r: Reconciliation, r': Reconciliation, id: string) {
    && (id in r.assignments <==> id in r'.assignments)
    && (id in r.assignments ==>
          && (r.assignments[id] in r.newEntryIds <==> r'.assignments[id] in r'.newEntryIds)
          && (r.assignments[id] !in r.newEntryIds ==>
             r.assignments[id] == r'.assignments[id] && r.assignments[id] in EntryIds(previous)))
  }

  /**
    Permuting candidates and rows changes neither who keeps what, nor who is new, nor the
    conflicts, nor what disappeared.
   */
  lemma OrderDoesNotMatter(
      cs: seq<Candidate>, bs: seq<Binding>, supply: seq<string>, r: Reconciliation,
      cs': seq<Candidate>, bs': seq<Binding>, supply': seq<string>, r': Reconciliation)
    requires multiset(cs) == multiset(cs') && multiset(bs) == multiset(bs')
    requires DistinctCandidates(cs) && DistinctRows(bs)
    requires forall b :: b in bs ==> b.entryId !in supply && b.entryId !in supply'
    requires Describes(cs, bs, supply, r) && Describes(cs', bs', supply', r')
    ensures forall id :: SameFate(bs, r, r', id)
    ensures Views(r.conflicts) == Views(r'.conflicts)
    ensures SetOf(r.disappeared) == SetOf(r'.disappeared)
  {
    SameMembers(cs, cs');
    SameMembers(bs, bs');
    forall id
      ensures SameFate(bs, r, r', id)
    {
      if id in r.assignments || id in r'.assignments {
        var c :| c in cs && c.id == id;
        FateOf(cs, bs, supply, r, c);
        FateOf(cs, bs, supply', r', c);
      }
    }
  }

  lemma SameMembers<T(!new)>(s: seq<T>, t: seq<T>)
    requires multiset(s) == multiset(t)
    ensures SetOf(s) == SetOf(t)
  {
    assert forall x :: x in s <==> x in multiset(s);
    assert forall x :: x in t <==> x in multiset(t);
  }

  /** A candidate is assigned unless in conflict, and then its ID is new exactly when it keeps no row. */
  lemma FateOf(cs: seq<Candidate>, bs: seq<Binding>, supply: seq<string>, r: Reconciliation, c: Candidate)
    requires c in cs
    requires forall b :: b in bs ==> b.entryId !in supply
    requires r.newEntryIds <= supply
    requires c.id in r.assignments <==> !InConflict(SetOf(cs), SetOf(bs), c)
    requires forall b :: Keeps(SetOf(cs), SetOf(bs), c, b) ==> c.id in r.assignments && r.assignments[c.id] == b.entryId
    requires IsNew(SetOf(cs), SetOf(bs), c) ==> c.id in r.assignments && r.assignments[c.id] in r.newEntryIds
    ensures c.id in r.assignments <==> !InConflict(SetOf(cs), SetOf(bs), c)
    ensures c.id in r.assignments ==> (r.assignments[c.id] in r.newEntryIds <==> IsNew(SetOf(cs), SetOf(bs), c))
    ensures c.id in r.assignments && !IsNew(SetOf(cs), SetOf(bs), c) ==>
              exists b :: && Keeps(SetOf(cs), SetOf(bs), c, b)
                          && r.assignments[c.id] == b.entryId && r.assignments[c.id] in EntryIds(bs)
  {
    Partition(SetOf(cs), SetOf(bs), c);
    if b :| Keeps(SetOf(cs), SetOf(bs), c, b) {
      KeepsIsInjective(SetOf(cs), SetOf(bs), c, b, c, b);
      var i :| 0 <= i < |bs| && bs[i] == b;
      assert EntryIds(bs)[i] == b.entryId;
      assert r.assignments[c.id] !in r.newEntryIds;
    }
  }

  ghost predicate ListedAt(xs: seq<Conflict>, i: nat, id: string) {
    i < |xs| && id in xs[i].candidateIds
  }

  /** Every candidate is assigned or listed in exactly one conflict, never both. */
  lemma AssignedXorOneConflict(cs: seq<Candidate>, bs: seq<Binding>, supply: seq<string>, r: Reconciliation,
                               c: Candidate)
    requires DistinctCandidates(cs) && c in cs
    requires Describes(cs, bs, supply, r)
    ensures c.id in r.assignments <==> !exists i: nat :: ListedAt(r.conflicts, i, c.id)
    ensures forall i: nat, j: nat :: ListedAt(r.conflicts, i, c.id) && ListedAt(r.conflicts, j, c.id) ==> i == j
  {
    SeqHasDistinctIds(cs);
    ListedMeansInConflict(STAGES, SetOf(cs), SetOf(bs), c);
    LastPassIsTheResult(SetOf(cs), SetOf(bs));
    ListedInViews(r.conflicts, c.id);
    ListedOnce(r.conflicts, c.id);
  }

  lemma ListedInViews(xs: seq<Conflict>, id: string)
    ensures (exists i: nat :: ListedAt(xs, i, id)) <==> Listed(Views(xs), id)
  {
    if i: nat :| ListedAt(xs, i, id) {
      assert xs[i] in xs;
      assert View(xs[i]) in Views(xs) && id in View(xs[i]).candidateIds;
    }
    if v :| v in Views(xs) && id in v.candidateIds {
      var x :| x in xs && View(x) == v;
      var k :| 0 <= k < |xs| && xs[k] == x;
      assert ListedAt(xs, k, id);
    }
  }

  lemma ListedOnce(xs: seq<Conflict>, id: string)
    requires DisjointConflicts(xs)
    ensures forall i: nat, j: nat :: ListedAt(xs, i, id) && ListedAt(xs, j, id) ==> i == j
  {
    forall i: nat, j: nat | ListedAt(xs, i, id) && ListedAt(xs, j, id)
      ensures i == j
    {
      assert id in SetOf(xs[i].candidateIds) && id in SetOf(xs[j].candidateIds);
    }
  }

  ghost predicate Listed(views: set<ConflictView>, id: string) {
    exists v :: v in views && id in v.candidateIds
  }

  /** A candidate listed by some pass was refused by it. */
  lemma {:induction false} ListedWasRefused(n: nat, cs: set<Candidate>, bs: set<Binding>, c: Candidate, v: ConflictView)
    returns (m: nat)
    requires DistinctIds(cs) && c in cs && v in ConflictsBefore(n, cs, bs) && c.id in v.candidateIds
    ensures m < n && c in Refused(StageAt(m), Before(m, cs, bs))
  {
    m := n - 1;
    if v in ConflictsBefore(m, cs, bs) {
      m := ListedWasRefused(m, cs, bs, c, v);
    } else {
      var d :| d in Refused(StageAt(m), Before(m, cs, bs)) && v == ConflictOf(StageAt(m), Before(m, cs, bs), d);
      PendingShrinks(0, m, cs, bs);
      GroupSharesVerdict(StageAt(m), Before(m, cs, bs), d, c);
    }
  }

  lemma ListedMeansInConflict(n: nat, cs: set<Candidate>, bs: set<Binding>, c: Candidate)
    requires DistinctIds(cs) && c in cs
    ensures Listed(ConflictsBefore(n, cs, bs), c.id) ==> RefusedBefore(n, cs, bs, c)
    ensures RefusedBefore(n, cs, bs, c) ==> Listed(ConflictsBefore(n, cs, bs), c.id)
  {
    if v :| v in ConflictsBefore(n, cs, bs) && c.id in v.candidateIds {
      var _ := ListedWasRefused(n, cs, bs, c, v);
    }
    if m: nat :| m < n && c in Refused(StageAt(m), Before(m, cs, bs)) {
      StaysListed(m, n, cs, bs, ConflictOf(StageAt(m), Before(m, cs, bs), c));
      OwnConflictListsIt(StageAt(m), Before(m, cs, bs), c);
    }
  }

  lemma OwnConflictListsIt(stage: Stage, p: Pending, c: Candidate)
    requires c in p.open
    ensures c.id in ConflictOf(stage, p, c).candidateIds
  {
  }

  /** After an accepted reconciliation the active rows are exactly those of the assigned entries. */
  lemma ActiveRowsAreTheAssignedOnes(cs: seq<Candidate>, bs: seq<Binding>, supply: seq<string>, r: Reconciliation,
                                     rows: seq<Binding>)
    requires DistinctCandidates(cs) && DistinctRows(bs)
    requires Describes(cs, bs, supply, r) && r.conflicts == []
    requires (forall c :: c in cs ==> c.id in r.assignments) && Rewritten(bs, cs, r.assignments, rows)
    ensures forall e :: (exists b :: b in rows && b.entryId == e && b.active) <==> e in r.assignments.Values
  {
    forall e | e in r.assignments.Values
      ensures exists b :: b in rows && b.entryId == e && b.active
    {
      var id :| id in r.assignments && r.assignments[id] == e;
      var c :| c in cs && c.id == id;
      assert e in EntryIds(rows);
      var i :| 0 <= i < |rows| && EntryIds(rows)[i] == e;
      assert Writer(cs, r.assignments, rows[i].entryId).Some?;
      assert rows[i] in rows && rows[i].active;
    }
    forall b | b in rows && b.active
      ensures b.entryId in r.assignments.Values
    {
      var i :| 0 <= i < |rows| && rows[i] == b;
      var w := Writer(cs, r.assignments, b.entryId);
      assert w.Some?;
      assert r.assignments[w.value.id] == b.entryId;
    }
  }

  /**
    Reconciling the same candidates against the rows an accepted reconciliation wrote gives the
    same assignment with nothing new, nothing in conflict and nothing gone - exactly when the
    candidates are distinguishable.
   */
  lemma SecondReconcileIsStable(
      cs: seq<Candidate>, bs: seq<Binding>, supply: seq<string>, r: Reconciliation,
      rows: seq<Binding>, supply': seq<string>, r': Reconciliation)
    requires DistinctCandidates(cs) && DistinctRows(bs)
    requires forall e :: e in supply ==> e !in EntryIds(bs)
    requires Describes(cs, bs, supply, r) && r.conflicts == []
    requires (forall c :: c in cs ==> c.id in r.assignments) && Rewritten(bs, cs, r.assignments, rows)
    requires forall b :: b in rows ==> b.entryId !in supply'
    requires Describes(cs, rows, supply', r')
    ensures r'.assignments == r.assignments && r'.conflicts == [] && r'.newEntryIds == [] && r'.disappeared == []
            <==> Distinguishable(SetOf(cs))
  {
    var C, B, ids := SetOf(cs), SetOf(bs), r.assignments;
    SeqHasDistinctIds(cs);
    SeqHasDistinctEntries(bs);
    CleanResultIsAccepted(cs, bs, supply, r);
    RewrittenIsWritten(bs, cs, ids, rows);
    RepeatIsStableIffDistinguishable(C, B, ids);
    if Distinguishable(C) {
      StableRepeat(cs, B, ids, rows, supply', r');
    }
    if r'.assignments == ids && r'.conflicts == [] && r'.newEntryIds == [] {
      UnchangedMeansKept(cs, B, ids, rows, supply', r');
    }
  }

  lemma StableRepeat(cs: seq<Candidate>, B: set<Binding>, ids: map<string, string>, rows: seq<Binding>,
                     supply: seq<string>, r: Reconciliation)
    requires Setting(SetOf(cs), B, ids) && Distinguishable(SetOf(cs)) && DistinctCandidates(cs)
    requires SetOf(rows) == Written(SetOf(cs), B, ids)
    requires Describes(cs, rows, supply, r)
    ensures r.assignments == ids && r.conflicts == [] && r.newEntryIds == [] && r.disappeared == []
  {
    var C := SetOf(cs);
    StableRepeatChangesNothing(C, B, ids);
    ConflictFreeListsNothing(STAGES, C, SetOf(rows));
    NoViewsNoConflicts(r.conflicts);
    forall c | c in C
      ensures c.id in r.assignments && c.id in ids && r.assignments[c.id] == ids[c.id]
    {
      EachKeepsItsId(C, B, ids, c);
    }
    assert r.assignments.Keys == ids.Keys;
    NoMembers(r.newEntryIds);
    NoMembers(r.disappeared);
  }

  lemma HasMember<T>(s: seq<T>)
    requires s != []
    ensures exists x :: x in s
  {
    assert s[0] in s;
  }

  lemma NoMembers<T>(s: seq<T>)
    requires forall x :: x !in s
    ensures s == []
  {
    if s != [] {
      HasMember(s);
    }
  }

  lemma UnchangedMeansKept(cs: seq<Candidate>, B: set<Binding>, ids: map<string, string>, rows: seq<Binding>,
                           supply: seq<string>, r: Reconciliation)
    requires Setting(SetOf(cs), B, ids) && DistinctCandidates(cs)
    requires SetOf(rows) == Written(SetOf(cs), B, ids)
    requires Describes(cs, rows, supply, r)
    requires r.assignments == ids && r.newEntryIds == []
    ensures forall c :: c in cs ==> c.id in ids
    ensures KeepsEveryId(SetOf(cs), B, ids)
  {
    var C, W := SetOf(cs), SetOf(rows);
    RowsOfWritten(C, B, ids);
    forall c | c in C
      ensures Keeps(C, W, c, RowFor(c, ids[c.id]))
    {
      Partition(C, W, c);
      assert !IsNew(C, W, c);
      var b :| Keeps(C, W, c, b);
      KeepsIsInjective(C, W, c, b, c, b);
      assert b.entryId == RowFor(c, ids[c.id]).entryId;
    }
  }

  // ---- Pruning ----------------------------------------------------------------------------------

  ghost function MatchableOf(bs: set<Binding>): set<Binding> {
    set b | b in bs && Matchable(b)
  }

  /** Rows without any key never take part in a pass. */
  lemma {:induction false} PruningLeavesPasses(n: nat, cs: set<Candidate>, bs: set<Binding>)
    ensures Before(n, cs, MatchableOf(bs)).open == Before(n, cs, bs).open
    ensures Before(n, cs, MatchableOf(bs)).free == MatchableOf(Before(n, cs, bs).free)
    ensures ConflictsBefore(n, cs, MatchableOf(bs)) == ConflictsBefore(n, cs, bs)
    ensures forall c, b :: Pairs(StageAt(n), Before(n, cs, MatchableOf(bs)), c, b)
                           <==> Pairs(StageAt(n), Before(n, cs, bs), c, b)
    ensures Refused(StageAt(n), Before(n, cs, MatchableOf(bs))) == Refused(StageAt(n), Before(n, cs, bs))
  {
    if n > 0 {
      PruningLeavesPasses(n - 1, cs, bs);
      PruningLeavesStage(StageAt(n - 1), Before(n - 1, cs, MatchableOf(bs)), Before(n - 1, cs, bs));
    }
    PruningLeavesStage(StageAt(n), Before(n, cs, MatchableOf(bs)), Before(n, cs, bs));
  }

  lemma PruningLeavesStage(stage: Stage, p: Pending, q: Pending)
    requires p.open == q.open && p.free == MatchableOf(q.free)
    ensures forall c, b :: Pairs(stage, p, c, b) <==> Pairs(stage, q, c, b)
    ensures Refused(stage, p) == Refused(stage, q)
    ensures PairedCandidates(stage, p) == PairedCandidates(stage, q)
    ensures Settle(stage, p).free == MatchableOf(Settle(stage, q).free)
    ensures StageConflicts(stage, p) == StageConflicts(stage, q)
  {
    assert forall c, b :: Rival(stage, p, c, b) <==> Rival(stage, q, c, b);
    forall c
      ensures Crowded(stage, p, c) <==> Crowded(stage, q, c)
      ensures HasRival(stage, p, c) <==> HasRival(stage, q, c)
      ensures Alone(stage, p, c) <==> Alone(stage, q, c)
    {
      if b, b' :| Rival(stage, q, c, b) && Rival(stage, q, c, b') && b != b' {
        assert Rival(stage, p, c, b) && Rival(stage, p, c, b');
      }
      if b :| Rival(stage, q, c, b) {
        assert Rival(stage, p, c, b);
      }
    }
    assert forall c, b :: Pairs(stage, p, c, b) <==> Pairs(stage, q, c, b);
    assert forall c :: Paired(stage, p, c) <==> Paired(stage, q, c) by {
      forall c
        ensures Paired(stage, p, c) <==> Paired(stage, q, c)
      {
        if b :| Pairs(stage, q, c, b) {
          assert Pairs(stage, p, c, b);
        }
      }
    }
    assert forall b :: Claimed(stage, p, b) <==> Claimed(stage, q, b) by {
      forall b
        ensures Claimed(stage, p, b) <==> Claimed(stage, q, b)
      {
        if c :| Pairs(stage, q, c, b) {
          assert Pairs(stage, p, c, b);
        }
      }
    }
    forall c
      ensures ConflictOf(stage, p, c) == ConflictOf(stage, q, c)
    {
      assert RivalIds(stage, p, c) == RivalIds(stage, q, c);
      assert GroupIds(stage, p, c) == GroupIds(stage, q, c);
    }
  }

  /** Pruning changes no later result: same assignments, same conflicts, same new candidates, same disappearances. */
  lemma PruningChangesNoResult(cs: seq<Candidate>, bs: seq<Binding>, supply: seq<string>, r: Reconciliation)
    ensures Describes(cs, Retained(bs), supply, r) <==> Describes(cs, bs, supply, r)
  {
    var C, B, P := SetOf(cs), SetOf(bs), SetOf(Retained(bs));
    assert P == MatchableOf(B);
    PruningLeavesPasses(STAGES, C, B);
    forall c, b
      ensures Keeps(C, P, c, b) <==> Keeps(C, B, c, b)
    {
      SamePairs(C, B, c, b);
    }
    forall c
      ensures InConflict(C, P, c) <==> InConflict(C, B, c)
      ensures IsNew(C, P, c) <==> IsNew(C, B, c)
    {
      SameRefusals(C, B, c);
    }
    SameDescription(cs, Retained(bs), bs, supply, r);
    SameDescription(cs, bs, Retained(bs), supply, r);
  }

  /** A result depends on the rows only through what the passes do with them and through the active ones. */
  lemma SameDescription(cs: seq<Candidate>, a: seq<Binding>, b: seq<Binding>, supply: seq<string>, r: Reconciliation)
    requires forall c, x :: Keeps(SetOf(cs), SetOf(a), c, x) <==> Keeps(SetOf(cs), SetOf(b), c, x)
    requires forall c :: InConflict(SetOf(cs), SetOf(a), c) <==> InConflict(SetOf(cs), SetOf(b), c)
    requires forall c :: IsNew(SetOf(cs), SetOf(a), c) <==> IsNew(SetOf(cs), SetOf(b), c)
    requires ConflictsBefore(STAGES, SetOf(cs), SetOf(a)) == ConflictsBefore(STAGES, SetOf(cs), SetOf(b))
    requires forall x: Binding :: x.active ==> (x in SetOf(a) <==> x in SetOf(b))
    ensures Describes(cs, a, supply, r) ==> Describes(cs, b, supply, r)
  {
  }

  lemma SamePairs(cs: set<Candidate>, bs: set<Binding>, c: Candidate, b: Binding)
    ensures Keeps(cs, MatchableOf(bs), c, b) <==> Keeps(cs, bs, c, b)
  {
    forall n: nat
      ensures Pairs(StageAt(n), Before(n, cs, MatchableOf(bs)), c, b) <==> Pairs(StageAt(n), Before(n, cs, bs), c, b)
    {
      PruningLeavesPasses(n, cs, bs);
    }
  }

  lemma SameRefusals(cs: set<Candidate>, bs: set<Binding>, c: Candidate)
    ensures InConflict(cs, MatchableOf(bs), c) <==> InConflict(cs, bs, c)
  {
    forall n: nat
      ensures c in Refused(StageAt(n), Before(n, cs, MatchableOf(bs))) <==> c in Refused(StageAt(n), Before(n, cs, bs))
    {
      PruningLeavesPasses(n, cs, bs);
    }
  }

  // ---- Where stability stops --------------------------------------------------------------------

  /** Against an empty registry only duplicated stable identities and exact twins are refused. */
  lemma EmptyRegistryRefusesTwins(n: nat, cs: set<Candidate>, c: Candidate)
    requires c in cs && n < STAGES
    requires forall d :: d in cs && d != c ==> d.name != c.name || d.fingerprint != c.fingerprint
    requires NoExternal(c)
    ensures c !in Refused(StageAt(n), Before(n, cs, {}))
  {
    PendingShrinks(0, n, cs, {});
    assert Before(n, cs, {}).free == {};
    if StageAt(n).LeftoverTwin? {
      assert Alone(LeftoverTwin, Before(n, cs, {}), c);
    }
  }

  /** Four new entries sharing names and fingerprints crosswise are accepted once and refused the next time. */
  lemma CrosswiseNewEntriesAreNotStable(a: Candidate, b: Candidate, c: Candidate, d: Candidate)
    requires DistinctIds({a, b, c, d}) && NoExternal(a) && NoExternal(b) && NoExternal(c) && NoExternal(d)
    requires a.name == b.name && c.name == d.name && a.name != c.name
    requires a.fingerprint == c.fingerprint && b.fingerprint != a.fingerprint && d.fingerprint != c.fingerprint
    ensures ConflictFree({a, b, c, d}, {})
    ensures !Distinguishable({a, b, c, d})
  {
    var cs := {a, b, c, d};
    forall x | x in cs
      ensures !InConflict(cs, {}, x)
    {
      forall n: nat | n < STAGES
        ensures x !in Refused(StageAt(n), Before(n, cs, {}))
      {
        EmptyRegistryRefusesTwins(n, cs, x);
      }
    }
    assert WeaklyNamed(cs, a) && WeaklyNamed(cs, c);
    assert a != c;
  }

  lemma SuchEntriesExist()
    ensures exists a, b, c, d ::
            DistinctIds({a, b, c, d}) && ConflictFree({a, b, c, d}, {}) && !Distinguishable({a, b, c, d})
  {
    var a := Candidate("a", "n", Some("f"), None);
    var b := Candidate("b", "n", Some("g"), None);
    var c := Candidate("c", "m", Some("f"), None);
    var d := Candidate("d", "m", Some("h"), None);
    assert a.id[0] == 'a' && b.id[0] == 'b' && c.id[0] == 'c' && d.id[0] == 'd';
    assert a.name[0] == 'n' && c.name[0] == 'm';
    assert "f"[0] == 'f' && "g"[0] == 'g' && "h"[0] == 'h';
    CrosswiseNewEntriesAreNotStable(a, b, c, d);
  }
}
