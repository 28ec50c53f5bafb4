/** The identity registry and its mutators. */
module Identity {
  import opened Wrappers
  import opened IdentitySpec
  import opened IdentityStability
  import opened IdentityMatching
  import opened IdentityAnswers

  /** What the passes have settled so far. */
  datatype Progress = Progress(
    assignments: map<string, string>,
    used: set<string>,
    blocked: set<string>,
    conflicts: seq<Conflict>)

  ghost predicate KeptBefore(n: nat, cs: set<Candidate>, bs: set<Binding>, c: Candidate, b: Binding) {
    exists m: nat :: m < n && Pairs(StageAt(m), Before(m, cs, bs), c, b)
  }

  ghost predicate RefusedBefore(n: nat, cs: set<Candidate>, bs: set<Binding>, c: Candidate) {
    exists m: nat :: m < n && c in Refused(StageAt(m), Before(m, cs, bs))
  }

  ghost predicate OpenAgrees(p: Pending, cs: set<Candidate>, bs: set<Binding>, st: Progress) {
    && (forall c :: c in cs ==> (c in p.open <==> c.id !in st.assignments && c.id !in st.blocked))
    && (forall b :: b in bs ==> (b in p.free <==> b.entryId !in st.used))
  }

  ghost predicate KeptAgrees(n: nat, cs: set<Candidate>, bs: set<Binding>, assignments: map<string, string>) {
    && (forall c, b :: KeptBefore(n, cs, bs, c, b) ==> c.id in assignments && assignments[c.id] == b.entryId)
    && (forall id :: id in assignments ==> exists c, b :: KeptBefore(n, cs, bs, c, b) && c.id == id)
  }

  ghost predicate BlockedAgrees(n: nat, cs: set<Candidate>, bs: set<Binding>, blocked: set<string>) {
    forall c :: c in cs ==> (c.id in blocked <==> RefusedBefore(n, cs, bs, c))
  }

  ghost predicate ConflictsAgree(n: nat, cs: set<Candidate>, bs: set<Binding>, st: Progress) {
    && Views(st.conflicts) == ConflictsBefore(n, cs, bs)
    && (forall x :: x in st.conflicts ==> SetOf(x.candidateIds) <= st.blocked)
    && DisjointConflicts(st.conflicts)
  }

  /** The lists and dictionaries hold exactly what the first n passes of the specification settle. */
  ghost predicate ProgressAt(n: nat, cs: set<Candidate>, bs: set<Binding>, st: Progress) {
    && OpenAgrees(Before(n, cs, bs), cs, bs, st)
    && KeptAgrees(n, cs, bs, st.assignments)
    && BlockedAgrees(n, cs, bs, st.blocked)
    && ConflictsAgree(n, cs, bs, st)
    && st.used == st.assignments.Values
  }

  function ConflictedIds(xs: seq<Conflict>): (r: set<string>)
    ensures forall id :: id in r <==> exists x :: x in xs && id in x.candidateIds
  {
    set x, id | x in xs && id in x.candidateIds :: id
  }

  /** One block of reconcile: regroup what is unresolved and let the pass settle it. */
  method Advance(ghost n: nat, stage: Stage, candidates: seq<Candidate>, previous: seq<Binding>, st: Progress)
    returns (r: Progress)
    requires DistinctCandidates(candidates) && DistinctRows(previous)
    requires n < STAGES && stage == StageAt(n)
    requires ProgressAt(n, SetOf(candidates), SetOf(previous), st)
    ensures ProgressAt(n + 1, SetOf(candidates), SetOf(previous), r)
  {
    var open := Unresolved(candidates, st.assignments.Keys, st.blocked);
    var matched, conflicts := RunStage(stage, open, previous, st.used);
    r := Progress(
      st.assignments + matched,
      st.used + matched.Values,
      st.blocked + ConflictedIds(conflicts),
      st.conflicts + conflicts);
    AdvanceKeepsProgress(n, candidates, previous, st, open, matched, conflicts);
  }

  lemma OpenIsPending(n: nat, candidates: seq<Candidate>, previous: seq<Binding>, st: Progress)
    requires ProgressAt(n, SetOf(candidates), SetOf(previous), st)
    ensures PendingOf(Unresolved(candidates, st.assignments.Keys, st.blocked), previous, st.used)
            == Before(n, SetOf(candidates), SetOf(previous))
  {
    var cs, bs := SetOf(candidates), SetOf(previous);
    PendingShrinks(0, n, cs, bs);
    var p := PendingOf(Unresolved(candidates, st.assignments.Keys, st.blocked), previous, st.used);
    assert p.open == Before(n, cs, bs).open;
    assert p.free == Before(n, cs, bs).free;
  }

  lemma AdvanceKeepsProgress(
      n: nat, candidates: seq<Candidate>, previous: seq<Binding>, st: Progress, open: seq<Candidate>,
      matched: map<string, string>, conflicts: seq<Conflict>)
    requires DistinctCandidates(candidates) && DistinctRows(previous) && n < STAGES
    requires ProgressAt(n, SetOf(candidates), SetOf(previous), st)
    requires open == Unresolved(candidates, st.assignments.Keys, st.blocked)
    requires var p := PendingOf(open, previous, st.used);
             && (forall c, b :: Pairs(StageAt(n), p, c, b) ==> c.id in matched && matched[c.id] == b.entryId)
             && (forall id :: id in matched ==> exists c, b :: Pairs(StageAt(n), p, c, b) && c.id == id)
             && Views(conflicts) == StageConflicts(StageAt(n), p)
    requires DisjointConflicts(conflicts)
    ensures ProgressAt(n + 1, SetOf(candidates), SetOf(previous),
                       Progress(st.assignments + matched, st.used + matched.Values,
                                st.blocked + ConflictedIds(conflicts), st.conflicts + conflicts))
  {
    OpenIsPending(n, candidates, previous, st);
    var cs, bs := SetOf(candidates), SetOf(previous);
    var stage, p, m := StageAt(n), Before(n, cs, bs), n + 1;
    PendingShrinks(0, n, cs, bs);
    SeqHasDistinctIds(candidates);
    SeqHasDistinctEntries(previous);
    BlockedByStage(stage, p, cs, conflicts);
    MatchedByStage(stage, p, cs, bs, matched);
    MatchedIsFresh(n, cs, bs, st, matched);
    UnionValues(st.assignments, matched);
    ProgressOpen(n, cs, bs, st, matched, conflicts);
    ProgressKept(n, m, cs, bs, st, matched);
    ProgressBlocked(n, m, cs, bs, st, conflicts);
    ProgressConflicts(n, m, cs, bs, st, matched, conflicts);
  }

  lemma UnionValues(a: map<string, string>, b: map<string, string>)
    requires a.Keys !! b.Keys
    ensures (a + b).Values == a.Values + b.Values
  {
    forall v | v in a.Values + b.Values
      ensures v in (a + b).Values
    {
      if v in a.Values {
        var k :| k in a && a[k] == v;
        assert (a + b)[k] == v;
      } else {
        var k :| k in b && b[k] == v;
        assert (a + b)[k] == v;
      }
    }
  }

  lemma ViewsOfSum(xs: seq<Conflict>, ys: seq<Conflict>)
    ensures Views(xs + ys) == Views(xs) + Views(ys)
  {
  }

  /** The candidates a pass blocks are exactly those it refuses. */
  lemma BlockedByStage(stage: Stage, p: Pending, cs: set<Candidate>, conflicts: seq<Conflict>)
    requires DistinctIds(cs) && p.open <= cs
    requires Views(conflicts) == StageConflicts(stage, p)
    ensures forall c :: c in cs ==> (c.id in ConflictedIds(conflicts) <==> c in Refused(stage, p))
  {
    forall c | c in cs && c.id in ConflictedIds(conflicts)
      ensures c in Refused(stage, p)
    {
      var x :| x in conflicts && c.id in x.candidateIds;
      assert View(x) in StageConflicts(stage, p);
      var d :| d in Refused(stage, p) && View(x) == ConflictOf(stage, p, d);
      assert c.id in GroupIds(stage, p, d);
      GroupSharesVerdict(stage, p, d, c);
    }
    forall c | c in Refused(stage, p)
      ensures c.id in ConflictedIds(conflicts)
    {
      assert ConflictOf(stage, p, c) in Views(conflicts);
      var x :| x in conflicts && View(x) == ConflictOf(stage, p, c);
      assert c.id in GroupIds(stage, p, c);
    }
  }

  lemma MatchedByStage(stage: Stage, p: Pending, cs: set<Candidate>, bs: set<Binding>, matched: map<string, string>)
    requires DistinctIds(cs) && DistinctEntries(bs) && p.open <= cs && p.free <= bs
    requires forall c, b :: Pairs(stage, p, c, b) ==> c.id in matched && matched[c.id] == b.entryId
    requires forall id :: id in matched ==> exists c, b :: Pairs(stage, p, c, b) && c.id == id
    ensures forall c :: c in cs ==> (c.id in matched <==> c in PairedCandidates(stage, p))
    ensures forall b :: b in bs ==> (b.entryId in matched.Values <==> b in ClaimedBindings(stage, p))
  {
    forall c | c in cs && c.id in matched
      ensures c in PairedCandidates(stage, p)
    {
      var d, b :| Pairs(stage, p, d, b) && d.id == c.id;
      assert d == c;
    }
    forall b | b in bs && b.entryId in matched.Values
      ensures b in ClaimedBindings(stage, p)
    {
      var id :| id in matched && matched[id] == b.entryId;
      var c, w :| Pairs(stage, p, c, w) && c.id == id;
      assert w == b;
    }
  }

  lemma OneMorePass(n: nat, m: nat, cs: set<Candidate>, bs: set<Binding>)
    requires m == n + 1
    ensures forall c, b :: KeptBefore(m, cs, bs, c, b)
                           <==> KeptBefore(n, cs, bs, c, b) || Pairs(StageAt(n), Before(n, cs, bs), c, b)
    ensures forall c :: RefusedBefore(m, cs, bs, c)
                        <==> RefusedBefore(n, cs, bs, c) || c in Refused(StageAt(n), Before(n, cs, bs))
  {
  }

  /** A pass only settles candidates that were open. */
  lemma MatchedIsFresh(n: nat, cs: set<Candidate>, bs: set<Binding>, st: Progress, matched: map<string, string>)
    requires ProgressAt(n, cs, bs, st)
    requires Before(n, cs, bs).open <= cs
    requires forall id :: id in matched ==> exists c, b :: Pairs(StageAt(n), Before(n, cs, bs), c, b) && c.id == id
    ensures st.assignments.Keys !! matched.Keys
  {
  }

  lemma DisjointSum(n: nat, cs: set<Candidate>, bs: set<Binding>, st: Progress, conflicts: seq<Conflict>)
    requires ProgressAt(n, cs, bs, st) && Before(n, cs, bs).open <= cs
    requires Views(conflicts) == StageConflicts(StageAt(n), Before(n, cs, bs))
    requires DisjointConflicts(conflicts)
    ensures DisjointConflicts(st.conflicts + conflicts)
  {
    forall x, y | x in st.conflicts && y in conflicts
      ensures SetOf(x.candidateIds) !! SetOf(y.candidateIds)
    {
      assert View(y) in StageConflicts(StageAt(n), Before(n, cs, bs));
      var c :| c in Refused(StageAt(n), Before(n, cs, bs)) && View(y) == ConflictOf(StageAt(n), Before(n, cs, bs), c);
      assert SetOf(y.candidateIds) == GroupIds(StageAt(n), Before(n, cs, bs), c);
    }
    var all := st.conflicts + conflicts;
    forall i, j | 0 <= i < j < |all|
      ensures SetOf(all[i].candidateIds) !! SetOf(all[j].candidateIds)
    {
      if i < |st.conflicts| <= j {
        assert all[i] in st.conflicts && all[j] in conflicts;
      }
    }
  }

  lemma ProgressOpen(n: nat, cs: set<Candidate>, bs: set<Binding>, st: Progress, matched: map<string, string>,
                     conflicts: seq<Conflict>)
    requires ProgressAt(n, cs, bs, st) && n < STAGES
    requires forall c :: c in cs ==> (c.id in matched <==> c in PairedCandidates(StageAt(n), Before(n, cs, bs)))
    requires forall b :: b in bs ==>
               (b.entryId in matched.Values <==> b in ClaimedBindings(StageAt(n), Before(n, cs, bs)))
    requires forall c :: c in cs ==> (c.id in ConflictedIds(conflicts) <==> c in Refused(StageAt(n), Before(n, cs, bs)))
    ensures OpenAgrees(Before(n + 1, cs, bs), cs, bs,
                       Progress(st.assignments + matched, st.used + matched.Values,
                                st.blocked + ConflictedIds(conflicts), st.conflicts + conflicts))
  {
    assert Before(n + 1, cs, bs) == Settle(StageAt(n), Before(n, cs, bs));
  }

  lemma ProgressKept(n: nat, m: nat, cs: set<Candidate>, bs: set<Binding>, st: Progress, matched: map<string, string>)
    requires KeptAgrees(n, cs, bs, st.assignments) && n < STAGES && m == n + 1
    requires st.assignments.Keys !! matched.Keys
    requires forall c, b :: Pairs(StageAt(n), Before(n, cs, bs), c, b) ==> c.id in matched && matched[c.id] == b.entryId
    requires forall id :: id in matched ==> exists c, b :: Pairs(StageAt(n), Before(n, cs, bs), c, b) && c.id == id
    ensures KeptAgrees(m, cs, bs, st.assignments + matched)
  {
    OneMorePass(n, m, cs, bs);
    var all := st.assignments + matched;
    forall c, b | KeptBefore(m, cs, bs, c, b)
      ensures c.id in all && all[c.id] == b.entryId
    {
      if KeptBefore(n, cs, bs, c, b) {
        assert c.id !in matched;
      }
    }
    forall id | id in all
      ensures exists c, b :: KeptBefore(m, cs, bs, c, b) && c.id == id
    {
      if id in matched {
        var c, b :| Pairs(StageAt(n), Before(n, cs, bs), c, b) && c.id == id;
        assert KeptBefore(m, cs, bs, c, b);
      } else {
        var c, b :| KeptBefore(n, cs, bs, c, b) && c.id == id;
        assert KeptBefore(m, cs, bs, c, b);
      }
    }
  }

  lemma ProgressBlocked(n: nat, m: nat, cs: set<Candidate>, bs: set<Binding>, st: Progress, conflicts: seq<Conflict>)
    requires BlockedAgrees(n, cs, bs, st.blocked) && m == n + 1
    requires forall c :: c in cs ==> (c.id in ConflictedIds(conflicts) <==> c in Refused(StageAt(n), Before(n, cs, bs)))
    ensures BlockedAgrees(m, cs, bs, st.blocked + ConflictedIds(conflicts))
  {
    OneMorePass(n, m, cs, bs);
  }

  lemma ProgressConflicts(n: nat, m: nat, cs: set<Candidate>, bs: set<Binding>, st: Progress,
                          matched: map<string, string>,
                          conflicts: seq<Conflict>)
    requires ProgressAt(n, cs, bs, st) && m == n + 1 && Before(n, cs, bs).open <= cs
    requires Views(conflicts) == StageConflicts(StageAt(n), Before(n, cs, bs))
    requires DisjointConflicts(conflicts)
    ensures ConflictsAgree(m, cs, bs, Progress(st.assignments + matched, st.used + matched.Values,
                                               st.blocked + ConflictedIds(conflicts), st.conflicts + conflicts))
  {
    ViewsOfSum(st.conflicts, conflicts);
    DisjointSum(n, cs, bs, st, conflicts);
    assert forall x :: x in st.conflicts + conflicts ==> x in st.conflicts || x in conflicts;
  }

  // ---- Rows --------------------------------------------------------------------------------

  /** The last candidate that writes the row of entry e. */
  ghost function Writer(cs: seq<Candidate>, ids: map<string, string>, e: string): (w: Option<Candidate>)
    requires forall c :: c in cs ==> c.id in ids
    ensures w.Some? ==> w.value in cs && ids[w.value.id] == e
    ensures w.None? ==> forall c :: c in cs ==> ids[c.id] != e
  {
    if cs == [] then None
    else
      var last := cs[|cs| - 1];
      assert cs == cs[..|cs| - 1] + [last];
      if ids[last.id] == e then Some(last) else Writer(cs[..|cs| - 1], ids, e)
  }

  /** Row i holds what its last writer put there, or else the old row, deactivated. */
  ghost predicate RowRight(previous: seq<Binding>, i: nat, w: Option<Candidate>, row: Binding) {
    if w.Some? then row == RowFor(w.value, row.entryId) else i < |previous| && row == previous[i].(active := false)
  }

  /** rows is previous with every row deactivated and then one active row written for each mapped candidate. */
  ghost predicate Rewritten(previous: seq<Binding>, cs: seq<Candidate>, ids: map<string, string>, rows: seq<Binding>)
    requires forall c :: c in cs ==> c.id in ids
  {
    && DistinctRows(rows)
    && |previous| <= |rows|
    && (forall i :: 0 <= i < |previous| ==> rows[i].entryId == previous[i].entryId)
    && (forall i :: 0 <= i < |rows| ==> RowRight(previous, i, Writer(cs, ids, rows[i].entryId), rows[i]))
    && (forall c :: c in cs ==> ids[c.id] in EntryIds(rows))
  }

  lemma WriterStep(cs: seq<Candidate>, k: nat, ids: map<string, string>, e: string)
    requires k < |cs| && forall c :: c in cs ==> c.id in ids
    ensures Writer(cs[..k + 1], ids, e) == if ids[cs[k].id] == e then Some(cs[k]) else Writer(cs[..k], ids, e)
  {
    assert cs[..k + 1][..k] == cs[..k];
  }

  /** byEntry finds every row by its entry ID. */
  ghost predicate Indexed(rows: seq<Binding>, byEntry: map<string, nat>) {
    && (forall e :: e in byEntry ==> byEntry[e] < |rows| && rows[byEntry[e]].entryId == e)
    && (forall i :: 0 <= i < |rows| ==> rows[i].entryId in byEntry && byEntry[rows[i].entryId] == i)
  }

  method IndexRows(previous: seq<Binding>) returns (rows: seq<Binding>, byEntry: map<string, nat>)
    requires DistinctRows(previous)
    ensures |rows| == |previous|
    ensures forall i :: 0 <= i < |previous| ==> rows[i] == previous[i].(active := false)
    ensures Indexed(rows, byEntry)
  {
    rows, byEntry := [], map[];
    for i := 0 to |previous|
      invariant |rows| == i
      invariant forall j :: 0 <= j < i ==> rows[j] == previous[j].(active := false)
      invariant Indexed(rows, byEntry)
    {
      rows := rows + [previous[i].(active := false)];
      byEntry := byEntry[previous[i].entryId := i];
    }
  }

  /** The rows after the first k candidates have been written. */
  ghost predicate Writing(previous: seq<Binding>, cs: seq<Candidate>, k: nat, ids: map<string, string>,
                          rows: seq<Binding>, byEntry: map<string, nat>)
    requires k <= |cs| && forall c :: c in cs ==> c.id in ids
  {
    && |previous| <= |rows| && Indexed(rows, byEntry)
    && (forall i :: 0 <= i < |previous| ==> rows[i].entryId == previous[i].entryId)
    && (forall i :: 0 <= i < |rows| ==> RowRight(previous, i, Writer(cs[..k], ids, rows[i].entryId), rows[i]))
    && (forall j :: 0 <= j < k ==> ids[cs[j].id] in byEntry)
  }

  lemma WritingUpdates(previous: seq<Binding>, cs: seq<Candidate>, k: nat, ids: map<string, string>, rows: seq<Binding>,
                       byEntry: map<string, nat>, e: string)
    requires k < |cs| && (forall c :: c in cs ==> c.id in ids)
    requires Writing(previous, cs, k, ids, rows, byEntry)
    requires e == ids[cs[k].id] && e in byEntry
    ensures Writing(previous, cs, k + 1, ids, rows[byEntry[e] := RowFor(cs[k], e)], byEntry)
  {
    var after := rows[byEntry[e] := RowFor(cs[k], e)];
    forall i | 0 <= i < |after|
      ensures RowRight(previous, i, Writer(cs[..k + 1], ids, after[i].entryId), after[i])
    {
      WriterStep(cs, k, ids, after[i].entryId);
    }
  }

  lemma WritingAppends(previous: seq<Binding>, cs: seq<Candidate>, k: nat, ids: map<string, string>, rows: seq<Binding>,
                       byEntry: map<string, nat>, e: string)
    requires k < |cs| && (forall c :: c in cs ==> c.id in ids)
    requires Writing(previous, cs, k, ids, rows, byEntry)
    requires e == ids[cs[k].id] && e !in byEntry
    ensures Writing(previous, cs, k + 1, ids, rows + [RowFor(cs[k], e)], byEntry[e := |rows|])
  {
    var after := rows + [RowFor(cs[k], e)];
    forall i | 0 <= i < |after|
      ensures RowRight(previous, i, Writer(cs[..k + 1], ids, after[i].entryId), after[i])
    {
      WriterStep(cs, k, ids, after[i].entryId);
    }
  }

  lemma WrittenThrough(previous: seq<Binding>, cs: seq<Candidate>, ids: map<string, string>, rows: seq<Binding>,
                       byEntry: map<string, nat>)
    requires forall c :: c in cs ==> c.id in ids
    requires Writing(previous, cs, |cs|, ids, rows, byEntry)
    ensures Rewritten(previous, cs, ids, rows)
  {
    assert cs[..|cs|] == cs;
    forall c | c in cs
      ensures ids[c.id] in EntryIds(rows)
    {
      assert EntryIds(rows)[byEntry[ids[c.id]]] == ids[c.id];
    }
  }

  method WriteRows(previous: seq<Binding>, candidates: seq<Candidate>, ids: map<string, string>)
    returns (rows: seq<Binding>)
    requires DistinctRows(previous)
    requires forall c :: c in candidates ==> c.id in ids
    ensures Rewritten(previous, candidates, ids, rows)
  {
    var byEntry: map<string, nat>;
    rows, byEntry := IndexRows(previous);
    for k := 0 to |candidates|
      invariant Writing(previous, candidates, k, ids, rows, byEntry)
    {
      var c := candidates[k];
      var e := ids[c.id];
      if e in byEntry {
        WritingUpdates(previous, candidates, k, ids, rows, byEntry, e);
        rows := rows[byEntry[e] := RowFor(c, e)];
      } else {
        WritingAppends(previous, candidates, k, ids, rows, byEntry, e);
        byEntry, rows := byEntry[e := |rows|], rows + [RowFor(c, e)];
      }
    }
    WrittenThrough(previous, candidates, ids, rows, byEntry);
  }

  /** Read as a set, the rewritten rows are the ones the stability law speaks of. */
  lemma RewrittenIsWritten(previous: seq<Binding>, cs: seq<Candidate>, ids: map<string, string>, rows: seq<Binding>)
    requires DistinctCandidates(cs) && DistinctRows(previous)
    requires ids.Keys == (set c | c in SetOf(cs) :: c.id)
    requires forall c, d :: c in cs && d in cs && ids[c.id] == ids[d.id] ==> c.id == d.id
    requires forall c :: c in cs ==> c.id in ids
    requires Rewritten(previous, cs, ids, rows)
    ensures SetOf(rows) == Written(SetOf(cs), SetOf(previous), ids)
  {
    var w := Written(SetOf(cs), SetOf(previous), ids);
    forall r | r in rows
      ensures r in w
    {
      var i :| 0 <= i < |rows| && rows[i] == r;
      if Writer(cs, ids, r.entryId).None? {
        assert previous[i] in SetOf(previous) && previous[i].entryId !in ids.Values;
      }
    }
    forall r | r in w
      ensures r in rows
    {
      if c :| c in cs && r == RowFor(c, ids[c.id]) {
        assert ids[c.id] in EntryIds(rows);
        var i :| 0 <= i < |rows| && EntryIds(rows)[i] == ids[c.id];
        SameIdSameCandidate(cs, c, Writer(cs, ids, rows[i].entryId).value);
        assert rows[i] == r;
      } else {
        var b :| b in previous && b.entryId !in ids.Values && r == b.(active := false);
        var i :| 0 <= i < |previous| && previous[i] == b;
        assert Writer(cs, ids, rows[i].entryId).None?;
        assert rows[i] == r;
      }
    }
  }

  /** What stands in the rewritten rows: what each candidate carries, active, and every other old row, inactive. */
  lemma RowsWritten(previous: seq<Binding>, cs: seq<Candidate>, ids: map<string, string>, rows: seq<Binding>)
    requires DistinctCandidates(cs) && DistinctRows(previous)
    requires ids.Keys == (set c | c in SetOf(cs) :: c.id)
    requires forall c, d :: c in cs && d in cs && ids[c.id] == ids[d.id] ==> c.id == d.id
    requires forall c :: c in cs ==> c.id in ids
    requires Rewritten(previous, cs, ids, rows)
    ensures forall c :: c in cs ==> Binding(ids[c.id], c.external, Some(c.name), c.fingerprint, true) in rows
    ensures forall b :: b in previous && (forall c :: c in cs ==> ids[c.id] != b.entryId) ==>
              Binding(b.entryId, b.external, b.name, b.fingerprint, false) in rows
    ensures forall r :: r in rows ==>
              || (exists c :: c in cs && r == Binding(ids[c.id], c.external, Some(c.name), c.fingerprint, true))
              || (exists b :: b in previous && (forall c :: c in cs ==> ids[c.id] != b.entryId)
                              && r == Binding(b.entryId, b.external, b.name, b.fingerprint, false))
  {
    RewrittenIsWritten(previous, cs, ids, rows);
    var w := Written(SetOf(cs), SetOf(previous), ids);
    assert forall r :: r in rows <==> r in w;
    forall c | c in cs
      ensures RowFor(c, ids[c.id]) in rows && ids[c.id] in ids.Values
    {
    }
    forall b | b in previous && forall c :: c in cs ==> ids[c.id] != b.entryId
      ensures b.(active := false) in rows
    {
      assert b.entryId !in ids.Values;
    }
  }

  // ---- Results ----------------------------------------------------------------------------

  /** What one reconciliation of these candidates against these rows returns. */
  ghost predicate Describes(candidates: seq<Candidate>, previous: seq<Binding>, supply: seq<string>,
                            r: Reconciliation) {
    var cs, bs := SetOf(candidates), SetOf(previous);
    && (forall c :: c in cs ==> (c.id in r.assignments <==> !InConflict(cs, bs, c)))
    && (forall id :: id in r.assignments ==> exists c :: c in cs && c.id == id)
    && (forall c, b :: Keeps(cs, bs, c, b) ==> c.id in r.assignments && r.assignments[c.id] == b.entryId)
    && (forall c :: IsNew(cs, bs, c) ==> c.id in r.assignments && r.assignments[c.id] in r.newEntryIds)
    && (forall e :: e in r.newEntryIds ==>
                      exists c :: IsNew(cs, bs, c) && c.id in r.assignments && r.assignments[c.id] == e)
    && r.newEntryIds <= supply
    && (forall x, y :: x in r.assignments && y in r.assignments && r.assignments[x] == r.assignments[y] ==> x == y)
    && Views(r.conflicts) == ConflictsBefore(STAGES, cs, bs)
    && DisjointConflicts(r.conflicts)
    && (forall e :: e in r.disappeared
                    <==> exists b :: b in bs && b.entryId == e && b.active && forall c :: !Keeps(cs, bs, c, b))
  }

  /**
    The same in terms of candidates and rows alone: everybody's answer, and every conflict with its
    members and its reason.
   */
  ghost predicate Answers(candidates: seq<Candidate>, previous: seq<Binding>, supply: seq<string>, r: Reconciliation) {
    var cs, bs := SetOf(candidates), SetOf(previous);
    FatesAnswered(cs, bs, supply, r) && ConflictsAnswered(cs, bs, r.conflicts)
  }

  ghost predicate FatesAnswered(cs: set<Candidate>, bs: set<Binding>, supply: seq<string>, r: Reconciliation) {
    && (forall c, b :: Takes(cs, bs, c, b) ==> c.id in r.assignments && r.assignments[c.id] == b.entryId)
    && (forall c :: c in cs ==> (c.id !in r.assignments <==> Refusal(cs, bs, c)))
    && (forall c :: Open4(cs, bs, c) && !HasTwin(cs, bs, c) ==>
          c.id in r.assignments && r.assignments[c.id] in r.newEntryIds)
    && (forall id :: id in r.assignments ==> exists c :: c in cs && c.id == id)
    && (forall x, y :: x in r.assignments && y in r.assignments && r.assignments[x] == r.assignments[y] ==> x == y)
    && (forall e :: e in r.newEntryIds ==>
          e in supply && exists c :: Open4(cs, bs, c) && c.id in r.assignments && r.assignments[c.id] == e)
    && (forall e :: e in r.disappeared
                    <==> exists b :: b in bs && b.entryId == e && b.active && forall c :: !Takes(cs, bs, c, b))
  }

  ghost predicate ConflictsAnswered(cs: set<Candidate>, bs: set<Binding>, conflicts: seq<Conflict>) {
    && (forall x :: x in conflicts ==> exists c :: Listed(cs, bs, c, View(x)))
    && (forall c :: Refusal(cs, bs, c) ==> exists x :: x in conflicts && Listed(cs, bs, c, View(x)))
    && (forall i, j, id :: 0 <= i < j < |conflicts| ==>
          !(id in conflicts[i].candidateIds && id in conflicts[j].candidateIds))
  }

  lemma DescriptionAnswers(candidates: seq<Candidate>, previous: seq<Binding>, supply: seq<string>, r: Reconciliation)
    requires Describes(candidates, previous, supply, r)
    ensures Answers(candidates, previous, supply, r)
  {
    FatesAre(SetOf(candidates), SetOf(previous));
    ConflictsAnswer(SetOf(candidates), SetOf(previous), r.conflicts);
  }

  lemma ConflictsAnswer(cs: set<Candidate>, bs: set<Binding>, conflicts: seq<Conflict>)
    requires Views(conflicts) == ConflictsBefore(STAGES, cs, bs) && DisjointConflicts(conflicts)
    ensures ConflictsAnswered(cs, bs, conflicts)
  {
    ConflictsAreListed(cs, bs);
    forall x | x in conflicts
      ensures exists c :: Listed(cs, bs, c, View(x))
    {
      assert View(x) in Views(conflicts);
    }
    forall c | Refusal(cs, bs, c)
      ensures exists x :: x in conflicts && Listed(cs, bs, c, View(x))
    {
      var v := RefusalIsListed(cs, bs, c);
      assert v in Views(conflicts);
      var x :| x in conflicts && View(x) == v;
    }
    forall i, j, id | 0 <= i < j < |conflicts|
      ensures !(id in conflicts[i].candidateIds && id in conflicts[j].candidateIds)
    {
      assert SetOf(conflicts[i].candidateIds) !! SetOf(conflicts[j].candidateIds);
      assert id in conflicts[i].candidateIds ==> id in SetOf(conflicts[i].candidateIds);
    }
  }

  lemma LastPassIsTheResult(cs: set<Candidate>, bs: set<Binding>)
    ensures forall c, b :: KeptBefore(STAGES, cs, bs, c, b) <==> Keeps(cs, bs, c, b)
    ensures forall c :: RefusedBefore(STAGES, cs, bs, c) <==> InConflict(cs, bs, c)
  {
  }

  lemma NothingListedNothingRefused(stage: Stage, p: Pending)
    requires StageConflicts(stage, p) == {}
    ensures Refused(stage, p) == {}
  {
    assert forall c :: c in Refused(stage, p) ==> ConflictOf(stage, p, c) in StageConflicts(stage, p);
  }

  lemma NoConflictListedMeansConflictFree(n: nat, cs: set<Candidate>, bs: set<Binding>)
    requires ConflictsBefore(n, cs, bs) == {}
    ensures forall c :: !RefusedBefore(n, cs, bs, c)
  {
    if n > 0 {
      NoConflictListedMeansConflictFree(n - 1, cs, bs);
      var m := n - 1;
      var stage, p := StageAt(m), Before(m, cs, bs);
      NothingListedNothingRefused(stage, p);
      OneMorePass(m, n, cs, bs);
    }
  }

  lemma NoViewsNoConflicts(xs: seq<Conflict>)
    ensures Views(xs) == {} <==> xs == []
  {
    if xs != [] {
      assert View(xs[0]) in Views(xs);
    }
  }

  lemma ConflictFreeListsNothing(n: nat, cs: set<Candidate>, bs: set<Binding>)
    requires ConflictFree(cs, bs) && n <= STAGES
    ensures ConflictsBefore(n, cs, bs) == {}
  {
    if n > 0 {
      ConflictFreeListsNothing(n - 1, cs, bs);
      PendingShrinks(0, n - 1, cs, bs);
      var m := n - 1;
      assert forall c :: c in Refused(StageAt(m), Before(m, cs, bs)) ==> InConflict(cs, bs, c);
    }
  }

  /** A result without conflicts is one the stability law applies to. */
  lemma CleanResultIsAccepted(candidates: seq<Candidate>, previous: seq<Binding>, supply: seq<string>,
                              r: Reconciliation)
    requires DistinctCandidates(candidates) && DistinctRows(previous)
    requires Describes(candidates, previous, supply, r)
    requires forall e :: e in supply ==> e !in EntryIds(previous)
    ensures r.conflicts == [] <==> ConflictFree(SetOf(candidates), SetOf(previous))
    ensures r.conflicts == [] ==> Accepted(SetOf(candidates), SetOf(previous), r.assignments)
  {
    var cs, bs := SetOf(candidates), SetOf(previous);
    NoViewsNoConflicts(r.conflicts);
    LastPassIsTheResult(cs, bs);
    if r.conflicts == [] {
      NoConflictListedMeansConflictFree(STAGES, cs, bs);
      assert r.assignments.Keys == (set c | c in cs :: c.id);
      forall c, b | c in cs && b in bs && IsNew(cs, bs, c)
        ensures r.assignments[c.id] != b.entryId
      {
        var i :| 0 <= i < |previous| && previous[i] == b;
        assert EntryIds(previous)[i] == b.entryId;
        assert r.assignments[c.id] in supply;
      }
    }
    if ConflictFree(cs, bs) {
      ConflictFreeListsNothing(STAGES, cs, bs);
    }
  }

  // ---- The registry ---------------------------------------------------------------------------

  ghost predicate DisjointRows(a: seq<Binding>, b: seq<Binding>) {
    forall x, y :: x in a && y in b ==> x.entryId != y.entryId
  }

  /** Entry IDs are unique within a source and disjoint across sources. */
  ghost predicate UniqueEntries(sources: map<string, seq<Binding>>) {
    && (forall s :: s in sources ==> DistinctRows(sources[s]))
    && (forall s, t :: s in sources && t in sources && s != t ==> DisjointRows(sources[s], sources[t]))
  }

  function RowsOf(sources: map<string, seq<Binding>>, sourceId: string): seq<Binding> {
    if sourceId in sources then sources[sourceId] else []
  }

  /** New entry IDs are random: distinct, and used by no row of any source. */
  ghost predicate FreshSupply(sources: map<string, seq<Binding>>, supply: seq<string>, n: nat) {
    && n <= |supply| && Distinct(supply)
    && forall s, b :: s in sources && b in sources[s] ==> b.entryId !in supply
  }

  /** Whether reconciliation could ever use the row again. */
  predicate Matchable(b: Binding) {
    b.active || b.external.Some? || b.name.Some? || b.fingerprint.Some?
  }

  function Retained(bs: seq<Binding>): (r: seq<Binding>)
    ensures forall b :: b in r <==> b in bs && Matchable(b)
    ensures DistinctRows(bs) ==> DistinctRows(r)
  {
    if bs == [] then []
    else
      var rest := Retained(bs[..|bs| - 1]);
      var last := bs[|bs| - 1];
      assert bs == bs[..|bs| - 1] + [last];
      assert forall i :: 0 <= i < |rest| ==> rest[i] in bs[..|bs| - 1];
      if Matchable(last) then rest + [last] else rest
  }

  function Disappeared(previous: seq<Binding>, used: set<string>): (r: seq<string>)
    ensures forall e :: e in r <==> exists b :: b in previous && b.entryId == e && b.active && e !in used
  {
    if previous == [] then []
    else
      var rest := Disappeared(previous[..|previous| - 1], used);
      var last := previous[|previous| - 1];
      assert previous == previous[..|previous| - 1] + [last];
      if last.active && last.entryId !in used then rest + [last.entryId] else rest
  }

  /** Each open candidate, in order, holds the next unused ID; the rest is as before. */
  ghost predicate Assigning(open: seq<Candidate>, before: map<string, string>, supply: seq<string>,
                            all: map<string, string>, newIds: seq<string>) {
    && |open| <= |supply| && newIds == supply[..|open|]
    && (forall id :: id in all <==> id in before || exists c :: c in open && c.id == id)
    && (forall id :: id in before ==> id in all && all[id] == before[id])
    && (forall i :: 0 <= i < |open| ==> open[i].id in all && all[open[i].id] == supply[i])
  }

  lemma AssigningGrows(open: seq<Candidate>, before: map<string, string>, supply: seq<string>, all: map<string, string>,
                       newIds: seq<string>, c: Candidate)
    requires Assigning(open, before, supply, all, newIds) && |open| < |supply|
    requires c.id !in all
    ensures Assigning(open + [c], before, supply, all[c.id := supply[|newIds|]], newIds + [supply[|newIds|]])
  {
    var after := open + [c];
    assert supply[..|after|] == supply[..|open|] + [supply[|open|]];
    assert forall d :: d in after <==> d in open || d == c;
  }

  /** What holds once the first k candidates have been visited. */
  ghost predicate AssignedUpTo(k: nat, candidates: seq<Candidate>, before: map<string, string>, blocked: set<string>,
                               supply: seq<string>, all: map<string, string>, newIds: seq<string>)
    requires k <= |candidates|
  {
    |newIds| <= k && Assigning(Unresolved(candidates[..k], before.Keys, blocked), before, supply, all, newIds)
  }

  /** Candidates the passes left open get the next unused IDs, in the order the source lists them. */
  method AssignNew(candidates: seq<Candidate>, assignments: map<string, string>, blocked: set<string>,
                   supply: seq<string>)
    returns (all: map<string, string>, newIds: seq<string>)
    requires |candidates| <= |supply| && DistinctCandidates(candidates)
    ensures Assigning(Unresolved(candidates, assignments.Keys, blocked), assignments, supply, all, newIds)
  {
    all, newIds := assignments, [];
    for k := 0 to |candidates|
      invariant AssignedUpTo(k, candidates, assignments, blocked, supply, all, newIds)
    {
      var c := candidates[k];
      AssignNext(candidates, k, assignments, blocked, supply, all, newIds);
      if c.id !in assignments && c.id !in blocked {
        all, newIds := all[c.id := supply[|newIds|]], newIds + [supply[|newIds|]];
      }
    }
    assert candidates[..|candidates|] == candidates;
  }

  lemma AssignNext(candidates: seq<Candidate>, k: nat, assignments: map<string, string>, blocked: set<string>,
                   supply: seq<string>, all: map<string, string>, newIds: seq<string>)
    requires k < |candidates| <= |supply| && DistinctCandidates(candidates)
    requires AssignedUpTo(k, candidates, assignments, blocked, supply, all, newIds)
    ensures var c := candidates[k];
            if c.id in assignments || c.id in blocked
            then AssignedUpTo(k + 1, candidates, assignments, blocked, supply, all, newIds)
            else AssignedUpTo(k + 1, candidates, assignments, blocked, supply,
                              all[c.id := supply[|newIds|]], newIds + [supply[|newIds|]])
  {
    var c, open := candidates[k], Unresolved(candidates[..k], assignments.Keys, blocked);
    assert candidates[..k + 1] == candidates[..k] + [c];
    UnresolvedLast(candidates[..k], c, assignments.Keys, blocked);
    if c.id !in assignments && c.id !in blocked {
      NotYetAssigned(candidates, k, open, c);
      AssigningGrows(open, assignments, supply, all, newIds, c);
    } else {
      assert open + [] == open;
    }
  }

  lemma UnresolvedLast(items: seq<Candidate>, c: Candidate, settled: set<string>, blocked: set<string>)
    ensures Unresolved(items + [c], settled, blocked)
         == Unresolved(items, settled, blocked) + if c.id !in settled && c.id !in blocked then [c] else []
  {
    assert (items + [c])[..|items|] == items;
    assert Unresolved(items, settled, blocked) + [] == Unresolved(items, settled, blocked);
  }

  lemma NotYetAssigned(candidates: seq<Candidate>, k: nat, open: seq<Candidate>, c: Candidate)
    requires DistinctCandidates(candidates) && k < |candidates| && c == candidates[k]
    requires forall d :: d in open ==> d in candidates[..k]
    ensures forall d :: d in open ==> d.id != c.id
  {
    forall d | d in open
      ensures d.id != c.id
    {
      var j :| 0 <= j < k && candidates[..k][j] == d;
    }
  }

  lemma NothingDone(cs: set<Candidate>, bs: set<Binding>)
    ensures ProgressAt(0, cs, bs, Progress(map[], {}, {}, []))
  {
  }

  /** The five blocks of reconcile. */
  method RunPasses(candidates: seq<Candidate>, previous: seq<Binding>) returns (st: Progress)
    requires DistinctCandidates(candidates) && DistinctRows(previous)
    ensures ProgressAt(STAGES, SetOf(candidates), SetOf(previous), st)
  {
    st := Progress(map[], {}, {}, []);
    NothingDone(SetOf(candidates), SetOf(previous));
    st := MatchEntries(candidates, previous, st);
    st := RefuseLeftovers(3, candidates, previous, st);
  }

  /** By stable identity, by unique name, by fingerprint. */
  method MatchEntries(candidates: seq<Candidate>, previous: seq<Binding>, start: Progress) returns (st: Progress)
    requires DistinctCandidates(candidates) && DistinctRows(previous)
    requires ProgressAt(0, SetOf(candidates), SetOf(previous), start)
    ensures ProgressAt(3, SetOf(candidates), SetOf(previous), st)
  {
    st := Advance(0, ByExternal, candidates, previous, start);
    st := Advance(1, ByName, candidates, previous, st);
    st := Advance(2, ByFingerprint, candidates, previous, st);
  }

  /** What is left under a known name, and what cannot be told apart. */
  method RefuseLeftovers(ghost n: nat, candidates: seq<Candidate>, previous: seq<Binding>, start: Progress)
    returns (st: Progress)
    requires DistinctCandidates(candidates) && DistinctRows(previous)
    requires n == 3 && ProgressAt(n, SetOf(candidates), SetOf(previous), start)
    ensures ProgressAt(n + 2, SetOf(candidates), SetOf(previous), st)
  {
    st := Advance(n, LeftoverName, candidates, previous, start);
    st := Advance(n + 1, LeftoverTwin, candidates, previous, st);
  }

  class IdentityRegistry {
    var sources: map<string, seq<Binding>>

    ghost predicate Valid()
      reads this
    {
      UniqueEntries(sources)
    }

    constructor ()
      ensures Valid() && sources == map[]
    {
      sources := map[];
    }

    method Reconcile(sourceId: string, candidates: seq<Candidate>, apply: bool, supply: seq<string>)
      returns (r: Result<Reconciliation, IdentityError>)
      requires Valid() && FreshSupply(sources, supply, |candidates|)
      modifies this
      ensures Valid()
      ensures r.Raise? <==> !DistinctCandidates(candidates)
      ensures r.Raise? <==> exists i, j :: 0 <= i < j < |candidates| && candidates[i].id == candidates[j].id
      ensures r.Ok? ==> Describes(candidates, RowsOf(old(sources), sourceId), supply, r.value)
      ensures r.Ok? ==> Answers(candidates, RowsOf(old(sources), sourceId), supply, r.value)
      ensures r.Raise? || !apply || r.value.conflicts != [] ==> sources == old(sources)
      ensures r.Ok? && apply && r.value.conflicts == [] ==>
                && (forall c :: c in candidates ==> c.id in r.value.assignments)
                && sourceId in sources && sources == old(sources)[sourceId := sources[sourceId]]
                && Rewritten(RowsOf(old(sources), sourceId), candidates, r.value.assignments, sources[sourceId])
    {
      var unique := HasUniqueIds(candidates);
      if !unique {
        return Raise(DuplicateCandidateIds);
      }
      var previous := RowsOf(sources, sourceId);
      SupplyAvoidsRows(sources, sourceId, supply, |candidates|);
      var result := Match(sourceId, candidates, previous, supply);
      r := Ok(result);
      DescriptionAnswers(candidates, previous, supply, result);
      if apply && result.conflicts == [] {
        OldOrNewIds(candidates, previous, supply, result);
        var rows := WriteRows(previous, candidates, result.assignments);
        RowsStayUnique(sources, sourceId, candidates, result.assignments, rows, supply);
        sources := sources[sourceId := rows];
      }
    }

    method ApplyManualMapping(sourceId: string, candidates: seq<Candidate>, mapping: map<string, string>)
      returns (r: Result<ManualResult, IdentityError>)
      requires Valid()
      modifies this
      ensures Valid()
      ensures r == Raise(IncompleteMapping) <==> !CompleteMapping(candidates, mapping)
      ensures r == Raise(ForeignEntryId) <==>
                CompleteMapping(candidates, mapping) && ForeignEntry(old(sources), sourceId, mapping)
      ensures r == Raise(InvalidEntryId) <==>
                && CompleteMapping(candidates, mapping) && !ForeignEntry(old(sources), sourceId, mapping)
                && MalformedEntry(RowsOf(old(sources), sourceId), mapping)
      ensures r.Raise? ==> sources == old(sources)
      ensures r.Ok? ==>
                && (forall c :: c in candidates ==> c.id in mapping)
                && sourceId in sources && sources == old(sources)[sourceId := sources[sourceId]]
                && Rewritten(RowsOf(old(sources), sourceId), candidates, mapping, sources[sourceId])
                && r.value.newEntryIds == mapping.Values - SetOf(EntryIds(RowsOf(old(sources), sourceId)))
                && (forall e :: e in r.value.disappeared <==> e in EntryIds(sources[sourceId]) && e !in mapping.Values)
    {
      if mapping.Keys != (set c | c in candidates :: c.id) || |mapping.Values| != |mapping| {
        InjectiveByCount(mapping);
        return Raise(IncompleteMapping);
      }
      InjectiveByCount(mapping);
      if ForeignEntry(sources, sourceId, mapping) {
        return Raise(ForeignEntryId);
      }
      var previous := RowsOf(sources, sourceId);
      if MalformedEntry(previous, mapping) {
        return Raise(InvalidEntryId);
      }
      var rows := WriteRows(previous, candidates, mapping);
      MappedRowsStayUnique(sources, sourceId, candidates, mapping, rows);
      var known := set b | b in previous :: b.entryId;
      KnownIds(previous);
      sources := sources[sourceId := rows];
      r := Ok(ManualResult(mapping.Values - known, Unmapped(EntryIds(rows), mapping.Values)));
    }

    /** Drop the rows without any key, count them, and drop the sources that have no row left. */
    method PruneUnmatchableInactive() returns (removed: nat)
      modifies this
      ensures old(Valid()) ==> Valid()
      ensures forall s :: RowsOf(sources, s) == Retained(RowsOf(old(sources), s))
      ensures forall s, b :: b in RowsOf(sources, s)
                          <==> b in RowsOf(old(sources), s)
                               && (b.active || b.external != None || b.name != None || b.fingerprint != None)
      ensures forall s :: s in sources ==> s in old(sources) && sources[s] != []
      ensures removed + RowCount(sources) == RowCount(old(sources))
    {
      removed := 0;
      var todo := sources.Keys;
      while todo != {}
        invariant PrunedExcept(old(sources), sources, todo)
        invariant removed + RowCount(sources) == RowCount(old(sources))
      {
        var s :| s in todo;
        var retained := Retained(sources[s]);
        PruneOne(old(sources), sources, todo, s);
        RetainedIsShorter(sources[s]);
        RowCountChanges(sources, s, retained);
        removed := removed + |sources[s]| - |retained|;
        if retained != [] {
          sources := sources[s := retained];
        } else {
          sources := sources - {s};
        }
        todo := todo - {s};
      }
      if old(Valid()) {
        PrunedRowsAreUnique(old(sources), sources);
      }
    }
  }

  /** How many rows a registry holds. */
  ghost function RowCount(sources: map<string, seq<Binding>>): nat {
    if sources == map[] then 0 else var s :| s in sources; |sources[s]| + RowCount(sources - {s})
  }

  lemma {:induction false} RowCountWithout(sources: map<string, seq<Binding>>, s: string)
    requires s in sources
    ensures RowCount(sources) == |sources[s]| + RowCount(sources - {s})
    decreases |sources|
  {
    var t :| t in sources && RowCount(sources) == |sources[t]| + RowCount(sources - {t});
    if t != s {
      Smaller(sources, s);
      Smaller(sources, t);
      RowCountWithout(sources - {t}, s);
      RowCountWithout(sources - {s}, t);
      assert sources - {t} - {s} == sources - {s} - {t};
    }
  }

  lemma Smaller(sources: map<string, seq<Binding>>, s: string)
    requires s in sources
    ensures |sources - {s}| < |sources|
  {
    assert (sources - {s}).Keys == sources.Keys - {s};
    assert |sources.Keys| == |sources| && |(sources - {s}).Keys| == |sources - {s}|;
  }

  lemma RowCountChanges(sources: map<string, seq<Binding>>, s: string, rows: seq<Binding>)
    requires s in sources
    ensures RowCount(sources[s := rows]) + |sources[s]| == RowCount(sources) + |rows|
    ensures RowCount(sources - {s}) + |sources[s]| == RowCount(sources)
  {
    RowCountWithout(sources, s);
    RowCountWithout(sources[s := rows], s);
    assert sources[s := rows] - {s} == sources - {s};
  }

  lemma {:induction false} RetainedIsShorter(rows: seq<Binding>)
    ensures |Retained(rows)| <= |rows|
  {
    if rows != [] {
      RetainedIsShorter(rows[..|rows| - 1]);
    }
  }

  /** Pruning is through with every source but those in todo. */
  ghost predicate PrunedExcept(before: map<string, seq<Binding>>, now: map<string, seq<Binding>>, todo: set<string>) {
    && todo <= now.Keys <= before.Keys
    && (forall s :: s in todo ==> now[s] == before[s])
    && (forall s :: s !in todo ==> RowsOf(now, s) == Retained(RowsOf(before, s)))
    && (forall s :: s in now && s !in todo ==> now[s] != [])
  }

  lemma PruneOne(before: map<string, seq<Binding>>, now: map<string, seq<Binding>>, todo: set<string>, s: string)
    requires PrunedExcept(before, now, todo) && s in todo
    ensures Retained(now[s]) != [] ==> PrunedExcept(before, now[s := Retained(now[s])], todo - {s})
    ensures Retained(now[s]) == [] ==> PrunedExcept(before, now - {s}, todo - {s})
  {
    if Retained(now[s]) != [] {
      var after := now[s := Retained(now[s])];
      assert forall t :: t != s ==> RowsOf(after, t) == RowsOf(now, t);
    } else {
      var after := now - {s};
      assert forall t :: t != s ==> RowsOf(after, t) == RowsOf(now, t);
    }
  }

  lemma PrunedRowsAreUnique(before: map<string, seq<Binding>>, now: map<string, seq<Binding>>)
    requires UniqueEntries(before) && PrunedExcept(before, now, {})
    ensures UniqueEntries(now)
  {
    forall s | s in now
      ensures now[s] == Retained(before[s])
    {
      assert RowsOf(now, s) == Retained(RowsOf(before, s));
    }
  }

  datatype ManualResult = ManualResult(newEntryIds: set<string>, disappeared: seq<string>)

  predicate InjectiveMap(m: map<string, string>) {
    forall x, y :: x in m && y in m && m[x] == m[y] ==> x == y
  }

  /** Every candidate exactly once, each to its own entry. */
  predicate CompleteMapping(candidates: seq<Candidate>, mapping: map<string, string>) {
    mapping.Keys == (set c | c in candidates :: c.id) && InjectiveMap(mapping)
  }

  /** The mapping takes an entry ID that belongs to another source. */
  predicate ForeignEntry(sources: map<string, seq<Binding>>, sourceId: string, mapping: map<string, string>) {
    exists s :: s in sources && s != sourceId && exists b :: b in sources[s] && b.entryId in mapping.Values
  }

  /** The mapping makes up an entry ID that is not well formed. */
  predicate MalformedEntry(previous: seq<Binding>, mapping: map<string, string>) {
    exists e :: e in mapping.Values && (forall b :: b in previous ==> b.entryId != e) && !WellFormedId(e)
  }

  predicate IdStart(c: char) {
    'A' <= c <= 'Z' || 'a' <= c <= 'z' || '0' <= c <= '9'
  }

  predicate WellFormedId(e: string) {
    && 1 <= |e| <= 128
    && IdStart(e[0])
    && forall i :: 1 <= i < |e| ==> IdStart(e[i]) || e[i] in "_.:-"
  }

  /** An ASCII letter or digit, by its code. */
  predicate Alphanumeric(c: char) {
    65 <= c as int <= 90 || 97 <= c as int <= 122 || 48 <= c as int <= 57
  }

  /** The well-formed IDs: 1 to 128 characters, a letter or digit at first and then also four others. */
  lemma WellFormedMeans(e: string)
    ensures WellFormedId(e)
       <==> 0 < |e| < 129 && Alphanumeric(e[0])
            && forall i :: 0 < i < |e| ==>
                 Alphanumeric(e[i]) || e[i] == '_' || e[i] == '.' || e[i] == ':' || e[i] == '-'
  {
    assert forall c :: IdStart(c) <==> Alphanumeric(c);
  }

  /** When a manual mapping is refused, over its entries and the rows of all sources. */
  lemma MappingRefusals(sources: map<string, seq<Binding>>, sourceId: string, candidates: seq<Candidate>,
                        mapping: map<string, string>)
    ensures CompleteMapping(candidates, mapping)
       <==> && (forall c :: c in candidates ==> c.id in mapping)
            && (forall id :: id in mapping ==> exists c :: c in candidates && c.id == id)
            && (forall x, y :: x in mapping && y in mapping && x != y ==> mapping[x] != mapping[y])
    ensures ForeignEntry(sources, sourceId, mapping)
       <==> exists id, s, b :: id in mapping && s in sources && s != sourceId && b in sources[s]
                               && b.entryId == mapping[id]
    ensures MalformedEntry(RowsOf(sources, sourceId), mapping)
       <==> exists id :: id in mapping && !WellFormedId(mapping[id])
                         && forall b :: sourceId in sources && b in sources[sourceId] ==> b.entryId != mapping[id]
  {
    if id, s, b :| id in mapping && s in sources && s != sourceId && b in sources[s] && b.entryId == mapping[id] {
      assert b.entryId in mapping.Values;
    }
    if id :| id in mapping && !WellFormedId(mapping[id])
             && forall b :: sourceId in sources && b in sources[sourceId] ==> b.entryId != mapping[id] {
      assert mapping[id] in mapping.Values;
    }
  }

  function Unmapped(es: seq<string>, mapped: set<string>): (r: seq<string>)
    ensures forall e :: e in r <==> e in es && e !in mapped
  {
    if es == [] then []
    else
      var rest := Unmapped(es[..|es| - 1], mapped);
      var last := es[|es| - 1];
      assert es == es[..|es| - 1] + [last];
      if last !in mapped then rest + [last] else rest
  }

  lemma KnownIds(previous: seq<Binding>)
    ensures (set b | b in previous :: b.entryId) == SetOf(EntryIds(previous))
  {
    forall e | e in SetOf(EntryIds(previous))
      ensures exists b :: b in previous && b.entryId == e
    {
      var i :| 0 <= i < |previous| && EntryIds(previous)[i] == e;
      assert previous[i] in previous;
    }
    forall b | b in previous
      ensures b.entryId in EntryIds(previous)
    {
      var i :| 0 <= i < |previous| && previous[i] == b;
      assert EntryIds(previous)[i] == b.entryId;
    }
  }

  /** As many values as keys means no value twice. */
  lemma {:induction false} InjectiveByCount(m: map<string, string>)
    ensures |m.Values| <= |m|
    ensures |m.Values| == |m| <==> InjectiveMap(m)
    decreases |m|
  {
    if m != map[] {
      var k :| k in m;
      var rest := m - {k};
      assert rest.Keys == m.Keys - {k} && |rest| < |m|;
      InjectiveByCount(rest);
      assert m.Values == rest.Values + {m[k]} by {
        forall v | v in m.Values
          ensures v in rest.Values + {m[k]}
        {
          var x :| x in m && m[x] == v;
          assert x != k ==> x in rest && rest[x] == v;
        }
      }
      if m[k] in rest.Values {
        var x :| x in rest && rest[x] == m[k];
        assert m[x] == m[k] && x != k;
        assert m.Values == rest.Values;
      } else {
        assert |m.Values| == |rest.Values| + 1;
        assert forall x :: x in rest ==> rest[x] in rest.Values;
        forall x, y | InjectiveMap(rest) && x in m && y in m && m[x] == m[y]
          ensures x == y
        {
          assert x != k ==> x in rest && rest[x] == m[x];
          assert y != k ==> y in rest && rest[y] == m[y];
        }
        assert InjectiveMap(m) ==> InjectiveMap(rest) by {
          assert forall x :: x in rest ==> x in m && m[x] == rest[x];
        }
      }
    }
  }

  lemma MappedRowsStayUnique(sources: map<string, seq<Binding>>, sourceId: string, candidates: seq<Candidate>,
                             mapping: map<string, string>, rows: seq<Binding>)
    requires UniqueEntries(sources) && CompleteMapping(candidates, mapping)
    requires !ForeignEntry(sources, sourceId, mapping)
    requires forall c :: c in candidates ==> c.id in mapping
    requires Rewritten(RowsOf(sources, sourceId), candidates, mapping, rows)
    ensures UniqueEntries(sources[sourceId := rows])
  {
    var previous := RowsOf(sources, sourceId);
    forall s, x, y | s in sources && s != sourceId && x in rows && y in sources[s]
      ensures x.entryId != y.entryId
    {
      var i :| 0 <= i < |rows| && rows[i] == x;
      var w := Writer(candidates, mapping, x.entryId);
      if w.Some? {
        assert mapping[w.value.id] in mapping.Values;
      } else {
        assert previous[i] in previous;
      }
    }
  }

  /** The part of reconcile that only reads: the passes, the new IDs, and what disappeared. */
  method Match(sourceId: string, candidates: seq<Candidate>, previous: seq<Binding>, supply: seq<string>)
    returns (result: Reconciliation)
    requires DistinctCandidates(candidates) && DistinctRows(previous)
    requires Distinct(supply) && |candidates| <= |supply| && forall b :: b in previous ==> b.entryId !in supply
    ensures result.sourceId == sourceId
    ensures Describes(candidates, previous, supply, result)
  {
    var st := RunPasses(candidates, previous);
    var assignments, newIds := AssignNew(candidates, st.assignments, st.blocked, supply);
    result := Reconciliation(sourceId, assignments, newIds, Disappeared(previous, st.used), st.conflicts);
    ResultDescribes(candidates, previous, supply, st, result);
  }

  lemma SupplyAvoidsRows(sources: map<string, seq<Binding>>, sourceId: string, supply: seq<string>, n: nat)
    requires FreshSupply(sources, supply, n)
    ensures forall b :: b in RowsOf(sources, sourceId) ==> b.entryId !in supply
  {
  }

  /** An accepted result maps every candidate, to an old ID of this source or to a new one. */
  lemma OldOrNewIds(candidates: seq<Candidate>, previous: seq<Binding>, supply: seq<string>, r: Reconciliation)
    requires DistinctCandidates(candidates) && DistinctRows(previous)
    requires Describes(candidates, previous, supply, r) && r.conflicts == []
    ensures forall c :: c in candidates ==>
              c.id in r.assignments && (r.assignments[c.id] in supply || r.assignments[c.id] in EntryIds(previous))
  {
    var cs, bs := SetOf(candidates), SetOf(previous);
    NoViewsNoConflicts(r.conflicts);
    LastPassIsTheResult(cs, bs);
    NoConflictListedMeansConflictFree(STAGES, cs, bs);
    forall c | c in candidates
      ensures c.id in r.assignments && (r.assignments[c.id] in supply || r.assignments[c.id] in EntryIds(previous))
    {
      Partition(cs, bs, c);
      if b :| Keeps(cs, bs, c, b) {
        KeepsIsInjective(cs, bs, c, b, c, b);
        var i :| 0 <= i < |previous| && previous[i] == b;
        assert EntryIds(previous)[i] == b.entryId;
      } else {
        assert r.assignments[c.id] in r.newEntryIds;
      }
    }
  }

  method HasUniqueIds(candidates: seq<Candidate>) returns (unique: bool)
    ensures unique <==> DistinctCandidates(candidates)
  {
    var seen: set<string> := {};
    unique := true;
    for i := 0 to |candidates|
      invariant seen == set j | 0 <= j < i :: candidates[j].id
      invariant unique <==> DistinctCandidates(candidates[..i])
    {
      assert candidates[..i + 1][..i] == candidates[..i];
      unique := unique && candidates[i].id !in seen;
      seen := seen + {candidates[i].id};
      assert candidates[i] == candidates[..i + 1][i];
    }
    assert candidates[..|candidates|] == candidates;
  }

  /** The result assembles what the passes settled and the new IDs. */
  ghost predicate Assembled(candidates: seq<Candidate>, previous: seq<Binding>, supply: seq<string>, st: Progress,
                            r: Reconciliation) {
    var open := Unresolved(candidates, st.assignments.Keys, st.blocked);
    && Assigning(open, st.assignments, supply, r.assignments, r.newEntryIds)
    && r.disappeared == Disappeared(previous, st.used) && r.conflicts == st.conflicts
  }

  lemma ResultDescribes(candidates: seq<Candidate>, previous: seq<Binding>, supply: seq<string>, st: Progress,
                        r: Reconciliation)
    requires DistinctCandidates(candidates) && DistinctRows(previous) && Distinct(supply)
    requires forall b :: b in previous ==> b.entryId !in supply
    requires ProgressAt(STAGES, SetOf(candidates), SetOf(previous), st)
    requires Assembled(candidates, previous, supply, st, r)
    ensures Describes(candidates, previous, supply, r)
  {
    var cs, bs := SetOf(candidates), SetOf(previous);
    SeqHasDistinctIds(candidates);
    SeqHasDistinctEntries(previous);
    LastPassIsTheResult(cs, bs);
    PendingShrinks(0, STAGES, cs, bs);
    KeptIds(cs, bs, st);
    OpenIsNew(candidates, previous, st);
    var open := Unresolved(candidates, st.assignments.Keys, st.blocked);
    WhoHasWhat(cs, bs, open, st.assignments, supply, r.assignments, r.newEntryIds);
    AssignmentsAreInjective(cs, bs, open, st.assignments, supply, r.assignments, r.newEntryIds);
    DisappearedAreUnkept(candidates, previous, st);
    forall c | c in cs
      ensures c.id in r.assignments <==> !InConflict(cs, bs, c)
    {
      Partition(cs, bs, c);
    }
  }

  /** The rows that disappear are the active ones nobody keeps. */
  lemma DisappearedAreUnkept(candidates: seq<Candidate>, previous: seq<Binding>, st: Progress)
    requires DistinctCandidates(candidates) && DistinctRows(previous)
    requires ProgressAt(STAGES, SetOf(candidates), SetOf(previous), st)
    ensures forall e :: e in Disappeared(previous, st.used) <==>
              exists b :: b in SetOf(previous) && b.entryId == e && b.active
                          && forall c :: !Keeps(SetOf(candidates), SetOf(previous), c, b)
  {
    SeqHasDistinctIds(candidates);
    SeqHasDistinctEntries(previous);
    forall b | b in SetOf(previous)
      ensures b.entryId in st.used <==> exists c :: Keeps(SetOf(candidates), SetOf(previous), c, b)
    {
      UsedMeansKept(SetOf(candidates), SetOf(previous), st, b);
    }
  }

  /** An ID settled by the passes is that of a candidate which keeps a binding. */
  lemma KeptIds(cs: set<Candidate>, bs: set<Binding>, st: Progress)
    requires DistinctIds(cs) && ProgressAt(STAGES, cs, bs, st)
    ensures SettledIds(cs, bs, st.assignments)
  {
    LastPassIsTheResult(cs, bs);
    forall id | id in st.assignments
      ensures exists c, b :: Keeps(cs, bs, c, b) && c in cs && b in bs && c.id == id && st.assignments[id] == b.entryId
    {
      var c, b :| KeptBefore(STAGES, cs, bs, c, b) && c.id == id;
      KeepsIsInjective(cs, bs, c, b, c, b);
      assert Keeps(cs, bs, c, b);
    }
  }

  /** The IDs the passes settled, seen from the candidates. */
  ghost predicate SettledIds(cs: set<Candidate>, bs: set<Binding>, assignments: map<string, string>) {
    && (forall id :: id in assignments ==>
          exists c, b :: Keeps(cs, bs, c, b) && c in cs && b in bs && c.id == id && assignments[id] == b.entryId)
    && (forall c, b :: Keeps(cs, bs, c, b) ==> c.id in assignments && assignments[c.id] == b.entryId)
  }

  lemma OpenIsNew(candidates: seq<Candidate>, previous: seq<Binding>, st: Progress)
    requires ProgressAt(STAGES, SetOf(candidates), SetOf(previous), st)
    ensures forall c :: c in Unresolved(candidates, st.assignments.Keys, st.blocked)
                        <==> IsNew(SetOf(candidates), SetOf(previous), c)
  {
    PendingShrinks(0, STAGES, SetOf(candidates), SetOf(previous));
  }

  lemma WhoHasWhat(cs: set<Candidate>, bs: set<Binding>, open: seq<Candidate>, settled': map<string, string>,
                   supply: seq<string>,
                   all: map<string, string>, newIds: seq<string>)
    requires DistinctIds(cs) && SettledIds(cs, bs, settled') && Assigning(open, settled', supply, all, newIds)
    requires forall c :: c in open <==> IsNew(cs, bs, c)
    requires forall c :: c in open ==> c in cs
    ensures forall id :: id in all ==> exists c :: c in cs && c.id == id
    ensures forall c :: IsNew(cs, bs, c) ==> c.id in all && all[c.id] in newIds
    ensures forall e :: e in newIds ==> exists c :: IsNew(cs, bs, c) && c.id in all && all[c.id] == e
    ensures forall c :: c in cs ==> (c.id in all <==> IsNew(cs, bs, c) || exists b :: Keeps(cs, bs, c, b))
  {
    forall c | c in open
      ensures c.id in all && all[c.id] in newIds
    {
      var i :| 0 <= i < |open| && open[i] == c;
      assert newIds[i] == supply[i];
    }
    forall e | e in newIds
      ensures exists c :: IsNew(cs, bs, c) && c.id in all && all[c.id] == e
    {
      var i :| 0 <= i < |open| && newIds[i] == e;
      assert open[i] in open;
    }
  }

  lemma UsedMeansKept(cs: set<Candidate>, bs: set<Binding>, st: Progress, b: Binding)
    requires DistinctIds(cs) && DistinctEntries(bs) && ProgressAt(STAGES, cs, bs, st) && b in bs
    ensures b.entryId in st.used <==> exists c :: Keeps(cs, bs, c, b)
  {
    LastPassIsTheResult(cs, bs);
    if b.entryId in st.used {
      var id :| id in st.assignments && st.assignments[id] == b.entryId;
      var c, w :| KeptBefore(STAGES, cs, bs, c, w) && c.id == id;
      KeepsIsInjective(cs, bs, c, w, c, w);
      assert w == b;
    }
    if c :| Keeps(cs, bs, c, b) {
      assert KeptBefore(STAGES, cs, bs, c, b);
      assert st.assignments[c.id] in st.assignments.Values;
    }
  }

  lemma OwnerOf(open: seq<Candidate>, before: map<string, string>, supply: seq<string>, all: map<string, string>,
                newIds: seq<string>, x: string)
    returns (i: nat)
    requires Assigning(open, before, supply, all, newIds) && x in all && x !in before
    ensures i < |open| && open[i].id == x && all[x] == supply[i]
  {
    var c :| c in open && c.id == x;
    i :| 0 <= i < |open| && open[i] == c;
    assert all[open[i].id] == supply[i];
  }

  lemma AssignmentsAreInjective(cs: set<Candidate>, bs: set<Binding>, open: seq<Candidate>,
                                settled': map<string, string>, supply: seq<string>,
                                all: map<string, string>, newIds: seq<string>)
    requires DistinctEntries(bs) && SettledIds(cs, bs, settled') && Assigning(open, settled', supply, all, newIds)
    requires Distinct(supply) && forall b :: b in bs ==> b.entryId !in supply
    ensures forall x, y :: x in all && y in all && all[x] == all[y] ==> x == y
  {
    forall x, y | x in all && y in all && all[x] == all[y]
      ensures x == y
    {
      if x in settled' && y in settled' {
        var c, b :| Keeps(cs, bs, c, b) && c in cs && b in bs && c.id == x && settled'[x] == b.entryId;
        var d, w :| Keeps(cs, bs, d, w) && d in cs && w in bs && d.id == y && settled'[y] == w.entryId;
        KeepsIsInjective(cs, bs, c, b, d, w);
      } else if x !in settled' && y !in settled' {
        var i := OwnerOf(open, settled', supply, all, newIds, x);
        var j := OwnerOf(open, settled', supply, all, newIds, y);
      } else {
        var z := if x in settled' then y else x;
        var i := OwnerOf(open, settled', supply, all, newIds, z);
      }
    }
  }

  lemma RowsStayUnique(sources: map<string, seq<Binding>>, sourceId: string, candidates: seq<Candidate>,
                       ids: map<string, string>, rows: seq<Binding>, supply: seq<string>)
    requires UniqueEntries(sources)
    requires forall c :: c in candidates ==> c.id in ids
    requires Rewritten(RowsOf(sources, sourceId), candidates, ids, rows)
    requires forall c :: c in candidates ==> ids[c.id] in supply || ids[c.id] in EntryIds(RowsOf(sources, sourceId))
    requires forall s, b :: s in sources && s != sourceId && b in sources[s] ==> b.entryId !in supply
    ensures UniqueEntries(sources[sourceId := rows])
  {
    var previous := RowsOf(sources, sourceId);
    forall s, x, y | s in sources && s != sourceId && x in rows && y in sources[s]
      ensures x.entryId != y.entryId
    {
      var i :| 0 <= i < |rows| && rows[i] == x;
      if x.entryId in EntryIds(previous) {
        var j :| 0 <= j < |previous| && EntryIds(previous)[j] == x.entryId;
        assert previous[j] in previous;
      } else {
      }
    }
  }
}
