/**
  Reconciling the same candidates a second time, right after a conflict-free reconciliation was
  applied, gives every candidate the same entry ID again - exactly when the candidates that carry
  no stable identity of their own can be told apart by what the registry stores about them.
 */
module IdentityStability {
  import opened Wrappers
  import opened IdentitySpec

  ghost predicate NoExternal(c: Candidate) {
    Truthy(c.external).None?
  }

  /** Nothing usable in the name: it is empty, or another candidate without a stable identity has it too. */
  ghost predicate WeaklyNamed(cs: set<Candidate>, c: Candidate) {
    c.name == "" || exists d :: d in cs && d != c && NoExternal(d) && d.name == c.name
  }

  /** Weakly named candidates without a stable identity have fingerprints, pairwise different ones. */
  ghost predicate Distinguishable(cs: set<Candidate>) {
    forall c :: c in cs && NoExternal(c) && WeaklyNamed(cs, c) ==>
      && Truthy(c.fingerprint).Some?
      && forall d :: d in cs && NoExternal(d) && WeaklyNamed(cs, d) && d.fingerprint == c.fingerprint ==> d == c
  }

  function RowFor(c: Candidate, entryId: string): Binding {
    Binding(entryId, c.external, Some(c.name), c.fingerprint, true)
  }

  /** The registry rows after an accepted reconciliation: one active row a candidate, the other old rows inactive. */
  ghost function Written(cs: set<Candidate>, bs: set<Binding>, ids: map<string, string>): set<Binding>
    requires forall c :: c in cs ==> c.id in ids
  {
    (set c | c in cs :: RowFor(c, ids[c.id])) + (set b | b in bs && b.entryId !in ids.Values :: b.(active := false))
  }

  /** ids is what an accepted reconciliation hands out: kept IDs are kept, new ones are new. */
  ghost predicate Accepted(cs: set<Candidate>, bs: set<Binding>, ids: map<string, string>) {
    && ConflictFree(cs, bs)
    && ids.Keys == (set c | c in cs :: c.id)
    && (forall c, d :: c in cs && d in cs && ids[c.id] == ids[d.id] ==> c.id == d.id)
    && (forall c, b :: Keeps(cs, bs, c, b) ==> c.id in ids && ids[c.id] == b.entryId)
    && (forall c, b :: c in cs && b in bs && IsNew(cs, bs, c) ==> ids[c.id] != b.entryId)
  }

  /** An old row nobody kept. */
  ghost predicate Dropped(bs: set<Binding>, ids: map<string, string>, b: Binding) {
    b in bs && b.entryId !in ids.Values
  }

  // ---- The first run ---------------------------------------------------------------------------

  lemma DroppedIsNeverClaimed(cs: set<Candidate>, bs: set<Binding>, ids: map<string, string>, b: Binding, n: nat)
    requires Accepted(cs, bs, ids) && Dropped(bs, ids, b) && n <= STAGES
    ensures b in Before(n, cs, bs).free
    ensures forall c :: n < STAGES ==> !Pairs(StageAt(n), Before(n, cs, bs), c, b)
  {
    if n > 0 {
      DroppedIsNeverClaimed(cs, bs, ids, b, n - 1);
    }
    if n < STAGES {
      forall c | Pairs(StageAt(n), Before(n, cs, bs), c, b)
        ensures false
      {
        assert Keeps(cs, bs, c, b);
      }
    }
  }

  lemma NeverRefused(cs: set<Candidate>, bs: set<Binding>, c: Candidate, n: nat)
    requires ConflictFree(cs, bs) && n < STAGES
    requires c in Before(n, cs, bs).open
    ensures !Refuses(StageAt(n), Before(n, cs, bs), c)
  {
    PendingShrinks(0, n, cs, bs);
    assert c in Refused(StageAt(n), Before(n, cs, bs)) ==> InConflict(cs, bs, c);
  }

  /** No dropped row carries the stable identity of a candidate. */
  lemma DroppedSharesNoExternal(cs: set<Candidate>, bs: set<Binding>, ids: map<string, string>, c: Candidate,
                                b: Binding)
    requires Accepted(cs, bs, ids) && c in cs && Dropped(bs, ids, b)
    ensures !Rival(ByExternal, Before(0, cs, bs), c, b)
  {
    DroppedIsNeverClaimed(cs, bs, ids, b, 0);
    NeverRefused(cs, bs, c, 0);
  }

  lemma NoExternalPassesFirst(cs: set<Candidate>, bs: set<Binding>, c: Candidate)
    requires c in cs && NoExternal(c)
    ensures c in Before(1, cs, bs).open
  {
    assert Before(1, cs, bs) == Settle(ByExternal, Before(0, cs, bs));
  }

  /** Sharing a name with a dropped row, the candidate was told apart by its fingerprint. */
  lemma DroppedNameMeansFingerprint(cs: set<Candidate>, bs: set<Binding>, ids: map<string, string>, c: Candidate,
                                    b: Binding)
    requires Accepted(cs, bs, ids) && c in cs && NoExternal(c) && Dropped(bs, ids, b)
    requires Truthy(b.name) == Some(Plain(c.name))
    ensures c in PairedCandidates(ByFingerprint, Before(2, cs, bs))
  {
    NoExternalPassesFirst(cs, bs, c);
    DroppedIsNeverClaimed(cs, bs, ids, b, 1);
    assert Before(2, cs, bs) == Settle(ByName, Before(1, cs, bs));
    assert Rival(ByName, Before(1, cs, bs), c, b);
    assert !Paired(ByName, Before(1, cs, bs), c);
    assert c in Before(2, cs, bs).open;
    NeverRefused(cs, bs, c, 2);
    if c !in PairedCandidates(ByFingerprint, Before(2, cs, bs)) {
      assert Before(3, cs, bs) == Settle(ByFingerprint, Before(2, cs, bs));
      assert c in Before(3, cs, bs).open;
      DroppedIsNeverClaimed(cs, bs, ids, b, 3);
      NeverRefused(cs, bs, c, 3);
      assert Rival(LeftoverName, Before(3, cs, bs), c, b);
    }
  }

  lemma WeaklyNamedReachesFingerprints(cs: set<Candidate>, bs: set<Binding>, c: Candidate)
    requires c in cs && NoExternal(c) && WeaklyNamed(cs, c)
    ensures c in Before(2, cs, bs).open
  {
    NoExternalPassesFirst(cs, bs, c);
    assert Before(2, cs, bs) == Settle(ByName, Before(1, cs, bs));
    if c.name != "" {
      var d :| d in cs && d != c && NoExternal(d) && d.name == c.name;
      NoExternalPassesFirst(cs, bs, d);
      assert !Alone(ByName, Before(1, cs, bs), c);
    }
  }

  /** No dropped row shares a fingerprint with a candidate that reached the fingerprint pass. */
  lemma DroppedSharesNoFingerprint(cs: set<Candidate>, bs: set<Binding>, ids: map<string, string>, c: Candidate,
                                   b: Binding)
    requires Accepted(cs, bs, ids) && c in Before(2, cs, bs).open && Dropped(bs, ids, b)
    ensures !Rival(ByFingerprint, Before(2, cs, bs), c, b)
  {
    DroppedIsNeverClaimed(cs, bs, ids, b, 2);
    NeverRefused(cs, bs, c, 2);
    if Rival(ByFingerprint, Before(2, cs, bs), c, b) {
      assert HasRival(ByFingerprint, Before(2, cs, bs), c);
      assert Pairs(ByFingerprint, Before(2, cs, bs), c, b);
    }
  }

  // ---- The second run --------------------------------------------------------------------------

  /** Everything the lemmas below share. */
  ghost predicate Setting(cs: set<Candidate>, bs: set<Binding>, ids: map<string, string>) {
    DistinctIds(cs) && DistinctEntries(bs) && Accepted(cs, bs, ids)
  }

  ghost predicate DroppedNamed(bs: set<Binding>, ids: map<string, string>, c: Candidate) {
    exists b :: Dropped(bs, ids, b) && Truthy(b.name) == Some(Plain(c.name))
  }

  /** The name alone leads back to the candidate's row. */
  ghost predicate NameSettles(cs: set<Candidate>, bs: set<Binding>, ids: map<string, string>, c: Candidate) {
    !WeaklyNamed(cs, c) && !DroppedNamed(bs, ids, c)
  }

  lemma RowsOfWritten(cs: set<Candidate>, bs: set<Binding>, ids: map<string, string>)
    requires Setting(cs, bs, ids)
    ensures forall c :: c in cs ==> c.id in ids && RowFor(c, ids[c.id]) in Written(cs, bs, ids)
    ensures forall c, d :: c in cs && d in cs && RowFor(c, ids[c.id]) == RowFor(d, ids[d.id]) ==> c == d
    ensures forall b :: Dropped(bs, ids, b) ==> b.(active := false) in Written(cs, bs, ids)
    ensures forall r :: r in Written(cs, bs, ids) ==>
              || (exists c :: c in cs && r == RowFor(c, ids[c.id]))
              || (exists b :: Dropped(bs, ids, b) && r == b.(active := false))
    ensures forall c, b :: c in cs && Dropped(bs, ids, b) ==> RowFor(c, ids[c.id]) != b.(active := false)
    ensures DistinctEntries(Written(cs, bs, ids))
  {
    forall c | c in cs
      ensures c.id in ids && ids[c.id] in ids.Values
    {
    }
    WrittenIsDistinct(cs, bs, ids);
  }

  lemma WrittenIsDistinct(cs: set<Candidate>, bs: set<Binding>, ids: map<string, string>)
    requires Setting(cs, bs, ids)
    ensures forall c :: c in cs ==> c.id in ids
    ensures DistinctEntries(Written(cs, bs, ids))
  {
    forall x, y | x in Written(cs, bs, ids) && y in Written(cs, bs, ids) && x.entryId == y.entryId
      ensures x == y
    {
      if x.active {
        var c :| c in cs && x == RowFor(c, ids[c.id]);
        assert ids[c.id] in ids.Values;
      }
    }
  }

  /**
    After the first pass of the second run: open are the candidates without a stable identity, free
    their rows and the dropped ones.
   */
  lemma AfterExternal(cs: set<Candidate>, bs: set<Binding>, ids: map<string, string>)
    requires Setting(cs, bs, ids)
    ensures forall c :: c in cs ==> c.id in ids
    ensures forall c :: c in Before(1, cs, Written(cs, bs, ids)).open <==> c in cs && NoExternal(c)
    ensures forall c :: c in cs && NoExternal(c) ==> RowFor(c, ids[c.id]) in Before(1, cs, Written(cs, bs, ids)).free
    ensures forall b :: Dropped(bs, ids, b) ==> b.(active := false) in Before(1, cs, Written(cs, bs, ids)).free
    ensures forall c :: c in cs && !NoExternal(c) ==>
              Pairs(ByExternal, Before(0, cs, Written(cs, bs, ids)), c, RowFor(c, ids[c.id]))
  {
    RowsOfWritten(cs, bs, ids);
    var w := Written(cs, bs, ids);
    assert Before(1, cs, w) == Settle(ByExternal, Before(0, cs, w));
    forall c, r | c in cs && Rival(ByExternal, Before(0, cs, w), c, r)
      ensures r == RowFor(c, ids[c.id])
    {
      ExternalRivalIsOwn(cs, bs, ids, c, r);
    }
    forall c | c in cs && !NoExternal(c)
      ensures Pairs(ByExternal, Before(0, cs, w), c, RowFor(c, ids[c.id]))
    {
      PairedByExternal(cs, bs, ids, c);
    }
  }

  lemma ExternalRivalIsOwn(cs: set<Candidate>, bs: set<Binding>, ids: map<string, string>, c: Candidate, r: Binding)
    requires Setting(cs, bs, ids) && c in cs && Rival(ByExternal, Before(0, cs, Written(cs, bs, ids)), c, r)
    ensures c.id in ids && r == RowFor(c, ids[c.id])
  {
    RowsOfWritten(cs, bs, ids);
    if b :| Dropped(bs, ids, b) && r == b.(active := false) {
      DroppedSharesNoExternal(cs, bs, ids, c, b);
    } else {
      var d :| d in cs && r == RowFor(d, ids[d.id]);
      SameExternalSameCandidate(cs, bs, c, d);
    }
  }

  lemma PairedByExternal(cs: set<Candidate>, bs: set<Binding>, ids: map<string, string>, c: Candidate)
    requires Setting(cs, bs, ids) && c in cs && !NoExternal(c)
    ensures c.id in ids && Pairs(ByExternal, Before(0, cs, Written(cs, bs, ids)), c, RowFor(c, ids[c.id]))
  {
    var p := Before(0, cs, Written(cs, bs, ids));
    RowsOfWritten(cs, bs, ids);
    assert Rival(ByExternal, p, c, RowFor(c, ids[c.id]));
    forall r | Rival(ByExternal, p, c, r)
      ensures r == RowFor(c, ids[c.id])
    {
      ExternalRivalIsOwn(cs, bs, ids, c, r);
    }
    forall d | d in cs && CandidateKey(ByExternal, d) == CandidateKey(ByExternal, c)
      ensures d == c
    {
      SameExternalSameCandidate(cs, bs, c, d);
    }
  }

  lemma SameExternalSameCandidate(cs: set<Candidate>, bs: set<Binding>, c: Candidate, d: Candidate)
    requires ConflictFree(cs, bs) && c in cs && d in cs
    requires Truthy(c.external).Some? && Truthy(d.external) == Truthy(c.external)
    ensures c == d
  {
    NeverRefused(cs, bs, c, 0);
  }

  /** After the second pass: open are those whose name does not settle them. */
  lemma AfterName(cs: set<Candidate>, bs: set<Binding>, ids: map<string, string>)
    requires Setting(cs, bs, ids)
    ensures forall c :: c in cs ==> c.id in ids
    ensures forall c :: c in Before(2, cs, Written(cs, bs, ids)).open
                        <==> c in cs && NoExternal(c) && !NameSettles(cs, bs, ids, c)
    ensures forall c :: c in Before(2, cs, Written(cs, bs, ids)).open ==>
              RowFor(c, ids[c.id]) in Before(2, cs, Written(cs, bs, ids)).free
    ensures forall c :: c in cs && NoExternal(c) && NameSettles(cs, bs, ids, c) ==>
              Pairs(ByName, Before(1, cs, Written(cs, bs, ids)), c, RowFor(c, ids[c.id]))
  {
    RowsOfWritten(cs, bs, ids);
    AfterExternal(cs, bs, ids);
    var p := Before(1, cs, Written(cs, bs, ids));
    PendingShrinks(0, 1, cs, Written(cs, bs, ids));
    forall c | c in cs && NoExternal(c) && NameSettles(cs, bs, ids, c)
      ensures Pairs(ByName, p, c, RowFor(c, ids[c.id]))
    {
      SettledByName(cs, bs, ids, c);
    }
    forall c, r | Pairs(ByName, p, c, r)
      ensures r == RowFor(c, ids[c.id]) && NameSettles(cs, bs, ids, c)
    {
      PairedByName(cs, bs, ids, c, r);
    }
    forall c, d | c in cs && d in cs && RowFor(c, ids[c.id]) == RowFor(d, ids[d.id])
      ensures c.name == d.name && c.external == d.external && c.fingerprint == d.fingerprint
    {
    }
    SettledByPairs(p);
  }

  /** The name pass refuses nobody: it takes out just what it pairs. */
  lemma SettledByPairs(p: Pending)
    ensures forall c :: c in Settle(ByName, p).open <==> c in p.open && !Paired(ByName, p, c)
    ensures forall b :: b in Settle(ByName, p).free <==> b in p.free && !Claimed(ByName, p, b)
  {
  }

  lemma SettledByName(cs: set<Candidate>, bs: set<Binding>, ids: map<string, string>, c: Candidate)
    requires Setting(cs, bs, ids) && c in cs && NoExternal(c) && NameSettles(cs, bs, ids, c)
    ensures c.id in ids && Pairs(ByName, Before(1, cs, Written(cs, bs, ids)), c, RowFor(c, ids[c.id]))
  {
    RowsOfWritten(cs, bs, ids);
    AfterExternal(cs, bs, ids);
    var w := Written(cs, bs, ids);
    var p := Before(1, cs, w);
    PendingShrinks(0, 1, cs, w);
    assert Rival(ByName, p, c, RowFor(c, ids[c.id]));
    forall r | Rival(ByName, p, c, r)
      ensures r == RowFor(c, ids[c.id])
    {
      NameRivalIsOwn(cs, bs, ids, c, r);
    }
  }

  lemma NameRivalIsOwn(cs: set<Candidate>, bs: set<Binding>, ids: map<string, string>, c: Candidate, r: Binding)
    requires Setting(cs, bs, ids) && c in cs && NoExternal(c) && NameSettles(cs, bs, ids, c)
    requires Rival(ByName, Before(1, cs, Written(cs, bs, ids)), c, r)
    ensures c.id in ids && r == RowFor(c, ids[c.id])
  {
    var w := Written(cs, bs, ids);
    RowsOfWritten(cs, bs, ids);
    AfterExternal(cs, bs, ids);
    PendingShrinks(0, 1, cs, w);
    if b :| Dropped(bs, ids, b) && r == b.(active := false) {
    } else {
      var d :| d in cs && r == RowFor(d, ids[d.id]);
      SettledIsGone(0, 1, cs, w);
    }
  }

  lemma PairedByName(cs: set<Candidate>, bs: set<Binding>, ids: map<string, string>, c: Candidate, r: Binding)
    requires Setting(cs, bs, ids) && Pairs(ByName, Before(1, cs, Written(cs, bs, ids)), c, r)
    ensures c.id in ids && r == RowFor(c, ids[c.id]) && NameSettles(cs, bs, ids, c)
  {
    RowsOfWritten(cs, bs, ids);
    AfterExternal(cs, bs, ids);
    var p := Before(1, cs, Written(cs, bs, ids));
    assert c.name != "";
    assert Rival(ByName, p, c, RowFor(c, ids[c.id]));
    assert r == RowFor(c, ids[c.id]);
    assert forall d :: d in cs && NoExternal(d) ==> d in p.open;
    if b :| Dropped(bs, ids, b) && Truthy(b.name) == Some(Plain(c.name)) {
      assert Rival(ByName, p, c, b.(active := false));
    }
  }

  /** Who reaches the fingerprint pass of the second run reached it in the first run too. */
  lemma StillOpenWasOpen(cs: set<Candidate>, bs: set<Binding>, ids: map<string, string>, c: Candidate)
    requires Setting(cs, bs, ids)
    requires c in Before(2, cs, Written(cs, bs, ids)).open
    ensures c in cs && c in Before(2, cs, bs).open
    ensures !WeaklyNamed(cs, c) ==> c in PairedCandidates(ByFingerprint, Before(2, cs, bs))
  {
    AfterName(cs, bs, ids);
    if WeaklyNamed(cs, c) {
      WeaklyNamedReachesFingerprints(cs, bs, c);
    } else {
      var b :| Dropped(bs, ids, b) && Truthy(b.name) == Some(Plain(c.name));
      DroppedNameMeansFingerprint(cs, bs, ids, c, b);
    }
  }

  lemma FingerprintSettles(cs: set<Candidate>, bs: set<Binding>, ids: map<string, string>, c: Candidate)
    requires Setting(cs, bs, ids) && Distinguishable(cs)
    requires c in Before(2, cs, Written(cs, bs, ids)).open
    ensures c.id in ids && Pairs(ByFingerprint, Before(2, cs, Written(cs, bs, ids)), c, RowFor(c, ids[c.id]))
  {
    var p := Before(2, cs, Written(cs, bs, ids));
    OwnRowIsRival(cs, bs, ids, c);
    FingerprintAlone(cs, bs, ids, c);
    forall r | Rival(ByFingerprint, p, c, r)
      ensures r == RowFor(c, ids[c.id])
    {
      FingerprintRivalIsOwn(cs, bs, ids, c, r);
    }
  }

  lemma OwnRowIsRival(cs: set<Candidate>, bs: set<Binding>, ids: map<string, string>, c: Candidate)
    requires Setting(cs, bs, ids) && Distinguishable(cs)
    requires c in Before(2, cs, Written(cs, bs, ids)).open
    ensures c.id in ids && Rival(ByFingerprint, Before(2, cs, Written(cs, bs, ids)), c, RowFor(c, ids[c.id]))
  {
    StillOpenHasFingerprint(cs, bs, ids, c);
    AfterName(cs, bs, ids);
  }

  lemma FingerprintAlone(cs: set<Candidate>, bs: set<Binding>, ids: map<string, string>, c: Candidate)
    requires Setting(cs, bs, ids) && Distinguishable(cs)
    requires c in Before(2, cs, Written(cs, bs, ids)).open
    ensures c in cs && Truthy(c.fingerprint).Some? && Alone(ByFingerprint, Before(2, cs, Written(cs, bs, ids)), c)
  {
    var p := Before(2, cs, Written(cs, bs, ids));
    StillOpenWasOpen(cs, bs, ids, c);
    StillOpenHasFingerprint(cs, bs, ids, c);
    forall d | d in p.open && d.fingerprint == c.fingerprint
      ensures d == c
    {
      SharedFingerprintIsShared(cs, bs, ids, c, d);
    }
    AloneByFingerprint(p, c);
  }

  lemma AloneByFingerprint(p: Pending, c: Candidate)
    requires Truthy(c.fingerprint).Some? && forall d :: d in p.open && d.fingerprint == c.fingerprint ==> d == c
    ensures Alone(ByFingerprint, p, c)
  {
  }

  lemma StillOpenHasFingerprint(cs: set<Candidate>, bs: set<Binding>, ids: map<string, string>, c: Candidate)
    requires Setting(cs, bs, ids) && Distinguishable(cs)
    requires c in Before(2, cs, Written(cs, bs, ids)).open
    ensures Truthy(c.fingerprint).Some?
  {
    AfterName(cs, bs, ids);
    StillOpenWasOpen(cs, bs, ids, c);
  }

  lemma FingerprintRivalIsOwn(cs: set<Candidate>, bs: set<Binding>, ids: map<string, string>, c: Candidate, r: Binding)
    requires Setting(cs, bs, ids) && Distinguishable(cs)
    requires c in Before(2, cs, Written(cs, bs, ids)).open
    requires Rival(ByFingerprint, Before(2, cs, Written(cs, bs, ids)), c, r)
    ensures c.id in ids && r == RowFor(c, ids[c.id])
  {
    RowsOfWritten(cs, bs, ids);
    FingerprintAlone(cs, bs, ids, c);
    PendingShrinks(0, 2, cs, Written(cs, bs, ids));
    if b :| Dropped(bs, ids, b) && r == b.(active := false) {
      FingerprintRivalIsNotDropped(cs, bs, ids, c, b);
    } else {
      var d :| d in cs && r == RowFor(d, ids[d.id]);
      FreeRowIsOpen(cs, bs, ids, d);
      assert CandidateKey(ByFingerprint, d) == CandidateKey(ByFingerprint, c);
    }
  }

  lemma FingerprintRivalIsNotDropped(cs: set<Candidate>, bs: set<Binding>, ids: map<string, string>, c: Candidate,
                                     b: Binding)
    requires Setting(cs, bs, ids) && c in Before(2, cs, Written(cs, bs, ids)).open && Dropped(bs, ids, b)
    ensures CandidateKey(ByFingerprint, c).Some? ==> BindingKey(ByFingerprint, b) != CandidateKey(ByFingerprint, c)
  {
    StillOpenWasOpen(cs, bs, ids, c);
    DroppedIsNeverClaimed(cs, bs, ids, b, 2);
    if CandidateKey(ByFingerprint, c).Some? && BindingKey(ByFingerprint, b) == CandidateKey(ByFingerprint, c) {
      assert Rival(ByFingerprint, Before(2, cs, bs), c, b);
      DroppedSharesNoFingerprint(cs, bs, ids, c, b);
    }
  }

  lemma SharedFingerprintIsShared(cs: set<Candidate>, bs: set<Binding>, ids: map<string, string>, c: Candidate,
                                  d: Candidate)
    requires Setting(cs, bs, ids) && Distinguishable(cs)
    requires c in Before(2, cs, Written(cs, bs, ids)).open && d in Before(2, cs, Written(cs, bs, ids)).open
    requires Truthy(c.fingerprint).Some? && Truthy(d.fingerprint) == Truthy(c.fingerprint)
    ensures c == d
  {
    AfterName(cs, bs, ids);
    StillOpenWasOpen(cs, bs, ids, c);
    StillOpenWasOpen(cs, bs, ids, d);
    if WeaklyNamed(cs, c) && WeaklyNamed(cs, d) {
      assert d.fingerprint == c.fingerprint;
    } else if !WeaklyNamed(cs, c) {
      assert Alone(ByFingerprint, Before(2, cs, bs), c);
    } else {
      assert Alone(ByFingerprint, Before(2, cs, bs), d);
    }
  }

  lemma FreeRowIsOpen(cs: set<Candidate>, bs: set<Binding>, ids: map<string, string>, d: Candidate)
    requires Setting(cs, bs, ids) && d in cs && d.id in ids
    requires RowFor(d, ids[d.id]) in Before(2, cs, Written(cs, bs, ids)).free
    ensures d in Before(2, cs, Written(cs, bs, ids)).open
  {
    var w := Written(cs, bs, ids);
    AfterExternal(cs, bs, ids);
    AfterName(cs, bs, ids);
    SettledIsGone(0, 2, cs, w);
    SettledIsGone(1, 2, cs, w);
    PendingShrinks(0, 1, cs, w);
  }

  /** Every candidate gets the entry ID it already had. */
  ghost predicate KeepsEveryId(cs: set<Candidate>, bs: set<Binding>, ids: map<string, string>)
    requires forall c :: c in cs ==> c.id in ids
  {
    forall c :: c in cs ==> Keeps(cs, Written(cs, bs, ids), c, RowFor(c, ids[c.id]))
  }

  /** The stability law: the second run repeats the first exactly when the candidates are distinguishable. */
  lemma RepeatIsStableIffDistinguishable(cs: set<Candidate>, bs: set<Binding>, ids: map<string, string>)
    requires Setting(cs, bs, ids)
    ensures forall c :: c in cs ==> c.id in ids
    ensures KeepsEveryId(cs, bs, ids) <==> Distinguishable(cs)
  {
    RowsOfWritten(cs, bs, ids);
    if Distinguishable(cs) {
      forall c | c in cs
        ensures Keeps(cs, Written(cs, bs, ids), c, RowFor(c, ids[c.id]))
      {
        EachKeepsItsId(cs, bs, ids, c);
      }
    }
    if KeepsEveryId(cs, bs, ids) {
      forall c | c in cs && NoExternal(c) && WeaklyNamed(cs, c)
        ensures Truthy(c.fingerprint).Some?
        ensures forall d :: d in cs && NoExternal(d) && WeaklyNamed(cs, d) && d.fingerprint == c.fingerprint ==> d == c
      {
        KeptWeakNameHasOwnFingerprint(cs, bs, ids, c);
      }
    }
  }

  lemma EachKeepsItsId(cs: set<Candidate>, bs: set<Binding>, ids: map<string, string>, c: Candidate)
    requires Setting(cs, bs, ids) && Distinguishable(cs) && c in cs
    ensures c.id in ids && Keeps(cs, Written(cs, bs, ids), c, RowFor(c, ids[c.id]))
  {
    var w := Written(cs, bs, ids);
    AfterExternal(cs, bs, ids);
    AfterName(cs, bs, ids);
    if !NoExternal(c) {
      assert Pairs(StageAt(0), Before(0, cs, w), c, RowFor(c, ids[c.id]));
    } else if NameSettles(cs, bs, ids, c) {
      assert Pairs(StageAt(1), Before(1, cs, w), c, RowFor(c, ids[c.id]));
    } else {
      FingerprintSettles(cs, bs, ids, c);
      assert Pairs(StageAt(2), Before(2, cs, w), c, RowFor(c, ids[c.id]));
    }
  }

  lemma PairingStages(n: nat, p: Pending, c: Candidate, b: Binding)
    requires n < STAGES && NoExternal(c) && Pairs(StageAt(n), p, c, b)
    ensures n == 1 || n == 2
  {
  }

  lemma KeptWeakNameIsByFingerprint(cs: set<Candidate>, bs: set<Binding>, ids: map<string, string>, c: Candidate)
    requires Setting(cs, bs, ids) && c in cs && c.id in ids && NoExternal(c) && WeaklyNamed(cs, c)
    requires Keeps(cs, Written(cs, bs, ids), c, RowFor(c, ids[c.id]))
    ensures Pairs(ByFingerprint, Before(2, cs, Written(cs, bs, ids)), c, RowFor(c, ids[c.id]))
  {
    var w := Written(cs, bs, ids);
    var r := RowFor(c, ids[c.id]);
    var n := PassThatKeeps(cs, w, c, r);
    PairingStages(n, Before(n, cs, w), c, r);
    if n == 1 {
      PairedByName(cs, bs, ids, c, r);
      assert false;
    }
  }

  lemma FingerprintIsOwn(p: Pending, c: Candidate, b: Binding)
    requires Pairs(ByFingerprint, p, c, b)
    ensures Truthy(c.fingerprint).Some?
    ensures forall d :: d in p.open && d.fingerprint == c.fingerprint ==> d == c
  {
  }

  lemma KeptWeakNameHasOwnFingerprint(cs: set<Candidate>, bs: set<Binding>, ids: map<string, string>, c: Candidate)
    requires Setting(cs, bs, ids) && c in cs && c.id in ids && NoExternal(c) && WeaklyNamed(cs, c)
    requires Keeps(cs, Written(cs, bs, ids), c, RowFor(c, ids[c.id]))
    ensures Truthy(c.fingerprint).Some?
    ensures forall d :: d in cs && NoExternal(d) && WeaklyNamed(cs, d) && d.fingerprint == c.fingerprint ==> d == c
  {
    var w := Written(cs, bs, ids);
    KeptWeakNameIsByFingerprint(cs, bs, ids, c);
    FingerprintIsOwn(Before(2, cs, w), c, RowFor(c, ids[c.id]));
    AfterName(cs, bs, ids);
    forall d | d in cs && NoExternal(d) && WeaklyNamed(cs, d) && d.fingerprint == c.fingerprint
      ensures d == c
    {
      assert d in Before(2, cs, w).open;
    }
  }

  /** A stable repeat has no conflict, hands out no new ID, and leaves no active row unkept. */
  lemma StableRepeatChangesNothing(cs: set<Candidate>, bs: set<Binding>, ids: map<string, string>)
    requires Setting(cs, bs, ids) && Distinguishable(cs)
    ensures ConflictFree(cs, Written(cs, bs, ids))
    ensures forall c :: !IsNew(cs, Written(cs, bs, ids), c)
    ensures forall r :: r in Written(cs, bs, ids) && r.active ==> exists c :: Keeps(cs, Written(cs, bs, ids), c, r)
  {
    var w := Written(cs, bs, ids);
    RowsOfWritten(cs, bs, ids);
    PendingShrinks(0, STAGES, cs, w);
    forall c | c in cs
      ensures !InConflict(cs, w, c) && !IsNew(cs, w, c) && Keeps(cs, w, c, RowFor(c, ids[c.id]))
    {
      EachKeepsItsId(cs, bs, ids, c);
      Partition(cs, w, c);
    }
    forall r | r in w && r.active
      ensures exists c :: Keeps(cs, w, c, r)
    {
      var c :| c in cs && r == RowFor(c, ids[c.id]);
    }
  }

  /** A name, or else a fingerprint, that no other such candidate has is enough. */
  lemma OwnNameOrFingerprintSuffices(cs: set<Candidate>)
    requires forall c :: c in cs && NoExternal(c) ==>
               || (c.name != "" && forall d :: d in cs && NoExternal(d) && d.name == c.name ==> d == c)
               || (&& Truthy(c.fingerprint).Some?
                   && forall d :: d in cs && NoExternal(d) && d.fingerprint == c.fingerprint ==> d == c)
    ensures Distinguishable(cs)
  {
  }
}
