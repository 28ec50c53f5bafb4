/**
  What becomes of every candidate and every row, written out over their fields alone, and the
  proof that the passes of IdentitySpec give these answers.
 */
module IdentityAnswers {
  import opened Wrappers
  import opened IdentitySpec

  predicate HasText(t: Option<string>) {
    t != None && t != Some("")
  }

  // ---- By stable identity ----------------------------------------------------------------------

  /** Another candidate, or more than one row, has the candidate's stable identity. */
  ghost predicate DuplicateExternal(cs: set<Candidate>, bs: set<Binding>, c: Candidate) {
    && c in cs && HasText(c.external)
    && (|| (exists d :: d in cs && d != c && d.external == c.external)
        || (exists a, b :: a in bs && b in bs && a != b && a.external == c.external && b.external == c.external))
  }

  ghost predicate ByItsExternal(cs: set<Candidate>, bs: set<Binding>, c: Candidate, b: Binding) {
    c in cs && b in bs && HasText(c.external) && b.external == c.external && !DuplicateExternal(cs, bs, c)
  }

  ghost predicate Open1(cs: set<Candidate>, bs: set<Binding>, c: Candidate) {
    c in cs && !DuplicateExternal(cs, bs, c) && forall b :: !ByItsExternal(cs, bs, c, b)
  }

  ghost predicate Free1(cs: set<Candidate>, bs: set<Binding>, b: Binding) {
    b in bs && forall c :: !ByItsExternal(cs, bs, c, b)
  }

  // ---- By a name of its own --------------------------------------------------------------------

  ghost predicate ByItsName(cs: set<Candidate>, bs: set<Binding>, c: Candidate, b: Binding) {
    && Open1(cs, bs, c) && Free1(cs, bs, b) && c.name != "" && b.name == Some(c.name)
    && (forall d :: Open1(cs, bs, d) && d.name == c.name ==> d == c)
    && (forall a :: Free1(cs, bs, a) && a.name == Some(c.name) ==> a == b)
  }

  ghost predicate Open2(cs: set<Candidate>, bs: set<Binding>, c: Candidate) {
    Open1(cs, bs, c) && forall b :: !ByItsName(cs, bs, c, b)
  }

  ghost predicate Free2(cs: set<Candidate>, bs: set<Binding>, b: Binding) {
    Free1(cs, bs, b) && forall c :: !ByItsName(cs, bs, c, b)
  }

  // ---- By fingerprint --------------------------------------------------------------------------

  ghost predicate ByItsFingerprint(cs: set<Candidate>, bs: set<Binding>, c: Candidate, b: Binding) {
    && Open2(cs, bs, c) && Free2(cs, bs, b) && HasText(c.fingerprint) && b.fingerprint == c.fingerprint
    && (forall d :: Open2(cs, bs, d) && d.fingerprint == c.fingerprint ==> d == c)
    && (forall a :: Free2(cs, bs, a) && a.fingerprint == c.fingerprint ==> a == b)
  }

  /** Some row has the fingerprint, but not one row for one candidate. */
  ghost predicate Ambiguous(cs: set<Candidate>, bs: set<Binding>, c: Candidate) {
    && Open2(cs, bs, c) && HasText(c.fingerprint)
    && (exists b :: Free2(cs, bs, b) && b.fingerprint == c.fingerprint)
    && forall b :: !ByItsFingerprint(cs, bs, c, b)
  }

  ghost predicate Open3(cs: set<Candidate>, bs: set<Binding>, c: Candidate) {
    Open2(cs, bs, c) && !Ambiguous(cs, bs, c) && forall b :: !ByItsFingerprint(cs, bs, c, b)
  }

  ghost predicate Free3(cs: set<Candidate>, bs: set<Binding>, b: Binding) {
    Free2(cs, bs, b) && forall c :: !ByItsFingerprint(cs, bs, c, b)
  }

  // ---- What is left ----------------------------------------------------------------------------

  /** A row that nobody took has the candidate's name. */
  ghost predicate Changed(cs: set<Candidate>, bs: set<Binding>, c: Candidate) {
    Open3(cs, bs, c) && c.name != "" && exists b :: Free3(cs, bs, b) && b.name == Some(c.name)
  }

  ghost predicate Open4(cs: set<Candidate>, bs: set<Binding>, c: Candidate) {
    Open3(cs, bs, c) && !Changed(cs, bs, c)
  }

  /** Another candidate without a row has the same name and the same fingerprint. */
  ghost predicate HasTwin(cs: set<Candidate>, bs: set<Binding>, c: Candidate) {
    Open4(cs, bs, c) && exists d :: Open4(cs, bs, d) && d != c && Same(c, d)
  }

  predicate Same(c: Candidate, d: Candidate) {
    d.name == c.name && d.fingerprint == c.fingerprint
  }

  /** The candidate keeps the row's entry ID. */
  ghost predicate Takes(cs: set<Candidate>, bs: set<Binding>, c: Candidate, b: Binding) {
    ByItsExternal(cs, bs, c, b) || ByItsName(cs, bs, c, b) || ByItsFingerprint(cs, bs, c, b)
  }

  /** The conflict a candidate is listed in: with whom, over which rows, and why. */
  ghost predicate Listed(cs: set<Candidate>, bs: set<Binding>, c: Candidate, v: ConflictView) {
    || (&& DuplicateExternal(cs, bs, c) && v.reason == DuplicateStableIdentity
        && (forall id :: id in v.candidateIds <==> exists d :: d in cs && d.external == c.external && d.id == id)
        && (forall e :: e in v.entryIds <==> exists b :: b in bs && b.external == c.external && b.entryId == e))
    || (&& Ambiguous(cs, bs, c) && v.reason == IndistinguishableSemantics
        && (forall id :: id in v.candidateIds
                         <==> exists d :: Open2(cs, bs, d) && d.fingerprint == c.fingerprint && d.id == id)
        && (forall e :: e in v.entryIds
                        <==> exists b :: Free2(cs, bs, b) && b.fingerprint == c.fingerprint && b.entryId == e))
    || (&& Changed(cs, bs, c) && v.reason == ChangedWithThisName
        && (forall id :: id in v.candidateIds <==> exists d :: Open3(cs, bs, d) && d.name == c.name && d.id == id)
        && (forall e :: e in v.entryIds
                        <==> exists b :: Free3(cs, bs, b) && b.name == Some(c.name) && b.entryId == e))
    || (&& HasTwin(cs, bs, c) && v.reason == IndistinguishableNewEntries && v.entryIds == {}
        && (forall id :: id in v.candidateIds
                         <==> exists d :: Open4(cs, bs, d) && Same(c, d) && d.id == id))
  }

  ghost predicate Refusal(cs: set<Candidate>, bs: set<Binding>, c: Candidate) {
    DuplicateExternal(cs, bs, c) || Ambiguous(cs, bs, c) || Changed(cs, bs, c) || HasTwin(cs, bs, c)
  }

  // ---- The passes give these answers -----------------------------------------------------------

  lemma SameText(a: Option<string>, b: Option<string>)
    ensures Truthy(a).Some? <==> HasText(a)
    ensures HasText(a) ==> (Truthy(b) == Truthy(a) <==> b == a)
  {
  }

  /** What one pass leaves: who is open and which rows are free, given whom it pairs and refuses. */
  lemma Leaves(stage: Stage, p: Pending)
    ensures forall c :: c in Settle(stage, p).open
                    <==> c in p.open && !Refuses(stage, p, c) && forall b :: !Pairs(stage, p, c, b)
    ensures forall b :: b in Settle(stage, p).free <==> b in p.free && forall c :: !Pairs(stage, p, c, b)
  {
    forall c
      ensures Paired(stage, p, c) <==> exists b :: Pairs(stage, p, c, b)
    {
    }
  }

  lemma ExternalPass(cs: set<Candidate>, bs: set<Binding>, p: Pending)
    requires p == Pending(cs, bs)
    ensures forall c :: Refuses(ByExternal, p, c) <==> DuplicateExternal(cs, bs, c)
    ensures forall c, b :: Pairs(ByExternal, p, c, b) <==> ByItsExternal(cs, bs, c, b)
  {
    forall c
      ensures Refuses(ByExternal, p, c) <==> DuplicateExternal(cs, bs, c)
    {
      ExternalRivals(cs, bs, p, c);
    }
    forall c, b
      ensures Pairs(ByExternal, p, c, b) <==> ByItsExternal(cs, bs, c, b)
    {
      ExternalRivals(cs, bs, p, c);
    }
  }

  lemma ExternalRivals(cs: set<Candidate>, bs: set<Binding>, p: Pending, c: Candidate)
    requires p == Pending(cs, bs)
    ensures CandidateKey(ByExternal, c).Some? <==> HasText(c.external)
    ensures HasText(c.external) ==> forall b :: Rival(ByExternal, p, c, b) <==> b in bs && b.external == c.external
    ensures HasText(c.external) ==>
              (Alone(ByExternal, p, c) <==> forall d :: d in cs && d.external == c.external ==> d == c)
    ensures HasText(c.external) ==>
              (Crowded(ByExternal, p, c)
               <==> exists a, b :: a in bs && b in bs && a != b && a.external == c.external && b.external == c.external)
  {
    forall b: Binding
      ensures HasText(c.external) ==> (Truthy(b.external) == Truthy(c.external) <==> b.external == c.external)
    {
      SameText(c.external, b.external);
    }
    forall d: Candidate
      ensures HasText(c.external) ==> (Truthy(d.external) == Truthy(c.external) <==> d.external == c.external)
    {
      SameText(c.external, d.external);
    }
    if HasText(c.external) {
      if a, b :| a in bs && b in bs && a != b && a.external == c.external && b.external == c.external {
        assert Rival(ByExternal, p, c, a) && Rival(ByExternal, p, c, b);
      }
    }
  }

  lemma NamePass(cs: set<Candidate>, bs: set<Binding>, p: Pending)
    requires forall c :: c in p.open <==> Open1(cs, bs, c)
    requires forall b :: b in p.free <==> Free1(cs, bs, b)
    ensures forall c :: !Refuses(ByName, p, c)
    ensures forall c, b :: Pairs(ByName, p, c, b) <==> ByItsName(cs, bs, c, b)
  {
    forall c, b
      ensures Pairs(ByName, p, c, b) <==> ByItsName(cs, bs, c, b)
    {
      NameRivals(ByName, p, c);
      if ByItsName(cs, bs, c, b) {
        assert !Crowded(ByName, p, c);
      }
      if Pairs(ByName, p, c, b) {
        forall a | Free1(cs, bs, a) && a.name == Some(c.name)
          ensures a == b
        {
          assert Rival(ByName, p, c, a) && Rival(ByName, p, c, b);
        }
      }
    }
  }

  lemma NameRivals(stage: Stage, p: Pending, c: Candidate)
    requires stage == ByName || stage == LeftoverName
    ensures forall b :: Rival(stage, p, c, b) <==> b in p.free && c.name != "" && b.name == Some(c.name)
    ensures Alone(stage, p, c) <==> forall d :: d in p.open && d.name == c.name ==> d == c
  {
  }

  lemma FingerprintPass(cs: set<Candidate>, bs: set<Binding>, p: Pending)
    requires forall c :: c in p.open <==> Open2(cs, bs, c)
    requires forall b :: b in p.free <==> Free2(cs, bs, b)
    ensures forall c, b :: Pairs(ByFingerprint, p, c, b) <==> ByItsFingerprint(cs, bs, c, b)
    ensures forall c :: Refuses(ByFingerprint, p, c) <==> Ambiguous(cs, bs, c)
  {
    forall c, b
      ensures Pairs(ByFingerprint, p, c, b) <==> ByItsFingerprint(cs, bs, c, b)
    {
      FingerprintRivals(p, c);
      if Pairs(ByFingerprint, p, c, b) {
        forall a | Free2(cs, bs, a) && a.fingerprint == c.fingerprint
          ensures a == b
        {
          assert Rival(ByFingerprint, p, c, a) && Rival(ByFingerprint, p, c, b);
        }
      }
    }
    forall c
      ensures Refuses(ByFingerprint, p, c) <==> Ambiguous(cs, bs, c)
    {
      FingerprintRivals(p, c);
      if c in p.open && HasText(c.fingerprint) {
        if b :| Rival(ByFingerprint, p, c, b) {
          assert Alone(ByFingerprint, p, c) && !Crowded(ByFingerprint, p, c) ==> Pairs(ByFingerprint, p, c, b);
        }
      }
    }
  }

  lemma FingerprintRivals(p: Pending, c: Candidate)
    ensures CandidateKey(ByFingerprint, c).Some? <==> HasText(c.fingerprint)
    ensures HasText(c.fingerprint) ==>
              && (forall b :: Rival(ByFingerprint, p, c, b) <==> b in p.free && b.fingerprint == c.fingerprint)
              && (Alone(ByFingerprint, p, c) <==> forall d :: d in p.open && d.fingerprint == c.fingerprint ==> d == c)
  {
    forall b: Binding
      ensures HasText(c.fingerprint) ==>
                (Truthy(b.fingerprint) == Truthy(c.fingerprint) <==> b.fingerprint == c.fingerprint)
    {
      SameText(c.fingerprint, b.fingerprint);
    }
    forall d: Candidate
      ensures HasText(c.fingerprint) ==>
                (Truthy(d.fingerprint) == Truthy(c.fingerprint) <==> d.fingerprint == c.fingerprint)
    {
      SameText(c.fingerprint, d.fingerprint);
    }
  }

  lemma LeftoverPass(cs: set<Candidate>, bs: set<Binding>, p: Pending)
    requires forall c :: c in p.open <==> Open3(cs, bs, c)
    requires forall b :: b in p.free <==> Free3(cs, bs, b)
    ensures forall c, b :: !Pairs(LeftoverName, p, c, b)
    ensures forall c :: Refuses(LeftoverName, p, c) <==> Changed(cs, bs, c)
  {
    forall c
      ensures Refuses(LeftoverName, p, c) <==> Changed(cs, bs, c)
    {
      NameRivals(LeftoverName, p, c);
    }
  }

  lemma TwinPass(cs: set<Candidate>, bs: set<Binding>, p: Pending)
    requires forall c :: c in p.open <==> Open4(cs, bs, c)
    ensures forall c, b :: !Pairs(LeftoverTwin, p, c, b)
    ensures forall c :: Refuses(LeftoverTwin, p, c) <==> HasTwin(cs, bs, c)
  {
  }

  /** Who is open and which rows are free before each pass. */
  lemma BeforeMeans(cs: set<Candidate>, bs: set<Binding>)
    ensures Before(0, cs, bs) == Pending(cs, bs)
    ensures forall c :: c in Before(1, cs, bs).open <==> Open1(cs, bs, c)
    ensures forall b :: b in Before(1, cs, bs).free <==> Free1(cs, bs, b)
    ensures forall c :: c in Before(2, cs, bs).open <==> Open2(cs, bs, c)
    ensures forall b :: b in Before(2, cs, bs).free <==> Free2(cs, bs, b)
    ensures forall c :: c in Before(3, cs, bs).open <==> Open3(cs, bs, c)
    ensures forall b :: b in Before(3, cs, bs).free <==> Free3(cs, bs, b)
    ensures forall c :: c in Before(4, cs, bs).open <==> Open4(cs, bs, c)
    ensures forall c :: c in Before(5, cs, bs).open <==> Open4(cs, bs, c) && !HasTwin(cs, bs, c)
  {
    ghost var p0, p1, p2, p3, p4 :=
      Before(0, cs, bs), Before(1, cs, bs), Before(2, cs, bs), Before(3, cs, bs), Before(4, cs, bs);
    OnePassOn(0, cs, bs);
    ExternalPass(cs, bs, p0);
    OnePassOn(1, cs, bs);
    NamePass(cs, bs, p1);
    OnePassOn(2, cs, bs);
    FingerprintPass(cs, bs, p2);
    OnePassOn(3, cs, bs);
    LeftoverPass(cs, bs, p3);
    OnePassOn(4, cs, bs);
    TwinPass(cs, bs, p4);
  }

  lemma OnePassOn(n: nat, cs: set<Candidate>, bs: set<Binding>)
    ensures var stage, p := StageAt(n), Before(n, cs, bs);
            && (forall c :: c in Before(n + 1, cs, bs).open
                       <==> c in p.open && !Refuses(stage, p, c) && forall b :: !Pairs(stage, p, c, b))
            && (forall b :: b in Before(n + 1, cs, bs).free <==> b in p.free && forall c :: !Pairs(stage, p, c, b))
  {
    Leaves(StageAt(n), Before(n, cs, bs));
    assert Before(n + 1, cs, bs) == Settle(StageAt(n), Before(n, cs, bs));
  }

  // ---- Conflicts -------------------------------------------------------------------------------

  lemma ExternalConflict(cs: set<Candidate>, bs: set<Binding>, p: Pending, c: Candidate, v: ConflictView)
    requires p == Pending(cs, bs) && DuplicateExternal(cs, bs, c)
    ensures v == ConflictOf(ByExternal, p, c)
       <==> && v.reason == DuplicateStableIdentity
            && (forall id :: id in v.candidateIds <==> exists d :: d in cs && d.external == c.external && d.id == id)
            && (forall e :: e in v.entryIds <==> exists b :: b in bs && b.external == c.external && b.entryId == e)
  {
    var u := ConflictOf(ByExternal, p, c);
    ExternalRivals(cs, bs, p, c);
    forall d: Candidate
      ensures CandidateKey(ByExternal, d) == CandidateKey(ByExternal, c) <==> d.external == c.external
    {
      SameText(c.external, d.external);
    }
    assert forall id :: id in u.candidateIds <==> exists d :: d in cs && d.external == c.external && d.id == id;
    assert forall e :: e in u.entryIds <==> exists b :: b in bs && b.external == c.external && b.entryId == e;
    SameView(u, v);
  }

  lemma SameView(u: ConflictView, v: ConflictView)
    ensures u == v <==> u.reason == v.reason
                        && (forall id :: id in u.candidateIds <==> id in v.candidateIds)
                        && (forall e :: e in u.entryIds <==> e in v.entryIds)
  {
  }

  lemma FingerprintConflict(cs: set<Candidate>, bs: set<Binding>, p: Pending, c: Candidate, v: ConflictView)
    requires forall d :: d in p.open <==> Open2(cs, bs, d)
    requires forall b :: b in p.free <==> Free2(cs, bs, b)
    requires HasText(c.fingerprint)
    ensures v == ConflictOf(ByFingerprint, p, c)
       <==> && v.reason == IndistinguishableSemantics
            && (forall id :: id in v.candidateIds
                             <==> exists d :: Open2(cs, bs, d) && d.fingerprint == c.fingerprint && d.id == id)
            && (forall e :: e in v.entryIds
                            <==> exists b :: Free2(cs, bs, b) && b.fingerprint == c.fingerprint && b.entryId == e)
  {
    var u := ConflictOf(ByFingerprint, p, c);
    FingerprintRivals(p, c);
    forall d: Candidate
      ensures CandidateKey(ByFingerprint, d) == CandidateKey(ByFingerprint, c) <==> d.fingerprint == c.fingerprint
    {
      SameText(c.fingerprint, d.fingerprint);
    }
    assert forall id :: id in u.candidateIds
                        <==> exists d :: Open2(cs, bs, d) && d.fingerprint == c.fingerprint && d.id == id;
    assert forall e :: e in u.entryIds
                       <==> exists b :: Free2(cs, bs, b) && b.fingerprint == c.fingerprint && b.entryId == e;
    SameView(u, v);
  }

  lemma LeftoverConflict(cs: set<Candidate>, bs: set<Binding>, p: Pending, c: Candidate, v: ConflictView)
    requires forall d :: d in p.open <==> Open3(cs, bs, d)
    requires forall b :: b in p.free <==> Free3(cs, bs, b)
    requires c.name != ""
    ensures v == ConflictOf(LeftoverName, p, c)
       <==> && v.reason == ChangedWithThisName
            && (forall id :: id in v.candidateIds <==> exists d :: Open3(cs, bs, d) && d.name == c.name && d.id == id)
            && (forall e :: e in v.entryIds
                            <==> exists b :: Free3(cs, bs, b) && b.name == Some(c.name) && b.entryId == e)
  {
    var u := ConflictOf(LeftoverName, p, c);
    NameRivals(LeftoverName, p, c);
    assert forall id :: id in u.candidateIds <==> exists d :: Open3(cs, bs, d) && d.name == c.name && d.id == id;
    assert forall e :: e in u.entryIds <==> exists b :: Free3(cs, bs, b) && b.name == Some(c.name) && b.entryId == e;
    SameView(u, v);
  }

  lemma TwinConflict(cs: set<Candidate>, bs: set<Binding>, p: Pending, c: Candidate, v: ConflictView)
    requires forall d :: d in p.open <==> Open4(cs, bs, d)
    ensures v == ConflictOf(LeftoverTwin, p, c)
       <==> && v.reason == IndistinguishableNewEntries && v.entryIds == {}
            && (forall id :: id in v.candidateIds
                             <==> exists d :: Open4(cs, bs, d) && Same(c, d) && d.id == id)
  {
    var u := ConflictOf(LeftoverTwin, p, c);
    assert forall id :: id in u.candidateIds
                        <==> exists d :: Open4(cs, bs, d) && Same(c, d) && d.id == id;
    assert u.entryIds == {};
    SameView(u, v);
  }

  /** A candidate is listed in the conflict of the pass that refuses it, and in no other. */
  lemma ListedIsConflict(cs: set<Candidate>, bs: set<Binding>, c: Candidate, v: ConflictView)
    ensures Listed(cs, bs, c, v)
       <==> exists n: nat :: n < STAGES && InPass(n, cs, bs, c, v)
  {
    BeforeMeans(cs, bs);
    RefusedMeans(cs, bs, c);
    var p := Before(0, cs, bs);
    if DuplicateExternal(cs, bs, c) {
      ExternalConflict(cs, bs, p, c, v);
    }
    if Ambiguous(cs, bs, c) {
      FingerprintConflict(cs, bs, Before(2, cs, bs), c, v);
    }
    if Changed(cs, bs, c) {
      LeftoverConflict(cs, bs, Before(3, cs, bs), c, v);
    }
    if HasTwin(cs, bs, c) {
      TwinConflict(cs, bs, Before(4, cs, bs), c, v);
    }
    ByCases(cs, bs, c, v);
  }

  lemma RefusedMeans(cs: set<Candidate>, bs: set<Binding>, c: Candidate)
    ensures c in Refused(ByExternal, Before(0, cs, bs)) <==> DuplicateExternal(cs, bs, c)
    ensures c !in Refused(ByName, Before(1, cs, bs))
    ensures c in Refused(ByFingerprint, Before(2, cs, bs)) <==> Ambiguous(cs, bs, c)
    ensures c in Refused(LeftoverName, Before(3, cs, bs)) <==> Changed(cs, bs, c)
    ensures c in Refused(LeftoverTwin, Before(4, cs, bs)) <==> HasTwin(cs, bs, c)
  {
    BeforeMeans(cs, bs);
    ExternalPass(cs, bs, Before(0, cs, bs));
    NamePass(cs, bs, Before(1, cs, bs));
    FingerprintPass(cs, bs, Before(2, cs, bs));
    LeftoverPass(cs, bs, Before(3, cs, bs));
    TwinPass(cs, bs, Before(4, cs, bs));
  }

  ghost predicate InPass(n: nat, cs: set<Candidate>, bs: set<Binding>, c: Candidate, v: ConflictView) {
    c in Refused(StageAt(n), Before(n, cs, bs)) && v == ConflictOf(StageAt(n), Before(n, cs, bs), c)
  }

  lemma ByCases(cs: set<Candidate>, bs: set<Binding>, c: Candidate, v: ConflictView)
    ensures (exists n: nat :: n < STAGES && InPass(n, cs, bs, c, v))
       <==> InPass(0, cs, bs, c, v) || InPass(1, cs, bs, c, v) || InPass(2, cs, bs, c, v) || InPass(3, cs, bs, c, v)
            || InPass(4, cs, bs, c, v)
  {
  }

  ghost predicate ListedIn(n: nat, cs: set<Candidate>, bs: set<Binding>, v: ConflictView) {
    v in StageConflicts(StageAt(n), Before(n, cs, bs))
  }

  lemma SomebodyIsListed(n: nat, cs: set<Candidate>, bs: set<Binding>, v: ConflictView)
    ensures ListedIn(n, cs, bs, v) <==> exists c :: InPass(n, cs, bs, c, v)
  {
    if ListedIn(n, cs, bs, v) {
      var c :| c in Refused(StageAt(n), Before(n, cs, bs)) && v == ConflictOf(StageAt(n), Before(n, cs, bs), c);
      assert InPass(n, cs, bs, c, v);
    }
  }

  lemma {:induction false} ListedSomewhere(n: nat, cs: set<Candidate>, bs: set<Binding>, v: ConflictView)
    returns (m: nat)
    requires v in ConflictsBefore(n, cs, bs)
    ensures m < n && ListedIn(m, cs, bs, v)
  {
    m := n - 1;
    if !ListedIn(m, cs, bs, v) {
      m := ListedSomewhere(n - 1, cs, bs, v);
    }
  }

  lemma {:induction false} StaysListed(m: nat, n: nat, cs: set<Candidate>, bs: set<Binding>, v: ConflictView)
    requires m < n && ListedIn(m, cs, bs, v)
    ensures v in ConflictsBefore(n, cs, bs)
    decreases n
  {
    var last := n - 1;
    if m == last {
      assert v in StageConflicts(StageAt(last), Before(last, cs, bs));
    } else {
      StaysListed(m, last, cs, bs, v);
    }
  }

  /** All conflicts are the listed ones. */
  lemma ConflictsAreListed(cs: set<Candidate>, bs: set<Binding>)
    ensures forall v :: v in ConflictsBefore(STAGES, cs, bs) <==> exists c :: Listed(cs, bs, c, v)
  {
    forall v
      ensures v in ConflictsBefore(STAGES, cs, bs) <==> exists c :: Listed(cs, bs, c, v)
    {
      if v in ConflictsBefore(STAGES, cs, bs) {
        var m := ListedSomewhere(STAGES, cs, bs, v);
        SomebodyIsListed(m, cs, bs, v);
        var c :| InPass(m, cs, bs, c, v);
        ListedIsConflict(cs, bs, c, v);
      }
      if c :| Listed(cs, bs, c, v) {
        ListedIsConflict(cs, bs, c, v);
        var m: nat :| m < STAGES && InPass(m, cs, bs, c, v);
        SomebodyIsListed(m, cs, bs, v);
        StaysListed(m, STAGES, cs, bs, v);
      }
    }
  }

  /** Everybody who is refused is listed. */
  lemma RefusalIsListed(cs: set<Candidate>, bs: set<Binding>, c: Candidate) returns (v: ConflictView)
    requires Refusal(cs, bs, c)
    ensures Listed(cs, bs, c, v) && v in ConflictsBefore(STAGES, cs, bs)
  {
    InConflictMeans(cs, bs, c);
    var n: nat :| n < STAGES && c in Refused(StageAt(n), Before(n, cs, bs));
    v := ConflictOf(StageAt(n), Before(n, cs, bs), c);
    assert InPass(n, cs, bs, c, v);
    ListedIsConflict(cs, bs, c, v);
    SomebodyIsListed(n, cs, bs, v);
    StaysListed(n, STAGES, cs, bs, v);
  }

  // ---- Who keeps, who is refused, who is new -----------------------------------------------------

  /** Keeping an entry ID, being in conflict and being new, over candidates and rows alone. */
  lemma FatesAre(cs: set<Candidate>, bs: set<Binding>)
    ensures forall c, b :: Keeps(cs, bs, c, b) <==> Takes(cs, bs, c, b)
    ensures forall c :: InConflict(cs, bs, c) <==> Refusal(cs, bs, c)
    ensures forall c :: IsNew(cs, bs, c) <==> Open4(cs, bs, c) && !HasTwin(cs, bs, c)
  {
    forall c, b
      ensures Keeps(cs, bs, c, b) <==> Takes(cs, bs, c, b)
    {
      KeepsMeans(cs, bs, c, b);
    }
    forall c
      ensures InConflict(cs, bs, c) <==> Refusal(cs, bs, c)
    {
      InConflictMeans(cs, bs, c);
    }
    BeforeMeans(cs, bs);
  }

  lemma KeepsMeans(cs: set<Candidate>, bs: set<Binding>, c: Candidate, b: Binding)
    ensures Keeps(cs, bs, c, b) <==> Takes(cs, bs, c, b)
  {
    BeforeMeans(cs, bs);
    ExternalPass(cs, bs, Before(0, cs, bs));
    NamePass(cs, bs, Before(1, cs, bs));
    FingerprintPass(cs, bs, Before(2, cs, bs));
    assert Takes(cs, bs, c, b)
      <==> Pairs(StageAt(0), Before(0, cs, bs), c, b) || Pairs(StageAt(1), Before(1, cs, bs), c, b)
           || Pairs(StageAt(2), Before(2, cs, bs), c, b);
    PairsEarly(cs, bs, c, b);
  }

  lemma PairsEarly(cs: set<Candidate>, bs: set<Binding>, c: Candidate, b: Binding)
    ensures Keeps(cs, bs, c, b)
       <==> Pairs(StageAt(0), Before(0, cs, bs), c, b) || Pairs(StageAt(1), Before(1, cs, bs), c, b)
            || Pairs(StageAt(2), Before(2, cs, bs), c, b)
  {
    if Keeps(cs, bs, c, b) {
      var n := PassThatKeeps(cs, bs, c, b);
      assert n < 3;
    }
  }

  lemma InConflictMeans(cs: set<Candidate>, bs: set<Binding>, c: Candidate)
    ensures InConflict(cs, bs, c) <==> Refusal(cs, bs, c)
  {
    RefusedMeans(cs, bs, c);
    if InConflict(cs, bs, c) {
      var n: nat :| n < STAGES && c in Refused(StageAt(n), Before(n, cs, bs));
      assert n == 0 || n == 1 || n == 2 || n == 3 || n == 4;
    }
    assert Refusal(cs, bs, c) ==>
             c in Refused(StageAt(0), Before(0, cs, bs)) || c in Refused(StageAt(2), Before(2, cs, bs))
             || c in Refused(StageAt(3), Before(3, cs, bs)) || c in Refused(StageAt(4), Before(4, cs, bs));
  }

  /** Who is listed is refused, and listed by its own ID. */
  lemma ListedIsRefused(cs: set<Candidate>, bs: set<Binding>, c: Candidate, v: ConflictView)
    requires Listed(cs, bs, c, v)
    ensures Refusal(cs, bs, c) && c.id in v.candidateIds
  {
    assert Same(c, c);
  }

  // ---- What follows ------------------------------------------------------------------------------

  /** Candidates without a stable identity that share name and fingerprint are refused, against every registry. */
  lemma TwinsAreRefused(cs: set<Candidate>, bs: set<Binding>, c: Candidate, d: Candidate)
    requires c in cs && d in cs && c != d && !HasText(c.external) && !HasText(d.external)
    requires c.name == d.name && c.fingerprint == d.fingerprint
    ensures Refusal(cs, bs, c) && Refusal(cs, bs, d)
  {
    assert Same(c, d) && Same(d, c);
    assert Open1(cs, bs, c) && Open1(cs, bs, d);
    assert Open2(cs, bs, c) && Open2(cs, bs, d);
    assert Ambiguous(cs, bs, c) <==> Ambiguous(cs, bs, d);
    if !Ambiguous(cs, bs, c) {
      assert Open3(cs, bs, c) && Open3(cs, bs, d);
      assert Changed(cs, bs, c) <==> Changed(cs, bs, d);
    }
  }

  /** Two candidates that cannot both be new: they share a stable identity, or a name and a fingerprint. */
  predicate Clash(c: Candidate, d: Candidate) {
    || (c.external != None && c.external != Some("") && c.external == d.external)
    || (c.name == d.name && c.fingerprint == d.fingerprint)
  }

  /** Against an empty registry, nobody is refused exactly if no two candidates clash. */
  lemma EmptyRegistryRefusesClashes(cs: set<Candidate>)
    ensures (forall c :: c in cs ==> !Refusal(cs, {}, c))
       <==> forall c, d :: c in cs && d in cs && c != d ==> !Clash(c, d)
  {
    if c, d :| c in cs && d in cs && c != d && Clash(c, d) {
      if !DuplicateExternal(cs, {}, c) && !DuplicateExternal(cs, {}, d) {
        assert Open4(cs, {}, c) && Open4(cs, {}, d) && Same(c, d);
        assert HasTwin(cs, {}, c);
      }
    }
  }
}
