/**
  What one reconciliation of candidates against stored bindings means.

  Candidates and bindings are taken as sets, so nothing here can depend on the order in which a
  source lists its entries or the registry stores its rows. IdentityRegistry.Reconcile, which
  works through lists and dictionaries group by group, is proved to compute exactly this.
 */
module IdentitySpec {
  import opened Wrappers

  datatype Candidate = Candidate(id: string, name: string, fingerprint: Option<string>, external: Option<string>)

  datatype Binding = Binding(
    entryId: string,
    external: Option<string>,
    name: Option<string>,
    fingerprint: Option<string>,
    active: bool)

  /** The five passes, in the order they run. */
  datatype Stage = ByExternal | ByName | ByFingerprint | LeftoverName | LeftoverTwin

  const STAGES: nat := 5

  function StageAt(n: nat): Stage {
    if n == 0 then ByExternal
    else if n == 1 then ByName
    else if n == 2 then ByFingerprint
    else if n == 3 then LeftoverName
    else LeftoverTwin
  }

  datatype Key = Plain(text: string) | Twin(name: string, fingerprint: Option<string>)

  /** An absent or empty string is no key at all. */
  function Truthy(text: Option<string>): Option<Key> {
    if text.Some? && text.value != "" then Some(Plain(text.value)) else None
  }

  /** The key a pass groups candidates by; None leaves the candidate out of the pass. */
  function CandidateKey(stage: Stage, c: Candidate): Option<Key> {
    match stage
    case ByExternal => Truthy(c.external)
    case ByName => Some(Plain(c.name))
    case ByFingerprint => Truthy(c.fingerprint)
    case LeftoverName => Some(Plain(c.name))
    case LeftoverTwin => Some(Twin(c.name, c.fingerprint))
  }

  /** The key a pass looks bindings up by. */
  function BindingKey(stage: Stage, b: Binding): Option<Key> {
    match stage
    case ByExternal => Truthy(b.external)
    case ByName => Truthy(b.name)
    case ByFingerprint => Truthy(b.fingerprint)
    case LeftoverName => Truthy(b.name)
    case LeftoverTwin => None
  }

  /** What is still open when a pass begins. */
  datatype Pending = Pending(open: set<Candidate>, free: set<Binding>)

  ghost predicate Rival(stage: Stage, p: Pending, c: Candidate, b: Binding) {
    b in p.free && CandidateKey(stage, c).Some? && BindingKey(stage, b) == CandidateKey(stage, c)
  }

  ghost predicate Alone(stage: Stage, p: Pending, c: Candidate) {
    forall other :: other in p.open && CandidateKey(stage, other) == CandidateKey(stage, c) ==> other == c
  }

  ghost predicate HasRival(stage: Stage, p: Pending, c: Candidate) {
    exists b :: Rival(stage, p, c, b)
  }

  ghost predicate Crowded(stage: Stage, p: Pending, c: Candidate) {
    exists b, b' :: Rival(stage, p, c, b) && Rival(stage, p, c, b') && b != b'
  }

  /** The pass keeps an existing entry ID: one candidate and one binding share the key. */
  ghost predicate Pairs(stage: Stage, p: Pending, c: Candidate, b: Binding) {
    && stage in {ByExternal, ByName, ByFingerprint}
    && c in p.open
    && Rival(stage, p, c, b)
    && Alone(stage, p, c)
    && !Crowded(stage, p, c)
  }

  /** The pass refuses to choose. */
  ghost predicate Refuses(stage: Stage, p: Pending, c: Candidate) {
    && c in p.open
    && CandidateKey(stage, c).Some?
    && match stage
       case ByExternal => !Alone(stage, p, c) || Crowded(stage, p, c)
       case ByName => false
       case ByFingerprint => HasRival(stage, p, c) && (!Alone(stage, p, c) || Crowded(stage, p, c))
       case LeftoverName => HasRival(stage, p, c)
       case LeftoverTwin => !Alone(stage, p, c)
  }

  ghost predicate Paired(stage: Stage, p: Pending, c: Candidate) {
    exists b :: Pairs(stage, p, c, b)
  }

  ghost predicate Claimed(stage: Stage, p: Pending, b: Binding) {
    exists c :: Pairs(stage, p, c, b)
  }

  ghost function PairedCandidates(stage: Stage, p: Pending): set<Candidate> {
    set c | c in p.open && Paired(stage, p, c)
  }

  ghost function ClaimedBindings(stage: Stage, p: Pending): set<Binding> {
    set b | b in p.free && Claimed(stage, p, b)
  }

  ghost function Refused(stage: Stage, p: Pending): set<Candidate> {
    set c | c in p.open && Refuses(stage, p, c)
  }

  ghost function Settle(stage: Stage, p: Pending): Pending {
    Pending(p.open - PairedCandidates(stage, p) - Refused(stage, p), p.free - ClaimedBindings(stage, p))
  }

  /** What is open before pass n; Before(STAGES, ...) is what is left at the end. */
  ghost function Before(n: nat, cs: set<Candidate>, bs: set<Binding>): Pending {
    if n == 0 then Pending(cs, bs) else Settle(StageAt(n - 1), Before(n - 1, cs, bs))
  }

  /** The candidate keeps the binding's entry ID. */
  ghost predicate Keeps(cs: set<Candidate>, bs: set<Binding>, c: Candidate, b: Binding) {
    exists n: nat :: n < STAGES && Pairs(StageAt(n), Before(n, cs, bs), c, b)
  }

  ghost predicate InConflict(cs: set<Candidate>, bs: set<Binding>, c: Candidate) {
    exists n: nat :: n < STAGES && c in Refused(StageAt(n), Before(n, cs, bs))
  }

  ghost predicate IsNew(cs: set<Candidate>, bs: set<Binding>, c: Candidate) {
    c in Before(STAGES, cs, bs).open
  }

  ghost predicate ConflictFree(cs: set<Candidate>, bs: set<Binding>) {
    forall c :: c in cs ==> !InConflict(cs, bs, c)
  }

  datatype Reason =
    | DuplicateStableIdentity
    | IndistinguishableSemantics
    | ChangedWithThisName
    | IndistinguishableNewEntries

  function ReasonOf(stage: Stage): Reason {
    match stage
    case ByExternal => DuplicateStableIdentity
    case ByName => IndistinguishableSemantics
    case ByFingerprint => IndistinguishableSemantics
    case LeftoverName => ChangedWithThisName
    case LeftoverTwin => IndistinguishableNewEntries
  }

  /** A conflict with its lists read as sets. */
  datatype ConflictView = ConflictView(candidateIds: set<string>, entryIds: set<string>, reason: Reason)

  ghost function GroupIds(stage: Stage, p: Pending, c: Candidate): set<string> {
    set other | other in p.open && CandidateKey(stage, other) == CandidateKey(stage, c) :: other.id
  }

  ghost function RivalIds(stage: Stage, p: Pending, c: Candidate): set<string> {
    set b | b in p.free && Rival(stage, p, c, b) :: b.entryId
  }

  ghost function ConflictOf(stage: Stage, p: Pending, c: Candidate): ConflictView {
    ConflictView(GroupIds(stage, p, c), RivalIds(stage, p, c), ReasonOf(stage))
  }

  ghost function StageConflicts(stage: Stage, p: Pending): set<ConflictView> {
    set c | c in Refused(stage, p) :: ConflictOf(stage, p, c)
  }

  ghost function ConflictsBefore(n: nat, cs: set<Candidate>, bs: set<Binding>): set<ConflictView> {
    if n == 0 then {}
    else ConflictsBefore(n - 1, cs, bs) + StageConflicts(StageAt(n - 1), Before(n - 1, cs, bs))
  }

  /** Distinct candidates carry distinct IDs, and distinct bindings distinct entry IDs. */
  ghost predicate DistinctIds(cs: set<Candidate>) {
    forall c, d :: c in cs && d in cs && c.id == d.id ==> c == d
  }

  ghost predicate DistinctEntries(bs: set<Binding>) {
    forall a, b :: a in bs && b in bs && a.entryId == b.entryId ==> a == b
  }

  // ---- Facts about one pass -------------------------------------------------------------------

  /**
    Within a pass a candidate has one binding and a binding one candidate, and no candidate is both
    paired and refused.
   */
  lemma PairsIsOneToOne(stage: Stage, p: Pending, c: Candidate, b: Binding)
    requires Pairs(stage, p, c, b)
    ensures forall b' :: Pairs(stage, p, c, b') ==> b' == b
    ensures forall c' :: Pairs(stage, p, c', b) ==> c' == c
    ensures !Refuses(stage, p, c)
  {
  }

  /** Members of one group share one verdict: a refused candidate's whole group is refused. */
  lemma GroupSharesVerdict(stage: Stage, p: Pending, c: Candidate, d: Candidate)
    requires c in Refused(stage, p)
    requires d in p.open && CandidateKey(stage, d) == CandidateKey(stage, c)
    ensures d in Refused(stage, p)
    ensures ConflictOf(stage, p, d) == ConflictOf(stage, p, c)
  {
    assert forall b :: Rival(stage, p, c, b) <==> Rival(stage, p, d, b);
    assert GroupIds(stage, p, c) == GroupIds(stage, p, d);
    assert RivalIds(stage, p, c) == RivalIds(stage, p, d);
    if Crowded(stage, p, c) {
      var b, b' :| Rival(stage, p, c, b) && Rival(stage, p, c, b') && b != b';
      assert Rival(stage, p, d, b) && Rival(stage, p, d, b');
      assert Crowded(stage, p, d);
    }
    if HasRival(stage, p, c) {
      var b :| Rival(stage, p, c, b);
      assert Rival(stage, p, d, b);
    }
  }

  // ---- Facts about the whole run --------------------------------------------------------------

  lemma {:induction false} PendingShrinks(m: nat, n: nat, cs: set<Candidate>, bs: set<Binding>)
    requires m <= n
    ensures Before(n, cs, bs).open <= Before(m, cs, bs).open
    ensures Before(n, cs, bs).free <= Before(m, cs, bs).free
  {
    if m < n {
      PendingShrinks(m, n - 1, cs, bs);
    }
  }

  /** A candidate paired or refused in pass m is gone from every later pass, and so is a claimed binding. */
  lemma SettledIsGone(m: nat, n: nat, cs: set<Candidate>, bs: set<Binding>)
    requires m < n
    ensures PairedCandidates(StageAt(m), Before(m, cs, bs)) !! Before(n, cs, bs).open
    ensures Refused(StageAt(m), Before(m, cs, bs)) !! Before(n, cs, bs).open
    ensures ClaimedBindings(StageAt(m), Before(m, cs, bs)) !! Before(n, cs, bs).free
  {
    PendingShrinks(m + 1, n, cs, bs);
  }

  /** Every candidate is settled by some pass before n or still open there. */
  lemma {:induction false} SettledOrOpen(n: nat, cs: set<Candidate>, bs: set<Binding>, c: Candidate)
    requires c in cs
    ensures c in Before(n, cs, bs).open
            || exists m: nat :: m < n && (c in PairedCandidates(StageAt(m), Before(m, cs, bs))
                                          || c in Refused(StageAt(m), Before(m, cs, bs)))
  {
    if n > 0 {
      SettledOrOpen(n - 1, cs, bs, c);
      if c in Before(n - 1, cs, bs).open {
        var m := n - 1;
        assert c in Before(n, cs, bs).open
               || c in PairedCandidates(StageAt(m), Before(m, cs, bs))
               || c in Refused(StageAt(m), Before(m, cs, bs));
      }
    }
  }

  ghost function PassThatKeeps(cs: set<Candidate>, bs: set<Binding>, c: Candidate, b: Binding): (n: nat)
    requires Keeps(cs, bs, c, b)
    ensures n < STAGES && Pairs(StageAt(n), Before(n, cs, bs), c, b)
    ensures c in PairedCandidates(StageAt(n), Before(n, cs, bs))
    ensures b in ClaimedBindings(StageAt(n), Before(n, cs, bs))
  {
    var n: nat :| n < STAGES && Pairs(StageAt(n), Before(n, cs, bs), c, b);
    n
  }

  /** Kept entry IDs form a partial injection from the candidates into the bindings. */
  lemma KeepsIsInjective(cs: set<Candidate>, bs: set<Binding>, c: Candidate, b: Binding, c': Candidate, b': Binding)
    requires Keeps(cs, bs, c, b) && Keeps(cs, bs, c', b')
    ensures c in cs && b in bs
    ensures c == c' <==> b == b'
  {
    var n, n' := PassThatKeeps(cs, bs, c, b), PassThatKeeps(cs, bs, c', b');
    PendingShrinks(0, n, cs, bs);
    if n < n' {
      SettledIsGone(n, n', cs, bs);
    } else if n' < n {
      SettledIsGone(n', n, cs, bs);
    } else {
      PairsIsOneToOne(StageAt(n), Before(n, cs, bs), c, b);
      PairsIsOneToOne(StageAt(n), Before(n, cs, bs), c', b');
    }
  }

  /** Every candidate keeps an entry ID, is in conflict, or is new - and only one of the three. */
  lemma Partition(cs: set<Candidate>, bs: set<Binding>, c: Candidate)
    requires c in cs
    ensures (exists b :: Keeps(cs, bs, c, b)) || InConflict(cs, bs, c) || IsNew(cs, bs, c)
    ensures !((exists b :: Keeps(cs, bs, c, b)) && InConflict(cs, bs, c))
    ensures !((exists b :: Keeps(cs, bs, c, b)) && IsNew(cs, bs, c))
    ensures !(InConflict(cs, bs, c) && IsNew(cs, bs, c))
  {
    SettledOrOpen(STAGES, cs, bs, c);
    if !IsNew(cs, bs, c) {
      var m: nat :| m < STAGES && (c in PairedCandidates(StageAt(m), Before(m, cs, bs))
                                   || c in Refused(StageAt(m), Before(m, cs, bs)));
      if c in PairedCandidates(StageAt(m), Before(m, cs, bs)) {
        var b :| Pairs(StageAt(m), Before(m, cs, bs), c, b);
        assert Keeps(cs, bs, c, b);
      }
    }
    if b :| Keeps(cs, bs, c, b) {
      KeptIsNothingElse(cs, bs, c, b);
    }
    if InConflict(cs, bs, c) {
      var m: nat :| m < STAGES && c in Refused(StageAt(m), Before(m, cs, bs));
      SettledIsGone(m, STAGES, cs, bs);
    }
  }

  lemma KeptIsNothingElse(cs: set<Candidate>, bs: set<Binding>, c: Candidate, b: Binding)
    requires Keeps(cs, bs, c, b)
    ensures !InConflict(cs, bs, c) && !IsNew(cs, bs, c)
  {
    var n := PassThatKeeps(cs, bs, c, b);
    SettledIsGone(n, STAGES, cs, bs);
    if InConflict(cs, bs, c) {
      var m: nat :| m < STAGES && c in Refused(StageAt(m), Before(m, cs, bs));
      if m < n {
        SettledIsGone(m, n, cs, bs);
      } else if n < m {
        SettledIsGone(n, m, cs, bs);
      } else {
        PairsIsOneToOne(StageAt(n), Before(n, cs, bs), c, b);
      }
    }
  }
}
