/**
  One pass of the matching, through lists and dictionaries as the service does it, proved to do
  what IdentitySpec defines on sets.
 */
module IdentityMatching {
  import opened Wrappers
  import opened IdentitySpec

  datatype Conflict = Conflict(candidateIds: seq<string>, entryIds: seq<string>, reason: Reason)

  datatype Reconciliation = Reconciliation(
    sourceId: string,
    assignments: map<string, string>,
    newEntryIds: seq<string>,
    disappeared: seq<string>,
    conflicts: seq<Conflict>)

  datatype IdentityError = DuplicateCandidateIds | IncompleteMapping | ForeignEntryId | InvalidEntryId

  ghost function SetOf<T(!new)>(s: seq<T>): set<T> {
    set x | x in s
  }

  ghost predicate Distinct<T(!new)>(s: seq<T>) {
    forall i, j :: 0 <= i < j < |s| ==> s[i] != s[j]
  }

  function CandidateIds(cs: seq<Candidate>): (r: seq<string>) {
    seq(|cs|, i requires 0 <= i < |cs| => cs[i].id)
  }

  function EntryIds(bs: seq<Binding>): (r: seq<string>) {
    seq(|bs|, i requires 0 <= i < |bs| => bs[i].entryId)
  }

  /** No two rows of a source share an entry ID. */
  ghost predicate DistinctRows(bs: seq<Binding>) {
    forall i, j :: 0 <= i < j < |bs| ==> bs[i].entryId != bs[j].entryId
  }

  ghost predicate DistinctCandidates(cs: seq<Candidate>) {
    forall i, j :: 0 <= i < j < |cs| ==> cs[i].id != cs[j].id
  }

  ghost function View(x: Conflict): ConflictView {
    ConflictView(SetOf(x.candidateIds), SetOf(x.entryIds), x.reason)
  }

  ghost function Views(xs: seq<Conflict>): set<ConflictView> {
    set x | x in xs :: View(x)
  }

  /** No candidate is listed in two conflicts. */
  ghost predicate DisjointConflicts(xs: seq<Conflict>) {
    forall i, j :: 0 <= i < j < |xs| ==> SetOf(xs[i].candidateIds) !! SetOf(xs[j].candidateIds)
  }

  // ---- Grouping -------------------------------------------------------------------------------

  /** The candidates a pass files under key k, in order. */
  ghost function GroupUnder(stage: Stage, k: Key, items: seq<Candidate>): (r: seq<Candidate>)
    ensures forall c :: c in r <==> c in items && CandidateKey(stage, c) == Some(k)
    ensures DistinctCandidates(items) ==> DistinctCandidates(r)
  {
    if items == [] then []
    else
      var rest := GroupUnder(stage, k, items[..|items| - 1]);
      var last := items[|items| - 1];
      assert items == items[..|items| - 1] + [last];
      assert forall i :: 0 <= i < |rest| ==> rest[i] in items[..|items| - 1];
      if CandidateKey(stage, last) == Some(k) then rest + [last] else rest
  }

  ghost function RowsUnder(stage: Stage, k: Key, items: seq<Binding>): (r: seq<Binding>)
    ensures forall b :: b in r <==> b in items && BindingKey(stage, b) == Some(k)
    ensures DistinctRows(items) ==> DistinctRows(r)
  {
    if items == [] then []
    else
      var rest := RowsUnder(stage, k, items[..|items| - 1]);
      var last := items[|items| - 1];
      assert items == items[..|items| - 1] + [last];
      assert forall i :: 0 <= i < |rest| ==> rest[i] in items[..|items| - 1];
      if BindingKey(stage, last) == Some(k) then rest + [last] else rest
  }

  method GroupCandidates(stage: Stage, items: seq<Candidate>) returns (keys: seq<Key>, groups: map<Key, seq<Candidate>>)
    ensures Distinct(keys)
    ensures forall k :: k in keys <==> k in groups
    ensures forall k :: k in groups ==> groups[k] == GroupUnder(stage, k, items) && groups[k] != []
    ensures forall k :: k !in groups ==> GroupUnder(stage, k, items) == []
  {
    keys, groups := [], map[];
    for i := 0 to |items|
      invariant GroupedSoFar(stage, items[..i], keys, groups)
    {
      var c := items[i];
      var key := CandidateKey(stage, c);
      assert items[..i + 1] == items[..i] + [c];
      ghost var keysBefore, groupsBefore := keys, groups;
      if key.Some? {
        if key.value !in groups {
          keys := keys + [key.value];
          groups := groups[key.value := []];
        }
        groups := groups[key.value := groups[key.value] + [c]];
      }
      GroupedStep(stage, items[..i], c, keysBefore, groupsBefore, keys, groups);
    }
    assert items[..|items|] == items;
  }

  ghost predicate GroupedSoFar(stage: Stage, items: seq<Candidate>, keys: seq<Key>, groups: map<Key, seq<Candidate>>) {
    && Distinct(keys)
    && (forall k :: k in keys <==> k in groups)
    && (forall k :: k in groups ==> groups[k] == GroupUnder(stage, k, items) && groups[k] != [])
    && (forall k :: k !in groups ==> GroupUnder(stage, k, items) == [])
  }

  lemma GroupUnderLast(stage: Stage, k: Key, items: seq<Candidate>, c: Candidate)
    ensures GroupUnder(stage, k, items + [c])
         == GroupUnder(stage, k, items) + if CandidateKey(stage, c) == Some(k) then [c] else []
  {
    assert (items + [c])[..|items|] == items;
    assert GroupUnder(stage, k, items) + [] == GroupUnder(stage, k, items);
  }

  lemma GroupedStep(stage: Stage, items: seq<Candidate>, c: Candidate, keys: seq<Key>, groups: map<Key, seq<Candidate>>,
                    keys': seq<Key>, groups': map<Key, seq<Candidate>>)
    requires GroupedSoFar(stage, items, keys, groups)
    requires var key := CandidateKey(stage, c);
             if key.None? then keys' == keys && groups' == groups
             else
               && keys' == (if key.value in groups then keys else keys + [key.value])
               && groups' == groups[key.value := (if key.value in groups then groups[key.value] else []) + [c]]
    ensures GroupedSoFar(stage, items + [c], keys', groups')
  {
    forall k
      ensures k in groups' ==> groups'[k] == GroupUnder(stage, k, items + [c]) && groups'[k] != []
      ensures k !in groups' ==> GroupUnder(stage, k, items + [c]) == []
      ensures k in keys' <==> k in groups'
    {
      GroupUnderLast(stage, k, items, c);
    }
  }

  method GroupBindings(stage: Stage, items: seq<Binding>) returns (groups: map<Key, seq<Binding>>)
    ensures forall k :: k in groups ==> groups[k] == RowsUnder(stage, k, items)
    ensures forall k :: k !in groups ==> RowsUnder(stage, k, items) == []
  {
    groups := map[];
    for i := 0 to |items|
      invariant RowsGroupedSoFar(stage, items[..i], groups)
    {
      var b := items[i];
      var key := BindingKey(stage, b);
      ghost var before := groups;
      assert items[..i + 1] == items[..i] + [b];
      if key.Some? {
        var soFar := if key.value in groups then groups[key.value] else [];
        groups := groups[key.value := soFar + [b]];
      }
      RowsGroupedStep(stage, items[..i], b, before, groups);
    }
    assert items[..|items|] == items;
  }

  ghost predicate RowsGroupedSoFar(stage: Stage, items: seq<Binding>, groups: map<Key, seq<Binding>>) {
    && (forall k :: k in groups ==> groups[k] == RowsUnder(stage, k, items))
    && (forall k :: k !in groups ==> RowsUnder(stage, k, items) == [])
  }

  lemma RowsUnderLast(stage: Stage, k: Key, items: seq<Binding>, b: Binding)
    ensures RowsUnder(stage, k, items + [b])
         == RowsUnder(stage, k, items) + if BindingKey(stage, b) == Some(k) then [b] else []
  {
    assert (items + [b])[..|items|] == items;
    assert RowsUnder(stage, k, items) + [] == RowsUnder(stage, k, items);
  }

  lemma RowsGroupedStep(stage: Stage, items: seq<Binding>, b: Binding, groups: map<Key, seq<Binding>>,
                        groups': map<Key, seq<Binding>>)
    requires RowsGroupedSoFar(stage, items, groups)
    requires var key := BindingKey(stage, b);
             if key.None? then groups' == groups
             else groups' == groups[key.value := (if key.value in groups then groups[key.value] else []) + [b]]
    ensures RowsGroupedSoFar(stage, items + [b], groups')
  {
    forall k
      ensures k in groups' ==> groups'[k] == RowsUnder(stage, k, items + [b])
      ensures k !in groups' ==> RowsUnder(stage, k, items + [b]) == []
    {
      RowsUnderLast(stage, k, items, b);
    }
  }

  /** The rows no pass has used yet. */
  function Available(items: seq<Binding>, used: set<string>): (r: seq<Binding>)
    ensures forall b :: b in r <==> b in items && b.entryId !in used
    ensures DistinctRows(items) ==> DistinctRows(r)
  {
    if items == [] then []
    else
      var rest := Available(items[..|items| - 1], used);
      var last := items[|items| - 1];
      assert items == items[..|items| - 1] + [last];
      if last.entryId !in used then rest + [last] else rest
  }

  /** The candidates still to be settled. */
  function Unresolved(items: seq<Candidate>, settled: set<string>, blocked: set<string>): (r: seq<Candidate>)
    ensures |r| <= |items|
    ensures forall c :: c in r <==> c in items && c.id !in settled && c.id !in blocked
    ensures DistinctCandidates(items) ==> DistinctCandidates(r)
  {
    if items == [] then []
    else
      var rest := Unresolved(items[..|items| - 1], settled, blocked);
      var last := items[|items| - 1];
      assert items == items[..|items| - 1] + [last];
      if last.id !in settled && last.id !in blocked then rest + [last] else rest
  }

  // ---- One pass -------------------------------------------------------------------------------

  datatype Verdict = Assign | Refuse | Pass

  /** What a pass does with a group of that many candidates and that many available rows. */
  function Decide(stage: Stage, group: nat, rivals: nat): Verdict {
    match stage
    case ByExternal => if group > 1 || rivals > 1 then Refuse else if rivals == 1 then Assign else Pass
    case ByName => if group == 1 && rivals == 1 then Assign else Pass
    case ByFingerprint => if group == 1 && rivals == 1 then Assign else if rivals > 0 then Refuse else Pass
    case LeftoverName => if rivals > 0 then Refuse else Pass
    case LeftoverTwin => if group > 1 then Refuse else Pass
  }

  ghost predicate IsGroupOf(stage: Stage, p: Pending, k: Key, group: seq<Candidate>, rivals: seq<Binding>) {
    && group != [] && DistinctCandidates(group) && DistinctRows(rivals)
    && (forall c :: c in group <==> c in p.open && CandidateKey(stage, c) == Some(k))
    && (forall b :: b in rivals <==> b in p.free && BindingKey(stage, b) == Some(k))
  }

  /** Counting a group and its available rows answers the questions the specification asks about a member. */
  lemma DecideMeans(stage: Stage, p: Pending, k: Key, group: seq<Candidate>, rivals: seq<Binding>, c: Candidate)
    requires IsGroupOf(stage, p, k, group, rivals) && c in group
    ensures Alone(stage, p, c) <==> |group| == 1
    ensures HasRival(stage, p, c) <==> |rivals| > 0
    ensures Crowded(stage, p, c) <==> |rivals| > 1
    ensures Decide(stage, |group|, |rivals|).Refuse? <==> Refuses(stage, p, c)
    ensures Decide(stage, |group|, |rivals|).Assign? <==> |rivals| > 0 && Pairs(stage, p, c, rivals[0])
    ensures Decide(stage, |group|, |rivals|).Assign? <==> Paired(stage, p, c)
  {
    if |group| > 1 {
      var d := if group[0] == c then group[1] else group[0];
      assert d in group && d != c;
    }
    assert |group| == 1 ==> c == group[0];
    if |rivals| > 1 {
      assert Rival(stage, p, c, rivals[0]) && Rival(stage, p, c, rivals[1]);
    }
    if |rivals| == 1 {
      assert forall b :: Rival(stage, p, c, b) ==> b in rivals && b == rivals[0];
    }
    if |rivals| > 0 {
      assert Rival(stage, p, c, rivals[0]);
    }
    assert forall b :: Rival(stage, p, c, b) ==> b in rivals;
  }

  lemma ConflictMeans(stage: Stage, p: Pending, k: Key, group: seq<Candidate>, rivals: seq<Binding>, c: Candidate)
    requires IsGroupOf(stage, p, k, group, rivals) && c in group
    ensures View(Conflict(CandidateIds(group), EntryIds(rivals), ReasonOf(stage))) == ConflictOf(stage, p, c)
  {
    var ids, entries := CandidateIds(group), EntryIds(rivals);
    forall id | id in GroupIds(stage, p, c)
      ensures id in ids
    {
      var d :| d in p.open && CandidateKey(stage, d) == CandidateKey(stage, c) && d.id == id;
      assert d in group;
      var i :| 0 <= i < |group| && group[i] == d;
      assert ids[i] == id;
    }
    forall i | 0 <= i < |ids|
      ensures ids[i] in GroupIds(stage, p, c)
    {
      assert group[i] in group;
    }
    assert SetOf(ids) == GroupIds(stage, p, c);
    forall e | e in RivalIds(stage, p, c)
      ensures e in entries
    {
      var b :| b in p.free && Rival(stage, p, c, b) && b.entryId == e;
      assert b in rivals;
      var i :| 0 <= i < |rivals| && rivals[i] == b;
      assert entries[i] == e;
    }
    forall i | 0 <= i < |entries|
      ensures entries[i] in RivalIds(stage, p, c)
    {
      assert rivals[i] in rivals;
      assert Rival(stage, p, c, rivals[i]);
    }
    assert SetOf(entries) == RivalIds(stage, p, c);
  }

  ghost function PendingOf(open: seq<Candidate>, previous: seq<Binding>, used: set<string>): Pending {
    Pending(SetOf(open), set b | b in previous && b.entryId !in used)
  }

  /** The group of c has been handled. */
  ghost predicate Handled(stage: Stage, done: set<Key>, c: Candidate) {
    CandidateKey(stage, c).Some? && CandidateKey(stage, c).value in done
  }

  ghost predicate MatchedSoFar(stage: Stage, p: Pending, done: set<Key>, matched: map<string, string>) {
    && (forall c, b :: Pairs(stage, p, c, b) && Handled(stage, done, c) ==>
       c.id in matched && matched[c.id] == b.entryId)
    && (forall id :: id in matched ==> exists c, b :: Pairs(stage, p, c, b) && Handled(stage, done, c) && c.id == id)
  }

  ghost predicate RefusedSoFar(stage: Stage, p: Pending, done: set<Key>, conflicts: seq<Conflict>) {
    && (forall c :: c in Refused(stage, p) && Handled(stage, done, c) ==> ConflictOf(stage, p, c) in Views(conflicts))
    && (forall x :: x in conflicts ==>
       exists c :: c in Refused(stage, p) && Handled(stage, done, c) && View(x) == ConflictOf(stage, p, c))
    && DisjointConflicts(conflicts)
  }

  /** Rows that earlier groups of the pass used carry other done, so availability is unchanged for this group. */
  lemma OtherGroupsUseOtherRows(
      stage: Stage, p: Pending, open: seq<Candidate>, previous: seq<Binding>, used: set<string>,
      done: set<Key>, k: Key, matched: map<string, string>, group: seq<Candidate>, rows: seq<Binding>,
        rivals: seq<Binding>)
    requires p == PendingOf(open, previous, used)
    requires DistinctCandidates(open) && DistinctRows(previous)
    requires k !in done && MatchedSoFar(stage, p, done, matched)
    requires group == GroupUnder(stage, k, open) && group != []
    requires rows == RowsUnder(stage, k, previous) && rivals == Available(rows, used + matched.Values)
    ensures IsGroupOf(stage, p, k, group, rivals)
  {
    assert DistinctRows(rows) && DistinctRows(rivals);
    forall b | b in previous && BindingKey(stage, b) == Some(k) && b.entryId !in used
      ensures b.entryId !in matched.Values
    {
      if b.entryId in matched.Values {
        var id :| id in matched && matched[id] == b.entryId;
        var c, w :| Pairs(stage, p, c, w) && Handled(stage, done, c) && c.id == id;
        SameEntrySameRow(previous, b, w);
      }
    }
  }

  lemma SameEntrySameRow(rows: seq<Binding>, a: Binding, b: Binding)
    requires DistinctRows(rows) && a in rows && b in rows && a.entryId == b.entryId
    ensures a == b
  {
    var i :| 0 <= i < |rows| && rows[i] == a;
    var j :| 0 <= j < |rows| && rows[j] == b;
  }

  lemma SameIdSameCandidate(cs: seq<Candidate>, c: Candidate, d: Candidate)
    requires DistinctCandidates(cs) && c in cs && d in cs && c.id == d.id
    ensures c == d
  {
    var i :| 0 <= i < |cs| && cs[i] == c;
    var j :| 0 <= j < |cs| && cs[j] == d;
  }

  lemma MatchStep(stage: Stage, p: Pending, done: set<Key>, k: Key, matched: map<string, string>,
                  group: seq<Candidate>, rivals: seq<Binding>)
    requires IsGroupOf(stage, p, k, group, rivals) && DistinctIds(p.open) && k !in done
    requires MatchedSoFar(stage, p, done, matched)
    requires Decide(stage, |group|, |rivals|).Assign?
    ensures |rivals| > 0 && MatchedSoFar(stage, p, done + {k}, matched[group[0].id := rivals[0].entryId])
  {
    var c0 := group[0];
    DecideMeans(stage, p, k, group, rivals, c0);
    var b0 := rivals[0];
    var after := matched[c0.id := b0.entryId];
    assert Pairs(stage, p, c0, b0) && Handled(stage, done + {k}, c0);
    forall c, b | Pairs(stage, p, c, b) && Handled(stage, done + {k}, c)
      ensures c.id in after && after[c.id] == b.entryId
    {
      if CandidateKey(stage, c) == Some(k) {
        assert c == c0 && b == b0;
      } else {
        assert Handled(stage, done, c) && c.id != c0.id;
      }
    }
    forall id | id in after
      ensures exists c, b :: Pairs(stage, p, c, b) && Handled(stage, done + {k}, c) && c.id == id
    {
      if id != c0.id {
        var c, b :| Pairs(stage, p, c, b) && Handled(stage, done, c) && c.id == id;
        assert Handled(stage, done + {k}, c);
      }
    }
  }

  lemma NoMatchStep(stage: Stage, p: Pending, done: set<Key>, k: Key, matched: map<string, string>,
                    group: seq<Candidate>, rivals: seq<Binding>)
    requires IsGroupOf(stage, p, k, group, rivals)
    requires MatchedSoFar(stage, p, done, matched)
    requires !Decide(stage, |group|, |rivals|).Assign?
    ensures MatchedSoFar(stage, p, done + {k}, matched)
  {
    forall c, b | Pairs(stage, p, c, b) && Handled(stage, done + {k}, c)
      ensures Handled(stage, done, c)
    {
      if CandidateKey(stage, c) == Some(k) {
        DecideMeans(stage, p, k, group, rivals, c);
      }
    }
    forall id | id in matched
      ensures exists c, b :: Pairs(stage, p, c, b) && Handled(stage, done + {k}, c) && c.id == id
    {
      var c, b :| Pairs(stage, p, c, b) && Handled(stage, done, c) && c.id == id;
      assert Handled(stage, done + {k}, c);
    }
  }

  lemma RefuseStep(stage: Stage, p: Pending, done: set<Key>, k: Key, conflicts: seq<Conflict>,
                   group: seq<Candidate>, rivals: seq<Binding>)
    requires IsGroupOf(stage, p, k, group, rivals) && DistinctIds(p.open) && k !in done
    requires RefusedSoFar(stage, p, done, conflicts)
    requires Decide(stage, |group|, |rivals|).Refuse?
    ensures RefusedSoFar(stage, p, done + {k},
                         conflicts + [Conflict(CandidateIds(group), EntryIds(rivals), ReasonOf(stage))])
  {
    var x := Conflict(CandidateIds(group), EntryIds(rivals), ReasonOf(stage));
    var after := conflicts + [x];
    assert forall y :: y in after <==> y in conflicts || y == x;
    forall c | c in group
      ensures View(x) == ConflictOf(stage, p, c) && c in Refused(stage, p)
    {
      DecideMeans(stage, p, k, group, rivals, c);
      ConflictMeans(stage, p, k, group, rivals, c);
    }
    forall c | c in Refused(stage, p) && Handled(stage, done + {k}, c)
      ensures ConflictOf(stage, p, c) in Views(after)
    {
      if CandidateKey(stage, c) == Some(k) {
        assert c in group && x in after;
      } else {
        assert Handled(stage, done, c);
      }
    }
    forall y | y in conflicts
      ensures exists c :: c in Refused(stage, p) && Handled(stage, done + {k}, c) && View(y) == ConflictOf(stage, p, c)
    {
      var d :| d in Refused(stage, p) && Handled(stage, done, d) && View(y) == ConflictOf(stage, p, d);
      assert Handled(stage, done + {k}, d);
    }
    assert group[0] in Refused(stage, p) && Handled(stage, done + {k}, group[0]);
    assert View(x) == ConflictOf(stage, p, group[0]);
    RefusedIsApart(stage, p, done, k, conflicts, group, x);
  }

  lemma RefusedIsApart(stage: Stage, p: Pending, done: set<Key>, k: Key, conflicts: seq<Conflict>,
                       group: seq<Candidate>, x: Conflict)
    requires RefusedSoFar(stage, p, done, conflicts) && DistinctIds(p.open) && k !in done
    requires group != [] && group[0] in Refused(stage, p) && CandidateKey(stage, group[0]) == Some(k)
    requires View(x) == ConflictOf(stage, p, group[0])
    ensures DisjointConflicts(conflicts + [x])
  {
    forall y | y in conflicts
      ensures SetOf(y.candidateIds) !! SetOf(x.candidateIds)
    {
      var d :| d in Refused(stage, p) && Handled(stage, done, d) && View(y) == ConflictOf(stage, p, d);
      GroupsAreDisjoint(stage, p, d, group[0]);
      assert SetOf(y.candidateIds) == GroupIds(stage, p, d);
      assert SetOf(x.candidateIds) == GroupIds(stage, p, group[0]);
    }
    var after := conflicts + [x];
    forall i, j | 0 <= i < j < |after|
      ensures SetOf(after[i].candidateIds) !! SetOf(after[j].candidateIds)
    {
      if j == |conflicts| {
        assert conflicts[i] in conflicts;
      }
    }
  }

  lemma NoRefuseStep(stage: Stage, p: Pending, done: set<Key>, k: Key, conflicts: seq<Conflict>,
                     group: seq<Candidate>, rivals: seq<Binding>)
    requires IsGroupOf(stage, p, k, group, rivals)
    requires RefusedSoFar(stage, p, done, conflicts)
    requires !Decide(stage, |group|, |rivals|).Refuse?
    ensures RefusedSoFar(stage, p, done + {k}, conflicts)
  {
    forall c | c in Refused(stage, p) && Handled(stage, done + {k}, c)
      ensures Handled(stage, done, c)
    {
      if CandidateKey(stage, c) == Some(k) {
        DecideMeans(stage, p, k, group, rivals, c);
      }
    }
    forall y | y in conflicts
      ensures exists c :: c in Refused(stage, p) && Handled(stage, done + {k}, c) && View(y) == ConflictOf(stage, p, c)
    {
      var c :| c in Refused(stage, p) && Handled(stage, done, c) && View(y) == ConflictOf(stage, p, c);
      assert Handled(stage, done + {k}, c);
    }
  }

  lemma GroupsAreDisjoint(stage: Stage, p: Pending, c: Candidate, d: Candidate)
    requires DistinctIds(p.open) && CandidateKey(stage, c) != CandidateKey(stage, d)
    ensures GroupIds(stage, p, c) !! GroupIds(stage, p, d)
  {
  }

  /** What becomes of one group: claimed, refused or left open. */
  method SettleGroup(stage: Stage, ghost p: Pending, ghost done: set<Key>, ghost k: Key, group: seq<Candidate>,
                     rivals: seq<Binding>,
                     matched: map<string, string>, conflicts: seq<Conflict>)
    returns (matched': map<string, string>, conflicts': seq<Conflict>)
    requires IsGroupOf(stage, p, k, group, rivals) && DistinctIds(p.open) && k !in done
    requires MatchedSoFar(stage, p, done, matched) && RefusedSoFar(stage, p, done, conflicts)
    ensures MatchedSoFar(stage, p, done + {k}, matched') && RefusedSoFar(stage, p, done + {k}, conflicts')
  {
    matched', conflicts' := matched, conflicts;
    var verdict := Decide(stage, |group|, |rivals|);
    if verdict.Refuse? {
      RefuseStep(stage, p, done, k, conflicts, group, rivals);
      NoMatchStep(stage, p, done, k, matched, group, rivals);
      conflicts' := conflicts + [Conflict(CandidateIds(group), EntryIds(rivals), ReasonOf(stage))];
    } else if verdict.Assign? {
      MatchStep(stage, p, done, k, matched, group, rivals);
      NoRefuseStep(stage, p, done, k, conflicts, group, rivals);
      matched' := matched[group[0].id := rivals[0].entryId];
    } else {
      NoMatchStep(stage, p, done, k, matched, group, rivals);
      NoRefuseStep(stage, p, done, k, conflicts, group, rivals);
    }
  }

  method RunStage(stage: Stage, open: seq<Candidate>, previous: seq<Binding>, used: set<string>)
    returns (matched: map<string, string>, conflicts: seq<Conflict>)
    requires DistinctCandidates(open) && DistinctRows(previous)
    ensures var p := PendingOf(open, previous, used);
            && (forall c, b :: Pairs(stage, p, c, b) ==> c.id in matched && matched[c.id] == b.entryId)
            && (forall id :: id in matched ==> exists c, b :: Pairs(stage, p, c, b) && c.id == id)
            && Views(conflicts) == StageConflicts(stage, p)
    ensures DisjointConflicts(conflicts)
  {
    var keys, groups := GroupCandidates(stage, open);
    var rows := GroupBindings(stage, previous);
    matched, conflicts := map[], [];
    ghost var p := PendingOf(open, previous, used);
    ghost var done: set<Key> := {};
    for i := 0 to |keys|
      invariant done == SetOf(keys[..i])
      invariant MatchedSoFar(stage, p, done, matched) && RefusedSoFar(stage, p, done, conflicts)
    {
      var k := keys[i];
      OneKeyMore(keys, i);
      matched, conflicts := SettleKey(stage, done, k, open, previous, used, groups[k],
        if k in rows then rows[k] else [], matched, conflicts);
      done := done + {k};
    }
    NoKeyIsMissing(stage, open, keys, groups, done);
    EveryKeyIsHandled(stage, p, done, matched, conflicts);
  }

  /** One iteration: the group of key k against its rows that are still available. */
  method SettleKey(stage: Stage, ghost done: set<Key>, ghost k: Key, ghost open: seq<Candidate>,
                   ghost previous: seq<Binding>, used: set<string>, group: seq<Candidate>, rows: seq<Binding>,
                   matched: map<string, string>, conflicts: seq<Conflict>)
    returns (matched': map<string, string>, conflicts': seq<Conflict>)
    requires DistinctCandidates(open) && DistinctRows(previous) && k !in done
    requires group == GroupUnder(stage, k, open) && group != [] && rows == RowsUnder(stage, k, previous)
    requires var p := PendingOf(open, previous, used);
             MatchedSoFar(stage, p, done, matched) && RefusedSoFar(stage, p, done, conflicts)
    ensures var p := PendingOf(open, previous, used);
            MatchedSoFar(stage, p, done + {k}, matched') && RefusedSoFar(stage, p, done + {k}, conflicts')
  {
    ghost var p := PendingOf(open, previous, used);
    var rivals := Available(rows, used + matched.Values);
    OtherGroupsUseOtherRows(stage, p, open, previous, used, done, k, matched, group, rows, rivals);
    SeqHasDistinctIds(open);
    matched', conflicts' := SettleGroup(stage, p, done, k, group, rivals, matched, conflicts);
  }

  lemma OneKeyMore(keys: seq<Key>, i: nat)
    requires Distinct(keys) && i < |keys|
    ensures keys[i] !in SetOf(keys[..i]) && SetOf(keys[..i + 1]) == SetOf(keys[..i]) + {keys[i]}
  {
    assert keys[..i + 1] == keys[..i] + [keys[i]];
  }

  lemma NoKeyIsMissing(stage: Stage, open: seq<Candidate>, keys: seq<Key>, groups: map<Key, seq<Candidate>>,
                       done: set<Key>)
    requires done == SetOf(keys[..|keys|]) && forall k :: k in keys <==> k in groups
    requires forall k :: k !in groups ==> GroupUnder(stage, k, open) == []
    ensures forall c :: c in open && CandidateKey(stage, c).Some? ==> CandidateKey(stage, c).value in done
  {
    assert keys[..|keys|] == keys;
    forall c | c in open && CandidateKey(stage, c).Some?
      ensures CandidateKey(stage, c).value in done
    {
      assert c in GroupUnder(stage, CandidateKey(stage, c).value, open);
    }
  }

  lemma SeqHasDistinctIds(cs: seq<Candidate>)
    requires DistinctCandidates(cs)
    ensures DistinctIds(SetOf(cs))
  {
    forall c, d | c in cs && d in cs && c.id == d.id
      ensures c == d
    {
      SameIdSameCandidate(cs, c, d);
    }
  }

  lemma SeqHasDistinctEntries(bs: seq<Binding>)
    requires DistinctRows(bs)
    ensures DistinctEntries(SetOf(bs))
  {
    forall a, b | a in bs && b in bs && a.entryId == b.entryId
      ensures a == b
    {
      SameEntrySameRow(bs, a, b);
    }
  }

  lemma EveryKeyIsHandled(stage: Stage, p: Pending, done: set<Key>, matched: map<string, string>,
                          conflicts: seq<Conflict>)
    requires forall c :: c in p.open && CandidateKey(stage, c).Some? ==> CandidateKey(stage, c).value in done
    requires MatchedSoFar(stage, p, done, matched) && RefusedSoFar(stage, p, done, conflicts)
    ensures forall c, b :: Pairs(stage, p, c, b) ==> c.id in matched && matched[c.id] == b.entryId
    ensures forall id :: id in matched ==> exists c, b :: Pairs(stage, p, c, b) && c.id == id
    ensures Views(conflicts) == StageConflicts(stage, p)
  {
    forall c | c in Refused(stage, p)
      ensures ConflictOf(stage, p, c) in Views(conflicts)
    {
      assert Handled(stage, done, c);
    }
    forall c, b | Pairs(stage, p, c, b)
      ensures Handled(stage, done, c)
    {
    }
    assert forall v :: v in Views(conflicts) ==> v in StageConflicts(stage, p);
  }
}
