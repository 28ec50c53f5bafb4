/**
  Replacements, reloads, restarts and shutdowns in any sequence: when a ready service runs what is
  durable, and runs in which it does not.
 */
module ConfigRuns {
  import opened Wrappers
  import opened ConfigJournal
  import opened ConfigStore
  import opened ConfigOutcome
  import opened ConfigService
  import opened Faults

  datatype Event<C> =
    | Replacement(candidate: C, names: seq<string>, values: map<string, string>, schedule: Schedule)
    | Reload(outcome: ApplyOutcome)
    | NewProcess(faults: seq<Fault>, start: Startup, outcome: ApplyOutcome)
    | ShutsDown

  /** What a step is, as decided before it begins. */
  datatype Action<C> =
    | Replaces(candidate: C, how: Progress, secrets: nat, schedule: Schedule)
    | Reloads(admitted: bool, outcome: ApplyOutcome)
    | Otherwise

  /** One step of a run: the state it starts in, what it is, the state it ends in. */
  datatype Step<C> = Step(before: State<C>, action: Action<C>, after: State<C>)

  /** Replacements and reloads do what ConfigOutcome says; other steps keep agreement, and a durable file. */
  ghost predicate IsStep<C>(t: Step<C>) {
    match t.action
    case Replaces(candidate, how, secrets, s) => t.after == AfterCall(t.before, candidate, how, secrets, s)
    case Reloads(admitted, outcome) => t.after == AfterReload(t.before, admitted, outcome)
    case Otherwise =>
      && (Agrees(t.before) ==> Agrees(t.after))
      && (t.before.file == t.before.durable ==> t.after.file == t.after.durable)
  }

  ghost predicate IsRun<C>(run: seq<Step<C>>) {
    && (forall i :: 0 <= i < |run| ==> IsStep(run[i]))
    && (forall i :: 0 <= i < |run| - 1 ==> run[i].after == run[i + 1].before)
  }

  ghost predicate StepSplits<C>(t: Step<C>) {
    match t.action
    case Replaces(candidate, how, secrets, s) => Splits(t.before, candidate, how, secrets, s)
    case Reloads(admitted, outcome) => ReloadSplits(t.before, admitted, outcome)
    case Otherwise => false
  }

  lemma StepAgrees<C>(t: Step<C>)
    requires IsStep(t)
    ensures if t.action.Otherwise? then Agrees(t.before) ==> Agrees(t.after) else Agrees(t.after) <==> !StepSplits(t)
  {
    match t.action
    case Replaces(candidate, how, secrets, s) => AgreesUnlessItSplits(t.before, candidate, how, secrets, s);
    case Reloads(admitted, outcome) => ReloadAgreesUnlessItSplits(t.before, admitted, outcome);
    case Otherwise =>
  }

  /** Up to its first splitting step a run from agreement agrees. */
  lemma {:induction false} AgreesUntilAStepSplits<C>(run: seq<Step<C>>, i: nat)
    requires IsRun(run) && i < |run| && Agrees(run[0].before) && forall j :: 0 <= j < i ==> !StepSplits(run[j])
    ensures Agrees(run[i].before)
  {
    if i > 0 {
      AgreesUntilAStepSplits(run, i - 1);
      StepAgrees(run[i - 1]);
      assert run[i - 1].after == run[i].before;
    }
  }

  /**
    Over every run from agreement: a ready service runs what is durable, at every moment, exactly
    if no replacement and no reload splits.
   */
  lemma RunAgreesUnlessAStepSplits<C>(run: seq<Step<C>>)
    requires IsRun(run) && run != [] && Agrees(run[0].before)
    ensures (forall i :: 0 <= i < |run| ==> Agrees(run[i].after))
        <==> (forall i :: 0 <= i < |run| ==> !StepSplits(run[i]))
  {
    forall i | 0 <= i < |run| && forall j :: 0 <= j < i ==> !StepSplits(run[j])
      ensures Agrees(run[i].after) <==> !StepSplits(run[i])
    {
      AgreesUntilAStepSplits(run, i);
      StepAgrees(run[i]);
    }
    if i :| 0 <= i < |run| && StepSplits(run[i]) {
      StepAgrees(run[i]);
    }
  }

  ghost predicate StepLeavesFile<C>(t: Step<C>) {
    t.action.Replaces? && LeavesFile(t.before, t.action.candidate, t.action.how, t.action.schedule)
  }

  /**
    As long as no replacement leaves its file behind, the file is durable, so that no reload splits
    an agreeing service.
   */
  lemma {:induction false} ReloadsSplitOnlyAfterAFileWasLeft<C>(run: seq<Step<C>>)
    requires IsRun(run) && run != [] && run[0].before.file == run[0].before.durable
    requires forall i :: 0 <= i < |run| ==> !StepLeavesFile(run[i])
    ensures forall i :: 0 <= i < |run| ==> run[i].before.file == run[i].before.durable
    ensures run[|run| - 1].after.file == run[|run| - 1].after.durable
    ensures forall i :: 0 <= i < |run| && run[i].action.Reloads? && Agrees(run[i].before) ==> !StepSplits(run[i])
  {
    var n := |run| - 1;
    if n > 0 {
      var front := run[..n];
      assert forall i :: 0 <= i < n ==> front[i] == run[i];
      ReloadsSplitOnlyAfterAFileWasLeft(front);
      assert run[n].before == front[n - 1].after;
    }
    if run[n].action.Replaces? {
      var a := run[n].action;
      FileIsDurableUnlessLeft(run[n].before, a.candidate, a.how, a.secrets, a.schedule);
    }
  }

  /**
    A step that does what write failures alone can do, and makes nothing live that is not durable:
    neither by putting it back nor by loading it.
   */
  ghost predicate Harmless<C>(t: Step<C>) {
    match t.action
    case Replaces(_, how, secrets, s) =>
      Uncancelled(s) && (PutsBack(t.before.live.Some?, how, secrets, s) ==> t.before.live == t.before.durable)
    case Reloads(admitted, outcome) => admitted ==> t.before.file == t.before.durable
    case Otherwise => true
  }

  /**
    Write failures anywhere do not split a run, as long as no replacement undoes its commit on a
    service that did not agree with the disk, and no reload loads a file that recovery will undo.
   */
  lemma {:induction false} HarmlessRunsAgree<C>(run: seq<Step<C>>)
    requires IsRun(run) && run != [] && Agrees(run[0].before) && forall i :: 0 <= i < |run| ==> Harmless(run[i])
    ensures forall i :: 0 <= i < |run| ==> Agrees(run[i].after)
  {
    var n := |run| - 1;
    if n > 0 {
      var front := run[..n];
      assert forall i :: 0 <= i < n ==> front[i] == run[i];
      HarmlessRunsAgree(front);
      assert run[n].before == front[n - 1].after;
    }
    HarmlessStepAgrees(run[n]);
  }

  lemma HarmlessStepAgrees<C>(t: Step<C>)
    requires IsStep(t) && Harmless(t) && Agrees(t.before)
    ensures Agrees(t.after)
  {
    StepAgrees(t);
    if t.action.Replaces? {
      var a := t.action;
      UncancelledSplitsOnlyByPuttingBack(t.before, a.candidate, a.how, a.secrets, a.schedule);
    }
  }

  ghost predicate Took<C>(t: Step<C>, e: Event<C>) {
    && (t.action.Replaces? <==> e.Replacement?)
    && (t.action.Reloads? <==> e.Reload?)
  }

  /** A run that leads from one state to another, by the first events. */
  ghost predicate Leads<C>(run: seq<Step<C>>, events: seq<Event<C>>, first: State<C>, last: State<C>) {
    && IsRun(run) && |run| <= |events|
    && (forall i :: 0 <= i < |run| ==> Took(run[i], events[i]))
    && if run == [] then first == last else run[0].before == first && run[|run| - 1].after == last
  }

  lemma LeadsOn<C>(run: seq<Step<C>>, events: seq<Event<C>>, first: State<C>, last: State<C>, t: Step<C>)
    requires Leads(run, events, first, last) && |run| < |events|
    requires IsStep(t) && Took(t, events[|run|]) && t.before == last
    ensures Leads(run + [t], events, first, t.after)
  {
  }

  /** The service makes such runs, whatever the sequence of events. */
  method RunEvents<C(==,!new)>(service: Service<C>, events: seq<Event<C>>) returns (ghost run: seq<Step<C>>)
    requires service.Valid() && forall e :: e in events && e.Replacement? ==> forall n :: n in e.names ==> n in e.values
    modifies service, service.store
    ensures service.Valid() && |run| == |events| && Leads(run, events, old(service.Now()), service.Now())
    ensures Agrees(old(service.Now())) && (forall i :: 0 <= i < |run| ==> !StepSplits(run[i])) ==> Agrees(service.Now())
  {
    run := [];
    for k := 0 to |events|
      invariant service.Valid() && |run| == k && Leads(run, events, old(service.Now()), service.Now())
    {
      assert events[k] in events;
      ghost var last := service.Now();
      ghost var step := Happen(service, events[k]);
      LeadsOn(run, events, old(service.Now()), last, step);
      run := run + [step];
    }
    if run != [] && Agrees(old(service.Now())) {
      RunAgreesUnlessAStepSplits(run);
    }
  }

  method Happen<C(==,!new)>(service: Service<C>, e: Event<C>) returns (ghost step: Step<C>)
    requires service.Valid() && (e.Replacement? ==> forall n :: n in e.names ==> n in e.values)
    modifies service, service.store
    ensures service.Valid() && IsStep(step) && Took(step, e)
    ensures step.before == old(service.Now()) && step.after == service.Now()
  {
    ghost var before := service.Now();
    ghost var action := Otherwise;
    match e {
      case Replacement(candidate, names, values, s) =>
        action := Replaces(candidate, service.WillGet(names, s), |names|, service.Asked(s));
        var _ := service.ReplaceConfig(candidate, names, values, s);
      case Reload(outcome) =>
        action := Reloads(!service.stopping, outcome);
        var _ := service.ReloadConfig(outcome);
      case NewProcess(faults, start, outcome) => var _ := service.Restart(faults, start, outcome);
      case ShutsDown => service.Shutdown();
    }
    step := Step(before, action, service.Now());
  }

  // ---- Runs that split ------------------------------------------------------------------------------

  /** A schedule on which nothing fails. */
  const SMOOTH := Schedule(true, [], false, [], [], NoFault, false, Applied, [], false, Answers, [], false, Applied)

  /** A service that runs the durable configuration "old". */
  method Running() returns (service: Service<string>)
    ensures fresh(service) && fresh(service.store) && Plain(service)
    ensures service.Now() == State(Some("old"), Some("old"), Some("old"), true, true)
    ensures service.store.disk.journal == None
  {
    var store := new DataStore(Disk(map[ConfigAt("c") := "old"], None), name => None);
    service := new Service(store, "c", text => text, text => Some(text));
    CleanDiskIsRecoverable(store.disk, store.resolve, "c");
    assert service.Durable() == Some("old");
    var _ := service.Restart([], Startup(true, true), Applied);
  }

  /** Configurations are plain texts. */
  ghost predicate Plain(service: Service<string>)
    reads service, service.store
  {
    service.Valid() && !service.stopping && forall text ::
      service.parse(text) == Some(text) && service.dump(text) == text
  }

  /** Without a journal, a replacement without secrets gets to apply its candidate. */
  lemma PreparesSmoothly(service: Service<string>, s: Schedule)
    requires Plain(service) && service.store.disk.journal == None && service.Durable() == Some("old")
    requires s.admitted && s.beginFaults == [] && !s.beginCancelled && s.saveFault.NoFault? && !s.saveCancelled
    ensures service.WillPrepare([], s)
  {
    SavesSmoothly(service, s);
  }

  lemma SavesSmoothly(service: Service<string>, s: Schedule)
    requires Plain(service) && service.store.disk.journal == None && service.Durable() == Some("old")
    requires s.admitted && s.beginFaults == [] && !s.beginCancelled
    ensures Saves(service.store.disk, service.store.resolve, service.target, [], service.Asked(s))
  {
    RecoveredIs(service.store.disk, service.store.resolve, service.target);
  }

  /** The commit fails in the branch that follows a cancellation after the live swap. */
  method CommitFailsAfterCancellation() returns (service: Service<string>)
    ensures fresh(service) && Plain(service)
    ensures service.Now() == State(Some("new"), Some("old"), Some("new"), true, true)
  {
    service := Running();
    var s := SMOOTH.(apply := AppliedThenCancelled, commitFaults := [RaisesBefore]);
    PreparesSmoothly(service, s);
    var _ := service.ReplaceConfig("new", [], map[], s);
  }

  /** A cancellation is delivered while the rollback of a missed commit runs. */
  method RollbackIsCancelled() returns (service: Service<string>)
    ensures fresh(service) && Plain(service)
    ensures service.Now() == State(Some("new"), Some("old"), Some("old"), true, false)
  {
    service := Running();
    var s := SMOOTH.(commitFaults := [RaisesBefore], rollbackCancelled := true);
    PreparesSmoothly(service, s);
    var _ := service.ReplaceConfig("new", [], map[], s);
  }

  /** A cancellation is delivered while a missed commit is being probed. */
  method ProbeIsCancelled() returns (service: Service<string>)
    ensures fresh(service) && Plain(service)
    ensures service.Now() == State(Some("new"), Some("old"), Some("new"), true, true)
  {
    service := Running();
    var s := SMOOTH.(commitFaults := [RaisesBefore], probe := IsCancelled);
    PreparesSmoothly(service, s);
    var _ := service.ReplaceConfig("new", [], map[], s);
  }

  /** A cancellation is delivered before the previous configuration, to be put back, was applied. */
  method PuttingBackIsCancelled() returns (service: Service<string>)
    ensures fresh(service) && Plain(service)
    ensures service.Now() == State(Some("new"), Some("old"), Some("old"), true, false)
  {
    service := Running();
    var s := SMOOTH.(commitFaults := [RaisesBefore], reapply := FailsEarly(true));
    PreparesSmoothly(service, s);
    var _ := service.ReplaceConfig("new", [], map[], s);
  }

  /** The commit took effect but reported a failure, and then the journal cannot be looked at. */
  method JournalCannotBeRead() returns (service: Service<string>)
    ensures fresh(service) && Plain(service)
    ensures service.Now() == State(Some("old"), Some("new"), Some("new"), true, false)
  {
    service := Running();
    var s := SMOOTH.(commitFaults := [RaisesAfter], probe := ReadFails);
    PreparesSmoothly(service, s);
    var _ := service.ReplaceConfig("new", [], map[], s);
  }

  /**
    Write failures alone, over three calls: a commit and its rollback fail, leaving the service not
    ready with a configuration that is not durable; the next call is refused, and its handler
    clears the journal; the third call's commit fails, and undoing it puts that configuration back.
   */
  method ThreeWriteFailures() returns (service: Service<string>)
    ensures fresh(service) && Plain(service)
    ensures service.Now() == State(Some("new"), Some("old"), Some("old"), true, false)
  {
    service := CommitAndRollbackFail();
    HandlerClearsJournal(service);
    var third := SMOOTH.(commitFaults := [RaisesBefore]);
    PreparesSmoothly(service, third);
    var _ := service.ReplaceConfig("newest", [], map[], third);
  }

  method CommitAndRollbackFail() returns (service: Service<string>)
    ensures fresh(service) && fresh(service.store) && Plain(service) && service.store.disk.journal.Some?
    ensures service.Now() == State(Some("new"), Some("old"), Some("new"), false, false)
  {
    service := Running();
    var s := SMOOTH.(commitFaults := [RaisesBefore], rollbackFaults := [RaisesBefore]);
    PreparesSmoothly(service, s);
    var _ := service.ReplaceConfig("new", [], map[], s);
  }

  method HandlerClearsJournal(service: Service<string>)
    requires Plain(service) && service.store.disk.journal.Some?
    modifies service, service.store
    ensures Plain(service) && service.store.disk.journal == None
    ensures service.Now() == old(service.Now()).(file := old(service.Durable()), reloaded := false)
  {
    assert service.WillGet([], SMOOTH).Unsaved?;
    var _ := service.ReplaceConfig("newer", [], map[], SMOOTH);
  }

  /**
    Two write failures in one call and a reload: the candidate's file is saved with a failure, its
    rollback fails before it has restored the file, and the reload makes live what recovery undoes.
   */
  method ReloadOfALeftFile() returns (service: Service<string>)
    ensures fresh(service) && Plain(service)
    ensures service.Now() == State(Some("new"), Some("old"), Some("new"), true, true)
  {
    service := Running();
    var s := SMOOTH.(saveFault := RaisesAfter, rollbackFaults := [RaisesBefore]);
    SavesSmoothly(service, s);
    var _ := service.ReplaceConfig("new", [], map[], s);
    assert service.Now() == State(Some("old"), Some("old"), Some("new"), true, false);
    var _ := service.ReloadConfig(Applied);
  }
}
