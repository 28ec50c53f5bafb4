/**
  What a replacement or a reload of the configuration does to the service, as a function of the
  state it starts in and of the schedule of write failures and cancellations, and exactly when the
  service ends ready with a live configuration that is not the durable one.
 */
module ConfigOutcome {
  import opened Wrappers
  import opened ConfigJournal
  import opened ConfigStore
  import opened Faults

  /** How applying a configuration to the executor can go; whatever fails may fail by being cancelled. */
  datatype ApplyOutcome =
    | Applied
    | AppliedThenCancelled
    | FailsEarly(cancelled: bool)
    | FailsQuiescing(cancelled: bool)
    | FailsActivated(cancelled: bool)

  /** What asking for a pending journal after a failed commit does. */
  datatype Probe = Answers | ReadFails | IsCancelled

  datatype Exit = Returns | Raises | Cancels | CancelsCommitted

  /** One schedule of faults and cancellations, operation by operation. */
  datatype Schedule = Schedule(
    admitted: bool,
    beginFaults: seq<Fault>, beginCancelled: bool,
    secretFaults: seq<Fault>, secretCancelled: seq<bool>,
    saveFault: Fault, saveCancelled: bool,
    apply: ApplyOutcome,
    commitFaults: seq<Fault>, commitCancelled: bool,
    probe: Probe,
    rollbackFaults: seq<Fault>, rollbackCancelled: bool,
    reapply: ApplyOutcome)

  /**
    The configuration in memory, the one a restart would load after recovery, the one that stands in
    the file now, and what the service advertises.
   */
  datatype State<C> = State(live: Option<C>, durable: Option<C>, file: Option<C>, ready: bool, reloaded: bool)

  /** How far a replacement gets before the candidate is applied. */
  datatype Progress = Unsaved | Saved | Complete

  ghost predicate Agrees<C>(now: State<C>) {
    now.ready ==> now.live == now.durable
  }

  predicate CancelledAt(cancelled: seq<bool>, i: nat) {
    i < |cancelled| && cancelled[i]
  }

  predicate SecretsWritten(n: nat, s: Schedule) {
    forall i :: 0 <= i < n ==> FaultAt(s.secretFaults, i).NoFault? && !CancelledAt(s.secretCancelled, i)
  }

  /** The replacement gets as far as saving the candidate: nothing stands in the way, fails or is cancelled before. */
  predicate Saves(d: Disk, resolve: Resolver, target: string, names: seq<string>, s: Schedule) {
    && s.admitted
    && BeginProblem(d, resolve, target, names).None? && Clean(2, s.beginFaults) && !s.beginCancelled
    && OwnFiles(resolve, names)
    && SecretsWritten(|names|, s)
  }

  function HowFar(d: Disk, resolve: Resolver, target: string, names: seq<string>, s: Schedule): Progress {
    if !Saves(d, resolve, target, names, s) || s.saveFault.RaisesBefore? then Unsaved
    else if s.saveFault.RaisesAfter? || s.saveCancelled then Saved
    else Complete
  }

  /** The commit raised before the journal was unlinked, so the transaction is still pending. */
  predicate CommitMissed(s: Schedule) {
    FaultAt(s.commitFaults, 0).RaisesBefore?
  }

  /** The call that commits ended in an exception. */
  predicate CommitRaised(s: Schedule) {
    !FaultAt(s.commitFaults, 0).NoFault? || s.commitCancelled
  }

  /** The handler of a failed commit takes the transaction for pending and undoes it. */
  predicate Undoes(s: Schedule) {
    CommitRaised(s) && (s.probe.ReadFails? || (s.probe.Answers? && CommitMissed(s)))
  }

  /** How many file operations that undoing performs, for so many new secrets. */
  function RollbackSize(s: Schedule, secrets: nat): nat {
    if CommitMissed(s) then secrets + 3 else 1
  }

  /** What a rollback leaves in the file; its first operation restores it. */
  function RolledBack<C>(file: Option<C>, durable: Option<C>, faults: seq<Fault>): Option<C> {
    if FaultAt(faults, 0).RaisesBefore? then file else durable
  }

  /** Undoing, with the previous configuration at hand or not. */
  function AfterUndo<C>(previous: Option<C>, candidate: C, durable: Option<C>, secrets: nat, s: Schedule): State<C> {
    var file := RolledBack(Some(candidate), durable, s.rollbackFaults);
    if !Clean(RollbackSize(s, secrets), s.rollbackFaults) then State(Some(candidate), durable, file, false, false)
    else if s.rollbackCancelled then State(Some(candidate), durable, file, true, false)
    else if previous.None? then State(Some(candidate), durable, file, false, false)
    else
      match s.reapply
      case Applied => State(previous, durable, file, true, false)
      case AppliedThenCancelled => State(previous, durable, file, true, false)
      case FailsEarly(cancelled) => State(Some(candidate), durable, file, cancelled, false)
      case FailsQuiescing(_) => State(Some(candidate), durable, file, false, false)
      case FailsActivated(_) => State(previous, durable, file, false, false)
  }

  function DurableAfterCommit<C>(now: State<C>, candidate: C, s: Schedule): Option<C> {
    if CommitMissed(s) then now.durable else Some(candidate)
  }

  /** The candidate is live and the service ready: commit, and undo if that seems to have failed. */
  function AfterCommit<C>(now: State<C>, candidate: C, secrets: nat, s: Schedule): State<C> {
    var durable := DurableAfterCommit(now, candidate, s);
    if Undoes(s) then AfterUndo(now.live, candidate, durable, secrets, s)
    else
      State(Some(candidate), durable, Some(candidate), true,
            if CommitRaised(s) && s.probe.IsCancelled? then now.reloaded else true)
  }

  /** The whole replacement. */
  function AfterCall<C>(now: State<C>, candidate: C, how: Progress, secrets: nat, s: Schedule): State<C> {
    if !s.admitted then now
    else
      var stopped := if how.Unsaved? then now.file else Some(candidate);
      var undone := now.(file := RolledBack(stopped, now.durable, s.rollbackFaults), reloaded := false);
      if !how.Complete? then undone
      else
        match s.apply
        case Applied => AfterCommit(now, candidate, secrets, s)
        case AppliedThenCancelled =>
          State(Some(candidate), DurableAfterCommit(now, candidate, s), Some(candidate), true,
                !CommitRaised(s) || now.reloaded)
        case FailsEarly(_) => undone
        case FailsQuiescing(_) => undone.(ready := false)
        case FailsActivated(_) => undone.(live := Some(candidate), ready := false)
  }

  /** How the rest of a start goes: histories, identity, generations and results load; the control server starts. */
  datatype Startup = Startup(loads: bool, controls: bool)

  /** After a commit that did not raise, everything is the candidate. */
  lemma ReturnsAfterCommit<C>(now: State<C>, candidate: C, secrets: nat, s: Schedule)
    requires s.admitted && s.apply.Applied? && !CommitRaised(s)
    ensures AfterCall(now, candidate, Complete, secrets, s)
         == State(Some(candidate), Some(candidate), Some(candidate), true, true)
  {
  }

  /** A start in a new process, which recovers without a fault or not. */
  function AfterRestart<C>(before: State<C>, faults: seq<Fault>, recovers: bool, start: Startup, outcome: ApplyOutcome)
    : State<C>
  {
    var d := before.durable;
    var idle := State(None, d, RolledBack(before.file, d, faults), false, false);
    if !recovers || !start.loads || d.None? then idle
    else
      match outcome
      case Applied => idle.(live := d, ready := start.controls, reloaded := true)
      case AppliedThenCancelled => idle.(live := d)
      case FailsEarly(_) => idle
      case FailsQuiescing(_) => idle
      case FailsActivated(_) => idle.(live := d)
  }

  /** A reload of what stands in the file; it does not recover first. */
  function AfterReload<C>(now: State<C>, admitted: bool, outcome: ApplyOutcome): State<C> {
    if !admitted || outcome == FailsEarly(true) then now
    else if now.file.None? then now.(reloaded := false)
    else
      match outcome
      case Applied => now.(live := now.file, ready := true, reloaded := true)
      case AppliedThenCancelled => now.(live := now.file, ready := true, reloaded := true)
      case FailsEarly(_) => now.(reloaded := false)
      case FailsQuiescing(cancelled) => now.(ready := false, reloaded := cancelled && now.reloaded)
      case FailsActivated(cancelled) => now.(live := now.file, ready := false, reloaded := cancelled && now.reloaded)
  }

  // ---- When memory and disk come apart --------------------------------------------------------------

  /** The candidate never became live, and readiness was not given up. */
  predicate LeavesAlone(how: Progress, s: Schedule) {
    !how.Complete? || s.apply.FailsEarly?
  }

  /** The candidate is live and ready at the end. */
  predicate KeepsCandidate(hadConfig: bool, how: Progress, secrets: nat, s: Schedule) {
    && s.admitted && how.Complete?
    && (s.apply.AppliedThenCancelled?
        || (s.apply.Applied?
            && (!Undoes(s)
                || (Clean(RollbackSize(s, secrets), s.rollbackFaults)
                    && (s.rollbackCancelled || (hadConfig && s.reapply == FailsEarly(true)))))))
  }

  /** The previous configuration is live and ready again at the end. */
  predicate PutsBack(hadConfig: bool, how: Progress, secrets: nat, s: Schedule) {
    && s.admitted && how.Complete? && s.apply.Applied? && Undoes(s)
    && Clean(RollbackSize(s, secrets), s.rollbackFaults) && !s.rollbackCancelled && hadConfig
    && (s.reapply.Applied? || s.reapply.AppliedThenCancelled?)
  }

  /**
    Decided before the call: the schedule ends ready, and what it leaves live is not what it
    leaves durable. A candidate kept live was not committed, or a previous configuration put back
    is not what is on the disk.
   */
  ghost predicate Splits<C>(now: State<C>, candidate: C, how: Progress, secrets: nat, s: Schedule) {
    if !s.admitted || LeavesAlone(how, s) then !Agrees(now)
    else if KeepsCandidate(now.live.Some?, how, secrets, s) then CommitMissed(s) && now.durable != Some(candidate)
    else if PutsBack(now.live.Some?, how, secrets, s) then
      now.live != if CommitMissed(s) then now.durable else Some(candidate)
    else false
  }

  /** The law, from every start: live and durable configuration agree at the end of a call exactly unless it splits. */
  lemma AgreesUnlessItSplits<C>(now: State<C>, candidate: C, how: Progress, secrets: nat, s: Schedule)
    ensures Agrees(AfterCall(now, candidate, how, secrets, s)) <==> !Splits(now, candidate, how, secrets, s)
  {
  }

  /** From agreement, only two families of schedules split, and only if the candidate is a change. */
  lemma SplitsFromAgreement<C>(now: State<C>, candidate: C, how: Progress, secrets: nat, s: Schedule)
    requires now.live == now.durable
    ensures Splits(now, candidate, how, secrets, s) <==>
              && now.durable != Some(candidate)
              && ((KeepsCandidate(now.live.Some?, how, secrets, s) && CommitMissed(s))
                  || (PutsBack(now.live.Some?, how, secrets, s) && !CommitMissed(s)))
  {
  }

  /**
    While the journal can be read, an activated candidate whose commit took effect ends live and
    durable, from every start.
   */
  lemma CommittedNeverSplits<C>(now: State<C>, candidate: C, secrets: nat, s: Schedule)
    requires s.admitted && (s.apply.Applied? || s.apply.AppliedThenCancelled?)
    requires !CommitMissed(s) && !s.probe.ReadFails?
    ensures var after := AfterCall(now, candidate, Complete, secrets, s);
            after.live == after.durable == Some(candidate) && after.ready
  {
  }

  /** No cancellation after activation, and a readable journal. */
  predicate Uncancelled(s: Schedule) {
    !s.apply.AppliedThenCancelled? && s.probe.Answers? && !s.rollbackCancelled && s.reapply != FailsEarly(true)
  }

  /** Then no write failure splits an agreeing service, and a disagreeing one only by putting its configuration back. */
  lemma UncancelledSplitsOnlyByPuttingBack<C>(now: State<C>, candidate: C, how: Progress, secrets: nat, s: Schedule)
    requires Uncancelled(s) && Agrees(now)
    ensures Splits(now, candidate, how, secrets, s)
            <==> now.live != now.durable && PutsBack(now.live.Some?, how, secrets, s)
    ensures now.live == now.durable ==> Agrees(AfterCall(now, candidate, how, secrets, s))
  {
  }

  // ---- Reloads and the file --------------------------------------------------------------------------

  /**
    Decided before the reload: it leaves the service as it is, apart already, or makes live what
    recovery will undo.
   */
  ghost predicate ReloadSplits<C>(now: State<C>, admitted: bool, outcome: ApplyOutcome) {
    if !admitted || now.file.None? || outcome.FailsEarly? then !Agrees(now)
    else (outcome.Applied? || outcome.AppliedThenCancelled?) && now.file != now.durable
  }

  /** The law for a reload, from every start; an applied one repairs a service whose file is durable. */
  lemma ReloadAgreesUnlessItSplits<C>(now: State<C>, admitted: bool, outcome: ApplyOutcome)
    ensures Agrees(AfterReload(now, admitted, outcome)) <==> !ReloadSplits(now, admitted, outcome)
    ensures admitted && outcome.Applied? && now.file == now.durable && now.file.Some? ==>
              var after := AfterReload(now, admitted, outcome);
              after.ready && after.live == after.durable
  {
  }

  /** The replacement ends with a rollback. */
  predicate RollsBack(how: Progress, s: Schedule) {
    !how.Complete? || (!s.apply.Applied? && !s.apply.AppliedThenCancelled?) || (s.apply.Applied? && Undoes(s))
  }

  /**
    Decided before the call: the file is not durable after it. The rollback fails before it has
    restored the file, or there is none although the commit was missed.
   */
  ghost predicate LeavesFile<C>(now: State<C>, candidate: C, how: Progress, s: Schedule) {
    if !s.admitted then now.file != now.durable
    else if !RollsBack(how, s) then CommitMissed(s) && now.durable != Some(candidate)
    else
      && FaultAt(s.rollbackFaults, 0).RaisesBefore?
      && (how.Complete? && s.apply.Applied? ==> CommitMissed(s))
      && now.durable != if how.Unsaved? then now.file else Some(candidate)
  }

  lemma FileIsDurableUnlessLeft<C>(now: State<C>, candidate: C, how: Progress, secrets: nat, s: Schedule)
    ensures var after := AfterCall(now, candidate, how, secrets, s);
            after.file == after.durable <==> !LeavesFile(now, candidate, how, s)
  {
  }
}
