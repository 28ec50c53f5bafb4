/**
  Replacing the configuration through the running service: the journal on disk, the live
  configuration in memory, and the readiness the service advertises, under every placement of
  write failures and deferred cancellations.
 */
module ConfigService {
  import opened Wrappers
  import opened ConfigJournal
  import opened ConfigStore
  import opened ConfigOutcome
  import opened Faults

  class Service<C(==,!new)> {
    const store: DataStore
    const target: string
    const dump: C -> string
    const parse: string -> Option<C>
    var config: Option<C>
    var ready: bool
    var reloadSuccess: bool
    var stopping: bool

    constructor (store: DataStore, target: string, dump: C -> string, parse: string -> Option<C>)
      ensures this.store == store && this.target == target && this.dump == dump && this.parse == parse
      ensures config == None && !ready && !reloadSuccess && !stopping
    {
      this.store, this.target, this.dump, this.parse := store, target, dump, parse;
      config, ready, reloadSuccess, stopping := None, false, false, false;
    }

    ghost predicate Valid()
      reads this, store
    {
      && Recoverable(store.disk, store.resolve, target)
      && (forall c: C {:trigger dump(c)} :: parse(dump(c)) == Some(c))
    }

    /** The configuration a restart would load: recovery first, then the file. */
    ghost function Durable(): Option<C>
      requires Recoverable(store.disk, store.resolve, target)
      reads this, store
    {
      ConfigOf(Recovered(store.disk, store.resolve, target).files)
    }

    ghost function ConfigOf(files: map<File, string>): Option<C>
      reads this
    {
      if ConfigAt(target) in files then parse(files[ConfigAt(target)]) else None
    }

    ghost function Now(): State<C>
      requires Recoverable(store.disk, store.resolve, target)
      reads this, store
    {
      State(config, Durable(), InFile(), ready, reloadSuccess)
    }

    /** All files a restart would find after recovery. */
    ghost function Files(): map<File, string>
      requires Recoverable(store.disk, store.resolve, target)
      reads this, store
    {
      Recovered(store.disk, store.resolve, target).files
    }

    /** The files before, with the candidate and every new secret under its own file, and nothing else changed. */
    ghost predicate Stores(before: map<File, string>, after: map<File, string>, candidate: C, names: seq<string>,
                           values: map<string, string>)
      requires forall n :: n in names ==> n in values
      reads this
    {
      && ConfigAt(target) in after && after[ConfigAt(target)] == dump(candidate)
      && (forall n :: n in names ==> store.resolve(n).Some?
                                     && Secret(store.resolve(n).value) in after
                                     && after[Secret(store.resolve(n).value)] == values[n])
      && (forall f :: f != ConfigAt(target) && (forall n :: n in names ==> f != Secret(store.resolve(n).value)) ==>
            (f in after <==> f in before) && (f in after ==> after[f] == before[f]))
    }

    /** The configuration that stands in the file, whatever recovery would make of it. */
    ghost function InFile(): Option<C>
      reads this, store
    {
      ConfigOf(store.disk.files)
    }

    /** Without a pending journal the file is durable. */
    lemma FileIsDurable()
      requires Valid() && store.disk.journal == None
      ensures InFile() == Durable()
    {
      RecoveredIs(store.disk, store.resolve, target);
    }

    /** Validate, quiesce the old executor, swap, activate. */
    method ApplyConfig(c: C, outcome: ApplyOutcome) returns (exit: Exit)
      modifies this`config, this`ready
      ensures exit == match outcome
                      case Applied => Returns
                      case AppliedThenCancelled => CancelsCommitted
                      case _ => if outcome.cancelled then Cancels else Raises
      ensures config == if outcome.FailsEarly? || outcome.FailsQuiescing? then old(config) else Some(c)
      ensures ready == if outcome.FailsEarly? then old(ready)
                       else (outcome.Applied? || outcome.AppliedThenCancelled?) && !stopping
    {
      if outcome.FailsEarly? {
        return if outcome.cancelled then Cancels else Raises;
      }
      ready := false;
      if outcome.FailsQuiescing? {
        return if outcome.cancelled then Cancels else Raises;
      }
      config := Some(c);
      if outcome.FailsActivated? {
        return if outcome.cancelled then Cancels else Raises;
      }
      ready := !stopping;
      exit := if outcome.AppliedThenCancelled? then CancelsCommitted else Returns;
    }

    /** Begin, write the secrets, save the candidate: nothing of it is final yet. */
    method Prepare(candidate: C, names: seq<string>, values: map<string, string>, s: Schedule) returns (ok: bool)
      requires Valid() && s.admitted && forall n :: n in names ==> n in values
      modifies store
      ensures Valid()
      ensures ok <==> HowFar(old(store.disk), store.resolve, target, names, s).Complete?
      ensures Recovered(store.disk, store.resolve, target) == Recovered(old(store.disk), store.resolve, target)
      ensures ok ==> Pending(store.disk, names, candidate)
      ensures ok ==> Stores(old(Files()), store.disk.files - {Backup}, candidate, names, values)
      ensures InFile() == if HowFar(old(store.disk), store.resolve, target, names, s).Unsaved? then old(InFile())
                          else Some(candidate)
    {
      var begun := Begin(names, values, candidate, s);
      if !begun {
        return false;
      }
      ghost var d2 := store.disk;
      ok := WriteSecrets(names, values, s);
      TouchedFilesDoNotMatter(d2, store.disk, store.resolve, target);
      if !ok {
        return;
      }
      ghost var d3 := store.disk;
      var saved := store.Do(Write(ConfigAt(target), dump(candidate)), s.saveFault);
      TouchedFilesDoNotMatter(d2, store.disk, store.resolve, target);
      ok := saved && !s.saveCancelled;
      if ok {
        EverythingStored(old(Files()), d2.files - {Backup}, d3.files, candidate, names, values);
      }
    }

    lemma EverythingStored(before: map<File, string>, begun: map<File, string>, written: map<File, string>,
                           candidate: C, names: seq<string>, values: map<string, string>)
      requires AllResolve(store.resolve, names) && forall n :: n in names ==> n in values
      requires begun == before && Backup !in begun
      requires AgreeOutside(begun, written - {Backup}, SecretFiles(store.resolve, names))
      requires forall n :: n in names ==>
                 FileOf(store.resolve, n) in written && written[FileOf(store.resolve, n)] == values[n]
      ensures Stores(before, written[ConfigAt(target) := dump(candidate)] - {Backup}, candidate, names, values)
    {
      forall f | f != ConfigAt(target) && forall n :: n in names ==> f != Secret(store.resolve(n).value)
        ensures f !in SecretFiles(store.resolve, names)
      {
      }
    }

    /** Begin means nothing yet, and leaves the files of the new secrets absent. */
    method Begin(names: seq<string>, values: map<string, string>, ghost candidate: C, s: Schedule) returns (ok: bool)
      requires Valid() && forall n :: n in names ==> n in values
      modifies store
      ensures Valid()
      ensures ok <==> BeginProblem(old(store.disk), store.resolve, target, names).None?
                      && Clean(2, s.beginFaults) && !s.beginCancelled
      ensures Recovered(store.disk, store.resolve, target) == Recovered(old(store.disk), store.resolve, target)
      ensures ok ==> AllResolve(store.resolve, names) && HasPending(store.disk, store.resolve, target) == Ok(true)
                     && store.disk.journal.value.record.secretNames == names
                     && forall f :: f in SecretFiles(store.resolve, names) ==> f !in store.disk.files
      ensures ok ==> store.disk.files - {Backup} == old(Files())
      ensures InFile() == old(InFile())
    {
      ghost var d0 := store.disk;
      var begun := store.BeginConfigReplace(target, names, s.beginFaults);
      RunKeeps(d0, BeginOps(d0, target, names)[..DoneOps(2, s.beginFaults)], ConfigAt(target));
      if BeginProblem(d0, store.resolve, target, names).None? {
        BegunPrefix(d0, store.resolve, target, Change(names, values, dump(candidate)), s.beginFaults);
      }
      ok := begun.Ok? && !s.beginCancelled;
      if ok {
        BegunSecrets(d0, store.resolve, target, names);
        CleanDoesAll(2, s.beginFaults);
        assert BeginOps(d0, target, names)[..2] == BeginOps(d0, target, names);
        BegunFiles(d0, target, names);
        RecoveredIs(d0, store.resolve, target);
      }
    }

    /** The transaction is prepared to the end. */
    ghost predicate Pending(d: Disk, names: seq<string>, candidate: C)
      reads this
    {
      && HasPending(d, store.resolve, target) == Ok(true)
      && d.journal.value.record.secretNames == names
      && ConfigAt(target) in d.files && d.files[ConfigAt(target)] == dump(candidate)
    }

    /** All secrets get written exactly if no two share a file and nothing fails or is cancelled. */
    method WriteSecrets(names: seq<string>, values: map<string, string>, s: Schedule) returns (ok: bool)
      requires AllResolve(store.resolve, names) && forall n :: n in names ==> n in values
      requires forall f :: f in SecretFiles(store.resolve, names) ==> f !in store.disk.files
      modifies store
      ensures store.disk.journal == old(store.disk).journal
      ensures AgreeOutside(old(store.disk).files, store.disk.files, SecretFiles(store.resolve, names))
      ensures ok <==> OwnFiles(store.resolve, names) && SecretsWritten(|names|, s)
      ensures ok ==> forall n :: n in names ==>
                FileOf(store.resolve, n) in store.disk.files && store.disk.files[FileOf(store.resolve, n)] == values[n]
    {
      NoneThereYet(store.disk.files, store.resolve, names, values);
      for i := 0 to |names|
        invariant store.disk.journal == old(store.disk).journal
        invariant AgreeOutside(old(store.disk).files, store.disk.files, SecretFiles(store.resolve, names))
        invariant WrittenSoFar(store.disk.files, store.resolve, names, values, i) && SecretsWritten(i, s)
      {
        ghost var before := store.disk.files;
        var written := store.WriteNewSecret(names[i], values[names[i]], FaultAt(s.secretFaults, i));
        WritesOneMore(before, store.disk.files, store.resolve, names, values, i);
        OneMoreGoesWell(i, |names|, s);
        if written.Raise? || (i < |s.secretCancelled| && s.secretCancelled[i]) {
          return false;
        }
      }
      ok := true;
    }

    /**
      Roll the journal back. The meaning of the disk never changes, and without a failure nothing
      is pending any more.
     */
    method Rollback(faults: seq<Fault>) returns (ok: bool)
      requires Valid()
      modifies store
      ensures Valid()
      ensures Recovered(store.disk, store.resolve, target) == Recovered(old(store.disk), store.resolve, target)
      ensures ok <==> Clean(|RecoverOps(old(store.disk), store.resolve, target).value|, faults)
      ensures FaultAt(faults, 0).RaisesBefore? ==> store.disk == old(store.disk)
      ensures ok ==> store.disk.journal == None
      ensures InFile() == RolledBack(old(InFile()), Durable(), faults)
    {
      ghost var d := store.disk;
      ghost var ops := RecoverOps(d, store.resolve, target).value;
      RollbackEnds(d, faults);
      InterruptedRecoveryKeepsMeaning(d, store.resolve, target, DoneOps(|ops|, faults));
      if !FaultAt(faults, 0).RaisesBefore? {
        FirstRestores(d, faults);
      }
      var r := store.RecoverConfigReplace(target, faults);
      ok := r.Ok?;
    }

    /** Recovery restores the configuration first, and does not touch it again. */
    lemma FirstRestores(d: Disk, faults: seq<Fault>)
      requires Recoverable(d, store.resolve, target) && !FaultAt(faults, 0).RaisesBefore?
      ensures var ops := RecoverOps(d, store.resolve, target).value; var k := DoneOps(|ops|, faults);
              ConfigOf(Run(d, ops[..k]).files) == ConfigOf(Recovered(d, store.resolve, target).files)
    {
      var ops := RecoverOps(d, store.resolve, target).value;
      var k := DoneOps(|ops|, faults);
      SomeAreDone(|ops|, faults);
      RestKeeps(d, ops, k, ConfigAt(target));
    }

    lemma RollbackEnds(d: Disk, faults: seq<Fault>)
      requires Recoverable(d, store.resolve, target)
      ensures var ops := RecoverOps(d, store.resolve, target).value; var k := DoneOps(|ops|, faults);
              && (FaultAt(faults, 0).RaisesBefore? ==> Run(d, ops[..k]) == d)
              && (Clean(|ops|, faults) ==> Run(d, ops[..k]).journal == None)
    {
      var ops := RecoverOps(d, store.resolve, target).value;
      if FaultAt(faults, 0).RaisesBefore? {
        FaultStops(|ops|, 0, faults);
        assert ops[..0] == [];
      } else if Clean(|ops|, faults) {
        CleanDoesAll(|ops|, faults);
        assert ops[..|ops|] == ops;
        RecoveredIs(d, store.resolve, target);
      }
    }

    /**
      Start in a new process: recover, load what is durable, apply it. Only a configuration that
      was loaded and applied makes the service ready.
     */
    method Restart(faults: seq<Fault>, start: Startup, outcome: ApplyOutcome) returns (exit: Exit)
      requires Valid()
      modifies this, store
      ensures Valid()
      ensures Now() == AfterRestart(old(Now()), faults, old(RecoversCleanly(faults)), start, outcome)
      ensures Agrees(Now()) && (ready ==> !stopping) && (stopping <==> !exit.Returns?)
      ensures Files() == old(Files())
      ensures old(RecoversCleanly(faults)) ==> store.disk.journal == None
    {
      config, ready, reloadSuccess, stopping := None, false, false, false;
      exit := Launch(faults, start, outcome);
      if !exit.Returns? {
        stopping, ready := true, false;
      }
    }

    method Launch(faults: seq<Fault>, start: Startup, outcome: ApplyOutcome) returns (exit: Exit)
      requires Valid() && config == None && !ready && !reloadSuccess && !stopping
      modifies this`config, this`ready, this`reloadSuccess, store
      ensures Valid()
      ensures Now().(ready := ready && exit.Returns?)
           == AfterRestart(old(Now()), faults, old(RecoversCleanly(faults)), start, outcome)
      ensures Files() == old(Files())
      ensures old(RecoversCleanly(faults)) ==> store.disk.journal == None
    {
      var recovered := Rollback(faults);
      if !recovered || !start.loads {
        return Raises;
      }
      RecoveredIs(store.disk, store.resolve, target);
      var loaded := if ConfigAt(target) in store.disk.files then parse(store.disk.files[ConfigAt(target)]) else None;
      if loaded.Some? {
        var applied := ApplyConfig(loaded.value, outcome);
        if applied.Cancels? || applied.CancelsCommitted? {
          return Cancels;
        }
        reloadSuccess := applied.Returns?;
      }
      exit := if start.controls then Returns else Raises;
    }

    ghost predicate RecoversCleanly(faults: seq<Fault>)
      requires Recoverable(store.disk, store.resolve, target)
      reads this, store
    {
      Clean(|RecoverOps(store.disk, store.resolve, target).value|, faults)
    }

    /** Shutdown takes readiness away before anything else, also from a replacement that is under way. */
    method Shutdown()
      requires Valid()
      modifies this`ready, this`stopping
      ensures Valid() && stopping && Now() == old(Now()).(ready := false)
    {
      stopping, ready := true, false;
    }

    /** Commit a prepared transaction: once the journal is unlinked the disk means the candidate. */
    method Commit(names: seq<string>, faults: seq<Fault>, ghost candidate: C) returns (ok: bool)
      requires Valid() && Pending(store.disk, names, candidate)
      modifies store
      ensures Valid()
      ensures ok <==> FaultAt(faults, 0).NoFault?
      ensures FaultAt(faults, 0).RaisesBefore? ==> store.disk == old(store.disk)
      ensures !FaultAt(faults, 0).RaisesBefore? ==> store.disk.journal == None && Durable() == Some(candidate)
      ensures InFile() == Some(candidate)
      ensures Files() == if FaultAt(faults, 0).RaisesBefore? then old(Files()) else old(store.disk).files - {Backup}
    {
      ghost var d := store.disk;
      ghost var k := DoneOps(2, faults);
      CommitPrefix(d, faults);
      var r := store.CommitConfigReplace(target, faults);
      if k > 0 {
        RecoveredIs(store.disk, store.resolve, target);
      }
      ok := r.Ok?;
    }

    /** A stopping service admits nothing. */
    ghost function Asked(s: Schedule): Schedule
      reads this
    {
      s.(admitted := s.admitted && !stopping)
    }

    /** How far a call of replace_config gets before applying; decided by the disk and the schedule before it. */
    ghost function WillGet(names: seq<string>, s: Schedule): Progress
      reads this, store
    {
      HowFar(store.disk, store.resolve, target, names, Asked(s))
    }

    /** Whether it gets to apply its candidate. */
    ghost predicate WillPrepare(names: seq<string>, s: Schedule)
      reads this, store
    {
      WillGet(names, s).Complete?
    }

    /** The journal of the prepared and activated candidate gets unlinked. */
    ghost predicate WillCommit(names: seq<string>, s: Schedule)
      reads this, store
    {
      WillPrepare(names, s) && (s.apply.Applied? || s.apply.AppliedThenCancelled?)
      && !FaultAt(s.commitFaults, 0).RaisesBefore?
    }

    /** The rollback of a commit that missed fails at once. */
    ghost predicate StaysPending(names: seq<string>, s: Schedule)
      reads this, store
    {
      WillPrepare(names, s) && s.apply.Applied? && Undoes(s) && CommitMissed(s) &&
        FaultAt(s.rollbackFaults, 0).RaisesBefore?
    }

    /**
      Replace the configuration. The contract gives the live and the durable configuration and the
      readiness after the call for every start and every schedule.
     */
    method ReplaceConfig(candidate: C, names: seq<string>, values: map<string, string>, s: Schedule)
      returns (exit: Exit)
      requires Valid() && forall n :: n in names ==> n in values
      modifies this, store
      ensures Valid() && stopping == old(stopping)
      ensures Now() == AfterCall(old(Now()), candidate, old(WillGet(names, s)), |names|, old(Asked(s)))
      // The law, and exactly where it stops.
      ensures Agrees(Now()) <==> !Splits(old(Now()), candidate, old(WillGet(names, s)), |names|, old(Asked(s)))
      ensures exit.Returns? <==> old(WillPrepare(names, s)) && s.apply.Applied? && !CommitRaised(s)
      // What a restart finds: the candidate with all its secrets, once the journal is unlinked, or the old files.
      ensures if old(WillCommit(names, s)) then Stores(old(Files()), Files(), candidate, names, values)
              else Files() == old(Files())
      // Success and refusal, outright.
      ensures exit.Returns? ==>
                ready && reloadSuccess && config == Some(candidate) && InFile() == Some(candidate)
                && Stores(old(Files()), Files(), candidate, names, values)
      ensures old(stopping) || !s.admitted ==>
                exit.Raises? && config == old(config) && ready == old(ready) && reloadSuccess == old(reloadSuccess)
                && store.disk == old(store.disk)
      ensures !old(stopping) && s.admitted && !old(WillPrepare(names, s)) ==>
                !exit.Returns? && config == old(config) && ready == old(ready) && !reloadSuccess
      // Whether a journal is left behind.
      ensures old(StaysPending(names, s)) ==> store.disk.journal.Some?
      ensures old(Asked(s)).admitted && !old(WillPrepare(names, s)) && s.rollbackFaults == [] ==>
                store.disk.journal == None
    {
      AgreesUnlessItSplits(Now(), candidate, WillGet(names, s), |names|, Asked(s));
      if stopping || !s.admitted {
        return Raises;
      }
      ghost var before := Now();
      exit := Replace(candidate, names, values, s);
      if exit.Returns? {
        ReturnsAfterCommit(before, candidate, |names|, s);
      }
    }

    method Replace(candidate: C, names: seq<string>, values: map<string, string>, s: Schedule) returns (exit: Exit)
      requires Valid() && !stopping && s.admitted && forall n :: n in names ==> n in values
      modifies this, store
      ensures Valid() && !stopping
      ensures Now() == AfterCall(old(Now()), candidate, old(WillGet(names, s)), |names|, s)
      ensures if old(WillCommit(names, s)) then Stores(old(Files()), Files(), candidate, names, values)
              else Files() == old(Files())
      ensures exit.Returns? <==> old(WillPrepare(names, s)) && s.apply.Applied? && !CommitRaised(s)
      ensures old(StaysPending(names, s)) ==> store.disk.journal.Some?
      ensures !old(WillPrepare(names, s)) && s.rollbackFaults == [] ==> store.disk.journal == None
    {
      assert Asked(s) == s;
      var previous := config;
      var prepared := Prepare(candidate, names, values, s);
      var applied := Raises;
      if prepared {
        applied := ApplyConfig(candidate, s.apply);
      }
      if applied.CancelsCommitted? {
        exit := CommitCancelled(candidate, names, s);
      } else if !applied.Returns? {
        exit := Reject(applied.Cancels?, s);
      } else {
        exit := CommitActivated(previous, candidate, names, s);
      }
    }

    /** The candidate is live, but the caller was cancelled meanwhile: commit, and pass the cancellation on. */
    method CommitCancelled(candidate: C, names: seq<string>, s: Schedule) returns (exit: Exit)
      requires Valid() && Pending(store.disk, names, candidate)
      modifies this`reloadSuccess, store
      ensures Valid() && !exit.Returns?
      ensures Now() == old(Now()).(durable := DurableAfterCommit(old(Now()), candidate, s), file := Some(candidate),
                                   reloaded := !CommitRaised(s) || old(reloadSuccess))
      ensures Files() == if CommitMissed(s) then old(Files()) else old(store.disk).files - {Backup}
    {
      var committed := Commit(names, s.commitFaults, candidate);
      if committed && !s.commitCancelled {
        reloadSuccess := true;
      }
      exit := if !committed then Raises else if s.commitCancelled then Cancels else CancelsCommitted;
    }

    /** The candidate was not applied to the end: roll back. */
    method Reject(cancelled: bool, s: Schedule) returns (exit: Exit)
      requires Valid()
      modifies this`reloadSuccess, store
      ensures Valid() && !exit.Returns?
      ensures Now() == old(Now()).(file := RolledBack(old(InFile()), old(Durable()), s.rollbackFaults),
                                   reloaded := false)
      ensures Files() == old(Files())
      ensures s.rollbackFaults == [] ==> store.disk.journal == None
    {
      reloadSuccess := false;
      var rolledBack := Rollback(s.rollbackFaults);
      exit := if cancelled || (rolledBack && s.rollbackCancelled) then Cancels else Raises;
    }

    /** The candidate is live and prepared on disk: commit it, or undo both. */
    method CommitActivated(previous: Option<C>, candidate: C, names: seq<string>, s: Schedule) returns (exit: Exit)
      requires Valid() && Pending(store.disk, names, candidate)
      requires config == Some(candidate) && ready && !stopping
      modifies this, store
      ensures Valid() && stopping == old(stopping)
      ensures Now() == AfterCommit(old(Now()).(live := previous), candidate, |names|, s)
      ensures Files() == if CommitMissed(s) then old(Files()) else old(store.disk).files - {Backup}
      ensures exit.Returns? <==> !CommitRaised(s)
      ensures Undoes(s) && CommitMissed(s) && FaultAt(s.rollbackFaults, 0).RaisesBefore? ==> store.disk.journal.Some?
    {
      var committed := Commit(names, s.commitFaults, candidate);
      if committed && !s.commitCancelled {
        reloadSuccess := true;
        return Returns;
      }
      exit := if committed then Cancels else Raises;
      if s.probe.IsCancelled? {
        return Cancels;
      }
      var pending := true;
      if s.probe.Answers? {
        var answer := store.HasPendingConfigReplace(target);
        pending := answer.Raise? || answer.value;
      }
      if !pending {
        reloadSuccess := true;
        return;
      }
      exit := Restore(previous, candidate, exit, names, s);
    }

    /** After a failed commit: roll back, then put the previous configuration back in place. */
    method Restore(previous: Option<C>, ghost candidate: C, failure: Exit, names: seq<string>, s: Schedule)
      returns (exit: Exit)
      requires Valid() && failure in {Raises, Cancels}
      requires CommitMissed(s) ==> Pending(store.disk, names, candidate)
      requires !CommitMissed(s) ==> store.disk.journal == None
      requires config == Some(candidate) == InFile() && ready && !stopping
      modifies this, store
      ensures Valid() && stopping == old(stopping)
      ensures Now() == AfterUndo(previous, candidate, old(Durable()), |names|, s)
      ensures Files() == old(Files())
      ensures !exit.Returns?
      ensures CommitMissed(s) && FaultAt(s.rollbackFaults, 0).RaisesBefore? ==> store.disk.journal.Some?
    {
      reloadSuccess := false;
      exit := failure;
      var rolledBack := Rollback(s.rollbackFaults);
      if !rolledBack {
        ready := false;
        return;
      }
      if s.rollbackCancelled {
        return Cancels;
      }
      if previous.None? {
        ready := false;
        return;
      }
      var reapplied := ApplyConfig(previous.value, s.reapply);
      if reapplied.Raises? {
        ready := false;
      } else if !reapplied.Returns? {
        return reapplied;
      }
    }

    /** Load what stands in the file and apply it. */
    method ReloadConfig(outcome: ApplyOutcome) returns (exit: Exit)
      requires Valid()
      modifies this
      ensures Valid() && stopping == old(stopping)
      ensures Now() == AfterReload(old(Now()), !stopping, outcome)
      ensures Agrees(Now()) <==> !ReloadSplits(old(Now()), !stopping, outcome)
      ensures exit.Returns? <==> !stopping && InFile().Some? && outcome.Applied?
    {
      ReloadAgreesUnlessItSplits(Now(), !stopping, outcome);
      if stopping {
        return Raises;
      }
      if outcome == FailsEarly(true) {
        return Cancels;
      }
      if ConfigAt(target) !in store.disk.files {
        reloadSuccess := false;
        return Raises;
      }
      var loaded := parse(store.disk.files[ConfigAt(target)]);
      if loaded.None? {
        reloadSuccess := false;
        return Raises;
      }
      exit := ApplyConfig(loaded.value, outcome);
      if !exit.Cancels? {
        reloadSuccess := !exit.Raises?;
      }
    }

    lemma CommitPrefix(d: Disk, faults: seq<Fault>)
      requires HasPending(d, store.resolve, target) == Ok(true)
      ensures CommitOps(d, store.resolve, target) == Ok([UnlinkJournal, Unlink(Backup)])
      ensures DoneOps(2, faults) == 0 <==> FaultAt(faults, 0).RaisesBefore?
      ensures var d' := Run(d, CommitOps(d, store.resolve, target).value[..DoneOps(2, faults)]);
              if DoneOps(2, faults) == 0 then d' == d
              else d'.journal == None && d'.files - {Backup} == d.files - {Backup}
    {
      var ops := [UnlinkJournal, Unlink(Backup)];
      var k := DoneOps(2, faults);
      if !FaultAt(faults, 0).NoFault? {
        FaultStops(2, 0, faults);
      }
      if k == 0 {
        assert ops[..k] == [];
      } else if k == 1 {
        assert ops[..k] == [UnlinkJournal];
        RunRest(d, ops[..k]);
      } else {
        assert ops[..k] == ops;
        RunLast(d);
      }
    }
  }

  /** Operations on other files leave a file alone. */
  lemma {:induction false} RunKeeps(d: Disk, ops: seq<Op>, f: File)
    requires forall i :: 0 <= i < |ops| ==> (ops[i].Write? || ops[i].Unlink? ==> ops[i].file != f)
    ensures f in Run(d, ops).files <==> f in d.files
    ensures f in d.files ==> Run(d, ops).files[f] == d.files[f]
    decreases |ops|
  {
    if ops != [] {
      RunKeeps(Apply(d, ops[0]), ops[1..], f);
    }
  }

  lemma RestKeeps(d: Disk, ops: seq<Op>, k: nat, f: File)
    requires k <= |ops|
    requires forall i :: k <= i < |ops| ==> (ops[i].Write? || ops[i].Unlink? ==> ops[i].file != f)
    ensures var part, whole := Run(d, ops[..k]).files, Run(d, ops).files;
            (f in part <==> f in whole) && (f in part ==> part[f] == whole[f])
  {
    assert ops == ops[..k] + ops[k..];
    RunAppend(d, ops[..k], ops[k..]);
    RunKeeps(Run(d, ops[..k]), ops[k..], f);
  }

  lemma SomeAreDone(n: nat, faults: seq<Fault>)
    requires n > 0 && !FaultAt(faults, 0).RaisesBefore?
    ensures DoneOps(n, faults) > 0
  {
    if FaultAt(faults, 0).RaisesAfter? {
      FaultStops(n, 0, faults);
    } else if n > 1 {
      SomeAreDone(n - 1, faults);
    }
  }

  ghost function FileOf(resolve: Resolver, name: string): File
    requires resolve(name).Some?
  {
    Secret(resolve(name).value)
  }

  /** The first i names have files of their own with their values, and of the secret files just these are there. */
  ghost predicate WrittenSoFar(files: map<File, string>, resolve: Resolver, names: seq<string>,
                               values: map<string, string>, i: nat)
    requires AllResolve(resolve, names) && i <= |names| && forall n :: n in names ==> n in values
  {
    && (forall j, k :: 0 <= j < k < i ==> resolve(names[j]) != resolve(names[k]))
    && (forall j :: 0 <= j < i ==>
          FileOf(resolve, names[j]) in files && files[FileOf(resolve, names[j])] == values[names[j]])
    && (forall k :: i <= k < |names| ==> (FileOf(resolve, names[k]) in files <==> Taken(resolve, names, i, k)))
  }

  ghost predicate Taken(resolve: Resolver, names: seq<string>, i: nat, k: nat)
    requires i <= k < |names|
  {
    exists j :: 0 <= j < i && resolve(names[j]) == resolve(names[k])
  }

  lemma NoneThereYet(files: map<File, string>, resolve: Resolver, names: seq<string>, values: map<string, string>)
    requires AllResolve(resolve, names) && forall n :: n in names ==> n in values
    requires forall f :: f in SecretFiles(resolve, names) ==> f !in files
    ensures WrittenSoFar(files, resolve, names, values, 0)
  {
    forall k | 0 <= k < |names|
      ensures FileOf(resolve, names[k]) !in files
    {
      assert names[k] in names && FileOf(resolve, names[k]) in SecretFiles(resolve, names);
    }
  }

  /** The next secret is refused exactly if an earlier one has its file. */
  lemma WritesOneMore(before: map<File, string>, after: map<File, string>, resolve: Resolver, names: seq<string>,
                      values: map<string, string>, i: nat)
    requires AllResolve(resolve, names) && i < |names| && forall n :: n in names ==> n in values
    requires WrittenSoFar(before, resolve, names, values, i)
    ensures names[i] in names && FileOf(resolve, names[i]) in SecretFiles(resolve, names)
    ensures FileOf(resolve, names[i]) in before ==> !OwnFiles(resolve, names)
    ensures FileOf(resolve, names[i]) !in before && after == before[FileOf(resolve, names[i]) := values[names[i]]] ==>
              WrittenSoFar(after, resolve, names, values, i + 1)
  {
    assert names[i] in names;
    forall k | i + 1 <= k < |names|
      ensures Taken(resolve, names, i + 1, k) <==> Taken(resolve, names, i, k) || resolve(names[i]) == resolve(names[k])
    {
    }
  }

  lemma OneMoreGoesWell(i: nat, n: nat, s: Schedule)
    requires i < n
    ensures SecretsWritten(i, s) ==>
              (SecretsWritten(i + 1, s)
               <==> FaultAt(s.secretFaults, i).NoFault? && !(i < |s.secretCancelled| && s.secretCancelled[i]))
    ensures SecretsWritten(n, s) ==> SecretsWritten(i + 1, s)
  {
    assert SecretsWritten(i + 1, s) ==>
        FaultAt(s.secretFaults, i).NoFault? && !CancelledAt(s.secretCancelled, i);
  }

  /** A successful begin leaves the files of the new secrets absent. */
  lemma BegunSecrets(d: Disk, resolve: Resolver, target: string, names: seq<string>)
    requires BeginProblem(d, resolve, target, names).None?
    ensures forall f :: f in SecretFiles(resolve, names) ==> f !in Run(d, BeginOps(d, target, names)).files
  {
    BegunDisk(d, target, names);
  }

  /** Begin, stopped anywhere, is a prefix of the preparation. */
  lemma BegunPrefix(d: Disk, resolve: Resolver, target: string, c: Change, faults: seq<Fault>)
    requires BeginProblem(d, resolve, target, c.names).None? && forall n :: n in c.names ==> n in c.values
    requires Recoverable(d, resolve, target)
    ensures var d' := Run(d, BeginOps(d, target, c.names)[..DoneOps(2, faults)]);
            && Recoverable(d', resolve, target)
            && Recovered(d', resolve, target) == Recovered(d, resolve, target)
            && (Clean(2, faults) ==> d'.journal == Some(Prepared(RecordOf(d, target, c.names))))
  {
    var begin := BeginOps(d, target, c.names);
    var k := DoneOps(2, faults);
    RecoveredIs(d, resolve, target);
    if k < 2 {
      HalfBegunStandsForOld(d, resolve, target, c, k);
    } else {
      assert begin[..k] == begin;
      BegunStandsForOld(d, resolve, target, c);
    }
    if Clean(2, faults) {
      CleanDoesAll(2, faults);
    }
  }
}
