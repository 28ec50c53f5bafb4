/**
  The data store's configuration transaction, one file operation after the other, under injected
  file-system faults. Every method is proved to perform exactly the operations that ConfigJournal
  lists for it, up to the first fault.
 */
module ConfigStore {
  import opened Wrappers
  import opened ConfigJournal
  import opened Faults

  datatype Failure = Refused(error: StorageError) | IoError

  /** How many of n operations take effect, stopping at the first fault. */
  function DoneOps(n: nat, faults: seq<Fault>): (k: nat)
    ensures k <= n
  {
    if n == 0 then 0
    else
      var k := DoneOps(n - 1, faults);
      if k < n - 1 || !Clean(n - 1, faults) then k
      else if FaultAt(faults, n - 1).RaisesBefore? then n - 1 else n
  }

  predicate Clean(n: nat, faults: seq<Fault>) {
    forall i :: 0 <= i < n ==> FaultAt(faults, i).NoFault?
  }

  /** The operations were done up to the first fault, and success was reported exactly if there was none. */
  predicate Performed(before: Disk, ops: seq<Op>, faults: seq<Fault>, after: Disk, ok: bool) {
    && after == Run(before, ops[..DoneOps(|ops|, faults)])
    && (ok <==> Clean(|ops|, faults))
  }

  lemma CleanDoesAll(n: nat, faults: seq<Fault>)
    requires Clean(n, faults)
    ensures DoneOps(n, faults) == n
  {
  }

  /** Stopping at fault i is stopping for good. */
  lemma FaultStops(n: nat, i: nat, faults: seq<Fault>)
    requires i < n && Clean(i, faults) && !FaultAt(faults, i).NoFault?
    ensures DoneOps(n, faults) == (if FaultAt(faults, i).RaisesBefore? then i else i + 1)
    ensures !Clean(n, faults)
  {
    CleanDoesAll(i, faults);
    if i + 1 < n {
      FaultStops(n - 1, i, faults);
    }
  }

  lemma RunSnoc(d: Disk, ops: seq<Op>, i: nat)
    requires i < |ops|
    ensures Run(d, ops[..i + 1]) == Apply(Run(d, ops[..i]), ops[i])
  {
    assert ops[..i + 1] == ops[..i] + [ops[i]];
    RunAppend(d, ops[..i], [ops[i]]);
    RunOne(Run(d, ops[..i]), ops[i]);
  }

  class DataStore {
    var disk: Disk
    const resolve: Resolver

    constructor (disk: Disk, resolve: Resolver)
      ensures this.disk == disk && this.resolve == resolve
    {
      this.disk := disk;
      this.resolve := resolve;
    }

    /** atomic_write_bytes and durable_unlink, as far as the disk goes. */
    method Do(op: Op, fault: Fault) returns (ok: bool)
      modifies this
      ensures disk == if fault.RaisesBefore? then old(disk) else Apply(old(disk), op)
      ensures ok <==> fault.NoFault?
    {
      if !fault.RaisesBefore? {
        match op
        case Write(f, bytes) => disk := disk.(files := disk.files[f := bytes]);
        case Unlink(f) => disk := disk.(files := disk.files - {f});
        case WriteJournal(r) => disk := disk.(journal := Some(Prepared(r)));
        case UnlinkJournal => disk := disk.(journal := None);
      }
      ok := fault.NoFault?;
    }

    /** One operation of a list: after a fault the rest is not attempted. */
    method DoNth(ghost before: Disk, ops: seq<Op>, i: nat, faults: seq<Fault>) returns (ok: bool)
      requires i < |ops| && Clean(i, faults) && disk == Run(before, ops[..i])
      modifies this
      ensures ok <==> FaultAt(faults, i).NoFault?
      ensures ok ==> Clean(i + 1, faults) && disk == Run(before, ops[..i + 1])
      ensures !ok ==> Performed(before, ops, faults, disk, false)
    {
      RunSnoc(before, ops, i);
      ok := Do(ops[i], FaultAt(faults, i));
      if !ok {
        FaultStops(|ops|, i, faults);
      }
    }

    method CheckSecrets(names: seq<string>) returns (problem: Option<StorageError>)
      ensures problem == SecretProblem(disk, resolve, names)
    {
      assert names[0..] == names;
      for i := 0 to |names|
        invariant SecretProblem(disk, resolve, names) == SecretProblem(disk, resolve, names[i..])
      {
        assert names[i..][1..] == names[i + 1..];
        var path := resolve(names[i]);
        if path.None? {
          return Some(InvalidSecretName);
        }
        if Secret(path.value) in disk.files {
          return Some(SecretExists);
        }
      }
      problem := None;
    }

    method BeginConfigReplace(target: string, names: seq<string>, faults: seq<Fault>) returns (r: Result<(), Failure>)
      modifies this
      ensures BeginProblem(old(disk), resolve, target, names).Some? ==>
                r == Raise(Refused(BeginProblem(old(disk), resolve, target, names).value)) && disk == old(disk)
      ensures BeginProblem(old(disk), resolve, target, names).None? ==>
                && Performed(old(disk), BeginOps(old(disk), target, names), faults, disk, r.Ok?)
                && (r.Ok? || r == Raise(IoError))
    {
      if disk.journal.Some? {
        return Raise(Refused(UnfinishedTransaction));
      }
      var problem := CheckSecrets(names);
      if problem.Some? {
        return Raise(Refused(problem.value));
      }
      var f := ConfigAt(target);
      var existed := f in disk.files;
      if existed && |disk.files[f]| > MAX_BACKUP {
        return Raise(Refused(BackupTooLarge));
      }
      var previous := if existed then disk.files[f] else "";
      var ops := [if existed then Write(Backup, previous) else Unlink(Backup),
                  WriteJournal(Record(Sha256(target), existed, Sha256(previous), names))];
      var ok := DoNth(old(disk), ops, 0, faults);
      if !ok {
        return Raise(IoError);
      }
      ok := DoNth(old(disk), ops, 1, faults);
      if !ok {
        return Raise(IoError);
      }
      CleanDoesAll(2, faults);
      r := Ok(());
    }

    method WriteNewSecret(name: string, value: string, fault: Fault) returns (r: Result<(), Failure>)
      modifies this
      ensures resolve(name).None? ==> r == Raise(Refused(InvalidSecretName)) && disk == old(disk)
      ensures resolve(name).Some? && Secret(resolve(name).value) in old(disk).files ==>
                r == Raise(Refused(SecretExists)) && disk == old(disk)
      ensures resolve(name).Some? && Secret(resolve(name).value) !in old(disk).files ==>
                && disk == (if fault.RaisesBefore? then old(disk)
                            else Apply(old(disk), Write(Secret(resolve(name).value), value)))
                && r == if fault.NoFault? then Ok(()) else Raise(IoError)
    {
      var path := resolve(name);
      if path.None? {
        return Raise(Refused(InvalidSecretName));
      }
      if Secret(path.value) in disk.files {
        return Raise(Refused(SecretExists));
      }
      var ok := Do(Write(Secret(path.value), value), fault);
      r := if ok then Ok(()) else Raise(IoError);
    }

    method HasPendingConfigReplace(target: string) returns (r: Result<bool, StorageError>)
      ensures r == HasPending(disk, resolve, target)
    {
      if disk.journal.None? {
        return Ok(false);
      }
      if disk.journal.value.Unreadable? || disk.journal.value.record.target != Sha256(target) {
        return Raise(JournalInvalid);
      }
      var names := disk.journal.value.record.secretNames;
      for i := 0 to |names|
        invariant forall j :: 0 <= j < i ==> resolve(names[j]).Some?
      {
        if resolve(names[i]).None? {
          return Raise(InvalidSecretName);
        }
      }
      r := Ok(true);
    }

    method RecoverConfigReplace(target: string, faults: seq<Fault>) returns (r: Result<bool, Failure>)
      modifies this
      ensures RecoverOps(old(disk), resolve, target).Raise? ==>
                r == Raise(Refused(RecoverOps(old(disk), resolve, target).error)) && disk == old(disk)
      ensures RecoverOps(old(disk), resolve, target).Ok? ==>
                && Performed(old(disk), RecoverOps(old(disk), resolve, target).value, faults, disk, r.Ok?)
                && (r.Ok? ==> (r.value <==> old(disk).journal.Some?))
                && (r.Ok? || r == Raise(IoError))
    {
      var pending := HasPendingConfigReplace(target);
      if pending.Raise? {
        return Raise(Refused(pending.error));
      }
      if !pending.value {
        var ok := DoNth(old(disk), [Unlink(Backup)], 0, faults);
        CleanIfAll(1, faults, ok);
        return if ok then Ok(false) else Raise(IoError);
      }
      var t := disk.journal.value.record;
      ghost var ops := RecoverOps(disk, resolve, target);
      var first := Unlink(ConfigAt(target));
      if t.previousExists {
        if Backup !in disk.files {
          return Raise(Refused(BackupMissing));
        }
        var previous := disk.files[Backup];
        if |previous| > MAX_BACKUP {
          return Raise(Refused(BackupTooLarge));
        }
        if Sha256(previous) != t.previous {
          return Raise(Refused(BackupInvalid));
        }
        first := Write(ConfigAt(target), previous);
      }
      var cleanup := UnlinkSecrets(resolve, t.secretNames);
      var all := [first] + (cleanup + [UnlinkJournal, Unlink(Backup)]);
      assert ops == Ok(all);
      var ok := DoNth(old(disk), all, 0, faults);
      if !ok {
        return Raise(IoError);
      }
      for i := 0 to |t.secretNames|
        invariant Clean(i + 1, faults) && disk == Run(old(disk), all[..i + 1])
      {
        ok := DoNth(old(disk), all, i + 1, faults);
        if !ok {
          return Raise(IoError);
        }
      }
      ok := DoNth(old(disk), all, |all| - 2, faults);
      if !ok {
        return Raise(IoError);
      }
      ok := DoNth(old(disk), all, |all| - 1, faults);
      if !ok {
        return Raise(IoError);
      }
      CleanDoesAll(|all|, faults);
      r := Ok(true);
    }

    method CommitConfigReplace(target: string, faults: seq<Fault>) returns (r: Result<(), Failure>)
      modifies this
      ensures CommitOps(old(disk), resolve, target).Raise? ==> r.Raise? && disk == old(disk)
      ensures CommitOps(old(disk), resolve, target).Ok? ==>
                && (r.Ok? <==> FaultAt(faults, 0).NoFault?)
                && disk == Run(old(disk), CommitOps(old(disk), resolve, target).value[..DoneOps(2, faults)])
    {
      var pending := HasPendingConfigReplace(target);
      if pending.Raise? {
        return Raise(Refused(pending.error));
      }
      if !pending.value {
        return Raise(Refused(NotPrepared));
      }
      var ops := [UnlinkJournal, Unlink(Backup)];
      var ok := DoNth(old(disk), ops, 0, faults);
      if !ok {
        return Raise(IoError);
      }
      ok := DoNth(old(disk), ops, 1, faults);
      CleanIfAll(2, faults, ok);
      r := Ok(());
    }
  }

  lemma CleanIfAll(n: nat, faults: seq<Fault>, ok: bool)
    requires ok ==> Clean(n, faults)
    ensures ok ==> DoneOps(n, faults) == n
  {
    if ok {
      CleanDoesAll(n, faults);
    }
  }
}
