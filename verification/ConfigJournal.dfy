/**
  The configuration-replacement journal.

  The disk is a map from files to contents plus the one journal file. Every protocol is a list of
  file operations that are atomic on their own; a crash, or an exception from the file system,
  leaves some prefix of the list done. Recovered(d) is the disk that a recovery running to its end
  makes of d, and the theorems say what each protocol does to it, cut anywhere.
 */
module ConfigJournal {
  import opened Wrappers

  /** Configuration files are named by their absolute path, secrets by their file under the secrets directory. */
  datatype File = ConfigAt(path: string) | Backup | Secret(file: string) | Other(name: string)

  /** A digest stands for exactly the bytes it was taken of. */
  datatype Digest = Sha256(bytes: string)

  datatype Record = Record(target: Digest, previousExists: bool, previous: Digest, secretNames: seq<string>)

  /** What the journal file holds: a well-formed record, or bytes that are none. */
  datatype JournalFile = Prepared(record: Record) | Unreadable

  datatype Disk = Disk(files: map<File, string>, journal: Option<JournalFile>)

  datatype Op = Write(file: File, bytes: string) | Unlink(file: File) | WriteJournal(record: Record) | UnlinkJournal

  datatype StorageError =
    | UnfinishedTransaction
    | InvalidSecretName
    | SecretExists
    | BackupTooLarge
    | JournalInvalid
    | BackupMissing
    | BackupInvalid
    | NotPrepared

  const MAX_BACKUP: nat := 16 * 1024 * 1024

  /** The file a secret name stands for; None when the name is not a safe relative path. */
  type Resolver = string -> Option<string>

  function Apply(d: Disk, op: Op): Disk {
    match op
    case Write(f, bytes) => d.(files := d.files[f := bytes])
    case Unlink(f) => d.(files := d.files - {f})
    case WriteJournal(r) => d.(journal := Some(Prepared(r)))
    case UnlinkJournal => d.(journal := None)
  }

  function Run(d: Disk, ops: seq<Op>): Disk
    decreases |ops|
  {
    if ops == [] then d else Run(Apply(d, ops[0]), ops[1..])
  }

  function SecretFiles(resolve: Resolver, names: seq<string>): set<File> {
    set n | n in names && resolve(n).Some? :: Secret(resolve(n).value)
  }

  predicate AllResolve(resolve: Resolver, names: seq<string>) {
    forall n :: n in names ==> resolve(n).Some?
  }

  // ---- begin ----------------------------------------------------------------------------------

  /** The first name that stands in the way: it does not resolve, or its file is already there. */
  function SecretProblem(d: Disk, resolve: Resolver, names: seq<string>): (e: Option<StorageError>)
    ensures e.None? <==> AllResolve(resolve, names) && forall f :: f in SecretFiles(resolve, names) ==> f !in d.files
  {
    if names == [] then None
    else if resolve(names[0]).None? then Some(InvalidSecretName)
    else if Secret(resolve(names[0]).value) in d.files then
      assert Secret(resolve(names[0]).value) in SecretFiles(resolve, names);
      Some(SecretExists)
    else
      assert names == [names[0]] + names[1..];
      SecretProblem(d, resolve, names[1..])
  }

  /** Why begin refuses before writing anything. */
  function BeginProblem(d: Disk, resolve: Resolver, target: string, names: seq<string>): Option<StorageError> {
    if d.journal.Some? then Some(UnfinishedTransaction)
    else
      var problem := SecretProblem(d, resolve, names);
      if problem.Some? then problem
      else if ConfigAt(target) in d.files && |d.files[ConfigAt(target)]| > MAX_BACKUP then Some(BackupTooLarge)
      else None
  }

  function RecordOf(d: Disk, target: string, names: seq<string>): Record {
    var f := ConfigAt(target);
    Record(Sha256(target), f in d.files, Sha256(if f in d.files then d.files[f] else ""), names)
  }

  function BeginOps(d: Disk, target: string, names: seq<string>): seq<Op> {
    var f := ConfigAt(target);
    [if f in d.files then Write(Backup, d.files[f]) else Unlink(Backup), WriteJournal(RecordOf(d, target, names))]
  }

  // ---- has_pending, recover, commit -----------------------------------------------------------

  /** Whether a transaction for this target is pending, or why that cannot be said. */
  function HasPending(d: Disk, resolve: Resolver, target: string): Result<bool, StorageError> {
    if d.journal.None? then Ok(false)
    else if d.journal.value.Unreadable? || d.journal.value.record.target != Sha256(target) then Raise(JournalInvalid)
    else if !AllResolve(resolve, d.journal.value.record.secretNames) then Raise(InvalidSecretName)
    else Ok(true)
  }

  function UnlinkSecrets(resolve: Resolver, names: seq<string>): (ops: seq<Op>)
    requires AllResolve(resolve, names)
    ensures |ops| == |names| && forall i :: 0 <= i < |ops| ==> ops[i] == Unlink(Secret(resolve(names[i]).value))
  {
    seq(|names|, i requires 0 <= i < |names| => Unlink(Secret(resolve(names[i]).value)))
  }

  /** The operations recovery performs, all decided by what it reads first. */
  function RecoverOps(d: Disk, resolve: Resolver, target: string): Result<seq<Op>, StorageError> {
    match HasPending(d, resolve, target)
    case Raise(e) => Raise(e)
    case Ok(pending) =>
      if !pending then Ok([Unlink(Backup)])
      else
        var r := d.journal.value.record;
        var cleanup := UnlinkSecrets(resolve, r.secretNames) + [UnlinkJournal, Unlink(Backup)];
        if !r.previousExists then Ok([Unlink(ConfigAt(target))] + cleanup)
        else if Backup !in d.files then Raise(BackupMissing)
        else if |d.files[Backup]| > MAX_BACKUP then Raise(BackupTooLarge)
        else if Sha256(d.files[Backup]) != r.previous then Raise(BackupInvalid)
        else Ok([Write(ConfigAt(target), d.files[Backup])] + cleanup)
  }

  function CommitOps(d: Disk, resolve: Resolver, target: string): Result<seq<Op>, StorageError> {
    match HasPending(d, resolve, target)
    case Raise(e) => Raise(e)
    case Ok(pending) => if pending then Ok([UnlinkJournal, Unlink(Backup)]) else Raise(NotPrepared)
  }

  // ---- What is refused ------------------------------------------------------------------------

  predicate Fits(text: string) {
    |text| <= 16777216
  }

  /** The name is a safe path, and nothing is there yet. */
  predicate Usable(d: Disk, resolve: Resolver, name: string) {
    resolve(name).Some? && Secret(resolve(name).value) !in d.files
  }

  /** When begin is refused, and why. */
  lemma BeginRefusals(d: Disk, resolve: Resolver, target: string, names: seq<string>)
    ensures var f := ConfigAt(target); var large := f in d.files && !Fits(d.files[f]);
            match BeginProblem(d, resolve, target, names)
            case None => d.journal == None && !large && forall n :: n in names ==> Usable(d, resolve, n)
            case Some(UnfinishedTransaction) => d.journal != None
            case Some(BackupTooLarge) =>
              d.journal == None && large && forall n :: n in names ==> Usable(d, resolve, n)
            case Some(problem) => d.journal == None && exists i: nat :: StopsAt(d, resolve, names, i, problem)
  {
    FirstProblem(d, resolve, names);
  }

  /** The first name that is not usable, and what is wrong with it. */
  predicate StopsAt(d: Disk, resolve: Resolver, names: seq<string>, i: nat, problem: StorageError) {
    && i < |names| && !Usable(d, resolve, names[i]) && (forall j :: 0 <= j < i ==> Usable(d, resolve, names[j]))
    && problem == if resolve(names[i]).None? then InvalidSecretName else SecretExists
  }

  lemma {:induction false} FirstProblem(d: Disk, resolve: Resolver, names: seq<string>)
    ensures SecretProblem(d, resolve, names).None? <==> forall n :: n in names ==> Usable(d, resolve, n)
    ensures SecretProblem(d, resolve, names).Some? ==>
              exists i: nat :: StopsAt(d, resolve, names, i, SecretProblem(d, resolve, names).value)
  {
    if names != [] && Usable(d, resolve, names[0]) {
      var rest := names[1..];
      FirstProblem(d, resolve, rest);
      assert names == [names[0]] + rest;
      if SecretProblem(d, resolve, rest).Some? {
        var i: nat :| StopsAt(d, resolve, rest, i, SecretProblem(d, resolve, rest).value);
        assert forall j :: 1 <= j < i + 1 ==> names[j] == rest[j - 1];
        assert StopsAt(d, resolve, names, i + 1, SecretProblem(d, resolve, names).value);
      }
    } else if names != [] {
      assert StopsAt(d, resolve, names, 0, SecretProblem(d, resolve, names).value);
    }
  }

  /** The journal is this target's, with names that can be cleaned up. */
  predicate IsOurs(j: JournalFile, resolve: Resolver, target: string) {
    j.Prepared? && j.record.target.bytes == target && forall n :: n in j.record.secretNames ==> resolve(n).Some?
  }

  /** When recovery, the question for a transaction and commit are refused, and why. */
  lemma RecoveryRefusals(d: Disk, resolve: Resolver, target: string)
    ensures HasPending(d, resolve, target) == Ok(false) <==> d.journal == None
    ensures HasPending(d, resolve, target) == Ok(true) <==> d.journal.Some? && IsOurs(d.journal.value, resolve, target)
    ensures HasPending(d, resolve, target) == Raise(JournalInvalid)
       <==> d.journal.Some? && (d.journal.value.Unreadable? || d.journal.value.record.target.bytes != target)
    ensures HasPending(d, resolve, target) == Raise(InvalidSecretName)
       <==> d.journal.Some? && d.journal.value.Prepared? && d.journal.value.record.target.bytes == target
            && exists n :: n in d.journal.value.record.secretNames && resolve(n).None?
    ensures HasPending(d, resolve, target) == Ok(false) ==> CommitOps(d, resolve, target) == Raise(NotPrepared)
    ensures HasPending(d, resolve, target) == Ok(true) ==> CommitOps(d, resolve, target).Ok?
    ensures HasPending(d, resolve, target).Raise? ==>
              RecoverOps(d, resolve, target) == Raise(HasPending(d, resolve, target).error)
              && CommitOps(d, resolve, target) == Raise(HasPending(d, resolve, target).error)
    ensures HasPending(d, resolve, target) == Ok(false) ==> RecoverOps(d, resolve, target).Ok?
    ensures HasPending(d, resolve, target) == Ok(true) ==>
              match RecoverOps(d, resolve, target)
              case Ok(_) => d.journal.value.record.previousExists ==>
                              Backup in d.files && Fits(d.files[Backup])
                              && d.files[Backup] == d.journal.value.record.previous.bytes
              case Raise(BackupMissing) => d.journal.value.record.previousExists && Backup !in d.files
              case Raise(BackupTooLarge) => d.journal.value.record.previousExists
                                            && Backup in d.files && !Fits(d.files[Backup])
              case Raise(problem) => problem == BackupInvalid && d.journal.value.record.previousExists
                                     && Backup in d.files && Fits(d.files[Backup])
                                     && d.files[Backup] != d.journal.value.record.previous.bytes
  {
  }

  // ---- What a disk stands for ------------------------------------------------------------------

  /** Recovery does not raise. */
  predicate Recoverable(d: Disk, resolve: Resolver, target: string) {
    RecoverOps(d, resolve, target).Ok?
  }

  function Recovered(d: Disk, resolve: Resolver, target: string): Disk
    requires Recoverable(d, resolve, target)
  {
    Run(d, RecoverOps(d, resolve, target).value)
  }

  lemma RunOne(d: Disk, op: Op)
    ensures Run(d, [op]) == Apply(d, op)
  {
    assert [op][1..] == [];
    assert Run(d, [op]) == Run(Apply(d, op), []);
  }

  /** Running is running the parts one after the other. */
  lemma {:induction false} RunAppend(d: Disk, a: seq<Op>, b: seq<Op>)
    ensures Run(d, a + b) == Run(Run(d, a), b)
    decreases |a|
  {
    if a == [] {
      assert a + b == b;
    } else {
      assert (a + b)[1..] == a[1..] + b;
      RunAppend(Apply(d, a[0]), a[1..], b);
    }
  }

  /** Unlinking a list of secrets removes just those files, whatever prefix is done. */
  lemma {:induction false} RunUnlinks(d: Disk, resolve: Resolver, names: seq<string>)
    requires AllResolve(resolve, names)
    ensures Run(d, UnlinkSecrets(resolve, names)) == d.(files := d.files - SecretFiles(resolve, names))
    decreases |names|
  {
    if names == [] {
      assert d.files - SecretFiles(resolve, names) == d.files;
    } else {
      var f := Secret(resolve(names[0]).value);
      var ops := UnlinkSecrets(resolve, names);
      assert ops[1..] == UnlinkSecrets(resolve, names[1..]);
      RunUnlinks(Apply(d, ops[0]), resolve, names[1..]);
      assert SecretFiles(resolve, names) == {f} + SecretFiles(resolve, names[1..]) by {
        assert names == [names[0]] + names[1..];
      }
      assert d.files - {f} - SecretFiles(resolve, names[1..]) == d.files - SecretFiles(resolve, names);
    }
  }

  /** The old configuration as the journal remembers it. */
  function Restored(files: map<File, string>, target: string, r: Record, backup: string): map<File, string> {
    if r.previousExists then files[ConfigAt(target) := backup] else files - {ConfigAt(target)}
  }

  /** What recovery makes of a disk, in closed form. */
  lemma RecoveredIs(d: Disk, resolve: Resolver, target: string)
    requires Recoverable(d, resolve, target)
    ensures d.journal.None? ==> Recovered(d, resolve, target) == d.(files := d.files - {Backup})
    ensures d.journal.Some? ==>
              && d.journal.value.Prepared?
              && (d.journal.value.record.previousExists ==> Backup in d.files)
              && Recovered(d, resolve, target) ==
                 Disk(Restored(d.files, target, d.journal.value.record, if Backup in d.files then d.files[Backup]
                   else "")
                      - SecretFiles(resolve, d.journal.value.record.secretNames) - {Backup}, None)
  {
    var ops := RecoverOps(d, resolve, target).value;
    if d.journal.None? {
      assert Run(d, ops) == Run(Apply(d, Unlink(Backup)), ops[1..]);
    } else {
      var r := d.journal.value.record;
      var unlinks := UnlinkSecrets(resolve, r.secretNames);
      var last := [UnlinkJournal, Unlink(Backup)];
      var d1 := Apply(d, ops[0]);
      assert ops == [ops[0]] + (unlinks + last);
      RunAppend(d, [ops[0]], unlinks + last);
      RunOne(d, ops[0]);
      RunAppend(d1, unlinks, last);
      RunUnlinks(d1, resolve, r.secretNames);
      RunLast(d1.(files := d1.files - SecretFiles(resolve, r.secretNames)));
    }
  }

  lemma RunLast(d: Disk)
    ensures Run(d, [UnlinkJournal, Unlink(Backup)]) == Disk(d.files - {Backup}, None)
  {
    var last := [UnlinkJournal, Unlink(Backup)];
    var d1 := Apply(d, last[0]);
    assert last[1..] == [Unlink(Backup)];
    assert Run(d, last) == Run(d1, [Unlink(Backup)]);
    assert [Unlink(Backup)][1..] == [];
    assert Run(d1, [Unlink(Backup)]) == Run(Apply(d1, Unlink(Backup)), []);
  }

  /** The files a pending transaction may have touched. */
  function Touchable(resolve: Resolver, target: string, names: seq<string>): set<File> {
    SecretFiles(resolve, names) + {ConfigAt(target)}
  }

  ghost predicate AgreeOutside(a: map<File, string>, b: map<File, string>, s: set<File>) {
    forall f :: f !in s ==> (f in a <==> f in b) && (f in a ==> a[f] == b[f])
  }

  /** Operations on files of s leave the journal and all other files alone. */
  lemma {:induction false} RunStaysIn(d: Disk, ops: seq<Op>, s: set<File>)
    requires forall i :: 0 <= i < |ops| ==> (ops[i].Write? || ops[i].Unlink?) && ops[i].file in s
    ensures Run(d, ops).journal == d.journal
    ensures AgreeOutside(d.files, Run(d, ops).files, s)
    decreases |ops|
  {
    if ops != [] {
      RunStaysIn(Apply(d, ops[0]), ops[1..], s);
    }
  }

  /** Recovery does not care what is in the files the transaction may have touched. */
  lemma TouchedFilesDoNotMatter(d: Disk, d': Disk, resolve: Resolver, target: string)
    requires Recoverable(d, resolve, target) && d.journal.Some? && d'.journal == d.journal
    requires AgreeOutside(d.files, d'.files, Touchable(resolve, target, d.journal.value.record.secretNames))
    ensures Recoverable(d', resolve, target) && Recovered(d', resolve, target) == Recovered(d, resolve, target)
  {
    assert Backup in d.files <==> Backup in d'.files;
    RecoveredIs(d, resolve, target);
    RecoveredIs(d', resolve, target);
    var r := d.journal.value.record;
    var backup := if Backup in d.files then d.files[Backup] else "";
    assert Restored(d.files, target, r, backup) - SecretFiles(resolve, r.secretNames) - {Backup}
        == Restored(d'.files, target, r, backup) - SecretFiles(resolve, r.secretNames) - {Backup};
  }

  // ---- Interrupted recovery ---------------------------------------------------------------------

  /** An interrupted recovery stands for the same disk: running it again, once or many times, gives the same end. */
  lemma InterruptedRecoveryKeepsMeaning(d: Disk, resolve: Resolver, target: string, k: nat)
    requires Recoverable(d, resolve, target) && k <= |RecoverOps(d, resolve, target).value|
    ensures var d' := Run(d, RecoverOps(d, resolve, target).value[..k]);
            Recoverable(d', resolve, target) && Recovered(d', resolve, target) == Recovered(d, resolve, target)
  {
    var ops := RecoverOps(d, resolve, target).value;
    var d' := Run(d, ops[..k]);
    if d.journal.None? {
      RecoveredIs(d, resolve, target);
      assert k == 1 ==> ops[..k] == [Unlink(Backup)] && [Unlink(Backup)][1..] == [];
      RecoveredIs(d', resolve, target);
      assert d.files - {Backup} - {Backup} == d.files - {Backup};
    } else if k <= |ops| - 2 {
      RunStaysIn(d, ops[..k], Touchable(resolve, target, d.journal.value.record.secretNames));
      TouchedFilesDoNotMatter(d, d', resolve, target);
    } else {
      RecoveryPastJournal(d, resolve, target, k);
    }
  }

  lemma RecoveryPastJournal(d: Disk, resolve: Resolver, target: string, k: nat)
    requires Recoverable(d, resolve, target) && d.journal.Some?
    requires |RecoverOps(d, resolve, target).value| - 2 < k <= |RecoverOps(d, resolve, target).value|
    ensures var d' := Run(d, RecoverOps(d, resolve, target).value[..k]);
            Recoverable(d', resolve, target) && Recovered(d', resolve, target) == Recovered(d, resolve, target)
  {
    var ops := RecoverOps(d, resolve, target).value;
    assert ops[|ops| - 2] == UnlinkJournal && ops[|ops| - 1] == Unlink(Backup);
    CutPastJournal(d, resolve, target, ops, |ops| - 2, k);
  }

  /** Operations that end with the journal's unlink and the backup's, cut after the former. */
  lemma CutPastJournal(d: Disk, resolve: Resolver, target: string, ops: seq<Op>, n: nat, k: nat)
    requires |ops| == n + 2 && ops[n] == UnlinkJournal && ops[n + 1] == Unlink(Backup)
    requires n < k <= |ops|
    ensures Recoverable(Run(d, ops[..k]), resolve, target)
    ensures Recovered(Run(d, ops[..k]), resolve, target) == Run(d, ops)
  {
    assert ops == ops[..n] + [UnlinkJournal, Unlink(Backup)];
    RunAppend(d, ops[..n], [UnlinkJournal, Unlink(Backup)]);
    assert ops[..k] == ops[..n] + ops[n..k];
    RunAppend(d, ops[..n], ops[n..k]);
    assert ops[n..k] == [UnlinkJournal] || ops[n..k] == [UnlinkJournal, Unlink(Backup)];
    RestIsRecoverable(Run(d, ops[..n]), resolve, target, ops[n..k]);
  }

  lemma RestIsRecoverable(m: Disk, resolve: Resolver, target: string, rest: seq<Op>)
    requires rest == [UnlinkJournal] || rest == [UnlinkJournal, Unlink(Backup)]
    ensures Recoverable(Run(m, rest), resolve, target)
    ensures Recovered(Run(m, rest), resolve, target) == Run(m, [UnlinkJournal, Unlink(Backup)])
  {
    RunLast(m);
    RunRest(m, rest);
    RecoveredIs(Run(m, rest), resolve, target);
    assert m.files - {Backup} - {Backup} == m.files - {Backup};
  }

  lemma RunRest(d: Disk, rest: seq<Op>)
    requires rest == [UnlinkJournal] || rest == [UnlinkJournal, Unlink(Backup)]
    ensures Run(d, rest).journal == None
    ensures Run(d, rest).files == d.files || Run(d, rest).files == d.files - {Backup}
  {
    RunLast(d);
    assert Run(d, [UnlinkJournal]) == Run(Apply(d, UnlinkJournal), []) by {
      assert [UnlinkJournal][1..] == [];
    }
  }

  // ---- The transaction, cut anywhere ------------------------------------------------------------

  /** One replacement: the new secrets by name, and the new configuration. */
  datatype Change = Change(names: seq<string>, values: map<string, string>, candidate: string)

  /** How many secrets get written before one finds its file taken: names may share a file. */
  function WritableSecrets(resolve: Resolver, names: seq<string>): (n: nat)
    requires AllResolve(resolve, names)
    ensures n <= |names|
    ensures forall i, j :: 0 <= i < j < n ==> resolve(names[i]) != resolve(names[j])
  {
    if names == [] then 0
    else
      var last := names[|names| - 1];
      var init := names[..|names| - 1];
      var n := WritableSecrets(resolve, init);
      if n == |init| && forall i :: 0 <= i < |init| ==> resolve(init[i]) != resolve(last) then n + 1 else n
  }

  function SecretOps(resolve: Resolver, names: seq<string>, values: map<string, string>): (ops: seq<Op>)
    requires AllResolve(resolve, names) && forall n :: n in names ==> n in values
    ensures |ops| == |names|
    ensures forall i :: 0 <= i < |ops| ==> ops[i] == Write(Secret(resolve(names[i]).value), values[names[i]])
  {
    seq(|names|, i requires 0 <= i < |names| => Write(Secret(resolve(names[i]).value), values[names[i]]))
  }

  predicate Admissible(d: Disk, resolve: Resolver, target: string, c: Change) {
    BeginProblem(d, resolve, target, c.names).None? && forall n :: n in c.names ==> n in c.values
  }

  /** Everything a replacement writes up to, not including, the commit. It ends early when two names share a file. */
  function PrepareOps(d: Disk, resolve: Resolver, target: string, c: Change): seq<Op>
    requires Admissible(d, resolve, target, c)
  {
    var n := WritableSecrets(resolve, c.names);
    BeginOps(d, target, c.names)
    + SecretOps(resolve, c.names[..n], c.values)
    + (if n == |c.names| then [Write(ConfigAt(target), c.candidate)] else [])
  }

  /** No two names share a file, so that every secret is written. */
  predicate OwnFiles(resolve: Resolver, names: seq<string>) {
    forall i, j :: 0 <= i < j < |names| ==> resolve(names[i]) != resolve(names[j])
  }

  /** The files after a committed replacement: the old ones, the new secrets, the new configuration, no backup. */
  ghost predicate IsReplaced(files: map<File, string>, d: Disk, resolve: Resolver, target: string, c: Change)
    requires Admissible(d, resolve, target, c)
  {
    && files.Keys == d.files.Keys + SecretFiles(resolve, c.names) + {ConfigAt(target)} - {Backup}
    && files[ConfigAt(target)] == c.candidate
    && (forall n :: n in c.names ==>
       Secret(resolve(n).value) in files && files[Secret(resolve(n).value)] == c.values[n])
    && (forall f :: f in d.files && f != Backup && f != ConfigAt(target) ==> f in files && files[f] == d.files[f])
  }

  /** Up to the commit, a replacement cut anywhere stands for the untouched old disk. */
  lemma PreparedStandsForOld(d: Disk, resolve: Resolver, target: string, c: Change, k: nat)
    requires Admissible(d, resolve, target, c) && k <= |PrepareOps(d, resolve, target, c)|
    ensures var d' := Run(d, PrepareOps(d, resolve, target, c)[..k]);
            && Recoverable(d', resolve, target)
            && Recovered(d', resolve, target) == Disk(d.files - {Backup}, None)
  {
    var ops := PrepareOps(d, resolve, target, c);
    var begin := BeginOps(d, target, c.names);
    var d' := Run(d, ops[..k]);
    if k < 2 {
      assert ops[..k] == begin[..k];
      HalfBegunStandsForOld(d, resolve, target, c, k);
    } else {
      assert ops[..k] == begin + ops[2..k];
      RunAppend(d, begin, ops[2..k]);
      var d2 := Run(d, begin);
      BegunStandsForOld(d, resolve, target, c);
      PreparingStaysIn(d, resolve, target, c, k);
      RunStaysIn(d2, ops[2..k], Touchable(resolve, target, c.names));
      TouchedFilesDoNotMatter(d2, d', resolve, target);
    }
  }

  lemma PreparingStaysIn(d: Disk, resolve: Resolver, target: string, c: Change, k: nat)
    requires Admissible(d, resolve, target, c) && 2 <= k <= |PrepareOps(d, resolve, target, c)|
    ensures var ops := PrepareOps(d, resolve, target, c)[2..k];
            forall i :: 0 <= i < |ops| ==>
              (ops[i].Write? || ops[i].Unlink?) && ops[i].file in Touchable(resolve, target, c.names)
  {
    var n := WritableSecrets(resolve, c.names);
    var all := PrepareOps(d, resolve, target, c);
    var secrets := SecretOps(resolve, c.names[..n], c.values);
    forall i | 2 <= i < k
      ensures all[i].Write? && all[i].file in Touchable(resolve, target, c.names)
    {
      if i < 2 + n {
        assert all[i] == secrets[i - 2];
        assert c.names[i - 2] in c.names;
      }
    }
  }

  lemma HalfBegunStandsForOld(d: Disk, resolve: Resolver, target: string, c: Change, k: nat)
    requires Admissible(d, resolve, target, c) && k < 2
    ensures var d' := Run(d, BeginOps(d, target, c.names)[..k]);
            && Recoverable(d', resolve, target)
            && Recovered(d', resolve, target) == Disk(d.files - {Backup}, None)
  {
    var begin := BeginOps(d, target, c.names);
    var d' := Run(d, begin[..k]);
    RunOne(d, begin[0]);
    if k == 1 {
      assert begin[..k] == [begin[0]];
    }
    RecoveredIs(d', resolve, target);
    assert d'.files - {Backup} == d.files - {Backup};
  }

  lemma BegunStandsForOld(d: Disk, resolve: Resolver, target: string, c: Change)
    requires Admissible(d, resolve, target, c)
    ensures var d2 := Run(d, BeginOps(d, target, c.names));
            && d2.journal == Some(Prepared(RecordOf(d, target, c.names)))
            && Recoverable(d2, resolve, target)
            && Recovered(d2, resolve, target) == Disk(d.files - {Backup}, None)
  {
    var d2 := Run(d, BeginOps(d, target, c.names));
    BegunDisk(d, target, c.names);
    RecoveredIs(d2, resolve, target);
    RestoredAfterBegin(d, resolve, target, c, d2.files);
  }

  /** What begin saved is what recovery puts back. */
  lemma RestoredAfterBegin(d: Disk, resolve: Resolver, target: string, c: Change, files: map<File, string>)
    requires Admissible(d, resolve, target, c)
    requires files == if ConfigAt(target) in d.files then d.files[Backup := d.files[ConfigAt(target)]]
             else d.files - {Backup}
    ensures var backup := if Backup in files then files[Backup] else "";
            Restored(files, target, RecordOf(d, target, c.names), backup) - SecretFiles(resolve, c.names) - {Backup}
              == d.files - {Backup}
  {
  }

  /** Begin saves the old configuration, or clears the backup, and then writes the record. */
  lemma BegunDisk(d: Disk, target: string, names: seq<string>)
    ensures Run(d, BeginOps(d, target, names)) ==
              Disk(if ConfigAt(target) in d.files then d.files[Backup := d.files[ConfigAt(target)]]
                else d.files - {Backup},
                   Some(Prepared(RecordOf(d, target, names))))
  {
    var begin := BeginOps(d, target, names);
    RunAppend(d, [begin[0]], [begin[1]]);
    assert begin == [begin[0]] + [begin[1]];
    RunOne(d, begin[0]);
    RunOne(Apply(d, begin[0]), begin[1]);
  }

  /**
    Once prepared to the end, the disk holds the new configuration with all its secrets, and
    commit's first unlink makes it final.
   */
  lemma PreparedDisk(d: Disk, resolve: Resolver, target: string, c: Change)
    requires Admissible(d, resolve, target, c) && OwnFiles(resolve, c.names)
    ensures var p := Run(d, PrepareOps(d, resolve, target, c));
            && CommitOps(p, resolve, target) == Ok([UnlinkJournal, Unlink(Backup)])
            && IsReplaced(p.files - {Backup}, d, resolve, target, c)
  {
    PreparedSplits(d, resolve, target, c);
    var secrets := SecretOps(resolve, c.names, c.values);
    var d2 := Run(d, BeginOps(d, target, c.names));
    var d3 := Run(d2, secrets);
    BegunStandsForOld(d, resolve, target, c);
    BegunFiles(d, target, c.names);
    RunSecrets(d2, resolve, c.names, c.values);
    RunStaysIn(d2, secrets, SecretFiles(resolve, c.names));
    ReplacedFiles(d, d2.files, d3.files, resolve, target, c);
  }

  lemma PreparedSplits(d: Disk, resolve: Resolver, target: string, c: Change)
    requires Admissible(d, resolve, target, c) && OwnFiles(resolve, c.names)
    ensures Run(d, PrepareOps(d, resolve, target, c)) ==
            Apply(Run(Run(d, BeginOps(d, target, c.names)), SecretOps(resolve, c.names, c.values)),
              Write(ConfigAt(target), c.candidate))
  {
    AllWritable(resolve, c.names);
    var begin, secrets := BeginOps(d, target, c.names), SecretOps(resolve, c.names, c.values);
    var op := Write(ConfigAt(target), c.candidate);
    assert c.names[..|c.names|] == c.names;
    assert PrepareOps(d, resolve, target, c) == begin + (secrets + [op]);
    RunAppend(d, begin, secrets + [op]);
    RunAppend(Run(d, begin), secrets, [op]);
    RunOne(Run(Run(d, begin), secrets), op);
  }

  lemma ReplacedFiles(d: Disk, begun: map<File, string>, written: map<File, string>, resolve: Resolver, target: string,
                      c: Change)
    requires Admissible(d, resolve, target, c)
    requires begun - {Backup} == d.files - {Backup}
    requires AgreeOutside(begun, written, SecretFiles(resolve, c.names))
    requires forall n :: n in c.names ==>
               Secret(resolve(n).value) in written && written[Secret(resolve(n).value)] == c.values[n]
    ensures IsReplaced(written[ConfigAt(target) := c.candidate] - {Backup}, d, resolve, target, c)
  {
    var files := written[ConfigAt(target) := c.candidate] - {Backup};
    var secrets := SecretFiles(resolve, c.names);
    ReplacedKeys(d.files, begun, written, secrets, target, c.candidate);
    forall f | f in d.files && f != Backup && f != ConfigAt(target)
      ensures f in files && files[f] == d.files[f]
    {
      assert f !in secrets;
      assert (begun - {Backup})[f] == (d.files - {Backup})[f];
    }
  }

  lemma ReplacedKeys(before: map<File, string>, begun: map<File, string>, written: map<File, string>,
                     secrets: set<File>,
                     target: string, text: string)
    requires begun - {Backup} == before - {Backup} && AgreeOutside(begun, written, secrets)
    requires secrets <= written.Keys
    ensures (written[ConfigAt(target) := text] - {Backup}).Keys == before.Keys + secrets + {ConfigAt(target)} - {Backup}
  {
    forall f | f != Backup
      ensures f in begun <==> f in before
    {
      assert f in begun - {Backup} <==> f in before - {Backup};
    }
  }

  lemma BegunFiles(d: Disk, target: string, names: seq<string>)
    ensures Run(d, BeginOps(d, target, names)).files - {Backup} == d.files - {Backup}
  {
    var begin := BeginOps(d, target, names);
    var d1 := Apply(d, begin[0]);
    assert begin[1..] == [begin[1]] && [begin[1]][1..] == [];
    assert Run(d, begin) == Run(d1, [begin[1]]);
    assert Run(d1, [begin[1]]) == Run(Apply(d1, begin[1]), []);
  }

  lemma AllWritable(resolve: Resolver, names: seq<string>)
    requires AllResolve(resolve, names) && OwnFiles(resolve, names)
    ensures WritableSecrets(resolve, names) == |names|
  {
    if names != [] {
      AllWritable(resolve, names[..|names| - 1]);
    }
  }

  lemma {:induction false} RunSecrets(d: Disk, resolve: Resolver, names: seq<string>, values: map<string, string>)
    requires AllResolve(resolve, names) && OwnFiles(resolve, names) && forall n :: n in names ==> n in values
    ensures forall n :: n in names ==>
              var f := Secret(resolve(n).value);
              f in Run(d, SecretOps(resolve, names, values)).files &&
                Run(d, SecretOps(resolve, names, values)).files[f] == values[n]
    decreases |names|
  {
    if names != [] {
      var init, last := names[..|names| - 1], names[|names| - 1];
      RunSecrets(d, resolve, init, values);
      LastSecretRuns(d, resolve, names, values);
      forall n | n in init
        ensures resolve(n) != resolve(last)
      {
        var i :| 0 <= i < |init| && names[i] == n;
      }
      assert forall n :: n in names ==> n in init || n == last;
    }
  }

  lemma LastSecretRuns(d: Disk, resolve: Resolver, names: seq<string>, values: map<string, string>)
    requires names != [] && AllResolve(resolve, names) && forall n :: n in names ==> n in values
    ensures var init, last := names[..|names| - 1], names[|names| - 1];
            Run(d, SecretOps(resolve, names, values))
              == Apply(Run(d, SecretOps(resolve, init, values)), Write(Secret(resolve(last).value), values[last]))
  {
    var init, last := names[..|names| - 1], names[|names| - 1];
    var op := Write(Secret(resolve(last).value), values[last]);
    assert SecretOps(resolve, names, values) == SecretOps(resolve, init, values) + [op];
    RunAppend(d, SecretOps(resolve, init, values), [op]);
    RunOne(Run(d, SecretOps(resolve, init, values)), op);
  }

  // ---- Whole runs ---------------------------------------------------------------------------------

  /** What can happen to the data directory: a replacement or a recovery, each stopped after so many operations. */
  datatype Event = Replace(change: Change, cut: nat) | Recover(cut: nat)

  function Cut(ops: seq<Op>, k: nat): seq<Op> {
    if k <= |ops| then ops[..k] else ops
  }

  /** The replacement with its commit, whose first unlink is the commit point. */
  function TransactionOps(d: Disk, resolve: Resolver, target: string, c: Change): seq<Op>
    requires Admissible(d, resolve, target, c)
  {
    PrepareOps(d, resolve, target, c) + if OwnFiles(resolve, c.names) then [UnlinkJournal, Unlink(Backup)] else []
  }

  function StepDisk(d: Disk, resolve: Resolver, target: string, e: Event): Disk {
    match e
    case Replace(c, cut) =>
      if Admissible(d, resolve, target, c) then Run(d, Cut(TransactionOps(d, resolve, target, c), cut)) else d
    case Recover(cut) =>
      var ops := RecoverOps(d, resolve, target);
      if ops.Ok? then Run(d, Cut(ops.value, cut)) else d
  }

  function StepAll(d: Disk, resolve: Resolver, target: string, events: seq<Event>): Disk
    decreases |events|
  {
    if events == [] then d else StepAll(StepDisk(d, resolve, target, events[0]), resolve, target, events[1..])
  }

  /** The event is a replacement whose journal was unlinked by commit. */
  predicate Commits(d: Disk, resolve: Resolver, target: string, e: Event) {
    && e.Replace? && Admissible(d, resolve, target, e.change) && OwnFiles(resolve, e.change.names)
    && |PrepareOps(d, resolve, target, e.change)| < e.cut
  }

  /** The replacement as it would be without crashes: one update of the files. */
  function Updated(files: map<File, string>, resolve: Resolver, target: string, c: Change): map<File, string>
    requires AllResolve(resolve, c.names) && forall n :: n in c.names ==> n in c.values
  {
    Run(Disk(files, None), SecretOps(resolve, c.names, c.values)).files[ConfigAt(target) := c.candidate]
  }

  function AtomicAll(files: map<File, string>, d: Disk, resolve: Resolver, target: string,
                     events: seq<Event>): map<File, string>
    decreases |events|
  {
    if events == [] then files
    else
      var e := events[0];
      AtomicAll(if Commits(d, resolve, target, e) then Updated(files, resolve, target, e.change) else files,
                StepDisk(d, resolve, target, e), resolve, target, events[1..])
  }

  lemma ReplacedIsUnique(a: map<File, string>, b: map<File, string>, d: Disk, resolve: Resolver, target: string,
                         c: Change)
    requires Admissible(d, resolve, target, c)
    requires IsReplaced(a, d, resolve, target, c) && IsReplaced(b, d, resolve, target, c)
    ensures a == b
  {
    forall f | f in a
      ensures f in b && a[f] == b[f]
    {
      if f in SecretFiles(resolve, c.names) {
        var n :| n in c.names && f == Secret(resolve(n).value);
      }
    }
    assert a.Keys == b.Keys;
  }

  lemma UpdatedIsReplaced(d: Disk, resolve: Resolver, target: string, c: Change)
    requires Admissible(d, resolve, target, c) && OwnFiles(resolve, c.names)
    ensures IsReplaced(Updated(d.files - {Backup}, resolve, target, c), d, resolve, target, c)
  {
    var clean := Disk(d.files - {Backup}, None);
    var secrets := SecretOps(resolve, c.names, c.values);
    RunSecrets(clean, resolve, c.names, c.values);
    RunStaysIn(clean, secrets, SecretFiles(resolve, c.names));
    assert clean.files - {Backup} == d.files - {Backup};
    ReplacedFiles(d, clean.files, Run(clean, secrets).files, resolve, target, c);
    var u := Updated(d.files - {Backup}, resolve, target, c);
    assert u - {Backup} == u;
  }

  /** One event, stopped anywhere: the disk stays recoverable, and stands for the same files or for the updated ones. */
  lemma EventIsAtomic(d: Disk, resolve: Resolver, target: string, e: Event)
    requires Recoverable(d, resolve, target)
    ensures var d' := StepDisk(d, resolve, target, e);
            && Recoverable(d', resolve, target)
            && Recovered(d', resolve, target) ==
               if Commits(d, resolve, target, e)
               then Disk(Updated(Recovered(d, resolve, target).files, resolve, target, e.change), None)
               else Recovered(d, resolve, target)
  {
    RecoveredIs(d, resolve, target);
    match e
    case Recover(cut) =>
      var ops := RecoverOps(d, resolve, target).value;
      assert ops[..|ops|] == ops;
      InterruptedRecoveryKeepsMeaning(d, resolve, target, if cut <= |ops| then cut else |ops|);
    case Replace(c, cut) =>
      if Admissible(d, resolve, target, c) {
        var prepare := PrepareOps(d, resolve, target, c);
        var all := TransactionOps(d, resolve, target, c);
        if Commits(d, resolve, target, e) {
          var rest := Cut(all, cut)[|prepare|..];
          assert Cut(all, cut) == prepare + rest;
          RunAppend(d, prepare, rest);
          CommittedStandsForNew(d, resolve, target, c, rest);
        } else {
          var k := if cut <= |prepare| then cut else |prepare|;
          assert Cut(all, cut) == prepare[..k];
          PreparedStandsForOld(d, resolve, target, c, k);
        }
      }
  }

  lemma CommittedStandsForNew(d: Disk, resolve: Resolver, target: string, c: Change, rest: seq<Op>)
    requires Admissible(d, resolve, target, c) && OwnFiles(resolve, c.names)
    requires rest == [UnlinkJournal] || rest == [UnlinkJournal, Unlink(Backup)]
    ensures var d' := Run(Run(d, PrepareOps(d, resolve, target, c)), rest);
            && Recoverable(d', resolve, target)
            && Recovered(d', resolve, target) == Disk(Updated(d.files - {Backup}, resolve, target, c), None)
  {
    var p := Run(d, PrepareOps(d, resolve, target, c));
    PreparedDisk(d, resolve, target, c);
    UpdatedIsReplaced(d, resolve, target, c);
    ReplacedIsUnique(p.files - {Backup}, Updated(d.files - {Backup}, resolve, target, c), d, resolve, target, c);
    RunRest(p, rest);
    RecoveredIs(Run(p, rest), resolve, target);
    assert p.files - {Backup} - {Backup} == p.files - {Backup};
  }

  /**
    Crash atomicity over any run. Whatever sequence of replacements and recoveries, each stopped
    anywhere, recovery never raises, and a recovery that completes leaves no journal and exactly
    the files that the committed replacements, taken as single updates, make of the first ones.
   */
  lemma {:induction false} RunsAreAtomic(d: Disk, resolve: Resolver, target: string, events: seq<Event>)
    requires Recoverable(d, resolve, target)
    ensures var d' := StepAll(d, resolve, target, events);
            && Recoverable(d', resolve, target)
            && Recovered(d', resolve, target) ==
               Disk(AtomicAll(Recovered(d, resolve, target).files, d, resolve, target, events), None)
    decreases |events|
  {
    if events == [] {
      RecoveredIs(d, resolve, target);
    } else {
      EventIsAtomic(d, resolve, target, events[0]);
      RunsAreAtomic(StepDisk(d, resolve, target, events[0]), resolve, target, events[1..]);
      RecoveredIs(d, resolve, target);
    }
  }

  /** A fresh data directory, with no journal, is one to start from. */
  lemma CleanDiskIsRecoverable(d: Disk, resolve: Resolver, target: string)
    requires d.journal.None?
    ensures Recoverable(d, resolve, target) && Recovered(d, resolve, target).files == d.files - {Backup}
  {
    RecoveredIs(d, resolve, target);
  }
}
