/**
 Chain-data backups: writing an archive with its checksum sidecar, listing
 the finished ones, and pruning the oldest. The directory remembers every
 state it passes through, so a crash is a stop at any of them.
 */
module Backup {
  import opened Common

  const ARCHIVE_SUFFIX := ".tar.gz"
  const HASH_SUFFIX := ".hash"
  const PARTIAL_SUFFIX := ".partial"

  datatype Stored = Stored(data: string, modTime: Time)

  type Files = map<string, Stored>

  // --- names ------------------------------------------------------------------

  predicate EndsWith(s: string, suffix: string) {
    |s| >= |suffix| && s[|s| - |suffix|..] == suffix
  }

  function TrimSuffix(s: string, suffix: string): string {
    if EndsWith(s, suffix) then s[..|s| - |suffix|] else s
  }

  /** The sidecar of an archive. */
  function HashPath(archive: string): string {
    TrimSuffix(archive, ARCHIVE_SUFFIX) + HASH_SUFFIX
  }

  function ArchivePrefix(service: string): string { service + "_backup_" }

  function ArchiveName(service: string, stamp: string): string {
    ArchivePrefix(service) + stamp + ARCHIVE_SUFFIX
  }

  /** The names the listing's pattern matches. */
  predicate IsArchive(service: string, name: string) {
    && |name| >= |ArchivePrefix(service)| + |ARCHIVE_SUFFIX|
    && ArchivePrefix(service) <= name
    && EndsWith(name, ARCHIVE_SUFFIX)
  }

  lemma LastChar(s: string, suffix: string)
    requires EndsWith(s, suffix) && suffix != []
    ensures s[|s| - 1] == suffix[|suffix| - 1]
  {
    assert s[|s| - |suffix|..][|suffix| - 1] == s[|s| - 1];
  }

  lemma Appended(s: string, suffix: string)
    ensures EndsWith(s + suffix, suffix) && TrimSuffix(s + suffix, suffix) == s
  {
    assert (s + suffix)[|s|..] == suffix && (s + suffix)[..|s|] == s;
  }

  lemma ArchiveNameIsArchive(service: string, stamp: string)
    ensures IsArchive(service, ArchiveName(service, stamp))
  {
    Appended(ArchivePrefix(service) + stamp, ARCHIVE_SUFFIX);
  }

  /** Archives share no sidecar. */
  lemma HashPathInjective(a: string, b: string)
    requires EndsWith(a, ARCHIVE_SUFFIX) && EndsWith(b, ARCHIVE_SUFFIX) && HashPath(a) == HashPath(b)
    ensures a == b
  {
    var x, y := TrimSuffix(a, ARCHIVE_SUFFIX), TrimSuffix(b, ARCHIVE_SUFFIX);
    Appended(x, HASH_SUFFIX);
    Appended(y, HASH_SUFFIX);
    assert x == y;
    assert a == x + ARCHIVE_SUFFIX && b == y + ARCHIVE_SUFFIX;
  }

  /** A sidecar or partial file is never listed, and no partial file is a sidecar. */
  lemma KindsDisjoint(service: string, archive: string, other: string)
    ensures !IsArchive(service, HashPath(archive)) && !IsArchive(service, archive + PARTIAL_SUFFIX)
    ensures HashPath(other) != archive + PARTIAL_SUFFIX
  {
    Appended(TrimSuffix(archive, ARCHIVE_SUFFIX), HASH_SUFFIX);
    Appended(TrimSuffix(other, ARCHIVE_SUFFIX), HASH_SUFFIX);
    Appended(archive, PARTIAL_SUFFIX);
    LastChar(HashPath(archive), HASH_SUFFIX);
    LastChar(HashPath(other), HASH_SUFFIX);
    LastChar(archive + PARTIAL_SUFFIX, PARTIAL_SUFFIX);
    if IsArchive(service, HashPath(archive)) {
      LastChar(HashPath(archive), ARCHIVE_SUFFIX);
    }
    if IsArchive(service, archive + PARTIAL_SUFFIX) {
      LastChar(archive + PARTIAL_SUFFIX, ARCHIVE_SUFFIX);
    }
    assert 'h' != 'l' && 'z' != 'h' && 'z' != 'l';
  }

  // --- what is listed, and what verifies ------------------------------------------

  /** Finished archives: named like one, and with a sidecar. */
  ghost predicate IsListed(files: Files, service: string, name: string) {
    name in files && IsArchive(service, name) && HashPath(name) in files
  }

  ghost predicate Verifies(files: Files, digest: string -> string, name: string)
    requires name in files && HashPath(name) in files
  {
    files[HashPath(name)].data == digest(files[name].data) + "\n"
  }

  ghost predicate AllVerify(files: Files, service: string, digest: string -> string) {
    forall name | IsListed(files, service, name) :: Verifies(files, digest, name)
  }

  /** Everything listed before is still listed, with the same bytes. */
  ghost predicate ListedKept(was: Files, files: Files, service: string) {
    forall name | IsListed(was, service, name) ::
      IsListed(files, service, name) && files[name] == was[name] && files[HashPath(name)] == was[HashPath(name)]
  }

  /** A file that is neither an archive nor the sidecar of a present one. */
  ghost predicate Bystander(files: Files, service: string, name: string) {
    !IsArchive(service, name) && forall a | a in files && IsArchive(service, a) :: HashPath(a) != name
  }

  lemma BystanderKeeps(files: Files, service: string, digest: string -> string, name: string, st: Stored)
    requires AllVerify(files, service, digest) && Bystander(files, service, name)
    ensures AllVerify(files[name := st], service, digest) && ListedKept(files, files[name := st], service)
    ensures AllVerify(files - {name}, service, digest) && ListedKept(files, files - {name}, service)
  {
    var after := files[name := st];
    forall a | IsListed(after, service, a) ensures Verifies(after, digest, a) {
      assert IsListed(files, service, a);
    }
    var without := files - {name};
    forall a | IsListed(without, service, a) ensures Verifies(without, digest, a) {
      assert IsListed(files, service, a);
    }
  }

  /** Removing any file leaves whatever is still listed verifying. */
  lemma RemovalKeepsVerifying(files: Files, service: string, digest: string -> string, name: string)
    requires AllVerify(files, service, digest)
    ensures AllVerify(files - {name}, service, digest)
  {
    var without := files - {name};
    forall a | IsListed(without, service, a) ensures Verifies(without, digest, a) {
      assert IsListed(files, service, a);
    }
  }

  // --- the directory ------------------------------------------------------------------

  /** How a write fares: complete, failed before the file is opened, or failed part way. */
  datatype WriteFate = Complete | NotCreated | Torn

  function Last(states: seq<Files>): Files
    requires states != []
  {
    states[|states| - 1]
  }

  /** The states a write passes through: opening empties the file, then a part of it shows, then the whole. */
  function WriteStates(files: Files, name: string, st: Stored, part: string, fate: WriteFate): (states: seq<Files>)
    ensures states != []
  {
    var torn := [files[name := st.(data := "")], files[name := st.(data := part)]];
    match fate
    case NotCreated => [files]
    case Torn => torn
    case Complete => torn + [files[name := st]]
  }

  /** The files after trying to remove one. */
  function Without(files: Files, name: string, fails: bool): Files {
    if fails then files else files - {name}
  }

  class Directory {
    var files: Files
    ghost var trace: seq<Files>

    constructor (files: Files)
      ensures this.files == files && trace == []
    {
      this.files, trace := files, [];
    }

    /** Create or truncate a file, then write it. */
    method Write(name: string, st: Stored, part: string, fate: WriteFate) returns (ok: bool)
      modifies this
      ensures ok == fate.Complete?
      ensures files == Last(WriteStates(old(files), name, st, part, fate))
      ensures trace == old(trace) + WriteStates(old(files), name, st, part, fate)
    {
      ghost var before, was := files, trace;
      if fate.NotCreated? {
        trace := trace + [files];
        return false;
      }
      files := files[name := st.(data := "")];
      trace := trace + [files];
      files := files[name := st.(data := part)];
      trace := trace + [files];
      assert files == before[name := st.(data := part)];
      if fate.Torn? {
        return false;
      }
      files := files[name := st];
      trace := trace + [files];
      assert files == before[name := st];
      return true;
    }

    method Remove(name: string, fails: bool) returns (ok: bool)
      modifies this
      ensures ok == (!fails && name in old(files))
      ensures files == Without(old(files), name, fails)
      ensures trace == old(trace) + [files]
    {
      ok := !fails && name in files;
      if !fails {
        files := files - {name};
      }
      trace := trace + [files];
    }

    method Rename(src: string, dst: string, fails: bool) returns (ok: bool)
      modifies this
      ensures ok == (!fails && src in old(files))
      ensures files == if ok then (old(files) - {src})[dst := old(files)[src]] else old(files)
      ensures trace == old(trace) + [files]
    {
      ok := !fails && src in files;
      if ok {
        files := (files - {src})[dst := files[src]];
      }
      trace := trace + [files];
    }
  }

  // --- writing an archive -----------------------------------------------------------------

  datatype ArchiveFaults = ArchiveFaults(tar: WriteFate, sum: bool, sidecar: WriteFate, rename: bool,
                                         tarPart: string, sidecarPart: string, removePartial: bool, removeSidecar: bool)

  /** Nothing fails before the sidecar is opened. */
  predicate ReachesSidecar(faults: ArchiveFaults) {
    faults.tar.Complete? && !faults.sum && !faults.sidecar.NotCreated?
  }

  predicate Succeeds(faults: ArchiveFaults) {
    faults.tar.Complete? && !faults.sum && faults.sidecar.Complete? && !faults.rename
  }

  /** The states from the rename on. */
  function PublishStates(files: Files, archive: string, faults: ArchiveFaults): (states: seq<Files>)
    requires archive + PARTIAL_SUFFIX in files
    ensures states != []
  {
    var partial := archive + PARTIAL_SUFFIX;
    if faults.rename then
      var f := Without(files, partial, faults.removePartial);
      [files, f, Without(f, HashPath(archive), faults.removeSidecar)]
    else
      [(files - {partial})[archive := files[partial]]]
  }

  /** The states from the opening of the sidecar on. */
  function SidecarStates(files: Files, archive: string, sum: string, now: Time, faults: ArchiveFaults): (states: seq<Files>)
    requires archive + PARTIAL_SUFFIX in files
    ensures states != []
  {
    var s := WriteStates(files, HashPath(archive), Stored(sum + "\n", now), faults.sidecarPart, faults.sidecar);
    s + if faults.sidecar.Complete? then PublishStates(Last(s), archive, faults)
        else [Without(Last(s), archive + PARTIAL_SUFFIX, faults.removePartial)]
  }

  /** Every state writing an archive passes through. */
  function ArchiveStates(files: Files, archive: string, data: string, now: Time,
                         digest: string -> string, faults: ArchiveFaults): (states: seq<Files>)
    ensures states != []
  {
    var s := WriteStates(files, archive + PARTIAL_SUFFIX, Stored(data, now), faults.tarPart, faults.tar);
    s + if faults.tar.Complete? && !faults.sum then SidecarStates(Last(s), archive, digest(data), now, faults)
        else [Without(Last(s), archive + PARTIAL_SUFFIX, faults.removePartial)]
  }

  /** A state that lists only archives that verify and has lost nothing `was` listed. */
  ghost predicate Safe(was: Files, files: Files, service: string, digest: string -> string) {
    AllVerify(files, service, digest) && ListedKept(was, files, service)
  }

  /** Every state remembered from the `n`-th on is safe. */
  ghost predicate SafeSince(trace: seq<Files>, n: nat, was: Files, service: string, digest: string -> string) {
    forall i | n <= i < |trace| :: Safe(was, trace[i], service, digest)
  }

  /** Every state remembered from the `n`-th on lists only archives that verify. */
  ghost predicate AlwaysVerify(trace: seq<Files>, n: nat, service: string, digest: string -> string) {
    forall i | n <= i < |trace| :: AllVerify(trace[i], service, digest)
  }

  /** Every state remembered from the `n`-th on still lists what `was` lists, with the same bytes. */
  ghost predicate AlwaysKept(trace: seq<Files>, n: nat, was: Files, service: string) {
    forall i | n <= i < |trace| :: ListedKept(was, trace[i], service)
  }

  /** The partial file and the fresh archive's sidecar are bystanders until the final rename. */
  lemma FreshBystanders(files: Files, service: string, archive: string)
    requires archive !in files && IsArchive(service, archive)
    ensures Bystander(files, service, archive + PARTIAL_SUFFIX) && Bystander(files, service, HashPath(archive))
  {
    forall a | a in files && IsArchive(service, a)
      ensures HashPath(a) != archive + PARTIAL_SUFFIX && HashPath(a) != HashPath(archive)
    {
      KindsDisjoint(service, archive, a);
      if HashPath(a) == HashPath(archive) {
        HashPathInjective(a, archive);
      }
    }
    KindsDisjoint(service, archive, archive);
  }

  /** Before the rename, writing or removing the partial file or the sidecar is safe. */
  lemma UnpublishedSafe(was: Files, files: Files, service: string, digest: string -> string, archive: string, name: string, st: Stored)
    requires Safe(was, files, service, digest) && archive !in files && IsArchive(service, archive)
    requires name == archive + PARTIAL_SUFFIX || name == HashPath(archive)
    ensures Safe(was, files[name := st], service, digest) && archive !in files[name := st]
    ensures Safe(was, files - {name}, service, digest) && archive !in files - {name}
  {
    FreshBystanders(files, service, archive);
    KindsDisjoint(service, archive, archive);
    BystanderKeeps(files, service, digest, name, st);
  }

  /** The final rename publishes an archive that verifies and disturbs no other. */
  lemma PublishSafe(was: Files, files: Files, service: string, digest: string -> string, archive: string)
    requires Safe(was, files, service, digest) && archive !in files && IsArchive(service, archive)
    requires archive + PARTIAL_SUFFIX in files && HashPath(archive) in files
    requires files[HashPath(archive)].data == digest(files[archive + PARTIAL_SUFFIX].data) + "\n"
    ensures var after := (files - {archive + PARTIAL_SUFFIX})[archive := files[archive + PARTIAL_SUFFIX]];
            Safe(was, after, service, digest) && IsListed(after, service, archive)
  {
    var partial := archive + PARTIAL_SUFFIX;
    var after := (files - {partial})[archive := files[partial]];
    KindsDisjoint(service, archive, archive);
    forall a | IsListed(after, service, a) && a != archive ensures Verifies(after, digest, a) {
      KindsDisjoint(service, archive, a);
      KindsDisjoint(service, a, a);
      assert IsListed(files, service, a);
    }
    forall a | IsListed(was, service, a)
      ensures IsListed(after, service, a) && after[a] == was[a] && after[HashPath(a)] == was[HashPath(a)]
    {
      KindsDisjoint(service, a, a);
      KindsDisjoint(service, archive, a);
    }
  }

  /** Writing the partial file or the sidecar before the rename, however it fares. */
  lemma DraftSafe(was: Files, files: Files, service: string, digest: string -> string, archive: string,
                  name: string, st: Stored, part: string, fate: WriteFate)
    requires Safe(was, files, service, digest) && archive !in files && IsArchive(service, archive)
    requires name == archive + PARTIAL_SUFFIX || name == HashPath(archive)
    ensures var s := WriteStates(files, name, st, part, fate);
            SafeSince(s, 0, was, service, digest) && archive !in Last(s)
  {
    UnpublishedSafe(was, files, service, digest, archive, name, st.(data := ""));
    UnpublishedSafe(was, files, service, digest, archive, name, st.(data := part));
    UnpublishedSafe(was, files, service, digest, archive, name, st);
  }

  lemma PublishStatesSafe(was: Files, files: Files, service: string, digest: string -> string, archive: string, faults: ArchiveFaults)
    requires Safe(was, files, service, digest) && archive !in files && IsArchive(service, archive)
    requires archive + PARTIAL_SUFFIX in files && HashPath(archive) in files
    requires files[HashPath(archive)].data == digest(files[archive + PARTIAL_SUFFIX].data) + "\n"
    ensures var s := PublishStates(files, archive, faults);
            && SafeSince(s, 0, was, service, digest)
            && if faults.rename then archive !in Last(s) else IsListed(Last(s), service, archive)
  {
    if faults.rename {
      var partial, any := archive + PARTIAL_SUFFIX, Stored("", 0);
      UnpublishedSafe(was, files, service, digest, archive, partial, any);
      UnpublishedSafe(was, Without(files, partial, faults.removePartial), service, digest, archive, HashPath(archive), any);
    } else {
      PublishSafe(was, files, service, digest, archive);
    }
  }

  lemma SidecarStatesSafe(was: Files, files: Files, service: string, digest: string -> string, archive: string,
                          sum: string, now: Time, faults: ArchiveFaults)
    requires Safe(was, files, service, digest) && archive !in files && IsArchive(service, archive)
    requires archive + PARTIAL_SUFFIX in files && sum == digest(files[archive + PARTIAL_SUFFIX].data)
    ensures var s := SidecarStates(files, archive, sum, now, faults);
            && SafeSince(s, 0, was, service, digest)
            && if faults.sidecar.Complete? && !faults.rename then IsListed(Last(s), service, archive) else archive !in Last(s)
  {
    var sidecar := Stored(sum + "\n", now);
    DraftSafe(was, files, service, digest, archive, HashPath(archive), sidecar, faults.sidecarPart, faults.sidecar);
    var f := Last(WriteStates(files, HashPath(archive), sidecar, faults.sidecarPart, faults.sidecar));
    if faults.sidecar.Complete? {
      KindsDisjoint(service, archive, archive);
      PublishStatesSafe(was, f, service, digest, archive, faults);
    } else {
      UnpublishedSafe(was, f, service, digest, archive, archive + PARTIAL_SUFFIX, sidecar);
    }
  }

  /** With a fresh name every state on the way is safe, and the archive is listed in the end or absent. */
  lemma FreshNameSafe(files: Files, service: string, archive: string, data: string, now: Time,
                      digest: string -> string, faults: ArchiveFaults)
    requires IsArchive(service, archive) && archive !in files && AllVerify(files, service, digest)
    ensures var s := ArchiveStates(files, archive, data, now, digest, faults);
            && SafeSince(s, 0, files, service, digest)
            && if Succeeds(faults) then IsListed(Last(s), service, archive) else archive !in Last(s)
  {
    var partial, st := archive + PARTIAL_SUFFIX, Stored(data, now);
    DraftSafe(files, files, service, digest, archive, partial, st, faults.tarPart, faults.tar);
    var f := Last(WriteStates(files, partial, st, faults.tarPart, faults.tar));
    if faults.tar.Complete? && !faults.sum {
      SidecarStatesSafe(files, f, service, digest, archive, digest(data), now, faults);
    } else {
      UnpublishedSafe(files, f, service, digest, archive, partial, st);
    }
  }

  /** The partial file is a bystander under any name. */
  lemma PartialSafe(was: Files, files: Files, service: string, digest: string -> string, archive: string, st: Stored)
    requires Safe(was, files, service, digest) && IsArchive(service, archive)
    ensures Safe(was, files[archive + PARTIAL_SUFFIX := st], service, digest)
    ensures Safe(was, files - {archive + PARTIAL_SUFFIX}, service, digest)
  {
    KindsDisjoint(service, archive, archive);
    forall a | a in files && IsArchive(service, a) ensures HashPath(a) != archive + PARTIAL_SUFFIX {
      KindsDisjoint(service, archive, a);
    }
    BystanderKeeps(files, service, digest, archive + PARTIAL_SUFFIX, st);
  }

  lemma PartialStatesSafe(files: Files, service: string, digest: string -> string, archive: string, st: Stored, part: string, fate: WriteFate)
    requires AllVerify(files, service, digest) && IsArchive(service, archive)
    ensures SafeSince(WriteStates(files, archive + PARTIAL_SUFFIX, st, part, fate), 0, files, service, digest)
  {
    PartialSafe(files, files, service, digest, archive, st.(data := ""));
    PartialSafe(files, files, service, digest, archive, st.(data := part));
    PartialSafe(files, files, service, digest, archive, st);
  }

  /** Until the sidecar is opened only the partial file is touched, which is safe under any name. */
  lemma BeforeSidecarSafe(files: Files, service: string, archive: string, data: string, now: Time,
                          digest: string -> string, faults: ArchiveFaults)
    requires IsArchive(service, archive) && AllVerify(files, service, digest) && !ReachesSidecar(faults)
    ensures SafeSince(ArchiveStates(files, archive, data, now, digest, faults), 0, files, service, digest)
  {
    var st := Stored(data, now);
    PartialStatesSafe(files, service, digest, archive, st, faults.tarPart, faults.tar);
    var drafted := WriteStates(files, archive + PARTIAL_SUFFIX, st, faults.tarPart, faults.tar);
    var f := Last(drafted);
    PartialSafe(files, f, service, digest, archive, st);
    var after := Without(f, archive + PARTIAL_SUFFIX, faults.removePartial);
    var s := ArchiveStates(files, archive, data, now, digest, faults);
    if faults.tar.Complete? && !faults.sum {
      assert SidecarStates(f, archive, digest(data), now, faults) == [f] + [after];
      assert s == drafted + ([f] + [after]);
    } else {
      assert s == drafted + [after];
    }
  }

  /** The sidecar of a name already taken is emptied before it is written. */
  lemma TakenNameTruncates(files: Files, service: string, archive: string, data: string, now: Time,
                           digest: string -> string, faults: ArchiveFaults) returns (i: nat)
    requires IsArchive(service, archive) && archive in files && ReachesSidecar(faults)
    ensures var s := ArchiveStates(files, archive, data, now, digest, faults);
            && i < |s| && IsListed(s[i], service, archive) && s[i][HashPath(archive)].data == ""
            && !AllVerify(s[i], service, digest)
  {
    KindsDisjoint(service, archive, archive);
    i := 3;
    var s := ArchiveStates(files, archive, data, now, digest, faults);
    assert s[i] == files[archive + PARTIAL_SUFFIX := Stored(data, now)][HashPath(archive) := Stored("", now)];
    assert IsListed(s[i], service, archive) && !Verifies(s[i], digest, archive);
  }

  /**
   A name already taken is where the guarantee ends. Every state on the way
   lists only archives that verify exactly when the name is fresh or the run
   stops before it opens the sidecar, whatever the two archives hold.
   */
  lemma AlwaysVerifiesIff(files: Files, service: string, archive: string, data: string, now: Time,
                          digest: string -> string, faults: ArchiveFaults)
    requires IsArchive(service, archive) && AllVerify(files, service, digest)
    ensures AlwaysVerify(ArchiveStates(files, archive, data, now, digest, faults), 0, service, digest)
       <==> archive !in files || !ReachesSidecar(faults)
  {
    if archive !in files {
      FreshNameSafe(files, service, archive, data, now, digest, faults);
    } else if !ReachesSidecar(faults) {
      BeforeSidecarSafe(files, service, archive, data, now, digest, faults);
    } else {
      var i := TakenNameTruncates(files, service, archive, data, now, digest, faults);
    }
  }

  /** Touching the archive, its partial file or its sidecar keeps everything listed, if that archive was not. */
  lemma UnlistedKeeps(was: Files, files: Files, service: string, archive: string, name: string, st: Stored)
    requires IsArchive(service, archive) && !IsListed(was, service, archive) && ListedKept(was, files, service)
    requires name == archive || name == archive + PARTIAL_SUFFIX || name == HashPath(archive)
    ensures ListedKept(was, files[name := st], service) && ListedKept(was, files - {name}, service)
  {
    forall a | IsListed(was, service, a) ensures a != name && HashPath(a) != name {
      KindsDisjoint(service, archive, a);
      KindsDisjoint(service, a, archive);
      KindsDisjoint(service, archive, archive);
      if HashPath(a) == HashPath(archive) {
        HashPathInjective(a, archive);
      }
    }
  }

  lemma WriteKeeps(was: Files, files: Files, service: string, archive: string, name: string, st: Stored, part: string, fate: WriteFate)
    requires IsArchive(service, archive) && !IsListed(was, service, archive) && ListedKept(was, files, service)
    requires name == archive + PARTIAL_SUFFIX || name == HashPath(archive)
    ensures AlwaysKept(WriteStates(files, name, st, part, fate), 0, was, service)
  {
    UnlistedKeeps(was, files, service, archive, name, st.(data := ""));
    UnlistedKeeps(was, files, service, archive, name, st.(data := part));
    UnlistedKeeps(was, files, service, archive, name, st);
  }

  lemma PublishKeeps(was: Files, files: Files, service: string, archive: string, faults: ArchiveFaults)
    requires IsArchive(service, archive) && !IsListed(was, service, archive) && ListedKept(was, files, service)
    requires archive + PARTIAL_SUFFIX in files
    ensures AlwaysKept(PublishStates(files, archive, faults), 0, was, service)
  {
    var partial := archive + PARTIAL_SUFFIX;
    UnlistedKeeps(was, files, service, archive, partial, files[partial]);
    UnlistedKeeps(was, files - {partial}, service, archive, archive, files[partial]);
    UnlistedKeeps(was, Without(files, partial, faults.removePartial), service, archive, HashPath(archive), files[partial]);
  }

  /**
   Everything listed stays listed with its bytes in every state on the way
   exactly when the name is not a listed one or the run stops before it opens
   the sidecar.
   */
  lemma AlwaysKeptIff(files: Files, service: string, archive: string, data: string, now: Time,
                      digest: string -> string, faults: ArchiveFaults)
    requires IsArchive(service, archive) && AllVerify(files, service, digest)
    ensures AlwaysKept(ArchiveStates(files, archive, data, now, digest, faults), 0, files, service)
       <==> !IsListed(files, service, archive) || !ReachesSidecar(faults)
  {
    if !ReachesSidecar(faults) {
      BeforeSidecarSafe(files, service, archive, data, now, digest, faults);
    } else if IsListed(files, service, archive) {
      assert Verifies(files, digest, archive);
      var i := TakenNameTruncates(files, service, archive, data, now, digest, faults);
    } else {
      var partial, sidecar, any := archive + PARTIAL_SUFFIX, Stored(digest(data) + "\n", now), Stored("", 0);
      WriteKeeps(files, files, service, archive, partial, Stored(data, now), faults.tarPart, faults.tar);
      var f1 := files[partial := Stored(data, now)];
      WriteKeeps(files, f1, service, archive, HashPath(archive), sidecar, faults.sidecarPart, faults.sidecar);
      var f2 := Last(WriteStates(f1, HashPath(archive), sidecar, faults.sidecarPart, faults.sidecar));
      UnlistedKeeps(files, f2, service, archive, partial, any);
      PublishKeeps(files, f2, service, archive, faults);
    }
  }

  /** An archive listed before is off the list in the end exactly when a failed rename took its sidecar along. */
  lemma TakenNameStaysListedIff(files: Files, service: string, archive: string, data: string, now: Time,
                                digest: string -> string, faults: ArchiveFaults)
    requires IsListed(files, service, archive)
    ensures IsListed(Last(ArchiveStates(files, archive, data, now, digest, faults)), service, archive)
       <==> !(ReachesSidecar(faults) && faults.sidecar.Complete? && faults.rename && !faults.removeSidecar)
  {
    KindsDisjoint(service, archive, archive);
  }

  /**
   A failed write cleans up after itself: with nothing failing but the step
   itself the directory is as before, except that a sidecar that was opened
   stays torn, and one that was complete is taken away again.
   */
  lemma FailureCleansUp(files: Files, archive: string, data: string, now: Time, digest: string -> string, faults: ArchiveFaults)
    requires archive + PARTIAL_SUFFIX !in files && !Succeeds(faults) && !faults.removePartial
    ensures Last(ArchiveStates(files, archive, data, now, digest, faults))
         == if !ReachesSidecar(faults) then files
            else if faults.sidecar.Torn? then files[HashPath(archive) := Stored(faults.sidecarPart, now)]
            else if faults.removeSidecar then files[HashPath(archive) := Stored(digest(data) + "\n", now)]
            else files - {HashPath(archive)}
  {
    KindsDisjoint("", archive, archive);
  }

  /** Rename the partial file into place; a failure takes the sidecar along. */
  method Publish(dir: Directory, archive: string, faults: ArchiveFaults) returns (ok: bool)
    requires archive + PARTIAL_SUFFIX in dir.files
    modifies dir
    ensures ok == !faults.rename
    ensures var s := PublishStates(old(dir.files), archive, faults);
            dir.trace == old(dir.trace) + s && dir.files == Last(s)
  {
    ok := dir.Rename(archive + PARTIAL_SUFFIX, archive, faults.rename);
    if !ok {
      var _ := dir.Remove(archive + PARTIAL_SUFFIX, faults.removePartial);
      var _ := dir.Remove(HashPath(archive), faults.removeSidecar);
    }
  }

  /** Write the sidecar, then publish. */
  method WriteSidecar(dir: Directory, archive: string, sum: string, now: Time, faults: ArchiveFaults) returns (ok: bool)
    requires archive + PARTIAL_SUFFIX in dir.files
    modifies dir
    ensures ok == (faults.sidecar.Complete? && !faults.rename)
    ensures var s := SidecarStates(old(dir.files), archive, sum, now, faults);
            dir.trace == old(dir.trace) + s && dir.files == Last(s)
  {
    ok := dir.Write(HashPath(archive), Stored(sum + "\n", now), faults.sidecarPart, faults.sidecar);
    if ok {
      ok := Publish(dir, archive, faults);
    } else {
      var _ := dir.Remove(archive + PARTIAL_SUFFIX, faults.removePartial);
    }
  }

  /** Write an archive under a temporary name, its sidecar, then rename. */
  method WriteInSteps(dir: Directory, archive: string, data: string, now: Time,
                      digest: string -> string, faults: ArchiveFaults) returns (ok: bool)
    modifies dir
    ensures ok == Succeeds(faults)
    ensures var s := ArchiveStates(old(dir.files), archive, data, now, digest, faults);
            dir.trace == old(dir.trace) + s && dir.files == Last(s)
  {
    var partial := archive + PARTIAL_SUFFIX;
    ok := dir.Write(partial, Stored(data, now), faults.tarPart, faults.tar);
    if !ok || faults.sum {
      var _ := dir.Remove(partial, faults.removePartial);
      return false;
    }
    ok := WriteSidecar(dir, archive, digest(dir.files[partial].data), now, faults);
  }

  /**
   Write an archive, passing through exactly ArchiveStates. With a fresh name
   every state on the way, whatever fails, lists only archives that verify
   and loses none that was listed; and where that ends is stated both ways.
   */
  method WriteArchive(dir: Directory, service: string, archive: string, data: string, now: Time,
                      digest: string -> string, faults: ArchiveFaults) returns (ok: bool)
    requires IsArchive(service, archive)
    modifies dir
    ensures ok == Succeeds(faults)
    ensures var s := ArchiveStates(old(dir.files), archive, data, now, digest, faults);
            dir.trace == old(dir.trace) + s && dir.files == Last(s)
    ensures archive !in old(dir.files) && AllVerify(old(dir.files), service, digest) ==>
              && SafeSince(dir.trace, |old(dir.trace)|, old(dir.files), service, digest)
              && Safe(old(dir.files), dir.files, service, digest)
              && (if ok then IsListed(dir.files, service, archive) else archive !in dir.files)
    ensures AllVerify(old(dir.files), service, digest) ==>
              && (AlwaysVerify(dir.trace, |old(dir.trace)|, service, digest)
                  <==> archive !in old(dir.files) || !ReachesSidecar(faults))
              && (AlwaysKept(dir.trace, |old(dir.trace)|, old(dir.files), service)
                  <==> !IsListed(old(dir.files), service, archive) || !ReachesSidecar(faults))
    ensures ok ==> dir.files == (old(dir.files)[archive + PARTIAL_SUFFIX := Stored(data, now)]
                                               [HashPath(archive) := Stored(digest(data) + "\n", now)]
                                 - {archive + PARTIAL_SUFFIX})[archive := Stored(data, now)]
  {
    TraceFacts(dir.files, dir.trace, service, archive, data, now, digest, faults);
    if Succeeds(faults) {
      SuccessFiles(dir.files, archive, data, now, digest, faults);
    }
    ok := WriteInSteps(dir, archive, data, now, digest, faults);
  }

  lemma SuccessFiles(files: Files, archive: string, data: string, now: Time, digest: string -> string, faults: ArchiveFaults)
    requires Succeeds(faults)
    ensures Last(ArchiveStates(files, archive, data, now, digest, faults))
         == (files[archive + PARTIAL_SUFFIX := Stored(data, now)][HashPath(archive) := Stored(digest(data) + "\n", now)]
             - {archive + PARTIAL_SUFFIX})[archive := Stored(data, now)]
  {
    KindsDisjoint("", archive, archive);
  }

  /** What the states of one call mean at the end of a longer trace. */
  lemma TraceFacts(files: Files, trace: seq<Files>, service: string, archive: string, data: string, now: Time,
                   digest: string -> string, faults: ArchiveFaults)
    requires IsArchive(service, archive)
    ensures var s := ArchiveStates(files, archive, data, now, digest, faults);
            var all := trace + s;
            AllVerify(files, service, digest) ==>
              && (AlwaysVerify(all, |trace|, service, digest) <==> archive !in files || !ReachesSidecar(faults))
              && (AlwaysKept(all, |trace|, files, service) <==> !IsListed(files, service, archive) || !ReachesSidecar(faults))
              && (archive !in files ==>
                    && SafeSince(all, |trace|, files, service, digest) && Safe(files, Last(s), service, digest)
                    && (if Succeeds(faults) then IsListed(Last(s), service, archive) else archive !in Last(s)))
  {
    if AllVerify(files, service, digest) {
      var s := ArchiveStates(files, archive, data, now, digest, faults);
      AlwaysVerifiesIff(files, service, archive, data, now, digest, faults);
      AlwaysKeptIff(files, service, archive, data, now, digest, faults);
      assert forall i | 0 <= i < |s| :: (trace + s)[|trace| + i] == s[i];
      if archive !in files {
        FreshNameSafe(files, service, archive, data, now, digest, faults);
      }
    }
  }

  lemma AlwaysVerifyFrom(trace: seq<Files>, m: nat, n: nat, service: string, digest: string -> string)
    requires m <= n
    ensures AlwaysVerify(trace, m, service, digest) ==> AlwaysVerify(trace, n, service, digest)
  {
  }

  /**
   Two backups in one second get one name. Even with equal data and no
   failure the second passes a state that lists an archive which does not
   verify, and when its rename fails the first is off the list.
   */
  method TwoBackupsInOneSecond(service: string, stamp: string, data: string, now: Time, digest: string -> string,
                               renameFails: bool) returns (dir: Directory, first: bool, second: bool)
    ensures first && second == !renameFails
    ensures !AlwaysVerify(dir.trace, 0, service, digest)
    ensures IsListed(dir.files, service, ArchiveName(service, stamp)) <==> !renameFails
  {
    var archive := ArchiveName(service, stamp);
    ArchiveNameIsArchive(service, stamp);
    dir := new Directory(map[]);
    var none := ArchiveFaults(Complete, false, Complete, false, "", "", false, false);
    first := WriteArchive(dir, service, archive, data, now, digest, none);
    ghost var between, n := dir.files, |dir.trace|;
    assert AllVerify(between, service, digest) && IsListed(between, service, archive);
    second := WriteArchive(dir, service, archive, data, now, digest, none.(rename := renameFails));
    TakenNameStaysListedIff(between, service, archive, data, now, digest, none.(rename := renameFails));
    AlwaysVerifyFrom(dir.trace, 0, n, service, digest);
  }

  // --- retention ---------------------------------------------------------------------------

  datatype BackupInfo = BackupInfo(name: string, modTime: Time)

  /** Before the first entry that is not strictly newer. */
  function InsertNewest(x: BackupInfo, sorted: seq<BackupInfo>): seq<BackupInfo> {
    if sorted == [] || sorted[0].modTime <= x.modTime then [x] + sorted
    else [sorted[0]] + InsertNewest(x, sorted[1..])
  }

  /** Newest first; entries of one time keep their order. */
  function SortNewestFirst(infos: seq<BackupInfo>): seq<BackupInfo> {
    if infos == [] then [] else InsertNewest(infos[0], SortNewestFirst(infos[1..]))
  }

  /** The archives beyond the newest `keep`. */
  function SelectForPruning(infos: seq<BackupInfo>, keep: int): seq<BackupInfo> {
    var sorted := SortNewestFirst(infos);
    var k := if keep < 0 then 0 else keep;
    if |sorted| <= k then [] else sorted[k..]
  }

  ghost predicate NewestFirst(s: seq<BackupInfo>) {
    forall i, j | 0 <= i < j < |s| :: s[i].modTime >= s[j].modTime
  }

  /** The entries of one modification time, in order. */
  function OfTime(s: seq<BackupInfo>, t: Time): seq<BackupInfo> {
    if s == [] then []
    else if s[0].modTime == t then [s[0]] + OfTime(s[1..], t)
    else OfTime(s[1..], t)
  }

  lemma {:induction false} InsertNewestPermutes(x: BackupInfo, s: seq<BackupInfo>)
    ensures multiset(InsertNewest(x, s)) == multiset{x} + multiset(s)
    ensures InsertNewest(x, s) != []
    ensures InsertNewest(x, s)[0] == x || (s != [] && InsertNewest(x, s)[0] == s[0])
  {
    if s != [] && s[0].modTime > x.modTime {
      InsertNewestPermutes(x, s[1..]);
      assert s == [s[0]] + s[1..];
    }
  }

  /** Newest first, said of neighbours. */
  ghost predicate Descending(s: seq<BackupInfo>) {
    forall i | 0 <= i < |s| - 1 :: s[i].modTime >= s[i + 1].modTime
  }

  lemma {:induction false} DescendingIsNewestFirst(s: seq<BackupInfo>, i: nat, j: nat)
    requires Descending(s) && i <= j < |s|
    ensures s[i].modTime >= s[j].modTime
  {
    if i < j {
      DescendingIsNewestFirst(s, i, j - 1);
    }
  }

  lemma {:induction false} InsertNewestSorts(x: BackupInfo, s: seq<BackupInfo>)
    requires Descending(s)
    ensures Descending(InsertNewest(x, s))
  {
    var r := InsertNewest(x, s);
    if s == [] || s[0].modTime <= x.modTime {
      assert forall i | 1 <= i < |r| :: r[i] == s[i - 1];
    } else {
      var rest := InsertNewest(x, s[1..]);
      InsertNewestSorts(x, s[1..]);
      InsertNewestPermutes(x, s[1..]);
      assert forall i | 1 <= i < |r| :: r[i] == rest[i - 1];
    }
  }

  lemma {:induction false} InsertNewestIsStable(x: BackupInfo, s: seq<BackupInfo>, t: Time)
    ensures OfTime(InsertNewest(x, s), t) == if x.modTime == t then [x] + OfTime(s, t) else OfTime(s, t)
  {
    if s == [] || s[0].modTime <= x.modTime {
      assert ([x] + s)[1..] == s;
    } else {
      var rest := InsertNewest(x, s[1..]);
      InsertNewestIsStable(x, s[1..], t);
      assert ([s[0]] + rest)[1..] == rest;
    }
  }

  lemma {:induction false} SortSorts(infos: seq<BackupInfo>)
    ensures Descending(SortNewestFirst(infos)) && multiset(SortNewestFirst(infos)) == multiset(infos)
  {
    if infos != [] {
      SortSorts(infos[1..]);
      InsertNewestSorts(infos[0], SortNewestFirst(infos[1..]));
      InsertNewestPermutes(infos[0], SortNewestFirst(infos[1..]));
      assert infos == [infos[0]] + infos[1..];
    }
  }

  lemma {:induction false} SortKeepsTies(infos: seq<BackupInfo>, t: Time)
    ensures OfTime(SortNewestFirst(infos), t) == OfTime(infos, t)
  {
    if infos != [] {
      SortKeepsTies(infos[1..], t);
      InsertNewestIsStable(infos[0], SortNewestFirst(infos[1..]), t);
    }
  }

  /** The sort is the stable one: ordered, a permutation, and equal times keep their order. */
  lemma {:induction false} SortIsStable(infos: seq<BackupInfo>, t: Time)
    ensures NewestFirst(SortNewestFirst(infos)) && multiset(SortNewestFirst(infos)) == multiset(infos)
    ensures OfTime(SortNewestFirst(infos), t) == OfTime(infos, t)
  {
    SortSorts(infos);
    SortKeepsTies(infos, t);
    var s := SortNewestFirst(infos);
    forall i, j | 0 <= i < j < |s| ensures s[i].modTime >= s[j].modTime {
      DescendingIsNewestFirst(s, i, j);
    }
  }

  /** Pruning splits the archives: the `keep` newest stay, and none that goes is newer than one that stays. */
  lemma PruningKeepsNewest(infos: seq<BackupInfo>, keep: int) returns (kept: seq<BackupInfo>)
    ensures multiset(kept) + multiset(SelectForPruning(infos, keep)) == multiset(infos)
    ensures |kept| == if keep < 0 then 0 else if keep < |infos| then keep else |infos|
    ensures forall a, b | a in kept && b in SelectForPruning(infos, keep) :: a.modTime >= b.modTime
  {
    SortIsStable(infos, 0);
    var sorted, k := SortNewestFirst(infos), if keep < 0 then 0 else keep;
    SameLength(sorted, infos);
    if |sorted| <= k {
      kept := sorted;
    } else {
      kept := sorted[..k];
      HeadIsNewer(sorted, k);
      SplitCounts(sorted, k);
    }
  }

  lemma SplitCounts(s: seq<BackupInfo>, k: nat)
    requires k <= |s|
    ensures multiset(s[..k]) + multiset(s[k..]) == multiset(s)
  {
    assert s == s[..k] + s[k..];
  }

  lemma HeadIsNewer(s: seq<BackupInfo>, k: nat)
    requires NewestFirst(s) && k <= |s|
    ensures forall a, b | a in s[..k] && b in s[k..] :: a.modTime >= b.modTime
  {
  }

  lemma SameLength(s: seq<BackupInfo>, r: seq<BackupInfo>)
    requires multiset(s) == multiset(r)
    ensures |s| == |r|
  {
    assert |multiset(s)| == |s| && |multiset(r)| == |r|;
  }

  /** The listing: every finished archive once, with its time. */
  ghost predicate IsListing(files: Files, service: string, infos: seq<BackupInfo>) {
    && (forall i | 0 <= i < |infos| :: IsListed(files, service, infos[i].name) && infos[i].modTime == files[infos[i].name].modTime)
    && (forall i, j | 0 <= i < j < |infos| :: infos[i].name != infos[j].name)
    && (forall name | IsListed(files, service, name) :: BackupInfo(name, files[name].modTime) in infos)
  }

  method List(dir: Directory, service: string) returns (infos: seq<BackupInfo>)
    ensures IsListing(dir.files, service, infos) && NewestFirst(infos)
  {
    var found: seq<BackupInfo> := [];
    var todo := dir.files.Keys;
    while todo != {}
      invariant todo <= dir.files.Keys
      invariant forall i | 0 <= i < |found| ::
        IsListed(dir.files, service, found[i].name) && found[i].modTime == dir.files[found[i].name].modTime && found[i].name !in todo
      invariant forall i, j | 0 <= i < j < |found| :: found[i].name != found[j].name
      invariant forall name | IsListed(dir.files, service, name) && name !in todo :: BackupInfo(name, dir.files[name].modTime) in found
    {
      var name :| name in todo;
      todo := todo - {name};
      if IsArchive(service, name) && HashPath(name) in dir.files {
        found := found + [BackupInfo(name, dir.files[name].modTime)];
      }
    }
    SortIsStable(found, 0);
    infos := SortNewestFirst(found);
    ListingSorted(dir.files, service, found);
  }

  lemma {:induction false} ListingSorted(files: Files, service: string, found: seq<BackupInfo>)
    requires IsListing(files, service, found)
    ensures IsListing(files, service, SortNewestFirst(found))
  {
    SortIsStable(found, 0);
    ListingPermuted(files, service, found, SortNewestFirst(found));
  }

  lemma ListingPermuted(files: Files, service: string, found: seq<BackupInfo>, r: seq<BackupInfo>)
    requires IsListing(files, service, found) && multiset(found) == multiset(r)
    ensures IsListing(files, service, r)
  {
    PermutationKeepsDistinct(found, r);
    SameMembers(found, r);
    forall i | 0 <= i < |r|
      ensures IsListed(files, service, r[i].name) && r[i].modTime == files[r[i].name].modTime
    {
      assert r[i] in r;
    }
  }

  lemma SameMembers(s: seq<BackupInfo>, r: seq<BackupInfo>)
    requires multiset(s) == multiset(r)
    ensures forall x :: x in s <==> x in r
  {
    forall x ensures x in s <==> x in r {
      assert (x in s <==> x in multiset(s)) && (x in r <==> x in multiset(r));
    }
  }

  lemma DistinctCount(s: seq<BackupInfo>, i: nat, j: nat)
    requires i < j < |s| && s[i] == s[j]
    ensures multiset(s)[s[i]] >= 2
  {
    assert s == s[..i] + [s[i]] + s[i + 1..j] + [s[j]] + s[j + 1..];
  }

  lemma {:induction false} CountDistinct(s: seq<BackupInfo>, x: BackupInfo)
    requires forall i, j | 0 <= i < j < |s| :: s[i].name != s[j].name
    ensures multiset(s)[x] <= 1
  {
    if s != [] {
      CountDistinct(s[1..], x);
      assert s == [s[0]] + s[1..];
      if s[0] == x {
        assert x !in s[1..];
      }
    }
  }

  /** Reordering entries of distinct names, each fixed by its name, keeps the names distinct. */
  lemma PermutationKeepsDistinct(s: seq<BackupInfo>, r: seq<BackupInfo>)
    requires multiset(s) == multiset(r)
    requires forall i, j | 0 <= i < j < |s| :: s[i].name != s[j].name
    ensures forall i, j | 0 <= i < j < |r| :: r[i].name != r[j].name
  {
    forall i, j | 0 <= i < j < |r| ensures r[i].name != r[j].name {
      if r[i].name == r[j].name {
        assert r[i] in multiset(r) && r[j] in multiset(r);
        assert r[i] in s && r[j] in s;
        assert r[i] == r[j];
        DistinctCount(r, i, j);
        CountDistinct(s, r[i]);
      }
    }
  }

  /** The directory's states since the `n`-th, and its present one, list only archives that verify. */
  ghost predicate Sound(dir: Directory, n: nat, service: string, digest: string -> string)
    reads dir
  {
    AlwaysVerify(dir.trace, n, service, digest) && AllVerify(dir.files, service, digest)
  }

  /** What is listed after removing `doomed` from what `was` lists, given which removals fail. */
  ghost predicate ListedAfter(was: Files, files: Files, service: string, doomed: seq<BackupInfo>,
                              archiveFails: string -> bool, sidecarFails: string -> bool) {
    forall name :: IsListed(files, service, name) <==>
      && IsListed(was, service, name)
      && ((forall i | 0 <= i < |doomed| :: doomed[i].name != name) || (archiveFails(name) && sidecarFails(name)))
  }

  /** Removing one archive and its sidecar takes exactly that archive off the list. */
  lemma RemovedFromList(files: Files, service: string, name: string, archiveFails: bool, sidecarFails: bool, other: string)
    requires IsListed(files, service, name)
    ensures var f1 := if archiveFails then files else files - {name};
            var f2 := if sidecarFails then f1 else f1 - {HashPath(name)};
            && (IsListed(f2, service, other) <==> IsListed(files, service, other) && (other != name || (archiveFails && sidecarFails)))
            && (IsListed(f2, service, other) ==> f2[other] == files[other])
  {
    KindsDisjoint(service, name, other);
    KindsDisjoint(service, other, name);
    if IsListed(files, service, other) && HashPath(other) == HashPath(name) {
      HashPathInjective(other, name);
    }
  }

  lemma ListedAfterOneMore(was: Files, before: Files, service: string, doomed: seq<BackupInfo>, b: BackupInfo,
                           archiveFails: string -> bool, sidecarFails: string -> bool)
    requires ListedAfter(was, before, service, doomed, archiveFails, sidecarFails)
    requires IsListed(before, service, b.name)
    ensures var f1 := if archiveFails(b.name) then before else before - {b.name};
            var f2 := if sidecarFails(b.name) then f1 else f1 - {HashPath(b.name)};
            ListedAfter(was, f2, service, doomed + [b], archiveFails, sidecarFails)
  {
    var f1 := if archiveFails(b.name) then before else before - {b.name};
    var f2 := if sidecarFails(b.name) then f1 else f1 - {HashPath(b.name)};
    forall name
      ensures IsListed(f2, service, name) <==>
        && IsListed(was, service, name)
        && ((forall i | 0 <= i < |doomed + [b]| :: (doomed + [b])[i].name != name) || (archiveFails(name) && sidecarFails(name)))
    {
      RemovedFromList(before, service, b.name, archiveFails(b.name), sidecarFails(b.name), name);
      assert (doomed + [b])[|doomed|] == b;
      assert forall i | 0 <= i < |doomed| :: (doomed + [b])[i] == doomed[i];
    }
  }

  lemma StillListed(was: Files, files: Files, service: string, doomed: seq<BackupInfo>, i: nat,
                    archiveFails: string -> bool, sidecarFails: string -> bool)
    requires i < |doomed| && ListedAfter(was, files, service, doomed[..i], archiveFails, sidecarFails)
    requires IsListed(was, service, doomed[i].name)
    requires forall j, k | 0 <= j < k < |doomed| :: doomed[j].name != doomed[k].name
    ensures IsListed(files, service, doomed[i].name)
  {
    forall j | 0 <= j < i ensures doomed[..i][j].name != doomed[i].name {
      assert doomed[..i][j] == doomed[j];
    }
  }

  /** Remove an archive and its sidecar; the second is tried also when the first fails. */
  method RemovePair(dir: Directory, name: string, archiveFails: bool, sidecarFails: bool,
                    ghost n: nat, ghost service: string, ghost digest: string -> string)
    modifies dir
    ensures var f1 := if archiveFails then old(dir.files) else old(dir.files) - {name};
            dir.files == if sidecarFails then f1 else f1 - {HashPath(name)}
    ensures old(dir.trace) <= dir.trace
    ensures old(Sound(dir, n, service, digest)) ==> Sound(dir, n, service, digest)
  {
    if Sound(dir, n, service, digest) {
      RemovalKeepsVerifying(dir.files, service, digest, name);
      RemovalKeepsVerifying(dir.files, service, digest, HashPath(name));
      RemovalKeepsVerifying(dir.files - {name}, service, digest, HashPath(name));
    }
    var _ := dir.Remove(name, archiveFails);
    var _ := dir.Remove(HashPath(name), sidecarFails);
  }

  /** Exactly the files of `doomed` whose removal does not fail are gone, and all others are as they were. */
  ghost predicate FilesAfter(was: Files, files: Files, doomed: seq<BackupInfo>,
                             archiveFails: string -> bool, sidecarFails: string -> bool) {
    forall p :: Find(files, p) == if IsRemoved(p, doomed, archiveFails, sidecarFails) then None else Find(was, p)
  }

  ghost predicate IsRemoved(p: string, doomed: seq<BackupInfo>, archiveFails: string -> bool, sidecarFails: string -> bool) {
    exists i | 0 <= i < |doomed| ::
      || (p == doomed[i].name && !archiveFails(doomed[i].name))
      || (p == HashPath(doomed[i].name) && !sidecarFails(doomed[i].name))
  }

  lemma FilesAfterOneMore(was: Files, before: Files, doomed: seq<BackupInfo>, b: BackupInfo,
                          archiveFails: string -> bool, sidecarFails: string -> bool)
    requires FilesAfter(was, before, doomed, archiveFails, sidecarFails)
    ensures var f1 := if archiveFails(b.name) then before else before - {b.name};
            var f2 := if sidecarFails(b.name) then f1 else f1 - {HashPath(b.name)};
            FilesAfter(was, f2, doomed + [b], archiveFails, sidecarFails)
  {
    var f1 := if archiveFails(b.name) then before else before - {b.name};
    var f2 := if sidecarFails(b.name) then f1 else f1 - {HashPath(b.name)};
    var more := doomed + [b];
    forall p ensures Find(f2, p) == if IsRemoved(p, more, archiveFails, sidecarFails) then None else Find(was, p) {
      assert more[|doomed|] == b && forall i | 0 <= i < |doomed| :: more[i] == doomed[i];
      assert IsRemoved(p, more, archiveFails, sidecarFails) <==>
        || IsRemoved(p, doomed, archiveFails, sidecarFails)
        || (p == b.name && !archiveFails(b.name)) || (p == HashPath(b.name) && !sidecarFails(b.name));
    }
  }

  /** Remove the selected archives one after the other. */
  method RemoveAllOf(dir: Directory, service: string, doomed: seq<BackupInfo>, ghost digest: string -> string,
                     archiveFails: string -> bool, sidecarFails: string -> bool)
    requires forall i | 0 <= i < |doomed| :: IsListed(dir.files, service, doomed[i].name)
    requires forall i, j | 0 <= i < j < |doomed| :: doomed[i].name != doomed[j].name
    modifies dir
    ensures old(dir.trace) <= dir.trace
    ensures AllVerify(old(dir.files), service, digest) ==> Sound(dir, |old(dir.trace)|, service, digest)
    ensures ListedAfter(old(dir.files), dir.files, service, doomed, archiveFails, sidecarFails)
    ensures FilesAfter(old(dir.files), dir.files, doomed, archiveFails, sidecarFails)
  {
    ghost var n, was := |dir.trace|, dir.files;
    for i := 0 to |doomed|
      invariant old(dir.trace) <= dir.trace
      invariant AllVerify(was, service, digest) ==> Sound(dir, n, service, digest)
      invariant ListedAfter(was, dir.files, service, doomed[..i], archiveFails, sidecarFails)
      invariant FilesAfter(was, dir.files, doomed[..i], archiveFails, sidecarFails)
    {
      var b := doomed[i];
      StillListed(was, dir.files, service, doomed, i, archiveFails, sidecarFails);
      ListedAfterOneMore(was, dir.files, service, doomed[..i], b, archiveFails, sidecarFails);
      FilesAfterOneMore(was, dir.files, doomed[..i], b, archiveFails, sidecarFails);
      assert doomed[..i + 1] == doomed[..i] + [b];
      RemovePair(dir, b.name, archiveFails(b.name), sidecarFails(b.name), n, service, digest);
    }
    assert doomed[..|doomed|] == doomed;
  }

  /**
   Delete the archives beyond the newest `keep`, with their sidecars. Either
   removal may fail. Every state on the way lists only archives that verify;
   in the end exactly those are off the list that were selected and lost at
   least one of their two files.
   */
  method Prune(dir: Directory, service: string, keep: int, ghost digest: string -> string,
               archiveFails: string -> bool, sidecarFails: string -> bool) returns (ghost infos: seq<BackupInfo>)
    modifies dir
    ensures IsListing(old(dir.files), service, infos)
    ensures old(dir.trace) <= dir.trace
    ensures AllVerify(old(dir.files), service, digest) ==> Sound(dir, |old(dir.trace)|, service, digest)
    ensures ListedAfter(old(dir.files), dir.files, service, SelectForPruning(infos, keep), archiveFails, sidecarFails)
    ensures FilesAfter(old(dir.files), dir.files, SelectForPruning(infos, keep), archiveFails, sidecarFails)
  {
    var listed := List(dir, service);
    infos := listed;
    SelectedAreListed(dir.files, service, listed, keep);
    RemoveAllOf(dir, service, SelectForPruning(listed, keep), digest, archiveFails, sidecarFails);
  }

  lemma SelectedAreListed(files: Files, service: string, infos: seq<BackupInfo>, keep: int)
    requires IsListing(files, service, infos)
    ensures forall i | 0 <= i < |SelectForPruning(infos, keep)| :: IsListed(files, service, SelectForPruning(infos, keep)[i].name)
    ensures var d := SelectForPruning(infos, keep);
            forall i, j | 0 <= i < j < |d| :: d[i].name != d[j].name
  {
    ListingSorted(files, service, infos);
  }
}
