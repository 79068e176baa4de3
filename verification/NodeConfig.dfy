/**
 Saving config.json: the previous file is copied to a backup name of its
 own, the new one written beside it and renamed into place.
 */
module NodeConfig {
  import opened Common
  import opened Decimal

  type Files = map<string, string>

  const MAX_PROBES := 100

  // --- choosing a backup name -----------------------------------------------------

  function Base(path: string, unix: int): string { path + ".bak." + Itoa(unix) }

  function TmpName(path: string): string { path + ".tmp" }

  /** The `n`-th name tried. */
  function Candidate(base: string, n: nat): string {
    if n == 0 then base else base + "-" + Itoa(n)
  }

  datatype Choice = Name(name: string) | StatError | TooMany

  /** The first free candidate from the `n`-th on; any stat error but "does not exist" ends the search. */
  function FirstFree(files: Files, base: string, statFails: string -> bool, n: nat): (c: Choice)
    requires n <= MAX_PROBES
    decreases MAX_PROBES - n
  {
    if n == MAX_PROBES then TooMany
    else if statFails(Candidate(base, n)) then StatError
    else if Candidate(base, n) !in files then Name(Candidate(base, n))
    else FirstFree(files, base, statFails, n + 1)
  }

  /**
   The search is bounded: all candidates before the `k`-th are taken, and it
   ends there with a free name, at a stat error, or as full after 100 probes.
   */
  lemma {:induction false} FirstFreeIsFirst(files: Files, base: string, statFails: string -> bool, n: nat) returns (k: nat)
    requires n <= MAX_PROBES
    ensures n <= k <= MAX_PROBES && forall j | n <= j < k :: Candidate(base, j) in files && !statFails(Candidate(base, j))
    ensures match FirstFree(files, base, statFails, n)
            case Name(name) => k < MAX_PROBES && name == Candidate(base, k) && name !in files && !statFails(name)
            case StatError => k < MAX_PROBES && statFails(Candidate(base, k))
            case TooMany => k == MAX_PROBES
    decreases MAX_PROBES - n
  {
    if n < MAX_PROBES && !statFails(Candidate(base, n)) && Candidate(base, n) in files {
      k := FirstFreeIsFirst(files, base, statFails, n + 1);
    } else {
      k := n;
    }
  }

  // --- one save -----------------------------------------------------------------------

  /** No two probes try the same name. */
  lemma CandidatesDistinct(base: string, m: nat, n: nat)
    ensures Candidate(base, m) == Candidate(base, n) ==> m == n
  {
    ValueOfDigits(m);
    ValueOfDigits(n);
    assert m > 0 ==> Candidate(base, m)[|base| + 1..] == Itoa(m) && |Candidate(base, m)| > |base|;
    assert n > 0 ==> Candidate(base, n)[|base| + 1..] == Itoa(n) && |Candidate(base, n)| > |base|;
  }

  /** How a write fares: complete, failed before the file exists, or failed leaving a part. */
  datatype WriteFate = Complete | NotCreated | Torn(part: string)

  datatype SaveFaults = SaveFaults(prepare: bool, read: bool, stat: string -> bool, backup: WriteFate, tmp: WriteFate,
                                   rename: bool, cleanup: bool)

  datatype SaveCall = SaveCall(data: string, unix: int, faults: SaveFaults)

  /** The answer of a save: the backup path, none when nothing was copied. */
  datatype Saved = Saved(ok: bool, backup: Option<string>)

  function Written(files: Files, name: string, data: string, fate: WriteFate): Files {
    match fate
    case Complete => files[name := data]
    case NotCreated => files
    case Torn(part) => files[name := part]
  }

  /** Write the new content beside the file and rename it into place. */
  function Replace(files: Files, path: string, c: SaveCall, backup: Option<string>): (Files, Saved) {
    var f := Written(files, TmpName(path), c.data, c.faults.tmp);
    if !c.faults.tmp.Complete? then (f, Saved(false, backup))
    else if c.faults.rename then (if c.faults.cleanup then f else f - {TmpName(path)}, Saved(false, backup))
    else ((f - {TmpName(path)})[path := c.data], Saved(true, backup))
  }

  function Save(files: Files, path: string, c: SaveCall): (Files, Saved) {
    if c.faults.prepare then (files, Saved(false, None))
    else if path !in files || c.faults.read then Replace(files, path, c, None)
    else
      var choice := FirstFree(files, Base(path, c.unix), c.faults.stat, 0);
      if !choice.Name? then (files, Saved(false, None))
      else
        var f := Written(files, choice.name, files[path], c.faults.backup);
        if c.faults.backup.Complete? then Replace(f, path, c, Some(choice.name)) else (f, Saved(false, None))
  }

  /** The `n`-th candidate is the first free one, and no probe up to it fails. */
  ghost predicate FreeAt(files: Files, base: string, statFails: string -> bool, n: nat) {
    && (forall j | 0 <= j < n :: Candidate(base, j) in files && !statFails(Candidate(base, j)))
    && Candidate(base, n) !in files && !statFails(Candidate(base, n))
  }

  /** The old content is copied to the `n`-th candidate. */
  ghost predicate CopiesTo(files: Files, path: string, c: SaveCall, n: nat) {
    n < MAX_PROBES && FreeAt(files, Base(path, c.unix), c.faults.stat, n) && c.faults.backup.Complete?
  }

  /** Everything a save needs: its own three steps, and a copy of the old content where there is one to read. */
  ghost predicate GoesThrough(files: Files, path: string, c: SaveCall) {
    && !c.faults.prepare && c.faults.tmp.Complete? && !c.faults.rename
    && (path !in files || c.faults.read || exists n: nat :: CopiesTo(files, path, c, n))
  }

  /**
   A save succeeds exactly when nothing it needs fails, also the second one
   in a second. A backup is returned exactly when the old content was copied,
   also by a save that fails later, and it is the first free candidate.
   */
  lemma SaveOkIff(files: Files, path: string, c: SaveCall)
    ensures var r := Save(files, path, c).1;
            && (r.ok <==> GoesThrough(files, path, c))
            && (r.backup.Some? <==> !c.faults.prepare && path in files && !c.faults.read && exists n: nat :: CopiesTo(files, path, c, n))
            && (r.backup.Some? ==> forall n: nat | CopiesTo(files, path, c, n) :: r.backup == Some(Candidate(Base(path, c.unix), n)))
  {
    var base := Base(path, c.unix);
    var k := FirstFreeIsFirst(files, base, c.faults.stat, 0);
    var choice := FirstFree(files, base, c.faults.stat, 0);
    if choice.Name? {
      assert FreeAt(files, base, c.faults.stat, k);
      assert c.faults.backup.Complete? ==> CopiesTo(files, path, c, k);
    }
    forall n: nat | CopiesTo(files, path, c, n) ensures choice == Name(Candidate(base, n)) && n == k {
      FreeIsFound(files, base, c.faults.stat, n, 0);
    }
  }

  /** So a save that meets no failure is refused only by 100 backups of one second. */
  lemma RefusedOnlyWhenFull(files: Files, path: string, c: SaveCall)
    requires !c.faults.prepare && c.faults.backup.Complete? && c.faults.tmp.Complete? && !c.faults.rename
    requires forall name :: !c.faults.stat(name)
    ensures || Save(files, path, c).1.ok
            || (path in files && forall n: nat | n < MAX_PROBES :: Candidate(Base(path, c.unix), n) in files)
  {
    SaveOkIff(files, path, c);
    var base := Base(path, c.unix);
    var k := FirstFreeIsFirst(files, base, c.faults.stat, 0);
    if k < MAX_PROBES {
      assert FreeAt(files, base, c.faults.stat, k);
      assert CopiesTo(files, path, c, k);
    }
  }

  lemma {:induction false} FreeIsFound(files: Files, base: string, statFails: string -> bool, n: nat, from: nat)
    requires from <= n < MAX_PROBES && FreeAt(files, base, statFails, n)
    ensures FirstFree(files, base, statFails, from) == Name(Candidate(base, n))
    decreases n - from
  {
    if from < n {
      FreeIsFound(files, base, statFails, n, from + 1);
    }
  }

  class ConfigDir {
    var files: Files

    method BackupName(path: string, unix: int, statFails: string -> bool) returns (choice: Choice)
      ensures choice == FirstFree(files, Base(path, unix), statFails, 0)
    {
      var base := Base(path, unix);
      var name := base;
      for n := 1 to MAX_PROBES + 1
        invariant name == Candidate(base, n - 1)
        invariant FirstFree(files, base, statFails, 0) == FirstFree(files, base, statFails, n - 1)
      {
        if statFails(name) {
          return StatError;
        }
        if name !in files {
          return Name(name);
        }
        name := base + "-" + Itoa(n);
      }
      return TooMany;
    }

    method WriteFile(name: string, data: string, fate: WriteFate) returns (ok: bool)
      modifies this
      ensures ok == fate.Complete? && files == Written(old(files), name, data, fate)
    {
      match fate {
        case Complete =>
          files := files[name := data];
        case NotCreated =>
        case Torn(part) =>
          files := files[name := part];
      }
      ok := fate.Complete?;
    }

    method SaveUnchecked(path: string, c: SaveCall) returns (r: Saved)
      modifies this
      ensures (files, r) == Save(old(files), path, c)
      ensures r.ok <==> GoesThrough(old(files), path, c)
    {
      SaveOkIff(files, path, c);
      if c.faults.prepare {
        return Saved(false, None);
      }
      var backup: Option<string> := None;
      if path in files && !c.faults.read {
        var current := files[path];
        var choice := BackupName(path, c.unix, c.faults.stat);
        if !choice.Name? {
          return Saved(false, None);
        }
        var copied := WriteFile(choice.name, current, c.faults.backup);
        if !copied {
          return Saved(false, None);
        }
        backup := Some(choice.name);
      }
      var written := WriteFile(TmpName(path), c.data, c.faults.tmp);
      if !written {
        return Saved(false, backup);
      }
      if c.faults.rename {
        if !c.faults.cleanup {
          files := files - {TmpName(path)};
        }
        return Saved(false, backup);
      }
      files := (files - {TmpName(path)})[path := c.data];
      return Saved(true, backup);
    }
  }

  // --- whole runs ---------------------------------------------------------------------

  /** The directory after the first `k` saves. */
  function After(files: Files, path: string, calls: seq<SaveCall>, k: nat): Files
    requires k <= |calls|
  {
    if k == 0 then files else Save(After(files, path, calls, k - 1), path, calls[k - 1]).0
  }

  /** A backup name is neither the file nor its temporary name. */
  lemma CandidateApart(path: string, unix: int, n: nat)
    ensures Candidate(Base(path, unix), n) != path && Candidate(Base(path, unix), n) != TmpName(path)
  {
    var c := Candidate(Base(path, unix), n);
    assert |c| >= |path| + 5 && c[|path| + 1] == ".bak."[1];
    assert |TmpName(path)| == |path| + 4;
  }

  /** Whatever fails, a save leaves every existing file but the two it owns as it was. */
  lemma SaveKeepsOthers(files: Files, path: string, c: SaveCall, p: string)
    requires p in files && p != path && p != TmpName(path)
    ensures Find(Save(files, path, c).0, p) == Some(files[p])
  {
    var _ := FirstFreeIsFirst(files, Base(path, c.unix), c.faults.stat, 0);
  }

  /**
   One save is all or nothing for config.json, and on success hands over the
   previous content exactly when that content could be read.
   */
  lemma SaveAllOrNothing(files: Files, path: string, c: SaveCall)
    ensures var (f, r) := Save(files, path, c);
            && Find(f, path) == (if r.ok then Some(c.data) else Find(files, path))
            && (r.ok && path in files ==>
                  (r.backup.Some? <==> !c.faults.read)
                  && (r.backup.Some? ==> r.backup.value !in files && r.backup.value != path && r.backup.value != TmpName(path)
                                         && Find(f, r.backup.value) == Some(files[path])))
  {
    var choice := FirstFree(files, Base(path, c.unix), c.faults.stat, 0);
    var k := FirstFreeIsFirst(files, Base(path, c.unix), c.faults.stat, 0);
    assert TmpName(path) != path by { assert |TmpName(path)| == |path| + 4; }
    CandidateApart(path, c.unix, k);
  }

  lemma {:induction false} FileStays(files: Files, path: string, calls: seq<SaveCall>, k: nat, p: string)
    requires k <= |calls| && p in files && p != path && p != TmpName(path)
    ensures Find(After(files, path, calls, k), p) == Some(files[p])
  {
    if k > 0 {
      FileStays(files, path, calls, k - 1, p);
      SaveKeepsOthers(After(files, path, calls, k - 1), path, calls[k - 1], p);
    }
  }

  /**
   No version is lost: from any state, the content a successful save replaces
   stays byte for byte in the backup path that save returned, over any run of
   later saves, failing ones included and many in one second. The one
   exception is a file that could not be read, which is replaced uncopied.
   */
  lemma VersionStays(files: Files, path: string, c: SaveCall, later: seq<SaveCall>, k: nat)
    requires path in files && Save(files, path, c).1.ok && k <= |later|
    ensures var (next, r) := Save(files, path, c);
            && (r.backup.Some? <==> !c.faults.read)
            && (r.backup.Some? ==> Find(After(next, path, later, k), r.backup.value) == Some(files[path]))
  {
    SaveAllOrNothing(files, path, c);
    var (next, r) := Save(files, path, c);
    if r.backup.Some? {
      FileStays(next, path, later, k, r.backup.value);
    }
  }

  /** Backups of one run never share a path. */
  lemma {:induction false} BackupsDistinct(files: Files, path: string, c: SaveCall, later: seq<SaveCall>, k: nat)
    requires path in files && Save(files, path, c).1.ok && !c.faults.read && k < |later|
    ensures var (next, r) := Save(files, path, c);
            var again := Save(After(next, path, later, k), path, later[k]).1;
            path in After(next, path, later, k) && again.ok ==> r.backup != again.backup
  {
    var next := Save(files, path, c).0;
    VersionStays(files, path, c, later, k);
    SaveAllOrNothing(After(next, path, later, k), path, later[k]);
  }

  ghost predicate IsBackupName(path: string, unix: int, p: string) {
    exists n: nat :: n < MAX_PROBES && p == Candidate(Base(path, unix), n)
  }

  /** A save touches config.json only on success, its temporary file, and one new backup. */
  lemma SaveTouches(files: Files, path: string, c: SaveCall, p: string)
    requires p != TmpName(path) && Find(Save(files, path, c).0, p) != Find(files, p)
    ensures (p == path && Save(files, path, c).1.ok) || (p !in files && IsBackupName(path, c.unix, p))
  {
    var choice := FirstFree(files, Base(path, c.unix), c.faults.stat, 0);
    var k := FirstFreeIsFirst(files, Base(path, c.unix), c.faults.stat, 0);
    SaveAllOrNothing(files, path, c);
    if p != path {
      assert choice.Name? && p == choice.name == Candidate(Base(path, c.unix), k);
    }
  }

  /** The temporary file is gone after a success, and after a failed rename unless removing it failed too. */
  lemma SaveLeavesNoTmp(files: Files, path: string, c: SaveCall)
    requires TmpName(path) !in files
    ensures TmpName(path) in Save(files, path, c).0 ==>
              !Save(files, path, c).1.ok && (c.faults.tmp.Torn? || (c.faults.rename && c.faults.cleanup))
  {
    var k := FirstFreeIsFirst(files, Base(path, c.unix), c.faults.stat, 0);
    assert TmpName(path) != path by { assert |TmpName(path)| == |path| + 4; }
    CandidateApart(path, c.unix, k);
  }

  /** A file that exists but cannot be read: the save succeeds and its only copy is gone. */
  lemma UnreadableVersionIsLost(files: Files, path: string, c: SaveCall)
    requires path in files && c.faults.read && !c.faults.prepare && c.faults.tmp.Complete? && !c.faults.rename
    requires c.data != files[path] && forall p | p in files && p != path :: files[p] != files[path]
    ensures var (f, r) := Save(files, path, c);
            r == Saved(true, None) && forall p | p in f :: f[p] != files[path]
  {
  }
}
