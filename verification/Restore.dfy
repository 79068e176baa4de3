/**
 Restoring chain data: the current folders are moved aside, the staged ones
 renamed into place, and a failure puts everything back. Any single
 operation may fail.
 */
module Restore {
  import opened Common
  import opened FileTree

  const FOLDERS: seq<string> := ["nom", "network", "consensus", "cache"]

  function Live(folder: string): Path { Path(DataDir, folder) }

  function Aside(folder: string, stamp: string): Path { Path(SafetyDir, folder + ".bak." + stamp) }

  lemma AsideInjective(a: string, b: string, stamp: string)
    requires Aside(a, stamp) == Aside(b, stamp)
    ensures a == b
  {
    var s := ".bak." + stamp;
    assert a + ".bak." + stamp == a + s && b + ".bak." + stamp == b + s;
    assert |a| == |b| && (a + s)[..|a|] == a && (b + s)[..|b|] == b;
  }

  /** The chain-data folders an archive holds, in their fixed order. */
  function FoldersIn(present: set<string>): (m: seq<string>)
    ensures forall i, j | 0 <= i < j < |m| :: m[i] != m[j]
    ensures forall f | f in m :: f in FOLDERS && f in present
    ensures forall f | f in FOLDERS && f in present :: f in m
  {
    (if "nom" in present then ["nom"] else []) + (if "network" in present then ["network"] else [])
    + (if "consensus" in present then ["consensus"] else []) + (if "cache" in present then ["cache"] else [])
  }

  /** The manifest of an archive; one without any chain-data folder is refused. */
  function Manifest(present: set<string>): (m: Option<seq<string>>)
    ensures m.None? <==> forall f | f in FOLDERS :: f !in present
    ensures m.Some? ==> forall f :: f in m.value <==> f in FOLDERS && f in present
    ensures m.Some? ==> forall i, j | 0 <= i < j < |m.value| :: m.value[i] != m.value[j]
  {
    var folders := FoldersIn(present);
    if folders == [] then
      assert forall f | f in FOLDERS && f in present :: f in folders;
      None
    else
      assert folders[0] in folders;
      Some(folders)
  }

  /** Which operations fail, and what a failed removal leaves behind. */
  datatype Faults = Faults(
    prepare: bool, stop: bool, start: bool, mkdir: bool,
    aside: string -> bool, install: string -> bool, clear: string -> bool, back: string -> bool,
    residue: string -> Node)

  /** How a restore ends. */
  datatype Outcome =
    | NotStarted
    | Restored(running: bool)
    | PutBack(running: bool)
    | NotPutBack

  /** `t` is `was` with the folders `gone` moved aside and nothing else changed. */
  ghost predicate MovedAside(was: Tree, t: Tree, gone: set<string>, stamp: string) {
    && (forall f | f in gone :: IsDir(was, Live(f)) && Aside(f, stamp) !in was
                             && Live(f) !in t && Find(t, Aside(f, stamp)) == Some(was[Live(f)]))
    && (forall p: Path | !IsMoved(p, gone, stamp) :: SameAt(was, t, p))
  }

  /** A path that moving `gone` aside empties or fills. */
  ghost predicate IsMoved(p: Path, gone: set<string>, stamp: string) {
    exists f | f in gone :: p == Live(f) || p == Aside(f, stamp)
  }

  lemma MoveOneAside(was: Tree, t: Tree, gone: set<string>, stamp: string, f: string)
    requires MovedAside(was, t, gone, stamp) && f !in gone
    requires IsDir(t, Live(f)) && Aside(f, stamp) !in t
    ensures MovedAside(was, Moved(t, Live(f), Aside(f, stamp)), gone + {f}, stamp)
  {
    var t1 := Moved(t, Live(f), Aside(f, stamp));
    forall g | g in gone ensures Aside(g, stamp) != Aside(f, stamp) {
      if Aside(g, stamp) == Aside(f, stamp) {
        AsideInjective(g, f, stamp);
      }
    }
    assert !IsMoved(Live(f), gone, stamp) && !IsMoved(Aside(f, stamp), gone, stamp);
    assert SameAt(was, t, Live(f)) && SameAt(was, t, Aside(f, stamp));
    forall p: Path | !IsMoved(p, gone + {f}, stamp) ensures SameAt(was, t1, p) {
      assert p != Live(f) && p != Aside(f, stamp) by {
        assert f in gone + {f};
      }
      assert !IsMoved(p, gone, stamp);
    }
  }

  /** No existing folder meets a failed move or a name already taken. */
  ghost predicate CanMoveAside(was: Tree, folders: seq<string>, stamp: string, faults: Faults) {
    !faults.mkdir && forall f | f in folders && IsDir(was, Live(f)) :: Aside(f, stamp) !in was && !faults.aside(f)
  }

  lemma UnmovedSame(was: Tree, t: Tree, gone: set<string>, stamp: string, f: string)
    requires MovedAside(was, t, gone, stamp) && f !in gone
    ensures SameAt(was, t, Live(f)) && SameAt(was, t, Aside(f, stamp))
  {
    forall g | g in gone ensures Aside(g, stamp) != Aside(f, stamp) {
      if Aside(g, stamp) == Aside(f, stamp) {
        AsideInjective(g, f, stamp);
      }
    }
    assert !IsMoved(Live(f), gone, stamp) && !IsMoved(Aside(f, stamp), gone, stamp);
  }

  /**
   Move the folders that exist aside, stopping at the first failure. The
   result names what was moved so far, so that it can be put back.
   */
  method MoveAside(disk: Disk, folders: seq<string>, stamp: string, faults: Faults) returns (moved: set<string>, ok: bool)
    requires forall i, j | 0 <= i < j < |folders| :: folders[i] != folders[j]
    modifies disk
    ensures MovedAside(old(disk.tree), disk.tree, moved, stamp)
    ensures forall f | f in moved :: f in folders
    ensures ok ==> forall f | f in folders :: IsDir(old(disk.tree), Live(f)) <==> f in moved
    ensures ok <==> CanMoveAside(old(disk.tree), folders, stamp, faults)
  {
    moved := {};
    if faults.mkdir {
      return moved, false;
    }
    for i := 0 to |folders|
      invariant MovedAside(old(disk.tree), disk.tree, moved, stamp)
      invariant forall f | f in moved :: f in folders[..i]
      invariant forall j | 0 <= j < i :: IsDir(old(disk.tree), Live(folders[j])) <==> folders[j] in moved
      invariant forall f | f in moved :: !faults.aside(f)
    {
      var f := folders[i];
      assert f !in moved;
      UnmovedSame(old(disk.tree), disk.tree, moved, stamp, f);
      if IsDir(disk.tree, Live(f)) {
        if Aside(f, stamp) in disk.tree {
          return moved, false;
        }
        ghost var before := disk.tree;
        var done := disk.MvEntry(Live(f), Aside(f, stamp), faults.aside(f));
        if !done {
          return moved, false;
        }
        MoveOneAside(old(disk.tree), before, moved, stamp, f);
        moved := moved + {f};
      }
    }
    return moved, true;
  }

  /**
   What putting the folders `moved` back must achieve, whatever was installed
   over them since: with `ok` each is live again with its old contents and
   its copy is gone; otherwise each is at least in one of the two places.
   */
  ghost predicate Returned(was: Tree, t: Tree, todo: set<string>, moved: set<string>, stamp: string, ok: bool) {
    && (forall f | f in todo && f in moved :: Find(t, Aside(f, stamp)) == Find(was, Aside(f, stamp)))
    && (forall f | f in moved && f !in todo ::
          if ok then Find(t, Live(f)) == Find(was, Aside(f, stamp)) && Aside(f, stamp) !in t
          else Find(t, Live(f)) == Find(was, Aside(f, stamp)) || Find(t, Aside(f, stamp)) == Find(was, Aside(f, stamp)))
    && (forall p: Path | !IsMoved(p, moved, stamp) :: SameAt(was, t, p))
  }

  /** Each folder done whose own removal and move do not fail is live again, whatever befalls the others. */
  ghost predicate UnhinderedBack(was: Tree, t: Tree, todo: set<string>, moved: set<string>, stamp: string, faults: Faults) {
    forall f | f in moved && f !in todo && !faults.clear(f) && !faults.back(f) ::
      Find(t, Live(f)) == Find(was, Aside(f, stamp)) && Aside(f, stamp) !in t
  }

  /** One folder of a rollback changes only that folder and its copy. */
  lemma ReturnOne(was: Tree, t: Tree, t1: Tree, todo: set<string>, moved: set<string>, stamp: string, ok: bool, f: string, done: bool)
    requires Returned(was, t, todo, moved, stamp, ok) && f in todo && f in moved
    requires forall p: Path | p != Live(f) && p != Aside(f, stamp) :: SameAt(t, t1, p)
    requires if done then Find(t1, Live(f)) == Find(was, Aside(f, stamp)) && Aside(f, stamp) !in t1
             else SameAt(t, t1, Aside(f, stamp))
    ensures Returned(was, t1, todo - {f}, moved, stamp, ok && done)
    ensures forall g | g in moved && g != f :: SameAt(t, t1, Live(g)) && SameAt(t, t1, Aside(g, stamp))
  {
    forall g | g in moved && g != f ensures SameAt(t, t1, Live(g)) && SameAt(t, t1, Aside(g, stamp)) {
      if Aside(g, stamp) == Aside(f, stamp) {
        AsideInjective(g, f, stamp);
      }
    }
    assert IsMoved(Live(f), moved, stamp) && IsMoved(Aside(f, stamp), moved, stamp);
    forall p: Path | !IsMoved(p, moved, stamp) ensures SameAt(was, t1, p) {
      assert SameAt(was, t, p) && SameAt(t, t1, p);
    }
  }

  /**
   Put moved folders back, in whatever order the map yields them. Anything
   installed meanwhile is removed first; it keeps going after a failure.
   */
  method MoveBack(disk: Disk, moved: set<string>, stamp: string, faults: Faults) returns (ok: bool)
    requires forall f | f in moved :: Aside(f, stamp) in disk.tree
    modifies disk
    ensures Returned(old(disk.tree), disk.tree, {}, moved, stamp, ok)
    ensures UnhinderedBack(old(disk.tree), disk.tree, {}, moved, stamp, faults)
    ensures !ok ==> exists f | f in moved :: faults.clear(f) || faults.back(f)
  {
    ok := true;
    var todo := moved;
    while todo != {}
      invariant todo <= moved
      invariant Returned(old(disk.tree), disk.tree, todo, moved, stamp, ok)
      invariant UnhinderedBack(old(disk.tree), disk.tree, todo, moved, stamp, faults)
      invariant !ok ==> exists f | f in moved :: faults.clear(f) || faults.back(f)
    {
      var f :| f in todo;
      ghost var before := disk.tree;
      var cleared := true;
      if Live(f) in disk.tree {
        cleared := disk.RemoveAll(Live(f), faults.clear(f), faults.residue(f));
      }
      var done := false;
      if cleared {
        done := disk.MvEntry(Aside(f, stamp), Live(f), faults.back(f));
      }
      ReturnOne(old(disk.tree), before, disk.tree, todo, moved, stamp, ok, f, done);
      ok := ok && done;
      todo := todo - {f};
    }
  }

  /** `t` is `was` with the first `k` staged folders installed. */
  ghost predicate Installed(was: Tree, t: Tree, folders: seq<string>, k: nat, staged: map<string, map<string, Node>>)
    requires k <= |folders| && forall f | f in folders :: f in staged
  {
    && (forall i | 0 <= i < k :: Live(folders[i]) !in was && Find(t, Live(folders[i])) == Some(Dir(staged[folders[i]])))
    && (forall p: Path | !(p.place == DataDir && p.name in folders[..k]) :: SameAt(was, t, p))
  }

  /** Rename the staged folders into place, stopping at the first failure. */
  method InstallAll(disk: Disk, folders: seq<string>, staged: map<string, map<string, Node>>, faults: Faults) returns (ok: bool, ghost k: nat)
    requires forall f | f in folders :: f in staged
    requires forall i, j | 0 <= i < j < |folders| :: folders[i] != folders[j]
    modifies disk
    ensures k <= |folders| && Installed(old(disk.tree), disk.tree, folders, k, staged)
    ensures ok ==> k == |folders|
    ensures ok <==> forall f | f in folders :: Live(f) !in old(disk.tree) && !faults.install(f)
  {
    for i := 0 to |folders|
      invariant forall j | 0 <= j < i :: !faults.install(folders[j])
      invariant Installed(old(disk.tree), disk.tree, folders, i, staged)
    {
      var f := folders[i];
      ghost var before := disk.tree;
      assert Live(f).name !in folders[..i] && SameAt(old(disk.tree), before, Live(f));
      var done := disk.Install(Dir(staged[f]), Live(f), faults.install(f));
      if !done {
        return false, i;
      }
      assert folders[..i + 1] == folders[..i] + [f];
    }
    return true, |folders|;
  }

  /** The folders of the manifest that existed as directories have their old contents, live. */
  ghost predicate OldDataLive(was: Tree, t: Tree, folders: seq<string>) {
    forall f | f in folders && IsDir(was, Live(f)) :: Find(t, Live(f)) == Some(was[Live(f)])
  }

  /** Each such folder whose own removal and move back do not fail is live with its old contents. */
  ghost predicate UnhinderedLive(was: Tree, t: Tree, folders: seq<string>, faults: Faults) {
    forall f | f in folders && IsDir(was, Live(f)) && !faults.clear(f) && !faults.back(f) :: Find(t, Live(f)) == Some(was[Live(f)])
  }

  /** Nothing outside the manifest folders and their safety copies changed. */
  ghost predicate OthersSame(was: Tree, t: Tree, folders: seq<string>, stamp: string) {
    forall p: Path | !(exists f | f in folders :: p == Live(f) || p == Aside(f, stamp)) :: SameAt(was, t, p)
  }

  /** Every folder that existed still has its old contents, live or as its safety copy. */
  ghost predicate NothingLost(was: Tree, t: Tree, folders: seq<string>, stamp: string) {
    forall f | f in folders && IsDir(was, Live(f)) ::
      Find(t, Live(f)) == Some(was[Live(f)]) || Find(t, Aside(f, stamp)) == Some(was[Live(f)])
  }

  /** Success: each manifest folder is the staged one, its old contents are the safety copy. */
  ghost predicate Swapped(was: Tree, t: Tree, folders: seq<string>, staged: map<string, map<string, Node>>, stamp: string)
    requires forall f | f in folders :: f in staged
  {
    && (forall f | f in folders :: Find(t, Live(f)) == Some(Dir(staged[f])))
    && (forall f | f in folders && Live(f) in was :: Find(t, Aside(f, stamp)) == Some(was[Live(f)]))
    && (forall f | f in folders && Live(f) !in was :: SameAt(was, t, Aside(f, stamp)))
  }

  /**
   Rolled back: everything is as before, except that a folder which did not
   exist may now hold the staged one.
   */
  ghost predicate RolledBack(was: Tree, t: Tree, folders: seq<string>, staged: map<string, map<string, Node>>)
    requires forall f | f in folders :: f in staged
  {
    forall p: Path :: SameAt(was, t, p)
      || (p.place == DataDir && p.name in folders && p !in was && Find(t, p) == Some(Dir(staged[p.name])))
  }

  /** Nothing stands in the way of the swap: every folder can move aside, no file has a folder's name, no install fails. */
  ghost predicate CanSwap(was: Tree, folders: seq<string>, stamp: string, faults: Faults) {
    && CanMoveAside(was, folders, stamp, faults)
    && forall f | f in folders :: !faults.install(f) && (Live(f) in was ==> was[Live(f)].Dir?)
  }

  lemma AsideLeavesFiles(was: Tree, aside: Tree, folders: seq<string>, moved: set<string>, stamp: string)
    requires MovedAside(was, aside, moved, stamp)
    requires forall f | f in folders :: IsDir(was, Live(f)) <==> f in moved
    ensures forall f | f in folders :: Live(f) in aside <==> Live(f) in was && was[Live(f)].File?
  {
    forall f | f in folders && f !in moved ensures SameAt(was, aside, Live(f)) {
      UnmovedSame(was, aside, moved, stamp, f);
    }
  }

  /**
   Restore an archive whose folders `staged` were extracted beforehand. No
   failure after the stop loses a folder; a report that the data was put back
   is true of every folder, and success swaps exactly the manifest folders.
   */
  method Run(disk: Disk, staged: map<string, map<string, Node>>, stamp: string, faults: Faults) returns (r: Outcome)
    modifies disk
    ensures var folders, was := FoldersIn(staged.Keys), old(disk.tree);
            && OthersSame(was, disk.tree, folders, stamp) && NothingLost(was, disk.tree, folders, stamp)
            && (r.NotStarted? ==> disk.tree == was)
            && (r.Restored? ==> Swapped(was, disk.tree, folders, staged, stamp))
            && (r.PutBack? ==> OldDataLive(was, disk.tree, folders) && RolledBack(was, disk.tree, folders, staged))
    ensures r.NotStarted? <==> Manifest(staged.Keys).None? || faults.prepare || faults.stop
    ensures r.Restored? <==> !r.NotStarted? && CanSwap(old(disk.tree), FoldersIn(staged.Keys), stamp, faults)
    ensures r.NotPutBack? ==> exists f | f in FOLDERS :: faults.clear(f) || faults.back(f)
    ensures r.NotPutBack? ==> UnhinderedLive(old(disk.tree), disk.tree, FoldersIn(staged.Keys), faults)
    ensures r.Restored? || r.PutBack? ==> r.running == !faults.start
  {
    var manifest := Manifest(staged.Keys);
    if manifest.None? || faults.prepare || faults.stop {
      return NotStarted;
    }
    var folders := manifest.value;
    var moved, ok := MoveAside(disk, folders, stamp, faults);
    ghost var aside := disk.tree;
    ghost var k := 0;
    assert folders[..0] == [];
    if ok {
      AsideLeavesFiles(old(disk.tree), aside, folders, moved, stamp);
      ok, k := InstallAll(disk, folders, staged, faults);
    }
    ghost var placed := disk.tree;
    AsideKeptByInstall(aside, placed, folders, k, staged, moved, stamp, old(disk.tree));
    if ok {
      SwapDone(old(disk.tree), aside, placed, folders, staged, moved, stamp);
      return Restored(!faults.start);
    }
    var back := MoveBack(disk, moved, stamp, faults);
    RollbackDone(old(disk.tree), aside, placed, disk.tree, folders, k, staged, moved, stamp, faults, back);
    return if back then PutBack(!faults.start) else NotPutBack;
  }

  lemma AsideKeptByInstall(aside: Tree, placed: Tree, folders: seq<string>, k: nat, staged: map<string, map<string, Node>>,
                           moved: set<string>, stamp: string, was: Tree)
    requires k <= |folders| && forall f | f in folders :: f in staged
    requires Installed(aside, placed, folders, k, staged) && MovedAside(was, aside, moved, stamp)
    ensures forall f | f in moved :: Find(placed, Aside(f, stamp)) == Some(was[Live(f)])
  {
    forall f | f in moved ensures Find(placed, Aside(f, stamp)) == Some(was[Live(f)]) {
      assert SameAt(aside, placed, Aside(f, stamp));
    }
  }

  lemma SwapDone(was: Tree, aside: Tree, placed: Tree, folders: seq<string>, staged: map<string, map<string, Node>>,
                 moved: set<string>, stamp: string)
    requires forall f | f in folders :: f in staged
    requires MovedAside(was, aside, moved, stamp) && Installed(aside, placed, folders, |folders|, staged)
    requires forall f | f in moved :: f in folders
    requires forall f | f in folders :: IsDir(was, Live(f)) <==> f in moved
    ensures Swapped(was, placed, folders, staged, stamp)
    ensures OthersSame(was, placed, folders, stamp) && NothingLost(was, placed, folders, stamp)
  {
    AsideKeptByInstall(aside, placed, folders, |folders|, staged, moved, stamp, was);
    assert folders[..|folders|] == folders;
    forall f | f in folders
      ensures Find(placed, Live(f)) == Some(Dir(staged[f])) && Live(f) !in aside
    {
      var i :| 0 <= i < |folders| && folders[i] == f;
    }
    forall f | f in folders && f !in moved
      ensures Live(f) !in was && SameAt(was, placed, Aside(f, stamp))
    {
      UnmovedSame(was, aside, moved, stamp, f);
      assert SameAt(aside, placed, Aside(f, stamp));
    }
    forall p: Path | !(exists f | f in folders :: p == Live(f) || p == Aside(f, stamp)) ensures SameAt(was, placed, p) {
      assert !IsMoved(p, moved, stamp);
      assert SameAt(was, aside, p);
      assert p.place == DataDir ==> p == Live(p.name);
      assert SameAt(aside, placed, p);
    }
  }

  lemma RollbackDone(was: Tree, aside: Tree, placed: Tree, t: Tree, folders: seq<string>, k: nat,
                     staged: map<string, map<string, Node>>, moved: set<string>, stamp: string, faults: Faults, back: bool)
    requires k <= |folders| && forall f | f in folders :: f in staged
    requires MovedAside(was, aside, moved, stamp) && Installed(aside, placed, folders, k, staged)
    requires forall f | f in moved :: f in folders
    requires Returned(placed, t, {}, moved, stamp, back) && UnhinderedBack(placed, t, {}, moved, stamp, faults)
    ensures OthersSame(was, t, folders, stamp) && NothingLost(was, t, folders, stamp)
    ensures back ==> OldDataLive(was, t, folders) && RolledBack(was, t, folders, staged)
    ensures UnhinderedLive(was, t, folders, faults)
  {
    AsideKeptByInstall(aside, placed, folders, k, staged, moved, stamp, was);
    forall p: Path | !IsMoved(p, moved, stamp)
      ensures SameAt(was, t, p) || (p.place == DataDir && p.name in folders && p !in was && Find(t, p) == Some(Dir(staged[p.name])))
    {
      assert SameAt(was, aside, p) && SameAt(placed, t, p);
      if p.place == DataDir && p.name in folders[..k] {
        var i :| 0 <= i < k && folders[i] == p.name;
        assert p == Live(folders[i]);
      } else {
        assert SameAt(aside, placed, p);
      }
    }
    forall f | f in folders && IsDir(was, Live(f)) && f !in moved ensures SameAt(was, t, Live(f)) {
      assert !IsMoved(Live(f), moved, stamp);
    }
    forall p: Path | !(exists f | f in folders :: p == Live(f) || p == Aside(f, stamp)) ensures SameAt(was, t, p) {
      assert p.place == DataDir ==> p == Live(p.name);
      assert !IsMoved(p, moved, stamp);
    }
    if back {
      forall p: Path | IsMoved(p, moved, stamp) ensures SameAt(was, t, p) {
        var f :| f in moved && (p == Live(f) || p == Aside(f, stamp));
      }
    }
  }
}
