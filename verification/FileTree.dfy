/**
 The part of a file system the restores work on: the entries of the node's
 data directory and of the directory that keeps safety copies, with moves
 and removals that may fail.
 */
module FileTree {
  import opened Common

  /** A file with its bytes, or a directory with everything below it. */
  datatype Node = File(data: string) | Dir(children: map<string, Node>)

  datatype Place = DataDir | SafetyDir

  datatype Path = Path(place: Place, name: string)

  type Tree = map<Path, Node>

  predicate IsDir(t: Tree, p: Path) {
    p in t && t[p].Dir?
  }

  /** Two trees hold the same at `p`. */
  ghost predicate SameAt(a: Tree, b: Tree, p: Path) {
    Find(a, p) == Find(b, p)
  }

  function Moved(t: Tree, src: Path, dst: Path): Tree
    requires src in t
  {
    (t - {src})[dst := t[src]]
  }

  /** `mv src dst`: an existing directory at `dst` takes the source inside itself. */
  function Mv(t: Tree, src: Path, dst: Path): Option<Tree> {
    if src !in t then None
    else if dst !in t then Some(Moved(t, src, dst))
    else
      match t[dst]
      case File(_) => if t[src].Dir? then None else Some(Moved(t, src, dst))
      case Dir(children) =>
        if src.name in children then None
        else Some((t - {src})[dst := Dir(children[src.name := t[src]])])
  }

  /** Rename of an entry holding `n` onto `dst`: only a file may replace, and only a file. */
  predicate MayReplace(t: Tree, n: Node, dst: Path) {
    dst in t ==> t[dst].File? && n.File?
  }

  class Disk {
    var tree: Tree

    constructor (tree: Tree)
      ensures this.tree == tree
    {
      this.tree := tree;
    }

    method MvEntry(src: Path, dst: Path, fails: bool) returns (ok: bool)
      modifies this
      ensures ok == (!fails && Mv(old(tree), src, dst).Some?)
      ensures tree == if ok then Mv(old(tree), src, dst).value else old(tree)
    {
      var r := Mv(tree, src, dst);
      if fails || r.None? {
        return false;
      }
      tree := r.value;
      return true;
    }

    method Rename(src: Path, dst: Path, fails: bool) returns (ok: bool)
      modifies this
      ensures ok == (!fails && src in old(tree) && MayReplace(old(tree), old(tree)[src], dst))
      ensures tree == if ok then Moved(old(tree), src, dst) else old(tree)
    {
      if fails || src !in tree || !MayReplace(tree, tree[src], dst) {
        return false;
      }
      tree := Moved(tree, src, dst);
      return true;
    }

    /** Rename an entry out of a private staging directory. */
    method Install(n: Node, dst: Path, fails: bool) returns (ok: bool)
      modifies this
      ensures ok == (!fails && MayReplace(old(tree), n, dst))
      ensures tree == if ok then old(tree)[dst := n] else old(tree)
    {
      if fails || !MayReplace(tree, n, dst) {
        return false;
      }
      tree := tree[dst := n];
      return true;
    }

    /** Remove an entry with everything below it; a failure may leave any part of it. */
    method RemoveAll(p: Path, fails: bool, residue: Node) returns (ok: bool)
      modifies this
      ensures ok == !(fails && p in old(tree))
      ensures tree == if ok then old(tree) - {p} else old(tree)[p := residue]
    {
      if fails && p in tree {
        tree := tree[p := residue];
        return false;
      }
      tree := tree - {p};
      return true;
    }

    /** Create a directory unless it exists; a file in its place is an error. */
    method MkdirAll(p: Path, fails: bool) returns (ok: bool)
      modifies this
      ensures ok == (!fails && (p in old(tree) ==> old(tree)[p].Dir?))
      ensures tree == if ok && p !in old(tree) then old(tree)[p := Dir(map[])] else old(tree)
    {
      if fails || (p in tree && tree[p].File?) {
        return false;
      }
      if p !in tree {
        tree := tree[p := Dir(map[])];
      }
      return true;
    }

    /** Rename a staged file onto `name` inside the directory `p`. */
    method InstallUnder(data: string, p: Path, name: string, fails: bool) returns (ok: bool)
      modifies this
      ensures ok == (!fails && IsDir(old(tree), p) &&
                     (name in old(tree)[p].children ==> old(tree)[p].children[name].File?))
      ensures tree == if ok then old(tree)[p := Dir(old(tree)[p].children[name := File(data)])] else old(tree)
    {
      if fails || p !in tree || tree[p].File? || (name in tree[p].children && tree[p].children[name].Dir?) {
        return false;
      }
      tree := tree[p := Dir(tree[p].children[name := File(data)])];
      return true;
    }
  }
}
