/**
 Restoring the producer wallet: the archive's layout and size are checked,
 its key is checked against its own config, and only then are the live
 wallet and config.json swapped, all or nothing.
 */
module WalletRestore {
  import opened Common
  import opened FileTree
  import opened Text

  const MAX_ARCHIVE_BYTES := 16 * 1024 * 1024

  const WALLET := "wallet"
  const CONFIG := "config.json"

  /** One entry of the archive, as its header names it. */
  datatype TarEntry = TarEntry(name: string, regular: bool, data: string)

  /** Where an accepted entry goes: config.json, or a file directly inside wallet/. */
  datatype Target = ConfigFile | WalletFile(name: string)

  // --- entry names ------------------------------------------------------------

  /** A path component a cleaned path can hold. */
  predicate PlainPart(part: string) {
    part != "" && part != "." && part != ".." && '/' !in part
  }

  /** Resolve "." and ".." against a virtual root, after `done`. */
  function Resolve(done: seq<string>, parts: seq<string>): (clean: seq<string>)
    requires forall i | 0 <= i < |done| :: PlainPart(done[i])
    requires forall i | 0 <= i < |parts| :: '/' !in parts[i]
    ensures forall i | 0 <= i < |clean| :: PlainPart(clean[i])
    decreases |parts|
  {
    if parts == [] then done
    else if parts[0] == "" || parts[0] == "." then Resolve(done, parts[1..])
    else if parts[0] == ".." then Resolve(if done == [] then [] else done[..|done| - 1], parts[1..])
    else Resolve(done + [parts[0]], parts[1..])
  }

  function EntryPath(name: string): (t: Option<Target>)
    ensures t.Some? && t.value.WalletFile? ==> PlainPart(t.value.name)
  {
    var clean := Resolve([], Split(name, '/'));
    if clean == [CONFIG] then Some(ConfigFile)
    else if |clean| == 2 && clean[0] == WALLET then Some(WalletFile(clean[1]))
    else None
  }

  /** An archive entry with its name resolved; no target when the name is refused. */
  datatype Entry = Entry(target: Option<Target>, regular: bool, data: string)

  function Read(archive: seq<TarEntry>): seq<Entry> {
    seq(|archive|, i requires 0 <= i < |archive| =>
      Entry(EntryPath(archive[i].name), archive[i].regular, archive[i].data))
  }

  lemma ConstantsArePlain()
    ensures PlainPart(WALLET) && PlainPart(CONFIG)
  {
    assert |WALLET| == 6 && |CONFIG| == 11;
    assert forall i | 0 <= i < 6 :: WALLET[i] != '/';
    assert forall i | 0 <= i < 11 :: CONFIG[i] != '/';
  }

  /** Plain components resolve to themselves. */
  lemma {:induction false} ResolvePlain(done: seq<string>, parts: seq<string>)
    requires forall i | 0 <= i < |done| :: PlainPart(done[i])
    requires forall i | 0 <= i < |parts| :: PlainPart(parts[i]) && '/' !in parts[i]
    ensures Resolve(done, parts) == done + parts
    decreases |parts|
  {
    if parts != [] {
      ResolvePlain(done + [parts[0]], parts[1..]);
      assert done + [parts[0]] + parts[1..] == done + parts;
    } else {
      assert done + parts == done;
    }
  }

  lemma {:induction false} PackedPath(dir: string, base: string)
    requires PlainPart(dir) && PlainPart(base)
    ensures Resolve([], Split(dir + "/" + base, '/')) == [dir, base]
  {
    SplitFirst(dir, base, '/');
    SplitFirst(base, "", '/');
    ResolvePlain([], [dir, base]);
    assert [] + [dir, base] == [dir, base];
  }

  lemma {:induction false} PlainPath(name: string)
    requires PlainPart(name)
    ensures Resolve([], Split(name, '/')) == [name]
  {
    SplitFirst(name, "", '/');
    ResolvePlain([], [name]);
    assert [] + [name] == [name];
  }

  /** Every name a backup writes is accepted, and as itself. */
  lemma PackedNamesAccepted(base: string)
    requires PlainPart(base)
    ensures EntryPath(WALLET + "/" + base) == Some(WalletFile(base))
    ensures EntryPath(CONFIG) == Some(ConfigFile)
  {
    ConstantsArePlain();
    PackedPath(WALLET, base);
    PlainPath(CONFIG);
    assert [WALLET, base] != [CONFIG] by { assert |[WALLET, base]| == 2; }
  }

  /**
   A name without "." and ".." is refused exactly when it is neither
   config.json nor a file directly inside wallet/. Climbing out of the root
   is impossible: a leading "." or ".." changes nothing.
   */
  lemma {:induction false} NameAcceptedIff(parts: seq<string>)
    requires parts != [] && forall i | 0 <= i < |parts| :: PlainPart(parts[i])
    ensures EntryPath(Join(parts, '/')).Some? <==> parts == [CONFIG] || (|parts| == 2 && parts[0] == WALLET)
    ensures EntryPath("./" + Join(parts, '/')) == EntryPath("../" + Join(parts, '/')) == EntryPath(Join(parts, '/'))
  {
    SplitOfJoin(parts, '/');
    ResolvePlain([], parts);
    assert [] + parts == parts;
    LeadingDots(Join(parts, '/'));
  }

  lemma LeadingDots(name: string)
    ensures EntryPath("./" + name) == EntryPath(name) && EntryPath("../" + name) == EntryPath(name)
  {
    SplitFirst(".", name, '/');
    SplitFirst("..", name, '/');
    assert "./" + name == "." + "/" + name && "../" + name == ".." + "/" + name;
    assert ([".."] + Split(name, '/'))[1..] == Split(name, '/') && (["."] + Split(name, '/'))[1..] == Split(name, '/');
  }

  /** A ".." takes back the component before it. */
  lemma DotDotResolves(a: string, name: string)
    requires PlainPart(a)
    ensures EntryPath(a + "/../" + name) == EntryPath(name)
  {
    SplitFirst(a, "../" + name, '/');
    SplitFirst("..", name, '/');
    assert a + "/../" + name == a + "/" + ("../" + name) && "../" + name == ".." + "/" + name;
    var rest := Split(name, '/');
    ResolveFirst(a, [".."] + rest);
    assert ([".."] + rest)[1..] == rest && [a][..0] == [];
  }

  /** A "." is skipped. */
  lemma DotResolves(a: string, name: string)
    requires PlainPart(a)
    ensures EntryPath(a + "/./" + name) == EntryPath(a + "/" + name)
  {
    SplitFirst(a, "./" + name, '/');
    SplitFirst(a, name, '/');
    SplitFirst(".", name, '/');
    assert a + "/./" + name == a + "/" + ("./" + name) && "./" + name == "." + "/" + name;
    var rest := Split(name, '/');
    ResolveFirst(a, ["."] + rest);
    ResolveFirst(a, rest);
    assert (["."] + rest)[1..] == rest;
  }

  lemma {:induction false} ResolveFirst(a: string, rest: seq<string>)
    requires PlainPart(a) && forall i | 0 <= i < |rest| :: '/' !in rest[i]
    ensures Resolve([], [a] + rest) == Resolve([a], rest)
  {
    assert ([a] + rest)[1..] == rest && [] + [a] == [a];
  }

  /** The last component of a path, as the key file's name inside the archive. */
  function BaseName(p: string): string {
    var clean := Named(Split(p, '/'));
    if p == "" then "." else if clean == [] then "/" else clean[|clean| - 1]
  }

  function Named(parts: seq<string>): seq<string> {
    if parts == [] then []
    else if parts[0] == "" then Named(parts[1..])
    else [parts[0]] + Named(parts[1..])
  }

  lemma {:induction false} NamedAppend(a: seq<string>, b: seq<string>)
    ensures Named(a + b) == Named(a) + Named(b)
    decreases |a|
  {
    if a == [] {
      assert a + b == b;
    } else {
      assert (a + b)[1..] == a[1..] + b;
      NamedAppend(a[1..], b);
    }
  }

  lemma {:induction false} SplitLast(dir: string, tail: string, sep: char)
    ensures Split(dir + [sep] + tail, sep) == Split(dir, sep) + Split(tail, sep)
    decreases |dir|
  {
    var s := dir + [sep] + tail;
    if dir == [] {
      assert s[1..] == tail;
    } else {
      assert s[1..] == dir[1..] + [sep] + tail && s[0] == dir[0];
      SplitLast(dir[1..], tail, sep);
    }
  }

  /** The base name is what follows the last slash, and a trailing slash does not count. */
  lemma {:induction false} BaseNameIsLast(dir: string, base: string)
    requires base != "" && '/' !in base
    ensures BaseName(base) == base && BaseName(dir + "/" + base) == base && BaseName(dir + "/" + base + "/") == base
  {
    SplitFirst(base, "", '/');
    SplitLast(dir, base, '/');
    SplitLast(dir + "/" + base, "", '/');
    assert [base][1..] == [] && [""][1..] == [];
    assert Named([base]) == [base] && Named([""]) == Named([""][1..]) == [];
    NamedAppend(Split(dir, '/'), [base]);
    NamedAppend(Split(dir + "/" + base, '/'), [""]);
    assert dir + "/" + base + "/" == dir + "/" + base + "/" + "";
  }

  // --- size -------------------------------------------------------------------

  /** The bytes still allowed out of one archive. */
  class Budget {
    var left: int

    constructor ()
      ensures left == MAX_ARCHIVE_BYTES
    {
      left := MAX_ARCHIVE_BYTES;
    }

    /** Read an entry within the budget: an entry that would exceed it fails, and is never truncated. */
    method Copy(data: string) returns (out: Option<string>)
      modifies this
      ensures out == if |data| <= old(left) then Some(data) else None
      ensures left == if out.Some? then old(left) - |data| else old(left)
    {
      var n := if |data| <= left + 1 then |data| else left + 1;
      if n > left {
        return None;
      }
      left := left - n;
      return Some(data);
    }
  }

  /** The bytes in the first `k` entries. */
  function SizeTo(entries: seq<Entry>, k: nat): nat
    requires k <= |entries|
  {
    if k == 0 then 0 else SizeTo(entries, k - 1) + |entries[k - 1].data|
  }

  // --- contents -----------------------------------------------------------------

  /** The Producer section of an archived config.json. */
  datatype Producer = Producer(keyFilePath: string, password: string, address: string)

  datatype Parsed = Malformed | NoProducer | HasProducer(producer: Producer)

  /** The layout Inspect accepts: regular files in the two places, within the size bound. */
  ghost predicate GoodLayout(entries: seq<Entry>) {
    && entries != []
    && (forall i | 0 <= i < |entries| :: entries[i].regular && entries[i].target.Some?)
    && SizeTo(entries, |entries|) <= MAX_ARCHIVE_BYTES
  }

  /** What the first `k` entries hold; a later entry of the same name replaces an earlier one. */
  function ContentsTo(entries: seq<Entry>, k: nat): map<Target, string>
    requires k <= |entries|
  {
    if k == 0 then map[]
    else
      var e, before := entries[k - 1], ContentsTo(entries, k - 1);
      var t := e.target;
      if t.Some? then before[t.value := e.data] else before
  }

  function Contents(entries: seq<Entry>): map<Target, string> {
    ContentsTo(entries, |entries|)
  }

  function ProducerOf(contents: map<Target, string>, parse: string -> Parsed): Parsed {
    if ConfigFile in contents then parse(contents[ConfigFile]) else NoProducer
  }

  /** The archived key file a producer names, if the archive holds it. */
  function KeyOf(contents: map<Target, string>, p: Producer): Option<string> {
    if p.keyFilePath == "" then None else Find(contents, WalletFile(BaseName(p.keyFilePath)))
  }

  lemma {:induction false} SizeGrows(entries: seq<Entry>, i: nat, k: nat)
    requires i <= k <= |entries|
    ensures SizeTo(entries, i) <= SizeTo(entries, k)
  {
    if i < k {
      SizeGrows(entries, i, k - 1);
    }
  }

  /** `contents` holds, for each place an entry goes to, the bytes of the last such entry, and nothing else. */
  ghost predicate HoldsLast(entries: seq<Entry>, contents: map<Target, string>) {
    && (forall i | 0 <= i < |entries| && entries[i].target.Some? :: entries[i].target.value in contents)
    && (forall t | t in contents :: exists i: nat :: IsLast(entries, t, i) && contents[t] == entries[i].data)
  }

  ghost predicate IsLast(entries: seq<Entry>, t: Target, i: nat) {
    i < |entries| && entries[i].target == Some(t) && forall j | i < j < |entries| :: entries[j].target != Some(t)
  }

  lemma {:induction false} ContentsHoldLast(entries: seq<Entry>)
    ensures HoldsLast(entries, Contents(entries))
    decreases |entries|
  {
    if entries != [] {
      var k := |entries| - 1;
      var init, e := entries[..k], entries[k];
      ContentsHoldLast(init);
      ContentsOfPrefix(entries, k, k);
      var before, after := Contents(init), Contents(entries);
      forall t | t in after ensures exists i: nat :: IsLast(entries, t, i) && after[t] == entries[i].data {
        if e.target == Some(t) {
          assert IsLast(entries, t, k);
        } else {
          var i: nat :| IsLast(init, t, i) && before[t] == init[i].data;
          assert IsLast(entries, t, i);
        }
      }
      forall i | 0 <= i < |entries| && entries[i].target.Some? ensures entries[i].target.value in after {
        if i < k {
          assert init[i].target.value in before;
        }
      }
    }
  }

  lemma {:induction false} ContentsOfPrefix(entries: seq<Entry>, k: nat, m: nat)
    requires k <= m <= |entries|
    ensures ContentsTo(entries, k) == ContentsTo(entries[..m], k)
  {
    if k > 0 {
      ContentsOfPrefix(entries, k - 1, m);
    }
  }

  /** With no two entries at one place, `contents` is the entries and nothing else. */
  ghost predicate Exact(entries: seq<Entry>, contents: map<Target, string>) {
    && (forall i | 0 <= i < |entries| && entries[i].target.Some? :: Find(contents, entries[i].target.value) == Some(entries[i].data))
    && (forall t | t in contents :: exists i :: 0 <= i < |entries| && entries[i].target == Some(t))
  }

  lemma {:induction false} ContentsExact(entries: seq<Entry>)
    requires NoDuplicates(entries)
    ensures Exact(entries, Contents(entries))
  {
    ContentsHoldLast(entries);
    var contents := Contents(entries);
    forall i | 0 <= i < |entries| && entries[i].target.Some?
      ensures Find(contents, entries[i].target.value) == Some(entries[i].data)
    {
      var k: nat :| IsLast(entries, entries[i].target.value, k) && contents[entries[i].target.value] == entries[k].data;
      assert entries[k].target == entries[i].target;
      assert k == i;
    }
    forall t | t in contents ensures exists i :: 0 <= i < |entries| && entries[i].target == Some(t) {
      var k: nat :| IsLast(entries, t, k) && contents[t] == entries[k].data;
      assert 0 <= k < |entries| && entries[k].target == Some(t);
    }
  }

  /** Validate the layout and size, and read what the archive holds. */
  method Inspect(entries: seq<Entry>, parse: string -> Parsed) returns (contents: Option<map<Target, string>>)
    ensures contents.Some? <==> GoodLayout(entries) && ProducerOf(Contents(entries), parse) != Malformed
    ensures contents.Some? ==> contents.value == Contents(entries) && HoldsLast(entries, contents.value)
  {
    var budget := new Budget();
    var found: map<Target, string> := map[];
    for i := 0 to |entries|
      invariant found == ContentsTo(entries, i)
      invariant budget.left == MAX_ARCHIVE_BYTES - SizeTo(entries, i) && budget.left >= 0
      invariant forall j | 0 <= j < i :: entries[j].regular && entries[j].target.Some?
    {
      var e := entries[i];
      SizeGrows(entries, i + 1, |entries|);
      var t := e.target;
      if !e.regular || t.None? {
        return None;
      }
      var data := budget.Copy(e.data);
      if data.None? {
        return None;
      }
      found := found[t.value := data.value];
    }
    if |entries| == 0 || ProducerOf(found, parse) == Malformed {
      return None;
    }
    ContentsHoldLast(entries);
    return Some(found);
  }

  // --- staging and the key check ------------------------------------------------------

  /** No two entries go to the same place. */
  ghost predicate NoDuplicates(entries: seq<Entry>) {
    forall i, j | 0 <= i < j < |entries| :: entries[i].target != entries[j].target
  }

  lemma {:induction false} ContentsHoldEntries(entries: seq<Entry>, k: nat)
    requires k <= |entries| && forall i | 0 <= i < |entries| :: entries[i].target.Some?
    ensures forall t :: t in ContentsTo(entries, k) <==> exists i | 0 <= i < k :: entries[i].target == Some(t)
  {
    if k > 0 {
      ContentsHoldEntries(entries, k - 1);
    }
  }

  /** Unpack into a private directory, each file created exclusively; lists the files staged. */
  method Stage(entries: seq<Entry>) returns (files: seq<Target>, ok: bool)
    requires GoodLayout(entries)
    ensures ok <==> NoDuplicates(entries)
    ensures ok ==> (forall t | t in files :: t in Contents(entries)) && (forall t | t in Contents(entries) :: t in files)
    ensures forall i, j | 0 <= i < j < |files| :: files[i] != files[j]
  {
    files := [];
    for i := 0 to |entries|
      invariant |files| == i && forall j | 0 <= j < i :: entries[j].target == Some(files[j])
      invariant forall j, k | 0 <= j < k < i :: files[j] != files[k]
    {
      var t := entries[i].target.value;
      if t in files {
        var j :| 0 <= j < i && files[j] == t;
        assert entries[j].target == entries[i].target;
        return files, false;
      }
      files := files + [t];
    }
    ContentsHoldEntries(entries, |entries|);
    forall t | t in Contents(entries) ensures t in files {
      var i :| 0 <= i < |entries| && entries[i].target == Some(t);
      assert files[i] == t;
    }
    forall t | t in files ensures t in Contents(entries) {
      var i :| 0 <= i < |files| && files[i] == t;
      assert entries[i].target == Some(t);
    }
    ok := true;
  }

  /**
   The archived key is the one the archived config expects: present, opened
   by the archived password, and of the archived address. `unlock` gives the
   address a key file holds, or nothing when the password does not open it.
   */
  predicate KeyChecked(contents: map<Target, string>, parse: string -> Parsed, unlock: (string, string) -> Option<string>) {
    var p := ProducerOf(contents, parse);
    p.HasProducer? ==>
      var key := KeyOf(contents, p.producer);
      && key.Some?
      && unlock(key.value, p.producer.password).Some?
      && ToLower(unlock(key.value, p.producer.password).value) == ToLower(p.producer.address)
  }

  // --- the swap -----------------------------------------------------------------------

  function Live(name: string): Path { Path(DataDir, name) }

  function Keep(name: string, stamp: string): Path {
    Path(SafetyDir, "wallet-safety." + stamp + "/" + name)
  }

  const NAMES: set<string> := {WALLET, CONFIG}

  lemma KeepInjective(a: string, b: string, stamp: string)
    requires Keep(a, stamp) == Keep(b, stamp)
    ensures a == b
  {
    var s := "wallet-safety." + stamp + "/";
    assert (s + a)[|s|..] == a && (s + b)[|s|..] == b;
  }

  /** Which operations fail, and what a failed removal leaves behind. */
  datatype Faults = Faults(
    prepare: bool, mkdir: bool, restart: bool,
    aside: string -> bool, mkdirTarget: Target -> bool, install: Target -> bool,
    clear: string -> bool, back: string -> bool, residue: string -> Node)

  datatype Outcome = Refused | RolledBack | NotRolledBack | Restored(restarted: bool)

  /** Can the live entry `n` be renamed onto its safety copy? */
  predicate CanMove(was: Tree, n: string, stamp: string, faults: Faults)
    requires Live(n) in was
  {
    !faults.aside(n) && MayReplace(was, was[Live(n)], Keep(n, stamp))
  }

  /** Is the live entry `n` moved aside? It exists, can be moved, and the wallet before it did not stop the loop. */
  predicate GoesAside(was: Tree, n: string, stamp: string, faults: Faults) {
    && Live(n) in was && CanMove(was, n, stamp, faults)
    && (n == CONFIG && Live(WALLET) in was ==> CanMove(was, WALLET, stamp, faults))
  }

  /** Does every live entry get moved aside? */
  ghost predicate AllGoAside(was: Tree, stamp: string, faults: Faults) {
    forall n | n in NAMES && Live(n) in was :: GoesAside(was, n, stamp, faults)
  }

  ghost predicate IsMoved(p: Path, moved: seq<string>, stamp: string) {
    exists n | n in moved :: p == Live(n) || p == Keep(n, stamp)
  }

  /** `t` is `was` with the entries `moved` in the safety directory. */
  ghost predicate MovedAside(was: Tree, t: Tree, moved: seq<string>, stamp: string) {
    && (forall n | n in moved :: && Live(n) in was && MayReplace(was, was[Live(n)], Keep(n, stamp))
                                 && Live(n) !in t && Find(t, Keep(n, stamp)) == Some(was[Live(n)]))
    && (forall p: Path | !IsMoved(p, moved, stamp) :: SameAt(was, t, p))
  }

  lemma MoveOneAside(was: Tree, t: Tree, moved: seq<string>, stamp: string, n: string)
    requires MovedAside(was, t, moved, stamp) && n !in moved && Live(n) in t
    requires MayReplace(t, t[Live(n)], Keep(n, stamp))
    ensures MovedAside(was, Moved(t, Live(n), Keep(n, stamp)), moved + [n], stamp)
  {
    forall m | m in moved ensures Keep(m, stamp) != Keep(n, stamp) {
      if Keep(m, stamp) == Keep(n, stamp) {
        KeepInjective(m, n, stamp);
      }
    }
    assert !IsMoved(Live(n), moved, stamp) && !IsMoved(Keep(n, stamp), moved, stamp);
    assert SameAt(was, t, Live(n)) && SameAt(was, t, Keep(n, stamp));
    forall p: Path | !IsMoved(p, moved + [n], stamp)
      ensures SameAt(was, Moved(t, Live(n), Keep(n, stamp)), p)
    {
      assert n in moved + [n];
      assert p != Live(n) && p != Keep(n, stamp);
      assert !IsMoved(p, moved, stamp);
    }
  }

  /** Entries of the rollback still to do are where they were kept; the others are back, or still kept. */
  ghost predicate Returned(was: Tree, t: Tree, k: nat, moved: seq<string>, stamp: string, ok: bool)
    requires k <= |moved|
  {
    && (forall i | 0 <= i < k :: SameAt(was, t, Keep(moved[i], stamp)))
    && (forall i | k <= i < |moved| ::
          if ok then Find(t, Live(moved[i])) == Find(was, Keep(moved[i], stamp)) && Keep(moved[i], stamp) !in t
          else (Find(t, Live(moved[i])) == Find(was, Keep(moved[i], stamp)) && Keep(moved[i], stamp) !in t)
               || SameAt(was, t, Keep(moved[i], stamp)))
    && (forall p: Path | !IsMoved(p, moved, stamp) :: SameAt(was, t, p))
  }

  lemma ReturnOne(was: Tree, t: Tree, t1: Tree, k: nat, moved: seq<string>, stamp: string, ok: bool, done: bool)
    requires k < |moved| && Returned(was, t, k + 1, moved, stamp, ok)
    requires forall i, j | 0 <= i < j < |moved| :: moved[i] != moved[j]
    requires forall p: Path | p != Live(moved[k]) && p != Keep(moved[k], stamp) :: SameAt(t, t1, p)
    requires if done then Find(t1, Live(moved[k])) == Find(was, Keep(moved[k], stamp)) && Keep(moved[k], stamp) !in t1
             else SameAt(t, t1, Keep(moved[k], stamp))
    ensures Returned(was, t1, k, moved, stamp, ok && done)
    ensures forall i | 0 <= i < |moved| && i != k :: SameAt(t, t1, Live(moved[i])) && SameAt(t, t1, Keep(moved[i], stamp))
  {
    forall i | 0 <= i < |moved| && i != k
      ensures SameAt(t, t1, Live(moved[i])) && SameAt(t, t1, Keep(moved[i], stamp))
    {
      if Keep(moved[i], stamp) == Keep(moved[k], stamp) {
        KeepInjective(moved[i], moved[k], stamp);
      }
    }
    assert IsMoved(Live(moved[k]), moved, stamp) && IsMoved(Keep(moved[k], stamp), moved, stamp);
    forall p: Path | !IsMoved(p, moved, stamp) ensures SameAt(was, t1, p) {
      assert SameAt(was, t, p) && SameAt(t, t1, p);
    }
  }

  /** No removal and no rename back fails. */
  ghost predicate NothingStuck(moved: seq<string>, faults: Faults) {
    forall n | n in moved :: !faults.clear(n) && !faults.back(n)
  }

  /** Each entry from the `k`-th on whose own removal and rename do not fail is live again, whatever befalls the others. */
  ghost predicate UnhinderedBack(was: Tree, t: Tree, k: nat, moved: seq<string>, stamp: string, faults: Faults) {
    forall i | k <= i < |moved| && !faults.clear(moved[i]) && !faults.back(moved[i]) ::
      Find(t, Live(moved[i])) == Find(was, Keep(moved[i], stamp)) && Keep(moved[i], stamp) !in t
  }

  /** Undo the moves, last one first; a failed removal is left for the rename to trip over. */
  method Rollback(disk: Disk, moved: seq<string>, stamp: string, faults: Faults) returns (ok: bool)
    requires forall i, j | 0 <= i < j < |moved| :: moved[i] != moved[j]
    requires forall i | 0 <= i < |moved| :: Keep(moved[i], stamp) in disk.tree
    modifies disk
    ensures Returned(old(disk.tree), disk.tree, 0, moved, stamp, ok)
    ensures NothingStuck(moved, faults) ==> ok
    ensures UnhinderedBack(old(disk.tree), disk.tree, 0, moved, stamp, faults)
  {
    ok := true;
    var i := |moved|;
    while i > 0
      invariant 0 <= i <= |moved|
      invariant NothingStuck(moved, faults) ==> ok
      invariant UnhinderedBack(old(disk.tree), disk.tree, i, moved, stamp, faults)
      invariant Returned(old(disk.tree), disk.tree, i, moved, stamp, ok)
    {
      i := i - 1;
      var n := moved[i];
      ghost var before := disk.tree;
      var _ := disk.RemoveAll(Live(n), faults.clear(n), faults.residue(n));
      var done := disk.Rename(Keep(n, stamp), Live(n), faults.back(n));
      ReturnOne(old(disk.tree), before, disk.tree, i, moved, stamp, ok, done);
      ok := ok && done;
    }
  }

  /** The wallet files among `done`, as the children of the wallet directory. */
  function WalletOf(contents: map<Target, string>, done: set<Target>): map<string, Node> {
    map t | t in contents && t in done && t.WalletFile? :: t.name := File(contents[t])
  }

  /** Only the two live entries differ. */
  ghost predicate OnlyLiveChanged(was: Tree, t: Tree) {
    forall p: Path | p != Live(WALLET) && p != Live(CONFIG) :: SameAt(was, t, p)
  }

  lemma OnlyLiveTwice(a: Tree, b: Tree, c: Tree)
    requires OnlyLiveChanged(a, b) && OnlyLiveChanged(b, c)
    ensures OnlyLiveChanged(a, c)
  {
    forall p: Path | p != Live(WALLET) && p != Live(CONFIG) ensures SameAt(a, c, p) {
      assert SameAt(a, b, p) && SameAt(b, c, p);
    }
  }

  /** With `done` installed, the live wallet and config.json hold exactly those files. */
  ghost predicate Installed(t: Tree, contents: map<Target, string>, done: set<Target>) {
    && Find(t, Live(CONFIG)) == (if ConfigFile in contents && ConfigFile in done then Some(File(contents[ConfigFile])) else None)
    && Find(t, Live(WALLET)) == (if WalletOf(contents, done) == map[] then None else Some(Dir(WalletOf(contents, done))))
  }

  lemma WalletOfNext(contents: map<Target, string>, done: set<Target>, t: Target)
    requires t in contents
    ensures WalletOf(contents, done + {t})
         == if t.WalletFile? then WalletOf(contents, done)[t.name := File(contents[t])] else WalletOf(contents, done)
  {
  }

  /** The children of the live wallet directory, none when there is no such directory. */
  function WalletIn(t: Tree): map<string, Node> {
    if IsDir(t, Live(WALLET)) then t[Live(WALLET)].children else map[]
  }

  /** The live entry a target belongs to. */
  function Home(t: Target): string {
    if t.ConfigFile? then CONFIG else WALLET
  }

  /** What did not exist, and what the archive does not hold, does not appear. */
  ghost predicate NothingStray(was: Tree, t: Tree, targets: set<Target>) {
    forall n | n in NAMES && Live(n) !in was && (forall x | x in targets :: Home(x) != n) :: Live(n) !in t
  }

  /** No directory is in the way of a file, and no file in the way of a directory. */
  ghost predicate PlaceFree(tree: Tree, t: Target) {
    match t
    case ConfigFile => Live(CONFIG) in tree ==> tree[Live(CONFIG)].File?
    case WalletFile(name) =>
      && (Live(WALLET) in tree ==> tree[Live(WALLET)].Dir?)
      && (name in WalletIn(tree) ==> WalletIn(tree)[name].File?)
  }

  predicate Fails(t: Target, faults: Faults) {
    faults.install(t) || (t.WalletFile? && faults.mkdirTarget(t))
  }

  /** Rename one staged file into place, below a wallet directory made on demand. */
  method InstallOne(disk: Disk, t: Target, data: string, faults: Faults) returns (ok: bool)
    modifies disk
    ensures ok <==> PlaceFree(old(disk.tree), t) && !Fails(t, faults)
    ensures forall p: Path | p != Live(Home(t)) :: SameAt(old(disk.tree), disk.tree, p)
    ensures ok && t.ConfigFile? ==> disk.tree == old(disk.tree)[Live(CONFIG) := File(data)]
    ensures ok && t.WalletFile? ==> disk.tree == old(disk.tree)[Live(WALLET) := Dir(WalletIn(old(disk.tree))[t.name := File(data)])]
  {
    if t.ConfigFile? {
      ok := disk.Install(File(data), Live(CONFIG), faults.install(t));
    } else {
      ok := disk.MkdirAll(Live(WALLET), faults.mkdirTarget(t));
      if ok {
        ok := disk.InstallUnder(data, Live(WALLET), t.name, faults.install(t));
      }
    }
  }

  /** One more file in place: `t1` is `t` with `target` installed as InstallOne does. */
  lemma InstalledNext(t: Tree, t1: Tree, contents: map<Target, string>, done: set<Target>, target: Target)
    requires Installed(t, contents, done) && target in contents
    requires target.ConfigFile? ==> t1 == t[Live(CONFIG) := File(contents[target])]
    requires target.WalletFile? ==> t1 == t[Live(WALLET) := Dir(WalletIn(t)[target.name := File(contents[target])])]
    ensures Installed(t1, contents, done + {target})
  {
    WalletOfNext(contents, done, target);
    assert Live(WALLET) != Live(CONFIG) by { assert |WALLET| != |CONFIG|; }
    assert WalletIn(t) == WalletOf(contents, done);
    if target.WalletFile? {
      assert target.name in WalletOf(contents, done + {target});
    }
  }

  /** What is installed never stands in the way of another file. */
  lemma InstalledLeavesRoom(t: Tree, contents: map<Target, string>, done: set<Target>, target: Target)
    requires Installed(t, contents, done)
    ensures PlaceFree(t, target)
  {
  }

  lemma StillNothingStray(was: Tree, t: Tree, t1: Tree, targets: set<Target>, x: Target)
    requires NothingStray(was, t, targets) && x in targets
    requires forall p: Path | p != Live(Home(x)) :: SameAt(t, t1, p)
    ensures NothingStray(was, t1, targets)
  {
    forall n | n in NAMES && Live(n) !in was && (forall y | y in targets :: Home(y) != n) ensures Live(n) !in t1 {
      assert SameAt(t, t1, Live(n));
    }
  }

  /** Rename the next staged file into place, after `done`. */
  method InstallNext(disk: Disk, contents: map<Target, string>, t: Target, faults: Faults,
                     ghost was: Tree, ghost done: set<Target>, ghost targets: set<Target>) returns (ok: bool)
    requires t in contents && t in targets
    requires OnlyLiveChanged(was, disk.tree) && NothingStray(was, disk.tree, targets) && Installed(disk.tree, contents, done)
    modifies disk
    ensures OnlyLiveChanged(was, disk.tree) && NothingStray(was, disk.tree, targets)
    ensures ok <==> !Fails(t, faults)
    ensures ok ==> Installed(disk.tree, contents, done + {t})
  {
    ghost var before := disk.tree;
    InstalledLeavesRoom(before, contents, done, t);
    ok := InstallOne(disk, t, contents[t], faults);
    OnlyLiveTwice(was, before, disk.tree);
    StillNothingStray(was, before, disk.tree, targets, t);
    if ok {
      InstalledNext(before, disk.tree, contents, done, t);
    }
  }

  /** Rename the staged files into place, stopping at the first failure. */
  method InstallAll(disk: Disk, contents: map<Target, string>, files: seq<Target>, faults: Faults) returns (ok: bool)
    requires (forall t | t in files :: t in contents) && (forall t | t in contents :: t in files)
    requires Live(WALLET) !in disk.tree && Live(CONFIG) !in disk.tree
    modifies disk
    ensures OnlyLiveChanged(old(disk.tree), disk.tree)
    ensures NothingStray(old(disk.tree), disk.tree, contents.Keys)
    ensures ok <==> forall t | t in contents :: !Fails(t, faults)
    ensures ok ==> Installed(disk.tree, contents, contents.Keys)
  {
    ghost var done: set<Target> := {};
    for i := 0 to |files|
      invariant done <= contents.Keys && forall j | 0 <= j < i :: files[j] in done
      invariant OnlyLiveChanged(old(disk.tree), disk.tree)
      invariant NothingStray(old(disk.tree), disk.tree, contents.Keys)
      invariant Installed(disk.tree, contents, done)
      invariant forall t | t in done :: !Fails(t, faults)
    {
      var t := files[i];
      var placed := InstallNext(disk, contents, t, faults, old(disk.tree), done, contents.Keys);
      if !placed {
        return false;
      }
      done := done + {t};
    }
    assert done == contents.Keys;
    return true;
  }

  /** Nothing changed outside the two live entries and their safety copies. */
  ghost predicate OthersSame(was: Tree, t: Tree, stamp: string) {
    forall p: Path | !IsMoved(p, [WALLET, CONFIG], stamp) :: SameAt(was, t, p)
  }

  /** Whatever was live before is still there, live or as its safety copy. */
  ghost predicate NothingLost(was: Tree, t: Tree, stamp: string) {
    forall n | n in NAMES && Live(n) in was ::
      Find(t, Live(n)) == Some(was[Live(n)]) || Find(t, Keep(n, stamp)) == Some(was[Live(n)])
  }

  /** Each entry that was live, and whose own removal and rename back do not fail, is live again. */
  ghost predicate UnhinderedLive(was: Tree, t: Tree, faults: Faults) {
    forall n | n in NAMES && Live(n) in was && !faults.clear(n) && !faults.back(n) :: Find(t, Live(n)) == Some(was[Live(n)])
  }

  /** Everything that was live before is live again. */
  ghost predicate LiveAgain(was: Tree, t: Tree) {
    forall n | n in NAMES && Live(n) in was :: Find(t, Live(n)) == Some(was[Live(n)])
  }

  /** The live entries are exactly the archive's, and the old ones are in the safety directory. */
  ghost predicate Swapped(was: Tree, t: Tree, contents: map<Target, string>, stamp: string) {
    && Installed(t, contents, contents.Keys)
    && (forall n | n in NAMES && Live(n) in was ::
          Find(t, Keep(n, stamp)) == Some(was[Live(n)]) && MayReplace(was, was[Live(n)], Keep(n, stamp)))
    && (forall n | n in NAMES && Live(n) !in was :: SameAt(was, t, Keep(n, stamp)))
  }

  /** The archive passes every check made before anything moves. */
  ghost predicate Accepted(entries: seq<Entry>, parse: string -> Parsed, unlock: (string, string) -> Option<string>) {
    && GoodLayout(entries) && NoDuplicates(entries)
    && ProducerOf(Contents(entries), parse) != Malformed
    && KeyChecked(Contents(entries), parse, unlock)
  }

  /** The entry `i` is a config.json whose producer, if it names one, is checked by another entry of the archive. */
  ghost predicate ConfigVouched(entries: seq<Entry>, data: string, parse: string -> Parsed, unlock: (string, string) -> Option<string>) {
    match parse(data)
    case Malformed => false
    case NoProducer => true
    case HasProducer(p) =>
      p.keyFilePath != "" && exists k :: 0 <= k < |entries| && IsKeyOf(entries[k], p, unlock)
  }

  /** The wallet entry with the base name of the key path, opened by the password, holding the address. */
  ghost predicate IsKeyOf(e: Entry, p: Producer, unlock: (string, string) -> Option<string>) {
    && e.target == Some(WalletFile(BaseName(p.keyFilePath)))
    && unlock(e.data, p.password).Some?
    && ToLower(unlock(e.data, p.password).value) == ToLower(p.address)
  }

  /**
   An archive is accepted exactly when its layout is good, no two entries
   share a place, and its config.json, if it has one, is vouched for by the
   bytes of the very entry its key path names.
   */
  lemma {:induction false} AcceptedIff(entries: seq<Entry>, parse: string -> Parsed, unlock: (string, string) -> Option<string>)
    ensures Accepted(entries, parse, unlock) <==>
              && GoodLayout(entries) && NoDuplicates(entries)
              && forall i | 0 <= i < |entries| && entries[i].target == Some(ConfigFile) ::
                   ConfigVouched(entries, entries[i].data, parse, unlock)
  {
    if GoodLayout(entries) && NoDuplicates(entries) {
      var contents := Contents(entries);
      ContentsExact(entries);
      if i :| 0 <= i < |entries| && entries[i].target == Some(ConfigFile) {
        assert contents[ConfigFile] == entries[i].data;
        forall j | 0 <= j < |entries| && entries[j].target == Some(ConfigFile) ensures j == i {
        }
        VouchedIsChecked(entries, contents, entries[i].data, parse, unlock);
      } else {
        assert ConfigFile !in contents;
      }
    }
  }

  lemma {:induction false} VouchedIsChecked(entries: seq<Entry>, contents: map<Target, string>, data: string,
                                            parse: string -> Parsed, unlock: (string, string) -> Option<string>)
    requires Exact(entries, contents) && Find(contents, ConfigFile) == Some(data)
    ensures ConfigVouched(entries, data, parse, unlock)
       <==> ProducerOf(contents, parse) != Malformed && KeyChecked(contents, parse, unlock)
  {
    if parse(data).HasProducer? {
      var p := parse(data).producer;
      var key := WalletFile(BaseName(p.keyFilePath));
      if key in contents {
        var k :| 0 <= k < |entries| && entries[k].target == Some(key);
        assert contents[key] == entries[k].data;
        assert forall m | 0 <= m < |entries| && entries[m].target == Some(key) :: entries[m].data == contents[key];
      }
    }
  }

  /** What is at the place of a target in a live tree. */
  function FileAt(t: Tree, x: Target): Option<Node> {
    match x
    case ConfigFile => Find(t, Live(CONFIG))
    case WalletFile(name) => if IsDir(t, Live(WALLET)) then Find(t[Live(WALLET)].children, name) else None
  }

  /** Every entry of the archive is at its place with its bytes, and there is no other file. */
  ghost predicate ExactlyArchive(t: Tree, archive: seq<TarEntry>) {
    && (forall i | 0 <= i < |archive| ::
          EntryPath(archive[i].name).Some? && FileAt(t, EntryPath(archive[i].name).value) == Some(File(archive[i].data)))
    && (forall x | FileAt(t, x).Some? :: exists i :: 0 <= i < |archive| && EntryPath(archive[i].name) == Some(x))
    && (Live(WALLET) in t ==> t[Live(WALLET)].Dir?)
  }

  lemma {:induction false} InstalledIsArchive(t: Tree, archive: seq<TarEntry>)
    requires var entries := Read(archive);
             GoodLayout(entries) && NoDuplicates(entries) && Installed(t, Contents(entries), Contents(entries).Keys)
    ensures ExactlyArchive(t, archive)
  {
    var entries := Read(archive);
    var contents := Contents(entries);
    ContentsExact(entries);
    forall i | 0 <= i < |archive|
      ensures EntryPath(archive[i].name).Some? && FileAt(t, EntryPath(archive[i].name).value) == Some(File(archive[i].data))
    {
      InstalledAt(t, contents, entries[i].target.value);
    }
    forall x | FileAt(t, x).Some? ensures exists i :: 0 <= i < |archive| && EntryPath(archive[i].name) == Some(x) {
      InstalledAt(t, contents, x);
      var i :| 0 <= i < |entries| && entries[i].target == Some(x);
      assert EntryPath(archive[i].name) == Some(x);
    }
  }

  lemma InstalledAt(t: Tree, contents: map<Target, string>, x: Target)
    requires Installed(t, contents, contents.Keys)
    ensures FileAt(t, x) == if x in contents then Some(File(contents[x])) else None
  {
    if x.WalletFile? {
      var w := WalletOf(contents, contents.Keys);
      assert x.name in w <==> x in contents;
    }
  }

  /**
   The safety directory in the end. An entry that was not moved aside left
   its place there alone. Otherwise the place holds the old live entry after
   a success and nothing after a rollback; after a failed rollback either.
   */
  ghost predicate SafetyCopies(was: Tree, t: Tree, stamp: string, faults: Faults, r: Outcome) {
    forall n | n in NAMES ::
      if r.Refused? || !GoesAside(was, n, stamp, faults) then SameAt(was, t, Keep(n, stamp))
      else
        var copy := Find(t, Keep(n, stamp));
        match r
        case Restored(_) => copy == Some(was[Live(n)])
        case RolledBack => copy == None
        case _ => copy == Some(was[Live(n)]) || copy == None
  }

  /**
   Two restores in one second share a safety directory. What was kept at the
   place of entry `n` before this restore is still there afterwards exactly
   when: the restore was refused or did not move `n`; or it succeeded and the
   earlier copy equals the live entry; or it rolled back and there was no
   earlier copy. When the rollback failed it is decided by whether `n` was
   put back.
   */
  lemma EarlierCopySurvivesIff(was: Tree, t: Tree, stamp: string, faults: Faults, r: Outcome, n: string)
    requires n in NAMES && SafetyCopies(was, t, stamp, faults, r)
    ensures SameAt(was, t, Keep(n, stamp))
       <==> r.Refused? || !GoesAside(was, n, stamp, faults) ||
            match r
            case Restored(_) => Find(was, Keep(n, stamp)) == Some(was[Live(n)])
            case RolledBack => Keep(n, stamp) !in was
            case _ => Find(was, Keep(n, stamp)) == if Keep(n, stamp) in t then Some(was[Live(n)]) else None
  {
    if !r.Refused? && GoesAside(was, n, stamp, faults) {
      assert r.NotRolledBack? && Keep(n, stamp) in t ==> Find(t, Keep(n, stamp)) == Some(was[Live(n)]);
    }
  }

  /**
   Install an archive's files. No live path changes unless the archive passed
   its checks; a reported rollback is true of everything that was live;
   success leaves exactly the archive's files; nothing that was live is ever
   lost. The outcome, and what the safety directory holds, are exact.
   */
  method Restore(disk: Disk, archive: seq<TarEntry>, parse: string -> Parsed, unlock: (string, string) -> Option<string>,
                 stamp: string, restartNode: bool, faults: Faults) returns (r: Outcome)
    modifies disk
    ensures var was, entries := old(disk.tree), Read(archive);
            var contents := Contents(entries);
            && OthersSame(was, disk.tree, stamp) && NothingLost(was, disk.tree, stamp)
            && (r.Refused? ==> disk.tree == was)
            && (!r.Refused? ==> GoodLayout(entries) && NoDuplicates(entries) && KeyChecked(contents, parse, unlock))
            && (r.RolledBack? ==> LiveAgain(was, disk.tree))
            && (r.Restored? ==> Swapped(was, disk.tree, contents, stamp))
    ensures r.Restored? ==> ExactlyArchive(disk.tree, archive)
    ensures SafetyCopies(old(disk.tree), disk.tree, stamp, faults, r)
    ensures NothingStray(old(disk.tree), disk.tree, Contents(Read(archive)).Keys)
    ensures r.Refused? <==> !Accepted(Read(archive), parse, unlock) || faults.prepare || faults.mkdir
    ensures r.Restored? <==> !r.Refused? && AllGoAside(old(disk.tree), stamp, faults)
                             && forall t | t in Contents(Read(archive)) :: !Fails(t, faults)
    ensures r.NotRolledBack? ==> exists n | n in NAMES :: faults.clear(n) || faults.back(n)
    ensures r.NotRolledBack? ==> UnhinderedLive(old(disk.tree), disk.tree, faults)
    ensures r.Restored? ==> r.restarted == (restartNode && !faults.restart)
  {
    var entries := Read(archive);
    var found := Inspect(entries, parse);
    if found.None? || faults.prepare {
      return Refused;
    }
    var files, staged := Stage(entries);
    if !staged || !KeyChecked(found.value, parse, unlock) || faults.mkdir {
      return Refused;
    }
    ghost var was := disk.tree;
    var swapped, back := Swap(disk, found.value, files, stamp, faults);
    if swapped {
      InstalledIsArchive(disk.tree, archive);
      r := Restored(restartNode && !faults.restart);
    } else {
      r := if back then RolledBack else NotRolledBack;
    }
  }

  /** Move the live entries aside and the staged files into place, or undo it. */
  method Swap(disk: Disk, contents: map<Target, string>, files: seq<Target>, stamp: string, faults: Faults)
    returns (ok: bool, back: bool)
    requires (forall t | t in files :: t in contents) && (forall t | t in contents :: t in files)
    modifies disk
    ensures OthersSame(old(disk.tree), disk.tree, stamp) && NothingLost(old(disk.tree), disk.tree, stamp)
    ensures ok <==> AllGoAside(old(disk.tree), stamp, faults) && forall t | t in contents :: !Fails(t, faults)
    ensures ok ==> Swapped(old(disk.tree), disk.tree, contents, stamp)
    ensures NothingStray(old(disk.tree), disk.tree, contents.Keys)
    ensures !ok && back ==> LiveAgain(old(disk.tree), disk.tree)
    ensures !ok && !back ==> exists n | n in NAMES :: faults.clear(n) || faults.back(n)
    ensures !ok ==> UnhinderedLive(old(disk.tree), disk.tree, faults)
    ensures SafetyCopies(old(disk.tree), disk.tree, stamp, faults, if ok then Restored(false) else if back then RolledBack else NotRolledBack)
  {
    var moved: seq<string>;
    moved, ok := MoveBothAside(disk, stamp, faults);
    back := false;
    ghost var aside := disk.tree;
    if ok {
      BothGone(old(disk.tree), aside, moved, stamp);
      ok := InstallAll(disk, contents, files, faults);
    }
    ghost var placed := disk.tree;
    StrayAfterAside(old(disk.tree), aside, placed, moved, stamp, contents.Keys);
    KeptByInstall(old(disk.tree), aside, placed, moved, stamp);
    if ok {
      SwapDone(old(disk.tree), aside, placed, contents, moved, stamp);
      SwapCopies(old(disk.tree), placed, contents, stamp, faults);
    } else {
      back := Rollback(disk, moved, stamp, faults);
      RollbackDone(old(disk.tree), aside, placed, disk.tree, moved, stamp, faults, back);
      RollbackCopies(old(disk.tree), aside, placed, disk.tree, moved, stamp, faults, back);
      StrayAfterRollback(old(disk.tree), placed, disk.tree, moved, stamp, contents.Keys, back);
    }
  }

  lemma StrayAfterAside(was: Tree, aside: Tree, placed: Tree, moved: seq<string>, stamp: string, targets: set<Target>)
    requires MovedAside(was, aside, moved, stamp) && NothingStray(aside, placed, targets)
    ensures NothingStray(was, placed, targets)
  {
    forall n | n in NAMES && Live(n) !in was ensures Live(n) !in aside {
      if n !in moved {
        UnmovedSame(was, aside, moved, stamp, n);
      }
    }
  }

  lemma StrayAfterRollback(was: Tree, placed: Tree, t: Tree, moved: seq<string>, stamp: string, targets: set<Target>, back: bool)
    requires NothingStray(was, placed, targets) && Returned(placed, t, 0, moved, stamp, back)
    requires forall n | n in moved :: Live(n) in was
    ensures NothingStray(was, t, targets)
  {
    forall n | n in NAMES && Live(n) !in was ensures SameAt(placed, t, Live(n)) {
      assert !IsMoved(Live(n), moved, stamp);
    }
  }

  lemma SwapCopies(was: Tree, t: Tree, contents: map<Target, string>, stamp: string, faults: Faults)
    requires Swapped(was, t, contents, stamp) && AllGoAside(was, stamp, faults)
    ensures SafetyCopies(was, t, stamp, faults, Restored(false))
  {
  }

  lemma RollbackCopies(was: Tree, aside: Tree, placed: Tree, t: Tree, moved: seq<string>, stamp: string, faults: Faults, back: bool)
    requires MovedAside(was, aside, moved, stamp) && OnlyLiveChanged(aside, placed)
    requires Returned(placed, t, 0, moved, stamp, back)
    requires forall n | n in NAMES :: n in moved <==> GoesAside(was, n, stamp, faults)
    ensures SafetyCopies(was, t, stamp, faults, if back then RolledBack else NotRolledBack)
  {
    KeptByInstall(was, aside, placed, moved, stamp);
    forall n | n in NAMES
      ensures if n !in moved then SameAt(was, t, Keep(n, stamp))
              else Keep(n, stamp) !in t || (!back && Find(t, Keep(n, stamp)) == Some(was[Live(n)]))
    {
      if n in moved {
        var i :| 0 <= i < |moved| && moved[i] == n;
        assert Keep(moved[i], stamp) !in t || SameAt(placed, t, Keep(moved[i], stamp));
      } else {
        UnmovedSame(was, aside, moved, stamp, n);
        assert SameAt(aside, placed, Keep(n, stamp)) && SameAt(placed, t, Keep(n, stamp));
      }
    }
  }

  /** An entry not moved is where it was, and so is its place in the safety directory. */
  lemma UnmovedSame(was: Tree, t: Tree, moved: seq<string>, stamp: string, n: string)
    requires MovedAside(was, t, moved, stamp) && n !in moved
    ensures !IsMoved(Live(n), moved, stamp) && !IsMoved(Keep(n, stamp), moved, stamp)
    ensures SameAt(was, t, Live(n)) && SameAt(was, t, Keep(n, stamp))
  {
    forall m | m in moved ensures Keep(m, stamp) != Keep(n, stamp) {
      if Keep(m, stamp) == Keep(n, stamp) {
        KeepInjective(m, n, stamp);
      }
    }
  }

  /** The order in which the live entries are moved. */
  const ORDER: seq<string> := [WALLET, CONFIG]

  /** What the first `k` moves did, or the failure of the next one, decides who goes aside. */
  lemma AsideDecided(was: Tree, moved: seq<string>, stamp: string, faults: Faults, k: nat)
    requires k <= 2 && forall j | 0 <= j < k :: Live(ORDER[j]) in was <==> ORDER[j] in moved
    requires forall n | n in moved :: n in ORDER[..k] && Live(n) in was && CanMove(was, n, stamp, faults)
    requires k < 2 ==> Live(ORDER[k]) in was && !CanMove(was, ORDER[k], stamp, faults)
    ensures forall n | n in NAMES :: n in moved <==> GoesAside(was, n, stamp, faults)
    ensures k == 2 <==> AllGoAside(was, stamp, faults)
  {
    DifferentPlaces(stamp);
    assert ORDER[0] == WALLET && ORDER[1] == CONFIG;
    assert WALLET in NAMES && CONFIG in NAMES;
    if k == 0 {
      assert ORDER[..0] == [];
    } else if k == 1 {
      assert ORDER[..1] == [WALLET];
    }
  }

  /** Move the live wallet directory and config.json aside, remembering each move. */
  method MoveBothAside(disk: Disk, stamp: string, faults: Faults) returns (moved: seq<string>, ok: bool)
    modifies disk
    ensures MovedAside(old(disk.tree), disk.tree, moved, stamp)
    ensures forall n | n in moved :: n in NAMES
    ensures forall i, j | 0 <= i < j < |moved| :: moved[i] != moved[j]
    ensures forall n | n in NAMES :: n in moved <==> GoesAside(old(disk.tree), n, stamp, faults)
    ensures ok <==> AllGoAside(old(disk.tree), stamp, faults)
  {
    moved := [];
    for i := 0 to |ORDER|
      invariant MovedAside(old(disk.tree), disk.tree, moved, stamp)
      invariant forall n | n in moved :: n in ORDER[..i] && Live(n) in old(disk.tree) && CanMove(old(disk.tree), n, stamp, faults)
      invariant forall j, k | 0 <= j < k < |moved| :: moved[j] != moved[k]
      invariant forall j | 0 <= j < i :: Live(ORDER[j]) in old(disk.tree) <==> ORDER[j] in moved
    {
      var n := ORDER[i];
      DifferentPlaces(stamp);
      assert n !in ORDER[..i] && ORDER[..i + 1] == ORDER[..i] + [n];
      UnmovedSame(old(disk.tree), disk.tree, moved, stamp, n);
      if Live(n) in disk.tree {
        ghost var before := disk.tree;
        var done := disk.Rename(Live(n), Keep(n, stamp), faults.aside(n));
        if !done {
          AsideDecided(old(disk.tree), moved, stamp, faults, i);
          return moved, false;
        }
        MoveOneAside(old(disk.tree), before, moved, stamp, n);
        moved := moved + [n];
      }
    }
    assert ORDER[..2] == ORDER;
    AsideDecided(old(disk.tree), moved, stamp, faults, 2);
    return moved, true;
  }

  lemma BothGone(was: Tree, aside: Tree, moved: seq<string>, stamp: string)
    requires MovedAside(was, aside, moved, stamp)
    requires forall n | n in NAMES :: Live(n) in was <==> n in moved
    ensures forall n | n in NAMES :: Live(n) !in aside
  {
    forall n | n in NAMES && n !in moved ensures Live(n) !in aside {
      assert !IsMoved(Live(n), moved, stamp);
      assert SameAt(was, aside, Live(n));
    }
  }

  lemma KeptByInstall(was: Tree, aside: Tree, placed: Tree, moved: seq<string>, stamp: string)
    requires MovedAside(was, aside, moved, stamp) && OnlyLiveChanged(aside, placed)
    ensures forall n | n in moved :: Find(placed, Keep(n, stamp)) == Some(was[Live(n)])
  {
    forall n | n in moved ensures Find(placed, Keep(n, stamp)) == Some(was[Live(n)]) {
      assert SameAt(aside, placed, Keep(n, stamp));
    }
  }

  lemma OthersSameAfter(was: Tree, aside: Tree, placed: Tree, moved: seq<string>, stamp: string, p: Path)
    requires MovedAside(was, aside, moved, stamp) && OnlyLiveChanged(aside, placed)
    requires forall n | n in moved :: n in NAMES
    requires !IsMoved(p, [WALLET, CONFIG], stamp)
    ensures SameAt(was, placed, p) && !IsMoved(p, moved, stamp)
  {
    assert WALLET in [WALLET, CONFIG] && CONFIG in [WALLET, CONFIG];
    assert p != Live(WALLET) && p != Live(CONFIG);
    assert !IsMoved(p, moved, stamp);
    assert SameAt(was, aside, p) && SameAt(aside, placed, p);
  }

  lemma SwapDone(was: Tree, aside: Tree, placed: Tree, contents: map<Target, string>, moved: seq<string>, stamp: string)
    requires MovedAside(was, aside, moved, stamp) && OnlyLiveChanged(aside, placed)
    requires Installed(placed, contents, contents.Keys)
    requires forall n | n in moved :: n in NAMES
    requires forall n | n in NAMES :: Live(n) in was <==> n in moved
    ensures Swapped(was, placed, contents, stamp) && OthersSame(was, placed, stamp) && NothingLost(was, placed, stamp)
  {
    KeptByInstall(was, aside, placed, moved, stamp);
    forall p: Path | !IsMoved(p, [WALLET, CONFIG], stamp) ensures SameAt(was, placed, p) {
      OthersSameAfter(was, aside, placed, moved, stamp, p);
    }
    forall n | n in NAMES && Live(n) !in was ensures SameAt(was, placed, Keep(n, stamp)) {
      UnmovedSame(was, aside, moved, stamp, n);
      assert SameAt(aside, placed, Keep(n, stamp));
    }
  }

  lemma RollbackDone(was: Tree, aside: Tree, placed: Tree, t: Tree, moved: seq<string>, stamp: string, faults: Faults, back: bool)
    requires MovedAside(was, aside, moved, stamp)
    requires OnlyLiveChanged(aside, placed)
    requires forall n | n in NAMES && Live(n) in was && n !in moved :: SameAt(aside, placed, Live(n))
    requires forall n | n in moved :: n in NAMES
    requires Returned(placed, t, 0, moved, stamp, back) && UnhinderedBack(placed, t, 0, moved, stamp, faults)
    ensures OthersSame(was, t, stamp) && NothingLost(was, t, stamp)
    ensures back ==> LiveAgain(was, t)
    ensures UnhinderedLive(was, t, faults)
  {
    KeptByInstall(was, aside, placed, moved, stamp);
    forall p: Path | !IsMoved(p, [WALLET, CONFIG], stamp) ensures SameAt(was, t, p) {
      OthersSameAfter(was, aside, placed, moved, stamp, p);
      assert SameAt(placed, t, p);
    }
    forall n | n in NAMES && Live(n) in was && (n in moved ==> !faults.clear(n) && !faults.back(n))
      ensures Find(t, Live(n)) == Some(was[Live(n)])
    {
      if n in moved {
        var i :| 0 <= i < |moved| && moved[i] == n;
        assert Find(t, Live(moved[i])) == Find(placed, Keep(moved[i], stamp));
      } else {
        UnmovedSame(was, aside, moved, stamp, n);
        assert SameAt(aside, placed, Live(n)) && SameAt(placed, t, Live(n));
      }
    }
    forall n | n in NAMES && Live(n) in was
      ensures Find(t, Live(n)) == Some(was[Live(n)]) || (!back && Find(t, Keep(n, stamp)) == Some(was[Live(n)]))
    {
      if n in moved {
        var i :| 0 <= i < |moved| && moved[i] == n;
        assert SameAt(placed, t, Keep(moved[i], stamp)) || Find(t, Live(moved[i])) == Find(placed, Keep(moved[i], stamp));
      } else {
        assert !IsMoved(Live(n), moved, stamp);
        assert SameAt(was, aside, Live(n)) && SameAt(aside, placed, Live(n)) && SameAt(placed, t, Live(n));
      }
    }
  }

  // --- two restores in one second ---------------------------------------------------

  /** An archive that holds nothing but a config.json is accepted where the config names no producer. */
  lemma ConfigOnlyAccepted(entries: seq<Entry>, data: string, parse: string -> Parsed, unlock: (string, string) -> Option<string>)
    requires entries == [Entry(Some(ConfigFile), true, data)]
    requires parse(data).NoProducer? && |data| <= MAX_ARCHIVE_BYTES
    ensures Accepted(entries, parse, unlock) && Contents(entries) == map[ConfigFile := data]
  {
    assert SizeTo(entries, 0) == 0 && SizeTo(entries, 1) == |data|;
    assert ContentsTo(entries, 0) == map[] && ContentsTo(entries, 1) == map[ConfigFile := data];
  }

  lemma ReadConfig(data: string)
    ensures Read([TarEntry(CONFIG, true, data)]) == [Entry(Some(ConfigFile), true, data)]
  {
    PackedNamesAccepted("x");
  }

  lemma DifferentPlaces(stamp: string)
    ensures WALLET != CONFIG && Keep(WALLET, stamp) != Keep(CONFIG, stamp)
  {
    assert |WALLET| != |CONFIG|;
    if Keep(WALLET, stamp) == Keep(CONFIG, stamp) {
      KeepInjective(WALLET, CONFIG, stamp);
    }
  }

  /** A data directory with nothing but config.json, and at most a copy of it. */
  ghost predicate ConfigAlone(t: Tree, stamp: string) {
    && Live(CONFIG) in t && t[Live(CONFIG)].File?
    && (Keep(CONFIG, stamp) in t ==> t[Keep(CONFIG, stamp)].File?)
    && forall p | p in t :: p == Live(CONFIG) || p == Keep(CONFIG, stamp)
  }

  /** What a restore leaves of such a tree, from the paths its contract speaks of. */
  lemma ConfigAloneAfter(was: Tree, t: Tree, stamp: string)
    requires ConfigAlone(was, stamp) && OthersSame(was, t, stamp)
    requires Live(WALLET) !in t && Keep(WALLET, stamp) !in t
    ensures forall p | p in t :: p == Live(CONFIG) || p == Keep(CONFIG, stamp)
  {
    DifferentPlaces(stamp);
    forall p: Path | !IsMoved(p, [WALLET, CONFIG], stamp) ensures p !in t {
      assert WALLET in [WALLET, CONFIG] && CONFIG in [WALLET, CONFIG];
      assert SameAt(was, t, p);
    }
  }

  lemma ConfigGoesAside(was: Tree, stamp: string, faults: Faults)
    requires ConfigAlone(was, stamp) && !faults.aside(CONFIG)
    ensures GoesAside(was, CONFIG, stamp, faults) && !GoesAside(was, WALLET, stamp, faults) && AllGoAside(was, stamp, faults)
  {
    DifferentPlaces(stamp);
    assert Live(WALLET) !in was;
  }

  /** The whole tree a config-only restore leaves, from its contract. */
  lemma ConfigOutcome(was: Tree, t: Tree, data: string, stamp: string, faults: Faults, r: Outcome)
    requires ConfigAlone(was, stamp) && !faults.aside(CONFIG) && (r.RolledBack? || r.Restored?)
    requires OthersSame(was, t, stamp) && SafetyCopies(was, t, stamp, faults, r) && NothingStray(was, t, {ConfigFile})
    requires r.RolledBack? ==> LiveAgain(was, t)
    requires r.Restored? ==> Swapped(was, t, map[ConfigFile := data], stamp)
    ensures t == if r.RolledBack? then map[Live(CONFIG) := was[Live(CONFIG)]]
                 else map[Live(CONFIG) := File(data), Keep(CONFIG, stamp) := was[Live(CONFIG)]]
  {
    DifferentPlaces(stamp);
    ConfigGoesAside(was, stamp, faults);
    assert WALLET in NAMES && CONFIG in NAMES;
    assert Live(WALLET) !in was;
    assert SameAt(was, t, Keep(WALLET, stamp));
    ConfigAloneAfter(was, t, stamp);
  }

  /** Restore a config-only archive onto such a tree. */
  method RestoreConfig(disk: Disk, data: string, stamp: string, installFails: bool) returns (r: Outcome)
    requires ConfigAlone(disk.tree, stamp) && |data| <= MAX_ARCHIVE_BYTES
    modifies disk
    ensures r == if installFails then RolledBack else Restored(false)
    ensures var config := old(disk.tree)[Live(CONFIG)];
            disk.tree == if installFails then map[Live(CONFIG) := config]
                         else map[Live(CONFIG) := File(data), Keep(CONFIG, stamp) := config]
  {
    var faults := Faults(false, false, false, _ => false, _ => false, _ => installFails, _ => false, _ => false, _ => File(""));
    var parse, unlock := (_: string) => NoProducer, (_: string, _: string) => None;
    ghost var was, entries := disk.tree, [Entry(Some(ConfigFile), true, data)];
    ReadConfig(data);
    ConfigOnlyAccepted(entries, data, parse, unlock);
    ConfigGoesAside(was, stamp, faults);
    r := Restore(disk, [TarEntry(CONFIG, true, data)], parse, unlock, stamp, false, faults);
    assert ConfigFile in map[ConfigFile := data] && Fails(ConfigFile, faults) == installFails;
    assert (map[ConfigFile := data]).Keys == {ConfigFile};
    ConfigOutcome(was, disk.tree, data, stamp, faults, r);
  }

  /**
   Two restores of config-only archives in one second, onto a config.json
   holding `first`. After the first one `first` is in the safety directory;
   after the second, successful or rolled back, it is nowhere.
   */
  method TwoRestoresInOneSecond(first: string, second: string, third: string, stamp: string, installFails: bool)
    returns (between: Tree, after: Tree, r: Outcome)
    requires first != second && first != third && |second| <= MAX_ARCHIVE_BYTES && |third| <= MAX_ARCHIVE_BYTES
    ensures between == map[Live(CONFIG) := File(second), Keep(CONFIG, stamp) := File(first)]
    ensures r == if installFails then RolledBack else Restored(false)
    ensures after == if installFails then map[Live(CONFIG) := File(second)]
                     else map[Live(CONFIG) := File(third), Keep(CONFIG, stamp) := File(second)]
    ensures forall p | p in after :: after[p] != File(first)
  {
    var disk := new Disk(map[Live(CONFIG) := File(first)]);
    var _ := RestoreConfig(disk, second, stamp, false);
    between := disk.tree;
    r := RestoreConfig(disk, third, stamp, installFails);
    after := disk.tree;
  }
}
