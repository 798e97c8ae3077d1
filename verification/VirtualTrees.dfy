/** The tree of directories as a value: what every operation keeps, what each operation does
    (src/storage/vfs/VirtualDirectory.cpp), and runs of operations by id
    (src/storage/StorageEndpoint.cpp). */
module VirtualTrees {
  import opened Bits
  import opened VirtualDirectories

  const UINT32_MAX: nat := 0xFFFF_FFFF

  type Nodes = set<VirtualDirectory>

  datatype Operation =
    | FileCreate(dir: FileID, name: string)
    | FileResize(dir: FileID, file: FileID, newSize: nat)
    | FileDelete(file: FileID)
    | DirCreate(dir: FileID, name: string, maxSize: nat)
    | DirDelete(dir: FileID)
    | OtherIds(count: nat) // ids are given out elsewhere: there is one counter for all trees

  // How many ids an operation may take.
  function IdsFor(op: Operation): nat {
    match op
    case FileCreate(_, _) => 1
    case DirCreate(_, _, _) => 1
    case OtherIds(count) => count
    case _ => 0
  }

  function IdsForAll(ops: seq<Operation>): nat {
    if ops == [] then 0 else IdsFor(ops[0]) + IdsForAll(ops[1..])
  }

  // ---- lists of files ----

  function Uids(fs: seq<VirtualFile>): set<nat> {
    set i | 0 <= i < |fs| :: fs[i].fid.uid
  }

  predicate UniqueIds(fs: seq<VirtualFile>) {
    forall i, j :: 0 <= i < j < |fs| ==> fs[i].fid.uid != fs[j].fid.uid
  }

  predicate FileIds(fs: seq<VirtualFile>, next: nat) {
    forall i :: 0 <= i < |fs| ==> !fs[i].fid.directory && fs[i].fid.uid < next
  }

  lemma {:induction false} FilesPush(fs: seq<VirtualFile>, f: VirtualFile, next: nat)
    requires FileIds(fs, next) && UniqueIds(fs) && f.fid.uid == next && !f.fid.directory
    ensures FileIds(fs + [f], next + 1) && UniqueIds(fs + [f])
    ensures forall u :: u in Uids(fs + [f]) ==> u in Uids(fs) || u >= next
  {
    forall u | u in Uids(fs + [f]) ensures u in Uids(fs) || u >= next {
      var i :| 0 <= i < |fs + [f]| && (fs + [f])[i].fid.uid == u;
      assert i < |fs| ==> fs[i].fid.uid == u;
    }
  }

  lemma {:induction false} FilesResized(fs: seq<VirtualFile>, k: nat, size: nat, next: nat)
    requires k < |fs| && FileIds(fs, next) && UniqueIds(fs)
    ensures var hs := fs[k := fs[k].(size := size)];
      FileIds(hs, next) && UniqueIds(hs) && Uids(hs) <= Uids(fs)
  {
    var hs := fs[k := fs[k].(size := size)];
    forall u | u in Uids(hs) ensures u in Uids(fs) {
      var i :| 0 <= i < |hs| && hs[i].fid.uid == u;
      assert fs[i].fid.uid == u;
    }
  }

  lemma {:induction false} FilesCut(fs: seq<VirtualFile>, k: nat, next: nat)
    requires k < |fs| && FileIds(fs, next) && UniqueIds(fs)
    ensures var hs := fs[..k] + fs[k + 1..];
      FileIds(hs, next) && UniqueIds(hs) && Uids(hs) <= Uids(fs)
  {
    var hs := fs[..k] + fs[k + 1..];
    forall u | u in Uids(hs) ensures u in Uids(fs) {
      var i :| 0 <= i < |hs| && hs[i].fid.uid == u;
      assert fs[if i < k then i else i + 1].fid.uid == u;
    }
  }

  // ---- the whole tree as a value ----

  type Tree = map<VirtualDirectory, Entry>

  ghost function TreeOf(nodes: Nodes): (t: Tree)
    reads nodes
  {
    map d | d in nodes :: d.Fields()
  }

  // Every directory knows its parent and is in the parent's list once; only the root is in none.
  ghost predicate Rooted(t: Tree, root: VirtualDirectory) {
    root in t && AllSubdirs(t, root) && AllDistinct(t) && AllListed(t, root)
  }

  ghost predicate AllSubdirs(t: Tree, root: VirtualDirectory) {
    forall d, i :: d in t && 0 <= i < |t[d].dirs| ==> IsSubdir(t, root, d, t[d].dirs[i])
  }

  ghost predicate AllDistinct(t: Tree) {
    forall d :: d in t ==> DistinctDirs(t[d].dirs)
  }

  ghost predicate AllListed(t: Tree, root: VirtualDirectory) {
    forall d :: d in t && d != root ==> IsListed(t, d)
  }

  ghost predicate IsSubdir(t: Tree, root: VirtualDirectory, d: VirtualDirectory, c: VirtualDirectory)
    requires d in t
  {
    c in t && c != root && t[c].parent == d && t[c].depth == t[d].depth + 1
  }

  ghost predicate DistinctDirs(dirs: seq<VirtualDirectory>) {
    forall i, j :: 0 <= i < j < |dirs| ==> dirs[i] != dirs[j]
  }

  ghost predicate IsListed(t: Tree, d: VirtualDirectory)
    requires d in t
  {
    t[d].parent != null && t[d].parent in t && d in t[t[d].parent].dirs
  }

  // Every id, of a file or a directory, occurs once in the whole tree.
  ghost predicate Identified(t: Tree, next: nat) {
    && (forall d :: d in t ==> d.fid.directory && d.fid.uid < next)
    && (forall d, e :: d in t && e in t && d.fid.uid == e.fid.uid ==> d == e)
    && (forall d :: d in t ==> FileIds(t[d].files, next) && UniqueIds(t[d].files))
    && (forall d, e :: d in t && e in t && d != e ==> Uids(t[d].files) !! Uids(t[e].files))
    && (forall d, e :: d in t && e in t ==> e.fid.uid !in Uids(t[d].files))
  }

  predicate FileNames(fs: seq<VirtualFile>) {
    forall i, j :: 0 <= i < j < |fs| ==> fs[i].name != fs[j].name
  }

  // The recorded size is the sum of the file sizes, as far as 64 bits go.
  predicate Accounted(e: Entry, sizeLimit: nat) {
    FileNames(e.files) && e.subDirFileSize == 0 && e.size == Wrap(SizeSum(e.files)) && sizeLimit < TWO_64
  }

  // It is the sum itself, and 0 or below the limit.
  predicate Exact(e: Entry, sizeLimit: nat) {
    e.size == SizeSum(e.files) < TWO_64 && (e.size == 0 || e.size < sizeLimit)
  }

  ghost predicate DirNames(t: Tree, d: VirtualDirectory)
    requires d in t
  {
    forall i, j :: 0 <= i < j < |t[d].dirs| && t[d].dirs[i] in t && t[d].dirs[j] in t ==>
      t[t[d].dirs[i]].name != t[t[d].dirs[j]].name
  }

  // What every operation keeps. The directories in `over` are those whose sizes have added up to
  // 2^64 or more at some time.
  ghost predicate Sound(t: Tree, root: VirtualDirectory, next: nat, over: Nodes) {
    Rooted(t, root) && Identified(t, next) && AllAccounted(t, over) && AllNamed(t)
  }

  ghost predicate AllAccounted(t: Tree, over: Nodes) {
    && (forall d :: d in t ==> Accounted(t[d], d.sizeLimit))
    && (forall d :: d in t && d !in over ==> Exact(t[d], d.sizeLimit))
  }

  ghost predicate AllNamed(t: Tree) {
    forall d :: d in t ==> DirNames(t, d)
  }

  /** What every operation keeps, as a name that stands for Sound. */
  ghost predicate Kept(t: Tree, root: VirtualDirectory, next: nat, over: Nodes) {
    KeptAt(t, root, next, over, root.fid.uid + 9)
  }

  // (The depth plays no part: it keeps the operations, which only pass the invariant on, from
  // looking inside.)
  ghost predicate KeptAt(t: Tree, root: VirtualDirectory, next: nat, over: Nodes, depth: nat)
    decreases depth
  {
    if depth > 0 then KeptAt(t, root, next, over, depth - 1) else Sound(t, root, next, over)
  }

  lemma {:induction false} KeptAtMeans(t: Tree, root: VirtualDirectory, next: nat, over: Nodes, depth: nat)
    ensures KeptAt(t, root, next, over, depth) <==> Sound(t, root, next, over)
    decreases depth
  {
    if depth > 0 {
      KeptAtMeans(t, root, next, over, depth - 1);
    }
  }

  lemma {:induction false} KeptMeans(t: Tree, root: VirtualDirectory, next: nat, over: Nodes)
    ensures Kept(t, root, next, over) <==> Sound(t, root, next, over)
  {
    KeptAtMeans(t, root, next, over, root.fid.uid + 9);
  }

  // Other files in one directory: ids are kept, or new.
  lemma {:induction false} IdsReplaced(t: Tree, d: VirtualDirectory, hs: seq<VirtualFile>, size: nat, next: nat, next': nat)
    requires Identified(t, next) && d in t && next <= next' && FileIds(hs, next') && UniqueIds(hs)
    requires forall u :: u in Uids(hs) ==> u in Uids(t[d].files) || u >= next
    ensures Identified(t[d := t[d].(files := hs, size := size)], next')
  {
    forall e | e in t ensures forall u :: u in Uids(t[e].files) ==> u < next {
      assert FileIds(t[e].files, next);
    }
  }

  lemma {:induction false} FilesReplaced(t: Tree, root: VirtualDirectory, d: VirtualDirectory, hs: seq<VirtualFile>, size: nat,
                                         next: nat, next': nat, over: Nodes, over': Nodes)
    requires Sound(t, root, next, over) && d in t && next <= next' && FileIds(hs, next') && UniqueIds(hs)
    requires forall u :: u in Uids(hs) ==> u in Uids(t[d].files) || u >= next
    requires Accounted(t[d].(files := hs, size := size), d.sizeLimit) && over <= over'
    requires d in over' || Exact(t[d].(files := hs, size := size), d.sizeLimit)
    ensures Sound(t[d := t[d].(files := hs, size := size)], root, next', over')
  {
    IdsReplaced(t, d, hs, size, next, next');
    RootedStays(t, root, d, hs, size);
    NamesStay(t, d, hs, size);
    AccountsStay(t, d, t[d].(files := hs, size := size), over, over');
  }

  lemma {:induction false} AccountsStay(t: Tree, d: VirtualDirectory, entry: Entry, over: Nodes, over': Nodes)
    requires d in t && Accounted(entry, d.sizeLimit) && over <= over' && (d in over' || Exact(entry, d.sizeLimit))
    requires AllAccounted(t, over)
    ensures AllAccounted(t[d := entry], over')
  {
    var n := t[d := entry];
    forall e | e in n ensures Accounted(n[e], e.sizeLimit) && (e !in over' ==> Exact(n[e], e.sizeLimit)) {
      if e != d {
        assert n[e] == t[e];
      }
    }
  }

  lemma {:induction false} NamesStay(t: Tree, d: VirtualDirectory, hs: seq<VirtualFile>, size: nat)
    requires d in t && AllNamed(t)
    ensures AllNamed(t[d := t[d].(files := hs, size := size)])
  {
    forall e | e in t ensures DirNames(t[d := t[d].(files := hs, size := size)], e) {
      assert DirNames(t, e);
    }
  }

  lemma {:induction false} RootedStays(t: Tree, root: VirtualDirectory, d: VirtualDirectory, hs: seq<VirtualFile>, size: nat)
    requires Rooted(t, root) && d in t
    ensures Rooted(t[d := t[d].(files := hs, size := size)], root)
  {
    var n := t[d := t[d].(files := hs, size := size)];
    forall e, i | e in n && 0 <= i < |n[e].dirs| ensures IsSubdir(n, root, e, n[e].dirs[i]) {
      assert IsSubdir(t, root, e, t[e].dirs[i]);
    }
    forall e | e in n && e != root ensures IsListed(n, e) {
      assert IsListed(t, e);
    }
  }

  // ---- what the operations do to the tree ----

  function WithFile(e: Entry, f: VirtualFile): Entry {
    e.(files := e.files + [f])
  }

  lemma {:induction false} EntryFacts(t: Tree, root: VirtualDirectory, next: nat, over: Nodes, d: VirtualDirectory)
    requires Kept(t, root, next, over) && d in t
    ensures Accounted(t[d], d.sizeLimit) && FileIds(t[d].files, next) && UniqueIds(t[d].files)
    ensures d in over || Exact(t[d], d.sizeLimit)
  {
    KeptMeans(t, root, next, over);
  }

  // Other files in one directory keep the tree sound.
  lemma {:induction false} EntryReplaced(t: Tree, root: VirtualDirectory, next: nat, next': nat, over: Nodes, over': Nodes,
                                         d: VirtualDirectory, e: Entry)
    requires Kept(t, root, next, over) && d in t && next <= next' && over <= over'
    requires e == t[d].(files := e.files, size := e.size) && Accounted(e, d.sizeLimit)
    requires d in over' || Exact(e, d.sizeLimit)
    requires FileIds(e.files, next') && UniqueIds(e.files)
    requires forall u :: u in Uids(e.files) ==> u in Uids(t[d].files) || u >= next
    ensures Kept(t[d := e], root, next', over')
  {
    KeptMeans(t, root, next, over);
    FilesReplaced(t, root, d, e.files, e.size, next, next', over, over');
    KeptMeans(t[d := e], root, next', over');
  }

  lemma {:induction false} AccountedWithFile(e: Entry, f: VirtualFile, sizeLimit: nat)
    requires Accounted(e, sizeLimit) && f.size == 0
    requires forall i :: 0 <= i < |e.files| ==> e.files[i].name != f.name
    ensures Accounted(WithFile(e, f), sizeLimit) && (Exact(e, sizeLimit) ==> Exact(WithFile(e, f), sizeLimit))
  {
    SizeSumAppend(e.files, [f]);
    SizeSumOne(f);
  }

  // Additions may wrap one by one or all at once.
  lemma {:induction false} WrapLater(a: int, b: int)
    ensures Wrap(Wrap(a) + b) == Wrap(a + b)
  {
    var q := a / TWO_64;
    assert a == q * TWO_64 + Wrap(a);
    WrapWhole(Wrap(a) + b, q);
  }

  lemma {:induction false} WrapWhole(x: int, q: int)
    ensures Wrap(x + q * TWO_64) == Wrap(x)
  {
    var p := x / TWO_64;
    DivUnique(x + q * TWO_64, TWO_64, p + q, Wrap(x));
  }

  lemma {:induction false} NamesWithSize(fs: seq<VirtualFile>, k: nat, newSize: nat)
    requires k < |fs| && FileNames(fs)
    ensures FileNames(fs[k := fs[k].(size := newSize)])
  {
  }

  // The recorded size after a change, modulo 2^64 ...
  lemma {:induction false} SizeWithSize(e: Entry, k: nat, newSize: nat)
    requires k < |e.files| && e.size == Wrap(SizeSum(e.files))
    ensures var e' := WithSize(e, k, newSize);
      e'.size == Wrap(SizeSum(e'.files)) && SizeSum(e'.files) == SumWith(e.files, k, newSize)
  {
    SizeSumChanged(e.files, k, newSize);
    WrapLater(SizeSum(e.files), newSize - e.files[k].size);
  }

  lemma {:induction false} AccountedWithSize(e: Entry, k: nat, newSize: nat, sizeLimit: nat)
    requires Accounted(e, sizeLimit) && k < |e.files|
    ensures Accounted(WithSize(e, k, newSize), sizeLimit)
  {
    NamesWithSize(e.files, k, newSize);
    SizeWithSize(e, k, newSize);
  }

  // ... and exactly, if it was exact and the sum stays below 2^64.
  lemma {:induction false} ExactWithSize(e: Entry, k: nat, newSize: nat, sizeLimit: nat)
    requires Exact(e, sizeLimit) && k < |e.files| && SumWith(e.files, k, newSize) < TWO_64
    requires e.files[k].size == newSize || CanHold(e.size, 0, e.files[k].size, newSize, sizeLimit)
    ensures Exact(WithSize(e, k, newSize), sizeLimit)
  {
    WrapSmall(SizeSum(e.files));
    SizeWithSize(e, k, newSize);
    WrapSmall(SumWith(e.files, k, newSize));
  }

  lemma {:induction false} WrapSmall(x: int)
    requires 0 <= x < TWO_64
    ensures Wrap(x) == x
  {
  }

  lemma {:induction false} NamesWithoutFile(fs: seq<VirtualFile>, k: nat)
    requires k < |fs| && FileNames(fs)
    ensures FileNames(fs[..k] + fs[k + 1..])
  {
    var hs := fs[..k] + fs[k + 1..];
    forall i | 0 <= i < |hs| ensures hs[i] == fs[if i < k then i else i + 1] {
    }
  }

  lemma {:induction false} AccountedWithoutFile(e: Entry, k: nat, sizeLimit: nat)
    requires Accounted(e, sizeLimit) && k < |e.files|
    ensures Accounted(WithoutFile(e, k), sizeLimit) && (Exact(e, sizeLimit) ==> Exact(WithoutFile(e, k), sizeLimit))
  {
    NamesWithoutFile(e.files, k);
    SizeSumChanged(e.files, k, 0);
    WrapLater(SizeSum(e.files), 0 - e.files[k].size);
  }

  lemma {:induction false} AllUnique(fs: seq<VirtualFile>)
    requires UniqueIds(fs) && FileNames(fs)
    ensures UniqueFiles(fs)
  {
  }

  lemma {:induction false} FileAdded(t: Tree, root: VirtualDirectory, next: nat, over: Nodes, d: VirtualDirectory, f: VirtualFile)
    requires Kept(t, root, next, over) && d in t
    requires f.fid.uid == next && !f.fid.directory && f.size == 0
    requires forall i :: 0 <= i < |t[d].files| ==> t[d].files[i].name != f.name
    ensures Kept(t[d := WithFile(t[d], f)], root, next + 1, over)
  {
    EntryFacts(t, root, next, over, d);
    FilesPush(t[d].files, f, next);
    AccountedWithFile(t[d], f, d.sizeLimit);
    EntryReplaced(t, root, next, next + 1, over, over, d, WithFile(t[d], f));
  }

  // The sum of sizes if file k took a new size.
  function SumWith(fs: seq<VirtualFile>, k: nat, newSize: nat): int
    requires k < |fs|
  {
    SizeSum(fs) - fs[k].size + newSize
  }

  function WithSize(e: Entry, k: nat, newSize: nat): Entry
    requires k < |e.files|
  {
    e.(files := e.files[k := e.files[k].(size := newSize)], size := Wrap(e.size - e.files[k].size + newSize))
  }

  lemma {:induction false} FileResized(t: Tree, root: VirtualDirectory, next: nat, over: Nodes, d: VirtualDirectory, k: nat, newSize: nat)
    requires Kept(t, root, next, over) && d in t && k < |t[d].files|
    requires t[d].files[k].size == newSize || CanHold(t[d].size, t[d].subDirFileSize, t[d].files[k].size, newSize, d.sizeLimit)
    ensures Kept(t[d := WithSize(t[d], k, newSize)], root, next, if SumWith(t[d].files, k, newSize) < TWO_64 then over else over + {d})
  {
    EntryFacts(t, root, next, over, d);
    FilesResized(t[d].files, k, newSize, next);
    AccountedWithSize(t[d], k, newSize, d.sizeLimit);
    if Exact(t[d], d.sizeLimit) && SumWith(t[d].files, k, newSize) < TWO_64 {
      ExactWithSize(t[d], k, newSize, d.sizeLimit);
    }
    EntryReplaced(t, root, next, next, over, if SumWith(t[d].files, k, newSize) < TWO_64 then over else over + {d},
                  d, WithSize(t[d], k, newSize));
  }

  function WithoutFile(e: Entry, k: nat): Entry
    requires k < |e.files|
  {
    e.(files := e.files[..k] + e.files[k + 1..], size := Wrap(e.size - e.files[k].size))
  }

  lemma {:induction false} FileDeleted(t: Tree, root: VirtualDirectory, next: nat, over: Nodes, d: VirtualDirectory, k: nat)
    requires Kept(t, root, next, over) && d in t && k < |t[d].files|
    ensures Without(t[d].files, t[d].files[k].fid) == t[d].files[..k] + t[d].files[k + 1..]
    ensures Kept(t[d := WithoutFile(t[d], k)], root, next, over)
  {
    EntryFacts(t, root, next, over, d);
    FilesCut(t[d].files, k, next);
    AccountedWithoutFile(t[d], k, d.sizeLimit);
    AllUnique(t[d].files);
    WithoutOne(t[d].files, k);
    EntryReplaced(t, root, next, next, over, over, d, WithoutFile(t[d], k));
  }

  lemma {:induction false} IdsTaken(t: Tree, root: VirtualDirectory, next: nat, next': nat, over: Nodes)
    requires Kept(t, root, next, over) && next <= next'
    ensures Kept(t, root, next', over)
  {
    KeptMeans(t, root, next, over);
    forall d | d in t ensures FileIds(t[d].files, next') {
      assert FileIds(t[d].files, next);
    }
    KeptMeans(t, root, next', over);
  }

  // ---- adding a directory ----

  // No subdirectory has the name.
  ghost predicate DirNameFree(t: Tree, d: VirtualDirectory, name: string)
    requires d in t
  {
    forall i :: 0 <= i < |t[d].dirs| && t[d].dirs[i] in t ==> t[t[d].dirs[i]].name != name
  }

  function NewEntry(name: string, parent: VirtualDirectory, depth: nat): Entry {
    Entry(name, [], [], 0, 0, parent, depth)
  }

  ghost function WithDir(t: Tree, d: VirtualDirectory, c: VirtualDirectory, name: string): Tree
    requires d in t
  {
    t[d := t[d].(dirs := t[d].dirs + [c])][c := NewEntry(name, d, t[d].depth + 1)]
  }

  lemma {:induction false} RootedWithDir(t: Tree, root: VirtualDirectory, d: VirtualDirectory, c: VirtualDirectory, name: string)
    requires Rooted(t, root) && d in t && c !in t
    ensures Rooted(WithDir(t, d, c, name), root)
  {
    var n := WithDir(t, d, c, name);
    forall e, i | e in n && 0 <= i < |n[e].dirs| ensures IsSubdir(n, root, e, n[e].dirs[i]) {
      if e != c && !(e == d && i == |t[d].dirs|) {
        assert IsSubdir(t, root, e, t[e].dirs[i]);
      }
    }
    forall e | e in n ensures DistinctDirs(n[e].dirs) {
      if e == d {
        assert DistinctDirs(t[d].dirs);
        forall i | 0 <= i < |t[d].dirs| ensures t[d].dirs[i] != c {
          assert IsSubdir(t, root, d, t[d].dirs[i]);
        }
      }
    }
    forall e | e in n && e != root ensures IsListed(n, e) {
      if e == c {
        assert n[d].dirs[|t[d].dirs|] == c;
      } else {
        assert IsListed(t, e);
      }
    }
  }

  // Ids do not depend on anything but who is in the tree and which files there are.
  lemma {:induction false} IdentifiedAmong(t: Tree, n: Tree, next: nat)
    requires Identified(t, next) && n.Keys <= t.Keys
    requires forall e :: e in n ==> n[e].files == t[e].files
    ensures Identified(n, next)
  {
  }

  lemma {:induction false} IdentifiedWith(t: Tree, next: nat, c: VirtualDirectory, entry: Entry)
    requires Identified(t, next) && c !in t && c.fid.uid == next && c.fid.directory && entry.files == []
    ensures Identified(t[c := entry], next + 1)
  {
    forall e | e in t ensures next !in Uids(t[e].files) && FileIds(t[e].files, next + 1) {
      assert FileIds(t[e].files, next);
    }
    assert Uids(entry.files) == {};
  }

  lemma {:induction false} IdentifiedWithDir(t: Tree, next: nat, d: VirtualDirectory, c: VirtualDirectory, name: string)
    requires Identified(t, next) && d in t && c !in t && c.fid.uid == next && c.fid.directory
    ensures Identified(WithDir(t, d, c, name), next + 1)
  {
    var m := t[d := t[d].(dirs := t[d].dirs + [c])];
    IdentifiedAmong(t, m, next);
    IdentifiedWith(m, next, c, NewEntry(name, d, t[d].depth + 1));
  }

  lemma {:induction false} NamesWithDir(t: Tree, root: VirtualDirectory, d: VirtualDirectory, c: VirtualDirectory, name: string, e: VirtualDirectory)
    requires Rooted(t, root) && d in t && c !in t && (e in t ==> DirNames(t, e))
    requires DirNameFree(t, d, name)
    requires e in WithDir(t, d, c, name)
    ensures DirNames(WithDir(t, d, c, name), e)
  {
    var n := WithDir(t, d, c, name);
    if e != c {
      forall i | 0 <= i < |t[e].dirs| ensures t[e].dirs[i] in t && t[e].dirs[i] != c {
        assert IsSubdir(t, root, e, t[e].dirs[i]);
      }
    }
  }

  lemma {:induction false} SoundWithDir(t: Tree, root: VirtualDirectory, next: nat, over: Nodes, d: VirtualDirectory, c: VirtualDirectory, name: string)
    requires Kept(t, root, next, over) && d in t && c !in t
    requires c.fid.uid == next && c.fid.directory && c.sizeLimit < TWO_64
    requires DirNameFree(t, d, name)
    ensures Sound(WithDir(t, d, c, name), root, next + 1, over)
  {
    KeptMeans(t, root, next, over);
    RootedWithDir(t, root, d, c, name);
    IdentifiedWithDir(t, next, d, c, name);
    AccountsWithDir(t, over, d, c, name);
    AllNamedWithDir(t, root, d, c, name);
  }

  lemma {:induction false} AccountsWithDir(t: Tree, over: Nodes, d: VirtualDirectory, c: VirtualDirectory, name: string)
    requires AllAccounted(t, over) && d in t && c !in t && c.sizeLimit < TWO_64
    ensures AllAccounted(WithDir(t, d, c, name), over)
  {
    var n := WithDir(t, d, c, name);
    forall e | e in n ensures Accounted(n[e], e.sizeLimit) && (e !in over ==> Exact(n[e], e.sizeLimit)) {
      if e == c {
        assert SizeSum(n[c].files) == 0;
      } else {
        assert n[e].files == t[e].files && n[e].size == t[e].size;
      }
    }
  }

  lemma {:induction false} AllNamedWithDir(t: Tree, root: VirtualDirectory, d: VirtualDirectory, c: VirtualDirectory, name: string)
    requires Rooted(t, root) && AllNamed(t) && d in t && c !in t && DirNameFree(t, d, name)
    ensures AllNamed(WithDir(t, d, c, name))
  {
    forall e | e in WithDir(t, d, c, name) ensures DirNames(WithDir(t, d, c, name), e) {
      assert e in t ==> DirNames(t, e);
      NamesWithDir(t, root, d, c, name, e);
    }
  }

  lemma {:induction false} DirAdded(t: Tree, root: VirtualDirectory, next: nat, over: Nodes,
                                    d: VirtualDirectory, c: VirtualDirectory, name: string)
    requires Kept(t, root, next, over) && d in t && c !in t
    requires c.fid.uid == next && c.fid.directory && c.sizeLimit < TWO_64
    requires DirNameFree(t, d, name)
    ensures Kept(WithDir(t, d, c, name), root, next + 1, over)
  {
    SoundWithDir(t, root, next, over, d, c, name);
    KeptMeans(WithDir(t, d, c, name), root, next + 1, over);
  }

  // ---- removing a directory ----

  ghost function WithoutDir(t: Tree, d: VirtualDirectory, k: nat): Tree
    requires d in t && k < |t[d].dirs|
  {
    t[d := t[d].(dirs := t[d].dirs[..k] + t[d].dirs[k + 1..])] - {t[d].dirs[k]}
  }

  lemma {:induction false} CutElement<T>(s: seq<T>, k: nat, i: nat)
    requires k < |s| && i < |s| - 1
    ensures (s[..k] + s[k + 1..])[i] == s[if i < k then i else i + 1]
  {
  }

  // The one list the removed directory was in.
  lemma {:induction false} SubdirsWithoutDir(t: Tree, root: VirtualDirectory, d: VirtualDirectory, k: nat, e: VirtualDirectory, i: nat)
    requires Rooted(t, root) && d in t && k < |t[d].dirs| && t[d].dirs[k] in t && t[t[d].dirs[k]].dirs == []
    requires e in WithoutDir(t, d, k) && i < |WithoutDir(t, d, k)[e].dirs|
    ensures IsSubdir(WithoutDir(t, d, k), root, e, WithoutDir(t, d, k)[e].dirs[i])
  {
    assert IsSubdir(t, root, d, t[d].dirs[k]);
    assert DistinctDirs(t[d].dirs);
    if e == d {
      CutElement(t[d].dirs, k, i);
      assert IsSubdir(t, root, d, t[d].dirs[if i < k then i else i + 1]);
    } else {
      assert IsSubdir(t, root, e, t[e].dirs[i]);
    }
  }

  lemma {:induction false} ListedWithoutDir(t: Tree, root: VirtualDirectory, d: VirtualDirectory, k: nat, e: VirtualDirectory)
    requires Rooted(t, root) && d in t && k < |t[d].dirs| && t[d].dirs[k] in t && t[t[d].dirs[k]].dirs == []
    requires e in WithoutDir(t, d, k) && e != root
    ensures IsListed(WithoutDir(t, d, k), e)
  {
    var n := WithoutDir(t, d, k);
    assert IsSubdir(t, root, d, t[d].dirs[k]);
    assert IsListed(t, e);
    var p: VirtualDirectory := t[e].parent;
    var i :| 0 <= i < |t[p].dirs| && t[p].dirs[i] == e;
    if p == d {
      assert n[d].dirs[if i < k then i else i - 1] == e;
    }
  }

  lemma {:induction false} DistinctCut(dirs: seq<VirtualDirectory>, k: nat)
    requires DistinctDirs(dirs) && k < |dirs|
    ensures DistinctDirs(dirs[..k] + dirs[k + 1..])
  {
  }

  lemma {:induction false} DistinctWithoutDir(t: Tree, d: VirtualDirectory, k: nat)
    requires AllDistinct(t) && d in t && k < |t[d].dirs|
    ensures AllDistinct(WithoutDir(t, d, k))
  {
    var n := WithoutDir(t, d, k);
    forall e | e in n ensures DistinctDirs(n[e].dirs) {
      assert DistinctDirs(t[e].dirs);
      if e == d {
        DistinctCut(t[d].dirs, k);
      }
    }
  }

  lemma {:induction false} RootedWithoutDir(t: Tree, root: VirtualDirectory, d: VirtualDirectory, k: nat)
    requires Rooted(t, root) && d in t && k < |t[d].dirs| && t[d].dirs[k] in t && t[t[d].dirs[k]].dirs == []
    ensures Rooted(WithoutDir(t, d, k), root)
  {
    var n := WithoutDir(t, d, k);
    assert IsSubdir(t, root, d, t[d].dirs[k]);
    assert AllSubdirs(n, root) by {
      forall e, i | e in n && 0 <= i < |n[e].dirs| ensures IsSubdir(n, root, e, n[e].dirs[i]) {
        SubdirsWithoutDir(t, root, d, k, e, i);
      }
    }
    assert AllListed(n, root) by {
      forall e | e in n && e != root ensures IsListed(n, e) {
        ListedWithoutDir(t, root, d, k, e);
      }
    }
    DistinctWithoutDir(t, d, k);
  }

  lemma {:induction false} NamesWithoutDir(t: Tree, d: VirtualDirectory, k: nat, e: VirtualDirectory)
    requires d in t && k < |t[d].dirs| && e in WithoutDir(t, d, k) && DirNames(t, e)
    ensures DirNames(WithoutDir(t, d, k), e)
  {
    var n := WithoutDir(t, d, k);
    if e == d {
      forall i | 0 <= i < |n[d].dirs| ensures n[d].dirs[i] == t[d].dirs[if i < k then i else i + 1] {
        CutElement(t[d].dirs, k, i);
      }
    }
  }

  lemma {:induction false} DirRemoved(t: Tree, root: VirtualDirectory, next: nat, over: Nodes, d: VirtualDirectory, k: nat)
    requires Kept(t, root, next, over) && d in t && k < |t[d].dirs| && t[d].dirs[k] in t
    requires t[t[d].dirs[k]].dirs == []
    ensures Kept(WithoutDir(t, d, k), root, next, over)
  {
    KeptMeans(t, root, next, over);
    SoundWithoutDir(t, root, next, over, d, k);
    KeptMeans(WithoutDir(t, d, k), root, next, over);
  }

  lemma {:induction false} SoundWithoutDir(t: Tree, root: VirtualDirectory, next: nat, over: Nodes, d: VirtualDirectory, k: nat)
    requires Sound(t, root, next, over) && d in t && k < |t[d].dirs| && t[d].dirs[k] in t
    requires t[t[d].dirs[k]].dirs == []
    ensures Sound(WithoutDir(t, d, k), root, next, over)
  {
    RootedWithoutDir(t, root, d, k);
    IdentifiedAmong(t, WithoutDir(t, d, k), next);
    AccountsWithoutDir(t, over, d, k);
    forall e | e in WithoutDir(t, d, k) ensures DirNames(WithoutDir(t, d, k), e) {
      NamesWithoutDir(t, d, k, e);
    }
  }

  lemma {:induction false} AccountsWithoutDir(t: Tree, over: Nodes, d: VirtualDirectory, k: nat)
    requires AllAccounted(t, over) && d in t && k < |t[d].dirs|
    ensures AllAccounted(WithoutDir(t, d, k), over)
  {
    var n := WithoutDir(t, d, k);
    forall e | e in n ensures Accounted(n[e], e.sizeLimit) && (e !in over ==> Exact(n[e], e.sizeLimit)) {
      assert n[e].files == t[e].files && n[e].size == t[e].size;
    }
  }

  // Subdirectories are nodes, each with an id of its own.
  lemma {:induction false} SubdirsDistinct(t: Tree, root: VirtualDirectory, next: nat, over: Nodes, d: VirtualDirectory)
    requires Kept(t, root, next, over) && d in t
    ensures forall i :: 0 <= i < |t[d].dirs| ==> t[d].dirs[i] in t && t[d].dirs[i] != d && t[d].dirs[i].fid.directory
    ensures forall i, j :: 0 <= i < j < |t[d].dirs| ==> t[d].dirs[i].fid != t[d].dirs[j].fid
  {
    KeptMeans(t, root, next, over);
    forall i | 0 <= i < |t[d].dirs| ensures t[d].dirs[i] in t && t[d].dirs[i] != d {
      assert IsSubdir(t, root, d, t[d].dirs[i]);
    }
    assert DistinctDirs(t[d].dirs);
  }

  // An id that is in one directory is in no other, and not both a file and a directory.
  lemma {:induction false} OneHome(t: Tree, root: VirtualDirectory, next: nat, over: Nodes, d: VirtualDirectory, id: FileID)
    requires Kept(t, root, next, over) && d in t
    requires IdIn(t[d], id)
    ensures forall e :: e in t && IdIn(t[e], id) ==> e == d
    ensures !((exists i :: 0 <= i < |t[d].files| && t[d].files[i].fid == id) && (exists i :: 0 <= i < |t[d].dirs| && t[d].dirs[i].fid == id))
  {
    KeptMeans(t, root, next, over);
    forall e | e in t && IdIn(t[e], id) ensures e == d {
      SameHome(t, root, next, over, d, e, id);
    }
    assert FileIds(t[d].files, next);
    forall j | 0 <= j < |t[d].dirs| ensures t[d].dirs[j].fid.directory {
      assert IsSubdir(t, root, d, t[d].dirs[j]);
    }
  }

  ghost predicate IdIn(e: Entry, id: FileID) {
    || (exists i :: 0 <= i < |e.files| && e.files[i].fid == id)
    || (exists i :: 0 <= i < |e.dirs| && e.dirs[i].fid == id)
  }

  lemma {:induction false} SameHome(t: Tree, root: VirtualDirectory, next: nat, over: Nodes, d: VirtualDirectory, e: VirtualDirectory, id: FileID)
    requires Sound(t, root, next, over) && d in t && e in t && IdIn(t[d], id) && IdIn(t[e], id)
    ensures d == e
  {
    if id.directory {
      assert FileIds(t[d].files, next) && FileIds(t[e].files, next);
      var i :| 0 <= i < |t[d].dirs| && t[d].dirs[i].fid == id;
      var j :| 0 <= j < |t[e].dirs| && t[e].dirs[j].fid == id;
      assert IsSubdir(t, root, d, t[d].dirs[i]) && IsSubdir(t, root, e, t[e].dirs[j]);
    } else {
      forall c, k | c in t && 0 <= k < |t[c].dirs| ensures t[c].dirs[k].fid != id {
        assert IsSubdir(t, root, c, t[c].dirs[k]);
      }
      var i :| 0 <= i < |t[d].files| && t[d].files[i].fid == id;
      var j :| 0 <= j < |t[e].files| && t[e].files[j].fid == id;
      assert id.uid in Uids(t[d].files) && id.uid in Uids(t[e].files);
    }
  }

  lemma {:induction false} RootAlone(t: Tree, root: VirtualDirectory, next: nat, over: Nodes)
    requires t.Keys == {root} && root.fid.directory && root.fid.uid < next && root.sizeLimit < TWO_64
    requires t[root].files == [] && t[root].dirs == [] && t[root].size == 0 && t[root].subDirFileSize == 0
    ensures Kept(t, root, next, over)
  {
    KeptMeans(t, root, next, over);
  }

  // ---- operations by id ----

  // The tree, the next id, and the directories whose sizes have added up to 2^64 or more.
  datatype View = View(tree: Tree, next: nat, over: Nodes)

  predicate FileNameFree(fs: seq<VirtualFile>, name: string) {
    forall i :: 0 <= i < |fs| ==> fs[i].name != name
  }

  // Subdirectory k has the id and is empty.
  ghost predicate IsEmptyDir(t: Tree, d: VirtualDirectory, k: nat, dir: FileID)
    requires d in t
  {
    k < |t[d].dirs| && t[d].dirs[k].fid == dir && t[d].dirs[k] in t && t[t[d].dirs[k]].files == [] && t[t[d].dirs[k]].dirs == []
  }

  /** Whether the operation can be done at directory d. */
  ghost predicate Allows(t: Tree, op: Operation, d: VirtualDirectory)
    requires d in t
  {
    match op
    case FileCreate(dir, name) => d.fid == dir && FileNameFree(t[d].files, name)
    case FileResize(dir, file, newSize) => d.fid == dir && Accepts(t[d], d.sizeLimit, file, newSize)
    case FileDelete(file) => FileIndex(t[d].files, file) < |t[d].files|
    case DirCreate(dir, name, _) => d.fid == dir && DirNameFree(t, d, name)
    case DirDelete(dir) => exists k :: IsEmptyDir(t, d, k, dir)
    case OtherIds(_) => true
  }

  // Whether doing it makes the sizes of d add up to 2^64 or more.
  ghost predicate Overfills(t: Tree, op: Operation, d: VirtualDirectory)
    requires d in t
  {
    op.FileResize? && Allows(t, op, d) && SumWith(t[d].files, FileIndex(t[d].files, op.file), op.newSize) >= TWO_64
  }

  /** Doing it there leads from v to w. */
  ghost predicate Does(v: View, op: Operation, d: VirtualDirectory, w: View, endpoint: nat)
    requires d in v.tree && Allows(v.tree, op, d)
  {
    var e := v.tree[d];
    match op
    case FileCreate(_, name) =>
      w == View(v.tree[d := WithFile(e, VirtualFile(FileID(v.next, endpoint, false), name, 0))], v.next + 1, v.over)
    case FileResize(_, file, newSize) =>
      w == View(v.tree[d := WithSize(e, FileIndex(e.files, file), newSize)], v.next,
                if Overfills(v.tree, op, d) then v.over + {d} else v.over)
    case FileDelete(file) => w == v.(tree := v.tree[d := WithoutFile(e, FileIndex(e.files, file))])
    case DirCreate(_, name, maxSize) => exists c :: c in w.tree && AddsDir(v, d, c, name, maxSize, w, endpoint)
    case DirDelete(dir) => exists k :: IsEmptyDir(v.tree, d, k, dir) && w == v.(tree := WithoutDir(v.tree, d, k))
    case OtherIds(count) => w == v.(next := v.next + count)
  }

  // c is a new directory in d, with the next id.
  ghost predicate AddsDir(v: View, d: VirtualDirectory, c: VirtualDirectory, name: string, maxSize: nat, w: View, endpoint: nat)
    requires d in v.tree
  {
    && c !in v.tree && c.fid == FileID(v.next, endpoint, true) && c.sizeLimit == maxSize
    && w == View(WithDir(v.tree, d, c, name), v.next + 1, v.over)
  }

  /** One operation: it is done at a directory that allows it, or, if there is none, it fails and
      changes nothing. */
  ghost predicate Stepped(v: View, op: Operation, w: View, ok: bool, endpoint: nat) {
    if ok then exists d :: d in v.tree && Allows(v.tree, op, d) && Does(v, op, d, w, endpoint)
    else w == v && forall d :: d in v.tree ==> !Allows(v.tree, op, d)
  }

  // An operation is well-typed if its limit is a 64-bit number.
  predicate Typed(op: Operation) {
    op.DirCreate? ==> op.maxSize < TWO_64
  }

  lemma {:induction false} DoesKeeps(v: View, op: Operation, d: VirtualDirectory, w: View, root: VirtualDirectory, endpoint: nat)
    requires Kept(v.tree, root, v.next, v.over) && d in v.tree && Allows(v.tree, op, d) && Does(v, op, d, w, endpoint) && Typed(op)
    ensures Kept(w.tree, root, w.next, w.over)
  {
    match op
    case FileCreate(_, name) =>
      FileAdded(v.tree, root, v.next, v.over, d, VirtualFile(FileID(v.next, endpoint, false), name, 0));
    case FileResize(_, file, newSize) => FileResized(v.tree, root, v.next, v.over, d, FileIndex(v.tree[d].files, file), newSize);
    case FileDelete(file) => FileDeleted(v.tree, root, v.next, v.over, d, FileIndex(v.tree[d].files, file));
    case DirCreate(_, name, maxSize) =>
      var c :| c in w.tree && AddsDir(v, d, c, name, maxSize, w, endpoint);
      DirAdded(v.tree, root, v.next, v.over, d, c, name);
    case DirDelete(dir) =>
      var k :| IsEmptyDir(v.tree, d, k, dir) && w == v.(tree := WithoutDir(v.tree, d, k));
      DirRemoved(v.tree, root, v.next, v.over, d, k);
    case OtherIds(count) => IdsTaken(v.tree, root, v.next, w.next, v.over);
  }

  /** Every operation keeps the invariant, whether it succeeds or fails. */
  lemma {:induction false} StepKeeps(v: View, op: Operation, w: View, ok: bool, root: VirtualDirectory, endpoint: nat)
    requires Kept(v.tree, root, v.next, v.over) && Stepped(v, op, w, ok, endpoint) && Typed(op)
    ensures Kept(w.tree, root, w.next, w.over)
  {
    if ok {
      var d :| d in v.tree && Allows(v.tree, op, d) && Does(v, op, d, w, endpoint);
      DoesKeeps(v, op, d, w, root, endpoint);
    }
  }

  // What a step does to the set of directories noted.
  lemma {:induction false} StepNotes(v: View, op: Operation, w: View, ok: bool, endpoint: nat)
    requires Stepped(v, op, w, ok, endpoint)
    ensures v.over <= w.over && (w.over == v.over || (ok && exists d :: d in v.tree && Overfills(v.tree, op, d)))
  {
  }

  // ---- runs ----

  // views[i] is the state before operation i, and oks[i] says whether that succeeded.
  ghost predicate IsRun(views: seq<View>, ops: seq<Operation>, oks: seq<bool>, endpoint: nat) {
    && |views| == |ops| + 1 && |oks| == |ops|
    && forall i :: 0 <= i < |ops| ==> Stepped(views[i], ops[i], views[i + 1], oks[i], endpoint)
  }

  lemma {:induction false} RunPush(views: seq<View>, ops: seq<Operation>, oks: seq<bool>, endpoint: nat, op: Operation, w: View, ok: bool)
    requires IsRun(views, ops, oks, endpoint) && Stepped(views[|ops|], op, w, ok, endpoint)
    ensures IsRun(views + [w], ops + [op], oks + [ok], endpoint)
  {
    forall i | 0 <= i < |ops + [op]|
      ensures Stepped((views + [w])[i], (ops + [op])[i], (views + [w])[i + 1], (oks + [ok])[i], endpoint)
    {
      if i < |ops| {
        assert Stepped(views[i], ops[i], views[i + 1], oks[i], endpoint);
      }
    }
  }

  // No accepted change of size made the sizes of its directory add up to 2^64 or more.
  ghost predicate NeverOverfull(views: seq<View>, ops: seq<Operation>, oks: seq<bool>)
    requires |views| > |ops| && |oks| == |ops|
  {
    forall i, d :: 0 <= i < |ops| && oks[i] && d in views[i].tree ==> !Overfills(views[i].tree, ops[i], d)
  }

  lemma {:induction false} RunKeeps(views: seq<View>, ops: seq<Operation>, oks: seq<bool>, endpoint: nat, root: VirtualDirectory, n: nat)
    requires IsRun(views, ops, oks, endpoint) && n <= |ops| && forall i :: 0 <= i < |ops| ==> Typed(ops[i])
    requires Kept(views[0].tree, root, views[0].next, views[0].over)
    ensures Kept(views[n].tree, root, views[n].next, views[n].over)
    decreases n
  {
    if n > 0 {
      RunKeeps(views, ops, oks, endpoint, root, n - 1);
      assert Stepped(views[n - 1], ops[n - 1], views[n - 1 + 1], oks[n - 1], endpoint);
      StepKeeps(views[n - 1], ops[n - 1], views[n], oks[n - 1], root, endpoint);
    }
  }

  lemma {:induction false} RunNotes(views: seq<View>, ops: seq<Operation>, oks: seq<bool>, endpoint: nat, n: nat)
    requires IsRun(views, ops, oks, endpoint) && n <= |ops| && NeverOverfull(views, ops, oks)
    ensures views[n].over == views[0].over
    decreases n
  {
    if n > 0 {
      RunNotes(views, ops, oks, endpoint, n - 1);
      assert Stepped(views[n - 1], ops[n - 1], views[n - 1 + 1], oks[n - 1], endpoint);
      StepNotes(views[n - 1], ops[n - 1], views[n], oks[n - 1], endpoint);
    }
  }

  // After a change of size that overfills a directory its recorded size is no longer the sum.
  lemma {:induction false} OverfullIsWrong(v: View, op: Operation, w: View, endpoint: nat, d: VirtualDirectory)
    requires Stepped(v, op, w, true, endpoint) && Identified(v.tree, v.next)
    requires d in v.tree && Overfills(v.tree, op, d)
    ensures d in w.tree && !Exact(w.tree[d], d.sizeLimit)
  {
    var e :| e in v.tree && Allows(v.tree, op, e) && Does(v, op, e, w, endpoint);
    assert e == d;
    SizeSumChanged(v.tree[d].files, FileIndex(v.tree[d].files, op.file), op.newSize);
  }

  lemma {:induction false} RunIsWrong(views: seq<View>, ops: seq<Operation>, oks: seq<bool>, endpoint: nat)
    returns (n: nat, d: VirtualDirectory)
    requires IsRun(views, ops, oks, endpoint) && !NeverOverfull(views, ops, oks)
    requires forall n :: 0 <= n <= |ops| ==> Identified(views[n].tree, views[n].next)
    ensures n <= |ops| && d in views[n].tree && !Exact(views[n].tree[d], d.sizeLimit)
  {
    var i, e :| 0 <= i < |ops| && oks[i] && e in views[i].tree && Overfills(views[i].tree, ops[i], e);
    assert Stepped(views[i], ops[i], views[i + 1], oks[i], endpoint);
    OverfullIsWrong(views[i], ops[i], views[i + 1], endpoint, e);
    n, d := i + 1, e;
  }

  /** The tree invariant over every run of operations by id, failing ones included, with other trees
      taking ids in between, from any sound tree. At every moment each id occurs once in the whole
      tree, and each name once in its directory among files and among subdirectories. At every
      moment every recorded size is the sum of the file sizes, and 0 or below the limit, exactly if
      no accepted change of size makes the sizes of its directory add up to 2^64 or more. */
  lemma {:induction false} TreeInvariant(views: seq<View>, ops: seq<Operation>, oks: seq<bool>, endpoint: nat, root: VirtualDirectory)
    requires IsRun(views, ops, oks, endpoint) && forall i :: 0 <= i < |ops| ==> Typed(ops[i])
    requires Sound(views[0].tree, root, views[0].next, {}) && views[0].over == {}
    ensures forall n :: 0 <= n <= |ops| ==>
      && Rooted(views[n].tree, root) && Identified(views[n].tree, views[n].next) && AllNamed(views[n].tree)
      && (forall d :: d in views[n].tree ==> FileNames(views[n].tree[d].files))
    ensures NeverOverfull(views, ops, oks) <==>
      forall n, d :: 0 <= n <= |ops| && d in views[n].tree ==> Exact(views[n].tree[d], d.sizeLimit)
  {
    KeptMeans(views[0].tree, root, views[0].next, {});
    forall n | 0 <= n <= |ops|
      ensures Sound(views[n].tree, root, views[n].next, views[n].over)
      ensures NeverOverfull(views, ops, oks) ==> views[n].over == {}
    {
      RunKeeps(views, ops, oks, endpoint, root, n);
      KeptMeans(views[n].tree, root, views[n].next, views[n].over);
      if NeverOverfull(views, ops, oks) {
        RunNotes(views, ops, oks, endpoint, n);
      }
    }
    forall n | 0 <= n <= |ops| ensures forall d :: d in views[n].tree ==> FileNames(views[n].tree[d].files) {
      assert AllAccounted(views[n].tree, views[n].over);
    }
    if NeverOverfull(views, ops, oks) {
      forall n, d | 0 <= n <= |ops| && d in views[n].tree ensures Exact(views[n].tree[d], d.sizeLimit) {
        assert AllAccounted(views[n].tree, views[n].over);
      }
    } else {
      var n, d := RunIsWrong(views, ops, oks, endpoint);
    }
  }
}
