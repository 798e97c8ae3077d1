/** What a tree of directories holds, file by file and directory by directory, and how each accepted
    operation changes that: by the one entry it is about, and nothing else
    (src/storage/vfs/VirtualDirectory.cpp). */
module VirtualLookups {
  import opened VirtualDirectories
  import opened VirtualTrees

  // The file, with its name and size, is in directory d.
  ghost predicate FileIn(t: Tree, d: VirtualDirectory, f: VirtualFile) {
    d in t && f in t[d].files
  }

  // Directory c is a subdirectory of d.
  ghost predicate DirIn(t: Tree, d: VirtualDirectory, c: VirtualDirectory) {
    d in t && c in t[d].dirs
  }

  // ---- lists of files ----

  lemma {:induction false} InResized(fs: seq<VirtualFile>, k: nat, size: nat, f: VirtualFile)
    requires k < |fs| && UniqueIds(fs)
    ensures f in fs[k := fs[k].(size := size)] <==> (f in fs && f.fid != fs[k].fid) || f == fs[k].(size := size)
  {
    var gs := fs[k := fs[k].(size := size)];
    assert gs[k] == fs[k].(size := size);
    if i :| 0 <= i < |fs| && fs[i] == f && f.fid != fs[k].fid {
      assert gs[i] == f;
    }
  }

  lemma {:induction false} InCut(fs: seq<VirtualFile>, k: nat, f: VirtualFile)
    requires k < |fs| && UniqueIds(fs)
    ensures f in fs[..k] + fs[k + 1..] <==> f in fs && f.fid != fs[k].fid
  {
    var gs := fs[..k] + fs[k + 1..];
    if i :| 0 <= i < |fs| && fs[i] == f && f.fid != fs[k].fid {
      assert gs[if i < k then i else i - 1] == f;
    }
    if i :| 0 <= i < |gs| && gs[i] == f {
      assert fs[if i < k then i else i + 1] == f;
    }
  }

  lemma {:induction false} InOneDirectory(t: Tree, next: nat, d: VirtualDirectory, f: VirtualFile, e: VirtualDirectory, g: VirtualFile)
    requires Identified(t, next) && FileIn(t, d, f) && FileIn(t, e, g) && f.fid == g.fid
    ensures d == e && f == g
  {
    var i :| 0 <= i < |t[d].files| && t[d].files[i] == f;
    var j :| 0 <= j < |t[e].files| && t[e].files[j] == g;
    assert f.fid.uid in Uids(t[d].files) && g.fid.uid in Uids(t[e].files);
  }

  // ---- files ----

  /** After a creation there is one file more, empty, with the name and a new id. */
  lemma {:induction false} AfterCreation(v: View, op: Operation, w: View, endpoint: nat) returns (d: VirtualDirectory)
    requires op.FileCreate? && Stepped(v, op, w, true, endpoint)
    ensures d in v.tree && d.fid == op.dir
    ensures forall e, f :: FileIn(w.tree, e, f) <==>
      FileIn(v.tree, e, f) || (e == d && f == VirtualFile(FileID(v.next, endpoint, false), op.name, 0))
    ensures forall e, c :: DirIn(w.tree, e, c) <==> DirIn(v.tree, e, c)
  {
    d :| d in v.tree && Allows(v.tree, op, d) && Does(v, op, d, w, endpoint);
  }

  /** After a change of size that one file has the new size. */
  lemma {:induction false} AfterResize(v: View, op: Operation, w: View, endpoint: nat) returns (d: VirtualDirectory, f: VirtualFile)
    requires op.FileResize? && Stepped(v, op, w, true, endpoint) && Identified(v.tree, v.next)
    ensures FileIn(v.tree, d, f) && f.fid == op.file && d.fid == op.dir
    ensures forall e, g :: FileIn(w.tree, e, g) <==>
      (FileIn(v.tree, e, g) && g.fid != op.file) || (e == d && g == f.(size := op.newSize))
    ensures forall e, c :: DirIn(w.tree, e, c) <==> DirIn(v.tree, e, c)
  {
    d :| d in v.tree && Allows(v.tree, op, d) && Does(v, op, d, w, endpoint);
    var k := FileIndex(v.tree[d].files, op.file);
    f := v.tree[d].files[k];
    assert FileIn(v.tree, d, f);
    forall e, g ensures FileIn(w.tree, e, g) <==> (FileIn(v.tree, e, g) && g.fid != op.file) || (e == d && g == f.(size := op.newSize)) {
      if e == d {
        InResized(v.tree[d].files, k, op.newSize, g);
      } else if FileIn(v.tree, e, g) && g.fid == f.fid {
        InOneDirectory(v.tree, v.next, d, f, e, g);
      }
    }
  }

  /** After a deletion the file is nowhere, and all others are where they were. */
  lemma {:induction false} AfterDeletion(v: View, op: Operation, w: View, endpoint: nat)
    requires op.FileDelete? && Stepped(v, op, w, true, endpoint) && Identified(v.tree, v.next)
    ensures exists d, f :: FileIn(v.tree, d, f) && f.fid == op.file
    ensures forall e, g :: FileIn(w.tree, e, g) <==> FileIn(v.tree, e, g) && g.fid != op.file
    ensures forall e, c :: DirIn(w.tree, e, c) <==> DirIn(v.tree, e, c)
  {
    var d :| d in v.tree && Allows(v.tree, op, d) && Does(v, op, d, w, endpoint);
    var k := FileIndex(v.tree[d].files, op.file);
    assert FileIn(v.tree, d, v.tree[d].files[k]);
    forall e, g ensures FileIn(w.tree, e, g) <==> FileIn(v.tree, e, g) && g.fid != op.file {
      InWithout(v.tree, v.next, d, k, e, g);
    }
  }

  lemma {:induction false} InWithout(t: Tree, next: nat, d: VirtualDirectory, k: nat, e: VirtualDirectory, g: VirtualFile)
    requires Identified(t, next) && d in t && k < |t[d].files|
    ensures FileIn(t[d := WithoutFile(t[d], k)], e, g) <==> FileIn(t, e, g) && g.fid != t[d].files[k].fid
  {
    var f := t[d].files[k];
    assert FileIn(t, d, f);
    if e == d {
      InCut(t[d].files, k, g);
    } else if FileIn(t, e, g) && g.fid == f.fid {
      InOneDirectory(t, next, d, f, e, g);
    }
  }

  // ---- directories ----

  /** After the creation of a directory there is one more, with the name and the limit, a new id and
      no files. */
  lemma {:induction false} AfterDirCreation(v: View, op: Operation, w: View, endpoint: nat)
    returns (d: VirtualDirectory, c: VirtualDirectory)
    requires op.DirCreate? && Stepped(v, op, w, true, endpoint)
    requires forall e, g :: DirIn(v.tree, e, g) ==> g in v.tree
    ensures d in v.tree && d.fid == op.dir && c !in v.tree && c in w.tree
    ensures c.fid == FileID(v.next, endpoint, true) && c.sizeLimit == op.maxSize && w.tree[c].name == op.name
    ensures forall e, g :: DirIn(w.tree, e, g) <==> DirIn(v.tree, e, g) || (e == d && g == c)
    ensures forall e, f :: FileIn(w.tree, e, f) <==> FileIn(v.tree, e, f)
  {
    d :| d in v.tree && Allows(v.tree, op, d) && Does(v, op, d, w, endpoint);
    c :| c in w.tree && AddsDir(v, d, c, op.name, op.maxSize, w, endpoint);
  }

  /** After the deletion of a directory it is gone, which had neither files nor subdirectories. */
  lemma {:induction false} AfterDirDeletion(v: View, op: Operation, w: View, endpoint: nat, root: VirtualDirectory)
    returns (d: VirtualDirectory, c: VirtualDirectory)
    requires op.DirDelete? && Stepped(v, op, w, true, endpoint) && Rooted(v.tree, root)
    ensures DirIn(v.tree, d, c) && c.fid == op.dir && c !in w.tree
    ensures forall f :: !FileIn(v.tree, c, f)
    ensures forall g :: !DirIn(v.tree, c, g)
    ensures forall e, g :: DirIn(w.tree, e, g) <==> DirIn(v.tree, e, g) && g != c
    ensures forall e, f :: FileIn(w.tree, e, f) <==> FileIn(v.tree, e, f)
  {
    d :| d in v.tree && Allows(v.tree, op, d) && Does(v, op, d, w, endpoint);
    var k: nat :| IsEmptyDir(v.tree, d, k, op.dir) && w == v.(tree := WithoutDir(v.tree, d, k));
    c := v.tree[d].dirs[k];
    assert IsSubdir(v.tree, root, d, c);
    forall e, g ensures DirIn(w.tree, e, g) <==> DirIn(v.tree, e, g) && g != c {
      InCutDirs(v.tree, root, d, k, e, g);
    }
    WithoutEmpty(v.tree, d, k);
  }

  // The directory that goes takes no file with it.
  lemma {:induction false} WithoutEmpty(t: Tree, d: VirtualDirectory, k: nat)
    requires d in t && k < |t[d].dirs| && t[d].dirs[k] in t && t[t[d].dirs[k]].files == []
    ensures forall e, f :: FileIn(WithoutDir(t, d, k), e, f) <==> FileIn(t, e, f)
  {
  }

  lemma {:induction false} InCutList<T>(s: seq<T>, k: nat, x: T)
    requires k < |s| && forall i, j :: 0 <= i < j < |s| ==> s[i] != s[j]
    ensures x in s[..k] + s[k + 1..] <==> x in s && x != s[k]
  {
    var cut := s[..k] + s[k + 1..];
    if i :| 0 <= i < |s| && s[i] == x && i != k {
      assert cut[if i < k then i else i - 1] == x;
    }
    if i :| 0 <= i < |cut| && cut[i] == x {
      assert s[if i < k then i else i + 1] == x;
    }
  }

  lemma {:induction false} InCutDirs(t: Tree, root: VirtualDirectory, d: VirtualDirectory, k: nat, e: VirtualDirectory, g: VirtualDirectory)
    requires Rooted(t, root) && d in t && k < |t[d].dirs| && t[d].dirs[k] in t && t[t[d].dirs[k]].dirs == []
    ensures DirIn(WithoutDir(t, d, k), e, g) <==> DirIn(t, e, g) && g != t[d].dirs[k]
  {
    assert DistinctDirs(t[d].dirs);
    assert IsSubdir(t, root, d, t[d].dirs[k]);
    InCutList(t[d].dirs, k, g);
    if DirIn(t, e, g) {
      var i :| 0 <= i < |t[e].dirs| && t[e].dirs[i] == g;
      assert IsSubdir(t, root, e, t[e].dirs[i]);
    }
  }

  // ---- refusals ----

  // Some file of d has the name, or some subdirectory.
  ghost predicate FileNameIn(t: Tree, d: VirtualDirectory, name: string) {
    exists f :: FileIn(t, d, f) && f.name == name
  }

  ghost predicate DirNameIn(t: Tree, d: VirtualDirectory, name: string) {
    exists c :: DirIn(t, d, c) && c in t && t[c].name == name
  }

  /** A creation is refused exactly if there is no such directory or the name is taken. */
  lemma {:induction false} CreationRefused(v: View, op: Operation, w: View, ok: bool, endpoint: nat)
    requires Stepped(v, op, w, ok, endpoint)
    ensures op.FileCreate? && !ok ==> forall d :: d in v.tree && d.fid == op.dir ==> FileNameIn(v.tree, d, op.name)
    ensures op.FileCreate? && ok ==> exists d :: d in v.tree && d.fid == op.dir && !FileNameIn(v.tree, d, op.name)
    ensures op.DirCreate? && !ok ==> forall d :: d in v.tree && d.fid == op.dir ==> DirNameIn(v.tree, d, op.name)
    ensures op.DirCreate? && ok ==> exists d :: d in v.tree && d.fid == op.dir && !DirNameIn(v.tree, d, op.name)
  {
    if ok {
      var d :| d in v.tree && Allows(v.tree, op, d) && Does(v, op, d, w, endpoint);
    } else {
      forall d | d in v.tree && op.FileCreate? && d.fid == op.dir ensures FileNameIn(v.tree, d, op.name) {
        assert !Allows(v.tree, op, d);
        var i :| 0 <= i < |v.tree[d].files| && v.tree[d].files[i].name == op.name;
        assert FileIn(v.tree, d, v.tree[d].files[i]);
      }
      forall d | d in v.tree && op.DirCreate? && d.fid == op.dir ensures DirNameIn(v.tree, d, op.name) {
        assert !Allows(v.tree, op, d);
        var i :| 0 <= i < |v.tree[d].dirs| && v.tree[d].dirs[i] in v.tree && v.tree[v.tree[d].dirs[i]].name == op.name;
        assert DirIn(v.tree, d, v.tree[d].dirs[i]);
      }
    }
  }

  /** A deletion is refused exactly if there is no such file, or no such directory without files and
      subdirectories. */
  lemma {:induction false} DeletionRefused(v: View, op: Operation, w: View, endpoint: nat, root: VirtualDirectory)
    requires Stepped(v, op, w, false, endpoint) && Rooted(v.tree, root)
    ensures op.FileDelete? ==> forall d, f :: FileIn(v.tree, d, f) ==> f.fid != op.file
    ensures op.DirDelete? ==>
      forall d, c :: DirIn(v.tree, d, c) && c.fid == op.dir && c in v.tree ==> v.tree[c].files != [] || v.tree[c].dirs != []
  {
    if op.FileDelete? {
      forall d, f | FileIn(v.tree, d, f) ensures f.fid != op.file {
        assert !Allows(v.tree, op, d);
      }
    }
    if op.DirDelete? {
      forall d, c | DirIn(v.tree, d, c) && c.fid == op.dir && c in v.tree ensures v.tree[c].files != [] || v.tree[c].dirs != [] {
        assert !Allows(v.tree, op, d);
        var k: nat :| k < |v.tree[d].dirs| && v.tree[d].dirs[k] == c;
        assert !IsEmptyDir(v.tree, d, k, op.dir);
      }
    }
  }

  // The first file with this id is at position k, and the sum with its new size fits 64 bits.
  predicate CanTake(fs: seq<VirtualFile>, file: FileID, k: nat, newSize: nat) {
    k < |fs| && fs[k].fid == file && (forall j :: 0 <= j < k ==> fs[j].fid != file) && SumWith(fs, k, newSize) < TWO_64
  }

  /** A change of size is refused only if the directory has no such file, or the sizes would reach its
      limit. */
  lemma {:induction false} ResizeRefused(v: View, op: Operation, w: View, endpoint: nat, d: VirtualDirectory, k: nat)
    requires op.FileResize? && Stepped(v, op, w, false, endpoint) && d in v.tree && d.fid == op.dir
    requires Exact(v.tree[d], d.sizeLimit) && v.tree[d].subDirFileSize == 0 && CanTake(v.tree[d].files, op.file, k, op.newSize)
    ensures v.tree[d].files[k].size != op.newSize && SumWith(v.tree[d].files, k, op.newSize) >= d.sizeLimit
  {
    assert !Allows(v.tree, op, d);
    SizeSumChanged(v.tree[d].files, k, op.newSize);
    AcceptsExactly(v.tree[d], d.sizeLimit, op.file, k, op.newSize);
  }
}
