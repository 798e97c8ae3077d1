/** Files and directories of the virtual filesystem (src/storage/vfs/VirtualDirectory.cpp).

    Files are values, as in the source's vector; directories are objects, which the tree search
    points to. Access times and counters are not modelled. */
module VirtualDirectories {

  const TWO_64: nat := 0x1_0000_0000_0000_0000

  datatype FileID = FileID(uid: nat, endpoint: nat, directory: bool)

  datatype VirtualFile = VirtualFile(fid: FileID, name: string, size: nat)

  // Unsigned 64-bit arithmetic wraps around.
  function Wrap(x: int): (r: nat)
    ensures r < TWO_64
    ensures 0 <= x < TWO_64 ==> r == x
  {
    x % TWO_64
  }

  // ---- lists of files ----

  // The position of the first file with this id, or the number of files.
  function FileIndex(files: seq<VirtualFile>, file: FileID): (k: nat)
    ensures k <= |files| && (k < |files| ==> files[k].fid == file)
    ensures forall j :: 0 <= j < k ==> files[j].fid != file
  {
    if files == [] then 0
    else if files[0].fid == file then 0
    else FileIndex(files[1..], file) + 1
  }

  function SizeSum(files: seq<VirtualFile>): nat {
    if files == [] then 0 else SizeSum(files[..|files| - 1]) + files[|files| - 1].size
  }

  predicate UniqueFiles(files: seq<VirtualFile>) {
    forall i, j :: 0 <= i < j < |files| ==> files[i].fid != files[j].fid && files[i].name != files[j].name
  }

  // std::erase_if for one id.
  function Without(files: seq<VirtualFile>, file: FileID): (rest: seq<VirtualFile>)
    ensures |rest| <= |files|
    ensures forall i :: 0 <= i < |rest| ==> rest[i].fid != file
  {
    if files == [] then []
    else
      var last := files[|files| - 1];
      Without(files[..|files| - 1], file) + (if last.fid == file then [] else [last])
  }

  lemma {:induction false} WithoutNone(files: seq<VirtualFile>, file: FileID)
    requires forall i :: 0 <= i < |files| ==> files[i].fid != file
    ensures Without(files, file) == files
  {
    if files != [] {
      WithoutNone(files[..|files| - 1], file);
    }
  }

  // With unique ids exactly one position is left out.
  lemma {:induction false} WithoutOne(files: seq<VirtualFile>, k: nat)
    requires UniqueFiles(files) && k < |files|
    ensures Without(files, files[k].fid) == files[..k] + files[k + 1..]
    decreases |files|
  {
    var n := |files| - 1;
    if k == n {
      WithoutNone(files[..n], files[k].fid);
    } else {
      WithoutOne(files[..n], k);
      assert files[..n][..k] == files[..k];
      assert files[k + 1..] == files[..n][k + 1..] + [files[n]];
    }
  }

  lemma {:induction false} SizeSumAppend(a: seq<VirtualFile>, b: seq<VirtualFile>)
    ensures SizeSum(a + b) == SizeSum(a) + SizeSum(b)
    decreases |b|
  {
    if b == [] {
      assert a + b == a;
    } else {
      SizeSumAppend(a, b[..|b| - 1]);
      assert (a + b)[..|a + b| - 1] == a + b[..|b| - 1];
    }
  }

  lemma {:induction false} SizeSumOne(f: VirtualFile)
    ensures SizeSum([f]) == f.size
  {
    assert [f][..0] == [];
    assert SizeSum([]) == 0;
  }

  // The total around one position.
  lemma {:induction false} SizeSumAround(files: seq<VirtualFile>, k: nat)
    requires k < |files|
    ensures SizeSum(files) == SizeSum(files[..k]) + files[k].size + SizeSum(files[k + 1..])
  {
    assert files == (files[..k] + [files[k]]) + files[k + 1..];
    SizeSumAppend(files[..k] + [files[k]], files[k + 1..]);
    SizeSumAppend(files[..k], [files[k]]);
    SizeSumOne(files[k]);
  }

  // The total after one file has changed its size, or has gone.
  lemma {:induction false} SizeSumChanged(files: seq<VirtualFile>, k: nat, size: nat)
    requires k < |files|
    ensures SizeSum(files[k := files[k].(size := size)]) == SizeSum(files) - files[k].size + size
    ensures SizeSum(files[..k] + files[k + 1..]) == SizeSum(files) - files[k].size
  {
    var changed := files[k := files[k].(size := size)];
    SizeSumAround(files, k);
    SizeSumAround(changed, k);
    assert changed[..k] == files[..k] && changed[k + 1..] == files[k + 1..];
    SizeSumAppend(files[..k], files[k + 1..]);
  }

  // ---- the size check ----

  // canHoldSizeChange, in 64 bits.
  predicate CanHold(size: nat, subDirFileSize: nat, currSize: nat, newSize: nat, sizeLimit: nat) {
    Wrap(size + subDirFileSize - currSize + newSize) < sizeLimit
  }

  /** A change that is let through leaves the recorded size equal to the sum of the file sizes
      exactly if that sum fits 64 bits. */
  lemma {:induction false} SumKeptExactly(files: seq<VirtualFile>, k: nat, newSize: nat, sizeLimit: nat)
    requires k < |files| && SizeSum(files) < TWO_64 && newSize < TWO_64
    requires CanHold(SizeSum(files), 0, files[k].size, newSize, sizeLimit)
    ensures var sum := SizeSum(files[k := files[k].(size := newSize)]);
      Wrap(SizeSum(files) - files[k].size + newSize) == sum <==> sum < TWO_64
  {
    SizeSumChanged(files, k, newSize);
  }

  /** While all sums fit 64 bits, a change of size is let through exactly if the new sum is below the
      limit. */
  lemma {:induction false} HeldExactly(files: seq<VirtualFile>, k: nat, newSize: nat, sizeLimit: nat)
    requires k < |files| && SizeSum(files) < TWO_64 && SizeSum(files[k := files[k].(size := newSize)]) < TWO_64
    ensures CanHold(SizeSum(files), 0, files[k].size, newSize, sizeLimit)
       <==> SizeSum(files[k := files[k].(size := newSize)]) < sizeLimit
  {
    SizeSumChanged(files, k, newSize);
  }

  /** It can fail: a second file of the greatest size makes the sum wrap around to 0, which is
      below any limit. */
  lemma {:induction false} SumCanWrap(id: FileID, other: FileID)
    ensures var files := [VirtualFile(id, "a", 1), VirtualFile(other, "b", 0)];
      CanHold(SizeSum(files), 0, 0, TWO_64 - 1, 2)
      && Wrap(SizeSum(files) - 0 + (TWO_64 - 1)) != SizeSum(files[1 := files[1].(size := TWO_64 - 1)])
  {
    var files := [VirtualFile(id, "a", 1), VirtualFile(other, "b", 0)];
    SizeSumChanged(files, 1, TWO_64 - 1);
    assert files == [files[0]] + [files[1]];
    SizeSumAppend([files[0]], [files[1]]);
    SizeSumOne(files[0]);
    SizeSumOne(files[1]);
  }

  // ---- directories ----

  // The fields of a directory that change.
  datatype Entry = Entry(
    name: string, files: seq<VirtualFile>, dirs: seq<VirtualDirectory>, size: nat, subDirFileSize: nat,
    parent: VirtualDirectory?, depth: nat)

  // The file is here, and has this size or may take it.
  predicate Accepts(e: Entry, sizeLimit: nat, file: FileID, newSize: nat) {
    var k := FileIndex(e.files, file);
    && k < |e.files|
    && (e.files[k].size == newSize || CanHold(e.size, e.subDirFileSize, e.files[k].size, newSize, sizeLimit))
  }

  /** So a directory whose recorded size is the sum accepts a new size for a file exactly if it has the
      file, and the size is the old one or the new sum is below the limit. */
  lemma {:induction false} AcceptsExactly(e: Entry, sizeLimit: nat, file: FileID, k: nat, newSize: nat)
    requires k < |e.files| && e.files[k].fid == file && forall j :: 0 <= j < k ==> e.files[j].fid != file
    requires e.size == SizeSum(e.files) < TWO_64 && e.subDirFileSize == 0
    requires SizeSum(e.files[k := e.files[k].(size := newSize)]) < TWO_64
    ensures Accepts(e, sizeLimit, file, newSize)
       <==> e.files[k].size == newSize || SizeSum(e.files[k := e.files[k].(size := newSize)]) < sizeLimit
  {
    HeldExactly(e.files, k, newSize, sizeLimit);
    assert FileIndex(e.files, file) == k;
  }

  class VirtualDirectory {
    const fid: FileID
    const sizeLimit: nat
    var name: string
    var files: seq<VirtualFile>
    var dirs: seq<VirtualDirectory>
    var size: nat
    var subDirFileSize: nat

    // Where the directory is in the tree.
    ghost var parent: VirtualDirectory?
    ghost var depth: nat

    ghost function Fields(): Entry
      reads this
    {
      Entry(name, files, dirs, size, subDirFileSize, parent, depth)
    }

    constructor (fid: FileID, name: string, sizeLimit: nat)
      ensures this.fid == fid && this.name == name && this.sizeLimit == sizeLimit
      ensures files == [] && dirs == [] && size == 0 && subDirFileSize == 0
      ensures parent == null && depth == 0
    {
      this.fid, this.name, this.sizeLimit := fid, name, sizeLimit;
      files, dirs, size, subDirFileSize := [], [], 0, 0;
      parent, depth := null, 0;
    }

    /** findFile: the position of the file here, or the number of files. */
    method FindFile(file: FileID) returns (k: nat)
      ensures k == FileIndex(files, file)
    {
      k := 0;
      while k < |files|
        invariant 0 <= k <= |files|
        invariant FileIndex(files, file) == k + FileIndex(files[k..], file)
      {
        if files[k].fid == file {
          return;
        }
        assert files[k..][1..] == files[k + 1..];
        k := k + 1;
      }
    }

    /** findDir: the subdirectory with this id, directly here. */
    method FindDir(dir: FileID) returns (r: VirtualDirectory?)
      ensures r == null <==> forall i :: 0 <= i < |dirs| ==> dirs[i].fid != dir
      ensures r != null ==> r in dirs && r.fid == dir
    {
      for i := 0 to |dirs|
        invariant forall j :: 0 <= j < i ==> dirs[j].fid != dir
      {
        if dirs[i].fid == dir {
          return dirs[i];
        }
      }
      r := null;
    }

    method FileNameExists(name: string) returns (r: bool)
      ensures r <==> exists i :: 0 <= i < |files| && files[i].name == name
    {
      for i := 0 to |files|
        invariant forall j :: 0 <= j < i ==> files[j].name != name
      {
        if files[i].name == name {
          return true;
        }
      }
      r := false;
    }

    method DirNameExists(name: string) returns (r: bool)
      ensures r <==> exists i :: 0 <= i < |dirs| && dirs[i].name == name
    {
      for i := 0 to |dirs|
        invariant forall j :: 0 <= j < i ==> dirs[j].name != name
      {
        if dirs[i].name == name {
          return true;
        }
      }
      r := false;
    }

    /** fileAdd: fails if the name is taken; a new file is empty. */
    method FileAdd(name: string, id: FileID) returns (ok: bool)
      modifies this`files
      ensures ok <==> forall i :: 0 <= i < |old(files)| ==> old(files)[i].name != name
      ensures files == if ok then old(files) + [VirtualFile(id, name, 0)] else old(files)
    {
      var taken := FileNameExists(name);
      if taken {
        return false;
      }
      files := files + [VirtualFile(id, name, 0)];
      return true;
    }

    /** fileChangeSize */
    method FileChangeSize(file: FileID, newFileSize: nat) returns (ok: bool)
      modifies this`files, this`size
      ensures ok == old(Accepts(Fields(), sizeLimit, file, newFileSize))
      ensures !ok ==> files == old(files) && size == old(size)
      ensures ok ==> var k := FileIndex(old(files), file);
        && files == old(files)[k := old(files)[k].(size := newFileSize)]
        && size == if old(files)[k].size == newFileSize then old(size) else Wrap(old(size) - old(files)[k].size + newFileSize)
    {
      var k := FindFile(file);
      if k == |files| {
        return false;
      }
      var currFileSize := files[k].size;
      if currFileSize == newFileSize {
        assert files[k := files[k].(size := newFileSize)] == files;
        return true;
      }
      if !CanHold(size, subDirFileSize, currFileSize, newFileSize, sizeLimit) {
        return false;
      }
      size := Wrap(size - currFileSize + newFileSize);
      files := files[k := files[k].(size := newFileSize)];
      return true;
    }

    /** fileDelete: every file with the id goes, the size of the first is taken off. */
    method FileDelete(file: FileID) returns (ok: bool)
      modifies this`files, this`size
      ensures var k := FileIndex(old(files), file);
        if k == |old(files)| then !ok && files == old(files) && size == old(size)
        else ok && files == Without(old(files), file) && size == Wrap(old(size) - old(files)[k].size)
    {
      var k := FindFile(file);
      if k == |files| {
        return false;
      }
      var changed := files[k].size;
      var rest: seq<VirtualFile> := [];
      for i := 0 to |files|
        invariant rest == Without(files[..i], file)
      {
        assert files[..i + 1][..i] == files[..i];
        if files[i].fid != file {
          rest := rest + [files[i]];
        }
      }
      assert files[..|files|] == files;
      files := rest;
      size := Wrap(size - changed);
      return true;
    }

    /** dirAdd: fails if the name is taken by another directory here. */
    method DirAdd(name: string, id: FileID, maxSize: nat) returns (ok: bool, added: VirtualDirectory?)
      modifies this`dirs
      ensures ok <==> forall i :: 0 <= i < |old(dirs)| ==> old(dirs)[i].name != name
      ensures !ok ==> dirs == old(dirs)
      ensures ok ==>
        && added != null && fresh(added) && dirs == old(dirs) + [added]
        && added.fid == id && added.name == name && added.sizeLimit == maxSize
        && added.files == [] && added.dirs == [] && added.size == 0 && added.subDirFileSize == 0
        && added.parent == this && added.depth == depth + 1
    {
      var taken := DirNameExists(name);
      if taken {
        return false, null;
      }
      added := new VirtualDirectory(id, name, maxSize);
      added.parent := this;
      added.depth := depth + 1;
      dirs := dirs + [added];
      ok := true;
    }

    // Whether dirDelete removes this subdirectory.
    predicate Removable(id: FileID)
      reads this
    {
      dirs == [] && files == [] && fid == id
    }

    /** dirDelete: the empty subdirectories with the id go. */
    method DirDelete(dir: FileID) returns (ok: bool)
      modifies this`dirs
      ensures dirs == old(if dir.directory then Remaining(dirs, dir) else dirs)
      ensures ok <==> |dirs| < |old(dirs)|
    {
      if !dir.directory {
        return false;
      }
      var rest: seq<VirtualDirectory> := [];
      for i := 0 to |dirs|
        invariant dirs == old(dirs) && rest == Remaining(dirs[..i], dir)
      {
        assert dirs[..i + 1][..i] == dirs[..i];
        if !(dirs[i].dirs == [] && dirs[i].files == [] && dirs[i].fid == dir) {
          rest := rest + [dirs[i]];
        }
      }
      assert dirs[..|dirs|] == dirs;
      ok := |rest| < |dirs|;
      dirs := rest;
    }
  }

  // std::erase_if over subdirectories.
  function Remaining(dirs: seq<VirtualDirectory>, id: FileID): (rest: seq<VirtualDirectory>)
    reads dirs
    ensures |rest| <= |dirs|
  {
    if dirs == [] then []
    else
      var last := dirs[|dirs| - 1];
      Remaining(dirs[..|dirs| - 1], id) + (if last.Removable(id) then [] else [last])
  }

  lemma {:induction false} RemainingAll(dirs: seq<VirtualDirectory>, id: FileID)
    requires forall i :: 0 <= i < |dirs| ==> !dirs[i].Removable(id)
    ensures Remaining(dirs, id) == dirs
  {
    if dirs != [] {
      RemainingAll(dirs[..|dirs| - 1], id);
    }
  }

  // With unique ids at most one position is left out.
  lemma {:induction false} RemainingOne(dirs: seq<VirtualDirectory>, k: nat)
    requires k < |dirs| && dirs[k].Removable(dirs[k].fid)
    requires forall i, j :: 0 <= i < j < |dirs| ==> dirs[i].fid != dirs[j].fid
    ensures Remaining(dirs, dirs[k].fid) == dirs[..k] + dirs[k + 1..]
    decreases |dirs|
  {
    var n := |dirs| - 1;
    if k == n {
      RemainingAll(dirs[..n], dirs[k].fid);
    } else {
      RemainingOne(dirs[..n], k);
      assert dirs[..n][..k] == dirs[..k];
      assert dirs[k + 1..] == dirs[..n][k + 1..] + [dirs[n]];
    }
  }
}
