/** The tree of directory objects and its lookups (src/storage/vfs/VirtualFilesystem.cpp), and the
    operations on it by id (src/storage/StorageEndpoint.cpp). */
module VirtualFilesystems {
  import opened Bits
  import opened VirtualDirectories
  import opened VirtualTrees

  // ---- lookups ----

  // The id occurs as a file of the directory.
  ghost predicate HasFile(d: VirtualDirectory, file: FileID)
    reads d`files
  {
    exists i :: 0 <= i < |d.files| && d.files[i].fid == file
  }

  // The id occurs as a subdirectory of the directory.
  ghost predicate HasDir(d: VirtualDirectory, dir: FileID)
    reads d`dirs
  {
    exists i :: 0 <= i < |d.dirs| && d.dirs[i].fid == dir
  }

  ghost predicate HasEntry(d: VirtualDirectory, id: FileID)
    reads d`files, d`dirs
  {
    HasFile(d, id) || HasDir(d, id)
  }

  // A node on the stack: not yet visited, unlike its parent.
  ghost predicate Pending(t: Tree, root: VirtualDirectory, visited: Nodes, d: VirtualDirectory) {
    d in t && d !in visited && (d != root ==> t[d].parent in visited)
  }

  // The children of a visited node are visited or pending.
  ghost predicate Expanded(visited: Nodes, stack: seq<VirtualDirectory>, dirs: seq<VirtualDirectory>) {
    forall i :: 0 <= i < |dirs| ==> dirs[i] in visited || dirs[i] in stack
  }

  // The state of a search.
  ghost predicate Frontier(t: Tree, root: VirtualDirectory, visited: Nodes, stack: seq<VirtualDirectory>) {
    && visited <= t.Keys && (root in visited || root in stack)
    && (forall d :: d in stack ==> Pending(t, root, visited, d))
    && DistinctDirs(stack)
    && (forall d :: d in visited ==> Expanded(visited, stack, t[d].dirs))
    && (forall d :: d in visited && d != root ==> t[d].parent in visited)
  }

  // The same as a name that stands for it.
  ghost predicate Searching(t: Tree, root: VirtualDirectory, visited: Nodes, stack: seq<VirtualDirectory>) {
    SearchingAt(t, root, visited, stack, root.fid.uid + 9)
  }

  // (The depth plays no part: it keeps the searches, which only pass the state on, from looking
  // inside.)
  ghost predicate SearchingAt(t: Tree, root: VirtualDirectory, visited: Nodes, stack: seq<VirtualDirectory>, depth: nat)
    decreases depth
  {
    if depth > 0 then SearchingAt(t, root, visited, stack, depth - 1) else Frontier(t, root, visited, stack)
  }

  lemma {:induction false} SearchingAtMeans(t: Tree, root: VirtualDirectory, visited: Nodes, stack: seq<VirtualDirectory>, depth: nat)
    ensures SearchingAt(t, root, visited, stack, depth) <==> Frontier(t, root, visited, stack)
    decreases depth
  {
    if depth > 0 {
      SearchingAtMeans(t, root, visited, stack, depth - 1);
    }
  }

  lemma {:induction false} SearchingMeans(t: Tree, root: VirtualDirectory, visited: Nodes, stack: seq<VirtualDirectory>)
    ensures Searching(t, root, visited, stack) <==> Frontier(t, root, visited, stack)
  {
    SearchingAtMeans(t, root, visited, stack, root.fid.uid + 9);
  }

  // When the stack is empty every node has been visited.
  lemma {:induction false} SearchEnds(t: Tree, root: VirtualDirectory, visited: Nodes, d: VirtualDirectory)
    requires Rooted(t, root) && Frontier(t, root, visited, []) && d in t
    ensures d in visited
    decreases t[d].depth
  {
    if d != root {
      assert IsListed(t, d);
      var p: VirtualDirectory := t[d].parent;
      var k :| 0 <= k < |t[p].dirs| && t[p].dirs[k] == d;
      assert IsSubdir(t, root, p, t[p].dirs[k]);
      SearchEnds(t, root, visited, p);
      assert Expanded(visited, [], t[p].dirs);
    }
  }

  // Taking the last node off the stack and putting its children on it.
  lemma {:induction false} FrontierStep(t: Tree, root: VirtualDirectory, visited: Nodes, stack: seq<VirtualDirectory>, d: VirtualDirectory)
    requires Rooted(t, root) && Frontier(t, root, visited, stack + [d])
    ensures d in t && d !in visited && Frontier(t, root, visited + {d}, stack + t[d].dirs)
  {
    assert (stack + [d])[|stack|] == d && d in stack + [d];
    assert Pending(t, root, visited, d);
    var v, s := visited + {d}, stack + t[d].dirs;
    forall c | c in t[d].dirs ensures Pending(t, root, v, c) && c !in stack {
      var k :| 0 <= k < |t[d].dirs| && t[d].dirs[k] == c;
      assert IsSubdir(t, root, d, t[d].dirs[k]);
      assert c in stack ==> c in stack + [d] && Pending(t, root, visited, c);
    }
    forall c | c in stack ensures Pending(t, root, v, c) {
      assert c in stack + [d];
      var k :| 0 <= k < |stack| && stack[k] == c;
      assert (stack + [d])[k] == c != (stack + [d])[|stack|];
    }
    assert forall i, j :: 0 <= i < j < |stack| ==> (stack + [d])[i] == stack[i] && (stack + [d])[j] == stack[j];
    forall e | e in v ensures Expanded(v, s, t[e].dirs) {
      if e != d {
        assert Expanded(visited, stack + [d], t[e].dirs);
        forall i | 0 <= i < |t[e].dirs| ensures t[e].dirs[i] in v || t[e].dirs[i] in s {
          assert t[e].dirs[i] in visited || t[e].dirs[i] in stack + [d];
        }
      }
    }
  }

  lemma {:induction false} SearchStep(t: Tree, root: VirtualDirectory, next: nat, over: Nodes, visited: Nodes, stack: seq<VirtualDirectory>)
    requires Kept(t, root, next, over) && stack != [] && Searching(t, root, visited, stack)
    ensures var d := stack[|stack| - 1];
      && d in t && Searching(t, root, visited + {d}, stack[..|stack| - 1] + t[d].dirs)
      && |t.Keys - (visited + {d})| < |t.Keys - visited|
  {
    var d, rest := stack[|stack| - 1], stack[..|stack| - 1];
    assert stack == rest + [d];
    KeptMeans(t, root, next, over);
    SearchingMeans(t, root, visited, stack);
    FrontierStep(t, root, visited, rest, d);
    SearchingMeans(t, root, visited + {d}, rest + t[d].dirs);
    assert t.Keys - visited == (t.Keys - (visited + {d})) + {d};
  }

  lemma {:induction false} SearchStarts(t: Tree, root: VirtualDirectory, next: nat, over: Nodes)
    requires Kept(t, root, next, over)
    ensures root in t && Searching(t, root, {}, [root])
  {
    KeptMeans(t, root, next, over);
    SearchingMeans(t, root, {}, [root]);
  }

  lemma {:induction false} AllVisited(t: Tree, root: VirtualDirectory, next: nat, over: Nodes, visited: Nodes)
    requires Kept(t, root, next, over) && Searching(t, root, visited, [])
    ensures t.Keys <= visited
  {
    KeptMeans(t, root, next, over);
    SearchingMeans(t, root, visited, []);
    forall d | d in t ensures d in visited {
      SearchEnds(t, root, visited, d);
    }
  }

  lemma {:induction false} SubdirInTree(t: Tree, root: VirtualDirectory, next: nat, over: Nodes, d: VirtualDirectory, c: VirtualDirectory)
    requires Kept(t, root, next, over) && d in t && c in t[d].dirs
    ensures c in t
  {
    KeptMeans(t, root, next, over);
    var k :| 0 <= k < |t[d].dirs| && t[d].dirs[k] == c;
    assert IsSubdir(t, root, d, t[d].dirs[k]);
  }

  lemma {:induction false} NoDirHasId(t: Tree, root: VirtualDirectory, next: nat, over: Nodes, dir: FileID)
    requires Kept(t, root, next, over) && root.fid != dir
    requires forall d, i :: d in t && 0 <= i < |t[d].dirs| ==> t[d].dirs[i].fid != dir
    ensures forall d :: d in t ==> d.fid != dir
  {
    KeptMeans(t, root, next, over);
    forall d | d in t ensures d.fid != dir {
      if d != root {
        assert IsListed(t, d);
        var p: VirtualDirectory := t[d].parent;
        var k :| 0 <= k < |t[p].dirs| && t[p].dirs[k] == d;
      }
    }
  }

  // A path leads from the root down to the node.
  ghost predicate IsPath(t: Tree, root: VirtualDirectory, path: seq<VirtualDirectory>) {
    path != [] && path[0] == root && forall i :: 0 <= i < |path| - 1 ==> path[i] in t && path[i + 1] in t[path[i]].dirs
  }

  /** The nodes are exactly the directories a path from the root leads to ... */
  lemma {:induction false} PathsStayInside(t: Tree, root: VirtualDirectory, path: seq<VirtualDirectory>)
    requires Rooted(t, root) && IsPath(t, root, path)
    ensures path[|path| - 1] in t
    decreases |path|
  {
    if |path| > 1 {
      var d, c := path[|path| - 2], path[|path| - 1];
      PathsStayInside(t, root, path[..|path| - 1]);
      var k :| 0 <= k < |t[d].dirs| && t[d].dirs[k] == c;
      assert IsSubdir(t, root, d, t[d].dirs[k]);
    }
  }

  lemma {:induction false} PathTo(t: Tree, root: VirtualDirectory, d: VirtualDirectory) returns (path: seq<VirtualDirectory>)
    requires Rooted(t, root) && d in t
    ensures IsPath(t, root, path) && path[|path| - 1] == d
    decreases t[d].depth
  {
    if d == root {
      path := [root];
    } else {
      assert IsListed(t, d);
      var p: VirtualDirectory := t[d].parent;
      var k :| 0 <= k < |t[p].dirs| && t[p].dirs[k] == d;
      assert IsSubdir(t, root, p, t[p].dirs[k]);
      path := PathTo(t, root, p);
      path := path + [d];
    }
  }

  // At most one subdirectory with the id is removable, and all others remain.
  lemma {:induction false} WhatRemains(dirs: seq<VirtualDirectory>, dir: FileID) returns (found: bool, k: nat)
    requires forall i :: 0 <= i < |dirs| ==> dirs[i].fid.directory
    requires forall i, j :: 0 <= i < j < |dirs| ==> dirs[i].fid != dirs[j].fid
    ensures found <==> exists i :: 0 <= i < |dirs| && dirs[i].Removable(dir)
    ensures found ==> k < |dirs| && dirs[k].Removable(dir) && Remaining(dirs, dir) == dirs[..k] + dirs[k + 1..]
    ensures found ==> dir.directory
    ensures !found ==> Remaining(dirs, dir) == dirs
  {
    found, k := false, 0;
    if i :| 0 <= i < |dirs| && dirs[i].Removable(dir) {
      found, k := true, i;
      RemainingOne(dirs, k);
    } else {
      RemainingAll(dirs, dir);
    }
  }

  // ---- the filesystem ----

  class VirtualFilesystem {
    const root: VirtualDirectory
    const endpoint: nat
    // The source's global counter of ids.
    var nextUid: nat
    ghost var nodes: Nodes
    // The directories whose sizes have added up to 2^64 or more at some time.
    ghost var over: Nodes

    ghost predicate Valid()
      reads this`nodes, this`nextUid, this`over, nodes
    {
      Kept(TreeOf(nodes), root, nextUid, over)
    }

    ghost function Now(): View
      reads this`nodes, this`nextUid, this`over, nodes
    {
      View(TreeOf(nodes), nextUid, over)
    }

    /** The root alone; it takes the first id. */
    constructor (endpoint: nat, name: string, maxSize: nat, firstUid: nat)
      requires maxSize < TWO_64
      ensures Valid() && over == {} && nodes == {root} && root.files == [] && root.dirs == []
    {
      this.endpoint := endpoint;
      var dir := new VirtualDirectory(FileID(firstUid, endpoint, true), name, maxSize);
      root := dir;
      nextUid := firstUid + 1;
      nodes := {dir};
      over := {};
      new;
      RootAlone(TreeOf(nodes), root, nextUid, over);
    }

    // The lookups keep their stack in a field of the filesystem only to reuse its storage; here it
    // is a local variable.

    /** findFile: the directory and position of the file, or null if the id is no file's. */
    method FindFile(file: FileID) returns (r: VirtualDirectory?, k: nat)
      requires Valid()
      ensures r == null <==> forall d :: d in nodes ==> !HasFile(d, file)
      ensures r != null ==> r in nodes && k < |r.files| && r.files[k].fid == file
    {
      k := 0;
      var iterationCache := [root];
      ghost var visited: Nodes := {};
      ghost var t := TreeOf(nodes);
      SearchStarts(t, root, nextUid, over);
      while iterationCache != []
        invariant Searching(t, root, visited, iterationCache)
        invariant forall d :: d in visited ==> !HasFile(d, file)
        decreases |t.Keys - visited|
      {
        var first := iterationCache[|iterationCache| - 1];
        SearchStep(t, root, nextUid, over, visited, iterationCache);
        iterationCache := iterationCache[..|iterationCache| - 1];
        k := first.FindFile(file);
        if k < |first.files| {
          return first, k;
        }
        iterationCache := PushDirs(iterationCache, first);
        visited := visited + {first};
      }
      AllVisited(t, root, nextUid, over, visited);
      r := null;
    }

    // The loop that puts the subdirectories on the stack.
    method PushDirs(cache: seq<VirtualDirectory>, first: VirtualDirectory) returns (iterationCache: seq<VirtualDirectory>)
      ensures iterationCache == cache + first.dirs
    {
      iterationCache := cache;
      for i := 0 to |first.dirs|
        invariant iterationCache == cache + first.dirs[..i]
      {
        iterationCache := iterationCache + [first.dirs[i]];
      }
      assert first.dirs[..|first.dirs|] == first.dirs;
    }

    // The loop of findDir over the subdirectories: it ends early when one has the id.
    method PushDirsUnless(cache: seq<VirtualDirectory>, first: VirtualDirectory, dir: FileID)
      returns (iterationCache: seq<VirtualDirectory>, found: VirtualDirectory?)
      ensures found == null ==> iterationCache == cache + first.dirs && !HasDir(first, dir)
      ensures found != null ==> found in first.dirs && found.fid == dir
    {
      iterationCache := cache;
      for i := 0 to |first.dirs|
        invariant iterationCache == cache + first.dirs[..i]
        invariant forall j :: 0 <= j < i ==> first.dirs[j].fid != dir
      {
        var itDir := first.dirs[i];
        if itDir.fid == dir {
          return iterationCache, itDir;
        }
        iterationCache := iterationCache + [itDir];
      }
      assert first.dirs[..|first.dirs|] == first.dirs;
      found := null;
    }

    /** findDir: the directory with this id, the root included, or null if there is none. */
    method FindDir(dir: FileID) returns (r: VirtualDirectory?)
      requires Valid()
      ensures r == null <==> forall d :: d in nodes ==> d.fid != dir
      ensures r != null ==> r in nodes && r.fid == dir
    {
      ghost var t := TreeOf(nodes);
      SearchStarts(t, root, nextUid, over);
      if dir == root.fid {
        return root;
      }
      var iterationCache := [root];
      ghost var visited: Nodes := {};
      while iterationCache != []
        invariant Searching(t, root, visited, iterationCache)
        invariant forall d :: d in visited ==> !HasDir(d, dir)
        decreases |t.Keys - visited|
      {
        var first := iterationCache[|iterationCache| - 1];
        SearchStep(t, root, nextUid, over, visited, iterationCache);
        iterationCache := iterationCache[..|iterationCache| - 1];
        var found: VirtualDirectory?;
        iterationCache, found := PushDirsUnless(iterationCache, first, dir);
        if found != null {
          SubdirInTree(t, root, nextUid, over, first, found);
          return found;
        }
        visited := visited + {first};
      }
      AllVisited(t, root, nextUid, over, visited);
      NoDirHasId(t, root, nextUid, over, dir);
      r := null;
    }

    // The two lookups in one directory.
    method IsHere(first: VirtualDirectory, id: FileID) returns (found: bool)
      ensures found <==> HasEntry(first, id)
    {
      var k := first.FindFile(id);
      if k < |first.files| {
        assert HasFile(first, id);
        return true;
      }
      var dirResult := first.FindDir(id);
      found := dirResult != null;
    }

    /** findContainingDir: the directory the id is in, as a file or a subdirectory, or null if it
        is in none; the root is in none. */
    method FindContainingDir(id: FileID) returns (r: VirtualDirectory?)
      requires Valid()
      ensures r == null <==> forall d :: d in nodes ==> !HasEntry(d, id)
      ensures r != null ==> r in nodes && HasEntry(r, id)
    {
      var iterationCache := [root];
      ghost var visited: Nodes := {};
      ghost var t := TreeOf(nodes);
      SearchStarts(t, root, nextUid, over);
      while iterationCache != []
        invariant Searching(t, root, visited, iterationCache)
        invariant forall d :: d in visited ==> !HasEntry(d, id)
        decreases |t.Keys - visited|
      {
        var first := iterationCache[|iterationCache| - 1];
        SearchStep(t, root, nextUid, over, visited, iterationCache);
        iterationCache := iterationCache[..|iterationCache| - 1];
        var found := IsHere(first, id);
        if found {
          return first;
        }
        iterationCache := PushDirs(iterationCache, first);
        visited := visited + {first};
      }
      AllVisited(t, root, nextUid, over, visited);
      r := null;
    }

    // ---- changes ----

    /** fileAdd in a directory of the tree: fails if the name is taken there; a new file has the
        next id and is empty. Nothing else changes. */
    method FileAdd(d: VirtualDirectory, name: string) returns (ok: bool, id: FileID)
      requires Valid() && d in nodes && nextUid < UINT32_MAX
      modifies this`nextUid, d`files
      ensures Valid() && nextUid == old(nextUid) + (if ok then 1 else 0)
      ensures ok <==> forall i :: 0 <= i < |old(d.files)| ==> old(d.files)[i].name != name
      ensures id == FileID(old(nextUid), endpoint, false)
      ensures TreeOf(nodes) == old(if ok then TreeOf(nodes)[d := WithFile(d.Fields(), VirtualFile(id, name, 0))] else TreeOf(nodes))
    {
      ghost var t := TreeOf(nodes);
      id := FileID(nextUid, endpoint, false);
      ok := d.FileAdd(name, id);
      if ok {
        FileAdded(t, root, nextUid, over, d, VirtualFile(id, name, 0));
        nextUid := nextUid + 1;
      }
      assert TreeOf(nodes) == if ok then t[d := WithFile(t[d], VirtualFile(id, name, 0))] else t;
    }

    // What fileChangeSize does to the whole tree ...
    method SetSize(d: VirtualDirectory, file: FileID, newFileSize: nat) returns (ok: bool)
      requires d in nodes
      modifies d`files, d`size
      ensures ok <==> old(Accepts(d.Fields(), d.sizeLimit, file, newFileSize))
      ensures ok && old(d.size < TWO_64) ==>
        TreeOf(nodes) == old(TreeOf(nodes)[d := WithSize(d.Fields(), FileIndex(d.files, file), newFileSize)])
      ensures !ok ==> TreeOf(nodes) == old(TreeOf(nodes))
    {
      ghost var t, k := TreeOf(nodes), FileIndex(d.files, file);
      ok := d.FileChangeSize(file, newFileSize);
      ghost var e := d.Fields();
      assert TreeOf(nodes) == t[d := e];
      assert ok && t[d].size < TWO_64 ==> e == WithSize(t[d], k, newFileSize);
      assert !ok ==> e == t[d];
    }

    /** fileChangeSize in a directory of the tree. The directory is noted if its sizes add up to 2^64
        or more now: from then on its recorded size is right modulo 2^64 only. */
    method FileChangeSize(d: VirtualDirectory, file: FileID, newFileSize: nat) returns (ok: bool)
      requires Valid() && d in nodes
      modifies this`over, d`files, d`size
      ensures Valid()
      ensures ok <==> old(Accepts(d.Fields(), d.sizeLimit, file, newFileSize))
      ensures ok ==> TreeOf(nodes) == old(TreeOf(nodes)[d := WithSize(d.Fields(), FileIndex(d.files, file), newFileSize)])
      ensures !ok ==> TreeOf(nodes) == old(TreeOf(nodes))
      ensures over == old(over) + (if ok && old(SumWith(d.files, FileIndex(d.files, file), newFileSize)) >= TWO_64 then {d} else {})
    {
      ghost var t, k := TreeOf(nodes), FileIndex(d.files, file);
      EntryFacts(t, root, nextUid, over, d);
      ok := SetSize(d, file, newFileSize);
      if ok {
        FileResized(t, root, nextUid, over, d, k, newFileSize);
        over := if SumWith(t[d].files, k, newFileSize) < TWO_64 then over else over + {d};
      }
    }

    /** fileDelete in a directory of the tree: exactly the file with the id goes. */
    method FileDelete(d: VirtualDirectory, file: FileID) returns (ok: bool)
      requires Valid() && d in nodes
      modifies d`files, d`size
      ensures Valid()
      ensures ok <==> FileIndex(old(d.files), file) < |old(d.files)|
      ensures ok ==> TreeOf(nodes) == old(TreeOf(nodes)[d := WithoutFile(d.Fields(), FileIndex(d.files, file))])
      ensures !ok ==> TreeOf(nodes) == old(TreeOf(nodes))
      ensures !HasFile(d, file)
    {
      ghost var t, k := TreeOf(nodes), FileIndex(d.files, file);
      if k < |d.files| {
        FileDeleted(t, root, nextUid, over, d, k);
      }
      ok := d.FileDelete(file);
      ghost var e := d.Fields();
      assert TreeOf(nodes) == t[d := e];
      assert e == if ok then WithoutFile(t[d], k) else t[d];
    }

    /** dirAdd in a directory of the tree: fails if the name is taken there; a new directory has
        the next id and is empty. */
    method DirAdd(d: VirtualDirectory, name: string, maxSize: nat) returns (ok: bool, added: VirtualDirectory?)
      requires Valid() && d in nodes && nextUid < UINT32_MAX && maxSize < TWO_64
      modifies this`nextUid, this`nodes, d`dirs
      ensures Valid() && nextUid == old(nextUid) + (if ok then 1 else 0)
      ensures ok <==> forall i :: 0 <= i < |old(d.dirs)| ==> old(d.dirs[i].name) != name
      ensures !ok ==> nodes == old(nodes) && TreeOf(nodes) == old(TreeOf(nodes))
      ensures ok ==>
        && added != null && fresh(added) && added.fid == FileID(old(nextUid), endpoint, true) && added.sizeLimit == maxSize
        && nodes == old(nodes) + {added} && TreeOf(nodes) == WithDir(old(TreeOf(nodes)), d, added, name)
    {
      ghost var t := TreeOf(nodes);
      SubdirsDistinct(t, root, nextUid, over, d);
      ok, added := d.DirAdd(name, FileID(nextUid, endpoint, true), maxSize);
      if ok {
        nodes := nodes + {added};
        DirAdded(t, root, nextUid, over, d, added, name);
        nextUid := nextUid + 1;
        assert TreeOf(nodes) == WithDir(t, d, added, name);
      } else {
        assert TreeOf(nodes) == t;
      }
    }

    // What dirDelete does to the whole tree ...
    method RemoveDir(d: VirtualDirectory, dir: FileID) returns (ok: bool, ghost k: nat)
      requires d in nodes
      requires forall i :: 0 <= i < |d.dirs| ==> d.dirs[i] in nodes && d.dirs[i] != d && d.dirs[i].fid.directory
      requires forall i, j :: 0 <= i < j < |d.dirs| ==> d.dirs[i].fid != d.dirs[j].fid
      modifies this`nodes, d`dirs
      ensures ok <==> exists i :: 0 <= i < |old(d.dirs)| && old(d.dirs[i].Removable(dir))
      ensures !ok ==> nodes == old(nodes) && TreeOf(nodes) == old(TreeOf(nodes))
      ensures ok ==>
        && k < |old(d.dirs)| && old(d.dirs[k].Removable(dir)) && nodes == old(nodes) - {old(d.dirs)[k]}
        && TreeOf(nodes) == WithoutDir(old(TreeOf(nodes)), d, k)
    {
      ghost var t := TreeOf(nodes);
      ghost var found;
      found, k := WhatRemains(d.dirs, dir);
      ok := d.DirDelete(dir);
      if found {
        nodes := nodes - {t[d].dirs[k]};
        assert TreeOf(nodes) == WithoutDir(t, d, k);
      } else {
        assert TreeOf(nodes) == t;
      }
    }

    /** dirDelete in a directory of the tree: it removes exactly one subdirectory, the one with the
        id, if there is one and it is empty; else nothing. */
    method DirDelete(d: VirtualDirectory, dir: FileID) returns (ok: bool, ghost k: nat)
      requires Valid() && d in nodes
      modifies this`nodes, d`dirs
      ensures Valid()
      ensures ok <==> exists i :: 0 <= i < |old(d.dirs)| && old(d.dirs[i].Removable(dir))
      ensures !ok ==> nodes == old(nodes) && TreeOf(nodes) == old(TreeOf(nodes))
      ensures ok ==>
        && k < |old(d.dirs)| && old(d.dirs[k].Removable(dir)) && nodes == old(nodes) - {old(d.dirs)[k]}
        && TreeOf(nodes) == WithoutDir(old(TreeOf(nodes)), d, k)
    {
      ghost var t := TreeOf(nodes);
      SubdirsDistinct(t, root, nextUid, over, d);
      ok, k := RemoveDir(d, dir);
      if ok {
        DirRemoved(t, root, nextUid, over, d, k);
      }
    }

    // ---- operations by id ----

    lemma {:induction false} OnlyDir(d: VirtualDirectory)
      requires Valid() && d in nodes
      ensures forall e :: e in nodes && e.fid == d.fid ==> e == d
    {
      KeptMeans(TreeOf(nodes), root, nextUid, over);
    }

    // A deletion can only be done where the id is ...
    lemma {:induction false} DeletedWhereItIs(op: Operation, id: FileID, e: VirtualDirectory)
      requires (op == Operation.FileDelete(id) || op == Operation.DirDelete(id)) && e in nodes && !HasEntry(e, id)
      ensures !Allows(TreeOf(nodes), op, e)
    {
      assert TreeOf(nodes)[e] == e.Fields();
      if op == Operation.DirDelete(id) {
        forall k | IsEmptyDir(TreeOf(nodes), e, k, id) ensures false {
          assert HasDir(e, id);
        }
      }
    }

    // ... and that is one directory at most.
    lemma {:induction false} OnlyHome(op: Operation, id: FileID, d: VirtualDirectory)
      requires Valid() && (op == Operation.FileDelete(id) || op == Operation.DirDelete(id)) && d in nodes && HasEntry(d, id)
      ensures forall e :: e in nodes && e != d ==> !Allows(TreeOf(nodes), op, e)
    {
      var t := TreeOf(nodes);
      assert IdIn(t[d], id);
      OneHome(t, root, nextUid, over, d, id);
      forall e | e in nodes && e != d ensures !Allows(t, op, e) {
        assert !IdIn(t[e], id);
        DeletedWhereItIs(op, id, e);
      }
    }

    // An operation that no directory allows fails.
    lemma {:induction false} Refused(op: Operation)
      requires forall e :: e in nodes ==> !Allows(TreeOf(nodes), op, e)
      ensures Stepped(Now(), op, Now(), false, endpoint)
    {
    }

    /** fileCreate of the endpoint. */
    method CreateFile(op: Operation) returns (ok: bool)
      requires Valid() && op.FileCreate? && nextUid < UINT32_MAX
      modifies this`nextUid, nodes
      ensures Valid() && Stepped(old(Now()), op, Now(), ok, endpoint)
    {
      ghost var v := Now();
      var d := FindDir(op.dir);
      if d == null {
        Refused(op);
        return false;
      }
      OnlyDir(d);
      var id;
      ok, id := FileAdd(d, op.name);
      assert ok <==> Allows(v.tree, op, d);
      assert ok ==> Does(v, op, d, Now(), endpoint);
      assert !ok ==> Now() == v;
    }

    /** A change of size as the endpoint's users make it. */
    method ResizeFile(op: Operation) returns (ok: bool)
      requires Valid() && op.FileResize?
      modifies this`over, nodes
      ensures Valid() && Stepped(old(Now()), op, Now(), ok, endpoint)
    {
      ghost var v := Now();
      var d := FindDir(op.dir);
      if d == null {
        Refused(op);
        return false;
      }
      OnlyDir(d);
      ok := FileChangeSize(d, op.file, op.newSize);
      assert ok <==> Allows(v.tree, op, d);
      assert ok ==> Does(v, op, d, Now(), endpoint);
      assert !ok ==> Now() == v;
    }

    /** fileDelete of the endpoint. */
    method DeleteFile(op: Operation) returns (ok: bool)
      requires Valid() && op.FileDelete?
      modifies nodes
      ensures Valid() && Stepped(old(Now()), op, Now(), ok, endpoint)
    {
      ghost var v := Now();
      var d := FindContainingDir(op.file);
      if d == null {
        forall e | e in nodes ensures !Allows(v.tree, op, e) {
          DeletedWhereItIs(op, op.file, e);
        }
        Refused(op);
        return false;
      }
      OnlyHome(op, op.file, d);
      ok := FileDelete(d, op.file);
      assert ok <==> Allows(v.tree, op, d);
      assert ok ==> Does(v, op, d, Now(), endpoint);
      assert !ok ==> Now() == v;
    }

    /** dirCreate of the endpoint. */
    method CreateDir(op: Operation) returns (ok: bool)
      requires Valid() && op.DirCreate? && Typed(op) && nextUid < UINT32_MAX
      modifies this`nextUid, this`nodes, nodes
      ensures Valid() && Stepped(old(Now()), op, Now(), ok, endpoint)
      ensures forall d :: d in nodes ==> d in old(nodes) || fresh(d)
    {
      ghost var v := Now();
      var d := FindDir(op.dir);
      if d == null {
        Refused(op);
        return false;
      }
      OnlyDir(d);
      SubdirsDistinct(v.tree, root, nextUid, over, d);
      var added;
      ok, added := DirAdd(d, op.name, op.maxSize);
      assert ok <==> Allows(v.tree, op, d);
      assert ok ==> AddsDir(v, d, added, op.name, op.maxSize, Now(), endpoint);
      assert !ok ==> Now() == v;
    }

    lemma {:induction false} EmptyDirs(dir: FileID, d: VirtualDirectory)
      requires Valid() && d in nodes
      ensures forall k: nat :: IsEmptyDir(TreeOf(nodes), d, k, dir) <==> k < |d.dirs| && d.dirs[k].Removable(dir)
    {
      SubdirsDistinct(TreeOf(nodes), root, nextUid, over, d);
    }

    /** dirDelete of the endpoint. */
    method DeleteDir(op: Operation) returns (ok: bool)
      requires Valid() && op.DirDelete?
      modifies this`nodes, nodes
      ensures Valid() && nodes <= old(nodes) && Stepped(old(Now()), op, Now(), ok, endpoint)
    {
      ghost var v := Now();
      var d := FindContainingDir(op.dir);
      if d == null {
        forall e | e in nodes ensures !Allows(v.tree, op, e) {
          DeletedWhereItIs(op, op.dir, e);
        }
        Refused(op);
        return false;
      }
      OnlyHome(op, op.dir, d);
      EmptyDirs(op.dir, d);
      ghost var k;
      ok, k := DirDelete(d, op.dir);
      assert ok ==> IsEmptyDir(v.tree, d, k, op.dir);
      assert ok <==> Allows(v.tree, op, d);
      assert !ok ==> Now() == v;
    }

    /** One operation by ids, as the endpoint performs it: find the directory, then change it. */
    method Apply(op: Operation) returns (ok: bool)
      requires Valid() && nextUid + IdsFor(op) <= UINT32_MAX && Typed(op)
      modifies this`nextUid, this`nodes, this`over, nodes
      ensures Valid() && Stepped(old(Now()), op, Now(), ok, endpoint)
      ensures nextUid <= old(nextUid) + IdsFor(op) && forall d :: d in nodes ==> d in old(nodes) || fresh(d)
    {
      match op {
        case FileCreate(_, _) => ok := CreateFile(op);
        case FileResize(_, _, _) => ok := ResizeFile(op);
        case FileDelete(_) => ok := DeleteFile(op);
        case DirCreate(_, _, _) => ok := CreateDir(op);
        case DirDelete(_) => ok := DeleteDir(op);
        case OtherIds(count) =>
          SearchStarts(TreeOf(nodes), root, nextUid, over);
          IdsTaken(TreeOf(nodes), root, nextUid, nextUid + count, over);
          nextUid := nextUid + count;
          ok := true;
          assert root in nodes;
      }
    }

    /** Any run of operations, failing ones included, and with other trees taking ids in between:
        the states it passes through are those of a run of steps. What holds of all those is
        VirtualTrees.TreeInvariant. */
    method Execute(ops: seq<Operation>) returns (oks: seq<bool>, ghost views: seq<View>)
      requires Valid() && nextUid + IdsForAll(ops) <= UINT32_MAX
      requires forall i :: 0 <= i < |ops| ==> Typed(ops[i])
      modifies this`nextUid, this`nodes, this`over, nodes
      ensures Valid() && IsRun(views, ops, oks, endpoint)
      ensures views[0] == old(Now()) && views[|ops|] == Now()
      ensures old(over) == {} && NeverOverfull(views, ops, oks) ==> forall d :: d in nodes ==> Exact(d.Fields(), d.sizeLimit)
    {
      ghost var before := nodes;
      oks, views := [], [Now()];
      assert ops[0..] == ops;
      for n := 0 to |ops|
        invariant Valid() && nextUid + IdsForAll(ops[n..]) <= UINT32_MAX
        invariant forall d :: d in nodes ==> d in before || fresh(d)
        invariant IsRun(views, ops[..n], oks, endpoint) && views[0] == old(Now()) && views[n] == Now()
      {
        assert ops[n..][1..] == ops[n + 1..];
        var ok := Apply(ops[n]);
        RunPush(views, ops[..n], oks, endpoint, ops[n], Now(), ok);
        assert ops[..n + 1] == ops[..n] + [ops[n]];
        oks, views := oks + [ok], views + [Now()];
      }
      assert ops[..|ops|] == ops;
      if old(over) == {} && NeverOverfull(views, ops, oks) {
        RunNotes(views, ops, oks, endpoint, |ops|);
        AllExact();
      }
    }

    lemma {:induction false} AllExact()
      requires Valid() && over == {}
      ensures forall d :: d in nodes ==> Exact(d.Fields(), d.sizeLimit)
    {
      KeptMeans(TreeOf(nodes), root, nextUid, over);
      forall d | d in nodes ensures Exact(d.Fields(), d.sizeLimit) {
        assert TreeOf(nodes)[d] == d.Fields();
      }
    }

    /** What the invariant says of one directory: unless its sizes added up to 2^64 or more at some
        time, its recorded size is their sum, and 0 or below its limit. */
    lemma {:induction false} SizesExact(d: VirtualDirectory)
      requires Valid() && d in nodes
      ensures d.size == Wrap(SizeSum(d.files))
      ensures d !in over ==> d.size == SizeSum(d.files) && (d.size == 0 || d.size < d.sizeLimit)
    {
      var t := TreeOf(nodes);
      EntryFacts(t, root, nextUid, over, d);
      assert t[d] == d.Fields();
    }

    /** ... and of ids and names: each id occurs once in the whole tree, each name once in its
        directory among files and among subdirectories. */
    lemma {:induction false} IdsAndNamesUnique(d: VirtualDirectory, e: VirtualDirectory)
      requires Valid() && d in nodes && e in nodes
      ensures d.fid.uid == e.fid.uid ==> d == e
      ensures forall i, j :: 0 <= i < |d.files| && 0 <= j < |e.files| && d.files[i].fid.uid == e.files[j].fid.uid ==> d == e && i == j
      ensures forall i :: 0 <= i < |d.files| ==> d.files[i].fid.uid != e.fid.uid
      ensures forall i, j :: 0 <= i < j < |d.files| ==> d.files[i].name != d.files[j].name
      ensures forall i, j :: 0 <= i < j < |d.dirs| ==> d.dirs[i].name != d.dirs[j].name
    {
      var t := TreeOf(nodes);
      KeptMeans(t, root, nextUid, over);
      assert t[d] == d.Fields() && t[e] == e.Fields();
      forall i, j | 0 <= i < |d.files| && 0 <= j < |e.files| && d.files[i].fid.uid == e.files[j].fid.uid ensures d == e && i == j {
        assert d.files[i].fid.uid in Uids(t[d].files) && e.files[j].fid.uid in Uids(t[e].files);
      }
      forall i | 0 <= i < |d.files| ensures d.files[i].fid.uid != e.fid.uid {
        assert d.files[i].fid.uid in Uids(t[d].files);
      }
      assert DirNames(t, d);
      forall i | 0 <= i < |d.dirs| ensures d.dirs[i] in t {
        assert IsSubdir(t, root, d, t[d].dirs[i]);
      }
    }
  }
}
