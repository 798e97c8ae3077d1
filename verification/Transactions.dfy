/** The upload transaction as an object (src/storage/StorageTransaction.cpp and
    src/storage/transactions/WriteFileTransaction.cpp): its methods change the datastore, the
    directory and its own handle. Each does what the action of the same name in Uploads does, so
    what is proved there of any run of actions holds of it. */
module Transactions {
  import opened Bits
  import opened FileStores
  import D = Datastores
  import R = DatastoreRuns
  import U = Uploads
  import V = VirtualDirectories
  import VirtualFilesystems
  import LocalFileSystems

  // What start does to the store and the handle.
  lemma {:induction false} StartIs(w: U.World, t: nat)
    requires t in w.uploads
    ensures var id := w.uploads[t].file;
      var create := D.CreateFile(w.ds.store, id);
      var open := D.InitWrite(create.store, t, id, R.WriterAt(w.ds, t).h);
      var n := U.Act(w, U.Start(t));
      && n.uploads == w.uploads && n.entries == w.entries && (create.ok <==> Target(id) !in w.ds.store.fs.names)
      && (create.ok ==> open.ok && n.ds.store == open.store && R.WriterAt(n.ds, t).h == open.handle)
      && (!create.ok ==> n.ds.store == w.ds.store && create.store == w.ds.store && R.WriterAt(n.ds, t) == R.WriterAt(w.ds, t))
  {
    U.TwoSteps(w.ds, R.Create(w.uploads[t].file), R.OpenWrite(t, w.uploads[t].file));
  }

  // ... what write and commit do ...
  lemma {:induction false} SendIs(w: U.World, t: nat, isLast: bool, data: seq<Byte>)
    requires t in w.uploads
    ensures var written := D.WriteFile(w.ds.store, R.WriterAt(w.ds, t).h, isLast, data);
      var n := U.Act(w, U.Send(t, isLast, data));
      n.uploads == w.uploads && n.entries == w.entries && n.ds.store == written.store && R.WriterAt(n.ds, t).h == written.handle
  {
    U.TwoSteps(w.ds, R.Write(t, isLast, data), R.Write(t, isLast, data));
  }

  lemma {:induction false} CommitIs(w: U.World, t: nat)
    requires t in w.uploads
    ensures var closing := D.CloseWrite(w.ds.store, R.WriterAt(w.ds, t).h, false);
      var n := U.Act(w, U.Commit(t));
      && n.uploads == w.uploads[t := w.uploads[t].(isCommited := true)] && n.entries == w.entries
      && n.ds.store == closing.store && R.WriterAt(n.ds, t).h == closing.handle
  {
    U.TwoSteps(w.ds, R.EndWrite(t, false), R.EndWrite(t, false));
  }

  // ... and what the destructor does to them.
  lemma {:induction false} DestroyIs(w: U.World, t: nat)
    requires t in w.uploads
    ensures var closing := D.CloseWrite(w.ds.store, R.WriterAt(w.ds, t).h, true);
      var n := U.Act(w, U.Destroy(t));
      if w.uploads[t].isCommited then n.ds == w.ds
      else n.ds.store == D.DeleteFile(closing.store, w.uploads[t].file).store && R.WriterAt(n.ds, t).h == closing.handle
  {
    U.TwoSteps(w.ds, R.EndWrite(t, true), R.Delete(w.uploads[t].file));
  }

  class WriteFileTransaction {
    // Names the transaction, in the model only.
    const number: nat
    const dir: V.FileID
    const file: V.FileID
    var datastore: LocalFileSystems.LocalFileSystemDatastore?
    var filesystem: VirtualFilesystems.VirtualFilesystem?
    var handle: D.WriteHandle
    var isCommited: bool

    // init has been called, with a sound datastore and a sound tree.
    ghost predicate Valid()
      reads this, datastore, filesystem
      reads if datastore == null then {} else {datastore.taken}
      reads if filesystem == null then {} else filesystem.nodes
    {
      datastore != null && filesystem != null && datastore.Valid() && filesystem.Valid()
    }

    // Some directory with the id of this transaction's has the file.
    ghost predicate IsListed()
      requires filesystem != null
      reads this, filesystem, filesystem.nodes
    {
      exists d :: d in filesystem.nodes && d.fid == dir && VirtualFilesystems.HasFile(d, file)
    }

    /** The transaction is where it is in the abstract world. */
    ghost predicate Is(w: U.World)
      requires Valid()
      reads this, datastore, filesystem
      reads if datastore == null then {} else {datastore.taken}
      reads if filesystem == null then {} else filesystem.nodes
    {
      && number in w.uploads && w.uploads[number] == U.Upload(dir.uid, file.uid, isCommited)
      && w.ds.store == datastore.Now() && R.WriterAt(w.ds, number).h == handle
      && (IsListed() <==> file.uid in w.entries && w.entries[file.uid] == dir.uid)
    }

    constructor (number: nat, dir: V.FileID, file: V.FileID)
      ensures this.number == number && this.dir == dir && this.file == file
      ensures datastore == null && filesystem == null && handle == D.NO_WRITE && !isCommited
    {
      this.number := number;
      this.dir := dir;
      this.file := file;
      datastore := null;
      filesystem := null;
      handle := D.NO_WRITE;
      isCommited := false;
    }

    /** init: from here on the transaction is one that has begun in the abstract world. */
    method Init(store: LocalFileSystems.LocalFileSystemDatastore, vfs: VirtualFilesystems.VirtualFilesystem, ghost w: U.World)
      requires store.Valid() && vfs.Valid() && handle == D.NO_WRITE && !isCommited
      requires w.ds.store == store.Now() && number !in w.ds.writers
      requires (exists d :: d in vfs.nodes && d.fid == dir && VirtualFilesystems.HasFile(d, file))
               <==> file.uid in w.entries && w.entries[file.uid] == dir.uid
      modifies this`datastore, this`filesystem
      ensures Valid() && Is(U.Act(w, U.Begin(number, dir.uid, file.uid)))
    {
      datastore := store;
      filesystem := vfs;
    }

    // createFile, and initWrite if it succeeds.
    method CreateAndOpen() returns (ok: bool)
      requires Valid()
      modifies this`handle, datastore`fs
      ensures Valid()
      ensures var create := D.CreateFile(old(datastore.Now()), file.uid);
        var open := D.InitWrite(create.store, number, file.uid, old(handle));
        if create.ok then ok == open.ok && datastore.Now() == open.store && handle == open.handle
        else !ok && datastore.Now() == create.store && handle == old(handle)
    {
      var calls;
      ok, calls := datastore.CreateFile(file.uid);
      if !ok {
        return;
      }
      ok, handle := datastore.InitWrite(file.uid, handle, number);
    }

    /** start; fails exactly if a file with this id exists already. */
    method Start(ghost w: U.World) returns (ok: bool)
      requires Valid() && Is(w)
      modifies this`handle, datastore`fs
      ensures Valid() && Is(U.Act(w, U.Start(number)))
      ensures ok <==> Target(file.uid) !in w.ds.store.fs.names
    {
      StartIs(w, number);
      ok := CreateAndOpen();
    }

    /** write; accepted exactly by an open handle that has not had its last piece. */
    method Write(data: seq<Byte>, isLast: bool, ghost w: U.World) returns (ok: bool)
      requires Valid() && Is(w)
      modifies this`handle, datastore`fs
      ensures Valid() && Is(U.Act(w, U.Send(number, isLast, data)))
      ensures var h := R.WriterAt(w.ds, number).h;
        ok <==> h.IsValid() && !h.done && IsOpen(w.ds.store.fs, h.tempfd)
    {
      SendIs(w, number, isLast, data);
      ok, handle := datastore.WriteFile(handle, isLast, data);
    }

    /** commit */
    method Commit(ghost w: U.World)
      requires Valid() && Is(w)
      modifies this`handle, this`isCommited, datastore`fs
      ensures Valid() && Is(U.Act(w, U.Commit(number)))
    {
      CommitIs(w, number);
      var ok, h, calls := datastore.CloseWrite(handle, false);
      handle := h;
      isCommited := true;
    }

    // Takes the file out of the directory.
    method Unlist()
      requires Valid()
      modifies filesystem.nodes
      ensures Valid() && !IsListed()
    {
      var createDir := filesystem.FindDir(dir);
      if createDir != null {
        filesystem.OnlyDir(createDir);
        var ok := filesystem.FileDelete(createDir, file);
      }
    }

    // Gives the files back.
    method Revert()
      requires Valid()
      modifies this`handle, datastore`fs
      ensures Valid()
      ensures var closing := D.CloseWrite(old(datastore.Now()), old(handle), true);
        handle == closing.handle && datastore.Now() == D.DeleteFile(closing.store, file.uid).store
    {
      var ok, calls;
      ok, handle, calls := datastore.CloseWrite(handle, true);
      ok, calls := datastore.DeleteFile(file.uid);
    }

    /** The destructor. init must have been called: without it the source has no filesystem to
        look in, and no datastore. */
    method Destroy(ghost w: U.World)
      requires Valid() && Is(w)
      modifies this`handle, datastore`fs, filesystem.nodes
      ensures Valid() && isCommited == old(isCommited)
      ensures var n := U.Act(w, U.Destroy(number));
        && datastore.Now() == n.ds.store && handle == R.WriterAt(n.ds, number).h
        && (IsListed() <==> file.uid in n.entries && n.entries[file.uid] == dir.uid)
    {
      DestroyIs(w, number);
      if !isCommited {
        Unlist();
        Revert();
      }
    }
  }
}
