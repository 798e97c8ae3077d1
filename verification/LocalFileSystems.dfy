/** The datastore object (src/storage/datastore/LocalFileSystem.cpp): its methods change the file
    system and the flags of the buffers step by step. Each is proved to do what the function of
    the same name in Datastores says; what runs of them guarantee is proved about those. Handles
    are passed in and out, as the source passes its structs by reference; `who` names the opener in
    the model only. */
module LocalFileSystems {
  import opened Bits
  import opened FileStores
  import D = Datastores

  class LocalFileSystemDatastore {
    var fs: Fs
    // SyncedBuffer::taken of every buffer, and which reader took it.
    const taken: array<bool>
    ghost var slots: map<nat, nat>

    ghost predicate Valid()
      reads this, taken
    {
      taken.Length == D.MAX_READERS && forall i :: i in slots <==> 0 <= i < taken.Length && taken[i]
    }

    ghost function Now(): D.Store
      reads this
    {
      D.Store(fs, slots)
    }

    /** The constructor opens the directory, with the files that are in it. */
    constructor (directory: Fs)
      ensures Valid() && fresh(taken) && Now() == D.Store(directory, map[])
    {
      fs := directory;
      taken := new bool[25](_ => false);
      slots := map[];
    }

    /** createFile; the callback's arguments are returned in order. */
    method CreateFile(fileID: nat) returns (ok: bool, calls: seq<bool>)
      requires Valid()
      modifies this`fs
      ensures Valid() && D.Reply(Now(), ok, calls) == D.CreateFile(old(Now()), fileID)
    {
      var file := OpenExclusive(fs, Target(fileID), Creator);
      fs := file.fs;
      if file.fd == -1 {
        return false, [false];
      }
      fs := Close(fs, file.fd);
      return true, [true];
    }

    /** deleteFile */
    method DeleteFile(fileID: nat) returns (ok: bool, calls: seq<bool>)
      requires Valid()
      modifies this`fs
      ensures Valid() && D.Reply(Now(), ok, calls) == D.DeleteFile(old(Now()), fileID)
    {
      if Target(fileID) !in fs.names {
        return false, [false];
      }
      fs := Unlink(fs, Target(fileID));
      return true, [true];
    }

    // The loop that locks the first free buffer.
    method LockBuffer(who: nat) returns (buffer: nat)
      requires Valid()
      modifies this`slots, taken
      ensures Valid()
      ensures var slot := D.FreeSlot(old(slots), 0);
        if slot == D.MAX_READERS then buffer == D.UINT8_MAX && slots == old(slots)
        else buffer == slot && slots == old(slots)[slot := who]
    {
      buffer := D.UINT8_MAX;
      for i := 0 to taken.Length
        invariant Valid() && slots == old(slots) && buffer == D.UINT8_MAX
        invariant D.FreeSlot(slots, 0) == D.FreeSlot(slots, i)
      {
        var wasTaken := taken[i];
        if !wasTaken {
          taken[i] := true;
          slots := slots[i := who];
          buffer := i;
          return;
        }
      }
    }

    /** initRead */
    method InitRead(fileID: nat, begin: nat, end: nat, handle: D.ReadHandle, who: nat) returns (ok: bool, h: D.ReadHandle)
      requires Valid()
      modifies this`fs, this`slots, taken
      ensures Valid() && D.ReadOpened(Now(), h, ok) == D.InitRead(old(Now()), who, fileID, begin, end, handle)
    {
      h := handle;
      if end != 0 && begin >= end {
        return false, h;
      }
      var size := SizeOf(fs, Target(fileID));
      var file := Open(fs, Target(fileID), ReaderOf(who));
      fs := file.fs;
      if file.fd == -1 {
        return false, h;
      }
      var buffer := LockBuffer(who);
      h := h.(buffer := buffer);
      if h.buffer == D.UINT8_MAX {
        return false, h;
      }
      h := h.(end := end, position := begin, fd := file.fd, fileID := fileID);
      if end == 0 {
        h := h.(end := size);
      }
      return true, h;
    }

    /** readFile; the callback's arguments are returned. */
    method ReadFile(handle: D.ReadHandle, chunkSize: nat) returns (ok: bool, h: D.ReadHandle, chunk: D.Chunk)
      requires Valid()
      ensures D.ReadDone(h, chunk, ok) == D.ReadFile(Now(), handle, chunkSize)
    {
      h := handle;
      if !h.IsValid() {
        return false, h, D.Chunk([], false, true);
      }
      if h.IsDone() {
        return false, h, D.Chunk([], false, true);
      }
      var request := D.Min(chunkSize, (h.end - h.position) % D.TWO_64);
      if !IsOpen(fs, h.fd) {
        return false, h, D.Chunk([], false, true);
      }
      var data := Pread(fs, h.fd, request, h.position);
      h := h.(position := h.position + |data|);
      var isLast := |data| == 0 || h.position >= h.end;
      if isLast {
        h := h.(position := D.SIZE_MAX);
      }
      return true, h, D.Chunk(data, true, isLast);
    }

    /** closeRead */
    method CloseRead(handle: D.ReadHandle) returns (ok: bool, h: D.ReadHandle, calls: seq<bool>)
      requires Valid() && (handle.IsValid() ==> handle.buffer < D.MAX_READERS)
      modifies this`fs, this`slots, taken
      ensures Valid() && D.ReadClosed(Now(), h, ok, calls) == D.CloseRead(old(Now()), handle)
    {
      h := handle;
      if !h.IsValid() {
        return false, h, [false];
      }
      fs := Close(fs, h.fd);
      h := h.(fd := -1);
      taken[h.buffer] := false;
      slots := slots - {h.buffer};
      return true, h, [];
    }

    /** initWrite */
    method InitWrite(fileID: nat, handle: D.WriteHandle, who: nat) returns (ok: bool, h: D.WriteHandle)
      requires Valid()
      modifies this`fs
      ensures Valid() && D.WriteOpened(Now(), h, ok) == D.InitWrite(old(Now()), who, fileID, handle)
    {
      h := handle;
      var target := Open(fs, Target(fileID), TargetOf(who));
      if target.fd == -1 {
        return false, h;
      }
      fs := target.fs;
      var tempFile := OpenTruncated(fs, Temp(fileID), TempOf(who));
      fs := tempFile.fs;
      h := h.(buffer := 0, tempPosition := 0, targetfd := target.fd, tempfd := tempFile.fd, fileID := fileID);
      return true, h;
    }

    /** writeFile; the callback is given the result. */
    method WriteFile(handle: D.WriteHandle, isLast: bool, data: seq<Byte>) returns (ok: bool, h: D.WriteHandle)
      requires Valid()
      modifies this`fs
      ensures Valid() && D.Written(Now(), h, ok) == D.WriteFile(old(Now()), handle, isLast, data)
    {
      h := handle;
      if !h.IsValid() {
        return false, h;
      }
      if h.done {
        return false, h;
      }
      if !IsOpen(fs, h.tempfd) {
        return false, h;
      }
      fs := Pwrite(fs, h.tempfd, data, h.tempPosition);
      h := h.(tempPosition := h.tempPosition + |data|);
      if isLast {
        h := h.(done := true);
      }
      return true, h;
    }

    /** closeWrite */
    method CloseWrite(handle: D.WriteHandle, revert: bool) returns (ok: bool, h: D.WriteHandle, calls: seq<bool>)
      requires Valid()
      modifies this`fs
      ensures Valid() && D.WriteClosed(Now(), h, ok, calls) == D.CloseWrite(old(Now()), handle, revert)
    {
      h, calls := handle, [true];
      if !h.IsValid() {
        return false, h, calls + [false];
      }
      ok := true;
      if revert {
        if Temp(h.fileID) !in fs.names {
          ok := false;
        }
        fs := Unlink(fs, Temp(h.fileID));
      } else {
        if Target(h.fileID) !in fs.names {
          ok := false;
        }
        fs := Unlink(fs, Target(h.fileID));
        if Temp(h.fileID) in fs.names {
          fs := Rename(fs, Temp(h.fileID), Target(h.fileID));
        } else {
          ok := false;
        }
      }
      fs := Close(fs, h.targetfd);
      h := h.(targetfd := -1);
      fs := Close(fs, h.tempfd);
      h := h.(tempfd := -1);
    }
  }
}
