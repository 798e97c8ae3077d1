/** The local file system datastore (src/storage/datastore/LocalFileSystem.cpp and
    src/storage/datastore/DataStore.cpp). Writes go to a temporary file that takes the target's
    name on commit; reads stream through a descriptor, with one buffer slot per open reader. */
module Datastores {
  import opened Bits
  import opened FileStores

  const SIZE_MAX: nat := 0xFFFF_FFFF_FFFF_FFFF
  const TWO_64: nat := 0x1_0000_0000_0000_0000
  // Offsets are signed.
  const OFFSET_LIMIT: nat := 0x8000_0000_0000_0000
  const UINT8_MAX: nat := 255
  const MAX_READERS: nat := 25

  // ---- handles ----

  datatype ReadHandle = ReadHandle(position: nat, end: nat, fileID: nat, fd: int, buffer: nat)
  {
    predicate IsValid() {
      fd != -1 && fileID != 0 && buffer != UINT8_MAX
    }

    predicate IsDone() {
      if end == 0 then position == SIZE_MAX else position >= end
    }
  }

  datatype WriteHandle = WriteHandle(tempPosition: nat, fileID: nat, targetfd: int, tempfd: int, buffer: nat, done: bool)
  {
    predicate IsValid() {
      fileID != 0 && targetfd != -1 && tempfd != -1 && buffer != UINT8_MAX
    }
  }

  const NO_READ := ReadHandle(0, 0, 0, -1, UINT8_MAX)
  const NO_WRITE := WriteHandle(0, 0, -1, -1, UINT8_MAX, false)

  // ---- the operations ----

  // The file system and the locked buffer slots, with who locked them.
  datatype Store = Store(fs: Fs, slots: map<nat, nat>)

  // The result of an operation, and the results its callback was given.
  datatype Reply = Reply(store: Store, ok: bool, calls: seq<bool>)

  /** createFile: the file is opened exclusively and closed again. */
  function CreateFile(s: Store, id: nat): Reply {
    var file := OpenExclusive(s.fs, Target(id), Creator);
    if file.fd == -1 then Reply(s, false, [false]) else Reply(s.(fs := Close(file.fs, file.fd)), true, [true])
  }

  /** deleteFile */
  function DeleteFile(s: Store, id: nat): Reply {
    if Target(id) in s.fs.names then Reply(s.(fs := Unlink(s.fs, Target(id))), true, [true])
    else Reply(s, false, [false])
  }

  // The first free buffer slot from i on, or MAX_READERS.
  function FreeSlot(slots: map<nat, nat>, i: nat): (k: nat)
    requires i <= MAX_READERS
    ensures i <= k <= MAX_READERS && (k < MAX_READERS ==> k !in slots)
    ensures forall j :: i <= j < k ==> j in slots
    decreases MAX_READERS - i
  {
    if i == MAX_READERS || i !in slots then i else FreeSlot(slots, i + 1)
  }

  datatype ReadOpened = ReadOpened(store: Store, handle: ReadHandle, ok: bool)

  /** initRead. When no slot is free the descriptor stays open and nobody has it. */
  function InitRead(s: Store, who: nat, id: nat, begin: nat, end: nat, h: ReadHandle): ReadOpened
  {
    if end != 0 && begin >= end then ReadOpened(s, h, false)
    else
      var file := Open(s.fs, Target(id), ReaderOf(who));
      if file.fd == -1 then ReadOpened(s, h, false)
      else
        var slot := FreeSlot(s.slots, 0);
        if slot == MAX_READERS then ReadOpened(s.(fs := file.fs), h.(buffer := UINT8_MAX), false)
        else
          ReadOpened(Store(file.fs, s.slots[slot := who]),
                     ReadHandle(begin, if end == 0 then SizeOf(s.fs, Target(id)) else end, id, file.fd, slot), true)
  }

  // What the read callback is given.
  datatype Chunk = Chunk(data: seq<Byte>, success: bool, isLast: bool)

  datatype ReadDone = ReadDone(handle: ReadHandle, chunk: Chunk, ok: bool)

  function Min(a: nat, b: nat): nat {
    if a < b then a else b
  }

  /** readFile */
  function ReadFile(s: Store, h: ReadHandle, chunkSize: nat): ReadDone {
    if !h.IsValid() || h.IsDone() || !IsOpen(s.fs, h.fd) then ReadDone(h, Chunk([], false, true), false)
    else
      var request := Min(chunkSize, (h.end - h.position) % TWO_64);
      var data := Pread(s.fs, h.fd, request, h.position);
      var position := h.position + |data|;
      var isLast := |data| == 0 || position >= h.end;
      ReadDone(h.(position := if isLast then SIZE_MAX else position), Chunk(data, true, isLast), true)
  }

  datatype ReadClosed = ReadClosed(store: Store, handle: ReadHandle, ok: bool, calls: seq<bool>)

  /** closeRead. A valid handle is closed without a callback. */
  function CloseRead(s: Store, h: ReadHandle): ReadClosed {
    if !h.IsValid() then ReadClosed(s, h, false, [false])
    else ReadClosed(Store(Close(s.fs, h.fd), s.slots - {h.buffer}), h.(fd := -1), true, [])
  }

  datatype WriteOpened = WriteOpened(store: Store, handle: WriteHandle, ok: bool)

  /** initWrite. The flag of a finished handle is not reset. */
  function InitWrite(s: Store, who: nat, id: nat, h: WriteHandle): WriteOpened {
    var target := Open(s.fs, Target(id), TargetOf(who));
    if target.fd == -1 then WriteOpened(s, h, false)
    else
      var temp := OpenTruncated(target.fs, Temp(id), TempOf(who));
      WriteOpened(s.(fs := temp.fs), WriteHandle(0, id, target.fd, temp.fd, 0, h.done), true)
  }

  datatype Written = Written(store: Store, handle: WriteHandle, ok: bool)

  /** writeFile */
  function WriteFile(s: Store, h: WriteHandle, isLast: bool, data: seq<Byte>): Written {
    if !h.IsValid() || h.done || !IsOpen(s.fs, h.tempfd) then Written(s, h, false)
    else
      Written(s.(fs := Pwrite(s.fs, h.tempfd, data, h.tempPosition)),
              h.(tempPosition := h.tempPosition + |data|, done := h.done || isLast), true)
  }

  datatype WriteClosed = WriteClosed(store: Store, handle: WriteHandle, ok: bool, calls: seq<bool>)

  // The names after a revert or a commit.
  function Settled(fs: Fs, id: nat, revert: bool): Fs {
    if revert then Unlink(fs, Temp(id))
    else
      var gone := Unlink(fs, Target(id));
      if Temp(id) in gone.names then Rename(gone, Temp(id), Target(id)) else gone
  }

  /** closeWrite. The callback is told of success before anything is done. */
  function CloseWrite(s: Store, h: WriteHandle, revert: bool): WriteClosed {
    if !h.IsValid() then WriteClosed(s, h, false, [true, false])
    else
      var fs := Settled(s.fs, h.fileID, revert);
      WriteClosed(s.(fs := Close(Close(fs, h.targetfd), h.tempfd)), h.(targetfd := -1, tempfd := -1),
                  Temp(h.fileID) in s.fs.names && (revert || Target(h.fileID) in s.fs.names), [true])
  }

  // ---- what callbacks are told ----

  /** createFile and deleteFile tell their callback the result they return, once. closeRead tells it
      of failure only, and closeWrite tells it of success first and then perhaps of failure. */
  lemma {:induction false} CallbacksTold(s: Store, id: nat, h: ReadHandle, g: WriteHandle, revert: bool, chunkSize: nat)
    ensures CreateFile(s, id).calls == [CreateFile(s, id).ok]
    ensures DeleteFile(s, id).calls == [DeleteFile(s, id).ok]
    ensures CloseRead(s, h).calls == if h.IsValid() then [] else [false]
    ensures CloseWrite(s, g, revert).calls == if g.IsValid() then [true] else [true, false]
    ensures ReadFile(s, h, chunkSize).ok ==> ReadFile(s, h, chunkSize).chunk.success
    ensures !ReadFile(s, h, chunkSize).ok ==> ReadFile(s, h, chunkSize) == ReadDone(h, Chunk([], false, true), false)
    ensures ReadFile(s, h, chunkSize).ok <==>
        h.fd != -1 && h.fileID != 0 && h.buffer != 255 && IsOpen(s.fs, h.fd)
        && (h.position < h.end || (h.end == 0 && h.position != 0xFFFF_FFFF_FFFF_FFFF))
  {
  }

  /** What files are there after creating and deleting one: nothing else changes. */
  lemma {:induction false} NamesAfter(s: Store, id: nat)
    ensures CreateFile(s, id).ok <==> Target(id) !in s.fs.names
    ensures DeleteFile(s, id).ok <==> Target(id) in s.fs.names
    ensures CreateFile(s, id).ok ==> CreateFile(s, id).store.fs.names.Keys == s.fs.names.Keys + {Target(id)}
    ensures CreateFile(s, id).ok ==> SizeOf(CreateFile(s, id).store.fs, Target(id)) == 0
    ensures DeleteFile(s, id).store.fs.names == s.fs.names - {Target(id)}
    ensures forall n :: n in s.fs.names ==> n in CreateFile(s, id).store.fs.names && CreateFile(s, id).store.fs.names[n] == s.fs.names[n]
  {
  }

  /** A write handle that has had its last piece stays finished when it is opened again, and then
      accepts nothing. */
  lemma {:induction false} FinishedStaysFinished(s: Store, who: nat, id: nat, h: WriteHandle, isLast: bool, data: seq<Byte>)
    requires h.done
    ensures InitWrite(s, who, id, h).handle.done
    ensures WriteFile(s, h, isLast, data) == Written(s, h, false)
  {
  }

  /** initRead succeeds exactly if the range is not empty from the start, the file exists and a buffer
      slot is free; then the handle is at the beginning of the range. */
  lemma {:induction false} OpenedExactly(s: Store, who: nat, id: nat, begin: nat, end: nat, h: ReadHandle)
    ensures InitRead(s, who, id, begin, end, h).ok <==>
      (end == 0 || begin < end) && Target(id) in s.fs.names && exists k :: 0 <= k < 25 && k !in s.slots
    ensures InitRead(s, who, id, begin, end, h).ok ==>
      var r := InitRead(s, who, id, begin, end, h).handle;
      r.position == begin && r.fileID == id && r.end == if end == 0 then SizeOf(s.fs, Target(id)) else end
  {
  }

  /** closeWrite reports success exactly for a valid handle whose temporary file is there and, for a
      commit, whose file is there too. */
  lemma {:induction false} ClosedExactly(s: Store, h: WriteHandle, revert: bool)
    ensures CloseWrite(s, h, revert).ok <==>
      h.IsValid() && Temp(h.fileID) in s.fs.names && (revert || Target(h.fileID) in s.fs.names)
    ensures h.IsValid() ==> Temp(h.fileID) !in CloseWrite(s, h, revert).store.fs.names
    ensures h.IsValid() && !revert && Temp(h.fileID) in s.fs.names ==>
      Target(h.fileID) in CloseWrite(s, h, revert).store.fs.names
      && CloseWrite(s, h, revert).store.fs.names[Target(h.fileID)] == s.fs.names[Temp(h.fileID)]
  {
  }
}
