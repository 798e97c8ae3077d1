/** Runs of the datastore: any number of handles, their operations in any order. Beside the store
    and the handles a state remembers what each reader was opened on and was given, and what each
    writer wrote; no step reads that. */
module DatastoreRuns {
  import opened Bits
  import opened FileStores
  import opened Datastores

  // A read handle; the bytes its file had when it was opened; the bytes given to its callbacks,
  // and how often one of them was the last.
  datatype Reader = Reader(h: ReadHandle, begin: nat, snap: seq<Byte>, given: seq<Byte>, lasts: nat)

  // A write handle, and the bytes written through it.
  datatype Writer = Writer(h: WriteHandle, written: seq<Byte>)

  datatype State = State(store: Store, readers: map<nat, Reader>, writers: map<nat, Writer>)

  function ReaderAt(s: State, r: nat): Reader {
    if r in s.readers then s.readers[r] else Reader(NO_READ, 0, [], [], 0)
  }

  function WriterAt(s: State, w: nat): Writer {
    if w in s.writers then s.writers[w] else Writer(NO_WRITE, [])
  }

  datatype Step =
    | Create(id: nat)
    | Delete(id: nat)
    | OpenRead(r: nat, id: nat, begin: nat, end: nat)
    | Read(r: nat, chunkSize: nat)
    | EndRead(r: nat)
    | OpenWrite(w: nat, id: nat)
    | Write(w: nat, isLast: bool, data: seq<Byte>)
    | EndWrite(w: nat, revert: bool)

  // ---- the steps ----

  function ContentOf(fs: Fs, n: Name): seq<Byte> {
    if n in fs.names && fs.names[n] in fs.bytes then fs.bytes[fs.names[n]] else []
  }

  // A reader after initRead.
  function ReaderOpened(s: Store, reader: Reader, r: nat, id: nat, begin: nat, end: nat): Reader {
    var o := InitRead(s, r, id, begin, end, reader.h);
    if o.ok then Reader(o.handle, begin, ContentOf(s.fs, Target(id)), [], 0) else reader.(h := o.handle)
  }

  // ... and after readFile.
  function ReaderRead(s: Store, reader: Reader, chunkSize: nat): Reader {
    var d := ReadFile(s, reader.h, chunkSize);
    reader.(h := d.handle, given := reader.given + d.chunk.data,
            lasts := reader.lasts + (if d.ok && d.chunk.isLast then 1 else 0))
  }

  function Next(s: State, step: Step): State {
    match step
    case Create(id) => s.(store := CreateFile(s.store, id).store)
    case Delete(id) => s.(store := DeleteFile(s.store, id).store)
    case OpenRead(r, id, begin, end) =>
      var reader := ReaderAt(s, r);
      State(InitRead(s.store, r, id, begin, end, reader.h).store,
            s.readers[r := ReaderOpened(s.store, reader, r, id, begin, end)], s.writers)
    case Read(r, chunkSize) => s.(readers := s.readers[r := ReaderRead(s.store, ReaderAt(s, r), chunkSize)])
    case EndRead(r) =>
      var reader := ReaderAt(s, r);
      var c := CloseRead(s.store, reader.h);
      State(c.store, s.readers[r := reader.(h := c.handle)], s.writers)
    case OpenWrite(w, id) =>
      var writer := WriterAt(s, w);
      var o := InitWrite(s.store, w, id, writer.h);
      State(o.store, s.readers, s.writers[w := if o.ok then Writer(o.handle, []) else writer])
    case Write(w, isLast, data) =>
      var writer := WriterAt(s, w);
      var d := WriteFile(s.store, writer.h, isLast, data);
      State(d.store, s.readers, s.writers[w := Writer(d.handle, if d.ok then writer.written + data else writer.written)])
    case EndWrite(w, revert) =>
      var writer := WriterAt(s, w);
      var c := CloseWrite(s.store, writer.h, revert);
      State(c.store, s.readers, s.writers[w := writer.(h := c.handle)])
  }

  // A datastore that is opened on a directory.
  function OnDirectory(fs: Fs): State {
    State(Store(fs, map[]), map[], map[])
  }

  // The directory may be empty.
  function Init(): State {
    OnDirectory(Fs(map[], map[], map[], 0, 0))
  }

  function Run(start: State, steps: seq<Step>): State {
    if steps == [] then start else Next(Run(start, steps[..|steps| - 1]), steps[|steps| - 1])
  }

  // ---- what callers owe ----

  // No other live write handle is for the file.
  ghost predicate NoWriterFor(s: State, id: nat) {
    forall w :: w in s.writers && s.writers[w].h.IsValid() ==> s.writers[w].h.fileID != id
  }

  /** At most one live write handle per file, handles closed before they are used again, nonzero
      ids and chunk sizes, and offsets that fit. */
  ghost predicate Allowed(s: State, step: Step) {
    match step
    case OpenRead(r, id, begin, end) =>
      !ReaderAt(s, r).h.IsValid() && id != 0 && begin < OFFSET_LIMIT && end < OFFSET_LIMIT
    case Read(_, chunkSize) => chunkSize > 0
    case OpenWrite(w, id) => !WriterAt(s, w).h.IsValid() && id != 0 && NoWriterFor(s, id)
    case Write(w, _, data) => |WriterAt(s, w).written| + |data| < OFFSET_LIMIT
    case _ => true
  }

  /** A run of allowed steps, from any sound state. */
  ghost predicate IsRun(start: State, steps: seq<Step>) {
    if steps == [] then Sound(start)
    else IsRun(start, steps[..|steps| - 1]) && Allowed(Run(start, steps[..|steps| - 1]), steps[|steps| - 1])
  }

  // ---- what every run keeps ----

  // Names stand for existing inodes, different names for different ones.
  ghost predicate FsOk(fs: Fs) {
    && (forall n :: n in fs.names ==> fs.names[n] in fs.bytes)
    && (forall m, n :: m in fs.names && n in fs.names && fs.names[m] == fs.names[n] ==> m == n)
    && (forall i :: i in fs.bytes ==> i < fs.nextInode && |fs.bytes[i]| < OFFSET_LIMIT)
    && (forall fd :: fd in fs.fds ==> fd < fs.nextFd && fs.fds[fd].inode in fs.bytes)
  }

  // No file that is being written is open for reading.
  ghost predicate Isolated(fs: Fs) {
    forall fd, id :: fd in fs.fds && fs.fds[fd].role.ReaderOf? && Temp(id) in fs.names ==>
      fs.names[Temp(id)] != fs.fds[fd].inode
  }

  // Where the reader's range ends.
  function RangeEnd(reader: Reader): nat {
    if reader.begin <= reader.h.end then reader.h.end else reader.begin
  }

  // What the reader was given so far, and whether it was told that this is all.
  predicate Progress(reader: Reader) {
    && reader.h.end < OFFSET_LIMIT && reader.begin < OFFSET_LIMIT && |reader.snap| < OFFSET_LIMIT
    && (reader.h.end == 0 ==> reader.snap == [])
    && (reader.lasts == 0 || reader.lasts == 1)
    && (reader.lasts == 0 ==>
          && reader.begin <= reader.h.position && reader.h.position < OFFSET_LIMIT
          && (reader.h.position == reader.begin || reader.h.position < reader.h.end)
          && reader.given == Slice(reader.snap, reader.begin, reader.h.position)
          && (reader.begin < reader.h.position ==> reader.h.position <= |reader.snap|))
    && (reader.lasts == 1 ==>
          reader.h.position == SIZE_MAX && reader.given == Slice(reader.snap, reader.begin, RangeEnd(reader)))
  }

  // A live reader reads the bytes it was opened on, through its own descriptor and slot.
  ghost predicate ReaderOk(fs: Fs, slots: map<nat, nat>, r: nat, reader: Reader) {
    && Progress(reader)
    && (reader.h.IsValid() ==>
          && IsOpen(fs, reader.h.fd) && fs.fds[reader.h.fd].role == ReaderOf(r)
          && fs.bytes[fs.fds[reader.h.fd].inode] == reader.snap
          && reader.h.buffer < MAX_READERS && reader.h.buffer in slots && slots[reader.h.buffer] == r)
  }

  // A live writer has the temporary file of its id, which holds what it wrote.
  ghost predicate WriterOk(fs: Fs, w: nat, writer: Writer) {
    writer.h.IsValid() ==>
      && IsOpen(fs, writer.h.tempfd) && fs.fds[writer.h.tempfd].role == TempOf(w)
      && writer.h.targetfd in fs.fds && fs.fds[writer.h.targetfd].role == TargetOf(w)
      && Temp(writer.h.fileID) in fs.names && fs.names[Temp(writer.h.fileID)] == fs.fds[writer.h.tempfd].inode
      && fs.bytes[fs.fds[writer.h.tempfd].inode] == writer.written && writer.h.tempPosition == |writer.written|
  }

  ghost predicate OneWriterEach(writers: map<nat, Writer>) {
    forall v, w :: v in writers && w in writers && v != w && writers[v].h.IsValid() && writers[w].h.IsValid() ==>
      writers[v].h.fileID != writers[w].h.fileID
  }

  /** What every run keeps. */
  ghost predicate Sound(s: State) {
    && FsOk(s.store.fs) && Isolated(s.store.fs) && OneWriterEach(s.writers)
    && (forall r :: r in s.readers ==> ReaderOk(s.store.fs, s.store.slots, r, s.readers[r]))
    && (forall w :: w in s.writers ==> WriterOk(s.store.fs, w, s.writers[w]))
  }

  /** A datastore opened on a directory is sound, whatever files there are, a temporary one left by
      a former run among them. */
  lemma {:induction false} OnDirectorySound(fs: Fs)
    requires FsOk(fs) && fs.fds == map[]
    ensures Sound(OnDirectory(fs))
  {
  }

  // A handle that was never opened.
  lemma {:induction false} NobodyOk(s: State, r: nat, w: nat)
    requires Sound(s)
    ensures ReaderOk(s.store.fs, s.store.slots, r, ReaderAt(s, r)) && WriterOk(s.store.fs, w, WriterAt(s, w))
  {
  }

  // ---- progress of one reader ----

  lemma {:induction false} SliceFrom(s: seq<Byte>, a: nat, b: nat, c: nat)
    requires a <= b <= c
    ensures Slice(s, a, b) + Slice(s, b, c) == Slice(s, a, c)
  {
  }

  lemma {:induction false} SliceLength(s: seq<Byte>, a: nat, b: nat)
    requires a <= b
    ensures |Slice(s, a, b)| == if a >= |s| then 0 else if b >= |s| then |s| - a else b - a
  {
  }

  // Nothing is left of the file.
  lemma {:induction false} SliceBeyond(s: seq<Byte>, a: nat, b: nat, c: nat)
    requires a <= b && a <= c && (b >= |s| || b == c) && (c >= |s| || b == c)
    ensures Slice(s, a, b) == Slice(s, a, c)
  {
  }

  lemma {:induction false} OpenProgress(h: ReadHandle, begin: nat, snap: seq<Byte>)
    requires h.position == begin < OFFSET_LIMIT && h.end < OFFSET_LIMIT && |snap| < OFFSET_LIMIT
    requires h.end == 0 ==> snap == []
    ensures Progress(Reader(h, begin, snap, [], 0))
  {
    SliceLength(snap, begin, begin);
  }

  // The request of an unfinished read of a file that is not empty.
  lemma {:induction false} Requested(position: nat, end: nat, chunkSize: nat)
    requires position < end < OFFSET_LIMIT && chunkSize > 0
    ensures 0 < Min(chunkSize, (end - position) % TWO_64) <= end - position
  {
  }

  // Data from p on, up to where they end.
  lemma {:induction false} SliceEnds(s: seq<Byte>, p: nat, request: nat)
    ensures var data := Slice(s, p, p + request);
      data == Slice(s, p, p + |data|) && (|data| == 0 && request > 0 ==> p >= |s|) && (|data| > 0 ==> p + |data| <= |s|)
  {
  }

  // A reader that was given the next data.
  function Given(reader: Reader, data: seq<Byte>): Reader {
    var position := reader.h.position + |data|;
    var isLast := |data| == 0 || position >= reader.h.end;
    reader.(h := reader.h.(position := if isLast then SIZE_MAX else position), given := reader.given + data,
            lasts := reader.lasts + (if isLast then 1 else 0))
  }

  lemma {:induction false} GivenProgress(reader: Reader, request: nat)
    requires Progress(reader) && reader.lasts == 0 && reader.h.position < reader.h.end
    requires 0 < request <= reader.h.end - reader.h.position
    ensures Progress(Given(reader, Slice(reader.snap, reader.h.position, reader.h.position + request)))
  {
    var p, data := reader.h.position, Slice(reader.snap, reader.h.position, reader.h.position + request);
    SliceLength(reader.snap, p, p + request);
    SliceEnds(reader.snap, p, request);
    if data == [] {
      SliceBeyond(reader.snap, reader.begin, p, reader.h.end);
      EmptyProgress(reader);
    } else {
      SliceFrom(reader.snap, reader.begin, p, p + |data|);
      MoreProgress(reader, data);
    }
  }

  lemma {:induction false} EmptyProgress(reader: Reader)
    requires Progress(reader) && reader.lasts == 0 && reader.h.position < reader.h.end
    requires Slice(reader.snap, reader.begin, reader.h.position) == Slice(reader.snap, reader.begin, reader.h.end)
    ensures Progress(Given(reader, []))
  {
    assert reader.given + [] == reader.given;
  }

  lemma {:induction false} MoreProgress(reader: Reader, data: seq<Byte>)
    requires Progress(reader) && reader.lasts == 0 && data != []
    requires reader.h.position + |data| <= reader.h.end && reader.h.position + |data| <= |reader.snap|
    requires reader.given + data == Slice(reader.snap, reader.begin, reader.h.position + |data|)
    ensures Progress(Given(reader, data))
  {
  }

  lemma {:induction false} NothingGiven(reader: Reader)
    requires Progress(reader) && reader.lasts == 0 && reader.h.end == 0
    ensures Progress(Given(reader, []))
  {
  }

  // A refused call, a call that reads, and what the latter's request is.
  lemma {:induction false} RefusedGives(s: Store, reader: Reader, chunkSize: nat)
    requires !ReadFile(s, reader.h, chunkSize).ok
    ensures ReaderRead(s, reader, chunkSize) == reader
  {
  }

  lemma {:induction false} AcceptedGives(s: Store, reader: Reader, chunkSize: nat)
    requires ReadFile(s, reader.h, chunkSize).ok && s.fs.bytes[s.fs.fds[reader.h.fd].inode] == reader.snap
    ensures !reader.h.IsDone()
    ensures ReaderRead(s, reader, chunkSize)
         == Given(reader, Slice(reader.snap, reader.h.position,
                                reader.h.position + Min(chunkSize, (reader.h.end - reader.h.position) % TWO_64)))
  {
  }

  lemma {:induction false} UnfinishedProgress(reader: Reader, chunkSize: nat)
    requires Progress(reader) && !reader.h.IsDone() && chunkSize > 0
    ensures Progress(Given(reader, Slice(reader.snap, reader.h.position,
                                         reader.h.position + Min(chunkSize, (reader.h.end - reader.h.position) % TWO_64))))
  {
    if reader.h.end > 0 {
      Requested(reader.h.position, reader.h.end, chunkSize);
      GivenProgress(reader, Min(chunkSize, (reader.h.end - reader.h.position) % TWO_64));
    } else {
      NothingGiven(reader);
    }
  }

  /** One call of readFile: it gives the next bytes of the snapshot, and says that they are the
      last exactly when the range has been given in full. */
  lemma {:induction false} ReadProgress(s: Store, reader: Reader, chunkSize: nat)
    requires Progress(reader) && chunkSize > 0
    requires reader.h.IsValid() ==> IsOpen(s.fs, reader.h.fd) && s.fs.bytes[s.fs.fds[reader.h.fd].inode] == reader.snap
    ensures Progress(ReaderRead(s, reader, chunkSize))
  {
    if ReadFile(s, reader.h, chunkSize).ok {
      AcceptedGives(s, reader, chunkSize);
      UnfinishedProgress(reader, chunkSize);
    } else {
      RefusedGives(s, reader, chunkSize);
    }
  }

  /** A chunk size of 0 ends the read: nothing is given and it is called the last. */
  lemma {:induction false} EmptyChunkEnds(s: Store, h: ReadHandle)
    requires ReadFile(s, h, 0).ok && h.end <= SIZE_MAX
    ensures ReadFile(s, h, 0).chunk == Chunk([], true, true) && ReadFile(s, h, 0).handle.IsDone()
  {
  }

  /** A finished reader is refused and keeps what it has. */
  lemma {:induction false} FinishedRefuses(s: Store, reader: Reader, chunkSize: nat)
    requires Progress(reader) && reader.lasts == 1
    ensures !ReadFile(s, reader.h, chunkSize).ok && ReadFile(s, reader.h, chunkSize).chunk == Chunk([], false, true)
    ensures ReaderRead(s, reader, chunkSize) == reader
  {
  }

  // ---- every step keeps it ----

  // The parts of the file system that a live reader and a live writer depend on are as before.
  ghost predicate ReaderFramed(fs: Fs, fs': Fs, slots: map<nat, nat>, slots': map<nat, nat>, h: ReadHandle) {
    h.IsValid() && IsOpen(fs, h.fd) && h.buffer in slots ==>
      && h.fd in fs'.fds && fs'.fds[h.fd] == fs.fds[h.fd]
      && fs.fds[h.fd].inode in fs'.bytes && fs'.bytes[fs.fds[h.fd].inode] == fs.bytes[fs.fds[h.fd].inode]
      && h.buffer in slots' && slots'[h.buffer] == slots[h.buffer]
  }

  ghost predicate WriterFramed(fs: Fs, fs': Fs, h: WriteHandle) {
    h.IsValid() && IsOpen(fs, h.tempfd) && h.targetfd in fs.fds && Temp(h.fileID) in fs.names ==>
      && h.tempfd in fs'.fds && fs'.fds[h.tempfd] == fs.fds[h.tempfd]
      && h.targetfd in fs'.fds && fs'.fds[h.targetfd] == fs.fds[h.targetfd]
      && Temp(h.fileID) in fs'.names && fs'.names[Temp(h.fileID)] == fs.names[Temp(h.fileID)]
      && fs.fds[h.tempfd].inode in fs'.bytes && fs'.bytes[fs.fds[h.tempfd].inode] == fs.bytes[fs.fds[h.tempfd].inode]
  }

  // A state whose file system is sound, whose readers and writers but one are framed, and the one
  // is sound by itself, is sound.
  lemma {:induction false} SoundWithReader(s: State, store: Store, r: nat, reader: Reader)
    requires Sound(s) && FsOk(store.fs) && Isolated(store.fs)
    requires ReaderOk(store.fs, store.slots, r, reader)
    requires forall q :: q in s.readers && q != r ==> ReaderFramed(s.store.fs, store.fs, s.store.slots, store.slots, s.readers[q].h)
    requires forall w :: w in s.writers ==> WriterFramed(s.store.fs, store.fs, s.writers[w].h)
    ensures Sound(State(store, s.readers[r := reader], s.writers))
  {
    forall q | q in s.readers && q != r ensures ReaderOk(store.fs, store.slots, q, s.readers[q]) {
      assert ReaderOk(s.store.fs, s.store.slots, q, s.readers[q]);
    }
    forall w | w in s.writers ensures WriterOk(store.fs, w, s.writers[w]) {
      assert WriterOk(s.store.fs, w, s.writers[w]);
    }
  }

  lemma {:induction false} SoundWithWriter(s: State, store: Store, w: nat, writer: Writer)
    requires Sound(s) && FsOk(store.fs) && Isolated(store.fs)
    requires WriterOk(store.fs, w, writer)
    requires forall v :: v in s.writers && v != w && s.writers[v].h.IsValid() && writer.h.IsValid() ==>
      s.writers[v].h.fileID != writer.h.fileID
    requires forall r :: r in s.readers ==> ReaderFramed(s.store.fs, store.fs, s.store.slots, store.slots, s.readers[r].h)
    requires forall v :: v in s.writers && v != w ==> WriterFramed(s.store.fs, store.fs, s.writers[v].h)
    ensures Sound(State(store, s.readers, s.writers[w := writer]))
  {
    forall q | q in s.readers ensures ReaderOk(store.fs, store.slots, q, s.readers[q]) {
      assert ReaderOk(s.store.fs, s.store.slots, q, s.readers[q]);
    }
    forall v | v in s.writers && v != w ensures WriterOk(store.fs, v, s.writers[v]) {
      assert WriterOk(s.store.fs, v, s.writers[v]);
    }
  }

  lemma {:induction false} SoundWithStore(s: State, store: Store)
    requires Sound(s) && FsOk(store.fs) && Isolated(store.fs)
    requires forall r :: r in s.readers ==> ReaderFramed(s.store.fs, store.fs, s.store.slots, store.slots, s.readers[r].h)
    requires forall v :: v in s.writers ==> WriterFramed(s.store.fs, store.fs, s.writers[v].h)
    ensures Sound(s.(store := store))
  {
    forall q | q in s.readers ensures ReaderOk(store.fs, store.slots, q, s.readers[q]) {
      assert ReaderOk(s.store.fs, s.store.slots, q, s.readers[q]);
    }
    forall v | v in s.writers ensures WriterOk(store.fs, v, s.writers[v]) {
      assert WriterOk(s.store.fs, v, s.writers[v]);
    }
  }

  // ---- files ----

  lemma {:induction false} NewFsOk(fs: Fs, n: Name)
    requires FsOk(fs) && Isolated(fs) && n !in fs.names
    ensures FsOk(WithNew(fs, n)) && Isolated(WithNew(fs, n))
  {
  }

  lemma {:induction false} CreateFrames(s: Store, id: nat, h: ReadHandle, g: WriteHandle)
    requires FsOk(s.fs)
    ensures var fs := CreateFile(s, id).store.fs;
      ReaderFramed(s.fs, fs, s.slots, s.slots, h) && WriterFramed(s.fs, fs, g)
  {
  }

  lemma {:induction false} CreateSound(s: State, id: nat)
    requires Sound(s)
    ensures Sound(Next(s, Create(id)))
  {
    var fs := s.store.fs;
    if Target(id) !in fs.names {
      NewFsOk(fs, Target(id));
      OpenFsOk(WithNew(fs, Target(id)), Target(id), Creator);
      CloseFsOk(Open(WithNew(fs, Target(id)), Target(id), Creator).fs, fs.nextFd);
    }
    var store := CreateFile(s.store, id).store;
    forall r | r in s.readers ensures ReaderFramed(fs, store.fs, s.store.slots, store.slots, s.readers[r].h) {
      CreateFrames(s.store, id, s.readers[r].h, NO_WRITE);
    }
    forall w | w in s.writers ensures WriterFramed(fs, store.fs, s.writers[w].h) {
      CreateFrames(s.store, id, NO_READ, s.writers[w].h);
    }
    SoundWithStore(s, CreateFile(s.store, id).store);
  }

  lemma {:induction false} DeleteSound(s: State, id: nat)
    requires Sound(s)
    ensures Sound(Next(s, Delete(id)))
  {
    SoundWithStore(s, DeleteFile(s.store, id).store);
  }

  // ---- readers ----

  lemma {:induction false} OpenFsOk(fs: Fs, n: Name, role: Role)
    requires FsOk(fs) && Isolated(fs) && (role.ReaderOf? ==> n.Target?)
    ensures FsOk(Open(fs, n, role).fs) && Isolated(Open(fs, n, role).fs)
  {
  }

  lemma {:induction false} OpenedReaderOk(s: State, r: nat, id: nat, begin: nat, end: nat)
    requires Sound(s) && Allowed(s, OpenRead(r, id, begin, end))
    ensures var store := InitRead(s.store, r, id, begin, end, ReaderAt(s, r).h).store;
      ReaderOk(store.fs, store.slots, r, ReaderOpened(s.store, ReaderAt(s, r), r, id, begin, end))
  {
    NobodyOk(s, r, 0);
    var o := InitRead(s.store, r, id, begin, end, ReaderAt(s, r).h);
    if o.ok {
      OpenProgress(o.handle, begin, ContentOf(s.store.fs, Target(id)));
    }
  }

  // Opening a file and locking a free slot disturbs nobody.
  lemma {:induction false} OpenFrames(fs: Fs, n: Name, role: Role, slots: map<nat, nat>, slot: nat, who: nat, h: ReadHandle, g: WriteHandle)
    requires FsOk(fs) && slot !in slots
    ensures ReaderFramed(fs, Open(fs, n, role).fs, slots, slots[slot := who], h)
    ensures ReaderFramed(fs, Open(fs, n, role).fs, slots, slots, h)
    ensures WriterFramed(fs, Open(fs, n, role).fs, g)
  {
  }

  lemma {:induction false} OpenReadFrames(s: Store, r: nat, id: nat, begin: nat, end: nat, handle: ReadHandle, h: ReadHandle, g: WriteHandle)
    requires FsOk(s.fs)
    ensures var o := InitRead(s, r, id, begin, end, handle);
      ReaderFramed(s.fs, o.store.fs, s.slots, o.store.slots, h) && WriterFramed(s.fs, o.store.fs, g)
  {
    var slot := FreeSlot(s.slots, 0);
    if slot < MAX_READERS {
      OpenFrames(s.fs, Target(id), ReaderOf(r), s.slots, slot, r, h, g);
    }
  }

  lemma {:induction false} OpenReadSound(s: State, r: nat, id: nat, begin: nat, end: nat)
    requires Sound(s) && Allowed(s, OpenRead(r, id, begin, end))
    ensures Sound(Next(s, OpenRead(r, id, begin, end)))
  {
    OpenedReaderOk(s, r, id, begin, end);
    OpenFsOk(s.store.fs, Target(id), ReaderOf(r));
    var h := ReaderAt(s, r).h;
    var store := InitRead(s.store, r, id, begin, end, h).store;
    forall q | q in s.readers ensures ReaderFramed(s.store.fs, store.fs, s.store.slots, store.slots, s.readers[q].h) {
      OpenReadFrames(s.store, r, id, begin, end, h, s.readers[q].h, NO_WRITE);
    }
    forall w | w in s.writers ensures WriterFramed(s.store.fs, store.fs, s.writers[w].h) {
      OpenReadFrames(s.store, r, id, begin, end, h, NO_READ, s.writers[w].h);
    }
    SoundWithReader(s, store, r, ReaderOpened(s.store, ReaderAt(s, r), r, id, begin, end));
  }

  lemma {:induction false} ReadSound(s: State, r: nat, chunkSize: nat)
    requires Sound(s) && chunkSize > 0
    ensures Sound(Next(s, Read(r, chunkSize)))
  {
    NobodyOk(s, r, 0);
    ReadProgress(s.store, ReaderAt(s, r), chunkSize);
    SoundWithReader(s, s.store, r, ReaderRead(s.store, ReaderAt(s, r), chunkSize));
  }

  lemma {:induction false} CloseFsOk(fs: Fs, fd: int)
    requires FsOk(fs) && Isolated(fs)
    ensures FsOk(Close(fs, fd)) && Isolated(Close(fs, fd))
  {
  }

  lemma {:induction false} EndReadSound(s: State, r: nat)
    requires Sound(s)
    ensures Sound(Next(s, EndRead(r)))
  {
    NobodyOk(s, r, 0);
    var reader := ReaderAt(s, r);
    var c := CloseRead(s.store, reader.h);
    CloseFsOk(s.store.fs, reader.h.fd);
    forall q | q in s.readers && q != r ensures ReaderFramed(s.store.fs, c.store.fs, s.store.slots, c.store.slots, s.readers[q].h) {
      assert ReaderOk(s.store.fs, s.store.slots, q, s.readers[q]);
    }
    forall w | w in s.writers ensures WriterFramed(s.store.fs, c.store.fs, s.writers[w].h) {
      assert WriterOk(s.store.fs, w, s.writers[w]);
    }
    SoundWithReader(s, c.store, r, reader.(h := c.handle));
  }

  // ---- writers ----

  // The temporary file, emptied or new.
  function WithTemp(fs: Fs, id: nat): Fs {
    if Temp(id) in fs.names then fs.(bytes := fs.bytes[fs.names[Temp(id)] := []]) else WithNew(fs, Temp(id))
  }

  lemma {:induction false} TempFsOk(fs: Fs, id: nat)
    requires FsOk(fs) && Isolated(fs)
    ensures FsOk(WithTemp(fs, id)) && Isolated(WithTemp(fs, id))
  {
    if Temp(id) !in fs.names {
      NewFsOk(fs, Temp(id));
    }
  }

  // It is nobody's but the writer's.
  lemma {:induction false} TempFrames(fs: Fs, id: nat, slots: map<nat, nat>, r: nat, reader: Reader, w: nat, writer: Writer)
    requires FsOk(fs) && Isolated(fs)
    requires ReaderOk(fs, slots, r, reader) && WriterOk(fs, w, writer)
    requires writer.h.IsValid() ==> writer.h.fileID != id
    ensures ReaderFramed(fs, WithTemp(fs, id), slots, slots, reader.h)
    ensures WriterFramed(fs, WithTemp(fs, id), writer.h)
  {
  }

  // The three parts of initWrite.
  function InitWriteFs(fs: Fs, w: nat, id: nat): Fs {
    Open(WithTemp(Open(fs, Target(id), TargetOf(w)).fs, id), Temp(id), TempOf(w)).fs
  }

  lemma {:induction false} InitWriteIs(s: Store, w: nat, id: nat, h: WriteHandle)
    requires Target(id) in s.fs.names
    ensures var o := InitWrite(s, w, id, h);
      && o.ok && o.store == Store(InitWriteFs(s.fs, w, id), s.slots)
      && o.handle == WriteHandle(0, id, s.fs.nextFd, s.fs.nextFd + 1, 0, h.done)
  {
  }

  lemma {:induction false} InitWriteFsOk(fs: Fs, w: nat, id: nat)
    requires FsOk(fs) && Isolated(fs)
    ensures FsOk(InitWriteFs(fs, w, id)) && Isolated(InitWriteFs(fs, w, id))
  {
    var target := Open(fs, Target(id), TargetOf(w)).fs;
    OpenFsOk(fs, Target(id), TargetOf(w));
    TempFsOk(target, id);
    OpenFsOk(WithTemp(target, id), Temp(id), TempOf(w));
  }

  lemma {:induction false} InitWriteFrames(fs: Fs, w: nat, id: nat, slots: map<nat, nat>, r: nat, reader: Reader, v: nat, writer: Writer)
    requires FsOk(fs) && Isolated(fs)
    requires ReaderOk(fs, slots, r, reader) && WriterOk(fs, v, writer)
    requires writer.h.IsValid() ==> writer.h.fileID != id
    ensures ReaderFramed(fs, InitWriteFs(fs, w, id), slots, slots, reader.h)
    ensures WriterFramed(fs, InitWriteFs(fs, w, id), writer.h)
  {
    TempFrames(fs, id, slots, r, reader, v, writer);
  }

  lemma {:induction false} OpenedWriterOk(fs: Fs, w: nat, id: nat, done: bool)
    requires FsOk(fs) && Target(id) in fs.names
    ensures WriterOk(InitWriteFs(fs, w, id), w, Writer(WriteHandle(0, id, fs.nextFd, fs.nextFd + 1, 0, done), []))
  {
  }

  lemma {:induction false} OpenWriteSound(s: State, w: nat, id: nat)
    requires Sound(s) && Allowed(s, OpenWrite(w, id))
    ensures Sound(Next(s, OpenWrite(w, id)))
  {
    var writer := WriterAt(s, w);
    NobodyOk(s, 0, w);
    if Target(id) in s.store.fs.names {
      var n := Next(s, OpenWrite(w, id));
      InitWriteIs(s.store, w, id, writer.h);
      InitWriteFsOk(s.store.fs, w, id);
      OpenedWriterOk(s.store.fs, w, id, writer.h.done);
      forall r | r in s.readers ensures ReaderFramed(s.store.fs, n.store.fs, s.store.slots, n.store.slots, s.readers[r].h) {
        InitWriteFrames(s.store.fs, w, id, s.store.slots, r, s.readers[r], 0, Writer(NO_WRITE, []));
      }
      forall v | v in s.writers ensures WriterFramed(s.store.fs, n.store.fs, s.writers[v].h) {
        NobodyOk(s, 0, 0);
        InitWriteFrames(s.store.fs, w, id, s.store.slots, 0, ReaderAt(s, 0), v, s.writers[v]);
      }
      SoundWithWriter(s, n.store, w, n.writers[w]);
    } else {
      SoundWithWriter(s, s.store, w, writer);
    }
  }

  lemma {:induction false} WriteFsOk(fs: Fs, fd: int, bytes: seq<Byte>)
    requires FsOk(fs) && Isolated(fs) && IsOpen(fs, fd) && |bytes| < OFFSET_LIMIT
    ensures var after := fs.(bytes := fs.bytes[fs.fds[fd].inode := bytes]);
      FsOk(after) && Isolated(after)
  {
  }

  lemma {:induction false} WriteFrames(fs: Fs, w: nat, writer: Writer, bytes: seq<Byte>, slots: map<nat, nat>, r: nat, reader: Reader, v: nat, other: Writer)
    requires FsOk(fs) && Isolated(fs) && writer.h.IsValid() && WriterOk(fs, w, writer)
    requires ReaderOk(fs, slots, r, reader) && WriterOk(fs, v, other)
    requires other.h.IsValid() ==> other.h.fileID != writer.h.fileID
    ensures var after := fs.(bytes := fs.bytes[fs.fds[writer.h.tempfd].inode := bytes]);
      ReaderFramed(fs, after, slots, slots, reader.h) && WriterFramed(fs, after, other.h)
  {
  }

  lemma {:induction false} WriteSound(s: State, w: nat, isLast: bool, data: seq<Byte>)
    requires Sound(s) && Allowed(s, Write(w, isLast, data))
    ensures Sound(Next(s, Write(w, isLast, data)))
  {
    var writer, fs := WriterAt(s, w), s.store.fs;
    NobodyOk(s, 0, w);
    var n := Next(s, Write(w, isLast, data));
    if writer.h.IsValid() && !writer.h.done {
      Appended(writer.written, data);
      WriteFsOk(fs, writer.h.tempfd, writer.written + data);
      forall r | r in s.readers ensures ReaderFramed(fs, n.store.fs, s.store.slots, s.store.slots, s.readers[r].h) {
        WriteFrames(fs, w, writer, writer.written + data, s.store.slots, r, s.readers[r], 0, Writer(NO_WRITE, []));
      }
      forall v | v in s.writers && v != w ensures WriterFramed(fs, n.store.fs, s.writers[v].h) {
        NobodyOk(s, 0, 0);
        WriteFrames(fs, w, writer, writer.written + data, s.store.slots, 0, ReaderAt(s, 0), v, s.writers[v]);
      }
    }
    SoundWithWriter(s, n.store, w, n.writers[w]);
  }

  lemma {:induction false} SettledFsOk(fs: Fs, id: nat, revert: bool)
    requires FsOk(fs) && Isolated(fs)
    ensures FsOk(Settled(fs, id, revert)) && Isolated(Settled(fs, id, revert))
  {
  }

  lemma {:induction false} EndWriteFrames(s: Store, w: nat, writer: Writer, revert: bool, r: nat, reader: Reader, v: nat, other: Writer)
    requires FsOk(s.fs) && writer.h.IsValid() && WriterOk(s.fs, w, writer)
    requires ReaderOk(s.fs, s.slots, r, reader) && WriterOk(s.fs, v, other) && v != w
    requires other.h.IsValid() ==> other.h.fileID != writer.h.fileID
    ensures var after := CloseWrite(s, writer.h, revert).store.fs;
      ReaderFramed(s.fs, after, s.slots, s.slots, reader.h) && WriterFramed(s.fs, after, other.h)
  {
  }

  lemma {:induction false} EndWriteSound(s: State, w: nat, revert: bool)
    requires Sound(s)
    ensures Sound(Next(s, EndWrite(w, revert)))
  {
    var writer := WriterAt(s, w);
    var closing := CloseWrite(s.store, writer.h, revert);
    NobodyOk(s, 0, w);
    if writer.h.IsValid() {
      ClosedFsOk(s.store, writer.h, revert);
      EndWriteFramesAll(s, w, writer, revert);
    }
    SoundWithWriter(s, closing.store, w, writer.(h := closing.handle));
  }

  lemma {:induction false} ClosedFsOk(s: Store, h: WriteHandle, revert: bool)
    requires FsOk(s.fs) && Isolated(s.fs) && h.IsValid()
    ensures FsOk(CloseWrite(s, h, revert).store.fs) && Isolated(CloseWrite(s, h, revert).store.fs)
  {
    var settled := Settled(s.fs, h.fileID, revert);
    SettledFsOk(s.fs, h.fileID, revert);
    CloseFsOk(settled, h.targetfd);
    CloseFsOk(Close(settled, h.targetfd), h.tempfd);
  }

  lemma {:induction false} EndWriteFramesAll(s: State, w: nat, writer: Writer, revert: bool)
    requires Sound(s) && writer.h.IsValid() && writer == WriterAt(s, w)
    ensures var after := CloseWrite(s.store, writer.h, revert).store;
      && (forall r :: r in s.readers ==> ReaderFramed(s.store.fs, after.fs, s.store.slots, s.store.slots, s.readers[r].h))
      && (forall v :: v in s.writers && v != w ==> WriterFramed(s.store.fs, after.fs, s.writers[v].h))
  {
    var after := CloseWrite(s.store, writer.h, revert).store;
    forall r | r in s.readers ensures ReaderFramed(s.store.fs, after.fs, s.store.slots, s.store.slots, s.readers[r].h) {
      EndWriteFrames(s.store, w, writer, revert, r, s.readers[r], w + 1, Writer(NO_WRITE, []));
    }
    forall v | v in s.writers && v != w ensures WriterFramed(s.store.fs, after.fs, s.writers[v].h) {
      NobodyOk(s, 0, 0);
      EndWriteFrames(s.store, w, writer, revert, 0, ReaderAt(s, 0), v, s.writers[v]);
    }
  }

  // ---- whole runs ----

  lemma {:induction false} StepSound(s: State, step: Step)
    requires Sound(s) && Allowed(s, step)
    ensures Sound(Next(s, step))
  {
    match step
    case Create(id) => CreateSound(s, id);
    case Delete(id) => DeleteSound(s, id);
    case OpenRead(r, id, begin, end) => OpenReadSound(s, r, id, begin, end);
    case Read(r, chunkSize) => ReadSound(s, r, chunkSize);
    case EndRead(r) => EndReadSound(s, r);
    case OpenWrite(w, id) => OpenWriteSound(s, w, id);
    case Write(w, isLast, data) => WriteSound(s, w, isLast, data);
    case EndWrite(w, revert) => EndWriteSound(s, w, revert);
  }

  lemma {:induction false} AlwaysSound(start: State, steps: seq<Step>)
    requires IsRun(start, steps)
    ensures Sound(Run(start, steps))
  {
    if steps != [] {
      AlwaysSound(start, steps[..|steps| - 1]);
      StepSound(Run(start, steps[..|steps| - 1]), steps[|steps| - 1]);
    }
  }
}
