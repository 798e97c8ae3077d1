/** What the runs of the datastore guarantee to readers and writers. */
module SnapshotIsolation {
  import opened Bits
  import opened FileStores
  import opened Datastores
  import opened DatastoreRuns

  // ---- no visible file is ever written ----

  // A file name stands for the inode, or a reader has it open.
  ghost predicate Visible(fs: Fs, i: nat) {
    || (exists id :: Target(id) in fs.names && fs.names[Target(id)] == i)
    || (exists fd :: fd in fs.fds && fs.fds[fd].role.ReaderOf? && fs.fds[fd].inode == i)
  }

  // The inode a step writes to, if it writes to any.
  ghost predicate Writes(s: State, step: Step, i: nat) {
    match step
    case OpenWrite(_, id) => Temp(id) in s.store.fs.names && s.store.fs.names[Temp(id)] == i
    case Write(w, _, _) =>
      var h := WriterAt(s, w).h;
      h.IsValid() && IsOpen(s.store.fs, h.tempfd) && s.store.fs.fds[h.tempfd].inode == i
    case _ => false
  }

  lemma {:induction false} UnwrittenKept(s: State, step: Step, i: nat)
    requires Sound(s) && i in s.store.fs.bytes && !Writes(s, step, i)
    ensures i in Next(s, step).store.fs.bytes && Next(s, step).store.fs.bytes[i] == s.store.fs.bytes[i]
  {
    match step
    case OpenWrite(w, id) => OpenKeepsBytes(s.store, w, id, WriterAt(s, w).h, i);
    case Write(w, isLast, data) => WriteKeepsBytes(s.store, WriterAt(s, w).h, isLast, data, i);
    case EndWrite(w, revert) => CloseKeepsBytes(s.store, WriterAt(s, w).h, revert, i);
    case _ =>
  }

  lemma {:induction false} OpenKeepsBytes(s: Store, w: nat, id: nat, h: WriteHandle, i: nat)
    requires FsOk(s.fs) && i in s.fs.bytes && !(Temp(id) in s.fs.names && s.fs.names[Temp(id)] == i)
    ensures var fs := InitWrite(s, w, id, h).store.fs; i in fs.bytes && fs.bytes[i] == s.fs.bytes[i]
  {
  }

  lemma {:induction false} WriteKeepsBytes(s: Store, h: WriteHandle, isLast: bool, data: seq<Byte>, i: nat)
    requires i in s.fs.bytes && !(h.IsValid() && IsOpen(s.fs, h.tempfd) && s.fs.fds[h.tempfd].inode == i)
    ensures var fs := WriteFile(s, h, isLast, data).store.fs; i in fs.bytes && fs.bytes[i] == s.fs.bytes[i]
  {
  }

  lemma {:induction false} CloseKeepsBytes(s: Store, h: WriteHandle, revert: bool, i: nat)
    requires i in s.fs.bytes
    ensures var fs := CloseWrite(s, h, revert).store.fs; i in fs.bytes && fs.bytes[i] == s.fs.bytes[i]
  {
  }

  /** No allowed step changes the bytes of an inode that a file name stands for or a reader has
      open. */
  lemma {:induction false} VisibleUnwritten(s: State, step: Step, i: nat)
    requires Sound(s) && Allowed(s, step) && Visible(s.store.fs, i)
    ensures i in Next(s, step).store.fs.bytes && Next(s, step).store.fs.bytes[i] == s.store.fs.bytes[i]
  {
    if step.Write? {
      NobodyOk(s, 0, step.w);
    }
    UnwrittenKept(s, step, i);
  }

  // ---- readers ----

  lemma {:induction false} RunPush(start: State, steps: seq<Step>, step: Step)
    ensures Run(start, steps + [step]) == Next(Run(start, steps), step)
    ensures IsRun(start, steps + [step]) <==> IsRun(start, steps) && Allowed(Run(start, steps), step)
  {
    assert (steps + [step])[..|steps|] == steps;
  }

  // The reader is not opened again.
  predicate KeepsReader(steps: seq<Step>, r: nat) {
    forall i :: 0 <= i < |steps| ==> !(steps[i].OpenRead? && steps[i].r == r)
  }

  // What a reader was opened on.
  predicate SameOpening(a: Reader, b: Reader) {
    a.begin == b.begin && a.h.end == b.h.end && a.snap == b.snap
  }

  lemma {:induction false} OpeningStays(s: State, step: Step, r: nat)
    requires !(step.OpenRead? && step.r == r)
    ensures SameOpening(ReaderAt(Next(s, step), r), ReaderAt(s, r))
  {
  }

  lemma {:induction false} RunOpeningStays(start: State, steps: seq<Step>, more: seq<Step>, r: nat)
    requires KeepsReader(more, r)
    ensures SameOpening(ReaderAt(Run(start, steps + more), r), ReaderAt(Run(start, steps), r))
    decreases |more|
  {
    if more == [] {
      assert steps + more == steps;
    } else {
      var n := |more| - 1;
      assert steps + more == (steps + more[..n]) + [more[n]];
      RunOpeningStays(start, steps, more[..n], r);
      RunPush(start, steps + more[..n], more[n]);
      OpeningStays(Run(start, steps + more[..n]), more[n], r);
    }
  }

  /** Snapshot isolation: whatever is written, committed, reverted and deleted after a reader was
      opened, it is given the bytes the file had at that moment, in order, from the begin of its
      range; when it was told that this is all, it has the whole range, and it is told so at most
      once. While it is open its descriptor stands for exactly these bytes. */
  lemma {:induction false} SnapshotRead(start: State, before: seq<Step>, r: nat, id: nat, begin: nat, end: nat, after: seq<Step>)
    requires IsRun(start, before + [OpenRead(r, id, begin, end)] + after) && KeepsReader(after, r)
    requires InitRead(Run(start, before).store, r, id, begin, end, ReaderAt(Run(start, before), r).h).ok
    ensures var file := ContentOf(Run(start, before).store.fs, Target(id));
      var rangeEnd := if end != 0 then end else if begin <= |file| then |file| else begin;
      var s := Run(start, before + [OpenRead(r, id, begin, end)] + after);
      var reader := ReaderAt(s, r);
      && begin <= rangeEnd && reader.given <= Slice(file, begin, rangeEnd)
      && reader.lasts <= 1 && (reader.lasts == 1 ==> reader.given == Slice(file, begin, rangeEnd) && reader.h.IsDone())
      && (reader.h.IsValid() ==> IsOpen(s.store.fs, reader.h.fd) && s.store.fs.bytes[s.store.fs.fds[reader.h.fd].inode] == file)
  {
    var opening := before + [OpenRead(r, id, begin, end)];
    RunPush(start, before, OpenRead(r, id, begin, end));
    RunOpeningStays(start, opening, after, r);
    AlwaysSound(start, opening + after);
    var s := Run(start, opening + after);
    NobodyOk(s, r, 0);
    GivenIsPrefix(ReaderAt(s, r));
  }

  lemma {:induction false} GivenIsPrefix(reader: Reader)
    requires Progress(reader)
    ensures reader.begin <= RangeEnd(reader) && reader.given <= Slice(reader.snap, reader.begin, RangeEnd(reader))
  {
    if reader.lasts == 0 && reader.h.position <= RangeEnd(reader) {
      SliceFrom(reader.snap, reader.begin, reader.h.position, RangeEnd(reader));
    }
  }

  /** Every read that succeeds without being the last gives something, so reading ends. */
  lemma {:induction false} ReadsAdvance(s: Store, h: ReadHandle, chunkSize: nat)
    ensures var d := ReadFile(s, h, chunkSize);
      d.ok && !d.chunk.isLast ==> |d.chunk.data| > 0 && d.handle.position == h.position + |d.chunk.data| < h.end
  {
  }

  /** Live readers never share a buffer slot. */
  lemma {:induction false} SlotsExclusive(start: State, steps: seq<Step>, q: nat, r: nat)
    requires IsRun(start, steps) && q != r
    requires ReaderAt(Run(start, steps), q).h.IsValid() && ReaderAt(Run(start, steps), r).h.IsValid()
    ensures ReaderAt(Run(start, steps), q).h.buffer != ReaderAt(Run(start, steps), r).h.buffer
  {
    AlwaysSound(start, steps);
    NobodyOk(Run(start, steps), q, 0);
    NobodyOk(Run(start, steps), r, 0);
  }

  /** When all slots are taken a read of an existing file fails, and leaves a descriptor open that
      no handle has. */
  lemma {:induction false} FullSlotsLeak(s: Store, r: nat, id: nat, begin: nat, h: ReadHandle)
    requires Target(id) in s.fs.names && FsOk(s.fs)
    ensures var o := InitRead(s, r, id, begin, 0, h);
      (forall slot :: 0 <= slot < MAX_READERS ==> slot in s.slots) <==>
        !o.ok && s.fs.nextFd in o.store.fs.fds && o.handle.fd == h.fd && !o.handle.IsValid()
  {
  }

  // ---- writers ----

  // The steps of the write handle between its opening and its closing.
  predicate KeepsWriter(steps: seq<Step>, w: nat) {
    forall i :: 0 <= i < |steps| ==>
      !(steps[i].OpenWrite? && steps[i].w == w) && !(steps[i].EndWrite? && steps[i].w == w)
  }

  // Whether one of the writes was marked as the last.
  predicate Finished(steps: seq<Step>, w: nat) {
    exists i :: 0 <= i < |steps| && steps[i].Write? && steps[i].w == w && steps[i].isLast
  }

  // The data of the writes of one handle, up to the one marked as the last.
  function DataOf(steps: seq<Step>, w: nat): seq<Byte> {
    if steps == [] then []
    else
      var front, step := steps[..|steps| - 1], steps[|steps| - 1];
      if step.Write? && step.w == w && !Finished(front, w) then DataOf(front, w) + step.data else DataOf(front, w)
  }

  // A writer in the middle of its file.
  ghost predicate Midway(s: State, w: nat, id: nat, data: seq<Byte>, done: bool) {
    w in s.writers && s.writers[w].h.IsValid() && s.writers[w].h.fileID == id
    && s.writers[w].written == data && s.writers[w].h.done == done
  }

  lemma {:induction false} MidwayStep(s: State, step: Step, w: nat, id: nat, data: seq<Byte>, done: bool)
    requires Sound(s) && Midway(s, w, id, data, done)
    requires !(step.OpenWrite? && step.w == w) && !(step.EndWrite? && step.w == w)
    ensures if step.Write? && step.w == w && !done then Midway(Next(s, step), w, id, data + step.data, step.isLast)
            else Midway(Next(s, step), w, id, data, done)
  {
    NobodyOk(s, 0, w);
  }

  lemma {:induction false} FinishedPush(steps: seq<Step>, step: Step, w: nat)
    ensures Finished(steps + [step], w) <==> Finished(steps, w) || (step.Write? && step.w == w && step.isLast)
    ensures DataOf(steps + [step], w)
         == if step.Write? && step.w == w && !Finished(steps, w) then DataOf(steps, w) + step.data else DataOf(steps, w)
  {
    var all := steps + [step];
    assert all[..|steps|] == steps;
    if Finished(steps, w) {
      var i :| 0 <= i < |steps| && steps[i].Write? && steps[i].w == w && steps[i].isLast;
      assert all[i] == steps[i];
    }
    if step.Write? && step.w == w && step.isLast {
      assert all[|steps|] == step;
    }
    if Finished(all, w) {
      var i :| 0 <= i < |all| && all[i].Write? && all[i].w == w && all[i].isLast;
      assert i < |steps| ==> steps[i] == all[i];
    }
  }

  lemma {:induction false} RunMidway(start: State, steps: seq<Step>, middle: seq<Step>, w: nat, id: nat)
    requires IsRun(start, steps + middle) && KeepsWriter(middle, w) && Midway(Run(start, steps), w, id, [], false)
    ensures Midway(Run(start, steps + middle), w, id, DataOf(middle, w), Finished(middle, w))
    decreases |middle|
  {
    if middle == [] {
      assert steps + middle == steps;
    } else {
      var n := |middle| - 1;
      var front, step := middle[..n], middle[n];
      assert middle == front + [step];
      assert steps + middle == (steps + front) + [step];
      RunPush(start, steps + front, step);
      AlwaysSound(start, steps + front);
      RunMidway(start, steps, front, w, id);
      MidwayStep(Run(start, steps + front), step, w, id, DataOf(front, w), Finished(front, w));
      FinishedPush(front, step, w);
    }
  }

  // What closing does to the file of the writer.
  lemma {:induction false} CloseSettles(s: State, w: nat, id: nat, data: seq<Byte>, done: bool, revert: bool)
    requires Sound(s) && Midway(s, w, id, data, done)
    ensures var n := Next(s, EndWrite(w, revert));
      && Temp(id) !in n.store.fs.names && !n.writers[w].h.IsValid()
      && (!revert ==> Target(id) in n.store.fs.names && ContentOf(n.store.fs, Target(id)) == data)
      && (revert ==> (Target(id) in n.store.fs.names <==> Target(id) in s.store.fs.names))
      && (revert ==> ContentOf(n.store.fs, Target(id)) == ContentOf(s.store.fs, Target(id)))
  {
    NobodyOk(s, 0, w);
  }

  lemma {:induction false} OpenMidway(s: State, w: nat, id: nat)
    requires Allowed(s, OpenWrite(w, id)) && Target(id) in s.store.fs.names && !WriterAt(s, w).h.done
    ensures Midway(Next(s, OpenWrite(w, id)), w, id, [], false)
  {
    InitWriteIs(s.store, w, id, WriterAt(s, w).h);
  }

  /** Chunking independence: whatever pieces the data are written in and whatever else happens in
      between, after a commit the file holds the pieces joined in order, and the temporary file is
      gone. */
  lemma {:induction false} CommittedData(start: State, before: seq<Step>, w: nat, id: nat, middle: seq<Step>)
    requires IsRun(start, before + [OpenWrite(w, id)] + middle) && KeepsWriter(middle, w)
    requires Target(id) in Run(start, before).store.fs.names && !WriterAt(Run(start, before), w).h.done
    ensures var fs := Run(start, before + [OpenWrite(w, id)] + middle + [EndWrite(w, false)]).store.fs;
      && Target(id) in fs.names && ContentOf(fs, Target(id)) == DataOf(middle, w) && Temp(id) !in fs.names
  {
    var opening := before + [OpenWrite(w, id)];
    RunPrefix(start, opening, middle);
    RunPush(start, before, OpenWrite(w, id));
    OpenMidway(Run(start, before), w, id);
    RunMidway(start, opening, middle, w, id);
    AlwaysSound(start, opening + middle);
    RunPush(start, opening + middle, EndWrite(w, false));
    CloseSettles(Run(start, opening + middle), w, id, DataOf(middle, w), Finished(middle, w), false);
  }

  lemma {:induction false} RunPrefix(start: State, steps: seq<Step>, more: seq<Step>)
    requires IsRun(start, steps + more)
    ensures IsRun(start, steps)
    decreases |more|
  {
    if more == [] {
      assert steps + more == steps;
    } else {
      var n := |more| - 1;
      assert steps + more == (steps + more[..n]) + [more[n]];
      RunPush(start, steps + more[..n], more[n]);
      RunPrefix(start, steps, more[..n]);
    }
  }

  // The step concerns another file.
  ghost predicate Spares(s: State, step: Step, id: nat) {
    match step
    case Create(i) => i != id
    case Delete(i) => i != id
    case EndWrite(w, revert) => !WriterAt(s, w).h.IsValid() || WriterAt(s, w).h.fileID != id || revert
    case _ => true
  }

  /** Files do not disturb each other: only createFile and deleteFile of the id and the commit of a
      write of the id change what its name stands for. */
  lemma {:induction false} OtherFilesKept(s: State, step: Step, id: nat)
    requires Sound(s) && Allowed(s, step) && Spares(s, step, id)
    ensures Target(id) in Next(s, step).store.fs.names <==> Target(id) in s.store.fs.names
    ensures ContentOf(Next(s, step).store.fs, Target(id)) == ContentOf(s.store.fs, Target(id))
  {
    NamesKept(s, step, id);
    if Target(id) in s.store.fs.names {
      VisibleUnwritten(s, step, s.store.fs.names[Target(id)]);
    }
  }

  lemma {:induction false} NamesKept(s: State, step: Step, id: nat)
    requires Sound(s) && Spares(s, step, id)
    ensures Target(id) in Next(s, step).store.fs.names <==> Target(id) in s.store.fs.names
    ensures Target(id) in s.store.fs.names ==> Next(s, step).store.fs.names[Target(id)] == s.store.fs.names[Target(id)]
  {
    match step
    case OpenWrite(w, i) => OpenKeepsNames(s.store, w, i, WriterAt(s, w).h, id);
    case EndWrite(w, revert) => CloseKeepsNames(s.store, WriterAt(s, w).h, revert, id);
    case _ =>
  }

  lemma {:induction false} OpenKeepsNames(s: Store, w: nat, i: nat, h: WriteHandle, id: nat)
    ensures var fs := InitWrite(s, w, i, h).store.fs;
      (Target(id) in fs.names <==> Target(id) in s.fs.names)
      && (Target(id) in s.fs.names ==> fs.names[Target(id)] == s.fs.names[Target(id)])
  {
  }

  lemma {:induction false} CloseKeepsNames(s: Store, h: WriteHandle, revert: bool, id: nat)
    requires !h.IsValid() || h.fileID != id || revert
    ensures var fs := CloseWrite(s, h, revert).store.fs;
      (Target(id) in fs.names <==> Target(id) in s.fs.names)
      && (Target(id) in s.fs.names ==> fs.names[Target(id)] == s.fs.names[Target(id)])
  {
  }

  // ---- from a commit to a read ----

  // The reader is neither opened again nor closed.
  predicate HoldsReader(steps: seq<Step>, r: nat) {
    KeepsReader(steps, r) && forall i :: 0 <= i < |steps| ==> !(steps[i].EndRead? && steps[i].r == r)
  }

  function CountReads(steps: seq<Step>, r: nat): nat {
    if steps == [] then 0
    else
      var last := steps[|steps| - 1];
      CountReads(steps[..|steps| - 1], r) + (if last.Read? && last.r == r then 1 else 0)
  }

  // An open reader that was given at least n bytes, or everything.
  ghost predicate Reading(s: State, r: nat, n: nat) {
    && r in s.readers && s.readers[r].h.IsValid()
    && (s.readers[r].lasts == 0 ==> !s.readers[r].h.IsDone() && |s.readers[r].given| >= n)
  }

  lemma {:induction false} ReadingStep(s: State, step: Step, r: nat, n: nat)
    requires Sound(s) && Allowed(s, step) && Reading(s, r, n)
    requires !(step.OpenRead? && step.r == r) && !(step.EndRead? && step.r == r)
    ensures Reading(Next(s, step), r, if step.Read? && step.r == r then n + 1 else n)
  {
    NobodyOk(s, r, 0);
    if step.Read? && step.r == r {
      ReadsAdvance(s.store, s.readers[r].h, step.chunkSize);
      ReadingRead(s.store, s.readers[r], step.chunkSize, n);
    }
  }

  lemma {:induction false} ReadingRead(s: Store, reader: Reader, chunkSize: nat, n: nat)
    requires Progress(reader) && reader.h.IsValid() && IsOpen(s.fs, reader.h.fd)
    requires reader.lasts == 0 ==> !reader.h.IsDone() && |reader.given| >= n
    ensures var after := ReaderRead(s, reader, chunkSize);
      after.h.IsValid() && (after.lasts == 0 ==> !after.h.IsDone() && |after.given| >= n + 1)
  {
  }

  lemma {:induction false} ReadsOn(start: State, steps: seq<Step>, front: seq<Step>, step: Step, r: nat)
    requires IsRun(start, steps + front) && Allowed(Run(start, steps + front), step)
    requires Reading(Run(start, steps + front), r, CountReads(front, r))
    requires !(step.OpenRead? && step.r == r) && !(step.EndRead? && step.r == r)
    ensures Reading(Run(start, steps + front + [step]), r, CountReads(front + [step], r))
  {
    RunPush(start, steps + front, step);
    AlwaysSound(start, steps + front);
    ReadingStep(Run(start, steps + front), step, r, CountReads(front, r));
    assert (front + [step])[..|front|] == front;
  }

  lemma {:induction false} ReadsCount(start: State, steps: seq<Step>, more: seq<Step>, r: nat)
    requires IsRun(start, steps + more) && HoldsReader(more, r) && Reading(Run(start, steps), r, 0)
    ensures Reading(Run(start, steps + more), r, CountReads(more, r))
    decreases |more|
  {
    if more == [] {
      assert steps + more == steps;
    } else {
      var k := |more| - 1;
      var front, step := more[..k], more[k];
      assert steps + more == (steps + front) + [step];
      RunPush(start, steps + front, step);
      ReadsCount(start, steps, front, r);
      ReadsOn(start, steps, front, step, r);
      assert front + [step] == more;
    }
  }

  // The range of a read of the file, from begin.
  function RangeOf(file: seq<Byte>, begin: nat, end: nat): seq<Byte> {
    var rangeEnd := if end != 0 then end else if begin <= |file| then |file| else begin;
    if begin <= rangeEnd then Slice(file, begin, rangeEnd) else []
  }

  /** Reading with any positive chunk sizes comes to an end: after more reads than the range has
      bytes the reader was told once that this is all, and was given the whole range. Only a read
      to the end of a file that begins at or behind that end is refused from the start. */
  lemma {:induction false} ReadsFinish(start: State, before: seq<Step>, r: nat, id: nat, begin: nat, end: nat, after: seq<Step>)
    requires IsRun(start, before + [OpenRead(r, id, begin, end)] + after) && HoldsReader(after, r)
    requires InitRead(Run(start, before).store, r, id, begin, end, ReaderAt(Run(start, before), r).h).ok
    requires var file := ContentOf(Run(start, before).store.fs, Target(id));
      && (end != 0 || begin < |file| || file == [])
      && CountReads(after, r) > |RangeOf(file, begin, end)|
    ensures var reader := ReaderAt(Run(start, before + [OpenRead(r, id, begin, end)] + after), r);
      reader.lasts == 1 && reader.given == RangeOf(ContentOf(Run(start, before).store.fs, Target(id)), begin, end)
  {
    var opening := before + [OpenRead(r, id, begin, end)];
    RunPrefix(start, opening, after);
    RunPush(start, before, OpenRead(r, id, begin, end));
    AlwaysSound(start, before);
    OpenedIsReading(Run(start, before), r, id, begin, end);
    ReadsCount(start, opening, after, r);
    SnapshotRead(start, before, r, id, begin, end, after);
  }

  lemma {:induction false} OpenedIsReading(s: State, r: nat, id: nat, begin: nat, end: nat)
    requires Sound(s) && Allowed(s, OpenRead(r, id, begin, end))
    requires InitRead(s.store, r, id, begin, end, ReaderAt(s, r).h).ok
    requires end != 0 || begin < |ContentOf(s.store.fs, Target(id))| || ContentOf(s.store.fs, Target(id)) == []
    ensures Reading(Next(s, OpenRead(r, id, begin, end)), r, 0)
  {
  }

  // None of the steps concerns the file.
  ghost predicate AllSpare(start: State, steps: seq<Step>, more: seq<Step>, id: nat)
    decreases |more|
  {
    more == []
    || (AllSpare(start, steps, more[..|more| - 1], id) && Spares(Run(start, steps + more[..|more| - 1]), more[|more| - 1], id))
  }

  lemma {:induction false} FileKept(start: State, steps: seq<Step>, more: seq<Step>, id: nat)
    requires IsRun(start, steps + more) && AllSpare(start, steps, more, id)
    ensures ContentOf(Run(start, steps + more).store.fs, Target(id)) == ContentOf(Run(start, steps).store.fs, Target(id))
    decreases |more|
  {
    if more == [] {
      assert steps + more == steps;
    } else {
      var k := |more| - 1;
      var front, step := more[..k], more[k];
      assert steps + more == (steps + front) + [step];
      RunPush(start, steps + front, step);
      AlwaysSound(start, steps + front);
      FileKept(start, steps, front, id);
      OtherFilesKept(Run(start, steps + front), step, id);
    }
  }

  // The run of the next theorem, up to the commit.
  function Commit(before: seq<Step>, w: nat, id: nat, middle: seq<Step>): seq<Step> {
    before + [OpenWrite(w, id)] + middle + [EndWrite(w, false)]
  }

  /** Chunking independence, from the first write to the last read: whatever pieces the data are
      written in, and whatever positive chunk sizes they are read with after the commit, with any
      other steps in between that do not create, delete or commit this file, what the reader is
      given is the range of the pieces joined in order, and it is told so exactly once. */
  lemma {:induction false} CommittedThenRead(start: State, before: seq<Step>, w: nat, id: nat, middle: seq<Step>, between: seq<Step>,
                                             r: nat, begin: nat, end: nat, after: seq<Step>)
    requires IsRun(start, Commit(before, w, id, middle) + between + [OpenRead(r, id, begin, end)] + after)
    requires KeepsWriter(middle, w) && AllSpare(start, Commit(before, w, id, middle), between, id) && HoldsReader(after, r)
    requires Target(id) in Run(start, before).store.fs.names && !WriterAt(Run(start, before), w).h.done
    requires var s := Run(start, Commit(before, w, id, middle) + between); InitRead(s.store, r, id, begin, end, ReaderAt(s, r).h).ok
    requires end != 0 || begin < |DataOf(middle, w)| || DataOf(middle, w) == []
    requires CountReads(after, r) > |RangeOf(DataOf(middle, w), begin, end)|
    ensures var reader := ReaderAt(Run(start, Commit(before, w, id, middle) + between + [OpenRead(r, id, begin, end)] + after), r);
      reader.lasts == 1 && reader.given == RangeOf(DataOf(middle, w), begin, end)
  {
    var commit := Commit(before, w, id, middle);
    RunPrefix(start, commit + between + [OpenRead(r, id, begin, end)], after);
    RunPrefix(start, commit + between, [OpenRead(r, id, begin, end)]);
    RunPrefix(start, commit, between);
    RunPrefix(start, before + [OpenWrite(w, id)] + middle, [EndWrite(w, false)]);
    CommittedData(start, before, w, id, middle);
    FileKept(start, commit, between, id);
    ReadsFinish(start, commit + between, r, id, begin, end, after);
  }

  // ---- two writers for one file ----

  // Two handles have the temporary file of id 1 open; the first has written n bytes.
  ghost predicate TwoOpen(s: State, data: seq<Byte>) {
    var fs := s.store.fs;
    && Target(1) in fs.names && Temp(1) in fs.names && fs.names[Temp(1)] in fs.bytes && fs.bytes[fs.names[Temp(1)]] == data
    && OpenOn(s, 0, fs.names[Temp(1)], |data|) && OpenOn(s, 1, fs.names[Temp(1)], 0)
    && ReaderAt(s, 0) == ReaderAt(Init(), 0) && s.store.slots == map[] && fs.nextFd !in fs.fds
  }

  ghost predicate OpenOn(s: State, w: nat, inode: nat, position: nat) {
    w in s.writers && var h := s.writers[w].h;
      h.IsValid() && h.fileID == 1 && !h.done && h.tempPosition == position && h.targetfd == 2 * w + 1 && h.tempfd == 2 * w + 2
      && IsOpen(s.store.fs, h.tempfd) && s.store.fs.fds[h.tempfd].inode == inode
  }

  // The file exists and the first handle is open on it.
  ghost predicate OneOpen(s: State) {
    var fs := s.store.fs;
    && Target(1) in fs.names && Temp(1) in fs.names && fs.names[Temp(1)] in fs.bytes && fs.bytes[fs.names[Temp(1)]] == []
    && OpenOn(s, 0, fs.names[Temp(1)], 0) && 1 !in s.writers
    && ReaderAt(s, 0) == ReaderAt(Init(), 0) && s.store.slots == map[] && fs.nextFd == 3 && fs.fds.Keys == {1, 2}
  }

  lemma {:induction false} FirstOpens()
    ensures OneOpen(Next(Next(Init(), Create(1)), OpenWrite(0, 1)))
  {
    InitWriteIs(Next(Init(), Create(1)).store, 0, 1, NO_WRITE);
  }

  lemma {:induction false} SecondOpens(s: State)
    requires OneOpen(s)
    ensures TwoOpen(Next(s, OpenWrite(1, 1)), [])
  {
    InitWriteIs(s.store, 1, 1, NO_WRITE);
  }

  lemma {:induction false} BothOpen() returns (steps: seq<Step>)
    ensures TwoOpen(Run(Init(), steps), [])
  {
    RunPush(Init(), [], Create(1));
    RunPush(Init(), [] + [Create(1)], OpenWrite(0, 1));
    RunPush(Init(), [] + [Create(1)] + [OpenWrite(0, 1)], OpenWrite(1, 1));
    steps := [] + [Create(1)] + [OpenWrite(0, 1)] + [OpenWrite(1, 1)];
    FirstOpens();
    SecondOpens(Next(Next(Init(), Create(1)), OpenWrite(0, 1)));
  }

  lemma {:induction false} FirstWrites(s: State)
    requires TwoOpen(s, [])
    ensures TwoOpen(Next(s, Write(0, false, [7])), [7])
  {
  }

  // The first has committed; the second still has the committed file open for writing.
  ghost predicate Committed(s: State, inode: nat, data: seq<Byte>) {
    && Target(1) in s.store.fs.names && s.store.fs.names[Target(1)] == inode
    && inode in s.store.fs.bytes && s.store.fs.bytes[inode] == data
    && OpenOn(s, 1, inode, 0)
    && ReaderAt(s, 0) == ReaderAt(Init(), 0) && s.store.slots == map[] && s.store.fs.nextFd !in s.store.fs.fds
  }

  lemma {:induction false} FirstCommits(s: State)
    requires TwoOpen(s, [7])
    ensures Committed(Next(s, EndWrite(0, false)), s.store.fs.names[Temp(1)], [7])
  {
  }

  // A reader is open on the file, and so is the second writer.
  ghost predicate ReadAndWritten(s: State, inode: nat, data: seq<Byte>) {
    && OpenOn(s, 1, inode, 0) && inode in s.store.fs.bytes && s.store.fs.bytes[inode] == data
    && ReaderAt(s, 0).h.IsValid() && ReaderAt(s, 0).snap == [7]
    && IsOpen(s.store.fs, ReaderAt(s, 0).h.fd) && s.store.fs.fds[ReaderAt(s, 0).h.fd].inode == inode
  }

  lemma {:induction false} ReaderComes(s: State, inode: nat)
    requires Committed(s, inode, [7])
    ensures ReadAndWritten(Next(s, OpenRead(0, 1, 0, 0)), inode, [7])
  {
  }

  /** The rule of one live write handle per file is needed: with two, what the second writes after
      the first has committed changes the file under a reader. */
  lemma {:induction false} TwoWritersBreakIsolation() returns (steps: seq<Step>)
    ensures var s := Run(Init(), steps);
      var reader := ReaderAt(s, 0);
      && reader.h.IsValid() && IsOpen(s.store.fs, reader.h.fd)
      && reader.snap == [7] && s.store.fs.bytes[s.store.fs.fds[reader.h.fd].inode] == [8]
  {
    steps := BothOpen();
    var inode := Run(Init(), steps).store.fs.names[Temp(1)];
    FirstWrites(Run(Init(), steps));
    RunPush(Init(), steps, Write(0, false, [7]));
    steps := steps + [Write(0, false, [7])];
    FirstCommits(Run(Init(), steps));
    RunPush(Init(), steps, EndWrite(0, false));
    inode := Run(Init(), steps).store.fs.names[Temp(1)];
    steps := steps + [EndWrite(0, false)];
    ReaderComes(Run(Init(), steps), inode);
    RunPush(Init(), steps, OpenRead(0, 1, 0, 0));
    steps := steps + [OpenRead(0, 1, 0, 0)];
    SecondOverwrites(Run(Init(), steps), inode);
    RunPush(Init(), steps, Write(1, false, [8]));
    steps := steps + [Write(1, false, [8])];
  }

  lemma {:induction false} SecondOverwrites(s: State, inode: nat)
    requires ReadAndWritten(s, inode, [7])
    ensures var n := Next(s, Write(1, false, [8]));
      ReaderAt(n, 0) == ReaderAt(s, 0) && n.store.fs.fds == s.store.fs.fds && inode in n.store.fs.bytes && n.store.fs.bytes[inode] == [8]
  {
  }
}
