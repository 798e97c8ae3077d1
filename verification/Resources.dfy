/** Buffer slots and descriptors over whole runs of the datastore
    (src/storage/datastore/LocalFileSystem.cpp): which are taken, and that what is closed is given
    back. */
module Resources {
  import opened Bits
  import opened FileStores
  import opened Datastores
  import opened DatastoreRuns

  // ---- buffer slots ----

  predicate HasSlot(reader: Reader, slot: nat) {
    reader.h.IsValid() && reader.h.buffer == slot
  }

  /** A slot is taken exactly if some live reader has it. */
  ghost predicate SlotsHeld(s: State) {
    forall slot :: slot in s.store.slots <==> exists r :: r in s.readers && HasSlot(s.readers[r], slot)
  }

  // Slots and readers as before, but for the position of one reader.
  lemma {:induction false} SameSlots(s: State, n: State)
    requires SlotsHeld(s) && n.store.slots == s.store.slots
    requires forall r :: r in s.readers ==> r in n.readers
    requires forall r :: r in n.readers && n.readers[r].h.IsValid() ==>
      r in s.readers && s.readers[r].h.IsValid() && s.readers[r].h.buffer == n.readers[r].h.buffer
    requires forall r :: r in s.readers && s.readers[r].h.IsValid() ==> n.readers[r].h.IsValid()
    ensures SlotsHeld(n)
  {
    forall slot ensures slot in n.store.slots <==> exists r :: r in n.readers && HasSlot(n.readers[r], slot) {
      if slot in n.store.slots {
        var r :| r in s.readers && HasSlot(s.readers[r], slot);
        assert HasSlot(n.readers[r], slot);
      }
      if r :| r in n.readers && HasSlot(n.readers[r], slot) {
        assert HasSlot(s.readers[r], slot);
      }
    }
  }

  // A reader that was not live takes a slot.
  lemma {:induction false} SlotTaken(s: State, n: State, r: nat, reader: Reader, slot: nat)
    requires SlotsHeld(s) && !ReaderAt(s, r).h.IsValid() && HasSlot(reader, slot)
    requires n.readers == s.readers[r := reader] && n.store.slots == s.store.slots[slot := r]
    ensures SlotsHeld(n)
  {
    forall other ensures other in n.store.slots <==> exists q :: q in n.readers && HasSlot(n.readers[q], other) {
      if other in s.store.slots {
        var q :| q in s.readers && HasSlot(s.readers[q], other);
        assert HasSlot(n.readers[q], other);
      }
      if q :| q in n.readers && HasSlot(n.readers[q], other) {
        assert q != r ==> HasSlot(s.readers[q], other);
      }
      assert HasSlot(n.readers[r], slot);
    }
  }

  lemma {:induction false} OpenedIs(s: State, r: nat, id: nat, begin: nat, end: nat)
    requires Sound(s) && Allowed(s, OpenRead(r, id, begin, end))
    ensures var n, h := Next(s, OpenRead(r, id, begin, end)), ReaderAt(s, r).h;
      var o := InitRead(s.store, r, id, begin, end, h);
      && n.readers == s.readers[r := n.readers[r]] && n.readers[r].h == o.handle && n.store == o.store
      && (if o.ok then o.handle.IsValid() && o.store.slots == s.store.slots[o.handle.buffer := r]
          else !o.handle.IsValid() && o.store.slots == s.store.slots)
  {
  }

  lemma {:induction false} OpenReadSlots(s: State, r: nat, id: nat, begin: nat, end: nat)
    requires Sound(s) && SlotsHeld(s) && Allowed(s, OpenRead(r, id, begin, end))
    ensures SlotsHeld(Next(s, OpenRead(r, id, begin, end)))
  {
    var n := Next(s, OpenRead(r, id, begin, end));
    OpenedIs(s, r, id, begin, end);
    if n.readers[r].h.IsValid() {
      SlotTaken(s, n, r, n.readers[r], n.readers[r].h.buffer);
    } else {
      SameSlots(s, n);
    }
  }

  lemma {:induction false} ReadSlots(s: State, r: nat, chunkSize: nat)
    requires Sound(s) && SlotsHeld(s)
    ensures SlotsHeld(Next(s, Read(r, chunkSize)))
  {
    SameSlots(s, Next(s, Read(r, chunkSize)));
  }

  lemma {:induction false} OwnSlot(s: State, r: nat, q: nat, slot: nat)
    requires Sound(s) && r in s.readers && q in s.readers && HasSlot(s.readers[r], slot) && HasSlot(s.readers[q], slot)
    ensures q == r
  {
    assert ReaderOk(s.store.fs, s.store.slots, q, s.readers[q]);
    assert ReaderOk(s.store.fs, s.store.slots, r, s.readers[r]);
  }

  // A live reader gives its slot back.
  lemma {:induction false} SlotGiven(s: State, n: State, r: nat, reader: Reader, slot: nat)
    requires SlotsHeld(s) && r in s.readers && HasSlot(s.readers[r], slot) && !reader.h.IsValid()
    requires forall q :: q in s.readers && HasSlot(s.readers[q], slot) ==> q == r
    requires n.readers == s.readers[r := reader] && n.store.slots == s.store.slots - {slot}
    ensures SlotsHeld(n)
  {
    forall other ensures other in n.store.slots <==> exists q :: q in n.readers && HasSlot(n.readers[q], other) {
      if other in n.store.slots {
        var q :| q in s.readers && HasSlot(s.readers[q], other);
        assert HasSlot(n.readers[q], other);
      }
      if q :| q in n.readers && HasSlot(n.readers[q], other) {
        assert HasSlot(s.readers[q], other);
      }
    }
  }

  lemma {:induction false} EndReadSlots(s: State, r: nat)
    requires Sound(s) && SlotsHeld(s)
    ensures SlotsHeld(Next(s, EndRead(r)))
  {
    var n, h := Next(s, EndRead(r)), ReaderAt(s, r).h;
    if h.IsValid() {
      forall q | q in s.readers && HasSlot(s.readers[q], h.buffer) ensures q == r {
        OwnSlot(s, r, q, h.buffer);
      }
      SlotGiven(s, n, r, n.readers[r], h.buffer);
    } else {
      SameSlots(s, n);
    }
  }

  lemma {:induction false} OtherSlots(s: State, step: Step)
    requires SlotsHeld(s) && !step.OpenRead? && !step.Read? && !step.EndRead?
    ensures SlotsHeld(Next(s, step))
  {
    SameSlots(s, Next(s, step));
  }

  lemma {:induction false} StepSlots(s: State, step: Step)
    requires Sound(s) && SlotsHeld(s) && Allowed(s, step)
    ensures SlotsHeld(Next(s, step))
  {
    match step
    case OpenRead(r, id, begin, end) => OpenReadSlots(s, r, id, begin, end);
    case Read(r, chunkSize) => ReadSlots(s, r, chunkSize);
    case EndRead(r) => EndReadSlots(s, r);
    case _ => OtherSlots(s, step);
  }

  /** In every run from a state in which it holds, as it does in a new datastore: a buffer slot is
      taken exactly if a live reader has it. */
  lemma {:induction false} SlotsAlwaysHeld(start: State, steps: seq<Step>)
    requires IsRun(start, steps) && SlotsHeld(start)
    ensures SlotsHeld(Run(start, steps))
  {
    if steps != [] {
      var front := steps[..|steps| - 1];
      SlotsAlwaysHeld(start, front);
      AlwaysSound(start, front);
      StepSlots(Run(start, front), steps[|steps| - 1]);
    }
  }

  /** So once all readers are closed no slot is taken, however many there were. */
  lemma {:induction false} AllSlotsReturn(fs: Fs, steps: seq<Step>)
    requires IsRun(OnDirectory(fs), steps)
    requires forall r :: r in Run(OnDirectory(fs), steps).readers ==> !Run(OnDirectory(fs), steps).readers[r].h.IsValid()
    ensures Run(OnDirectory(fs), steps).store.slots == map[]
  {
    var n := Run(OnDirectory(fs), steps);
    SlotsAlwaysHeld(OnDirectory(fs), steps);
    assert forall slot, r :: r in n.readers ==> !HasSlot(n.readers[r], slot);
    assert forall slot :: slot !in n.store.slots;
  }

  // ---- descriptors ----

  // The handle that a descriptor was opened for is live and has it.
  predicate HasFd(s: State, role: Role, fd: int) {
    match role
    case ReaderOf(r) => ReaderAt(s, r).h.IsValid() && ReaderAt(s, r).h.fd == fd
    case TargetOf(w) => WriterAt(s, w).h.IsValid() && WriterAt(s, w).h.targetfd == fd
    case TempOf(w) => WriterAt(s, w).h.IsValid() && WriterAt(s, w).h.tempfd == fd
    case Creator => false
  }

  predicate IsHeld(s: State, fd: int)
    requires fd in s.store.fs.fds
  {
    HasFd(s, s.store.fs.fds[fd].role, fd)
  }

  /** The open descriptors that no live handle has are the lost ones. */
  ghost predicate FdsHeld(s: State, lost: set<int>) {
    && (forall fd :: fd in s.store.fs.fds ==> (IsHeld(s, fd) <==> fd !in lost))
    && (forall fd :: fd in lost ==> fd in s.store.fs.fds)
  }

  // What a step loses: a file is opened for reading when all 25 slots are taken.
  function LostBy(s: State, step: Step): set<int> {
    match step
    case OpenRead(r, id, begin, end) =>
      if (end == 0 || begin < end) && Target(id) in s.store.fs.names && (forall k :: 0 <= k < 25 ==> k in s.store.slots)
      then {s.store.fs.nextFd} else {}
    case _ => {}
  }

  // What has been lost in a run, and what was open before it without a handle.
  function Lost(start: State, steps: seq<Step>): set<int> {
    if steps == [] then set fd | fd in start.store.fs.fds && !IsHeld(start, fd)
    else Lost(start, steps[..|steps| - 1]) + LostBy(Run(start, steps[..|steps| - 1]), steps[|steps| - 1])
  }

  // The same descriptors and the same live handles.
  lemma {:induction false} SameFds(s: State, n: State, lost: set<int>)
    requires FdsHeld(s, lost) && n.store.fs.fds == s.store.fs.fds
    requires forall fd :: fd in s.store.fs.fds ==> (IsHeld(n, fd) <==> IsHeld(s, fd))
    ensures FdsHeld(n, lost)
  {
  }

  // Creating closes what it opened.
  lemma {:induction false} CreateIs(s: Store, id: nat)
    requires FsOk(s.fs)
    ensures CreateFile(s, id).store.fs.fds == s.fs.fds
  {
    assert s.fs.nextFd !in s.fs.fds;
  }

  lemma {:induction false} CreateFds(s: State, id: nat, lost: set<int>)
    requires Sound(s) && FdsHeld(s, lost)
    ensures FdsHeld(Next(s, Create(id)), lost)
  {
    CreateIs(s.store, id);
    SameFds(s, Next(s, Create(id)), lost);
  }

  // A reader that has changed, and a descriptor it neither had nor has.
  lemma {:induction false} OtherThanReader(s: State, n: State, r: nat, reader: Reader, role: Role, fd: int)
    requires n.readers == s.readers[r := reader] && n.writers == s.writers
    requires ReaderAt(s, r).h.IsValid() ==> ReaderAt(s, r).h.fd != fd
    requires reader.h.IsValid() ==> reader.h.fd != fd
    ensures HasFd(n, role, fd) <==> HasFd(s, role, fd)
  {
  }

  lemma {:induction false} OtherThanWriter(s: State, n: State, w: nat, writer: Writer, role: Role, fd: int)
    requires n.readers == s.readers && n.writers == s.writers[w := writer]
    requires WriterAt(s, w).h.IsValid() ==> WriterAt(s, w).h.targetfd != fd && WriterAt(s, w).h.tempfd != fd
    requires writer.h.IsValid() ==> writer.h.targetfd != fd && writer.h.tempfd != fd
    ensures HasFd(n, role, fd) <==> HasFd(s, role, fd)
  {
  }

  // What opening for reading does to descriptors and handles.
  lemma {:induction false} OpenReadIs(s: State, r: nat, id: nat, begin: nat, end: nat)
    requires Sound(s) && Allowed(s, OpenRead(r, id, begin, end))
    ensures var n, fd := Next(s, OpenRead(r, id, begin, end)), s.store.fs.nextFd;
      && n.writers == s.writers && n.readers == s.readers[r := n.readers[r]]
      && (n.readers[r].h.IsValid() ==> n.readers[r].h.fd == fd)
      && if (end == 0 || begin < end) && Target(id) in s.store.fs.names
         then fd !in s.store.fs.fds && n.store.fs.fds == s.store.fs.fds[fd := Desc(s.store.fs.names[Target(id)], ReaderOf(r))]
              && (n.readers[r].h.IsValid() <==> exists k :: 0 <= k < 25 && k !in s.store.slots)
         else n.store.fs.fds == s.store.fs.fds && !n.readers[r].h.IsValid()
  {
  }

  lemma {:induction false} OpenReadFds(s: State, r: nat, id: nat, begin: nat, end: nat, lost: set<int>)
    requires Sound(s) && FdsHeld(s, lost) && Allowed(s, OpenRead(r, id, begin, end))
    ensures FdsHeld(Next(s, OpenRead(r, id, begin, end)), lost + LostBy(s, OpenRead(r, id, begin, end)))
  {
    var n, new_ := Next(s, OpenRead(r, id, begin, end)), s.store.fs.nextFd;
    OpenReadIs(s, r, id, begin, end);
    assert new_ !in s.store.fs.fds;
    forall fd | fd in s.store.fs.fds ensures IsHeld(n, fd) <==> IsHeld(s, fd) {
      OtherThanReader(s, n, r, n.readers[r], s.store.fs.fds[fd].role, fd);
    }
  }

  lemma {:induction false} EndReadIs(s: State, r: nat)
    requires Sound(s)
    ensures var n, h := Next(s, EndRead(r)), ReaderAt(s, r).h;
      && n.writers == s.writers && n.readers == s.readers[r := n.readers[r]] && !n.readers[r].h.IsValid()
      && n.store.fs.fds == (if h.IsValid() then s.store.fs.fds - {h.fd} else s.store.fs.fds)
      && (h.IsValid() ==> h.fd in s.store.fs.fds && IsHeld(s, h.fd))
  {
    NobodyOk(s, r, 0);
  }

  lemma {:induction false} EndReadFds(s: State, r: nat, lost: set<int>)
    requires Sound(s) && FdsHeld(s, lost)
    ensures FdsHeld(Next(s, EndRead(r)), lost)
  {
    var n := Next(s, EndRead(r));
    EndReadIs(s, r);
    forall fd | fd in n.store.fs.fds ensures fd in s.store.fs.fds && (IsHeld(n, fd) <==> IsHeld(s, fd)) {
      OtherThanReader(s, n, r, n.readers[r], s.store.fs.fds[fd].role, fd);
    }
  }

  // ... and opening for writing.
  lemma {:induction false} OpenWriteIs(s: State, w: nat, id: nat)
    requires Sound(s) && Target(id) in s.store.fs.names
    ensures var n, fd := Next(s, OpenWrite(w, id)), s.store.fs.nextFd;
      && n.readers == s.readers && n.writers == s.writers[w := n.writers[w]]
      && n.writers[w].h.IsValid() == (id != 0) && n.writers[w].h.targetfd == fd && n.writers[w].h.tempfd == fd + 1
      && fd !in s.store.fs.fds && fd + 1 !in s.store.fs.fds
      && n.store.fs.fds.Keys == s.store.fs.fds.Keys + {fd, fd + 1}
      && (forall other :: other in s.store.fs.fds ==> n.store.fs.fds[other] == s.store.fs.fds[other])
      && n.store.fs.fds[fd].role == TargetOf(w) && n.store.fs.fds[fd + 1].role == TempOf(w)
  {
    InitWriteIs(s.store, w, id, WriterAt(s, w).h);
  }

  lemma {:induction false} OpenWriteFds(s: State, w: nat, id: nat, lost: set<int>)
    requires Sound(s) && FdsHeld(s, lost) && Allowed(s, OpenWrite(w, id))
    ensures FdsHeld(Next(s, OpenWrite(w, id)), lost)
  {
    var n := Next(s, OpenWrite(w, id));
    if Target(id) in s.store.fs.names {
      OpenWriteIs(s, w, id);
      forall fd | fd in s.store.fs.fds ensures IsHeld(n, fd) <==> IsHeld(s, fd) {
        OtherThanWriter(s, n, w, n.writers[w], s.store.fs.fds[fd].role, fd);
      }
    } else {
      SameFds(s, n, lost);
    }
  }

  lemma {:induction false} EndWriteIs(s: State, w: nat, revert: bool)
    requires Sound(s)
    ensures var n, h := Next(s, EndWrite(w, revert)), WriterAt(s, w).h;
      && n.readers == s.readers && n.writers == s.writers[w := n.writers[w]] && !n.writers[w].h.IsValid()
      && n.store.fs.fds == (if h.IsValid() then s.store.fs.fds - {h.targetfd, h.tempfd} else s.store.fs.fds)
      && (h.IsValid() ==> h.targetfd in s.store.fs.fds && h.tempfd in s.store.fs.fds && IsHeld(s, h.targetfd) && IsHeld(s, h.tempfd))
  {
    NobodyOk(s, 0, w);
  }

  lemma {:induction false} EndWriteFds(s: State, w: nat, revert: bool, lost: set<int>)
    requires Sound(s) && FdsHeld(s, lost)
    ensures FdsHeld(Next(s, EndWrite(w, revert)), lost)
  {
    var n := Next(s, EndWrite(w, revert));
    EndWriteIs(s, w, revert);
    forall fd | fd in n.store.fs.fds ensures fd in s.store.fs.fds && (IsHeld(n, fd) <==> IsHeld(s, fd)) {
      OtherThanWriter(s, n, w, n.writers[w], s.store.fs.fds[fd].role, fd);
    }
  }

  lemma {:induction false} DeleteFds(s: State, id: nat, lost: set<int>)
    requires FdsHeld(s, lost)
    ensures FdsHeld(Next(s, Delete(id)), lost)
  {
    SameFds(s, Next(s, Delete(id)), lost);
  }

  lemma {:induction false} ReadKeeps(s: Store, h: ReadHandle, chunkSize: nat)
    ensures var after := ReadFile(s, h, chunkSize).handle;
      after.fd == h.fd && after.buffer == h.buffer && after.fileID == h.fileID
  {
  }

  lemma {:induction false} ReadFds(s: State, r: nat, chunkSize: nat, lost: set<int>)
    requires FdsHeld(s, lost)
    ensures FdsHeld(Next(s, Read(r, chunkSize)), lost)
  {
    ReadKeeps(s.store, ReaderAt(s, r).h, chunkSize);
    SameFds(s, Next(s, Read(r, chunkSize)), lost);
  }

  lemma {:induction false} WriteKeeps(s: Store, h: WriteHandle, isLast: bool, data: seq<Byte>)
    ensures var d := WriteFile(s, h, isLast, data);
      && d.store.fs.fds == s.fs.fds && d.handle.fileID == h.fileID && d.handle.targetfd == h.targetfd
      && d.handle.tempfd == h.tempfd && d.handle.buffer == h.buffer
  {
  }

  lemma {:induction false} WriteFds(s: State, w: nat, isLast: bool, data: seq<Byte>, lost: set<int>)
    requires FdsHeld(s, lost)
    ensures FdsHeld(Next(s, Write(w, isLast, data)), lost)
  {
    WriteKeeps(s.store, WriterAt(s, w).h, isLast, data);
    SameFds(s, Next(s, Write(w, isLast, data)), lost);
  }

  lemma {:induction false} StepFds(s: State, step: Step, lost: set<int>)
    requires Sound(s) && FdsHeld(s, lost) && Allowed(s, step)
    ensures FdsHeld(Next(s, step), lost + LostBy(s, step))
  {
    assert !step.OpenRead? ==> lost + LostBy(s, step) == lost;
    match step
    case Create(id) => CreateFds(s, id, lost);
    case Delete(id) => DeleteFds(s, id, lost);
    case Read(r, chunkSize) => ReadFds(s, r, chunkSize, lost);
    case Write(w, isLast, data) => WriteFds(s, w, isLast, data, lost);
    case OpenRead(r, id, begin, end) => OpenReadFds(s, r, id, begin, end, lost);
    case EndRead(r) => EndReadFds(s, r, lost);
    case OpenWrite(w, id) => OpenWriteFds(s, w, id, lost);
    case EndWrite(w, revert) => EndWriteFds(s, w, revert, lost);
  }

  /** In every run each open descriptor is in the live handle it was opened for, except exactly
      those lost because all slots were taken and those open before the run without a handle. */
  lemma {:induction false} FdsAlwaysHeld(start: State, steps: seq<Step>)
    requires IsRun(start, steps)
    ensures FdsHeld(Run(start, steps), Lost(start, steps))
  {
    if steps != [] {
      var front := steps[..|steps| - 1];
      FdsAlwaysHeld(start, front);
      AlwaysSound(start, front);
      StepFds(Run(start, front), steps[|steps| - 1], Lost(start, front));
    }
  }

  // Whether a step of the run loses a descriptor.
  predicate Loses(start: State, steps: seq<Step>) {
    steps != [] && (Loses(start, steps[..|steps| - 1]) || LostBy(Run(start, steps[..|steps| - 1]), steps[|steps| - 1]) != {})
  }

  lemma {:induction false} NothingLost(fs: Fs, steps: seq<Step>)
    requires fs.fds == map[] && !Loses(OnDirectory(fs), steps)
    ensures Lost(OnDirectory(fs), steps) == {}
  {
    if steps != [] {
      NothingLost(fs, steps[..|steps| - 1]);
    }
  }

  /** So a run that never opens a file for reading with all slots taken has no descriptor open once
      all handles are closed. */
  lemma {:induction false} AllFdsReturn(fs: Fs, steps: seq<Step>)
    requires IsRun(OnDirectory(fs), steps) && fs.fds == map[] && !Loses(OnDirectory(fs), steps)
    requires forall r :: r in Run(OnDirectory(fs), steps).readers ==> !Run(OnDirectory(fs), steps).readers[r].h.IsValid()
    requires forall w :: w in Run(OnDirectory(fs), steps).writers ==> !Run(OnDirectory(fs), steps).writers[w].h.IsValid()
    ensures Run(OnDirectory(fs), steps).store.fs.fds == map[]
  {
    var n := Run(OnDirectory(fs), steps);
    NothingLost(fs, steps);
    FdsAlwaysHeld(OnDirectory(fs), steps);
    assert forall fd :: fd in n.store.fs.fds ==> !IsHeld(n, fd);
    assert forall fd :: fd !in n.store.fs.fds;
  }
}
