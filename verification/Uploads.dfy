/** Upload transactions (src/storage/transactions/WriteFileTransaction.cpp) over the datastore and
    the entries of the virtual filesystem, with any other steps in between. */
module Uploads {
  import opened Bits
  import opened FileStores
  import opened Datastores
  import opened DatastoreRuns
  import opened SnapshotIsolation

  // A transaction. Its write handle is the one of the same number in the datastore's state.
  datatype Upload = Upload(dir: nat, file: nat, isCommited: bool)

  // The datastore, the directory of every file entry, and the transactions.
  datatype World = World(ds: State, entries: map<nat, nat>, uploads: map<nat, Upload>)

  datatype Action =
    | Begin(t: nat, dir: nat, file: nat)               // the constructor
    | Start(t: nat)
    | Send(t: nat, isLast: bool, data: seq<Byte>)     // write
    | Commit(t: nat)
    | Destroy(t: nat)                                  // the destructor
    | AddEntry(dir: nat, file: nat)
    | RemoveEntry(file: nat)
    | Storing(step: Step)                              // anybody's use of the datastore

  // ---- what the actions do ----

  /** The calls an action makes to the datastore, in order. */
  function Calls(w: World, a: Action): seq<Step> {
    match a
    case Start(t) =>
      if t !in w.uploads then []
      else if Target(w.uploads[t].file) in w.ds.store.fs.names then [Create(w.uploads[t].file)]
      else [Create(w.uploads[t].file), OpenWrite(t, w.uploads[t].file)]
    case Send(t, isLast, data) => if t in w.uploads then [Write(t, isLast, data)] else []
    case Commit(t) => if t in w.uploads then [EndWrite(t, false)] else []
    case Destroy(t) =>
      if t in w.uploads && !w.uploads[t].isCommited then [EndWrite(t, true), Delete(w.uploads[t].file)] else []
    case Storing(step) => [step]
    case _ => []
  }

  function After(s: State, steps: seq<Step>): State
    decreases |steps|
  {
    if steps == [] then s else After(Next(s, steps[0]), steps[1..])
  }

  ghost predicate AllAllowed(s: State, steps: seq<Step>)
    decreases |steps|
  {
    steps == [] || (Allowed(s, steps[0]) && AllAllowed(Next(s, steps[0]), steps[1..]))
  }

  // fileDelete of the entry, if the directory has it.
  function WithoutEntry(entries: map<nat, nat>, dir: nat, file: nat): map<nat, nat> {
    if file in entries && entries[file] == dir then entries - {file} else entries
  }

  function EntriesAfter(w: World, a: Action): map<nat, nat> {
    match a
    case AddEntry(dir, file) => w.entries[file := dir]
    case RemoveEntry(file) => w.entries - {file}
    case Destroy(t) =>
      if t in w.uploads && !w.uploads[t].isCommited
      then WithoutEntry(w.entries, w.uploads[t].dir, w.uploads[t].file) else w.entries
    case _ => w.entries
  }

  function UploadsAfter(w: World, a: Action): map<nat, Upload> {
    match a
    case Begin(t, dir, file) => w.uploads[t := Upload(dir, file, false)]
    // commit marks the transaction whatever closeWrite returned
    case Commit(t) => if t in w.uploads then w.uploads[t := w.uploads[t].(isCommited := true)] else w.uploads
    case Destroy(t) => w.uploads - {t}
    case _ => w.uploads
  }

  function Act(w: World, a: Action): World {
    World(After(w.ds, Calls(w, a)), EntriesAfter(w, a), UploadsAfter(w, a))
  }

  function Acted(w: World, actions: seq<Action>): World {
    if actions == [] then w else Act(Acted(w, actions[..|actions| - 1]), actions[|actions| - 1])
  }

  // ---- a transaction as its owner sees it ----

  // Where a transaction stands: not started; being written, possibly with the last piece marked;
  // or stored.
  datatype Phase = Unstarted | Writing(data: seq<Byte>, done: bool) | Stored(data: seq<Byte>)

  function NextPhase(p: Phase, a: Action, t: nat): Phase {
    match a
    case Start(u) => if u == t && p.Unstarted? then Writing([], false) else p
    case Send(u, isLast, piece) => if u == t && p.Writing? && !p.done then Writing(p.data + piece, isLast) else p
    case Commit(u) => if u == t && p.Writing? then Stored(p.data) else p
    case _ => p
  }

  /** Where the actions lead, by the owner's calls alone: the first start, the pieces sent up to
      the one marked as the last, joined in order, and the first commit after the start. */
  function PhaseOf(actions: seq<Action>, t: nat): Phase {
    if actions == [] then Unstarted
    else NextPhase(PhaseOf(actions[..|actions| - 1], t), actions[|actions| - 1], t)
  }

  // ---- other people's actions ----

  // A step of the datastore that neither uses the handle nor concerns the file.
  predicate Foreign(step: Step, t: nat, file: nat) {
    match step
    case Create(id) => id != file
    case Delete(id) => id != file
    case OpenWrite(v, id) => v != t && id != file
    case Write(v, _, _) => v != t
    case EndWrite(v, _) => v != t
    case _ => true
  }

  /** An action of the transaction itself, but for its end, or one that leaves the file alone:
      nobody else creates, deletes or writes the file or changes its entry. */
  predicate Minds(w: World, a: Action, t: nat, file: nat) {
    match a
    case Begin(u, _, other) => u != t && other != file && u !in w.uploads && u !in w.ds.writers
    case AddEntry(_, other) => other != file
    case RemoveEntry(other) => other != file
    case Storing(step) => Foreign(step, t, file)
    case Destroy(u) => u != t
    case _ => true
  }

  // ... and whose calls are allowed.
  ghost predicate Mindful(w: World, a: Action, t: nat, file: nat) {
    Minds(w, a, t, file) && AllAllowed(w.ds, Calls(w, a))
  }

  ghost predicate MindfulRun(w: World, actions: seq<Action>, t: nat, file: nat) {
    actions == []
    || var front, a := actions[..|actions| - 1], actions[|actions| - 1];
       MindfulRun(w, front, t, file) && Mindful(Acted(w, front), a, t, file)
  }

  // ---- what holds of a transaction until it ends ----

  // Only t may have the file open for writing.
  ghost predicate OnlyWriter(s: State, t: nat, file: nat) {
    forall v :: v in s.writers && v != t && s.writers[v].h.IsValid() ==> s.writers[v].h.fileID != file
  }

  // No other handle and no other transaction has the file.
  ghost predicate Alone(w: World, t: nat, file: nat) {
    && (forall u :: u in w.uploads && u != t ==> w.uploads[u].file != file)
    && OnlyWriter(w.ds, t, file)
  }

  // What the datastore has of a transaction.
  ghost predicate Standing(s: State, t: nat, file: nat, phase: Phase) {
    var names, writer := s.store.fs.names, WriterAt(s, t);
    match phase
    case Unstarted => writer == Writer(NO_WRITE, []) && Target(file) !in names && Temp(file) !in names
    case Writing(data, done) => Midway(s, t, file, data, done) && Target(file) in names && Temp(file) in names
    case Stored(data) =>
      !writer.h.IsValid() && Target(file) in names && Temp(file) !in names && ContentOf(s.store.fs, Target(file)) == data
  }

  ghost predicate Living(w: World, t: nat, dir: nat, file: nat, phase: Phase, committed: bool) {
    && Sound(w.ds) && file != 0 && Alone(w, t, file)
    && t in w.uploads && w.uploads[t] == Upload(dir, file, committed)
    && (phase.Stored? ==> committed)
    && file in w.entries && w.entries[file] == dir
    && Standing(w.ds, t, file, phase)
  }

  // ---- foreign steps ----

  // What a transaction depends on in the datastore is as before.
  ghost predicate Untouched(s: State, s': State, t: nat, file: nat) {
    && WriterAt(s', t) == WriterAt(s, t)
    && (Target(file) in s'.store.fs.names <==> Target(file) in s.store.fs.names)
    && (Temp(file) in s'.store.fs.names <==> Temp(file) in s.store.fs.names)
    && ContentOf(s'.store.fs, Target(file)) == ContentOf(s.store.fs, Target(file))
  }

  lemma {:induction false} TempKept(s: State, step: Step, t: nat, file: nat)
    requires Foreign(step, t, file)
    requires step.EndWrite? ==> !WriterAt(s, step.w).h.IsValid() || WriterAt(s, step.w).h.fileID != file
    ensures Temp(file) in Next(s, step).store.fs.names <==> Temp(file) in s.store.fs.names
  {
    match step
    case OpenWrite(v, id) => OpenKeepsTemp(s.store, v, id, WriterAt(s, v).h, file);
    case EndWrite(v, revert) => CloseKeepsTemp(s.store, WriterAt(s, v).h, revert, file);
    case _ =>
  }

  lemma {:induction false} OpenKeepsTemp(s: Store, v: nat, id: nat, h: WriteHandle, file: nat)
    requires id != file
    ensures Temp(file) in InitWrite(s, v, id, h).store.fs.names <==> Temp(file) in s.fs.names
  {
  }

  lemma {:induction false} CloseKeepsTemp(s: Store, h: WriteHandle, revert: bool, file: nat)
    requires !h.IsValid() || h.fileID != file
    ensures Temp(file) in CloseWrite(s, h, revert).store.fs.names <==> Temp(file) in s.fs.names
  {
  }

  lemma {:induction false} OnlyWriterKept(s: State, step: Step, t: nat, file: nat)
    requires Foreign(step, t, file) && OnlyWriter(s, t, file)
    ensures OnlyWriter(Next(s, step), t, file) && WriterAt(Next(s, step), t) == WriterAt(s, t)
  {
    match step
    case OpenWrite(v, id) =>
    case Write(v, isLast, data) =>
    case EndWrite(v, revert) =>
    case _ =>
  }

  lemma {:induction false} ForeignStep(s: State, step: Step, t: nat, file: nat)
    requires Sound(s) && Allowed(s, step) && Foreign(step, t, file) && OnlyWriter(s, t, file)
    ensures Sound(Next(s, step)) && OnlyWriter(Next(s, step), t, file) && Untouched(s, Next(s, step), t, file)
  {
    assert step.EndWrite? ==> !WriterAt(s, step.w).h.IsValid() || WriterAt(s, step.w).h.fileID != file;
    StepSound(s, step);
    OnlyWriterKept(s, step, t, file);
    TempKept(s, step, t, file);
    OtherFilesKept(s, step, file);
  }

  lemma {:induction false} ForeignSteps(s: State, steps: seq<Step>, t: nat, file: nat)
    requires Sound(s) && AllAllowed(s, steps) && OnlyWriter(s, t, file)
    requires forall i :: 0 <= i < |steps| ==> Foreign(steps[i], t, file)
    ensures Sound(After(s, steps)) && OnlyWriter(After(s, steps), t, file) && Untouched(s, After(s, steps), t, file)
    decreases |steps|
  {
    if steps != [] {
      ForeignStep(s, steps[0], t, file);
      ForeignSteps(Next(s, steps[0]), steps[1..], t, file);
    }
  }

  lemma {:induction false} ForeignCalls(w: World, a: Action, t: nat, file: nat)
    requires Alone(w, t, file) && Minds(w, a, t, file)
    requires (a.Start? || a.Send? || a.Commit?) ==> a.t != t
    ensures forall i :: 0 <= i < |Calls(w, a)| ==> Foreign(Calls(w, a)[i], t, file)
  {
  }

  lemma {:induction false} EntryKept(w: World, a: Action, t: nat, file: nat)
    requires Alone(w, t, file) && Minds(w, a, t, file) && file in w.entries && t in w.uploads && a != Commit(t)
    ensures file in EntriesAfter(w, a) && EntriesAfter(w, a)[file] == w.entries[file]
    ensures t in UploadsAfter(w, a) && UploadsAfter(w, a)[t] == w.uploads[t]
    ensures forall u :: u in UploadsAfter(w, a) && u != t ==> UploadsAfter(w, a)[u].file != file
  {
  }

  lemma {:induction false} ForeignAction(w: World, a: Action, t: nat, dir: nat, file: nat, phase: Phase, committed: bool)
    requires Living(w, t, dir, file, phase, committed) && Minds(w, a, t, file) && AllAllowed(w.ds, Calls(w, a))
    requires (a.Start? || a.Send? || a.Commit?) ==> a.t != t
    ensures Living(Act(w, a), t, dir, file, phase, committed)
  {
    ForeignCalls(w, a, t, file);
    EntryKept(w, a, t, file);
    ForeignSteps(w.ds, Calls(w, a), t, file);
    UntouchedStanding(w.ds, After(w.ds, Calls(w, a)), t, file, phase);
  }

  lemma {:induction false} UntouchedStanding(s: State, s': State, t: nat, file: nat, phase: Phase)
    requires Untouched(s, s', t, file) && Standing(s, t, file, phase)
    ensures Standing(s', t, file, phase)
  {
  }

  // ---- the transaction's own actions ----

  lemma {:induction false} TwoSteps(s: State, a: Step, b: Step)
    ensures After(s, [a, b]) == Next(Next(s, a), b) && After(s, [a]) == Next(s, a)
    ensures AllAllowed(s, [a, b]) <==> Allowed(s, a) && Allowed(Next(s, a), b)
    ensures AllAllowed(s, [a]) <==> Allowed(s, a)
  {
    assert [a, b][1..] == [b] && [b][1..] == [] && [a][1..] == [];
    assert After(Next(s, a), [b]) == After(Next(Next(s, a), b), [b][1..]);
    assert AllAllowed(Next(s, a), [b]) <==> Allowed(Next(s, a), b) && AllAllowed(Next(Next(s, a), b), [b][1..]);
  }

  lemma {:induction false} StartLives(w: World, t: nat, dir: nat, file: nat, phase: Phase, committed: bool)
    requires Living(w, t, dir, file, phase, committed) && AllAllowed(w.ds, Calls(w, Start(t)))
    ensures Living(Act(w, Start(t)), t, dir, file, NextPhase(phase, Start(t), t), committed)
  {
    var s := w.ds;
    TwoSteps(s, Create(file), OpenWrite(t, file));
    StepSound(s, Create(file));
    if phase.Unstarted? {
      var c := Next(s, Create(file));
      StepSound(c, OpenWrite(t, file));
      OpenMidway(c, t, file);
      InitWriteIs(c.store, t, file, WriterAt(c, t).h);
    }
  }

  lemma {:induction false} SendLives(w: World, t: nat, dir: nat, file: nat, phase: Phase, committed: bool,
                                     isLast: bool, data: seq<Byte>)
    requires Living(w, t, dir, file, phase, committed) && AllAllowed(w.ds, Calls(w, Send(t, isLast, data)))
    ensures Living(Act(w, Send(t, isLast, data)), t, dir, file, NextPhase(phase, Send(t, isLast, data), t), committed)
  {
    var step := Write(t, isLast, data);
    TwoSteps(w.ds, step, step);
    StepSound(w.ds, step);
    if phase.Writing? {
      MidwayStep(w.ds, step, t, file, phase.data, phase.done);
    }
  }

  lemma {:induction false} CommitLives(w: World, t: nat, dir: nat, file: nat, phase: Phase, committed: bool)
    requires Living(w, t, dir, file, phase, committed)
    ensures Living(Act(w, Commit(t)), t, dir, file, NextPhase(phase, Commit(t), t), true)
  {
    var s, step := w.ds, EndWrite(t, false);
    TwoSteps(s, step, step);
    StepSound(s, step);
    if phase.Writing? {
      CloseSettles(s, t, file, phase.data, phase.done, false);
    }
  }

  lemma {:induction false} ActionLives(w: World, a: Action, t: nat, dir: nat, file: nat, phase: Phase, committed: bool)
    requires Living(w, t, dir, file, phase, committed) && Mindful(w, a, t, file)
    ensures Living(Act(w, a), t, dir, file, NextPhase(phase, a, t), committed || a == Commit(t))
  {
    if a == Start(t) {
      StartLives(w, t, dir, file, phase, committed);
    } else if a.Send? && a.t == t {
      SendLives(w, t, dir, file, phase, committed, a.isLast, a.data);
    } else if a == Commit(t) {
      CommitLives(w, t, dir, file, phase, committed);
    } else {
      ForeignAction(w, a, t, dir, file, phase, committed);
    }
  }

  lemma {:induction false} ActedPush(w: World, actions: seq<Action>, a: Action, t: nat)
    ensures Acted(w, actions + [a]) == Act(Acted(w, actions), a)
    ensures PhaseOf(actions + [a], t) == NextPhase(PhaseOf(actions, t), a, t)
    ensures Commit(t) in actions + [a] <==> Commit(t) in actions || a == Commit(t)
  {
    assert (actions + [a])[..|actions|] == actions;
  }

  lemma {:induction false} RunLives(w: World, actions: seq<Action>, t: nat, dir: nat, file: nat)
    requires Living(w, t, dir, file, Unstarted, false) && MindfulRun(w, actions, t, file)
    ensures Living(Acted(w, actions), t, dir, file, PhaseOf(actions, t), Commit(t) in actions)
    decreases |actions|
  {
    if actions != [] {
      var front, a := actions[..|actions| - 1], actions[|actions| - 1];
      RunLives(w, front, t, dir, file);
      LivesOn(w, front, a, t, dir, file);
      assert actions == front + [a];
    }
  }

  lemma {:induction false} LivesOn(w: World, front: seq<Action>, a: Action, t: nat, dir: nat, file: nat)
    requires Living(Acted(w, front), t, dir, file, PhaseOf(front, t), Commit(t) in front)
    requires Mindful(Acted(w, front), a, t, file)
    ensures Living(Acted(w, front + [a]), t, dir, file, PhaseOf(front + [a], t), Commit(t) in front + [a])
  {
    ActionLives(Acted(w, front), a, t, dir, file, PhaseOf(front, t), Commit(t) in front);
    ActedPush(w, front, a, t);
  }

  // ---- the end of a transaction ----

  // Committed: the entry is there, the file holds the data, no temporary file is left.
  ghost predicate IsStored(w: World, dir: nat, file: nat, data: seq<Byte>) {
    && file in w.entries && w.entries[file] == dir
    && Target(file) in w.ds.store.fs.names && ContentOf(w.ds.store.fs, Target(file)) == data
    && Temp(file) !in w.ds.store.fs.names
  }

  // Aborted: neither entry nor file nor temporary file is left.
  ghost predicate IsGone(w: World, file: nat) {
    file !in w.entries && Target(file) !in w.ds.store.fs.names && Temp(file) !in w.ds.store.fs.names
  }

  lemma {:induction false} AbortLeavesNothing(w: World, t: nat, dir: nat, file: nat, phase: Phase)
    requires Living(w, t, dir, file, phase, false)
    ensures IsGone(Act(w, Destroy(t)), file)
  {
    var s := w.ds;
    TwoSteps(s, EndWrite(t, true), Delete(file));
    if phase.Writing? {
      CloseSettles(s, t, file, phase.data, phase.done, true);
    }
  }

  // A transaction for a new file: its entry has been made, and nothing else knows the id.
  ghost predicate IsNew(w: World, t: nat, dir: nat, file: nat) {
    && Sound(w.ds) && file != 0 && Alone(w, t, file) && t !in w.ds.writers
    && file in w.entries && w.entries[file] == dir
    && Target(file) !in w.ds.store.fs.names && Temp(file) !in w.ds.store.fs.names
  }

  /** Upload atomicity. Take a transaction for a new file, and any actions in which nobody else
      creates, deletes or writes that file or changes its entry. When it is destroyed after having
      been started and then committed, the entry is there, the file holds the pieces joined in
      order, and no temporary file is left. When it was never committed, neither entry nor file nor
      temporary file is left. One of the two is the case exactly then: a commit marks the
      transaction even if its handle is not valid. */
  lemma {:induction false} AllOrNothing(w: World, actions: seq<Action>, t: nat, dir: nat, file: nat)
    requires IsNew(w, t, dir, file) && MindfulRun(Act(w, Begin(t, dir, file)), actions, t, file)
    ensures var after, phase := Act(Acted(Act(w, Begin(t, dir, file)), actions), Destroy(t)), PhaseOf(actions, t);
      && (phase.Stored? ==> IsStored(after, dir, file, phase.data))
      && (Commit(t) !in actions ==> IsGone(after, file))
      && ((exists data :: IsStored(after, dir, file, data)) || IsGone(after, file)
          <==> phase.Stored? || Commit(t) !in actions)
  {
    var begun := Act(w, Begin(t, dir, file));
    assert Living(begun, t, dir, file, Unstarted, false);
    RunLives(begun, actions, t, dir, file);
    var before := Acted(begun, actions);
    if Commit(t) !in actions {
      AbortLeavesNothing(before, t, dir, file, PhaseOf(actions, t));
    } else if PhaseOf(actions, t).Stored? {
      assert IsStored(Act(before, Destroy(t)), dir, file, PhaseOf(actions, t).data);
    }
  }

  /** It can fail: a transaction that is committed without having been started is marked as
      committed, so its entry stays although no file was stored. */
  lemma {:induction false} CommitUnstarted(w: World, t: nat, dir: nat, file: nat)
    requires IsNew(w, t, dir, file)
    ensures var after := Act(Act(Act(w, Begin(t, dir, file)), Commit(t)), Destroy(t));
      file in after.entries && Target(file) !in after.ds.store.fs.names
  {
    var begun := Act(w, Begin(t, dir, file));
    TwoSteps(begun.ds, EndWrite(t, false), EndWrite(t, false));
  }
}
