/** The reader/writer spinlock (src/datastructures/Spinlock.cpp, CooperativeSpinlock) as a state
    machine: any number of threads, one atomic operation per step, in any order.

    Sequential consistency is assumed. Each thread also remembers when it passed the points the
    main results speak of; those times are never read by a step. */
module Spinlocks {

  datatype Pc =
    | Idle
    | CoopTesting     // reading exclusiveCount, until it is not positive
    | CoopLocking     // taking unique
    | CoopAdding      // about to increment coopCount
    | CoopReleasing   // about to release unique
    | Reading         // holds the lock with other readers
    | ExLocking       // taking unique
    | ExAdding        // about to increment exclusiveCount
    | ExReleasing     // about to release unique
    | ExWaiting       // reading coopCount, until it is not positive
    | ExTaking        // taking exclusive
    | Writing         // holds the lock as a writer
    | ExDropping      // released exclusive, about to decrement exclusiveCount

  // When a reader's test passed and it was counted; when a writer announced itself and when it
  // saw no readers.
  datatype Thread = Thread(pc: Pc, tested: nat, counted: nat, announced: nat, checked: nat)

  // The atomic fields.
  datatype Shared = Shared(coopCount: int, exclusiveCount: int, exclusive: bool, unique: bool)

  datatype State = State(shared: Shared, threads: map<nat, Thread>, clock: nat)

  // ---- the steps ----

  // A thread at this place spins.
  predicate Spins(m: Shared, pc: Pc) {
    match pc
    case CoopTesting => m.exclusiveCount > 0
    case CoopLocking => m.unique
    case ExLocking => m.unique
    case ExWaiting => m.coopCount > 0
    case ExTaking => m.exclusive
    case _ => false
  }

  // What the atomic operation at this place does to the fields.
  function Operate(m: Shared, pc: Pc): Shared {
    match pc
    case CoopLocking => m.(unique := true)
    case CoopAdding => m.(coopCount := m.coopCount + 1)
    case CoopReleasing => m.(unique := false)
    case Reading => m.(coopCount := m.coopCount - 1)
    case ExLocking => m.(unique := true)
    case ExAdding => m.(exclusiveCount := m.exclusiveCount + 1)
    case ExReleasing => m.(unique := false)
    case ExTaking => m.(exclusive := true)
    case Writing => m.(exclusive := false)
    case ExDropping => m.(exclusiveCount := m.exclusiveCount - 1)
    case _ => m
  }

  // The places of coopAdd, coopRemove, exclusiveAdd and exclusiveRemove in order. An idle thread
  // chooses whether it wants to write.
  function Advance(th: Thread, write: bool, clock: nat): Thread {
    match th.pc
    case Idle => th.(pc := if write then ExLocking else CoopTesting)
    case CoopTesting => th.(pc := CoopLocking, tested := clock)
    case CoopLocking => th.(pc := CoopAdding)
    case CoopAdding => th.(pc := CoopReleasing, counted := clock)
    case CoopReleasing => th.(pc := Reading)
    case Reading => th.(pc := Idle)
    case ExLocking => th.(pc := ExAdding)
    case ExAdding => th.(pc := ExReleasing, announced := clock)
    case ExReleasing => th.(pc := ExWaiting)
    case ExWaiting => th.(pc := ExTaking, checked := clock)
    case ExTaking => th.(pc := Writing)
    case Writing => th.(pc := ExDropping)
    case ExDropping => th.(pc := Idle)
  }

  /** The next atomic operation of thread t; one that spins leaves the state as it is. */
  function Next(s: State, t: nat, write: bool): State
    requires t in s.threads
  {
    var th := s.threads[t];
    if Spins(s.shared, th.pc) then s
    else State(Operate(s.shared, th.pc), s.threads[t := Advance(th, write, s.clock)], s.clock + 1)
  }

  function Init(ids: set<nat>): State {
    State(Shared(0, 0, false, false), map t | t in ids :: Thread(Idle, 0, 0, 0, 0), 0)
  }

  // A schedule names the thread that moves at each step.
  datatype Move = Move(thread: nat, write: bool)

  predicate IsSchedule(ids: set<nat>, moves: seq<Move>) {
    forall i :: 0 <= i < |moves| ==> moves[i].thread in ids
  }

  function Run(ids: set<nat>, moves: seq<Move>): (s: State)
    requires IsSchedule(ids, moves)
    ensures s.threads.Keys == ids
  {
    if moves == [] then Init(ids)
    else
      var move := moves[|moves| - 1];
      Next(Run(ids, moves[..|moves| - 1]), move.thread, move.write)
  }

  // ---- who is where ----

  predicate IsReaders(pc: Pc) {
    pc.CoopTesting? || pc.CoopLocking? || pc.CoopAdding? || pc.CoopReleasing? || pc.Reading?
  }

  predicate IsWriters(pc: Pc) {
    !pc.Idle? && !IsReaders(pc)
  }

  predicate IsCounted(pc: Pc) {
    pc.CoopReleasing? || pc.Reading?
  }

  predicate IsPastTest(pc: Pc) {
    pc.CoopLocking? || pc.CoopAdding? || IsCounted(pc)
  }

  predicate IsAnnounced(pc: Pc) {
    pc.ExReleasing? || pc.ExWaiting? || pc.ExTaking? || pc.Writing? || pc.ExDropping?
  }

  predicate IsPastCheck(pc: Pc) {
    pc.ExTaking? || pc.Writing?
  }

  predicate HasUnique(pc: Pc) {
    pc.CoopAdding? || pc.CoopReleasing? || pc.ExAdding? || pc.ExReleasing?
  }

  predicate HasExclusive(pc: Pc) {
    pc.Writing?
  }

  function Members(threads: map<nat, Thread>, p: Pc -> bool): set<nat> {
    set t | t in threads.Keys && p(threads[t].pc)
  }

  function OneIf(b: bool): nat {
    if b then 1 else 0
  }

  /** The counters count: readers counted in, writers announced, holders of the two inner locks. */
  ghost predicate Counts(s: State) {
    && s.shared.coopCount == |Members(s.threads, IsCounted)|
    && s.shared.exclusiveCount == |Members(s.threads, IsAnnounced)|
    && |Members(s.threads, HasUnique)| == OneIf(s.shared.unique)
    && |Members(s.threads, HasExclusive)| == OneIf(s.shared.exclusive)
  }

  // Members with the new set lose the thread or gain it.
  lemma {:induction false} Recount(threads: map<nat, Thread>, t: nat, th: Thread, p: Pc -> bool)
    requires t in threads
    ensures |Members(threads[t := th], p)| == |Members(threads, p)| - OneIf(p(threads[t].pc)) + OneIf(p(th.pc))
  {
    var before, after := Members(threads, p), Members(threads[t := th], p);
    if p(th.pc) {
      assert after == before + {t};
    } else {
      assert after == before - {t};
    }
  }

  // Every operation changes the counters and locks as it changes the place of its thread.
  lemma {:induction false} OperationBalance(m: Shared, th: Thread, write: bool, clock: nat)
    requires !Spins(m, th.pc) && (HasUnique(th.pc) ==> m.unique) && (HasExclusive(th.pc) ==> m.exclusive)
    ensures Balanced(m, th.pc, Operate(m, th.pc), Advance(th, write, clock).pc)
  {
  }

  predicate Balanced(m: Shared, a: Pc, n: Shared, b: Pc) {
    && n.coopCount - m.coopCount == OneIf(IsCounted(b)) - OneIf(IsCounted(a))
    && n.exclusiveCount - m.exclusiveCount == OneIf(IsAnnounced(b)) - OneIf(IsAnnounced(a))
    && OneIf(n.unique) - OneIf(m.unique) == OneIf(HasUnique(b)) - OneIf(HasUnique(a))
    && OneIf(n.exclusive) - OneIf(m.exclusive) == OneIf(HasExclusive(b)) - OneIf(HasExclusive(a))
  }

  lemma {:induction false} SomeMember(threads: map<nat, Thread>, t: nat, p: Pc -> bool)
    requires t in threads && p(threads[t].pc)
    ensures |Members(threads, p)| > 0
  {
    assert t in Members(threads, p);
  }

  lemma {:induction false} HoldersHold(s: State, t: nat)
    requires t in s.threads && Counts(s)
    ensures (HasUnique(s.threads[t].pc) ==> s.shared.unique) && (HasExclusive(s.threads[t].pc) ==> s.shared.exclusive)
  {
    if HasUnique(s.threads[t].pc) {
      SomeMember(s.threads, t, HasUnique);
    }
    if HasExclusive(s.threads[t].pc) {
      SomeMember(s.threads, t, HasExclusive);
    }
  }

  lemma {:induction false} CountsKept(s: State, t: nat, write: bool)
    requires t in s.threads && Counts(s)
    ensures Counts(Next(s, t, write))
  {
    var th := s.threads[t];
    if !Spins(s.shared, th.pc) {
      HoldersHold(s, t);
      OperationBalance(s.shared, th, write, s.clock);
      CountsFollow(s, t, Operate(s.shared, th.pc), Advance(th, write, s.clock));
    }
  }

  lemma {:induction false} CountsFollow(s: State, t: nat, shared: Shared, th: Thread)
    requires t in s.threads && Counts(s) && Balanced(s.shared, s.threads[t].pc, shared, th.pc)
    ensures Counts(State(shared, s.threads[t := th], s.clock + 1))
  {
    Recount(s.threads, t, th, IsCounted);
    Recount(s.threads, t, th, IsAnnounced);
    Recount(s.threads, t, th, HasUnique);
    Recount(s.threads, t, th, HasExclusive);
  }

  lemma {:induction false} CountsAlways(ids: set<nat>, moves: seq<Move>)
    requires IsSchedule(ids, moves)
    ensures Counts(Run(ids, moves))
  {
    if moves == [] {
      var none := Init(ids).threads;
      assert Members(none, IsCounted) == {} && Members(none, IsAnnounced) == {};
      assert Members(none, HasUnique) == {} && Members(none, HasExclusive) == {};
    } else {
      var move := moves[|moves| - 1];
      CountsAlways(ids, moves[..|moves| - 1]);
      CountsKept(Run(ids, moves[..|moves| - 1]), move.thread, move.write);
    }
  }

  lemma {:induction false} OnlyMember(a: set<nat>, x: nat, y: nat)
    requires |a| <= 1 && x in a && y in a
    ensures x == y
  {
    var rest := a - {x};
    assert a == rest + {x};
    assert y in rest + {x};
  }

  /** At most one writer holds the lock, in every run. */
  lemma {:induction false} OneWriter(ids: set<nat>, moves: seq<Move>, v: nat, w: nat)
    requires IsSchedule(ids, moves) && v in ids && w in ids
    requires Run(ids, moves).threads[v].pc.Writing? && Run(ids, moves).threads[w].pc.Writing?
    ensures v == w
  {
    CountsAlways(ids, moves);
    OnlyMember(Members(Run(ids, moves).threads, HasExclusive), v, w);
  }

  // ---- the order of the remembered points ----

  // Points lie in the past; a thread passes them in order.
  predicate PointsPast(th: Thread, clock: nat) {
    && (IsPastTest(th.pc) ==> th.tested < clock)
    && (IsCounted(th.pc) ==> th.tested < th.counted < clock)
    && (IsAnnounced(th.pc) ==> th.announced < clock)
    && (IsPastCheck(th.pc) ==> th.announced < th.checked < clock)
  }

  ghost predicate InPast(s: State) {
    forall t :: t in s.threads ==> PointsPast(s.threads[t], s.clock)
  }

  // A reader past its test passed it before any announcement still standing, and a writer past
  // its check passed it before any reader still counted was counted.
  predicate Crosses(r: Thread, w: Thread) {
    && (IsPastTest(r.pc) && IsAnnounced(w.pc) ==> r.tested < w.announced)
    && (IsCounted(r.pc) && IsPastCheck(w.pc) ==> w.checked < r.counted)
  }

  ghost predicate Crossed(s: State) {
    forall r, w :: r in s.threads && w in s.threads ==> Crosses(s.threads[r], s.threads[w])
  }

  // A counter that is not positive leaves no thread counted.
  lemma {:induction false} NoneCounted(s: State, p: Pc -> bool, t: nat)
    requires |Members(s.threads, p)| <= 0 && t in s.threads
    ensures !p(s.threads[t].pc)
  {
    assert t !in Members(s.threads, p);
  }

  lemma {:induction false} PointsKept(th: Thread, write: bool, clock: nat)
    requires PointsPast(th, clock)
    ensures PointsPast(th, clock + 1) && PointsPast(Advance(th, write, clock), clock + 1)
  {
  }

  lemma {:induction false} PastKept(s: State, t: nat, write: bool)
    requires t in s.threads && InPast(s)
    ensures InPast(Next(s, t, write))
  {
    var n := Next(s, t, write);
    forall u | u in n.threads ensures PointsPast(n.threads[u], n.clock) {
      PointsKept(s.threads[u], write, s.clock);
    }
  }

  // A reader that advances: when its test passes, no announcement stands.
  lemma {:induction false} ReaderCrosses(r: Thread, w: Thread, write: bool, clock: nat)
    requires Crosses(r, w) && PointsPast(w, clock) && (r.pc.CoopTesting? ==> !IsAnnounced(w.pc))
    ensures Crosses(Advance(r, write, clock), w)
  {
  }

  // A writer that advances: when its check passes, no reader is counted.
  lemma {:induction false} WriterCrosses(r: Thread, w: Thread, write: bool, clock: nat)
    requires Crosses(r, w) && PointsPast(r, clock) && (w.pc.ExWaiting? ==> !IsCounted(r.pc))
    ensures Crosses(r, Advance(w, write, clock))
  {
  }

  lemma {:induction false} NoSelfCrossing(th: Thread)
    ensures Crosses(th, th)
  {
  }

  lemma {:induction false} CrossedKept(s: State, t: nat, write: bool)
    requires t in s.threads && Counts(s) && InPast(s) && Crossed(s)
    ensures Crossed(Next(s, t, write))
  {
    var n, th := Next(s, t, write), s.threads[t];
    if !Spins(s.shared, th.pc) {
      forall r, w | r in n.threads && w in n.threads ensures Crosses(n.threads[r], n.threads[w]) {
        if r == w {
          NoSelfCrossing(n.threads[r]);
        } else if r == t {
          if th.pc.CoopTesting? {
            NoneCounted(s, IsAnnounced, w);
          }
          ReaderCrosses(th, s.threads[w], write, s.clock);
        } else if w == t {
          if th.pc.ExWaiting? {
            NoneCounted(s, IsCounted, r);
          }
          WriterCrosses(s.threads[r], th, write, s.clock);
        }
      }
    }
  }

  lemma {:induction false} OrderAlways(ids: set<nat>, moves: seq<Move>)
    requires IsSchedule(ids, moves)
    ensures InPast(Run(ids, moves)) && Crossed(Run(ids, moves))
  {
    if moves != [] {
      var move := moves[|moves| - 1];
      OrderAlways(ids, moves[..|moves| - 1]);
      CountsAlways(ids, moves[..|moves| - 1]);
      PastKept(Run(ids, moves[..|moves| - 1]), move.thread, move.write);
      CrossedKept(Run(ids, moves[..|moves| - 1]), move.thread, move.write);
    }
  }

  /** A reader holds the lock together with a writer only through one race: its test passed before
      the writer's announcement, and it was counted after the writer had seen no readers. So a
      reader whose test comes after the announcement never overlaps the writer. */
  lemma {:induction false} OverlapOnlyByRace(ids: set<nat>, moves: seq<Move>, r: nat, w: nat)
    requires IsSchedule(ids, moves) && r in ids && w in ids
    requires Run(ids, moves).threads[r].pc.Reading? && Run(ids, moves).threads[w].pc.Writing?
    ensures var reader, writer := Run(ids, moves).threads[r], Run(ids, moves).threads[w];
      reader.tested < writer.announced < writer.checked < reader.counted
  {
    OrderAlways(ids, moves);
  }


  // Appending one move to a run.
  lemma {:induction false} RunPush(ids: set<nat>, moves: seq<Move>, move: Move)
    requires IsSchedule(ids, moves) && move.thread in ids
    ensures IsSchedule(ids, moves + [move])
    ensures Run(ids, moves + [move]) == Next(Run(ids, moves), move.thread, move.write)
  {
    assert (moves + [move])[..|moves|] == moves;
  }

  // n moves in a row of one thread.
  function Repeat(s: State, t: nat, write: bool, n: nat): (s': State)
    requires t in s.threads
    ensures s'.threads.Keys == s.threads.Keys
  {
    if n == 0 then s else Next(Repeat(s, t, write, n - 1), t, write)
  }

  lemma {:induction false} OneMoreMove(moves: seq<Move>, move: Move, n: nat)
    requires n > 0
    ensures (moves + seq(n - 1, _ => move)) + [move] == moves + seq(n, _ => move)
  {
  }

  lemma {:induction false} RunRepeat(ids: set<nat>, moves: seq<Move>, move: Move, n: nat)
    requires IsSchedule(ids, moves) && move.thread in ids
    ensures IsSchedule(ids, moves + seq(n, _ => move))
    ensures Run(ids, moves + seq(n, _ => move)) == Repeat(Run(ids, moves), move.thread, move.write, n)
  {
    if n == 0 {
      assert moves + seq(n, _ => move) == moves;
    } else {
      RunRepeat(ids, moves, move, n - 1);
      RunPush(ids, moves + seq(n - 1, _ => move), move);
      OneMoreMove(moves, move, n);
    }
  }

  // A reader and a writer hold the lock at the same time.
  predicate Overlap(s: State, r: nat, w: nat) {
    r in s.threads && w in s.threads && s.threads[r].pc.Reading? && s.threads[w].pc.Writing?
  }

  /** The race happens: any two threads can come to hold the lock together, one reading and one
      writing. The reader tests, the writer goes all the way, the reader goes on. */
  lemma {:induction false} RaceHappens(ids: set<nat>, r: nat, w: nat) returns (moves: seq<Move>)
    requires r in ids && w in ids && r != w
    ensures IsSchedule(ids, moves) && Overlap(Run(ids, moves), r, w)
  {
    var test := [] + seq(2, _ => Move(r, false));
    RunRepeat(ids, [], Move(r, false), 2);
    var s := Run(ids, test);
    Tested(Init(ids), r);
    var entered := test + seq(6, _ => Move(w, true));
    RunRepeat(ids, test, Move(w, true), 6);
    Entered(s, w);
    moves := entered + seq(3, _ => Move(r, false));
    RunRepeat(ids, entered, Move(r, false), 3);
    Counted(Run(ids, entered), r);
  }

  // A reader that no writer keeps out goes all the way.
  lemma {:induction false} ReaderEnters(s: State, t: nat)
    requires t in s.threads && s.threads[t].pc.Idle? && s.shared.exclusiveCount == 0 && !s.shared.unique
    ensures var n := Repeat(s, t, false, 5);
      n.threads[t].pc.Reading? && n.shared == s.shared.(coopCount := s.shared.coopCount + 1)
      && forall u :: u in s.threads && u != t ==> n.threads[u] == s.threads[u]
  {
    Tested(s, t);
    Counted(Repeat(s, t, false, 2), t);
    RepeatAgain(s, t, false, 2, 3);
  }

  lemma {:induction false} RepeatAgain(s: State, t: nat, write: bool, m: nat, n: nat)
    requires t in s.threads
    ensures Repeat(Repeat(s, t, write, m), t, write, n) == Repeat(s, t, write, m + n)
  {
    if n > 0 {
      RepeatAgain(s, t, write, m, n - 1);
      assert Repeat(s, t, write, m + n) == Next(Repeat(s, t, write, m + (n - 1)), t, write);
    }
  }

  // These threads read, the others are idle, and nothing keeps readers out.
  predicate TheseRead(s: State, readers: set<nat>) {
    && s.shared.exclusiveCount == 0 && !s.shared.unique
    && forall t :: t in s.threads ==> if t in readers then s.threads[t].pc.Reading? else s.threads[t].pc.Idle?
  }

  /** Readers share the lock: there is a run to a state in which any of the threads one likes hold it
      for reading, all at once. */
  lemma {:induction false} ReadersShare(ids: set<nat>, readers: set<nat>) returns (moves: seq<Move>)
    requires readers <= ids
    ensures IsSchedule(ids, moves) && TheseRead(Run(ids, moves), readers)
    decreases readers
  {
    if readers == {} {
      moves := [];
    } else {
      var t :| t in readers;
      var before := ReadersShare(ids, readers - {t});
      moves := before + seq(5, _ => Move(t, false));
      RunRepeat(ids, before, Move(t, false), 5);
      ReaderEnters(Run(ids, before), t);
    }
  }

  // No run has an overlap.
  ghost predicate Excludes(ids: set<nat>) {
    forall moves, r, w :: IsSchedule(ids, moves) ==> NoOverlapIn(ids, moves, r, w)
  }

  predicate NoOverlapIn(ids: set<nat>, moves: seq<Move>, r: nat, w: nat)
    requires IsSchedule(ids, moves)
  {
    !Overlap(Run(ids, moves), r, w)
  }

  /** So plain exclusion of readers and writers holds in every run exactly when there are fewer
      than two threads. */
  lemma {:induction false} ExclusionExactlyAlone(ids: set<nat>)
    ensures Excludes(ids) <==> |ids| < 2
  {
    if |ids| >= 2 {
      var r := Pick(ids);
      var w := Pick(ids - {r});
      var moves := RaceHappens(ids, r, w);
      assert !NoOverlapIn(ids, moves, r, w);
    } else {
      forall moves, r, w | IsSchedule(ids, moves) ensures NoOverlapIn(ids, moves, r, w) {
        if Overlap(Run(ids, moves), r, w) {
          OnlyMember(ids, r, w);
        }
      }
    }
  }

  lemma {:induction false} Tested(s: State, t: nat)
    requires t in s.threads && s.threads[t].pc.Idle? && s.shared.exclusiveCount == 0
    ensures var n := Repeat(s, t, false, 2);
      n.threads[t].pc.CoopLocking? && n.shared == s.shared
      && forall u :: u in s.threads && u != t ==> n.threads[u] == s.threads[u]
  {
    var a := Repeat(s, t, false, 1);
    assert a == Next(Repeat(s, t, false, 0), t, false);
    assert Repeat(s, t, false, 2) == Next(a, t, false);
  }

  lemma {:induction false} Announced(s: State, t: nat)
    requires t in s.threads && s.threads[t].pc.Idle? && !s.shared.unique
    ensures var n := Repeat(s, t, true, 4);
      n.threads[t].pc.ExWaiting? && n.shared == s.shared.(exclusiveCount := s.shared.exclusiveCount + 1)
      && forall u :: u in s.threads && u != t ==> n.threads[u] == s.threads[u]
  {
    assert Repeat(s, t, true, 1) == Next(Repeat(s, t, true, 0), t, true);
    assert Repeat(s, t, true, 2) == Next(Repeat(s, t, true, 1), t, true);
    assert Repeat(s, t, true, 3) == Next(Repeat(s, t, true, 2), t, true);
    assert Repeat(s, t, true, 4) == Next(Repeat(s, t, true, 3), t, true);
  }

  lemma {:induction false} Entered(s: State, t: nat)
    requires t in s.threads && s.threads[t].pc.Idle? && s.shared.coopCount == 0 && !s.shared.unique && !s.shared.exclusive
    ensures var n := Repeat(s, t, true, 6);
      n.threads[t].pc.Writing? && !n.shared.unique
      && forall u :: u in s.threads && u != t ==> n.threads[u] == s.threads[u]
  {
    Announced(s, t);
    assert Repeat(s, t, true, 5) == Next(Repeat(s, t, true, 4), t, true);
    assert Repeat(s, t, true, 6) == Next(Repeat(s, t, true, 5), t, true);
  }

  lemma {:induction false} Counted(s: State, t: nat)
    requires t in s.threads && s.threads[t].pc.CoopLocking? && !s.shared.unique
    ensures var n := Repeat(s, t, false, 3);
      n.threads[t].pc.Reading? && n.shared == s.shared.(coopCount := s.shared.coopCount + 1)
      && forall u :: u in s.threads && u != t ==> n.threads[u] == s.threads[u]
  {
    assert Repeat(s, t, false, 1) == Next(Repeat(s, t, false, 0), t, false);
    assert Repeat(s, t, false, 2) == Next(Repeat(s, t, false, 1), t, false);
    assert Repeat(s, t, false, 3) == Next(Repeat(s, t, false, 2), t, false);
  }

  // ---- no deadlock ----

  predicate CanMove(s: State, t: nat) {
    t in s.threads && Next(s, t, false) != s
  }

  lemma {:induction false} Pick(a: set<nat>) returns (t: nat)
    requires |a| > 0
    ensures t in a
  {
    t :| t in a;
  }

  // Whoever blocks the others can move itself, or is blocked by somebody who can.
  lemma {:induction false} UniqueMoves(s: State) returns (t: nat)
    requires Counts(s) && s.shared.unique
    ensures CanMove(s, t) && !s.threads[t].pc.Idle?
  {
    t := Pick(Members(s.threads, HasUnique));
  }

  lemma {:induction false} CountedMoves(s: State) returns (t: nat)
    requires Counts(s) && s.shared.coopCount > 0
    ensures CanMove(s, t) && !s.threads[t].pc.Idle?
  {
    t := Pick(Members(s.threads, IsCounted));
  }

  lemma {:induction false} WriterMoves(s: State) returns (t: nat)
    requires Counts(s) && s.shared.exclusive
    ensures CanMove(s, t) && !s.threads[t].pc.Idle?
  {
    t := Pick(Members(s.threads, HasExclusive));
  }

  lemma {:induction false} AnnouncedMoves(s: State, w: nat) returns (t: nat)
    requires Counts(s) && w in s.threads && IsAnnounced(s.threads[w].pc)
    ensures CanMove(s, t) && !s.threads[t].pc.Idle?
  {
    t := w;
    if s.threads[w].pc.ExWaiting? && s.shared.coopCount > 0 {
      t := CountedMoves(s);
    } else if s.threads[w].pc.ExTaking? && s.shared.exclusive {
      t := WriterMoves(s);
    }
  }

  /** No deadlock: whenever some thread is in the middle of an operation, then one that is can
      move, so that the lock never needs a new caller to come free. */
  lemma {:induction false} NoDeadlock(ids: set<nat>, moves: seq<Move>, t: nat) returns (u: nat)
    requires IsSchedule(ids, moves) && t in ids
    ensures CanMove(Run(ids, moves), u)
    ensures !Run(ids, moves).threads[t].pc.Idle? ==> !Run(ids, moves).threads[u].pc.Idle?
  {
    CountsAlways(ids, moves);
    var s := Run(ids, moves);
    u := t;
    if s.threads[t].pc.CoopTesting? && s.shared.exclusiveCount > 0 {
      var w := Pick(Members(s.threads, IsAnnounced));
      u := AnnouncedMoves(s, w);
    } else if (s.threads[t].pc.CoopLocking? || s.threads[t].pc.ExLocking?) && s.shared.unique {
      u := UniqueMoves(s);
    } else if IsAnnounced(s.threads[t].pc) {
      u := AnnouncedMoves(s, t);
    }
  }

  /** While a writer has announced itself no test passes. */
  lemma {:induction false} AnnouncedBlocksTests(ids: set<nat>, moves: seq<Move>, r: nat, w: nat, write: bool)
    requires IsSchedule(ids, moves) && r in ids && w in ids
    requires Run(ids, moves).threads[r].pc.CoopTesting? && IsAnnounced(Run(ids, moves).threads[w].pc)
    ensures Next(Run(ids, moves), r, write) == Run(ids, moves)
  {
    var s := Run(ids, moves);
    CountsAlways(ids, moves);
    if s.shared.exclusiveCount <= 0 {
      NoneCounted(s, IsAnnounced, w);
    }
  }

  // ---- the lock itself ----

  // The atomic fields, and the threads that use them.
  class CooperativeSpinlock {
    var coopCount: int
    var exclusiveCount: int
    var exclusive: bool
    var unique: bool
    var threads: map<nat, Thread>
    var clock: nat

    function Now(): State
      reads this
    {
      State(Shared(coopCount, exclusiveCount, exclusive, unique), threads, clock)
    }

    constructor (ids: set<nat>)
      ensures Now() == Init(ids)
    {
      coopCount, exclusiveCount, exclusive, unique, clock := 0, 0, false, false, 0;
      threads := map t | t in ids :: Thread(Idle, 0, 0, 0, 0);
    }

    // The thread goes on to the given point.
    method GoTo(t: nat, th: Thread)
      modifies this`threads, this`clock
      ensures threads == old(threads)[t := th] && clock == old(clock) + 1
    {
      threads := threads[t := th];
      clock := clock + 1;
    }

    // flag.exchange(true): whether the lock was free.
    method TakeUnique() returns (taken: bool)
      modifies this`unique
      ensures unique && taken == !old(unique)
    {
      taken := !unique;
      unique := true;
    }

    method TakeExclusive() returns (taken: bool)
      modifies this`exclusive
      ensures exclusive && taken == !old(exclusive)
    {
      taken := !exclusive;
      exclusive := true;
    }

    // coopAdd and coopRemove, one atomic operation at a time.
    method ReaderStep(t: nat, write: bool)
      requires t in threads && IsReaders(threads[t].pc)
      modifies this
      ensures Now() == Next(old(Now()), t, write)
    {
      var th := threads[t];
      match th.pc {
        case CoopTesting =>
          if exclusiveCount <= 0 {
            GoTo(t, th.(pc := CoopLocking, tested := clock));
          }
        case CoopLocking =>
          var taken := TakeUnique();
          if taken {
            GoTo(t, th.(pc := CoopAdding));
          }
        case CoopAdding =>
          coopCount := coopCount + 1;
          GoTo(t, th.(pc := CoopReleasing, counted := clock));
        case CoopReleasing =>
          unique := false;
          GoTo(t, th.(pc := Reading));
        case Reading =>
          coopCount := coopCount - 1;
          GoTo(t, th.(pc := Idle));
      }
    }

    // exclusiveAdd and exclusiveRemove, one atomic operation at a time.
    method WriterStep(t: nat, write: bool)
      requires t in threads && IsWriters(threads[t].pc)
      modifies this
      ensures Now() == Next(old(Now()), t, write)
    {
      var th := threads[t];
      match th.pc {
        case ExLocking =>
          var taken := TakeUnique();
          if taken {
            GoTo(t, th.(pc := ExAdding));
          }
        case ExAdding =>
          exclusiveCount := exclusiveCount + 1;
          GoTo(t, th.(pc := ExReleasing, announced := clock));
        case ExReleasing =>
          unique := false;
          GoTo(t, th.(pc := ExWaiting));
        case ExWaiting =>
          if coopCount <= 0 {
            GoTo(t, th.(pc := ExTaking, checked := clock));
          }
        case ExTaking =>
          var taken := TakeExclusive();
          if taken {
            GoTo(t, th.(pc := Writing));
          }
        case Writing =>
          exclusive := false;
          GoTo(t, th.(pc := ExDropping));
        case ExDropping =>
          exclusiveCount := exclusiveCount - 1;
          GoTo(t, th.(pc := Idle));
      }
    }

    /** One atomic operation of a thread. */
    method Step(t: nat, write: bool)
      requires t in threads
      modifies this
      ensures Now() == Next(old(Now()), t, write)
    {
      var th := threads[t];
      if th.pc.Idle? {
        GoTo(t, th.(pc := if write then ExLocking else CoopTesting));
      } else if IsReaders(th.pc) {
        ReaderStep(t, write);
      } else {
        WriterStep(t, write);
      }
    }

    /** Any schedule of any number of threads. */
    method Execute(moves: seq<Move>, ghost ids: set<nat>)
      requires Now() == Init(ids) && IsSchedule(ids, moves)
      modifies this
      ensures Now() == Run(ids, moves)
    {
      for n := 0 to |moves|
        invariant Now() == Run(ids, moves[..n])
      {
        RunPush(ids, moves[..n], moves[n]);
        assert moves[..n + 1] == moves[..n] + [moves[n]];
        Step(moves[n].thread, moves[n].write);
      }
      assert moves[..|moves|] == moves;
    }
  }
}
