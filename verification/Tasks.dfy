/** Worker threads and their tasks (src/instance/TaskManager.cpp, workerTask and implTaskAdd, and
    src/instance/Task.h) as a state machine: any number of workers, the steps of their loops in any
    order. What happens under the task lock is one step; so is each call of a task's methods,
    except that a callable starts in one step and returns in another.

    Tasks are named by their position, which never changes: removing tasks is not modelled. */
module Tasks {

  datatype Kind = OneTime | Periodic(countLimit: nat)

  // A task and its status. How often its callable was started, and whether it is inside now, is
  // remembered for the results; no step reads it.
  datatype TaskData = TaskData(
    kind: Kind, executed: bool, count: nat, isProcessing: bool, isDone: bool, worker: nat, runs: nat, running: bool)

  datatype Pc =
    | Seeking
    | Asking(task: nat)     // has a task, about to call shouldBeInvoked
    | Starting(task: nat)   // about to call invoke
    | Finishing(task: nat)  // the callable is running
    | Leaving(task: nat)    // about to call shouldBeRemoved
    | Removing(task: nat)   // about to mark the task done
  {
    predicate Holds(i: nat) {
      !Seeking? && task == i
    }
  }

  datatype State = State(tasks: seq<TaskData>, workers: map<nat, Pc>)

  // ---- tasks ----

  // Whether a periodic task is due is up to the clock.
  predicate ShouldBeInvoked(t: TaskData, due: bool) {
    match t.kind
    case OneTime => !t.executed
    case Periodic(_) => due
  }

  predicate ShouldBeRemoved(t: TaskData) {
    match t.kind
    case OneTime => t.executed
    case Periodic(countLimit) => t.count >= countLimit
  }

  function Started(t: TaskData): TaskData {
    t.(runs := t.runs + 1, running := true)
  }

  // invoke, once the callable has returned
  function Invoked(t: TaskData): TaskData {
    match t.kind
    case OneTime => t.(executed := true, running := false)
    case Periodic(_) => t.(count := t.count + 1, running := false)
  }

  // ---- the task list ----

  predicate IsFree(t: TaskData) {
    !t.isProcessing || t.isDone
  }

  // The first free task from position i on, or the number of tasks.
  function FirstFree(tasks: seq<TaskData>, i: nat): (k: nat)
    requires i <= |tasks|
    ensures i <= k <= |tasks| && (k < |tasks| ==> IsFree(tasks[k]))
    ensures forall j :: i <= j < k ==> !IsFree(tasks[j])
    decreases |tasks| - i
  {
    if i == |tasks| || IsFree(tasks[i]) then i else FirstFree(tasks, i + 1)
  }

  function Taken(t: TaskData, tid: nat): TaskData {
    t.(isProcessing := true, worker := tid)
  }

  function Removed(t: TaskData): TaskData {
    t.(isProcessing := false, isDone := true)
  }

  // ---- the steps ----

  datatype Step = Add(kind: Kind) | Work(tid: nat, due: bool)

  function NewTask(kind: Kind): TaskData {
    TaskData(kind, false, 0, false, false, 0, 0, false)
  }

  // What a worker's step does to the task it is at.
  function Worked(t: TaskData, pc: Pc): TaskData {
    match pc
    case Starting(_) => Started(t)
    case Finishing(_) => Invoked(t)
    case Removing(_) => Removed(t)
    case _ => t
  }

  // Where it leads.
  function Moved(t: TaskData, pc: Pc, due: bool): Pc
    requires !pc.Seeking?
  {
    match pc
    case Asking(i) => if ShouldBeInvoked(t, due) then Starting(i) else Leaving(i)
    case Starting(i) => Finishing(i)
    case Finishing(i) => Leaving(i)
    case Leaving(i) => if ShouldBeRemoved(t) then Removing(i) else Seeking
    case Removing(_) => Seeking
  }

  // Workers stand at existing tasks.
  predicate Placed(s: State) {
    forall v :: v in s.workers ==> s.workers[v].Seeking? || s.workers[v].task < |s.tasks|
  }

  function Next(s: State, step: Step): (n: State)
    requires Placed(s) && (step.Work? ==> step.tid in s.workers)
    ensures Placed(n) && n.workers.Keys == s.workers.Keys && |n.tasks| >= |s.tasks|
  {
    match step
    case Add(kind) => s.(tasks := s.tasks + [NewTask(kind)])
    case Work(tid, due) =>
      var pc := s.workers[tid];
      if pc.Seeking? then
        var k := FirstFree(s.tasks, 0);
        if k == |s.tasks| then s
        else State(s.tasks[k := Taken(s.tasks[k], tid)], s.workers[tid := Asking(k)])
      else
        var t := s.tasks[pc.task];
        State(s.tasks[pc.task := Worked(t, pc)], s.workers[tid := Moved(t, pc, due)])
  }

  function Init(tids: set<nat>): State {
    State([], map v | v in tids :: Seeking)
  }

  predicate IsRun(tids: set<nat>, steps: seq<Step>) {
    forall i :: 0 <= i < |steps| && steps[i].Work? ==> steps[i].tid in tids
  }

  function Run(tids: set<nat>, steps: seq<Step>): (s: State)
    requires IsRun(tids, steps)
    ensures Placed(s) && s.workers.Keys == tids
  {
    if steps == [] then Init(tids) else Next(Run(tids, steps[..|steps| - 1]), steps[|steps| - 1])
  }

  // ---- at most once ----

  // Tasks that are never started again once they were: one-time tasks, and periodic tasks whose
  // limit is above 1.
  predicate Once(kind: Kind) {
    kind.OneTime? || kind.countLimit >= 2
  }

  function OneIf(b: bool): nat {
    if b then 1 else 0
  }

  // What always holds of such a task ...
  predicate Sound(t: TaskData) {
    && t.runs <= 1 && (t.running ==> t.isProcessing && !t.isDone && t.runs == 1)
    && (match t.kind
        case OneTime =>
          && (t.isDone ==> t.executed) && (t.executed ==> t.runs == 1 && !t.running)
          && (!t.executed ==> t.runs == OneIf(t.running))
        case Periodic(_) =>
          !t.isDone && t.runs == t.count + OneIf(t.running) && (!t.isProcessing ==> t.runs == 0))
  }

  // ... and of a worker and the task: before the task is done, only the worker it was given to is
  // at it, and inside the callable exactly while it runs.
  predicate Fits(t: TaskData, i: nat, v: nat, pc: Pc) {
    && (pc.Holds(i) && !t.isDone ==> t.isProcessing && t.worker == v)
    && (t.running && t.worker == v ==> pc == Finishing(i))
    && (pc == Finishing(i) ==> t.running && t.worker == v)
    && (pc == Starting(i) ==> t.runs == 0)
    && (pc == Asking(i) && t.kind.Periodic? ==> t.runs == 0)
    && (pc == Removing(i) ==> t.kind.OneTime? && t.executed)
  }

  ghost predicate Invariant(s: State) {
    && Placed(s)
    && (forall i :: 0 <= i < |s.tasks| && Once(s.tasks[i].kind) ==> Sound(s.tasks[i]))
    && (forall i, v :: 0 <= i < |s.tasks| && Once(s.tasks[i].kind) && v in s.workers ==> Fits(s.tasks[i], i, v, s.workers[v]))
  }

  // A worker takes a free task.
  lemma {:induction false} TakenSound(t: TaskData, i: nat, v: nat)
    requires Once(t.kind) && Sound(t) && IsFree(t)
    requires Fits(t, i, v, Seeking)
    ensures Sound(Taken(t, v)) && Fits(Taken(t, v), i, v, Asking(i))
  {
  }

  lemma {:induction false} OthersWhenTaken(t: TaskData, i: nat, v: nat, u: nat, pc: Pc)
    requires Once(t.kind) && Sound(t) && IsFree(t) && u != v
    requires Fits(t, i, u, pc)
    ensures Fits(Taken(t, v), i, u, pc)
  {
  }

  // A worker moves on at its task.
  lemma {:induction false} WorkedSound(t: TaskData, i: nat, v: nat, pc: Pc, due: bool)
    requires Once(t.kind) && Sound(t) && pc.Holds(i) && Fits(t, i, v, pc)
    ensures Sound(Worked(t, pc)) && Fits(Worked(t, pc), i, v, Moved(t, pc, due)) && Worked(t, pc).kind == t.kind
  {
  }

  lemma {:induction false} OthersWhenWorked(t: TaskData, i: nat, v: nat, pc: Pc, u: nat, other: Pc)
    requires Once(t.kind) && Sound(t) && pc.Holds(i) && Fits(t, i, v, pc) && u != v
    requires Fits(t, i, u, other)
    ensures Fits(Worked(t, pc), i, u, other)
  {
  }

  // A worker elsewhere, or one that has left.
  lemma {:induction false} FitsElsewhere(t: TaskData, i: nat, v: nat, pc: Pc, other: Pc)
    requires Fits(t, i, v, pc) && !pc.Holds(i) && !other.Holds(i)
    ensures Fits(t, i, v, other)
  {
  }

  lemma {:induction false} NewFits(kind: Kind, i: nat, v: nat, pc: Pc)
    requires !pc.Holds(i)
    ensures Sound(NewTask(kind)) && Fits(NewTask(kind), i, v, pc)
  {
  }

  lemma {:induction false} AddKeeps(s: State, kind: Kind)
    requires Invariant(s)
    ensures Invariant(Next(s, Add(kind)))
  {
    var n, k := Next(s, Add(kind)), |s.tasks|;
    NewFits(kind, k, 0, Seeking);
    forall i, v | 0 <= i < |n.tasks| && Once(n.tasks[i].kind) && v in n.workers ensures Fits(n.tasks[i], i, v, n.workers[v]) {
      if i == k {
        NewFits(kind, k, v, s.workers[v]);
      } else {
        assert Fits(s.tasks[i], i, v, s.workers[v]);
      }
    }
  }

  lemma {:induction false} SeekKeeps(s: State, tid: nat, due: bool)
    requires Invariant(s) && tid in s.workers && s.workers[tid].Seeking?
    ensures Invariant(Next(s, Work(tid, due)))
  {
    var n, k := Next(s, Work(tid, due)), FirstFree(s.tasks, 0);
    if k < |s.tasks| {
      forall i | 0 <= i < |n.tasks| && Once(n.tasks[i].kind) ensures Sound(n.tasks[i]) {
        if i == k {
          assert Fits(s.tasks[k], k, tid, Seeking);
          TakenSound(s.tasks[k], k, tid);
        }
      }
      forall i, v | 0 <= i < |n.tasks| && Once(n.tasks[i].kind) && v in n.workers ensures Fits(n.tasks[i], i, v, n.workers[v]) {
        assert Fits(s.tasks[i], i, v, s.workers[v]);
        if i == k && v == tid {
          TakenSound(s.tasks[k], k, tid);
        } else if i == k {
          OthersWhenTaken(s.tasks[k], k, tid, v, s.workers[v]);
        } else if v == tid {
          FitsElsewhere(s.tasks[i], i, tid, Seeking, Asking(k));
        }
      }
    }
  }

  lemma {:induction false} WorkKeeps(s: State, tid: nat, due: bool)
    requires Invariant(s) && tid in s.workers && !s.workers[tid].Seeking?
    ensures Invariant(Next(s, Work(tid, due)))
  {
    var n, pc := Next(s, Work(tid, due)), s.workers[tid];
    var k, t := pc.task, s.tasks[pc.task];
    assert Worked(t, pc).kind == t.kind;
    forall i | 0 <= i < |n.tasks| && Once(n.tasks[i].kind) ensures Sound(n.tasks[i]) {
      if i == k {
        assert Fits(t, k, tid, pc);
        WorkedSound(t, k, tid, pc, due);
      }
    }
    forall i, v | 0 <= i < |n.tasks| && Once(n.tasks[i].kind) && v in n.workers ensures Fits(n.tasks[i], i, v, n.workers[v]) {
      assert Fits(s.tasks[i], i, v, s.workers[v]) && Fits(s.tasks[i], i, tid, pc);
      if i == k && v == tid {
        WorkedSound(t, k, tid, pc, due);
      } else if i == k {
        OthersWhenWorked(t, k, tid, pc, v, s.workers[v]);
      } else if v == tid {
        FitsElsewhere(s.tasks[i], i, tid, pc, Moved(t, pc, due));
      }
    }
  }

  lemma {:induction false} InvariantAlways(tids: set<nat>, steps: seq<Step>)
    requires IsRun(tids, steps)
    ensures Invariant(Run(tids, steps))
  {
    if steps != [] {
      var s, step := Run(tids, steps[..|steps| - 1]), steps[|steps| - 1];
      InvariantAlways(tids, steps[..|steps| - 1]);
      match step
      case Add(kind) => AddKeeps(s, kind);
      case Work(tid, due) =>
        if s.workers[tid].Seeking? {
          SeekKeeps(s, tid, due);
        } else {
          WorkKeeps(s, tid, due);
        }
    }
  }

  /** In every interleaving each one-time callable is started at most once, and its task is marked
      done only after it has returned. */
  lemma {:induction false} AtMostOnce(tids: set<nat>, steps: seq<Step>, i: nat)
    requires IsRun(tids, steps) && i < |Run(tids, steps).tasks| && Run(tids, steps).tasks[i].kind.OneTime?
    ensures var t := Run(tids, steps).tasks[i];
      t.runs <= 1 && (t.isDone ==> t.executed && t.runs == 1 && !t.running)
  {
    InvariantAlways(tids, steps);
  }

  // ---- periodic tasks ----

  // A step appended to a run.
  lemma {:induction false} RunPush(tids: set<nat>, steps: seq<Step>, step: Step)
    requires IsRun(tids, steps) && (step.Work? ==> step.tid in tids)
    ensures IsRun(tids, steps + [step]) && Run(tids, steps + [step]) == Next(Run(tids, steps), step)
  {
    assert (steps + [step])[..|steps|] == steps;
  }

  // The run leads to one periodic task of the given limit and worker 0 at this place.
  predicate Reaches(steps: seq<Step>, limit: nat, t: TaskData, pc: Pc) {
    IsRun({0}, steps) && t.kind == Periodic(limit) && Run({0}, steps) == State([t], map[0 := pc])
  }

  lemma {:induction false} ReachNext(steps: seq<Step>, limit: nat, t: TaskData, pc: Pc, t': TaskData, pc': Pc)
    returns (next: seq<Step>)
    requires Reaches(steps, limit, t, pc) && !pc.Seeking? && pc.task == 0
    requires t' == Worked(t, pc) && pc' == Moved(t, pc, true)
    ensures Reaches(next, limit, t', pc')
  {
    next := steps + [Work(0, true)];
    RunPush({0}, steps, Work(0, true));
    var n := Run({0}, next);
    assert n.tasks == [t'] && n.workers == map[0 := pc'];
  }

  lemma {:induction false} ReachTaken(steps: seq<Step>, limit: nat, t: TaskData) returns (next: seq<Step>)
    requires Reaches(steps, limit, t, Seeking) && IsFree(t)
    ensures Reaches(next, limit, Taken(t, 0), Asking(0))
  {
    next := steps + [Work(0, true)];
    RunPush({0}, steps, Work(0, true));
    var n := Run({0}, next);
    assert n.tasks == [Taken(t, 0)] && n.workers == map[0 := Asking(0)];
  }

  lemma {:induction false} ReachAdded(limit: nat) returns (steps: seq<Step>)
    ensures Reaches(steps, limit, NewTask(Periodic(limit)), Seeking)
  {
    steps := [] + [Add(Periodic(limit))];
    RunPush({0}, [], Add(Periodic(limit)));
    var n := Run({0}, steps);
    assert n.tasks == [NewTask(Periodic(limit))] && n.workers == map[0 := Seeking];
  }

  // From a free task to the start of its callable ...
  lemma {:induction false} ReachStarted(steps: seq<Step>, limit: nat, t: TaskData) returns (next: seq<Step>)
    requires Reaches(steps, limit, t, Seeking) && IsFree(t)
    ensures Reaches(next, limit, Started(Taken(t, 0)), Finishing(0))
  {
    next := ReachTaken(steps, limit, t);
    next := ReachNext(next, limit, Taken(t, 0), Asking(0), Taken(t, 0), Starting(0));
    next := ReachNext(next, limit, Taken(t, 0), Starting(0), Started(Taken(t, 0)), Finishing(0));
  }

  // ... and on until the task is marked done.
  lemma {:induction false} ReachDone(steps: seq<Step>, limit: nat, t: TaskData) returns (next: seq<Step>)
    requires Reaches(steps, limit, t, Finishing(0)) && t.count + 1 >= limit
    ensures Reaches(next, limit, Removed(Invoked(t)), Seeking)
  {
    next := ReachNext(steps, limit, t, Finishing(0), Invoked(t), Leaving(0));
    next := ReachNext(next, limit, Invoked(t), Leaving(0), Invoked(t), Removing(0));
    next := ReachNext(next, limit, Invoked(t), Removing(0), Removed(Invoked(t)), Seeking);
  }

  // A task whose limit is at most 1 is done after its first run, and is then started again.
  lemma {:induction false} StartedTwice(limit: nat) returns (steps: seq<Step>, t: TaskData)
    requires limit <= 1
    ensures Reaches(steps, limit, t, Finishing(0)) && t.runs == 2
  {
    var added := NewTask(Periodic(limit));
    steps := ReachAdded(limit);
    steps := ReachStarted(steps, limit, added);
    var ran := Started(Taken(added, 0));
    steps := ReachDone(steps, limit, ran);
    steps := ReachStarted(steps, limit, Removed(Invoked(ran)));
    t := Started(Taken(Removed(Invoked(ran)), 0));
  }

  // In no run a periodic task of this limit starts more often than the limit says.
  ghost predicate LimitKept(limit: nat) {
    forall tids, steps, i :: IsRun(tids, steps) ==> WithinLimit(Run(tids, steps), i, limit)
  }

  predicate WithinLimit(s: State, i: int, limit: nat) {
    0 <= i < |s.tasks| && s.tasks[i].kind == Periodic(limit) ==> s.tasks[i].runs <= limit
  }

  /** The limit of periodic tasks is kept in every run exactly if it is at least 2 (taskAdd makes
      one-time tasks only, so no caller can add a periodic one today) ... */
  lemma {:induction false} LimitKeptExactlyFromTwo(limit: nat)
    ensures LimitKept(limit) <==> limit >= 2
  {
    if limit >= 2 {
      forall tids, steps, i | IsRun(tids, steps) ensures WithinLimit(Run(tids, steps), i, limit) {
        InvariantAlways(tids, steps);
      }
    } else {
      var steps, t := StartedTwice(limit);
      assert !WithinLimit(Run({0}, steps), 0, limit);
    }
  }

  /** ... because such a task, not being marked done, is never taken again: it runs once. */
  lemma {:induction false} PeriodicRunsOnce(tids: set<nat>, steps: seq<Step>, i: nat)
    requires IsRun(tids, steps) && i < |Run(tids, steps).tasks|
    requires Run(tids, steps).tasks[i].kind.Periodic? && Run(tids, steps).tasks[i].kind.countLimit >= 2
    ensures Run(tids, steps).tasks[i].runs <= 1 && !Run(tids, steps).tasks[i].isDone
  {
    InvariantAlways(tids, steps);
  }

  // ---- a worker left alone ----

  // The run leads to worker tid at this place and to this task there.
  predicate StandsAt(tids: set<nat>, steps: seq<Step>, tid: nat, k: nat, t: TaskData, pc: Pc) {
    && IsRun(tids, steps) && tid in tids && Run(tids, steps).workers[tid] == pc
    && k < |Run(tids, steps).tasks| && Run(tids, steps).tasks[k] == t
  }

  lemma {:induction false} TakesFirst(tids: set<nat>, steps: seq<Step>, tid: nat, due: bool, k: nat, t: TaskData)
    requires StandsAt(tids, steps, tid, k, t, Seeking) && k == FirstFree(Run(tids, steps).tasks, 0)
    ensures StandsAt(tids, steps + [Work(tid, due)], tid, k, Taken(t, tid), Asking(k))
  {
    RunPush(tids, steps, Work(tid, due));
  }

  lemma {:induction false} MovesOn(tids: set<nat>, steps: seq<Step>, tid: nat, due: bool, k: nat, t: TaskData, pc: Pc, t': TaskData, pc': Pc)
    requires StandsAt(tids, steps, tid, k, t, pc) && !pc.Seeking? && pc.task == k
    requires t' == Worked(t, pc) && pc' == Moved(t, pc, due)
    ensures StandsAt(tids, steps + [Work(tid, due)], tid, k, t', pc')
  {
    RunPush(tids, steps, Work(tid, due));
  }

  lemma {:induction false} OneTimeStarts(tids: set<nat>, steps: seq<Step>, tid: nat, due: bool, k: nat, t: TaskData)
    requires StandsAt(tids, steps, tid, k, t, Seeking) && k == FirstFree(Run(tids, steps).tasks, 0)
    requires t.kind == OneTime && !t.executed
    ensures var w := Work(tid, due);
      StandsAt(tids, steps + [w] + [w] + [w], tid, k, Taken(t, tid).(runs := t.runs + 1, running := true), Finishing(k))
  {
    var w, taken := Work(tid, due), Taken(t, tid);
    TakesFirst(tids, steps, tid, due, k, t);
    MovesOn(tids, steps + [w], tid, due, k, taken, Asking(k), taken, Starting(k));
    MovesOn(tids, steps + [w] + [w], tid, due, k, taken, Starting(k), Started(taken), Finishing(k));
  }

  lemma {:induction false} OneTimeFinishes(tids: set<nat>, steps: seq<Step>, tid: nat, due: bool, k: nat, t: TaskData)
    requires StandsAt(tids, steps, tid, k, t, Finishing(k)) && t.kind == OneTime
    ensures var w := Work(tid, due);
      StandsAt(tids, steps + [w] + [w] + [w], tid, k, t.(executed := true, running := false, isProcessing := false, isDone := true), Seeking)
  {
    var w := Work(tid, due);
    MovesOn(tids, steps, tid, due, k, t, Finishing(k), Invoked(t), Leaving(k));
    MovesOn(tids, steps + [w], tid, due, k, Invoked(t), Leaving(k), Invoked(t), Removing(k));
    MovesOn(tids, steps + [w] + [w], tid, due, k, Invoked(t), Removing(k), Removed(Invoked(t)), Seeking);
  }

  /** Progress of one-time tasks: after any run, if the first free task is one that has not been
      executed, a worker that seeks a task and is left alone starts its callable, sees it return and
      marks the task done, in six steps. */
  lemma {:induction false} WaitingTaskRuns(tids: set<nat>, steps: seq<Step>, tid: nat, due: bool, k: nat, t: TaskData)
    requires StandsAt(tids, steps, tid, k, t, Seeking) && k == FirstFree(Run(tids, steps).tasks, 0)
    requires t.kind == OneTime && !t.executed
    ensures var w := Work(tid, due);
      StandsAt(tids, steps + [w] + [w] + [w] + [w] + [w] + [w], tid, k,
               t.(executed := true, isProcessing := false, isDone := true, worker := tid, runs := t.runs + 1, running := false), Seeking)
  {
    var w := Work(tid, due);
    OneTimeStarts(tids, steps, tid, due, k, t);
    OneTimeFinishes(tids, steps + [w] + [w] + [w], tid, due, k, Taken(t, tid).(runs := t.runs + 1, running := true));
  }

  /** A periodic task starts when it is due, and is left alone when it is not. */
  lemma {:induction false} PeriodicWhenDue(tids: set<nat>, steps: seq<Step>, tid: nat, due: bool, k: nat, t: TaskData)
    requires StandsAt(tids, steps, tid, k, t, Seeking) && k == FirstFree(Run(tids, steps).tasks, 0) && t.kind.Periodic?
    ensures var w := Work(tid, due);
      StandsAt(tids, steps + [w] + [w], tid, k, Taken(t, tid), if due then Starting(k) else Leaving(k))
    ensures due ==> var w := Work(tid, due);
      StandsAt(tids, steps + [w] + [w] + [w], tid, k, Taken(t, tid).(runs := t.runs + 1, running := true), Finishing(k))
  {
    var w, taken := Work(tid, due), Taken(t, tid);
    TakesFirst(tids, steps, tid, due, k, t);
    MovesOn(tids, steps + [w], tid, due, k, taken, Asking(k), taken, if due then Starting(k) else Leaving(k));
    if due {
      MovesOn(tids, steps + [w] + [w], tid, due, k, taken, Starting(k), Started(taken), Finishing(k));
    }
  }

  // ---- a finished first task ----

  // Task i is waiting and no worker is at it, while the first task is done.
  ghost predicate Waits(s: State, i: nat) {
    && 0 < i < |s.tasks| && s.tasks[0].isDone
    && forall v :: v in s.workers ==> !s.workers[v].Holds(i)
  }

  lemma {:induction false} WaitsOn(s: State, step: Step, i: nat)
    requires Placed(s) && (step.Work? ==> step.tid in s.workers) && Waits(s, i)
    ensures Waits(Next(s, step), i) && Next(s, step).tasks[i] == s.tasks[i]
  {
  }

  /** Once the first task is done it is the only one handed out: every task that no worker is at
      by then stays as it is for ever. */
  lemma {:induction false} FirstTaskStarvesOthers(tids: set<nat>, steps: seq<Step>, more: seq<Step>, i: nat)
    requires IsRun(tids, steps) && IsRun(tids, steps + more) && Waits(Run(tids, steps), i)
    ensures Waits(Run(tids, steps + more), i) && Run(tids, steps + more).tasks[i] == Run(tids, steps).tasks[i]
    decreases |more|
  {
    if more == [] {
      assert steps + more == steps;
    } else {
      var n := |more| - 1;
      assert steps + more == (steps + more[..n]) + [more[n]];
      assert forall k :: 0 <= k < |steps + more[..n]| ==> (steps + more[..n])[k] == (steps + more)[k];
      assert (steps + more)[|steps| + n] == more[n];
      FirstTaskStarvesOthers(tids, steps, more[..n], i);
      RunPush(tids, steps + more[..n], more[n]);
      WaitsOn(Run(tids, steps + more[..n]), more[n], i);
    }
  }

  // ---- the manager ----

  class TaskManager {
    var tasks: seq<TaskData>
    var workers: map<nat, Pc>

    function Now(): State
      reads this
    {
      State(tasks, workers)
    }

    constructor (tids: set<nat>)
      ensures Now() == Init(tids)
    {
      tasks := [];
      workers := map v | v in tids :: Seeking;
    }

    /** implTaskAdd: the new task's position. */
    method ImplTaskAdd(kind: Kind) returns (id: nat)
      requires Placed(Now())
      modifies this`tasks
      ensures Now() == Next(old(Now()), Add(kind)) && id == |old(tasks)|
    {
      id := |tasks|;
      tasks := tasks + [NewTask(kind)];
    }

    /** getTask: the first free task, if any, is marked as being processed by this worker. */
    method GetTask(tid: nat) returns (task: nat)
      modifies this`tasks
      ensures task == FirstFree(old(tasks), 0)
      ensures tasks == if task < |old(tasks)| then old(tasks)[task := Taken(old(tasks)[task], tid)] else old(tasks)
    {
      task := 0;
      while task < |tasks|
        invariant 0 <= task <= |tasks| && tasks == old(tasks)
        invariant FirstFree(tasks, task) == FirstFree(tasks, 0)
      {
        if !tasks[task].isProcessing || tasks[task].isDone {
          tasks := tasks[task := tasks[task].(isProcessing := true, worker := tid)];
          return;
        }
        task := task + 1;
      }
    }

    /** removeTask */
    method RemoveTask(task: nat)
      requires task < |tasks|
      modifies this`tasks
      ensures tasks == old(tasks)[task := Removed(old(tasks)[task])]
    {
      tasks := tasks[task := tasks[task].(isProcessing := false, isDone := true)];
    }

    /** One step of the worker loop. */
    method WorkerStep(tid: nat, due: bool)
      requires Placed(Now()) && tid in workers
      modifies this
      ensures Now() == Next(old(Now()), Work(tid, due))
    {
      match workers[tid] {
        case Seeking =>
          var task := GetTask(tid);
          if task < |tasks| {
            workers := workers[tid := Asking(task)];
          }
        case Asking(task) =>
          assert tasks[task := tasks[task]] == tasks;
          workers := workers[tid := if ShouldBeInvoked(tasks[task], due) then Starting(task) else Leaving(task)];
        case Starting(task) =>
          tasks := tasks[task := Started(tasks[task])];
          workers := workers[tid := Finishing(task)];
        case Finishing(task) =>
          tasks := tasks[task := Invoked(tasks[task])];
          workers := workers[tid := Leaving(task)];
        case Leaving(task) =>
          assert tasks[task := tasks[task]] == tasks;
          workers := workers[tid := if ShouldBeRemoved(tasks[task]) then Removing(task) else Seeking];
        case Removing(task) =>
          RemoveTask(task);
          workers := workers[tid := Seeking];
      }
    }

    /** Any interleaving of any number of workers. */
    method Execute(steps: seq<Step>, ghost tids: set<nat>)
      requires Now() == Init(tids) && IsRun(tids, steps)
      modifies this
      ensures Now() == Run(tids, steps)
    {
      for n := 0 to |steps|
        invariant Now() == Run(tids, steps[..n])
      {
        RunPush(tids, steps[..n], steps[n]);
        assert steps[..n + 1] == steps[..n] + [steps[n]];
        match steps[n] {
          case Add(kind) =>
            var id := ImplTaskAdd(kind);
          case Work(tid, due) => WorkerStep(tid, due);
        }
      }
      assert steps[..|steps|] == steps;
    }
  }
}
