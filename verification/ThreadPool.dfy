// The bounded thread pool as a step system: every section under the pool's mutex is one atomic step, a thread in
// pthread_cond_wait sleeps until a signal, a broadcast or a spurious wakeup. Every accepted task runs exactly once, tasks
// start in the order they were accepted, nobody sleeps while there is work for them, and destroying the pool drains it.
module ThreadPool {
  import opened Common

  type Task = nat

  /** A worker before its section, asleep on not_empty, running a task outside the mutex, or gone. */
  datatype Worker = Ready | Waiting | Running(task: Task) | Exited

  /** A call of thread_pool_submit before its section, asleep on not_full, or returned. */
  datatype Submitter = Entering(task: Task) | Blocked(task: Task) | Accepted(task: Task) | Rejected(task: Task)

  /** `accepted`, `taken` and `finished` record the tasks queued, dequeued and done so far. */
  datatype State = State(
    queue: seq<Task>,
    capacity: nat,
    shutdown: bool,
    workers: seq<Worker>,
    submitters: seq<Submitter>,
    accepted: seq<Task>,
    taken: seq<Task>,
    finished: seq<Task>)

  /** thread_pool_create */
  function Initial(workers: nat, capacity: nat): State {
    State([], capacity, false, seq(workers, _ => Ready), [], [], [], [])
  }

  datatype Move =
    | Submits(task: Task)
    | SubmitSection(s: nat, wakes: Option<nat>)
    | SubmitterStirs(s: nat)
    | WorkSection(w: nat, wakes: Option<nat>)
    | WorkerStirs(w: nat)
    | Finishes(w: nat)
    | Destroys

  function WakeWorker(ws: seq<Worker>, wakes: Option<nat>): (r: seq<Worker>)
    ensures |r| == |ws|
  {
    if wakes.Some? && wakes.value < |ws| then ws[wakes.value := Ready] else ws
  }

  function WakeSubmitter(ss: seq<Submitter>, wakes: Option<nat>): (r: seq<Submitter>)
    ensures |r| == |ss|
  {
    if wakes.Some? && wakes.value < |ss| && ss[wakes.value].Blocked? then ss[wakes.value := Entering(ss[wakes.value].task)] else ss
  }

  /** pthread_cond_signal wakes one waiter if there is any. */
  predicate SignalsWorker(ws: seq<Worker>, wakes: Option<nat>) {
    if wakes.Some? then wakes.value < |ws| && ws[wakes.value].Waiting? else Waiting !in ws
  }

  predicate SignalsSubmitter(ss: seq<Submitter>, wakes: Option<nat>) {
    if wakes.Some? then wakes.value < |ss| && ss[wakes.value].Blocked? else forall i :: 0 <= i < |ss| ==> !ss[i].Blocked?
  }

  predicate Full(s: State) {
    |s.queue| >= s.capacity
  }

  predicate CanMove(s: State, m: Move) {
    match m
    case Submits(_) => true
    case SubmitSection(i, wakes) =>
      i < |s.submitters| && s.submitters[i].Entering? && (!s.shutdown && !Full(s) ==> SignalsWorker(s.workers, wakes))
    case SubmitterStirs(i) => i < |s.submitters| && s.submitters[i].Blocked?
    case WorkSection(w, wakes) =>
      w < |s.workers| && s.workers[w].Ready? && (s.queue != [] ==> SignalsSubmitter(s.submitters, wakes))
    case WorkerStirs(w) => w < |s.workers| && s.workers[w].Waiting?
    case Finishes(w) => w < |s.workers| && s.workers[w].Running?
    case Destroys => !s.shutdown
  }

  /** thread_pool_submit from the mutex on: wait while the queue is full, refuse after shutdown, or enqueue and signal. */
  function Submit(s: State, i: nat, wakes: Option<nat>): State
    requires i < |s.submitters| && s.submitters[i].Entering?
  {
    var task := s.submitters[i].task;
    if Full(s) && !s.shutdown then s.(submitters := s.submitters[i := Blocked(task)])
    else if s.shutdown then s.(submitters := s.submitters[i := Rejected(task)])
    else s.(queue := s.queue + [task], accepted := s.accepted + [task], submitters := s.submitters[i := Accepted(task)],
            workers := WakeWorker(s.workers, wakes))
  }

  /** One round of worker_thread: wait for work, exit when shut down and drained, or dequeue and signal. */
  function Work(s: State, w: nat, wakes: Option<nat>): State
    requires w < |s.workers|
  {
    if s.queue == [] && !s.shutdown then s.(workers := s.workers[w := Waiting])
    else if s.shutdown && s.queue == [] then s.(workers := s.workers[w := Exited])
    else s.(workers := s.workers[w := Running(s.queue[0])], queue := s.queue[1..], taken := s.taken + [s.queue[0]],
            submitters := WakeSubmitter(s.submitters, wakes))
  }

  function AllAwake(ws: seq<Worker>): (r: seq<Worker>)
    ensures |r| == |ws| && forall i :: 0 <= i < |r| ==> r[i] == if ws[i].Waiting? then Ready else ws[i]
  {
    seq(|ws|, i requires 0 <= i < |ws| => if ws[i].Waiting? then Ready else ws[i])
  }

  function AllEntering(ss: seq<Submitter>): (r: seq<Submitter>)
    ensures |r| == |ss| && forall i :: 0 <= i < |r| ==> r[i] == if ss[i].Blocked? then Entering(ss[i].task) else ss[i]
  {
    seq(|ss|, i requires 0 <= i < |ss| => if ss[i].Blocked? then Entering(ss[i].task) else ss[i])
  }

  function Moved(s: State, m: Move): State
    requires CanMove(s, m)
  {
    match m
    case Submits(task) => s.(submitters := s.submitters + [Entering(task)])
    case SubmitSection(i, wakes) => Submit(s, i, wakes)
    case SubmitterStirs(i) => s.(submitters := s.submitters[i := Entering(s.submitters[i].task)])
    case WorkSection(w, wakes) => Work(s, w, wakes)
    case WorkerStirs(w) => s.(workers := s.workers[w := Ready])
    case Finishes(w) => s.(workers := s.workers[w := Ready], finished := s.finished + [s.workers[w].task])
    case Destroys => s.(shutdown := true, workers := AllAwake(s.workers), submitters := AllEntering(s.submitters))
  }

  // ---------------------------------------------------------------------------
  // Counting threads
  // ---------------------------------------------------------------------------

  ghost function ReadyCount(ws: seq<Worker>): nat {
    if ws == [] then 0 else (if ws[0].Ready? then 1 else 0) + ReadyCount(ws[1..])
  }

  ghost predicate IsRunning(w: Worker, x: Task) {
    w.Running? && w.task == x
  }

  /** How many workers are running task `x`, and how many are running anything. */
  ghost function RunCount(ws: seq<Worker>, x: Task): nat {
    if ws == [] then 0 else (if IsRunning(ws[0], x) then 1 else 0) + RunCount(ws[1..], x)
  }

  ghost function BusyCount(ws: seq<Worker>): nat {
    if ws == [] then 0 else (if ws[0].Running? then 1 else 0) + BusyCount(ws[1..])
  }

  ghost function EnteringCount(ss: seq<Submitter>): nat {
    if ss == [] then 0 else (if ss[0].Entering? then 1 else 0) + EnteringCount(ss[1..])
  }

  lemma UpdateTail<T>(s: seq<T>, i: nat, x: T)
    requires i < |s|
    ensures if i == 0 then s[i := x][1..] == s[1..] else s[i := x][1..] == s[1..][i - 1 := x]
  {
  }

  lemma {:induction false} WorkerSet(ws: seq<Worker>, w: nat, x: Worker)
    requires w < |ws|
    ensures ReadyCount(ws[w := x]) + (if ws[w].Ready? then 1 else 0) == ReadyCount(ws) + (if x.Ready? then 1 else 0)
    ensures BusyCount(ws[w := x]) + (if ws[w].Running? then 1 else 0) == BusyCount(ws) + (if x.Running? then 1 else 0)
    decreases |ws|
  {
    UpdateTail(ws, w, x);
    if w > 0 {
      WorkerSet(ws[1..], w - 1, x);
    }
  }

  lemma {:induction false} RunSet(ws: seq<Worker>, w: nat, x: Worker, task: Task)
    requires w < |ws|
    ensures RunCount(ws[w := x], task) + (if IsRunning(ws[w], task) then 1 else 0) == RunCount(ws, task) + (if IsRunning(x, task) then 1 else 0)
    decreases |ws|
  {
    UpdateTail(ws, w, x);
    if w > 0 {
      RunSet(ws[1..], w - 1, x, task);
    }
  }

  lemma {:induction false} SubmitterSet(ss: seq<Submitter>, i: nat, x: Submitter)
    requires i < |ss|
    ensures EnteringCount(ss[i := x]) + (if ss[i].Entering? then 1 else 0) == EnteringCount(ss) + (if x.Entering? then 1 else 0)
    decreases |ss|
  {
    UpdateTail(ss, i, x);
    if i > 0 {
      SubmitterSet(ss[1..], i - 1, x);
    }
  }

  lemma {:induction false} SubmitterAdd(ss: seq<Submitter>, x: Submitter)
    ensures EnteringCount(ss + [x]) == EnteringCount(ss) + (if x.Entering? then 1 else 0)
    decreases |ss|
  {
    if ss == [] {
      AppendNothing([x]);
      OneTail(x);
    } else {
      TailAppend(ss, [x]);
      SubmitterAdd(ss[1..], x);
    }
  }

  lemma {:induction false} AwakeRuns(ws: seq<Worker>, x: Task)
    ensures RunCount(AllAwake(ws), x) == RunCount(ws, x)
    decreases |ws|
  {
    if ws != [] {
      AwakeRuns(ws[1..], x);
      assert AllAwake(ws)[1..] == AllAwake(ws[1..]);
    }
  }

  lemma BagAdd(s: seq<Task>, x: Task)
    ensures forall y :: multiset(s + [x])[y] == multiset(s)[y] + (if y == x then 1 else 0)
  {
  }

  /** Only the thread that moves may come to wait or to exit. */
  lemma SameStates(ws: seq<Worker>, w: nat, x: Worker)
    requires w < |ws|
    ensures Waiting in ws[w := x] ==> Waiting in ws || x == Waiting
    ensures Exited in ws[w := x] ==> Exited in ws || x == Exited
  {
  }

  // ---------------------------------------------------------------------------
  // The invariant
  // ---------------------------------------------------------------------------

  ghost predicate NoneBlocked(ss: seq<Submitter>) {
    forall i :: 0 <= i < |ss| ==> !ss[i].Blocked?
  }

  /** First in, first out, and nothing is lost: what was accepted has been taken, in order, or is still queued; what was taken
      is running or finished. */
  ghost predicate TasksOk(s: State) {
    && s.accepted == s.taken + s.queue && |s.queue| <= s.capacity
    && TakenOk(s.taken, s.finished, s.workers)
  }

  ghost predicate TakenOk(taken: seq<Task>, finished: seq<Task>, ws: seq<Worker>) {
    forall x :: multiset(taken)[x] == multiset(finished)[x] + RunCount(ws, x)
  }

  /** A step between states that are not running leaves that as it is. */
  lemma IdleStep(taken: seq<Task>, finished: seq<Task>, ws: seq<Worker>, w: nat, x: Worker)
    requires TakenOk(taken, finished, ws) && w < |ws| && !ws[w].Running? && !x.Running?
    ensures TakenOk(taken, finished, ws[w := x]) == true
  {
    forall task ensures RunCount(ws[w := x], task) == RunCount(ws, task) {
      RunSet(ws, w, x, task);
    }
  }

  /** While a worker sleeps, every queued task has a worker awake for it; while a submitter sleeps, every free place has a
      submitter awake for it: no wakeup is lost. */
  ghost predicate WakeupsOk(s: State) {
    && (Waiting in s.workers ==> |s.queue| <= ReadyCount(s.workers))
    && (!NoneBlocked(s.submitters) ==> s.capacity - |s.queue| <= EnteringCount(s.submitters))
  }

  /** After shutdown nobody sleeps; workers exit only then, and only from an empty queue. */
  ghost predicate ShutdownOk(s: State) {
    && (s.shutdown ==> Waiting !in s.workers && NoneBlocked(s.submitters))
    && (Exited in s.workers ==> s.shutdown && s.queue == [])
  }

  ghost predicate Inv(s: State) {
    s.capacity > 0 && s.workers != [] && TasksOk(s) && WakeupsOk(s) && ShutdownOk(s)
  }

  lemma {:induction false} AllReady(n: nat, x: Task)
    ensures RunCount(seq(n, _ => Ready), x) == 0
    decreases n
  {
    if n > 0 {
      assert seq(n, _ => Ready)[1..] == seq(n - 1, _ => Ready);
      AllReady(n - 1, x);
    }
  }

  lemma InitialInv(workers: nat, capacity: nat)
    requires workers > 0 && capacity > 0
    ensures Inv(Initial(workers, capacity))
  {
    forall x ensures RunCount(Initial(workers, capacity).workers, x) == 0 {
      AllReady(workers, x);
    }
  }

  lemma EnqueueInv(s: State, i: nat, wakes: Option<nat>)
    requires Inv(s) && CanMove(s, SubmitSection(i, wakes)) && !s.shutdown && !Full(s)
    ensures Inv(Submit(s, i, wakes))
  {
    var s', task := Submit(s, i, wakes), s.submitters[i].task;
    AppendAssoc(s.taken, s.queue, [task]);
    SubmitterSet(s.submitters, i, Accepted(task));
    if wakes.Some? {
      WorkerSet(s.workers, wakes.value, Ready);
      IdleStep(s.taken, s.finished, s.workers, wakes.value, Ready);
      SameStates(s.workers, wakes.value, Ready);
      assert s.workers[wakes.value] in s.workers;
    }
    if !NoneBlocked(s'.submitters) {
      var k :| 0 <= k < |s'.submitters| && s'.submitters[k].Blocked?;
      assert s.submitters[k].Blocked?;
    }
  }

  lemma SubmitInv(s: State, i: nat, wakes: Option<nat>)
    requires Inv(s) && CanMove(s, SubmitSection(i, wakes))
    ensures Inv(Submit(s, i, wakes)) == true
  {
    if !s.shutdown && !Full(s) {
      EnqueueInv(s, i, wakes);
    } else {
      var s' := Submit(s, i, wakes);
      SubmitterSet(s.submitters, i, s'.submitters[i]);
    }
  }

  lemma DequeueTasks(s: State, w: nat)
    requires TasksOk(s) && w < |s.workers| && s.workers[w].Ready? && s.queue != []
    ensures var ws, t := s.workers[w := Running(s.queue[0])], s.taken + [s.queue[0]];
            t + s.queue[1..] == s.accepted && TakenOk(t, s.finished, ws) == true
  {
    var x := s.queue[0];
    BagAdd(s.taken, x);
    forall task ensures RunCount(s.workers[w := Running(x)], task) == RunCount(s.workers, task) + (if task == x then 1 else 0) {
      RunSet(s.workers, w, Running(x), task);
    }
    DropHead(s.queue, 0);
    AppendAssoc(s.taken, [s.queue[0]], s.queue[1..]);
    assert [s.queue[0]] + s.queue[1..] == s.queue;
  }

  lemma DequeueInv(s: State, w: nat, wakes: Option<nat>)
    requires Inv(s) && CanMove(s, WorkSection(w, wakes)) && s.queue != []
    ensures Inv(Work(s, w, wakes))
  {
    var s' := Work(s, w, wakes);
    DequeueTasks(s, w);
    WorkerSet(s.workers, w, Running(s.queue[0]));
    if wakes.Some? {
      SubmitterSet(s.submitters, wakes.value, Entering(s.submitters[wakes.value].task));
      assert !NoneBlocked(s.submitters);
    }
    SameStates(s.workers, w, Running(s.queue[0]));
  }

  lemma WorkInv(s: State, w: nat, wakes: Option<nat>)
    requires Inv(s) && CanMove(s, WorkSection(w, wakes))
    ensures Inv(Work(s, w, wakes)) == true
  {
    if s.queue != [] {
      DequeueInv(s, w, wakes);
    } else {
      WorkerSet(s.workers, w, if s.shutdown then Exited else Waiting);
      IdleStep(s.taken, s.finished, s.workers, w, if s.shutdown then Exited else Waiting);
      SameStates(s.workers, w, if s.shutdown then Exited else Waiting);
    }
  }

  lemma FinishTaken(s: State, w: nat)
    requires TasksOk(s) && w < |s.workers| && s.workers[w].Running?
    ensures TakenOk(s.taken, s.finished + [s.workers[w].task], s.workers[w := Ready]) == true
  {
    var x := s.workers[w].task;
    BagAdd(s.finished, x);
    forall task ensures RunCount(s.workers[w := Ready], task) + (if task == x then 1 else 0) == RunCount(s.workers, task) {
      RunSet(s.workers, w, Ready, task);
    }
  }

  lemma FinishInv(s: State, w: nat)
    requires Inv(s) && CanMove(s, Finishes(w))
    ensures Inv(Moved(s, Finishes(w))) == true
  {
    WorkerSet(s.workers, w, Ready);
    FinishTaken(s, w);
    SameStates(s.workers, w, Ready);
  }

  lemma StirInv(s: State, m: Move)
    requires Inv(s) && CanMove(s, m) && (m.WorkerStirs? || m.SubmitterStirs? || m.Submits?)
    ensures Inv(Moved(s, m)) == true
  {
    var s' := Moved(s, m);
    match m {
      case WorkerStirs(w) =>
        WorkerSet(s.workers, w, Ready);
        IdleStep(s.taken, s.finished, s.workers, w, Ready);
        SameStates(s.workers, w, Ready);
        assert s.workers[w] in s.workers;
      case SubmitterStirs(i) =>
        SubmitterSet(s.submitters, i, s'.submitters[i]);
        assert s.submitters[i].Blocked?;
      case Submits(task) =>
        SubmitterAdd(s.submitters, Entering(task));
        SameBlocked(s.submitters, task);
    }
  }

  lemma SameBlocked(ss: seq<Submitter>, task: Task)
    ensures NoneBlocked(ss + [Entering(task)]) == NoneBlocked(ss)
  {
    if !NoneBlocked(ss) {
      var i :| 0 <= i < |ss| && ss[i].Blocked?;
      assert (ss + [Entering(task)])[i].Blocked?;
    }
  }

  lemma DestroyInv(s: State)
    requires Inv(s) && !s.shutdown
    ensures Inv(Moved(s, Destroys)) == true
  {
    var s' := Moved(s, Destroys);
    forall x ensures RunCount(s'.workers, x) == RunCount(s.workers, x) {
      AwakeRuns(s.workers, x);
    }
    assert Waiting !in s'.workers && NoneBlocked(s'.submitters);
    assert Exited in s'.workers ==> Exited in s.workers;
  }

  lemma MoveInv(s: State, m: Move)
    requires Inv(s) && CanMove(s, m)
    ensures Inv(Moved(s, m)) == true
  {
    match m
    case SubmitSection(i, wakes) => SubmitInv(s, i, wakes);
    case WorkSection(w, wakes) => WorkInv(s, w, wakes);
    case Finishes(w) => FinishInv(s, w);
    case Destroys => DestroyInv(s);
    case _ => StirInv(s, m);
  }

  // ---------------------------------------------------------------------------
  // Runs
  // ---------------------------------------------------------------------------

  ghost predicate Runs(s: State, ms: seq<Move>)
    decreases |ms|
  {
    ms != [] ==> CanMove(s, ms[0]) && Runs(Moved(s, ms[0]), ms[1..])
  }

  ghost function After(s: State, ms: seq<Move>): State
    requires Runs(s, ms)
    decreases |ms|
  {
    if ms == [] then s else After(Moved(s, ms[0]), ms[1..])
  }

  lemma {:induction false} RunInv(s: State, ms: seq<Move>)
    requires Inv(s) && Runs(s, ms)
    ensures Inv(After(s, ms))
    decreases |ms|
  {
    if ms != [] {
      MoveInv(s, ms[0]);
      RunInv(Moved(s, ms[0]), ms[1..]);
    }
  }

  /** After shutdown no task is accepted any more. */
  lemma {:induction false} ShutdownIsFinal(s: State, ms: seq<Move>)
    requires s.shutdown && Runs(s, ms)
    ensures After(s, ms).shutdown && After(s, ms).accepted == s.accepted
    decreases |ms|
  {
    if ms != [] {
      ShutdownIsFinal(Moved(s, ms[0]), ms[1..]);
    }
  }

  lemma {:induction false} SameSizes(s: State, ms: seq<Move>)
    requires Runs(s, ms)
    ensures After(s, ms).capacity == s.capacity && |After(s, ms).workers| == |s.workers|
    decreases |ms|
  {
    if ms != [] {
      SameSizes(Moved(s, ms[0]), ms[1..]);
    }
  }

  /** A pool keeps the workers it was created with and never queues more tasks than it was created for. */
  lemma RunBounded(workers: nat, capacity: nat, ms: seq<Move>)
    requires workers > 0 && capacity > 0 && Runs(Initial(workers, capacity), ms)
    ensures |After(Initial(workers, capacity), ms).workers| == workers && |After(Initial(workers, capacity), ms).queue| <= capacity
  {
    InitialInv(workers, capacity);
    RunInv(Initial(workers, capacity), ms);
    SameSizes(Initial(workers, capacity), ms);
  }

  // ---------------------------------------------------------------------------
  // Callers and their tasks
  // ---------------------------------------------------------------------------

  /** The tasks of the calls that have been told their task was accepted. */
  ghost function AcceptedTasks(ss: seq<Submitter>): seq<Task> {
    if ss == [] then [] else (if ss[0].Accepted? then [ss[0].task] else []) + AcceptedTasks(ss[1..])
  }

  ghost function TasksOf(ss: seq<Submitter>): (r: seq<Task>)
    ensures |r| == |ss| && forall i :: 0 <= i < |ss| ==> r[i] == ss[i].task
  {
    seq(|ss|, i requires 0 <= i < |ss| => ss[i].task)
  }

  /** The tasks handed to thread_pool_submit, in the order of the calls. */
  ghost function Submitted(ms: seq<Move>): seq<Task> {
    if ms == [] then [] else (if ms[0].Submits? then [ms[0].task] else []) + Submitted(ms[1..])
  }

  /** What the pool has queued so far is what it told its callers it accepted, and no caller was refused before shutdown. */
  ghost predicate Honest(s: State) {
    && multiset(s.accepted) == multiset(AcceptedTasks(s.submitters))
    && forall i :: 0 <= i < |s.submitters| && s.submitters[i].Rejected? ==> s.shutdown
  }

  /** A call that has not returned changes its state. */
  lemma {:induction false} AcceptedSet(ss: seq<Submitter>, i: nat, x: Submitter)
    requires i < |ss| && !ss[i].Accepted?
    ensures multiset(AcceptedTasks(ss[i := x])) == multiset(AcceptedTasks(ss)) + if x.Accepted? then multiset{x.task} else multiset{}
    decreases |ss|
  {
    UpdateTail(ss, i, x);
    if i > 0 {
      AcceptedSet(ss[1..], i - 1, x);
    }
  }

  lemma {:induction false} AcceptedAdd(ss: seq<Submitter>, x: Submitter)
    requires !x.Accepted?
    ensures AcceptedTasks(ss + [x]) == AcceptedTasks(ss)
    decreases |ss|
  {
    if ss == [] {
      AppendNothing([x]);
      OneTail(x);
    } else {
      TailAppend(ss, [x]);
      AcceptedAdd(ss[1..], x);
    }
  }

  lemma {:induction false} AcceptedAwake(ss: seq<Submitter>)
    ensures AcceptedTasks(AllEntering(ss)) == AcceptedTasks(ss)
    decreases |ss|
  {
    if ss != [] {
      AcceptedAwake(ss[1..]);
      assert AllEntering(ss)[1..] == AllEntering(ss[1..]);
    }
  }

  /** What one section of thread_pool_submit answers, and what becomes of the task: refused exactly when the pool is shut
      down, asleep exactly when there is no room, and otherwise queued last; no other call is touched. */
  lemma SectionReplies(s: State, i: nat, wakes: Option<nat>)
    requires i < |s.submitters| && s.submitters[i].Entering?
    ensures var s', task := Submit(s, i, wakes), s.submitters[i].task;
            && |s'.submitters| == |s.submitters| && s'.submitters[i].task == task
            && (forall j :: 0 <= j < |s.submitters| && j != i ==> s'.submitters[j] == s.submitters[j])
            && (s'.submitters[i].Rejected? <==> s.shutdown)
            && (s'.submitters[i].Blocked? <==> !s.shutdown && |s.queue| >= s.capacity)
            && (s'.submitters[i].Accepted? <==> !s.shutdown && |s.queue| < s.capacity)
            && s'.queue == s.queue + (if s'.submitters[i].Accepted? then [task] else [])
            && s'.accepted == s.accepted + (if s'.submitters[i].Accepted? then [task] else [])
            && s'.shutdown == s.shutdown && s'.taken == s.taken && s'.finished == s.finished
  {
    AppendNothing(s.queue);
    AppendNothing(s.accepted);
  }

  /** What one round of a worker does: it goes to sleep exactly when there is nothing to do yet, leaves exactly when there is
      nothing to do any more, and otherwise runs the task queued longest ago. */
  lemma RoundDoes(s: State, w: nat, wakes: Option<nat>)
    requires w < |s.workers|
    ensures var s' := Work(s, w, wakes);
            && |s'.workers| == |s.workers| && (forall v :: 0 <= v < |s.workers| && v != w ==> s'.workers[v] == s.workers[v])
            && (s'.workers[w].Waiting? <==> s.queue == [] && !s.shutdown)
            && (s'.workers[w].Exited? <==> s.queue == [] && s.shutdown)
            && (s'.workers[w].Running? <==> s.queue != [])
            && (if s.queue == [] then s'.queue == [] && s'.taken == s.taken
                else [s'.workers[w].task] + s'.queue == s.queue && s'.taken == s.taken + [s'.workers[w].task])
            && s'.shutdown == s.shutdown && s'.accepted == s.accepted && s'.finished == s.finished
  {
  }

  lemma SubmitHonest(s: State, i: nat, wakes: Option<nat>)
    requires Honest(s) && CanMove(s, SubmitSection(i, wakes))
    ensures Honest(Submit(s, i, wakes)) == true
  {
    var s', task := Submit(s, i, wakes), s.submitters[i].task;
    SectionReplies(s, i, wakes);
    AcceptedSet(s.submitters, i, s'.submitters[i]);
    assert multiset(s.accepted + [task]) == multiset(s.accepted) + multiset{task};
  }

  /** A call that is only woken up. */
  lemma StirHonest(s: State, i: nat, s': State)
    requires Honest(s) && i < |s.submitters| && s.submitters[i].Blocked?
    requires s'.submitters == s.submitters[i := Entering(s.submitters[i].task)] && s'.accepted == s.accepted && s'.shutdown == s.shutdown
    ensures Honest(s') == true
  {
    AcceptedSet(s.submitters, i, Entering(s.submitters[i].task));
  }

  lemma DestroyHonest(s: State)
    requires Honest(s) && !s.shutdown
    ensures Honest(Moved(s, Destroys)) == true
  {
    AcceptedAwake(s.submitters);
  }

  lemma MoveHonest(s: State, m: Move)
    requires Honest(s) && CanMove(s, m)
    ensures Honest(Moved(s, m)) == true
  {
    match m {
      case Submits(task) => AcceptedAdd(s.submitters, Entering(task));
      case SubmitSection(i, wakes) => SubmitHonest(s, i, wakes);
      case SubmitterStirs(i) => StirHonest(s, i, Moved(s, m));
      case WorkSection(w, wakes) =>
        if s.queue != [] && wakes.Some? {
          StirHonest(s, wakes.value, Moved(s, m));
        }
      case WorkerStirs(_) =>
      case Finishes(_) =>
      case Destroys => DestroyHonest(s);
    }
  }

  lemma MoveKeepsTasks(s: State, m: Move)
    requires CanMove(s, m)
    ensures TasksOf(Moved(s, m).submitters) == TasksOf(s.submitters) + if m.Submits? then [m.task] else []
  {
  }

  /** Along every run each call keeps the task it was made with, and the tasks queued are, with their multiplicities, those of
      the calls that returned with success. */
  lemma {:induction false} RunHonest(s: State, ms: seq<Move>)
    requires Honest(s) && Runs(s, ms)
    ensures Honest(After(s, ms)) && TasksOf(After(s, ms).submitters) == TasksOf(s.submitters) + Submitted(ms)
    decreases |ms|
  {
    if ms == [] {
      AppendNothing(TasksOf(s.submitters));
    } else {
      MoveHonest(s, ms[0]);
      MoveKeepsTasks(s, ms[0]);
      RunHonest(Moved(s, ms[0]), ms[1..]);
      AppendAssoc(TasksOf(s.submitters), if ms[0].Submits? then [ms[0].task] else [], Submitted(ms[1..]));
    }
  }

  ghost predicate AllExited(s: State) {
    forall w :: 0 <= w < |s.workers| ==> s.workers[w].Exited?
  }

  lemma {:induction false} ExitedRunNothing(ws: seq<Worker>, x: Task)
    requires forall w :: 0 <= w < |ws| ==> ws[w].Exited?
    ensures RunCount(ws, x) == 0
    decreases |ws|
  {
    if ws != [] {
      ExitedRunNothing(ws[1..], x);
    }
  }

  /** When thread_pool_destroy has joined all workers, the tasks that have run are exactly those whose submission was answered
      with success, each as often as it was submitted so; they were started in the order they were accepted, and every call
      still has the task it was made with. */
  lemma DrainedAtTheEnd(workers: nat, capacity: nat, ms: seq<Move>)
    requires workers > 0 && capacity > 0 && Runs(Initial(workers, capacity), ms) && AllExited(After(Initial(workers, capacity), ms))
    ensures var s := After(Initial(workers, capacity), ms);
            && s.queue == [] && s.taken == s.accepted && multiset(s.finished) == multiset(s.accepted)
            && multiset(s.finished) == multiset(AcceptedTasks(s.submitters)) && TasksOf(s.submitters) == Submitted(ms)
  {
    var s := After(Initial(workers, capacity), ms);
    RunHonest(Initial(workers, capacity), ms);
    AppendNothing(Submitted(ms));
    assert TasksOf([]) == [];
    InitialInv(workers, capacity);
    RunInv(Initial(workers, capacity), ms);
    assert s.workers[0] in s.workers;
    forall x ensures multiset(s.finished)[x] == multiset(s.taken)[x] {
      ExitedRunNothing(s.workers, x);
    }
    AppendNothing(s.taken);
  }

  // ---------------------------------------------------------------------------
  // Nobody is forgotten
  // ---------------------------------------------------------------------------

  lemma {:induction false} SomeReady(ws: seq<Worker>) returns (w: nat)
    requires ReadyCount(ws) > 0
    ensures w < |ws| && ws[w].Ready?
    decreases |ws|
  {
    if ws[0].Ready? {
      w := 0;
    } else {
      var r := SomeReady(ws[1..]);
      w := r + 1;
    }
  }

  /** While tasks are queued, some worker is awake: about to take one, or running one and coming back. */
  lemma QueuedWillRun(s: State) returns (w: nat)
    requires Inv(s) && s.queue != []
    ensures w < |s.workers| && (s.workers[w].Ready? || s.workers[w].Running?)
  {
    if Waiting in s.workers {
      w := SomeReady(s.workers);
    } else {
      w := 0;
      assert s.workers[0] in s.workers;
    }
  }

  lemma {:induction false} SomeEntering(ss: seq<Submitter>) returns (i: nat)
    requires EnteringCount(ss) > 0
    ensures i < |ss| && ss[i].Entering?
    decreases |ss|
  {
    if ss[0].Entering? {
      i := 0;
    } else {
      var r := SomeEntering(ss[1..]);
      i := r + 1;
    }
  }

  /** A submitter sleeps only while the queue is full or another submitter is on its way to the free place. */
  lemma BlockedForAReason(s: State, k: nat) returns (i: nat)
    requires Inv(s) && k < |s.submitters| && s.submitters[k].Blocked? && !Full(s)
    ensures i < |s.submitters| && s.submitters[i].Entering?
  {
    i := SomeEntering(s.submitters);
  }

  /** How many steps the workers have left once the pool is shut down. */
  ghost function StepsLeft(s: State): nat {
    3 * |s.queue| + 2 * BusyCount(s.workers) + ReadyCount(s.workers)
  }

  /** After shutdown every step of a worker brings it nearer to the end. */
  lemma WorkersWindDown(s: State, m: Move)
    requires Inv(s) && s.shutdown && CanMove(s, m) && (m.WorkSection? || m.Finishes?)
    ensures StepsLeft(Moved(s, m)) < StepsLeft(s)
  {
    var s', w := Moved(s, m), m.w;
    WorkerSet(s.workers, w, s'.workers[w]);
  }

  /** After shutdown, until all workers are gone, one of them can step: thread_pool_destroy's joins come to an end. */
  lemma SomeWorkerSteps(s: State) returns (m: Move)
    requires Inv(s) && s.shutdown && !AllExited(s)
    ensures CanMove(s, m) && (m.WorkSection? || m.Finishes?)
  {
    var w :| 0 <= w < |s.workers| && !s.workers[w].Exited?;
    assert s.workers[w] in s.workers;
    m := if s.workers[w].Running? then Finishes(w) else WorkSection(w, None);
  }

  // ---------------------------------------------------------------------------
  // The linked queue
  // ---------------------------------------------------------------------------

  class TaskNode {
    const task: Task
    var next: TaskNode?

    constructor (task: Task)
      ensures this.task == task && next == null
    {
      this.task, next := task, null;
    }
  }

  /** queue_head, queue_tail and queue_size. */
  class TaskQueue {
    var head: TaskNode?
    var tail: TaskNode?
    var size: nat

    /** The nodes from head to tail. */
    ghost var nodes: seq<TaskNode>

    ghost predicate Valid()
      reads this, nodes
    {
      && size == |nodes| && Distinct(nodes)
      && head == (if nodes == [] then null else nodes[0]) && tail == (if nodes == [] then null else nodes[|nodes| - 1])
      && forall i {:trigger nodes[i]} :: 0 <= i < |nodes| ==> nodes[i].next == if i + 1 < |nodes| then nodes[i + 1] else null
    }

    ghost function Contents(): (r: seq<Task>)
      reads this, nodes
      ensures |r| == |nodes|
    {
      seq(|nodes|, i requires 0 <= i < |nodes| reads this, nodes => nodes[i].task)
    }

    constructor ()
      ensures Valid() && nodes == [] && Contents() == []
    {
      head, tail, size, nodes := null, null, 0, [];
    }

    /** The end of thread_pool_submit. */
    method Enqueue(task: Task)
      requires Valid()
      modifies this, nodes
      ensures Valid() && Contents() == old(Contents()) + [task]
      ensures |nodes| > 0 && nodes[..|nodes| - 1] == old(nodes) && fresh(nodes[|nodes| - 1])
    {
      var node := new TaskNode(task);
      if tail != null {
        tail.next := node;
      } else {
        head := node;
      }
      tail, size := node, size + 1;
      nodes := nodes + [node];
    }

    /** The dequeue of worker_thread. */
    method Dequeue() returns (task: Task)
      requires Valid() && Contents() != []
      modifies this
      ensures Valid() && [task] + Contents() == old(Contents()) && nodes == old(nodes)[1..]
    {
      ghost var all := nodes;
      var node := head;
      assert node == all[0] && (node.next == null <==> |all| == 1);
      task, head := node.task, node.next;
      if head == null {
        tail := null;
      }
      size, nodes := size - 1, nodes[1..];
      assert forall i :: 0 <= i < |nodes| ==> nodes[i] == all[i + 1];
      assert [task] + Contents() == old(Contents());
    }
  }
}
