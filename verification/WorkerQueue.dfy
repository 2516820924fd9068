/** A worker's task queue and its wake-up pipe: `MessageQueue::push` and `get` (core/queue.h), `Notifier::notify`,
    `read` and `handle` (core/queue.cpp), `Worker::addTask` and `onSignals` (core/worker.cpp), as atomic steps of any
    number of producers and one worker.

    The spin lock protects queue and flag; the pipe is written while holding it and read without it.  Assumption: a
    write to the pipe puts one byte into it or finds it full. */
module WorkerQueue {
  import opened Util

  type Pid = nat
  type Task = nat

  /** Where a producer is inside `addTask`. */
  datatype Pusher = Away | Admitted(task: Task) | Locked(task: Task) | Notifying | Leaving

  /** Where the worker is: in epoll, inside `Notifier::read`, between draining and `get`, inside `get` before and after
      the swap, or running the tasks it took. */
  datatype Worker = Polling | Reading | Drained | Getting | Swapped(batch: seq<Task>) | Running(batch: seq<Task>)

  datatype Holder = Producer(p: Pid) | Consumer

  datatype State = State(
    queue: seq<Task>, notify: bool, lock: Option<Holder>, pipe: nat,
    pushers: map<Pid, Pusher>, worker: Worker, limit: nat, capacity: nat,
    accepted: seq<Task>, executed: seq<Task>)

  datatype Step =
    | Admit(p: Pid, task: Task) | Lock(p: Pid) | Push(p: Pid) | Write(p: Pid) | Unlock(p: Pid)
    | Wake | Read | LockGet | Swap | UnlockGet | RunTask | Sleep

  const READ_SIZE: nat := 1024

  ghost predicate Can(s: State, step: Step) {
    match step
    case Admit(p, _) => p in s.pushers && s.pushers[p] == Away && s.lock == None
    case Lock(p) => p in s.pushers && s.pushers[p].Admitted? && s.lock == None
    case Push(p) => p in s.pushers && s.pushers[p].Locked?
    case Write(p) => p in s.pushers && s.pushers[p] == Notifying
    case Unlock(p) => p in s.pushers && s.pushers[p] == Leaving
    case Wake => s.worker == Polling && s.pipe > 0
    case Read => s.worker == Reading
    case LockGet => s.worker == Drained && s.lock == None
    case Swap => s.worker == Getting
    case UnlockGet => s.worker.Swapped?
    case RunTask => s.worker.Running? && s.worker.batch != []
    case Sleep => s.worker.Running? && s.worker.batch == []
  }

  ghost function Do(s: State, step: Step): State
    requires Can(s, step)
  {
    match step
    case Admit(p, task) =>
      // `_queue.size() > _queueLimit` rejects; the size is read under its own short lock
      if |s.queue| > s.limit then s else s.(pushers := s.pushers[p := Admitted(task)])
    case Lock(p) => s.(lock := Some(Producer(p)), pushers := s.pushers[p := Locked(s.pushers[p].task)])
    case Push(p) =>
      var wake := s.queue == [] || s.notify;
      s.(queue := s.queue + [s.pushers[p].task], accepted := s.accepted + [s.pushers[p].task],
         notify := s.notify && !wake, pushers := s.pushers[p := if wake then Notifying else Leaving])
    case Write(p) =>
      s.(pipe := if s.pipe < s.capacity then s.pipe + 1 else s.pipe, pushers := s.pushers[p := Leaving])
    case Unlock(p) => s.(lock := None, pushers := s.pushers[p := Away])
    case Wake => s.(worker := Reading)
    case Read =>
      if READ_SIZE <= s.pipe then s.(pipe := s.pipe - READ_SIZE) else s.(pipe := 0, worker := Drained)
    case LockGet => s.(worker := Getting, lock := Some(Consumer))
    case Swap => s.(queue := [], notify := true, worker := Swapped(s.queue))
    case UnlockGet => s.(lock := None, worker := Running(s.worker.batch))
    case RunTask => s.(executed := s.executed + [s.worker.batch[0]], worker := Running(s.worker.batch[1..]))
    case Sleep => s.(worker := Polling)
  }

  // ---------------------------------------------------------------------------------------------
  // Invariant

  ghost predicate Holds(x: Pusher) {
    x.Locked? || x == Notifying || x == Leaving
  }

  ghost predicate LockOk(s: State) {
    && (forall p :: p in s.pushers ==> (Holds(s.pushers[p]) <==> s.lock == Some(Producer(p))))
    && (s.lock == Some(Consumer) <==> s.worker == Getting || s.worker.Swapped?)
    && (s.lock.Some? && s.lock.value.Producer? ==> s.lock.value.p in s.pushers)
  }

  /** A producer is about to write the wake-up byte. */
  ghost predicate WakeupComing(s: State) {
    exists p :: p in s.pushers && s.pushers[p] == Notifying
  }

  /** The worker has begun to drain the pipe and has not taken the queue yet. */
  ghost predicate BeforeGet(s: State) {
    s.worker == Reading || s.worker == Drained || s.worker == Getting
  }

  ghost predicate NoLostWakeup(s: State) {
    s.queue != [] ==> s.pipe > 0 || BeforeGet(s) || WakeupComing(s)
  }

  ghost function Batch(w: Worker): seq<Task> {
    if w.Swapped? || w.Running? then w.batch else []
  }

  /** Accepted tasks are run, taken or queued, each once, in the order of their pushes. */
  ghost predicate InOrder(s: State) {
    s.accepted == s.executed + Batch(s.worker) + s.queue
  }

  ghost function Pending(pushers: map<Pid, Pusher>): set<Pid> {
    set p | p in pushers && (pushers[p].Admitted? || pushers[p].Locked?)
  }

  /** The limit is checked and the task pushed under different locks, so each thread can overshoot by one. */
  ghost predicate Bounded(s: State) {
    |s.queue| + |Pending(s.pushers)| <= s.limit + |s.pushers|
  }

  ghost predicate Inv(s: State) {
    1 <= s.capacity && LockOk(s) && NoLostWakeup(s) && InOrder(s) && Bounded(s)
  }

  lemma LockStep(s: State, step: Step)
    requires Inv(s) && Can(s, step)
    ensures LockOk(Do(s, step))
  {
  }

  lemma WakeupStep(s: State, step: Step)
    requires Inv(s) && Can(s, step)
    ensures NoLostWakeup(Do(s, step))
  {
    var s' := Do(s, step);
    if WakeupComing(s) {
      var q :| q in s.pushers && s.pushers[q] == Notifying;
      assert q in s'.pushers;
      assert s'.pushers[q] == Notifying || step == Write(q);
    }
    if step.Push? && s.queue == [] {
      assert s'.pushers[step.p] == Notifying;
    }
  }

  lemma OrderRun(s: State)
    requires InOrder(s) && Can(s, RunTask)
    ensures InOrder(Do(s, RunTask))
  {
    var b := s.worker.batch;
    assert b == [b[0]] + b[1..];
    Shift(s.executed, [b[0]], b[1..], s.queue);
  }

  lemma Shift(a: seq<Task>, b: seq<Task>, c: seq<Task>, d: seq<Task>)
    ensures a + (b + c) + d == (a + b) + c + d
  {
  }

  lemma OrderPush(s: State, p: Pid)
    requires InOrder(s) && Can(s, Push(p))
    ensures InOrder(Do(s, Push(p)))
  {
    Join(s.executed, Batch(s.worker), s.queue, [s.pushers[p].task]);
  }

  lemma Join(a: seq<Task>, b: seq<Task>, c: seq<Task>, d: seq<Task>)
    ensures a + b + (c + d) == a + b + c + d
  {
  }

  lemma OrderSwap(s: State)
    requires InOrder(s) && Can(s, Swap)
    ensures InOrder(Do(s, Swap))
  {
    assert s.executed + [] == s.executed;
    assert s.executed + s.queue + [] == s.executed + s.queue;
  }

  /** The steps that move no task. */
  lemma OrderSame(s: State, step: Step)
    requires InOrder(s) && Can(s, step) && !step.RunTask? && !step.Push? && !step.Swap?
    ensures InOrder(Do(s, step))
  {
    var s' := Do(s, step);
    assert s'.accepted == s.accepted && s'.executed == s.executed && s'.queue == s.queue;
    assert Batch(s'.worker) == Batch(s.worker);
  }

  lemma OrderStep(s: State, step: Step)
    requires InOrder(s) && Can(s, step)
    ensures InOrder(Do(s, step))
  {
    match step
    case RunTask => OrderRun(s);
    case Push(p) => OrderPush(s, p);
    case Swap => OrderSwap(s);
    case _ => OrderSame(s, step);
  }

  lemma PendingUpdate(pushers: map<Pid, Pusher>, p: Pid, x: Pusher)
    requires p in pushers
    ensures |Pending(pushers[p := x])| == |Pending(pushers)|
              - (if pushers[p].Admitted? || pushers[p].Locked? then 1 else 0)
              + (if x.Admitted? || x.Locked? then 1 else 0)
  {
    var a, b := Pending(pushers), Pending(pushers[p := x]);
    var rest := a - {p};
    assert b == if x.Admitted? || x.Locked? then rest + {p} else rest;
    assert a == if pushers[p].Admitted? || pushers[p].Locked? then rest + {p} else rest;
  }

  lemma PendingBound(pushers: map<Pid, Pusher>)
    ensures |Pending(pushers)| <= |pushers|
  {
    SubsetSize(Pending(pushers), pushers.Keys);
    assert |pushers.Keys| == |pushers|;
  }

  lemma BoundStep(s: State, step: Step)
    requires Bounded(s) && Can(s, step)
    ensures Bounded(Do(s, step))
  {
    var s' := Do(s, step);
    if step.Admit? || step.Lock? || step.Push? || step.Write? || step.Unlock? {
      if s'.pushers != s.pushers {
        var x := s'.pushers[step.p];
        assert s'.pushers == s.pushers[step.p := x] && s'.pushers.Keys == s.pushers.Keys;
        assert |s'.pushers| == |s'.pushers.Keys| && |s.pushers| == |s.pushers.Keys|;
        PendingUpdate(s.pushers, step.p, x);
        PendingBound(s'.pushers);
      }
    }
  }

  lemma StepKeepsInv(s: State, step: Step)
    requires Inv(s) && Can(s, step)
    ensures Inv(Do(s, step))
  {
    LockStep(s, step);
    WakeupStep(s, step);
    OrderStep(s, step);
    BoundStep(s, step);
  }

  // ---------------------------------------------------------------------------------------------
  // Runs

  ghost predicate IsInit(s: State) {
    && s.queue == [] && s.notify && s.lock == None && s.pipe == 0 && s.worker == Polling && 1 <= s.capacity
    && s.accepted == [] && s.executed == []
    && forall p :: p in s.pushers ==> s.pushers[p] == Away
  }

  ghost predicate Runs(s: State, steps: seq<Step>, s': State)
    decreases |steps|
  {
    if steps == [] then s == s'
    else Can(s, steps[0]) && Runs(Do(s, steps[0]), steps[1..], s')
  }

  lemma InitHolds(s: State)
    requires IsInit(s)
    ensures Inv(s)
  {
    assert Pending(s.pushers) == {};
  }

  lemma {:induction false} RunKeepsInv(s: State, steps: seq<Step>, s': State)
    requires Inv(s) && Runs(s, steps, s')
    ensures Inv(s')
    decreases |steps|
  {
    if steps != [] {
      StepKeepsInv(s, steps[0]);
      RunKeepsInv(Do(s, steps[0]), steps[1..], s');
    }
  }

  ghost predicate Reachable(s: State) {
    exists s0, steps :: IsInit(s0) && Runs(s0, steps, s)
  }

  lemma ReachableInv(s: State)
    requires Reachable(s)
    ensures Inv(s)
  {
    var s0, steps :| IsInit(s0) && Runs(s0, steps, s);
    InitHolds(s0);
    RunKeepsInv(s0, steps, s);
  }

  /** In every interleaving, a non-empty queue means a byte in the pipe, or a worker between draining and `get`, or a
      producer about to write the byte. */
  lemma WakeupNeverLost(s: State)
    requires Reachable(s) && s.queue != []
    ensures s.pipe > 0 || BeforeGet(s) || WakeupComing(s)
  {
    ReachableInv(s);
  }

  /** What was run is a prefix of what was accepted: exactly once, in push order. */
  lemma RunInPushOrder(s: State)
    requires Reachable(s)
    ensures s.executed <= s.accepted
    ensures |s.queue| <= s.limit + |s.pushers|
  {
    ReachableInv(s);
    assert s.accepted == s.executed + (Batch(s.worker) + s.queue);
  }

  ghost predicate ByWorker(steps: seq<Step>) {
    forall i :: 0 <= i < |steps| ==>
      steps[i] in {Wake, Read, LockGet, Swap, UnlockGet, RunTask, Sleep}
  }

  /** No accepted task is stranded: whenever no producer is inside `push`, the worker by itself gets to the point where
      every accepted task has run and it sleeps with an empty queue. */
  lemma WorkerCatchesUp(s: State) returns (steps: seq<Step>, s': State)
    requires Inv(s) && (forall p :: p in s.pushers ==> !Holds(s.pushers[p]))
    ensures Runs(s, steps, s') && ByWorker(steps)
    ensures s'.executed == s'.accepted == s.accepted && s'.queue == [] && s'.worker == Polling
    decreases Rank(s), s.pipe, |Batch(s.worker)|
  {
    if s.worker == Polling && s.queue == [] {
      steps, s' := [], s;
      assert s.executed + [] + [] == s.executed;
    } else {
      var step := if s.worker == Polling then Wake
                  else if s.worker == Reading then Read
                  else if s.worker == Drained then LockGet
                  else if s.worker == Getting then Swap
                  else if s.worker.Swapped? then UnlockGet
                  else if s.worker.batch != [] then RunTask
                  else Sleep;
      assert !WakeupComing(s);
      assert s.lock.Some? ==> s.lock.value == Consumer;
      StepKeepsInv(s, step);
      var rest;
      rest, s' := WorkerCatchesUp(Do(s, step));
      steps := [step] + rest;
      assert steps[1..] == rest;
    }
  }

  /** How far the worker is from sleeping with an empty queue: a worker that holds or will take the queue is nearer than
      one that still has to wake up for it. */
  ghost function Rank(s: State): nat {
    match s.worker
    case Polling => if s.queue == [] then 0 else 6
    case Reading => 5
    case Drained => 4
    case Getting => 3
    case Swapped(_) => if s.queue == [] then 2 else 8
    case Running(_) => if s.queue == [] then 1 else 7
  }
}
