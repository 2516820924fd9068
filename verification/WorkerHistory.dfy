/** The task queue against the calls of a run (core/queue.h:85-121, core/worker.cpp:55-100): what `addTask` admitted is
    what gets pushed, and what gets pushed is what the worker runs. The histories here are read off the steps of a run;
    only whether a task was admitted also takes the length of the queue at that moment. */
module WorkerHistory {
  import opened Util
  import opened WorkerQueue

  /** The task that thread `p` last came with: nothing else it does can come between its admission and its push. */
  ghost function TaskOf(steps: seq<Step>, p: Pid): Option<Task>
    decreases |steps|
  {
    if steps == [] then None
    else if Last(steps).Admit? && Last(steps).p == p then Some(Last(steps).task)
    else TaskOf(Front(steps), p)
  }

  /** The tasks of the pushes, in the order of the pushes. */
  ghost function Pushes(steps: seq<Step>): seq<Option<Task>>
    decreases |steps|
  {
    if steps == [] then []
    else if Last(steps).Push? then Pushes(Front(steps)) + [TaskOf(Front(steps), Last(steps).p)]
    else Pushes(Front(steps))
  }

  /** The same for one thread. */
  ghost function PushesBy(steps: seq<Step>, p: Pid): seq<Option<Task>>
    decreases |steps|
  {
    if steps == [] then []
    else if Last(steps) == Push(p) then PushesBy(Front(steps), p) + [TaskOf(Front(steps), p)]
    else PushesBy(Front(steps), p)
  }

  /** The number of tasks the worker ran. */
  ghost function Ran(steps: seq<Step>): nat
    decreases |steps|
  {
    if steps == [] then 0 else Ran(Front(steps)) + if Last(steps).RunTask? then 1 else 0
  }

  /** The tasks with which thread `p` found the queue within its limit. */
  ghost function Admitted(s: State, steps: seq<Step>, p: Pid): seq<Option<Task>>
    decreases |steps|
  {
    if steps == [] || !Can(s, steps[0]) then [] else
    var rest := Admitted(Do(s, steps[0]), steps[1..], p);
    if steps[0].Admit? && steps[0].p == p && |s.queue| <= s.limit then [Some(steps[0].task)] + rest else rest
  }

  ghost function Wrap(tasks: seq<Task>): (r: seq<Option<Task>>)
    ensures |r| == |tasks| && forall i :: 0 <= i < |r| ==> r[i] == Some(tasks[i])
  {
    seq(|tasks|, i requires 0 <= i < |tasks| => Some(tasks[i]))
  }

  /** The task that is admitted and not pushed yet. */
  ghost function InHand(x: Pusher): seq<Option<Task>> {
    if x.Admitted? || x.Locked? then [Some(x.task)] else []
  }

  // ---------------------------------------------------------------------------------------------

  lemma {:induction false} RunsLast(s0: State, steps: seq<Step>, s: State) returns (mid: State)
    requires steps != [] && Runs(s0, steps, s)
    ensures Runs(s0, Front(steps), mid) && Can(mid, Last(steps)) && s == Do(mid, Last(steps))
    decreases |steps|
  {
    var next := Do(s0, steps[0]);
    if |steps| == 1 {
      mid := s0;
      assert steps[1..] == [] && Front(steps) == [];
    } else {
      mid := RunsLast(next, steps[1..], s);
      assert Front(steps)[1..] == Front(steps[1..]) && Front(steps)[0] == steps[0];
    }
  }

  /** `addTask` admits a task exactly if the queue is within its limit; otherwise nothing changes. */
  lemma AdmittedIff(s: State, p: Pid, task: Task)
    requires Can(s, Admit(p, task))
    ensures var s' := Do(s, Admit(p, task));
      && (|s.queue| <= s.limit <==> s'.pushers[p] != Away)
      && (|s.queue| <= s.limit ==> s' == s.(pushers := s.pushers[p := WorkerQueue.Admitted(task)]))
      && (|s.queue| > s.limit ==> s' == s)
  {
    assert s.pushers[p := Away] == s.pushers;
  }

  /** The task a thread has in hand is the one it last came with. */
  ghost predicate Carries(s: State, steps: seq<Step>) {
    forall p :: p in s.pushers && InHand(s.pushers[p]) != [] ==> InHand(s.pushers[p]) == [TaskOf(steps, p)]
  }

  lemma CarriesStep(s: State, steps: seq<Step>)
    requires steps != [] && Carries(s, Front(steps)) && Can(s, Last(steps))
    ensures Carries(Do(s, Last(steps)), steps)
  {
  }

  lemma {:induction false} RunCarries(s0: State, steps: seq<Step>, s: State)
    requires IsInit(s0) && Runs(s0, steps, s)
    ensures Carries(s, steps)
    decreases |steps|
  {
    if steps != [] {
      var mid := RunsLast(s0, steps, s);
      RunCarries(s0, Front(steps), mid);
      CarriesStep(mid, steps);
    }
  }

  lemma WrapAppend(tasks: seq<Task>, x: Task)
    ensures Wrap(tasks + [x]) == Wrap(tasks) + [Some(x)]
  {
  }

  /** In every run from the start, what the queue accepted is what the pushes brought, in their order, and each task run
      is a step of the worker's. */
  lemma {:induction false} AcceptedAsPushed(s0: State, steps: seq<Step>, s: State)
    requires IsInit(s0) && Runs(s0, steps, s)
    ensures Wrap(s.accepted) == Pushes(steps) && |s.executed| == Ran(steps)
    decreases |steps|
  {
    if steps != [] {
      var mid := RunsLast(s0, steps, s);
      AcceptedAsPushed(s0, Front(steps), mid);
      if Last(steps).Push? {
        RunCarries(s0, Front(steps), mid);
        WrapAppend(mid.accepted, mid.pushers[Last(steps).p].task);
      }
    }
  }

  // ---------------------------------------------------------------------------------------------
  // From admission to execution

  lemma {:induction false} AdmittedLast(s0: State, steps: seq<Step>, mid: State, p: Pid)
    requires steps != [] && Runs(s0, Front(steps), mid) && Can(mid, Last(steps))
    ensures Admitted(s0, steps, p)
         == Admitted(s0, Front(steps), p)
            + (if Last(steps).Admit? && Last(steps).p == p && |mid.queue| <= mid.limit then [Some(Last(steps).task)]
               else [])
    decreases |steps|
  {
    var front := Front(steps);
    if front == [] {
      assert steps[1..] == [] && steps[0] == Last(steps);
    } else {
      var next := Do(s0, steps[0]);
      assert front[0] == steps[0] && front[1..] == Front(steps[1..]);
      AdmittedLast(next, steps[1..], mid, p);
    }
  }

  lemma PushedOrInHand(s: State, steps: seq<Step>, p: Pid, admitted: seq<Option<Task>>)
    requires steps != [] && p in s.pushers && Can(s, Last(steps)) && Carries(s, Front(steps))
    requires admitted == PushesBy(Front(steps), p) + InHand(s.pushers[p])
    ensures var s', step := Do(s, Last(steps)), Last(steps);
      && p in s'.pushers
      && admitted + (if step.Admit? && step.p == p && |s.queue| <= s.limit then [Some(step.task)] else [])
         == PushesBy(steps, p) + InHand(s'.pushers[p])
  {
    var s', step, pushes := Do(s, Last(steps)), Last(steps), PushesBy(Front(steps), p);
    if step == Push(p) {
      assert admitted + [] == pushes + InHand(s.pushers[p]) + [];
    } else if step.Admit? && step.p == p {
      assert pushes + [] == pushes;
    } else {
      assert InHand(s'.pushers[p]) == InHand(s.pushers[p]) && admitted + [] == admitted;
    }
  }

  /** In every run from the start, each thread pushes exactly the tasks with which it was admitted, in that order; at
      most the last of them is still in its hands. */
  lemma {:induction false} AdmittedArePushed(s0: State, steps: seq<Step>, s: State, p: Pid)
    requires IsInit(s0) && Runs(s0, steps, s) && p in s0.pushers
    ensures p in s.pushers && Admitted(s0, steps, p) == PushesBy(steps, p) + InHand(s.pushers[p])
    decreases |steps|
  {
    if steps != [] {
      var mid := RunsLast(s0, steps, s);
      AdmittedArePushed(s0, Front(steps), mid, p);
      AdmittedLast(s0, steps, mid, p);
      RunCarries(s0, Front(steps), mid);
      PushedOrInHand(mid, steps, p, Admitted(s0, Front(steps), p));
    }
  }

  /** From every point of every run at which no thread is inside `addTask`, the worker by itself gets to the point where
      it has run exactly the tasks pushed, in the order of the pushes, and every admitted task has been pushed. */
  lemma EveryTaskRuns(s0: State, before: seq<Step>, s: State) returns (steps: seq<Step>, s': State)
    requires IsInit(s0) && Runs(s0, before, s) && forall p :: p in s.pushers ==> s.pushers[p] == Away
    ensures Runs(s, steps, s') && ByWorker(steps)
    ensures Wrap(s'.executed) == Pushes(before) && s'.queue == [] && s'.worker == Polling
    ensures forall p :: p in s0.pushers ==> PushesBy(before, p) == Admitted(s0, before, p)
  {
    InitHolds(s0);
    RunKeepsInv(s0, before, s);
    AcceptedAsPushed(s0, before, s);
    steps, s' := WorkerCatchesUp(s);
    forall p | p in s0.pushers ensures PushesBy(before, p) == Admitted(s0, before, p) {
      AdmittedArePushed(s0, before, s, p);
      assert PushesBy(before, p) + [] == PushesBy(before, p);
    }
  }
}
