/** The sink thread by itself empties the log (log/src/logging.cpp:429-467). */
module LogDrain {
  import opened Util
  import opened LogChunks
  import opened LogRing
  import opened LogSystem

  /** No producer is inside `finish`; lines may be under construction. */
  ghost predicate Settled(s: State) {
    forall p :: p in s.ring.phase ==> s.ring.phase[p] == Idle
  }

  ghost predicate ByConsumer(steps: seq<Step>) {
    forall i :: 0 <= i < |steps| ==>
      steps[i].DoCall? || steps[i] in {DoLook, DoFetch, DoTake, DoStop, DoClear, DoAdvance, DoDecrement}
  }

  ghost predicate Drained(s: State) {
    s.ring.sink == Out && s.ring.done == s.ring.issued
  }

  /** The present call started with an empty buffer of the sink thread's size and has read nothing yet. */
  ghost predicate Ready(s: State) {
    s.read == "" && MAX_DATA <= s.limit
  }

  ghost function Left(s: State): nat {
    if s.ring.done <= s.ring.issued then s.ring.issued - s.ring.done else 0
  }

  /** The chunks left of the line being consumed. */
  ghost function ChunksLeft(s: State): nat {
    if s.ring.done < |s.lines| && s.lines[s.ring.done] in s.mem.chains then |s.mem.chains[s.lines[s.ring.done]]| else 0
  }

  /** How far the consumer is from its next chunk or ticket. */
  ghost function Stage(s: State): nat {
    match s.ring.sink
    case Out => if s.ring.done == s.ring.issued then 0 else 4
    case Check => if Ready(s) then 3 else 7
    case Load => if Ready(s) then 2 else 6
    case Chunks => if Ready(s) then 1 else 5
    case Cleared => 0
    case Advanced => 8
  }

  /** What the consumer does next. */
  ghost function NextStep(s: State): Step {
    match s.ring.sink
    case Out => DoCall(MAX_DATA)
    case Check => DoLook
    case Load => DoFetch
    case Chunks => if s.data.None? then DoClear else if CanTakeChunk(s) then DoTake else DoStop
    case Cleared => DoAdvance
    case Advanced => DoDecrement
  }

  lemma NoneReserved(r: Ring)
    requires forall p :: p in r.phase ==> r.phase[p] == Idle
    ensures InPhase(r.phase, Reserved) == {} && InPhase(r.phase, Backing) == {}
    ensures forall t :: !Held(r, t)
  {
  }

  /** With nobody inside `finish` the counter counts the outstanding tickets. */
  ghost predicate Counts(r: Ring) {
    r.done <= r.issued && r.queueSize == r.issued - r.done + if r.sink == Advanced then 1 else 0
  }

  lemma QueueCounts(r: Ring)
    requires RingOk(r) && forall p :: p in r.phase ==> r.phase[p] == Idle
    ensures Counts(r)
  {
    NoneReserved(r);
  }

  /** ... and the slot of the next ticket is filled exactly if there is one. */
  lemma NextIsThere(r: Ring)
    requires RingOk(r) && (forall p :: p in r.phase ==> r.phase[p] == Idle) && r.sink == Load
    ensures SlotOf(r.consumePos) in r.slots <==> r.done < r.issued
  {
    NoneReserved(r);
    if r.done < r.issued {
      assert r.done + 1 in r.full;
      WrapKeepsSlot(r.done + 1);
    } else if SlotOf(r.consumePos) in r.slots {
      FetchFindsNext(r);
    }
  }

  lemma TicketInHand(r: Ring)
    requires RingOk(r) && r.sink in {Chunks, Cleared}
    ensures r.done < r.issued
  {
  }

  /** One step nearer: a ticket consumed, or a chunk removed, or an earlier stage. */
  ghost predicate Nearer(s: State, s': State) {
    && s'.logged == s.logged && s'.ring.issued == s.ring.issued && s'.ring.phase == s.ring.phase
    && (|| s.ring.done < s'.ring.done
        || (s.ring.done == s'.ring.done && ChunksLeft(s') < ChunksLeft(s))
        || (s.ring.done == s'.ring.done && ChunksLeft(s') == ChunksLeft(s) && Stage(s') < Stage(s)))
  }

  lemma OutMoves(s: State)
    requires s.ring.sink == Out && s.ring.done != s.ring.issued && s.read == ""
    ensures Nearer(s, Do(s, DoCall(MAX_DATA)))
  {
  }

  lemma CheckMoves(s: State)
    requires s.ring.sink == Check && Counts(s.ring)
    ensures Nearer(s, Do(s, DoLook))
  {
  }

  lemma AdvancedMoves(s: State)
    requires s.ring.sink == Advanced
    ensures Nearer(s, Do(s, DoDecrement))
  {
  }

  lemma LoadMoves(s: State)
    requires s.ring.sink == Load && s.ring.done <= s.ring.issued
    requires SlotOf(s.ring.consumePos) in s.ring.slots <==> s.ring.done < s.ring.issued
    ensures Nearer(s, Do(s, DoFetch))
  {
  }

  lemma TakeMoves(s: State)
    requires Can(s, DoTake)
    ensures Nearer(s, Do(s, DoTake))
  {
    var l := s.lines[s.ring.done];
    assert Do(s, DoTake).mem.chains[l] == s.mem.chains[l][1..];
  }

  lemma StopMoves(s: State)
    requires Can(s, DoStop) && !Ready(s) && s.ring.done < s.ring.issued
    ensures Nearer(s, Do(s, DoStop))
  {
  }

  lemma ClearMoves(s: State)
    requires Can(s, DoClear)
    ensures Nearer(s, Do(s, DoClear))
  {
  }

  lemma AdvanceMoves(s: State)
    requires Can(s, DoAdvance)
    ensures Nearer(s, Do(s, DoAdvance))
  {
  }

  /** Inside a chain there is a chunk to take, or the buffer is full, or the chain is at its end. */
  lemma ChunksMove(s: State)
    requires Wf(s.mem) && LinesOk(s) && ConsumerOk(s) && s.ring.sink == Chunks && s.ring.done < s.ring.issued
    ensures Can(s, NextStep(s)) && Nearer(s, Do(s, NextStep(s)))
  {
    if s.data.None? {
      ClearMoves(s);
    } else {
      NextChunkThere(s);
      TakeOrStop(s);
      if CanTakeChunk(s) {
        TakeMoves(s);
      } else {
        StopMoves(s);
      }
    }
  }

  /** What `Inv` says about the consumer's position. */
  ghost predicate Position(s: State) {
    && Counts(s.ring) && (s.ring.sink == Out ==> s.read == "")
    && (s.ring.sink == Load ==> (SlotOf(s.ring.consumePos) in s.ring.slots <==> s.ring.done < s.ring.issued))
    && (s.ring.sink == Chunks ==> s.ring.done < s.ring.issued)
  }

  lemma PositionIs(s: State)
    requires RingOk(s.ring) && ConsumerOk(s) && Settled(s)
    ensures Position(s)
  {
    QueueCounts(s.ring);
    if s.ring.sink == Load {
      NextIsThere(s.ring);
    } else if s.ring.sink == Chunks {
      TicketInHand(s.ring);
    }
  }

  lemma Moves(s: State)
    requires Position(s) && Wf(s.mem) && LinesOk(s) && ConsumerOk(s) && !Drained(s)
    ensures Can(s, NextStep(s)) && Nearer(s, Do(s, NextStep(s)))
  {
    match s.ring.sink
    case Out => OutMoves(s);
    case Check => CheckMoves(s);
    case Load => LoadMoves(s);
    case Chunks => ChunksMove(s);
    case Cleared => AdvanceMoves(s);
    case Advanced => AdvancedMoves(s);
  }

  lemma AllReturned(s: State)
    requires ConsumerOk(s) && LinesOk(s) && Conserved(s) && Drained(s)
    ensures s.returned == Flatten(s.logged)
  {
    assert s.lines[s.ring.done..] == [];
    assert s.returned + "" + "" == s.returned;
  }

  lemma MovesOn(s: State) returns (s': State)
    requires Inv(s) && Settled(s) && !Drained(s)
    ensures Can(s, NextStep(s)) && s' == Do(s, NextStep(s)) && Inv(s') && Settled(s') && s'.logged == s.logged
    ensures Left(s') < Left(s) || (Left(s') == Left(s) && ChunksLeft(s') < ChunksLeft(s))
         || (Left(s') == Left(s) && ChunksLeft(s') == ChunksLeft(s) && Stage(s') < Stage(s))
  {
    assert Position(s) by {
      PositionIs(s);
    }
    Moves(s);
    s' := Do(s, NextStep(s));
    StepKeepsInv(s, NextStep(s));
    assert Counted(s'.ring);
  }

  /** Finished, or one step from a state that is nearer. */
  lemma RunsStep(s: State, step: Step, rest: seq<Step>, s': State)
    requires Can(s, step) && Runs(Do(s, step), rest, s') && ByConsumer(rest) && ByConsumer([step])
    ensures Runs(s, [step] + rest, s') && ByConsumer([step] + rest)
  {
    assert ([step] + rest)[1..] == rest;
    assert [step][0] == step;
  }

  /** What is left to prove at the end, without the invariant. */
  ghost predicate Emptied(s: State, steps: seq<Step>, s': State) {
    && Runs(s, steps, s') && ByConsumer(steps)
    && s'.ring.done == s'.ring.issued && s'.logged == s.logged && s'.returned == Flatten(s.logged)
  }

  lemma EmptiedAlready(s: State)
    requires Inv(s) && Drained(s)
    ensures Emptied(s, [], s)
  {
    AllReturned(s);
  }

  lemma EmptiedNext(s: State, step: Step, rest: seq<Step>, s': State)
    requires Can(s, step) && ByConsumer([step]) && Do(s, step).logged == s.logged && Emptied(Do(s, step), rest, s')
    ensures Emptied(s, [step] + rest, s')
  {
    RunsStep(s, step, rest, s');
  }

  lemma NextByConsumer(s: State)
    ensures ByConsumer([NextStep(s)])
  {
  }

  /** Whenever no producer is inside `finish`, the consumer by itself gets to the point where every ticket is consumed
      and its calls have returned exactly the log. */
  lemma {:induction false} ConsumerCatchesUp(s: State) returns (steps: seq<Step>, s': State)
    requires Inv(s) && Settled(s)
    ensures Emptied(s, steps, s')
    decreases Left(s), ChunksLeft(s), Stage(s)
  {
    if Drained(s) {
      steps, s' := [], s;
      EmptiedAlready(s);
    } else {
      var next := MovesOn(s);
      var rest;
      rest, s' := ConsumerCatchesUp(next);
      steps := [NextStep(s)] + rest;
      NextByConsumer(s);
      EmptiedNext(s, NextStep(s), rest, s');
    }
  }

  /** In particular from every reachable state. */
  lemma LogDrains(s: State) returns (steps: seq<Step>, s': State)
    requires Reachable(s) && Settled(s)
    ensures Runs(s, steps, s') && ByConsumer(steps)
    ensures s'.ring.done == s'.ring.issued && s'.returned == Flatten(s.logged)
  {
    ReachableInv(s);
    steps, s' := ConsumerCatchesUp(s);
  }
}
