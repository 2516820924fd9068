/** The log against the calls that wrote it: what the sink thread gets is, line by line and in ticket order, what the
    `produce` calls were given (log/src/logging.cpp:429-528). The history here is read off the steps of a run alone. */
module LogHistory {
  import opened Util
  import opened LogChunks
  import opened LogRing
  import opened LogSystem
  import opened LogDrain

  /** What one `produce` logs: all it was given, up to 16 MB. */
  function Whole(from: string): (s: string)
    ensures |from| <= 0x100_0000 ==> s == from
    ensures |from| > 0x100_0000 ==> s == from[..0x100_0000]
  {
    if |from| <= 0x100_0000 then from else from[..0x100_0000]
  }

  /** What thread `p`'s present line reads as after `step`, if it read as `w` before: publishing starts a new one. */
  function Next(step: Step, p: Pid, w: string): string {
    match step
    case Produce(q, from, _) => if q == p then w + Whole(from) else w
    case DoPublish(q) => if q == p then "" else w
    case _ => w
  }

  /** What thread `p` was given to log since its last publication. */
  ghost function Written(steps: seq<Step>, p: Pid): string
    decreases |steps|
  {
    if steps == [] then "" else Next(Last(steps), p, Written(Front(steps), p))
  }

  /** What each ticket was taken for, in ticket order. */
  ghost function Ticketed(steps: seq<Step>): seq<string>
    decreases |steps|
  {
    if steps == [] then []
    else if Last(steps).DoTicket? then Ticketed(Front(steps)) + [Written(Front(steps), Last(steps).p)]
    else Ticketed(Front(steps))
  }

  // ---------------------------------------------------------------------------------------------
  // The line that a thread has under construction

  /** Thread `p`'s line reads as `w` as long as it has no ticket. */
  ghost predicate Draft(s: State, p: Pid, w: string)
    requires p in s.local
  {
    var x := s.local[p];
    if x.head.None? then w == ""
    else
      && p in s.ring.phase
      && (s.ring.phase[p].Ticketed? || (x.line in s.mem.text && s.mem.text[x.line] == w))
  }

  lemma DraftBegun(s: State, p: Pid, from: string, id: ChunkId)
    requires Can(s, Produce(p, from, id)) && s.local[p].head.None?
    ensures Draft(Do(s, Produce(p, from, id)), p, Whole(from))
  {
  }

  lemma DraftGrown(s: State, p: Pid, from: string, id: ChunkId, w: string)
    requires ProducersOk(s) && Can(s, Produce(p, from, id)) && s.local[p].head.Some? && Draft(s, p, w)
    ensures Draft(Do(s, Produce(p, from, id)), p, w + Whole(from))
  {
    var s', x := Do(s, Produce(p, from, id)), s.local[p];
    ProducedMore(s, p, from, id, s');
    AppendText(s.mem, x.line, x.tail.value, id, Clip(from));
  }

  /** What another thread logs goes into its own line. */
  lemma DraftOfOther(s: State, p: Pid, q: Pid, from: string, id: ChunkId)
    requires ProducersOk(s) && LinesOk(s) && Can(s, Produce(q, from, id)) && p in s.local && p != q
    requires s.local[p].head.Some? && s.local[p].line in s.mem.text
    ensures var s', l := Do(s, Produce(q, from, id)), s.local[p].line;
      s'.local[p] == s.local[p] && s'.ring == s.ring && l in s'.mem.text && s'.mem.text[l] == s.mem.text[l]
  {
    if s.local[q].head.None? {
      NewLine(s);
    } else {
      var x := s.local[q];
      ProducedMore(s, q, from, id, Do(s, Produce(q, from, id)));
      AppendText(s.mem, x.line, x.tail.value, id, Clip(from));
    }
  }

  lemma DraftOfProduce(s: State, p: Pid, q: Pid, from: string, id: ChunkId, w: string)
    requires ProducersOk(s) && LinesOk(s) && Can(s, Produce(q, from, id)) && p in s.local && Draft(s, p, w)
    ensures var s' := Do(s, Produce(q, from, id));
      p in s'.local && Draft(s', p, Next(Produce(q, from, id), p, w))
  {
    if p != q {
      if s.local[p].head.Some? && !s.ring.phase[p].Ticketed? {
        DraftOfOther(s, p, q, from, id);
      }
    } else if s.local[p].head.None? {
      assert w + Whole(from) == Whole(from);
      DraftBegun(s, p, from, id);
    } else {
      DraftGrown(s, p, from, id, w);
    }
  }

  lemma DraftOfPublish(s: State, p: Pid, q: Pid, w: string)
    requires Can(s, DoPublish(q)) && p in s.local && Draft(s, p, w)
    ensures var s' := Do(s, DoPublish(q)); p in s'.local && Draft(s', p, Next(DoPublish(q), p, w))
  {
  }

  /** What the consumer takes has a ticket. */
  lemma DraftOfTake(s: State, p: Pid, w: string)
    requires ProducersOk(s) && Can(s, DoTake) && p in s.local && Draft(s, p, w)
    ensures p in Do(s, DoTake).local && Draft(Do(s, DoTake), p, w)
  {
    assert ProducerOk(s, p);
  }

  /** The other steps leave memory and local pointers alone. */
  lemma DraftOfOthers(s: State, step: Step, p: Pid, w: string)
    requires Can(s, step) && !step.Produce? && !step.DoPublish? && !step.DoTake? && p in s.local && Draft(s, p, w)
    requires forall q :: q in s.ring.phase && s.ring.phase[q].Ticketed? ==> !step.DoReserve? || step.p != q
    ensures p in Do(s, step).local && Draft(Do(s, step), p, w)
  {
  }

  /** Every step changes a thread's line exactly as it is called to. */
  lemma DraftStep(s: State, step: Step, p: Pid, w: string)
    requires ProducersOk(s) && LinesOk(s) && Can(s, step) && p in s.local && Draft(s, p, w)
    ensures p in Do(s, step).local && Draft(Do(s, step), p, Next(step, p, w))
  {
    match step
    case Produce(q, from, id) => DraftOfProduce(s, p, q, from, id, w);
    case DoPublish(q) => DraftOfPublish(s, p, q, w);
    case DoTake => DraftOfTake(s, p, w);
    case _ => DraftOfOthers(s, step, p, w);
  }

  // ---------------------------------------------------------------------------------------------
  // Runs

  lemma {:induction false} RunsLast(s0: State, steps: seq<Step>, s: State) returns (mid: State)
    requires steps != [] && Runs(s0, steps, s)
    ensures Runs(s0, Front(steps), mid) && Can(mid, Last(steps)) && s == Do(mid, Last(steps))
    decreases |steps|
  {
    var next := Do(s0, steps[0]);
    if |steps| == 1 {
      mid := s0;
      assert steps[1..] == [] && Front(steps) == [];
    } else {
      mid := RunsLast(next, steps[1..], s);
      assert Front(steps)[1..] == Front(steps[1..]) && Front(steps)[0] == steps[0];
    }
  }

  /** A ticket is taken for what its thread has written. */
  lemma TicketTakes(s: State, step: Step, w: string)
    requires Can(s, step) && step.DoTicket? && Draft(s, step.p, w) && ProducersOk(s)
    ensures Do(s, step).logged == s.logged + [w]
  {
    assert ProducerOk(s, step.p);
  }

  lemma OthersLogNothing(s: State, step: Step)
    requires Can(s, step) && !step.DoTicket?
    ensures Do(s, step).logged == s.logged
  {
  }

  lemma DraftsStep(s: State, step: Step, before: seq<Step>, after: seq<Step>)
    requires ProducersOk(s) && LinesOk(s) && Can(s, step) && after == before + [step]
    requires forall p :: p in s.local ==> Draft(s, p, Written(before, p))
    ensures forall p :: p in Do(s, step).local ==> Draft(Do(s, step), p, Written(after, p))
  {
    var s' := Do(s, step);
    assert Front(after) == before && Last(after) == step;
    forall p | p in s'.local ensures Draft(s', p, Written(after, p)) {
      SameThreads(s, step);
      DraftStep(s, step, p, Written(before, p));
    }
  }

  lemma SameThreads(s: State, step: Step)
    requires Can(s, step)
    ensures Do(s, step).local.Keys == s.local.Keys
  {
  }

  /** The last state before the end of a run, with what is needed of the invariant. */
  lemma RunsLastOk(s0: State, steps: seq<Step>, s: State) returns (mid: State)
    requires steps != [] && IsInit(s0) && Runs(s0, steps, s)
    ensures Runs(s0, Front(steps), mid) && Can(mid, Last(steps)) && s == Do(mid, Last(steps))
    ensures ProducersOk(mid) && LinesOk(mid)
  {
    mid := RunsLast(s0, steps, s);
    assert Inv(mid) by {
      InitHolds(s0);
      RunKeepsInv(s0, Front(steps), mid);
    }
  }

  lemma {:induction false} RunDrafts(s0: State, steps: seq<Step>, s: State)
    requires IsInit(s0) && Runs(s0, steps, s)
    ensures forall p :: p in s.local ==> Draft(s, p, Written(steps, p))
    decreases |steps|
  {
    if steps != [] {
      var mid := RunsLastOk(s0, steps, s);
      RunDrafts(s0, Front(steps), mid);
      assert steps == Front(steps) + [Last(steps)];
      DraftsStep(mid, Last(steps), Front(steps), steps);
    }
  }

  /** In every run from the start, the line behind each ticket is the concatenation of what its thread's `produce` calls
      were given since its last publication, in order and whole up to 16 MB each. */
  lemma {:induction false} LoggedAsWritten(s0: State, steps: seq<Step>, s: State)
    requires IsInit(s0) && Runs(s0, steps, s)
    ensures s.logged == Ticketed(steps)
    decreases |steps|
  {
    if steps != [] {
      var mid := RunsLastOk(s0, steps, s);
      var before, step := Front(steps), Last(steps);
      LoggedAsWritten(s0, before, mid);
      if step.DoTicket? {
        RunDrafts(s0, before, mid);
        TicketTakes(mid, step, Written(before, step.p));
      } else {
        OthersLogNothing(mid, step);
      }
    }
  }

  // ---------------------------------------------------------------------------------------------
  // What comes out

  /** In every run, what `consume` returned, then what the present call has read, then what is stored for the tickets
      still queued, is what the threads wrote, in ticket order. */
  lemma StreamIsWritten(s0: State, steps: seq<Step>, s: State)
    requires IsInit(s0) && Runs(s0, steps, s)
    ensures Wf(s.mem) && s.ring.done <= |s.lines| && forall i :: 0 <= i < |s.lines| ==> s.lines[i] in s.mem.chains
    ensures s.returned + s.read + StoredBytes(s.mem, s.lines[s.ring.done..]) == Flatten(Ticketed(steps))
  {
    LoggedAsWritten(s0, steps, s);
    StreamConserved(s);
  }

  /** Whenever no producer is inside `finish`, the consumer's steps alone lead to calls that have returned exactly what
      was written for all tickets. */
  lemma DrainsWhatWasWritten(s0: State, before: seq<Step>, s: State) returns (steps: seq<Step>, s': State)
    requires IsInit(s0) && Runs(s0, before, s) && Settled(s)
    ensures Runs(s, steps, s') && ByConsumer(steps)
    ensures s'.ring.done == s'.ring.issued && s'.returned == Flatten(Ticketed(before))
  {
    LoggedAsWritten(s0, before, s);
    steps, s' := LogDrains(s);
  }

  // ---------------------------------------------------------------------------------------------
  // The caller's buffer

  lemma FitsStep(s: State, step: Step)
    requires ConsumerOk(s) && Can(s, step) && |s.read| <= s.limit
    ensures |Do(s, step).read| <= Do(s, step).limit
  {
  }

  /** In every run, `consume` stays inside the buffer it was given, and gives up inside a chain exactly when the next
      chunk does not fit any more. */
  lemma {:induction false} StaysInBuffer(s0: State, steps: seq<Step>, s: State)
    requires IsInit(s0) && Runs(s0, steps, s)
    ensures |s.read| <= s.limit
    ensures s.ring.sink == Chunks && s.data.Some? ==>
      && s.data.value in s.mem.chunks
      && (Can(s, DoStop) <==> |s.read| + |s.mem.chunks[s.data.value].data| > s.limit)
      && (Can(s, DoTake) <==> |s.read| + |s.mem.chunks[s.data.value].data| <= s.limit)
    decreases |steps|
  {
    InitHolds(s0);
    if steps != [] {
      var mid := RunsLast(s0, steps, s);
      StaysInBuffer(s0, Front(steps), mid);
      RunKeepsInv(s0, Front(steps), mid);
      FitsStep(mid, Last(steps));
    }
    RunKeepsInv(s0, steps, s);
    if s.ring.sink == Chunks && s.data.Some? {
      NextChunkThere(s);
      StopIffFull(s);
    }
  }

  lemma StopIffFull(s: State)
    requires s.ring.sink == Chunks && s.data.Some? && s.ring.done < |s.lines| && s.data.value in s.mem.chunks
    requires var l := s.lines[s.ring.done];
             && l in s.mem.chains && l in s.mem.text && s.mem.chains[l] != []
             && |s.mem.chunks[s.data.value].data| <= |s.mem.text[l]|
    ensures Can(s, DoStop) <==> |s.read| + |s.mem.chunks[s.data.value].data| > s.limit
    ensures Can(s, DoTake) <==> |s.read| + |s.mem.chunks[s.data.value].data| <= s.limit
  {
  }
}
