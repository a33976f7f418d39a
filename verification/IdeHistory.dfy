/** ide.c: what each call of iderw gives its caller over a whole run, in terms of the buffers that callers
    brought to it. */
module IdeHistory {
  import opened Common
  import opened Ide

  /** What the last of the requests to write block n wrote, or what the disk held at first. */
  function LastWrite(reqs: seq<Request>, n: nat, disk0: seq<Contents>): Contents
    requires n < |disk0|
  {
    if reqs == [] then disk0[n]
    else if reqs[|reqs| - 1].buf.dirty && reqs[|reqs| - 1].buf.blockno == n then reqs[|reqs| - 1].buf.data
    else LastWrite(reqs[..|reqs| - 1], n, disk0)
  }

  lemma {:induction false} ServeAt(disk0: seq<Contents>, reqs: seq<Request>, n: nat)
    requires n < |disk0|
    ensures Serve(disk0, reqs)[n] == LastWrite(reqs, n, disk0)
  {
    if reqs != [] {
      ServeAt(disk0, reqs[..|reqs| - 1], n);
    }
  }

  /** The requests are those of the calls of iderw, with the buffers they had then; a buffer outside iderw
      changes only as its holder changes it. */
  lemma RequestsAre(s: State, t: State, e: Step)
    requires Next(s, t, e)
    ensures e.Enter? ==> e.b < |s.bufs|
    ensures t.issued == if e.Enter? then s.issued + [Request(e.b, s.bufs[e.b])] else s.issued
    ensures e.Touch? ==> e.b < |s.bufs| && t.bufs == s.bufs[e.b := e.buf]
    ensures !e.Touch? && !e.Interrupt? ==> t.bufs == s.bufs
  {
    hide Synced, Filled, Woken, CommandFor;
    if e.Enter? {
      StartedSame(s.(queue := s.queue + [e.b], issued := s.issued + [Request(e.b, s.bufs[e.b])],
                     pcs := s.pcs[e.b := Asleep(|s.issued|)]));
    }
    hide Started;
  }

  /** Inside iderw, b's caller waits for request i. */
  predicate WaitsFor(s: State, b: nat, i: nat) {
    b < |s.pcs| && !s.pcs[b].Out? && s.pcs[b].i == i
  }

  lemma WaitStep(s: State, t: State, e: Step, b: nat)
    requires Next(s, t, e) && b < |s.pcs|
    ensures |t.pcs| == |s.pcs|
    ensures e == Enter(b) ==> WaitsFor(t, b, |s.issued|)
    ensures e != Enter(b) && !t.pcs[b].Out? ==> !s.pcs[b].Out? && t.pcs[b].i == s.pcs[b].i
  {
    hide Synced, Filled, CommandFor;
    if e.Enter? {
      StartedSame(s.(queue := s.queue + [e.b], issued := s.issued + [Request(e.b, s.bufs[e.b])],
                     pcs := s.pcs[e.b := Asleep(|s.issued|)]));
      hide Started;
    } else if e.Interrupt? {
      var d := s.queue[0];
      var done := Filled(s.bufs[d], s.drive);
      StartedSame(s.(queue := s.queue[1..], bufs := s.bufs[d := done], pcs := Woken(s.pcs, d),
                     drive := Idle, results := s.results + [done]));
      hide Started;
    }
  }

  /** From its call of iderw on, the caller waits for the request it made then. */
  lemma {:induction false} OwnRequest(ss: seq<State>, es: seq<Step>, j: nat, k: nat, b: nat)
    requires Run(ss, es) && j < k <= |es| && es[j] == Enter(b) && forall m :: j < m < k ==> es[m] != Enter(b)
    ensures b < |ss[j].bufs| && b < |ss[k].pcs| && |ss[j].issued| < |ss[k].issued|
    ensures ss[k].issued[..|ss[j].issued|] == ss[j].issued
    ensures ss[k].issued[|ss[j].issued|] == Request(b, ss[j].bufs[b])
    ensures !ss[k].pcs[b].Out? ==> ss[k].pcs[b].i == |ss[j].issued|
    decreases k
  {
    hide Init;
    assert Next(ss[k - 1], ss[k], es[k - 1]);
    if k == j + 1 {
      EnterHas(ss[j], ss[k], b);
      hide Next;
      RequestsAre(ss[j], ss[k], es[j]);
      WaitStep(ss[j], ss[k], es[j], b);
    } else {
      hide Next;
      OwnRequest(ss, es, j, k - 1, b);
      RequestsAre(ss[k - 1], ss[k], es[k - 1]);
      WaitStep(ss[k - 1], ss[k], es[k - 1], b);
    }
  }

  lemma EnterHas(s: State, t: State, b: nat)
    requires Next(s, t, Enter(b))
    ensures b < |s.pcs| && b < |s.bufs|
  {
  }

  /** Every run: iderw on a dirty buffer returns with its data unchanged, and with the disk's block as the
      last of the writes done so far left it, this one among them; on a clean one with the data of the last
      write of the block requested before, or the disk's first contents. */
  lemma IderwAnswers(ss: seq<State>, es: seq<Step>, j: nat, k: nat, b: nat)
    requires Run(ss, es) && j < k < |es| && es[j] == Enter(b) && es[k] == Retest(b)
    requires forall m :: j < m < k ==> es[m] != Enter(b)
    requires b < |ss[k + 1].pcs| && ss[k + 1].pcs[b].Out?
    ensures b < |ss[j].bufs| && b < |ss[k + 1].bufs| && ss[j].bufs[b].blockno < |ss[0].disk|
    ensures var buf, done := ss[j].bufs[b], ss[k + 1].bufs[b];
            && done.valid && !done.dirty && done.blockno == buf.blockno
            && done.data == if buf.dirty then buf.data else LastWrite(ss[j].issued, buf.blockno, ss[0].disk)
    ensures var buf := ss[j].bufs[b];
            && |ss[j].issued| < Done(ss[k]) <= |ss[k].issued| && |ss[k + 1].disk| == |ss[0].disk|
            && ss[k + 1].disk[buf.blockno] == LastWrite(ss[k].issued[..Done(ss[k])], buf.blockno, ss[0].disk)
  {
    hide Init, Next, MemBuf, Serve, LastWrite;
    OwnRequest(ss, es, j, k, b);
    ReturnsAsMem(ss, es, k, b);
    var i, buf := |ss[j].issued|, ss[j].bufs[b];
    assert ss[k].issued[..i] == ss[j].issued;
    RetestSame(ss[k], ss[k + 1], b);
    InRange(ss, es, k, i);
    hide Run;
    MemIs(buf, Serve(ss[0].disk, ss[j].issued));
    ServeAt(ss[0].disk, ss[j].issued, buf.blockno);
    ServeAt(ss[0].disk, ss[k].issued[..Done(ss[k])], buf.blockno);
  }

  lemma RetestSame(s: State, t: State, b: nat)
    requires Next(s, t, Retest(b))
    ensures t.bufs == s.bufs && t.disk == s.disk
  {
  }

  lemma MemIs(b: Buf, disk: seq<Contents>)
    requires b.blockno < |disk|
    ensures MemBuf(b, disk).valid && !MemBuf(b, disk).dirty && MemBuf(b, disk).blockno == b.blockno
    ensures MemBuf(b, disk).data == if b.dirty then b.data else disk[b.blockno]
  {
  }

  /** A request that has a result named a block of the disk. */
  lemma {:induction false} InRange(ss: seq<State>, es: seq<Step>, k: nat, i: nat)
    requires Run(ss, es) && k <= |es| && i < |ss[k].results|
    ensures i < |ss[k].issued| && ss[k].issued[i].buf.blockno < |ss[0].disk|
    decreases k
  {
    hide Next, Inv;
    if k > 0 {
      hide Init;
      Kept(ss, es, k);
      Kept(ss, es, k - 1);
      RequestsAre(ss[k - 1], ss[k], es[k - 1]);
      ResultStep(ss[k - 1], ss[k], es[k - 1], ss[0].disk);
      ResultSizes(ss[k], ss[0].disk);
      ResultSizes(ss[k - 1], ss[0].disk);
      if i < |ss[k - 1].results| {
        InRange(ss, es, k - 1, i);
      }
    }
  }

  lemma ResultSizes(s: State, disk0: seq<Contents>)
    requires Inv(s, disk0)
    ensures |s.results| <= |s.issued|
  {
    hide Fifo, Callers, Driven;
  }

  lemma ResultStep(s: State, t: State, e: Step, disk0: seq<Contents>)
    requires Inv(s, disk0) && Next(s, t, e)
    ensures |t.results| == |s.results| + if e.Interrupt? then 1 else 0
    ensures e.Interrupt? ==> |s.results| < |s.issued| && s.issued[|s.results|].buf.blockno < |disk0|
  {
    hide Serve, MemDisk, Callers, Results, CommandFor, Synced;
    if e.Interrupt? {
      FifoSizes(s);
    }
  }

  // ---- Panics and progress ------------------------------------------------------------------------

  /** Every run: the driver has panicked exactly when the request it should work on names a block outside
      the disk. */
  lemma PanicExactly(ss: seq<State>, es: seq<Step>, k: nat)
    requires Run(ss, es) && k <= |es|
    ensures |ss[k].disk| == |ss[0].disk|
    ensures ss[k].panicked <==>
            ss[k].queue != [] && ss[k].queue[0] < |ss[k].bufs| && ss[k].bufs[ss[k].queue[0]].blockno >= |ss[k].disk|
  {
    hide Next, Serve, MemDisk, CommandFor, Callers, Results, Synced;
    Kept(ss, es, k);
    RunsAreSynchronous(ss, es, k);
    if ss[k].panicked {
      if k > 0 {
        PanicHead(ss[k - 1], ss[k], es[k - 1]);
      }
    } else if ss[k].queue != [] {
      assert Queued(ss[k], 0);
    }
  }

  lemma PanicHead(s: State, t: State, e: Step)
    requires Next(s, t, e) && t.panicked
    ensures t.queue != [] && t.queue[0] < |t.bufs| && t.bufs[t.queue[0]].blockno >= |t.disk|
  {
    hide Filled, Woken, Synced, CommandFor;
  }

  lemma QueueShorter(s: State)
    requires s.queue != [] && s.queue[0] < |s.bufs| && s.queue[0] < |s.pcs|
    ensures |Interrupted(s).queue| == |s.queue| - 1
  {
  }

  /** Every run: while requests are waiting, the drive transfers or interrupts. */
  lemma DriveMoves(ss: seq<State>, es: seq<Step>, k: nat) returns (e: Step, t: State)
    requires Run(ss, es) && k <= |es| && !ss[k].panicked && ss[k].queue != []
    ensures Next(ss[k], t, e) && (e == Transfer || e == Interrupt)
    ensures if e == Transfer then t.drive.Finished? else |t.queue| == |ss[k].queue| - 1
  {
    hide Init, Serve, MemDisk, Callers, Results, Synced, Interrupted;
    Kept(ss, es, k);
    var s := ss[k];
    assert Queued(s, 0);
    hide Run;
    if s.drive.Finished? {
      e, t := Interrupt, Interrupted(s);
      QueueShorter(s);
    } else {
      e := Transfer;
      t := if s.drive.cmd.WriteBlock?
           then s.(disk := s.disk[s.drive.cmd.block := s.drive.cmd.data],
                   drive := Finished(s.drive.cmd, s.drive.cmd.data))
           else s.(drive := Finished(s.drive.cmd, s.disk[s.drive.cmd.block]));
    }
  }

  /** A caller sleeps from its request, or from a test that found it unfinished, until the interrupt for it or
      a kill. */
  lemma SleepStep(s: State, t: State, e: Step, b: nat)
    requires Next(s, t, e) && b < |s.pcs| && b < |s.bufs|
    ensures |t.pcs| == |s.pcs|
    ensures t.pcs[b].Asleep? <==>
            || e == Enter(b) || (e == Retest(b) && !(s.bufs[b].valid && !s.bufs[b].dirty))
            || (s.pcs[b].Asleep? && e != Kill(b) && !(e.Interrupt? && s.queue != [] && s.queue[0] == b))
  {
    hide Filled, CommandFor;
    if e.Enter? {
      StartedSame(s.(queue := s.queue + [e.b], issued := s.issued + [Request(e.b, s.bufs[e.b])],
                     pcs := s.pcs[e.b := Asleep(|s.issued|)]));
    } else if e.Interrupt? {
      var d := s.queue[0];
      var done := Filled(s.bufs[d], s.drive);
      StartedSame(s.(queue := s.queue[1..], bufs := s.bufs[d := done], pcs := Woken(s.pcs, d),
                     drive := Idle, results := s.results + [done]));
    }
    hide Started;
  }

  /** A woken caller whose request is done returns, and one whose request is not sleeps again. */
  lemma CallerMoves(s: State, b: nat) returns (t: State)
    requires !s.panicked && b < |s.bufs| && b < |s.pcs| && s.pcs[b].Ready?
    ensures Next(s, t, Retest(b))
    ensures |t.pcs| == |s.pcs| && (t.pcs[b].Out? <==> s.bufs[b].valid && !s.bufs[b].dirty)
  {
    t := s.(pcs := s.pcs[b := if Synced(s.bufs[b]) then Out else Asleep(s.pcs[b].i)]);
  }

  /** iderw takes any buffer that is not synced from a caller outside it. */
  lemma AnyRequest(s: State, b: nat) returns (t: State)
    requires !s.panicked && b < |s.bufs| && b < |s.pcs| && s.pcs[b].Out? && !(s.bufs[b].valid && !s.bufs[b].dirty)
    ensures Next(s, t, Enter(b))
  {
    hide Started;
    t := Requested(s, b);
  }
}
