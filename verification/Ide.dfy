/** ide.c: the interrupt-driven disk driver as a step system over its request queue,
    the drive and its callers; memide.c's synchronous iderw is the specification. */
module Ide {
  import opened Common
  import opened Links

  datatype Buf = Buf(valid: bool, dirty: bool, blockno: nat, data: Contents)

  /** B_VALID set and B_DIRTY clear: nothing to transfer, or the transfer is over. */
  predicate Synced(b: Buf) { b.valid && !b.dirty }

  // ---- memide.c -----------------------------------------------------------------------

  /** memide's iderw on a buffer that is not synced and lies on the disk. */
  function MemBuf(b: Buf, disk: seq<Contents>): (r: Buf)
    ensures Synced(r) && r.blockno == b.blockno
  {
    if b.dirty then b.(valid := true, dirty := false)
    else b.(valid := true, data := if b.blockno < |disk| then disk[b.blockno] else [])
  }

  function MemDisk(b: Buf, disk: seq<Contents>): (r: seq<Contents>)
    ensures |r| == |disk|
  {
    if b.dirty && b.blockno < |disk| then disk[b.blockno := b.data] else disk
  }

  /** The disk after serving requests one at a time. */
  function Serve(disk: seq<Contents>, reqs: seq<Request>): (r: seq<Contents>)
    ensures |r| == |disk|
  {
    if reqs == [] then disk else MemDisk(reqs[|reqs| - 1].buf, Serve(disk, reqs[..|reqs| - 1]))
  }

  // ---- State --------------------------------------------------------------------------

  datatype Request = Request(b: nat, buf: Buf)

  /** What idestart told the drive to do. */
  datatype Command = ReadBlock(block: nat) | WriteBlock(block: nat, data: Contents)

  datatype Drive = Idle | Busy(cmd: Command) | Finished(cmd: Command, latch: Contents)

  /** The sleep-lock's holder of each buffer: outside iderw, or inside it serving issued[i]. */
  datatype Pc = Out | Asleep(i: nat) | Ready(i: nat)

  /** issued and results are the history: the requests in the order they took idelock, and
      the buffers that the interrupt handler has finished. */
  datatype State = State(
    bufs: seq<Buf>, pcs: seq<Pc>, queue: seq<nat>, drive: Drive, disk: seq<Contents>, panicked: bool,
    issued: seq<Request>, results: seq<Buf>)

  function CommandFor(b: Buf): Command {
    if b.dirty then WriteBlock(b.blockno, b.data) else ReadBlock(b.blockno)
  }

  /** idestart on the first queued buffer, if any. */
  function Started(s: State): State {
    if s.queue == [] || s.queue[0] >= |s.bufs| then s
    else if s.bufs[s.queue[0]].blockno >= |s.disk| then s.(panicked := true)
    else s.(drive := Busy(CommandFor(s.bufs[s.queue[0]])))
  }

  /** iderw up to its first sleep. */
  function Requested(s: State, b: nat): State
    requires b < |s.bufs| && b < |s.pcs|
  {
    var t := s.(queue := s.queue + [b], issued := s.issued + [Request(b, s.bufs[b])],
                pcs := s.pcs[b := Asleep(|s.issued|)]);
    if s.queue == [] then Started(t) else t
  }

  /** The buffer at the head of the queue as ideintr leaves it. */
  function Filled(b: Buf, drive: Drive): (r: Buf)
    ensures Synced(r)
  {
    if b.dirty then b.(valid := true, dirty := false)
    else b.(valid := true, data := if drive.Finished? then drive.latch else b.data)
  }

  function Woken(pcs: seq<Pc>, b: nat): seq<Pc>
    requires b < |pcs|
  {
    if pcs[b].Asleep? then pcs[b := Ready(pcs[b].i)] else pcs
  }

  function Interrupted(s: State): State
    requires s.queue != [] && s.queue[0] < |s.bufs| && s.queue[0] < |s.pcs|
  {
    var b := s.queue[0];
    var done := Filled(s.bufs[b], s.drive);
    Started(s.(queue := s.queue[1..], bufs := s.bufs[b := done], pcs := Woken(s.pcs, b),
               drive := Idle, results := s.results + [done]))
  }

  // ---- Steps --------------------------------------------------------------------------

  datatype Step =
    Touch(b: nat, buf: Buf) | Enter(b: nat) | Transfer | Interrupt | Spurious | Retest(b: nat) | Kill(b: nat)

  /** A buffer changes only while its holder is outside iderw; the drive completes a command
      before it interrupts; an interrupt on an empty queue does nothing; a woken caller
      tests the flags again and returns or goes back to sleep. */
  predicate Next(s: State, t: State, e: Step) {
    && !s.panicked
    && match e
       case Touch(b, buf) =>
         b < |s.bufs| && b < |s.pcs| && s.pcs[b].Out? && t == s.(bufs := s.bufs[b := buf])
       case Enter(b) =>
         b < |s.bufs| && b < |s.pcs| && s.pcs[b].Out? && !Synced(s.bufs[b]) && t == Requested(s, b)
       case Transfer =>
         s.drive.Busy? && s.drive.cmd.block < |s.disk|
         && t == (match s.drive.cmd
                  case WriteBlock(n, data) => s.(disk := s.disk[n := data], drive := Finished(s.drive.cmd, data))
                  case ReadBlock(n) => s.(drive := Finished(s.drive.cmd, s.disk[n])))
       case Interrupt =>
         s.drive.Finished? && s.queue != [] && s.queue[0] < |s.bufs| && s.queue[0] < |s.pcs| && t == Interrupted(s)
       case Spurious => s.queue == [] && t == s
       case Retest(b) =>
         b < |s.bufs| && b < |s.pcs| && s.pcs[b].Ready?
         && t == s.(pcs := s.pcs[b := if Synced(s.bufs[b]) then Out else Asleep(s.pcs[b].i)])
       case Kill(b) =>
         b < |s.pcs| && t == s.(pcs := Woken(s.pcs, b))
  }

  predicate Init(s: State) {
    && |s.pcs| == |s.bufs| && (forall b :: 0 <= b < |s.pcs| ==> s.pcs[b].Out?)
    && s.queue == [] && s.drive.Idle? && !s.panicked && s.issued == [] && s.results == []
  }

  ghost predicate Run(ss: seq<State>, es: seq<Step>) {
    && |ss| == |es| + 1 && Init(ss[0])
    && forall i :: 0 <= i < |es| ==> Next(ss[i], ss[i + 1], es[i])
  }

  // ---- Invariant ----------------------------------------------------------------------

  /** The queue holds the issued requests that have no result yet, oldest first, and their
      buffers have not changed since. */
  ghost predicate Fifo(s: State) {
    && |s.pcs| == |s.bufs|
    && |s.issued| == |s.results| + |s.queue|
    && forall j :: 0 <= j < |s.queue| ==> Queued(s, j)
  }

  ghost predicate Queued(s: State, j: nat)
    requires j < |s.queue| && |s.issued| == |s.results| + |s.queue| && |s.pcs| == |s.bufs|
  {
    var b := s.queue[j];
    var i := |s.results| + j;
    && b < |s.bufs| && s.issued[i] == Request(b, s.bufs[b]) && !Synced(s.bufs[b])
    && (s.pcs[b] == Asleep(i) || s.pcs[b] == Ready(i))
  }

  /** A caller inside iderw has its request in the queue, or has its result in its buffer
      and is awake. */
  ghost predicate Callers(s: State) {
    forall b :: 0 <= b < |s.pcs| && !s.pcs[b].Out? ==> Served(s, b)
  }

  ghost predicate Served(s: State, b: nat)
    requires b < |s.pcs| && !s.pcs[b].Out?
  {
    var i := s.pcs[b].i;
    && b < |s.bufs| && i < |s.issued| && s.issued[i].b == b
    && (i >= |s.results| ==> i - |s.results| < |s.queue| && s.queue[i - |s.results|] == b)
    && (i < |s.results| ==> s.pcs[b].Ready? && Synced(s.bufs[b]) && s.bufs[b] == s.results[i])
  }

  /** Every result is what the synchronous driver would have returned. */
  ghost predicate Results(s: State, disk0: seq<Contents>) {
    && |s.results| <= |s.issued|
    && forall i :: 0 <= i < |s.results| ==> s.results[i] == MemBuf(s.issued[i].buf, Serve(disk0, s.issued[..i]))
  }

  /** The drive is working on the head of the queue, and on nothing else. */
  ghost predicate Driven(s: State, disk0: seq<Contents>) {
    var n := |s.results|;
    && n <= |s.issued|
    && (n == |s.issued| ==> s.drive.Idle? && s.disk == Serve(disk0, s.issued))
    && (n < |s.issued| ==>
          && s.issued[n].buf.blockno < |s.disk| == |disk0|
          && !s.drive.Idle? && s.drive.cmd == CommandFor(s.issued[n].buf)
          && (s.drive.Busy? ==> s.disk == Serve(disk0, s.issued[..n]))
          && (s.drive.Finished? ==>
                && s.disk == MemDisk(s.issued[n].buf, Serve(disk0, s.issued[..n]))
                && s.drive.latch == s.disk[s.issued[n].buf.blockno]))
  }

  ghost predicate Inv(s: State, disk0: seq<Contents>) {
    Fifo(s) && Callers(s) && Results(s, disk0) && (s.panicked || Driven(s, disk0))
  }

  lemma StartedSame(s: State)
    ensures Started(s).bufs == s.bufs && Started(s).pcs == s.pcs && Started(s).queue == s.queue
    ensures Started(s).disk == s.disk && Started(s).issued == s.issued && Started(s).results == s.results
  {
  }

  lemma FifoEnter(s: State, t: State, b: nat)
    requires Fifo(s) && Next(s, t, Enter(b))
    ensures Fifo(t)
  {
    hide Started, Synced;
    StartedSame(s.(queue := s.queue + [b], issued := s.issued + [Request(b, s.bufs[b])],
                   pcs := s.pcs[b := Asleep(|s.issued|)]));
    forall j | 0 <= j < |t.queue| ensures Queued(t, j) {
      if j < |s.queue| {
        assert Queued(s, j);
      }
    }
  }

  lemma FifoInterrupt(s: State, t: State)
    requires Fifo(s) && Next(s, t, Interrupt)
    ensures Fifo(t)
  {
    hide Started, Synced, Filled;
    var b := s.queue[0];
    var done := Filled(s.bufs[b], s.drive);
    StartedSame(s.(queue := s.queue[1..], bufs := s.bufs[b := done], pcs := Woken(s.pcs, b),
                   drive := Idle, results := s.results + [done]));
    assert Queued(s, 0);
    forall j | 0 <= j < |t.queue| ensures Queued(t, j) {
      assert Queued(s, j + 1);
    }
  }

  lemma FifoStep(s: State, t: State, e: Step)
    requires Fifo(s) && Next(s, t, e)
    ensures Fifo(t)
  {
    hide Requested, Interrupted, Filled;
    match e
    case Enter(b) => FifoEnter(s, t, b);
    case Interrupt => FifoInterrupt(s, t);
    case Spurious =>
    case _ =>
      forall j | 0 <= j < |t.queue| ensures Queued(t, j) {
        assert Queued(s, j);
      }
  }

  lemma CallersEnter(s: State, t: State, b: nat)
    requires Fifo(s) && Callers(s) && Next(s, t, Enter(b))
    ensures Callers(t)
  {
    hide Started, Synced;
    StartedSame(s.(queue := s.queue + [b], issued := s.issued + [Request(b, s.bufs[b])],
                   pcs := s.pcs[b := Asleep(|s.issued|)]));
    forall c | 0 <= c < |t.pcs| && !t.pcs[c].Out? ensures Served(t, c) {
      if c != b {
        assert Served(s, c);
      }
    }
  }

  lemma CallersInterrupt(s: State, t: State)
    requires Fifo(s) && Callers(s) && Next(s, t, Interrupt)
    ensures Callers(t)
  {
    hide Started, Synced, Filled;
    var b := s.queue[0];
    var done := Filled(s.bufs[b], s.drive);
    StartedSame(s.(queue := s.queue[1..], bufs := s.bufs[b := done], pcs := Woken(s.pcs, b),
                   drive := Idle, results := s.results + [done]));
    assert Queued(s, 0);
    forall c | 0 <= c < |t.pcs| && !t.pcs[c].Out? ensures Served(t, c) {
      assert Served(s, c);
    }
  }

  lemma CallersStep(s: State, t: State, e: Step)
    requires Fifo(s) && Callers(s) && Next(s, t, e)
    ensures Callers(t)
  {
    hide Requested, Interrupted, Fifo;
    match e
    case Enter(b) => CallersEnter(s, t, b);
    case Interrupt => CallersInterrupt(s, t);
    case Retest(b) => CallersRetest(s, t, b);
    case _ =>
      forall c | 0 <= c < |t.pcs| && !t.pcs[c].Out? ensures Served(t, c) {
        assert Served(s, c);
      }
  }

  lemma CallersRetest(s: State, t: State, b: nat)
    requires Fifo(s) && Callers(s) && Next(s, t, Retest(b))
    ensures Callers(t)
  {
    assert Served(s, b);
    forall c | 0 <= c < |t.pcs| && !t.pcs[c].Out? ensures Served(t, c) {
      assert Served(s, c);
    }
  }

  // ---- The synchronous driver -----------------------------------------------------------

  lemma ServeMore(disk0: seq<Contents>, issued: seq<Request>, r: Request)
    ensures Serve(disk0, issued + [r]) == MemDisk(r.buf, Serve(disk0, issued))
  {
    assert (issued + [r])[..|issued|] == issued;
  }

  lemma ServeNext(disk0: seq<Contents>, issued: seq<Request>, n: nat)
    requires n < |issued|
    ensures Serve(disk0, issued[..n + 1]) == MemDisk(issued[n].buf, Serve(disk0, issued[..n]))
  {
    assert issued[..n + 1] == issued[..n] + [issued[n]];
    ServeMore(disk0, issued[..n], issued[n]);
  }

  lemma ResultsEnter(s: State, t: State, b: nat, disk0: seq<Contents>)
    requires Results(s, disk0) && Next(s, t, Enter(b))
    ensures Results(t, disk0)
  {
    hide Started, Synced, MemBuf, Serve;
    StartedSame(s.(queue := s.queue + [b], issued := s.issued + [Request(b, s.bufs[b])],
                   pcs := s.pcs[b := Asleep(|s.issued|)]));
    forall i | 0 <= i < |t.results| ensures t.results[i] == MemBuf(t.issued[i].buf, Serve(disk0, t.issued[..i])) {
      assert t.issued[..i] == s.issued[..i];
    }
  }

  /** The buffer that the interrupt handler fills is the one memide would return. */
  lemma FilledIsMem(s: State, disk0: seq<Contents>)
    requires Fifo(s) && Driven(s, disk0) && s.queue != [] && s.drive.Finished?
    ensures s.queue[0] < |s.bufs|
    ensures Filled(s.bufs[s.queue[0]], s.drive) ==
            MemBuf(s.issued[|s.results|].buf, Serve(disk0, s.issued[..|s.results|]))
  {
    hide Serve;
    assert Queued(s, 0);
  }

  lemma ResultsInterrupt(s: State, t: State, disk0: seq<Contents>)
    requires Fifo(s) && Results(s, disk0) && Driven(s, disk0) && Next(s, t, Interrupt)
    ensures Results(t, disk0)
  {
    hide Started, Synced, MemBuf, Serve, Filled, Driven, Fifo, Woken;
    var b := s.queue[0];
    var done := Filled(s.bufs[b], s.drive);
    StartedSame(s.(queue := s.queue[1..], bufs := s.bufs[b := done], pcs := Woken(s.pcs, b),
                   drive := Idle, results := s.results + [done]));
    FilledIsMem(s, disk0);
    FifoSizes(s);
  }

  lemma FifoSizes(s: State)
    requires Fifo(s)
    ensures |s.pcs| == |s.bufs| && |s.issued| == |s.results| + |s.queue|
  {
  }

  lemma ResultsStep(s: State, t: State, e: Step, disk0: seq<Contents>)
    requires Fifo(s) && Results(s, disk0) && Driven(s, disk0) && Next(s, t, e)
    ensures Results(t, disk0)
  {
    hide Requested, Interrupted, Fifo, Driven, MemBuf, Serve;
    match e
    case Enter(b) => ResultsEnter(s, t, b, disk0);
    case Interrupt => ResultsInterrupt(s, t, disk0);
    case _ =>
  }

  lemma DrivenEnter(s: State, t: State, b: nat, disk0: seq<Contents>)
    requires Fifo(s) && Driven(s, disk0) && |s.disk| == |disk0| && Next(s, t, Enter(b))
    ensures t.panicked || Driven(t, disk0)
  {
    hide Synced, Serve, MemDisk, CommandFor;
    FifoSizes(s);
    var issued := s.issued + [Request(b, s.bufs[b])];
    assert issued[..|s.issued|] == s.issued;
    if |s.results| < |s.issued| {
      assert issued[..|s.results|] == s.issued[..|s.results|];
    }
  }

  lemma DrivenInterrupt(s: State, t: State, disk0: seq<Contents>)
    requires Fifo(s) && Driven(s, disk0) && Next(s, t, Interrupt)
    ensures t.panicked || Driven(t, disk0)
  {
    hide Synced, Serve, MemDisk, CommandFor, Filled, Woken;
    var n := |s.results|;
    ServeNext(disk0, s.issued, n);
    if n + 1 == |s.issued| {
      assert s.issued[..n + 1] == s.issued;
    } else {
      assert Queued(s, 0) && Queued(s, 1);
    }
  }

  lemma DrivenTransfer(s: State, t: State, disk0: seq<Contents>)
    requires Driven(s, disk0) && Next(s, t, Transfer)
    ensures Driven(t, disk0)
  {
    hide Serve;
  }

  lemma DrivenStep(s: State, t: State, e: Step, disk0: seq<Contents>)
    requires Fifo(s) && Driven(s, disk0) && |s.disk| == |disk0| && Next(s, t, e)
    ensures t.panicked || Driven(t, disk0)
  {
    hide Requested, Interrupted, Fifo, MemDisk, Serve;
    match e
    case Enter(b) => DrivenEnter(s, t, b, disk0);
    case Interrupt => DrivenInterrupt(s, t, disk0);
    case Transfer => DrivenTransfer(s, t, disk0);
    case _ =>
  }

  // ---- Whole runs -------------------------------------------------------------------------

  lemma InitInv(s: State)
    requires Init(s)
    ensures Inv(s, s.disk)
  {
  }

  lemma InvStep(s: State, t: State, e: Step, disk0: seq<Contents>)
    requires Inv(s, disk0) && Next(s, t, e)
    ensures Inv(t, disk0)
  {
    assert |s.disk| == |disk0| by {
      hide Serve, MemDisk;
    }
    hide Fifo, Callers, Results, Driven, Requested, Interrupted;
    FifoStep(s, t, e);
    CallersStep(s, t, e);
    ResultsStep(s, t, e, disk0);
    DrivenStep(s, t, e, disk0);
  }

  lemma {:induction false} Kept(ss: seq<State>, es: seq<Step>, k: nat)
    requires Run(ss, es) && k <= |es|
    ensures Inv(ss[k], ss[0].disk)
    decreases k
  {
    hide Inv, Next;
    if k == 0 {
      InitInv(ss[0]);
    } else {
      Kept(ss, es, k - 1);
      InvStep(ss[k - 1], ss[k], es[k - 1], ss[0].disk);
    }
  }

  /** The requests whose transfer is done: those with a result, and the one that the drive
      is about to interrupt for. */
  function Done(s: State): nat { |s.results| + if s.drive.Finished? then 1 else 0 }

  ghost predicate DiskIs(s: State, disk0: seq<Contents>) {
    Done(s) <= |s.issued| && s.disk == Serve(disk0, s.issued[..Done(s)])
  }

  lemma DrivenDisk(s: State, disk0: seq<Contents>)
    requires Fifo(s) && Driven(s, disk0)
    ensures DiskIs(s, disk0)
  {
    hide Serve, MemDisk;
    if |s.results| == |s.issued| {
      assert s.issued[..|s.issued|] == s.issued;
    } else {
      ServeNext(disk0, s.issued, |s.results|);
    }
  }

  /** The panic for a block number outside the disk leaves the disk as it is. */
  lemma PanicDisk(s: State, t: State, e: Step, disk0: seq<Contents>)
    requires Fifo(s) && Driven(s, disk0) && Next(s, t, e) && t.panicked
    ensures DiskIs(t, disk0)
  {
    hide Serve, MemDisk;
    DrivenDisk(s, disk0);
    if e.Enter? {
      assert t.issued[..|s.issued|] == s.issued;
    }
  }

  /** Every run: requests complete in the order they were issued, each with the buffer that the
      synchronous driver would return, and the disk is always the one it would have left after
      the requests whose transfer is done. */
  lemma RunsAreSynchronous(ss: seq<State>, es: seq<Step>, k: nat)
    requires Run(ss, es) && k <= |es|
    ensures |ss[k].issued| == |ss[k].results| + |ss[k].queue|
    ensures forall j :: 0 <= j < |ss[k].queue| ==> ss[k].queue[j] == ss[k].issued[|ss[k].results| + j].b
    ensures forall i :: 0 <= i < |ss[k].results| ==>
              ss[k].results[i] == MemBuf(ss[k].issued[i].buf, Serve(ss[0].disk, ss[k].issued[..i]))
    ensures Done(ss[k]) <= |ss[k].issued| && ss[k].disk == Serve(ss[0].disk, ss[k].issued[..Done(ss[k])])
  {
    hide MemBuf, Serve, MemDisk, Next;
    Kept(ss, es, k);
    forall j | 0 <= j < |ss[k].queue| ensures ss[k].queue[j] == ss[k].issued[|ss[k].results| + j].b {
      assert Queued(ss[k], j);
    }
    hide Results, Fifo, Driven;
    if !ss[k].panicked {
      DrivenDisk(ss[k], ss[0].disk);
    } else if k > 0 {
      Kept(ss, es, k - 1);
      RunningBefore(ss[k - 1], ss[k], es[k - 1]);
      PanicDisk(ss[k - 1], ss[k], es[k - 1], ss[0].disk);
    }
  }

  lemma RunningBefore(s: State, t: State, e: Step)
    requires Next(s, t, e)
    ensures !s.panicked
  {
  }

  /** Every run: no buffer is queued twice, a sleeping caller's buffer is in the queue, and a
      non-empty queue has the drive at work, so an interrupt is due. */
  lemma NoneStranded(ss: seq<State>, es: seq<Step>, k: nat)
    requires Run(ss, es) && k <= |es|
    ensures forall i, j :: 0 <= i < j < |ss[k].queue| ==> ss[k].queue[i] != ss[k].queue[j]
    ensures forall b :: 0 <= b < |ss[k].pcs| && ss[k].pcs[b].Asleep? ==> b in ss[k].queue
    ensures !ss[k].panicked && ss[k].queue != [] ==> !ss[k].drive.Idle?
  {
    hide MemBuf, Serve, MemDisk, Next, Results;
    Kept(ss, es, k);
    forall i, j | 0 <= i < j < |ss[k].queue| ensures ss[k].queue[i] != ss[k].queue[j] {
      assert Queued(ss[k], i) && Queued(ss[k], j);
    }
    forall b | 0 <= b < |ss[k].pcs| && ss[k].pcs[b].Asleep? ensures b in ss[k].queue {
      assert Served(ss[k], b);
    }
  }

  /** Every run: iderw returns with the buffer as the synchronous driver leaves it, for the
      requests issued before it in order, and with its own request done on the disk. */
  lemma ReturnsAsMem(ss: seq<State>, es: seq<Step>, k: nat, b: nat)
    requires Run(ss, es) && k < |es| && es[k] == Retest(b)
    requires b < |ss[k + 1].pcs| && ss[k + 1].pcs[b].Out?
    ensures b < |ss[k].pcs| && ss[k].pcs[b].Ready? && b < |ss[k].bufs|
    ensures ss[k].pcs[b].i < |ss[k].results| <= |ss[k].issued| && ss[k].issued[ss[k].pcs[b].i].b == b
    ensures ss[k + 1].bufs[b] ==
            MemBuf(ss[k].issued[ss[k].pcs[b].i].buf, Serve(ss[0].disk, ss[k].issued[..ss[k].pcs[b].i]))
    ensures ss[k].pcs[b].i < Done(ss[k]) <= |ss[k].issued|
    ensures ss[k + 1].disk == Serve(ss[0].disk, ss[k].issued[..Done(ss[k])])
  {
    hide MemBuf, Serve, MemDisk, Driven;
    RunsAreSynchronous(ss, es, k);
    Kept(ss, es, k);
    assert Next(ss[k], ss[k + 1], es[k]);
    assert Served(ss[k], b);
    forall j | 0 <= j < |ss[k].queue|
      ensures 0 <= ss[k].queue[j] < |ss[k].bufs| && !Synced(ss[k].bufs[ss[k].queue[j]])
    {
      assert Queued(ss[k], j);
    }
  }

  // ---- The linked queue -------------------------------------------------------------------

  class Driver {
    var bufs: seq<Buf>
    var qnext: array<int>
    var idequeue: int
    var drive: Drive
    var disk: seq<Contents>
    var panicked: bool
    ghost var queue: seq<nat>
    ghost var pcs: seq<Pc>
    ghost var issued: seq<Request>
    ghost var results: seq<Buf>

    ghost predicate Valid()
      reads this, qnext
    {
      Linked(idequeue, qnext[..], queue) && qnext.Length == |bufs| == |pcs|
    }

    ghost function Now(): State
      reads this
    {
      State(bufs, pcs, queue, drive, disk, panicked, issued, results)
    }

    method Idestart(b: nat)
      requires Valid() && queue != [] && b == queue[0]
      modifies this`drive, this`panicked
      ensures Valid() && Now() == Started(old(Now()))
    {
      if bufs[b].blockno >= |disk| {
        panicked := true;
        return;
      }
      drive := if bufs[b].dirty then Busy(WriteBlock(bufs[b].blockno, bufs[b].data))
               else Busy(ReadBlock(bufs[b].blockno));
    }

    /** The walk over qnext to the end of the queue, and the link there. */
    method Append(b: nat)
      requires Valid() && b < |bufs| && b !in queue
      modifies this`idequeue, this`queue, qnext
      ensures Valid() && queue == old(queue) + [b]
    {
      hide Linked;
      ghost var links := qnext[..];
      LinkedMore(idequeue, links, queue, b);
      HeadIs(idequeue, links, queue);
      qnext[b] := NIL;
      if idequeue == NIL {
        idequeue := b;
      } else {
        var p := idequeue;
        ghost var j := 0;
        LinkAt(idequeue, links, queue, 0);
        while qnext[p] != NIL
          invariant queue == old(queue) && idequeue == old(idequeue) && qnext[..] == links[b := NIL]
          invariant 0 <= j < |queue| && p == queue[j] < |links|
          decreases |queue| - j
        {
          LinkAt(idequeue, links, queue, j);
          p := qnext[p];
          j := j + 1;
          LinkAt(idequeue, links, queue, j);
        }
        LinkAt(idequeue, links, queue, j);
        qnext[p] := b;
        assert qnext[..] == links[b := NIL][queue[|queue| - 1] := b];
      }
      assert queue == [] ==> qnext[..] == links[b := NIL] && queue + [b] == [b];
      queue := queue + [b];
    }

    /** iderw for the holder of b's sleep-lock, up to its first sleep. */
    method Iderw(b: nat)
      requires Valid() && b < |bufs| && b !in queue && !Synced(bufs[b]) && !panicked
      modifies this, qnext
      ensures Valid() && Now() == Requested(old(Now()), b) && qnext == old(qnext)
    {
      Append(b);
      issued := issued + [Request(b, bufs[b])];
      pcs := pcs[b := Asleep(|old(issued)|)];
      if idequeue == b {
        Idestart(b);
      }
    }

    method Ideintr()
      requires Valid() && (queue != [] ==> drive.Finished?) && !panicked
      modifies this
      ensures Valid() && qnext == old(qnext)
      ensures Now() == if old(queue) == [] then old(Now()) else Interrupted(old(Now()))
    {
      HeadIs(idequeue, qnext[..], queue);
      if idequeue == NIL {
        return;
      }
      LinkedRest(idequeue, qnext[..], queue);
      hide Linked, Synced;
      HeadIs(qnext[idequeue], qnext[..], queue[1..]);
      var b := idequeue;
      idequeue := qnext[b];
      bufs := bufs[b := Filled(bufs[b], drive)];
      pcs := Woken(pcs, b);
      drive := Drive.Idle;
      queue, results := queue[1..], results + [bufs[b]];
      if idequeue != NIL {
        Idestart(idequeue);
      }
    }
  }
}
