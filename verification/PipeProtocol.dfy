/** pipe.c and proc.c: readers and writers of one pipe as a step system, with the
    pipe's lock, sleep, wakeup, kill and close. */
module PipeProtocol {
  import opened Common
  import opened Pipe

  /** Where a process is. Writing, WriteTested, Waiting, ReadTested and Copying hold the lock. */
  datatype Pc =
    | Idle
    | Writing(rest: seq<byte>)      // at the top of pipewrite's loops, `rest` still to send
    | WriteTested(rest: seq<byte>)  // found it full with the read end open, about to sleep
    | WriteAsleep(rest: seq<byte>)
    | WriteReady(rest: seq<byte>)   // woken, not yet holding the lock again
    | Waiting(n: nat)               // at the top of piperead's first loop
    | ReadTested(n: nat)
    | ReadAsleep(n: nat)
    | ReadReady(n: nat)
    | Copying(n: nat)               // in piperead's copy loop, n bytes still wanted

  predicate InWrite(c: Pc) { c.Writing? || c.WriteTested? || c.WriteAsleep? || c.WriteReady? }
  predicate InRead(c: Pc) { c.Waiting? || c.ReadTested? || c.ReadAsleep? || c.ReadReady? || c.Copying? }
  predicate Holding(c: Pc) { c.Writing? || c.WriteTested? || c.Waiting? || c.ReadTested? || c.Copying? }

  datatype State = State(
    ring: Ring, readopen: bool, writeopen: bool, lock: Option<nat>,
    procs: seq<Pc>, killed: set<nat>,
    accepted: seq<byte>, returned: seq<byte>)

  /** wakeup(&p->nread) and wakeup(&p->nwrite): every sleeper on the channel becomes runnable. */
  function WakeReaders(procs: seq<Pc>): (r: seq<Pc>) {
    seq(|procs|, i requires 0 <= i < |procs| => if procs[i].ReadAsleep? then ReadReady(procs[i].n) else procs[i])
  }

  function WakeWriters(procs: seq<Pc>): (r: seq<Pc>) {
    seq(|procs|, i requires 0 <= i < |procs| => if procs[i].WriteAsleep? then WriteReady(procs[i].rest) else procs[i])
  }

  datatype Step =
    | WriteBegin(p: nat, addr: seq<byte>) | WriteByte(p: nat) | WriteTest(p: nat) | WriteFail(p: nat)
    | WriteSleep(p: nat) | WriteWake(p: nat) | WriteDone(p: nat)
    | ReadBegin(p: nat, n: nat) | ReadTest(p: nat) | ReadFail(p: nat) | ReadSleep(p: nat)
    | ReadWake(p: nat) | ReadGo(p: nat) | ReadByte(p: nat) | ReadDone(p: nat)
    | CloseRead | CloseWrite | Kill(p: nat)

  function Moved(s: State, p: nat, c: Pc): State
    requires p < |s.procs|
  {
    s.(procs := s.procs[p := c])
  }

  /** Acquire the free lock at `c`. */
  predicate Acquires(s: State, t: State, p: nat, c: Pc) {
    p < |s.procs| && s.lock == None && t == Moved(s, p, c).(lock := Some(p))
  }

  predicate WriterStep(s: State, t: State, e: Step) {
    match e
    case WriteBegin(p, addr) =>
      p < |s.procs| && s.procs[p].Idle? && s.writeopen && Acquires(s, t, p, Writing(addr))
    case WriteByte(p) =>
      p < |s.procs| && s.procs[p].Writing? && s.procs[p].rest != [] && |s.ring.data| == PIPESIZE && !Full(s.ring)
      && t == Moved(s, p, Writing(s.procs[p].rest[1..])).(
                ring := Put(s.ring, s.procs[p].rest[0]), accepted := s.accepted + [s.procs[p].rest[0]])
    case WriteTest(p) =>
      p < |s.procs| && s.procs[p].Writing? && s.procs[p].rest != [] && Full(s.ring)
      && s.readopen && p !in s.killed && t == Moved(s, p, WriteTested(s.procs[p].rest))
    case WriteFail(p) =>
      p < |s.procs| && s.procs[p].Writing? && s.procs[p].rest != [] && Full(s.ring)
      && (!s.readopen || p in s.killed) && t == Moved(s, p, Idle).(lock := None)
    case WriteSleep(p) =>
      p < |s.procs| && s.procs[p].WriteTested?
      && t == s.(procs := WakeReaders(s.procs)[p := WriteAsleep(s.procs[p].rest)], lock := None)
    case WriteWake(p) =>
      p < |s.procs| && s.procs[p].WriteReady? && Acquires(s, t, p, Writing(s.procs[p].rest))
    case WriteDone(p) =>
      p < |s.procs| && s.procs[p].Writing? && s.procs[p].rest == []
      && t == s.(procs := WakeReaders(s.procs)[p := Idle], lock := None)
    case _ => false
  }

  predicate ReaderStep(s: State, t: State, e: Step) {
    match e
    case ReadBegin(p, n) =>
      p < |s.procs| && s.procs[p].Idle? && s.readopen && Acquires(s, t, p, Waiting(n))
    case ReadTest(p) =>
      p < |s.procs| && s.procs[p].Waiting? && Empty(s.ring) && s.writeopen && p !in s.killed
      && t == Moved(s, p, ReadTested(s.procs[p].n))
    case ReadFail(p) =>
      p < |s.procs| && s.procs[p].Waiting? && Empty(s.ring) && s.writeopen && p in s.killed
      && t == Moved(s, p, Idle).(lock := None)
    case ReadSleep(p) =>
      p < |s.procs| && s.procs[p].ReadTested? && t == Moved(s, p, ReadAsleep(s.procs[p].n)).(lock := None)
    case ReadWake(p) =>
      p < |s.procs| && s.procs[p].ReadReady? && Acquires(s, t, p, Waiting(s.procs[p].n))
    case ReadGo(p) =>
      p < |s.procs| && s.procs[p].Waiting? && !(Empty(s.ring) && s.writeopen)
      && t == Moved(s, p, Copying(s.procs[p].n))
    case ReadByte(p) =>
      p < |s.procs| && s.procs[p].Copying? && s.procs[p].n > 0 && |s.ring.data| == PIPESIZE && !Empty(s.ring)
      && t == Moved(s, p, Copying(s.procs[p].n - 1)).(
                ring := Got(s.ring), returned := s.returned + [Oldest(s.ring)])
    case ReadDone(p) =>
      p < |s.procs| && s.procs[p].Copying? && (s.procs[p].n == 0 || Empty(s.ring))
      && t == s.(procs := WakeWriters(s.procs)[p := Idle], lock := None)
    case _ => false
  }

  /** pipeclose runs when the last reference to an end is dropped, so no process is inside
      a call on that end; kill makes a sleeper runnable. */
  predicate OtherStep(s: State, t: State, e: Step) {
    match e
    case CloseRead =>
      s.lock == None && (forall i :: 0 <= i < |s.procs| ==> !InRead(s.procs[i]))
      && t == s.(readopen := false, procs := WakeWriters(s.procs))
    case CloseWrite =>
      s.lock == None && (forall i :: 0 <= i < |s.procs| ==> !InWrite(s.procs[i]))
      && t == s.(writeopen := false, procs := WakeReaders(s.procs))
    case Kill(p) =>
      p < |s.procs|
      && t == s.(killed := s.killed + {p}, procs := s.procs[p :=
                   if s.procs[p].ReadAsleep? then ReadReady(s.procs[p].n)
                   else if s.procs[p].WriteAsleep? then WriteReady(s.procs[p].rest) else s.procs[p]])
    case _ => false
  }

  predicate Next(s: State, t: State, e: Step) {
    WriterStep(s, t, e) || ReaderStep(s, t, e) || OtherStep(s, t, e)
  }

  predicate Init(s: State) {
    && |s.ring.data| == PIPESIZE && s.ring.nread == 0 && s.ring.nwrite == 0
    && s.readopen && s.writeopen && s.lock == None && s.killed == {}
    && s.accepted == [] && s.returned == []
    && forall i :: 0 <= i < |s.procs| ==> s.procs[i].Idle?
  }

  ghost predicate Run(ss: seq<State>, es: seq<Step>) {
    && |ss| == |es| + 1 && Init(ss[0])
    && forall i :: 0 <= i < |es| ==> Next(ss[i], ss[i + 1], es[i])
  }

  // ---- Invariants ---------------------------------------------------------------------

  /** Exactly the lock's holder is in a critical section, and what it tested still holds. */
  ghost predicate Mutex(s: State) {
    && (s.lock.Some? ==> s.lock.value < |s.procs| && Holding(s.procs[s.lock.value]))
    && (forall i :: 0 <= i < |s.procs| && Holding(s.procs[i]) ==> s.lock == Some(i))
    && (forall i :: 0 <= i < |s.procs| ==> (InWrite(s.procs[i]) ==> s.writeopen) && (InRead(s.procs[i]) ==> s.readopen))
    && (forall i :: 0 <= i < |s.procs| && s.procs[i].WriteTested? ==> Full(s.ring) && s.readopen)
    && (forall i :: 0 <= i < |s.procs| && s.procs[i].ReadTested? ==> Empty(s.ring) && s.writeopen)
  }

  /** Some process is copying bytes out, and will wake the writers before it lets the lock go. */
  predicate Draining(s: State) {
    s.lock.Some? && s.lock.value < |s.procs| && s.procs[s.lock.value].Copying?
  }

  predicate Filling(s: State) {
    s.lock.Some? && s.lock.value < |s.procs| && (s.procs[s.lock.value].Writing? || s.procs[s.lock.value].WriteTested?)
  }

  ghost predicate WritersOk(s: State) {
    forall i :: 0 <= i < |s.procs| && s.procs[i].WriteAsleep? ==> s.readopen && (Full(s.ring) || Draining(s))
  }

  ghost predicate ReadersOk(s: State) {
    forall i :: 0 <= i < |s.procs| && s.procs[i].ReadAsleep? ==> s.writeopen && (Empty(s.ring) || Filling(s))
  }

  ghost predicate Inv(s: State) {
    Holds(s.ring, s.accepted, s.returned) && Mutex(s) && WritersOk(s)
  }

  lemma MutexStep(s: State, t: State, e: Step)
    requires Mutex(s) && Next(s, t, e)
    ensures Mutex(t)
  {
    hide Full, Empty;
    if WriterStep(s, t, e) {
      MutexWriter(s, t, e);
    } else if ReaderStep(s, t, e) {
      MutexReader(s, t, e);
    }
  }

  lemma MutexWriter(s: State, t: State, e: Step)
    requires Mutex(s) && WriterStep(s, t, e)
    ensures Mutex(t)
  {
    hide Full, Empty, Put;
  }

  lemma MutexReader(s: State, t: State, e: Step)
    requires Mutex(s) && ReaderStep(s, t, e)
    ensures Mutex(t)
  {
    hide Full, Empty, Got;
  }

  lemma HoldsStep(s: State, t: State, e: Step)
    requires Holds(s.ring, s.accepted, s.returned) && Next(s, t, e)
    ensures Holds(t.ring, t.accepted, t.returned)
  {
    hide Holds, Full, Empty, Put, Got;
    match e
    case WriteByte(p) => PutHolds(s.ring, s.accepted, s.returned, s.procs[p].rest[0]);
    case ReadByte(p) => GotHolds(s.ring, s.accepted, s.returned);
    case _ =>
  }

  lemma WritersStep(s: State, t: State, e: Step)
    requires Mutex(s) && WritersOk(s) && Next(s, t, e)
    ensures WritersOk(t)
  {
    hide Full, Empty, Put, Got;
    if WriterStep(s, t, e) {
      WritersWriter(s, t, e);
    } else if ReaderStep(s, t, e) {
      WritersReader(s, t, e);
    }
  }

  lemma WritersWriter(s: State, t: State, e: Step)
    requires Mutex(s) && WritersOk(s) && WriterStep(s, t, e)
    ensures WritersOk(t)
  {
    hide Full, Empty, Put, Got;
  }

  lemma WritersReader(s: State, t: State, e: Step)
    requires Mutex(s) && WritersOk(s) && ReaderStep(s, t, e)
    ensures WritersOk(t)
  {
    hide Empty, Put;
  }

  /** A killed writer leaving a full pipe (pipe.c:86-88). */
  predicate KilledExit(s: State, e: Step) {
    e.WriteFail? && s.readopen
  }

  lemma ReadersStep(s: State, t: State, e: Step)
    requires Mutex(s) && ReadersOk(s) && Next(s, t, e) && !KilledExit(s, e)
    ensures ReadersOk(t)
  {
    hide Full, Empty, Put, Got;
    if WriterStep(s, t, e) {
      ReadersWriter(s, t, e);
    } else if ReaderStep(s, t, e) {
      ReadersReader(s, t, e);
    }
  }

  lemma ReadersWriter(s: State, t: State, e: Step)
    requires Mutex(s) && ReadersOk(s) && WriterStep(s, t, e) && !KilledExit(s, e)
    ensures ReadersOk(t)
  {
    hide Full, Empty, Put, Got;
  }

  lemma ReadersReader(s: State, t: State, e: Step)
    requires Mutex(s) && ReadersOk(s) && ReaderStep(s, t, e)
    ensures ReadersOk(t)
  {
    hide Full, Empty, Put, Got;
  }

  predicate NoneReading(s: State) {
    forall i :: 0 <= i < |s.procs| ==> !s.procs[i].ReadAsleep?
  }

  /** The killed writer's exit strands readers exactly when one is asleep: the pipe is full
      and nobody has told it. */
  lemma KilledExitStrands(s: State, t: State, e: Step)
    requires Inv(s) && ReadersOk(s) && Next(s, t, e) && KilledExit(s, e)
    ensures ReadersOk(t) <==> NoneReading(s)
  {
    hide Holds, Full, Empty;
    Tests(s.ring, s.accepted, s.returned);
    forall i | 0 <= i < |s.procs| && s.procs[i].ReadAsleep?
      ensures t.procs[i].ReadAsleep?
    {
    }
    forall i | 0 <= i < |t.procs| && t.procs[i].ReadAsleep?
      ensures s.procs[i].ReadAsleep?
    {
    }
  }

  // ---- Whole runs -----------------------------------------------------------------------

  lemma InitInv(s: State)
    requires Init(s)
    ensures Inv(s) && ReadersOk(s)
  {
  }

  lemma {:induction false} Kept(ss: seq<State>, es: seq<Step>, k: nat)
    requires Run(ss, es) && k <= |es|
    ensures Inv(ss[k])
    decreases k
  {
    hide Holds, Mutex, WritersOk, ReadersOk, Next;
    if k == 0 {
      InitInv(ss[0]);
    } else {
      Kept(ss, es, k - 1);
      HoldsStep(ss[k - 1], ss[k], es[k - 1]);
      MutexStep(ss[k - 1], ss[k], es[k - 1]);
      WritersStep(ss[k - 1], ss[k], es[k - 1]);
    }
  }

  /** In every run: what was returned followed by the buffered bytes is what was accepted, and
      whenever the lock is free a sleeping writer faces a full pipe with its read end open. */
  lemma PipeFifo(ss: seq<State>, es: seq<Step>, k: nat)
    requires Run(ss, es) && k <= |es|
    ensures |ss[k].ring.data| == PIPESIZE
    ensures ss[k].returned + Buffered(ss[k].ring) == ss[k].accepted && |Buffered(ss[k].ring)| <= PIPESIZE
    ensures ss[k].lock == None ==>
              forall i :: 0 <= i < |ss[k].procs| && ss[k].procs[i].WriteAsleep? ==> ss[k].readopen && Full(ss[k].ring)
  {
    hide Buffered, Full;
    Kept(ss, es, k);
    Fifo(ss[k].ring, ss[k].accepted, ss[k].returned);
  }

  /** Every killed writer's exit in the first k steps found no reader asleep. */
  ghost predicate ExitsUnseen(ss: seq<State>, es: seq<Step>, k: nat)
    requires |ss| == |es| + 1 && k <= |es|
  {
    forall i :: 0 <= i < k && KilledExit(ss[i], es[i]) ==> NoneReading(ss[i])
  }

  lemma ReadersNext(s: State, t: State, e: Step)
    requires Inv(s) && ReadersOk(s) && Next(s, t, e)
    ensures ReadersOk(t) <==> (KilledExit(s, e) ==> NoneReading(s))
  {
    hide Holds, WritersOk, ReadersOk, Next, KilledExit;
    if KilledExit(s, e) {
      KilledExitStrands(s, t, e);
    } else {
      ReadersStep(s, t, e);
    }
  }

  /** In every run: the sleeping readers are justified in all states up to k exactly when every
      killed writer's exit before that found no reader asleep. */
  lemma {:induction false} ReadersExactly(ss: seq<State>, es: seq<Step>, k: nat)
    requires Run(ss, es) && k <= |es|
    ensures (forall i :: 0 <= i <= k ==> ReadersOk(ss[i])) <==> ExitsUnseen(ss, es, k)
    decreases k
  {
    hide Inv, ReadersOk, Next, KilledExit, NoneReading;
    if k == 0 {
      InitInv(ss[0]);
    } else {
      ReadersExactly(ss, es, k - 1);
      Kept(ss, es, k - 1);
      if ReadersOk(ss[k - 1]) {
        ReadersNext(ss[k - 1], ss[k], es[k - 1]);
      }
    }
  }

  /** As long as no killed writer's exit met a sleeping reader, whenever the lock is free a
      sleeping reader faces an empty pipe with its write end open; so readers and writers never
      sleep at once. */
  lemma NoStrandedReader(ss: seq<State>, es: seq<Step>, k: nat)
    requires Run(ss, es) && k <= |es| && ExitsUnseen(ss, es, k) && ss[k].lock == None
    ensures forall i :: 0 <= i < |ss[k].procs| && ss[k].procs[i].ReadAsleep? ==> ss[k].writeopen && Empty(ss[k].ring)
    ensures forall i, j :: 0 <= i < |ss[k].procs| && 0 <= j < |ss[k].procs| ==>
              !(ss[k].procs[i].ReadAsleep? && ss[k].procs[j].WriteAsleep?)
  {
    hide Next;
    ReadersExactly(ss, es, k);
    Kept(ss, es, k);
    Tests(ss[k].ring, ss[k].accepted, ss[k].returned);
  }

  // ---- With that exit the claim fails ------------------------------------------------

  ghost predicate Reached(s: State) {
    exists ss: seq<State>, es: seq<Step> :: Run(ss, es) && ss[|es|] == s
  }

  lemma ReachedStep(s: State, t: State, e: Step)
    requires Reached(s) && Next(s, t, e)
    ensures Reached(t)
  {
    hide Next, Init;
    var ss: seq<State>, es: seq<Step> :| Run(ss, es) && ss[|es|] == s;
    assert Run(ss + [t], es + [e]);
  }

  lemma ReachedInv(s: State)
    requires Reached(s)
    ensures Inv(s)
  {
    hide Next, Init, Inv;
    var ss: seq<State>, es: seq<Step> :| Run(ss, es) && ss[|es|] == s;
    Kept(ss, es, |es|);
  }

  /** A reader sleeps on the empty pipe while process 1 writes `rest`. */
  ghost predicate Sleeper(s: State, rest: seq<byte>) {
    && s.lock == Some(1) && s.procs == [ReadAsleep(1), Writing(rest)] && s.killed == {}
    && s.readopen && s.writeopen && s.returned == []
  }

  lemma Starts(a: State)
    requires Init(a)
    ensures Reached(a)
  {
    hide Init;
    assert Run([a], []) && [a][0] == a;
  }

  lemma ReaderFirst(rest: seq<byte>) returns (s: State)
    ensures Reached(s) && Sleeper(s, rest) && s.accepted == []
  {
    hide Reached, Full;
    var r := Ring(seq(PIPESIZE, _ => 0), 0, 0);
    var a := State(r, true, true, None, [Idle, Idle], {}, [], []);
    Starts(a);
    var b := a.(procs := [Waiting(1), Idle], lock := Some(0));
    assert a.procs[0 := Waiting(1)] == b.procs;
    ReachedStep(a, b, ReadBegin(0, 1));
    var c := b.(procs := [ReadTested(1), Idle]);
    assert b.procs[0 := ReadTested(1)] == c.procs;
    ReachedStep(b, c, ReadTest(0));
    var d := c.(procs := [ReadAsleep(1), Idle], lock := None);
    assert c.procs[0 := ReadAsleep(1)] == d.procs;
    ReachedStep(c, d, ReadSleep(0));
    s := d.(procs := [ReadAsleep(1), Writing(rest)], lock := Some(1));
    assert d.procs[1 := Writing(rest)] == s.procs;
    ReachedStep(d, s, WriteBegin(1, rest));
  }

  lemma {:induction false} FillUp(sent: seq<byte>, rest: seq<byte>) returns (s: State)
    requires |sent| <= PIPESIZE && (|sent| == 0 || rest != [])
    ensures Reached(s) && Sleeper(s, rest) && s.accepted == sent
    decreases |sent|
  {
    hide Reached, Holds, Full, Empty, Put;
    if |sent| == 0 {
      s := ReaderFirst(rest);
    } else {
      var n := |sent| - 1;
      var a := FillUp(sent[..n], [sent[n]] + rest);
      ReachedInv(a);
      Tests(a.ring, a.accepted, a.returned);
      Sized(a.ring, a.accepted, a.returned);
      s := a.(ring := Put(a.ring, sent[n]), accepted := sent, procs := [ReadAsleep(1), Writing(rest)]);
      assert sent[..n] + [sent[n]] == sent;
      assert ([sent[n]] + rest)[1..] == rest;
      assert a.procs[1 := Writing(rest)] == s.procs;
      ReachedStep(a, s, WriteByte(1));
    }
  }

  lemma Sized(g: Ring, accepted: seq<byte>, returned: seq<byte>)
    requires Holds(g, accepted, returned)
    ensures |g.data| == PIPESIZE
  {
  }

  /** A run with a kill in which a reader sleeps on a full pipe, the lock free and both ends open. */
  lemma StrandedReader() returns (s: State)
    ensures Reached(s) && s.lock == None && s.readopen && s.writeopen && Full(s.ring)
    ensures |s.procs| == 2 && s.procs[0].ReadAsleep? && s.procs[1].Idle?
  {
    hide Reached, Holds, Full, Empty;
    var a := FillUp(seq(PIPESIZE, _ => 0), [0]);
    ReachedInv(a);
    Tests(a.ring, a.accepted, a.returned);
    var b := a.(killed := {1});
    assert a.procs[1 := a.procs[1]] == b.procs;
    ReachedStep(a, b, Kill(1));
    s := b.(procs := [ReadAsleep(1), Idle], lock := None);
    assert b.procs[1 := Idle] == s.procs;
    ReachedStep(b, s, WriteFail(1));
  }
}
