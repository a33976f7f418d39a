/** pipe.c: what each call of pipewrite and piperead gives and gets over a whole run, told by the
    steps taken. */
module PipeHistory {
  import opened Common
  import opened Pipe
  import opened PipeProtocol

  // ---- Writes -----------------------------------------------------------------------------

  /** The bytes that process p's last call of pipewrite was given. */
  function Given(es: seq<Step>, k: nat, p: nat): seq<byte>
    requires k <= |es|
  {
    if k == 0 then []
    else if es[k - 1].WriteBegin? && es[k - 1].p == p then es[k - 1].addr
    else Given(es, k - 1, p)
  }

  /** What a step added to the accepted bytes. */
  function Added(s: State, t: State): seq<byte> {
    if |s.accepted| <= |t.accepted| then t.accepted[|s.accepted|..] else []
  }

  /** The bytes that the pipe has accepted from p's last call of pipewrite, in order. */
  function Sent(ss: seq<State>, es: seq<Step>, k: nat, p: nat): seq<byte>
    requires |ss| == |es| + 1 && k <= |es|
  {
    if k == 0 then []
    else if es[k - 1].WriteBegin? && es[k - 1].p == p then []
    else if es[k - 1].WriteByte? && es[k - 1].p == p then Sent(ss, es, k - 1, p) + Added(ss[k - 1], ss[k])
    else Sent(ss, es, k - 1, p)
  }

  /** Step e leaves process p, if inside pipewrite, with what it had to send but for what was accepted
      from it. */
  ghost predicate WriteMove(s: State, t: State, e: Step, p: nat)
    requires p < |s.procs| == |t.procs|
  {
    InWrite(t.procs[p]) ==>
      if e.WriteBegin? && e.p == p then t.procs[p].rest == e.addr
      else InWrite(s.procs[p]) && s.procs[p].rest ==
           (if e.WriteByte? && e.p == p then Added(s, t) else []) + t.procs[p].rest
  }

  lemma WriteSame(s: State, t: State, e: Step, p: nat)
    requires p < |s.procs| == |t.procs| && !(e.WriteBegin? && e.p == p) && !(e.WriteByte? && e.p == p)
    requires InWrite(t.procs[p]) ==> InWrite(s.procs[p]) && t.procs[p].rest == s.procs[p].rest
    ensures WriteMove(s, t, e, p)
  {
  }

  lemma WriteByWriter(s: State, t: State, e: Step, p: nat)
    requires WriterStep(s, t, e) && p < |s.procs|
    ensures |t.procs| == |s.procs| && WriteMove(s, t, e, p)
  {
    hide Full, Put, WriteMove;
    match e
    case WriteBegin(q, addr) => WriteBegins(s, t, e, p);
    case WriteByte(q) => WriteOneByte(s, t, e, p);
    case _ => WriteSame(s, t, e, p);
  }

  lemma WriteBegins(s: State, t: State, e: Step, p: nat)
    requires WriterStep(s, t, e) && e.WriteBegin? && p < |s.procs|
    ensures |t.procs| == |s.procs| && WriteMove(s, t, e, p)
  {
    hide Full, Put;
  }

  lemma WriteOneByte(s: State, t: State, e: Step, p: nat)
    requires WriterStep(s, t, e) && e.WriteByte? && p < |s.procs|
    ensures |t.procs| == |s.procs| && WriteMove(s, t, e, p)
  {
    hide Full, Put;
    assert t.accepted[|s.accepted|..] == [s.procs[e.p].rest[0]];
  }

  lemma WriteByReader(s: State, t: State, e: Step, p: nat)
    requires ReaderStep(s, t, e) && p < |s.procs|
    ensures |t.procs| == |s.procs| && WriteMove(s, t, e, p)
  {
    hide Empty, Got, WriteMove;
    WriteSame(s, t, e, p);
  }

  lemma WriteByOther(s: State, t: State, e: Step, p: nat)
    requires OtherStep(s, t, e) && p < |s.procs|
    ensures |t.procs| == |s.procs| && WriteMove(s, t, e, p)
  {
    hide WriteMove;
    WriteSame(s, t, e, p);
  }

  lemma WriteStep(s: State, t: State, e: Step, p: nat)
    requires Next(s, t, e) && p < |s.procs|
    ensures |t.procs| == |s.procs| && WriteMove(s, t, e, p)
  {
    hide WriterStep, ReaderStep, OtherStep, WriteMove;
    if WriterStep(s, t, e) {
      WriteByWriter(s, t, e, p);
    } else if ReaderStep(s, t, e) {
      WriteByReader(s, t, e, p);
    } else {
      WriteByOther(s, t, e, p);
    }
  }

  /** Only pipewrite's stores add to what is accepted, one byte each, and only piperead's loads to what
      is returned. */
  lemma StreamsStep(s: State, t: State, e: Step)
    requires Next(s, t, e)
    ensures if e.WriteByte? then |Added(s, t)| == 1 && t.accepted == s.accepted + Added(s, t)
            else t.accepted == s.accepted
    ensures if e.ReadByte? then |Removed(s, t)| == 1 && t.returned == s.returned + Removed(s, t)
            else t.returned == s.returned
  {
    hide Full, Empty, Put, Got, Oldest, WakeReaders, WakeWriters;
  }

  /** In every run, inside pipewrite: the bytes accepted from this call, followed by the bytes still
      to send, are those it was given. */
  lemma {:induction false} WriteInOrder(ss: seq<State>, es: seq<Step>, k: nat, p: nat)
    requires Run(ss, es) && k <= |es| && p < |ss[0].procs|
    ensures |ss[k].procs| == |ss[0].procs|
    ensures InWrite(ss[k].procs[p]) ==> Sent(ss, es, k, p) + ss[k].procs[p].rest == Given(es, k, p)
    decreases k
  {
    hide Next;
    if k > 0 {
      hide Init;
      WriteInOrder(ss, es, k - 1, p);
      WriteStep(ss[k - 1], ss[k], es[k - 1], p);
    }
  }

  /** pipewrite returns having sent all it was given, in order; or it fails with a prefix sent, on a
      full pipe, when the read end is closed or the writer was killed. */
  lemma WriteAnswers(ss: seq<State>, es: seq<Step>, k: nat)
    requires Run(ss, es) && k < |es|
    ensures es[k].WriteDone? ==> Sent(ss, es, k, es[k].p) == Given(es, k, es[k].p)
    ensures es[k].WriteFail? ==>
              && Sent(ss, es, k, es[k].p) < Given(es, k, es[k].p) && Full(ss[k].ring)
              && (CloseRead in es[..k] || Kill(es[k].p) in es[..k])
  {
    hide Full, Empty, Next, Init;
    if es[k].WriteDone? || es[k].WriteFail? {
      Sizes(ss, es, k);
      WriteEnds(ss[k], ss[k + 1], es[k]);
      WriteInOrder(ss, es, k, es[k].p);
      EndsExactly(ss, es, k);
      KilledExactly(ss, es, k);
    }
  }

  lemma WriteEnds(s: State, t: State, e: Step)
    requires Next(s, t, e) && (e.WriteDone? || e.WriteFail?)
    ensures e.p < |s.procs| && s.procs[e.p].Writing? && (e.WriteDone? <==> s.procs[e.p].rest == [])
    ensures e.WriteFail? ==> Full(s.ring) && (!s.readopen || e.p in s.killed)
  {
    hide Full, Empty, Put, Got;
  }

  lemma {:induction false} Sizes(ss: seq<State>, es: seq<Step>, k: nat)
    requires Run(ss, es) && k <= |es|
    ensures |ss[k].procs| == |ss[0].procs|
    decreases k
  {
    hide Init, Next;
    if k > 0 {
      Sizes(ss, es, k - 1);
      SizeStep(ss[k - 1], ss[k], es[k - 1]);
    }
  }

  lemma SizeStep(s: State, t: State, e: Step)
    requires Next(s, t, e)
    ensures |t.procs| == |s.procs|
  {
    if |s.procs| > 0 {
      hide Next;
      WriteStep(s, t, e, 0);
    } else {
      hide Full, Empty, Put, Got;
    }
  }

  // ---- Ends and kills -----------------------------------------------------------------------

  lemma EndsStep(s: State, t: State, e: Step)
    requires Next(s, t, e)
    ensures t.readopen <==> s.readopen && e != CloseRead
    ensures t.writeopen <==> s.writeopen && e != CloseWrite
    ensures t.killed == if e.Kill? then s.killed + {e.p} else s.killed
  {
    hide Full, Empty, Put, Got;
  }

  /** In every run, an end is open exactly until its pipeclose. */
  lemma {:induction false} EndsExactly(ss: seq<State>, es: seq<Step>, k: nat)
    requires Run(ss, es) && k <= |es|
    ensures ss[k].readopen <==> CloseRead !in es[..k]
    ensures ss[k].writeopen <==> CloseWrite !in es[..k]
    decreases k
  {
    hide Next;
    if k > 0 {
      hide Init;
      EndsExactly(ss, es, k - 1);
      EndsStep(ss[k - 1], ss[k], es[k - 1]);
      assert es[..k] == es[..k - 1] + [es[k - 1]];
    }
  }

  lemma {:induction false} KilledExactly(ss: seq<State>, es: seq<Step>, k: nat)
    requires Run(ss, es) && k <= |es|
    ensures forall p: nat :: p in ss[k].killed <==> Kill(p) in es[..k]
    decreases k
  {
    hide Next;
    if k > 0 {
      hide Init;
      KilledExactly(ss, es, k - 1);
      EndsStep(ss[k - 1], ss[k], es[k - 1]);
      assert es[..k] == es[..k - 1] + [es[k - 1]];
    }
  }

  // ---- Reads ------------------------------------------------------------------------------------

  /** The bytes that process p's last call of piperead asked for. */
  function Asked(es: seq<Step>, k: nat, p: nat): nat
    requires k <= |es|
  {
    if k == 0 then 0
    else if es[k - 1].ReadBegin? && es[k - 1].p == p then es[k - 1].n
    else Asked(es, k - 1, p)
  }

  /** What a step added to the returned bytes. */
  function Removed(s: State, t: State): seq<byte> {
    if |s.returned| <= |t.returned| then t.returned[|s.returned|..] else []
  }

  /** The bytes that p's last call of piperead has got, in order. */
  function Taken(ss: seq<State>, es: seq<Step>, k: nat, p: nat): seq<byte>
    requires |ss| == |es| + 1 && k <= |es|
  {
    if k == 0 then []
    else if es[k - 1].ReadBegin? && es[k - 1].p == p then []
    else if es[k - 1].ReadByte? && es[k - 1].p == p then Taken(ss, es, k - 1, p) + Removed(ss[k - 1], ss[k])
    else Taken(ss, es, k - 1, p)
  }

  /** s ends with r. */
  predicate Suffix(r: seq<byte>, s: seq<byte>) {
    |r| <= |s| && s[|s| - |r|..] == r
  }

  /** The call of piperead of p, of which got has been taken out of n bytes asked for: nothing before
      the copying, then the latest bytes returned; and it copies only with bytes to take or at the
      end of file. */
  ghost predicate Reading(s: State, p: nat, got: seq<byte>, n: nat)
    requires p < |s.procs|
  {
    && (InRead(s.procs[p]) ==> |got| + s.procs[p].n == n)
    && (InRead(s.procs[p]) && !s.procs[p].Copying? ==> got == [])
    && (s.procs[p].Copying? ==> Suffix(got, s.returned))
    && (s.procs[p].Copying? && got == [] ==> !Empty(s.ring) || !s.writeopen)
  }

  lemma ReadOwn(s: State, t: State, e: Step, p: nat, got: seq<byte>, n: nat)
    requires ReaderStep(s, t, e) && e.p == p && p < |s.procs| && Reading(s, p, got, n)
    ensures |t.procs| == |s.procs|
    ensures Reading(t, p, if e.ReadBegin? then [] else if e.ReadByte? then got + Removed(s, t) else got,
                    if e.ReadBegin? then e.n else n)
  {
    hide Full, Empty, Got;
    if e.ReadByte? {
      assert t.returned[|s.returned|..] == [Oldest(s.ring)];
      SuffixMore(got, s.returned, Oldest(s.ring));
    }
  }

  lemma SuffixMore(r: seq<byte>, s: seq<byte>, b: byte)
    requires Suffix(r, s)
    ensures Suffix(r + [b], s + [b])
  {
  }

  /** Steps of others leave a copying reader's view alone, since it holds the lock. */
  lemma ReadOther(s: State, t: State, e: Step, p: nat, got: seq<byte>, n: nat)
    requires Mutex(s) && Next(s, t, e) && p < |s.procs| && Reading(s, p, got, n)
    requires ReaderStep(s, t, e) ==> e.p != p
    ensures |t.procs| == |s.procs| && Reading(t, p, got, n)
  {
    hide WriterStep, ReaderStep, OtherStep, Mutex, Reading;
    if WriterStep(s, t, e) {
      ReadWriter(s, t, e, p, got, n);
    } else if ReaderStep(s, t, e) {
      ReadReader(s, t, e, p, got, n);
    } else {
      ReadRest(s, t, e, p, got, n);
    }
  }

  lemma ReadWriter(s: State, t: State, e: Step, p: nat, got: seq<byte>, n: nat)
    requires Mutex(s) && WriterStep(s, t, e) && p < |s.procs| && Reading(s, p, got, n)
    ensures |t.procs| == |s.procs| && Reading(t, p, got, n)
  {
    hide Full, Empty, Put, Suffix;
  }

  lemma ReadReader(s: State, t: State, e: Step, p: nat, got: seq<byte>, n: nat)
    requires Mutex(s) && ReaderStep(s, t, e) && e.p != p && p < |s.procs| && Reading(s, p, got, n)
    ensures |t.procs| == |s.procs| && Reading(t, p, got, n)
  {
    hide Full, Empty, Got, Suffix;
  }

  lemma ReadRest(s: State, t: State, e: Step, p: nat, got: seq<byte>, n: nat)
    requires Mutex(s) && OtherStep(s, t, e) && p < |s.procs| && Reading(s, p, got, n)
    ensures |t.procs| == |s.procs| && Reading(t, p, got, n)
  {
    hide Full, Empty, Suffix;
  }

  lemma ReadStep(s: State, t: State, e: Step, p: nat, got: seq<byte>, n: nat)
    requires Mutex(s) && Next(s, t, e) && p < |s.procs| && Reading(s, p, got, n)
    ensures |t.procs| == |s.procs|
    ensures Reading(t, p, if e.ReadBegin? && e.p == p then []
                          else if e.ReadByte? && e.p == p then got + Removed(s, t) else got,
                    if e.ReadBegin? && e.p == p then e.n else n)
  {
    hide Mutex, Reading, WriterStep, OtherStep, ReaderStep;
    StepKind(s, t, e);
    if ReaderStep(s, t, e) && e.p == p {
      ReadOwn(s, t, e, p, got, n);
    } else {
      ReadOther(s, t, e, p, got, n);
    }
  }

  lemma StepKind(s: State, t: State, e: Step)
    requires Next(s, t, e)
    ensures e.ReadBegin? || e.ReadByte? ==> ReaderStep(s, t, e)
    ensures ReaderStep(s, t, e) ==> !e.CloseRead? && !e.CloseWrite? && !e.Kill?
  {
  }

  /** In every run: a call of piperead gets the next bytes of the stream, one after the other. */
  lemma {:induction false} ReadInOrder(ss: seq<State>, es: seq<Step>, k: nat, p: nat)
    requires Run(ss, es) && k <= |es| && p < |ss[0].procs|
    ensures |ss[k].procs| == |ss[0].procs|
    ensures Reading(ss[k], p, Taken(ss, es, k, p), Asked(es, k, p))
    decreases k
  {
    hide Next, Mutex, Holds, WritersOk;
    if k > 0 {
      hide Init, Reading;
      ReadInOrder(ss, es, k - 1, p);
      Kept(ss, es, k - 1);
      ReadStep(ss[k - 1], ss[k], es[k - 1], p, Taken(ss, es, k - 1, p), Asked(es, k - 1, p));
    }
  }

  /** piperead returns the latest bytes to leave the pipe, as many as asked for or until the pipe is
      empty, and none only if none were asked for or the write end is closed; it fails only if killed. */
  lemma ReadAnswers(ss: seq<State>, es: seq<Step>, k: nat)
    requires Run(ss, es) && k < |es|
    ensures es[k].ReadDone? ==>
              var got, n := Taken(ss, es, k, es[k].p), Asked(es, k, es[k].p);
              && Suffix(got, ss[k].returned) && |got| <= n && (|got| < n ==> Empty(ss[k].ring))
              && (got == [] ==> n == 0 || CloseWrite in es[..k])
    ensures es[k].ReadFail? ==>
              && Kill(es[k].p) in es[..k] && Taken(ss, es, k, es[k].p) == []
              && Empty(ss[k].ring) && CloseWrite !in es[..k]
  {
    hide Empty, Next, Init;
    if es[k].ReadDone? || es[k].ReadFail? {
      Sizes(ss, es, k);
      ReadEnds(ss[k], ss[k + 1], es[k]);
      ReadInOrder(ss, es, k, es[k].p);
      EndsExactly(ss, es, k);
      KilledExactly(ss, es, k);
    }
  }

  lemma ReadEnds(s: State, t: State, e: Step)
    requires Next(s, t, e) && (e.ReadDone? || e.ReadFail?)
    ensures e.p < |s.procs|
    ensures e.ReadDone? ==> s.procs[e.p].Copying? && (s.procs[e.p].n == 0 || Empty(s.ring))
    ensures e.ReadFail? ==> s.procs[e.p].Waiting? && e.p in s.killed && Empty(s.ring) && s.writeopen
  {
    hide Full, Empty, Put, Got;
  }

  // ---- Nobody is stuck ------------------------------------------------------------------------

  /** In every run, the process that holds the lock can take a step. */
  lemma HolderMoves(ss: seq<State>, es: seq<Step>, k: nat) returns (e: Step, t: State)
    requires Run(ss, es) && k <= |es| && ss[k].lock.Some?
    ensures Next(ss[k], t, e) && !e.CloseRead? && !e.CloseWrite? && !e.Kill? && Some(e.p) == ss[k].lock
  {
    hide Init, Next, Holds, WritersOk;
    Kept(ss, es, k);
    Sized(ss[k].ring, ss[k].accepted, ss[k].returned);
    hide Run;
    e, t := Moves(ss[k], ss[k].lock.value);
  }

  /** With the lock free, a woken process can take it again, and an idle one can begin any call on an open
      end. */
  lemma OthersMove(s: State, p: nat, addr: seq<byte>, n: nat)
    requires p < |s.procs| && s.lock == None
    ensures s.procs[p].WriteReady? ==> exists t :: Next(s, t, WriteWake(p))
    ensures s.procs[p].ReadReady? ==> exists t :: Next(s, t, ReadWake(p))
    ensures s.procs[p].Idle? && s.writeopen ==> exists t :: Next(s, t, WriteBegin(p, addr))
    ensures s.procs[p].Idle? && s.readopen ==> exists t :: Next(s, t, ReadBegin(p, n))
  {
    hide Full, Empty, Put, Got;
    var at := s.(lock := Some(p));
    if s.procs[p].WriteReady? {
      assert Next(s, Moved(at, p, Writing(s.procs[p].rest)), WriteWake(p));
    } else if s.procs[p].ReadReady? {
      assert Next(s, Moved(at, p, Waiting(s.procs[p].n)), ReadWake(p));
    } else if s.procs[p].Idle? {
      if s.writeopen {
        assert Next(s, Moved(at, p, Writing(addr)), WriteBegin(p, addr));
      }
      if s.readopen {
        assert Next(s, Moved(at, p, Waiting(n)), ReadBegin(p, n));
      }
    }
  }

  lemma Moves(s: State, p: nat) returns (e: Step, t: State)
    requires |s.ring.data| == PIPESIZE && p < |s.procs| && Holding(s.procs[p])
    ensures Next(s, t, e) && !e.CloseRead? && !e.CloseWrite? && !e.Kill? && e.p == p
  {
    if s.procs[p].Writing? {
      e, t := WriterMoves(s, p);
    } else if s.procs[p].WriteTested? {
      e := WriteSleep(p);
      t := s.(procs := WakeReaders(s.procs)[p := WriteAsleep(s.procs[p].rest)], lock := None);
    } else {
      e, t := ReaderMoves(s, p);
    }
  }

  lemma WriterMoves(s: State, p: nat) returns (e: Step, t: State)
    requires |s.ring.data| == PIPESIZE && p < |s.procs| && s.procs[p].Writing?
    ensures WriterStep(s, t, e) && e.p == p
  {
    hide Full, Put;
    var rest := s.procs[p].rest;
    if rest == [] {
      e, t := WriteDone(p), s.(procs := WakeReaders(s.procs)[p := Idle], lock := None);
    } else if !Full(s.ring) {
      e := WriteByte(p);
      t := Moved(s, p, Writing(rest[1..])).(ring := Put(s.ring, rest[0]), accepted := s.accepted + [rest[0]]);
    } else if s.readopen && p !in s.killed {
      e, t := WriteTest(p), Moved(s, p, WriteTested(rest));
    } else {
      e, t := WriteFail(p), Moved(s, p, Idle).(lock := None);
    }
  }

  lemma ReaderMoves(s: State, p: nat) returns (e: Step, t: State)
    requires |s.ring.data| == PIPESIZE && p < |s.procs|
    requires s.procs[p].Waiting? || s.procs[p].ReadTested? || s.procs[p].Copying?
    ensures ReaderStep(s, t, e) && e.p == p
  {
    hide Empty, Got, Oldest;
    var n := s.procs[p].n;
    if s.procs[p].ReadTested? {
      e, t := ReadSleep(p), Moved(s, p, ReadAsleep(n)).(lock := None);
    } else if s.procs[p].Copying? {
      if n == 0 || Empty(s.ring) {
        e, t := ReadDone(p), s.(procs := WakeWriters(s.procs)[p := Idle], lock := None);
      } else {
        e := ReadByte(p);
        t := Moved(s, p, Copying(n - 1)).(ring := Got(s.ring), returned := s.returned + [Oldest(s.ring)]);
      }
    } else if !(Empty(s.ring) && s.writeopen) {
      e, t := ReadGo(p), Moved(s, p, Copying(n));
    } else if p in s.killed {
      e, t := ReadFail(p), Moved(s, p, Idle).(lock := None);
    } else {
      e, t := ReadTest(p), Moved(s, p, ReadTested(n));
    }
  }

  // ---- Sleeping -----------------------------------------------------------------------------------

  /** What ends a reader's, or a writer's, sleep. */
  predicate WakesReader(e: Step, p: nat) { e == Kill(p) || e.WriteSleep? || e.WriteDone? || e.CloseWrite? }
  predicate WakesWriter(e: Step, p: nat) { e == Kill(p) || e.ReadDone? || e.CloseRead? }

  lemma SleepStep(s: State, t: State, e: Step, p: nat)
    requires Mutex(s) && Next(s, t, e) && p < |s.procs|
    ensures |t.procs| == |s.procs|
    ensures t.procs[p].ReadAsleep? <==> e == ReadSleep(p) || (s.procs[p].ReadAsleep? && !WakesReader(e, p))
    ensures t.procs[p].WriteAsleep? <==> e == WriteSleep(p) || (s.procs[p].WriteAsleep? && !WakesWriter(e, p))
  {
    hide WriterStep, ReaderStep, OtherStep;
    if WriterStep(s, t, e) {
      SleepWriter(s, t, e, p);
    } else if ReaderStep(s, t, e) {
      SleepReader(s, t, e, p);
    } else {
      SleepOther(s, t, e, p);
    }
  }

  lemma SleepWriter(s: State, t: State, e: Step, p: nat)
    requires WriterStep(s, t, e) && p < |s.procs|
    ensures |t.procs| == |s.procs|
    ensures t.procs[p].ReadAsleep? <==> e == ReadSleep(p) || (s.procs[p].ReadAsleep? && !WakesReader(e, p))
    ensures t.procs[p].WriteAsleep? <==> e == WriteSleep(p) || (s.procs[p].WriteAsleep? && !WakesWriter(e, p))
  {
    hide Full, Put;
  }

  lemma SleepReader(s: State, t: State, e: Step, p: nat)
    requires ReaderStep(s, t, e) && p < |s.procs|
    ensures |t.procs| == |s.procs|
    ensures t.procs[p].ReadAsleep? <==> e == ReadSleep(p) || (s.procs[p].ReadAsleep? && !WakesReader(e, p))
    ensures t.procs[p].WriteAsleep? <==> e == WriteSleep(p) || (s.procs[p].WriteAsleep? && !WakesWriter(e, p))
  {
    hide Empty, Got;
  }

  lemma SleepOther(s: State, t: State, e: Step, p: nat)
    requires OtherStep(s, t, e) && p < |s.procs|
    ensures |t.procs| == |s.procs|
    ensures t.procs[p].ReadAsleep? <==> e == ReadSleep(p) || (s.procs[p].ReadAsleep? && !WakesReader(e, p))
    ensures t.procs[p].WriteAsleep? <==> e == WriteSleep(p) || (s.procs[p].WriteAsleep? && !WakesWriter(e, p))
  {
  }

  /** Process p went to sleep in step i of the first k, and nothing has woken it since. */
  ghost predicate ReaderSince(es: seq<Step>, k: nat, p: nat)
    requires k <= |es|
  {
    exists i :: 0 <= i < k && es[i] == ReadSleep(p) && forall j :: i < j < k ==> !WakesReader(es[j], p)
  }

  ghost predicate WriterSince(es: seq<Step>, k: nat, p: nat)
    requires k <= |es|
  {
    exists i :: 0 <= i < k && es[i] == WriteSleep(p) && forall j :: i < j < k ==> !WakesWriter(es[j], p)
  }

  lemma ReaderNext(es: seq<Step>, k: nat, p: nat)
    requires 0 < k <= |es|
    ensures ReaderSince(es, k, p) <==>
            es[k - 1] == ReadSleep(p) || (ReaderSince(es, k - 1, p) && !WakesReader(es[k - 1], p))
  {
    hide WakesReader;
    if ReaderSince(es, k - 1, p) && !WakesReader(es[k - 1], p) {
      var i :| 0 <= i < k - 1 && es[i] == ReadSleep(p) && forall j :: i < j < k - 1 ==> !WakesReader(es[j], p);
      assert forall j :: i < j < k ==> !WakesReader(es[j], p);
    }
  }

  lemma WriterNext(es: seq<Step>, k: nat, p: nat)
    requires 0 < k <= |es|
    ensures WriterSince(es, k, p) <==>
            es[k - 1] == WriteSleep(p) || (WriterSince(es, k - 1, p) && !WakesWriter(es[k - 1], p))
  {
    hide WakesWriter;
    if WriterSince(es, k - 1, p) && !WakesWriter(es[k - 1], p) {
      var i :| 0 <= i < k - 1 && es[i] == WriteSleep(p) && forall j :: i < j < k - 1 ==> !WakesWriter(es[j], p);
      assert forall j :: i < j < k ==> !WakesWriter(es[j], p);
    }
  }

  /** In every run, a process sleeps exactly from its sleep to the next wakeup on its channel, kill of it,
      or close of the other end. */
  lemma {:induction false} AsleepExactly(ss: seq<State>, es: seq<Step>, k: nat, p: nat)
    requires Run(ss, es) && k <= |es| && p < |ss[0].procs|
    ensures |ss[k].procs| == |ss[0].procs|
    ensures ss[k].procs[p].ReadAsleep? <==> ReaderSince(es, k, p)
    ensures ss[k].procs[p].WriteAsleep? <==> WriterSince(es, k, p)
    decreases k
  {
    hide Next, Mutex, Holds, WritersOk;
    if k > 0 {
      hide Init, ReaderSince, WriterSince, WakesReader, WakesWriter;
      AsleepExactly(ss, es, k - 1, p);
      Kept(ss, es, k - 1);
      SleepStep(ss[k - 1], ss[k], es[k - 1], p);
      ReaderNext(es, k, p);
      WriterNext(es, k, p);
    }
  }

  /** A writer goes to sleep only with bytes left, on a full pipe with an open read end, before any kill of
      it; a reader only on an empty pipe with an open write end, before any kill of it. */
  lemma TestsAre(ss: seq<State>, es: seq<Step>, k: nat)
    requires Run(ss, es) && k < |es|
    ensures es[k].WriteTest? ==>
              && Sent(ss, es, k, es[k].p) < Given(es, k, es[k].p) && Full(ss[k].ring)
              && CloseRead !in es[..k] && Kill(es[k].p) !in es[..k]
    ensures es[k].ReadTest? ==> Empty(ss[k].ring) && CloseWrite !in es[..k] && Kill(es[k].p) !in es[..k]
  {
    hide Full, Empty, Next, Init;
    if es[k].WriteTest? || es[k].ReadTest? {
      Sizes(ss, es, k);
      TestHas(ss[k], ss[k + 1], es[k]);
      WriteInOrder(ss, es, k, es[k].p);
      EndsExactly(ss, es, k);
      KilledExactly(ss, es, k);
    }
  }

  lemma TestHas(s: State, t: State, e: Step)
    requires Next(s, t, e) && (e.WriteTest? || e.ReadTest?)
    ensures e.p < |s.procs| && e.p !in s.killed
    ensures e.WriteTest? ==> s.procs[e.p].Writing? && s.procs[e.p].rest != [] && Full(s.ring) && s.readopen
    ensures e.ReadTest? ==> Empty(s.ring) && s.writeopen
  {
    hide Full, Empty, Put, Got;
  }

  // ---- Calls do not nest ---------------------------------------------------------------------------

  predicate Begins(e: Step, p: nat) { (e.WriteBegin? || e.ReadBegin?) && e.p == p }
  predicate Returns(e: Step, p: nat) { (e.WriteDone? || e.WriteFail? || e.ReadDone? || e.ReadFail?) && e.p == p }

  /** Process p has begun a call and not returned from it. */
  predicate InCall(es: seq<Step>, k: nat, p: nat)
    requires k <= |es|
  {
    k > 0 && (Begins(es[k - 1], p) || (InCall(es, k - 1, p) && !Returns(es[k - 1], p)))
  }

  lemma CallStep(s: State, t: State, e: Step, p: nat)
    requires Next(s, t, e) && p < |s.procs|
    ensures |t.procs| == |s.procs|
    ensures t.procs[p].Idle? <==> Returns(e, p) || (s.procs[p].Idle? && !Begins(e, p))
    ensures Begins(e, p) ==> s.procs[p].Idle?
  {
    hide WriterStep, ReaderStep, OtherStep;
    if WriterStep(s, t, e) {
      CallWriter(s, t, e, p);
    } else if ReaderStep(s, t, e) {
      CallReader(s, t, e, p);
    } else {
      CallOther(s, t, e, p);
    }
  }

  lemma CallWriter(s: State, t: State, e: Step, p: nat)
    requires WriterStep(s, t, e) && p < |s.procs|
    ensures |t.procs| == |s.procs| && (t.procs[p].Idle? <==> Returns(e, p) || (s.procs[p].Idle? && !Begins(e, p)))
    ensures Begins(e, p) ==> s.procs[p].Idle?
  {
    hide Full, Put;
  }

  lemma CallReader(s: State, t: State, e: Step, p: nat)
    requires ReaderStep(s, t, e) && p < |s.procs|
    ensures |t.procs| == |s.procs| && (t.procs[p].Idle? <==> Returns(e, p) || (s.procs[p].Idle? && !Begins(e, p)))
    ensures Begins(e, p) ==> s.procs[p].Idle?
  {
    hide Empty, Got;
  }

  lemma CallOther(s: State, t: State, e: Step, p: nat)
    requires OtherStep(s, t, e) && p < |s.procs|
    ensures |t.procs| == |s.procs| && (t.procs[p].Idle? <==> s.procs[p].Idle?) && !Begins(e, p) && !Returns(e, p)
  {
  }

  lemma {:induction false} CallsExactly(ss: seq<State>, es: seq<Step>, k: nat, p: nat)
    requires Run(ss, es) && k <= |es| && p < |ss[0].procs|
    ensures |ss[k].procs| == |ss[0].procs| && (ss[k].procs[p].Idle? <==> !InCall(es, k, p))
    ensures k < |es| && Begins(es[k], p) ==> !InCall(es, k, p)
    decreases k
  {
    hide Next;
    if k > 0 {
      hide Init;
      CallsExactly(ss, es, k - 1, p);
      CallStep(ss[k - 1], ss[k], es[k - 1], p);
    }
    if k < |es| {
      CallStep(ss[k], ss[k + 1], es[k], p);
    }
  }
}
