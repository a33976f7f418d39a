/** Group commit as a step system: any number of processes inside begin_op,
    log_write and end_op, one of them committing block by block, and a crash
    possible between any two steps. */
module GroupCommit {
  import opened Common
  import opened LogDisk

  /** Where a process is. `Waiting` was woken and will test again; `checked`
      says that log_write has passed its unlocked guard but not yet recorded
      the block; `wrote` is what the operation has logged so far. */
  datatype Proc = Idle | Waiting | Asleep | InOp(wrote: set<int>, checked: bool) | Committer

  /** What the disk is being used for: `base` is the disk when that began and
      `k` the number of its block writes done. */
  datatype Phase = Running | Committing(base: Disk, k: nat) | Recovering(base: Disk, k: nat)

  datatype State = State(
    procs: seq<Proc>,
    outstanding: int,
    committing: bool,
    lh: seq<int>,
    view: Disk,
    disk: Disk,
    phase: Phase)

  datatype Step =
    | BeginOk(p: nat)
    | BeginSleep(p: nat)
    | Check(p: nat)
    | LogWrite(p: nat, b: int, x: Block)
    | EndOp(p: nat)
    | CommitWrite(p: nat)
    | CommitDone(p: nat)
    | Crash
    | RecoverWrite
    | RecoverDone

  function Woken(ps: seq<Proc>): (r: seq<Proc>)
    ensures |r| == |ps|
    ensures forall i :: 0 <= i < |ps| ==> r[i] == (if ps[i].Asleep? then Waiting else ps[i])
  {
    seq(|ps|, i requires 0 <= i < |ps| => if ps[i].Asleep? then Waiting else ps[i])
  }

  predicate Room(s: State) {
    |s.lh| + (s.outstanding + 1) * MAXOPBLOCKS <= LOGSIZE
  }

  /** The number of block writes of a commit: none when nothing was logged. */
  function Writes(lh: seq<int>): nat {
    if |lh| == 0 then 0 else 2 * |lh| + 2
  }

  ghost predicate Begin(s: State, p: nat) {
    p < |s.procs| && (s.procs[p].Idle? || s.procs[p].Waiting?) && !s.phase.Recovering?
  }

  ghost predicate InsideOp(s: State, p: nat) {
    p < |s.procs| && s.procs[p].InOp? && !s.phase.Recovering?
  }

  ghost predicate Next(l: Layout, s: State, s': State, step: Step) {
    match step
    case BeginOk(p) =>
      && Begin(s, p) && !s.committing && Room(s)
      && s' == s.(procs := s.procs[p := InOp({}, false)], outstanding := s.outstanding + 1)
    case BeginSleep(p) =>
      && Begin(s, p) && (s.committing || !Room(s))
      && s' == s.(procs := s.procs[p := Asleep])
    case Check(p) =>
      && InsideOp(s, p) && !(|s.lh| >= LOGSIZE || |s.lh| >= l.size - 1 || s.outstanding < 1)
      && s' == s.(procs := s.procs[p := s.procs[p].(checked := true)])
    case LogWrite(p, b, x) =>
      && InsideOp(s, p) && s.procs[p].checked
      && 0 <= b < |s.view| && !l.InLog(b)
      // An operation logs at most MAXOPBLOCKS distinct blocks.
      && |s.procs[p].wrote + {b}| <= MAXOPBLOCKS
      && s' == s.(procs := s.procs[p := InOp(s.procs[p].wrote + {b}, false)],
                  lh := if b in s.lh then s.lh else s.lh + [b],
                  view := s.view[b := x])
    case EndOp(p) =>
      && InsideOp(s, p)
      && if s.outstanding == 1 then
           s' == s.(procs := s.procs[p := Committer], outstanding := 0, committing := true,
                    phase := Committing(s.disk, 0))
         else
           s' == s.(procs := Woken(s.procs[p := Idle]), outstanding := s.outstanding - 1)
    case CommitWrite(p) =>
      && p < |s.procs| && s.procs[p].Committer? && s.phase.Committing?
      && s.phase.k < Writes(s.lh)
      && l.Fits(s.phase.base) && l.Loggable(s.phase.base, s.lh) && |s.view| == |s.phase.base|
      && s' == s.(disk := CommitPoint(l, s.phase.base, s.lh, s.view, s.phase.k + 1),
                  phase := Committing(s.phase.base, s.phase.k + 1))
    case CommitDone(p) =>
      && p < |s.procs| && s.procs[p].Committer? && s.phase.Committing?
      && s.phase.k == Writes(s.lh)
      && s' == s.(procs := Woken(s.procs[p := Idle]), committing := false, lh := [], phase := Running)
    case Crash =>
      && s'.procs == seq(|s.procs|, _ => Idle) && s'.outstanding == 0 && !s'.committing
      && s'.lh == [] && s'.disk == s.disk && s'.phase == Recovering(s.disk, 0)
      && |s'.view| == |s.disk|
    case RecoverWrite =>
      && s.phase.Recovering? && l.Fits(s.phase.base) && l.HeaderOk(s.phase.base)
      && s.phase.k + 1 < |RecoveryTrace(l, s.phase.base)|
      && s' == s.(disk := RecoveryTrace(l, s.phase.base)[s.phase.k + 1],
                  phase := Recovering(s.phase.base, s.phase.k + 1))
    case RecoverDone =>
      && s.phase.Recovering? && l.Fits(s.phase.base) && l.HeaderOk(s.phase.base)
      && s.phase.k + 1 == |RecoveryTrace(l, s.phase.base)|
      && s' == s.(view := s.disk, phase := Running)
  }

  /** The kernel before any system call, on a disk whose log is empty. */
  ghost predicate Init(l: Layout, s: State) {
    && (forall p :: 0 <= p < |s.procs| ==> s.procs[p] == Idle)
    && s.outstanding == 0 && !s.committing && s.lh == [] && s.phase == Running
    && l.Fits(s.disk) && s.disk[l.start][0] == 0 && s.view == s.disk
  }

  // ---- Counting -------------------------------------------------------------

  function Weight(p: Proc): int {
    if p.InOp? then 1 else 0
  }

  function Unspent(p: Proc): int {
    if p.InOp? then MAXOPBLOCKS - |p.wrote| else 0
  }

  function Sum(ps: seq<Proc>, f: Proc -> int): int {
    if |ps| == 0 then 0 else Sum(ps[..|ps| - 1], f) + f(ps[|ps| - 1])
  }

  lemma {:induction false} SumUpdate(ps: seq<Proc>, f: Proc -> int, i: nat, q: Proc)
    requires i < |ps|
    ensures Sum(ps[i := q], f) == Sum(ps, f) - f(ps[i]) + f(q)
  {
    var n := |ps| - 1;
    if i == n {
      assert ps[i := q][..n] == ps[..n];
    } else {
      assert ps[i := q][..n] == ps[..n][i := q];
      SumUpdate(ps[..n], f, i, q);
    }
  }

  /** Lists of processes that differ only where the weight is the same. */
  lemma {:induction false} SumSame(ps: seq<Proc>, qs: seq<Proc>, f: Proc -> int)
    requires |ps| == |qs|
    requires forall i :: 0 <= i < |ps| ==> f(ps[i]) == f(qs[i])
    ensures Sum(ps, f) == Sum(qs, f)
  {
    if |ps| > 0 { SumSame(ps[..|ps| - 1], qs[..|ps| - 1], f); }
  }

  lemma {:induction false} SumBound(ps: seq<Proc>)
    requires forall i :: 0 <= i < |ps| && ps[i].InOp? ==> |ps[i].wrote| <= MAXOPBLOCKS
    ensures 0 <= Sum(ps, Unspent) <= MAXOPBLOCKS * Sum(ps, Weight)
  {
    if |ps| > 0 { SumBound(ps[..|ps| - 1]); }
  }

  lemma {:induction false} SumWitness(ps: seq<Proc>, i: nat)
    requires i < |ps| && ps[i].InOp?
    ensures Sum(ps, Weight) >= 1
  {
    var n := |ps| - 1;
    SumNonNegative(ps[..n]);
    if i < n { SumWitness(ps[..n], i); }
  }

  lemma {:induction false} SumNonNegative(ps: seq<Proc>)
    ensures Sum(ps, Weight) >= 0
  {
    if |ps| > 0 { SumNonNegative(ps[..|ps| - 1]); }
  }

  // ---- The protocol invariant -------------------------------------------------

  ghost predicate Distinct(lh: seq<int>) {
    forall i, j :: 0 <= i < j < |lh| ==> lh[i] != lh[j]
  }

  /** `outstanding` counts the operations in progress, a commit excludes them
      all, no block is recorded twice, what is recorded plus what is still
      reserved fits the log, and a sleeper waits for a commit, or for room that
      an operation in progress holds. */
  ghost predicate Protocol(s: State) {
    && s.outstanding == Sum(s.procs, Weight)
    && (s.committing <==> s.phase.Committing?)
    && (s.committing ==> s.outstanding == 0)
    && (s.phase.Recovering? ==> s.outstanding == 0)
    && Distinct(s.lh)
    && (forall i :: 0 <= i < |s.procs| && s.procs[i].InOp? ==>
          |s.procs[i].wrote| <= MAXOPBLOCKS && forall b :: b in s.procs[i].wrote ==> b in s.lh)
    && |s.lh| + Sum(s.procs, Unspent) <= LOGSIZE
    && (!s.committing && s.outstanding == 0 ==> s.lh == [])
    && (forall i :: 0 <= i < |s.procs| && s.procs[i].Asleep? ==>
          s.committing || (s.outstanding > 0 && |s.lh| + (s.outstanding + 1) * MAXOPBLOCKS > LOGSIZE))
  }

  lemma InitProtocol(l: Layout, s: State)
    requires Init(l, s)
    ensures Protocol(s)
  {
    AllIdle(s.procs);
  }

  lemma {:induction false} AllIdle(ps: seq<Proc>)
    requires forall i :: 0 <= i < |ps| ==> ps[i] == Idle
    ensures Sum(ps, Weight) == 0 && Sum(ps, Unspent) == 0
  {
    if |ps| > 0 { AllIdle(ps[..|ps| - 1]); }
  }

  lemma BeginKeeps(l: Layout, s: State, s': State, p: nat)
    requires Protocol(s) && Next(l, s, s', BeginOk(p))
    ensures Protocol(s')
  {
    SumUpdate(s.procs, Weight, p, InOp({}, false));
    SumUpdate(s.procs, Unspent, p, InOp({}, false));
    SumBound(s.procs);
  }

  lemma SleepKeeps(l: Layout, s: State, s': State, p: nat)
    requires Protocol(s) && Next(l, s, s', BeginSleep(p))
    ensures Protocol(s')
  {
    SumUpdate(s.procs, Weight, p, Asleep);
    SumUpdate(s.procs, Unspent, p, Asleep);
    SumNonNegative(s.procs);
  }

  lemma CheckKeeps(l: Layout, s: State, s': State, p: nat)
    requires Protocol(s) && Next(l, s, s', Check(p))
    ensures Protocol(s')
  {
    SumUpdate(s.procs, Weight, p, s.procs[p].(checked := true));
    SumUpdate(s.procs, Unspent, p, s.procs[p].(checked := true));
  }

  lemma LogWriteKeeps(l: Layout, s: State, s': State, p: nat, b: int, x: Block)
    requires Protocol(s) && Next(l, s, s', LogWrite(p, b, x))
    ensures Protocol(s')
  {
    var q := InOp(s.procs[p].wrote + {b}, false);
    SumUpdate(s.procs, Weight, p, q);
    SumUpdate(s.procs, Unspent, p, q);
    SumWitness(s.procs, p);
    var w := s.procs[p].wrote;
    assert b !in s.lh ==> b !in w && |w + {b}| == |w| + 1;
    assert |w + {b}| >= |w| by {
      if b in w { assert w + {b} == w; }
    }
  }

  lemma EndOpKeeps(l: Layout, s: State, s': State, p: nat)
    requires Protocol(s) && Next(l, s, s', EndOp(p))
    // The "log.committing" panic of end_op is unreachable.
    ensures Protocol(s') && !s.committing
  {
    var q := if s.outstanding == 1 then Committer else Idle;
    SumWitness(s.procs, p);
    SumUpdate(s.procs, Weight, p, q);
    SumUpdate(s.procs, Unspent, p, q);
    if s.outstanding != 1 {
      SumSame(s.procs[p := q], s'.procs, Weight);
      SumSame(s.procs[p := q], s'.procs, Unspent);
    }
  }

  lemma {:induction false} NoneInOp(ps: seq<Proc>)
    ensures Sum(ps, Weight) == 0 ==> forall i :: 0 <= i < |ps| ==> !ps[i].InOp?
  {
    if i :| 0 <= i < |ps| && ps[i].InOp? { SumWitness(ps, i); }
  }

  lemma CommitDoneKeeps(l: Layout, s: State, s': State, p: nat)
    requires Protocol(s) && Next(l, s, s', CommitDone(p))
    ensures Protocol(s')
  {
    SumUpdate(s.procs, Weight, p, Idle);
    SumSame(s.procs[p := Idle], s'.procs, Weight);
    NoneInOp(s'.procs);
    SumBound(s'.procs);
  }

  /** Every step, a crash included, keeps the protocol invariant. */
  lemma ProtocolStep(l: Layout, s: State, s': State, step: Step)
    requires Protocol(s) && Next(l, s, s', step)
    ensures Protocol(s')
  {
    match step
    case BeginOk(p) => BeginKeeps(l, s, s', p);
    case BeginSleep(p) => SleepKeeps(l, s, s', p);
    case Check(p) => CheckKeeps(l, s, s', p);
    case LogWrite(p, b, x) => LogWriteKeeps(l, s, s', p, b, x);
    case EndOp(p) => EndOpKeeps(l, s, s', p);
    case CommitWrite(p) =>
    case CommitDone(p) => CommitDoneKeeps(l, s, s', p);
    case Crash => AllIdle(s'.procs);
    case RecoverWrite =>
    case RecoverDone =>
  }

  // ---- Nobody is stuck ----------------------------------------------------------

  /** While a commit runs there is one process that carries it out. */
  ghost predicate OneCommits(s: State) {
    && (forall i :: 0 <= i < |s.procs| && s.procs[i].Committer? ==> s.committing)
    && (forall i, j :: 0 <= i < |s.procs| && 0 <= j < |s.procs| && s.procs[i].Committer? && s.procs[j].Committer? ==>
          i == j)
    && (s.committing ==> exists i :: 0 <= i < |s.procs| && s.procs[i].Committer?)
  }

  lemma OneCommitsStep(l: Layout, s: State, s': State, step: Step)
    requires Protocol(s) && OneCommits(s) && Next(l, s, s', step)
    ensures OneCommits(s')
  {
    hide Room, Writes, CommitPoint, RecoveryTrace;
    if step.EndOp? {
      EndOpKeeps(l, s, s', step.p);
    }
    hide Protocol;
    if s.committing && s'.committing {
      var i :| 0 <= i < |s.procs| && s.procs[i].Committer?;
      assert s'.procs[i].Committer?;
    } else if s'.committing {
      assert s'.procs[step.p].Committer?;
    }
  }

  lemma {:induction false} OneCommitsHolds(l: Layout, ss: seq<State>, steps: seq<Step>, i: nat)
    requires Run(l, ss, steps) && i < |ss|
    ensures OneCommits(ss[i])
  {
    if i > 0 {
      OneCommitsHolds(l, ss, steps, i - 1);
      ProtocolHolds(l, ss, steps, i - 1);
      hide Init, Next, Protocol, OneCommits;
      OneCommitsStep(l, ss[i - 1], ss[i], steps[i - 1]);
    }
  }

  /** Process p carries out the commit that its end_op began. */
  ghost predicate Began(ss: seq<State>, steps: seq<Step>, k: nat, p: nat)
    requires |ss| == |steps| + 1 && k <= |steps|
  {
    exists j :: 0 <= j < k && steps[j] == EndOp(p) && ss[j].outstanding == 1
      && forall i :: j < i < k ==> !steps[i].CommitDone? && !steps[i].Crash?
  }

  lemma CommitterStep(l: Layout, s: State, s': State, step: Step, p: nat)
    requires Protocol(s) && OneCommits(s) && Next(l, s, s', step) && p < |s'.procs|
    ensures |s'.procs| == |s.procs|
    ensures s'.procs[p].Committer? ==>
              || (step == EndOp(p) && s.outstanding == 1)
              || (s.procs[p].Committer? && !step.CommitDone? && !step.Crash?)
    ensures step.CommitWrite? || step.CommitDone? ==> step.p < |s.procs| && s.procs[step.p].Committer?
  {
    hide Room, Writes, CommitPoint, RecoveryTrace, Protocol;
  }

  /** In every run, the block writes of a commit and its end are steps of the process whose end_op found no
      other operation in progress. */
  lemma {:induction false} CommitterBegan(l: Layout, ss: seq<State>, steps: seq<Step>, k: nat, p: nat)
    requires Run(l, ss, steps) && k <= |steps| && p < |ss[k].procs|
    ensures ss[k].procs[p].Committer? ==> Began(ss, steps, k, p)
    ensures k < |steps| && (steps[k].CommitWrite? || steps[k].CommitDone?) && steps[k].p == p ==> Began(ss, steps, k, p)
    decreases k
  {
    hide Next, Protocol, OneCommits;
    if k > 0 {
      hide Init;
      ProtocolHolds(l, ss, steps, k - 1);
      OneCommitsHolds(l, ss, steps, k - 1);
      CommitterStep(l, ss[k - 1], ss[k], steps[k - 1], p);
      CommitterBegan(l, ss, steps, k - 1, p);
      if ss[k].procs[p].Committer? {
        BeganNext(ss, steps, k, p);
      }
    }
    if k < |steps| && (steps[k].CommitWrite? || steps[k].CommitDone?) && steps[k].p == p {
      ProtocolHolds(l, ss, steps, k);
      OneCommitsHolds(l, ss, steps, k);
      SizeKept(l, ss[k], ss[k + 1], steps[k]);
      CommitterStep(l, ss[k], ss[k + 1], steps[k], p);
    }
  }

  lemma SizeKept(l: Layout, s: State, s': State, step: Step)
    requires Next(l, s, s', step)
    ensures |s'.procs| == |s.procs|
  {
    hide Room, Writes, CommitPoint, RecoveryTrace;
  }

  lemma BeganNext(ss: seq<State>, steps: seq<Step>, k: nat, p: nat)
    requires |ss| == |steps| + 1 && 0 < k <= |steps|
    requires (steps[k - 1] == EndOp(p) && ss[k - 1].outstanding == 1)
             || (Began(ss, steps, k - 1, p) && !steps[k - 1].CommitDone? && !steps[k - 1].Crash?)
    ensures Began(ss, steps, k, p)
  {
    if steps[k - 1] == EndOp(p) && ss[k - 1].outstanding == 1 {
    } else {
      var j :| 0 <= j < k - 1 && steps[j] == EndOp(p) && ss[j].outstanding == 1
        && forall i :: j < i < k - 1 ==> !steps[i].CommitDone? && !steps[i].Crash?;
      assert forall i :: j < i < k ==> !steps[i].CommitDone? && !steps[i].Crash?;
    }
  }

  /** A process sleeps from the begin_op that found no room until the next end of an operation or a commit. */
  lemma AsleepStep(l: Layout, s: State, s': State, step: Step, p: nat)
    requires Next(l, s, s', step) && p < |s.procs|
    ensures |s'.procs| == |s.procs|
    ensures s'.procs[p].Asleep? <==>
            || step == BeginSleep(p)
            || (s.procs[p].Asleep? && !step.CommitDone? && !step.Crash? && !(step.EndOp? && s.outstanding != 1))
  {
    hide Room, Writes, CommitPoint, RecoveryTrace;
  }

  /** Process p, awake, can take a step: begin_op goes on or sleeps as the log
      has room, an operation can end, and a commit can write its next block or
      be done. */
  lemma ProcMoves(l: Layout, s: State, p: nat) returns (step: Step, s': State)
    requires Protocol(s) && OneCommits(s) && Storage(l, s) && p < |s.procs|
    requires !s.phase.Recovering? && !s.procs[p].Asleep?
    ensures Next(l, s, s', step)
    ensures if s.procs[p].InOp? then step == EndOp(p)
            else if s.procs[p].Committer? then step == CommitWrite(p) || step == CommitDone(p)
            else if s.committing || |s.lh| + (s.outstanding + 1) * MAXOPBLOCKS > LOGSIZE then step == BeginSleep(p)
            else step == BeginOk(p)
  {
    hide Sum, CommitPoint, RecoveryTrace, Distinct;
    if s.procs[p].InOp? {
      step := EndOp(p);
      s' := if s.outstanding == 1
            then s.(procs := s.procs[p := Committer], outstanding := 0, committing := true,
                    phase := Committing(s.disk, 0))
            else s.(procs := Woken(s.procs[p := Idle]), outstanding := s.outstanding - 1);
    } else if s.procs[p].Committer? {
      if s.phase.k < Writes(s.lh) {
        step := CommitWrite(p);
        s' := s.(disk := CommitPoint(l, s.phase.base, s.lh, s.view, s.phase.k + 1),
                 phase := Committing(s.phase.base, s.phase.k + 1));
      } else {
        step := CommitDone(p);
        s' := s.(procs := Woken(s.procs[p := Idle]), committing := false, lh := [], phase := Running);
      }
    } else if s.committing || !Room(s) {
      step, s' := BeginSleep(p), s.(procs := s.procs[p := Asleep]);
    } else {
      step, s' := BeginOk(p), s.(procs := s.procs[p := InOp({}, false)], outstanding := s.outstanding + 1);
    }
  }

  /** log_write: the guard panics exactly at its limits, and past it any home block can be recorded with any
      contents, within MAXOPBLOCKS. */
  lemma OpMoves(l: Layout, s: State, p: nat, b: int, x: Block)
    requires Protocol(s) && p < |s.procs| && s.procs[p].InOp? && !s.phase.Recovering?
    ensures (exists s' :: Next(l, s, s', Check(p))) <==> |s.lh| < LOGSIZE && |s.lh| < l.size - 1
    ensures s.procs[p].checked && 0 <= b < |s.view| && !l.InLog(b) && |s.procs[p].wrote + {b}| <= MAXOPBLOCKS ==>
              exists s' :: Next(l, s, s', LogWrite(p, b, x))
  {
    SumWitness(s.procs, p);
    var q := s.procs[p];
    if |s.lh| < LOGSIZE && |s.lh| < l.size - 1 {
      assert Next(l, s, s.(procs := s.procs[p := q.(checked := true)]), Check(p));
    }
    if q.checked && 0 <= b < |s.view| && !l.InLog(b) && |q.wrote + {b}| <= MAXOPBLOCKS {
      var after := s.(procs := s.procs[p := InOp(q.wrote + {b}, false)],
                      lh := if b in s.lh then s.lh else s.lh + [b], view := s.view[b := x]);
      assert Next(l, s, after, LogWrite(p, b, x));
    }
  }

  /** Recovery can write its next block or be done. */
  lemma RecoveryMoves(l: Layout, s: State) returns (step: Step, s': State)
    requires Storage(l, s) && s.phase.Recovering?
    ensures Next(l, s, s', step) && (step == RecoverWrite || step == RecoverDone)
  {
    hide RecoveryTrace;
    if s.phase.k + 1 < |RecoveryTrace(l, s.phase.base)| {
      step := RecoverWrite;
      s' := s.(disk := RecoveryTrace(l, s.phase.base)[s.phase.k + 1],
               phase := Recovering(s.phase.base, s.phase.k + 1));
    } else {
      step, s' := RecoverDone, s.(view := s.disk, phase := Running);
    }
  }

  /** In every run, an awake process can move, and during recovery the machine
      can; a sleeper waits for a commit somebody carries out, or for room. */
  lemma NobodyStuck(l: Layout, ss: seq<State>, steps: seq<Step>, i: nat, p: nat) returns (step: Step, s': State)
    requires Run(l, ss, steps) && WithinLog(l, ss) && i < |ss| && p < |ss[i].procs|
    ensures if ss[i].procs[p].Asleep? then Next(l, ss[i], s', step) && !step.Crash? && step.EndOp? == !ss[i].committing
            else Next(l, ss[i], s', step) && !step.Crash? && (ss[i].phase.Recovering? || step.p == p)
  {
    hide Init, Next, Room, Writes;
    ProtocolHolds(l, ss, steps, i);
    OneCommitsHolds(l, ss, steps, i);
    var _ := DurableIsQuiescent(l, ss, steps, i);
    hide Run;
    if ss[i].phase.Recovering? {
      step, s' := RecoveryMoves(l, ss[i]);
    } else if !ss[i].procs[p].Asleep? {
      step, s' := ProcMoves(l, ss[i], p);
    } else if ss[i].committing {
      var c :| 0 <= c < |ss[i].procs| && ss[i].procs[c].Committer?;
      step, s' := ProcMoves(l, ss[i], c);
    } else {
      var q := SomeInOp(ss[i].procs);
      step, s' := ProcMoves(l, ss[i], q);
    }
  }

  lemma {:induction false} SomeInOp(ps: seq<Proc>) returns (i: nat)
    requires Sum(ps, Weight) > 0
    ensures i < |ps| && ps[i].InOp?
  {
    var n := |ps| - 1;
    if ps[n].InOp? {
      i := n;
    } else {
      i := SomeInOp(ps[..n]);
    }
  }

  // ---- Storage: the step system refines an atomic disk --------------------------

  ghost predicate Agree(l: Layout, d: Disk, view: Disk, lh: seq<int>) {
    && |d| == |view|
    && forall b :: 0 <= b < |d| && !l.InLog(b) && b !in lh ==> view[b] == d[b]
  }

  /** How disk, cache and header fit together in each phase, as long as the
      header has not outgrown the log slots. */
  ghost predicate Storage(l: Layout, s: State) {
    && l.Fits(s.disk) && |s.view| == |s.disk|
    && l.Loggable(s.disk, s.lh)
    && match s.phase
       case Running =>
         s.disk[l.start][0] == 0 && Agree(l, s.disk, s.view, s.lh)
       case Committing(base, k) =>
         && |base| == |s.disk| && base[l.start][0] == 0 && Agree(l, base, s.view, s.lh)
         && k <= Writes(s.lh) && s.disk == CommitPoint(l, base, s.lh, s.view, k)
       case Recovering(base, k) =>
         && s.lh == []
         && |base| == |s.disk| && l.HeaderOk(base)
         && k < |RecoveryTrace(l, base)| && s.disk == RecoveryTrace(l, base)[k]
  }

  lemma StorageHeader(l: Layout, s: State)
    requires Storage(l, s)
    ensures l.HeaderOk(s.disk)
    ensures match s.phase
            case Running => Recovered(l, s.disk) == s.disk
            case Committing(base, k) =>
              SameHome(l, Recovered(l, s.disk),
                       if k <= |s.lh| then base else Applied(base, s.lh, s.view))
            case Recovering(base, k) => Recovered(l, s.disk) == Recovered(l, base)
  {
    hide CommitTrace, CommitPoint, Installed;
    match s.phase
    case Running => RecoveredKeepsClear(l, s.disk);
    case Committing(base, k) => CommitAtomic(l, base, s.lh, s.view, k);
    case Recovering(base, k) => RecoveryIdempotent(l, base, k);
  }

  /** What a crash now, followed by recovery, would leave. */
  ghost function Durable(l: Layout, s: State): Disk
    requires Storage(l, s)
  {
    StorageHeader(l, s);
    Recovered(l, s.disk)
  }

  /** What operations read; while recovery runs there are none, and what they
      will read is what recovery leaves. */
  ghost function Seen(l: Layout, s: State): Disk
    requires Storage(l, s)
  {
    if s.phase.Recovering? then Durable(l, s) else s.view
  }

  ghost predicate Stutters(l: Layout, s: State, s': State)
    requires Storage(l, s) && Storage(l, s')
  {
    SameHome(l, Durable(l, s'), Durable(l, s)) && SameHome(l, Seen(l, s'), Seen(l, s))
  }

  /** The one step that is a commit: the header write of a transaction. */
  predicate IsCommit(s: State, step: Step) {
    step.CommitWrite? && s.phase.Committing? && s.phase.k == |s.lh|
  }

  /** The atomic disk: an operation's write changes what is seen and nothing
      durable; a commit makes durable exactly what is seen, and no operation is
      in progress; a crash makes seen what was durable; nothing else shows. */
  ghost predicate Refines(l: Layout, s: State, s': State, step: Step)
    requires Storage(l, s) && Storage(l, s')
  {
    if step.LogWrite? then
      && s.outstanding > 0
      && SameHome(l, Durable(l, s'), Durable(l, s))
      && 0 <= step.b < |s.view| && Seen(l, s') == Seen(l, s)[step.b := step.x]
    else if IsCommit(s, step) then
      && s.outstanding == 0
      && SameHome(l, Durable(l, s'), Seen(l, s)) && SameHome(l, Seen(l, s'), Seen(l, s))
    else if step.Crash? then
      && SameHome(l, Durable(l, s'), Durable(l, s)) && SameHome(l, Seen(l, s'), Durable(l, s))
    else
      Stutters(l, s, s')
  }

  lemma AppliedIsView(l: Layout, d: Disk, lh: seq<int>, view: Disk)
    requires Agree(l, d, view, lh)
    ensures SameHome(l, Applied(d, lh, view), view)
  {
  }

  lemma CommitWriteStores(l: Layout, s: State, s': State, p: nat)
    requires Protocol(s) && Storage(l, s) && Next(l, s, s', CommitWrite(p))
    ensures Storage(l, s') && Refines(l, s, s', CommitWrite(p))
  {
    hide CommitPoint, Recovered;
    CommitDurable(l, s);
    CommitDurable(l, s');
  }

  /** During a commit the durable disk is the old one up to the header write
      and the cached one from then on. */
  lemma CommitDurable(l: Layout, s: State)
    requires Storage(l, s) && s.phase.Committing?
    ensures SameHome(l, Durable(l, s), if s.phase.k <= |s.lh| then s.phase.base else s.view)
  {
    StorageHeader(l, s);
    AppliedIsView(l, s.phase.base, s.lh, s.view);
  }

  lemma CommitDoneStores(l: Layout, s: State, s': State, p: nat)
    requires Protocol(s) && Storage(l, s) && Next(l, s, s', CommitDone(p))
    ensures Storage(l, s') && Refines(l, s, s', CommitDone(p))
  {
    StorageHeader(l, s);
    AppliedIsView(l, s.phase.base, s.lh, s.view);
    if |s.lh| > 0 {
      CommitCompletes(l, s.phase.base, s.lh, s.view);
    }
    StorageHeader(l, s');
  }

  lemma CrashStores(l: Layout, s: State, s': State)
    requires Storage(l, s) && Next(l, s, s', Crash)
    ensures Storage(l, s') && Refines(l, s, s', Crash)
  {
    hide CommitPoint, RecoveryTrace, InstallTrace, Recovered;
    StorageHeader(l, s);
    RecoveryTraceParts(l, s.disk);
    StorageHeader(l, s);
    StorageHeader(l, s');
  }

  lemma RecoverWriteStores(l: Layout, s: State, s': State)
    requires Storage(l, s) && Next(l, s, s', RecoverWrite)
    ensures Storage(l, s') && Refines(l, s, s', RecoverWrite)
  {
    StorageHeader(l, s);
    StorageHeader(l, s');
  }

  lemma RecoverDoneStores(l: Layout, s: State, s': State)
    requires Storage(l, s) && Next(l, s, s', RecoverDone)
    ensures Storage(l, s') && Refines(l, s, s', RecoverDone)
  {
    StorageHeader(l, s);
    assert s.disk == Recovered(l, s.phase.base);
    StorageHeader(l, s');
  }

  lemma LogWriteStores(l: Layout, s: State, s': State, p: nat, b: int, x: Block)
    requires Protocol(s) && Storage(l, s) && Next(l, s, s', LogWrite(p, b, x))
    requires |s'.lh| <= l.size - 1
    ensures Storage(l, s') && Refines(l, s, s', LogWrite(p, b, x))
  {
    SumWitness(s.procs, p);
    LogWriteKeeps(l, s, s', p, b, x);
    SumBound(s'.procs);
  }

  lemma EndOpStores(l: Layout, s: State, s': State, p: nat)
    requires Protocol(s) && Storage(l, s) && Next(l, s, s', EndOp(p))
    ensures Storage(l, s') && Refines(l, s, s', EndOp(p))
  {
    EndOpKeeps(l, s, s', p);
    SumWitness(s.procs, p);
  }

  /** Every step that does not overflow the log keeps the storage invariant and
      is a step of the atomic disk. */
  lemma StorageStep(l: Layout, s: State, s': State, step: Step)
    requires Protocol(s) && Storage(l, s) && Next(l, s, s', step)
    requires |s'.lh| <= l.size - 1
    ensures Storage(l, s') && Refines(l, s, s', step)
  {
    match step
    case BeginOk(p) =>
    case BeginSleep(p) =>
    case Check(p) =>
    case LogWrite(p, b, x) => LogWriteStores(l, s, s', p, b, x);
    case EndOp(p) => EndOpStores(l, s, s', p);
    case CommitWrite(p) => CommitWriteStores(l, s, s', p);
    case CommitDone(p) => CommitDoneStores(l, s, s', p);
    case Crash => CrashStores(l, s, s');
    case RecoverWrite => RecoverWriteStores(l, s, s');
    case RecoverDone => RecoverDoneStores(l, s, s');
  }

  // ---- Whole runs ---------------------------------------------------------------

  ghost predicate Run(l: Layout, ss: seq<State>, steps: seq<Step>) {
    && |ss| == |steps| + 1
    && Init(l, ss[0])
    && forall i :: 0 <= i < |steps| ==> Next(l, ss[i], ss[i + 1], steps[i])
  }

  /** The log slots were never outgrown. */
  ghost predicate WithinLog(l: Layout, ss: seq<State>) {
    forall i :: 0 <= i < |ss| ==> |ss[i].lh| <= l.size - 1
  }

  /** Over every interleaving and every pattern of crashes the protocol
      invariant holds in every state. */
  lemma {:induction false} ProtocolHolds(l: Layout, ss: seq<State>, steps: seq<Step>, i: nat)
    requires Run(l, ss, steps) && i < |ss|
    ensures Protocol(ss[i])
  {
    if i == 0 {
      InitProtocol(l, ss[0]);
    } else {
      ProtocolHolds(l, ss, steps, i - 1);
      ProtocolStep(l, ss[i - 1], ss[i], steps[i - 1]);
    }
  }

  lemma InitStores(l: Layout, s: State)
    requires Init(l, s)
    ensures Storage(l, s) && SameHome(l, Durable(l, s), Seen(l, s)) && s.outstanding == 0
  {
    StorageHeader(l, s);
  }

  lemma DurableStep(l: Layout, q: State, s: State, s': State, step: Step)
    requires Storage(l, q) && Storage(l, s) && Storage(l, s') && Refines(l, s, s', step)
    requires SameHome(l, Durable(l, s), Seen(l, q))
    ensures if IsCommit(s, step) then s.outstanding == 0 && SameHome(l, Durable(l, s'), Seen(l, s))
            else SameHome(l, Durable(l, s'), Seen(l, q))
  {
  }

  /** ss[j] is what the last commit before ss[i] committed, or the start if there was none. */
  ghost predicate LastCommit(ss: seq<State>, steps: seq<Step>, j: nat, i: nat) {
    && j <= i < |ss| == |steps| + 1
    && (j == 0 || (j < i && IsCommit(ss[j], steps[j])))
    && forall k :: j < k < i ==> !IsCommit(ss[k], steps[k])
  }

  /** Crash atomicity over whole runs: in every state, what a crash followed by
      any number of interrupted recoveries would leave is exactly what
      operations saw when the last commit took place, with no operation in progress. */
  lemma {:induction false} DurableIsQuiescent(l: Layout, ss: seq<State>, steps: seq<Step>, i: nat)
    returns (j: nat)
    requires Run(l, ss, steps) && WithinLog(l, ss) && i < |ss|
    ensures LastCommit(ss, steps, j, i) && Storage(l, ss[i]) && Storage(l, ss[j]) && ss[j].outstanding == 0
    ensures SameHome(l, Durable(l, ss[i]), Seen(l, ss[j]))
  {
    hide Init, Next, Protocol, Storage, Durable, Seen, SameHome, Refines, IsCommit;
    if i == 0 {
      j := 0;
      InitStores(l, ss[0]);
    } else {
      j := DurableIsQuiescent(l, ss, steps, i - 1);
      ProtocolHolds(l, ss, steps, i - 1);
      StorageStep(l, ss[i - 1], ss[i], steps[i - 1]);
      DurableStep(l, ss[j], ss[i - 1], ss[i], steps[i - 1]);
      if IsCommit(ss[i - 1], steps[i - 1]) {
        j := i - 1;
      }
    }
  }

  /** The log slots cannot be outgrown when the log has a slot for each of the
      LOGSIZE blocks that begin_op reserves against. */
  lemma LargeLogSuffices(l: Layout, ss: seq<State>, steps: seq<Step>)
    requires Run(l, ss, steps) && LOGSIZE <= l.size - 1
    ensures WithinLog(l, ss)
  {
    forall i | 0 <= i < |ss| ensures |ss[i].lh| <= l.size - 1 {
      ProtocolHolds(l, ss, steps, i);
      SumBound(ss[i].procs);
    }
  }
}
