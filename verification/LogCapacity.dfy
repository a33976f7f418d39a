/** When can the in-memory header outgrow the log? begin_op reserves against
    LOGSIZE, the slots number size - 1, and log_write tests before it locks. */
module LogCapacity {
  import opened Common
  import opened LogDisk
  import opened GroupCommit

  /** s ends some run that started on disk d. */
  ghost predicate Reached(l: Layout, d: Disk, s: State) {
    exists ss: seq<State>, steps: seq<Step> :: Run(l, ss, steps) && ss[0].disk == d && ss[|ss| - 1] == s
  }

  lemma ReachStep(l: Layout, d: Disk, s: State, s': State, step: Step)
    requires Reached(l, d, s) && Next(l, s, s', step)
    ensures Reached(l, d, s')
  {
    hide Next, Init;
    var ss: seq<State>, steps: seq<Step> :| Run(l, ss, steps) && ss[0].disk == d && ss[|ss| - 1] == s;
    var tt, more := ss + [s'], steps + [step];
    forall i | 0 <= i < |more| ensures Next(l, tt[i], tt[i + 1], more[i]) {
      if i < |steps| { assert Next(l, ss[i], ss[i + 1], steps[i]); }
    }
    assert Run(l, tt, more);
  }

  /** The i-th of the home blocks that follow the log. */
  function After(l: Layout, i: nat): nat {
    l.start + l.size + i
  }

  /** Three operations have together logged the first m blocks after the log,
      taking turns, and none of them is past the guard. */
  ghost predicate Filled(l: Layout, d: Disk, s: State, m: nat) {
    && |s.procs| == 3 && s.outstanding == 3 && !s.committing && s.phase == Running
    && (forall j :: 0 <= j < 3 ==>
          s.procs[j].InOp? && !s.procs[j].checked && |s.procs[j].wrote| == (m + 2 - j) / 3)
    && |s.lh| == m && (forall i :: 0 <= i < m ==> s.lh[i] == After(l, i))
    && |s.view| == |d|
  }

  lemma InitReached(l: Layout, s: State)
    requires Init(l, s)
    ensures Reached(l, s.disk, s)
  {
    assert Run(l, [s], []);
  }

  lemma BeginThree(l: Layout, d: Disk) returns (s: State)
    requires l.Fits(d) && d[l.start][0] == 0
    ensures Reached(l, d, s) && Filled(l, d, s, 0)
  {
    s := State([Idle, Idle, Idle], 0, false, [], d, d, Running);
    InitReached(l, s);
    var op := InOp({}, false);
    var s1 := s.(procs := s.procs[0 := op], outstanding := 1);
    ReachStep(l, d, s, s1, BeginOk(0));
    var s2 := s1.(procs := s1.procs[1 := op], outstanding := 2);
    ReachStep(l, d, s1, s2, BeginOk(1));
    s := s2.(procs := s2.procs[2 := op], outstanding := 3);
    ReachStep(l, d, s2, s, BeginOk(2));
  }

  function Checked(s: State, p: nat): State
    requires p < |s.procs| && s.procs[p].InOp?
  {
    s.(procs := s.procs[p := s.procs[p].(checked := true)])
  }

  function Written(s: State, p: nat, b: nat, x: Block): State
    requires p < |s.procs| && s.procs[p].InOp? && b < |s.view|
  {
    s.(procs := s.procs[p := InOp(s.procs[p].wrote + {b}, false)],
       lh := if b in s.lh then s.lh else s.lh + [b], view := s.view[b := x])
  }

  lemma Pass(l: Layout, d: Disk, s: State, p: nat)
    requires Reached(l, d, s) && p < |s.procs| && s.procs[p].InOp? && s.phase == Running
    requires |s.lh| < LOGSIZE && |s.lh| < l.size - 1 && s.outstanding >= 1
    ensures Reached(l, d, Checked(s, p))
  {
    hide Reached;
    ReachStep(l, d, s, Checked(s, p), Check(p));
  }

  lemma Record(l: Layout, d: Disk, s: State, p: nat, b: nat, x: Block)
    requires Reached(l, d, s) && p < |s.procs| && s.procs[p].InOp? && s.phase == Running
    requires s.procs[p].checked && b < |s.view| && !l.InLog(b)
    requires |s.procs[p].wrote + {b}| <= MAXOPBLOCKS
    ensures Reached(l, d, Written(s, p, b, x))
  {
    hide Reached;
    ReachStep(l, d, s, Written(s, p, b, x), LogWrite(p, b, x));
  }

  lemma {:induction false} Fill(l: Layout, d: Disk, m: nat) returns (s: State)
    requires l.Fits(d) && d[l.start][0] == 0 && After(l, LOGSIZE) <= |d|
    requires m < l.size && m < LOGSIZE
    ensures Reached(l, d, s) && Protocol(s) && Filled(l, d, s, m)
  {
    hide Reached, Protocol, Filled;
    if m == 0 {
      s := BeginThree(l, d);
    } else {
      var r := Fill(l, d, m - 1);
      s := FillOne(l, d, r, m - 1);
    }
    ReachedProtocol(l, d, s);
  }

  lemma FillOne(l: Layout, d: Disk, r: State, m: nat) returns (s: State)
    requires l.Fits(d) && After(l, LOGSIZE) <= |d| && m + 1 < l.size && m + 1 < LOGSIZE
    requires Reached(l, d, r) && Protocol(r) && Filled(l, d, r, m)
    ensures Reached(l, d, s) && Filled(l, d, s, m + 1)
  {
    hide Reached, Protocol;
    var p, b := m % 3, After(l, m);
    var c := Checked(r, p);
    Pass(l, d, r, p);
    FreshBlock(l, d, r, m, p);
    s := Written(c, p, b, d[0]);
    Record(l, d, c, p, b, d[0]);
    TurnTaken(l, d, r, s, m);
  }

  lemma ReachedProtocol(l: Layout, d: Disk, s: State)
    requires Reached(l, d, s)
    ensures Protocol(s)
  {
    var ss: seq<State>, steps: seq<Step> :| Run(l, ss, steps) && ss[0].disk == d && ss[|ss| - 1] == s;
    ProtocolHolds(l, ss, steps, |ss| - 1);
  }

  lemma FreshBlock(l: Layout, d: Disk, s: State, m: nat, p: nat)
    requires Protocol(s) && Filled(l, d, s, m) && p < 3
    ensures After(l, m) !in s.lh && After(l, m) !in s.procs[p].wrote
    ensures |s.procs[p].wrote + {After(l, m)}| == (m + 2 - p) / 3 + 1
  {
  }

  lemma TurnTaken(l: Layout, d: Disk, r: State, s: State, m: nat)
    requires Protocol(r) && Filled(l, d, r, m) && After(l, m) < |d|
    requires s == Written(Checked(r, m % 3), m % 3, After(l, m), d[0])
    ensures Filled(l, d, s, m + 1)
  {
    hide Protocol;
    FreshBlock(l, d, r, m, m % 3);
    forall j | 0 <= j < 3
      ensures s.procs[j].InOp? && !s.procs[j].checked && |s.procs[j].wrote| == (m + 3 - j) / 3
    {
      if j != m % 3 { assert s.procs[j] == r.procs[j]; }
    }
  }

  /** Two operations pass the guard together when one slot is left, and both
      record their block: one block more than the slots. */
  lemma Overflow(l: Layout, d: Disk) returns (s: State)
    requires l.Fits(d) && d[l.start][0] == 0 && After(l, LOGSIZE) <= |d|
    requires 2 <= l.size <= LOGSIZE
    ensures Reached(l, d, s) && |s.lh| > l.size - 1
  {
    hide Reached, Protocol;
    var m := l.size - 2;
    var r := Fill(l, d, m);
    s := BothWrite(l, d, r, m, m % 3, (m + 1) % 3);
  }

  /** Two operations pass the guard and then both record a block. */
  lemma BothWrite(l: Layout, d: Disk, r: State, m: nat, p: nat, q: nat) returns (s: State)
    requires l.Fits(d) && After(l, LOGSIZE) <= |d| && m + 2 == l.size <= LOGSIZE
    requires Reached(l, d, r) && Protocol(r) && Filled(l, d, r, m) && p == m % 3 && q == (m + 1) % 3
    ensures Reached(l, d, s) && |s.lh| > l.size - 1
  {
    hide Reached, Protocol;
    FreshBlock(l, d, r, m, p);
    SecondFresh(l, d, r, m, q);
    var r1 := Checked(r, p);
    Pass(l, d, r, p);
    var r2 := Checked(r1, q);
    Pass(l, d, r1, q);
    assert r2.procs[p] == r.procs[p].(checked := true) && r2.procs[q] == r.procs[q].(checked := true);
    var r3 := Written(r2, p, After(l, m), d[0]);
    Record(l, d, r2, p, After(l, m), d[0]);
    assert r3.procs[q] == r2.procs[q] && r3.lh == r.lh + [After(l, m)];
    s := Written(r3, q, After(l, m + 1), d[0]);
    Record(l, d, r3, q, After(l, m + 1), d[0]);
  }

  lemma SecondFresh(l: Layout, d: Disk, s: State, m: nat, q: nat)
    requires Protocol(s) && Filled(l, d, s, m) && q == (m + 1) % 3
    ensures After(l, m + 1) !in s.lh + [After(l, m)]
    ensures |s.procs[q].wrote + {After(l, m + 1)}| == (m + 2 - q) / 3 + 1
  {
  }

  // ---- How far it can go ----------------------------------------------------------

  /** Past the guard of log_write, with the block still to record. */
  function Passed(p: Proc): int { if p.InOp? && p.checked then 1 else 0 }

  /** The blocks recorded, with those that processes past the guard will record. */
  ghost predicate Bounded(l: Layout, s: State) {
    && s.outstanding * MAXOPBLOCKS <= LOGSIZE && Sum(s.procs, Passed) <= Sum(s.procs, Weight)
    && |s.lh| + Sum(s.procs, Passed) <= l.size + 1
  }

  lemma {:induction false} PassedFewer(ps: seq<Proc>)
    ensures 0 <= Sum(ps, Passed) <= Sum(ps, Weight)
  {
    if |ps| > 0 { PassedFewer(ps[..|ps| - 1]); }
  }

  lemma {:induction false} NonePassed(ps: seq<Proc>)
    requires forall i :: 0 <= i < |ps| ==> !ps[i].InOp?
    ensures Sum(ps, Passed) == 0
  {
    if |ps| > 0 { NonePassed(ps[..|ps| - 1]); }
  }

  lemma BoundedStep(l: Layout, s: State, s': State, step: Step)
    requires l.size >= 1 && Protocol(s) && Bounded(l, s) && Next(l, s, s', step)
    ensures Bounded(l, s')
  {
    PassedFewer(s'.procs);
    ProtocolStep(l, s, s', step);
    match step
    case BeginOk(p) => SumUpdate(s.procs, Passed, p, InOp({}, false));
    case BeginSleep(p) => SumUpdate(s.procs, Passed, p, Asleep);
    case Check(p) => SumUpdate(s.procs, Passed, p, s.procs[p].(checked := true));
    case LogWrite(p, b, x) => SumUpdate(s.procs, Passed, p, InOp(s.procs[p].wrote + {b}, false));
    case EndOp(p) =>
      var q := if s.outstanding == 1 then Committer else Idle;
      SumUpdate(s.procs, Passed, p, q);
      if s.outstanding != 1 {
        SumSame(s.procs[p := q], s'.procs, Passed);
      }
    case CommitDone(p) =>
      SumUpdate(s.procs, Passed, p, Idle);
      SumSame(s.procs[p := Idle], s'.procs, Passed);
    case Crash => NonePassed(s'.procs);
    case _ =>
  }

  /** The guard of log_write keeps the header within two blocks of the slots, as at most three operations
      are in progress at once. */
  lemma AtMostTwoOver(l: Layout, ss: seq<State>, steps: seq<Step>, i: nat)
    requires Run(l, ss, steps) && i < |ss| && l.size >= 1
    ensures |ss[i].lh| <= l.size - 1 + 2 && ss[i].outstanding * MAXOPBLOCKS <= LOGSIZE
  {
    hide Run, Sum;
    BoundedHolds(l, ss, steps, i);
    PassedFewer(ss[i].procs);
  }

  lemma {:induction false} BoundedHolds(l: Layout, ss: seq<State>, steps: seq<Step>, i: nat)
    requires Run(l, ss, steps) && i < |ss| && l.size >= 1
    ensures Bounded(l, ss[i])
  {
    hide Init, Next, Protocol, Bounded;
    if i == 0 {
      InitBounded(l, ss[0]);
    } else {
      BoundedHolds(l, ss, steps, i - 1);
      ProtocolHolds(l, ss, steps, i - 1);
      BoundedStep(l, ss[i - 1], ss[i], steps[i - 1]);
    }
  }

  lemma InitBounded(l: Layout, s: State)
    requires Init(l, s)
    ensures Bounded(l, s)
  {
    PassedFewer(s.procs);
    NonePassed(s.procs);
  }

  /** No run on disk d outgrows the log exactly when the log has a slot for
      each of the LOGSIZE blocks reserved; mkfs lays out one slot fewer. */
  lemma WithinLogExactly(l: Layout, d: Disk)
    requires l.Fits(d) && d[l.start][0] == 0 && After(l, LOGSIZE) <= |d| && l.size >= 2
    ensures (forall ss: seq<State>, steps: seq<Step> :: Run(l, ss, steps) && ss[0].disk == d ==> WithinLog(l, ss))
       <==> LOGSIZE <= l.size - 1
  {
    hide Init, Next;
    if LOGSIZE <= l.size - 1 {
      forall ss: seq<State>, steps: seq<Step> | Run(l, ss, steps) && ss[0].disk == d ensures WithinLog(l, ss) {
        LargeLogSuffices(l, ss, steps);
      }
    } else {
      var s := Overflow(l, d);
      var ss: seq<State>, steps: seq<Step> :| Run(l, ss, steps) && ss[0].disk == d && ss[|ss| - 1] == s;
      assert !WithinLog(l, ss);
    }
  }
}
