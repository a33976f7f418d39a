/** proc.c: what sleep, wakeup, kill, fork and wait amount to over a whole run, told by the
    steps taken and not by the fields they set. */
module ProcHistory {
  import opened Common
  import opened Proc
  import opened ProcFamily

  // ---- Sleeping ---------------------------------------------------------------------------

  /** Step e, taken in s, puts process p to sleep on ch. */
  predicate FallsAsleep(s: State, e: Step, p: nat, ch: Chan) {
    && (e.Sleep? || e.WaitSleep?) && e.c < |s.cpus| && s.cpus[e.c] == Some(p)
    && ch == if e.Sleep? then Other(e.addr) else OfProc(p)
  }

  /** Step e, taken in s, ends the sleep of process p on ch: a kill of p, a wakeup of ch, or the
      exit of a child of the process that ch stands for, or of a process that leaves init a zombie. */
  predicate Wakes(s: State, e: Step, p: nat, ch: Chan) {
    match e
    case Kill(q) => q == p
    case Wakeup(addr) => ch == Other(addr)
    case Exit(c) =>
      var q := Cur(s, c);
      ch.OfProc? && q < |s.procs|
      && (s.procs[q].parent == Some(ch.p) || (ch.p == s.initproc && HasZombie(s, q)))
    case _ => false
  }

  lemma AsleepSame(s: State, t: State, p: nat, q: nat, r: Process, ch: Chan)
    requires p < |s.procs| && q < |s.procs| && t.procs == s.procs[q := r]
    requires !s.procs[q].state.SLEEPING? && !r.state.SLEEPING?
    ensures SleepsOn(t.procs[p], ch) <==> SleepsOn(s.procs[p], ch)
  {
  }

  lemma AsleepSched(s: State, t: State, e: Step, p: nat, ch: Chan)
    requires AllPlaced(s) && Scheduled(s) && SchedStep(s, t, e) && p < |s.procs|
    ensures |t.procs| == |s.procs| && (SleepsOn(t.procs[p], ch) <==> SleepsOn(s.procs[p], ch))
  {
    hide AllPlaced, Scheduled, SleepsOn;
    match e
    case SchedPick(c, q) => AsleepSame(s, t, p, q, t.procs[q], ch);
    case Resume(c) => AsleepSame(s, t, p, Cur(s, c), t.procs[Cur(s, c)], ch);
    case Yield(c) =>
      LooseRunning(s, c);
      AsleepSame(s, t, p, Cur(s, c), t.procs[Cur(s, c)], ch);
    case _ =>
  }

  lemma LooseRunning(s: State, c: nat)
    requires Scheduled(s) && On(s, c, Cur(s, c)) && s.lock == None
    ensures s.procs[Cur(s, c)].state.RUNNING?
  {
  }

  lemma AsleepSleep(s: State, t: State, e: Step, p: nat, ch: Chan)
    requires Scheduled(s) && SleepStep(s, t, e) && p < |s.procs|
    ensures |t.procs| == |s.procs|
    ensures SleepsOn(t.procs[p], ch) <==> FallsAsleep(s, e, p, ch) || (SleepsOn(s.procs[p], ch) && !Wakes(s, e, p, ch))
  {
    if e.Sleep? {
      LooseRunning(s, e.c);
    }
    hide Scheduled;
  }

  lemma AsleepFork(s: State, t: State, e: Step, p: nat, ch: Chan)
    requires AllPlaced(s) && Scheduled(s) && Forks(s) && ForkStep(s, t, e) && p < |s.procs|
    ensures |t.procs| == |s.procs| && (SleepsOn(t.procs[p], ch) <==> SleepsOn(s.procs[p], ch))
  {
    CurRunning(s, t, e);
    var q := Cur(s, e.c);
    assert !e.Alloc? ==> IsForking(s.procs[q].pc, s.procs[q].pc.np, s.procs[q].pc.linked);
    hide AllPlaced, Scheduled, Forks;
  }

  lemma AsleepExit(s: State, t: State, e: Step, p: nat, ch: Chan)
    requires AllPlaced(s) && Scheduled(s) && ExitStep(s, t, e) && p < |s.procs|
    ensures |t.procs| == |s.procs|
    ensures SleepsOn(t.procs[p], ch) <==> FallsAsleep(s, e, p, ch) || (SleepsOn(s.procs[p], ch) && !Wakes(s, e, p, ch))
  {
    CurRunning(s, t, e);
    hide AllPlaced, Scheduled, HasKid;
    if e.Exit? {
      hide HasZombie;
      ExitSleeper(s, t, e.c, p, ch);
    }
  }

  lemma ExitSleeper(s: State, t: State, c: nat, p: nat, ch: Chan)
    requires ExitStep(s, t, Exit(c)) && p < |s.procs| && s.procs[Cur(s, c)].state.RUNNING?
    ensures SleepsOn(t.procs[p], ch) <==> SleepsOn(s.procs[p], ch) && !Wakes(s, Exit(c), p, ch)
  {
    hide Orphans, HasZombie;
    var q := Cur(s, c);
    var woken := if s.procs[q].parent.Some? then WakeAll(s.procs, OfProc(s.procs[q].parent.value)) else s.procs;
    OrphansSame(s.procs, woken, q);
    OrphansAre(s, q);
  }

  lemma OrphansAre(s: State, q: nat)
    ensures Orphans(s.procs, q) <==> HasZombie(s, q)
  {
  }

  lemma AsleepStep(s: State, t: State, e: Step, p: nat, ch: Chan)
    requires Inv(s) && Next(s, t, e) && p < |s.procs|
    ensures |t.procs| == |s.procs|
    ensures SleepsOn(t.procs[p], ch) <==> FallsAsleep(s, e, p, ch) || (SleepsOn(s.procs[p], ch) && !Wakes(s, e, p, ch))
  {
    hide AllPlaced, Scheduled, Forks, Kin, SleepsOn;
    if SchedStep(s, t, e) {
      AsleepSched(s, t, e, p, ch);
    } else if SleepStep(s, t, e) {
      AsleepSleep(s, t, e, p, ch);
    } else if ForkStep(s, t, e) {
      AsleepFork(s, t, e, p, ch);
    } else {
      AsleepExit(s, t, e, p, ch);
    }
  }

  /** One of the first k steps put p to sleep on ch, and none after it ended that sleep. */
  ghost predicate StillAsleep(ss: seq<State>, es: seq<Step>, k: nat, p: nat, ch: Chan)
    requires |ss| == |es| + 1 && k <= |es|
  {
    exists i :: 0 <= i < k && FallsAsleep(ss[i], es[i], p, ch) && forall j :: i < j < k ==> !Wakes(ss[j], es[j], p, ch)
  }

  lemma StillNext(ss: seq<State>, es: seq<Step>, k: nat, p: nat, ch: Chan)
    requires |ss| == |es| + 1 && 0 < k <= |es|
    ensures StillAsleep(ss, es, k, p, ch) <==>
            FallsAsleep(ss[k - 1], es[k - 1], p, ch)
            || (StillAsleep(ss, es, k - 1, p, ch) && !Wakes(ss[k - 1], es[k - 1], p, ch))
  {
    hide FallsAsleep, Wakes;
    if StillAsleep(ss, es, k - 1, p, ch) && !Wakes(ss[k - 1], es[k - 1], p, ch) {
      var i :| 0 <= i < k - 1 && FallsAsleep(ss[i], es[i], p, ch)
        && forall j :: i < j < k - 1 ==> !Wakes(ss[j], es[j], p, ch);
      assert forall j :: i < j < k ==> !Wakes(ss[j], es[j], p, ch);
    }
  }

  /** In every run, a process sleeps on a channel exactly from the sleep that named it until the
      first wakeup of that channel or kill of the process. */
  lemma {:induction false} AsleepExactly(ss: seq<State>, es: seq<Step>, k: nat, p: nat, ch: Chan)
    requires Run(ss, es) && k <= |es| && p < |ss[0].procs|
    ensures |ss[k].procs| == |ss[0].procs|
    ensures SleepsOn(ss[k].procs[p], ch) <==> StillAsleep(ss, es, k, p, ch)
    decreases k
  {
    hide Inv, Next, StillAsleep, FallsAsleep, Wakes;
    if k == 0 {
      NoneAsleep(ss, es, p, ch);
    } else {
      hide Init, SleepsOn;
      AsleepExactly(ss, es, k - 1, p, ch);
      Kept(ss, es, k - 1);
      AsleepStep(ss[k - 1], ss[k], es[k - 1], p, ch);
      StillNext(ss, es, k, p, ch);
    }
  }

  lemma NoneAsleep(ss: seq<State>, es: seq<Step>, p: nat, ch: Chan)
    requires |ss| == |es| + 1
    ensures !StillAsleep(ss, es, 0, p, ch)
  {
  }

  // ---- Being killed -------------------------------------------------------------------------

  ghost predicate KilledSince(es: seq<Step>, k: nat, p: nat)
    requires k <= |es|
  {
    exists i :: 0 <= i < k && es[i] == Kill(p) && forall j :: i < j < k ==> !(es[j].WaitReap? && es[j].z == p)
  }

  lemma KilledNext(es: seq<Step>, k: nat, p: nat)
    requires 0 < k <= |es|
    ensures KilledSince(es, k, p) <==>
            es[k - 1] == Kill(p) || (KilledSince(es, k - 1, p) && !(es[k - 1].WaitReap? && es[k - 1].z == p))
  {
    if KilledSince(es, k - 1, p) && !(es[k - 1].WaitReap? && es[k - 1].z == p) {
      var i :| 0 <= i < k - 1 && es[i] == Kill(p) && forall j :: i < j < k - 1 ==> !(es[j].WaitReap? && es[j].z == p);
      assert forall j :: i < j < k ==> !(es[j].WaitReap? && es[j].z == p);
    }
  }

  /** exit leaves pids and killed flags alone and hands p's children to init. */
  lemma ExitFields(s: State, t: State, c: nat, p: nat)
    requires ExitStep(s, t, Exit(c)) && p < |s.procs|
    ensures |t.procs| == |s.procs| && t.procs[p].killed == s.procs[p].killed && t.procs[p].pid == s.procs[p].pid
    ensures t.procs[p].parent == if s.procs[p].parent == Some(Cur(s, c)) then Some(s.initproc) else s.procs[p].parent
  {
    hide Orphans;
  }

  lemma KilledStep(s: State, t: State, e: Step, p: nat)
    requires Next(s, t, e) && p < |s.procs|
    ensures |t.procs| == |s.procs|
    ensures t.procs[p].killed <==> e == Kill(p) || (s.procs[p].killed && !(e.WaitReap? && e.z == p))
  {
    hide SchedStep, HasKid, HasZombie, ExitTable, WakeAll;
    if SchedStep(s, t, e) {
      SchedFields(s, t, e, p);
    } else if SleepStep(s, t, e) {
      if e.Wakeup? {
        WokenFields(s.procs, Other(e.addr), p);
      }
    } else if ForkStep(s, t, e) {
      hide SleepStep;
    } else {
      hide SleepStep, ForkStep;
      if e.Exit? {
        ExitFields(s, t, e.c, p);
      }
    }
  }

  lemma SchedFields(s: State, t: State, e: Step, p: nat)
    requires SchedStep(s, t, e) && p < |s.procs|
    ensures |t.procs| == |s.procs| && t.initproc == s.initproc
    ensures t.procs[p].killed == s.procs[p].killed && t.procs[p].parent == s.procs[p].parent
    ensures !e.Kill? && !e.WaitReap? && !e.ForkLink? && !e.Exit?
  {
  }

  lemma WokenFields(procs: seq<Process>, chan: Chan, p: nat)
    requires p < |procs|
    ensures WakeAll(procs, chan)[p].killed == procs[p].killed && WakeAll(procs, chan)[p].parent == procs[p].parent
  {
  }

  /** In every run, a slot's process is marked killed exactly when it was killed since the slot was
      last reaped. */
  lemma {:induction false} KilledExactly(ss: seq<State>, es: seq<Step>, k: nat, p: nat)
    requires Run(ss, es) && k <= |es| && p < |ss[0].procs|
    ensures |ss[k].procs| == |ss[0].procs| && (ss[k].procs[p].killed <==> KilledSince(es, k, p))
    decreases k
  {
    hide Next;
    if k > 0 {
      hide Init, KilledSince;
      KilledExactly(ss, es, k - 1, p);
      KilledStep(ss[k - 1], ss[k], es[k - 1], p);
      KilledNext(es, k, p);
    }
  }

  // ---- Parents, fork and wait ---------------------------------------------------------------------

  /** The slot that the fork on cpu c works on. */
  function ForkSlot(s: State, c: nat): Option<nat> {
    var p := Cur(s, c);
    if p < |s.procs| && s.procs[p].pc.Forking? then Some(s.procs[p].pc.np) else None
  }

  /** Whose child slot n is after k steps: that of the process whose fork last took the slot, or
      init's once that one has exited; nobody's once it is reaped. */
  function ChildOf(ss: seq<State>, es: seq<Step>, k: nat, n: nat): Option<nat>
    requires |ss| == |es| + 1 && k <= |es|
  {
    if k == 0 then None
    else
      var s, e, before := ss[k - 1], es[k - 1], ChildOf(ss, es, k - 1, n);
      if e.ForkLink? && ForkSlot(s, e.c) == Some(n) then Some(Cur(s, e.c))
      else if e.WaitReap? && e.z == n then None
      else if e.Exit? && before == Some(Cur(s, e.c)) then Some(ss[0].initproc)
      else before
  }

  lemma ParentStep(s: State, t: State, e: Step, n: nat)
    requires Next(s, t, e) && n < |s.procs|
    ensures |t.procs| == |s.procs| && t.initproc == s.initproc
    ensures t.procs[n].parent ==
            if e.ForkLink? && ForkSlot(s, e.c) == Some(n) then Some(Cur(s, e.c))
            else if e.WaitReap? && e.z == n then None
            else if e.Exit? && s.procs[n].parent == Some(Cur(s, e.c)) then Some(s.initproc)
            else s.procs[n].parent
  {
    hide SchedStep, HasKid, HasZombie, ExitTable, WakeAll;
    if SchedStep(s, t, e) {
      SchedFields(s, t, e, n);
    } else if SleepStep(s, t, e) {
      if e.Wakeup? {
        WokenFields(s.procs, Other(e.addr), n);
      }
    } else if ForkStep(s, t, e) {
      hide SleepStep;
    } else {
      hide SleepStep, ForkStep;
      if e.Exit? {
        ExitFields(s, t, e.c, n);
      }
    }
  }

  lemma {:induction false} ParentExactly(ss: seq<State>, es: seq<Step>, k: nat, n: nat)
    requires Run(ss, es) && k <= |es| && n < |ss[0].procs|
    ensures |ss[k].procs| == |ss[0].procs| && ss[k].initproc == ss[0].initproc
    ensures ss[k].procs[n].parent == ChildOf(ss, es, k, n)
    decreases k
  {
    hide Next;
    if k > 0 {
      hide Init;
      ParentExactly(ss, es, k - 1, n);
      ParentStep(ss[k - 1], ss[k], es[k - 1], n);
    }
  }

  lemma {:induction false} TableSize(ss: seq<State>, es: seq<Step>, k: nat)
    requires Run(ss, es) && k <= |es|
    ensures |ss[k].procs| == |ss[0].procs|
    decreases k
  {
    hide Next, Init;
    if k > 0 {
      TableSize(ss, es, k - 1);
      SizeStep(ss[k - 1], ss[k], es[k - 1]);
    }
  }

  lemma SizeStep(s: State, t: State, e: Step)
    requires Next(s, t, e)
    ensures |t.procs| == |s.procs|
  {
    hide HasKid, HasZombie, ExitTable;
  }

  /** No other process in the table has the pid of slot n. */
  ghost predicate OnlyPid(s: State, n: nat)
    requires n < |s.procs|
  {
    forall q :: 0 <= q < |s.procs| && q != n && Used(s.procs[q]) ==> s.procs[q].pid != s.procs[n].pid
  }

  /** fork returns with a RUNNABLE child of the caller whose pid nobody else in the table has or had. */
  lemma ForkAnswers(ss: seq<State>, es: seq<Step>, k: nat)
    requires Run(ss, es) && k < |es| && es[k].ForkDone?
    ensures On(ss[k], es[k].c, Cur(ss[k], es[k].c))
    ensures var p, slot := Cur(ss[k], es[k].c), ForkSlot(ss[k], es[k].c);
            && slot.Some? && slot.value < |ss[0].procs| == |ss[k + 1].procs| && slot.value != p
            && ChildOf(ss, es, k + 1, slot.value) == Some(p)
            && ss[k + 1].procs[slot.value].state.RUNNABLE?
            && ss[k + 1].procs[slot.value].pid !in ss[k + 1].exited
            && OnlyPid(ss[k + 1], slot.value)
  {
    var p := Cur(ss[k], es[k].c);
    Kept(ss, es, k);
    Kept(ss, es, k + 1);
    TableSize(ss, es, k + 1);
    TableSize(ss, es, k);
    ForkGives(ss[k], ss[k + 1], es[k].c);
    ParentExactly(ss, es, k + 1, ss[k].procs[p].pc.np);
    hide AllPlaced, Scheduled, Forks, Family, Waiters, Next, Init, Run;
  }

  lemma ForkGives(s: State, t: State, c: nat)
    requires AllPlaced(s) && Scheduled(s) && Forks(s) && Next(s, t, ForkDone(c))
    ensures On(s, c, Cur(s, c))
    ensures var p := Cur(s, c);
            && s.procs[p].pc.Forking? && s.procs[p].pc.np != p && s.procs[p].pc.np < |s.procs| == |t.procs|
            && t.procs[s.procs[p].pc.np].state.RUNNABLE? && t.procs[s.procs[p].pc.np].parent == Some(p)
  {
    var p := Cur(s, c);
    assert IsForking(s.procs[p].pc, s.procs[p].pc.np, s.procs[p].pc.linked);
    hide AllPlaced, Scheduled, Forks, HasKid, HasZombie, ExitTable;
  }

  ghost predicate HasChild(ss: seq<State>, es: seq<Step>, k: nat, p: nat)
    requires |ss| == |es| + 1 && k <= |es|
  {
    exists n :: 0 <= n < |ss[0].procs| && ChildOf(ss, es, k, n) == Some(p)
  }

  ghost predicate HasDeadChild(ss: seq<State>, es: seq<Step>, k: nat, p: nat)
    requires |ss| == |es| + 1 && k <= |es|
  {
    exists n :: 0 <= n < |ss[k].procs| && ChildOf(ss, es, k, n) == Some(p) && ss[k].procs[n].state.ZOMBIE?
  }

  /** wait returns the pid of an exited child of the caller; it fails only without an exited child,
      when there is no child at all or the caller was killed; and it sleeps only otherwise. */
  lemma WaitAnswers(ss: seq<State>, es: seq<Step>, k: nat)
    requires Run(ss, es) && k < |es|
    ensures es[k].WaitReap? ==>
              var p, z := Cur(ss[k], es[k].c), es[k].z;
              && z < |ss[k].procs| && ChildOf(ss, es, k, z) == Some(p) && ss[k].procs[z].state.ZOMBIE?
              && ss[k + 1].reaped == ss[k].reaped + [ss[k].procs[z].pid] && ss[k].procs[z].pid in ss[k].exited
    ensures es[k].WaitFail? ==>
              var p := Cur(ss[k], es[k].c);
              !HasDeadChild(ss, es, k, p) && (!HasChild(ss, es, k, p) || KilledSince(es, k, p))
    ensures es[k].WaitSleep? ==>
              var p := Cur(ss[k], es[k].c);
              !HasDeadChild(ss, es, k, p) && HasChild(ss, es, k, p) && !KilledSince(es, k, p)
  {
    hide SchedStep, SleepStep, ForkStep, Init;
    Kept(ss, es, k);
    TableSize(ss, es, k);
    var e := es[k];
    if e.WaitReap? {
      ReapedExited(ss[k], ss[k + 1], e.c, e.z);
      ParentExactly(ss, es, k, e.z);
    } else if e.WaitFail? || e.WaitSleep? {
      var p := Cur(ss[k], e.c);
      ScanIs(ss[k], ss[k + 1], e);
      Children(ss, es, k, p);
      KilledExactly(ss, es, k, p);
    }
    hide Inv, Next, Run;
  }

  lemma ReapedExited(s: State, t: State, c: nat, z: nat)
    requires Inv(s) && Next(s, t, WaitReap(c, z))
    ensures z < |s.procs| && s.procs[z].parent == Some(Cur(s, c)) && s.procs[z].state.ZOMBIE?
    ensures t.reaped == s.reaped + [s.procs[z].pid] && s.procs[z].pid in s.exited
  {
    assert Used(s.procs[z]);
    hide AllPlaced, Scheduled, Forks, Family, Waiters, HasKid, HasZombie, ExitTable;
  }

  lemma ScanIs(s: State, t: State, e: Step)
    requires Next(s, t, e) && (e.WaitFail? || e.WaitSleep?)
    ensures Cur(s, e.c) < |s.procs| && !HasZombie(s, Cur(s, e.c))
    ensures e.WaitFail? ==> !HasKid(s, Cur(s, e.c)) || s.procs[Cur(s, e.c)].killed
    ensures e.WaitSleep? ==> HasKid(s, Cur(s, e.c)) && !s.procs[Cur(s, e.c)].killed
  {
    hide HasKid, HasZombie, ExitTable;
  }

  lemma Children(ss: seq<State>, es: seq<Step>, k: nat, p: nat)
    requires Run(ss, es) && k <= |es| && |ss[k].procs| == |ss[0].procs|
    ensures HasKid(ss[k], p) <==> HasChild(ss, es, k, p)
    ensures HasZombie(ss[k], p) <==> HasDeadChild(ss, es, k, p)
  {
    hide Init, Next;
    forall n | 0 <= n < |ss[0].procs| ensures ss[k].procs[n].parent == ChildOf(ss, es, k, n) {
      ParentExactly(ss, es, k, n);
    }
    hide Run, ChildOf;
    if HasKid(ss[k], p) {
      var i :| 0 <= i < |ss[k].procs| && ss[k].procs[i].parent == Some(p);
      assert ChildOf(ss, es, k, i) == Some(p);
    }
    if HasZombie(ss[k], p) {
      var i :| 0 <= i < |ss[k].procs| && ss[k].procs[i].parent == Some(p) && ss[k].procs[i].state.ZOMBIE?;
      assert ChildOf(ss, es, k, i) == Some(p);
    }
  }

  // ---- Nobody is stuck --------------------------------------------------------------------------

  /** In every run, a cpu that holds ptable.lock, or finds it free, can take a step of its own. */
  lemma CpuMoves(ss: seq<State>, es: seq<Step>, k: nat, c: nat) returns (e: Step, t: State)
    requires Run(ss, es) && k <= |es| && c < |ss[k].cpus| && (ss[k].lock == None || ss[k].lock == Some(c))
    ensures Next(ss[k], t, e) && !e.Wakeup? && !e.Kill? && e.c == c
  {
    hide Init, Next;
    Kept(ss, es, k);
    hide Run;
    e, t := Moves(ss[k], c);
  }

  lemma Moves(s: State, c: nat) returns (e: Step, t: State)
    requires AllPlaced(s) && Scheduled(s) && c < |s.cpus| && (s.lock == None || s.lock == Some(c))
    ensures Next(s, t, e) && !e.Wakeup? && !e.Kill? && e.c == c
  {
    hide HasKid, HasZombie, ExitTable;
    if s.cpus[c] == None {
      hide AllPlaced, Scheduled;
      if s.lock == None {
        e, t := SchedAcquire(c), s.(lock := Some(c));
      } else {
        e, t := SchedRelease(c), s.(lock := None);
      }
    } else {
      var p := s.cpus[c].value;
      PlacedAt(s, p);
      hide AllPlaced;
      var q := s.procs[p];
      if s.lock == None {
        e, t := Yield(c), Set(s, p, q.(state := RUNNABLE, pc := Yielded(q.pc))).(lock := Some(c));
      } else {
        e, t := HolderMoves(s, c, p);
      }
    }
  }

  lemma HolderMoves(s: State, c: nat, p: nat) returns (e: Step, t: State)
    requires On(s, c, p) && s.lock == Some(c) && Placed(s.procs[p], p) && !Loose(s.procs[p])
    ensures Next(s, t, e) && !e.Wakeup? && !e.Kill? && e.c == c
  {
    hide HasKid, ExitTable;
    var q := s.procs[p];
    if !q.state.RUNNING? {
      e, t := SwitchBack(c), s.(cpus := s.cpus[c := None]);
    } else if q.pc.Waiting? {
      if HasZombie(s, p) {
        var z :| 0 <= z < |s.procs| && s.procs[z].parent == Some(p) && s.procs[z].state.ZOMBIE?;
        e := WaitReap(c, z);
        t := Set(Set(s, z, DEAD.(chan := s.procs[z].chan)), p, q.(pc := Free)).(
          lock := None, reaped := s.reaped + [s.procs[z].pid]);
      } else if !HasKid(s, p) || q.killed {
        e, t := WaitFail(c), Set(s, p, q.(pc := Free)).(lock := None);
      } else {
        e, t := WaitSleep(c), Set(s, p, q.(state := SLEEPING, chan := Some(OfProc(p)), pc := Waited));
      }
    } else {
      e := Resume(c);
      if q.pc.Fresh? {
        t := Set(s, p, q.(pc := Free)).(lock := None);
      } else if q.pc.Yielded? {
        t := Set(s, p, q.(pc := q.pc.back)).(lock := None);
      } else if q.pc.Slept? {
        t := Set(s, p, q.(pc := Free, chan := None)).(lock := None);
      } else {
        t := Set(s, p, q.(pc := Waiting, chan := None));
      }
    }
  }

  ghost predicate Can(s: State, e: Step) {
    exists t :: Next(s, t, e)
  }

  /** The scheduler can pick any RUNNABLE process, which then runs on its cpu. */
  lemma AnyPicked(s: State, c: nat, p: nat) returns (t: State)
    requires Idle(s, c) && s.lock == Some(c) && p < |s.procs| && s.procs[p].state.RUNNABLE?
    ensures Next(s, t, SchedPick(c, p)) && On(t, c, p) && t.procs[p].state.RUNNING?
  {
    hide SleepStep, ForkStep, ExitStep;
    t := Set(s, p, s.procs[p].(state := RUNNING)).(cpus := s.cpus[c := Some(p)]);
  }

  /** A running process can make any of the calls once ptable.lock is free: sleep on any channel, wait, exit
      unless it is init, and fork into any unused slot. */
  lemma AnyCall(s: State, c: nat, addr: nat, np: nat)
    requires On(s, c, Cur(s, c)) && s.lock == None && s.procs[Cur(s, c)].pc.Free?
    ensures Can(s, Sleep(c, addr)) && Can(s, WaitEnter(c)) && (Cur(s, c) != s.initproc ==> Can(s, Exit(c)))
    ensures np < |s.procs| && s.procs[np].state.UNUSED? ==> Can(s, Alloc(c, np))
  {
    hide SchedStep, HasKid, HasZombie, ExitTable;
    var p := Cur(s, c);
    var q, held := s.procs[p], s.(lock := Some(c));
    assert Next(s, Set(held, p, q.(state := SLEEPING, chan := Some(Other(addr)), pc := Slept)), Sleep(c, addr));
    assert Next(s, Set(held, p, q.(pc := Waiting)), WaitEnter(c));
    if p != s.initproc {
      assert Next(s, held.(procs := ExitTable(s.procs, p, s.initproc), exited := s.exited + {q.pid}), Exit(c));
    }
    if np < |s.procs| && s.procs[np].state.UNUSED? {
      var slot := s.procs[np].(state := EMBRYO, pid := s.nextpid, pc := Embryo(p));
      assert Next(s, Set(Set(s, np, slot), p, q.(pc := Forking(np, false))).(nextpid := s.nextpid + 1), Alloc(c, np));
    }
  }

  /** Once ptable.lock is free, any channel can be woken and any process killed. */
  lemma AnyWakeup(s: State, addr: nat, p: nat)
    requires s.lock == None && p < |s.procs|
    ensures Can(s, Wakeup(addr)) && Can(s, Kill(p))
  {
    hide SchedStep, ForkStep, ExitStep, WakeAll;
    var q := s.procs[p];
    assert Next(s, s.(procs := WakeAll(s.procs, Other(addr))), Wakeup(addr));
    assert Next(s, Set(s, p, q.(killed := true, state := if q.state.SLEEPING? then RUNNABLE else q.state)), Kill(p));
  }

  // ---- The lock and the cpus -------------------------------------------------------------------------

  /** Steps that acquire ptable.lock and keep it, that run while holding it, and that take and release it. */
  predicate Takes(e: Step) { e.SchedAcquire? || e.Yield? || e.Sleep? || e.Exit? || e.WaitEnter? }
  predicate Under(e: Step) {
    e.SchedPick? || e.SchedRelease? || e.SwitchBack? || e.Resume? || e.WaitReap? || e.WaitFail? || e.WaitSleep?
  }
  predicate Brief(e: Step) { e.Wakeup? || e.Kill? || e.Alloc? || e.ForkDone? }

  /** What a step does to the lock: a thread that resumes in wait goes on holding it. */
  predicate Locked(s: State, t: State, e: Step) {
    if Takes(e) then s.lock == None && t.lock == Some(e.c)
    else if Brief(e) then s.lock == None && t.lock == None
    else if Under(e) then
      && s.lock == Some(e.c)
      && t.lock == if e.SchedPick? || e.SwitchBack? || e.WaitSleep? then Some(e.c)
                   else if e.Resume? && Cur(s, e.c) < |s.procs| && s.procs[Cur(s, e.c)].pc.Waited? then Some(e.c)
                   else None
    else t.lock == s.lock
  }

  lemma LockStep(s: State, t: State, e: Step)
    requires Next(s, t, e)
    ensures Locked(s, t, e)
  {
    hide SchedStep, SleepStep, ForkStep, ExitStep, HasKid, HasZombie, ExitTable, WakeAll;
    if SchedStep(s, t, e) {
      LockSched(s, t, e);
    } else if SleepStep(s, t, e) {
      LockSleep(s, t, e);
    } else if ForkStep(s, t, e) {
      LockFork(s, t, e);
    } else {
      LockExit(s, t, e);
    }
  }

  lemma LockSched(s: State, t: State, e: Step)
    requires SchedStep(s, t, e)
    ensures Locked(s, t, e)
  {
  }

  lemma LockSleep(s: State, t: State, e: Step)
    requires SleepStep(s, t, e)
    ensures Locked(s, t, e)
  {
    hide WakeAll;
  }

  lemma LockFork(s: State, t: State, e: Step)
    requires ForkStep(s, t, e)
    ensures Locked(s, t, e)
  {
  }

  lemma LockExit(s: State, t: State, e: Step)
    requires ExitStep(s, t, e)
    ensures Locked(s, t, e)
  {
    hide HasKid, HasZombie, ExitTable;
  }

  /** The cpu that last acquired ptable.lock and has not released it. */
  function Holder(ss: seq<State>, es: seq<Step>, k: nat): Option<nat>
    requires |ss| == |es| + 1 && k <= |es|
  {
    if k == 0 then None
    else
      var s, e := ss[k - 1], es[k - 1];
      if Takes(e) then Some(e.c)
      else if e.SchedRelease? || e.WaitReap? || e.WaitFail? then None
      else if e.Resume? && !(Cur(s, e.c) < |s.procs| && s.procs[Cur(s, e.c)].pc.Waited?) then None
      else Holder(ss, es, k - 1)
  }

  /** In every run, the lock is held by the cpu that acquired it last and has not released it since; it is
      acquired, and the table touched from outside a critical section, only when it is free, and every step
      inside one is its holder's. */
  lemma {:induction false} LockExactly(ss: seq<State>, es: seq<Step>, k: nat)
    requires Run(ss, es) && k <= |es|
    ensures ss[k].lock == Holder(ss, es, k)
    ensures k < |es| && (Takes(es[k]) || Brief(es[k])) ==> Holder(ss, es, k) == None
    ensures k < |es| && Under(es[k]) ==> Holder(ss, es, k) == Some(es[k].c)
    decreases k
  {
    hide Next;
    if k > 0 {
      hide Init;
      LockExactly(ss, es, k - 1);
      LockStep(ss[k - 1], ss[k], es[k - 1]);
    }
    if k < |es| {
      LockStep(ss[k], ss[k + 1], es[k]);
    }
  }

  /** The process that cpu c last picked, until its thread switches back. */
  function Runs(es: seq<Step>, k: nat, c: nat): Option<nat>
    requires k <= |es|
  {
    if k == 0 then None
    else if es[k - 1].SchedPick? && es[k - 1].c == c then Some(es[k - 1].p)
    else if es[k - 1] == SwitchBack(c) then None
    else Runs(es, k - 1, c)
  }

  lemma CpuStep(s: State, t: State, e: Step, c: nat)
    requires Next(s, t, e) && c < |s.cpus|
    ensures |t.cpus| == |s.cpus|
    ensures t.cpus[c] == if e.SchedPick? && e.c == c then Some(e.p) else if e == SwitchBack(c) then None else s.cpus[c]
  {
    hide SchedStep, SleepStep, ForkStep, ExitStep;
    if SchedStep(s, t, e) {
      CpuSched(s, t, e, c);
    } else {
      CpuOther(s, t, e);
    }
  }

  lemma CpuSched(s: State, t: State, e: Step, c: nat)
    requires SchedStep(s, t, e) && c < |s.cpus|
    ensures |t.cpus| == |s.cpus|
    ensures t.cpus[c] == if e.SchedPick? && e.c == c then Some(e.p) else if e == SwitchBack(c) then None else s.cpus[c]
  {
  }

  lemma CpuOther(s: State, t: State, e: Step)
    requires SleepStep(s, t, e) || ForkStep(s, t, e) || ExitStep(s, t, e)
    ensures t.cpus == s.cpus && !e.SchedPick? && !e.SwitchBack?
  {
    hide HasKid, HasZombie, ExitTable, WakeAll;
  }

  lemma {:induction false} CpuExactly(ss: seq<State>, es: seq<Step>, k: nat, c: nat)
    requires Run(ss, es) && k <= |es| && c < |ss[0].cpus|
    ensures |ss[k].cpus| == |ss[0].cpus| && ss[k].cpus[c] == Runs(es, k, c)
    decreases k
  {
    hide Next;
    if k > 0 {
      hide Init;
      CpuExactly(ss, es, k - 1, c);
      CpuStep(ss[k - 1], ss[k], es[k - 1], c);
    }
  }
}
