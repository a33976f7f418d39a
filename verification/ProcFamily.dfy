/** proc.c: parenthood, sleeping in wait, and reaping, over every run of the process table. */
module ProcFamily {
  import opened Common
  import opened Proc

  // ---- Steps that leave families alone --------------------------------------------------

  /** q becomes r without being created, linked, ended, reaped or put to sleep in wait. */
  ghost predicate Mild(q: Process, r: Process) {
    && r.parent == q.parent && r.pid == q.pid
    && (r.state == q.state || (Live(q) && Live(r)))
    && (q.pc.Embryo? || r.pc.Embryo? ==> q.pc == r.pc)
    && (forall np, linked :: IsForking(q.pc, np, linked) <==> IsForking(r.pc, np, linked))
    && (AsleepInWait(r) ==> AsleepInWait(q))
  }

  ghost predicate AllMild(s: State, t: State) {
    && |t.procs| == |s.procs| && t.initproc == s.initproc && t.nextpid == s.nextpid
    && t.exited == s.exited && t.reaped == s.reaped
    && forall i :: 0 <= i < |s.procs| ==> Mild(s.procs[i], t.procs[i])
  }

  lemma MildSame(q: Process)
    ensures Mild(q, q)
  {
  }

  lemma MildOne(s: State, t: State, p: nat)
    requires p < |s.procs| && |t.procs| == |s.procs| && t.procs == s.procs[p := t.procs[p]]
    requires t.initproc == s.initproc && t.nextpid == s.nextpid && t.exited == s.exited && t.reaped == s.reaped
    requires Mild(s.procs[p], t.procs[p])
    ensures AllMild(s, t)
  {
    hide Mild;
    forall i | 0 <= i < |s.procs| ensures Mild(s.procs[i], t.procs[i]) {
      MildSame(s.procs[i]);
    }
  }

  lemma MildSched(s: State, t: State, e: Step)
    requires AllPlaced(s) && Scheduled(s) && SchedStep(s, t, e)
    ensures AllMild(s, t)
  {
    hide AllMild, AllPlaced, Scheduled;
    match e
    case SchedPick(c, p) => MildOne(s, t, p);
    case Resume(c) => MildResume(s, t, c);
    case Yield(c) => MildYield(s, t, c);
    case _ => MildNone(s, t);
  }

  lemma MildResume(s: State, t: State, c: nat)
    requires AllPlaced(s) && SchedStep(s, t, Resume(c))
    ensures AllMild(s, t)
  {
    PlacedAt(s, Cur(s, c));
    hide AllMild, AllPlaced;
    MildOne(s, t, Cur(s, c));
  }

  lemma MildYield(s: State, t: State, c: nat)
    requires Scheduled(s) && SchedStep(s, t, Yield(c))
    ensures AllMild(s, t)
  {
    assert s.procs[Cur(s, c)].state.RUNNING?;
    hide AllMild, Scheduled;
    MildOne(s, t, Cur(s, c));
  }

  lemma MildNone(s: State, t: State)
    requires t.procs == s.procs && t.initproc == s.initproc && t.nextpid == s.nextpid
    requires t.exited == s.exited && t.reaped == s.reaped
    ensures AllMild(s, t)
  {
    hide Mild;
    forall i | 0 <= i < |s.procs| ensures Mild(s.procs[i], t.procs[i]) {
      MildSame(s.procs[i]);
    }
  }

  lemma MildWakeup(s: State, t: State, addr: nat)
    requires SleepStep(s, t, Wakeup(addr))
    ensures AllMild(s, t)
  {
    hide IsForking;
  }

  lemma MildSleep(s: State, t: State, e: Step)
    requires AllPlaced(s) && Scheduled(s)
    requires (SleepStep(s, t, e) || (ExitStep(s, t, e) && (e.WaitEnter? || e.WaitFail?)))
    ensures AllMild(s, t)
  {
    hide HasZombie, HasKid, AllMild;
    match e
    case Wakeup(addr) => MildWakeup(s, t, addr);
    case Kill(p) => MildOne(s, t, p);
    case Sleep(c, addr) => MildOne(s, t, Cur(s, c));
    case WaitEnter(c) => MildOne(s, t, Cur(s, c));
    case WaitFail(c) => MildOne(s, t, Cur(s, c));
  }

  // ---- fork -------------------------------------------------------------------------------

  ghost predicate SameFork(q: Process, r: Process) {
    && q.state.EMBRYO? == r.state.EMBRYO?
    && (q.state.EMBRYO? ==> r.parent == q.parent && r.pc == q.pc)
    && (forall np, linked :: IsForking(q.pc, np, linked) <==> IsForking(r.pc, np, linked))
  }

  lemma ForksSame(s: State, t: State)
    requires Forks(s) && |t.procs| == |s.procs| && forall i :: 0 <= i < |s.procs| ==> SameFork(s.procs[i], t.procs[i])
    ensures Forks(t)
  {
    forall p: nat, np: nat, linked: bool | p < |t.procs| && IsForking(t.procs[p].pc, np, linked)
      ensures np < |t.procs| && SameFork(s.procs[p], t.procs[p]) && SameFork(s.procs[np], t.procs[np])
    {
      assert IsForking(s.procs[p].pc, np, linked);
    }
    forall q | 0 <= q < |t.procs| && t.procs[q].state.EMBRYO? && t.procs[q].parent.Some?
      ensures SameFork(s.procs[q], t.procs[q]) && s.procs[q].parent.value < |s.procs|
      ensures SameFork(s.procs[s.procs[q].parent.value], t.procs[s.procs[q].parent.value])
    {
    }
  }

  lemma ForksMild(s: State, t: State)
    requires AllPlaced(s) && Forks(s) && AllMild(s, t)
    ensures Forks(t)
  {
    forall i | 0 <= i < |s.procs| ensures SameFork(s.procs[i], t.procs[i]) {
      assert Mild(s.procs[i], t.procs[i]) && Placed(s.procs[i], i);
    }
    hide Forks, AllPlaced, AllMild;
    FamilySizes(s, t);
    ForksSame(s, t);
  }

  lemma FamilySizes(s: State, t: State)
    requires AllMild(s, t)
    ensures |t.procs| == |s.procs|
  {
  }

  lemma ForksOther(s: State, t: State, p: nat, n: nat, i: nat, np: nat, linked: bool)
    requires Forks(s) && p < |s.procs| && n < |s.procs| && p != n && i < |s.procs| && i != p && i != n
    requires s.procs[p].state.RUNNING? && (s.procs[n].pc.NoThread? || s.procs[n].pc == Embryo(p))
    requires |t.procs| == |s.procs| && t.procs == s.procs[n := t.procs[n]][p := t.procs[p]]
    requires IsForking(t.procs[i].pc, np, linked)
    ensures np < |t.procs| && np != i && t.procs[np].state.EMBRYO? && t.procs[np].pc == Embryo(i)
    ensures t.procs[np].parent == if linked then Some(i) else None
  {
    assert IsForking(s.procs[i].pc, np, linked);
  }

  /** A step of fork in process p on slot n. */
  ghost predicate ForkMove(s: State, t: State, p: nat, n: nat) {
    && p < |s.procs| && n < |s.procs| && p != n && |t.procs| == |s.procs|
    && t.procs == s.procs[n := t.procs[n]][p := t.procs[p]]
    && s.procs[p].state.RUNNING? && t.procs[p].state.RUNNING?
    && (s.procs[p].pc.Free? || (s.procs[p].pc.Forking? && s.procs[p].pc.np == n))
    && (s.procs[n].pc.NoThread? || s.procs[n].pc == Embryo(p))
    && (s.procs[n].state.UNUSED? || s.procs[n].state.EMBRYO?)
    && !t.procs[n].pc.Forking? && !t.procs[n].pc.Yielded? && !t.procs[p].pc.Yielded?
    && (t.procs[p].pc.Forking? ==>
          && t.procs[p].pc.np == n && t.procs[n].state.EMBRYO? && t.procs[n].pc == Embryo(p)
          && t.procs[n].parent == if t.procs[p].pc.linked then Some(p) else None)
    && (t.procs[n].state.EMBRYO? && t.procs[n].parent.Some? ==> t.procs[p].pc == Forking(n, true))
  }

  lemma ForksMove(s: State, t: State, p: nat, n: nat)
    requires Forks(s) && ForkMove(s, t, p, n)
    ensures Forks(t)
  {
    forall i: nat, np: nat, linked: bool | i < |t.procs| && IsForking(t.procs[i].pc, np, linked)
      ensures np < |t.procs| && np != i && t.procs[np].state.EMBRYO? && t.procs[np].pc == Embryo(i)
      ensures t.procs[np].parent == if linked then Some(i) else None
    {
      if i != p && i != n {
        ForksOther(s, t, p, n, i, np, linked);
      }
    }
    forall q | 0 <= q < |t.procs| && t.procs[q].state.EMBRYO? && t.procs[q].parent.Some?
      ensures t.procs[q].parent.value < |t.procs| && IsForking(t.procs[t.procs[q].parent.value].pc, q, true)
    {
      if q != n {
        EmbryoOther(s, t, p, n, q);
      }
    }
  }

  lemma EmbryoOther(s: State, t: State, p: nat, n: nat, q: nat)
    requires Forks(s) && ForkMove(s, t, p, n) && q < |s.procs| && q != n && q != p
    requires s.procs[q].state.EMBRYO? && s.procs[q].parent.Some?
    ensures s.procs[q].parent.value < |t.procs| && IsForking(t.procs[s.procs[q].parent.value].pc, q, true)
  {
    var m := s.procs[q].parent.value;
    assert IsForking(s.procs[m].pc, q, true);
    assert s.procs[q].pc == Embryo(m);
  }

  lemma ForkMoves(s: State, t: State, e: Step)
    requires AllPlaced(s) && Scheduled(s) && Forks(s) && ForkStep(s, t, e)
    ensures ForkMove(s, t, Cur(s, e.c), if e.Alloc? then e.np else s.procs[Cur(s, e.c)].pc.np)
  {
    CurRunning(s, t, e);
    var p := Cur(s, e.c);
    var n := if e.Alloc? then e.np else s.procs[p].pc.np;
    PlacedAt(s, n);
    assert !e.Alloc? ==> IsForking(s.procs[p].pc, n, s.procs[p].pc.linked);
    hide AllPlaced, Scheduled;
  }

  lemma FamilyMild(s: State, t: State)
    requires Family(s) && AllMild(s, t)
    ensures Family(t)
  {
    hide IsForking;
    assert Mild(s.procs[s.initproc], t.procs[s.initproc]);
    forall p | 0 <= p < |t.procs| && Present(t.procs[p]) && p != t.initproc ensures Raised(t, p) {
      assert Mild(s.procs[p], t.procs[p]);
      assert Raised(s, p);
      assert Mild(s.procs[s.procs[p].parent.value], t.procs[s.procs[p].parent.value]);
    }
  }

  lemma WaitersMild(s: State, t: State)
    requires Waiters(s) && AllMild(s, t)
    ensures Waiters(t)
  {
    hide IsForking;
    forall p, i | 0 <= p < |t.procs| && 0 <= i < |t.procs| && AsleepInWait(t.procs[p]) && t.procs[i].state.ZOMBIE?
      ensures t.procs[i].parent != Some(p)
    {
      assert Mild(s.procs[p], t.procs[p]) && Mild(s.procs[i], t.procs[i]);
    }
  }

  /** Slots and pids as before, and as many zombies. */
  ghost predicate SamePids(s: State, t: State) {
    && |t.procs| == |s.procs| && t.nextpid == s.nextpid && t.exited == s.exited && t.reaped == s.reaped
    && forall p :: 0 <= p < |s.procs| ==> SamePid(s.procs[p], t.procs[p])
  }

  predicate SamePid(q: Process, r: Process) {
    r.pid == q.pid && (Used(r) ==> Used(q)) && r.state.ZOMBIE? == q.state.ZOMBIE?
  }

  lemma MildPids(s: State, t: State)
    requires AllMild(s, t)
    ensures SamePids(s, t)
  {
    forall p | 0 <= p < |s.procs| ensures SamePid(s.procs[p], t.procs[p]) {
      assert Mild(s.procs[p], t.procs[p]);
    }
  }

  lemma PidsKept(s: State, t: State)
    requires Pids(s) && SamePids(s, t)
    ensures Pids(t)
  {
    forall p, q | 0 <= p < q < |t.procs| && Used(t.procs[p]) && Used(t.procs[q])
      ensures t.procs[p].pid != t.procs[q].pid
    {
      assert SamePid(s.procs[p], t.procs[p]) && SamePid(s.procs[q], t.procs[q]);
    }
  }

  lemma ZombieKept(s: State, t: State, x: nat)
    requires SamePids(s, t) && IsZombie(s, x)
    ensures IsZombie(t, x)
  {
    var p :| 0 <= p < |s.procs| && s.procs[p].state.ZOMBIE? && s.procs[p].pid == x;
    assert SamePid(s.procs[p], t.procs[p]);
  }

  lemma ReapingKept(s: State, t: State)
    requires Reaping(s) && SamePids(s, t)
    ensures Reaping(t)
  {
    hide IsZombie;
    forall p | 0 <= p < |t.procs| && Used(t.procs[p])
      ensures (t.procs[p].state.ZOMBIE? <==> t.procs[p].pid in t.exited) && t.procs[p].pid !in t.reaped
    {
      assert SamePid(s.procs[p], t.procs[p]);
    }
    forall x | x in t.exited ensures x < t.nextpid && (x in t.reaped || IsZombie(t, x)) {
      if IsZombie(s, x) {
        ZombieKept(s, t, x);
      }
    }
  }

  // ---- exit and wait --------------------------------------------------------------------------

  lemma ForksExit(s: State, t: State, e: Step)
    requires AllPlaced(s) && Scheduled(s) && Forks(s) && ExitStep(s, t, e)
    requires e.Exit? || e.WaitReap? || e.WaitSleep?
    ensures Forks(t)
  {
    hide ExitTable, HasKid, HasZombie;
    CurRunning(s, t, e);
    var p := Cur(s, e.c);
    hide Scheduled;
    if e.Exit? {
      ExitHas(s, t, e.c);
      NoEmbryos(s, p);
    }
    forall i | 0 <= i < |s.procs| ensures SameFork(s.procs[i], t.procs[i]) {
      PlacedAt(s, i);
    }
    hide Forks, AllPlaced;
    ForksSame(s, t);
  }

  /** A process outside fork has no EMBRYO child. */
  lemma NoEmbryos(s: State, p: nat)
    requires Forks(s) && p < |s.procs| && s.procs[p].pc.Free?
    ensures forall i :: 0 <= i < |s.procs| && s.procs[i].state.EMBRYO? ==> s.procs[i].parent != Some(p)
  {
  }

  lemma FamilyMove(s: State, t: State, p: nat, n: nat)
    requires Family(s) && Forks(s) && ForkMove(s, t, p, n) && t.initproc == s.initproc
    requires Live(t.procs[n]) ==> t.procs[n].parent == Some(p)
    requires t.procs[p].parent == s.procs[p].parent && !t.procs[n].state.ZOMBIE?
    ensures Family(t)
  {
    hide Forks;
    forall i | 0 <= i < |t.procs| && Present(t.procs[i]) && i != t.initproc ensures Raised(t, i) {
      if i != n {
        assert Raised(s, i);
      }
    }
  }

  lemma FamilyExit(s: State, t: State, c: nat)
    requires AllPlaced(s) && Scheduled(s) && Family(s) && ExitStep(s, t, Exit(c))
    ensures Family(t)
  {
    hide Family, ExitTable;
    CurRunning(s, t, Exit(c));
    ExitHas(s, t, c);
    hide Scheduled, AllPlaced, ExitEffect;
    FamilyAdopt(s, t, Cur(s, c));
  }

  lemma FamilyAdopt(s: State, t: State, p: nat)
    requires Family(s) && ExitEffect(s, t, p) && p != s.initproc && t.initproc == s.initproc && Present(s.procs[p])
    ensures Family(t)
  {
    hide Raised;
    ExitLives(s, t, p, s.initproc);
    forall i | 0 <= i < |t.procs| && Present(t.procs[i]) && i != t.initproc ensures Raised(t, i) {
      RaisedAdopt(s, t, p, i);
    }
  }

  lemma ExitLives(s: State, t: State, p: nat, i: nat)
    requires ExitEffect(s, t, p) && i < |s.procs| && i != p
    ensures Live(t.procs[i]) == Live(s.procs[i]) && Present(t.procs[i]) == Present(s.procs[i])
    ensures t.procs[i].parent == if s.procs[i].parent == Some(p) then Some(s.initproc) else s.procs[i].parent
    ensures t.procs[i].pid == s.procs[i].pid && t.procs[i].state.ZOMBIE? == s.procs[i].state.ZOMBIE?
    ensures Used(t.procs[i]) == Used(s.procs[i]) && (AsleepInWait(t.procs[i]) ==> AsleepInWait(s.procs[i]))
  {
    assert Roused(Adopted(s.procs[i], p, s.initproc), t.procs[i]);
  }

  lemma RaisedAdopt(s: State, t: State, p: nat, i: nat)
    requires Family(s) && ExitEffect(s, t, p) && p != s.initproc && t.initproc == s.initproc
    requires i < |s.procs| && i != s.initproc && Present(t.procs[i]) && (i == p ==> Present(s.procs[p]))
    ensures Raised(t, i)
  {
    ExitLives(s, t, p, s.initproc);
    if i != p {
      ExitLives(s, t, p, i);
    }
    assert Raised(s, i);
    var q := s.procs[i].parent.value;
    if q != p {
      ExitLives(s, t, p, q);
    }
    hide ExitEffect;
  }

  /** Only process p changes, and still lives; or also a zombie z, which is gone. */
  lemma FamilyWait(s: State, t: State, p: nat, z: nat)
    requires Family(s) && p < |s.procs| && z < |s.procs| && |t.procs| == |s.procs| && t.initproc == s.initproc
    requires t.procs == s.procs[z := t.procs[z]][p := t.procs[p]]
    requires Live(s.procs[p]) && Live(t.procs[p]) && t.procs[p].parent == s.procs[p].parent
    requires z != p ==> s.procs[z].state.ZOMBIE? && t.procs[z].state.UNUSED?
    ensures Family(t)
  {
    forall i | 0 <= i < |t.procs| && Present(t.procs[i]) && i != t.initproc ensures Raised(t, i) {
      assert Raised(s, i);
    }
  }

  lemma WaitersMove(s: State, t: State, p: nat, n: nat)
    requires Waiters(s) && ForkMove(s, t, p, n) && !AsleepInWait(t.procs[n]) && !t.procs[n].state.ZOMBIE?
    ensures Waiters(t)
  {
  }

  lemma WaitersExit(s: State, t: State, c: nat)
    requires AllPlaced(s) && Scheduled(s) && Family(s) && Waiters(s) && ExitStep(s, t, Exit(c))
    ensures Waiters(t)
  {
    hide ExitTable, Family;
    CurRunning(s, t, Exit(c));
    ExitHas(s, t, c);
    var p := Cur(s, c);
    forall w, z | 0 <= w < |t.procs| && 0 <= z < |t.procs| && AsleepInWait(t.procs[w]) && t.procs[z].state.ZOMBIE?
      ensures t.procs[z].parent != Some(w)
    {
      WaiterExit(s, t, p, w, z);
    }
  }

  lemma WaiterExit(s: State, t: State, p: nat, w: nat, z: nat)
    requires AllPlaced(s) && Family(s) && Waiters(s) && ExitEffect(s, t, p) && p != s.initproc
    requires s.procs[p].state.RUNNING? && t.procs == ExitTable(s.procs, p, s.initproc)
    requires w < |s.procs| && z < |s.procs| && AsleepInWait(t.procs[w]) && t.procs[z].state.ZOMBIE?
    ensures t.procs[z].parent != Some(w)
  {
    hide ExitTable, Orphans, Raised;
    ExitAt(s.procs, p, s.initproc, w);
    ExitLives(s, t, p, w);
    PlacedAt(s, w);
    if z == p {
      assert Raised(s, p);
      RaisedHas(s, p);
    } else {
      ExitLives(s, t, p, z);
      OrphansBy(s, p, z);
    }
  }

  lemma RaisedHas(s: State, p: nat)
    requires p < |s.procs| && Raised(s, p)
    ensures s.procs[p].parent.Some? && s.procs[p].parent.value != p
  {
  }

  lemma OrphansBy(s: State, p: nat, z: nat)
    requires z < |s.procs|
    ensures s.procs[z].parent == Some(p) && s.procs[z].state.ZOMBIE? ==> Orphans(s.procs, p)
  {
  }

  lemma WaitersWait(s: State, t: State, e: Step)
    requires Waiters(s) && ExitStep(s, t, e) && (e.WaitReap? || e.WaitSleep?)
    requires s.procs[Cur(s, e.c)].state.RUNNING?
    ensures Waiters(t)
  {
    hide HasKid;
    var p := Cur(s, e.c);
    forall w, z | 0 <= w < |t.procs| && 0 <= z < |t.procs| && AsleepInWait(t.procs[w]) && t.procs[z].state.ZOMBIE?
      ensures t.procs[z].parent != Some(w)
    {
      assert s.procs[z].state.ZOMBIE? && t.procs[z] == s.procs[z];
    }
  }

  // ---- Pids and reaping -------------------------------------------------------------------------

  lemma PidsAlloc(s: State, t: State, c: nat, np: nat)
    requires Pids(s) && ForkStep(s, t, Alloc(c, np)) && Used(s.procs[Cur(s, c)])
    ensures Pids(t)
  {
    forall i | 0 <= i < |t.procs| && i != np
      ensures t.procs[i].pid == s.procs[i].pid && Used(t.procs[i]) == Used(s.procs[i])
    {
    }
    assert t.procs[np].pid == s.nextpid == t.nextpid - 1;
    hide ForkStep;
  }

  lemma ReapingAlloc(s: State, t: State, c: nat, np: nat)
    requires Reaping(s) && ForkStep(s, t, Alloc(c, np)) && s.procs[Cur(s, c)].state.RUNNING?
    ensures Reaping(t)
  {
    assert |t.procs| == |s.procs| && t.nextpid == s.nextpid + 1 && t.exited == s.exited && t.reaped == s.reaped;
    forall i | 0 <= i < |t.procs| && i != np
      ensures t.procs[i].pid == s.procs[i].pid && t.procs[i].state == s.procs[i].state
    {
    }
    assert t.procs[np].pid == s.nextpid && t.procs[np].state.EMBRYO? && s.procs[np].state.UNUSED?;
    hide ForkStep;
    forall x | x in t.exited ensures x < t.nextpid && (x in t.reaped || IsZombie(t, x)) {
      if IsZombie(s, x) {
        var p :| 0 <= p < |s.procs| && s.procs[p].state.ZOMBIE? && s.procs[p].pid == x;
        assert t.procs[p].state.ZOMBIE? && t.procs[p].pid == x;
      }
    }
  }

  lemma PidsMove(s: State, t: State, e: Step)
    requires ForkStep(s, t, e) && !e.Alloc? && Forks(s) && s.procs[Cur(s, e.c)].state.RUNNING?
    ensures SamePids(s, t)
  {
    var p := Cur(s, e.c);
    var n := s.procs[p].pc.np;
    assert IsForking(s.procs[p].pc, n, s.procs[p].pc.linked);
    hide Forks;
    forall i | 0 <= i < |s.procs| ensures SamePid(s.procs[i], t.procs[i]) {
    }
  }

  lemma PidsExit(s: State, t: State, p: nat)
    requires Pids(s) && ExitEffect(s, t, p) && Used(s.procs[p]) && t.nextpid == s.nextpid
    ensures Pids(t)
  {
    forall i | 0 <= i < |t.procs| ensures t.procs[i].pid == s.procs[i].pid && Used(t.procs[i]) == Used(s.procs[i]) {
      if i != p {
        ExitLives(s, t, p, i);
      }
    }
    hide ExitEffect;
  }

  lemma ReapingExit(s: State, t: State, p: nat)
    requires Pids(s) && Reaping(s) && ExitEffect(s, t, p) && Live(s.procs[p])
    requires t.nextpid == s.nextpid && t.exited == s.exited + {s.procs[p].pid} && t.reaped == s.reaped
    ensures Reaping(t)
  {
    forall i | 0 <= i < |t.procs|
      ensures t.procs[i].pid == s.procs[i].pid && Used(t.procs[i]) == Used(s.procs[i])
      ensures t.procs[i].state.ZOMBIE? == (s.procs[i].state.ZOMBIE? || i == p)
    {
      if i != p {
        ExitLives(s, t, p, i);
      }
    }
    hide ExitEffect;
    forall x | x in t.exited ensures x < t.nextpid && (x in t.reaped || IsZombie(t, x)) {
      if x == s.procs[p].pid {
        assert t.procs[p].state.ZOMBIE?;
      } else if IsZombie(s, x) {
        var z :| 0 <= z < |s.procs| && s.procs[z].state.ZOMBIE? && s.procs[z].pid == x;
        assert t.procs[z].state.ZOMBIE? && t.procs[z].pid == x;
      }
    }
  }

  /** The zombie z is gone and its pid is in reaped; nothing else about pids changes. */
  ghost predicate Reaps(s: State, t: State, z: nat) {
    && z < |s.procs| && |t.procs| == |s.procs| && s.procs[z].state.ZOMBIE? && t.procs[z].state.UNUSED?
    && t.nextpid == s.nextpid && t.exited == s.exited && t.reaped == s.reaped + [s.procs[z].pid]
    && forall i :: 0 <= i < |s.procs| && i != z ==> SamePid(s.procs[i], t.procs[i])
  }

  lemma PidsReap(s: State, t: State, z: nat)
    requires Pids(s) && Reaps(s, t, z)
    ensures Pids(t)
  {
    forall p, q | 0 <= p < q < |t.procs| && Used(t.procs[p]) && Used(t.procs[q])
      ensures t.procs[p].pid != t.procs[q].pid
    {
      assert SamePid(s.procs[p], t.procs[p]) && SamePid(s.procs[q], t.procs[q]);
    }
  }

  lemma ReapingReap(s: State, t: State, z: nat)
    requires Pids(s) && Reaping(s) && Reaps(s, t, z)
    ensures Reaping(t)
  {
    hide IsZombie;
    assert Used(s.procs[z]);
    forall p | 0 <= p < |t.procs| && Used(t.procs[p])
      ensures (t.procs[p].state.ZOMBIE? <==> t.procs[p].pid in t.exited) && t.procs[p].pid !in t.reaped
    {
      assert SamePid(s.procs[p], t.procs[p]);
      assert s.procs[p].pid != s.procs[z].pid;
    }
    forall x | x in t.exited ensures x < t.nextpid && (x in t.reaped || IsZombie(t, x)) {
      if IsZombie(s, x) {
        ZombieReap(s, t, z, x);
      }
    }
  }

  lemma ZombieReap(s: State, t: State, z: nat, x: nat)
    requires Reaps(s, t, z) && IsZombie(s, x)
    ensures x in t.reaped || IsZombie(t, x)
  {
    var p :| 0 <= p < |s.procs| && s.procs[p].state.ZOMBIE? && s.procs[p].pid == x;
    if p != z {
      assert SamePid(s.procs[p], t.procs[p]);
    }
  }

  // ---- Every step keeps everything ------------------------------------------------------------

  ghost predicate Kin(s: State) {
    Family(s) && Waiters(s) && Pids(s) && Reaping(s)
  }

  ghost predicate Inv(s: State) {
    AllPlaced(s) && Scheduled(s) && Forks(s) && Kin(s)
  }

  lemma KinMild(s: State, t: State)
    requires Kin(s) && AllMild(s, t)
    ensures Kin(t)
  {
    hide Family, Waiters, Pids, Reaping, AllMild;
    FamilyMild(s, t);
    WaitersMild(s, t);
    MildPids(s, t);
    PidsKept(s, t);
    ReapingKept(s, t);
  }

  lemma KinFork(s: State, t: State, e: Step)
    requires AllPlaced(s) && Scheduled(s) && Forks(s) && Kin(s) && ForkStep(s, t, e)
    ensures Forks(t) && Kin(t)
  {
    hide Family, Waiters, Pids, Reaping, AllPlaced, Scheduled, Forks, ForkMove;
    CurRunning(s, t, e);
    ForkMoves(s, t, e);
    var p := Cur(s, e.c);
    var n := if e.Alloc? then e.np else s.procs[p].pc.np;
    ForksMove(s, t, p, n);
    ForkLive(s, t, e, p, n);
    FamilyMove(s, t, p, n);
    WaitersMove(s, t, p, n);
    if e.Alloc? {
      PidsAlloc(s, t, e.c, e.np);
      ReapingAlloc(s, t, e.c, e.np);
    } else {
      PidsMove(s, t, e);
      PidsKept(s, t);
      ReapingKept(s, t);
    }
  }

  lemma ForkLive(s: State, t: State, e: Step, p: nat, n: nat)
    requires Forks(s) && ForkStep(s, t, e) && p == Cur(s, e.c) && n == (if e.Alloc? then e.np else s.procs[p].pc.np)
    requires s.procs[p].state.RUNNING?
    ensures n != p && n < |t.procs| == |s.procs|
    ensures Live(t.procs[n]) ==> t.procs[n].parent == Some(p)
    ensures t.procs[p].parent == s.procs[p].parent && !t.procs[n].state.ZOMBIE? && !AsleepInWait(t.procs[n])
  {
    assert !e.Alloc? ==> IsForking(s.procs[p].pc, n, s.procs[p].pc.linked);
    hide Forks;
  }

  lemma KinExit(s: State, t: State, c: nat)
    requires AllPlaced(s) && Scheduled(s) && Kin(s) && ExitStep(s, t, Exit(c))
    ensures Kin(t)
  {
    hide Family, Waiters, Pids, Reaping, AllPlaced, Scheduled, ExitTable, ExitEffect;
    CurRunning(s, t, Exit(c));
    ExitHas(s, t, c);
    FamilyExit(s, t, c);
    WaitersExit(s, t, c);
    PidsExit(s, t, Cur(s, c));
    ReapingExit(s, t, Cur(s, c));
  }

  lemma KinWait(s: State, t: State, e: Step)
    requires AllPlaced(s) && Scheduled(s) && Kin(s) && ExitStep(s, t, e) && (e.WaitReap? || e.WaitSleep?)
    ensures Kin(t)
  {
    hide Family, Waiters, Pids, Reaping, AllPlaced, Scheduled, HasKid, HasZombie;
    CurRunning(s, t, e);
    var p := Cur(s, e.c);
    FamilyWait(s, t, p, if e.WaitReap? then e.z else p);
    WaitersWait(s, t, e);
    if e.WaitReap? {
      assert Reaps(s, t, e.z);
      PidsReap(s, t, e.z);
      ReapingReap(s, t, e.z);
    } else {
      assert SamePids(s, t);
      PidsKept(s, t);
      ReapingKept(s, t);
    }
  }

  lemma FamiliesStep(s: State, t: State, e: Step)
    requires AllPlaced(s) && Scheduled(s) && Forks(s) && Kin(s) && Next(s, t, e)
    ensures Forks(t) && Kin(t)
  {
    hide SchedStep, SleepStep, ForkStep, ExitStep, AllPlaced, Scheduled, Forks, Kin, AllMild;
    if ForkStep(s, t, e) {
      KinFork(s, t, e);
    } else if ExitStep(s, t, e) && e.Exit? {
      ForksExit(s, t, e);
      KinExit(s, t, e.c);
    } else if ExitStep(s, t, e) && (e.WaitReap? || e.WaitSleep?) {
      ForksExit(s, t, e);
      KinWait(s, t, e);
    } else {
      MildOthers(s, t, e);
      ForksMild(s, t);
      KinMild(s, t);
    }
  }

  lemma MildOthers(s: State, t: State, e: Step)
    requires AllPlaced(s) && Scheduled(s) && Next(s, t, e) && !ForkStep(s, t, e)
    requires ExitStep(s, t, e) ==> !e.Exit? && !e.WaitReap? && !e.WaitSleep?
    ensures AllMild(s, t)
  {
    hide SchedStep, SleepStep, ForkStep, AllPlaced, Scheduled, AllMild, HasKid, HasZombie, ExitTable;
    if SchedStep(s, t, e) {
      MildSched(s, t, e);
    } else {
      MildSleep(s, t, e);
    }
  }

  lemma ScheduledStep(s: State, t: State, e: Step)
    requires AllPlaced(s) && Scheduled(s) && Forks(s) && Next(s, t, e)
    ensures Scheduled(t)
  {
    hide SchedStep, SleepStep, ForkStep, ExitStep, AllPlaced, Scheduled, Forks;
    if SchedStep(s, t, e) {
      ScheduledSched(s, t, e);
    } else if SleepStep(s, t, e) {
      ScheduledSleep(s, t, e);
    } else if ForkStep(s, t, e) {
      ScheduledFork(s, t, e);
    } else {
      ScheduledExit(s, t, e);
    }
  }

  lemma InitInv(s: State)
    requires Init(s)
    ensures Inv(s)
  {
  }

  lemma {:induction false} Kept(ss: seq<State>, es: seq<Step>, k: nat)
    requires Run(ss, es) && k <= |es|
    ensures Inv(ss[k])
    decreases k
  {
    hide AllPlaced, Scheduled, Forks, Kin, Next, Init;
    if k == 0 {
      InitInv(ss[0]);
    } else {
      Kept(ss, es, k - 1);
      PlacedStep(ss[k - 1], ss[k], es[k - 1]);
      ScheduledStep(ss[k - 1], ss[k], es[k - 1]);
      FamiliesStep(ss[k - 1], ss[k], es[k - 1]);
    }
  }

  // ---- What every run keeps ------------------------------------------------------------------

  /** Whenever ptable.lock is free, the RUNNING processes are those the cpus point at, one
      cpu each. */
  lemma RunningExactly(ss: seq<State>, es: seq<Step>, k: nat)
    requires Run(ss, es) && k <= |es| && ss[k].lock == None
    ensures forall p: nat :: p < |ss[k].procs| ==> (ss[k].procs[p].state.RUNNING? <==> OnSome(ss[k], p))
    ensures forall c, d :: 0 <= c < |ss[k].cpus| && 0 <= d < |ss[k].cpus| ==>
              (ss[k].cpus[c].Some? && ss[k].cpus[c] == ss[k].cpus[d] ==> c == d)
  {
    hide AllPlaced, Forks, Kin, Next, Init;
    Kept(ss, es, k);
  }

  /** Every process but init has a parent that is neither UNUSED nor a ZOMBIE, and nobody
      sleeps in wait while having a ZOMBIE child. */
  lemma ParentsLive(ss: seq<State>, es: seq<Step>, k: nat)
    requires Run(ss, es) && k <= |es|
    ensures forall p :: 0 <= p < |ss[k].procs| && Present(ss[k].procs[p]) && p != ss[k].initproc ==> Raised(ss[k], p)
    ensures forall p, z :: 0 <= p < |ss[k].procs| && 0 <= z < |ss[k].procs| && AsleepInWait(ss[k].procs[p])
              ==> !(ss[k].procs[z].state.ZOMBIE? && ss[k].procs[z].parent == Some(p))
  {
    hide AllPlaced, Scheduled, Forks, Next, Init, Raised;
    Kept(ss, es, k);
  }

  /** wait has returned each pid at most once, and the processes that have exited are exactly
      those reaped and those that are zombies. */
  lemma ReapedOnce(ss: seq<State>, es: seq<Step>, k: nat)
    requires Run(ss, es) && k <= |es|
    ensures forall i, j :: 0 <= i < j < |ss[k].reaped| ==> ss[k].reaped[i] != ss[k].reaped[j]
    ensures forall x :: x in ss[k].exited <==> (x in ss[k].reaped || IsZombie(ss[k], x))
    ensures forall x :: !(x in ss[k].reaped && IsZombie(ss[k], x))
  {
    hide AllPlaced, Scheduled, Forks, Next, Init;
    Kept(ss, es, k);
    assert forall p :: 0 <= p < |ss[k].procs| && ss[k].procs[p].state.ZOMBIE? ==> Used(ss[k].procs[p]);
  }
}
