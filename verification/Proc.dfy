/** proc.c: the process table and the CPUs as a step system, with ptable.lock handed
    from the scheduler to the process it switches to and back. */
module Proc {
  import opened Common

  datatype RunState = UNUSED | EMBRYO | SLEEPING | RUNNABLE | RUNNING | ZOMBIE

  /** wait sleeps on the caller's own proc structure; everybody else on other addresses. */
  datatype Chan = OfProc(p: nat) | Other(addr: nat)

  /** Where a process's kernel thread is. Yielded, Slept, Waited and Exited are in sched;
      Fresh will start at forkret; Waiting holds ptable.lock in wait's scan. */
  datatype Pc =
    | NoThread
    | Embryo(maker: nat)               // being set up by process `maker`
    | Fresh
    | Free                             // outside proc.c's critical sections
    | Forking(np: nat, linked: bool)   // inside fork, after allocproc; linked once np->parent is set
    | Waiting
    | Yielded(back: Pc)
    | Slept
    | Waited
    | Exited

  datatype Process = Process(
    state: RunState, parent: Option<nat>, chan: Option<Chan>, pid: nat, killed: bool, pc: Pc)

  /** cpus[c] is the cpu's proc field; lock names the cpu that holds ptable.lock. exited and
      reaped are the history: the pids that have exited, and the results of wait in order. */
  datatype State = State(
    procs: seq<Process>, cpus: seq<Option<nat>>, lock: Option<nat>, initproc: nat, nextpid: nat,
    exited: set<nat>, reaped: seq<nat>)

  const DEAD := Process(UNUSED, None, None, 0, false, NoThread)

  predicate Live(q: Process) { q.state.RUNNABLE? || q.state.RUNNING? || q.state.SLEEPING? }
  predicate Present(q: Process) { Live(q) || q.state.ZOMBIE? }

  predicate SleepsOn(q: Process, chan: Chan) { q.state.SLEEPING? && q.chan == Some(chan) }

  // ---- The loops over the table ---------------------------------------------------------

  function Woken(q: Process, chan: Chan): Process {
    if q.state.SLEEPING? && q.chan == Some(chan) then q.(state := RUNNABLE) else q
  }

  /** wakeup1(chan) */
  function WakeAll(procs: seq<Process>, chan: Chan): (r: seq<Process>)
    ensures |r| == |procs|
  {
    seq(|procs|, i requires 0 <= i < |procs| => Woken(procs[i], chan))
  }

  predicate Orphans(procs: seq<Process>, p: nat) {
    exists i :: 0 <= i < |procs| && procs[i].parent == Some(p) && procs[i].state.ZOMBIE?
  }

  function Adopted(q: Process, p: nat, init: nat): Process {
    if q.parent == Some(p) then q.(parent := Some(init)) else q
  }

  /** exit's loop: p's children go to init, which is woken if one of them is a zombie. */
  function Abandon(procs: seq<Process>, p: nat, init: nat): (r: seq<Process>)
    ensures |r| == |procs|
  {
    var moved := seq(|procs|, i requires 0 <= i < |procs| => Adopted(procs[i], p, init));
    if Orphans(procs, p) then WakeAll(moved, OfProc(init)) else moved
  }

  /** The table after the exit of p, when p's cpu has reached sched. */
  function ExitTable(procs: seq<Process>, p: nat, init: nat): (r: seq<Process>)
    requires p < |procs|
    ensures |r| == |procs|
  {
    var woken := if procs[p].parent.Some? then WakeAll(procs, OfProc(procs[p].parent.value)) else procs;
    var moved := Abandon(woken, p, init);
    moved[p := moved[p].(state := ZOMBIE, pc := Exited)]
  }

  // ---- Steps ------------------------------------------------------------------------------

  datatype Step =
    | SchedAcquire(c: nat) | SchedPick(c: nat, p: nat) | SchedRelease(c: nat) | SwitchBack(c: nat)
    | Resume(c: nat) | Yield(c: nat) | Sleep(c: nat, addr: nat) | Wakeup(addr: nat) | Kill(p: nat)
    | Alloc(c: nat, np: nat) | ForkFail(c: nat) | ForkLink(c: nat) | ForkDone(c: nat)
    | Exit(c: nat) | WaitEnter(c: nat) | WaitReap(c: nat, z: nat) | WaitFail(c: nat) | WaitSleep(c: nat)

  function Set(s: State, p: nat, q: Process): State
    requires p < |s.procs|
  {
    s.(procs := s.procs[p := q])
  }

  /** Process p is running on cpu c. */
  predicate On(s: State, c: nat, p: nat) {
    c < |s.cpus| && p < |s.procs| && s.cpus[c] == Some(p)
  }

  predicate Idle(s: State, c: nat) {
    c < |s.cpus| && s.cpus[c] == None
  }

  predicate HasKid(s: State, p: nat) {
    exists i :: 0 <= i < |s.procs| && s.procs[i].parent == Some(p)
  }

  predicate HasZombie(s: State, p: nat) {
    exists i :: 0 <= i < |s.procs| && s.procs[i].parent == Some(p) && s.procs[i].state.ZOMBIE?
  }

  function Cur(s: State, c: nat): nat {
    if c < |s.cpus| && s.cpus[c].Some? then s.cpus[c].value else 0
  }

  /** scheduler, swtch and sched: the lock is taken on one thread and let go on another. */
  predicate SchedStep(s: State, t: State, e: Step) {
    match e
    case SchedAcquire(c) => Idle(s, c) && s.lock == None && t == s.(lock := Some(c))
    case SchedPick(c, p) =>
      Idle(s, c) && s.lock == Some(c) && p < |s.procs| && s.procs[p].state.RUNNABLE?
      && t == Set(s, p, s.procs[p].(state := RUNNING)).(cpus := s.cpus[c := Some(p)])
    case SchedRelease(c) => Idle(s, c) && s.lock == Some(c) && t == s.(lock := None)
    case SwitchBack(c) =>
      var p := Cur(s, c);
      On(s, c, p) && s.lock == Some(c) && !s.procs[p].state.RUNNING? && t == s.(cpus := s.cpus[c := None])
    case Resume(c) =>
      var p := Cur(s, c);
      On(s, c, p) && s.lock == Some(c) && s.procs[p].state.RUNNING?
      && (var q := s.procs[p];
          match q.pc
          case Fresh => t == Set(s, p, q.(pc := Free)).(lock := None)
          case Yielded(back) => t == Set(s, p, q.(pc := back)).(lock := None)
          case Slept => t == Set(s, p, q.(pc := Free, chan := None)).(lock := None)
          case Waited => t == Set(s, p, q.(pc := Waiting, chan := None))
          case _ => false)
    case Yield(c) =>
      var p := Cur(s, c);
      On(s, c, p) && s.lock == None && (s.procs[p].pc.Free? || s.procs[p].pc.Forking?)
      && t == Set(s, p, s.procs[p].(state := RUNNABLE, pc := Yielded(s.procs[p].pc))).(lock := Some(c))
    case _ => false
  }

  predicate SleepStep(s: State, t: State, e: Step) {
    match e
    case Sleep(c, addr) =>
      var p := Cur(s, c);
      On(s, c, p) && s.lock == None && s.procs[p].pc.Free?
      && t == Set(s, p, s.procs[p].(state := SLEEPING, chan := Some(Other(addr)), pc := Slept)).(lock := Some(c))
    case Wakeup(addr) => s.lock == None && t == s.(procs := WakeAll(s.procs, Other(addr)))
    case Kill(p) =>
      s.lock == None && p < |s.procs|
      && t == Set(s, p, s.procs[p].(killed := true,
                        state := if s.procs[p].state.SLEEPING? then RUNNABLE else s.procs[p].state))
    case _ => false
  }

  /** fork: the slot is claimed and published under the lock; in between only its maker writes it. */
  predicate ForkStep(s: State, t: State, e: Step) {
    match e
    case Alloc(c, np) =>
      var p := Cur(s, c);
      On(s, c, p) && s.lock == None && s.procs[p].pc.Free? && np < |s.procs| && s.procs[np].state.UNUSED?
      && t == Set(Set(s, np, s.procs[np].(state := EMBRYO, pid := s.nextpid, pc := Embryo(p))),
                  p, s.procs[p].(pc := Forking(np, false))).(nextpid := s.nextpid + 1)
    case ForkFail(c) =>
      var p := Cur(s, c);
      On(s, c, p) && s.procs[p].state.RUNNING? && s.procs[p].pc.Forking? && !s.procs[p].pc.linked
      && s.procs[p].pc.np < |s.procs| && s.procs[p].pc.np != p
      && t == Set(Set(s, s.procs[p].pc.np, s.procs[s.procs[p].pc.np].(state := UNUSED, pc := NoThread)),
                  p, s.procs[p].(pc := Free))
    case ForkLink(c) =>
      var p := Cur(s, c);
      On(s, c, p) && s.procs[p].state.RUNNING? && s.procs[p].pc.Forking? && !s.procs[p].pc.linked
      && s.procs[p].pc.np < |s.procs| && s.procs[p].pc.np != p
      && t == Set(Set(s, s.procs[p].pc.np, s.procs[s.procs[p].pc.np].(parent := Some(p))),
                  p, s.procs[p].(pc := Forking(s.procs[p].pc.np, true)))
    case ForkDone(c) =>
      var p := Cur(s, c);
      On(s, c, p) && s.lock == None && s.procs[p].pc.Forking? && s.procs[p].pc.linked
      && s.procs[p].pc.np < |s.procs| && s.procs[p].pc.np != p
      && t == Set(Set(s, s.procs[p].pc.np, s.procs[s.procs[p].pc.np].(state := RUNNABLE, pc := Fresh)),
                  p, s.procs[p].(pc := Free))
    case _ => false
  }

  predicate ExitStep(s: State, t: State, e: Step) {
    match e
    case Exit(c) =>
      var p := Cur(s, c);
      On(s, c, p) && s.lock == None && s.procs[p].pc.Free? && p != s.initproc
      && t == s.(procs := ExitTable(s.procs, p, s.initproc), lock := Some(c), exited := s.exited + {s.procs[p].pid})
    case WaitEnter(c) =>
      var p := Cur(s, c);
      On(s, c, p) && s.lock == None && s.procs[p].pc.Free?
      && t == Set(s, p, s.procs[p].(pc := Waiting)).(lock := Some(c))
    case WaitReap(c, z) =>
      var p := Cur(s, c);
      On(s, c, p) && s.lock == Some(c) && s.procs[p].pc.Waiting?
      && z < |s.procs| && z != p && s.procs[z].parent == Some(p) && s.procs[z].state.ZOMBIE?
      && t == Set(Set(s, z, DEAD.(chan := s.procs[z].chan)), p, s.procs[p].(pc := Free)).(
                lock := None, reaped := s.reaped + [s.procs[z].pid])
    case WaitFail(c) =>
      var p := Cur(s, c);
      On(s, c, p) && s.lock == Some(c) && s.procs[p].pc.Waiting? && !HasZombie(s, p)
      && (!HasKid(s, p) || s.procs[p].killed) && t == Set(s, p, s.procs[p].(pc := Free)).(lock := None)
    case WaitSleep(c) =>
      var p := Cur(s, c);
      On(s, c, p) && s.lock == Some(c) && s.procs[p].pc.Waiting? && !HasZombie(s, p)
      && HasKid(s, p) && !s.procs[p].killed
      && t == Set(s, p, s.procs[p].(state := SLEEPING, chan := Some(OfProc(p)), pc := Waited))
    case _ => false
  }

  predicate Next(s: State, t: State, e: Step) {
    SchedStep(s, t, e) || SleepStep(s, t, e) || ForkStep(s, t, e) || ExitStep(s, t, e)
  }

  /** After userinit: the init process alone, runnable, and every cpu in its scheduler. */
  predicate Init(s: State) {
    && s.initproc < |s.procs|
    && s.procs[s.initproc] == Process(RUNNABLE, None, None, 1, false, Fresh)
    && (forall i :: 0 <= i < |s.procs| && i != s.initproc ==> s.procs[i] == DEAD)
    && (forall c :: 0 <= c < |s.cpus| ==> s.cpus[c] == None)
    && s.lock == None && s.nextpid == 2 && s.exited == {} && s.reaped == []
  }

  ghost predicate Run(ss: seq<State>, es: seq<Step>) {
    && |ss| == |es| + 1 && Init(ss[0])
    && forall i :: 0 <= i < |es| ==> Next(ss[i], ss[i + 1], es[i])
  }

  // ---- Invariants ---------------------------------------------------------------------------

  predicate Suspended(pc: Pc) { pc.Fresh? || pc.Yielded? || pc.Slept? || pc.Waited? }

  /** A process's state and the place of its thread agree. */
  predicate Placed(q: Process, p: nat) {
    && (q.pc.Yielded? ==> q.pc.back.Free? || q.pc.back.Forking?)
    && match q.state
       case UNUSED => q.pc.NoThread? && q.parent.None?
       case EMBRYO => q.pc.Embryo?
       case RUNNABLE => Suspended(q.pc)
       case SLEEPING =>
         (q.pc.Slept? && q.chan.Some? && q.chan.value.Other?) || (q.pc.Waited? && q.chan == Some(OfProc(p)))
       case RUNNING => Suspended(q.pc) || q.pc.Free? || q.pc.Forking? || q.pc.Waiting?
       case ZOMBIE => q.pc.Exited?
  }

  ghost predicate AllPlaced(s: State) {
    forall p :: 0 <= p < |s.procs| ==> Placed(s.procs[p], p)
  }

  /** Outside proc.c's critical sections. */
  predicate Loose(q: Process) { q.pc.Free? || q.pc.Forking? }

  /** Each cpu runs a process of its own; off the lock's cpu that process is RUNNING, outside
      the critical sections; on it, the process is in one. */
  ghost predicate Scheduled(s: State) {
    && (s.lock.Some? ==> s.lock.value < |s.cpus|)
    && (forall c, d :: 0 <= c < |s.cpus| && 0 <= d < |s.cpus| && s.cpus[c].Some? && s.cpus[c] == s.cpus[d] ==> c == d)
    && (forall c :: 0 <= c < |s.cpus| && s.cpus[c].Some? ==> s.cpus[c].value < |s.procs|)
    && (forall c :: 0 <= c < |s.cpus| && s.cpus[c].Some? && s.lock != Some(c) ==>
          var q := s.procs[s.cpus[c].value]; q.state.RUNNING? && Loose(q))
    && (forall c :: 0 <= c < |s.cpus| && s.cpus[c].Some? && s.lock == Some(c) ==>
          !Loose(s.procs[s.cpus[c].value]))
    && (forall p :: 0 <= p < |s.procs| && s.procs[p].state.RUNNING? ==> OnSome(s, p))
  }

  predicate IsForking(pc: Pc, np: nat, linked: bool) {
    pc == Forking(np, linked) || pc == Yielded(Forking(np, linked))
  }

  /** fork works on an EMBRYO of its own, whose parent field is empty until it sets it. */
  ghost predicate Forks(s: State) {
    && (forall p: nat, np: nat, linked: bool :: p < |s.procs| && IsForking(s.procs[p].pc, np, linked) ==>
          && np < |s.procs| && np != p && s.procs[np].state.EMBRYO? && s.procs[np].pc == Embryo(p)
          && s.procs[np].parent == if linked then Some(p) else None)
    && (forall q :: 0 <= q < |s.procs| && s.procs[q].state.EMBRYO? && s.procs[q].parent.Some? ==>
          && s.procs[q].parent.value < |s.procs|
          && IsForking(s.procs[s.procs[q].parent.value].pc, q, true))
  }

  /** Every process in the table but init has a parent that can still wait for it. */
  ghost predicate Family(s: State) {
    && s.initproc < |s.procs| && Live(s.procs[s.initproc]) && s.procs[s.initproc].parent == None
    && forall p :: 0 <= p < |s.procs| && Present(s.procs[p]) && p != s.initproc ==> Raised(s, p)
  }

  predicate Raised(s: State, p: nat)
    requires p < |s.procs|
  {
    var q := s.procs[p].parent;
    q.Some? && q.value != p && q.value < |s.procs| && Live(s.procs[q.value])
  }

  predicate AsleepInWait(q: Process) { q.state.SLEEPING? && q.pc.Waited? }

  ghost predicate Waiters(s: State) {
    forall p, i :: 0 <= p < |s.procs| && 0 <= i < |s.procs| && AsleepInWait(s.procs[p]) && s.procs[i].state.ZOMBIE? ==>
      s.procs[i].parent != Some(p)
  }

  predicate Used(q: Process) { !q.state.UNUSED? }

  /** Pids name the used slots one to one. */
  ghost predicate Pids(s: State) {
    && (forall p :: 0 <= p < |s.procs| && Used(s.procs[p]) ==> s.procs[p].pid < s.nextpid)
    && (forall p, q :: 0 <= p < q < |s.procs| && Used(s.procs[p]) && Used(s.procs[q]) ==>
          s.procs[p].pid != s.procs[q].pid)
  }

  /** The exited pids are those of the zombies and the reaped ones; no pid is reaped twice. */
  ghost predicate Reaping(s: State) {
    && (forall p :: 0 <= p < |s.procs| && Used(s.procs[p]) ==>
          (s.procs[p].state.ZOMBIE? <==> s.procs[p].pid in s.exited) && s.procs[p].pid !in s.reaped)
    && (forall x :: x in s.exited ==> x < s.nextpid && (x in s.reaped || IsZombie(s, x)))
    && (forall x :: x in s.reaped ==> x in s.exited)
    && (forall i, j :: 0 <= i < j < |s.reaped| ==> s.reaped[i] != s.reaped[j])
  }

  ghost predicate IsZombie(s: State, pid: nat) {
    exists p :: 0 <= p < |s.procs| && s.procs[p].state.ZOMBIE? && s.procs[p].pid == pid
  }

  ghost predicate OnSome(s: State, p: nat) {
    exists c :: 0 <= c < |s.cpus| && s.cpus[c] == Some(p)
  }

  // ---- What the loops do to one process -----------------------------------------------------

  /** r is q, or q roused from sleep. */
  predicate Roused(q: Process, r: Process) {
    r == q || (q.state.SLEEPING? && r == q.(state := RUNNABLE))
  }

  lemma AbandonAt(procs: seq<Process>, p: nat, init: nat, i: nat)
    requires i < |procs|
    ensures Roused(Adopted(procs[i], p, init), Abandon(procs, p, init)[i])
    ensures Orphans(procs, p) && procs[i].chan == Some(OfProc(init)) ==> !Abandon(procs, p, init)[i].state.SLEEPING?
  {
    hide Orphans;
  }

  lemma ExitAt(procs: seq<Process>, p: nat, init: nat, i: nat)
    requires p < |procs| && i < |procs| && procs[p].state.RUNNING?
    ensures i == p ==> ExitTable(procs, p, init)[i] == Adopted(procs[p], p, init).(state := ZOMBIE, pc := Exited)
    ensures i != p ==> Roused(Adopted(procs[i], p, init), ExitTable(procs, p, init)[i])
    ensures i != p && procs[p].parent.Some? && procs[i].chan == Some(OfProc(procs[p].parent.value)) ==>
              !ExitTable(procs, p, init)[i].state.SLEEPING?
    ensures i != p && Orphans(procs, p) && procs[i].chan == Some(OfProc(init)) ==>
              !ExitTable(procs, p, init)[i].state.SLEEPING?
  {
    hide Orphans, Abandon;
    var woken := if procs[p].parent.Some? then WakeAll(procs, OfProc(procs[p].parent.value)) else procs;
    AbandonAt(woken, p, init, i);
    OrphansSame(procs, woken, p);
  }

  lemma OrphansSame(procs: seq<Process>, woken: seq<Process>, p: nat)
    requires |woken| == |procs| && forall i :: 0 <= i < |procs| ==> Roused(procs[i], woken[i])
    ensures Orphans(procs, p) <==> Orphans(woken, p)
  {
    if i :| 0 <= i < |procs| && procs[i].parent == Some(p) && procs[i].state.ZOMBIE? {
      assert Roused(procs[i], woken[i]);
    }
    if i :| 0 <= i < |procs| && woken[i].parent == Some(p) && woken[i].state.ZOMBIE? {
      assert Roused(procs[i], woken[i]);
    }
  }

  /** exit changes p as told, and at most adopts and rouses the others. */
  ghost predicate ExitEffect(s: State, t: State, p: nat) {
    && |t.procs| == |s.procs| && p < |s.procs|
    && t.procs[p] == Adopted(s.procs[p], p, s.initproc).(state := ZOMBIE, pc := Exited)
    && forall i :: 0 <= i < |s.procs| && i != p ==> Roused(Adopted(s.procs[i], p, s.initproc), t.procs[i])
  }

  lemma ExitHas(s: State, t: State, c: nat)
    requires ExitStep(s, t, Exit(c)) && s.procs[Cur(s, c)].state.RUNNING?
    ensures ExitEffect(s, t, Cur(s, c))
  {
    hide ExitTable, Adopted, Roused;
    var p := Cur(s, c);
    forall i | 0 <= i < |s.procs|
      ensures i == p ==> t.procs[p] == Adopted(s.procs[p], p, s.initproc).(state := ZOMBIE, pc := Exited)
      ensures i != p ==> Roused(Adopted(s.procs[i], p, s.initproc), t.procs[i])
    {
      ExitAt(s.procs, p, s.initproc, i);
    }
  }

  // ---- Threads and states agree ---------------------------------------------------------------

  lemma CurRunning(s: State, t: State, e: Step)
    requires AllPlaced(s) && Scheduled(s) && (ForkStep(s, t, e) || ExitStep(s, t, e))
    ensures On(s, e.c, Cur(s, e.c)) && s.procs[Cur(s, e.c)].state.RUNNING?
  {
    hide HasKid, HasZombie, ExitTable;
    assert Placed(s.procs[Cur(s, e.c)], Cur(s, e.c));
  }

  lemma PlacedStep(s: State, t: State, e: Step)
    requires AllPlaced(s) && Scheduled(s) && Forks(s) && Next(s, t, e)
    ensures AllPlaced(t)
  {
    hide SchedStep, SleepStep, ForkStep, ExitStep, AllPlaced, Scheduled, Forks;
    if SchedStep(s, t, e) {
      PlacedSched(s, t, e);
    } else if SleepStep(s, t, e) {
      PlacedSleep(s, t, e);
    } else if ForkStep(s, t, e) {
      CurRunning(s, t, e);
      PlacedFork(s, t, e);
    } else {
      CurRunning(s, t, e);
      PlacedExit(s, t, e);
    }
  }

  lemma PlacedAt(s: State, p: nat)
    requires AllPlaced(s) && p < |s.procs|
    ensures Placed(s.procs[p], p)
  {
  }

  /** At most processes p and n change. */
  lemma PlacedTwo(s: State, t: State, p: nat, n: nat)
    requires AllPlaced(s) && p < |s.procs| && n < |s.procs| && |t.procs| == |s.procs|
    requires t.procs == s.procs[n := t.procs[n]][p := t.procs[p]]
    requires Placed(t.procs[p], p) && Placed(t.procs[n], n)
    ensures AllPlaced(t)
  {
    hide Placed;
  }

  lemma PlacedSched(s: State, t: State, e: Step)
    requires AllPlaced(s) && SchedStep(s, t, e)
    ensures AllPlaced(t)
  {
    hide AllPlaced;
    match e
    case SchedPick(c, p) => PlacedAt(s, p); PlacedTwo(s, t, p, p);
    case Resume(c) => PlacedAt(s, Cur(s, c)); PlacedTwo(s, t, Cur(s, c), Cur(s, c));
    case Yield(c) => PlacedTwo(s, t, Cur(s, c), Cur(s, c));
    case _ => PlacedSame(s, t);
  }

  lemma PlacedSame(s: State, t: State)
    requires AllPlaced(s) && t.procs == s.procs
    ensures AllPlaced(t)
  {
  }

  lemma PlacedSleep(s: State, t: State, e: Step)
    requires AllPlaced(s) && SleepStep(s, t, e)
    ensures AllPlaced(t)
  {
    match e
    case Sleep(c, addr) => PlacedTwo(s, t, Cur(s, c), Cur(s, c));
    case Kill(p) => PlacedAt(s, p); PlacedTwo(s, t, p, p);
    case Wakeup(addr) =>
  }

  lemma PlacedFork(s: State, t: State, e: Step)
    requires AllPlaced(s) && Forks(s) && ForkStep(s, t, e) && s.procs[Cur(s, e.c)].state.RUNNING?
    ensures AllPlaced(t)
  {
    hide AllPlaced;
    var p := Cur(s, e.c);
    var n := if e.Alloc? then e.np else s.procs[p].pc.np;
    PlacedAt(s, p);
    PlacedAt(s, n);
    assert !e.Alloc? ==> IsForking(s.procs[p].pc, n, s.procs[p].pc.linked);
    PlacedTwo(s, t, p, n);
  }

  lemma PlacedExit(s: State, t: State, e: Step)
    requires AllPlaced(s) && ExitStep(s, t, e) && s.procs[Cur(s, e.c)].state.RUNNING?
    ensures AllPlaced(t)
  {
    hide ExitTable, HasKid, HasZombie;
    var p := Cur(s, e.c);
    if e.Exit? {
      ExitHas(s, t, e.c);
    } else {
      PlacedTwo(s, t, p, if e.WaitReap? then e.z else p);
    }
  }

  // ---- A cpu for each running process -----------------------------------------------------------

  predicate SameRun(q: Process, r: Process) {
    q.state.RUNNING? == r.state.RUNNING? && Loose(q) == Loose(r)
  }

  /** The process on cpu c acts; nobody else starts or stops running. */
  lemma ScheduledAct(s: State, t: State, c: nat, p: nat)
    requires Scheduled(s) && On(s, c, p) && t.cpus == s.cpus && |t.procs| == |s.procs|
    requires forall i :: 0 <= i < |s.procs| && i != p ==> SameRun(s.procs[i], t.procs[i])
    requires t.lock == s.lock || ((s.lock == None || s.lock == Some(c)) && (t.lock == None || t.lock == Some(c)))
    requires if t.lock == Some(c) then !Loose(t.procs[p]) else t.procs[p].state.RUNNING? && Loose(t.procs[p])
    ensures Scheduled(t)
  {
    hide Loose;
    forall d | 0 <= d < |t.cpus| && t.cpus[d].Some? && d != c
      ensures t.cpus[d].value != p && SameRun(s.procs[t.cpus[d].value], t.procs[t.cpus[d].value])
    {
    }
    forall i | 0 <= i < |t.procs| && t.procs[i].state.RUNNING? ensures OnSome(t, i) {
      if i != p {
        assert OnSome(s, i);
      }
    }
  }

  lemma ScheduledSched(s: State, t: State, e: Step)
    requires AllPlaced(s) && Scheduled(s) && SchedStep(s, t, e)
    ensures Scheduled(t)
  {
    match e
    case Resume(c) => ResumeRuns(s, t, c);
    case Yield(c) => ScheduledAct(s, t, c, Cur(s, c));
    case SchedPick(c, p) => PickRuns(s, t, c, p);
    case SwitchBack(c) => BackRuns(s, t, c);
    case _ => SwapLock(s, t, e.c);
  }

  lemma ResumeRuns(s: State, t: State, c: nat)
    requires AllPlaced(s) && Scheduled(s) && SchedStep(s, t, Resume(c))
    ensures Scheduled(t)
  {
    PlacedAt(s, Cur(s, c));
    hide AllPlaced, Scheduled;
    ScheduledAct(s, t, c, Cur(s, c));
  }

  lemma SwapLock(s: State, t: State, c: nat)
    requires Scheduled(s) && Idle(s, c) && (s.lock == None || s.lock == Some(c))
    requires t == s.(lock := None) || t == s.(lock := Some(c))
    ensures Scheduled(t)
  {
    hide Loose;
    forall i | 0 <= i < |t.procs| && t.procs[i].state.RUNNING? ensures OnSome(t, i) {
      assert OnSome(s, i);
    }
  }

  lemma PickRuns(s: State, t: State, c: nat, p: nat)
    requires AllPlaced(s) && Scheduled(s) && SchedStep(s, t, SchedPick(c, p))
    ensures Scheduled(t)
  {
    PlacedAt(s, p);
    hide AllPlaced;
    forall d | 0 <= d < |s.cpus| ensures s.cpus[d] != Some(p) {
    }
    assert !Loose(t.procs[p]);
    hide Loose;
    assert t.cpus[c] == Some(p);
    forall i | 0 <= i < |t.procs| && t.procs[i].state.RUNNING? ensures OnSome(t, i) {
      if i != p {
        PickOthers(s, t, c, p, i);
      }
    }
  }

  lemma PickOthers(s: State, t: State, c: nat, p: nat, i: nat)
    requires OnSome(s, i) && Idle(s, c) && t.cpus == s.cpus[c := Some(p)]
    ensures OnSome(t, i)
  {
    var d :| 0 <= d < |s.cpus| && s.cpus[d] == Some(i);
    assert t.cpus[d] == Some(i);
  }

  lemma BackRuns(s: State, t: State, c: nat)
    requires AllPlaced(s) && Scheduled(s) && SchedStep(s, t, SwitchBack(c))
    ensures Scheduled(t)
  {
    forall i | 0 <= i < |t.procs| && t.procs[i].state.RUNNING? ensures OnSome(t, i) {
      assert OnSome(s, i);
      var d :| 0 <= d < |s.cpus| && s.cpus[d] == Some(i);
      assert t.cpus[d] == Some(i);
    }
  }

  /** Nobody starts or stops running. */
  lemma ScheduledStill(s: State, t: State)
    requires Scheduled(s) && t.cpus == s.cpus && t.lock == s.lock && |t.procs| == |s.procs|
    requires forall i :: 0 <= i < |s.procs| ==> SameRun(s.procs[i], t.procs[i])
    ensures Scheduled(t)
  {
    hide Loose;
    forall d | 0 <= d < |t.cpus| && t.cpus[d].Some?
      ensures SameRun(s.procs[t.cpus[d].value], t.procs[t.cpus[d].value])
    {
    }
    forall i | 0 <= i < |t.procs| && t.procs[i].state.RUNNING? ensures OnSome(t, i) {
      assert OnSome(s, i);
    }
  }

  lemma ScheduledSleep(s: State, t: State, e: Step)
    requires AllPlaced(s) && Scheduled(s) && SleepStep(s, t, e)
    ensures Scheduled(t)
  {
    hide Scheduled, AllPlaced;
    match e
    case Sleep(c, addr) => ScheduledAct(s, t, c, Cur(s, c));
    case _ => ScheduledStill(s, t);
  }

  lemma ScheduledFork(s: State, t: State, e: Step)
    requires AllPlaced(s) && Scheduled(s) && Forks(s) && ForkStep(s, t, e)
    ensures Scheduled(t)
  {
    CurRunning(s, t, e);
    var p := Cur(s, e.c);
    assert s.lock != Some(e.c);
    var n := if e.Alloc? then e.np else s.procs[p].pc.np;
    PlacedAt(s, n);
    assert !e.Alloc? ==> IsForking(s.procs[p].pc, n, s.procs[p].pc.linked);
    assert s.procs[n].state.UNUSED? || s.procs[n].state.EMBRYO?;
    hide Scheduled, AllPlaced, Forks;
    ScheduledAct(s, t, e.c, p);
  }

  lemma ScheduledExit(s: State, t: State, e: Step)
    requires AllPlaced(s) && Scheduled(s) && ExitStep(s, t, e)
    ensures Scheduled(t)
  {
    hide ExitTable, HasKid, HasZombie;
    CurRunning(s, t, e);
    if e.Exit? {
      ExitHas(s, t, e.c);
    } else if e.WaitReap? {
      PlacedAt(s, e.z);
    }
    hide Scheduled, AllPlaced;
    ScheduledAct(s, t, e.c, Cur(s, e.c));
  }
}
