/** proc.c: the loops that scan and update the process table in place, under ptable.lock. */
module ProcTable {
  import opened Common
  import opened Proc

  /** Entry k while exit's loop is at entry i: adopted if passed, roused if a zombie child was met. */
  function Halfway(procs: seq<Process>, p: nat, init: nat, i: nat, woke: bool, k: nat): Process
    requires k < |procs|
  {
    var q := if k < i then Adopted(procs[k], p, init) else procs[k];
    if woke then Woken(q, OfProc(init)) else q
  }

  class Table {
    const proc: array<Process>

    constructor (table: array<Process>)
      ensures proc == table
    {
      proc := table;
    }

    /** Exactly the sleepers on chan become RUNNABLE. */
    method Wakeup1(chan: Chan)
      modifies proc
      ensures proc[..] == WakeAll(old(proc[..]), chan)
      ensures forall i :: 0 <= i < proc.Length ==> !SleepsOn(proc[i], chan)
      ensures forall i :: 0 <= i < proc.Length ==>
                proc[i] == if SleepsOn(old(proc[i]), chan) then old(proc[i]).(state := RUNNABLE) else old(proc[i])
    {
      ghost var was := proc[..];
      for i := 0 to proc.Length
        invariant forall k :: 0 <= k < i ==> proc[k] == Woken(was[k], chan)
        invariant forall k :: i <= k < proc.Length ==> proc[k] == was[k]
      {
        if proc[i].state.SLEEPING? && proc[i].chan == Some(chan) {
          proc[i] := proc[i].(state := RUNNABLE);
        }
      }
    }

    /** kill: the first process with the pid is marked, and made RUNNABLE if it sleeps on anything. */
    method Kill(pid: nat) returns (found: bool)
      modifies proc
      ensures found <==> exists i :: 0 <= i < proc.Length && old(proc[i]).pid == pid
      ensures !found ==> proc[..] == old(proc[..])
      ensures found ==>
                exists i :: 0 <= i < proc.Length && old(proc[i]).pid == pid
                  && (forall j :: 0 <= j < i ==> old(proc[j]).pid != pid)
                  && (forall j :: 0 <= j < proc.Length && j != i ==> proc[j] == old(proc[j]))
                  && proc[i].killed && !proc[i].state.SLEEPING?
                  && proc[i] == old(proc[i]).(killed := true, state := proc[i].state)
                  && proc[i].state == if old(proc[i]).state.SLEEPING? then RUNNABLE else old(proc[i]).state
    {
      for i := 0 to proc.Length
        invariant proc[..] == old(proc[..])
        invariant forall k :: 0 <= k < i ==> old(proc[k]).pid != pid
      {
        if proc[i].pid == pid {
          proc[i] := proc[i].(killed := true);
          if proc[i].state.SLEEPING? {
            proc[i] := proc[i].(state := RUNNABLE);
          }
          return true;
        }
      }
      found := false;
    }

    /** Pass abandoned children to init. */
    method PassChildren(p: nat, init: nat)
      modifies proc
      ensures proc[..] == Abandon(old(proc[..]), p, init)
    {
      ghost var was := proc[..];
      ghost var woke := false;
      for i := 0 to proc.Length
        invariant woke <==> exists j :: 0 <= j < i && was[j].parent == Some(p) && was[j].state.ZOMBIE?
        invariant forall k :: 0 <= k < proc.Length ==> proc[k] == Halfway(was, p, init, i, woke, k)
      {
        if proc[i].parent == Some(p) {
          proc[i] := proc[i].(parent := Some(init));
          if proc[i].state.ZOMBIE? {
            Wakeup1(OfProc(init));
            woke := true;
          }
        }
      }
      assert woke == Orphans(was, p);
    }

    /** exit's critical section up to sched. */
    method Exit(p: nat, init: nat)
      requires p < proc.Length
      modifies proc
      ensures proc[..] == ExitTable(old(proc[..]), p, init)
    {
      if proc[p].parent.Some? {
        Wakeup1(OfProc(proc[p].parent.value));
      }
      PassChildren(p, init);
      proc[p] := proc[p].(state := ZOMBIE, pc := Exited);
    }

    /** wait's scan: the first zombie child, and whether there are children at all. */
    method FindZombie(p: nat) returns (havekids: bool, z: Option<nat>)
      ensures z.Some? ==> z.value < proc.Length && proc[z.value].parent == Some(p) && proc[z.value].state.ZOMBIE?
      ensures z.Some? ==> forall i :: 0 <= i < z.value ==> !(proc[i].parent == Some(p) && proc[i].state.ZOMBIE?)
      ensures z.None? ==> !Orphans(proc[..], p)
      ensures z.None? ==> (havekids <==> exists i :: 0 <= i < proc.Length && proc[i].parent == Some(p))
    {
      havekids := false;
      for i := 0 to proc.Length
        invariant havekids <==> exists k :: 0 <= k < i && proc[k].parent == Some(p)
        invariant forall k :: 0 <= k < i ==> !(proc[k].parent == Some(p) && proc[k].state.ZOMBIE?)
      {
        if proc[i].parent == Some(p) {
          havekids := true;
          if proc[i].state.ZOMBIE? {
            return true, Some(i);
          }
        }
      }
      z := None;
    }

    /** allocproc's search. */
    method FindUnused() returns (r: Option<nat>)
      ensures r.Some? ==> r.value < proc.Length && proc[r.value].state.UNUSED?
      ensures r.Some? ==> forall i :: 0 <= i < r.value ==> Used(proc[i])
      ensures r.None? ==> forall i :: 0 <= i < proc.Length ==> Used(proc[i])
    {
      for i := 0 to proc.Length
        invariant forall k :: 0 <= k < i ==> Used(proc[k])
      {
        if proc[i].state.UNUSED? {
          return Some(i);
        }
      }
      r := None;
    }
  }
}
