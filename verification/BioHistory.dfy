/** bio.c with log.c's pinning: what blocks hold and which buffer is recycled over a whole run, told by
    the steps taken. */
module BioHistory {
  import opened Common
  import opened BufRing
  import opened Bio

  // ---- What blocks hold ---------------------------------------------------------------------

  /** The block that use h last asked bread for. */
  function Asked(es: seq<Step>, k: nat, h: nat): Option<Key>
    requires k <= |es|
  {
    if k == 0 then None
    else if (es[k - 1].Hit? || es[k - 1].Miss?) && es[k - 1].h == h then Some(es[k - 1].k)
    else Asked(es, k - 1, h)
  }

  /** Step e logs or writes the block that use h holds. */
  predicate Stores(e: Step, h: nat) { (e.Write? || e.LogWrite?) && e.h == h }

  /** The contents of block q after k steps: what its holder had made of it when it last logged or
      wrote it, or what the disk held at first. */
  function Contains(es: seq<Step>, disk: map<Key, Contents>, k: nat, q: Key): Contents
    requires k <= |es|
    decreases k
  {
    if k == 0 then At(disk, q)
    else if (es[k - 1].Write? || es[k - 1].LogWrite?) && Asked(es, k - 1, es[k - 1].h) == Some(q)
    then Made(es, disk, k - 1, es[k - 1].h)
    else Contains(es, disk, k - 1, q)
  }

  /** What use h has made of its block: its last change, or else what the block contained when it got
      the lock. */
  function Made(es: seq<Step>, disk: map<Key, Contents>, k: nat, h: nat): Contents
    requires k <= |es|
    decreases k
  {
    if k == 0 then []
    else if es[k - 1].Change? && es[k - 1].h == h then es[k - 1].data
    else if es[k - 1].Lock? && es[k - 1].h == h && Asked(es, k - 1, h).Some?
    then Contains(es, disk, k - 1, Asked(es, k - 1, h).value)
    else Made(es, disk, k - 1, h)
  }

  /** The keys of the uses are those asked for. */
  ghost predicate KeysAre(es: seq<Step>, k: nat, s: State)
    requires k <= |es|
  {
    forall h: nat :: h < |s.uses| && !s.uses[h].Idle? ==> Asked(es, k, h) == Some(s.uses[h].k)
  }

  ghost predicate ValuesAre(es: seq<Step>, disk: map<Key, Contents>, k: nat, s: State)
    requires k <= |es|
  {
    forall q :: At(s.value, q) == Contains(es, disk, k, q)
  }

  /** The buffer of a holder that has changed it has that change; a holder that has not made anything
      new has made what the block contains. */
  ghost predicate MadeIs(s: State, h: nat, made: Contents) {
    h < |s.uses| && s.uses[h].Holding? ==>
      && s.uses[h].b < |s.bufs|
      && (s.uses[h].touched ==> s.bufs[s.uses[h].b].valid && s.bufs[s.uses[h].b].data == made)
      && (!s.uses[h].touched ==> made == At(s.value, s.uses[h].k))
  }

  ghost predicate Tracks(es: seq<Step>, disk: map<Key, Contents>, k: nat, s: State)
    requires k <= |es|
  {
    && KeysAre(es, k, s) && ValuesAre(es, disk, k, s)
    && forall h: nat :: MadeIs(s, h, Made(es, disk, k, h))
  }

  lemma KeysGet(s: State, t: State, e: Step, h: nat)
    requires GetStep(s, t, e)
    ensures |t.uses| == |s.uses|
    ensures h < |t.uses| && !t.uses[h].Idle? ==>
              if (e.Hit? || e.Miss?) && e.h == h then t.uses[h].k == e.k
              else !s.uses[h].Idle? && t.uses[h].k == s.uses[h].k
  {
    hide Find, Victim;
  }

  lemma KeysHold(s: State, t: State, e: Step, h: nat)
    requires HoldStep(s, t, e)
    ensures |t.uses| == |s.uses|
    ensures h < |t.uses| && !t.uses[h].Idle? ==> !s.uses[h].Idle? && t.uses[h].k == s.uses[h].k
  {
    hide At;
  }

  lemma KeysEnd(s: State, t: State, e: Step, h: nat)
    requires EndStep(s, t, e)
    ensures |t.uses| == |s.uses|
    ensures h < |t.uses| && !t.uses[h].Idle? ==> !s.uses[h].Idle? && t.uses[h].k == s.uses[h].k
  {
    hide Removed;
  }

  lemma KeysNext(s: State, t: State, e: Step, es: seq<Step>, k: nat)
    requires Next(s, t, e) && k < |es| && es[k] == e && KeysAre(es, k, s)
    ensures KeysAre(es, k + 1, t)
  {
    hide GetStep, HoldStep, EndStep;
    forall h: nat | h < |t.uses| && !t.uses[h].Idle? ensures Asked(es, k + 1, h) == Some(t.uses[h].k) {
      if GetStep(s, t, e) {
        KeysGet(s, t, e, h);
      } else if HoldStep(s, t, e) {
        KindHold(s, t, e);
        KeysHold(s, t, e, h);
      } else {
        KindEnd(s, t, e);
        KeysEnd(s, t, e, h);
      }
    }
  }

  lemma KindHold(s: State, t: State, e: Step)
    requires HoldStep(s, t, e)
    ensures e.Fill? || e.Change? || e.Write? || e.LogWrite?
  {
  }

  lemma KindEnd(s: State, t: State, e: Step)
    requires EndStep(s, t, e)
    ensures e.Unlock? || e.Drop? || e.BeginCommit? || e.EndCommit?
  {
  }

  lemma KindGet(s: State, t: State, e: Step)
    requires GetStep(s, t, e)
    ensures e.Hit? || e.Miss? || e.Lock?
  {
  }

  /** What the holder stores is what it has made. */
  lemma StoresMade(s: State, t: State, e: Step, made: Contents)
    requires Inv(s) && HoldStep(s, t, e) && (e.Write? || e.LogWrite?) && MadeIs(s, e.h, made)
    ensures e.h < |s.uses| && s.uses[e.h].Holding? && t.value == s.value[s.uses[e.h].k := made]
  {
    assert Holds(s, Mine(s, e.h));
    hide Counts, Unique, Pinned, Ordered, IsDirty;
  }

  lemma ValuesKept(s: State, t: State, e: Step)
    requires Next(s, t, e) && !e.Write? && !e.LogWrite?
    ensures t.value == s.value
  {
    hide At, Find, Victim, Removed;
  }

  lemma ValuesNext(s: State, t: State, e: Step, es: seq<Step>, disk: map<Key, Contents>, k: nat)
    requires Inv(s) && Next(s, t, e) && k < |es| && es[k] == e && Tracks(es, disk, k, s)
    ensures ValuesAre(es, disk, k + 1, t)
  {
    hide Inv, GetStep, EndStep, MadeIs, Asked;
    if e.Write? || e.LogWrite? {
      KindsApart(s, t, e);
      assert MadeIs(s, e.h, Made(es, disk, k, e.h));
      StoresMade(s, t, e, Made(es, disk, k, e.h));
      hide HoldStep;
      assert Asked(es, k, e.h) == Some(s.uses[e.h].k);
      forall q ensures At(t.value, q) == Contains(es, disk, k + 1, q) {
        assert At(s.value, q) == Contains(es, disk, k, q);
      }
    } else {
      ValuesKept(s, t, e);
      hide HoldStep;
      forall q ensures At(t.value, q) == Contains(es, disk, k + 1, q) {
        assert At(s.value, q) == Contains(es, disk, k, q);
      }
    }
  }

  lemma KindsApart(s: State, t: State, e: Step)
    requires Next(s, t, e) && (e.Fill? || e.Change? || e.Write? || e.LogWrite?)
    ensures HoldStep(s, t, e)
  {
  }

  /** Use h holds its buffer in s and is not the one that acts. */
  lemma MadeHold(s: State, t: State, e: Step, h: nat, made: Contents, made1: Contents)
    requires Inv(s) && HoldStep(s, t, e) && MadeIs(s, h, made)
    requires made1 == if e.Change? && e.h == h then e.data else made
    ensures MadeIs(t, h, made1)
  {
    hide Ordered, Pinned, IsDirty, At;
    if h < |s.uses| && s.uses[h].Holding? && h != e.h {
      Other(s, t, e, h);
      hide Inv;
    } else {
      assert e.h == h ==> Holds(s, Mine(s, h));
      hide Counts, Unique;
      if e.h == h {
        MadeOwn(s, t, e, made, made1);
      }
    }
  }

  lemma MadeOwn(s: State, t: State, e: Step, made: Contents, made1: Contents)
    requires HoldStep(s, t, e) && Keyed(s) && Holds(s, Mine(s, e.h)) && Locks(s) && MadeIs(s, e.h, made)
    requires made1 == if e.Change? then e.data else made
    ensures MadeIs(t, e.h, made1)
  {
  }

  /** The buffer and block of another holder are left alone. */
  lemma Other(s: State, t: State, e: Step, h: nat)
    requires Inv(s) && HoldStep(s, t, e) && h < |s.uses| && s.uses[h].Holding? && h != e.h
    ensures h < |t.uses| && t.uses[h] == s.uses[h] && s.uses[h].b < |s.bufs| == |t.bufs|
    ensures t.bufs[s.uses[h].b] == s.bufs[s.uses[h].b] && At(t.value, s.uses[h].k) == At(s.value, s.uses[h].k)
  {
    var b := Mine(s, e.h);
    assert s.locks[s.uses[h].b] == Some(h) && s.locks[b] == Some(e.h);
    HeldUsed(s, b, e.h);
    Alone(s, b);
    hide Counts, Unique, Ordered, Pinned, Coherent;
  }

  lemma MadeRest(s: State, t: State, e: Step, h: nat, made: Contents)
    requires Inv(s) && (GetStep(s, t, e) || EndStep(s, t, e)) && !(e.Lock? && e.h == h) && MadeIs(s, h, made)
    ensures MadeIs(t, h, made)
  {
    hide GetStep, EndStep, MadeIs;
    if GetStep(s, t, e) {
      MadeGet(s, t, e, h, made);
    } else {
      MadeEnd(s, t, e, h, made);
    }
  }

  lemma MadeGet(s: State, t: State, e: Step, h: nat, made: Contents)
    requires Inv(s) && GetStep(s, t, e) && !(e.Lock? && e.h == h) && MadeIs(s, h, made)
    ensures MadeIs(t, h, made)
  {
    hide At, Find, Users;
    if e.Miss? && h < |s.uses| && s.uses[h].Holding? {
      VictimSpare(s.mru, s.bufs);
      HeldUsed(s, s.uses[h].b, h);
    }
    hide Inv, Victim;
  }

  lemma MadeEnd(s: State, t: State, e: Step, h: nat, made: Contents)
    requires EndStep(s, t, e) && MadeIs(s, h, made)
    ensures MadeIs(t, h, made)
  {
    hide At, Removed;
  }

  lemma MadeLock(s: State, t: State, h: nat)
    requires Inv(s) && GetStep(s, t, Lock(h))
    ensures h < |s.uses| && !s.uses[h].Idle? && MadeIs(t, h, At(s.value, s.uses[h].k))
  {
    hide At, Find, Victim, Users, Locks, Unique, Pinned, Coherent, Ordered, Keyed;
  }

  lemma MadeNext(s: State, t: State, e: Step, es: seq<Step>, disk: map<Key, Contents>, k: nat, h: nat)
    requires Inv(s) && Next(s, t, e) && k < |es| && es[k] == e && Tracks(es, disk, k, s)
    ensures MadeIs(t, h, Made(es, disk, k + 1, h))
  {
    hide Inv, HoldStep, GetStep, EndStep, MadeIs, Asked, Contains;
    assert MadeIs(s, h, Made(es, disk, k, h));
    if HoldStep(s, t, e) {
      KindHold(s, t, e);
      MadeHold(s, t, e, h, Made(es, disk, k, h), Made(es, disk, k + 1, h));
    } else if e.Lock? && e.h == h {
      KindLock(s, t, e);
      MadeLock(s, t, h);
      assert Asked(es, k, h) == Some(s.uses[h].k);
      assert At(s.value, s.uses[h].k) == Contains(es, disk, k, s.uses[h].k);
    } else {
      KindRest(s, t, e);
      MadeRest(s, t, e, h, Made(es, disk, k, h));
    }
  }

  lemma KindLock(s: State, t: State, e: Step)
    requires Next(s, t, e) && e.Lock?
    ensures GetStep(s, t, e)
  {
  }

  lemma KindRest(s: State, t: State, e: Step)
    requires Next(s, t, e) && !HoldStep(s, t, e)
    ensures (GetStep(s, t, e) || EndStep(s, t, e)) && !e.Change?
  {
  }

  lemma TracksInit(s: State, es: seq<Step>)
    requires Init(s)
    ensures Tracks(es, s.disk, 0, s)
  {
  }

  lemma {:induction false} TracksAll(ss: seq<State>, es: seq<Step>, k: nat)
    requires Run(ss, es) && k <= |es|
    ensures Tracks(es, ss[0].disk, k, ss[k])
    decreases k
  {
    hide Inv, Next, Init, Tracks;
    if k == 0 {
      TracksInit(ss[0], es);
    } else {
      TracksAll(ss, es, k - 1);
      Kept(ss, es, k - 1);
      TracksNext(ss[k - 1], ss[k], es[k - 1], es, ss[0].disk, k - 1);
    }
  }

  lemma TracksNext(s: State, t: State, e: Step, es: seq<Step>, disk: map<Key, Contents>, k: nat)
    requires Inv(s) && Next(s, t, e) && k < |es| && es[k] == e && Tracks(es, disk, k, s)
    ensures Tracks(es, disk, k + 1, t)
  {
    hide Inv, Next, KeysAre, ValuesAre, MadeIs;
    KeysNext(s, t, e, es, k);
    ValuesNext(s, t, e, es, disk, k);
    var next := k + 1;
    forall h: nat ensures MadeIs(t, h, Made(es, disk, next, h)) {
      MadeNext(s, t, e, es, disk, k, h);
    }
  }

  /** If use h holds a buffer, it is that of the block it asked for and, if valid, holds what h has made of
      it. */
  ghost predicate HasMade(es: seq<Step>, disk: map<Key, Contents>, k: nat, s: State, h: nat)
    requires k <= |es|
  {
    h < |s.uses| && s.uses[h].Holding? ==>
      && s.uses[h].b < |s.bufs| && Asked(es, k, h) == Some(s.bufs[s.uses[h].b].key)
      && (s.bufs[s.uses[h].b].valid ==> s.bufs[s.uses[h].b].data == Made(es, disk, k, h))
  }

  /** Every run: each block's value is what its holder had made of it when it was last logged or written;
      a holder's valid buffer is of the block it asked for and holds what it has made of it; and where no
      buffer of a block is dirty, the disk holds the block's value. */
  lemma BlocksAreTheirLast(ss: seq<State>, es: seq<Step>, k: nat)
    requires Run(ss, es) && k <= |es|
    ensures forall q :: At(ss[k].value, q) == Contains(es, ss[0].disk, k, q)
    ensures forall q :: !IsDirty(ss[k], q) ==> At(ss[k].disk, q) == Contains(es, ss[0].disk, k, q)
    ensures forall h: nat :: HasMade(es, ss[0].disk, k, ss[k], h)
  {
    hide Init, Next, Asked, Contains, Made, At, Counts, Locks, Unique, Pinned, Ordered, IsDirty;
    TracksAll(ss, es, k);
    Kept(ss, es, k);
    hide Run;
    forall h: nat ensures HasMade(es, ss[0].disk, k, ss[k], h) {
      if h < |ss[k].uses| && ss[k].uses[h].Holding? {
        HolderHas(ss[k], h, Made(es, ss[0].disk, k, h));
      }
    }
  }

  lemma HolderHas(s: State, h: nat, made: Contents)
    requires Inv(s) && h < |s.uses| && s.uses[h].Holding? && MadeIs(s, h, made)
    ensures var b := s.uses[h].b;
      b < |s.bufs| && s.bufs[b].key == s.uses[h].k && (s.bufs[b].valid ==> s.bufs[b].data == made)
  {
    hide At, Counts, Unique, Pinned, Ordered, IsDirty;
    assert Holds(s, s.uses[h].b);
  }

  /** Every run: if use h of block q changed it to data and logged it, and nobody has logged or written q
      since, then what another use of q that has changed nothing reads is data. */
  lemma ChangeIsRead(ss: seq<State>, es: seq<Step>, i: nat, j: nat, k: nat, h: nat, g: nat, q: Key)
    requires Run(ss, es) && i < j < k <= |es| && es[i].Change? && es[i].h == h && Stores(es[j], h)
    requires Asked(es, j, h) == Some(q) && Asked(es, k, g) == Some(q)
    requires forall m :: i < m < j ==> !(es[m].Change? && es[m].h == h) && !(es[m].Lock? && es[m].h == h)
    requires forall m :: j < m < k ==> !((es[m].Write? || es[m].LogWrite?) && Asked(es, m, es[m].h) == Some(q))
    requires g < |ss[k].uses| && ss[k].uses[g].Holding? && !ss[k].uses[g].touched
    ensures var b := ss[k].uses[g].b;
      b < |ss[k].bufs| && (ss[k].bufs[b].valid ==> ss[k].bufs[b].data == es[i].data)
  {
    hide Init, Next, Asked;
    MadeStays(es, ss[0].disk, i + 1, j, h);
    ContainsStays(es, ss[0].disk, j + 1, k, q);
    TracksAll(ss, es, k);
    Kept(ss, es, k);
    hide Run, Contains, Made, At;
    assert ss[k].uses[g].k == q;
    HolderHas(ss[k], g, Made(es, ss[0].disk, k, g));
    assert MadeIs(ss[k], g, Made(es, ss[0].disk, k, g));
  }

  lemma {:induction false} MadeStays(es: seq<Step>, disk: map<Key, Contents>, i: nat, j: nat, h: nat)
    requires i <= j <= |es|
    requires forall m :: i <= m < j ==> !(es[m].Change? && es[m].h == h) && !(es[m].Lock? && es[m].h == h)
    ensures Made(es, disk, j, h) == Made(es, disk, i, h)
    decreases j
  {
    if i < j {
      MadeStays(es, disk, i, j - 1, h);
    }
  }

  lemma {:induction false} ContainsStays(es: seq<Step>, disk: map<Key, Contents>, i: nat, j: nat, q: Key)
    requires i <= j <= |es|
    requires forall m :: i <= m < j ==> !((es[m].Write? || es[m].LogWrite?) && Asked(es, m, es[m].h) == Some(q))
    ensures Contains(es, disk, j, q) == Contains(es, disk, i, q)
    decreases j
  {
    if i < j {
      ContainsStays(es, disk, i, j - 1, q);
    }
  }

  // ---- Commits ------------------------------------------------------------------------------------

  /** A commit has begun and not ended. */
  predicate InCommit(es: seq<Step>, k: nat)
    requires k <= |es|
  {
    k > 0 && (es[k - 1].BeginCommit? || (InCommit(es, k - 1) && !es[k - 1].EndCommit?))
  }

  function AskedSet(es: seq<Step>, k: nat, h: nat): set<Key>
    requires k <= |es|
  {
    if Asked(es, k, h).Some? then {Asked(es, k, h).value} else {}
  }

  /** The blocks logged since the last commit ended. */
  function LoggedSince(es: seq<Step>, k: nat): set<Key>
    requires k <= |es|
  {
    if k == 0 || es[k - 1].EndCommit? then {}
    else LoggedSince(es, k - 1) + if es[k - 1].LogWrite? then AskedSet(es, k - 1, es[k - 1].h) else {}
  }

  /** The blocks written since the commit in progress began. */
  function WrittenSince(es: seq<Step>, k: nat): set<Key>
    requires k <= |es|
  {
    if k == 0 || es[k - 1].BeginCommit? || es[k - 1].EndCommit? then {}
    else WrittenSince(es, k - 1)
         + if es[k - 1].Write? && InCommit(es, k - 1) then AskedSet(es, k - 1, es[k - 1].h) else {}
  }

  lemma CommitStep(s: State, t: State, e: Step)
    requires Keyed(s) && Next(s, t, e)
    ensures t.committing == (e.BeginCommit? || (s.committing && !e.EndCommit?))
    ensures e.LogWrite? || e.Write? ==> e.h < |s.uses| && !s.uses[e.h].Idle?
    ensures t.header == if e.EndCommit? then {}
                        else s.header + if e.LogWrite? then {s.uses[e.h].k} else {}
    ensures t.installed == if e.BeginCommit? || e.EndCommit? then {}
                           else s.installed + if e.Write? && s.committing then {s.uses[e.h].k} else {}
  {
    hide GetStep, HoldStep, EndStep;
    if GetStep(s, t, e) {
      KindGet(s, t, e);
      CommitGet(s, t, e);
    } else if HoldStep(s, t, e) {
      KindHold(s, t, e);
      CommitHold(s, t, e);
    } else {
      KindEnd(s, t, e);
      CommitEnds(s, t, e);
    }
  }

  lemma CommitGet(s: State, t: State, e: Step)
    requires GetStep(s, t, e)
    ensures t.committing == s.committing && t.header == s.header && t.installed == s.installed
  {
    hide Find, Victim;
  }

  lemma CommitHold(s: State, t: State, e: Step)
    requires Keyed(s) && HoldStep(s, t, e)
    ensures t.committing == s.committing && e.h < |s.uses| && !s.uses[e.h].Idle?
    ensures t.header == s.header + if e.LogWrite? then {s.uses[e.h].k} else {}
    ensures t.installed == s.installed + if e.Write? && s.committing then {s.uses[e.h].k} else {}
  {
    hide At;
  }

  lemma CommitEnds(s: State, t: State, e: Step)
    requires EndStep(s, t, e)
    ensures t.committing == (e.BeginCommit? || (s.committing && !e.EndCommit?))
    ensures t.header == if e.EndCommit? then {} else s.header
    ensures t.installed == if e.BeginCommit? || e.EndCommit? then {} else s.installed
  {
    hide Removed;
  }

  /** Every run: the log header names exactly the blocks logged since the last commit ended, and a commit ends
      only when each of them has been written home since it began, and can end then. */
  lemma {:induction false} CommitsExactly(ss: seq<State>, es: seq<Step>, k: nat)
    requires Run(ss, es) && k <= |es|
    ensures ss[k].committing == InCommit(es, k) && ss[k].header == LoggedSince(es, k)
    ensures ss[k].installed == WrittenSince(es, k)
    decreases k
  {
    hide Next, Asked;
    if k > 0 {
      hide Init;
      CommitsExactly(ss, es, k - 1);
      TracksAll(ss, es, k - 1);
      Kept(ss, es, k - 1);
      CommitStep(ss[k - 1], ss[k], es[k - 1]);
      hide Inv, Made, Contains;
      if es[k - 1].LogWrite? || es[k - 1].Write? {
        assert Asked(es, k - 1, es[k - 1].h) == Some(ss[k - 1].uses[es[k - 1].h].k);
      }
    }
  }

  lemma CommitEndsWhen(ss: seq<State>, es: seq<Step>, k: nat)
    requires Run(ss, es) && k <= |es|
    ensures (exists t :: Next(ss[k], t, EndCommit)) <==> InCommit(es, k) && LoggedSince(es, k) <= WrittenSince(es, k)
  {
    CommitsExactly(ss, es, k);
    hide Run, InCommit, LoggedSince, WrittenSince;
    var s := ss[k];
    if s.committing && s.header <= s.installed {
      assert Next(s, s.(committing := false, header := {}, installed := {}), EndCommit);
    }
  }

  // ---- Which buffer is recycled -----------------------------------------------------------------

  /** Step j ended the last use of buffer b. */
  predicate Freed(s: State, t: State, e: Step, b: nat) {
    && e.Drop? && e.h < |s.uses| && !s.uses[e.h].Idle? && s.uses[e.h].b == b
    && b < |t.bufs| && t.bufs[b].refcnt == 0
  }

  /** When buffer b's last use ended; the buffers never used come before, in the order of their numbers. */
  function LastFreed(ss: seq<State>, es: seq<Step>, k: nat, b: nat): int
    requires |ss| == |es| + 1 && k <= |es|
  {
    if k == 0 then b - |ss[0].bufs|
    else if Freed(ss[k - 1], ss[k], es[k - 1], b) then k - 1
    else LastFreed(ss, es, k - 1, b)
  }

  lemma StampStep(s: State, t: State, e: Step, b: nat)
    requires Inv(s) && Next(s, t, e) && b < |s.bufs|
    ensures |t.bufs| == |s.bufs| == |s.stamp| == |t.stamp|
    ensures if Freed(s, t, e, b) then t.stamp[b] == s.clock else t.stamp[b] == s.stamp[b]
  {
    hide GetStep, HoldStep, EndStep;
    StampsSized(s);
    hide Inv;
    if EndStep(s, t, e) {
      StampEnd(s, t, e, b);
    } else {
      SameSize(s, t, e);
      StampRest(s, t, e, b);
    }
  }

  lemma StampsSized(s: State)
    requires Inv(s)
    ensures |s.stamp| == |s.bufs|
  {
    hide Coherent, Counts, Locks, Unique, Pinned, Keyed;
  }

  lemma StampEnd(s: State, t: State, e: Step, b: nat)
    requires EndStep(s, t, e) && b < |s.bufs| == |s.stamp|
    ensures |t.bufs| == |s.bufs| == |t.stamp|
    ensures if Freed(s, t, e, b) then t.stamp[b] == s.clock else t.stamp[b] == s.stamp[b]
  {
    hide Removed;
  }

  lemma StampRest(s: State, t: State, e: Step, b: nat)
    requires GetStep(s, t, e) || HoldStep(s, t, e)
    ensures t.stamp == s.stamp && !Freed(s, t, e, b)
  {
    hide At, Find, Victim;
  }

  lemma {:induction false} FreedBefore(ss: seq<State>, es: seq<Step>, k: nat, b: nat)
    requires |ss| == |es| + 1 && k <= |es| && b < |ss[0].bufs|
    ensures LastFreed(ss, es, k, b) < k
    decreases k
  {
    if k > 0 {
      hide Freed;
      FreedBefore(ss, es, k - 1, b);
    }
  }

  /** The stamps order the buffers as their last uses ended. */
  lemma {:induction false} StampsAre(ss: seq<State>, es: seq<Step>, k: nat, b: nat, c: nat)
    requires Run(ss, es) && k <= |es| && b < |ss[0].bufs| && c < |ss[0].bufs|
    ensures |ss[k].bufs| == |ss[k].stamp| == |ss[0].bufs|
    ensures ss[k].stamp[b] < ss[k].stamp[c] <==> LastFreed(ss, es, k, b) < LastFreed(ss, es, k, c)
    decreases k
  {
    hide Inv, Next, Freed;
    if k > 0 {
      hide Init;
      StampsAre(ss, es, k - 1, b, c);
      Kept(ss, es, k - 1);
      StampStep(ss[k - 1], ss[k], es[k - 1], b);
      StampStep(ss[k - 1], ss[k], es[k - 1], c);
      ClockAhead(ss[k - 1], b);
      ClockAhead(ss[k - 1], c);
      FreedBefore(ss, es, k - 1, b);
      FreedBefore(ss, es, k - 1, c);
      OneFreed(ss[k - 1], ss[k], es[k - 1], b, c);
    }
  }

  lemma OneFreed(s: State, t: State, e: Step, b: nat, c: nat)
    ensures Freed(s, t, e, b) && Freed(s, t, e, c) ==> b == c
  {
  }

  lemma ClockAhead(s: State, b: nat)
    requires Inv(s) && b < |s.bufs|
    ensures b < |s.stamp| && s.stamp[b] < s.clock
  {
    hide Coherent, Counts, Locks, Unique, Pinned, Keyed;
    assert b in s.mru;
  }

  /** Every run: the buffer recycled is, of those that nobody uses and the log does not pin, the one whose
      last use ended first. */
  lemma RecyclesFirstFreed(ss: seq<State>, es: seq<Step>, k: nat)
    requires Run(ss, es) && k < |es| && es[k].Miss?
    ensures es[k].b < |ss[k].bufs| == |ss[0].bufs| && Spare(ss[k].bufs, es[k].b)
    ensures forall b: nat :: b < |ss[k].bufs| && Spare(ss[k].bufs, b) && b != es[k].b ==>
              LastFreed(ss, es, k, es[k].b) < LastFreed(ss, es, k, b)
  {
    hide Init, Next, Freed, LastFreed, Spare;
    RecyclesOldest(ss, es, k);
    BufsSame(ss, es, k);
    forall b: nat | b < |ss[k].bufs| && Spare(ss[k].bufs, b) && b != es[k].b
      ensures LastFreed(ss, es, k, es[k].b) < LastFreed(ss, es, k, b)
    {
      StampsAre(ss, es, k, es[k].b, b);
    }
  }

  lemma {:induction false} BufsSame(ss: seq<State>, es: seq<Step>, k: nat)
    requires Run(ss, es) && k <= |es|
    ensures |ss[k].bufs| == |ss[0].bufs|
    decreases k
  {
    hide Init, Next;
    if k > 0 {
      BufsSame(ss, es, k - 1);
      SameSize(ss[k - 1], ss[k], es[k - 1]);
    }
  }

  lemma SameSize(s: State, t: State, e: Step)
    requires Next(s, t, e)
    ensures |t.bufs| == |s.bufs|
  {
    hide At, Find, Victim, Removed, GetStep, HoldStep, EndStep;
    if GetStep(s, t, e) {
      SizeGet(s, t, e);
    } else if HoldStep(s, t, e) {
      SizeHold(s, t, e);
    } else {
      SizeEnd(s, t, e);
    }
  }

  lemma SizeGet(s: State, t: State, e: Step)
    requires GetStep(s, t, e)
    ensures |t.bufs| == |s.bufs|
  {
    hide Find, Victim;
  }

  lemma SizeHold(s: State, t: State, e: Step)
    requires HoldStep(s, t, e)
    ensures |t.bufs| == |s.bufs|
  {
    hide At;
  }

  lemma SizeEnd(s: State, t: State, e: Step)
    requires EndStep(s, t, e)
    ensures |t.bufs| == |s.bufs|
  {
    hide Removed;
  }

  // ---- Nobody is stuck -------------------------------------------------------------------------------

  ghost predicate Can(s: State, e: Step) {
    exists t :: Next(s, t, e)
  }

  /** bread of any block finds its buffer, or recycles one, or there is none to recycle. */
  lemma AnyRead(s: State, h: nat, k: Key)
    requires Inv(s) && h < |s.uses| && s.uses[h].Idle? && k.dev != 0
    ensures || (exists b: nat :: Can(s, Hit(h, k, b)))
            || (exists b: nat :: Can(s, Miss(h, k, b)))
            || forall b: nat :: b < |s.bufs| ==> s.bufs[b].key != k && (s.bufs[b].refcnt > 0 || s.bufs[b].dirty)
  {
    hide HoldStep, EndStep, Counts, Locks, Unique, Pinned, Coherent, Keyed;
    FindIs(s.mru, s.bufs, k);
    VictimIs(s.mru, s.bufs);
    if Find(s.mru, s.bufs, k).Some? {
      var b := Find(s.mru, s.bufs, k).value;
      assert Next(s, SetUse(SetBuf(s, b, Again(s.bufs[b])), h, Acquiring(b, k)), Hit(h, k, b));
      assert Can(s, Hit(h, k, b));
    } else if Victim(s.mru, s.bufs).Some? {
      var b := Victim(s.mru, s.bufs).value;
      assert Next(s, SetUse(SetBuf(s, b, Anew(s.bufs[b], k)), h, Acquiring(b, k)), Miss(h, k, b));
      assert Can(s, Miss(h, k, b));
    } else {
      forall b: nat | b < |s.bufs| ensures s.bufs[b].key != k && (s.bufs[b].refcnt > 0 || s.bufs[b].dirty) {
        assert b in s.mru;
        var i :| 0 <= i < |s.mru| && s.mru[i] == b;
        assert !Spare(s.bufs, s.mru[i]);
      }
    }
  }

  /** A use gets the sleep lock of its buffer as soon as nobody holds it. */
  lemma AnyLock(s: State, h: nat)
    requires Inv(s) && h < |s.uses| && s.uses[h].Acquiring?
    ensures Can(s, Lock(h)) <==> forall g :: 0 <= g < |s.uses| && s.uses[g].Holding? ==> s.uses[g].b != s.uses[h].b
  {
    hide HoldStep, EndStep, Unique, Pinned, Coherent, Ordered, Keyed, Users;
    var b := s.uses[h].b;
    assert b < |s.locks|;
    if s.locks[b] == None {
      assert Next(s, SetUse(s.(locks := s.locks[b := Some(h)]), h, Holding(b, s.uses[h].k, false)), Lock(h));
    } else {
      assert Held(s, s.locks[b].value, b);
      if Can(s, Lock(h)) {
        var t :| Next(s, t, Lock(h));
        KindLock(s, t, Lock(h));
      }
    }
  }

  /** The holder of a valid buffer can change it to anything, write it, log it unless a commit runs, and
      release it once what it changed is logged or written. */
  lemma AnyUse(s: State, h: nat, data: Contents)
    requires Inv(s) && h < |s.uses| && s.uses[h].Holding?
    ensures s.uses[h].b < |s.bufs|
    ensures !s.bufs[s.uses[h].b].valid ==> Can(s, Fill(h))
    ensures s.bufs[s.uses[h].b].valid ==>
              Can(s, Change(h, data)) && Can(s, Write(h)) && (!s.committing ==> Can(s, LogWrite(h)))
    ensures !s.uses[h].touched ==> Can(s, Unlock(h))
  {
    hide GetStep, Unique, Pinned, Coherent, Ordered, Keyed, Users, At;
    var b, k := s.uses[h].b, s.uses[h].k;
    var buf := s.bufs[b];
    if !buf.valid {
      assert Next(s, SetBuf(s, b, buf.(valid := true, data := At(s.disk, buf.key))), Fill(h));
    } else {
      var value := s.value[buf.key := buf.data];
      assert Next(s, SetUse(SetBuf(s, b, buf.(data := data)), h, Holding(b, k, true)), Change(h, data));
      assert Next(s, SetUse(SetBuf(s, b, buf.(dirty := false)), h, Holding(b, k, false)).(
                       disk := s.disk[buf.key := buf.data], value := value,
                       installed := if s.committing then s.installed + {buf.key} else s.installed), Write(h));
      if !s.committing {
        assert Next(s, SetUse(SetBuf(s, b, buf.(dirty := true)), h, Holding(b, k, false)).(
                         header := s.header + {buf.key}, value := value), LogWrite(h));
      }
    }
    if !s.uses[h].touched {
      assert Next(s, SetUse(s.(locks := s.locks[b := None]), h, Releasing(b, k)), Unlock(h));
    }
  }
}
