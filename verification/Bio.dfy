/** bio.c with log.c's pinning: the buffer cache as a step system over its users. */
module Bio {
  import opened Common
  import opened BufRing

  datatype Key = Key(dev: nat, blockno: nat)

  datatype Buf = Buf(key: Key, valid: bool, dirty: bool, refcnt: nat, data: Contents)

  /** One use of a buffer, from bget to brelse. k: the block asked for. `touched`: its holder
      has changed the data and not yet logged or written it. */
  datatype Use =
    | Idle | Acquiring(b: nat, k: Key) | Holding(b: nat, k: Key, touched: bool) | Releasing(b: nat, k: Key)

  /** locks holds the owners of the sleep locks. value is the block as last logged or written;
      stamp the time of each buffer's last release. */
  datatype State = State(
    bufs: seq<Buf>, mru: seq<nat>, locks: seq<Option<nat>>, uses: seq<Use>,
    disk: map<Key, Contents>, header: set<Key>, installed: set<Key>, committing: bool,
    value: map<Key, Contents>, stamp: seq<int>, clock: int)

  function At(m: map<Key, Contents>, k: Key): Contents { if k in m then m[k] else [] }

  // ---- bget's scans -------------------------------------------------------------------

  /** From the most recently released on, the buffer of the block. */
  function Find(mru: seq<nat>, bufs: seq<Buf>, k: Key): Option<nat> {
    if mru == [] then None
    else if mru[0] < |bufs| && bufs[mru[0]].key == k then Some(mru[0])
    else Find(mru[1..], bufs, k)
  }

  predicate Spare(bufs: seq<Buf>, b: nat) {
    b < |bufs| && bufs[b].refcnt == 0 && !bufs[b].dirty
  }

  /** From the least recently released on, a buffer that nobody uses and the log does not pin. */
  function Victim(mru: seq<nat>, bufs: seq<Buf>): Option<nat> {
    if mru == [] then None
    else if Spare(bufs, mru[|mru| - 1]) then Some(mru[|mru| - 1])
    else Victim(mru[..|mru| - 1], bufs)
  }

  lemma {:induction false} FindIs(mru: seq<nat>, bufs: seq<Buf>, k: Key)
    ensures Find(mru, bufs, k).Some? ==>
              Find(mru, bufs, k).value in mru && Find(mru, bufs, k).value < |bufs|
              && bufs[Find(mru, bufs, k).value].key == k
    ensures Find(mru, bufs, k).None? ==> forall b :: b in mru && b < |bufs| ==> bufs[b].key != k
  {
    if mru != [] {
      FindIs(mru[1..], bufs, k);
      assert forall b :: b in mru <==> b == mru[0] || b in mru[1..];
    }
  }

  /** The victim is spare, and no spare buffer comes after it. */
  lemma {:induction false} VictimIs(mru: seq<nat>, bufs: seq<Buf>)
    ensures Victim(mru, bufs).Some? ==>
              exists i :: 0 <= i < |mru| && mru[i] == Victim(mru, bufs).value && Spare(bufs, mru[i])
                && forall j :: i < j < |mru| ==> !Spare(bufs, mru[j])
    ensures Victim(mru, bufs).None? ==> forall i :: 0 <= i < |mru| ==> !Spare(bufs, mru[i])
  {
    if mru != [] && !Spare(bufs, mru[|mru| - 1]) {
      var rest := mru[..|mru| - 1];
      VictimIs(rest, bufs);
      if Victim(rest, bufs).Some? {
        var i :| 0 <= i < |rest| && rest[i] == Victim(rest, bufs).value && Spare(bufs, rest[i])
          && forall j :: i < j < |rest| ==> !Spare(bufs, rest[j]);
        assert mru[i] == rest[i];
        forall j | i < j < |mru| ensures !Spare(bufs, mru[j]) {
          assert j < |rest| ==> mru[j] == rest[j];
        }
      } else {
        forall j | 0 <= j < |mru| ensures !Spare(bufs, mru[j]) {
          assert j < |rest| ==> mru[j] == rest[j];
        }
      }
    }
  }

  // ---- Steps --------------------------------------------------------------------------

  datatype Step =
    | Hit(h: nat, k: Key, b: nat) | Miss(h: nat, k: Key, b: nat) | Lock(h: nat) | Fill(h: nat)
    | Change(h: nat, data: Contents) | Write(h: nat) | LogWrite(h: nat) | Unlock(h: nat) | Drop(h: nat, i: nat)
    | BeginCommit | EndCommit

  function SetBuf(s: State, b: nat, buf: Buf): State
    requires b < |s.bufs|
  {
    s.(bufs := s.bufs[b := buf])
  }

  function SetUse(s: State, h: nat, u: Use): State
    requires h < |s.uses|
  {
    s.(uses := s.uses[h := u])
  }

  /** Use h holds buffer b. */
  predicate Held(s: State, h: nat, b: nat) {
    h < |s.uses| && s.uses[h].Holding? && s.uses[h].b == b && b < |s.bufs|
  }

  function Mine(s: State, h: nat): nat {
    if h < |s.uses| && !s.uses[h].Idle? then s.uses[h].b else 0
  }

  /** One more user, or recycled for block k. */
  function Again(buf: Buf): Buf { buf.(refcnt := buf.refcnt + 1) }
  function Anew(buf: Buf, k: Key): Buf { buf.(key := k, valid := false, dirty := false, refcnt := 1) }

  /** bget, under bcache.lock, up to acquiresleep. */
  predicate GetStep(s: State, t: State, e: Step) {
    match e
    case Hit(h, k, b) =>
      h < |s.uses| && s.uses[h].Idle? && k.dev != 0 && Find(s.mru, s.bufs, k) == Some(b) && b < |s.bufs|
      && t == SetUse(SetBuf(s, b, Again(s.bufs[b])), h, Acquiring(b, k))
    case Miss(h, k, b) =>
      h < |s.uses| && s.uses[h].Idle? && k.dev != 0 && Find(s.mru, s.bufs, k) == None
      && Victim(s.mru, s.bufs) == Some(b) && b < |s.bufs|
      && t == SetUse(SetBuf(s, b, Anew(s.bufs[b], k)), h, Acquiring(b, k))
    case Lock(h) =>
      var b := Mine(s, h);
      h < |s.uses| && s.uses[h].Acquiring? && b < |s.locks| && s.locks[b] == None
      && t == SetUse(s.(locks := s.locks[b := Some(h)]), h, Holding(b, s.uses[h].k, false))
    case _ => false
  }

  /** What the holder of a buffer does: bread's read, a change, bwrite, log_write. */
  predicate HoldStep(s: State, t: State, e: Step) {
    match e
    case Fill(h) =>
      var b := Mine(s, h);
      Held(s, h, b) && !s.bufs[b].valid
      && t == SetBuf(s, b, s.bufs[b].(valid := true, data := At(s.disk, s.bufs[b].key)))
    case Change(h, data) =>
      var b := Mine(s, h);
      Held(s, h, b) && s.bufs[b].valid
      && t == SetUse(SetBuf(s, b, s.bufs[b].(data := data)), h, Holding(b, s.uses[h].k, true))
    case Write(h) =>
      var b := Mine(s, h);
      Held(s, h, b) && s.bufs[b].valid
      && t == SetUse(SetBuf(s, b, s.bufs[b].(dirty := false)), h, Holding(b, s.uses[h].k, false)).(
                disk := s.disk[s.bufs[b].key := s.bufs[b].data], value := s.value[s.bufs[b].key := s.bufs[b].data],
                installed := if s.committing then s.installed + {s.bufs[b].key} else s.installed)
    case LogWrite(h) =>
      var b := Mine(s, h);
      Held(s, h, b) && s.bufs[b].valid && !s.committing
      && t == SetUse(SetBuf(s, b, s.bufs[b].(dirty := true)), h, Holding(b, s.uses[h].k, false)).(
                header := s.header + {s.bufs[b].key}, value := s.value[s.bufs[b].key := s.bufs[b].data])
    case _ => false
  }

  /** brelse in its two steps, and the two ends of commit. */
  predicate EndStep(s: State, t: State, e: Step) {
    match e
    case Unlock(h) =>
      var b := Mine(s, h);
      Held(s, h, b) && !s.uses[h].touched && b < |s.locks|
      && t == SetUse(s.(locks := s.locks[b := None]), h, Releasing(b, s.uses[h].k))
    case Drop(h, i) =>
      var b := Mine(s, h);
      h < |s.uses| && s.uses[h].Releasing? && b < |s.bufs| && s.bufs[b].refcnt > 0 && b < |s.stamp|
      && i < |s.mru| && s.mru[i] == b
      && (var u := SetUse(SetBuf(s, b, s.bufs[b].(refcnt := s.bufs[b].refcnt - 1)), h, Idle);
          t == if s.bufs[b].refcnt > 1 then u
               else u.(mru := [b] + Removed(s.mru, i), stamp := s.stamp[b := s.clock], clock := s.clock + 1))
    case BeginCommit => !s.committing && t == s.(committing := true, installed := {})
    case EndCommit =>
      s.committing && s.header <= s.installed && t == s.(committing := false, header := {}, installed := {})
    case _ => false
  }

  predicate Next(s: State, t: State, e: Step) {
    GetStep(s, t, e) || HoldStep(s, t, e) || EndStep(s, t, e)
  }

  /** After binit: zeroed buffers, the last one first. */
  predicate Init(s: State) {
    && (forall b :: 0 <= b < |s.bufs| ==> s.bufs[b] == Buf(Key(0, 0), false, false, 0, s.bufs[b].data))
    && |s.mru| == |s.bufs| == |s.locks| == |s.stamp|
    && (forall i :: 0 <= i < |s.mru| ==> s.mru[i] == |s.bufs| - 1 - i)
    && (forall b :: 0 <= b < |s.bufs| ==> s.locks[b] == None && s.stamp[b] == b)
    && (forall h :: 0 <= h < |s.uses| ==> s.uses[h].Idle?)
    && s.header == {} && s.installed == {} && !s.committing && s.value == s.disk && s.clock == |s.bufs|
  }

  ghost predicate Run(ss: seq<State>, es: seq<Step>) {
    && |ss| == |es| + 1 && Init(ss[0])
    && forall i :: 0 <= i < |es| ==> Next(ss[i], ss[i + 1], es[i])
  }

  // ---- Invariants -------------------------------------------------------------------------

  predicate Uses(u: Use, b: nat) { !u.Idle? && u.b == b }

  ghost function Users(uses: seq<Use>, b: nat): set<nat> {
    set h: nat | h < |uses| && Uses(uses[h], b)
  }

  /** refcnt counts the uses of each buffer. */
  ghost predicate Counts(s: State) {
    && (forall h :: 0 <= h < |s.uses| && !s.uses[h].Idle? ==> s.uses[h].b < |s.bufs|)
    && (forall b :: 0 <= b < |s.bufs| ==> s.bufs[b].refcnt == |Users(s.uses, b)|)
  }

  /** A buffer's sleep lock belongs to the use that holds it. */
  ghost predicate Locks(s: State) {
    && |s.locks| == |s.bufs|
    && (forall b :: 0 <= b < |s.locks| && s.locks[b].Some? ==> Held(s, s.locks[b].value, b))
    && (forall h :: 0 <= h < |s.uses| && s.uses[h].Holding? ==>
          s.uses[h].b < |s.locks| && s.locks[s.uses[h].b] == Some(h))
  }

  /** At most one buffer per block; the zeroed buffers of device 0 are in no use. */
  ghost predicate Unique(s: State) {
    && (forall b, c :: 0 <= b < c < |s.bufs| && s.bufs[b].key == s.bufs[c].key ==> s.bufs[b].key.dev == 0)
    && (forall b :: 0 <= b < |s.bufs| && s.bufs[b].key.dev == 0 ==>
          !s.bufs[b].valid && !s.bufs[b].dirty && s.bufs[b].refcnt == 0)
  }

  /** A dirty buffer is valid and pinned by the log header, until commit has installed it. */
  ghost predicate Pinned(s: State) {
    forall b :: 0 <= b < |s.bufs| && s.bufs[b].dirty ==>
      s.bufs[b].valid && s.bufs[b].key in s.header && !(s.committing && s.bufs[b].key in s.installed)
  }

  predicate Touched(s: State, b: nat) {
    b < |s.locks| && s.locks[b].Some? && s.locks[b].value < |s.uses| && Held(s, s.locks[b].value, b)
    && s.uses[s.locks[b].value].touched
  }

  ghost predicate IsDirty(s: State, k: Key) {
    exists b :: 0 <= b < |s.bufs| && s.bufs[b].dirty && s.bufs[b].key == k
  }

  /** Buffer b, unless invalid or being changed, holds the last logged or written value. */
  predicate Holds(s: State, b: nat) {
    b < |s.bufs| && (s.bufs[b].valid && !Touched(s, b) ==> s.bufs[b].data == At(s.value, s.bufs[b].key))
  }

  /** Valid buffers hold the last logged or written value, and so does the disk where no
      buffer is dirty. */
  ghost predicate Coherent(s: State) {
    && (forall b: nat :: b < |s.bufs| ==> Holds(s, b))
    && (forall k :: !IsDirty(s, k) ==> At(s.disk, k) == At(s.value, k))
  }

  /** mru lists every buffer once, the latest released first. */
  ghost predicate Ordered(s: State) {
    && |s.stamp| == |s.bufs|
    && (forall b: nat :: b < |s.bufs| ==> b in s.mru)
    && (forall i :: 0 <= i < |s.mru| ==> s.mru[i] < |s.bufs| && s.stamp[s.mru[i]] < s.clock)
    && (forall i, j :: 0 <= i < j < |s.mru| ==> s.stamp[s.mru[i]] > s.stamp[s.mru[j]])
  }

  /** From bget on, a use's buffer stays that of the block asked for. */
  ghost predicate Keyed(s: State) {
    forall h :: 0 <= h < |s.uses| && !s.uses[h].Idle? ==>
      s.uses[h].b < |s.bufs| && s.bufs[s.uses[h].b].key == s.uses[h].k
  }

  ghost predicate Inv(s: State) {
    Counts(s) && Locks(s) && Unique(s) && Pinned(s) && Coherent(s) && Ordered(s) && Keyed(s)
  }

  // ---- Counting users -----------------------------------------------------------------------

  lemma UsersJoin(uses: seq<Use>, h: nat, u: Use, b: nat)
    requires h < |uses| && uses[h].Idle? && !u.Idle?
    ensures |Users(uses[h := u], b)| == |Users(uses, b)| + if u.b == b then 1 else 0
  {
    var with, without := Users(uses[h := u], b), Users(uses, b);
    assert h !in without;
    if u.b == b {
      assert with == without + {h};
    } else {
      assert with == without;
    }
  }

  lemma UsersLeave(uses: seq<Use>, h: nat, b: nat)
    requires h < |uses| && !uses[h].Idle?
    ensures |Users(uses[h := Idle], b)| == |Users(uses, b)| - if uses[h].b == b then 1 else 0
  {
    if uses[h].b == b {
      assert Users(uses, b) == Users(uses[h := Idle], b) + {h};
    } else {
      assert Users(uses[h := Idle], b) == Users(uses, b);
    }
  }

  lemma UsersStay(uses: seq<Use>, h: nat, u: Use, b: nat)
    requires h < |uses| && !uses[h].Idle? && !u.Idle? && u.b == uses[h].b
    ensures Users(uses[h := u], b) == Users(uses, b)
  {
  }

  lemma CountsGet(s: State, t: State, e: Step)
    requires Counts(s) && GetStep(s, t, e)
    ensures Counts(t)
  {
    hide Users, Find, Victim;
    forall b | 0 <= b < |t.bufs| ensures t.bufs[b].refcnt == |Users(t.uses, b)| {
      if e.Lock? {
        UsersStay(s.uses, e.h, t.uses[e.h], b);
      } else {
        UsersJoin(s.uses, e.h, t.uses[e.h], b);
        if e.Miss? {
          VictimSpare(s.mru, s.bufs);
        }
      }
    }
  }

  lemma VictimSpare(mru: seq<nat>, bufs: seq<Buf>)
    ensures Victim(mru, bufs).Some? ==> Spare(bufs, Victim(mru, bufs).value) && Victim(mru, bufs).value in mru
  {
    VictimIs(mru, bufs);
  }

  lemma CountsHold(s: State, t: State, e: Step)
    requires Counts(s) && HoldStep(s, t, e)
    ensures Counts(t)
  {
    hide Users;
    forall b | 0 <= b < |t.bufs| ensures t.bufs[b].refcnt == |Users(t.uses, b)| {
      if !e.Fill? {
        UsersStay(s.uses, e.h, t.uses[e.h], b);
      }
    }
  }

  lemma CountsEnd(s: State, t: State, e: Step)
    requires Counts(s) && EndStep(s, t, e)
    ensures Counts(t)
  {
    hide Users, Removed;
    forall b | 0 <= b < |t.bufs| ensures t.bufs[b].refcnt == |Users(t.uses, b)| {
      if e.Unlock? {
        UsersStay(s.uses, e.h, t.uses[e.h], b);
      } else if e.Drop? {
        UsersLeave(s.uses, e.h, b);
      }
    }
  }

  // ---- Locks --------------------------------------------------------------------------------

  lemma LocksGet(s: State, t: State, e: Step)
    requires Locks(s) && GetStep(s, t, e)
    ensures Locks(t)
  {
    hide Find, Victim;
  }

  lemma LocksHold(s: State, t: State, e: Step)
    requires Locks(s) && HoldStep(s, t, e)
    ensures Locks(t)
  {
  }

  lemma LocksEnd(s: State, t: State, e: Step)
    requires Locks(s) && EndStep(s, t, e)
    ensures Locks(t)
  {
    hide Removed;
  }

  // ---- One buffer per block -------------------------------------------------------------------

  lemma UniqueGet(s: State, t: State, e: Step)
    requires Unique(s) && Ordered(s) && GetStep(s, t, e)
    ensures Unique(t)
  {
    hide Find, Victim;
    if e.Hit? {
      FindIs(s.mru, s.bufs, e.k);
    } else if e.Miss? {
      FindIs(s.mru, s.bufs, e.k);
      assert forall b: nat :: b < |s.bufs| ==> b in s.mru && s.bufs[b].key != e.k;
    }
    hide Ordered;
  }

  lemma UniqueHold(s: State, t: State, e: Step)
    requires Unique(s) && Counts(s) && HoldStep(s, t, e)
    ensures Unique(t)
  {
    hide Users, At;
    HeldUsed(s, Mine(s, e.h), e.h);
    hide Counts;
    forall b | 0 <= b < |s.bufs| ensures t.bufs[b].key == s.bufs[b].key && t.bufs[b].refcnt == s.bufs[b].refcnt {
    }
  }

  lemma UniqueEnd(s: State, t: State, e: Step)
    requires Unique(s) && EndStep(s, t, e)
    ensures Unique(t)
  {
    KeysEnd(s, t, e);
    hide EndStep;
  }

  lemma KeysEnd(s: State, t: State, e: Step)
    requires EndStep(s, t, e)
    ensures |t.bufs| == |s.bufs|
    ensures forall b :: 0 <= b < |s.bufs| ==>
              t.bufs[b].key == s.bufs[b].key && t.bufs[b].valid == s.bufs[b].valid && t.bufs[b].dirty == s.bufs[b].dirty
    ensures forall b :: 0 <= b < |s.bufs| ==> t.bufs[b].refcnt <= s.bufs[b].refcnt
  {
    hide Removed;
  }

  /** A buffer in use has a positive count. */
  lemma HeldUsed(s: State, b: nat, h: nat)
    requires Counts(s) && h < |s.uses| && Uses(s.uses[h], b)
    ensures b < |s.bufs| && s.bufs[b].refcnt > 0
  {
    assert h in Users(s.uses, b);
  }

  // ---- The block asked for ----------------------------------------------------------------------

  /** bget recycles only buffers without a use, also of those that still wait for the lock. */
  lemma KeyedGet(s: State, t: State, e: Step)
    requires Keyed(s) && Counts(s) && GetStep(s, t, e)
    ensures Keyed(t)
  {
    hide Find, Victim, Users;
    if e.Hit? {
      FindIs(s.mru, s.bufs, e.k);
    } else if e.Miss? {
      VictimSpare(s.mru, s.bufs);
      forall h: nat | h < |s.uses| && !s.uses[h].Idle? ensures s.uses[h].b != e.b {
        HeldUsed(s, s.uses[h].b, h);
      }
    }
    hide Counts;
  }

  lemma KeyedHold(s: State, t: State, e: Step)
    requires Keyed(s) && HoldStep(s, t, e)
    ensures Keyed(t)
  {
    hide At;
  }

  lemma KeyedEnd(s: State, t: State, e: Step)
    requires Keyed(s) && EndStep(s, t, e)
    ensures Keyed(t)
  {
    hide Removed;
  }

  // ---- The log's pins ---------------------------------------------------------------------------

  lemma PinnedStep(s: State, t: State, e: Step)
    requires Unique(s) && Pinned(s) && Next(s, t, e)
    ensures Pinned(t)
  {
    hide Find, Victim, Removed, At;
    if GetStep(s, t, e) {
    } else if HoldStep(s, t, e) {
      PinnedHold(s, t, e);
    } else {
      PinnedEnd(s, t, e);
    }
  }

  lemma PinnedHold(s: State, t: State, e: Step)
    requires Unique(s) && Pinned(s) && HoldStep(s, t, e)
    ensures Pinned(t)
  {
    hide At;
  }

  lemma PinnedEnd(s: State, t: State, e: Step)
    requires Pinned(s) && EndStep(s, t, e)
    ensures Pinned(t)
  {
    hide Removed;
    if e.EndCommit? {
      forall b | 0 <= b < |s.bufs| ensures !s.bufs[b].dirty {
      }
    }
  }

  // ---- The order of releases ----------------------------------------------------------------------

  lemma OrderedStep(s: State, t: State, e: Step)
    requires Ordered(s) && Next(s, t, e)
    ensures Ordered(t)
  {
    hide Find, Victim, Removed, At, HoldStep, GetStep;
    if GetStep(s, t, e) || HoldStep(s, t, e) {
      OrderSame(s, t, e);
    } else if e.Drop? && s.bufs[Mine(s, e.h)].refcnt == 1 {
      OrderedFront(s, t, Mine(s, e.h), e.i);
    }
  }

  lemma OrderSame(s: State, t: State, e: Step)
    requires Ordered(s) && (GetStep(s, t, e) || HoldStep(s, t, e))
    ensures Ordered(t)
  {
    assert t.mru == s.mru && t.stamp == s.stamp && t.clock == s.clock && |t.bufs| == |s.bufs|;
    hide GetStep, HoldStep;
  }

  lemma OrderedFront(s: State, t: State, b: nat, i: nat)
    requires Ordered(s) && i < |s.mru| && s.mru[i] == b && b < |s.bufs| && |t.bufs| == |s.bufs|
    requires t.mru == [b] + Removed(s.mru, i) && t.stamp == s.stamp[b := s.clock] && t.clock == s.clock + 1
    ensures Ordered(t)
  {
    forall j, k | 0 <= j < k < |s.mru| ensures s.mru[j] != s.mru[k] {
    }
    RemovedAll(s.mru, i);
    var less := Removed(s.mru, i);
    hide Removed;
    forall j | 0 <= j < |less|
      ensures less[j] < |s.bufs| && less[j] != b && t.stamp[less[j]] == s.stamp[less[j]] < s.clock
    {
    }
    forall j, k | 0 <= j < k < |less| ensures s.stamp[less[j]] > s.stamp[less[k]] {
    }
    forall c: nat | c < |t.bufs| ensures c in t.mru {
      assert c in s.mru;
    }
  }

  // ---- The cache and the disk agree -----------------------------------------------------------------

  lemma CoherentFrom(s: State, t: State)
    requires Coherent(s) && t.disk == s.disk && t.value == s.value && |t.bufs| == |s.bufs|
    requires forall b: nat :: b < |s.bufs| && Holds(s, b) ==> Holds(t, b)
    requires forall b :: 0 <= b < |s.bufs| ==>
               t.bufs[b].dirty == s.bufs[b].dirty && (s.bufs[b].dirty ==> t.bufs[b].key == s.bufs[b].key)
    ensures Coherent(t)
  {
    hide At, Touched;
    hide IsDirty;
    forall k | !IsDirty(t, k) ensures At(t.disk, k) == At(t.value, k) {
      DirtyKept(s, t, k);
    }
    forall b: nat | b < |t.bufs| ensures Holds(t, b) {
      assert Holds(s, b);
    }
  }

  lemma DirtyKept(s: State, t: State, k: Key)
    requires |t.bufs| == |s.bufs|
    requires forall b :: 0 <= b < |s.bufs| && s.bufs[b].dirty && s.bufs[b].key == k ==>
               t.bufs[b].dirty && t.bufs[b].key == k
    ensures IsDirty(s, k) ==> IsDirty(t, k)
  {
    if b :| 0 <= b < |s.bufs| && s.bufs[b].dirty && s.bufs[b].key == k {
      assert t.bufs[b].dirty && t.bufs[b].key == k;
    }
  }

  lemma CoherentGet(s: State, t: State, e: Step)
    requires Coherent(s) && Counts(s) && Locks(s) && GetStep(s, t, e)
    ensures Coherent(t)
  {
    hide Find, Victim, At, Users;
    VictimSpare(s.mru, s.bufs);
    hide Counts, Coherent;
    forall b: nat | b < |s.bufs| && Holds(s, b) ensures Holds(t, b) {
    }
    CoherentFrom(s, t);
  }

  lemma CoherentEnd(s: State, t: State, e: Step)
    requires Coherent(s) && Locks(s) && EndStep(s, t, e)
    ensures Coherent(t)
  {
    hide At, Removed, Coherent;
    forall b: nat | b < |s.bufs| && Holds(s, b) ensures Holds(t, b) {
    }
    CoherentFrom(s, t);
  }

  lemma NotDirty(s: State, b: nat)
    requires Unique(s) && b < |s.bufs| && !s.bufs[b].dirty && s.bufs[b].key.dev != 0
    ensures !IsDirty(s, s.bufs[b].key)
  {
  }

  lemma CoherentFill(s: State, t: State, h: nat)
    requires Coherent(s) && Locks(s) && Counts(s) && Unique(s) && Pinned(s) && HoldStep(s, t, Fill(h))
    ensures Coherent(t)
  {
    hide At, Users, IsDirty;
    var b := Mine(s, h);
    HeldUsed(s, b, h);
    NotDirty(s, b);
    assert At(s.disk, s.bufs[b].key) == At(s.value, s.bufs[b].key);
    hide Coherent, Unique, Pinned, Counts;
    forall c: nat | c < |s.bufs| && Holds(s, c) ensures Holds(t, c) {
    }
    CoherentFrom(s, t);
  }

  lemma CoherentChange(s: State, t: State, h: nat, data: Contents)
    requires Coherent(s) && Locks(s) && HoldStep(s, t, Change(h, data))
    ensures Coherent(t)
  {
    hide At, IsDirty, Coherent;
    forall c: nat | c < |s.bufs| && Holds(s, c) ensures Holds(t, c) {
    }
    CoherentFrom(s, t);
  }

  /** bwrite and log_write set the value of their block, which only this buffer has. */
  lemma CoherentStore(s: State, t: State, e: Step)
    requires Coherent(s) && Locks(s) && Counts(s) && Unique(s) && HoldStep(s, t, e) && (e.Write? || e.LogWrite?)
    ensures Coherent(t)
  {
    hide Users;
    var b := Mine(s, e.h);
    HeldUsed(s, b, e.h);
    Alone(s, b);
    hide Counts, Unique;
    StoreHolds(s, t, e);
    hide Locks, IsDirty, Touched;
    forall k | !IsDirty(t, k) ensures At(t.disk, k) == At(t.value, k) {
      if k != s.bufs[b].key {
        DirtyKept(s, t, k);
      } else {
        DirtyBy(t, b);
      }
    }
    forall c: nat | c < |t.bufs| ensures Holds(t, c) {
    }
  }

  lemma Alone(s: State, b: nat)
    requires Unique(s) && b < |s.bufs| && s.bufs[b].refcnt > 0
    ensures forall c: nat :: c < |s.bufs| && c != b ==> s.bufs[c].key != s.bufs[b].key
  {
  }

  lemma DirtyBy(t: State, b: nat)
    requires b < |t.bufs|
    ensures t.bufs[b].dirty ==> IsDirty(t, t.bufs[b].key)
  {
  }

  lemma StoreHolds(s: State, t: State, e: Step)
    requires Coherent(s) && Locks(s) && HoldStep(s, t, e) && (e.Write? || e.LogWrite?)
    requires forall c: nat :: c < |s.bufs| && c != Mine(s, e.h) ==> s.bufs[c].key != s.bufs[Mine(s, e.h)].key
    ensures forall c: nat :: c < |t.bufs| ==> Holds(t, c)
  {
    hide IsDirty;
    forall c: nat | c < |t.bufs| ensures Holds(t, c) {
      assert Holds(s, c);
    }
  }

  // ---- Whole runs -----------------------------------------------------------------------------------

  lemma CoherentStep(s: State, t: State, e: Step)
    requires Inv(s) && Next(s, t, e)
    ensures Coherent(t)
  {
    hide GetStep, EndStep, Coherent, Counts, Locks, Unique, Pinned, Ordered, Keyed, At;
    if GetStep(s, t, e) {
      CoherentGet(s, t, e);
    } else if EndStep(s, t, e) {
      CoherentEnd(s, t, e);
    } else {
      match e
      case Fill(h) => CoherentFill(s, t, h);
      case Change(h, data) => CoherentChange(s, t, h, data);
      case Write(h) => CoherentStore(s, t, e);
      case LogWrite(h) => CoherentStore(s, t, e);
    }
  }

  lemma InvStep(s: State, t: State, e: Step)
    requires Inv(s) && Next(s, t, e)
    ensures Inv(t)
  {
    hide GetStep, HoldStep, EndStep, Coherent, Counts, Locks, Unique, Pinned, Ordered, Keyed;
    CoherentStep(s, t, e);
    PinnedStep(s, t, e);
    OrderedStep(s, t, e);
    if GetStep(s, t, e) {
      CountsGet(s, t, e);
      LocksGet(s, t, e);
      UniqueGet(s, t, e);
      KeyedGet(s, t, e);
    } else if HoldStep(s, t, e) {
      CountsHold(s, t, e);
      LocksHold(s, t, e);
      UniqueHold(s, t, e);
      KeyedHold(s, t, e);
    } else {
      CountsEnd(s, t, e);
      LocksEnd(s, t, e);
      UniqueEnd(s, t, e);
      KeyedEnd(s, t, e);
    }
  }

  lemma InitInv(s: State)
    requires Init(s)
    ensures Inv(s)
  {
    hide At;
    forall b: nat | b < |s.bufs| ensures b in s.mru && |Users(s.uses, b)| == 0 {
      assert s.mru[|s.bufs| - 1 - b] == b;
      assert Users(s.uses, b) == {};
    }
  }

  lemma {:induction false} Kept(ss: seq<State>, es: seq<Step>, k: nat)
    requires Run(ss, es) && k <= |es|
    ensures Inv(ss[k])
    decreases k
  {
    hide Inv, Next, Init;
    if k == 0 {
      InitInv(ss[0]);
    } else {
      Kept(ss, es, k - 1);
      InvStep(ss[k - 1], ss[k], es[k - 1]);
    }
  }

  /** Every run: a block of a device other than 0 has at most one buffer; an unlocked valid
      buffer holds the last logged or written value, and if it is clean so does the disk. */
  lemma CacheCoherent(ss: seq<State>, es: seq<Step>, k: nat, b: nat)
    requires Run(ss, es) && k <= |es| && b < |ss[k].bufs| && ss[k].bufs[b].valid && b < |ss[k].locks|
    requires ss[k].locks[b] == None
    ensures forall c: nat :: c < |ss[k].bufs| && ss[k].bufs[c].key == ss[k].bufs[b].key ==> c == b
    ensures ss[k].bufs[b].data == At(ss[k].value, ss[k].bufs[b].key)
    ensures !ss[k].bufs[b].dirty ==> ss[k].bufs[b].data == At(ss[k].disk, ss[k].bufs[b].key)
  {
    hide Next, Init, At, Ordered, Counts, IsDirty;
    Kept(ss, es, k);
    assert Holds(ss[k], b);
    if !ss[k].bufs[b].dirty {
      NotDirty(ss[k], b);
    }
  }

  /** Every run: what bread of block q returns, a held valid buffer not yet changed, is the last
      logged or written value of q, whatever happened between finding the buffer and locking it. */
  lemma ReadsLatest(ss: seq<State>, es: seq<Step>, k: nat, h: nat, q: Key)
    requires Run(ss, es) && k <= |es| && h < |ss[k].uses|
    requires ss[k].uses[h].Holding? && ss[k].uses[h].k == q && !ss[k].uses[h].touched
    ensures var b := ss[k].uses[h].b;
      b < |ss[k].bufs| && ss[k].bufs[b].key == q && (ss[k].bufs[b].valid ==> ss[k].bufs[b].data == At(ss[k].value, q))
  {
    hide Next, Init, At, Ordered, IsDirty, Users;
    Kept(ss, es, k);
    assert Holds(ss[k], ss[k].uses[h].b);
  }

  /** Every run: a use keeps the buffer and the block of its bget until it is dropped. */
  lemma {:induction false} KeepsBlock(ss: seq<State>, es: seq<Step>, i: nat, k: nat, h: nat)
    requires Run(ss, es) && i <= k <= |es| && h < |ss[i].uses| && !ss[i].uses[h].Idle?
    requires forall j :: i <= j < k ==> !(es[j].Drop? && es[j].h == h)
    ensures h < |ss[k].uses| && !ss[k].uses[h].Idle?
    ensures ss[k].uses[h].b == ss[i].uses[h].b && ss[k].uses[h].k == ss[i].uses[h].k
    decreases k
  {
    hide Init;
    if i < k {
      KeepsBlock(ss, es, i, k - 1, h);
      UseStays(ss[k - 1], ss[k], es[k - 1], h);
    }
  }

  lemma UseStays(s: State, t: State, e: Step, h: nat)
    requires Next(s, t, e) && h < |s.uses| && !s.uses[h].Idle? && !(e.Drop? && e.h == h)
    ensures h < |t.uses| && !t.uses[h].Idle? && t.uses[h].b == s.uses[h].b && t.uses[h].k == s.uses[h].k
  {
    hide GetStep, HoldStep, EndStep;
    if GetStep(s, t, e) {
      StaysGet(s, t, e, h);
    } else if HoldStep(s, t, e) {
      StaysHold(s, t, e, h);
    } else {
      StaysEnd(s, t, e, h);
    }
  }

  predicate Stays(s: State, t: State, h: nat) {
    && h < |s.uses| && h < |t.uses| && !s.uses[h].Idle? && !t.uses[h].Idle?
    && t.uses[h].b == s.uses[h].b && t.uses[h].k == s.uses[h].k
  }

  lemma StaysGet(s: State, t: State, e: Step, h: nat)
    requires GetStep(s, t, e) && h < |s.uses| && !s.uses[h].Idle?
    ensures Stays(s, t, h)
  {
    hide Find, Victim;
  }

  lemma StaysHold(s: State, t: State, e: Step, h: nat)
    requires HoldStep(s, t, e) && h < |s.uses| && !s.uses[h].Idle?
    ensures Stays(s, t, h)
  {
    hide At;
  }

  lemma StaysEnd(s: State, t: State, e: Step, h: nat)
    requires EndStep(s, t, e) && h < |s.uses| && !s.uses[h].Idle? && !(e.Drop? && e.h == h)
    ensures Stays(s, t, h)
  {
    hide Removed;
  }

  /** Every run: a dirty buffer is in the log header and is never the one recycled; the one
      recycled was released before every other spare buffer. */
  lemma RecyclesOldest(ss: seq<State>, es: seq<Step>, k: nat)
    requires Run(ss, es) && k < |es| && es[k].Miss?
    ensures es[k].b < |ss[k].bufs| && |ss[k].stamp| == |ss[k].bufs| && Spare(ss[k].bufs, es[k].b)
    ensures forall b: nat :: b < |ss[k].bufs| && ss[k].bufs[b].dirty ==>
              b != es[k].b && ss[k].bufs[b].key in ss[k].header
    ensures forall b: nat :: b < |ss[k].bufs| && Spare(ss[k].bufs, b) && b != es[k].b ==>
              ss[k].stamp[es[k].b] < ss[k].stamp[b]
  {
    hide Init, At, IsDirty, Users, Find, Victim, Coherent, Counts, Locks, Unique;
    Kept(ss, es, k);
    assert Next(ss[k], ss[k + 1], es[k]);
    var s := ss[k];
    VictimIs(s.mru, s.bufs);
    var i :| 0 <= i < |s.mru| && s.mru[i] == es[k].b && Spare(s.bufs, s.mru[i])
      && forall j :: i < j < |s.mru| ==> !Spare(s.bufs, s.mru[j]);
    hide Next;
    forall b: nat | b < |s.bufs| && Spare(s.bufs, b) && b != es[k].b ensures s.stamp[es[k].b] < s.stamp[b] {
      assert b in s.mru;
      var j :| 0 <= j < |s.mru| && s.mru[j] == b;
      assert j < i;
    }
  }
}
