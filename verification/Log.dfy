/** log.c itself: the in-memory header, the pinned buffers and the loops that
    write blocks, proved to write exactly the disks LogDisk speaks of. */
module Log {
  import opened LogDisk

  datatype Outcome = Done | Panic

  lemma HeaderIs(h: Block, hb: Block, lh: seq<int>)
    requires |lh| <= LOGSIZE && hb[0] == |lh| && (forall k :: 0 <= k < |lh| ==> hb[1 + k] == lh[k])
    requires forall k :: 1 + |lh| <= k < WORDS ==> hb[k] == h[k]
    ensures hb == WithHeader(h, lh)
  {
    hide Header;
    var r := [|lh|] + lh + h[1 + |lh|..];
    forall k | 0 <= k < WORDS ensures hb[k] == r[k] {
      if 1 <= k <= |lh| {
        assert hb[1 + (k - 1)] == lh[k - 1];
      }
    }
  }

  class Log {
    const l: Layout
    var disk: Disk
    // Buffers that log_write marked B_DIRTY: their data is newer than the disk.
    var pinned: map<int, Block>
    // lh.block[..lh.n]
    var lh: seq<int>
    var outstanding: int
    // Every disk that has existed, oldest first: what a crash could have left.
    ghost var durable: seq<Disk>

    ghost predicate Valid()
      reads this
    {
      && l.Fits(disk)
      && (forall b :: b in pinned ==> 0 <= b < |disk| && !l.InLog(b))
      && (forall i :: 0 <= i < |lh| ==> lh[i] in pinned)
      && (forall b :: b in pinned ==> b in lh)
      && (forall i, j :: 0 <= i < j < |lh| ==> lh[i] != lh[j])
    }

    ghost predicate Clean()
      reads this
    {
      forall b :: b !in pinned
    }

    /** What bread returns for each block. */
    ghost function View(): (v: Disk)
      reads this
      ensures |v| == |disk|
    {
      seq(|disk|, b requires 0 <= b < |disk| reads this => if b in pinned then pinned[b] else disk[b])
    }

    /** A boot: the cache is cold, so the disk is all there is. */
    constructor (l: Layout, disk: Disk)
      requires l.Fits(disk)
      ensures this.l == l && this.disk == disk && durable == [disk]
      ensures Valid() && lh == [] && Clean() && outstanding == 0
    {
      this.l := l;
      this.disk := disk;
      this.pinned := map[];
      this.lh := [];
      this.outstanding := 0;
      this.durable := [disk];
    }

    method Bread(b: int) returns (x: Block)
      requires 0 <= b < |disk|
      ensures x == View()[b]
    {
      x := if b in pinned then pinned[b] else disk[b];
    }

    /** One durable block write; the buffer is clean afterwards. */
    method Bwrite(b: int, x: Block)
      requires 0 <= b < |disk|
      modifies `disk, `pinned, `durable
      ensures disk == old(disk)[b := x]
      ensures pinned == old(pinned) - {b}
      ensures durable == old(durable) + [disk]
    {
      disk := disk[b := x];
      pinned := pinned - {b};
      durable := durable + [disk];
    }

    method WriteLog()
      requires Valid() && l.Loggable(disk, lh)
      modifies `disk, `pinned, `durable
      ensures disk == Logged(l, old(disk), lh, old(View()), |lh|)
      ensures durable == old(durable) + LogTrace(l, old(disk), lh, old(View()))
      ensures pinned == old(pinned)
    {
      ghost var trace, v0 := LogTrace(l, disk, lh, View()), View();
      LoggedNone(l, disk, lh, v0);
      hide Logged, LogTrace, View;
      for tail := 0 to |lh|
        invariant disk == Logged(l, old(disk), lh, v0, tail)
        invariant pinned == old(pinned)
        invariant durable == old(durable) + trace[..tail]
      {
        LoggedNext(l, old(disk), lh, v0, tail);
        PinnedView(lh[tail], v0, old(disk));
        var from := Bread(lh[tail]);
        Bwrite(l.start + tail + 1, from);
        assert pinned == old(pinned);
      }
      assert trace[..|lh|] == trace;
    }

    /** A pinned block is seen as it was when no other write has touched the cache. */
    lemma PinnedView(b: int, v: Disk, d: Disk)
      requires b in pinned && 0 <= b < |disk| == |d| == |v| && v[b] == pinned[b]
      ensures View()[b] == v[b]
    {
    }

    method WriteHead()
      requires l.Fits(disk) && |lh| <= LOGSIZE && l.start !in pinned
      modifies `disk, `pinned, `durable
      ensures disk == old(disk)[l.start := WithHeader(old(disk)[l.start], lh)]
      ensures durable == old(durable) + [disk]
      ensures pinned == old(pinned)
      ensures disk[l.start][0] == |lh| && forall k :: 0 <= k < |lh| ==> disk[l.start][1 + k] == lh[k]
    {
      var h := Bread(l.start);
      var hb := h[0 := |lh|];
      for i := 0 to |lh|
        invariant |hb| == WORDS && hb[0] == |lh|
        invariant forall k :: 0 <= k < i ==> hb[1 + k] == lh[k]
        invariant forall k :: 1 + i <= k < WORDS ==> hb[k] == h[k]
      {
        hb := hb[1 + i := lh[i]];
      }
      HeaderIs(h, hb, lh);
      Bwrite(l.start, hb);
      assert pinned == old(pinned);
    }

    method InstallTrans()
      requires l.Fits(disk) && l.Loggable(disk, lh)
      requires forall b :: b in pinned ==> !l.InLog(b)
      modifies `disk, `pinned, `durable
      ensures disk == Installed(l, old(disk), lh, |lh|)
      ensures durable == old(durable) + InstallTrace(l, old(disk), lh)
      ensures forall b :: b in pinned <==> b in old(pinned) && b !in lh
      ensures forall b :: b in pinned ==> pinned[b] == old(pinned)[b]
    {
      ghost var trace := InstallTrace(l, disk, lh);
      for tail := 0 to |lh|
        invariant disk == Installed(l, old(disk), lh, tail)
        invariant durable == old(durable) + trace[..tail]
        invariant forall b :: b in pinned <==> b in old(pinned) && b !in lh[..tail]
        invariant forall b :: b in pinned ==> pinned[b] == old(pinned)[b]
      {
        var lbuf := Bread(l.start + tail + 1);
        Bwrite(lh[tail], lbuf);
        assert trace[..tail + 1] == trace[..tail] + [trace[tail]];
        assert lh[..tail + 1] == lh[..tail] + [lh[tail]];
      }
      assert trace[..|lh|] == trace;
      assert lh[..|lh|] == lh;
    }

    /** The block writes of a commit that has something to write. */
    method WriteCommit()
      requires Valid() && l.Loggable(disk, lh) && lh != []
      modifies `disk, `pinned, `durable, `lh
      ensures lh == [] && Clean()
      ensures var h := Headed(l, old(disk), old(lh), old(View()));
              && disk == Cleared(l, Installed(l, h, old(lh), |old(lh)|))
              && durable == old(durable)
                   + (LogTrace(l, old(disk), old(lh), old(View())) + [h] + InstallTrace(l, h, old(lh)) + [disk])
    {
      ghost var d0, lh0, v0 := disk, lh, View();
      hide Installed, Logged, LogTrace, InstallTrace, View, WithHeader;
      WriteLog();
      WriteHead();
      assert disk == Headed(l, d0, lh0, v0);
      hide Headed;
      InstallTrans();
      lh := [];
      WriteHead();
    }

    /** Every disk the commit passes through is one of CommitTrace, in order; at
        its end the log is empty and readers see what they saw before. */
    method Commit()
      requires Valid() && l.Loggable(disk, lh)
      modifies `disk, `pinned, `durable, `lh
      ensures Valid() && lh == [] && Clean()
      ensures old(lh) == [] ==> disk == old(disk) && durable == old(durable)
      ensures old(lh) != [] ==>
                var trace := CommitTrace(l, old(disk), old(lh), old(View()));
                durable == old(durable) + trace[1..] && disk == trace[|trace| - 1]
      ensures old(disk)[l.start][0] == 0 ==> disk[l.start][0] == 0
      ensures SameHome(l, disk, old(View()))
    {
      ghost var d0, lh0, v0 := disk, lh, View();
      ViewOutside();
      hide Installed, Headed, LogTrace, InstallTrace, CommitTrace, Cleared, View, SameHome;
      if |lh| > 0 {
        WriteCommit();
        CommitEnd(l, d0, lh0, v0);
      } else {
        SameHomeView();
      }
    }

    lemma ViewOutside()
      requires Valid()
      ensures forall b :: 0 <= b < |disk| && b !in lh ==> View()[b] == disk[b]
    {
    }

    lemma SameHomeView()
      requires Valid() && lh == []
      ensures SameHome(l, disk, View())
    {
    }

    method ReadHead()
      requires l.Fits(disk) && l.HeaderOk(disk) && l.start !in pinned
      modifies `lh
      ensures lh == Header(disk[l.start]) && |lh| == disk[l.start][0]
      ensures forall k :: 0 <= k < |lh| ==> lh[k] == disk[l.start][1 + k]
    {
      var buf := Bread(l.start);
      var n := buf[0];
      lh := [];
      for i := 0 to n
        invariant lh == buf[1..1 + i]
      {
        lh := lh + [buf[1 + i]];
      }
    }

    /** Recovery passes through RecoveryTrace and completes as Recovered. */
    method RecoverFromLog()
      requires l.Fits(disk) && l.HeaderOk(disk) && Clean()
      modifies `disk, `pinned, `durable, `lh
      ensures Valid() && lh == [] && Clean()
      ensures disk == Recovered(l, old(disk))
      ensures durable == old(durable) + RecoveryTrace(l, old(disk))[1..]
    {
      ghost var d0 := disk;
      RecoveryTraceParts(l, d0);
      hide Installed, InstallTrace, RecoveryTrace;
      ReadHead();
      InstallTrans();
      lh := [];
      WriteHead();
    }

    /** The caller has filled the buffer of home block b with x. The block is
        recorded once however often it is written. */
    method LogWrite(b: int, x: Block) returns (r: Outcome)
      requires Valid() && 0 <= b < |disk| && !l.InLog(b)
      modifies `lh, `pinned
      ensures Valid()
      ensures r == Panic <==> old(|lh|) >= LOGSIZE || old(|lh|) >= l.size - 1 || outstanding < 1
      ensures r == Panic ==> lh == old(lh) && pinned == old(pinned)
      ensures r == Done ==>
                && lh == (if b in old(lh) then old(lh) else old(lh) + [b])
                && View() == old(View())[b := x]
                && |lh| <= LOGSIZE && |lh| <= l.size - 1
    {
      if |lh| >= LOGSIZE || |lh| >= l.size - 1 || outstanding < 1 {
        return Panic;
      }
      var i := 0;
      while i < |lh| && lh[i] != b
        invariant 0 <= i <= |lh|
        invariant b !in lh[..i]
      {
        i := i + 1;
      }
      assert lh[..|lh|] == lh;
      if i == |lh| {
        lh := lh + [b];
      } else {
        lh := lh[i := b];
        assert lh == old(lh);
      }
      pinned := pinned[b := x];
      assert View() == old(View())[b := x];
      hide View;
      r := Done;
    }
  }
}
