/** fs.c over the block array: the bitmap allocator, the block map, and byte
    reads and writes, each proved against FsState. A kernel panic for want of
    blocks halts the machine and is the None or Panic outcome. */
module FileSystem {
  import opened Common
  import opened FsCodec
  import opened FsState
  import opened FsFile

  const T_DEV: ushort := 3

  /** What readi and writei come to: `Device` hands the call to devsw. */
  datatype IoResult = Data(bytes: seq<byte>) | Wrote(n: nat) | Error | Device | Panic

  /** Every block that differs between was and now was passed to log_write in between. */
  ghost predicate Recorded(was: seq<Block>, now: seq<Block>, l0: set<nat>, l: set<nat>) {
    |now| == |was| && l0 <= l && forall b :: 0 <= b < |was| && now[b] != was[b] ==> b in l
  }

  lemma RecordedNone(blocks: seq<Block>, l: set<nat>)
    ensures Recorded(blocks, blocks, l, l)
  {
  }

  lemma RecordedTwice(a: seq<Block>, b: seq<Block>, c: seq<Block>, l0: set<nat>, l1: set<nat>, l2: set<nat>)
    requires Recorded(a, b, l0, l1) && Recorded(b, c, l1, l2)
    ensures Recorded(a, c, l0, l2)
  {
  }

  class FileSystem {
    const sb: Super
    var blocks: seq<Block>
    var inodes: seq<Inode>
    // For each owned block, the slot that holds it.
    ghost var owner: map<nat, Slot>
    // The blocks passed to log_write in the current operation.
    ghost var logged: set<nat>

    ghost function St(): State
      reads this
    {
      State(blocks, inodes, owner)
    }

    /** The kernel on a disk it has just mounted: every inode is read from its
        block, which gives back the inodes that were written through to it. */
    constructor Mount(sb: Super, blocks: seq<Block>, ghost written: seq<Inode>, ghost owner: map<nat, Slot>)
      requires Whole(sb, State(blocks, written, owner))
      ensures this.sb == sb && St() == State(blocks, written, owner) && logged == {}
    {
      hide Owned, Held, Bitmap, NoHoles, GetInode, Super.Ok, Super.IBlock;
      SuperRange(sb);
      forall i: nat | i < sb.ninodes ensures sb.IBlock(i) < |blocks| {
        InodeBlock(sb, i);
      }
      this.sb := sb;
      this.blocks := blocks;
      this.inodes := seq(sb.ninodes, i requires 0 <= i < sb.ninodes && sb.IBlock(i) < |blocks| =>
                           GetInode(blocks[sb.IBlock(i)], i % IPB));
      this.owner := owner;
      this.logged := {};
      new;
      assert inodes == written by {
        forall i | 0 <= i < sb.ninodes ensures inodes[i] == written[i] {
          assert OnDisk(sb, State(blocks, written, owner), i);
        }
      }
    }

    /** bread, change the data, log_write, brelse. */
    method LogWrite(b: nat, x: Block)
      requires b < |blocks|
      modifies `blocks, `logged
      ensures blocks == old(blocks)[b := x] && logged == old(logged) + {b}
      ensures Recorded(old(blocks), blocks, old(logged), logged)
    {
      blocks := blocks[b := x];
      logged := logged + {b};
    }

    /** The lowest free block, marked and zeroed; None when all are in use. */
    method Balloc() returns (r: Option<uint>)
      requires sb.Ok() && |blocks| == sb.size
      modifies `blocks, `logged
      ensures r.None? ==> blocks == old(blocks) && logged == old(logged)
      ensures r.None? ==> DiskFull(sb, blocks)
      ensures r.Some? ==>
                && r.value < sb.size && !Marked(sb, old(blocks), r.value)
                && (forall c :: 0 <= c < r.value ==> Marked(sb, old(blocks), c))
      ensures r.Some? ==> blocks == Allocated(sb, old(blocks), r.value)
      ensures r.Some? ==> logged == old(logged) + {sb.BBlock(r.value), r.value}
      ensures r.Some? ==> forall k :: 0 <= k < BSIZE ==> blocks[r.value][k] == 0
      ensures r.Some? && sb.DataStart() <= r.value ==>
                forall c: nat :: c < sb.size ==> (Marked(sb, blocks, c) <==> c == r.value || Marked(sb, old(blocks), c))
      ensures r.Some? ==>
                forall c :: 0 <= c < sb.size && c != r.value && c != sb.BBlock(r.value) ==> blocks[c] == old(blocks)[c]
      ensures Recorded(old(blocks), blocks, old(logged), logged)
    {
      RecordedNone(blocks, logged);
      hide Recorded;
      hide Bit, PutBit, Marked;
      var b := 0;
      while b < sb.size
        invariant 0 <= b && b % BPB == 0
        invariant blocks == old(blocks) && logged == old(logged)
        invariant forall c :: 0 <= c < b && c < sb.size ==> Marked(sb, blocks, c)
        decreases sb.size - b
      {
        var bi := ScanBitmapBlock(b);
        if bi < BPB && b + bi < sb.size {
          MarkedBit(sb, blocks, b, bi);
          LogWrite(sb.BBlock(b), PutBit(blocks[sb.BBlock(b)], bi, true));
          ghost var mid, l := blocks, logged;
          LogWrite(b + bi, Zeroes());
          RecordedTwice(old(blocks), mid, blocks, old(logged), l, logged);
          if sb.DataStart() <= b + bi {
            AllocatedMarks(sb, old(blocks), b + bi);
          }
          return Some(b + bi);
        }
        b := b + BPB;
      }
      r := None;
    }

    /** The inner loop of balloc: the first clear bit of one bitmap block. */
    method ScanBitmapBlock(b: nat) returns (bi: nat)
      requires sb.Ok() && |blocks| == sb.size && b < sb.size && b % BPB == 0
      ensures bi <= BPB
      ensures forall c :: b <= c < b + bi && c < sb.size ==> Marked(sb, blocks, c)
      ensures bi == BPB || b + bi >= sb.size || !Marked(sb, blocks, b + bi)
    {
      hide Bit, Marked;
      var bp := blocks[sb.BBlock(b)];
      bi := 0;
      while bi < BPB && b + bi < sb.size
        invariant 0 <= bi <= BPB
        invariant forall c :: b <= c < b + bi && c < sb.size ==> Marked(sb, blocks, c)
      {
        MarkedBit(sb, blocks, b, bi);
        if !Bit(bp, bi) {
          return;
        }
        bi := bi + 1;
      }
    }

    /** Clears the bit of b; panics exactly when it is already clear. */
    method Bfree(b: nat) returns (panic: bool)
      requires sb.Ok() && |blocks| == sb.size && b < sb.size
      modifies `blocks, `logged
      ensures panic <==> !Marked(sb, old(blocks), b)
      ensures panic ==> blocks == old(blocks) && logged == old(logged)
      ensures !panic ==> blocks == Freed(sb, old(blocks), b) && logged == old(logged) + {sb.BBlock(b)}
      ensures !panic ==>
                forall c: nat :: c < sb.size ==> (Marked(sb, blocks, c) <==> c != b && Marked(sb, old(blocks), c))
      ensures forall c :: 0 <= c < sb.size && c != sb.BBlock(b) ==> blocks[c] == old(blocks)[c]
      ensures Recorded(old(blocks), blocks, old(logged), logged)
    {
      RecordedNone(blocks, logged);
      hide Recorded;
      hide Bit, PutBit;
      var bp := blocks[sb.BBlock(b)];
      var bi := b % BPB;
      if !Bit(bp, bi) {
        return true;
      }
      LogWrite(sb.BBlock(b), PutBit(bp, bi, false));
      FreedMarks(sb, old(blocks), b);
      panic := false;
    }

    /** The disk copy of inode i becomes the in-memory one; nothing else moves. */
    method Iupdate(i: nat)
      requires Inv(sb, St()) && i < sb.ninodes
      modifies `blocks, `logged
      ensures Inv(sb, St()) && OnDisk(sb, St(), i)
      ensures forall j :: 0 <= j < sb.ninodes && OnDisk(sb, old(St()), j) ==> OnDisk(sb, St(), j)
      ensures blocks == old(blocks)[sb.IBlock(i) := blocks[sb.IBlock(i)]]
      ensures forall k, s :: Addr(St(), k, s) == Addr(old(St()), k, s)
      ensures logged == old(logged) + {sb.IBlock(i)}
      ensures Recorded(old(blocks), blocks, old(logged), logged)
    {
      RecordedNone(blocks, logged);
      hide Recorded;
      hide Owned, Held, Bitmap, Addr, OnDisk, PutInode;
      ghost var st := St();
      LogWrite(sb.IBlock(i), PutInode(blocks[sb.IBlock(i)], i % IPB, inodes[i]));
      InodeWritten(sb, st, St(), i);
    }

    /** ip->addrs[s] = balloc() */
    method FillAddr(i: nat, s: nat) returns (r: Option<uint>)
      requires Inv(sb, St()) && i < sb.ninodes && s <= NDIRECT && inodes[i].addrs[s] == 0
      modifies `blocks, `logged, `inodes, `owner
      ensures r.None? ==> DiskFull(sb, blocks)
      ensures r.Some? ==> Grows(sb, old(St()), St(), i)
      ensures r.Some? ==> 0 < r.value < sb.size && r.value == Addr(St(), i, s)
      ensures r.Some? ==> forall t :: 0 <= t < NSLOTS && t != s ==> Addr(St(), i, t) == Addr(old(St()), i, t)
      ensures r.Some? ==> inodes == old(inodes)[i := old(inodes)[i].(addrs := old(inodes)[i].addrs[s := r.value])]
      ensures r.Some? ==> logged == old(logged) + {sb.BBlock(r.value), r.value}
      ensures Recorded(old(blocks), blocks, old(logged), logged)
    {
      RecordedNone(blocks, logged);
      hide Recorded;
      hide Owned, Held, Bitmap, Marked, Grows, Allocated, DiskFull;
      ghost var st := St();
      r := Balloc();
      if r.Some? {
        inodes := inodes[i := inodes[i].(addrs := inodes[i].addrs[s := r.value])];
        owner := owner[r.value := Slot(i, s)];
        assert Addr(st, i, s) == 0;
        GrownAddrSlots(sb, st, St(), i, s, r.value);
      }
    }

    /** a[k] = balloc(); log_write(bp), bp being the indirect block. */
    method FillEntry(i: nat, k: nat) returns (r: Option<uint>)
      requires Inv(sb, St()) && i < sb.ninodes && k < NINDIRECT
      requires 0 < inodes[i].addrs[NDIRECT] < sb.size && Addr(St(), i, NDIRECT + 1 + k) == 0
      modifies `blocks, `logged, `owner
      ensures r.None? ==> DiskFull(sb, blocks)
      ensures r.Some? ==> Grows(sb, old(St()), St(), i)
      ensures r.Some? ==> 0 < r.value < sb.size && r.value == Addr(St(), i, NDIRECT + 1 + k)
      ensures r.Some? ==>
                forall t :: 0 <= t < NSLOTS && t != NDIRECT + 1 + k ==> Addr(St(), i, t) == Addr(old(St()), i, t)
      ensures r.Some? ==>
                logged == old(logged) + {sb.BBlock(r.value), r.value, inodes[i].addrs[NDIRECT]}
      ensures Recorded(old(blocks), blocks, old(logged), logged)
    {
      RecordedNone(blocks, logged);
      hide Recorded;
      hide Addr, Owned, Held, Bitmap, Marked, Grows, Allocated, PutWord, DiskFull;
      ghost var st := St();
      var ind := inodes[i].addrs[NDIRECT];
      var bp := blocks[ind];
      r := Balloc();
      if r.Some? {
        ghost var mid, l := blocks, logged;
        LogWrite(ind, PutWord(bp, k, r.value));
        RecordedTwice(st.blocks, mid, blocks, old(logged), l, logged);
        owner := owner[r.value := Slot(i, NDIRECT + 1 + k)];
        GrownEntrySlots(sb, st, St(), i, k, r.value);
      }
    }

    /** The blocks bmap may log when it has to allocate. */
    ghost function BmapLog(st: State, st': State, i: nat, bn: nat): set<nat>
      requires i < |st.inodes| && |st.inodes[i].addrs| == NDIRECT + 1
      requires i < |st'.inodes| && |st'.inodes[i].addrs| == NDIRECT + 1
    {
      var a, ind := Addr(st', i, SlotOf(bn)), st'.inodes[i].addrs[NDIRECT];
      {a, sb.BBlock(a)}
      + if bn < NDIRECT then {} else if st.inodes[i].addrs[NDIRECT] == 0 then {ind, sb.BBlock(ind)} else {ind}
    }

    /** The second half of bmap: file block NDIRECT + k. */
    method BmapIndirect(i: nat, k: nat) returns (r: Option<uint>)
      requires Inv(sb, St()) && i < sb.ninodes && k < NINDIRECT
      modifies `blocks, `logged, `inodes, `owner
      ensures r.None? ==> DiskFull(sb, blocks)
      ensures r.Some? ==> Bmapped(sb, old(St()), St(), i, NDIRECT + k, r.value)
      ensures Addr(old(St()), i, NDIRECT + 1 + k) != 0 ==> r.Some? && logged == old(logged)
      ensures r.Some? && Addr(old(St()), i, NDIRECT + 1 + k) == 0 ==>
                && logged <= old(logged) + BmapLog(old(St()), St(), i, NDIRECT + k)
                && inodes[i].addrs[NDIRECT] in logged
      ensures old(logged) <= logged || r.None?
      ensures Recorded(old(blocks), blocks, old(logged), logged)
    {
      RecordedNone(blocks, logged);
      hide Recorded;
      hide Owned, Held, Bitmap, Grows, Word, DiskFull;
      ghost var st := St();
      GrowsSelf(sb, st, i);
      var ind := inodes[i].addrs[NDIRECT];
      if ind == 0 {
        r := FillAddr(i, NDIRECT);
        if r.None? {
          return;
        }
        ind := r.value;
      } else {
        IndirectOwned(sb, st, i);
      }
      ghost var mid, l := St(), logged;
      GrowsInv(sb, st, mid, i);
      var addr := Word(blocks[ind], k);
      assert addr == Addr(mid, i, NDIRECT + 1 + k) == Addr(st, i, NDIRECT + 1 + k);
      if addr == 0 {
        r := FillEntry(i, k);
        RecordedTwice(st.blocks, mid.blocks, blocks, old(logged), l, logged);
        if r.Some? {
          GrowsTrans(sb, st, mid, St(), i);
        }
      } else {
        SlotRange(sb, mid, i, NDIRECT + 1 + k);
        r := Some(addr);
      }
    }

    /** The disk block of file block bn of inode i, allocating what is missing. */
    method Bmap(i: nat, bn: nat) returns (r: Option<uint>)
      requires Inv(sb, St()) && i < sb.ninodes
      modifies `blocks, `logged, `inodes, `owner
      ensures bn >= MAXFILE ==> r.None?
      ensures bn < MAXFILE && r.None? ==> DiskFull(sb, blocks)
      ensures r.Some? ==> Bmapped(sb, old(St()), St(), i, bn, r.value)
      ensures bn < MAXFILE && Addr(old(St()), i, SlotOf(bn)) != 0 ==> r.Some? && logged == old(logged)
      ensures r.Some? && Addr(old(St()), i, SlotOf(bn)) == 0 ==>
                && logged <= old(logged) + BmapLog(old(St()), St(), i, bn)
                && (bn >= NDIRECT ==> inodes[i].addrs[NDIRECT] in logged)
      ensures old(logged) <= logged || r.None?
      ensures Recorded(old(blocks), blocks, old(logged), logged)
    {
      RecordedNone(blocks, logged);
      hide Recorded;
      hide Owned, Held, Bitmap, Grows, Word, DiskFull;
      ghost var st := St();
      if bn < NDIRECT {
        GrowsSelf(sb, st, i);
        var addr := inodes[i].addrs[bn];
        assert addr == Addr(st, i, bn);
        if addr == 0 {
          r := FillAddr(i, bn);
        } else {
          SlotRange(sb, st, i, bn);
          r := Some(addr);
        }
        return;
      }
      if bn - NDIRECT < NINDIRECT {
        r := BmapIndirect(i, bn - NDIRECT);
        return;
      }
      r := None;
    }

    /** bread(bmap(ip, off/BSIZE)) and copy out m bytes of it. */
    method ReadPiece(i: nat, off: nat, m: nat) returns (d: seq<byte>)
      requires Whole(sb, St()) && i < sb.ninodes
      requires m > 0 && off + m <= inodes[i].size && off % BSIZE + m <= BSIZE
      modifies `blocks, `logged, `inodes, `owner
      ensures St() == old(St()) && logged == old(logged)
      ensures d == Content(St(), i)[off..off + m]
    {
      hide Owned, Held, Bitmap, OnDisk, NoHoles, ByteAt, Content, Addr;
      PieceRead(St(), i, off, m);
      var a := Bmap(i, off / BSIZE);
      d := blocks[a.value][off % BSIZE..off % BSIZE + m];
    }

    /** The slice of the content from off, cut at the size; reading changes
        nothing, and never allocates. */
    method Readi(i: nat, off0: uint, n0: uint) returns (r: IoResult)
      requires Whole(sb, St()) && i < sb.ninodes
      modifies `blocks, `logged, `inodes, `owner
      ensures St() == old(St()) && logged == old(logged)
      ensures inodes[i].typ == T_DEV ==> r == Device
      ensures inodes[i].typ != T_DEV && (off0 > inodes[i].size || off0 + n0 >= U32) ==> r == Error
      ensures inodes[i].typ != T_DEV && off0 <= inodes[i].size && off0 + n0 < U32 ==>
                var end := if off0 + n0 > inodes[i].size then inodes[i].size else off0 + n0;
                r == Data(Content(St(), i)[off0..end])
    {
      hide Whole, NoHoles, ByteAt, Content;
      WholeFacts(sb, St(), i);
      WrapsAround(off0, n0);
      if inodes[i].typ == T_DEV {
        return Device;
      }
      if off0 > inodes[i].size || (off0 + n0) % U32 < off0 {
        return Error;
      }
      var n, off := n0, off0;
      if off + n > inodes[i].size {
        n := inodes[i].size - off;
      }
      ghost var st, c := St(), Content(St(), i);
      var tot, dst := 0, [];
      while tot < n
        invariant 0 <= tot <= n && off == off0 + tot
        invariant St() == st && logged == old(logged)
        invariant dst == c[off0..off0 + tot]
      {
        var o := off % BSIZE;
        var m := if n - tot < BSIZE - o then n - tot else BSIZE - o;
        var piece := ReadPiece(i, off, m);
        dst := dst + piece;
        assert c[off0..off] + c[off..off + m] == c[off0..off + m];
        tot, off := tot + m, off + m;
      }
      r := Data(dst);
    }

    /** bread(bmap(ip, off/BSIZE)), copy d into it, log_write. `mid` is the
        state after bmap and a the block. */
    method WritePiece(i: nat, off: nat, d: seq<byte>) returns (ok: bool, ghost mid: State, ghost a: uint)
      requires Inv(sb, St()) && i < sb.ninodes && off / BSIZE < MAXFILE && off % BSIZE + |d| <= BSIZE
      modifies `blocks, `logged, `inodes, `owner
      ensures !ok ==> DiskFull(sb, blocks)
      ensures ok ==> PieceDone(sb, old(St()), mid, St(), i, off, d, a, old(logged), logged)
      ensures Recorded(old(blocks), blocks, old(logged), logged)
    {
      RecordedNone(blocks, logged);
      hide Recorded;
      hide Addr, Owned, Held, Bitmap, Grows, DiskFull;
      var r := Bmap(i, off / BSIZE);
      mid := St();
      a := if r.Some? then r.value else 0;
      ok := r.Some?;
      if ok {
        GrowsShape(sb, old(St()), mid, i);
        ghost var l := logged;
        LogWrite(r.value, Patched(blocks[r.value], off % BSIZE, d));
        RecordedTwice(old(blocks), mid.blocks, blocks, old(logged), l, logged);
      }
    }

    /** The loop of writei. */
    method WriteLoop(i: nat, src: seq<byte>, off0: uint) returns (ok: bool)
      requires Whole(sb, St()) && i < sb.ninodes
      requires off0 <= inodes[i].size && off0 + |src| <= MAXFILE * BSIZE
      modifies `blocks, `logged, `inodes, `owner
      ensures !ok ==> DiskFull(sb, blocks)
      ensures ok ==> Writing(sb, old(St()), St(), i, Content(old(St()), i), off0, src)
      ensures ok ==> |logged| < old(|logged|) + Cost(off0, |src|, old(inodes)[i].size)
      ensures Recorded(old(blocks), blocks, old(logged), logged)
    {
      RecordedNone(blocks, logged);
      hide Recorded;
      hide Whole, Writing, Budget, PieceDone, NoHoles, Content, DiskFull, Inv, Spans, Fresh;
      WholeFacts(sb, St(), i);
      ghost var st0, c := St(), Content(St(), i);
      var n, tot, off := |src|, 0, off0;
      ghost var touched := false;
      WriteStarts(sb, st0, i, off0, logged);
      while tot < n
        invariant 0 <= tot <= n && off == off0 + tot
        invariant tot == 0 || tot == n || off % BSIZE == 0
        invariant Writing(sb, st0, St(), i, c, off0, src[..tot])
        invariant i < |inodes| && |inodes[i].addrs| == NDIRECT + 1
        invariant Budget(old(|logged|), logged, inodes[i].addrs[NDIRECT], off0, tot, |c|, touched)
        invariant Recorded(old(blocks), blocks, old(logged), logged)
      {
        var o := off % BSIZE;
        var m := if n - tot < BSIZE - o then n - tot else BSIZE - o;
        ghost var st, l := St(), logged;
        WritingInv(sb, st0, st, i, c, off0, src[..tot]);
        var ok, mid, a := WritePiece(i, off, src[tot..tot + m]);
        RecordedTwice(old(blocks), st.blocks, blocks, old(logged), l, logged);
        if !ok {
          return false;
        }
        touched := WriteAdvances(sb, st0, st, mid, St(), i, c, off0, src[..tot], a, src[tot..tot + m],
                                 old(|logged|), l, logged, touched);
        assert src[..tot] + src[tot..tot + m] == src[..tot + m];
        tot, off := tot + m, off + m;
      }
      assert src[..n] == src;
      BudgetCost(old(|logged|), logged, inodes[i].addrs[NDIRECT], off0, n, |c|, touched);
      ok := true;
    }

    /** Overlays the file with src at off, extending it when it reaches past
        the end; every other inode keeps its bytes, every inode is on disk
        afterwards, and Cost bounds what was logged. */
    method Writei(i: nat, src: seq<byte>, off0: uint) returns (r: IoResult)
      requires Whole(sb, St()) && i < sb.ninodes && |src| < U32
      modifies `blocks, `logged, `inodes, `owner
      ensures r == Device <==> old(inodes)[i].typ == T_DEV
      ensures old(inodes)[i].typ != T_DEV ==>
                (r == Error <==> off0 > old(inodes)[i].size || off0 + |src| > MAXFILE * BSIZE)
      ensures r == Device || r == Error ==> St() == old(St()) && logged == old(logged)
      ensures r == Device || r == Error || r == Panic || r == Wrote(|src|)
      ensures r == Panic ==> DiskFull(sb, blocks)
      ensures r == Wrote(|src|) ==>
                && OthersSame(sb, old(St()), St(), i)
                && off0 <= old(inodes)[i].size
                && Content(St(), i) == Overlay(Content(old(St()), i), off0, src)
                && inodes[i].(addrs := old(inodes)[i].addrs, size := old(inodes)[i].size) == old(inodes)[i]
                && |logged| <= old(|logged|) + Cost(off0, |src|, old(inodes)[i].size)
      ensures Recorded(old(blocks), blocks, old(logged), logged)
    {
      RecordedNone(blocks, logged);
      hide Recorded;
      hide Whole, Writing, Budget, Bmapped, Addr, NoHoles,
           ByteAt, Content, DiskFull, Overlay, Cost, Patched, OthersSame;
      WholeFacts(sb, St(), i);
      WrapsAround(off0, |src|);
      if inodes[i].typ == T_DEV {
        return Device;
      }
      if off0 > inodes[i].size || (off0 + |src|) % U32 < off0 {
        return Error;
      }
      if off0 + |src| > MAXFILE * BSIZE {
        return Error;
      }
      ghost var st0 := St();
      var ok := WriteLoop(i, src, off0);
      if !ok {
        return Panic;
      }
      var n, off := |src|, off0 + |src|;
      ghost var st := St();
      WritingInv(sb, st0, st, i, Content(st0, i), off0, src);
      if n > 0 && off > inodes[i].size {
        inodes := inodes[i := inodes[i].(size := off)];
        ghost var st1 := St();
        SizeRaised(sb, st0, st, st1, i, off0, src);
        ghost var l := logged;
        Iupdate(i);
        RecordedTwice(old(blocks), st1.blocks, blocks, old(logged), l, logged);
        WriteBeyond(sb, st0, st, st1, St(), i, off0, src);
      } else {
        WriteWithin(sb, st0, st, i, off0, src);
      }
      r := Wrote(n);
    }

    /** bfree(ip->addrs[s]); ip->addrs[s] = 0, for a direct slot. */
    method FreeAddr(i: nat, s: nat) returns (panic: bool)
      requires Inv(sb, St()) && i < sb.ninodes && s < NDIRECT && inodes[i].addrs[s] != 0
      modifies `blocks, `logged, `inodes, `owner
      ensures !panic && Inv(sb, St())
      ensures inodes == old(inodes)[i := old(inodes)[i].(addrs := old(inodes)[i].addrs[s := 0])]
      ensures OwnedAt(old(St()), old(inodes)[i].addrs[s], i, s) && old(inodes)[i].addrs[s] < sb.size
      ensures blocks == Freed(sb, old(blocks), old(inodes)[i].addrs[s])
      ensures owner == old(owner) - {old(inodes)[i].addrs[s]}
      ensures Recorded(old(blocks), blocks, old(logged), logged)
    {
      RecordedNone(blocks, logged);
      hide Recorded;
      hide Owned, Held, Bitmap, Marked, Freed;
      ghost var st := St();
      var b := inodes[i].addrs[s];
      SlotRange(sb, st, i, s);
      OwnedMarked(sb, st, b);
      panic := Bfree(b);
      inodes := inodes[i := inodes[i].(addrs := inodes[i].addrs[s := 0])];
      owner := owner - {b};
      InvExceptNone(sb, st, i);
      SlotFreed(sb, st, St(), i, s, b);
    }

    /** The blocks named by the indirect block, and then that block itself. */
    method FreeIndirect(i: nat, ghost st0: State) returns (panic: bool)
      requires Inv(sb, St()) && i < sb.ninodes && inodes[i].addrs[NDIRECT] != 0
      requires Shrunk(sb, st0, St(), i)
      modifies `blocks, `logged, `inodes, `owner
      ensures !panic && Inv(sb, St()) && Shrunk(sb, st0, St(), i)
      ensures inodes == old(inodes)[i := old(inodes)[i].(addrs := old(inodes)[i].addrs[NDIRECT := 0])]
      ensures Recorded(old(blocks), blocks, old(logged), logged)
    {
      RecordedNone(blocks, logged);
      hide Recorded;
      hide Owned, Held, Bitmap, Marked, Freed, Shrunk, OwnedExcept, Word, Addr;
      var ind := inodes[i].addrs[NDIRECT];
      IndirectRange(sb, St(), i);
      InvExceptNone(sb, St(), i);
      var a := blocks[ind];
      for j := 0 to NINDIRECT
        invariant InvExcept(sb, St(), i, j) && Shrunk(sb, st0, St(), i)
        invariant blocks[ind] == a && inodes == old(inodes)
        invariant forall c :: c in owner ==> !(owner[c].inum == i && NDIRECT < owner[c].index < NDIRECT + 1 + j)
        invariant Recorded(old(blocks), blocks, old(logged), logged)
      {
        ghost var st, l := St(), logged;
        EntryIsWord(st, i, ind, j);
        SlotOwner(sb, st, i, j);
        if Word(a, j) != 0 {
          EntryMarked(sb, st, i, j);
          panic := Bfree(Word(a, j));
          RecordedTwice(old(blocks), st.blocks, blocks, old(logged), l, logged);
          owner := owner - {Word(a, j)};
          EntryFreed(sb, st, St(), i, j, Word(a, j));
          ShrunkStep(sb, st0, st, St(), i, Word(a, j), NDIRECT + 1 + j);
          FreedElsewhere(sb, st.blocks, Word(a, j), ind);
        } else {
          EntryEmpty(sb, st, i, j);
        }
      }
      ghost var st, l := St(), logged;
      IndirectHeld(sb, st, i, NINDIRECT, i);
      assert ind == Addr(st, i, NDIRECT) by { AddrsSlot(st, i, NDIRECT); }
      HeldMarked(sb, st, i, NINDIRECT, ind);
      panic := Bfree(ind);
      RecordedTwice(old(blocks), st.blocks, blocks, old(logged), l, logged);
      inodes := inodes[i := inodes[i].(addrs := inodes[i].addrs[NDIRECT := 0])];
      owner := owner - {ind};
      NoEntriesOwned(sb, st, i);
      SlotFreed(sb, st, St(), i, NDIRECT, ind);
      ShrunkStep(sb, st0, st, St(), i, ind, NDIRECT);
    }

    /** The direct half of itrunc. */
    method FreeDirect(i: nat) returns (panic: bool)
      requires Inv(sb, St()) && i < sb.ninodes
      modifies `blocks, `logged, `inodes, `owner
      ensures !panic && Inv(sb, St()) && Shrunk(sb, old(St()), St(), i)
      ensures i < |inodes| && |inodes[i].addrs| == NDIRECT + 1
      ensures forall t :: 0 <= t < NDIRECT ==> inodes[i].addrs[t] == 0
      ensures Recorded(old(blocks), blocks, old(logged), logged)
    {
      RecordedNone(blocks, logged);
      hide Recorded;
      hide Owned, Held, Bitmap, Addr, Freed, Shrunk;
      ghost var st0 := St();
      ShrunkSelf(sb, st0, i);
      panic := false;
      for k := 0 to NDIRECT
        invariant !panic && Inv(sb, St()) && Shrunk(sb, st0, St(), i)
        invariant i < |inodes| && |inodes[i].addrs| == NDIRECT + 1
        invariant forall t :: 0 <= t < k ==> inodes[i].addrs[t] == 0
        invariant Recorded(old(blocks), blocks, old(logged), logged)
      {
        ghost var st, l := St(), logged;
        if inodes[i].addrs[k] != 0 {
          panic := FreeAddr(i, k);
          RecordedTwice(old(blocks), st.blocks, blocks, old(logged), l, logged);
          ShrunkStep(sb, st0, st, St(), i, st.inodes[i].addrs[k], k);
        }
      }
    }

    /** Empties the file: exactly its blocks go back to the bitmap, none of them
        was free, and every other inode keeps its bytes. */
    method Itrunc(i: nat) returns (panic: bool)
      requires Whole(sb, St()) && i < sb.ninodes
      modifies `blocks, `logged, `inodes, `owner
      ensures !panic
      ensures OthersSame(sb, old(St()), St(), i) && Content(St(), i) == []
      ensures FreedExactly(sb, old(St()), St(), i)
      ensures forall t :: 0 <= t <= NDIRECT ==> inodes[i].addrs[t] == 0
      ensures inodes[i].(addrs := old(inodes)[i].addrs, size := old(inodes)[i].size) == old(inodes)[i]
      ensures Recorded(old(blocks), blocks, old(logged), logged)
    {
      RecordedNone(blocks, logged);
      hide Recorded;
      hide Owned, Held, Bitmap, Addr, Shrunk, OnDisk, NoHoles, Content, FreedExactly, OthersSame;
      ghost var st0 := St();
      panic := FreeDirect(i);
      ghost var mid, l := blocks, logged;
      if inodes[i].addrs[NDIRECT] != 0 {
        panic := FreeIndirect(i, st0);
        RecordedTwice(old(blocks), mid, blocks, old(logged), l, logged);
      }
      ghost var st := St();
      l := logged;
      OwnsNothing(sb, st, i);
      ShrunkInodes(sb, st0, st, i);
      inodes := inodes[i := inodes[i].(size := 0)];
      ghost var st1 := St();
      Resized(sb, st, st1, i, 0);
      Iupdate(i);
      RecordedTwice(old(blocks), st.blocks, blocks, old(logged), l, logged);
      Emptied(sb, st0, st, st1, St(), i);
      TruncatedExactly(sb, st0, st, St(), i);
    }
  }

  /** struct file for an inode: filewrite and fileread move `off`. */
  class File {
    const inum: nat
    const readable: bool
    const writable: bool
    var off: uint

    constructor (inum: nat, readable: bool, writable: bool)
      ensures this.inum == inum && this.readable == readable && this.writable == writable && off == 0
    {
      this.inum := inum;
      this.readable := readable;
      this.writable := writable;
      this.off := 0;
    }

    /** filewrite: chunks of at most three blocks, each a transaction of its own
        that logs at most MAXOPBLOCKS blocks. `wrote` bytes of src end up in the
        file from the old offset; the result is an error exactly when some chunk
        does not fit, and then the chunks before it stay written. */
    method Write(fs: FileSystem, src: seq<byte>) returns (r: IoResult, wrote: nat, ghost ops: seq<nat>)
      requires Whole(fs.sb, fs.St()) && inum < fs.sb.ninodes && |src| < 0x8000_0000
      modifies this`off, fs`blocks, fs`logged, fs`inodes, fs`owner
      ensures forall k :: 0 <= k < |ops| ==> ops[k] <= MAXOPBLOCKS
      ensures wrote <= |ops| * (3 * BSIZE) < wrote + 3 * BSIZE
      ensures r == Error || r == Wrote(|src|) || r == Panic || r == Device
      ensures r == Panic ==> DiskFull(fs.sb, fs.blocks)
      ensures r == Device <==> old(fs.inodes)[inum].typ == T_DEV && writable && src != []
      ensures r == Error || r == Wrote(|src|) ==>
                && wrote <= |src| && off == old(off) + wrote
                && Progress(fs.sb, old(fs.St()), fs.St(), inum, old(off), src[..wrote])
      ensures r == Wrote(|src|) ==> wrote == |src| && writable
      ensures r == Error && !writable ==> wrote == 0
      ensures r == Error && writable ==>
                && wrote < |src|
                && (off > fs.inodes[inum].size || off + ChunkSize(|src| - wrote) > MAXFILE * BSIZE)
    {
      hide Whole, Progress, OthersSame, Content, Cost, Overlay, DiskFull;
      ops, wrote := [], 0;
      ghost var st0, off0 := fs.St(), off;
      ProgressStart(fs.sb, st0, inum, off);
      ProgressFacts(fs.sb, st0, st0, inum, off, []);
      if !writable {
        return Error, 0, [];
      }
      while wrote < |src|
        invariant wrote <= |src| && off == off0 + wrote
        invariant Progress(fs.sb, st0, fs.St(), inum, off0, src[..wrote])
        invariant forall k :: 0 <= k < |ops| ==> ops[k] <= MAXOPBLOCKS
        invariant wrote <= |ops| * (3 * BSIZE) < wrote + 3 * BSIZE && (wrote < |src| ==> wrote == |ops| * (3 * BSIZE))
        invariant inum < |st0.inodes| && (wrote > 0 ==> st0.inodes[inum].typ != T_DEV)
      {
        ghost var st := fs.St();
        ProgressFacts(fs.sb, st0, st, inum, off0, src[..wrote]);
        var n1 := ChunkSize(|src| - wrote);
        fs.logged := {};
        r := fs.Writei(inum, src[wrote..wrote + n1], off);
        if r == Device || r == Error || r == Panic {
          return;
        }
        ChunkCost(off, n1, st.inodes[inum].size);
        ops := ops + [|fs.logged|];
        ProgressStep(fs.sb, st0, st, fs.St(), inum, off0, src[..wrote], src[wrote..wrote + n1]);
        assert src[..wrote] + src[wrote..wrote + n1] == src[..wrote + n1];
        off := off + n1;
        wrote := wrote + n1;
      }
      r := Wrote(|src|);
    }
  }

  // max = ((MAXOPBLOCKS-1-1-2) / 2) * 512
  function ChunkSize(n: nat): (k: nat)
    ensures k == if n > 3 * BSIZE then 3 * BSIZE else n
  {
    var max := (MAXOPBLOCKS - 1 - 1 - 2) / 2 * 512;
    if n > max then max else n
  }
}
