/** mkfs.c: building an image by appending to inodes, with a counter in place
    of the bitmap until the end. The ghost `shadow` is the image as it would be
    with the bitmap written now; it satisfies the kernel's own invariant. */
module MkFs {
  import opened Common
  import opened FsCodec
  import opened FsState
  import opened FsFile

  const NULL_INODE: Inode := Inode(0, 0, 0, 0, 0, [0, 0, 0, 0, 0, 0, 0, 0, 0, 0, 0, 0, 0])

  /** The super block main computes. */
  function Layout(fssize: nat, ninodes: nat, nlog: nat): Super {
    var inodestart := 2 + nlog;
    var bmapstart := inodestart + ninodes / IPB + 1;
    var nmeta := bmapstart + fssize / BPB + 1;
    Super(fssize, fssize - nmeta, ninodes, inodestart, bmapstart)
  }

  lemma LayoutOk(fssize: nat, ninodes: nat, nlog: nat)
    requires Layout(fssize, ninodes, nlog).nblocks >= 0 && fssize < U32
    ensures Layout(fssize, ninodes, nlog).Ok()
    ensures var sb := Layout(fssize, ninodes, nlog);
            && sb.size == fssize && sb.ninodes == ninodes && sb.inodestart == 2 + nlog
            && (sb.bmapstart - sb.inodestart) * IPB > ninodes && (sb.bmapstart - sb.inodestart - 1) * IPB <= ninodes
            && (sb.DataStart() - sb.bmapstart) * BPB > fssize && (sb.DataStart() - sb.bmapstart - 1) * BPB <= fssize
  {
  }

  // ---- The bitmap that is not written yet -----------------------------------------------

  /** The blocks with bits 0..n of the bitmap set. */
  ghost function WithBits(sb: Super, blocks: seq<Block>, n: nat): (r: seq<Block>)
    requires sb.Ok() && |blocks| == sb.size && n <= sb.size
    ensures |r| == |blocks|
  {
    if n == 0 then blocks
    else
      var p := WithBits(sb, blocks, n - 1);
      p[sb.BBlock(n - 1) := PutBit(p[sb.BBlock(n - 1)], (n - 1) % BPB, true)]
  }

  lemma MarkedPut(sb: Super, blocks: seq<Block>, b: nat, c: nat)
    requires sb.Ok() && |blocks| == sb.size && b < sb.size && c < sb.size && sb.BBlock(b) < sb.size
    ensures Marked(sb, blocks[sb.BBlock(b) := PutBit(blocks[sb.BBlock(b)], b % BPB, true)], c)
       <==> c == b || Marked(sb, blocks, c)
  {
    BitmapRange(sb, c);
    SuperRange(sb);
    hide Bit, PutBit, Super.Ok;
    BitOfPut(blocks[sb.BBlock(b)], b % BPB, true, c % BPB);
  }

  lemma {:induction false} WithBitsMarked(sb: Super, blocks: seq<Block>, n: nat, c: nat)
    requires sb.Ok() && |blocks| == sb.size && n <= sb.size && c < sb.size
    ensures Marked(sb, WithBits(sb, blocks, n), c) <==> c < n || Marked(sb, blocks, c)
  {
    hide PutBit, Marked, Super.Ok, Super.BBlock;
    if n > 0 {
      WithBitsMarked(sb, blocks, n - 1, c);
      BitmapRange(sb, n - 1);
      SuperRange(sb);
      MarkedPut(sb, WithBits(sb, blocks, n - 1), n - 1, c);
    }
  }

  lemma {:induction false} WithBitsElsewhere(sb: Super, blocks: seq<Block>, n: nat, b: nat)
    requires sb.Ok() && |blocks| == sb.size && n <= sb.size && b < sb.size
    requires !(sb.bmapstart <= b < sb.DataStart())
    ensures WithBits(sb, blocks, n)[b] == blocks[b]
  {
    hide PutBit, Super.Ok;
    if n > 0 {
      BitmapRange(sb, n - 1);
      WithBitsElsewhere(sb, blocks, n - 1, b);
    }
  }

  /** The image and its shadow agree outside the bitmap, the image's bitmap and
      everything from freeblock on are still zero, and the shadow's bitmap marks
      the blocks below freeblock. */
  ghost predicate Tracks(sb: Super, blocks: seq<Block>, freeblock: nat, shadow: seq<Block>) {
    && sb.Ok() && |blocks| == |shadow| == sb.size
    && sb.DataStart() <= freeblock <= sb.size
    && (forall b :: 0 <= b < sb.size && !(sb.bmapstart <= b < sb.DataStart()) ==> blocks[b] == shadow[b])
    && (forall b :: sb.bmapstart <= b < sb.DataStart() ==> blocks[b] == Zeroes())
    && (forall b :: freeblock <= b < sb.size ==> blocks[b] == Zeroes())
    && (forall b :: 0 <= b < sb.size ==> (Marked(sb, shadow, b) <==> b < freeblock))
  }

  /** No block is mapped at or past the end of the file. */
  ghost predicate Tight(st: State, i: nat, size: nat) {
    forall fbn :: 0 <= fbn < MAXFILE && Addr(st, i, SlotOf(fbn)) != 0 ==> fbn * BSIZE < size
  }

  /** An indirect block is there only for a file that needs one. */
  ghost predicate Snug(ino: Inode) {
    |ino.addrs| == NDIRECT + 1 && (ino.addrs[NDIRECT] != 0 ==> ino.size > NDIRECT * BSIZE)
  }

  function Ind(ino: Inode): uint {
    if |ino.addrs| == NDIRECT + 1 then ino.addrs[NDIRECT] else 0
  }

  /** The blocks that a file of n bytes takes, its indirect block included. */
  function Blocks(n: nat): nat {
    (n + BSIZE - 1) / BSIZE + if n > NDIRECT * BSIZE then 1 else 0
  }

  /** The blocks that file block fbn of inode i still needs. */
  ghost function Needs(st: State, i: nat, fbn: nat): nat {
    (if Addr(st, i, SlotOf(fbn)) == 0 then 1 else 0) + if fbn >= NDIRECT && Addr(st, i, NDIRECT) == 0 then 1 else 0
  }

  /** freeblock++: the fresh block is zero already. */
  lemma TracksAllocated(sb: Super, blocks: seq<Block>, b: nat, sh: seq<Block>)
    requires Tracks(sb, blocks, b, sh) && b < sb.size
    ensures Tracks(sb, blocks, b + 1, Allocated(sb, sh, b))
  {
    hide Marked, PutBit;
    var sh' := Allocated(sb, sh, b);
    forall c | 0 <= c < sb.size ensures Marked(sb, sh', c) <==> c < b + 1 {
      MarkedAllocated(sb, sh, b, c);
    }
    AllocatedNear(sb, sh, b);
  }

  lemma AllocatedNear(sb: Super, sh: seq<Block>, b: nat)
    requires sb.Ok() && |sh| == sb.size && sb.DataStart() <= b < sb.size
    ensures forall c :: 0 <= c < sb.size && !(sb.bmapstart <= c < sb.DataStart()) && c != b ==>
              Allocated(sb, sh, b)[c] == sh[c]
    ensures Allocated(sb, sh, b)[b] == Zeroes()
  {
    hide PutBit;
  }

  /** wsect to a block that is neither free nor in the bitmap. */
  lemma TracksWrite(sb: Super, blocks: seq<Block>, free: nat, sh: seq<Block>, a: nat, x: Block)
    requires Tracks(sb, blocks, free, sh) && a < free && a < sb.size && !(sb.bmapstart <= a < sb.DataStart())
    ensures Tracks(sb, blocks[a := x], free, sh[a := x])
  {
    hide Marked, Super.Ok;
    SuperRange(sb);
    var sh' := sh[a := x];
    forall c | 0 <= c < sb.size ensures Marked(sb, sh', c) <==> c < free {
      BitmapRange(sb, c);
      MarkedSame(sb, sh, sh', c);
    }
  }

  /** Owned blocks lie below freeblock. */
  lemma BelowFree(sb: Super, blocks: seq<Block>, free: nat, sh: State, i: nat, s: nat)
    requires Tracks(sb, blocks, free, sh.blocks) && Inv(sb, sh) && Addr(sh, i, s) != 0
    ensures sb.DataStart() <= Addr(sh, i, s) < free && Addr(sh, i, s) < sb.size
    ensures |blocks| == sb.size && blocks[Addr(sh, i, s)] == sh.blocks[Addr(sh, i, s)]
  {
    hide Addr, Owned, Held, Marked;
    SlotRange(sb, sh, i, s);
    OwnedMarked(sb, sh, Addr(sh, i, s));
  }

  /** The block freeblock names is free in the shadow. */
  lemma FreeGrows(sb: Super, blocks: seq<Block>, b: nat, sh: State, i: nat, s: nat)
    requires Tracks(sb, blocks, b, sh.blocks) && Inv(sb, sh) && b < sb.size
    requires i < |sh.inodes| && s < NSLOTS && Addr(sh, i, s) == 0
    ensures CanGrow(sb, sh, i, s, b)
  {
    hide Addr, Owned, Held, Marked, Bitmap;
  }

  lemma InodeInRange(sb: Super, sh: State, i: nat)
    requires Whole(sb, sh) && i < sb.ninodes
    ensures i < |sh.inodes| && sb.IBlock(i) < sb.bmapstart
  {
    hide Owned, Held, Bitmap, NoHoles, OnDisk;
  }

  /** What iupdate and winode leave: inode i is on disk, the other disk inodes
      are as they were, and no slot and no other block changed. */
  ghost predicate Updated(sb: Super, st1: State, st2: State, i: nat) {
    && Inv(sb, st2) && OnDisk(sb, st2, i)
    && (forall k :: 0 <= k < sb.ninodes && OnDisk(sb, st1, k) ==> OnDisk(sb, st2, k))
    && st2.inodes == st1.inodes && st2.owner == st1.owner && |st2.blocks| == |st1.blocks|
    && (forall k, s :: Addr(st2, k, s) == Addr(st1, k, s))
    && (forall b :: 0 <= b < |st1.blocks| && b != sb.IBlock(i) ==> st2.blocks[b] == st1.blocks[b])
  }

  lemma IndSlot(st: State, i: nat)
    requires i < |st.inodes|
    ensures Addr(st, i, NDIRECT) == Ind(st.inodes[i])
  {
  }

  lemma NeedsEntry(st: State, i: nat, k: nat)
    ensures Addr(st, i, NDIRECT) == 0 ==> Addr(st, i, NDIRECT + 1 + k) == 0 && Needs(st, i, NDIRECT + k) == 2
    ensures Addr(st, i, NDIRECT) != 0 ==>
              Needs(st, i, NDIRECT + k) == if Addr(st, i, NDIRECT + 1 + k) == 0 then 1 else 0
  {
  }

  /** In a tight file without holes, the block of byte `off` is missing exactly at a block's start, and
      the indirect block exactly while no byte needed it. */
  lemma NeedsAt(sb: Super, sh0: State, sh: State, i: nat, c: seq<byte>, done: seq<byte>)
    requires Writing(sb, sh0, sh, i, c, |c|, done) && Tight(sh, i, |c| + |done|) && |c| + |done| < MAXFILE * BSIZE
    requires i < |sh.inodes| && (Ind(sh.inodes[i]) != 0 ==> |c| + |done| > NDIRECT * BSIZE)
    ensures var off := |c| + |done|;
            Needs(sh, i, off / BSIZE) == (if off % BSIZE == 0 then 1 else 0) + if off == NDIRECT * BSIZE then 1 else 0
  {
    hide Inv, Addr, KeepsOthers;
    var off := |c| + |done|;
    OverlayEnd(c, done);
    FileNoHoles(sh, i, c + done);
    IndSlot(sh, i);
    if off > NDIRECT * BSIZE {
      assert Mapped(sh, i, NDIRECT);
      EntryNeedsIndirect(sh, i, SlotOf(NDIRECT));
    }
    if off % BSIZE != 0 {
      assert Mapped(sh, i, off / BSIZE);
    }
  }

  /** One more piece within its block. */
  lemma BlocksStep(off: nat, m: nat)
    requires 0 < m && off % BSIZE + m <= BSIZE
    ensures Blocks(off + m) == Blocks(off)
            + (if off % BSIZE == 0 then 1 else 0) + if off == NDIRECT * BSIZE then 1 else 0
  {
  }

  lemma BlocksGrow(n: nat, m: nat)
    requires n <= m
    ensures Blocks(n) <= Blocks(m)
  {
  }

  lemma InodeTracked(sb: Super, blocks: seq<Block>, free: nat, sh: State, i: nat)
    requires Inv(sb, sh) && Tracks(sb, blocks, free, sh.blocks) && i < sb.ninodes
    ensures i < |sh.inodes| && |sh.inodes[i].addrs| == NDIRECT + 1
    ensures sb.IBlock(i) < sb.bmapstart < sb.DataStart() && sb.IBlock(i) < free && sb.IBlock(i) < sb.size
    ensures |blocks| == |sh.blocks| == sb.size && blocks[sb.IBlock(i)] == sh.blocks[sb.IBlock(i)]
  {
    hide Owned, Held, Bitmap, Marked;
    assert InodeShape(sh.inodes[i]);
  }

  lemma AppendStarts(sb: Super, sh: State, i: nat)
    requires Whole(sb, sh) && i < sb.ninodes
    ensures i < |sh.inodes| && Writing(sb, sh, sh, i, Content(sh, i), |Content(sh, i)|, [])
    ensures |Content(sh, i)| <= MAXFILE * BSIZE
  {
    hide Inv, NoHoles, Content, Budget, Writing, OnDisk;
    WholeFacts(sb, sh, i);
    WriteStarts(sb, sh, i, |Content(sh, i)|, {});
  }

  /** One piece: the file grows by it, and by no block past its end. */
  lemma PieceAppended(sb: Super, sh0: State, sh: State, mid: State, sh': State,
                      i: nat, c: seq<byte>, done: seq<byte>, x: uint, d: seq<byte>)
    requires Writing(sb, sh0, sh, i, c, |c|, done) && Tight(sh, i, |c| + |done|)
    requires |d| > 0 && (|c| + |done|) % BSIZE + |d| <= BSIZE
    requires Bmapped(sb, sh, mid, i, (|c| + |done|) / BSIZE, x) && x < |mid.blocks|
    requires sh' == mid.(blocks := mid.blocks[x := Patched(mid.blocks[x], (|c| + |done|) % BSIZE, d)])
    ensures Writing(sb, sh0, sh', i, c, |c|, done + d) && Tight(sh', i, |c| + |done| + |d|)
  {
    hide Writing, Inv, Addr, Patched, FileIs;
    var off := |c| + |done|;
    WritingStep(sb, sh0, sh, mid, sh', i, c, |c|, done, x, d);
    GrowsInv(sb, sh, mid, i);
    SlotRange(sb, mid, i, SlotOf(off / BSIZE));
    assert Plain(sb, mid, x);
    PlainWriteOk(sb, mid, sh', x, sh'.blocks[x]);
    forall fbn | 0 <= fbn < MAXFILE && Addr(sh', i, SlotOf(fbn)) != 0 ensures fbn * BSIZE < off + |d| {
      if fbn != off / BSIZE {
        assert Addr(sh', i, SlotOf(fbn)) == Addr(sh, i, SlotOf(fbn));
      }
    }
  }

  lemma AppendSized(sb: Super, sh0: State, sh: State, i: nat, data: seq<byte>)
    requires Whole(sb, sh0) && i < |sh0.inodes|
    requires Writing(sb, sh0, sh, i, Content(sh0, i), |Content(sh0, i)|, data)
    requires |Content(sh0, i)| + |data| <= MAXFILE * BSIZE && i < |sh.inodes|
    ensures Inv(sb, sh.(inodes := sh.inodes[i := sh.inodes[i].(size := |Content(sh0, i)| + |data|)]))
  {
    hide Writing, Inv, OnDisk, NoHoles, Content;
    WritingInv(sb, sh0, sh, i, Content(sh0, i), |Content(sh0, i)|, data);
    Resized(sb, sh, sh.(inodes := sh.inodes[i := sh.inodes[i].(size := |Content(sh0, i)| + |data|)]),
            i, |Content(sh0, i)| + |data|);
  }

  lemma Appended(sb: Super, sh0: State, sh: State, sh2: State, i: nat, data: seq<byte>)
    requires Whole(sb, sh0) && i < |sh0.inodes|
    requires forall k :: 0 <= k < |sh0.inodes| ==> Tight(sh0, k, sh0.inodes[k].size)
    requires Writing(sb, sh0, sh, i, Content(sh0, i), |Content(sh0, i)|, data) && i < |sh.inodes|
    requires |Content(sh0, i)| + |data| <= MAXFILE * BSIZE
    requires Tight(sh, i, |Content(sh0, i)| + |data|)
    requires Updated(sb, sh.(inodes := sh.inodes[i := sh.inodes[i].(size := |Content(sh0, i)| + |data|)]), sh2, i)
    ensures Whole(sb, sh2) && OthersSame(sb, sh0, sh2, i)
    ensures |sh2.inodes| == |sh0.inodes|
    ensures forall k :: 0 <= k < |sh0.inodes| && k != i ==> sh2.inodes[k] == sh0.inodes[k]
    ensures i < |sh2.inodes| && Content(sh2, i) == Content(sh0, i) + data
    ensures sh2.inodes[i].typ == sh0.inodes[i].typ
    ensures forall k :: 0 <= k < |sh2.inodes| ==> Tight(sh2, k, sh2.inodes[k].size)
  {
    hide Owned, Held, Bitmap, Addr, OnDisk, NoHoles, Content, Overlay, Tight, FileIs, KeepsOthers;
    var c := Content(sh0, i);
    var sh1 := sh.(inodes := sh.inodes[i := sh.inodes[i].(size := |c| + |data|)]);
    SizeRaised(sb, sh0, sh, sh1, i, |c|, data);
    WriteBeyond(sb, sh0, sh, sh1, sh2, i, |c|, data);
    assert Overlay(c, |c|, data) == c + data by { OverlayEnd(c, data); }
    forall k | 0 <= k < |sh2.inodes| ensures Tight(sh2, k, sh2.inodes[k].size) {
      StillTight(sb, sh0, sh, sh2, i, k);
    }
  }

  lemma OverlayEnd(c: seq<byte>, d: seq<byte>)
    ensures Overlay(c, |c|, d) == c + d
  {
  }

  lemma StillTight(sb: Super, sh0: State, sh: State, sh2: State, i: nat, k: nat)
    requires Inv(sb, sh0) && Inv(sb, sh) && KeepsOthers(sh0, sh, i)
    requires i < |sh.inodes| && k < |sh.inodes| == |sh0.inodes| == |sh2.inodes|
    requires k != i ==>
               sh.inodes[k] == sh0.inodes[k] && sh2.inodes[k] == sh.inodes[k] && Tight(sh0, k, sh0.inodes[k].size)
    requires k == i ==> Tight(sh, i, sh2.inodes[i].size)
    requires forall s :: Addr(sh2, k, s) == Addr(sh, k, s)
    ensures Tight(sh2, k, sh2.inodes[k].size)
  {
    hide Inv, Addr, KeepsOthers;
    forall fbn | 0 <= fbn < MAXFILE && Addr(sh2, k, SlotOf(fbn)) != 0
      ensures fbn * BSIZE < sh2.inodes[k].size
    {
      if k != i { OtherAddr(sb, sh0, sh, i, k, SlotOf(fbn)); }
    }
  }

  /** The slots of another inode are as they were. */
  lemma OtherAddr(sb: Super, st0: State, st: State, i: nat, k: nat, s: nat)
    requires Inv(sb, st0) && Inv(sb, st) && KeepsOthers(st0, st, i) && k != i
    requires k < |st0.inodes| == |st.inodes| && st.inodes[k] == st0.inodes[k] && s < NSLOTS
    ensures Addr(st, k, s) == Addr(st0, k, s)
  {
    hide Owned, Held, Bitmap, Word;
    if st0.inodes[k].addrs[NDIRECT] != 0 { IndirectOwned(sb, st0, k); }
  }

  // ---- The empty image --------------------------------------------------------------------

  ghost function Blank(sb: Super, blocks: seq<Block>): State
    requires sb.Ok() && |blocks| == sb.size
  {
    State(WithBits(sb, blocks, sb.DataStart()), seq(sb.ninodes, _ => NULL_INODE), map[])
  }

  lemma {:induction false} ZeroBit(k: nat)
    ensures !ByteBit(0, k)
  {
    if k > 0 { ZeroBit(k - 1); }
  }

  lemma ZeroBlockBit(i: nat)
    requires i < BPB
    ensures !Bit(Zeroes(), i)
  {
    ZeroBit(i % 8);
  }

  lemma ZeroInode(k: nat)
    requires k < IPB
    ensures GetInode(Zeroes(), k) == NULL_INODE
  {
    hide Word;
    forall i | 0 <= i < IWORDS ensures InodeWord(Zeroes(), k, i) == 0 {
      ZeroWords(IWORDS * k + i);
    }
    assert InodeAddrs(Zeroes(), k) == NULL_INODE.addrs;
  }

  lemma BlankOk(sb: Super, blocks: seq<Block>)
    requires sb.Ok() && |blocks| == sb.size
    requires forall b :: 0 <= b < sb.size && b != 1 ==> blocks[b] == Zeroes()
    ensures Whole(sb, Blank(sb, blocks)) && Tracks(sb, blocks, sb.DataStart(), Blank(sb, blocks).blocks)
    ensures forall i :: 0 <= i < sb.ninodes ==> Tight(Blank(sb, blocks), i, Blank(sb, blocks).inodes[i].size)
  {
    hide Marked, WithBits, GetInode, Addr, Tracks;
    var st := Blank(sb, blocks);
    BlankTracks(sb, blocks);
    BlankBitmap(sb, blocks, st);
    forall i, s ensures Addr(st, i, s) == 0 {
      BlankAddr(sb, st, i, s);
    }
    forall i | 0 <= i < sb.ninodes ensures OnDisk(sb, st, i) {
      WithBitsElsewhere(sb, blocks, sb.DataStart(), sb.IBlock(i));
      ZeroInode(i % IPB);
    }
  }

  lemma BlankTracks(sb: Super, blocks: seq<Block>)
    requires sb.Ok() && |blocks| == sb.size
    requires forall b :: 0 <= b < sb.size && b != 1 ==> blocks[b] == Zeroes()
    ensures Tracks(sb, blocks, sb.DataStart(), WithBits(sb, blocks, sb.DataStart()))
  {
    hide Marked, WithBits, Super.Ok, Zeroes;
    SuperRange(sb);
    var sh := WithBits(sb, blocks, sb.DataStart());
    forall b | 0 <= b < sb.size ensures Marked(sb, sh, b) <==> b < sb.DataStart() {
      WithBitsMarked(sb, blocks, sb.DataStart(), b);
      BlankUnmarked(sb, blocks, b);
    }
    forall b | 0 <= b < sb.size && !(sb.bmapstart <= b < sb.DataStart()) ensures sh[b] == blocks[b] {
      WithBitsElsewhere(sb, blocks, sb.DataStart(), b);
    }
  }

  lemma BlankBitmap(sb: Super, blocks: seq<Block>, st: State)
    requires sb.Ok() && Tracks(sb, blocks, sb.DataStart(), st.blocks) && st.owner == map[]
    ensures Bitmap(sb, st)
  {
    hide Marked;
  }

  lemma BlankUnmarked(sb: Super, blocks: seq<Block>, b: nat)
    requires sb.Ok() && |blocks| == sb.size && b < sb.size
    requires forall c :: 0 <= c < sb.size && c != 1 ==> blocks[c] == Zeroes()
    ensures !Marked(sb, blocks, b)
  {
    hide Bit;
    ZeroBlockBit(b % BPB);
  }

  lemma BlankAddr(sb: Super, st: State, i: int, s: int)
    requires forall k :: 0 <= k < |st.inodes| ==> st.inodes[k] == NULL_INODE
    ensures Addr(st, i, s) == 0
  {
    hide Word;
  }

  // ---- ialloc --------------------------------------------------------------------------------

  /** An inode without addresses may become another one without addresses. */
  lemma FreshInode(sb: Super, sh: State, i: nat, din: Inode)
    requires Whole(sb, sh) && i < |sh.inodes| && sh.inodes[i] == NULL_INODE
    requires din.addrs == NULL_INODE.addrs && din.size == 0
    ensures Inv(sb, sh.(inodes := sh.inodes[i := din]))
    ensures forall k, s :: Addr(sh.(inodes := sh.inodes[i := din]), k, s) == Addr(sh, k, s)
  {
    hide Owned, Held, Bitmap, Word, Marked, NoHoles, OnDisk;
    var st := sh.(inodes := sh.inodes[i := din]);
    forall k, s ensures Addr(st, k, s) == Addr(sh, k, s) {}
    SameSlots(sb, sh, st);
  }

  lemma InodeTaken(sb: Super, sh0: State, sh: State, i: nat, din: Inode)
    requires Whole(sb, sh0) && i < |sh0.inodes| && sh0.inodes[i] == NULL_INODE
    requires din.addrs == NULL_INODE.addrs && din.size == 0
    requires forall k :: 0 <= k < |sh0.inodes| ==> Tight(sh0, k, sh0.inodes[k].size)
    requires Updated(sb, sh0.(inodes := sh0.inodes[i := din]), sh, i)
    ensures Whole(sb, sh) && OthersSame(sb, sh0, sh, i)
    ensures i < |sh.inodes| && sh.inodes[i] == din && Content(sh, i) == []
    ensures forall k :: 0 <= k < |sh.inodes| ==> Tight(sh, k, sh.inodes[k].size)
  {
    hide Owned, Held, Bitmap, Addr, NoHoles, OnDisk, Content, KeepsOthers, FileIs;
    var sh1 := sh0.(inodes := sh0.inodes[i := din]);
    FreshInode(sb, sh0, i, din);
    KeepsSelf(sh0, i);
    KeepsThroughUpdate(sb, sh0, sh0, sh, i);
    forall k | 0 <= k < |sh0.inodes| && k != i ensures OnDisk(sb, sh, k) {
      OnDiskSame(sb, sh0, sh1, k);
    }
    EmptyFile(sh, i);
    WholeAgain(sb, sh0, sh, i, []);
    forall k | 0 <= k < |sh.inodes| ensures Tight(sh, k, sh.inodes[k].size) {
      assert Tight(sh0, k, sh0.inodes[k].size);
    }
  }

  lemma KeepsSelf(st: State, i: nat)
    ensures KeepsOthers(st, st, i)
  {
  }

  // ---- The end of main -----------------------------------------------------------------------

  /** The next block boundary after n bytes. */
  function Past(n: nat): nat { (n / BSIZE + 1) * BSIZE }

  lemma PastIs(n: nat)
    requires n <= MAXFILE * BSIZE
    ensures n < Past(n) < U32 && (Past(n) > MAXFILE * BSIZE <==> n == MAXFILE * BSIZE)
  {
  }

  /** The root directory after its size has been rounded up. */
  lemma RoundedUp(sb: Super, sh0: State, sh: State, i: nat)
    requires Whole(sb, sh0) && i < |sh0.inodes| && sh0.inodes[i].size < MAXFILE * BSIZE
    requires forall k :: 0 <= k < |sh0.inodes| ==> Tight(sh0, k, sh0.inodes[k].size)
    requires Updated(sb,
             sh0.(inodes := sh0.inodes[i := sh0.inodes[i].(size := Past(sh0.inodes[i].size))]), sh, i)
    requires forall k, s :: Addr(sh, k, s) == Addr(sh0, k, s)
    ensures NoHoles(sh, i, sh.inodes[i].size) <==> sh0.inodes[i].size % BSIZE != 0
    ensures sh0.inodes[i].size % BSIZE != 0 ==>
              && Whole(sb, sh) && OthersSame(sb, sh0, sh, i) && Content(sh0, i) <= Content(sh, i)
              && forall k :: 0 <= k < |sh.inodes| ==> Tight(sh, k, sh.inodes[k].size)
  {
    hide Owned, Held, Bitmap, Addr, OnDisk, Content, KeepsOthers, NoHoles, Tight;
    var n, m := sh0.inodes[i].size, sh.inodes[i].size;
    if n % BSIZE == 0 {
      HoleAtEnd(sh0, sh, i, n, m);
    } else {
      assert NoHoles(sh0, i, n);
      SlotsBelow(sh0, sh, i, n, m);
      KeepsSelf(sh0, i);
      KeepsThroughUpdate(sb, sh0, sh0, sh, i);
      forall k | 0 <= k < |sh0.inodes| && k != i ensures OnDisk(sb, sh, k) {
        OnDiskSame(sb, sh0, sh0.(inodes := sh0.inodes[i := sh.inodes[i]]), k);
      }
      ContentFileIs(sh, i);
      WholeAgain(sb, sh0, sh, i, Content(sh, i));
      PrefixKept(sb, sh0, sh, i);
      forall k | 0 <= k < |sh.inodes| ensures Tight(sh, k, sh.inodes[k].size) {
        assert Tight(sh0, k, sh0.inodes[k].size);
        RoundedTight(sh0, sh, i, k);
      }
    }
  }

  /** Only the sizes that grow change. */
  lemma StillSnug(sb: Super, sh0: State, sh: State, i: nat)
    requires i < |sh0.inodes| && (forall k :: 0 <= k < |sh0.inodes| ==> Snug(sh0.inodes[k]))
    requires |sh.inodes| == |sh0.inodes| && sh.inodes[i].size >= sh0.inodes[i].size
    requires sh.inodes == sh0.inodes[i := sh0.inodes[i].(size := sh.inodes[i].size)]
    ensures forall k :: 0 <= k < |sh.inodes| ==> Snug(sh.inodes[k])
  {
  }

  lemma TooLarge(sh: State, i: nat, n: nat)
    requires n > MAXFILE * BSIZE
    ensures !NoHoles(sh, i, n)
  {
    assert !Mapped(sh, i, MAXFILE);
  }

  lemma HoleAtEnd(sh0: State, sh: State, i: nat, n: nat, m: nat)
    requires Tight(sh0, i, n) && n % BSIZE == 0 && n < m && n < MAXFILE * BSIZE
    requires forall s :: Addr(sh, i, s) == Addr(sh0, i, s)
    ensures !NoHoles(sh, i, m)
  {
    hide Addr;
    var fbn := n / BSIZE;
    assert fbn * BSIZE == n;
    assert !Mapped(sh, i, fbn);
  }

  lemma SlotsBelow(sh0: State, sh: State, i: nat, n: nat, m: nat)
    requires NoHoles(sh0, i, n) && n % BSIZE != 0 && m == (n / BSIZE + 1) * BSIZE
    requires |sh.blocks| == |sh0.blocks| && forall s :: Addr(sh, i, s) == Addr(sh0, i, s)
    ensures NoHoles(sh, i, m)
  {
    hide Addr;
    forall fbn | 0 <= fbn && fbn * BSIZE < m ensures Mapped(sh, i, fbn) {
      assert fbn * BSIZE < n;
      assert Mapped(sh0, i, fbn);
    }
  }

  lemma RoundedTight(sh0: State, sh: State, i: nat, k: nat)
    requires k < |sh0.inodes| == |sh.inodes| && Tight(sh0, k, sh0.inodes[k].size)
    requires sh.inodes[k].size >= sh0.inodes[k].size
    requires forall s :: Addr(sh, k, s) == Addr(sh0, k, s)
    ensures Tight(sh, k, sh.inodes[k].size)
  {
    hide Addr;
  }

  lemma PrefixKept(sb: Super, sh0: State, sh: State, i: nat)
    requires Whole(sb, sh0) && Whole(sb, sh) && i < |sh0.inodes| == |sh.inodes| && |sh.blocks| == |sh0.blocks|
    requires sh0.inodes[i].size <= sh.inodes[i].size
    requires forall s :: Addr(sh, i, s) == Addr(sh0, i, s)
    requires forall b :: 0 <= b < |sh0.blocks| && b != sb.IBlock(i) ==> sh.blocks[b] == sh0.blocks[b]
    ensures Content(sh0, i) <= Content(sh, i)
  {
    hide Owned, Held, Bitmap, Addr, OnDisk, NoHoles, Super.Ok, Super.IBlock;
    InodeBlock(sb, i);
    SuperRange(sb);
    var c := Content(sh0, i);
    ContentFileIs(sh0, i);
    FileIsFrame(sb, sh0, sh, i, c);
    hide FileIs;
    PrefixOf(sh, i, c);
  }

  lemma PrefixOf(st: State, i: nat, c: seq<byte>)
    requires i < |st.inodes| && FileIs(st, i, c) && |c| <= st.inodes[i].size && NoHoles(st, i, st.inodes[i].size)
    ensures c <= Content(st, i)
  {
    hide NoHoles;
    forall j | 0 <= j < |c| ensures Content(st, i)[j] == c[j] {
      assert ByteAt(st, i, |c|, j) == c[j];
      assert ByteAt(st, i, st.inodes[i].size, j) == ByteAt(st, i, |c|, j);
    }
  }

  lemma TracksSize(sb: Super, blocks: seq<Block>, free: nat, sh: seq<Block>)
    requires Tracks(sb, blocks, free, sh)
    ensures sb.bmapstart < |blocks| == sb.size && free <= sb.size
  {
    hide Marked;
  }

  lemma BitmapMarks(sb: Super, was: seq<Block>, blocks: seq<Block>, used: nat, sh: seq<Block>, buf: Block, b: nat)
    requires Tracks(sb, was, used, sh) && used < BPB && b < sb.size
    requires blocks == was[sb.bmapstart := buf]
    requires forall k :: 0 <= k < BPB ==> (Bit(buf, k) <==> k < used || Bit(Zeroes(), k))
    ensures Marked(sb, blocks, b) <==> b < used
  {
    hide Bit, Super.Ok, Zeroes;
    BitmapRange(sb, b);
    ZeroBlockBit(b % BPB);
  }

  /** The finished image in place of its shadow. */
  lemma BitmapWritten(sb: Super, was: seq<Block>, blocks: seq<Block>, used: nat, sh: State, buf: Block)
    requires Whole(sb, sh) && Tracks(sb, was, used, sh.blocks) && used < BPB
    requires sb.bmapstart < |was| && blocks == was[sb.bmapstart := buf]
    requires forall k :: 0 <= k < BPB ==> (Bit(buf, k) <==> k < used || Bit(Zeroes(), k))
    ensures forall b :: 0 <= b < sb.size ==> (Marked(sb, blocks, b) <==> b < used)
    ensures Whole(sb, State(blocks, sh.inodes, sh.owner))
    ensures forall i :: 0 <= i < |sh.inodes| ==> Content(State(blocks, sh.inodes, sh.owner), i) == Content(sh, i)
  {
    hide Owned, Held, Bitmap, Bit, Addr, Marked, NoHoles, OnDisk, Content, FileIs, Zeroes, Super.Ok;
    SuperRange(sb);
    var st := State(blocks, sh.inodes, sh.owner);
    forall b | 0 <= b < sb.size ensures Marked(sb, blocks, b) <==> b < used {
      BitmapMarks(sb, was, blocks, used, sh.blocks, buf, b);
    }
    forall i, s ensures Addr(st, i, s) == Addr(sh, i, s) {
      AddrOfData(sb, sh, st, i, s);
    }
    SameSlots(sb, sh, st);
    SameFiles(sb, sh, st);
  }

  lemma AppendFields(sb: Super, sh0: State, sh: State, i: nat, c: seq<byte>, done: seq<byte>)
    requires Writing(sb, sh0, sh, i, c, |c|, done)
    ensures i < |sh0.inodes| && i < |sh.inodes| && sh.inodes[i] == sh0.inodes[i].(addrs := sh.inodes[i].addrs)
    ensures |sh.inodes[i].addrs| == NDIRECT + 1
  {
    hide Owned, Held, Bitmap, Overlay, FileIs, KeepsOthers;
    assert InodeShape(sh.inodes[i]);
  }

  lemma AppendFront(sb: Super, sh0: State, sh: State, sh2: State, i: nat, c: seq<byte>, done: seq<byte>, din: Inode)
    requires Whole(sb, sh0) && Writing(sb, sh0, sh, i, c, |c|, done) && i < |sh.inodes|
    requires Updated(sb, sh.(inodes := sh.inodes[i := din]), sh2, i)
    ensures Front(sb, sh0.blocks, sh2.blocks)
  {
    hide Owned, Held, Bitmap, Overlay, FileIs, KeepsOthers, Addr, OnDisk, NoHoles, Super.Ok;
    SuperRange(sb);
  }

  lemma BitmapFront(sb: Super, was: seq<Block>, free: nat, sh: seq<Block>, buf: Block)
    requires Tracks(sb, was, free, sh) && sb.bmapstart < |was|
    ensures Front(sb, was, was[sb.bmapstart := buf])
  {
    SuperRange(sb);
    hide Marked, Super.Ok;
  }

  /** The image with din as inode inum; a write past its end does not show. */
  function WithInode(sb: Super, blocks: seq<Block>, inum: nat, din: Inode): seq<Block>
    requires |din.addrs| == NDIRECT + 1
  {
    if sb.IBlock(inum) < |blocks|
    then blocks[sb.IBlock(inum) := PutInode(blocks[sb.IBlock(inum)], inum % IPB, din)] else blocks
  }

  lemma SuperOk(sb: Super, st: State)
    requires Inv(sb, st)
    ensures sb.Ok() && |st.blocks| == sb.size
  {
  }

  lemma InodeAside(sb: Super, inum: nat)
    requires sb.Ok() && inum < sb.ninodes
    ensures sb.IBlock(inum) < sb.bmapstart
  {
  }

  /** An inode written into a bitmap block shows there. */
  lemma BitmapSpoilt(sb: Super, was: seq<Block>, blocks: seq<Block>, free: nat, sh: seq<Block>, inum: nat, din: Inode)
    requires |din.addrs| == NDIRECT + 1 && din != NULL_INODE && sb.Ok() && |was| == sb.size
    requires blocks == WithInode(sb, was, inum, din) && sb.bmapstart <= sb.IBlock(inum) < sb.DataStart()
    ensures !Tracks(sb, blocks, free, sh)
  {
    hide PutInode, GetInode, Marked;
    var b := sb.IBlock(inum);
    InodeOfPut(was[b], inum % IPB, din, inum % IPB);
    ZeroInode(inum % IPB);
    assert GetInode(blocks[b], inum % IPB) == din;
    assert blocks[b] != Zeroes();
  }

  /** The blocks before the inodes are as they were: the boot block, the super block and the log. */
  ghost predicate Front(sb: Super, was: seq<Block>, blocks: seq<Block>) {
    |blocks| == |was| && forall b :: 0 <= b < sb.inodestart && b < |was| ==> blocks[b] == was[b]
  }

  lemma TracksFront(sb: Super, was: seq<Block>, free0: nat, sh0: seq<Block>,
                    blocks: seq<Block>, free: nat, sh: seq<Block>)
    requires Tracks(sb, was, free0, sh0) && Tracks(sb, blocks, free, sh) && Front(sb, sh0, sh)
    ensures Front(sb, was, blocks)
  {
    SuperRange(sb);
    hide Marked, Super.Ok;
  }

  lemma InodeFront(sb: Super, was: seq<Block>, inum: nat, din: Inode)
    requires |din.addrs| == NDIRECT + 1
    ensures Front(sb, was, WithInode(sb, was, inum, din))
  {
    hide PutInode;
  }

  class Image {
    const sb: Super
    var blocks: seq<Block>
    var freeblock: nat
    var freeinode: nat
    ghost var shadow: State

    ghost predicate Valid()
      reads this
    {
      && Whole(sb, shadow) && Tracks(sb, blocks, freeblock, shadow.blocks)
      && (forall i :: 0 <= i < |shadow.inodes| ==> Tight(shadow, i, shadow.inodes[i].size) && Snug(shadow.inodes[i]))
      && (forall i :: freeinode <= i < |shadow.inodes| ==> shadow.inodes[i] == NULL_INODE)
    }

    /** An image of zero sectors but for the super block. */
    constructor (sb: Super, super: Block)
      requires sb.Ok()
      ensures this.sb == sb && Valid() && freeblock == sb.DataStart() && freeinode == 1
      ensures forall i :: 0 <= i < sb.ninodes ==> shadow.inodes[i] == NULL_INODE
      ensures |blocks| == sb.size > 1 && blocks[1] == super
      ensures forall b :: 0 <= b < sb.size && b != 1 ==> blocks[b] == Zeroes()
    {
      SuperRange(sb);
      hide Whole, Tracks, Tight, Snug, Zeroes, Super.Ok, Super.IBlock;
      var zero: seq<Block> := seq(sb.size, _ => Zeroes());
      this.sb := sb;
      this.blocks := zero[1 := super];
      this.freeblock := sb.DataStart();
      this.freeinode := 1;
      this.shadow := Blank(sb, zero[1 := super]);
      new;
      BlankOk(sb, blocks);
    }

    /** The next inode, empty and of the given type. Nothing compares it with the number of
        inodes: past the inode blocks the write falls on the bitmap, and the image is spoilt. */
    method Ialloc(typ: ushort) returns (inum: nat)
      requires Valid()
      modifies `blocks, `shadow, `freeinode
      ensures inum == old(freeinode) && freeinode == inum + 1
      ensures blocks == WithInode(sb, old(blocks), inum, NULL_INODE.(typ := typ, nlink := 1))
      ensures inum < sb.ninodes ==> Valid() && OthersSame(sb, old(shadow), shadow, inum)
      ensures inum < sb.ninodes ==>
                Content(shadow, inum) == [] && shadow.inodes[inum] == NULL_INODE.(typ := typ, nlink := 1)
      ensures sb.bmapstart <= sb.IBlock(inum) < sb.DataStart() ==> !Valid()
      ensures Front(sb, old(blocks), blocks)
    {
      InodeFront(sb, blocks, freeinode, NULL_INODE.(typ := typ, nlink := 1));
      hide Front;
      hide Inv, Tracks, Tight, NoHoles, OnDisk, Content, OthersSame, Addr, PutInode, GetInode;
      ghost var sh0 := shadow;
      inum := freeinode;
      freeinode := freeinode + 1;
      var din := NULL_INODE.(typ := typ, nlink := 1);
      if inum < sb.ninodes {
        InodeInRange(sb, sh0, inum);
        FreshInode(sb, sh0, inum, din);
        Winode(inum, din);
        InodeTaken(sb, sh0, shadow, inum, din);
        SuperOk(sb, sh0);
        InodeAside(sb, inum);
      } else {
        WriteInode(inum, din);
        SuperOk(sb, sh0);
        if sb.bmapstart <= sb.IBlock(inum) < sb.DataStart() {
          TracksSize(sb, old(blocks), freeblock, shadow.blocks);
          BitmapSpoilt(sb, old(blocks), blocks, freeblock, shadow.blocks, inum, din);
        }
      }
    }

    /** rsect, the inode put in its place, wsect. */
    method WriteInode(inum: nat, din: Inode)
      requires |din.addrs| == NDIRECT + 1
      modifies `blocks
      ensures blocks == WithInode(sb, old(blocks), inum, din)
    {
      var b := sb.IBlock(inum);
      if b < |blocks| {
        blocks := blocks[b := PutInode(blocks[b], inum % IPB, din)];
      }
    }

    /** din.addrs[s] = freeblock++ */
    method TakeAddr(inum: nat, din: Inode, s: nat) returns (din': Inode)
      requires Inv(sb, shadow) && Tracks(sb, blocks, freeblock, shadow.blocks) && freeblock < sb.size
      requires inum < sb.ninodes && shadow.inodes[inum] == din && s <= NDIRECT && din.addrs[s] == 0
      modifies `freeblock, `shadow
      ensures freeblock == old(freeblock) + 1 && Tracks(sb, blocks, freeblock, shadow.blocks)
      ensures din' == din.(addrs := din.addrs[s := old(freeblock)])
      ensures shadow.inodes == old(shadow.inodes)[inum := din']
      ensures Grows(sb, old(shadow), shadow, inum) && Addr(shadow, inum, s) == old(freeblock) != 0
      ensures forall t :: 0 <= t < NSLOTS && t != s ==> Addr(shadow, inum, t) == Addr(old(shadow), inum, t)
    {
      hide Owned, Held, Bitmap, Grows, Tracks, Addr, Allocated;
      ghost var sh := shadow;
      AddrsSlot(sh, inum, s);
      FreeGrows(sb, blocks, freeblock, sh, inum, s);
      TracksAllocated(sb, blocks, freeblock, sh.blocks);
      din' := din.(addrs := din.addrs[s := freeblock]);
      shadow := GrownAddr(sb, sh, inum, s, freeblock);
      GrownAddrSlots(sb, sh, shadow, inum, s, freeblock);
      freeblock := freeblock + 1;
    }

    /** indirect[k] = freeblock++; wsect(din.addrs[NDIRECT], indirect) */
    method TakeEntry(inum: nat, ind: nat, k: nat) returns (x: uint)
      requires Inv(sb, shadow) && Tracks(sb, blocks, freeblock, shadow.blocks) && freeblock < sb.size
      requires inum < sb.ninodes && shadow.inodes[inum].addrs[NDIRECT] == ind != 0 && k < NINDIRECT
      requires Addr(shadow, inum, NDIRECT + 1 + k) == 0
      modifies `blocks, `freeblock, `shadow
      ensures x == old(freeblock) && freeblock == x + 1 && Tracks(sb, blocks, freeblock, shadow.blocks)
      ensures shadow.inodes == old(shadow.inodes)
      ensures Grows(sb, old(shadow), shadow, inum) && Addr(shadow, inum, NDIRECT + 1 + k) == x != 0
      ensures forall t :: 0 <= t < NSLOTS && t != NDIRECT + 1 + k ==>
                Addr(shadow, inum, t) == Addr(old(shadow), inum, t)
    {
      hide Owned, Held, Bitmap, Grows, Tracks, Addr, Allocated, PutWord;
      ghost var sh := shadow;
      AddrsSlot(sh, inum, NDIRECT);
      BelowFree(sb, blocks, freeblock, sh, inum, NDIRECT);
      FreeGrows(sb, blocks, freeblock, sh, inum, NDIRECT + 1 + k);
      TracksAllocated(sb, blocks, freeblock, sh.blocks);
      x := freeblock;
      var indirect := PutWord(blocks[ind], k, x);
      TracksWrite(sb, blocks, freeblock + 1, Allocated(sb, sh.blocks, freeblock), ind, indirect);
      shadow := GrownEntry(sb, sh, inum, ind, k, freeblock);
      GrownEntrySlots(sb, sh, shadow, inum, k, freeblock);
      blocks := blocks[ind := indirect];
      freeblock := freeblock + 1;
    }

    /** The allocating part of iappend: file block fbn of the inode din. */
    method Locate(inum: nat, din: Inode, fbn: nat) returns (ok: bool, din': Inode, x: uint)
      requires Inv(sb, shadow) && Tracks(sb, blocks, freeblock, shadow.blocks)
      requires inum < sb.ninodes && shadow.inodes[inum] == din && fbn < MAXFILE
      modifies `blocks, `freeblock, `shadow
      ensures ok <==> old(freeblock) + Needs(old(shadow), inum, fbn) <= sb.size
      ensures ok ==> freeblock == old(freeblock) + Needs(old(shadow), inum, fbn)
      ensures ok ==> Tracks(sb, blocks, freeblock, shadow.blocks)
      ensures ok ==> Bmapped(sb, old(shadow), shadow, inum, fbn, x) && shadow.inodes[inum] == din'
      ensures ok ==> if fbn < NDIRECT then Ind(din') == Ind(din) else Ind(din') != 0
    {
      hide Owned, Held, Bitmap, Grows, Word, Tracks, Addr;
      ghost var sh := shadow;
      TracksSize(sb, blocks, freeblock, sh.blocks);
      GrowsSelf(sb, sh, inum);
      din' := din;
      if fbn < NDIRECT {
        AddrsSlot(sh, inum, fbn);
        if din.addrs[fbn] == 0 {
          if freeblock >= sb.size {
            return false, din, 0;
          }
          din' := TakeAddr(inum, din, fbn);
        }
        ok, x := true, din'.addrs[fbn];
        GrowsInv(sb, sh, shadow, inum);
        BelowFree(sb, blocks, freeblock, shadow, inum, fbn);
      } else {
        ok, din', x := LocateIndirect(inum, din, fbn - NDIRECT);
      }
    }

    method LocateIndirect(inum: nat, din: Inode, k: nat) returns (ok: bool, din': Inode, x: uint)
      requires Inv(sb, shadow) && Tracks(sb, blocks, freeblock, shadow.blocks)
      requires inum < sb.ninodes && shadow.inodes[inum] == din && k < NINDIRECT
      modifies `blocks, `freeblock, `shadow
      ensures ok <==> old(freeblock) + Needs(old(shadow), inum, NDIRECT + k) <= sb.size
      ensures ok ==> freeblock == old(freeblock) + Needs(old(shadow), inum, NDIRECT + k)
      ensures ok ==> Tracks(sb, blocks, freeblock, shadow.blocks)
      ensures ok ==> Bmapped(sb, old(shadow), shadow, inum, NDIRECT + k, x) && shadow.inodes[inum] == din'
      ensures ok ==> Ind(din') != 0
    {
      hide Owned, Held, Bitmap, Grows, Word, Tracks, Addr, Needs;
      ghost var sh := shadow;
      TracksSize(sb, blocks, freeblock, sh.blocks);
      GrowsSelf(sb, sh, inum);
      AddrsSlot(sh, inum, NDIRECT);
      NeedsEntry(sh, inum, k);
      din' := din;
      if din.addrs[NDIRECT] == 0 {
        if freeblock >= sb.size {
          return false, din, 0;
        }
        din' := TakeAddr(inum, din, NDIRECT);
      }
      ghost var mid := shadow;
      GrowsInv(sb, sh, mid, inum);
      var ind := din'.addrs[NDIRECT];
      AddrsSlot(mid, inum, NDIRECT);
      BelowFree(sb, blocks, freeblock, mid, inum, NDIRECT);
      EntryIsWord(mid, inum, ind, k);
      x := Word(blocks[ind], k);
      if x == 0 {
        if freeblock >= sb.size {
          return false, din, 0;
        }
        x := TakeEntry(inum, ind, k);
        GrowsTrans(sb, sh, mid, shadow, inum);
      } else {
        SlotRange(sb, mid, inum, NDIRECT + 1 + k);
        EntryNeedsIndirect(sh, inum, NDIRECT + 1 + k);
      }
      ok := true;
    }

    /** The body of iappend's loop: find the block, copy the piece d in. */
    method AppendPiece(inum: nat, din: Inode, off: nat, d: seq<byte>)
      returns (ok: bool, din': Inode, ghost mid: State, ghost x: uint)
      requires Inv(sb, shadow) && Tracks(sb, blocks, freeblock, shadow.blocks)
      requires inum < sb.ninodes && shadow.inodes[inum] == din
      requires off / BSIZE < MAXFILE && off % BSIZE + |d| <= BSIZE
      modifies `blocks, `freeblock, `shadow
      ensures ok <==> old(freeblock) + Needs(old(shadow), inum, off / BSIZE) <= sb.size
      ensures ok ==> freeblock == old(freeblock) + Needs(old(shadow), inum, off / BSIZE)
      ensures ok ==> Tracks(sb, blocks, freeblock, shadow.blocks) && shadow.inodes == mid.inodes
      ensures ok ==> if off / BSIZE < NDIRECT then Ind(din') == Ind(din) else Ind(din') != 0
      ensures ok ==> Bmapped(sb, old(shadow), mid, inum, off / BSIZE, x) && x < |mid.blocks|
      ensures ok ==> shadow == mid.(blocks := mid.blocks[x := Patched(mid.blocks[x], off % BSIZE, d)])
      ensures ok ==> inum < |mid.inodes| && mid.inodes[inum] == din'
    {
      hide Owned, Held, Bitmap, Grows, Tracks, Addr, Patched;
      var a;
      ok, din', a := Locate(inum, din, off / BSIZE);
      mid, x := shadow, a;
      if ok {
        GrowsInv(sb, old(shadow), mid, inum);
        BelowFree(sb, blocks, freeblock, mid, inum, SlotOf(off / BSIZE));
        var buf := Patched(blocks[a], off % BSIZE, d);
        TracksWrite(sb, blocks, freeblock, mid.blocks, a, buf);
        blocks := blocks[a := buf];
        shadow := mid.(blocks := mid.blocks[a := buf]);
      }
    }

    method Rinode(inum: nat) returns (din: Inode)
      requires Valid() && inum < sb.ninodes
      ensures din == shadow.inodes[inum]
    {
      hide Inv, Marked, GetInode, NoHoles, Tight, Addr;
      InodeInRange(sb, shadow, inum);
      assert OnDisk(sb, shadow, inum);
      din := GetInode(blocks[sb.IBlock(inum)], inum % IPB);
    }

    /** Writes din as inode inum of its block. */
    method Winode(inum: nat, din: Inode)
      requires inum < |shadow.inodes| && inum < sb.ninodes
      requires Inv(sb, shadow.(inodes := shadow.inodes[inum := din]))
      requires Tracks(sb, blocks, freeblock, shadow.blocks)
      modifies `blocks, `shadow
      ensures Tracks(sb, blocks, freeblock, shadow.blocks) && |din.addrs| == NDIRECT + 1
      ensures Updated(sb, old(shadow).(inodes := old(shadow).inodes[inum := din]), shadow, inum)
      ensures blocks == WithInode(sb, old(blocks), inum, din)
    {
      hide Inv, Tracks, Addr, PutInode, OnDisk;
      ghost var st1 := shadow.(inodes := shadow.inodes[inum := din]);
      InodeTracked(sb, blocks, freeblock, st1, inum);
      ghost var b := sb.IBlock(inum);
      ghost var buf := PutInode(blocks[b], inum % IPB, din);
      TracksWrite(sb, blocks, freeblock, shadow.blocks, b, buf);
      WriteInode(inum, din);
      shadow := st1.(blocks := st1.blocks[b := buf]);
      InodeWritten(sb, st1, shadow, inum);
    }

    /** iappend has written `done` after the c of inode inum; it began in state sh0. */
    ghost predicate Appending(inum: nat, din: Inode, sh0: State, c: seq<byte>, done: seq<byte>, free0: nat)
      reads this
    {
      && Writing(sb, sh0, shadow, inum, c, |c|, done) && Tracks(sb, blocks, freeblock, shadow.blocks)
      && inum < |shadow.inodes| && shadow.inodes[inum] == din && Tight(shadow, inum, |c| + |done|)
      && (Ind(din) != 0 ==> |c| + |done| > NDIRECT * BSIZE) && freeblock == free0 + Blocks(|c| + |done|) - Blocks(|c|)
    }

    /** One round of iappend's loop: the next piece d, which stays within its block, of m bytes more. */
    method AppendRound(inum: nat, din: Inode, off: nat, d: seq<byte>,
                       ghost sh0: State, ghost c: seq<byte>, ghost done: seq<byte>, ghost free0: nat, ghost m: nat)
      returns (ok: bool, din': Inode)
      requires Appending(inum, din, sh0, c, done, free0) && inum < sb.ninodes && off == |c| + |done| < MAXFILE * BSIZE
      requires 0 < |d| <= m && off % BSIZE + |d| <= BSIZE
      modifies `blocks, `freeblock, `shadow
      ensures ok ==> Appending(inum, din', sh0, c, done + d, free0)
      ensures !ok ==> !Room(|c|, |done| + m, free0)
    {
      hide Tracks, Writing, Inv, Bmapped, Tight, Patched, Needs, Blocks, Super.Ok;
      ghost var sh := shadow;
      WritingInv(sb, sh0, sh, inum, c, |c|, done);
      NeedsAt(sb, sh0, sh, inum, c, done);
      BlocksStep(off, |d|);
      BlocksGrow(off + |d|, |c| + (|done| + m));
      ghost var mid, x;
      ok, din', mid, x := AppendPiece(inum, din, off, d);
      if ok {
        PieceAppended(sb, sh0, sh, mid, shadow, inum, c, done, x, d);
      }
    }

    /** The size and the inode, once all of the data has been written. */
    method FinishAppend(inum: nat, din: Inode, ghost sh0: State, ghost data: seq<byte>, ghost free0: nat)
      requires Whole(sb, sh0) && (forall k :: 0 <= k < |sh0.inodes| ==> Tight(sh0, k, sh0.inodes[k].size))
      requires (forall k :: 0 <= k < |sh0.inodes| ==> Snug(sh0.inodes[k])) && inum < |sh0.inodes| == sb.ninodes
      requires Appending(inum, din.(size := sh0.inodes[inum].size), sh0, Content(sh0, inum), data, free0)
      requires din.size == |Content(sh0, inum)| + |data| <= MAXFILE * BSIZE
      requires inum < freeinode && forall k :: freeinode <= k < |sh0.inodes| ==> sh0.inodes[k] == NULL_INODE
      modifies `blocks, `shadow
      ensures Valid() && OthersSame(sb, sh0, shadow, inum) && Content(shadow, inum) == Content(sh0, inum) + data
      ensures inum < |shadow.inodes| && shadow.inodes[inum] == din
      ensures din == sh0.inodes[inum].(addrs := din.addrs, size := din.size) && Front(sb, sh0.blocks, shadow.blocks)
    {
      hide Whole, Tracks, Writing, Inv, Tight, Content, OthersSame, OnDisk, Blocks, Super.Ok, Front;
      ghost var sh := shadow;
      WholeFacts(sb, sh0, inum);
      AppendFields(sb, sh0, sh, inum, Content(sh0, inum), data);
      AppendSized(sb, sh0, sh, inum, data);
      TracksSize(sb, blocks, freeblock, sh.blocks);
      Winode(inum, din);
      AppendFront(sb, sh0, sh, shadow, inum, Content(sh0, inum), data, din);
      Appended(sb, sh0, sh, shadow, inum, data);
      forall k | 0 <= k < |shadow.inodes| ensures Snug(shadow.inodes[k]) {
        WholeFacts(sb, shadow, k);
        assert k != inum ==> Snug(sh0.inodes[k]);
      }
    }

    /** Appends data to the file: the image's other files keep their bytes, and the append fails
        exactly when the file would be too large or the disk has too few blocks left. */
    method Iappend(inum: nat, data: seq<byte>) returns (ok: bool)
      requires Valid() && inum < freeinode && inum < sb.ninodes
      modifies `blocks, `freeblock, `shadow
      ensures ok <==> Room(old(shadow).inodes[inum].size, |data|, old(freeblock))
      ensures ok ==> Valid() && OthersSame(sb, old(shadow), shadow, inum)
      ensures ok ==> Content(shadow, inum) == Content(old(shadow), inum) + data
      ensures ok ==> inum < |shadow.inodes| && inum < |old(shadow).inodes| && Front(sb, old(blocks), blocks)
      ensures ok ==> shadow.inodes[inum] == old(shadow).inodes[inum].(
                       addrs := shadow.inodes[inum].addrs, size := old(shadow).inodes[inum].size + |data|)
      ensures ok ==>
                freeblock == old(freeblock) + Blocks(shadow.inodes[inum].size) - Blocks(old(shadow).inodes[inum].size)
    {
      hide Whole, Tracks, Writing, Tight, Content, OthersSame, Blocks, Super.Ok, Front;
      WholeFacts(sb, shadow, inum);
      ghost var sh0, c, free0 := shadow, Content(shadow, inum), freeblock;
      var din := Rinode(inum);
      var off, tot := din.size, 0;
      AppendStarts(sb, sh0, inum);
      assert data[..0] == [];
      assert Appending(inum, din, sh0, c, data[..0], free0);
      hide Appending, Valid;
      while tot < |data|
        invariant 0 <= tot <= |data| && off == |c| + tot <= MAXFILE * BSIZE
        invariant Appending(inum, din, sh0, c, data[..tot], free0)
      {
        var fbn := off / BSIZE;
        if fbn >= MAXFILE {
          return false;
        }
        var n1 := if |data| - tot < (fbn + 1) * BSIZE - off then |data| - tot else (fbn + 1) * BSIZE - off;
        assert data[..tot] + data[tot..tot + n1] == data[..tot + n1];
        ok, din := AppendRound(inum, din, off, data[tot..tot + n1], sh0, c, data[..tot], free0, |data| - tot);
        if !ok {
          return;
        }
        off, tot := off + n1, tot + n1;
      }
      assert data[..|data|] == data;
      AppendedSize(inum, din, sh0, c, data, free0);
      FinishAppend(inum, din.(size := off), sh0, data, free0);
      ValidTracks();
      TracksFront(sb, old(blocks), free0, sh0.blocks, blocks, freeblock, shadow.blocks);
      ok := true;
    }

    lemma ValidTracks()
      requires Valid()
      ensures Tracks(sb, blocks, freeblock, shadow.blocks)
    {
    }

    lemma AppendedSize(inum: nat, din: Inode, sh0: State, c: seq<byte>, data: seq<byte>, free0: nat)
      requires Whole(sb, sh0) && inum < |sh0.inodes| && c == Content(sh0, inum)
      requires Appending(inum, din, sh0, c, data, free0)
      ensures din.size == sh0.inodes[inum].size && freeblock == free0 + Blocks(|c| + |data|) - Blocks(|c|)
      ensures freeblock <= sb.size
    {
      hide Whole, Inv, Content, Blocks, Tight;
      TracksSize(sb, blocks, freeblock, shadow.blocks);
    }

    /** There is room for n more bytes in a file of `size` when `free` is the next free block. */
    predicate Room(size: nat, n: nat, free: nat) {
      size + n <= MAXFILE * BSIZE && free + Blocks(size + n) <= sb.size + Blocks(size)
    }

    /** Rounds the directory's size up past its last byte. That leaves a hole exactly when the size
        was already a multiple of the block size; from the largest size it leaves one that no file
        may have. */
    method FixRoot(root: nat)
      requires Valid() && root < freeinode && root < sb.ninodes
      modifies `blocks, `shadow
      ensures |shadow.inodes| == |old(shadow).inodes| == sb.ninodes
      ensures shadow.inodes[root] ==
              old(shadow).inodes[root].(size := Past(old(shadow).inodes[root].size))
      ensures NoHoles(shadow, root, shadow.inodes[root].size) <==> old(shadow).inodes[root].size % BSIZE != 0
      ensures shadow.inodes[root].size > MAXFILE * BSIZE <==> old(shadow).inodes[root].size == MAXFILE * BSIZE
      ensures old(shadow).inodes[root].size % BSIZE != 0 ==>
                && Valid() && OthersSame(sb, old(shadow), shadow, root)
                && Content(old(shadow), root) <= Content(shadow, root)
      ensures Front(sb, old(blocks), blocks) && |shadow.inodes[root].addrs| == NDIRECT + 1
      ensures blocks == WithInode(sb, old(blocks), root, shadow.inodes[root])
    {
      hide Inv, Tracks, Tight, NoHoles, OnDisk, Content, OthersSame, Addr, PutInode, Super.Ok, Super.IBlock, Past;
      ghost var sh0 := shadow;
      InodeInRange(sb, sh0, root);
      var din := Rinode(root);
      WholeFacts(sb, sh0, root);
      var was := din.size;
      PastIs(was);
      var off := Past(was);
      din := din.(size := off);
      InodeFront(sb, blocks, root, din);
      hide Front;
      if was < MAXFILE * BSIZE {
        Resized(sb, sh0, sh0.(inodes := sh0.inodes[root := din]), root, off);
        Winode(root, din);
        RoundedUp(sb, sh0, shadow, root);
        StillSnug(sb, sh0, shadow, root);
      } else {
        WriteInode(root, din);
        shadow := State(WithInode(sb, shadow.blocks, root, din), shadow.inodes[root := din], shadow.owner);
        TooLarge(shadow, root, off);
      }
    }

    /** balloc: the bitmap block with a bit for each block handed out. The image
        is then one the kernel can mount: its bitmap marks exactly the blocks
        below freeblock, and every file reads as it was built. */
    method WriteBitmap() returns (ok: bool)
      requires Valid()
      modifies `blocks
      ensures ok <==> freeblock < BPB
      ensures ok ==> Whole(sb, State(blocks, shadow.inodes, shadow.owner))
      ensures ok ==> forall b :: 0 <= b < sb.size ==> (Marked(sb, blocks, b) <==> b < freeblock)
      ensures ok ==> forall i :: 0 <= i < |shadow.inodes| ==>
                Content(State(blocks, shadow.inodes, shadow.owner), i) == Content(shadow, i)
      ensures Front(sb, old(blocks), blocks)
    {
      hide Whole, Tracks, Tight, Bit, PutBit, Content, Marked, NoHoles;
      var used := freeblock;
      if used >= BPB {
        return false;
      }
      var buf := Zeroes();
      for i := 0 to used
        invariant forall k :: 0 <= k < BPB ==> (Bit(buf, k) <==> k < i || Bit(Zeroes(), k))
      {
        forall k | 0 <= k < BPB ensures Bit(PutBit(buf, i, true), k) <==> k < i + 1 || Bit(Zeroes(), k) {
          BitOfPut(buf, i, true, k);
        }
        buf := PutBit(buf, i, true);
      }
      TracksSize(sb, blocks, freeblock, shadow.blocks);
      ghost var was := blocks;
      blocks := blocks[sb.bmapstart := buf];
      BitmapFront(sb, was, used, shadow.blocks, buf);
      BitmapWritten(sb, was, blocks, used, shadow, buf);
      ok := true;
    }
  }
}
