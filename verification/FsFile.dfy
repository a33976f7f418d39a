/** Files as byte sequences, and the cost of a write in logged blocks. */
module FsFile {
  import opened Common
  import opened FsCodec
  import opened FsState

  /** The first |c| bytes of inode i are there and are c. */
  ghost predicate FileIs(st: State, i: nat, c: seq<byte>) {
    && NoHoles(st, i, |c|)
    && forall j :: 0 <= j < |c| ==> ByteAt(st, i, |c|, j) == c[j]
  }

  lemma ContentIs(st: State, i: nat, c: seq<byte>)
    requires i < |st.inodes| && FileIs(st, i, c) && st.inodes[i].size == |c|
    ensures Content(st, i) == c
  {
  }

  lemma ContentFileIs(st: State, i: nat)
    requires i < |st.inodes| && NoHoles(st, i, st.inodes[i].size)
    ensures FileIs(st, i, Content(st, i))
  {
  }

  /** c with d written over it from off, growing it when d reaches past its end. */
  function Overlay(c: seq<byte>, off: nat, d: seq<byte>): (r: seq<byte>)
    requires off <= |c|
    ensures |r| == if off + |d| > |c| then off + |d| else |c|
    ensures forall j :: 0 <= j < |r| ==> r[j] == if off <= j < off + |d| then d[j - off] else c[j]
  {
    c[..off] + d + if off + |d| < |c| then c[off + |d|..] else []
  }

  lemma OverlayTwice(c: seq<byte>, off: nat, a: seq<byte>, b: seq<byte>)
    requires off <= |c|
    ensures Overlay(Overlay(c, off, a), off + |a|, b) == Overlay(c, off, a + b)
  {
  }

  /** memmove(bp->data + o, d, |d|) */
  function Patched(x: Block, o: nat, d: seq<byte>): (r: Block)
    requires o + |d| <= BSIZE
    ensures forall k :: 0 <= k < BSIZE ==> r[k] == if o <= k < o + |d| then d[k - o] else x[k]
  {
    x[..o] + d + x[o + |d|..]
  }

  /** st1 is st after bmap, st2 is st1 with the piece d copied into the block
      at offset off: the file is overlaid with d there. */
  lemma PieceWritten(sb: Super, st: State, st1: State, st2: State, i: nat, c: seq<byte>, off: nat, d: seq<byte>)
    requires Inv(sb, st) && Inv(sb, st1) && Extends(st, st1) && FileIs(st, i, c) && off <= |c|
    requires Mapped(st1, i, off / BSIZE) && off % BSIZE + |d| <= BSIZE
    requires st2 == st1.(blocks := st1.blocks[Addr(st1, i, SlotOf(off / BSIZE))
                           := Patched(FileBlock(st1, i, off / BSIZE), off % BSIZE, d)])
    ensures Inv(sb, st2) && FileIs(st2, i, Overlay(c, off, d))
  {
    hide Inv, Addr, Extends, Mapped, FileBlock, ByteAt, FileIs, Patched;
    var r := Overlay(c, off, d);
    FileBlockWrite(sb, st1, st2, i, off / BSIZE,
                   Patched(FileBlock(st1, i, off / BSIZE), off % BSIZE, d), i, off / BSIZE);
    forall fbn | 0 <= fbn && fbn * BSIZE < |r| ensures Mapped(st2, i, fbn) {
      PieceBlock(sb, st, st1, st2, i, c, off, d, fbn);
    }
    assert NoHoles(st2, i, |r|);
    forall j | 0 <= j < |r| ensures ByteAt(st2, i, |r|, j) == r[j] {
      PieceByte(sb, st, st1, st2, i, c, off, d, j);
    }
    FileIsIntro(st2, i, r);
  }

  lemma FileIsIntro(st: State, i: nat, c: seq<byte>)
    requires NoHoles(st, i, |c|)
    requires forall j :: 0 <= j < |c| ==> ByteAt(st, i, |c|, j) == c[j]
    ensures FileIs(st, i, c)
  {
  }

  lemma PieceBlock(sb: Super, st: State, st1: State, st2: State, i: nat, c: seq<byte>, off: nat, d: seq<byte>, fbn: nat)
    requires Inv(sb, st) && Inv(sb, st1) && Extends(st, st1) && FileIs(st, i, c) && off <= |c|
    requires Mapped(st1, i, off / BSIZE) && off % BSIZE + |d| <= BSIZE
    requires st2 == st1.(blocks := st1.blocks[Addr(st1, i, SlotOf(off / BSIZE))
                           := Patched(FileBlock(st1, i, off / BSIZE), off % BSIZE, d)])
    requires fbn * BSIZE < |Overlay(c, off, d)|
    ensures Mapped(st2, i, fbn)
    ensures fbn * BSIZE < |c| ==>
              Mapped(st, i, fbn) && Mapped(st1, i, fbn) && FileBlock(st1, i, fbn) == FileBlock(st, i, fbn)
    ensures fbn * BSIZE >= |c| ==> fbn == off / BSIZE
    ensures FileBlock(st2, i, fbn)
         == if fbn == off / BSIZE then Patched(FileBlock(st1, i, fbn), off % BSIZE, d) else FileBlock(st, i, fbn)
  {
    hide Inv, Addr, Extends, Mapped, FileBlock, ByteAt, Patched;
    if fbn * BSIZE < |c| {
      ExtendsKeeps(sb, st, st1, i, fbn);
    } else {
      assert fbn * BSIZE < off + |d|;
      assert fbn == off / BSIZE;
    }
    FileBlockWrite(sb, st1, st2, i, off / BSIZE, Patched(FileBlock(st1, i, off / BSIZE), off % BSIZE, d), i, fbn);
  }

  lemma PieceByte(sb: Super, st: State, st1: State, st2: State, i: nat, c: seq<byte>, off: nat, d: seq<byte>, j: nat)
    requires Inv(sb, st) && Inv(sb, st1) && Extends(st, st1) && FileIs(st, i, c) && off <= |c|
    requires Mapped(st1, i, off / BSIZE) && off % BSIZE + |d| <= BSIZE
    requires st2 == st1.(blocks := st1.blocks[Addr(st1, i, SlotOf(off / BSIZE))
                           := Patched(FileBlock(st1, i, off / BSIZE), off % BSIZE, d)])
    requires j < |Overlay(c, off, d)| && NoHoles(st2, i, |Overlay(c, off, d)|)
    ensures ByteAt(st2, i, |Overlay(c, off, d)|, j) == Overlay(c, off, d)[j]
  {
    hide Inv, Addr, Extends, Mapped, FileBlock, NoHoles, Overlay, Patched;
    assert j / BSIZE * BSIZE <= j;
    PieceBlock(sb, st, st1, st2, i, c, off, d, j / BSIZE);
    if j < |c| {
      assert ByteAt(st, i, |c|, j) == c[j];
    }
  }

  // ---- Cost in logged blocks -----------------------------------------------------------

  /** How many file blocks n bytes from off touch. */
  function Spans(off: nat, n: nat): (k: nat) {
    if n == 0 then 0 else (off + n - 1) / BSIZE - off / BSIZE + 1
  }

  /** How many of them lie at or past the end of a file of `size` bytes. */
  function Fresh(off: nat, n: nat, size: nat): (k: nat) {
    var first := (size + BSIZE - 1) / BSIZE;
    var lo := if off / BSIZE < first then first else off / BSIZE;
    var hi := off / BSIZE + Spans(off, n);
    if hi > lo then hi - lo else 0
  }

  /** The data blocks, a bitmap block for each fresh one, the indirect block
      with its bitmap block, and the inode block. */
  function Cost(off: nat, n: nat, size: nat): nat {
    Spans(off, n) + Fresh(off, n, size) + 3
  }

  /** Writing the next piece touches one more block, and a fresh one if it lies
      at or past the end of the file. */
  lemma NextSpan(off: nat, tot: nat, m: nat, size: nat)
    requires off <= size && m > 0 && (off + tot) % BSIZE + m <= BSIZE
    requires tot == 0 || (off + tot) % BSIZE == 0
    ensures Spans(off, tot + m) == Spans(off, tot) + 1
    ensures Fresh(off, tot + m, size)
         == Fresh(off, tot, size) + if (off + tot) / BSIZE * BSIZE >= size then 1 else 0
  {
    assert (off + tot + m - 1) / BSIZE == (off + tot) / BSIZE;
  }

  /** A chunk of at most three blocks logs at most ten, however it is aligned
      and wherever it lies: four data blocks when it is not aligned, but then
      the first of them exists. */
  lemma ChunkCost(off: nat, n: nat, size: nat)
    requires off <= size && n <= 3 * BSIZE
    ensures Cost(off, n, size) <= MAXOPBLOCKS
  {
    if n > 0 {
      var a, z := off / BSIZE, (off + n - 1) / BSIZE;
      if off % BSIZE == 0 {
        assert z <= a + 2;
      } else {
        assert z <= a + 3;
        assert a * BSIZE < size;
        assert a < (size + BSIZE - 1) / BSIZE;
      }
    }
  }

  /** The blocks logged by one iteration of writei: the data block a; when it
      had to be allocated also its bitmap block; and the first time an indirect
      entry is filled also the indirect block and its bitmap block. */
  lemma PieceCost(l: set<nat>, l2: set<nat>, a: nat, ba: nat, ind: nat, bind: nat, alloc: bool, touch: bool)
    requires l2 <= l + {a} + (if alloc then {ba} else {}) + (if touch then {ind, bind} else {})
    ensures |l2| <= |l| + 1 + (if alloc then 1 else 0) + (if touch then 2 else 0)
  {
    SubsetSize(l2, l + {a} + (if alloc then {ba} else {}) + (if touch then {ind, bind} else {}));
    PlusOne(l, a);
    if alloc {
      PlusOne(l + {a}, ba);
    }
    var m := l + {a} + if alloc then {ba} else {};
    PlusOne(m, ind);
    PlusOne(m + {ind}, bind);
    assert m + {ind, bind} == m + {ind} + {bind};
  }

  lemma PlusOne(s: set<nat>, x: nat)
    ensures |s + {x}| <= |s| + 1
  {
    if x in s { assert s + {x} == s; }
  }

  /** What writei may have logged after `tot` bytes: `touched` says whether the
      indirect block is among it. */
  ghost predicate Budget(l0: nat, l: set<nat>, ind: nat, off: nat, tot: nat, size: nat, touched: bool) {
    && |l| <= l0 + Spans(off, tot) + Fresh(off, tot, size) + (if touched then 2 else 0)
    && (touched ==> ind != 0 && ind in l)
  }

  lemma BudgetStep(l0: nat, l: set<nat>, l2: set<nat>, ind0: nat, ind: nat, a: nat, ba: nat, bind: nat,
                   off: nat, tot: nat, m: nat, size: nat, touched: bool, alloc: bool, touch: bool)
    requires Budget(l0, l, ind0, off, tot, size, touched)
    requires off <= size && m > 0 && (off + tot) % BSIZE + m <= BSIZE
    requires tot == 0 || (off + tot) % BSIZE == 0
    requires l <= l2 <= l + {a} + (if alloc then {ba} else {}) + (if touch then {ind, bind} else {})
    requires alloc ==> (off + tot) / BSIZE * BSIZE >= size
    requires touch ==> ind0 == 0 || ind0 !in l
    requires touch ==> ind in l2 && ind != 0
    requires ind0 != 0 ==> ind == ind0
    ensures Budget(l0, l2, ind, off, tot + m, size, touched || touch)
  {
    hide Spans, Fresh;
    NextSpan(off, tot, m, size);
    PieceCost(l, l2, a, ba, ind, bind, alloc, touch);
  }

  // ---- writei's loop -----------------------------------------------------------------------

  /** After writei has written `done` from off over the file that was c: the
      file is overlaid, no other inode's block changed, and the inode changed
      only if the file now reaches past its old end. */
  ghost predicate Writing(sb: Super, st0: State, st: State, i: nat, c: seq<byte>, off: nat, done: seq<byte>) {
    && Inv(sb, st) && KeepsOthers(st0, st, i)
    && i < |st0.inodes| && |st.inodes| == |st0.inodes|
    && st.inodes == st0.inodes[i := st0.inodes[i].(addrs := st.inodes[i].addrs)]
    && off <= |c| && FileIs(st, i, Overlay(c, off, done))
    && (forall b :: 0 <= b < sb.bmapstart && b < |st.blocks| ==> st.blocks[b] == st0.blocks[b])
    && (st.inodes[i] != st0.inodes[i] ==> off + |done| > |c|)
  }

  lemma WritingStart(sb: Super, st: State, i: nat, c: seq<byte>, off: nat)
    requires Inv(sb, st) && i < |st.inodes| && FileIs(st, i, c) && off <= |c|
    ensures Writing(sb, st, st, i, c, off, [])
  {
    hide Inv, FileIs;
    assert Overlay(c, off, []) == c;
  }

  lemma WritingStep(sb: Super, st0: State, st: State, st1: State, st2: State,
                    i: nat, c: seq<byte>, off: nat, done: seq<byte>, a: uint, d: seq<byte>)
    requires Writing(sb, st0, st, i, c, off, done) && |d| > 0 && (off + |done|) % BSIZE + |d| <= BSIZE
    requires Bmapped(sb, st, st1, i, (off + |done|) / BSIZE, a) && a < |st1.blocks|
    requires st2 == st1.(blocks := st1.blocks[a := Patched(st1.blocks[a], (off + |done|) % BSIZE, d)])
    ensures Writing(sb, st0, st2, i, c, off, done + d)
  {
    hide Inv, FileIs, Addr, Overlay, Patched;
    var at := off + |done|;
    PieceWritten(sb, st, st1, st2, i, Overlay(c, off, done), at, d);
    OverlayTwice(c, off, done, d);
    WritingGrowth(sb, st0, st, st1, i, c, off, done, a, d);
    WritingElsewhere(sb, st0, st, st1, st2, i, c, off, done, a);
  }

  lemma WritingGrowth(sb: Super, st0: State, st: State, st1: State,
                      i: nat, c: seq<byte>, off: nat, done: seq<byte>, a: uint, d: seq<byte>)
    requires Writing(sb, st0, st, i, c, off, done) && |d| > 0
    requires Bmapped(sb, st, st1, i, (off + |done|) / BSIZE, a)
    ensures st1.inodes[i] != st0.inodes[i] ==> off + |done| + |d| > |c|
    ensures Addr(st, i, SlotOf((off + |done|) / BSIZE)) == 0 ==> (off + |done|) / BSIZE * BSIZE >= |c|
  {
    hide Inv, Addr, Grows;
    var fbn := (off + |done|) / BSIZE;
    if Addr(st, i, SlotOf(fbn)) == 0 {
      assert !Mapped(st, i, fbn);
      assert fbn * BSIZE >= |Overlay(c, off, done)|;
    }
  }

  lemma WritingElsewhere(sb: Super, st0: State, st: State, st1: State, st2: State,
                         i: nat, c: seq<byte>, off: nat, done: seq<byte>, a: uint)
    requires Writing(sb, st0, st, i, c, off, done)
    requires Bmapped(sb, st, st1, i, (off + |done|) / BSIZE, a) && a < |st1.blocks|
    requires |st2.blocks| == |st1.blocks| && st2.owner == st1.owner
    requires st2.blocks == st1.blocks[a := st2.blocks[a]]
    ensures KeepsOthers(st0, st2, i)
    ensures forall b :: 0 <= b < sb.bmapstart && b < |st2.blocks| ==> st2.blocks[b] == st0.blocks[b]
  {
    hide FileIs, Addr, Overlay, Owned, Held, Bitmap, Extends, Super.Ok;
    SuperRange(sb);
    SlotRange(sb, st1, i, SlotOf((off + |done|) / BSIZE));
  }

  /** A file block read as a slice of the content. */
  lemma PieceRead(st: State, i: nat, off: nat, m: nat)
    requires i < |st.inodes| && NoHoles(st, i, st.inodes[i].size)
    requires m > 0 && off + m <= st.inodes[i].size && off % BSIZE + m <= BSIZE
    ensures Mapped(st, i, off / BSIZE)
    ensures FileBlock(st, i, off / BSIZE)[off % BSIZE..off % BSIZE + m] == Content(st, i)[off..off + m]
  {
    hide Mapped, FileBlock;
    assert off / BSIZE * BSIZE < st.inodes[i].size;
    var x := FileBlock(st, i, off / BSIZE)[off % BSIZE..off % BSIZE + m];
    forall k | 0 <= k < m ensures x[k] == Content(st, i)[off..off + m][k] {
      assert (off + k) / BSIZE == off / BSIZE && (off + k) % BSIZE == off % BSIZE + k;
    }
  }

  // ---- Between operations ----------------------------------------------------------------

  /** The invariant between operations: ownership, no holes, and every inode
      written through to disk. */
  ghost predicate Whole(sb: Super, st: State) {
    && Inv(sb, st)
    && forall i :: 0 <= i < |st.inodes| ==> NoHoles(st, i, st.inodes[i].size) && OnDisk(sb, st, i)
  }

  /** No other inode changed, nor did its bytes. */
  ghost predicate OthersSame(sb: Super, st: State, st': State, i: nat) {
    && Whole(sb, st) && Whole(sb, st') && |st'.inodes| == |st.inodes|
    && forall k :: 0 <= k < |st.inodes| && k != i ==>
         st'.inodes[k] == st.inodes[k] && Content(st', k) == Content(st, k)
  }

  /** FileIs looks only at slots and data blocks. */
  lemma FileIsFrame(sb: Super, st: State, st': State, i: nat, c: seq<byte>)
    requires Inv(sb, st) && FileIs(st, i, c) && |st'.blocks| == |st.blocks|
    requires forall s :: Addr(st', i, s) == Addr(st, i, s)
    requires forall b :: sb.DataStart() <= b < |st.blocks| ==> st'.blocks[b] == st.blocks[b]
    ensures FileIs(st', i, c)
  {
    hide Inv, Addr;
    forall fbn | 0 <= fbn && fbn * BSIZE < |c|
      ensures Mapped(st, i, fbn) && Mapped(st', i, fbn) && FileBlock(st', i, fbn) == FileBlock(st, i, fbn)
    {
      assert Mapped(st, i, fbn);
      SlotRange(sb, st, i, SlotOf(fbn));
    }
    assert NoHoles(st', i, |c|);
    forall j | 0 <= j < |c| ensures ByteAt(st', i, |c|, j) == c[j] {
      assert j / BSIZE * BSIZE <= j;
      assert ByteAt(st, i, |c|, j) == c[j];
    }
  }

  /** Another inode's file after writes that keep its blocks. */
  lemma OtherFile(sb: Super, st0: State, st: State, i: nat, k: nat, c: seq<byte>)
    requires Inv(sb, st0) && Inv(sb, st) && KeepsOthers(st0, st, i) && k != i && FileIs(st0, k, c)
    ensures FileIs(st, k, c)
  {
    hide Inv, Addr, KeepsOthers, Mapped, FileBlock;
    forall fbn | 0 <= fbn && fbn * BSIZE < |c|
      ensures Mapped(st, k, fbn) && Mapped(st0, k, fbn) && FileBlock(st, k, fbn) == FileBlock(st0, k, fbn)
    {
      assert Mapped(st0, k, fbn);
      KeepsOthersFile(sb, st0, st, i, k, fbn);
    }
    assert NoHoles(st, k, |c|);
    forall j | 0 <= j < |c| ensures ByteAt(st, k, |c|, j) == c[j] {
      assert j / BSIZE * BSIZE <= j;
      assert ByteAt(st0, k, |c|, j) == c[j];
    }
  }

  /** The other inodes of a state that kept their blocks and their disk copies. */
  lemma OtherInode(sb: Super, st0: State, st: State, i: nat, k: nat)
    requires Whole(sb, st0) && Inv(sb, st) && KeepsOthers(st0, st, i)
    requires k != i && k < |st0.inodes| && |st.inodes| == |st0.inodes| && st.inodes[k] == st0.inodes[k]
    ensures NoHoles(st, k, st.inodes[k].size) && Content(st, k) == Content(st0, k)
  {
    hide Inv, Addr, KeepsOthers, OnDisk, NoHoles, ByteAt, FileIs, Content;
    ContentFileIs(st0, k);
    OtherFile(sb, st0, st, i, k, Content(st0, k));
    FileNoHoles(st, k, Content(st0, k));
    ContentIs(st, k, Content(st0, k));
  }

  lemma FileNoHoles(st: State, i: nat, c: seq<byte>)
    requires FileIs(st, i, c)
    ensures NoHoles(st, i, |c|)
  {
  }

  /** Inode i has content c and is on disk, the others are as they were. */
  lemma WholeAgain(sb: Super, st0: State, st: State, i: nat, c: seq<byte>)
    requires Whole(sb, st0) && Inv(sb, st) && KeepsOthers(st0, st, i)
    requires i < |st0.inodes| && |st.inodes| == |st0.inodes|
    requires forall k :: 0 <= k < |st0.inodes| && k != i ==> st.inodes[k] == st0.inodes[k] && OnDisk(sb, st, k)
    requires OnDisk(sb, st, i) && FileIs(st, i, c) && st.inodes[i].size == |c|
    ensures Whole(sb, st) && OthersSame(sb, st0, st, i) && Content(st, i) == c
  {
    hide Inv, Addr, KeepsOthers, OnDisk, NoHoles, FileIs, Content;
    FileNoHoles(st, i, c);
    ContentIs(st, i, c);
    forall k | 0 <= k < |st0.inodes| && k != i
      ensures NoHoles(st, k, st.inodes[k].size) && Content(st, k) == Content(st0, k)
    {
      OtherInode(sb, st0, st, i, k);
    }
  }

  /** The disk inodes are as they were when no block below the bitmap changed. */
  lemma OnDiskSame(sb: Super, st0: State, st: State, k: nat)
    requires sb.Ok() && |st0.blocks| == |st.blocks| && |st0.inodes| == |st.inodes| == sb.ninodes
    requires OnDisk(sb, st0, k) && st.inodes[k] == st0.inodes[k]
    requires forall b :: sb.inodestart <= b < sb.bmapstart && b < |st.blocks| ==> st.blocks[b] == st0.blocks[b]
    ensures OnDisk(sb, st, k)
  {
    hide GetInode;
  }

  /** writei that stays within the file. */
  lemma WriteWithin(sb: Super, st0: State, st: State, i: nat, off: nat, d: seq<byte>)
    requires Whole(sb, st0) && i < |st0.inodes|
    requires Writing(sb, st0, st, i, Content(st0, i), off, d) && off + |d| <= |Content(st0, i)|
    ensures OthersSame(sb, st0, st, i) && Content(st, i) == Overlay(Content(st0, i), off, d)
  {
    hide Addr, Owned, Held, Bitmap, KeepsOthers, OnDisk, NoHoles, FileIs, Content;
    forall k | 0 <= k < |st0.inodes| ensures OnDisk(sb, st, k) {
      OnDiskSame(sb, st0, st, k);
    }
    WholeAgain(sb, st0, st, i, Overlay(Content(st0, i), off, d));
  }

  /** writei that extends the file: the size is raised and the inode updated. */
  lemma SizeRaised(sb: Super, st0: State, st: State, st1: State, i: nat, off: nat, d: seq<byte>)
    requires Whole(sb, st0) && i < |st0.inodes|
    requires Writing(sb, st0, st, i, Content(st0, i), off, d) && |Content(st0, i)| <= off + |d| <= MAXFILE * BSIZE
    requires st1 == st.(inodes := st.inodes[i := st.inodes[i].(size := off + |d|)])
    ensures Inv(sb, st1)
    ensures forall k, s :: Addr(st1, k, s) == Addr(st, k, s)
    ensures forall k :: 0 <= k < |st0.inodes| && k != i ==> OnDisk(sb, st1, k)
  {
    hide Owned, Held, Bitmap, Addr, KeepsOthers, OnDisk, NoHoles, FileIs, Content;
    Resized(sb, st, st1, i, off + |d|);
    forall k | 0 <= k < |st0.inodes| && k != i ensures OnDisk(sb, st1, k) {
      OnDiskSame(sb, st0, st1, k);
    }
  }

  lemma WriteBeyond(sb: Super, st0: State, st: State, st1: State, st2: State, i: nat, off: nat, d: seq<byte>)
    requires Whole(sb, st0) && i < |st0.inodes|
    requires Writing(sb, st0, st, i, Content(st0, i), off, d) && |Content(st0, i)| <= off + |d| <= MAXFILE * BSIZE
    requires st1 == st.(inodes := st.inodes[i := st.inodes[i].(size := off + |d|)])
    requires Inv(sb, st2) && OnDisk(sb, st2, i)
    requires forall k :: 0 <= k < |st0.inodes| && k != i ==> OnDisk(sb, st2, k)
    requires st2.inodes == st1.inodes && st2.owner == st1.owner && |st2.blocks| == |st1.blocks|
    requires forall k, s :: Addr(st2, k, s) == Addr(st1, k, s) == Addr(st, k, s)
    requires forall b :: 0 <= b < |st1.blocks| && b != sb.IBlock(i) ==> st2.blocks[b] == st1.blocks[b]
    ensures OthersSame(sb, st0, st2, i) && Content(st2, i) == Overlay(Content(st0, i), off, d)
  {
    hide Addr, Owned, Held, Bitmap, OnDisk, NoHoles, FileIs, Content, Overlay, KeepsOthers;
    var c := Overlay(Content(st0, i), off, d);
    FileIsFrame(sb, st, st2, i, c);
    KeepsThroughUpdate(sb, st0, st, st2, i);
    WholeAgain(sb, st0, st2, i, c);
  }

  lemma KeepsThroughUpdate(sb: Super, st0: State, st: State, st2: State, i: nat)
    requires Inv(sb, st0) && KeepsOthers(st0, st, i) && |st2.blocks| == |st.blocks| && st2.owner == st.owner
    requires i < sb.ninodes
    requires forall b :: 0 <= b < |st.blocks| && b != sb.IBlock(i) ==> st2.blocks[b] == st.blocks[b]
    ensures KeepsOthers(st0, st2, i)
  {
    hide Addr, Owned, Bitmap;
    forall b | b in st0.owner ensures b != sb.IBlock(i) {
      assert HeldAt(sb, st0, b);
    }
  }

  lemma WholeFacts(sb: Super, st: State, i: nat)
    requires Whole(sb, st) && i < sb.ninodes
    ensures sb.ninodes == |st.inodes| && NoHoles(st, i, st.inodes[i].size)
    ensures |st.inodes[i].addrs| == NDIRECT + 1 && st.inodes[i].size <= MAXFILE * BSIZE
  {
    hide Owned, Held, Bitmap, OnDisk, NoHoles;
  }

  /** off + n < off in 32-bit arithmetic. */
  lemma WrapsAround(off: uint, n: uint)
    ensures (off + n) % U32 < off <==> off + n >= U32
  {
  }

  lemma WriteStarts(sb: Super, st: State, i: nat, off: nat, l: set<nat>)
    requires Whole(sb, st) && i < sb.ninodes && off <= st.inodes[i].size
    ensures Writing(sb, st, st, i, Content(st, i), off, [])
    ensures Budget(|l|, l, st.inodes[i].addrs[NDIRECT], off, 0, st.inodes[i].size, false)
  {
    hide Owned, Held, Bitmap, OnDisk, NoHoles, FileIs, Content, Writing;
    ContentFileIs(st, i);
    WritingStart(sb, st, i, Content(st, i), off);
  }

  lemma WritingInv(sb: Super, st0: State, st: State, i: nat, c: seq<byte>, off: nat, done: seq<byte>)
    requires Writing(sb, st0, st, i, c, off, done)
    ensures Inv(sb, st)
    ensures i < |st0.inodes| && |st.inodes| == |st0.inodes|
    ensures st.inodes == st0.inodes[i := st0.inodes[i].(addrs := st.inodes[i].addrs)]
  {
    hide Inv, FileIs;
  }

  /** The body of writei's loop from st to st', by way of the state `mid` that
      bmap leaves, and what it logged. */
  ghost predicate PieceDone(sb: Super, st: State, mid: State, st': State, i: nat, off: nat, d: seq<byte>,
                            a: uint, l: set<nat>, l': set<nat>) {
    && Bmapped(sb, st, mid, i, off / BSIZE, a) && a < |mid.blocks| && off % BSIZE + |d| <= BSIZE
    && st' == mid.(blocks := mid.blocks[a := Patched(mid.blocks[a], off % BSIZE, d)])
    && var alloc := Addr(st, i, SlotOf(off / BSIZE)) == 0;
       var ind0, ind := st.inodes[i].addrs[NDIRECT], mid.inodes[i].addrs[NDIRECT];
       var touch := alloc && off / BSIZE >= NDIRECT && (ind0 == 0 || ind0 !in l);
       && l <= l'
       && l' <= l + {a} + (if alloc then {sb.BBlock(a)} else {})
                  + (if touch then {ind, sb.BBlock(ind)} else {})
       && (touch ==> ind in l')
  }

  /** One iteration of writei's loop: both the file and the budget advance. */
  lemma WriteAdvances(sb: Super, st0: State, st: State, mid: State, st': State,
                      i: nat, c: seq<byte>, off: nat, done: seq<byte>, a: uint, d: seq<byte>,
                      l0: nat, l: set<nat>, l': set<nat>, touched: bool) returns (touched': bool)
    requires Writing(sb, st0, st, i, c, off, done) && |d| > 0 && (off + |done|) % BSIZE + |d| <= BSIZE
    requires |done| == 0 || (off + |done|) % BSIZE == 0
    requires PieceDone(sb, st, mid, st', i, off + |done|, d, a, l, l')
    requires Budget(l0, l, st.inodes[i].addrs[NDIRECT], off, |done|, |c|, touched)
    ensures Writing(sb, st0, st', i, c, off, done + d)
    ensures i < |st'.inodes| && |st'.inodes[i].addrs| == NDIRECT + 1
    ensures Budget(l0, l', st'.inodes[i].addrs[NDIRECT], off, |done| + |d|, |c|, touched')
  {
    hide Budget, Addr, Grows, FileIs, Overlay, Patched, KeepsOthers, Inv;
    var fbn := (off + |done|) / BSIZE;
    var alloc := Addr(st, i, SlotOf(fbn)) == 0;
    var ind0, ind := st.inodes[i].addrs[NDIRECT], mid.inodes[i].addrs[NDIRECT];
    var touch := alloc && fbn >= NDIRECT && (ind0 == 0 || ind0 !in l);
    touched' := touched || touch;
    WritingGrowth(sb, st0, st, mid, i, c, off, done, a, d);
    assert touch ==> ind != 0 by {
      if touch { EntryNeedsIndirect(mid, i, SlotOf(fbn)); }
    }
    BudgetStep(l0, l, l', ind0, ind, a, sb.BBlock(a), sb.BBlock(ind), off, |done|, |d|, |c|, touched, alloc, touch);
    WritingStep(sb, st0, st, mid, st', i, c, off, done, a, d);
  }

  lemma EntryNeedsIndirect(st: State, i: nat, s: nat)
    requires Addr(st, i, s) != 0 && s > NDIRECT
    ensures i < |st.inodes| && |st.inodes[i].addrs| == NDIRECT + 1 && st.inodes[i].addrs[NDIRECT] != 0
  {
  }

  lemma BudgetCost(l0: nat, l: set<nat>, ind: nat, off: nat, tot: nat, size: nat, touched: bool)
    requires Budget(l0, l, ind, off, tot, size, touched)
    ensures |l| < l0 + Cost(off, tot, size)
  {
    hide Spans, Fresh;
  }

  // ---- itrunc ------------------------------------------------------------------------------

  /** Between st0 and st only blocks of inode i were given back and only its
      addresses and bitmap blocks changed. */
  ghost predicate Shrunk(sb: Super, st0: State, st: State, i: nat) {
    && |st.blocks| == |st0.blocks| && |st.inodes| == |st0.inodes| && i < |st.inodes|
    && st.inodes == st0.inodes[i := st0.inodes[i].(addrs := st.inodes[i].addrs)]
    && (forall b :: b in st.owner ==> b in st0.owner && st.owner[b] == st0.owner[b])
    && (forall b :: b in st0.owner && st0.owner[b].inum != i ==> b in st.owner)
    && (forall b :: 0 <= b < |st.blocks| && !(sb.bmapstart <= b < sb.DataStart()) ==> st.blocks[b] == st0.blocks[b])
  }

  lemma ShrunkSelf(sb: Super, st: State, i: nat)
    requires i < |st.inodes|
    ensures Shrunk(sb, st, st, i)
  {
  }

  lemma ShrunkStep(sb: Super, st0: State, st: State, st': State, i: nat, b: nat, s: nat)
    requires Shrunk(sb, st0, st, i) && sb.Ok() && |st.blocks| == sb.size && b < sb.size
    requires OwnedAt(st, b, i, s)
    requires st'.blocks == Freed(sb, st.blocks, b) && st'.owner == st.owner - {b}
    requires |st'.inodes| == |st.inodes|
    requires st'.inodes == st.inodes[i := st.inodes[i].(addrs := st'.inodes[i].addrs)]
    ensures Shrunk(sb, st0, st', i)
  {
    hide PutBit;
  }

  lemma ShrunkKeeps(sb: Super, st0: State, st: State, i: nat)
    requires Inv(sb, st0) && Shrunk(sb, st0, st, i)
    ensures KeepsOthers(st0, st, i)
  {
    hide Addr, Owned, Bitmap;
    forall b | b in st0.owner ensures sb.DataStart() <= b {
      assert HeldAt(sb, st0, b);
    }
  }

  lemma NoAddr(st: State, i: nat, s: nat)
    requires i < |st.inodes| && |st.inodes[i].addrs| == NDIRECT + 1
    requires forall t :: 0 <= t <= NDIRECT ==> st.inodes[i].addrs[t] == 0
    ensures Addr(st, i, s) == 0
  {
    hide Word;
  }

  /** All addresses of inode i are zero: it owns nothing. */
  lemma OwnsNothing(sb: Super, st: State, i: nat)
    requires Inv(sb, st) && i < |st.inodes|
    requires forall t :: 0 <= t <= NDIRECT ==> st.inodes[i].addrs[t] == 0
    ensures forall b :: b in st.owner ==> st.owner[b].inum != i
  {
    hide Bitmap, Owned, Addr;
    forall b | b in st.owner ensures st.owner[b].inum != i {
      assert HeldAt(sb, st, b);
      if st.owner[b].inum == i { NoAddr(st, i, st.owner[b].index); }
    }
  }

  /** Exactly the blocks of inode i were given back. */
  ghost predicate FreedExactly(sb: Super, st0: State, st: State, i: nat) {
    && (forall b :: b in st.owner <==> b in st0.owner && st0.owner[b].inum != i)
    && (forall b :: 0 <= b < sb.size ==>
          (Marked(sb, st.blocks, b) <==>
             Marked(sb, st0.blocks, b) && !(b in st0.owner && st0.owner[b].inum == i)))
  }

  lemma TruncatedExactly(sb: Super, st0: State, st: State, st1: State, i: nat)
    requires Inv(sb, st0) && Inv(sb, st1) && Shrunk(sb, st0, st, i) && st1.owner == st.owner
    requires forall b :: b in st.owner ==> st.owner[b].inum != i
    ensures FreedExactly(sb, st0, st1, i)
  {
    hide Addr, Owned, Marked;
    forall b | b in st0.owner ensures sb.DataStart() <= b {
      assert HeldAt(sb, st0, b);
    }
  }

  lemma Emptied(sb: Super, st0: State, st: State, st1: State, st2: State, i: nat)
    requires Whole(sb, st0) && i < |st0.inodes| && Inv(sb, st) && Shrunk(sb, st0, st, i)
    requires st1 == st.(inodes := st.inodes[i := st.inodes[i].(size := 0)])
    requires Inv(sb, st2) && OnDisk(sb, st2, i)
    requires forall k :: 0 <= k < sb.ninodes && OnDisk(sb, st1, k) ==> OnDisk(sb, st2, k)
    requires st2.inodes == st1.inodes && st2.owner == st1.owner && |st2.blocks| == |st1.blocks|
    requires forall b :: 0 <= b < |st1.blocks| && b != sb.IBlock(i) ==> st2.blocks[b] == st1.blocks[b]
    ensures OthersSame(sb, st0, st2, i) && Content(st2, i) == []
  {
    hide Addr, Owned, Held, Bitmap, OnDisk, NoHoles, Content, KeepsOthers;
    ShrunkKeeps(sb, st0, st, i);
    KeepsThroughUpdate(sb, st0, st, st2, i);
    forall k | 0 <= k < |st0.inodes| && k != i ensures OnDisk(sb, st2, k) {
      OnDiskSame(sb, st0, st1, k);
    }
    assert FileIs(st2, i, []) by { EmptyFile(st2, i); }
    WholeAgain(sb, st0, st2, i, []);
  }

  lemma EmptyFile(st: State, i: nat)
    ensures FileIs(st, i, [])
  {
  }

  /** Setting the size changes no slot. */
  lemma Resized(sb: Super, st: State, st1: State, i: nat, size: uint)
    requires Inv(sb, st) && i < |st.inodes| && size <= MAXFILE * BSIZE
    requires st1 == st.(inodes := st.inodes[i := st.inodes[i].(size := size)])
    ensures Inv(sb, st1)
    ensures forall k, s :: Addr(st1, k, s) == Addr(st, k, s)
  {
    hide Owned, Held, Bitmap, Word, Marked;
    forall k, s ensures Addr(st1, k, s) == Addr(st, k, s) {}
    SameSlots(sb, st, st1);
  }

  lemma ShrunkInodes(sb: Super, st0: State, st: State, i: nat)
    requires Shrunk(sb, st0, st, i)
    ensures |st.inodes| == |st0.inodes|
    ensures st.inodes == st0.inodes[i := st0.inodes[i].(addrs := st.inodes[i].addrs)]
  {
  }

  // ---- filewrite ------------------------------------------------------------------------------

  /** After `done` has been written from off over inode i in some number of
      writei calls. */
  ghost predicate Progress(sb: Super, st0: State, st: State, i: nat, off: nat, done: seq<byte>) {
    && OthersSame(sb, st0, st, i) && i < |st0.inodes|
    && st.inodes[i].(addrs := st0.inodes[i].addrs, size := st0.inodes[i].size) == st0.inodes[i]
    && (done == [] ==> st == st0)
    && (done != [] ==>
          off <= |Content(st0, i)| && Content(st, i) == Overlay(Content(st0, i), off, done))
  }

  lemma ProgressStart(sb: Super, st: State, i: nat, off: nat)
    requires Whole(sb, st) && i < sb.ninodes
    ensures Progress(sb, st, st, i, off, [])
  {
    hide Owned, Held, Bitmap, NoHoles, OnDisk, Content;
  }

  lemma ProgressFacts(sb: Super, st0: State, st: State, i: nat, off: nat, done: seq<byte>)
    requires Progress(sb, st0, st, i, off, done)
    ensures Whole(sb, st) && i < |st.inodes| == |st0.inodes| && st.inodes[i].typ == st0.inodes[i].typ
  {
    hide Whole, Content, Overlay;
  }

  lemma ProgressStep(sb: Super, st0: State, st: State, st': State, i: nat, off: nat, done: seq<byte>, d: seq<byte>)
    requires Progress(sb, st0, st, i, off, done) && OthersSame(sb, st, st', i) && |d| > 0
    requires st'.inodes[i].(addrs := st.inodes[i].addrs, size := st.inodes[i].size) == st.inodes[i]
    requires off + |done| <= |Content(st, i)|
    requires Content(st', i) == Overlay(Content(st, i), off + |done|, d)
    ensures Progress(sb, st0, st', i, off, done + d)
  {
    hide Inv, NoHoles, OnDisk, Content, Overlay;
    if done == [] {
      assert done + d == d;
    } else {
      OverlayTwice(Content(st0, i), off, done, d);
    }
  }

  // ---- Blocks that do not matter ------------------------------------------------------------

  lemma AddrOfData(sb: Super, st: State, st': State, i: int, s: int)
    requires Inv(sb, st) && st'.inodes == st.inodes && |st'.blocks| == |st.blocks|
    requires forall b :: sb.DataStart() <= b < |st.blocks| ==> st'.blocks[b] == st.blocks[b]
    ensures Addr(st', i, s) == Addr(st, i, s)
  {
    hide Owned, Held, Bitmap, Word;
    if 0 <= i < |st.inodes| && st.inodes[i].addrs[NDIRECT] != 0 {
      IndirectOwned(sb, st, i);
    }
  }

  lemma SameFiles(sb: Super, sh: State, st: State)
    requires Whole(sb, sh) && st.inodes == sh.inodes && |st.blocks| == |sh.blocks|
    requires forall b :: 0 <= b < |sh.blocks| && (sb.inodestart <= b < sb.bmapstart || b >= sb.DataStart()) ==>
               st.blocks[b] == sh.blocks[b]
    requires forall i, s :: Addr(st, i, s) == Addr(sh, i, s)
    ensures forall i :: 0 <= i < |sh.inodes| ==>
              NoHoles(st, i, st.inodes[i].size) && OnDisk(sb, st, i) && Content(st, i) == Content(sh, i)
  {
    hide Owned, Held, Bitmap, Bit, Addr, NoHoles, OnDisk, Content, FileIs;
    forall i | 0 <= i < |sh.inodes|
      ensures NoHoles(st, i, st.inodes[i].size) && OnDisk(sb, st, i) && Content(st, i) == Content(sh, i)
    {
      ContentFileIs(sh, i);
      FileIsFrame(sb, sh, st, i, Content(sh, i));
      FileNoHoles(st, i, Content(sh, i));
      ContentIs(st, i, Content(sh, i));
      OnDiskSame(sb, sh, st, i);
    }
  }

  /** What lies before the inodes, such as the log, is no part of any file. */
  lemma WholeFrame(sb: Super, st: State, st': State)
    requires Whole(sb, st) && st'.inodes == st.inodes && st'.owner == st.owner && |st'.blocks| == |st.blocks|
    requires forall b :: sb.inodestart <= b < |st.blocks| ==> st'.blocks[b] == st.blocks[b]
    ensures Whole(sb, st') && forall i :: 0 <= i < |st.inodes| ==> Content(st', i) == Content(st, i)
  {
    hide Owned, Held, Bitmap, Addr, NoHoles, OnDisk, Content, Bit;
    forall i, s ensures Addr(st', i, s) == Addr(st, i, s) {
      AddrOfData(sb, st, st', i, s);
    }
    forall c | 0 <= c < sb.size ensures Marked(sb, st'.blocks, c) <==> Marked(sb, st.blocks, c) {
    }
    hide Marked;
    SameSlots(sb, st, st');
    SameFiles(sb, st, st');
  }
}
