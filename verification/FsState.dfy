/** The file system as a value: blocks as bread returns them, the in-memory
    inodes, and for each data block the inode slot that holds it. The lemmas say
    what each kind of block write keeps. */
module FsState {
  import opened Common
  import opened FsCodec

  // An inode's block slots: NDIRECT direct ones, the indirect block, and the
  // entries of the indirect block.
  const NSLOTS: nat := NDIRECT + 1 + NINDIRECT

  datatype Super = Super(size: nat, nblocks: int, ninodes: nat, inodestart: nat, bmapstart: nat) {

    function DataStart(): int { size - nblocks }
    function IBlock(i: nat): nat { i / IPB + inodestart }
    function BBlock(b: nat): nat { b / BPB + bmapstart }

    /** [ boot | super | log | inodes | bitmap | data ] */
    predicate Ok() {
      && inodestart >= 2
      && inodestart + ninodes / IPB + 1 <= bmapstart
      && bmapstart + size / BPB + 1 <= DataStart() <= size < U32
    }
  }

  /** The order of the parts of the disk. */
  lemma SuperRange(sb: Super)
    requires sb.Ok()
    ensures 2 <= sb.inodestart < sb.bmapstart < sb.DataStart() <= sb.size < U32
  {
  }

  lemma BitmapRange(sb: Super, b: nat)
    requires sb.Ok() && b < sb.size
    ensures sb.bmapstart <= sb.BBlock(b) < sb.DataStart()
  {
  }

  datatype Slot = Slot(inum: nat, index: nat)

  datatype State = State(blocks: seq<Block>, inodes: seq<Inode>, owner: map<nat, Slot>)

  ghost predicate Shape(sb: Super, st: State) {
    && sb.Ok()
    && |st.blocks| == sb.size && |st.inodes| == sb.ninodes
    && forall i :: 0 <= i < |st.inodes| ==> InodeShape(st.inodes[i])
  }

  ghost predicate InodeShape(ino: Inode) {
    |ino.addrs| == NDIRECT + 1 && ino.size <= MAXFILE * BSIZE
  }

  /** The block in slot s of an inode, or 0. */
  ghost function AddrIn(blocks: seq<Block>, ino: Inode, s: nat): uint
    requires s < NSLOTS && |ino.addrs| == NDIRECT + 1
  {
    if s <= NDIRECT then ino.addrs[s]
    else if 0 < ino.addrs[NDIRECT] < |blocks| then Word(blocks[ino.addrs[NDIRECT]], s - NDIRECT - 1)
    else 0
  }

  ghost function Addr(st: State, i: int, s: int): uint {
    if 0 <= i < |st.inodes| && 0 <= s < NSLOTS && |st.inodes[i].addrs| == NDIRECT + 1
    then AddrIn(st.blocks, st.inodes[i], s)
    else 0
  }

  ghost predicate Marked(sb: Super, blocks: seq<Block>, b: nat) {
    sb.BBlock(b) < |blocks| && Bit(blocks[sb.BBlock(b)], b % BPB)
  }

  ghost predicate DiskFull(sb: Super, blocks: seq<Block>) {
    forall b :: 0 <= b < sb.size ==> Marked(sb, blocks, b)
  }

  /** Every block in a slot is owned by that slot and by no other. */
  ghost predicate Owned(st: State) {
    forall i, s :: Addr(st, i, s) != 0 ==> OwnedAt(st, Addr(st, i, s), i, s)
  }

  ghost predicate OwnedAt(st: State, a: nat, i: int, s: int) {
    a in st.owner && st.owner[a].inum == i && st.owner[a].index == s
  }

  /** Every owned block is a data block, and its slot does hold it. */
  ghost predicate Held(sb: Super, st: State) {
    forall b :: b in st.owner ==> HeldAt(sb, st, b)
  }

  ghost predicate HeldAt(sb: Super, st: State, b: nat) {
    && b in st.owner
    && sb.DataStart() <= b < sb.size
    && Addr(st, st.owner[b].inum, st.owner[b].index) == b
  }

  /** The bitmap marks the metadata blocks and the owned blocks, exactly. */
  ghost predicate Bitmap(sb: Super, st: State) {
    forall b :: 0 <= b < sb.size ==>
      (Marked(sb, st.blocks, b) <==> b < sb.DataStart() || b in st.owner)
  }

  ghost predicate Inv(sb: Super, st: State) {
    Shape(sb, st) && Owned(st) && Held(sb, st) && Bitmap(sb, st)
  }

  // ---- Files ---------------------------------------------------------------------

  function SlotOf(fbn: nat): nat {
    if fbn < NDIRECT then fbn else fbn + 1
  }

  ghost predicate Mapped(st: State, i: nat, fbn: nat) {
    fbn < MAXFILE && 0 < Addr(st, i, SlotOf(fbn)) < |st.blocks|
  }

  /** Every block below `size` bytes is there. */
  ghost predicate NoHoles(st: State, i: nat, size: nat) {
    forall fbn :: 0 <= fbn && fbn * BSIZE < size ==> Mapped(st, i, fbn)
  }

  ghost function FileBlock(st: State, i: nat, fbn: nat): Block
    requires Mapped(st, i, fbn)
  {
    st.blocks[Addr(st, i, SlotOf(fbn))]
  }

  ghost function ByteAt(st: State, i: nat, n: nat, j: nat): byte
    requires NoHoles(st, i, n) && j < n
  {
    assert j / BSIZE * BSIZE < n;
    FileBlock(st, i, j / BSIZE)[j % BSIZE]
  }

  /** The byte sequence inode i stands for. */
  ghost function Content(st: State, i: nat): (c: seq<byte>)
    requires i < |st.inodes| && NoHoles(st, i, st.inodes[i].size)
    ensures |c| == st.inodes[i].size
  {
    seq(st.inodes[i].size, j requires 0 <= j < st.inodes[i].size => ByteAt(st, i, st.inodes[i].size, j))
  }

  /** Byte j of a file is byte j % BSIZE of the block that its direct address, or the entry of its indirect
      block, names for j / BSIZE. */
  lemma ContentByte(st: State, i: nat, j: nat)
    requires i < |st.inodes| && NoHoles(st, i, st.inodes[i].size) && j < st.inodes[i].size
    ensures |st.inodes[i].addrs| == NDIRECT + 1 && j / BSIZE < NDIRECT + NINDIRECT
    ensures var fbn, addrs := j / BSIZE, st.inodes[i].addrs;
            if fbn < NDIRECT then 0 < addrs[fbn] < |st.blocks| && Content(st, i)[j] == st.blocks[addrs[fbn]][j % BSIZE]
            else && 0 < addrs[NDIRECT] < |st.blocks|
                 && var a := Word(st.blocks[addrs[NDIRECT]], fbn - NDIRECT);
                    0 < a < |st.blocks| && Content(st, i)[j] == st.blocks[a][j % BSIZE]
  {
    assert j / BSIZE * BSIZE < st.inodes[i].size;
    assert Mapped(st, i, j / BSIZE);
    hide NoHoles;
  }

  /** Inode i lies 64 * i bytes into the inode blocks, and the bit of block b lies b bits into the bitmap. */
  lemma OnDiskPlace(sb: Super, i: nat, b: nat)
    ensures sb.IBlock(i) * BSIZE + i % IPB * 64 == sb.inodestart * BSIZE + 64 * i
    ensures sb.BBlock(b) * BPB + b % BPB == sb.bmapstart * BPB + b
  {
  }

  /** The disk copy of inode i equals the in-memory one. */
  ghost predicate OnDisk(sb: Super, st: State, i: nat) {
    && i < |st.inodes| && sb.IBlock(i) < |st.blocks|
    && GetInode(st.blocks[sb.IBlock(i)], i % IPB) == st.inodes[i]
  }

  // ---- Growth: nothing that was owned moves ------------------------------------------

  /** Every owned block is still owned by its slot, and unless it is an indirect
      block it holds what it held. */
  ghost predicate Extends(st: State, st': State) {
    && |st.blocks| == |st'.blocks|
    && forall b :: b in st.owner ==>
         && b in st'.owner && st'.owner[b] == st.owner[b]
         && (st.owner[b].index != NDIRECT && b < |st.blocks| ==> st'.blocks[b] == st.blocks[b])
  }

  /** So a mapped file block stays where it is with the bytes it has. */
  lemma ExtendsKeeps(sb: Super, st: State, st': State, i: nat, fbn: nat)
    requires Inv(sb, st) && Inv(sb, st') && Extends(st, st') && Mapped(st, i, fbn)
    ensures Mapped(st', i, fbn)
    ensures Addr(st', i, SlotOf(fbn)) == Addr(st, i, SlotOf(fbn))
    ensures FileBlock(st', i, fbn) == FileBlock(st, i, fbn)
  {
    hide Addr, Bitmap, Shape;
    var a := Addr(st, i, SlotOf(fbn));
    assert OwnedAt(st, a, i, SlotOf(fbn));
    assert HeldAt(sb, st', a);
  }

  // ---- The block writes of fs.c as functions of the state --------------------------

  /** balloc: mark b in the bitmap and zero it. */
  function Allocated(sb: Super, blocks: seq<Block>, b: nat): (r: seq<Block>)
    requires sb.Ok() && |blocks| == sb.size && b < sb.size
    ensures |r| == |blocks|
  {
    blocks[sb.BBlock(b) := PutBit(blocks[sb.BBlock(b)], b % BPB, true)][b := Zeroes()]
  }

  /** bfree: clear the bit of b. */
  function Freed(sb: Super, blocks: seq<Block>, b: nat): (r: seq<Block>)
    requires sb.Ok() && |blocks| == sb.size && b < sb.size
    ensures |r| == |blocks|
  {
    blocks[sb.BBlock(b) := PutBit(blocks[sb.BBlock(b)], b % BPB, false)]
  }

  lemma MarkedAllocated(sb: Super, blocks: seq<Block>, b: nat, c: nat)
    requires sb.Ok() && |blocks| == sb.size && sb.DataStart() <= b < sb.size && c < sb.size
    ensures Marked(sb, Allocated(sb, blocks, b), c) <==> c == b || Marked(sb, blocks, c)
  {
    BitmapRange(sb, b);
    BitmapRange(sb, c);
    hide Bit, PutBit, Super.Ok;
    BitOfPut(blocks[sb.BBlock(b)], b % BPB, true, c % BPB);
  }

  lemma MarkedFreed(sb: Super, blocks: seq<Block>, b: nat, c: nat)
    requires sb.Ok() && |blocks| == sb.size && b < sb.size && c < sb.size
    ensures Marked(sb, Freed(sb, blocks, b), c) <==> c != b && Marked(sb, blocks, c)
  {
    hide Bit, PutBit;
    BitOfPut(blocks[sb.BBlock(b)], b % BPB, false, c % BPB);
  }

  lemma AllocatedMarks(sb: Super, blocks: seq<Block>, b: nat)
    requires sb.Ok() && |blocks| == sb.size && sb.DataStart() <= b < sb.size
    ensures forall c: nat :: c < sb.size ==>
              (Marked(sb, Allocated(sb, blocks, b), c) <==> c == b || Marked(sb, blocks, c))
  {
    hide Marked, Allocated, Super.Ok;
    forall c: nat | c < sb.size ensures Marked(sb, Allocated(sb, blocks, b), c) <==> c == b || Marked(sb, blocks, c) {
      MarkedAllocated(sb, blocks, b, c);
    }
  }

  lemma FreedMarks(sb: Super, blocks: seq<Block>, b: nat)
    requires sb.Ok() && |blocks| == sb.size && b < sb.size
    ensures forall c: nat :: c < sb.size ==> (Marked(sb, Freed(sb, blocks, b), c) <==> c != b && Marked(sb, blocks, c))
  {
    hide Marked, Freed, Super.Ok;
    forall c: nat | c < sb.size ensures Marked(sb, Freed(sb, blocks, b), c) <==> c != b && Marked(sb, blocks, c) {
      MarkedFreed(sb, blocks, b, c);
    }
  }

  /** Only the bitmap blocks decide which blocks are marked. */
  lemma MarkedSame(sb: Super, blocks: seq<Block>, blocks': seq<Block>, c: nat)
    requires sb.Ok() && |blocks| == |blocks'| == sb.size && c < sb.size
    requires blocks'[sb.BBlock(c)] == blocks[sb.BBlock(c)]
    ensures Marked(sb, blocks', c) <==> Marked(sb, blocks, c)
  {
  }

  /** A free block is a data block that no slot holds. */
  lemma FreeBlock(sb: Super, st: State, b: nat)
    requires Inv(sb, st) && b < sb.size && !Marked(sb, st.blocks, b)
    ensures sb.DataStart() <= b && b !in st.owner && b != 0
  {
    hide Owned, Held, Marked;
  }

  /** The indirect block of an inode is a data block, and owned. */
  lemma IndirectOwned(sb: Super, st: State, i: nat)
    requires Inv(sb, st) && i < |st.inodes| && st.inodes[i].addrs[NDIRECT] != 0
    ensures HeldAt(sb, st, st.inodes[i].addrs[NDIRECT])
    ensures OwnedAt(st, st.inodes[i].addrs[NDIRECT], i, NDIRECT)
  {
    hide Bitmap;
    var ind := st.inodes[i].addrs[NDIRECT];
    assert Addr(st, i, NDIRECT) == ind;
    assert OwnedAt(st, ind, i, NDIRECT);
    assert HeldAt(sb, st, ind);
  }

  // ---- bmap: a block for a slot of the inode ---------------------------------------------

  /** b is free and the slot is empty. */
  ghost predicate CanGrow(sb: Super, st: State, i: nat, s: nat, b: uint) {
    && Inv(sb, st) && i < |st.inodes| && s < NSLOTS && Addr(st, i, s) == 0
    && b < sb.size && !Marked(sb, st.blocks, b)
  }

  /** bmap puts the fresh block b into slot s <= NDIRECT of inode i. */
  function GrownAddr(sb: Super, st: State, i: nat, s: nat, b: uint): (r: State)
    requires sb.Ok() && |st.blocks| == sb.size && b < sb.size
    requires i < |st.inodes| && s < |st.inodes[i].addrs|
  {
    State(Allocated(sb, st.blocks, b),
          st.inodes[i := st.inodes[i].(addrs := st.inodes[i].addrs[s := b])],
          st.owner[b := Slot(i, s)])
  }

  /** bmap puts the fresh block b into entry k of the indirect block `ind` of
      inode i. */
  function GrownEntry(sb: Super, st: State, i: nat, ind: nat, k: nat, b: uint): (r: State)
    requires sb.Ok() && |st.blocks| == sb.size && b < sb.size && ind < sb.size && k < NINDIRECT
  {
    State(Allocated(sb, st.blocks, b)[ind := PutWord(st.blocks[ind], k, b)],
          st.inodes,
          st.owner[b := Slot(i, NDIRECT + 1 + k)])
  }

  /** A state whose slots are those of st with b added in an empty one, and
      whose bitmap is that of st with b marked. */
  ghost predicate Adds(sb: Super, st: State, st': State, i: nat, s: nat, b: uint) {
    && st'.owner == st.owner[b := Slot(i, s)]
    && (forall i', s' :: Addr(st', i', s') == if i' == i && s' == s then b else Addr(st, i', s'))
    && (forall c :: 0 <= c < sb.size ==> (Marked(sb, st'.blocks, c) <==> c == b || Marked(sb, st.blocks, c)))
  }

  lemma AddsKeepsInv(sb: Super, st: State, st': State, i: nat, s: nat, b: uint)
    requires CanGrow(sb, st, i, s, b) && Shape(sb, st') && Adds(sb, st, st', i, s, b)
    ensures Inv(sb, st')
  {
    hide Addr, Marked, Owned, Bitmap;
    FreeBlock(sb, st, b);
    AddsOwned(sb, st, st', i, s, b);
    AddsHeld(sb, st, st', i, s, b);
    AddsBitmap(sb, st, st', i, s, b);
  }

  lemma AddsBitmap(sb: Super, st: State, st': State, i: nat, s: nat, b: uint)
    requires Bitmap(sb, st) && Adds(sb, st, st', i, s, b)
    ensures Bitmap(sb, st')
  {
    hide Addr, Marked;
  }

  lemma AddsHeld(sb: Super, st: State, st': State, i: nat, s: nat, b: uint)
    requires CanGrow(sb, st, i, s, b) && Adds(sb, st, st', i, s, b) && sb.DataStart() <= b
    ensures Held(sb, st')
  {
    hide Addr, Marked, Owned, Bitmap;
    forall c | c in st'.owner ensures HeldAt(sb, st', c) {
      if c != b { assert HeldAt(sb, st, c); }
    }
  }

  lemma AddsOwned(sb: Super, st: State, st': State, i: nat, s: nat, b: uint)
    requires Owned(st) && b !in st.owner && Adds(sb, st, st', i, s, b)
    ensures Owned(st')
  {
    hide Addr, Marked;
    forall i', s' | Addr(st', i', s') != 0 ensures OwnedAt(st', Addr(st', i', s'), i', s') {
      if !(i' == i && s' == s) { assert OwnedAt(st, Addr(st, i', s'), i', s'); }
    }
  }

  /** What growing by one block may change: the bitmap, the new block, and an
      indirect block. */
  ghost predicate Grows(sb: Super, st: State, st': State, i: nat) {
    && Inv(sb, st') && Extends(st, st') && KeepsOthers(st, st', i)
    && forall c :: 0 <= c < sb.bmapstart && c < |st.blocks| ==> st'.blocks[c] == st.blocks[c]
  }

  lemma AllocatedOutside(sb: Super, st: State, b: nat, c: nat)
    requires Inv(sb, st) && b < sb.size && !Marked(sb, st.blocks, b)
    requires c < sb.bmapstart || c in st.owner
    ensures c < sb.size && c != b && Allocated(sb, st.blocks, b)[c] == st.blocks[c]
  {
    BitmapRange(sb, b);
    hide Addr, Owned, Marked, Bitmap, PutBit, Super.Ok, Super.BBlock;
    SuperRange(sb);
    FreeBlock(sb, st, b);
    if c in st.owner { assert HeldAt(sb, st, c); }
  }

  lemma GrownAddrAt(sb: Super, st: State, st': State, i: nat, s: nat, b: uint, i': nat, s': nat)
    requires CanGrow(sb, st, i, s, b) && s <= NDIRECT && i' < sb.ninodes && s' < NSLOTS
    requires st' == GrownAddr(sb, st, i, s, b)
    ensures Addr(st', i', s') == if i' == i && s' == s then b else Addr(st, i', s')
  {
    hide Owned, Held, Bitmap, Word, Marked, Allocated;
    if s' > NDIRECT {
      if i' == i && s == NDIRECT {
        FreeBlock(sb, st, b);
        ZeroWords(s' - NDIRECT - 1);
        FreshIsZero(sb, st.blocks, b);
      } else if st.inodes[i'].addrs[NDIRECT] != 0 {
        IndirectOwned(sb, st, i');
        AllocatedOutside(sb, st, b, st.inodes[i'].addrs[NDIRECT]);
      }
    }
  }

  lemma FreshIsZero(sb: Super, blocks: seq<Block>, b: nat)
    requires sb.Ok() && |blocks| == sb.size && b < sb.size
    ensures Allocated(sb, blocks, b)[b] == Zeroes()
  {
  }

  lemma GrownAddrOk(sb: Super, st: State, st': State, i: nat, s: nat, b: uint)
    requires CanGrow(sb, st, i, s, b) && s <= NDIRECT && st' == GrownAddr(sb, st, i, s, b)
    ensures Grows(sb, st, st', i)
  {
    hide Addr, Marked, Allocated, Held, Owned, Bitmap;
    FreeBlock(sb, st, b);
    forall i', s' ensures Addr(st', i', s') == if i' == i && s' == s then b else Addr(st, i', s') {
      if 0 <= i' < sb.ninodes && 0 <= s' < NSLOTS {
        GrownAddrAt(sb, st, st', i, s, b, i', s');
      } else {
        AddrOutside(sb, st, i', s');
        AddrOutside(sb, st', i', s');
      }
    }
    forall c | 0 <= c < sb.size
      ensures Marked(sb, st'.blocks, c) <==> c == b || Marked(sb, st.blocks, c)
    {
      MarkedAllocated(sb, st.blocks, b, c);
    }
    AddsKeepsInv(sb, st, st', i, s, b);
    forall c | c in st.owner || 0 <= c < sb.bmapstart
      ensures c < sb.size && c != b && st'.blocks[c] == st.blocks[c]
    {
      AllocatedOutside(sb, st, b, c);
    }
  }

  lemma AddrOutside(sb: Super, st: State, i: int, s: int)
    requires Shape(sb, st) && !(0 <= i < sb.ninodes && 0 <= s < NSLOTS)
    ensures Addr(st, i, s) == 0
  {
  }

  lemma GrownEntryAt(sb: Super, st: State, st': State, i: nat, k: nat, b: uint, i': nat, s': nat)
    requires k < NINDIRECT && CanGrow(sb, st, i, NDIRECT + 1 + k, b)
    requires 0 < st.inodes[i].addrs[NDIRECT] < sb.size && i' < sb.ninodes && s' < NSLOTS
    requires st' == GrownEntry(sb, st, i, st.inodes[i].addrs[NDIRECT], k, b)
    ensures Addr(st', i', s') == if i' == i && s' == NDIRECT + 1 + k then b else Addr(st, i', s')
  {
    hide Owned, Held, Bitmap, Word, Marked, Allocated, PutWord;
    if s' > NDIRECT && st.inodes[i'].addrs[NDIRECT] != 0 {
      IndirectOwned(sb, st, i);
      IndirectOwned(sb, st, i');
      AllocatedOutside(sb, st, b, st.inodes[i'].addrs[NDIRECT]);
      WordOfPut(st.blocks[st.inodes[i].addrs[NDIRECT]], k, b, s' - NDIRECT - 1);
    }
  }

  lemma GrownEntryAdds(sb: Super, st: State, st': State, i: nat, k: nat, b: uint)
    requires k < NINDIRECT && CanGrow(sb, st, i, NDIRECT + 1 + k, b)
    requires 0 < st.inodes[i].addrs[NDIRECT] < sb.size
    requires st' == GrownEntry(sb, st, i, st.inodes[i].addrs[NDIRECT], k, b)
    ensures Adds(sb, st, st', i, NDIRECT + 1 + k, b)
  {
    hide Addr, Marked, Allocated, Held, Owned, Bitmap, PutWord;
    FreeBlock(sb, st, b);
    IndirectOwned(sb, st, i);
    forall i', s' ensures Addr(st', i', s') == if i' == i && s' == NDIRECT + 1 + k then b else Addr(st, i', s') {
      if 0 <= i' < sb.ninodes && 0 <= s' < NSLOTS {
        GrownEntryAt(sb, st, st', i, k, b, i', s');
      } else {
        AddrOutside(sb, st, i', s');
        AddrOutside(sb, st', i', s');
      }
    }
    forall c | 0 <= c < sb.size
      ensures Marked(sb, st'.blocks, c) <==> c == b || Marked(sb, st.blocks, c)
    {
      MarkedAllocated(sb, st.blocks, b, c);
      MarkedSame(sb, Allocated(sb, st.blocks, b), st'.blocks, c);
    }
  }

  lemma IndirectRange(sb: Super, st: State, i: nat)
    requires Inv(sb, st) && i < |st.inodes| && st.inodes[i].addrs[NDIRECT] != 0
    ensures sb.DataStart() <= st.inodes[i].addrs[NDIRECT] < sb.size
  {
    hide Addr, Owned, Held, Bitmap;
    IndirectOwned(sb, st, i);
  }

  lemma GrownEntryKeeps(sb: Super, st: State, st': State, i: nat, k: nat, b: uint)
    requires k < NINDIRECT && CanGrow(sb, st, i, NDIRECT + 1 + k, b)
    requires 0 < st.inodes[i].addrs[NDIRECT] < sb.size
    requires st' == GrownEntry(sb, st, i, st.inodes[i].addrs[NDIRECT], k, b)
    ensures Extends(st, st') && KeepsOthers(st, st', i)
    ensures forall c :: 0 <= c < sb.bmapstart && c < |st.blocks| ==> st'.blocks[c] == st.blocks[c]
  {
    hide Addr, Marked, Allocated, Held, Owned, Bitmap, PutWord, HeldAt;
    var ind := st.inodes[i].addrs[NDIRECT];
    IndirectOwned(sb, st, i);
    IndirectRange(sb, st, i);
    forall c | c in st.owner
      ensures c < sb.size && c != b && (c != ind ==> st'.blocks[c] == st.blocks[c])
    {
      AllocatedOutside(sb, st, b, c);
    }
    forall c | 0 <= c < sb.bmapstart && c < |st.blocks| ensures st'.blocks[c] == st.blocks[c] {
      AllocatedOutside(sb, st, b, c);
    }
    assert forall c :: c in st.owner && (st.owner[c].inum != i || st.owner[c].index != NDIRECT) ==> c != ind;
  }

  lemma GrownEntryOk(sb: Super, st: State, st': State, i: nat, k: nat, b: uint)
    requires k < NINDIRECT && CanGrow(sb, st, i, NDIRECT + 1 + k, b)
    requires 0 < st.inodes[i].addrs[NDIRECT] < sb.size
    requires st' == GrownEntry(sb, st, i, st.inodes[i].addrs[NDIRECT], k, b)
    ensures Grows(sb, st, st', i)
  {
    hide Addr, Marked, Allocated, Held, Owned, Bitmap, PutWord, Adds, Extends, KeepsOthers;
    GrownEntryAdds(sb, st, st', i, k, b);
    AddsKeepsInv(sb, st, st', i, NDIRECT + 1 + k, b);
    GrownEntryKeeps(sb, st, st', i, k, b);
  }

  // ---- Writes that move no block --------------------------------------------------------

  /** The same slots and the same bitmap: the invariant carries over. */
  lemma SameSlots(sb: Super, st: State, st': State)
    requires Inv(sb, st) && Shape(sb, st') && st'.owner == st.owner
    requires forall i, s :: Addr(st', i, s) == Addr(st, i, s)
    requires forall c :: 0 <= c < sb.size ==> (Marked(sb, st'.blocks, c) <==> Marked(sb, st.blocks, c))
    ensures Inv(sb, st')
  {
    hide Addr, Marked, Shape;
    forall i, s | Addr(st', i, s) != 0 ensures OwnedAt(st', Addr(st', i, s), i, s) {
      assert OwnedAt(st, Addr(st, i, s), i, s);
    }
    forall c | c in st'.owner ensures HeldAt(sb, st', c) {
      assert HeldAt(sb, st, c);
    }
  }

  /** A block that is neither a bitmap block nor an indirect block. */
  ghost predicate Plain(sb: Super, st: State, c: nat) {
    || c < sb.bmapstart
    || (c in st.owner && st.owner[c].index != NDIRECT)
  }

  lemma AddrPlain(sb: Super, st: State, st': State, c: nat, x: Block, i: int, s: int)
    requires Inv(sb, st) && Plain(sb, st, c) && c < |st.blocks|
    requires st' == st.(blocks := st.blocks[c := x])
    ensures Addr(st', i, s) == Addr(st, i, s)
  {
    hide Owned, Bitmap, Held, Word;
    if 0 <= i < |st.inodes| && st.inodes[i].addrs[NDIRECT] != 0 {
      IndirectOwned(sb, st, i);
    }
  }

  /** Writing a plain block keeps the invariant. */
  lemma PlainWriteOk(sb: Super, st: State, st': State, c: nat, x: Block)
    requires Inv(sb, st) && Plain(sb, st, c) && c < |st.blocks|
    requires st' == st.(blocks := st.blocks[c := x])
    ensures Inv(sb, st')
    ensures forall i, s :: Addr(st', i, s) == Addr(st, i, s)
  {
    hide Addr, Owned, Bitmap, Marked, Super.Ok, Super.BBlock;
    SuperRange(sb);
    forall i, s ensures Addr(st', i, s) == Addr(st, i, s) {
      AddrPlain(sb, st, st', c, x, i, s);
    }
    assert !(sb.bmapstart <= c < sb.DataStart()) by {
      if c in st.owner { assert HeldAt(sb, st, c); }
    }
    forall d | 0 <= d < sb.size ensures Marked(sb, st'.blocks, d) <==> Marked(sb, st.blocks, d) {
      BitmapRange(sb, d);
      MarkedSame(sb, st.blocks, st'.blocks, d);
    }
    SameSlots(sb, st, st');
  }

  /** Writing a file's block writes that block of that file only. */
  lemma FileBlockWrite(sb: Super, st: State, st': State, i: nat, fbn: nat, x: Block, i': nat, fbn': nat)
    requires Inv(sb, st) && Mapped(st, i, fbn) && Mapped(st, i', fbn')
    requires st' == st.(blocks := st.blocks[Addr(st, i, SlotOf(fbn)) := x])
    ensures Inv(sb, st') && Mapped(st', i', fbn')
    ensures FileBlock(st', i', fbn') == if i' == i && fbn' == fbn then x else FileBlock(st, i', fbn')
  {
    hide Addr, Bitmap, Held, Shape;
    var a := Addr(st, i, SlotOf(fbn));
    assert OwnedAt(st, a, i, SlotOf(fbn));
    assert OwnedAt(st, Addr(st, i', SlotOf(fbn')), i', SlotOf(fbn'));
    PlainWriteOk(sb, st, st', a, x);
  }

  // ---- itrunc: giving blocks back -----------------------------------------------------------

  /** Ownership, except that the first n indirect entries of inode x have been
      given back while the indirect block still names them. */
  ghost predicate OwnedExcept(st: State, x: nat, n: nat) {
    forall i, s :: Addr(st, i, s) != 0 && !(i == x && NDIRECT < s < NDIRECT + 1 + n) ==>
      OwnedAt(st, Addr(st, i, s), i, s)
  }

  ghost predicate InvExcept(sb: Super, st: State, x: nat, n: nat) {
    Shape(sb, st) && OwnedExcept(st, x, n) && Held(sb, st) && Bitmap(sb, st)
  }

  lemma InvExceptNone(sb: Super, st: State, x: nat)
    ensures InvExcept(sb, st, x, 0) <==> Inv(sb, st)
  {
    hide Addr, Shape, Held, Bitmap;
  }

  lemma BitmapFreed(sb: Super, st: State, st': State, b: nat)
    requires sb.Ok() && |st.blocks| == sb.size && Bitmap(sb, st)
    requires sb.DataStart() <= b < sb.size
    requires st'.blocks == Freed(sb, st.blocks, b) && st'.owner == st.owner - {b}
    ensures Bitmap(sb, st')
  {
    hide Marked, Freed;
    forall c | 0 <= c < sb.size
      ensures Marked(sb, st'.blocks, c) <==> c < sb.DataStart() || c in st'.owner
    {
      MarkedFreed(sb, st.blocks, b, c);
    }
  }

  /** Clearing a bit changes no slot. */
  lemma AddrFreed(sb: Super, st: State, st': State, x: nat, n: nat, b: nat, i: int, s: int)
    requires InvExcept(sb, st, x, n) && b < sb.size
    requires st' == State(Freed(sb, st.blocks, b), st.inodes, st.owner - {b})
    ensures Addr(st', i, s) == Addr(st, i, s)
  {
    hide Bitmap, Held, Word, PutBit;
    if 0 <= i < |st.inodes| && st.inodes[i].addrs[NDIRECT] != 0 {
      IndirectHeld(sb, st, x, n, i);
    }
  }

  lemma IndirectHeld(sb: Super, st: State, x: nat, n: nat, i: nat)
    requires InvExcept(sb, st, x, n) && i < |st.inodes| && st.inodes[i].addrs[NDIRECT] != 0
    ensures HeldAt(sb, st, st.inodes[i].addrs[NDIRECT])
    ensures OwnedAt(st, st.inodes[i].addrs[NDIRECT], i, NDIRECT)
  {
    hide Bitmap;
    var ind := st.inodes[i].addrs[NDIRECT];
    assert Addr(st, i, NDIRECT) == ind;
    assert OwnedAt(st, ind, i, NDIRECT);
    assert HeldAt(sb, st, ind);
  }

  /** Freeing the block of entry n advances the exception by one. */
  lemma EntryFreed(sb: Super, st: State, st': State, x: nat, n: nat, b: nat)
    requires InvExcept(sb, st, x, n) && x < sb.ninodes && n < NINDIRECT
    requires b != 0 && b == Addr(st, x, NDIRECT + 1 + n) && b < sb.size
    requires st' == State(Freed(sb, st.blocks, b), st.inodes, st.owner - {b})
    ensures OwnedAt(st, b, x, NDIRECT + 1 + n)
    ensures InvExcept(sb, st', x, n + 1)
  {
    hide Addr, Bitmap, Freed;
    assert OwnedAt(st, b, x, NDIRECT + 1 + n);
    assert HeldAt(sb, st, b);
    forall i, s ensures Addr(st', i, s) == Addr(st, i, s) {
      AddrFreed(sb, st, st', x, n, b, i, s);
    }
    BitmapFreed(sb, st, st', b);
    forall i, s | Addr(st', i, s) != 0 && !(i == x && NDIRECT < s < NDIRECT + 2 + n)
      ensures OwnedAt(st', Addr(st', i, s), i, s)
    {
      assert OwnedAt(st, Addr(st, i, s), i, s);
    }
    forall c | c in st'.owner ensures HeldAt(sb, st', c) {
      assert HeldAt(sb, st, c);
    }
  }

  /** An empty entry needs no freeing. */
  lemma EntryEmpty(sb: Super, st: State, x: nat, n: nat)
    requires InvExcept(sb, st, x, n) && Addr(st, x, NDIRECT + 1 + n) == 0
    ensures InvExcept(sb, st, x, n + 1)
  {
    hide Addr, Bitmap, Held, Shape;
  }

  /** Freeing the block in slot s <= NDIRECT and emptying the slot. When the
      slot is the indirect block, its entries go with it. */
  lemma SlotFreed(sb: Super, st: State, st': State, x: nat, s: nat, b: nat)
    requires x < sb.ninodes && s <= NDIRECT
    requires InvExcept(sb, st, x, if s == NDIRECT then NINDIRECT else 0)
    requires b != 0 && b == Addr(st, x, s) && b < sb.size
    requires s == NDIRECT ==> forall c :: c in st.owner ==> !(st.owner[c].inum == x && st.owner[c].index > NDIRECT)
    requires st' == State(Freed(sb, st.blocks, b),
                          st.inodes[x := st.inodes[x].(addrs := st.inodes[x].addrs[s := 0])],
                          st.owner - {b})
    ensures OwnedAt(st, b, x, s)
    ensures Inv(sb, st')
  {
    hide Addr, Bitmap, Freed;
    assert OwnedAt(st, b, x, s);
    assert HeldAt(sb, st, b);
    BitmapFreed(sb, st, st', b);
    forall i, t ensures Addr(st', i, t)
        == if i == x && (t == s || (s == NDIRECT && t > NDIRECT)) then 0 else Addr(st, i, t)
    {
      SlotFreedAt(sb, st, st', x, s, b, i, t);
    }
    forall i, t | Addr(st', i, t) != 0 ensures OwnedAt(st', Addr(st', i, t), i, t) {
      assert OwnedAt(st, Addr(st, i, t), i, t);
    }
    forall c | c in st'.owner ensures HeldAt(sb, st', c) {
      assert HeldAt(sb, st, c);
    }
  }

  lemma SlotFreedAt(sb: Super, st: State, st': State, x: nat, s: nat, b: nat, i: int, t: int)
    requires x < sb.ninodes && s <= NDIRECT && b < sb.size
    requires InvExcept(sb, st, x, if s == NDIRECT then NINDIRECT else 0)
    requires st' == State(Freed(sb, st.blocks, b),
                          st.inodes[x := st.inodes[x].(addrs := st.inodes[x].addrs[s := 0])],
                          st.owner - {b})
    ensures Addr(st', i, t)
         == if i == x && (t == s || (s == NDIRECT && t > NDIRECT)) then 0 else Addr(st, i, t)
  {
    hide Bitmap, Held, Word, PutBit;
    if 0 <= i < |st.inodes| && st.inodes[i].addrs[NDIRECT] != 0 {
      IndirectHeld(sb, st, x, if s == NDIRECT then NINDIRECT else 0, i);
    }
  }

  /** The blocks of every inode but i are owned as before and hold what they held. */
  ghost predicate KeepsOthers(st: State, st': State, i: nat) {
    && |st'.blocks| == |st.blocks|
    && forall b :: b in st.owner && st.owner[b].inum != i ==>
         && b in st'.owner && st'.owner[b] == st.owner[b]
         && (b < |st.blocks| ==> st'.blocks[b] == st.blocks[b])
  }

  lemma KeepsOthersFile(sb: Super, st: State, st': State, i: nat, i': nat, fbn: nat)
    requires Inv(sb, st) && Inv(sb, st') && KeepsOthers(st, st', i) && i' != i && Mapped(st, i', fbn)
    ensures Mapped(st', i', fbn) && FileBlock(st', i', fbn) == FileBlock(st, i', fbn)
  {
    hide Addr, Bitmap, Shape;
    var a := Addr(st, i', SlotOf(fbn));
    assert OwnedAt(st, a, i', SlotOf(fbn));
    assert HeldAt(sb, st', a);
  }

  /** How balloc's two loop counters name a bit of the bitmap. */
  lemma MarkedBit(sb: Super, blocks: seq<Block>, b: nat, bi: nat)
    requires sb.Ok() && |blocks| == sb.size && b % BPB == 0 && bi < BPB && b + bi < sb.size
    ensures sb.BBlock(b + bi) == sb.BBlock(b) && (b + bi) % BPB == bi
    ensures Marked(sb, blocks, b + bi) <==> Bit(blocks[sb.BBlock(b)], bi)
  {
    hide Bit;
  }

  /** iupdate writes one inode of its block. */
  lemma InodeBlock(sb: Super, i: nat)
    requires sb.Ok() && i < sb.ninodes
    ensures 2 <= sb.inodestart <= sb.IBlock(i) < sb.bmapstart
  {
  }

  lemma InodeWritten(sb: Super, st: State, st': State, i: nat)
    requires Inv(sb, st) && i < sb.ninodes
    requires st' == st.(blocks := st.blocks[sb.IBlock(i)
                          := PutInode(st.blocks[sb.IBlock(i)], i % IPB, st.inodes[i])])
    ensures Inv(sb, st') && OnDisk(sb, st', i)
    ensures forall k, s :: Addr(st', k, s) == Addr(st, k, s)
    ensures forall j :: 0 <= j < sb.ninodes && OnDisk(sb, st, j) ==> OnDisk(sb, st', j)
  {
    InodeBlock(sb, i);
    hide Owned, Held, Bitmap, Addr, PutInode, OnDisk, Super.Ok;
    SuperRange(sb);
    PlainWriteOk(sb, st, st', sb.IBlock(i), PutInode(st.blocks[sb.IBlock(i)], i % IPB, st.inodes[i]));
    forall j | 0 <= j < sb.ninodes && (j == i || OnDisk(sb, st, j)) ensures OnDisk(sb, st', j) {
      OnDiskPut(sb, st, st', i, j);
    }
  }

  lemma OnDiskPut(sb: Super, st: State, st': State, i: nat, j: nat)
    requires i < |st.inodes| == sb.ninodes && j < sb.ninodes && sb.IBlock(i) < |st.blocks| && InodeShape(st.inodes[i])
    requires st' == st.(blocks := st.blocks[sb.IBlock(i)
                          := PutInode(st.blocks[sb.IBlock(i)], i % IPB, st.inodes[i])])
    requires j == i || OnDisk(sb, st, j)
    ensures OnDisk(sb, st', j)
  {
    hide GetInode, PutInode;
    InodeOfPut(st.blocks[sb.IBlock(i)], i % IPB, st.inodes[i], j % IPB);
  }

  lemma GrowsTrans(sb: Super, st: State, mid: State, st': State, i: nat)
    requires Grows(sb, st, mid, i) && Grows(sb, mid, st', i)
    ensures Grows(sb, st, st', i)
  {
    hide Inv;
  }

  lemma GrowsSelf(sb: Super, st: State, i: nat)
    requires Inv(sb, st)
    ensures Grows(sb, st, st, i)
  {
    hide Inv;
  }

  /** What bmap promises for file block bn of inode i: it is at a now, it was
      there already or is new, and only i's addresses changed. */
  ghost predicate Bmapped(sb: Super, st: State, st': State, i: nat, bn: nat, a: uint) {
    && Grows(sb, st, st', i)
    && i < |st.inodes| && |st'.inodes| == |st.inodes|
    && st'.inodes == st.inodes[i := st.inodes[i].(addrs := st'.inodes[i].addrs)]
    && bn < MAXFILE && a == Addr(st', i, SlotOf(bn)) && 0 < a < sb.size
    && (Addr(st, i, SlotOf(bn)) != 0 ==> st' == st)
    && (forall t :: 0 <= t < NSLOTS && t != SlotOf(bn) && t != NDIRECT ==> Addr(st', i, t) == Addr(st, i, t))
    && |st.inodes[i].addrs| == |st'.inodes[i].addrs| == NDIRECT + 1
    && (st.inodes[i].addrs[NDIRECT] != 0 ==> st'.inodes[i].addrs[NDIRECT] == st.inodes[i].addrs[NDIRECT])
  }

  lemma GrownEntrySlots(sb: Super, st: State, st': State, i: nat, k: nat, b: uint)
    requires k < NINDIRECT && CanGrow(sb, st, i, NDIRECT + 1 + k, b)
    requires 0 < st.inodes[i].addrs[NDIRECT] < sb.size
    requires st' == GrownEntry(sb, st, i, st.inodes[i].addrs[NDIRECT], k, b)
    ensures Grows(sb, st, st', i) && Addr(st', i, NDIRECT + 1 + k) == b && b != 0
    ensures forall t :: 0 <= t < NSLOTS && t != NDIRECT + 1 + k ==> Addr(st', i, t) == Addr(st, i, t)
  {
    hide Addr, Owned, Held, Bitmap, Marked, Grows, Allocated;
    GrownEntryOk(sb, st, st', i, k, b);
    FreeBlock(sb, st, b);
    GrownEntryAt(sb, st, st', i, k, b, i, NDIRECT + 1 + k);
    forall t | 0 <= t < NSLOTS && t != NDIRECT + 1 + k ensures Addr(st', i, t) == Addr(st, i, t) {
      GrownEntryAt(sb, st, st', i, k, b, i, t);
    }
  }

  /** The slots of inode i after one of its addresses is filled. */
  lemma GrownAddrSlots(sb: Super, st: State, st': State, i: nat, s: nat, b: uint)
    requires CanGrow(sb, st, i, s, b) && s <= NDIRECT && st' == GrownAddr(sb, st, i, s, b)
    ensures Grows(sb, st, st', i) && Addr(st', i, s) == b && b != 0
    ensures forall t :: 0 <= t < NSLOTS && t != s ==> Addr(st', i, t) == Addr(st, i, t)
  {
    hide Addr, Owned, Held, Bitmap, Marked, Grows, Allocated;
    GrownAddrOk(sb, st, st', i, s, b);
    FreeBlock(sb, st, b);
    GrownAddrAt(sb, st, st', i, s, b, i, s);
    forall t | 0 <= t < NSLOTS && t != s ensures Addr(st', i, t) == Addr(st, i, t) {
      GrownAddrAt(sb, st, st', i, s, b, i, t);
    }
  }

  lemma SlotRange(sb: Super, st: State, i: nat, s: nat)
    requires Inv(sb, st) && Addr(st, i, s) != 0
    ensures sb.DataStart() <= Addr(st, i, s) < sb.size
    ensures OwnedAt(st, Addr(st, i, s), i, s)
  {
    hide Addr, Bitmap;
    assert OwnedAt(st, Addr(st, i, s), i, s);
    assert HeldAt(sb, st, Addr(st, i, s));
  }

  lemma GrowsShape(sb: Super, st: State, st': State, i: nat)
    requires Grows(sb, st, st', i)
    ensures |st'.blocks| == sb.size
  {
  }

  lemma GrowsInv(sb: Super, st: State, st': State, i: nat)
    requires Grows(sb, st, st', i)
    ensures Inv(sb, st')
  {
  }

  lemma OwnedMarked(sb: Super, st: State, b: nat)
    requires Inv(sb, st) && b in st.owner
    ensures b < sb.size && Marked(sb, st.blocks, b)
  {
    hide Addr, Owned, Marked;
    assert HeldAt(sb, st, b);
  }

  lemma HeldMarked(sb: Super, st: State, x: nat, n: nat, b: nat)
    requires InvExcept(sb, st, x, n) && b in st.owner
    ensures sb.DataStart() <= b < sb.size && Marked(sb, st.blocks, b)
  {
    hide Addr, OwnedExcept, Marked;
    assert HeldAt(sb, st, b);
  }

  lemma AddrsSlot(st: State, i: nat, s: nat)
    requires i < |st.inodes| && |st.inodes[i].addrs| == NDIRECT + 1 && s <= NDIRECT
    ensures Addr(st, i, s) == st.inodes[i].addrs[s]
  {
  }

  lemma EntryIsWord(st: State, i: nat, ind: nat, j: nat)
    requires i < |st.inodes| && |st.inodes[i].addrs| == NDIRECT + 1 && j < NINDIRECT
    requires 0 < ind < |st.blocks| && st.inodes[i].addrs[NDIRECT] == ind
    ensures Addr(st, i, NDIRECT + 1 + j) == Word(st.blocks[ind], j)
  {
  }

  /** A block named by an indirect entry not yet given back is marked, so bfree
      does not panic on it. */
  lemma EntryMarked(sb: Super, st: State, x: nat, j: nat)
    requires InvExcept(sb, st, x, j) && Addr(st, x, NDIRECT + 1 + j) != 0
    ensures var b := Addr(st, x, NDIRECT + 1 + j);
            b < sb.size && Marked(sb, st.blocks, b) && OwnedAt(st, b, x, NDIRECT + 1 + j)
  {
    hide Addr, Held, Bitmap, Marked;
    assert OwnedAt(st, Addr(st, x, NDIRECT + 1 + j), x, NDIRECT + 1 + j);
    HeldMarked(sb, st, x, j, Addr(st, x, NDIRECT + 1 + j));
  }

  /** A slot owns at most the block it holds. */
  lemma SlotOwner(sb: Super, st: State, x: nat, j: nat)
    requires InvExcept(sb, st, x, j)
    ensures forall c :: c in st.owner && st.owner[c].inum == x && st.owner[c].index == NDIRECT + 1 + j ==>
              c != 0 && c == Addr(st, x, NDIRECT + 1 + j)
  {
    hide Addr, OwnedExcept, Bitmap;
    forall c | c in st.owner && st.owner[c].inum == x && st.owner[c].index == NDIRECT + 1 + j
      ensures c != 0 && c == Addr(st, x, NDIRECT + 1 + j)
    {
      assert HeldAt(sb, st, c);
    }
  }

  lemma NoEntriesOwned(sb: Super, st: State, x: nat)
    requires InvExcept(sb, st, x, NINDIRECT)
    requires forall c :: c in st.owner ==>
               !(st.owner[c].inum == x && NDIRECT < st.owner[c].index < NDIRECT + 1 + NINDIRECT)
    ensures forall c :: c in st.owner ==> !(st.owner[c].inum == x && st.owner[c].index > NDIRECT)
  {
    hide Addr, OwnedExcept, Bitmap, Super.Ok;
    SuperRange(sb);
    forall c | c in st.owner ensures st.owner[c].index < NSLOTS {
      assert HeldAt(sb, st, c);
      if st.owner[c].index >= NSLOTS { AddrOutside(sb, st, st.owner[c].inum, st.owner[c].index); }
    }
  }

  lemma FreedElsewhere(sb: Super, blocks: seq<Block>, b: nat, c: nat)
    requires sb.Ok() && |blocks| == sb.size && b < sb.size && sb.DataStart() <= c < sb.size
    ensures Freed(sb, blocks, b)[c] == blocks[c]
  {
    hide PutBit;
  }
}
