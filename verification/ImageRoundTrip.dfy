/** An image built by mkfs, mounted and read by the kernel. */
module ImageRoundTrip {
  import opened Common
  import opened FsCodec
  import opened FsState
  import opened FsFile
  import FS = FileSystem
  import MkFs

  const T_DIR: ushort := 1
  const T_FILE: ushort := 2

  /** What mkfs does between the super block and the bitmap, in any order over any inodes. */
  datatype Op = Alloc(typ: ushort) | Append(inum: nat, data: seq<byte>)

  function Allocs(ops: seq<Op>): nat {
    if ops == [] then 0 else Allocs(ops[..|ops| - 1]) + if ops[|ops| - 1].Alloc? then 1 else 0
  }

  /** The type that inode i was allocated with. */
  function TypeOf(ops: seq<Op>, i: nat): ushort {
    if ops == [] then 0
    else if ops[|ops| - 1].Alloc? && Allocs(ops) == i then ops[|ops| - 1].typ
    else TypeOf(ops[..|ops| - 1], i)
  }

  /** The bytes appended to inode i, in order. */
  function Chunks(ops: seq<Op>, i: nat): seq<byte> {
    if ops == [] then []
    else Chunks(ops[..|ops| - 1], i) +
         if ops[|ops| - 1].Append? && ops[|ops| - 1].inum == i then ops[|ops| - 1].data else []
  }

  /** The blocks that the files take. */
  function Taken(ops: seq<Op>): int {
    if ops == [] then 0
    else
      var rest, last := ops[..|ops| - 1], ops[|ops| - 1];
      Taken(rest) + if last.Alloc? then 0
                    else MkFs.Blocks(|Chunks(ops, last.inum)|) - MkFs.Blocks(|Chunks(rest, last.inum)|)
  }

  /** Files and directories, appended to only after their allocation, within the inode table. */
  predicate Sensible(ops: seq<Op>, ninodes: nat) {
    && Allocs(ops) < ninodes
    && forall k :: 0 <= k < |ops| ==>
         if ops[k].Alloc? then ops[k].typ == T_DIR || ops[k].typ == T_FILE else 1 <= ops[k].inum <= Allocs(ops[..k])
  }

  /** No file is too large, and the disk and the one bitmap block that mkfs writes have room. */
  predicate Fits(sb: Super, ops: seq<Op>) {
    && (forall i :: 1 <= i <= Allocs(ops) ==> |Chunks(ops, i)| <= MAXFILE * BSIZE)
    && sb.DataStart() + Taken(ops) <= sb.size && sb.DataStart() + Taken(ops) < BPB
  }

  lemma Prefixes(ops: seq<Op>, k: nat)
    requires k < |ops|
    ensures ops[..k + 1][..k] == ops[..k] && ops[..k + 1][k] == ops[k]
  {
  }

  lemma {:induction false} AllocsGrow(ops: seq<Op>, k: nat)
    requires k <= |ops|
    ensures Allocs(ops[..k]) <= Allocs(ops)
    decreases |ops| - k
  {
    if k == |ops| {
      assert ops[..k] == ops;
    } else {
      Prefixes(ops, k);
      AllocsGrow(ops, k + 1);
    }
  }

  lemma {:induction false} ChunksGrow(ops: seq<Op>, k: nat, i: nat)
    requires k <= |ops|
    ensures |Chunks(ops[..k], i)| <= |Chunks(ops, i)|
    decreases |ops| - k
  {
    if k == |ops| {
      assert ops[..k] == ops;
    } else {
      Prefixes(ops, k);
      ChunksGrow(ops, k + 1, i);
    }
  }

  lemma {:induction false} TakenGrows(ops: seq<Op>, k: nat)
    requires k <= |ops|
    ensures Taken(ops[..k]) <= Taken(ops)
    decreases |ops| - k
  {
    if k == |ops| {
      assert ops[..k] == ops;
    } else {
      Prefixes(ops, k);
      if ops[k].Append? {
        MkFs.BlocksGrow(|Chunks(ops[..k], ops[k].inum)|, |Chunks(ops[..k + 1], ops[k].inum)|);
      }
      TakenGrows(ops, k + 1);
    }
  }

  /** Nothing is appended to an inode before its allocation. */
  lemma {:induction false} NoChunksYet(ops: seq<Op>, ninodes: nat, k: nat, i: nat)
    requires Sensible(ops, ninodes) && k <= |ops| && Allocs(ops[..k]) < i
    ensures Chunks(ops[..k], i) == []
    decreases k
  {
    if k > 0 {
      Prefixes(ops, k - 1);
      AllocsGrow(ops[..k], k - 1);
      NoChunksYet(ops, ninodes, k - 1, i);
    }
  }

  /** Inode i holds what was appended to it. */
  ghost predicate Holds(st: State, ops: seq<Op>, i: nat) {
    && i < |st.inodes| && NoHoles(st, i, st.inodes[i].size) && Content(st, i) == Chunks(ops, i)
    && st.inodes[i].typ == TypeOf(ops, i) && (st.inodes[i].typ == T_DIR || st.inodes[i].typ == T_FILE)
    && st.inodes[i].nlink == 1
  }

  ghost predicate AllHold(st: State, ops: seq<Op>) {
    forall i: nat :: 1 <= i <= Allocs(ops) ==> Holds(st, ops, i)
  }

  ghost predicate Built(image: MkFs.Image, ops: seq<Op>)
    reads image
  {
    && image.Valid() && image.freeinode == Allocs(ops) + 1
    && image.freeblock == image.sb.DataStart() + Taken(ops) && AllHold(image.shadow, ops)
  }

  lemma AllHoldMore(sb: Super, st: State, st1: State, ops: seq<Op>, op: Op, inum: nat)
    requires AllHold(st, ops) && OthersSame(sb, st, st1, inum)
    requires Holds(st1, ops + [op], inum)
    requires if op.Alloc? then inum == Allocs(ops) + 1 else inum == op.inum && 1 <= inum <= Allocs(ops)
    ensures AllHold(st1, ops + [op])
  {
    hide Content, NoHoles, Inv;
    var more := ops + [op];
    assert more[..|more| - 1] == ops;
    forall i: nat | 1 <= i <= Allocs(more) ensures Holds(st1, more, i) {
      if i != inum {
        assert Holds(st, ops, i);
      }
    }
  }

  /** What one more operation adds. */
  lemma OneMore(ops: seq<Op>, op: Op, i: nat)
    ensures Allocs(ops + [op]) == Allocs(ops) + if op.Alloc? then 1 else 0
    ensures Chunks(ops + [op], i) == if op.Append? && op.inum == i then Chunks(ops, i) + op.data else Chunks(ops, i)
    ensures TypeOf(ops + [op], i) == if op.Alloc? && Allocs(ops) + 1 == i then op.typ else TypeOf(ops, i)
    ensures op.Alloc? ==> Taken(ops + [op]) == Taken(ops)
    ensures op.Append? ==>
              Taken(ops + [op]) + MkFs.Blocks(|Chunks(ops, op.inum)|)
              == Taken(ops) + MkFs.Blocks(|Chunks(ops, op.inum)| + |op.data|)
  {
    hide MkFs.Blocks, Chunks, Taken;
    var more := ops + [op];
    assert more[..|more| - 1] == ops && more[|more| - 1] == op;
    ChunksMore(ops, op, i);
    TakenMore(ops, op);
    if op.Append? {
      ChunksMore(ops, op, op.inum);
    }
  }

  lemma ChunksMore(ops: seq<Op>, op: Op, i: nat)
    ensures Chunks(ops + [op], i) == Chunks(ops, i) + if op.Append? && op.inum == i then op.data else []
  {
    assert (ops + [op])[..|ops|] == ops;
  }

  lemma TakenMore(ops: seq<Op>, op: Op)
    ensures Taken(ops + [op]) == Taken(ops) +
            if op.Alloc? then 0
            else MkFs.Blocks(|Chunks(ops + [op], op.inum)|) - MkFs.Blocks(|Chunks(ops, op.inum)|)
  {
    hide MkFs.Blocks, Chunks;
    assert (ops + [op])[..|ops|] == ops;
  }

  method ApplyAlloc(image: MkFs.Image, typ: ushort, ghost ops: seq<Op>)
    requires Built(image, ops) && Allocs(ops) + 1 < image.sb.ninodes && (typ == T_DIR || typ == T_FILE)
    requires Chunks(ops, Allocs(ops) + 1) == []
    modifies image
    ensures Built(image, ops + [Alloc(typ)]) && MkFs.Front(image.sb, old(image.blocks), image.blocks)
  {
    hide MkFs.Front, TypeOf;
    hide Whole, Content, OthersSame, NoHoles, AllHold, Chunks, Allocs, Taken;
    hide MkFs.Tracks, MkFs.Tight, MkFs.Snug, MkFs.WithInode, MkFs.Blocks;
    ghost var sh := image.shadow;
    OneMore(ops, Alloc(typ), Allocs(ops) + 1);
    var inum := image.Ialloc(typ);
    WholeFacts(image.sb, image.shadow, inum);
    AllHoldMore(image.sb, sh, image.shadow, ops, Alloc(typ), inum);
  }

  method ApplyAppend(image: MkFs.Image, inum: nat, data: seq<byte>, ghost ops: seq<Op>) returns (ok: bool)
    requires Built(image, ops) && 1 <= inum <= Allocs(ops) < image.sb.ninodes
    modifies image
    ensures ok ==> Built(image, ops + [Append(inum, data)]) && MkFs.Front(image.sb, old(image.blocks), image.blocks)
    ensures ok <==> image.Room(|Chunks(ops, inum)|, |data|, old(image.freeblock))
  {
    hide MkFs.Front, TypeOf;
    hide Whole, Content, OthersSame, NoHoles, AllHold, Chunks, Allocs, Taken;
    hide MkFs.Tracks, MkFs.Tight, MkFs.Snug, MkFs.Blocks;
    ghost var sh := image.shadow;
    HoldsAt(sh, ops, inum);
    OneMore(ops, Append(inum, data), inum);
    ok := image.Iappend(inum, data);
    if ok {
      WholeFacts(image.sb, image.shadow, inum);
      AllHoldMore(image.sb, sh, image.shadow, ops, Append(inum, data), inum);
    }
  }

  lemma HoldsAt(st: State, ops: seq<Op>, i: nat)
    requires AllHold(st, ops) && 1 <= i <= Allocs(ops)
    ensures Holds(st, ops, i)
  {
  }

  /** One operation of mkfs. */
  method Apply(image: MkFs.Image, op: Op, ghost ops: seq<Op>) returns (ok: bool)
    requires Built(image, ops)
    requires if op.Alloc? then Allocs(ops) + 1 < image.sb.ninodes && (op.typ == T_DIR || op.typ == T_FILE)
             else 1 <= op.inum <= Allocs(ops) < image.sb.ninodes
    requires op.Alloc? ==> Chunks(ops, Allocs(ops) + 1) == []
    modifies image
    ensures ok ==> Built(image, ops + [op]) && MkFs.Front(image.sb, old(image.blocks), image.blocks)
    ensures ok <==> op.Alloc? || image.Room(|Chunks(ops, op.inum)|, |op.data|, old(image.freeblock))
  {
    hide Built, Chunks, Allocs, Taken;
    match op
    case Alloc(typ) =>
      ApplyAlloc(image, typ, ops);
      ok := true;
    case Append(inum, data) =>
      ok := ApplyAppend(image, inum, data, ops);
  }

  /** A failing append means that the whole does not fit. */
  lemma NoRoom(sb: Super, ops: seq<Op>, k: nat)
    requires k < |ops| && ops[k].Append? && 1 <= ops[k].inum <= Allocs(ops)
    requires var size, n := |Chunks(ops[..k], ops[k].inum)|, |ops[k].data|;
             size + n > MAXFILE * BSIZE
             || sb.DataStart() + Taken(ops[..k]) + MkFs.Blocks(size + n) > sb.size + MkFs.Blocks(size)
    ensures !Fits(sb, ops)
  {
    hide MkFs.Blocks;
    Prefixes(ops, k);
    ChunksGrow(ops, k + 1, ops[k].inum);
    TakenGrows(ops, k + 1);
  }

  /** Operation k of the sequence. */
  method BuildOne(image: MkFs.Image, ops: seq<Op>, k: nat) returns (ok: bool)
    requires k < |ops| && Sensible(ops, image.sb.ninodes) && Built(image, ops[..k])
    modifies image
    ensures ok ==> Built(image, ops[..k + 1]) && MkFs.Front(image.sb, old(image.blocks), image.blocks)
    ensures !ok ==> !Fits(image.sb, ops)
  {
    hide Whole, AllHold, Chunks, Taken, Fits, MkFs.Tracks, MkFs.Tight, MkFs.Snug, MkFs.Blocks;
    AllocsGrow(ops, k + 1);
    Prefixes(ops, k);
    NoChunksYet(ops, image.sb.ninodes, k, Allocs(ops[..k]) + 1);
    ok := Apply(image, ops[k], ops[..k]);
    if !ok {
      NoRoom(image.sb, ops, k);
    }
    assert ops[..k] + [ops[k]] == ops[..k + 1];
  }

  /** Every operation in order; false when one finds no room. */
  method Build(sb: Super, super: Block, ops: seq<Op>) returns (ok: bool, image: MkFs.Image)
    requires sb.Ok() && Sensible(ops, sb.ninodes)
    ensures ok ==> fresh(image) && image.sb == sb && Built(image, ops) && SuperOnly(sb, image.blocks, super)
    ensures !ok ==> !Fits(sb, ops)
    ensures ok ==> forall i: nat :: 1 <= i <= Allocs(ops) ==> |Chunks(ops, i)| <= MAXFILE * BSIZE
  {
    hide Whole, AllHold, Chunks, Taken, Fits, MkFs.Tracks, MkFs.Tight, MkFs.Snug, MkFs.Blocks;
    image := new MkFs.Image(sb, super);
    NothingYet(sb, image.shadow);
    SuperRange(sb);
    assert Built(image, ops[..0]) && SuperOnly(sb, image.blocks, super);
    hide Built, Sensible, MkFs.Front, SuperOnly;
    for k := 0 to |ops|
      invariant fresh(image) && image.sb == sb && Built(image, ops[..k]) && SuperOnly(sb, image.blocks, super)
    {
      ghost var was := image.blocks;
      ok := BuildOne(image, ops, k);
      if !ok {
        return;
      }
      SuperStays(sb, was, image.blocks, super);
    }
    assert ops[..|ops|] == ops;
    BuiltSmall(image, ops);
    ok := true;
  }

  /** Before the inodes there is the super block in block 1, and zeroes: a log without a transaction. */
  ghost predicate SuperOnly(sb: Super, blocks: seq<Block>, super: Block) {
    && 2 <= sb.inodestart <= |blocks| && blocks[1] == super
    && forall b :: 0 <= b < sb.inodestart && b != 1 ==> forall k :: 0 <= k < BSIZE ==> blocks[b][k] == 0
  }

  lemma SuperStays(sb: Super, was: seq<Block>, blocks: seq<Block>, super: Block)
    requires SuperOnly(sb, was, super) && MkFs.Front(sb, was, blocks)
    ensures SuperOnly(sb, blocks, super)
  {
  }

  lemma BuiltSmall(image: MkFs.Image, ops: seq<Op>)
    requires Built(image, ops)
    ensures forall i: nat :: 1 <= i <= Allocs(ops) ==> |Chunks(ops, i)| <= MAXFILE * BSIZE
  {
    hide Whole, AllHold, Chunks, Allocs;
    SmallEnough(image.sb, image.shadow, ops);
  }

  lemma NothingYet(sb: Super, st: State)
    ensures AllHold(st, []) && Allocs([]) == 0 && Taken([]) == 0
  {
  }

  lemma SmallEnough(sb: Super, st: State, ops: seq<Op>)
    requires Whole(sb, st) && AllHold(st, ops)
    ensures forall i: nat :: 1 <= i <= Allocs(ops) ==> |Chunks(ops, i)| <= MAXFILE * BSIZE
  {
    hide Whole;
    forall i: nat | 1 <= i <= Allocs(ops) ensures |Chunks(ops, i)| <= MAXFILE * BSIZE {
      assert Holds(st, ops, i);
      SizeFits(sb, st, i);
    }
  }

  lemma SizeFits(sb: Super, st: State, i: nat)
    requires Whole(sb, st) && i < |st.inodes|
    ensures st.inodes[i].size <= MAXFILE * BSIZE && i < sb.ninodes == |st.inodes|
  {
    hide NoHoles, OnDisk, Owned, Held, Bitmap;
    assert InodeShape(st.inodes[i]);
  }

  /** No block has two places. */
  ghost predicate Unshared(st: State) {
    forall i, s, j, t :: Addr(st, i, s) != 0 && Addr(st, i, s) == Addr(st, j, t) ==> i == j && s == t
  }

  /** No inode refers to block b. */
  ghost predicate Unowned(st: State, b: nat) {
    forall i, s :: Addr(st, i, s) != b
  }

  lemma OneOwner(sb: Super, st: State)
    requires Inv(sb, st)
    ensures Unshared(st)
  {
    hide Addr, Held, Bitmap, Shape;
    forall i, s, j, t | Addr(st, i, s) != 0 && Addr(st, i, s) == Addr(st, j, t) ensures i == j && s == t {
      assert OwnedAt(st, Addr(st, i, s), i, s) && OwnedAt(st, Addr(st, j, t), j, t);
    }
  }

  lemma ClearUnowned(sb: Super, st: State, b: nat)
    requires Inv(sb, st) && sb.DataStart() <= b < sb.size && !Marked(sb, st.blocks, b)
    ensures Unowned(st, b)
  {
    hide Addr, Held, Marked;
    forall i, s ensures Addr(st, i, s) != b {
      assert Addr(st, i, s) != 0 ==> OwnedAt(st, Addr(st, i, s), i, s);
    }
  }

  /** What mkfs leaves of the bytes c of inode i: the root directory ends at a block boundary. */
  predicate Left(c: seq<byte>, i: nat, file: seq<byte>) {
    if i == 1 then c <= file && |file| == MkFs.Past(|c|) else file == c
  }

  ghost predicate Leaves(st: State, ops: seq<Op>, i: nat) {
    && i < |st.inodes| && NoHoles(st, i, st.inodes[i].size) && Left(Chunks(ops, i), i, Content(st, i))
    && st.inodes[i].typ == TypeOf(ops, i) && (st.inodes[i].typ == T_DIR || st.inodes[i].typ == T_FILE)
    && st.inodes[i].nlink == 1
  }

  ghost predicate AllLeft(st: State, ops: seq<Op>) {
    forall i: nat :: 1 <= i <= Allocs(ops) ==> Leaves(st, ops, i)
  }

  lemma LeftByRounding(sb: Super, sh: State, st: State, ops: seq<Op>)
    requires Whole(sb, sh) && Whole(sb, st) && AllHold(sh, ops) && OthersSame(sb, sh, st, 1) && Allocs(ops) > 0
    requires 1 < |sh.inodes| == |st.inodes|
    requires st.inodes[1] == sh.inodes[1].(size := MkFs.Past(sh.inodes[1].size))
    requires Content(sh, 1) <= Content(st, 1)
    ensures AllLeft(st, ops)
  {
    hide Content, NoHoles, OnDisk, Inv, Chunks;
    forall i: nat | 1 <= i <= Allocs(ops) ensures Leaves(st, ops, i) {
      assert Holds(sh, ops, i);
    }
  }

  lemma LeftSame(sb: Super, sh: State, st: State, ops: seq<Op>)
    requires Whole(sb, sh) && Whole(sb, st) && AllLeft(sh, ops) && st.inodes == sh.inodes
    requires forall i :: 0 <= i < |sh.inodes| ==> Content(st, i) == Content(sh, i)
    ensures AllLeft(st, ops)
  {
    hide Content, NoHoles, OnDisk, Inv, Chunks, Left;
    forall i: nat | 1 <= i <= Allocs(ops) ensures Leaves(st, ops, i) {
      assert Leaves(sh, ops, i);
    }
  }

  /** Each file from its first byte to its size. */
  method ReadAll(fs: FS.FileSystem, n: nat, ghost ops: seq<Op>) returns (files: seq<seq<byte>>)
    requires Whole(fs.sb, fs.St()) && AllLeft(fs.St(), ops) && n == Allocs(ops)
    modifies fs
    ensures fs.St() == old(fs.St()) && |files| == n
    ensures forall i :: 0 <= i < n ==> Left(Chunks(ops, i + 1), i + 1, files[i])
  {
    hide Whole, Content, NoHoles, Left, Chunks;
    files := [];
    for k := 0 to n
      invariant fs.St() == old(fs.St()) && |files| == k
      invariant forall i :: 0 <= i < k ==> Left(Chunks(ops, i + 1), i + 1, files[i])
    {
      assert Leaves(fs.St(), ops, k + 1);
      SizeFits(fs.sb, fs.St(), k + 1);
      ghost var file := Content(fs.St(), k + 1);
      var got := fs.Readi(k + 1, 0, fs.inodes[k + 1].size);
      assert got.bytes == file;
      files := files + [got.bytes];
    }
  }

  /** The rounding of the root directory's size, when there is one: the files are then as Left says,
      or the root has a hole. */
  method RoundRoot(image: MkFs.Image, ghost ops: seq<Op>) returns (whole: bool)
    requires Built(image, ops) && Allocs(ops) < image.sb.ninodes
    modifies image
    ensures image.freeblock == old(image.freeblock) && image.freeinode == old(image.freeinode)
    ensures MkFs.Front(image.sb, old(image.blocks), image.blocks)
    ensures whole <==> Allocs(ops) == 0 || |Chunks(ops, 1)| % BSIZE != 0
    ensures whole ==> image.Valid() && AllLeft(image.shadow, ops)
    ensures !whole ==> HoleyAt(image.shadow, 1)
  {
    hide Whole, Content, NoHoles, OthersSame, Chunks, Left, MkFs.Tracks, MkFs.Tight, MkFs.Snug, MkFs.WithInode;
    if image.freeinode == 1 {
      return true;
    }
    ghost var sh := image.shadow;
    assert Holds(sh, ops, 1);
    var din := image.Rinode(1);
    whole := din.size % BSIZE != 0;
    image.FixRoot(1);
    if whole {
      WholeOf(image);
      LeftByRounding(image.sb, sh, image.shadow, ops);
    }
  }

  lemma WholeOf(image: MkFs.Image)
    requires image.Valid()
    ensures Whole(image.sb, image.shadow)
  {
  }

  /** Inode i has a block below its size that is not there. */
  ghost predicate HoleyAt(st: State, i: nat) {
    i < |st.inodes| && !NoHoles(st, i, st.inodes[i].size)
  }

  lemma UsedFits(image: MkFs.Image)
    requires image.Valid()
    ensures image.sb.DataStart() <= image.freeblock <= image.sb.size
  {
    hide Whole, Marked, MkFs.Tight, MkFs.Snug;
  }

  lemma WholeInv(sb: Super, st: State)
    requires Whole(sb, st)
    ensures Inv(sb, st)
  {
  }

  /** With exactly the blocks below `used` marked, balloc gives `used`. */
  lemma FirstClear(sb: Super, st: State, used: nat, r: Option<uint>)
    requires Inv(sb, st) && sb.DataStart() <= used <= sb.size
    requires forall b :: 0 <= b < sb.size ==> (Marked(sb, st.blocks, b) <==> b < used)
    requires r.None? ==> DiskFull(sb, st.blocks)
    requires r.Some? ==> r.value < sb.size && !Marked(sb, st.blocks, r.value)
    requires r.Some? ==> forall c :: 0 <= c < r.value ==> Marked(sb, st.blocks, c)
    ensures r == if used < sb.size then Some(used) else None
    ensures r.Some? ==> Unowned(st, r.value)
  {
    hide Marked, Owned, Held, Bitmap;
    assert used < sb.size ==> !Marked(sb, st.blocks, used);
    if r.Some? {
      ClearUnowned(sb, st, r.value);
    }
  }

  datatype Made = Failed | Holey | Read(files: seq<seq<byte>>, spare: Option<uint>)

  /** mkfs after the super block, then the kernel: files built by any sequence of ialloc and iappend
      calls over any inodes, the rounding of the root's size, the bitmap, a mount, readi and balloc.
      Exactly when all of it fits and the root's bytes do not fill whole blocks, every inode reads
      back as the concatenation of its own chunks, the root padded to a block boundary; no block of
      it has two places, and the first balloc gives the first block that mkfs left, which no inode
      refers to. */
  method BuildAndRead(sb: Super, super: Block, ops: seq<Op>) returns (made: Made, ghost st: State)
    requires sb.Ok() && Sensible(ops, sb.ninodes)
    ensures made.Failed? <==> !Fits(sb, ops)
    ensures made.Holey? <==> Fits(sb, ops) && Allocs(ops) > 0 && |Chunks(ops, 1)| % BSIZE == 0
    ensures made.Holey? ==> HoleyAt(st, 1)
    ensures made.Read? ==> |made.files| == Allocs(ops)
    ensures made.Read? ==> forall i :: 0 <= i < Allocs(ops) ==> Left(Chunks(ops, i + 1), i + 1, made.files[i])
    ensures made.Read? ==> Whole(sb, st) && AllLeft(st, ops) && Unshared(st) && SuperOnly(sb, st.blocks, super)
    ensures made.Read? ==>
              made.spare == if sb.DataStart() + Taken(ops) < sb.size then Some(sb.DataStart() + Taken(ops)) else None
    ensures made.Read? && made.spare.Some? ==> Unowned(st, made.spare.value)
  {
    hide Whole, Content, NoHoles, Marked, Allocated, DiskFull, Unowned, Unshared, AllHold, AllLeft, Left, HoleyAt,
         MkFs.Tracks, MkFs.Tight, MkFs.Snug;
    made, st := Failed, State([], [], map[]);
    var ok, image := Build(sb, super, ops);
    if !ok {
      return;
    }
    UsedFits(image);
    hide SuperOnly, MkFs.Front;
    ghost var was := image.blocks;
    var whole := RoundRoot(image, ops);
    SuperStays(sb, was, image.blocks, super);
    if !whole {
      made := if image.freeblock < BPB then Holey else Failed;
      st := image.shadow;
      return;
    }
    ghost var sh := image.shadow;
    was := image.blocks;
    ok := image.WriteBitmap();
    if !ok {
      return;
    }
    SuperStays(sb, was, image.blocks, super);
    LeftSame(sb, sh, State(image.blocks, sh.inodes, sh.owner), ops);
    var fs := new FS.FileSystem.Mount(sb, image.blocks, sh.inodes, sh.owner);
    st := fs.St();
    var files := ReadAll(fs, Allocs(ops), ops);
    WholeInv(sb, st);
    OneOwner(sb, st);
    var spare := fs.Balloc();
    FirstClear(sb, st, sb.DataStart() + Taken(ops), spare);
    made := Read(files, spare);
  }

  // ---- A root directory with a hole ------------------------------------------------------------

  /** mkfs on a root directory of n entries of 16 bytes, with the final rounding of its size. */
  method RootOnly(sb: Super, super: Block, entries: seq<byte>) returns (image: MkFs.Image)
    requires sb.Ok() && sb.ninodes > 1 && |entries| <= MAXFILE * BSIZE
    requires sb.DataStart() + MkFs.Blocks(|entries|) <= sb.size
    ensures |image.shadow.inodes| > 1 && image.shadow.inodes[1].size == MkFs.Past(|entries|)
    ensures NoHoles(image.shadow, 1, image.shadow.inodes[1].size) <==> |entries| % BSIZE != 0
  {
    hide Whole, Content, OthersSame, NoHoles, MkFs.Tracks, MkFs.Tight, MkFs.Snug, MkFs.WithInode;
    assert MkFs.Blocks(0) == 0;
    hide MkFs.Blocks;
    image := new MkFs.Image(sb, super);
    var root := image.Ialloc(T_DIR);
    WholeFacts(sb, image.shadow, root);
    var ok := image.Iappend(root, entries);
    WholeFacts(sb, image.shadow, root);
    image.FixRoot(root);
  }

  /** 32 entries fill a block: the kernel gets a root directory with a hole. */
  method HoleyRoot(sb: Super, super: Block) returns (image: MkFs.Image)
    requires sb.Ok() && sb.ninodes > 1 && sb.DataStart() < sb.size
    ensures |image.shadow.inodes| > 1 && image.shadow.inodes[1].size == 1024
    ensures !NoHoles(image.shadow, 1, 1024)
  {
    hide NoHoles;
    image := RootOnly(sb, super, seq(32 * 16, _ => 0));
  }
}
