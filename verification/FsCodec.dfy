/** Blocks as bytes, and the three things fs.c reads out of them: little-endian
    words, bitmap bits and disk inodes. */
module FsCodec {
  import opened Common

  const BSIZE: nat := 512
  const NDIRECT: nat := 12
  const NINDIRECT: nat := BSIZE / 4
  const MAXFILE: nat := NDIRECT + NINDIRECT
  // Words in a disk inode, and inodes in a block.
  const IWORDS: nat := 16
  const IPB: nat := NINDIRECT / IWORDS
  // Bitmap bits in a block.
  const BPB: nat := BSIZE * 8

  type Block = b: seq<byte> | |b| == BSIZE witness seq(BSIZE, _ => 0)

  function Zeroes(): Block { seq(BSIZE, _ => 0) }

  // ---- Words ------------------------------------------------------------------

  function Join(a: byte, b: byte, c: byte, d: byte): uint {
    a + 0x100 * b + 0x1_0000 * c + 0x100_0000 * d
  }

  function Word(b: Block, i: nat): uint
    requires i < NINDIRECT
  {
    Join(b[4 * i], b[4 * i + 1], b[4 * i + 2], b[4 * i + 3])
  }

  function PutWord(b: Block, i: nat, w: uint): (r: Block)
    requires i < NINDIRECT
  {
    b[4 * i := w % 0x100][4 * i + 1 := w / 0x100 % 0x100]
     [4 * i + 2 := w / 0x1_0000 % 0x100][4 * i + 3 := w / 0x100_0000]
  }

  lemma JoinSplit(w: uint)
    ensures Join(w % 0x100, w / 0x100 % 0x100, w / 0x1_0000 % 0x100, w / 0x100_0000) == w
  {
    assert w / 0x1_0000 == w / 0x100 / 0x100;
    assert w / 0x100_0000 == w / 0x100 / 0x100 / 0x100;
  }

  /** Storing a word changes that word and no other. */
  lemma WordOfPut(b: Block, i: nat, w: uint, j: nat)
    requires i < NINDIRECT && j < NINDIRECT
    ensures Word(PutWord(b, i, w), j) == if j == i then w else Word(b, j)
  {
    hide Join;
    if j == i { JoinSplit(w); }
  }

  /** A word lies in four bytes, the least significant first. */
  lemma WordBytes(b: Block, i: nat)
    requires i < NINDIRECT
    ensures b[4 * i] == Word(b, i) % 0x100
    ensures b[4 * i + 1] == Word(b, i) / 0x100 % 0x100
    ensures b[4 * i + 2] == Word(b, i) / 0x1_0000 % 0x100
    ensures b[4 * i + 3] == Word(b, i) / 0x100_0000
  {
    JoinParts(b[4 * i], b[4 * i + 1], b[4 * i + 2], b[4 * i + 3]);
  }

  lemma JoinParts(a: byte, b: byte, c: byte, d: byte)
    ensures a == Join(a, b, c, d) % 0x100 && b == Join(a, b, c, d) / 0x100 % 0x100
    ensures c == Join(a, b, c, d) / 0x1_0000 % 0x100 && d == Join(a, b, c, d) / 0x100_0000
  {
    var w: int := Join(a, b, c, d);
    assert w / 0x100 == b + 0x100 * c + 0x1_0000 * d;
    assert w / 0x1_0000 == c + 0x100 * d;
  }

  lemma ZeroWords(i: nat)
    requires i < NINDIRECT
    ensures Word(Zeroes(), i) == 0
  {
  }

  // ---- Bits ---------------------------------------------------------------------

  function Mask(k: nat): (m: int)
    ensures m >= 1
  {
    if k == 0 then 1 else 2 * Mask(k - 1)
  }

  /** Bit k of x: (x & 1 << k) != 0. */
  predicate ByteBit(x: nat, k: nat) {
    if k == 0 then x % 2 == 1 else ByteBit(x / 2, k - 1)
  }

  /** x | 1 << k */
  function OrMask(x: nat, k: nat): (r: nat) {
    if ByteBit(x, k) then x else x + Mask(k)
  }

  /** x & ~(1 << k) */
  function AndNotMask(x: nat, k: nat): (r: int) {
    if ByteBit(x, k) then x - Mask(k) else x
  }

  lemma {:induction false} AddMask(x: nat, k: nat, n: nat, j: nat)
    requires !ByteBit(x, k) && k < n && x < Mask(n)
    ensures x + Mask(k) < Mask(n)
    ensures ByteBit(x + Mask(k), j) <==> j == k || ByteBit(x, j)
  {
    if k > 0 {
      assert (x + Mask(k)) / 2 == x / 2 + Mask(k - 1);
      AddMask(x / 2, k - 1, n - 1, if j == 0 then 0 else j - 1);
    } else {
      assert (x + 1) / 2 == x / 2;
    }
  }

  lemma {:induction false} SubMask(x: nat, k: nat, j: nat)
    requires ByteBit(x, k)
    ensures x >= Mask(k)
    ensures ByteBit(x - Mask(k), j) <==> j != k && ByteBit(x, j)
  {
    if k > 0 {
      SubMask(x / 2, k - 1, if j == 0 then 0 else j - 1);
      assert (x - Mask(k)) / 2 == x / 2 - Mask(k - 1);
    } else {
      assert (x - 1) / 2 == x / 2;
    }
  }

  predicate Bit(b: Block, i: nat)
    requires i < BPB
  {
    ByteBit(b[i / 8], i % 8)
  }

  /** Bit i of a bitmap block is the bit of weight 2 to the i % 8 of byte i / 8. */
  lemma BitWeight(b: Block, i: nat)
    requires i < BPB
    ensures Bit(b, i) <==> b[i / 8] / Weight(i % 8) % 2 == 1
  {
    hide Weight;
    Halves(b[i / 8], i % 8);
  }

  function Weight(k: nat): (m: int)
    requires k < 8
    ensures m > 0
  {
    [1, 2, 4, 8, 16, 32, 64, 128][k]
  }

  lemma {:induction false} Halves(x: nat, k: nat)
    requires k < 8
    ensures ByteBit(x, k) <==> x / Weight(k) % 2 == 1
  {
    if k > 0 {
      Halves(x / 2, k - 1);
      HalfOf(x, k);
    }
  }

  lemma HalfOf(x: nat, k: nat)
    requires 0 < k < 8
    ensures x / 2 / Weight(k - 1) == x / Weight(k)
  {
    match k
    case 1 => assert x / 2 / 1 == x / 2;
    case 2 => assert x / 2 / 2 == x / 4;
    case 3 => assert x / 2 / 4 == x / 8;
    case 4 => assert x / 2 / 8 == x / 16;
    case 5 => assert x / 2 / 16 == x / 32;
    case 6 => assert x / 2 / 32 == x / 64;
    case _ => assert x / 2 / 64 == x / 128;
  }

  /** data[i/8] |= 1 << i%8 or data[i/8] &= ~(1 << i%8) */
  function PutBit(b: Block, i: nat, v: bool): (r: Block)
    requires i < BPB
  {
    MaskedIsByte(b[i / 8], i % 8);
    b[i / 8 := if v then OrMask(b[i / 8], i % 8) else AndNotMask(b[i / 8], i % 8)]
  }

  lemma MaskedIsByte(x: byte, k: nat)
    requires k < 8
    ensures 0 <= OrMask(x, k) < 256 && 0 <= AndNotMask(x, k) < 256
  {
    assert Mask(8) == 256 by {
      assert Mask(4) == 16;
      assert Mask(8) == 16 * Mask(4);
    }
    if ByteBit(x, k) { SubMask(x, k, 0); } else { AddMask(x, k, 8, 0); }
  }

  /** Marking one block in the bitmap marks no other. */
  lemma BitOfPut(b: Block, i: nat, v: bool, j: nat)
    requires i < BPB && j < BPB
    ensures Bit(PutBit(b, i, v), j) <==> if j == i then v else Bit(b, j)
  {
    hide ByteBit, Mask;
    if j / 8 == i / 8 {
      var x := b[i / 8];
      if ByteBit(x, i % 8) { SubMask(x, i % 8, j % 8); } else { AddMaskByte(x, i % 8, j % 8); }
    }
  }

  lemma AddMaskByte(x: byte, k: nat, j: nat)
    requires k < 8 && !ByteBit(x, k)
    ensures ByteBit(x + Mask(k), j) <==> j == k || ByteBit(x, j)
  {
    assert Mask(8) == 256 by {
      assert Mask(4) == 16;
      assert Mask(8) == 16 * Mask(4);
    }
    AddMask(x, k, 8, j);
  }

  // ---- Disk inodes -----------------------------------------------------------------

  type ushort = x: int | 0 <= x < 0x1_0000

  /** struct dinode, which is also the part of struct inode that lives on disk. */
  datatype Inode = Inode(
    typ: ushort, major: ushort, minor: ushort, nlink: ushort,
    size: uint, addrs: seq<uint>)

  function Words(ino: Inode): (ws: seq<uint>)
    requires |ino.addrs| == NDIRECT + 1
    ensures |ws| == IWORDS
  {
    [ino.typ + 0x1_0000 * ino.major, ino.minor + 0x1_0000 * ino.nlink, ino.size] + ino.addrs
  }

  function Lo(w: uint): ushort { w % 0x1_0000 }
  function Hi(w: uint): ushort { w / 0x1_0000 }

  /** Word i of the k-th inode of an inode block. */
  function InodeWord(b: Block, k: nat, i: nat): uint
    requires k < IPB && i < IWORDS
  {
    Word(b, IWORDS * k + i)
  }

  function InodeAddrs(b: Block, k: nat): (r: seq<uint>)
    requires k < IPB
    ensures |r| == NDIRECT + 1
  {
    seq(NDIRECT + 1, i requires 0 <= i < NDIRECT + 1 => InodeWord(b, k, 3 + i))
  }

  /** The k-th inode of an inode block. */
  function GetInode(b: Block, k: nat): (ino: Inode)
    requires k < IPB
    ensures |ino.addrs| == NDIRECT + 1
  {
    var w0, w1 := InodeWord(b, k, 0), InodeWord(b, k, 1);
    Inode(Lo(w0), Hi(w0), Lo(w1), Hi(w1), InodeWord(b, k, 2), InodeAddrs(b, k))
  }

  /** The k-th inode of a block lies in its bytes from 64 * k on: type, major, minor and nlink in two bytes
      each, size in four, and the addresses in four each. */
  lemma InodeBytes(b: Block, k: nat)
    requires k < IPB
    ensures var ino := GetInode(b, k);
            && ino.typ == Pair(b[64 * k], b[64 * k + 1]) && ino.major == Pair(b[64 * k + 2], b[64 * k + 3])
            && ino.minor == Pair(b[64 * k + 4], b[64 * k + 5]) && ino.nlink == Pair(b[64 * k + 6], b[64 * k + 7])
            && ino.size == Join(b[64 * k + 8], b[64 * k + 9], b[64 * k + 10], b[64 * k + 11])
            && forall j :: 0 <= j <= NDIRECT ==> ino.addrs[j] == Word(b, 16 * k + 3 + j)
  {
    InodeFrontWords(b, k);
    InodeHalves(b, k);
    hide Join, Lo, Hi, Pair, Word, GetInode;
  }

  lemma InodeHalves(b: Block, k: nat)
    requires k < IPB
    ensures var ino := GetInode(b, k);
            && ino.typ == Pair(b[64 * k], b[64 * k + 1]) && ino.major == Pair(b[64 * k + 2], b[64 * k + 3])
            && ino.minor == Pair(b[64 * k + 4], b[64 * k + 5]) && ino.nlink == Pair(b[64 * k + 6], b[64 * k + 7])
            && ino.size == InodeWord(b, k, 2) && ino.addrs == InodeAddrs(b, k)
  {
    InodeFrontWords(b, k);
    HalfWords(b[64 * k], b[64 * k + 1], b[64 * k + 2], b[64 * k + 3]);
    HalfWords(b[64 * k + 4], b[64 * k + 5], b[64 * k + 6], b[64 * k + 7]);
    hide Join, Lo, Hi, Pair, InodeWord, InodeAddrs;
  }

  lemma InodeFrontWords(b: Block, k: nat)
    requires k < IPB
    ensures InodeWord(b, k, 0) == Join(b[64 * k], b[64 * k + 1], b[64 * k + 2], b[64 * k + 3])
    ensures InodeWord(b, k, 1) == Join(b[64 * k + 4], b[64 * k + 5], b[64 * k + 6], b[64 * k + 7])
    ensures InodeWord(b, k, 2) == Join(b[64 * k + 8], b[64 * k + 9], b[64 * k + 10], b[64 * k + 11])
  {
    hide Join;
  }

  function Pair(a: byte, b: byte): ushort { a + 0x100 * b }

  lemma HalfWords(a: byte, b: byte, c: byte, d: byte)
    ensures Lo(Join(a, b, c, d)) == Pair(a, b) && Hi(Join(a, b, c, d)) == Pair(c, d)
  {
    var w: int := Join(a, b, c, d);
    assert w == (a + 0x100 * b) + 0x1_0000 * (c + 0x100 * d);
  }

  function PutWords(b: Block, at: nat, ws: seq<uint>): (r: Block)
    requires at + |ws| <= NINDIRECT
    decreases |ws|
  {
    if |ws| == 0 then b
    else PutWord(PutWords(b, at, ws[..|ws| - 1]), at + |ws| - 1, ws[|ws| - 1])
  }

  lemma {:induction false} WordOfPutWords(b: Block, at: nat, ws: seq<uint>, j: nat)
    requires at + |ws| <= NINDIRECT && j < NINDIRECT
    ensures Word(PutWords(b, at, ws), j) == if at <= j < at + |ws| then ws[j - at] else Word(b, j)
    decreases |ws|
  {
    hide Word, PutWord;
    if |ws| > 0 {
      var ws' := ws[..|ws| - 1];
      WordOfPutWords(b, at, ws', j);
      WordOfPut(PutWords(b, at, ws'), at + |ws'|, ws[|ws'|], j);
    }
  }

  function PutInode(b: Block, k: nat, ino: Inode): (r: Block)
    requires k < IPB && |ino.addrs| == NDIRECT + 1
  {
    PutWords(b, IWORDS * k, Words(ino))
  }

  /** Writing one inode of a block writes it whole and leaves the others alone. */
  lemma InodeOfPut(b: Block, k: nat, ino: Inode, j: nat)
    requires k < IPB && j < IPB && |ino.addrs| == NDIRECT + 1
    ensures GetInode(PutInode(b, k, ino), j) == if j == k then ino else GetInode(b, j)
  {
    hide InodeWord, PutInode;
    var r := PutInode(b, k, ino);
    forall i | 0 <= i < IWORDS
      ensures InodeWord(r, j, i) == if j == k then Words(ino)[i] else InodeWord(b, j, i)
    {
      InodeWordOfPut(b, k, ino, j, i);
    }
    assert InodeWord(r, j, 0) == if j == k then Words(ino)[0] else InodeWord(b, j, 0);
    assert InodeWord(r, j, 1) == if j == k then Words(ino)[1] else InodeWord(b, j, 1);
    assert InodeAddrs(r, j) == if j == k then ino.addrs else InodeAddrs(b, j);
  }

  lemma InodeWordOfPut(b: Block, k: nat, ino: Inode, j: nat, i: nat)
    requires k < IPB && j < IPB && |ino.addrs| == NDIRECT + 1 && i < IWORDS
    ensures InodeWord(PutInode(b, k, ino), j, i) == if j == k then Words(ino)[i] else InodeWord(b, j, i)
  {
    hide Word, PutWords, Words;
    WordOfPutWords(b, IWORDS * k, Words(ino), IWORDS * j + i);
  }
}
