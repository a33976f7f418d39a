/** The log under the file system: a crash at any point leaves a whole file system, with the files
    of the last commit. */
module CrashSafety {
  import opened Common
  import opened FsCodec
  import opened FsState
  import opened FsFile
  import LD = LogDisk
  import GC = GroupCommit

  // ---- Blocks of words and blocks of bytes --------------------------------------------------

  /** Byte k of a little-endian word. */
  function ByteOf(w: uint, k: nat): byte {
    if k == 0 then w % 0x100
    else if k == 1 then w / 0x100 % 0x100
    else if k == 2 then w / 0x1_0000 % 0x100
    else w / 0x100_0000
  }

  /** A block as the log has it, in words, as bytes. */
  function Bytes(w: LD.Block): Block {
    seq(BSIZE, k requires 0 <= k < BSIZE => ByteOf(w[k / 4] % U32, k % 4))
  }

  function Words(b: Block): LD.Block {
    seq(LD.WORDS, i requires 0 <= i < LD.WORDS => Word(b, i))
  }

  lemma JoinBytes(a: byte, b: byte, c: byte, d: byte, k: nat)
    requires k < 4
    ensures ByteOf(Join(a, b, c, d), k) == if k == 0 then a else if k == 1 then b else if k == 2 then c else d
  {
    var w := Join(a, b, c, d);
    assert w == a + 0x100 * (b + 0x100 * (c + 0x100 * d));
    assert w / 0x100 == b + 0x100 * (c + 0x100 * d);
    assert w / 0x1_0000 == w / 0x100 / 0x100 == c + 0x100 * d;
    assert w / 0x100_0000 == w / 0x1_0000 / 0x100 == d;
  }

  /** Every block of bytes is the bytes of a block of words. */
  lemma BytesOfWords(b: Block)
    ensures Bytes(Words(b)) == b
  {
    hide ByteOf, Join;
    forall k | 0 <= k < BSIZE ensures Bytes(Words(b))[k] == b[k] {
      var i := k / 4;
      JoinBytes(b[4 * i], b[4 * i + 1], b[4 * i + 2], b[4 * i + 3], k % 4);
      assert k == 4 * i + k % 4;
    }
  }

  lemma ByteAt(w: LD.Block, i: nat, m: nat)
    requires i < LD.WORDS && m < 4 && 0 <= w[i] < U32
    ensures Bytes(w)[4 * i + m] == ByteOf(w[i], m)
  {
    hide ByteOf;
    assert (4 * i + m) / 4 == i && (4 * i + m) % 4 == m;
  }

  lemma WordsOfBytes(w: LD.Block)
    requires forall i :: 0 <= i < |w| ==> 0 <= w[i] < U32
    ensures Words(Bytes(w)) == w
  {
    hide Join, Bytes;
    forall i | 0 <= i < LD.WORDS ensures Words(Bytes(w))[i] == w[i] {
      JoinSplit(w[i]);
      ByteAt(w, i, 0);
      ByteAt(w, i, 1);
      ByteAt(w, i, 2);
      ByteAt(w, i, 3);
    }
  }

  function Blocks(d: LD.Disk): (r: seq<Block>)
    ensures |r| == |d|
  {
    seq(|d|, k requires 0 <= k < |d| => Bytes(d[k]))
  }

  // ---- What a crash leaves of the files ------------------------------------------------------

  /** The log lies before the inodes. */
  predicate Placed(sb: Super, l: LD.Layout) {
    l.start + l.size <= sb.inodestart
  }

  /** Disk e has the files of disk d: the same inodes, blocks and bytes. */
  ghost predicate SameFilesOn(sb: Super, d: LD.Disk, e: LD.Disk) {
    forall inodes, owner :: WholeOn(sb, d, inodes, owner) ==>
      && WholeOn(sb, e, inodes, owner)
      && forall i :: 0 <= i < |inodes| ==>
           Content(State(Blocks(e), inodes, owner), i) == Content(State(Blocks(d), inodes, owner), i)
  }

  ghost predicate WholeOn(sb: Super, d: LD.Disk, inodes: seq<Inode>, owner: map<nat, Slot>) {
    Whole(sb, State(Blocks(d), inodes, owner))
  }

  /** The disk holds a file system. */
  ghost predicate WholeDisk(sb: Super, d: LD.Disk) {
    exists inodes, owner :: WholeOn(sb, d, inodes, owner)
  }

  lemma HomeFiles(sb: Super, l: LD.Layout, d: LD.Disk, e: LD.Disk)
    requires Placed(sb, l) && LD.SameHome(l, d, e)
    ensures SameFilesOn(sb, d, e)
  {
    hide Inv, NoHoles, OnDisk, Content, Bytes;
    forall inodes, owner | WholeOn(sb, d, inodes, owner)
      ensures WholeOn(sb, e, inodes, owner)
      ensures forall i :: 0 <= i < |inodes| ==>
                Content(State(Blocks(e), inodes, owner), i) == Content(State(Blocks(d), inodes, owner), i)
    {
      WholeFrame(sb, State(Blocks(d), inodes, owner), State(Blocks(e), inodes, owner));
    }
  }

  lemma FilesWhole(sb: Super, d: LD.Disk, e: LD.Disk)
    requires SameFilesOn(sb, d, e) && WholeDisk(sb, d)
    ensures WholeDisk(sb, e)
  {
    hide WholeOn;
    var inodes, owner :| WholeOn(sb, d, inodes, owner);
    assert WholeOn(sb, e, inodes, owner);
  }

  /** In every run, what a crash would recover has exactly the files that operations saw when the
      last commit took place. */
  lemma CrashKeepsFiles(sb: Super, l: LD.Layout, ss: seq<GC.State>, steps: seq<GC.Step>, i: nat) returns (j: nat)
    requires Placed(sb, l) && GC.Run(l, ss, steps) && GC.WithinLog(l, ss) && i < |ss|
    ensures GC.LastCommit(ss, steps, j, i) && ss[j].outstanding == 0
    ensures GC.Storage(l, ss[i]) && GC.Storage(l, ss[j])
    ensures SameFilesOn(sb, GC.Seen(l, ss[j]), GC.Durable(l, ss[i]))
  {
    hide GC.Storage, GC.Seen, GC.Durable, GC.Run, GC.WithinLog, SameFilesOn, LD.SameHome;
    j := GC.DurableIsQuiescent(l, ss, steps, i);
    SymHome(l, GC.Durable(l, ss[i]), GC.Seen(l, ss[j]));
    HomeFiles(sb, l, GC.Seen(l, ss[j]), GC.Durable(l, ss[i]));
  }

  lemma SymHome(l: LD.Layout, d: LD.Disk, e: LD.Disk)
    requires LD.SameHome(l, d, e)
    ensures LD.SameHome(l, e, d)
  {
  }

  // ---- Whole file systems ----------------------------------------------------------------------

  /** The operations of every stretch without a crash, from one moment without operations to another,
      leave a file system where they found one. */
  ghost predicate OpsKeep(sb: Super, l: LD.Layout, ss: seq<GC.State>, steps: seq<GC.Step>)
    requires |ss| == |steps| + 1
  {
    forall a, b :: 0 <= a <= b < |ss| && NoCrash(steps, a, b) && Quiet(l, ss[a]) && Quiet(l, ss[b]) ==>
      (WholeDisk(sb, GC.Seen(l, ss[a])) ==> WholeDisk(sb, GC.Seen(l, ss[b])))
  }

  ghost predicate Quiet(l: LD.Layout, s: GC.State) {
    GC.Storage(l, s) && s.outstanding == 0
  }

  predicate NoCrash(steps: seq<GC.Step>, a: nat, b: nat)
    requires b <= |steps|
  {
    forall k :: a <= k < b ==> !steps[k].Crash?
  }

  /** Where the stretch without a crash that ends at b began. */
  lemma {:induction false} LastCrash(steps: seq<GC.Step>, b: nat) returns (a: nat)
    requires b <= |steps|
    ensures a <= b && NoCrash(steps, a, b) && (a == 0 || steps[a - 1].Crash?)
  {
    if b == 0 || steps[b - 1].Crash? {
      a := b;
    } else {
      a := LastCrash(steps, b - 1);
    }
  }

  /** A crash makes seen what was durable. */
  lemma AfterCrash(l: LD.Layout, ss: seq<GC.State>, steps: seq<GC.Step>, c: nat)
    requires GC.Run(l, ss, steps) && GC.WithinLog(l, ss) && c < |steps| && steps[c].Crash? && GC.Storage(l, ss[c])
    ensures Quiet(l, ss[c + 1]) && LD.SameHome(l, GC.Durable(l, ss[c]), GC.Seen(l, ss[c + 1]))
  {
    hide GC.Storage, GC.Seen, GC.Durable, GC.Protocol, LD.SameHome;
    GC.ProtocolHolds(l, ss, steps, c);
    GC.StorageStep(l, ss[c], ss[c + 1], steps[c]);
    SymHome(l, GC.Seen(l, ss[c + 1]), GC.Durable(l, ss[c]));
  }

  /** In every run that begins with a file system and whose operations keep it, a crash at any
      point, also during commit or recovery, recovers to a file system. */
  lemma {:induction false} CrashKeepsWhole(sb: Super, l: LD.Layout, ss: seq<GC.State>, steps: seq<GC.Step>, i: nat)
    requires Placed(sb, l) && GC.Run(l, ss, steps) && GC.WithinLog(l, ss) && i < |ss|
    requires WholeDisk(sb, ss[0].disk) && OpsKeep(sb, l, ss, steps)
    ensures GC.Storage(l, ss[i]) && WholeDisk(sb, GC.Durable(l, ss[i]))
    decreases i, 1
  {
    hide GC.Storage, GC.Seen, GC.Durable, GC.Run, GC.WithinLog, SameFilesOn, WholeDisk, OpsKeep;
    var j := CrashKeepsFiles(sb, l, ss, steps, i);
    SeenWhole(sb, l, ss, steps, j);
    FilesWhole(sb, GC.Seen(l, ss[j]), GC.Durable(l, ss[i]));
  }

  lemma {:induction false} SeenWhole(sb: Super, l: LD.Layout, ss: seq<GC.State>, steps: seq<GC.Step>, b: nat)
    requires Placed(sb, l) && GC.Run(l, ss, steps) && GC.WithinLog(l, ss) && b < |ss| && Quiet(l, ss[b])
    requires WholeDisk(sb, ss[0].disk) && OpsKeep(sb, l, ss, steps)
    ensures WholeDisk(sb, GC.Seen(l, ss[b]))
    decreases b, 0
  {
    hide GC.Storage, GC.Seen, GC.Durable, GC.WithinLog, GC.Next, SameFilesOn, WholeDisk, NoCrash, LD.SameHome;
    var a := LastCrash(steps, b);
    if a == 0 {
      StartSeen(l, ss, steps);
    } else {
      CrashKeepsWhole(sb, l, ss, steps, a - 1);
      AfterCrash(l, ss, steps, a - 1);
      HomeFiles(sb, l, GC.Durable(l, ss[a - 1]), GC.Seen(l, ss[a]));
      FilesWhole(sb, GC.Durable(l, ss[a - 1]), GC.Seen(l, ss[a]));
    }
    assert Quiet(l, ss[a]);
  }

  lemma StartSeen(l: LD.Layout, ss: seq<GC.State>, steps: seq<GC.Step>)
    requires GC.Run(l, ss, steps)
    ensures Quiet(l, ss[0]) && GC.Seen(l, ss[0]) == ss[0].disk
  {
    hide GC.Next;
    GC.InitStores(l, ss[0]);
  }
}
