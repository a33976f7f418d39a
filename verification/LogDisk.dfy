/** The on-disk redo log of log.c: the header block, the log slots, the block
    writes of commit and of recovery, and what a crash between any two of those
    writes leaves behind. */
module LogDisk {
  import opened Common

  const LOGSIZE: nat := MAXOPBLOCKS * 3
  // Words in a block: BSIZE / sizeof(int).
  const WORDS: nat := 128

  type Block = b: seq<int> | |b| == WORDS witness seq(WORDS, _ => 0)
  type Disk = seq<Block>

  /** Where the log lives: the header is block `start`, slot t is block
      `start + 1 + t`, and the log occupies `size` blocks in all. */
  datatype Layout = Layout(start: nat, size: nat) {

    predicate InLog(b: int) {
      start <= b < start + size
    }

    predicate Fits(d: Disk) {
      size >= 1 && start + size <= |d|
    }

    /** A list of home block numbers that commit can log. */
    predicate Loggable(d: Disk, lh: seq<int>) {
      && |lh| <= LOGSIZE
      && |lh| <= size - 1
      && forall i :: 0 <= i < |lh| ==> 0 <= lh[i] < |d| && !InLog(lh[i])
    }

    /** The header block names at most as many blocks as there are slots, and
        every block it names is a home block. */
    predicate HeaderOk(d: Disk)
      requires Fits(d)
    {
      && 0 <= d[start][0] <= LOGSIZE
      && Loggable(d, Header(d[start]))
    }
  }

  /** The block numbers a header block names: word 0 counts them. */
  function Header(h: Block): seq<int>
    requires 0 <= h[0] <= LOGSIZE
  {
    h[1..1 + h[0]]
  }

  /** write_head overwrites the count and the first n entries, and leaves the
      rest of the block as it was. */
  function WithHeader(h: Block, lh: seq<int>): (r: Block)
    requires |lh| <= LOGSIZE
    ensures r[0] == |lh| && Header(r) == lh
  {
    [|lh|] + lh + h[1 + |lh|..]
  }

  // ---- Install and recovery as functions of the disk -----------------------

  /** The disk after the first k iterations of install_trans. */
  function Installed(l: Layout, d: Disk, lh: seq<int>, k: nat): (r: Disk)
    requires l.Fits(d) && l.Loggable(d, lh) && k <= |lh|
    ensures |r| == |d|
  {
    if k == 0 then d
    else
      var p := Installed(l, d, lh, k - 1);
      p[lh[k - 1] := p[l.start + k]]
  }

  function Cleared(l: Layout, d: Disk): (r: Disk)
    requires l.Fits(d)
    ensures |r| == |d|
  {
    d[l.start := WithHeader(d[l.start], [])]
  }

  /** The disk a completed recover_from_log leaves. */
  function Recovered(l: Layout, d: Disk): (r: Disk)
    requires l.Fits(d) && l.HeaderOk(d)
    ensures |r| == |d|
  {
    var lh := Header(d[l.start]);
    Cleared(l, Installed(l, d, lh, |lh|))
  }

  /** The disks recover_from_log passes through, one per block write: a crash
      during recovery leaves one of them. */
  function RecoveryTrace(l: Layout, d: Disk): (t: seq<Disk>)
    requires l.Fits(d) && l.HeaderOk(d)
    ensures |t| == |Header(d[l.start])| + 2
  {
    var lh := Header(d[l.start]);
    seq(|lh| + 2, k requires 0 <= k < |lh| + 2 =>
      if k <= |lh| then Installed(l, d, lh, k) else Recovered(l, d))
  }

  // ---- Commit as a function of the disk and the cache ------------------------

  /** The disk after the first k iterations of write_log; `view` is what the
      buffer cache holds for each block. */
  function Logged(l: Layout, d: Disk, lh: seq<int>, view: Disk, k: nat): (r: Disk)
    requires l.Fits(d) && l.Loggable(d, lh) && |view| == |d| && k <= |lh|
    ensures |r| == |d|
  {
    if k == 0 then d
    else Logged(l, d, lh, view, k - 1)[l.start + k := view[lh[k - 1]]]
  }

  lemma LoggedNone(l: Layout, d: Disk, lh: seq<int>, view: Disk)
    requires l.Fits(d) && l.Loggable(d, lh) && |view| == |d|
    ensures Logged(l, d, lh, view, 0) == d && |LogTrace(l, d, lh, view)| == |lh| && LogTrace(l, d, lh, view)[..0] == []
  {
  }

  lemma LoggedNext(l: Layout, d: Disk, lh: seq<int>, view: Disk, k: nat)
    requires l.Fits(d) && l.Loggable(d, lh) && |view| == |d| && k < |lh|
    ensures l.start + k + 1 < |d| && 0 <= lh[k] < |d|
    ensures Logged(l, d, lh, view, k + 1) == Logged(l, d, lh, view, k)[l.start + k + 1 := view[lh[k]]]
    ensures |LogTrace(l, d, lh, view)| == |lh|
    ensures LogTrace(l, d, lh, view)[..k + 1] == LogTrace(l, d, lh, view)[..k] + [Logged(l, d, lh, view, k + 1)]
  {
  }

  /** The disk once the header write of commit has reached it. */
  function Headed(l: Layout, d: Disk, lh: seq<int>, view: Disk): (r: Disk)
    requires l.Fits(d) && l.Loggable(d, lh) && |view| == |d|
    ensures |r| == |d|
  {
    var p := Logged(l, d, lh, view, |lh|);
    p[l.start := WithHeader(p[l.start], lh)]
  }

  /** The disk after the k-th block write of commit. */
  function CommitPoint(l: Layout, d: Disk, lh: seq<int>, view: Disk, k: nat): (r: Disk)
    requires l.Fits(d) && l.Loggable(d, lh) && |view| == |d| && k <= 2 * |lh| + 2
    ensures |r| == |d|
  {
    if k <= |lh| then Logged(l, d, lh, view, k)
    else
      var h := Headed(l, d, lh, view);
      if k <= 2 * |lh| + 1 then Installed(l, h, lh, k - |lh| - 1)
      else Cleared(l, Installed(l, h, lh, |lh|))
  }

  function InstallTrace(l: Layout, d: Disk, lh: seq<int>): (t: seq<Disk>)
    requires l.Fits(d) && l.Loggable(d, lh)
  {
    seq(|lh|, k requires 0 <= k < |lh| => Installed(l, d, lh, k + 1))
  }

  function LogTrace(l: Layout, d: Disk, lh: seq<int>, view: Disk): (t: seq<Disk>)
    requires l.Fits(d) && l.Loggable(d, lh) && |view| == |d|
  {
    seq(|lh|, k requires 0 <= k < |lh| => Logged(l, d, lh, view, k + 1))
  }

  /** The disks commit passes through, one per block write: log slots, header,
      home blocks, empty header. */
  function CommitTrace(l: Layout, d: Disk, lh: seq<int>, view: Disk): (t: seq<Disk>)
    requires l.Fits(d) && l.Loggable(d, lh) && |view| == |d|
    ensures |t| == 2 * |lh| + 3
  {
    var h := Headed(l, d, lh, view);
    [d] + LogTrace(l, d, lh, view) + [h] + InstallTrace(l, h, lh)
        + [Cleared(l, Installed(l, h, lh, |lh|))]
  }

  /** The two disks agree outside the log. */
  ghost predicate SameHome(l: Layout, d: Disk, e: Disk) {
    && |d| == |e|
    && forall b :: 0 <= b < |d| && !l.InLog(b) ==> d[b] == e[b]
  }

  /** The home blocks of `d` with the logged blocks replaced by the cached ones:
      what the transaction means. */
  function Applied(d: Disk, lh: seq<int>, view: Disk): (r: Disk)
    requires |view| == |d|
    ensures |r| == |d|
    ensures forall b :: 0 <= b < |d| ==> r[b] == (if b in lh then view[b] else d[b])
  {
    seq(|d|, b requires 0 <= b < |d| => if b in lh then view[b] else d[b])
  }

  lemma CommitTraceAt(l: Layout, d: Disk, lh: seq<int>, view: Disk, k: nat)
    requires l.Fits(d) && l.Loggable(d, lh) && |view| == |d| && k <= 2 * |lh| + 2
    ensures CommitTrace(l, d, lh, view)[k] == CommitPoint(l, d, lh, view, k)
  {
    hide WithHeader, Header;
    var n := |lh|;
    if k == 0 {
    } else if k <= n {
    } else if k == n + 1 {
    } else if k <= 2 * n + 1 {
    } else {
    }
  }

  lemma RecoveryTraceParts(l: Layout, d: Disk)
    requires l.Fits(d) && l.HeaderOk(d)
    ensures RecoveryTrace(l, d) == [d] + InstallTrace(l, d, Header(d[l.start])) + [Recovered(l, d)]
  {
  }

  // ---- Lemmas ---------------------------------------------------------------

  /** The last of the first k entries that names block b, or -1. */
  function Last(lh: seq<int>, k: nat, b: int): (i: int)
    requires k <= |lh|
    ensures -1 <= i < k
    ensures i >= 0 ==> lh[i] == b
    ensures i == -1 <==> b !in lh[..k]
  {
    if k == 0 then -1 else if lh[k - 1] == b then k - 1 else Last(lh, k - 1, b)
  }

  /** Installing reads only log blocks and writes only home blocks, so every
      block ends up as the last entry naming it says. */
  lemma {:induction false} InstalledAt(l: Layout, d: Disk, lh: seq<int>, k: nat, b: nat)
    requires l.Fits(d) && l.Loggable(d, lh) && k <= |lh| && b < |d|
    ensures Installed(l, d, lh, k)[b]
         == var i := Last(lh, k, b); if i >= 0 then d[l.start + 1 + i] else d[b]
  {
    if k > 0 {
      InstalledAt(l, d, lh, k - 1, b);
      InstalledAt(l, d, lh, k - 1, l.start + k);
    }
  }

  lemma {:induction false} LoggedAt(l: Layout, d: Disk, lh: seq<int>, view: Disk, k: nat, b: nat)
    requires l.Fits(d) && l.Loggable(d, lh) && |view| == |d| && k <= |lh| && b < |d|
    ensures Logged(l, d, lh, view, k)[b]
         == if l.start + 1 <= b <= l.start + k then view[lh[b - l.start - 1]] else d[b]
  {
    if k > 0 {
      LoggedAt(l, d, lh, view, k - 1, b);
    }
  }

  /** Installing again after a partial install gives what one full install gives. */
  lemma {:induction false} InstallAgain(l: Layout, d: Disk, lh: seq<int>, k: nat)
    requires l.Fits(d) && l.Loggable(d, lh) && k <= |lh|
    ensures Installed(l, Installed(l, d, lh, k), lh, |lh|) == Installed(l, d, lh, |lh|)
    ensures Installed(l, d, lh, k)[l.start] == d[l.start]
  {
    var p := Installed(l, d, lh, k);
    var full := Installed(l, d, lh, |lh|);
    InstalledAt(l, d, lh, k, l.start);
    forall b | 0 <= b < |d|
      ensures Installed(l, p, lh, |lh|)[b] == full[b]
    {
      InstalledAt(l, p, lh, |lh|, b);
      InstalledAt(l, d, lh, |lh|, b);
      InstalledAt(l, d, lh, k, b);
      var i := Last(lh, |lh|, b);
      if i >= 0 { InstalledAt(l, d, lh, k, l.start + 1 + i); }
    }
  }

  lemma RecoveredKeepsClear(l: Layout, d: Disk)
    requires l.Fits(d) && d[l.start][0] == 0
    ensures l.HeaderOk(d)
    ensures Recovered(l, d) == d
  {
    assert WithHeader(d[l.start], []) == d[l.start];
    assert Recovered(l, d) == d;
  }

  /** However many times recovery is cut short, and wherever, the disk a
      completed recovery leaves is the one the first recovery would have left. */
  lemma RecoveryIdempotent(l: Layout, d: Disk, k: nat)
    requires l.Fits(d) && l.HeaderOk(d) && k < |RecoveryTrace(l, d)|
    ensures var c := RecoveryTrace(l, d)[k];
            |c| == |d| && l.HeaderOk(c) && Recovered(l, c) == Recovered(l, d)
  {
    var lh := Header(d[l.start]);
    if k <= |lh| {
      InstallAgain(l, d, lh, k);
    } else {
      RecoveredKeepsClear(l, Recovered(l, d));
    }
  }

  /** Each disk is a crash point of the recovery of the one before it. */
  ghost predicate CrashChain(l: Layout, ds: seq<Disk>) {
    && (forall i :: 0 <= i < |ds| ==> l.Fits(ds[i]) && l.HeaderOk(ds[i]))
    && (forall i :: 0 < i < |ds| ==> CrashPoint(l, ds[i - 1], ds[i]))
  }

  ghost predicate CrashPoint(l: Layout, d: Disk, c: Disk)
    requires l.Fits(d) && l.HeaderOk(d)
  {
    c in RecoveryTrace(l, d)
  }

  /** Any number of crashes during recovery: every disk of the chain still
      recovers to what the first one recovers to. */
  lemma {:induction false} RepeatedCrashes(l: Layout, ds: seq<Disk>, m: nat)
    requires CrashChain(l, ds) && m < |ds|
    ensures Recovered(l, ds[m]) == Recovered(l, ds[0])
  {
    if m > 0 {
      RepeatedCrashes(l, ds, m - 1);
      assert CrashPoint(l, ds[m - 1], ds[m]);
      CrashPointRecovers(l, ds[m - 1], ds[m]);
    }
  }

  lemma CrashPointRecovers(l: Layout, d: Disk, c: Disk)
    requires l.Fits(d) && l.HeaderOk(d) && CrashPoint(l, d, c)
    ensures |c| == |d| && l.HeaderOk(c) && Recovered(l, c) == Recovered(l, d)
  {
    var k :| 0 <= k < |RecoveryTrace(l, d)| && RecoveryTrace(l, d)[k] == c;
    RecoveryIdempotent(l, d, k);
  }

  /** After the header write, recovery installs exactly the transaction. */
  lemma InstalledHeaded(l: Layout, d: Disk, lh: seq<int>, view: Disk)
    requires l.Fits(d) && l.Loggable(d, lh) && |view| == |d|
    ensures l.HeaderOk(Headed(l, d, lh, view))
    ensures SameHome(l, Recovered(l, Headed(l, d, lh, view)), Applied(d, lh, view))
  {
    hide WithHeader, Header;
    forall b | 0 <= b < |d| && !l.InLog(b)
      ensures Recovered(l, Headed(l, d, lh, view))[b] == Applied(d, lh, view)[b]
    {
      InstalledHeadedAt(l, d, lh, view, b);
    }
  }

  lemma InstalledHeadedAt(l: Layout, d: Disk, lh: seq<int>, view: Disk, b: nat)
    requires l.Fits(d) && l.Loggable(d, lh) && |view| == |d|
    requires b < |d| && !l.InLog(b)
    ensures Installed(l, Headed(l, d, lh, view), lh, |lh|)[b] == Applied(d, lh, view)[b]
  {
    hide WithHeader, Header, Installed, Logged;
    var n := |lh|;
    InstalledAt(l, Headed(l, d, lh, view), lh, n, b);
    LoggedAt(l, d, lh, view, n, b);
    assert lh[..n] == lh;
    var i := Last(lh, n, b);
    if i >= 0 {
      LoggedAt(l, d, lh, view, n, l.start + 1 + i);
    }
  }

  /** Crash atomicity of commit: cut after its k-th block write, recovery leaves
      the home blocks exactly as before the transaction when the header write is
      not among those k, and exactly as after it when it is. */
  lemma CommitAtomic(l: Layout, d: Disk, lh: seq<int>, view: Disk, k: nat)
    requires l.Fits(d) && d[l.start][0] == 0
    requires l.Loggable(d, lh) && |view| == |d| && k < |CommitTrace(l, d, lh, view)|
    ensures var c := CommitTrace(l, d, lh, view)[k];
            && c == CommitPoint(l, d, lh, view, k)
            && |c| == |d| && l.HeaderOk(c)
            && SameHome(l, Recovered(l, c), if k <= |lh| then d else Applied(d, lh, view))
  {
    hide Installed, Logged;
    var c := CommitPoint(l, d, lh, view, k);
    CommitTraceAt(l, d, lh, view, k);
    if k <= |lh| {
      LoggedAt(l, d, lh, view, k, l.start);
      RecoveredKeepsClear(l, c);
      forall b | 0 <= b < |d| && !l.InLog(b) ensures c[b] == d[b] {
        LoggedAt(l, d, lh, view, k, b);
      }
    } else {
      var h := Headed(l, d, lh, view);
      InstalledHeaded(l, d, lh, view);
      assert Header(h[l.start]) == lh;
      assert c == RecoveryTrace(l, h)[k - |lh| - 1];
      RecoveryIdempotent(l, h, k - |lh| - 1);
    }
  }

  /** A commit that runs to its end leaves an empty log and the new home blocks
      in place, without any recovery. */
  lemma CommitCompletes(l: Layout, d: Disk, lh: seq<int>, view: Disk)
    requires l.Fits(d) && l.Loggable(d, lh) && |view| == |d|
    ensures var e := CommitPoint(l, d, lh, view, 2 * |lh| + 2);
            |e| == |d| && e[l.start][0] == 0 && SameHome(l, e, Applied(d, lh, view))
  {
    InstalledHeaded(l, d, lh, view);
  }

  lemma CommitEnd(l: Layout, d: Disk, lh: seq<int>, view: Disk)
    requires l.Fits(d) && l.Loggable(d, lh) && |view| == |d|
    requires forall b :: 0 <= b < |d| && b !in lh ==> view[b] == d[b]
    ensures var h := Headed(l, d, lh, view);
            var e := Cleared(l, Installed(l, h, lh, |lh|));
            var t := CommitTrace(l, d, lh, view);
            && t[1..] == LogTrace(l, d, lh, view) + [h] + InstallTrace(l, h, lh) + [e]
            && t[|t| - 1] == e
            && e[l.start][0] == 0 && SameHome(l, e, view)
  {
    hide Installed, Logged, Headed, Cleared, WithHeader, Header;
    CommitCompletes(l, d, lh, view);
  }
}
