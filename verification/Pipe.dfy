/** pipe.c: the ring buffer with wrapping 32-bit counters and its copy loops. */
module Pipe {
  import opened Common

  const PIPESIZE: nat := 512

  // ---- The ring ---------------------------------------------------------------------

  datatype Ring = Ring(data: seq<byte>, nread: uint, nwrite: uint)

  predicate Full(g: Ring) { g.nwrite == (g.nread + PIPESIZE) % U32 }
  predicate Empty(g: Ring) { g.nread == g.nwrite }

  /** data[nwrite++ % PIPESIZE] = c */
  function Put(g: Ring, c: byte): Ring
    requires |g.data| == PIPESIZE
  {
    Ring(g.data[g.nwrite % PIPESIZE := c], g.nread, (g.nwrite + 1) % U32)
  }

  /** data[nread++ % PIPESIZE] */
  function Oldest(g: Ring): byte
    requires |g.data| == PIPESIZE
  {
    g.data[g.nread % PIPESIZE]
  }

  function Got(g: Ring): Ring {
    g.(nread := (g.nread + 1) % U32)
  }

  /** `accepted` went in and `returned` came out so far. */
  ghost predicate Holds(g: Ring, accepted: seq<byte>, returned: seq<byte>) {
    && |g.data| == PIPESIZE
    && returned <= accepted && |accepted| - |returned| <= PIPESIZE
    && g.nread == |returned| % U32 && g.nwrite == |accepted| % U32
    && forall k :: |returned| <= k < |accepted| ==> g.data[k % PIPESIZE] == accepted[k]
  }

  /** The buffered bytes, oldest first. */
  ghost function Buffered(g: Ring): (b: seq<byte>)
    requires |g.data| == PIPESIZE
  {
    seq((g.nwrite - g.nread) % U32, k requires k >= 0 => g.data[(g.nread + k) % PIPESIZE])
  }

  /** Differences of at most PIPESIZE survive the wrap-around of the counters. */
  lemma Wrapped(r: nat, d: nat)
    requires d <= PIPESIZE
    ensures ((r + d) % U32 - r % U32) % U32 == d
    ensures r % U32 == (r + d) % U32 <==> d == 0
    ensures (r + d) % U32 == (r % U32 + PIPESIZE) % U32 <==> d == PIPESIZE
  {
    var m := r % U32;
    assert (r + d) % U32 == if m + d < U32 then m + d else m + d - U32;
  }

  lemma SlotOf(n: nat)
    ensures n % U32 % PIPESIZE == n % PIPESIZE
  {
    var q := n / U32;
    assert n == q * U32 + n % U32;
    assert U32 == 0x80_0000 * PIPESIZE;
    assert n % PIPESIZE == n % U32 % PIPESIZE;
  }

  lemma Tests(g: Ring, accepted: seq<byte>, returned: seq<byte>)
    requires Holds(g, accepted, returned)
    ensures Full(g) <==> |accepted| == |returned| + PIPESIZE
    ensures Empty(g) <==> |accepted| == |returned|
    ensures (g.nwrite - g.nread) % U32 == |accepted| - |returned|
    ensures g.nread % PIPESIZE == |returned| % PIPESIZE && g.nwrite % PIPESIZE == |accepted| % PIPESIZE
  {
    Wrapped(|returned|, |accepted| - |returned|);
    SlotOf(|returned|);
    SlotOf(|accepted|);
  }

  /** What came out followed by what is buffered is what went in. */
  lemma Fifo(g: Ring, accepted: seq<byte>, returned: seq<byte>)
    requires Holds(g, accepted, returned)
    ensures returned + Buffered(g) == accepted && |Buffered(g)| <= PIPESIZE
  {
    Tests(g, accepted, returned);
    var b := Buffered(g);
    forall k | 0 <= k < |b| ensures b[k] == accepted[|returned| + k] {
      SlotAhead(g.nread, |returned|, k);
    }
  }

  lemma SlotAhead(m: nat, r: nat, k: nat)
    requires m % PIPESIZE == r % PIPESIZE
    ensures (m + k) % PIPESIZE == (r + k) % PIPESIZE
  {
    Around(m, k);
    Around(r, k);
  }

  lemma Around(m: nat, k: nat)
    ensures (m + k) % PIPESIZE == (m % PIPESIZE + k) % PIPESIZE
  {
    assert m == PIPESIZE * (m / PIPESIZE) + m % PIPESIZE;
  }

  lemma PutHolds(g: Ring, accepted: seq<byte>, returned: seq<byte>, c: byte)
    requires Holds(g, accepted, returned) && !Full(g)
    ensures Holds(Put(g, c), accepted + [c], returned)
  {
    Tests(g, accepted, returned);
    var a := |accepted|;
    forall k | |returned| <= k < a ensures k % PIPESIZE != a % PIPESIZE {
      Apart(k, a);
    }
    NextCount(a);
  }

  lemma Apart(k: nat, a: nat)
    requires k < a < k + PIPESIZE
    ensures k % PIPESIZE != a % PIPESIZE
  {
  }

  lemma NextCount(n: nat)
    ensures (n % U32 + 1) % U32 == (n + 1) % U32
  {
  }

  lemma GotHolds(g: Ring, accepted: seq<byte>, returned: seq<byte>)
    requires Holds(g, accepted, returned) && !Empty(g)
    ensures Holds(Got(g), accepted, returned + [Oldest(g)])
  {
    Tests(g, accepted, returned);
    NextCount(|returned|);
  }

  // ---- The copy loops ----------------------------------------------------------------

  /** The buffer as the kernel keeps it, updated under the pipe's lock. */
  class Pipe {
    var data: array<byte>
    var nread: uint
    var nwrite: uint
    ghost var accepted: seq<byte>
    ghost var returned: seq<byte>

    ghost predicate Valid()
      reads this, data
    {
      Holds(Now(), accepted, returned)
    }

    function Now(): Ring
      reads this, data
    {
      Ring(data[..], nread, nwrite)
    }

    constructor ()
      ensures Valid() && accepted == [] && returned == [] && fresh(data)
    {
      data := new byte[PIPESIZE](_ => 0);
      nread, nwrite := 0, 0;
      accepted, returned := [], [];
    }

    /** The iterations of pipewrite's loop from index i up to the next sleep or the end:
        it stops early only at a full buffer. */
    method Write(addr: seq<byte>, i: nat) returns (j: nat)
      requires Valid() && i <= |addr|
      modifies this`nwrite, this`accepted, data
      ensures Valid() && i <= j <= |addr|
      ensures j < |addr| ==> Full(Now())
      ensures accepted == old(accepted) + addr[i..j]
    {
      j := i;
      while j < |addr| && nwrite != (nread + PIPESIZE) % U32
        invariant Valid() && i <= j <= |addr|
        invariant accepted == old(accepted) + addr[i..j]
      {
        PutHolds(Now(), accepted, returned, addr[j]);
        ghost var was := Now();
        data[nwrite % PIPESIZE] := addr[j];
        nwrite := (nwrite + 1) % U32;
        assert Now() == Put(was, addr[j]);
        accepted := accepted + [addr[j]];
        j := j + 1;
      }
    }

    /** piperead's copy loop: the oldest n buffered bytes, or all of them if there are fewer. */
    method Read(n: nat) returns (got: seq<byte>)
      requires Valid()
      modifies this`nread, this`returned
      ensures Valid() && returned == old(returned) + got
      ensures |got| <= n && (|got| < n ==> Empty(Now()))
      ensures got + Buffered(Now()) == old(Buffered(Now()))
    {
      hide Buffered;
      ghost var before := Now();
      Fifo(before, accepted, returned);
      got := [];
      while |got| < n && nread != nwrite
        invariant Valid() && |got| <= n && data[..] == before.data && nwrite == before.nwrite
        invariant returned == old(returned) + got
      {
        GotHolds(Now(), accepted, returned);
        ghost var was := Now();
        var c := data[nread % PIPESIZE];
        nread := (nread + 1) % U32;
        assert Now() == Got(was) && c == Oldest(was);
        got := got + [c];
        returned := returned + [c];
      }
      Fifo(Now(), accepted, returned);
      Parts(old(returned), got, Buffered(Now()), Buffered(before));
    }
  }

  lemma Parts(a: seq<byte>, b: seq<byte>, c: seq<byte>, d: seq<byte>)
    requires a + b + c == a + d
    ensures b + c == d
  {
    assert (a + b + c)[|a|..] == b + c;
    assert (a + d)[|a|..] == d;
  }
}
