/** bio.c: binit, bget and brelse on the linked list of buffers, under bcache.lock. */
module Bcache {
  import opened Common
  import opened BufRing
  import opened Bio

  class Cache {
    var bufs: seq<Buf>
    var next: seq<nat>
    var prev: seq<nat>
    const head: nat              // the list head's place, after the buffers
    ghost var mru: seq<nat>

    ghost predicate Valid()
      reads this
    {
      && head == |bufs| && |next| == head + 1 && Ring(next, prev, head, mru)
      && forall b: nat :: b < |bufs| ==> b in mru
    }

    /** binit: each buffer is put first in turn. */
    constructor (nbuf: nat)
      ensures Valid() && |bufs| == nbuf == |mru|
      ensures forall b :: 0 <= b < nbuf ==> bufs[b] == Buf(Key(0, 0), false, false, 0, [])
      ensures forall i :: 0 <= i < nbuf ==> mru[i] == nbuf - 1 - i
    {
      head := nbuf;
      bufs := seq(nbuf, _ => Buf(Key(0, 0), false, false, 0, []));
      next, prev := seq(nbuf + 1, _ => nbuf), seq(nbuf + 1, _ => nbuf);
      mru := [];
      new;
      EmptyRing(next, prev, head);
      hide Ring;
      for b := 0 to nbuf
        invariant Ring(next, prev, head, mru) && |next| == |prev| == nbuf + 1 && |mru| == b
        invariant forall i :: 0 <= i < b ==> mru[i] == b - 1 - i
        invariant |bufs| == nbuf && forall c :: 0 <= c < nbuf ==> bufs[c] == Buf(Key(0, 0), false, false, 0, [])
      {
        PutFirst(b);
      }
      forall b: nat | b < nbuf ensures b in mru {
        assert mru[nbuf - 1 - b] == b;
      }
    }

    method PutFirst(b: nat)
      requires Ring(next, prev, head, mru) && b < |next| == |prev| && b != head && b !in mru
      modifies this`next, this`prev, this`mru
      ensures Ring(next, prev, head, mru) && |next| == |prev| == |old(next)| && mru == [b] + old(mru)
    {
      RingPush(next, prev, head, mru, b);
      FirstIs(next, prev, head, mru);
      RingSize(next, prev, head, mru);
      hide Ring;
      ghost var n0: seq<nat>, p0: seq<nat> := next, prev;
      next := next[b := next[head]];
      prev := prev[b := head];
      prev := prev[next[head] := b];
      next := next[head := b];
      mru := [b] + mru;
      assert next == n0[b := n0[head]][head := b] && prev == p0[b := head][n0[head] := b];
    }

    /** bget up to acquiresleep; None is the panic "no buffers". */
    method Bget(k: Key) returns (r: Option<nat>)
      requires Valid()
      modifies this`bufs
      ensures Valid() && (r.None? <==> Find(mru, old(bufs), k).None? && Victim(mru, old(bufs)).None?)
      ensures r.None? ==> bufs == old(bufs)
      ensures r.Some? ==> r.value < |old(bufs)|
      ensures r.Some? && Find(mru, old(bufs), k).Some? ==> r == Find(mru, old(bufs), k)
      ensures r.Some? && Find(mru, old(bufs), k).None? ==> r == Victim(mru, old(bufs))
      ensures r.Some? ==> bufs == old(bufs)[r.value :=
          if Find(mru, old(bufs), k).Some? then Again(old(bufs)[r.value]) else Anew(old(bufs)[r.value], k)]
    {
      r := ScanForward(k);
      if r.Some? {
        bufs := bufs[r.value := Again(bufs[r.value])];
        return;
      }
      r := ScanBack();
      if r.Some? {
        bufs := bufs[r.value := Anew(bufs[r.value], k)];
      }
    }

    method ScanForward(k: Key) returns (r: Option<nat>)
      requires Valid()
      ensures r == Find(mru, bufs, k) && (r.Some? ==> r.value < |bufs|)
    {
      hide Joined;
      ghost var i := 0;
      FirstIs(next, prev, head, mru);
      var b := next[head];
      while b != head
        invariant 0 <= i <= |mru| && b == (if i == |mru| then head else mru[i])
        invariant Find(mru, bufs, k) == Find(mru[i..], bufs, k)
        decreases |mru| - i
      {
        FindRest(mru, bufs, k, i);
        if bufs[b].key == k {
          return Some(b);
        }
        Around(next, prev, head, mru, i);
        b := next[b];
        i := i + 1;
      }
      assert mru[i..] == [];
      r := None;
    }

    method ScanBack() returns (r: Option<nat>)
      requires Valid()
      ensures r == Victim(mru, bufs) && (r.Some? ==> r.value < |bufs|)
    {
      hide Joined;
      ghost var i := |mru|;
      LastIs(next, prev, head, mru);
      var b := prev[head];
      assert mru[..i] == mru;
      while b != head
        invariant 0 <= i <= |mru| && b == (if i == 0 then head else mru[i - 1])
        invariant Victim(mru, bufs) == Victim(mru[..i], bufs)
        decreases i
      {
        VictimRest(mru, bufs, i);
        if bufs[b].refcnt == 0 && !bufs[b].dirty {
          return Some(b);
        }
        Around(next, prev, head, mru, i - 1);
        b := prev[b];
        i := i - 1;
      }
      r := None;
    }

    /** brelse after releasesleep: the last user moves the buffer to the front. */
    method Release(b: nat, ghost i: nat)
      requires Valid() && b < |bufs| && bufs[b].refcnt > 0 && i < |mru| && mru[i] == b
      modifies this
      ensures Valid() && bufs == old(bufs)[b := old(bufs)[b].(refcnt := old(bufs)[b].refcnt - 1)]
      ensures mru == if old(bufs)[b].refcnt > 1 then old(mru) else [b] + Removed(old(mru), i)
    {
      bufs := bufs[b := bufs[b].(refcnt := bufs[b].refcnt - 1)];
      if bufs[b].refcnt == 0 {
        Unhook(b, i);
        ghost var less := mru;
        PutFirst(b);
        hide Ring;
      }
    }

    method Unhook(b: nat, ghost i: nat)
      requires Valid() && b < |bufs| && i < |mru| && mru[i] == b
      modifies this`next, this`prev, this`mru
      ensures Ring(next, prev, head, mru) && |next| == |prev| == |old(next)| && mru == Removed(old(mru), i) && b !in mru
      ensures forall c: nat :: c < |bufs| ==> c == b || c in mru
    {
      RingUnlink(next, prev, head, mru, i);
      RingSize(next, prev, head, mru);
      RingApart(next, prev, head, mru);
      RemovedAll(mru, i);
      Around(next, prev, head, mru, i);
      hide Ring, Removed;
      ghost var n0: seq<nat>, p0: seq<nat> := next, prev;
      prev := prev[next[b] := prev[b]];
      next := next[prev[b] := next[b]];
      mru := Removed(mru, i);
    }
  }

  lemma EmptyRing(next: seq<nat>, prev: seq<nat>, h: nat)
    requires |next| == |prev| == h + 1 && next[h] == h && prev[h] == h
    ensures Ring(next, prev, h, [])
  {
  }

  lemma RingSize(next: seq<nat>, prev: seq<nat>, h: nat, list: seq<nat>)
    requires Ring(next, prev, h, list)
    ensures |next| == |prev| && h < |next|
  {
  }

  lemma RingApart(next: seq<nat>, prev: seq<nat>, h: nat, list: seq<nat>)
    requires Ring(next, prev, h, list)
    ensures forall i, j :: 0 <= i < j < |list| ==> list[i] != list[j]
  {
  }

  lemma LastIs(next: seq<nat>, prev: seq<nat>, h: nat, list: seq<nat>)
    requires Ring(next, prev, h, list)
    ensures h < |prev| && prev[h] == if list == [] then h else list[|list| - 1]
  {
    JoinedAt(next, prev, h, list, |list|);
  }

  lemma FindRest(mru: seq<nat>, bufs: seq<Buf>, k: Key, i: nat)
    requires i < |mru| && mru[i] < |bufs|
    ensures Find(mru[i..], bufs, k) == if bufs[mru[i]].key == k then Some(mru[i]) else Find(mru[i + 1..], bufs, k)
  {
    assert mru[i..][1..] == mru[i + 1..];
  }

  lemma VictimRest(mru: seq<nat>, bufs: seq<Buf>, i: nat)
    requires 0 < i <= |mru|
    ensures Victim(mru[..i], bufs) == if Spare(bufs, mru[i - 1]) then Some(mru[i - 1]) else Victim(mru[..i - 1], bufs)
  {
    assert mru[..i][..i - 1] == mru[..i - 1];
  }
}
