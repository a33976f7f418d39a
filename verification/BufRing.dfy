/** bio.c: the circular doubly linked list of buffers in most-recently-released order. */
module BufRing {

  /** The list hangs from head element h: following next from h gives `list` and then h
      again, and prev leads back the same way. */
  ghost predicate Ring(next: seq<nat>, prev: seq<nat>, h: nat, list: seq<nat>) {
    && |next| == |prev| && h < |next|
    && (forall i :: 0 <= i < |list| ==> list[i] < |next| && list[i] != h)
    && (forall i, j :: 0 <= i < j < |list| ==> list[i] != list[j])
    && (forall i :: 0 <= i <= |list| ==> Joined(next, prev, h, list, i))
  }

  /** Element i - 1 and element i of the list are neighbours, h being both ends. */
  ghost predicate Joined(next: seq<nat>, prev: seq<nat>, h: nat, list: seq<nat>, i: nat)
    requires i <= |list|
  {
    var a := if i == 0 then h else list[i - 1];
    var b := if i == |list| then h else list[i];
    a < |next| && b < |prev| && next[a] == b && prev[b] == a
  }

  /** The elements before and after position i, h being both ends. */
  function Left(h: nat, list: seq<nat>, i: nat): nat
    requires i <= |list|
  {
    if i == 0 then h else list[i - 1]
  }

  function Right(h: nat, list: seq<nat>, i: nat): nat
    requires i <= |list|
  {
    if i == |list| then h else list[i]
  }

  lemma JoinedAt(next: seq<nat>, prev: seq<nat>, h: nat, list: seq<nat>, i: nat)
    requires Ring(next, prev, h, list) && i <= |list|
    ensures Joined(next, prev, h, list, i)
  {
  }

  /** b->next = head.next; b->prev = head; head.next->prev = b; head.next = b */
  lemma RingPush(next: seq<nat>, prev: seq<nat>, h: nat, list: seq<nat>, b: nat)
    requires Ring(next, prev, h, list) && b < |next| && b != h && b !in list
    ensures next[h] < |prev| && Ring(next[b := next[h]][h := b], prev[b := h][next[h] := b], h, [b] + list)
  {
    hide Joined;
    FirstIs(next, prev, h, list);
    var n, p, more := next[b := next[h]][h := b], prev[b := h][next[h] := b], [b] + list;
    forall i | 0 <= i <= |more| ensures Joined(n, p, h, more, i) {
      PushJoined(next, prev, h, list, b, i);
    }
  }

  lemma FirstIs(next: seq<nat>, prev: seq<nat>, h: nat, list: seq<nat>)
    requires Ring(next, prev, h, list)
    ensures next[h] == (if list == [] then h else list[0]) < |prev|
  {
    JoinedAt(next, prev, h, list, 0);
  }

  lemma PushJoined(next: seq<nat>, prev: seq<nat>, h: nat, list: seq<nat>, b: nat, i: nat)
    requires Ring(next, prev, h, list) && b < |next| && b != h && b !in list && i <= |list| + 1
    requires next[h] == (if list == [] then h else list[0]) < |prev|
    ensures Joined(next[b := next[h]][h := b], prev[b := h][next[h] := b], h, [b] + list, i)
  {
    if i > 0 {
      JoinedAt(next, prev, h, list, i - 1);
    }
  }

  /** The list without element k. */
  function Removed(list: seq<nat>, k: nat): seq<nat>
    requires k < |list|
  {
    list[..k] + list[k + 1..]
  }

  /** b->next->prev = b->prev; b->prev->next = b->next */
  lemma RingUnlink(next: seq<nat>, prev: seq<nat>, h: nat, list: seq<nat>, k: nat)
    requires Ring(next, prev, h, list) && k < |list|
    ensures list[k] < |next| && next[list[k]] < |prev| && prev[list[k]] < |next| && list[k] !in Removed(list, k)
    ensures Ring(next[prev[list[k]] := next[list[k]]], prev[next[list[k]] := prev[list[k]]], h, Removed(list, k))
  {
    hide Joined, Removed, Left, Right;
    var b := list[k];
    Around(next, prev, h, list, k);
    var n, p, less := next[prev[b] := next[b]], prev[next[b] := prev[b]], Removed(list, k);
    RemovedAll(list, k);
    forall i | 0 <= i <= |less| ensures Joined(n, p, h, less, i) {
      UnlinkNeighbours(next, prev, h, list, k, i);
      RemovedEnds(h, list, k, i);
      UnlinkJoined(next, prev, h, less, prev[b], next[b], i);
    }
  }

  lemma Around(next: seq<nat>, prev: seq<nat>, h: nat, list: seq<nat>, k: nat)
    requires Ring(next, prev, h, list) && k < |list|
    ensures list[k] < |next| && prev[list[k]] == Left(h, list, k) < |next|
    ensures next[list[k]] == Right(h, list, k + 1) < |prev|
  {
    JoinedAt(next, prev, h, list, k);
    JoinedAt(next, prev, h, list, k + 1);
  }

  lemma RemovedAll(list: seq<nat>, k: nat)
    requires k < |list| && forall i, j :: 0 <= i < j < |list| ==> list[i] != list[j]
    ensures |Removed(list, k)| == |list| - 1 && list[k] !in Removed(list, k)
    ensures forall i :: 0 <= i < |list| - 1 ==> Removed(list, k)[i] == list[if i < k then i else i + 1]
    ensures forall x :: x in list <==> x == list[k] || x in Removed(list, k)
  {
    assert list == list[..k] + [list[k]] + list[k + 1..];
  }

  lemma Apart(next: seq<nat>, prev: seq<nat>, h: nat, list: seq<nat>, i: nat, j: nat)
    requires Ring(next, prev, h, list) && i <= |list| && j <= |list| && i != j
    ensures Left(h, list, i) != Left(h, list, j) && Right(h, list, i) != Right(h, list, j)
  {
    hide Joined;
  }

  lemma RemovedEnds(h: nat, list: seq<nat>, k: nat, i: nat)
    requires k < |list| && i < |list|
    ensures |Removed(list, k)| == |list| - 1
    ensures Left(h, Removed(list, k), i) == Left(h, list, if i <= k then i else i + 1)
    ensures Right(h, Removed(list, k), i) == Right(h, list, if i < k then i else i + 1)
  {
  }

  /** The neighbours at place i of the shorter list were neighbours, or are those of element k. */
  lemma UnlinkNeighbours(next: seq<nat>, prev: seq<nat>, h: nat, list: seq<nat>, k: nat, i: nat)
    requires Ring(next, prev, h, list) && k < |list| && i < |list|
    ensures var a, b := Left(h, list, if i <= k then i else i + 1), Right(h, list, if i < k then i else i + 1);
      var pv, nx := Left(h, list, k), Right(h, list, k + 1);
      && a < |next| && b < |prev| && pv < |next| && nx < |prev|
      && ((a == pv && b == nx) || (a != pv && b != nx && next[a] == b && prev[b] == a))
  {
    hide Joined;
    JoinedIs(next, prev, h, list, k);
    JoinedIs(next, prev, h, list, k + 1);
    if i < k {
      JoinedIs(next, prev, h, list, i);
      Apart(next, prev, h, list, i, k);
      Apart(next, prev, h, list, i, k + 1);
    } else if i > k {
      JoinedIs(next, prev, h, list, i + 1);
      Apart(next, prev, h, list, i + 1, k);
      Apart(next, prev, h, list, i + 1, k + 1);
    }
  }

  lemma JoinedIs(next: seq<nat>, prev: seq<nat>, h: nat, list: seq<nat>, i: nat)
    requires Ring(next, prev, h, list) && i <= |list|
    ensures Left(h, list, i) < |next| && Right(h, list, i) < |prev|
    ensures next[Left(h, list, i)] == Right(h, list, i) && prev[Right(h, list, i)] == Left(h, list, i)
  {
    JoinedAt(next, prev, h, list, i);
  }

  lemma UnlinkJoined(next: seq<nat>, prev: seq<nat>, h: nat, less: seq<nat>, pv: nat, nx: nat, i: nat)
    requires i <= |less| && pv < |next| && nx < |prev|
    requires Left(h, less, i) < |next| && Right(h, less, i) < |prev|
    requires var a, b := Left(h, less, i), Right(h, less, i);
      (a == pv && b == nx) || (a != pv && b != nx && next[a] == b && prev[b] == a)
    ensures Joined(next[pv := nx], prev[nx := pv], h, less, i)
  {
  }
}
