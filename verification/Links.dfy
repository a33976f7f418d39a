/** Singly linked lists threaded through the elements of a table. */
module Links {

  const NIL: int := -1

  /** `list` is threaded through the next fields, from head to NIL. */
  ghost predicate Linked(head: int, next: seq<int>, list: seq<nat>) {
    && head == (if list == [] then NIL else list[0]) && head < |next|
    && (forall j :: 0 <= j < |list| ==> Points(next, list, j))
    && Apart(list)
  }

  ghost predicate Points(next: seq<int>, list: seq<nat>, j: nat)
    requires j < |list|
  {
    list[j] < |next| && next[list[j]] == if j + 1 < |list| then list[j + 1] else NIL
  }

  ghost predicate Apart(list: seq<nat>) {
    forall i, j :: 0 <= i < j < |list| ==> list[i] != list[j]
  }

  lemma ApartRest(list: seq<nat>)
    requires Apart(list) && list != []
    ensures Apart(list[1..])
  {
    var rest := list[1..];
    forall i, j | 0 <= i < j < |rest| ensures rest[i] != rest[j] {
      assert rest[i] == list[i + 1] && rest[j] == list[j + 1];
    }
  }

  lemma LinkedMore(head: int, next: seq<int>, list: seq<nat>, b: nat)
    requires Linked(head, next, list) && b < |next| && b !in list
    ensures list == [] ==> Linked(b, next[b := NIL], [b])
    ensures list != [] ==>
              list[|list| - 1] < |next| && Linked(head, next[b := NIL][list[|list| - 1] := b], list + [b])
  {
    hide Points;
    ApartMore(list, b);
    if list != [] {
      LinkAt(head, next, list, |list| - 1);
      var more := list + [b];
      var links := next[b := NIL][list[|list| - 1] := b];
      forall j | 0 <= j < |more| ensures Points(links, more, j) {
        PointsMore(head, next, list, b, j);
      }
    } else {
      PointsAlone(next, b);
    }
  }

  lemma ApartMore(list: seq<nat>, b: nat)
    requires Apart(list) && b !in list
    ensures Apart(list + [b]) && Apart([b] + list)
  {
  }

  lemma PointsAlone(next: seq<int>, b: nat)
    requires b < |next|
    ensures Points(next[b := NIL], [b], 0)
  {
  }

  lemma PointsMore(head: int, next: seq<int>, list: seq<nat>, b: nat, j: nat)
    requires Linked(head, next, list) && b < |next| && b !in list && list != [] && j <= |list|
    requires list[|list| - 1] < |next|
    ensures Points(next[b := NIL][list[|list| - 1] := b], list + [b], j)
  {
    if j < |list| {
      LinkAt(head, next, list, j);
    }
  }

  /** Putting b first. */
  lemma LinkedPush(head: int, next: seq<int>, list: seq<nat>, b: nat)
    requires Linked(head, next, list) && b < |next| && b !in list
    ensures Linked(b, next[b := head], [b] + list)
  {
    ApartMore(list, b);
    var more := [b] + list;
    var links := next[b := head];
    forall j | 0 <= j < |more| ensures Points(links, more, j) {
      if j > 0 {
        LinkAt(head, next, list, j - 1);
      }
    }
  }

  /** The links of elements outside the list do not matter. */
  lemma LinkedAside(head: int, next: seq<int>, list: seq<nat>, b: nat, v: int)
    requires Linked(head, next, list) && b < |next| && b !in list
    ensures Linked(head, next[b := v], list)
  {
    var links := next[b := v];
    forall j | 0 <= j < |list| ensures Points(links, list, j) {
      LinkAt(head, next, list, j);
    }
  }

  lemma LinkAt(head: int, next: seq<int>, list: seq<nat>, j: nat)
    requires Linked(head, next, list) && j < |list|
    ensures list[j] < |next| && next[list[j]] == if j + 1 < |list| then list[j + 1] else NIL
  {
    assert Points(next, list, j);
  }

  lemma HeadIs(head: int, next: seq<int>, list: seq<nat>)
    requires Linked(head, next, list)
    ensures head < |next| && head == if list == [] then NIL else list[0]
  {
  }

  lemma LinkedRest(head: int, next: seq<int>, list: seq<nat>)
    requires Linked(head, next, list) && list != []
    ensures 0 <= head < |next| && Linked(next[head], next, list[1..])
  {
    LinkAt(head, next, list, 0);
    ApartRest(list);
    if |list| > 1 {
      LinkAt(head, next, list, 1);
    }
    forall j | 0 <= j < |list[1..]| ensures Points(next, list[1..], j) {
      assert Points(next, list, j + 1);
    }
  }

  /** Following the links from head never comes to an end. */
  ghost predicate Endless(head: int, next: seq<int>) {
    forall list :: !Linked(head, next, list)
  }

  /** A list that starts inside a set of elements closed under the links stays there. */
  lemma {:induction false} StaysInside(head: int, next: seq<int>, inside: seq<nat>, list: seq<nat>, k: nat)
    requires Linked(head, next, list) && head in inside && k < |list|
    requires forall q :: q in inside ==> q < |next| && next[q] in inside
    ensures list[k] in inside
  {
    if k > 0 {
      StaysInside(head, next, inside, list, k - 1);
      LinkAt(head, next, list, k - 1);
    }
  }

  lemma NeverEnds(head: int, next: seq<int>, inside: seq<nat>)
    requires head in inside && forall q :: q in inside ==> q < |next| && next[q] in inside
    ensures Endless(head, next)
  {
    forall list: seq<nat> | Linked(head, next, list) ensures false {
      HeadIs(head, next, list);
      StaysInside(head, next, inside, list, |list| - 1);
      LinkAt(head, next, list, |list| - 1);
    }
  }

  /** Putting an element of the list first again closes a cycle. */
  lemma PushedTwice(head: int, next: seq<int>, list: seq<nat>, b: nat)
    requires Linked(head, next, list) && b in list
    ensures b < |next| && Endless(b, next[b := head])
  {
    var k :| 0 <= k < |list| && list[k] == b;
    LinkAt(head, next, list, k);
    HeadIs(head, next, list);
    var links, inside := next[b := head], list[..k + 1];
    forall q | q in inside ensures q < |links| && links[q] in inside {
      var i :| 0 <= i <= k && list[i] == q;
      LinkAt(head, next, list, i);
      assert inside[0] == list[0] && (i < k ==> inside[i + 1] == list[i + 1]);
    }
    assert inside[k] == b;
    NeverEnds(b, links, inside);
  }
}
