/** umalloc.c: the Kernighan and Ritchie allocator. Addresses count headers; a
    block is a header followed by size - 1 more units. */
module Umalloc {
  import opened Common

  const HEADER: int := 8
  const CORE: int := 4096
  const SPACE: int := 0x2000_0000     // 2^32 bytes: addresses wrap around here
  const TOP: int := 0x1000_0000       // KERNBASE: growproc goes no further

  /** a + n on pointers */
  function Plus(a: int, n: int): int { (a + n) % SPACE }

  /** The header units malloc asks for, in the source's 32-bit arithmetic. */
  function Nunits(nbytes: int): (n: int)
    requires 0 <= nbytes < U32
    ensures n >= 1
  {
    (nbytes + HEADER - 1) % U32 / HEADER + 1
  }

  /** The units asked for hold the bytes asked for exactly when rounding up does
      not wrap around: from 2^32 - 7 bytes on, malloc asks for one unit. */
  lemma LargeEnough(nbytes: int)
    requires 0 <= nbytes < U32
    ensures (Nunits(nbytes) - 1) * HEADER >= nbytes <==> nbytes <= U32 - HEADER
    ensures (Nunits(nbytes) - 2) * HEADER < nbytes
    ensures nbytes > U32 - HEADER ==> Nunits(nbytes) == 1
  {
  }

  /** morecore asks for at least CORE units. */
  function CoreUnits(nu: int): int {
    if nu < CORE then CORE else nu
  }

  /** The int that sbrk receives for nu units: nu * sizeof(Header) in 32 bits, as a signed number. */
  function SbrkArg(nu: int): int {
    var product := nu * HEADER % U32;
    if product < U32 / 2 then product else product - U32
  }

  /** sbrk is asked for as many bytes as the units need exactly outside of the requests from
      2^31 - 15 to 2^32 - 8 bytes; for those it is asked for none, or to shrink. */
  lemma SbrkArgExact(nbytes: int)
    requires 0 <= nbytes < U32
    ensures SbrkArg(CoreUnits(Nunits(nbytes))) % HEADER == 0
    ensures SbrkArg(CoreUnits(Nunits(nbytes))) == CoreUnits(Nunits(nbytes)) * HEADER <==> !TooMuch(nbytes)
    ensures TooMuch(nbytes) ==> SbrkArg(CoreUnits(Nunits(nbytes))) <= 0 && CoreUnits(Nunits(nbytes)) == Nunits(nbytes)
  {
    UnitsFit(nbytes);
    SbrkArgIs(CoreUnits(Nunits(nbytes)));
    hide SbrkArg;
  }

  /** The wrap-around and the sign. */
  lemma SbrkArgIs(nu: int)
    requires 0 <= nu <= SPACE
    ensures SbrkArg(nu) == (if nu < SPACE / 2 then nu else nu - SPACE) * HEADER
  {
    if nu == SPACE {
      assert nu * HEADER == U32;
    }
  }

  /** The larger of the units needed and 4096. */
  lemma CoreFits(nu: int)
    ensures CoreUnits(nu) >= nu && CoreUnits(nu) >= 4096 && (CoreUnits(nu) == nu || CoreUnits(nu) == 4096)
  {
  }

  lemma UnitsFit(nbytes: int)
    requires 0 <= nbytes < U32
    ensures 0 < Nunits(nbytes) <= SPACE
  {
  }

  predicate TooMuch(nbytes: int) { U32 / 2 - 15 <= nbytes <= U32 - HEADER }

  /** The ends of that range: a product of 2^32, which wraps to 0, and one of 2^31, the most
      negative int. */
  lemma SbrkArgEnds()
    ensures SbrkArg(CoreUnits(Nunits(U32 - HEADER))) == 0
    ensures SbrkArg(CoreUnits(Nunits(U32 / 2 - 15))) == -(U32 / 2)
  {
  }

  /** By how many units sbrk moves the break g of the process: growproc leaves it where it is
      when the int would take it below 0. */
  function SbrkMove(g: int, nu: int): int {
    if g + SbrkArg(nu) / HEADER < 0 then 0 else SbrkArg(nu) / HEADER
  }

  /** What sbrk may answer to a request of nu units when the break was brk: None when it fails,
      else the break before it moved; growproc grows no process past KERNBASE. */
  predicate Answered(brk: int, grant: Option<int>, nu: int) {
    grant.Some? ==> brk <= grant.value <= TOP && grant.value + SbrkArg(nu) / HEADER <= TOP
  }

  /** The units that the process has after sbrk moved its break from g by k units. */
  ghost function Sbrked(got: set<int>, g: int, k: int): (r: set<int>)
    ensures forall u :: u in r <==> if k >= 0 then u in got || g <= u < g + k else u in got && !(g + k <= u < g)
  {
    if k >= 0 then got + set u: int | g <= u < g + k && u !in got
    else set u | u in got && !(g + k <= u < g)
  }

  // ---- The heap as a value -----------------------------------------------------------------

  /** Header fields by address; the free list in address order, base first;
      the blocks in use with their sizes; and for each unit got from sbrk the
      block it lies in. */
  datatype Heap = Heap(
    ptr: map<int, int>, size: map<int, int>,
    fl: seq<int>, live: map<int, int>, own: map<int, int>)

  function Next(fl: seq<int>, i: nat): int
    requires i < |fl|
  {
    if i + 1 < |fl| then fl[i + 1] else fl[0]
  }

  /** Going round the list from the block after freep, block j is the first that has n units. */
  ghost predicate FirstFrom(fl: seq<int>, size: map<int, int>, freep: int, n: int, j: nat) {
    exists s :: 0 <= s < |fl| && fl[s] == freep &&
      forall i :: 0 <= i < |fl| && Ahead(s, i, |fl|) < Ahead(s, j, |fl|) ==> fl[i] in size && size[fl[i]] < n
  }

  /** b is the last n units of the first block with n units after freep, and the next search starts from
      the block before it. */
  ghost predicate NextFit(h: Heap, freep: Option<int>, n: int, b: int, freep': Option<int>) {
    freep.Some? && exists j: nat :: FitsAt(h, freep.value, n, b, freep', j)
  }

  ghost predicate FitsAt(h: Heap, freep: int, n: int, b: int, freep': Option<int>, j: nat) {
    && j < |h.fl| && FirstFrom(h.fl, h.size, freep, n, j) && h.fl[j] in h.size && h.size[h.fl[j]] >= n
    && b == h.fl[j] + h.size[h.fl[j]] - n && freep' == Some(Prev(h.fl, j))
  }

  lemma NextFitAt(h: Heap, freep: Option<int>, n: int, b: int, freep': Option<int>, j: nat)
    requires freep.Some? && j < |h.fl| && FirstFrom(h.fl, h.size, freep.value, n, j)
    requires h.fl[j] in h.size && h.size[h.fl[j]] >= n
    requires b == h.fl[j] + h.size[h.fl[j]] - n && freep' == Some(Prev(h.fl, j))
    ensures NextFit(h, freep, n, b, freep')
  {
    hide FirstFrom;
    assert FitsAt(h, freep.value, n, b, freep', j);
  }

  /** Each block of the list points to the next, the last to the first. */
  ghost predicate Linked(h: Heap) {
    forall i :: 0 <= i < |h.fl| ==> h.fl[i] in h.ptr && h.ptr[h.fl[i]] == Next(h.fl, i)
  }

  /** The list is in address order, and between one block and the next there is
      at least one unit that is not free. */
  ghost predicate Spaced(h: Heap) {
    && (forall i :: 0 <= i < |h.fl| ==> h.fl[i] in h.size)
    && (forall i, j :: 0 <= i < j < |h.fl| ==> h.fl[i] + h.size[h.fl[i]] < h.fl[j])
  }

  /** One cycle through all free blocks in address order, starting from the
      empty block base, no two of them adjacent. */
  ghost predicate Listed(base: int, h: Heap) {
    && |h.fl| > 0 && h.fl[0] == base
    && Linked(h) && Spaced(h)
    && h.size[base] == 0
    && (forall i :: 1 <= i < |h.fl| ==> h.size[h.fl[i]] > 0)
  }

  ghost predicate IsBlock(base: int, h: Heap, b: int) {
    b in h.size && h.size[b] > 0 && (b in h.live || (b in h.fl && b != base))
  }

  /** Blocks in use are not on the list and have the size recorded for them. */
  ghost predicate Lives(base: int, h: Heap) {
    forall b :: b in h.live ==> b > base && b !in h.fl && b in h.size && h.size[b] == h.live[b] > 0
  }

  ghost predicate Covers(h: Heap, b: int) {
    b in h.size && forall u :: b <= u < b + h.size[b] ==> u in h.own && h.own[u] == b
  }

  ghost predicate Inside(base: int, h: Heap, u: int) {
    u in h.own && IsBlock(base, h, h.own[u]) && h.own[u] <= u < h.own[u] + h.size[h.own[u]]
  }

  /** The units of a block are its own, and every unit is some block's: blocks
      are disjoint, and together they are all that sbrk gave. */
  ghost predicate Covered(base: int, h: Heap) {
    && (forall b :: IsBlock(base, h, b) ==> Covers(h, b))
    && (forall u :: u in h.own ==> Inside(base, h, u))
  }

  ghost predicate Valid(base: int, h: Heap) {
    Listed(base, h) && Lives(base, h) && Covered(base, h)
  }

  /** Two blocks, free or in use, never overlap. */
  lemma Disjoint(base: int, h: Heap, b: int, c: int)
    requires Valid(base, h) && IsBlock(base, h, b) && IsBlock(base, h, c) && b != c
    ensures b + h.size[b] <= c || c + h.size[c] <= b
  {
    hide Listed, Lives;
    assert Covers(h, b) && Covers(h, c);
    Apart(h, b, c);
  }

  lemma Apart(h: Heap, b: int, c: int)
    requires Covers(h, b) && Covers(h, c) && b != c && h.size[b] > 0 && h.size[c] > 0
    ensures b + h.size[b] <= c || c + h.size[c] <= b
  {
    var u := if b < c then c else b;
    assert b <= u < b + h.size[b] ==> u in h.own;
  }

  ghost function FreeUnits(h: Heap): set<int> {
    set u | u in h.own && h.own[u] in h.fl
  }

  ghost function LiveUnits(h: Heap): set<int> {
    set u | u in h.own && h.own[u] in h.live
  }

  /** Conservation: free units and units in use add up to what sbrk gave. */
  lemma Conserved(base: int, h: Heap)
    requires Valid(base, h)
    ensures |h.own.Keys| == |FreeUnits(h)| + |LiveUnits(h)|
  {
    hide Listed, Covers;
    forall u | u in h.own ensures (u in FreeUnits(h)) != (u in LiveUnits(h)) {
      assert Inside(base, h, u);
    }
    assert h.own.Keys == FreeUnits(h) + LiveUnits(h);
    assert FreeUnits(h) !! LiveUnits(h);
  }

  // ---- The moves of the allocator ------------------------------------------------------------

  /** The units of [lo, hi) pass to block b. */
  function Reown(own: map<int, int>, lo: int, hi: int, b: int): (r: map<int, int>)
    ensures forall u :: u in r <==> u in own
    ensures forall u :: u in own ==> r[u] == if lo <= u < hi then b else own[u]
  {
    map u | u in own :: if lo <= u < hi then b else own[u]
  }

  /** The whole block fl[j] goes into use. */
  function Take(h: Heap, j: nat): Heap
    requires 1 <= j < |h.fl| && h.fl[j] in h.size
  {
    h.(ptr := h.ptr[h.fl[j - 1] := Next(h.fl, j)],
       fl := h.fl[..j] + h.fl[j + 1..],
       live := h.live[h.fl[j] := h.size[h.fl[j]]])
  }

  /** The last n units of block fl[j] go into use. */
  function Split(h: Heap, j: nat, n: int): Heap
    requires j < |h.fl| && h.fl[j] in h.size
  {
    var p := h.fl[j];
    var rest := h.size[p] - n;
    h.(size := h.size[p := rest][p + rest := n],
       live := h.live[p + rest := n],
       own := Reown(h.own, p + rest, p + rest + n, p + rest))
  }

  /** The block bp in use goes onto the list after fl[k]. */
  function Insert(h: Heap, k: nat, bp: int): Heap
    requires k < |h.fl|
  {
    h.(ptr := h.ptr[bp := Next(h.fl, k)][h.fl[k] := bp],
       fl := h.fl[..k + 1] + [bp] + h.fl[k + 1..],
       live := h.live - {bp})
  }

  /** The block bp in use takes over the free block fl[k + 1] that follows it. */
  function AbsorbNext(h: Heap, k: nat, bp: int): Heap
    requires k + 1 < |h.fl| && bp in h.size && h.fl[k + 1] in h.size
  {
    var n := h.size[bp] + h.size[h.fl[k + 1]];
    h.(ptr := h.ptr[h.fl[k] := Next(h.fl, k + 1)],
       size := h.size[bp := n],
       fl := h.fl[..k + 1] + h.fl[k + 2..],
       live := h.live[bp := n],
       own := Reown(h.own, bp, bp + n, bp))
  }

  /** The free block fl[k] takes over the block bp in use that follows it. */
  function Extend(h: Heap, k: nat, bp: int): Heap
    requires k < |h.fl| && bp in h.size && h.fl[k] in h.size
  {
    var p := h.fl[k];
    h.(size := h.size[p := h.size[p] + h.size[bp]],
       live := h.live - {bp},
       own := Reown(h.own, p, p + h.size[p] + h.size[bp], p))
  }

  /** sbrk gave the nu units from a. */
  function Granted(h: Heap, a: int, nu: nat): Heap {
    h.(size := h.size[a := nu], live := h.live[a := nu],
       own := h.own + map u | a <= u < a + nu && u !in h.own :: a)
  }

  // ---- Each move keeps the heap valid -----------------------------------------------------------

  lemma Sizes(base: int, h: Heap)
    requires Listed(base, h)
    ensures forall k :: 0 <= k < |h.fl| ==> h.size[h.fl[k]] >= 0
  {
  }

  /** In an ordered list no address occurs twice. */
  lemma Distinct(base: int, h: Heap, i: nat, j: nat)
    requires Listed(base, h) && i < |h.fl| && j < |h.fl| && i != j
    ensures h.fl[i] != h.fl[j]
  {
    hide Linked;
    Sizes(base, h);
  }

  lemma TakeLinked(base: int, h: Heap, j: nat)
    requires Listed(base, h) && 1 <= j < |h.fl|
    ensures Linked(Take(h, j))
  {
    hide Listed, Spaced;
    ListedParts(base, h);
    ListFacts(base, h, j);
    Sizes(base, h);
    var h' := Take(h, j);
    forall i | 0 <= i < |h'.fl| ensures h'.fl[i] in h'.ptr && h'.ptr[h'.fl[i]] == Next(h'.fl, i) {
      var o := if i < j then i else i + 1;
      assert h'.fl[i] == h.fl[o];
      if o != j - 1 { Distinct(base, h, o, j - 1); }
    }
  }

  lemma ListedParts(base: int, h: Heap)
    requires Listed(base, h)
    ensures Linked(h) && Spaced(h) && |h.fl| > 0 && h.fl[0] == base
  {
    hide Linked, Spaced;
  }

  lemma TakeListed(base: int, h: Heap, j: nat)
    requires Listed(base, h) && 1 <= j < |h.fl|
    ensures Listed(base, Take(h, j))
    ensures forall b :: b in Take(h, j).fl <==> b in h.fl && b != h.fl[j]
  {
    hide Linked;
    var h' := Take(h, j);
    TakeLinked(base, h, j);
    assert forall i :: 0 <= i < |h'.fl| ==> h'.fl[i] == h.fl[if i < j then i else i + 1];
    Sizes(base, h);
    TakeMembers(h, j);
    forall b | b in h'.fl ensures b in h.fl && b != h.fl[j] {
      var i :| 0 <= i < |h'.fl| && h'.fl[i] == b;
      var o := if i < j then i else i + 1;
      Distinct(base, h, o, j);
    }
  }

  lemma TakeMembers(h: Heap, j: nat)
    requires 1 <= j < |h.fl| && h.fl[j] in h.size
    ensures forall b :: b in h.fl && b != h.fl[j] ==> b in Take(h, j).fl
  {
    forall b | b in h.fl && b != h.fl[j] ensures b in Take(h, j).fl {
      var i :| 0 <= i < |h.fl| && h.fl[i] == b;
      assert Take(h, j).fl[if i < j then i else i - 1] == b;
    }
  }

  lemma TakeOk(base: int, h: Heap, j: nat)
    requires Valid(base, h) && 1 <= j < |h.fl|
    ensures Valid(base, Take(h, j))
  {
    hide Listed;
    assert h.fl[j] > base && h.size[h.fl[j]] > 0 by { ListFacts(base, h, j); }
    TakeListed(base, h, j);
    var h' := Take(h, j);
    assert forall b :: IsBlock(base, h', b) <==> IsBlock(base, h, b);
    SameBlocks(base, h, h');
  }

  /** The same blocks with the same sizes cover the same units. */
  lemma SameBlocks(base: int, h: Heap, h': Heap)
    requires Covered(base, h) && h'.own == h.own && h'.size == h.size
    requires forall b :: IsBlock(base, h', b) <==> IsBlock(base, h, b)
    ensures Covered(base, h')
  {
    hide IsBlock;
    forall b | IsBlock(base, h', b) ensures Covers(h', b) {
      assert Covers(h, b);
    }
    forall u | u in h'.own ensures Inside(base, h', u) {
      assert Inside(base, h, u);
    }
  }

  lemma ListFacts(base: int, h: Heap, j: nat)
    requires Listed(base, h) && j < |h.fl|
    ensures h.fl[j] in h.size && h.fl[j] in h.ptr
    ensures j == 0 ==> h.fl[j] == base && h.size[h.fl[j]] == 0
    ensures j > 0 ==> h.fl[j] > base && h.size[h.fl[j]] > 0
  {
  }

  lemma InsertLinked(base: int, h: Heap, k: nat, bp: int)
    requires Listed(base, h) && k < |h.fl| && bp !in h.fl
    ensures Linked(Insert(h, k, bp))
  {
    hide Listed, Spaced;
    ListedParts(base, h);
    Sizes(base, h);
    var h' := Insert(h, k, bp);
    forall i | 0 <= i < |h'.fl| ensures h'.fl[i] in h'.ptr && h'.ptr[h'.fl[i]] == Next(h'.fl, i) {
      if i != k + 1 {
        var o := if i <= k then i else i - 1;
        assert h'.fl[i] == h.fl[o];
        if o != k { Distinct(base, h, o, k); }
      }
    }
  }

  lemma InsertListed(base: int, h: Heap, k: nat, bp: int)
    requires Listed(base, h) && k < |h.fl| && bp in h.size && h.size[bp] > 0 && bp !in h.fl
    requires h.fl[k] + h.size[h.fl[k]] < bp && (k + 1 < |h.fl| ==> bp + h.size[bp] < h.fl[k + 1])
    ensures Listed(base, Insert(h, k, bp))
    ensures forall b :: b in Insert(h, k, bp).fl <==> b in h.fl || b == bp
  {
    hide Linked, Spaced;
    var h' := Insert(h, k, bp);
    InsertLinked(base, h, k, bp);
    InsertSpaced(base, h, k, bp);
    InsertMembers(h, k, bp);
    assert h'.fl[0] == base;
    forall i | 1 <= i < |h'.fl| ensures h'.fl[i] in h'.size && h'.size[h'.fl[i]] > 0 {
      if i != k + 1 {
        var o := if i <= k then i else i - 1;
        assert h'.fl[i] == h.fl[o];
        ListFacts(base, h, o);
      }
    }
  }

  lemma InsertSpaced(base: int, h: Heap, k: nat, bp: int)
    requires Listed(base, h) && k < |h.fl| && bp in h.size && h.size[bp] > 0
    requires h.fl[k] + h.size[h.fl[k]] < bp && (k + 1 < |h.fl| ==> bp + h.size[bp] < h.fl[k + 1])
    ensures Spaced(Insert(h, k, bp))
  {
    hide Linked;
    Sizes(base, h);
    var h' := Insert(h, k, bp);
    forall i, j | 0 <= i < j < |h'.fl| ensures h'.fl[i] in h'.size && h'.fl[i] + h'.size[h'.fl[i]] < h'.fl[j] {
      var o := if i <= k then i else i - 1;
      var q := if j <= k then j else j - 1;
      if i == k + 1 {
        assert h'.fl[j] == h.fl[q];
      } else if j == k + 1 {
        assert h'.fl[i] == h.fl[o];
      } else {
        assert h'.fl[i] == h.fl[o] && h'.fl[j] == h.fl[q] && o < q;
      }
    }
    forall i | 0 <= i < |h'.fl| ensures h'.fl[i] in h'.size {
      if i != k + 1 { assert h'.fl[i] == h.fl[if i <= k then i else i - 1]; }
    }
  }

  lemma InsertMembers(h: Heap, k: nat, bp: int)
    requires k < |h.fl|
    ensures forall b :: b in Insert(h, k, bp).fl <==> b in h.fl || b == bp
  {
    var h' := Insert(h, k, bp);
    forall b | b in h.fl ensures b in h'.fl {
      var i :| 0 <= i < |h.fl| && h.fl[i] == b;
      assert h'.fl[if i <= k then i else i + 1] == b;
    }
    assert h'.fl[k + 1] == bp;
  }

  lemma InsertOk(base: int, h: Heap, k: nat, bp: int)
    requires Valid(base, h) && k < |h.fl| && bp in h.live && h.fl[k] in h.size
    requires h.fl[k] + h.size[h.fl[k]] < bp && (k + 1 < |h.fl| ==> bp + h.size[bp] < h.fl[k + 1])
    ensures Valid(base, Insert(h, k, bp))
  {
    hide Listed;
    InsertListed(base, h, k, bp);
    var h' := Insert(h, k, bp);
    assert forall b :: IsBlock(base, h', b) <==> IsBlock(base, h, b);
    SameBlocks(base, h, h');
  }

  // ---- Moves that change sizes -------------------------------------------------------------------

  /** Sizes changed only off the list: the list is as it was. */
  lemma ListedFrame(base: int, h: Heap, h': Heap)
    requires Listed(base, h) && h'.fl == h.fl
    requires forall i :: 0 <= i < |h.fl| ==> h.fl[i] in h'.ptr && h'.ptr[h.fl[i]] == h.ptr[h.fl[i]]
    requires forall i :: 0 <= i < |h.fl| ==> h.fl[i] in h'.size && h'.size[h.fl[i]] == h.size[h.fl[i]]
    ensures Listed(base, h')
  {
  }

  /** One free block grew or shrank and still ends before the next. */
  lemma ListedResize(base: int, h: Heap, h': Heap, k: nat)
    requires Listed(base, h) && h'.fl == h.fl && h'.ptr == h.ptr && 1 <= k < |h.fl|
    requires forall i :: 0 <= i < |h.fl| ==> h.fl[i] in h'.size
    requires forall i :: 0 <= i < |h.fl| && i != k ==> h'.size[h.fl[i]] == h.size[h.fl[i]]
    requires h'.size[h.fl[k]] > 0 && (k + 1 < |h.fl| ==> h.fl[k] + h'.size[h.fl[k]] < h.fl[k + 1])
    ensures Listed(base, h')
  {
    hide Linked;
    Sizes(base, h);
    forall i, j | 0 <= i < j < |h.fl| ensures h'.fl[i] + h'.size[h'.fl[i]] < h'.fl[j] {
      if i == k && j > k + 1 {
        assert h.fl[k + 1] + h.size[h.fl[k + 1]] < h.fl[j];
      }
    }
    assert Linked(h') by { LinkedSame(h, h'); }
  }

  lemma LinkedSame(h: Heap, h': Heap)
    requires Linked(h) && h'.fl == h.fl && h'.ptr == h.ptr
    ensures Linked(h')
  {
  }

  /** sbrk's fresh region is a block in use. */
  lemma GrantedOk(base: int, h: Heap, a: int, nu: nat)
    requires Valid(base, h) && nu > 0 && base < a && a !in h.fl
    requires forall u :: u in h.own ==> u < a
    ensures Valid(base, Granted(h, a, nu))
  {
    hide Listed;
    var h' := Granted(h, a, nu);
    GrantedListed(base, h, a, nu);
    forall b | IsBlock(base, h', b) ensures Covers(h', b) {
      if b != a {
        assert IsBlock(base, h, b) && Covers(h, b);
      }
    }
    forall u | u in h'.own ensures Inside(base, h', u) {
      if u in h.own { assert Inside(base, h, u); }
    }
  }

  /** What the grant adds, and what giving it back leaves. */
  lemma GrantedFacts(base: int, h: Heap, a: int, nu: nat)
    requires Valid(base, h) && forall u :: u in h.own ==> u < a
    ensures var g := Granted(h, a, nu);
      && g.fl == h.fl && g.ptr == h.ptr && g.size == h.size[a := nu] && a in g.live && g.live[a] == nu
      && g.live - {a} == h.live
  {
    NotLiveYet(base, h, a);
    hide Valid;
  }

  lemma GrantedListed(base: int, h: Heap, a: int, nu: nat)
    requires Listed(base, h) && a !in h.fl
    ensures Listed(base, Granted(h, a, nu))
  {
    ListedFrame(base, h, Granted(h, a, nu));
  }

  /** An address strictly inside a free block is not on the list. */
  lemma InsideNotListed(base: int, h: Heap, j: nat, q: int)
    requires Listed(base, h) && j < |h.fl| && h.fl[j] < q < h.fl[j] + h.size[h.fl[j]]
    ensures q !in h.fl
  {
    hide Linked;
    Sizes(base, h);
    forall i | 0 <= i < |h.fl| ensures h.fl[i] != q {
      assert i < j || i == j || j < i;
    }
  }

  lemma SplitListed(base: int, h: Heap, j: nat, n: int)
    requires Listed(base, h) && 1 <= j < |h.fl| && 0 < n < h.size[h.fl[j]]
    ensures Listed(base, Split(h, j, n)) && h.fl[j] + h.size[h.fl[j]] - n !in h.fl
  {
    hide Linked;
    var p, h' := h.fl[j], Split(h, j, n);
    InsideNotListed(base, h, j, p + h.size[p] - n);
    forall i | 0 <= i < |h.fl| && i != j ensures h.fl[i] in h'.size && h'.size[h.fl[i]] == h.size[h.fl[i]] {
      Distinct(base, h, i, j);
    }
    ListedResize(base, h, h', j);
  }

  lemma SplitOk(base: int, h: Heap, j: nat, n: int)
    requires Valid(base, h) && 1 <= j < |h.fl| && h.fl[j] in h.size && 0 < n < h.size[h.fl[j]]
    ensures Valid(base, Split(h, j, n))
  {
    hide Listed, Lives, Covered;
    var p, h' := h.fl[j], Split(h, j, n);
    var q := p + h.size[p] - n;
    ListFacts(base, h, j);
    SplitListed(base, h, j, n);
    assert p in h.fl;
    NotLive(base, h, p, q);
    SplitLives(base, h, h', p, q, n);
    SplitCovered(base, h, h', p, q, n);
  }

  /** No block in use starts inside another block. */
  lemma NotLive(base: int, h: Heap, p: int, q: int)
    requires Covered(base, h) && Lives(base, h) && IsBlock(base, h, p) && p < q < p + h.size[p]
    ensures q !in h.live
  {
    assert Covers(h, p);
    if q in h.live {
      assert IsBlock(base, h, q);
      assert Covers(h, q);
      Apart(h, p, q);
    }
  }

  lemma SplitLives(base: int, h: Heap, h': Heap, p: int, q: int, n: int)
    requires Lives(base, h) && p in h.fl && q !in h.fl && q > base && n > 0 && q != p
    requires h'.size == h.size[p := q - p][q := n] && h'.live == h.live[q := n] && h'.fl == h.fl
    ensures Lives(base, h')
  {
  }

  lemma SplitCovered(base: int, h: Heap, h': Heap, p: int, q: int, n: int)
    requires Covered(base, h) && IsBlock(base, h, p) && 0 < n < h.size[p] && q == p + h.size[p] - n
    requires q !in h.live && q !in h.fl && p != base && q > base
    requires h' == h.(size := h.size[p := q - p][q := n], live := h.live[q := n], own := Reown(h.own, q, q + n, q))
    ensures Covered(base, h')
  {
    assert Covers(h, p);
    forall b | IsBlock(base, h', b) ensures Covers(h', b) {
      if b != p && b != q {
        assert IsBlock(base, h, b) && Covers(h, b);
        Apart(h, b, p);
      }
    }
    forall u | u in h'.own ensures Inside(base, h', u) {
      assert Inside(base, h, u);
    }
  }

  /** When block b takes over the units up to the end of block c, which starts
      where b ends and stops being a block, the rest is covered as before. */
  lemma MergeCovered(base: int, h: Heap, h': Heap, b: int, c: int)
    requires Covered(base, h) && IsBlock(base, h, b) && IsBlock(base, h, c) && b + h.size[b] == c
    requires h'.size == h.size[b := h.size[b] + h.size[c]]
    requires h'.own == Reown(h.own, b, b + h.size[b] + h.size[c], b)
    requires forall d :: IsBlock(base, h', d) <==> IsBlock(base, h, d) && d != c
    ensures Covered(base, h')
  {
    hide IsBlock;
    assert Covers(h, b) && Covers(h, c);
    assert h.size[b] > 0 && h.size[c] > 0 by { BlockSize(base, h, b); BlockSize(base, h, c); }
    forall d | IsBlock(base, h', d) ensures Covers(h', d) {
      assert Covers(h, d);
      if d != b {
        BlockSize(base, h, d);
        Apart(h, d, b);
        Apart(h, d, c);
      }
    }
    MergeInside(base, h, h', b, c);
  }

  lemma MergeInside(base: int, h: Heap, h': Heap, b: int, c: int)
    requires Covered(base, h) && IsBlock(base, h, b) && IsBlock(base, h, c) && b + h.size[b] == c
    requires h'.size == h.size[b := h.size[b] + h.size[c]]
    requires h'.own == Reown(h.own, b, b + h.size[b] + h.size[c], b)
    requires forall d :: IsBlock(base, h', d) <==> IsBlock(base, h, d) && d != c
    ensures forall u :: u in h'.own ==> Inside(base, h', u)
  {
    hide IsBlock;
    assert Covers(h, b) && Covers(h, c);
    assert h.size[b] > 0 && h.size[c] > 0 by { BlockSize(base, h, b); BlockSize(base, h, c); }
    forall u | u in h'.own ensures Inside(base, h', u) {
      assert Inside(base, h, u);
    }
  }

  lemma BlockSize(base: int, h: Heap, b: int)
    requires IsBlock(base, h, b)
    ensures b in h.size && h.size[b] > 0
  {
  }

  lemma AbsorbListed(base: int, h: Heap, k: nat, bp: int)
    requires Listed(base, h) && k + 1 < |h.fl| && bp in h.size && bp !in h.fl
    ensures Listed(base, AbsorbNext(h, k, bp))
    ensures forall b :: b in AbsorbNext(h, k, bp).fl <==> b in h.fl && b != h.fl[k + 1]
  {
    hide Listed;
    ListFacts(base, h, k + 1);
    TakeListed(base, h, k + 1);
    var t, h' := Take(h, k + 1), AbsorbNext(h, k, bp);
    assert h'.fl == t.fl && h'.ptr == t.ptr;
    forall i | 0 <= i < |t.fl| ensures t.fl[i] in h'.ptr && t.fl[i] in h'.size && h'.size[t.fl[i]] == t.size[t.fl[i]] {
      ListFacts(base, t, i);
      assert t.fl[i] in t.fl;
    }
    ListedFrame(base, t, h');
  }

  /** bp->s.size += p->s.ptr->s.size */
  lemma AbsorbNextOk(base: int, h: Heap, k: nat, bp: int)
    requires Valid(base, h) && k + 1 < |h.fl| && bp in h.live && bp in h.size && h.fl[k + 1] in h.size
    requires bp + h.size[bp] == h.fl[k + 1]
    ensures Valid(base, AbsorbNext(h, k, bp))
    ensures bp in AbsorbNext(h, k, bp).live
  {
    hide Listed, Covered;
    var nx, h' := h.fl[k + 1], AbsorbNext(h, k, bp);
    AbsorbListed(base, h, k, bp);
    ListFacts(base, h, k + 1);
    assert nx in h.fl;
    assert IsBlock(base, h, bp) && IsBlock(base, h, nx);
    forall d ensures IsBlock(base, h', d) <==> IsBlock(base, h, d) && d != nx {
      assert d in h'.fl <==> d in h.fl && d != nx;
    }
    MergeCovered(base, h, h', bp, nx);
  }

  lemma ExtendListed(base: int, h: Heap, k: nat, bp: int)
    requires Listed(base, h) && 1 <= k < |h.fl| && bp in h.size && h.size[bp] > 0
    requires k + 1 < |h.fl| ==> h.fl[k] + h.size[h.fl[k]] + h.size[bp] < h.fl[k + 1]
    ensures Listed(base, Extend(h, k, bp))
  {
    hide Linked;
    var h' := Extend(h, k, bp);
    forall i | 0 <= i < |h.fl| && i != k ensures h.fl[i] in h'.size && h'.size[h.fl[i]] == h.size[h.fl[i]] {
      Distinct(base, h, i, k);
    }
    ListedResize(base, h, h', k);
  }

  /** p->s.size += bp->s.size */
  lemma ExtendOk(base: int, h: Heap, k: nat, bp: int)
    requires Valid(base, h) && 1 <= k < |h.fl| && bp in h.live && bp in h.size && h.fl[k] in h.size
    requires h.fl[k] + h.size[h.fl[k]] == bp && (k + 1 < |h.fl| ==> bp + h.size[bp] < h.fl[k + 1])
    ensures Valid(base, Extend(h, k, bp))
  {
    hide Listed, Covered;
    var p, h' := h.fl[k], Extend(h, k, bp);
    ExtendListed(base, h, k, bp);
    ListFacts(base, h, k);
    assert p in h.fl;
    assert IsBlock(base, h, bp) && IsBlock(base, h, p);
    forall d ensures IsBlock(base, h', d) <==> IsBlock(base, h, d) && d != bp {}
    MergeCovered(base, h, h', p, bp);
  }

  // ---- free as a function of the heap ----------------------------------------------------------

  /** k is where the block bp belongs: fl[k] is the last free block before it. */
  ghost predicate Place(h: Heap, k: int, bp: int) {
    0 <= k < |h.fl| && h.fl[k] < bp && (k + 1 < |h.fl| ==> bp < h.fl[k + 1])
  }

  /** free(bp + 1) when k is its place: join with the block after, then with the
      block before. */
  function Freed(h: Heap, k: nat, bp: int): (r: Heap)
    requires k < |h.fl| && h.fl[k] in h.size && bp in h.size
    requires k + 1 < |h.fl| ==> h.fl[k + 1] in h.size
  {
    if h.fl[k] + h.size[h.fl[k]] == bp then Extend(Joined(h, k, bp), k, bp) else Insert(Joined(h, k, bp), k, bp)
  }

  predicate Touches(h: Heap, k: nat, bp: int)
    requires k < |h.fl| && bp in h.size
  {
    k + 1 < |h.fl| && bp + h.size[bp] == h.fl[k + 1]
  }

  /** bp joined with the block after it, if that touches it. */
  function Joined(h: Heap, k: nat, bp: int): (r: Heap)
    requires k < |h.fl| && h.fl[k] in h.size && bp in h.size
    requires k + 1 < |h.fl| ==> h.fl[k + 1] in h.size
    ensures k < |r.fl| && r.fl[k] == h.fl[k] && r.fl[k] in r.size && bp in r.size
    ensures |r.fl| >= 1 && r.fl[0] == h.fl[0]
    ensures Next(r.fl, k) == if Touches(h, k, bp) then Next(h.fl, k + 1) else Next(h.fl, k)
    ensures r.ptr == if Touches(h, k, bp) then h.ptr[h.fl[k] := Next(h.fl, k + 1)] else h.ptr
    ensures forall x :: x in r.fl ==> x in h.fl
  {
    if Touches(h, k, bp) then AbsorbNext(h, k, bp) else h
  }

  /** How bp lies between its neighbours. */
  lemma Between(base: int, h: Heap, k: nat, bp: int)
    requires Valid(base, h) && Place(h, k, bp) && bp in h.live
    ensures bp in h.size && h.size[bp] == h.live[bp] > 0 && bp !in h.fl && bp > base
    ensures h.fl[k] in h.size && h.fl[k] + h.size[h.fl[k]] <= bp
    ensures k + 1 < |h.fl| ==> h.fl[k + 1] in h.size && bp + h.size[bp] <= h.fl[k + 1]
    ensures k == 0 ==> h.size[h.fl[k]] == 0
  {
    hide Listed, Covered;
    ListFacts(base, h, k);
    assert h.fl[k] in h.fl;
    if k > 0 { Disjoint(base, h, h.fl[k], bp); }
    if k + 1 < |h.fl| {
      ListFacts(base, h, k + 1);
      assert h.fl[k + 1] in h.fl;
      Disjoint(base, h, h.fl[k + 1], bp);
    }
  }

  /** After joining with the block after, the gap to the next one is real. */
  lemma AfterAbsorb(base: int, h: Heap, k: nat, bp: int)
    requires Valid(base, h) && Place(h, k, bp) && bp in h.live && bp in h.size
    requires k + 1 < |h.fl| && h.fl[k + 1] in h.size && bp + h.size[bp] == h.fl[k + 1]
    ensures var h1 := AbsorbNext(h, k, bp);
            && Valid(base, h1) && bp in h1.live && bp in h1.size
            && k < |h1.fl| && h1.fl[k] == h.fl[k] && h1.fl[k] in h1.size && h1.size[h1.fl[k]] == h.size[h.fl[k]]
            && (k + 1 < |h1.fl| ==> bp + h1.size[bp] < h1.fl[k + 1])
  {
    hide Linked, Lives, Covered;
    AbsorbNextOk(base, h, k, bp);
    var h1 := AbsorbNext(h, k, bp);
    assert bp != h.fl[k];
    if k + 2 < |h.fl| {
      assert h1.fl[k + 1] == h.fl[k + 2];
    }
  }

  /** free keeps the heap valid, gives back exactly bp, and leaves a free block
      at least as large as bp was. */
  lemma FreedOk(base: int, h: Heap, k: nat, bp: int) returns (at: nat)
    requires Valid(base, h) && Place(h, k, bp) && bp in h.live
    ensures h.fl[k] in h.size && bp in h.size && (k + 1 < |h.fl| ==> h.fl[k + 1] in h.size)
    ensures Valid(base, Freed(h, k, bp))
    ensures Freed(h, k, bp).live == h.live - {bp}
    ensures forall u :: u in Freed(h, k, bp).own <==> u in h.own
    ensures at < |Freed(h, k, bp).fl| && Freed(h, k, bp).fl[at] in Freed(h, k, bp).size
    ensures Freed(h, k, bp).size[Freed(h, k, bp).fl[at]] >= h.size[bp]
    ensures |Freed(h, k, bp).fl| > k && Freed(h, k, bp).fl[k] == h.fl[k]
    ensures at == if h.fl[k] + h.size[h.fl[k]] == bp then k else k + 1
  {
    hide Listed, Lives, Covered;
    Between(base, h, k, bp);
    var h1 := Joined(h, k, bp);
    if Touches(h, k, bp) {
      AfterAbsorb(base, h, k, bp);
      ListFacts(base, h, k + 1);
      assert h1.live - {bp} == h.live - {bp};
    }
    assert h1.size[bp] >= h.size[bp];
    if h.fl[k] + h.size[h.fl[k]] == bp {
      at := k;
      ListFacts(base, h, k);
      ExtendOk(base, h1, k, bp);
    } else {
      at := k + 1;
      InsertOk(base, h1, k, bp);
    }
  }

  /** free changes one free block, the one at `at`; at the end of the list that block ends where
      bp did. */
  ghost predicate OneGrew(h: Heap, r: Heap, k: nat, bp: int, at: nat) {
    && at < |r.fl| && r.fl[at] in r.size && bp in h.size
    && (forall i :: 0 <= i < |r.fl| && i != at ==>
          r.fl[i] in h.fl && r.fl[i] in h.size && r.fl[i] in r.size && r.size[r.fl[i]] == h.size[r.fl[i]])
    && (k + 1 == |h.fl| ==> r.fl[at] + r.size[r.fl[at]] == bp + h.size[bp])
  }

  lemma FreedGrew(base: int, h: Heap, k: nat, bp: int)
    requires Valid(base, h) && Place(h, k, bp) && bp in h.live
    ensures h.fl[k] in h.size && bp in h.size && (k + 1 < |h.fl| ==> h.fl[k + 1] in h.size)
    ensures OneGrew(h, Freed(h, k, bp), k, bp, if h.fl[k] + h.size[h.fl[k]] == bp then k else k + 1)
  {
    hide Lives, Covered, Linked;
    Between(base, h, k, bp);
    ListedSizes(base, h);
    var r := Freed(h, k, bp);
    var at := if h.fl[k] + h.size[h.fl[k]] == bp then k else k + 1;
    forall i | 0 <= i < |r.fl| && i != at
      ensures r.fl[i] in h.fl && r.fl[i] in r.size && r.size[r.fl[i]] == h.size[r.fl[i]]
    {
      OtherKept(base, h, k, bp, i);
    }
  }

  lemma OtherKept(base: int, h: Heap, k: nat, bp: int, i: nat)
    requires Listed(base, h) && k < |h.fl| && h.fl[k] in h.size && bp in h.size && bp !in h.fl
    requires k + 1 < |h.fl| ==> h.fl[k + 1] in h.size
    requires i < |Freed(h, k, bp).fl| && i != if h.fl[k] + h.size[h.fl[k]] == bp then k else k + 1
    ensures Freed(h, k, bp).fl[i] in h.fl && Freed(h, k, bp).fl[i] in h.size
    ensures Freed(h, k, bp).fl[i] in Freed(h, k, bp).size
    ensures Freed(h, k, bp).size[Freed(h, k, bp).fl[i]] == h.size[Freed(h, k, bp).fl[i]]
  {
    hide Listed, Joined, Extend, Insert;
    ListedSizes(base, h);
    var h1 := Joined(h, k, bp);
    if h.fl[k] + h.size[h.fl[k]] == bp {
      ExtendKept(h1, k, bp);
      var j := JoinedAt(h, k, bp, i);
      Distinct(base, h, j, k);
    } else {
      InsertKept(h1, k, bp, i);
      var j := JoinedAt(h, k, bp, if i <= k then i else i - 1);
    }
  }

  lemma ExtendKept(h: Heap, k: nat, bp: int)
    requires k < |h.fl| && bp in h.size && h.fl[k] in h.size
    ensures Extend(h, k, bp).fl == h.fl && Extend(h, k, bp).size.Keys == h.size.Keys
    ensures forall b :: b in h.size && b != h.fl[k] ==> Extend(h, k, bp).size[b] == h.size[b]
  {
  }

  lemma InsertKept(h: Heap, k: nat, bp: int, i: nat)
    requires k < |h.fl| && i < |Insert(h, k, bp).fl| && i != k + 1
    ensures |Insert(h, k, bp).fl| == |h.fl| + 1 && Insert(h, k, bp).fl[i] == h.fl[if i <= k then i else i - 1]
    ensures Insert(h, k, bp).size == h.size
  {
  }

  /** An element of the joined list, where it was before, with its old size. */
  lemma JoinedAt(h: Heap, k: nat, bp: int, i: nat) returns (j: nat)
    requires k < |h.fl| && h.fl[k] in h.size && bp in h.size && (k + 1 < |h.fl| ==> h.fl[k + 1] in h.size)
    requires i < |Joined(h, k, bp).fl| && bp !in h.fl
    ensures j < |h.fl| && Joined(h, k, bp).fl[i] == h.fl[j] != bp && (i == k <==> j == k)
    ensures h.fl[j] in h.size ==> h.fl[j] in Joined(h, k, bp).size && Joined(h, k, bp).size[h.fl[j]] == h.size[h.fl[j]]
  {
    j := if i <= k || !Touches(h, k, bp) then i else i + 1;
    assert h.fl[j] in h.fl;
  }

  /** Only the pointers of listed blocks matter. */
  lemma PtrFrame(base: int, h: Heap, h': Heap)
    requires Valid(base, h) && h' == h.(ptr := h'.ptr)
    requires forall i :: 0 <= i < |h.fl| ==> h.fl[i] in h'.ptr && h'.ptr[h.fl[i]] == h.ptr[h.fl[i]]
    ensures Valid(base, h')
  {
    hide Listed;
    assert Listed(base, h') by { PtrListed(base, h, h'); }
    forall b ensures IsBlock(base, h', b) <==> IsBlock(base, h, b) {}
    SameBlocks(base, h, h');
  }

  lemma PtrListed(base: int, h: Heap, h': Heap)
    requires Listed(base, h) && h' == h.(ptr := h'.ptr)
    requires forall i :: 0 <= i < |h.fl| ==> h.fl[i] in h'.ptr && h'.ptr[h.fl[i]] == h.ptr[h.fl[i]]
    ensures Listed(base, h')
  {
    ListedFrame(base, h, h');
  }

  // ---- Walking the cycle -------------------------------------------------------------------------

  function Prev(list: seq<int>, j: nat): int
    requires j < |list|
  {
    if j > 0 then list[j - 1] else list[|list| - 1]
  }

  /** Each of the blocks points to the next, the last to the first. */
  ghost predicate Ring(list: seq<int>, ptr: map<int, int>, size: map<int, int>) {
    && |list| > 0
    && (forall i :: 0 <= i < |list| ==> list[i] in size && list[i] in ptr && ptr[list[i]] == Next(list, i))
    && (forall i, j :: 0 <= i < j < |list| ==> list[i] != list[j])
  }

  lemma RingAt(list: seq<int>, ptr: map<int, int>, size: map<int, int>, i: nat)
    requires Ring(list, ptr, size) && i < |list|
    ensures list[i] in size && list[i] in ptr && ptr[list[i]] == Next(list, i)
  {
  }

  lemma RingOnce(list: seq<int>, ptr: map<int, int>, size: map<int, int>, i: nat, j: nat)
    requires Ring(list, ptr, size) && i < |list| && j < |list| && list[i] == list[j]
    ensures i == j
  {
  }

  lemma ValidRing(base: int, h: Heap)
    requires Valid(base, h)
    ensures Ring(h.fl, h.ptr, h.size) && h.fl[0] == base && h.size[base] == 0
  {
    hide Lives, Covered;
    Sizes(base, h);
  }

  /** How far index i lies after index s on a cycle of n. */
  function Ahead(s: int, i: int, n: int): int {
    if i > s then i - s - 1 else i - s - 1 + n
  }

  function Succ(i: int, n: int): int {
    if i + 1 < n then i + 1 else 0
  }

  lemma {:induction false} PlaceExists(base: int, h: Heap, bp: int, n: nat) returns (k: nat)
    requires Listed(base, h) && bp > base && bp !in h.fl && 1 <= n <= |h.fl|
    requires n < |h.fl| ==> bp < h.fl[n]
    ensures Place(h, k, bp)
    decreases n
  {
    hide Linked, Spaced;
    if h.fl[n - 1] < bp {
      k := n - 1;
    } else {
      assert h.fl[n - 1] in h.fl;
      k := PlaceExists(base, h, bp, n - 1);
    }
  }

  /** free's loop stops at p = fl[j] exactly when j is the place of bp. */
  lemma StopsAtPlace(base: int, h: Heap, j: nat, bp: int)
    requires Listed(base, h) && bp > base && bp !in h.fl && j < |h.fl|
    ensures var p, nx := h.fl[j], Next(h.fl, j);
            Place(h, j, bp) <==> (bp > p && bp < nx) || (p >= nx && (bp > p || bp < nx))
  {
    hide Linked;
    Sizes(base, h);
    if j + 1 < |h.fl| {
      assert h.fl[j] < h.fl[j + 1];
    } else if j > 0 {
      assert h.fl[0] + h.size[h.fl[0]] < h.fl[j];
    }
  }

  class Allocator {
    // The address of the static empty block.
    const base: int
    var freep: Option<int>
    var ptr: map<int, int>
    var size: map<int, int>
    ghost var fl: seq<int>
    ghost var live: map<int, int>
    ghost var own: map<int, int>
    // The units that sbrk has given the process, and the break after the last call.
    ghost var got: set<int>
    ghost var brk: int

    ghost function H(): Heap
      reads this
    {
      Heap(ptr, size, fl, live, own)
    }

    /** The list and the blocks are in order. */
    ghost predicate Shaped()
      reads this
    {
      freep.Some? && Valid(base, H()) && freep.value in fl
    }

    /** And every unit of every block is memory that the process has, below the break. */
    ghost predicate Ready()
      reads this
    {
      Shaped() && 0 <= base < brk <= TOP && Below() && forall u :: u in own ==> u in got
    }

    ghost predicate Below()
      reads this
    {
      forall u :: u in got ==> u < brk
    }

    /** Before the first malloc. */
    ghost predicate Fresh()
      reads this
    {
      freep.None? && fl == [] && live == map[] && own == map[] && 0 <= base < brk <= TOP && Below()
    }

    /** Block b holds nbytes, in memory that the process has. */
    ghost predicate Serves(b: int, nbytes: int)
      reads this
    {
      b in live && (live[b] - 1) * HEADER >= nbytes && forall u :: b <= u < b + live[b] ==> u in got
    }

    constructor (base: int)
      requires 0 <= base < TOP
      ensures this.base == base && Fresh() && got == {} && brk == base + 1
    {
      this.base := base;
      freep := None;
      ptr, size := map[], map[];
      fl, live, own, got, brk := [], map[], map[], {}, base + 1;
    }

    /** The loop of free: around the cycle from freep to the place of bp. */
    method FindPlace(bp: int) returns (p: int, ghost k: nat)
      requires Shaped() && bp in live
      ensures Place(H(), k, bp) && p == fl[k]
    {
      hide Lives, Covered, Place, Linked;
      ghost var n := |fl|;
      assert bp > base && bp !in fl by { LiveFacts(base, H(), bp); }
      ghost var goal := PlaceExists(base, H(), bp, n);
      assert 0 <= goal < n by { PlaceRange(H(), goal, bp); }
      p := freep.value;
      ghost var j :| 0 <= j < n && fl[j] == p;
      PtrIsNext(base, H(), j);
      while !(bp > p && bp < ptr[p])
        invariant 0 <= j < n && p == fl[j] && p in ptr && ptr[p] == Next(fl, j)
        decreases if j <= goal then goal - j else goal - j + n
      {
        StopsAtPlace(base, H(), j, bp);
        if p >= ptr[p] && (bp > p || bp < ptr[p]) {
          break;
        }
        if j == goal { assert false; }
        p := ptr[p];
        j := Succ(j, n);
        PtrIsNext(base, H(), j);
      }
      StopsAtPlace(base, H(), j, bp);
      k := j;
    }

    /** The assignments of free, p being the free block before bp. */
    method Relink(p: int, bp: int, ghost k: nat)
      requires k < |fl| && p == fl[k] && bp in size && p in size && p in ptr && bp != p
      requires ptr[p] == Next(fl, k) && Next(fl, k) in size && Next(fl, k) in ptr
      requires k + 1 < |fl| ==> ptr[fl[k + 1]] == Next(fl, k + 1) && fl[k + 1] != bp && fl[k + 1] != p
      modifies `ptr, `size
      ensures Straight(old(H()), k, bp) ==> ptr == PtrsWritten(old(H()), k, bp) && size == SizesWritten(old(H()), k, bp)
      ensures Around(old(H()), k, bp) ==> ptr == PtrsAround(old(H()), k, bp) && size == SizesAround(old(H()), k, bp)
    {
      var nx := ptr[p];
      if Plus(bp, size[bp]) == nx {
        size := size[bp := size[bp] + size[nx]];
        ptr := ptr[bp := ptr[nx]];
      } else {
        ptr := ptr[bp := nx];
      }
      if Plus(p, size[p]) == bp {
        size := size[p := size[p] + size[bp]];
        ptr := ptr[p := ptr[bp]];
      } else {
        ptr := ptr[p := bp];
      }
    }

    /** free up to its last assignment. */
    method Enlist(bp: int) returns (p: int, ghost k: nat)
      requires Shaped() && bp in live
      modifies `freep, `ptr, `size
      ensures Place(old(H()), k, bp) && k < |fl| && p == fl[k] && freep == Some(p)
      ensures Straight(old(H()), k, bp) ==> ptr == PtrsWritten(old(H()), k, bp) && size == SizesWritten(old(H()), k, bp)
      ensures Around(old(H()), k, bp) ==> ptr == PtrsAround(old(H()), k, bp) && size == SizesAround(old(H()), k, bp)
    {
      hide Valid, Place, Straight, Around;
      p, k := FindPlace(bp);
      FreeFacts(base, H(), k, bp);
      NextFacts(base, H(), k);
      Relink(p, bp, k);
      freep := Some(p);
    }

    /** The pointer sums of free do not go round to base: the block ends below the last address,
        or it comes after all free blocks and does not end at base, or base is all there is. */
    ghost predicate AddsUp(bp: int)
      reads this
    {
      0 <= base && bp in live && Sums(base, H(), bp)
    }

    lemma ReadyAddsUp(bp: int)
      requires Ready() && bp in live
      ensures AddsUp(bp)
    {
      hide Valid;
      LiveOwned(base, H(), bp);
      assert bp + live[bp] - 1 in own;
    }

    /** Gives the block bp = ap - 1 back, joined with a free block on either
        side that touches it. Nothing else changes hands, and some free block is
        now at least as large as bp was. */
    method Free(ap: int) returns (ghost at: nat, ghost k: nat)
      requires Ready() || (Shaped() && AddsUp(ap - 1))
      requires ap - 1 in live
      modifies `freep, `ptr, `size, `fl, `live, `own
      ensures Shaped() && (old(Ready()) ==> Ready())
      ensures live == old(live) - {ap - 1}
      ensures forall u :: u in own <==> u in old(own)
      ensures at < |fl| && fl[at] in size && size[fl[at]] >= old(live)[ap - 1]
      ensures Place(old(H()), k, ap - 1) && OneGrew(old(H()), H(), k, ap - 1, at)
      ensures k < |old(fl)| && freep == Some(old(fl)[k])
    {
      hide Valid, Place, Straight, Around;
      var bp := ap - 1;
      ghost var h := H();
      if Ready() {
        ReadyAddsUp(bp);
      }
      var p;
      p, k := Enlist(bp);
      Straightens(base, h, k, bp);
      at := Settle(h, k, bp);
    }

    /** What the assignments of free have made of heap h. */
    ghost method Settle(h: Heap, k: nat, bp: int) returns (at: nat)
      requires Valid(base, h) && Place(h, k, bp) && bp in h.live && Straight(h, k, bp)
      requires ptr == PtrsWritten(h, k, bp) && size == SizesWritten(h, k, bp) && freep == Some(h.fl[k])
      modifies `fl, `live, `own
      ensures Shaped() && live == h.live - {bp} && (forall u :: u in own <==> u in h.own)
      ensures at < |fl| && fl[at] in size && size[fl[at]] >= h.live[bp] && OneGrew(h, H(), k, bp, at)
    {
      hide Valid, Place, Freed, Straight;
      at := FreeDone(base, h, k, bp);
      var r := Freed(h, k, bp);
      fl, live, own := r.fl, r.live, r.own;
      assert fl[k] in fl;
    }

    /** One trip of malloc's loop round the cycle, from the block after freep to
        freep itself: the first block with room for n units, or none. */
    method Scan(n: int) returns (found: bool, prevp: int, p: int, ghost j: nat)
      requires freep.Some? && freep.value in fl && Ring(fl, ptr, size) && n > 0
      ensures found ==> j < |fl| && p == fl[j] && prevp == Prev(fl, j) && p in size && size[p] >= n
      ensures found ==> FirstFrom(fl, size, freep.value, n, j)
      ensures !found ==> forall i :: 0 <= i < |fl| ==> fl[i] in size && size[fl[i]] < n
    {
      hide Ring;
      ghost var len := |fl|;
      prevp := freep.value;
      ghost var s: int :| 0 <= s < len && fl[s] == prevp;
      RingAt(fl, ptr, size, s);
      p := ptr[prevp];
      j := Succ(s, len);
      while true
        invariant 0 <= j < len && p == fl[j] && prevp == Prev(fl, j)
        invariant forall i :: 0 <= i < len && Ahead(s, i, len) < Ahead(s, j, len) ==> fl[i] in size && size[fl[i]] < n
        decreases len - Ahead(s, j, len)
      {
        RingAt(fl, ptr, size, j);
        if size[p] >= n {
          found := true;
          return;
        }
        if p == freep.value {
          RingOnce(fl, ptr, size, s, j);
          found := false;
          return;
        }
        assert Ahead(s, Succ(j, len), len) == Ahead(s, j, len) + 1;
        prevp := p;
        p := ptr[p];
        j := Succ(j, len);
      }
    }

    /** The base header has left the list h.fl, to which the n units from hp on were added. */
    ghost predicate Stripped(h: Heap, hp: int, n: int)
      reads this
    {
      && |h.fl| > 1 && h.fl[|h.fl| - 1] in h.size && freep == Some(h.fl[|h.fl| - 1]) && live == h.live
      && Ring(fl, ptr, size)
      && var last := h.fl[|h.fl| - 1];
         if last + h.size[last] == hp
         then fl == h.fl[1..] && size == h.size[hp := n][last := h.size[last] + n]
         else fl == h.fl[1..] + [hp] && size == h.size[hp := n]
    }

    /** And once they have been taken off again: the other free blocks, as they were. */
    ghost predicate Headless(h: Heap, hp: int, n: int)
      reads this
    {
      && |h.fl| > 1 && fl == h.fl[1..] && Ring(fl, ptr, size) && freep.Some? && freep.value in fl
      && live == h.live[hp := n] && forall i :: 0 <= i < |fl| ==> fl[i] in h.size && size[fl[i]] == h.size[fl[i]]
    }

    /** Asks sbrk for nu units, at least CORE, and puts that many on the list, whatever the
        int that sbrk received. `grant` is its answer. */
    method MoreCore(nu: int, grant: Option<int>) returns (ok: bool, ghost at: nat)
      requires Ready() && 0 < nu <= SPACE && Answered(brk, grant, CoreUnits(nu))
      modifies `freep, `ptr, `size, `fl, `live, `own, `got, `brk
      ensures live == old(live) && ok == grant.Some?
      ensures !ok ==> H() == old(H()) && got == old(got) && brk == old(brk) && freep == old(freep)
      ensures ok ==> forall u :: u in own <==> u in old(own) || grant.value <= u < grant.value + CoreUnits(nu)
      ensures ok ==> got == Sbrked(old(got), grant.value, SbrkMove(grant.value, CoreUnits(nu)))
      ensures ok ==> brk == grant.value + SbrkMove(grant.value, CoreUnits(nu))
      ensures ok && GoesRound(old(H()), base, grant.value, CoreUnits(nu)) ==>
                Stripped(old(H()), grant.value, CoreUnits(nu))
      ensures ok && !GoesRound(old(H()), base, grant.value, CoreUnits(nu)) ==>
                Shaped() && Added(old(H()), H(), grant.value, CoreUnits(nu), at)
    {
      hide Valid, Place, SbrkArg, SbrkMove, Sbrked, Straight, Around, Added, Ring;
      var n := CoreUnits(nu);
      if grant.None? {
        return false, 0;
      }
      var hp := grant.value;
      ghost var h := H();
      NotListedYet(base, h, brk, hp);
      size := size[hp := n];
      ghost var g := Granted(h, hp, n);
      live, own := g.live, g.own;
      GrantedOk(base, h, hp, n);
      var _, k := Enlist(hp);
      at := Grew(h, hp, n, k);
      got, brk := Sbrked(got, hp, SbrkMove(hp, n)), hp + SbrkMove(hp, n);
      ok := true;
    }

    /** What the assignments of free have made of heap h and the n units from hp on, past all of it. */
    ghost method Grew(h: Heap, hp: int, n: int, k: nat) returns (at: nat)
      requires Valid(base, h) && 0 <= base < brk <= hp <= TOP && 0 < n <= SPACE && (forall u :: u in h.own ==> u < brk)
      requires hp !in h.fl && H() == Granted(h, hp, n).(ptr := ptr, size := size) && Valid(base, Granted(h, hp, n))
      requires Place(Granted(h, hp, n), k, hp) && freep == Some(h.fl[k])
      requires Straight(Granted(h, hp, n), k, hp) ==>
                 ptr == PtrsWritten(Granted(h, hp, n), k, hp) && size == SizesWritten(Granted(h, hp, n), k, hp)
      requires Around(Granted(h, hp, n), k, hp) ==>
                 ptr == PtrsAround(Granted(h, hp, n), k, hp) && size == SizesAround(Granted(h, hp, n), k, hp)
      modifies `fl, `live, `own
      ensures live == h.live && forall u :: u in own <==> u in Granted(h, hp, n).own
      ensures GoesRound(h, base, hp, n) ==> Stripped(h, hp, n)
      ensures !GoesRound(h, base, hp, n) ==> Shaped() && Added(h, H(), hp, n, at)
    {
      hide Valid, Straight, Around, Ring, Added, Place, Stripped, Sums;
      GrantedFacts(base, h, hp, n);
      LastPlace(base, h, brk, hp, n, k);
      if GoesRound(h, base, hp, n) {
        GrewRound(h, hp, n, k);
        at := 0;
      } else {
        Straightens(base, Granted(h, hp, n), k, hp);
        at := GrewLast(h, Granted(h, hp, n), hp, n, k);
      }
    }

    ghost method GrewRound(h: Heap, hp: int, n: nat, k: nat)
      requires Valid(base, h) && |h.fl| > 1 && hp !in h.fl && n > 0 && k == |h.fl| - 1 && freep == Some(h.fl[k])
      requires Around(Granted(h, hp, n), k, hp)
      requires ptr == PtrsAround(Granted(h, hp, n), k, hp) && size == SizesAround(Granted(h, hp, n), k, hp)
      modifies `fl, `live
      ensures Stripped(h, hp, n) && live == h.live
    {
      hide Valid, Around, Ring, PtrsAround;
      RoundRing(base, h, hp, n, k);
      fl := if h.fl[k] + h.size[h.fl[k]] == hp then h.fl[1..] else h.fl[1..] + [hp];
      live := h.live;
    }

    ghost method GrewLast(h: Heap, g: Heap, hp: int, n: int, k: nat) returns (at: nat)
      requires Valid(base, h) && base < brk <= hp && (forall u :: u in h.own ==> u < brk)
      requires Valid(base, g) && g.fl == h.fl && g.size == h.size[hp := n] && hp in g.live && g.live[hp] == n
      requires g.live - {hp} == h.live && Place(g, k, hp) && Straight(g, k, hp) && freep == Some(g.fl[k])
      requires ptr == PtrsWritten(g, k, hp) && size == SizesWritten(g, k, hp)
      modifies `fl, `live, `own
      ensures Shaped() && Added(h, H(), hp, n, at) && live == h.live && forall u :: u in own <==> u in g.own
    {
      hide Valid, Straight, Added, Place, OneGrew;
      at := Settle(g, k, hp);
      LastGrew(base, h, g, H(), brk, hp, k, at);
    }

    /** The assignments with which malloc takes n units from p. */
    method CutOff(prevp: int, p: int, n: int) returns (b: int)
      requires p in size && p in ptr && prevp in ptr && 0 < n <= size[p] && 0 <= p + size[p] - n < SPACE
      modifies `freep, `ptr, `size
      ensures freep == Some(prevp) && b == p + old(size)[p] - n
      ensures old(size)[p] == n ==> size == old(size) && ptr == old(ptr)[prevp := old(ptr)[p]]
      ensures old(size)[p] > n ==> size == old(size)[p := old(size)[p] - n][b := n] && ptr == old(ptr)
    {
      if size[p] == n {
        ptr := ptr[prevp := ptr[p]];
        b := p;
      } else {
        size := size[p := size[p] - n];
        b := Plus(p, size[p]);
        size := size[b := n];
      }
      freep := Some(prevp);
    }

    /** Takes n units out of the block p = fl[j], which has at least that many: all of it, or its
        last n. On the list that base has left, these are the units from hp on. */
    method Carve(prevp: int, p: int, n: int, ghost j: nat, ghost h0: Heap, ghost hp: int) returns (b: int)
      requires j < |fl| && p == fl[j] && prevp == Prev(fl, j) && p in size && 0 < n <= size[p]
      requires if Shaped() then j > 0 && 0 <= p + size[p] - n < SPACE else Detached(h0, hp, n) && Stripped(h0, hp, n)
      modifies `freep, `ptr, `size, `fl, `live, `own
      ensures old(Shaped()) ==> Shaped() && b !in old(live) && live == old(live)[b := n] && b == p + old(size)[p] - n
      ensures freep == Some(prevp)
      ensures !old(Shaped()) ==> Headless(h0, hp, n) && b == hp
      ensures forall u :: u in own <==> u in old(own)
    {
      hide Valid, Ring;
      ghost var h, shaped := H(), Shaped();
      if shaped {
        CarveFacts(base, h, j);
        PrevFacts(base, h, j);
      } else {
        StrippedAt(base, h0, fl, ptr, size, hp, n, j);
      }
      b := CutOff(prevp, p, n);
      if shaped {
        Carved(h, j, n, b);
      } else {
        CarvedStripped(h0, h, hp, n, j);
      }
    }

    /** What malloc's assignments have made of heap h. */
    ghost method Carved(h: Heap, j: nat, n: int, b: int)
      requires Valid(base, h) && 0 < j < |h.fl| && h.fl[j] in h.size && h.fl[j] in h.ptr
      requires h.ptr[h.fl[j]] == Next(h.fl, j)
      requires 0 < n <= h.size[h.fl[j]] && b == h.fl[j] + h.size[h.fl[j]] - n && freep == Some(h.fl[j - 1])
      requires h.size[h.fl[j]] == n ==> size == h.size && ptr == h.ptr[h.fl[j - 1] := h.ptr[h.fl[j]]]
      requires h.size[h.fl[j]] > n ==> size == h.size[h.fl[j] := h.size[h.fl[j]] - n][b := n] && ptr == h.ptr
      modifies `fl, `live, `own
      ensures Shaped() && b !in h.live && live == h.live[b := n] && forall u :: u in own <==> u in h.own
    {
      hide Valid;
      CarveFacts(base, h, j);
      PrevStays(h, j);
      var r := if h.size[h.fl[j]] == n then Take(h, j) else Split(h, j, n);
      if h.size[h.fl[j]] == n {
        TakeOk(base, h, j);
      } else {
        SplitOk(base, h, j, n);
        NotLiveInside(base, h, j, b);
      }
      fl, live, own := r.fl, r.live, r.own;
    }

    ghost method CarvedStripped(h0: Heap, h: Heap, hp: int, n: int, j: nat)
      requires Detached(h0, hp, n) && |h0.fl| > 1 && n > 0 && Ring(h.fl, h.ptr, h.size) && j == |h.fl| - 1
      requires var last := h0.fl[|h0.fl| - 1];
               if last + h0.size[last] == hp
               then h.fl == h0.fl[1..] && h.size == h0.size[hp := n][last := h0.size[last] + n]
               else h.fl == h0.fl[1..] + [hp] && h.size == h0.size[hp := n]
      requires h.fl[j] in h.ptr && freep == Some(Prev(h.fl, j))
      requires h.size[h.fl[j]] == n ==> size == h.size && ptr == h.ptr[Prev(h.fl, j) := h.ptr[h.fl[j]]]
      requires h.size[h.fl[j]] > n ==> size == h.size[h.fl[j] := h.size[h.fl[j]] - n][hp := n] && ptr == h.ptr
      modifies `fl, `live
      ensures Headless(h0, hp, n)
    {
      hide Valid, Ring;
      var last := h0.fl[|h0.fl| - 1];
      ListFactsOf(base, h0, |h0.fl| - 1);
      if last + h0.size[last] == hp {
        StrippedSplit(h0, h.ptr, hp, n);
      } else {
        StrippedTake(h0, h.fl, h.ptr, hp, n);
      }
      fl, live := h0.fl[1..], h0.live[hp := n];
    }

    /** What is known of h, its blocks too small for n units, and the n units from hp on. */
    ghost predicate Detached(h: Heap, hp: int, n: int) {
      && Valid(base, h) && hp !in h.fl && hp !in h.live && 0 <= hp < SPACE
      && forall i :: 0 <= i < |h.fl| ==> h.fl[i] in h.size && h.size[h.fl[i]] < n
    }

    /** The process has got the nu units from g on as far as sbrk gave them. */
    ghost predicate Moved(own0: map<int, int>, got0: set<int>, g: int, nu: int)
      reads this
    {
      && (forall u :: u in own <==> u in own0 || g <= u < g + nu)
      && got == Sbrked(got0, g, SbrkMove(g, nu)) && brk == g + SbrkMove(g, nu)
    }

    /** Block p = fl[j] has at least n units. */
    ghost predicate Fits(prevp: int, p: int, n: int, j: nat)
      reads this
    {
      j < |fl| && p == fl[j] && prevp == Prev(fl, j) && p in size && size[p] >= n
    }

    /** morecore and the trip round the list after it. */
    method ScanMore(n: int, grant: Option<int>) returns (found: bool, prevp: int, p: int, ghost j: nat)
      requires Ready() && 0 < n <= SPACE && Answered(brk, grant, CoreUnits(n))
      requires forall i :: 0 <= i < |fl| ==> fl[i] in size && size[fl[i]] < n
      modifies `freep, `ptr, `size, `fl, `live, `own, `got, `brk
      ensures live == old(live) && found == grant.Some?
      ensures !found ==> Ready() && own == old(own) && got == old(got) && brk == old(brk)
      ensures found ==> Fits(prevp, p, n, j) && Moved(old(own), old(got), grant.value, CoreUnits(n))
      ensures found ==> if GoesRound(old(H()), base, grant.value, CoreUnits(n))
                        then Stripped(old(H()), grant.value, CoreUnits(n))
                        else Shaped() && j > 0 && p + size[p] == grant.value + CoreUnits(n)
    {
      hide Valid, SbrkArg, SbrkMove, Sbrked, Ring, Added, FirstFrom;
      ghost var at, h := 0, H();
      if grant.Some? {
        NotListedYet(base, h, brk, grant.value);
      }
      found, at := MoreCore(n, grant);
      if !found {
        return false, 0, 0, 0;
      }
      ghost var round := GoesRound(h, base, grant.value, CoreUnits(n));
      if !round {
        ValidRing(base, H());
      }
      found, prevp, p, j := Scan(n);
      if round {
        ListFactsOf(base, h, |h.fl| - 1);
        StrippedFound(h, fl, size, grant.value, CoreUnits(n));
      } else {
        AddedFound(h, H(), grant.value, CoreUnits(n), at, n, j, found);
      }
    }

    /** A free block of at least n units, asking sbrk if there is none. */
    method Obtain(n: int, grant: Option<int>) returns (found: bool, asked: bool, prevp: int, p: int, ghost j: nat)
      requires Ready() && 0 < n <= SPACE && Answered(brk, grant, CoreUnits(n))
      modifies `freep, `ptr, `size, `fl, `live, `own, `got, `brk
      ensures live == old(live) && (found <==> !(asked && grant.None?))
      ensures asked <==> forall i :: 0 <= i < |old(fl)| ==> old(fl)[i] in old(size) && old(size)[old(fl)[i]] < n
      ensures found ==> Fits(prevp, p, n, j)
      ensures !(asked && grant.Some?) ==>
                Ready() && (found ==> j > 0) && own == old(own) && got == old(got) && brk == old(brk)
      ensures !asked ==> H() == old(H()) && freep == old(freep) && FirstFrom(fl, size, freep.value, n, j)
      ensures asked && grant.Some? ==> Moved(old(own), old(got), grant.value, CoreUnits(n))
      ensures asked && grant.Some? ==>
                if GoesRound(old(H()), base, grant.value, CoreUnits(n))
                then Stripped(old(H()), grant.value, CoreUnits(n))
                else Shaped() && j > 0 && p + size[p] == grant.value + CoreUnits(n)
    {
      hide Valid, Ring, Moved, Stripped, CoreUnits, Answered, FirstFrom;
      ValidRing(base, H());
      found, prevp, p, j := Scan(n);
      asked := !found;
      if asked {
        found, prevp, p, j := ScanMore(n, grant);
      }
    }

    /** malloc in units, once there is a list. */
    method Allocate(n: int, grant: Option<int>) returns (r: Option<int>, asked: bool)
      requires Ready() && 0 < n <= SPACE && Answered(brk, grant, CoreUnits(n))
      requires grant.Some? ==> 0 <= grant.value + CoreUnits(n) - n < SPACE
      modifies `freep, `ptr, `size, `fl, `live, `own, `got, `brk
      ensures asked <==> forall i :: 0 <= i < |old(fl)| ==> old(fl)[i] in old(size) && old(size)[old(fl)[i]] < n
      ensures r.None? <==> asked && grant.None?
      ensures r.None? ==> live == old(live)
      ensures r.Some? ==> r.value - 1 !in old(live) && live == old(live)[r.value - 1 := n]
      ensures !asked ==> NextFit(old(H()), old(freep), n, r.value - 1, freep)
      ensures !(asked && grant.Some?) ==>
                Ready() && (forall u :: u in own <==> u in old(own)) && got == old(got) && brk == old(brk)
      ensures asked && grant.Some? ==>
                && Moved(old(own), old(got), grant.value, CoreUnits(n)) && r == Some(grant.value + CoreUnits(n) - n + 1)
                && if GoesRound(old(H()), base, grant.value, CoreUnits(n))
                   then Headless(old(H()), grant.value, n) && !Shaped() else Shaped()
    {
      hide Valid, SbrkArg, SbrkMove, Sbrked, Ring, Stripped, CoreUnits, FirstFrom, NextFit;
      ghost var h, hp := H(), if grant.Some? then grant.value else 0;
      if grant.Some? {
        NotListedYet(base, h, brk, hp);
        NotLiveYet(base, h, hp);
        RoundCore(h, base, hp, n);
      }
      var found, prevp, p;
      ghost var j;
      found, asked, prevp, p, j := Obtain(n, grant);
      if !found {
        return None, asked;
      }
      if !(asked && grant.Some?) {
        FreeBelow(base, H(), brk, j);
      } else if GoesRound(h, base, hp, CoreUnits(n)) {
        StrippedNot(h, hp, n);
      }
      var b := Carve(prevp, p, n, j, h, hp);
      if asked && grant.Some? && GoesRound(h, base, hp, CoreUnits(n)) {
        HeadlessNot(h, hp, n);
      } else if !asked {
        NextFitAt(h, old(freep), n, b, freep, j);
      }
      r := Some(b + 1);
    }

    lemma StrippedNot(h: Heap, hp: int, n: int)
      requires Stripped(h, hp, n) && Valid(base, h)
      ensures !Shaped()
    {
      hide Ring, Lives, Covered;
      Distinct(base, h, 0, 1);
    }

    lemma HeadlessNot(h: Heap, hp: int, n: int)
      requires Headless(h, hp, n) && Valid(base, h)
      ensures !Shaped()
    {
      hide Ring, Lives, Covered;
      Distinct(base, h, 0, 1);
    }

    lemma ReadyServes(b: int, nbytes: int)
      requires Ready() && 0 <= nbytes < U32 && b in live && live[b] == Nunits(nbytes)
      ensures Serves(b, nbytes) <==> nbytes <= U32 - HEADER
    {
      hide Valid, Nunits;
      LargeEnough(nbytes);
      LiveOwned(base, H(), b);
    }

    /** The block b that malloc cut from what sbrk answered with. */
    lemma AfterGrant(own0: map<int, int>, got0: set<int>, brk0: int, g: int, nbytes: int, b: int)
      requires 0 <= nbytes < U32 && 0 <= base < brk0 && Answered(brk0, Some(g), CoreUnits(Nunits(nbytes)))
      requires Moved(own0, got0, g, CoreUnits(Nunits(nbytes)))
      requires (forall u :: u in own0 ==> u in got0) && forall u :: u in got0 ==> u < brk0
      requires b == g + CoreUnits(Nunits(nbytes)) - Nunits(nbytes) && b in live && live[b] == Nunits(nbytes)
      ensures if TooMuch(nbytes)
              then !Ready() && Unbacked(this, b, Nunits(nbytes))
              else && (Shaped() ==> Ready())
                   && forall u :: u in got <==> u in got0 || g <= u < g + CoreUnits(Nunits(nbytes))
      ensures Serves(b, nbytes) <==> nbytes <= U32 - HEADER && !TooMuch(nbytes)
    {
      hide Valid, Nunits, CoreUnits, SbrkArg, SbrkMove;
      AnswerMeans(H(), base, brk0, g, nbytes);
      LargeEnough(nbytes);
      UnitsFit(nbytes);
      CoreFits(Nunits(nbytes));
      assert TooMuch(nbytes) ==> b in own && b !in got;
    }

    /** malloc: None only when no free block is large enough and sbrk fails; else a block of
        Nunits(nbytes) units that nobody was using. sbrk is asked at most once, when no free
        block is large enough. The block serves its purpose exactly when nbytes is at most
        2^32 - 8, and at most 2^31 - 16 if sbrk was asked; after a larger request that sbrk
        answered, the heap has blocks without memory, and where such a block seems to end at
        base the list has lost base. */
    method Malloc(nbytes: int, grant: Option<int>) returns (r: Option<int>, asked: bool)
      requires 0 <= nbytes < U32 && (Ready() || Fresh()) && Answered(brk, grant, CoreUnits(Nunits(nbytes)))
      modifies `freep, `ptr, `size, `fl, `live, `own, `got, `brk
      ensures Ready() <==> !(asked && grant.Some? && TooMuch(nbytes))
      ensures Shaped() <==> !(asked && grant.Some? && GoesRound(old(H()), base, grant.value, Nunits(nbytes)))
      ensures !Shaped() ==>
                TooMuch(nbytes) && Headless(old(H()), grant.value, Nunits(nbytes)) && r == Some(grant.value + 1)
      ensures asked <==> forall i :: 0 <= i < |old(fl)| ==>
                old(fl)[i] in old(size) && old(size)[old(fl)[i]] < Nunits(nbytes)
      ensures r.None? <==> asked && grant.None?
      ensures r.None? ==> live == old(live)
      ensures r.Some? ==> r.value - 1 !in old(live) && live == old(live)[r.value - 1 := Nunits(nbytes)]
      ensures !asked ==> NextFit(old(H()), old(freep), Nunits(nbytes), r.value - 1, freep)
      ensures asked && grant.Some? ==> r == Some(grant.value + CoreUnits(Nunits(nbytes)) - Nunits(nbytes) + 1)
      ensures r.Some? ==>
                (Serves(r.value - 1, nbytes) <==> nbytes <= U32 - HEADER && (asked ==> nbytes <= U32 / 2 - 16))
      ensures asked && grant.Some? && TooMuch(nbytes) ==> r.Some? && Unbacked(this, r.value - 1, Nunits(nbytes))
      ensures asked && grant.Some? ==>
                forall u :: u in own <==> u in old(own) || grant.value <= u < grant.value + CoreUnits(Nunits(nbytes))
      ensures !(asked && grant.Some?) ==> forall u :: u in own <==> u in old(own)
      ensures asked && grant.Some? && !TooMuch(nbytes) ==>
                forall u :: u in got <==> u in old(got) || grant.value <= u < grant.value + CoreUnits(Nunits(nbytes))
      ensures !(asked && grant.Some?) ==> got == old(got) && brk == old(brk)
    {
      hide Valid, Headless, NextFit;
      var nunits := Nunits(nbytes);
      if freep.None? {
        ptr, size := ptr[base := base], size[base := 0];
        freep := Some(base);
        fl := [base];
        EmptyOk(base, H());
      }
      ghost var own0, got0, brk0 := own, got, brk;
      if grant.Some? {
        AnswerMeans(H(), base, brk, grant.value, nbytes);
        RoundCore(H(), base, grant.value, nunits);
      }
      UnitsFit(nbytes);
      hide Nunits, SbrkArg, SbrkMove, CoreUnits, Moved, Serves, Unbacked, Answered;
      r, asked := Allocate(nunits, grant);
      if asked && grant.Some? {
        MovedOwn(own0, got0, grant.value, CoreUnits(nunits));
        AfterGrant(own0, got0, brk0, grant.value, nbytes, r.value - 1);
      } else if r.Some? {
        ReadyServes(r.value - 1, nbytes);
      }
    }

    lemma MovedOwn(own0: map<int, int>, got0: set<int>, g: int, nu: int)
      requires Moved(own0, got0, g, nu)
      ensures forall u :: u in own <==> u in own0 || g <= u < g + nu
    {
    }
  }

  // ---- Growing the heap ------------------------------------------------------------------------

  /** The n units from g on come after other free blocks and seem to end at base. */
  ghost predicate GoesRound(h: Heap, base: int, g: int, n: int) {
    |h.fl| > 1 && g + n == base + SPACE
  }

  /** Heap r is h with the n units from hp on in its free block `at`, which they end. */
  ghost predicate Added(h: Heap, r: Heap, hp: int, n: int, at: nat) {
    && at < |r.fl| && r.fl[at] in r.size && r.size[r.fl[at]] >= n && r.fl[at] + r.size[r.fl[at]] == hp + n
    && forall i :: 0 <= i < |r.fl| && i != at ==>
         r.fl[i] in h.fl && r.fl[i] in h.size && r.fl[i] in r.size && r.size[r.fl[i]] == h.size[r.fl[i]]
  }

  lemma RoundCore(h: Heap, base: int, g: int, n: int)
    requires 0 <= base && g <= TOP
    ensures GoesRound(h, base, g, CoreUnits(n)) || GoesRound(h, base, g, n) ==> CoreUnits(n) == n
  {
  }

  /** What sbrk's answer to the request of a malloc amounts to. */
  lemma AnswerMeans(h: Heap, base: int, brk: int, g: int, nbytes: int)
    requires 0 <= nbytes < U32 && 0 <= base < brk && Answered(brk, Some(g), CoreUnits(Nunits(nbytes)))
    ensures var n := Nunits(nbytes);
      && n <= SPACE && 0 <= g + CoreUnits(n) - n < SPACE && (GoesRound(h, base, g, n) ==> TooMuch(nbytes))
      && (if TooMuch(nbytes) then CoreUnits(n) == n && SbrkMove(g, CoreUnits(n)) <= 0
          else SbrkMove(g, CoreUnits(n)) == CoreUnits(n) > 0 && g + CoreUnits(n) <= TOP)
  {
    SbrkArgExact(nbytes);
    hide SbrkArg;
  }

  lemma AddedFound(h: Heap, r: Heap, hp: int, n: int, at: nat, nu: int, j: nat, found: bool)
    requires Added(h, r, hp, n, at) && nu <= n
    requires forall i :: 0 <= i < |h.fl| ==> h.fl[i] in h.size && h.size[h.fl[i]] < nu
    requires found ==> j < |r.fl| && r.fl[j] in r.size && r.size[r.fl[j]] >= nu
    requires !found ==> forall i :: 0 <= i < |r.fl| ==> r.fl[i] in r.size && r.size[r.fl[i]] < nu
    ensures found && r.fl[j] + r.size[r.fl[j]] == hp + n
  {
  }

  /** New memory past all blocks goes after the last free one. */
  lemma LastPlace(base: int, h: Heap, brk: int, hp: int, n: int, k: nat)
    requires Valid(base, h) && 0 <= base < brk <= hp <= TOP && 0 < n <= SPACE && (forall u :: u in h.own ==> u < brk)
    requires Place(Granted(h, hp, n), k, hp) && Valid(base, Granted(h, hp, n))
    ensures k == |h.fl| - 1 && h.fl[k] in h.size && h.fl[0] == base && (forall i :: 0 <= i < |h.fl| ==> h.fl[i] < hp)
    ensures GoesRound(h, base, hp, n) ==> Around(Granted(h, hp, n), k, hp)
    ensures !GoesRound(h, base, hp, n) ==> Sums(base, Granted(h, hp, n), hp)
  {
    hide Valid, Plus;
    forall i | 0 <= i < |h.fl| ensures h.fl[i] < hp {
      ListedBelow(base, h, brk, i);
    }
    var g := Granted(h, hp, n);
    Between(base, g, k, hp);
    NextFacts(base, g, k);
    ListAbove(base, g, k);
    PlusIs(hp, n);
    PlusIs(h.fl[k], h.size[h.fl[k]]);
  }

  /** The list that base has left is a ring. */
  lemma RoundRing(base: int, h: Heap, hp: int, n: int, k: nat)
    requires Valid(base, h) && hp !in h.fl && |h.fl| > 1 && k == |h.fl| - 1 && n > 0 && Around(Granted(h, hp, n), k, hp)
    ensures h.fl[k] in h.size
    ensures var list := if h.fl[k] + h.size[h.fl[k]] == hp then h.fl[1..] else h.fl[1..] + [hp];
      Ring(list, PtrsAround(Granted(h, hp, n), k, hp), SizesAround(Granted(h, hp, n), k, hp))
    ensures SizesAround(Granted(h, hp, n), k, hp) ==
            if h.fl[k] + h.size[h.fl[k]] == hp then h.size[hp := n][h.fl[k] := h.size[h.fl[k]] + n] else h.size[hp := n]
  {
    hide Plus, Valid, Ring;
    ValidRing(base, h);
    RingAt(h.fl, h.ptr, h.size, 0);
    RingAt(h.fl, h.ptr, h.size, k);
    assert h.fl[k] != hp && h.fl[0] != hp && h.ptr[h.fl[0]] == h.fl[1];
    assert h.size[hp := n][hp := n] == h.size[hp := n];
    if h.fl[k] + h.size[h.fl[k]] == hp {
      RingLess(h.fl, h.ptr, h.size, hp, n, h.size[h.fl[k]] + n);
    } else {
      RingOther(h.fl, h.ptr, h.size, hp, n);
    }
  }

  lemma RingLess(fl: seq<int>, ptr: map<int, int>, size: map<int, int>, hp: int, n: int, m: int)
    requires Ring(fl, ptr, size) && |fl| > 1 && hp !in fl
    ensures Ring(fl[1..], ptr[hp := fl[1]][fl[|fl| - 1] := fl[1]], size[hp := n][fl[|fl| - 1] := m])
  {
    var list, last := fl[1..], fl[|fl| - 1];
    var ptr1, size1 := ptr[hp := fl[1]][last := fl[1]], size[hp := n][last := m];
    forall i | 0 <= i < |list| ensures list[i] in size1 && list[i] in ptr1 && ptr1[list[i]] == Next(list, i) {
      assert list[i] == fl[i + 1] && list[i] in fl && ptr[fl[i + 1]] == Next(fl, i + 1);
    }
  }

  lemma RingOther(fl: seq<int>, ptr: map<int, int>, size: map<int, int>, hp: int, n: int)
    requires Ring(fl, ptr, size) && |fl| > 1 && hp !in fl
    ensures Ring(fl[1..] + [hp], ptr[hp := fl[1]][fl[|fl| - 1] := hp], size[hp := n])
  {
    var list, last := fl[1..] + [hp], fl[|fl| - 1];
    var ptr1, size1 := ptr[hp := fl[1]][last := hp], size[hp := n];
    forall i | 0 <= i < |list| ensures list[i] in size1 && list[i] in ptr1 && ptr1[list[i]] == Next(list, i) {
      if i < |list| - 1 {
        assert list[i] == fl[i + 1] && list[i] in fl && ptr[fl[i + 1]] == Next(fl, i + 1);
      }
    }
  }

  lemma ListAbove(base: int, h: Heap, k: nat)
    requires Valid(base, h) && k < |h.fl|
    ensures h.fl[k] >= base && h.fl[k] in h.size && h.size[h.fl[k]] >= 0
  {
    hide Lives, Covered;
    ListFacts(base, h, k);
  }

  /** A free block ends below the break. */
  lemma FreeBelow(base: int, h: Heap, brk: int, j: nat)
    requires Valid(base, h) && 0 < j < |h.fl| && (forall u :: u in h.own ==> u < brk)
    ensures h.fl[j] in h.size && base < h.fl[j] && h.fl[j] + h.size[h.fl[j]] <= brk
  {
    hide Lives, Listed;
    ListFacts(base, h, j);
    var b := h.fl[j];
    assert b in h.fl && IsBlock(base, h, b);
    assert Covers(h, b);
    assert b + h.size[b] - 1 in h.own;
  }

  lemma PrevFacts(base: int, h: Heap, j: nat)
    requires Valid(base, h) && 0 < j < |h.fl|
    ensures Prev(h.fl, j) == h.fl[j - 1] && h.fl[j - 1] in h.ptr
  {
    hide Lives, Covered;
    PtrIsNext(base, h, j - 1);
  }

  /** Only the last block of the list that base has left is large enough. */
  lemma StrippedAt(base: int, h: Heap, fl: seq<int>, ptr: map<int, int>, size: map<int, int>, hp: int, n: int, j: nat)
    requires |h.fl| > 1 && hp !in h.fl && Ring(fl, ptr, size) && j < |fl| && size[fl[j]] >= n
    requires forall i :: 0 <= i < |h.fl| ==> h.fl[i] in h.size && h.size[h.fl[i]] < n
    requires var last := h.fl[|h.fl| - 1];
             if last + h.size[last] == hp
             then fl == h.fl[1..] && size == h.size[hp := n][last := h.size[last] + n]
             else fl == h.fl[1..] + [hp] && size == h.size[hp := n]
    ensures j == |fl| - 1 && fl[j] + size[fl[j]] == hp + n && fl[j] in ptr && Prev(fl, j) in ptr
  {
    forall i | 0 <= i < |fl| - 1 ensures size[fl[i]] < n {
      assert fl[i] == h.fl[i + 1] && fl[i] in h.fl && fl[i] != fl[|fl| - 1];
    }
  }

  /** The new units, listed on their own, are taken off again. */
  lemma StrippedTake(h: Heap, fl: seq<int>, ptr: map<int, int>, hp: int, n: int)
    requires |h.fl| > 1 && hp !in h.fl && fl == h.fl[1..] + [hp] && Ring(fl, ptr, h.size[hp := n])
    ensures var list, prevp := h.fl[1..], Prev(fl, |fl| - 1);
      && prevp in list && hp in ptr && Ring(list, ptr[prevp := ptr[hp]], h.size[hp := n])
      && forall i :: 0 <= i < |list| ==> h.size[hp := n][list[i]] == h.size[list[i]]
  {
    var list := h.fl[1..];
    var m := |list|;
    assert fl[m] == hp && fl[m - 1] == list[m - 1] && Prev(fl, m) == list[m - 1];
    forall i | 0 <= i < m ensures list[i] == fl[i] && list[i] in h.fl {
    }
    forall i | 0 <= i < m ensures ptr[list[m - 1] := ptr[hp]][list[i]] == Next(list, i) {
      assert ptr[fl[i]] == Next(fl, i);
    }
  }

  /** The new units, which the last block had taken over, are cut off it again. */
  lemma StrippedSplit(h: Heap, ptr: map<int, int>, hp: int, n: int)
    requires |h.fl| > 1 && hp !in h.fl && h.fl[|h.fl| - 1] in h.size
    requires var last := h.fl[|h.fl| - 1]; Ring(h.fl[1..], ptr, h.size[hp := n][last := h.size[last] + n])
    ensures var list, last := h.fl[1..], h.fl[|h.fl| - 1];
      var size := h.size[hp := n][last := h.size[last] + n][last := h.size[last]][hp := n];
      && Prev(list, |list| - 1) in list && Ring(list, ptr, size)
      && forall i :: 0 <= i < |list| ==> list[i] in h.size && size[list[i]] == h.size[list[i]]
  {
    var list, last := h.fl[1..], h.fl[|h.fl| - 1];
    assert list[|list| - 1] == last;
    forall i | 0 <= i < |list| ensures list[i] in h.fl && list[i] != hp {
    }
  }

  lemma ListFactsOf(base: int, h: Heap, j: nat)
    requires Valid(base, h) && 0 < j < |h.fl|
    ensures h.fl[j] in h.size && h.size[h.fl[j]] > 0
  {
    hide Lives, Covered;
    ListFacts(base, h, j);
  }

  lemma StrippedFound(h: Heap, fl: seq<int>, size: map<int, int>, hp: int, n: int)
    requires |h.fl| > 1 && h.fl[|h.fl| - 1] in h.size && h.size[h.fl[|h.fl| - 1]] >= 0 && hp !in h.fl
    requires var last := h.fl[|h.fl| - 1];
             if last + h.size[last] == hp
             then fl == h.fl[1..] && size == h.size[hp := n][last := h.size[last] + n]
             else fl == h.fl[1..] + [hp] && size == h.size[hp := n]
    ensures |fl| > 0 && fl[|fl| - 1] in size && size[fl[|fl| - 1]] >= n
    ensures fl[|fl| - 1] + size[fl[|fl| - 1]] == hp + n
  {
  }

  lemma LiveOwned(base: int, h: Heap, b: int)
    requires Valid(base, h) && b in h.live
    ensures h.live[b] > 0 && forall u :: b <= u < b + h.live[b] ==> u in h.own
  {
    hide Listed;
    assert IsBlock(base, h, b);
    assert Covers(h, b);
  }

  /** Block b of n units is in use, and sbrk gave none of it: it lies at or above the break. */
  ghost predicate Unbacked(a: Allocator, b: int, n: int)
    reads a
  {
    b in a.live && a.live[b] == n && a.brk <= b && forall u :: b <= u < b + n ==> u !in a.got
  }

  lemma MayAnswer(nbytes: int, brk: int, g: int)
    requires TooMuch(nbytes) && brk <= g <= TOP
    ensures Answered(brk, Some(g), CoreUnits(Nunits(nbytes)))
  {
    SbrkArgExact(nbytes);
    hide Nunits, CoreUnits, SbrkArg;
  }

  /** A first request of 2^31 - 15 to 2^32 - 8 bytes: malloc returns a block without memory. */
  method FirstRequest(base: int, nbytes: int, g: int) returns (a: Allocator, ap: int)
    requires TooMuch(nbytes) && 0 <= base < g <= TOP
    ensures a.Shaped() && !a.Ready() && Unbacked(a, ap - 1, Nunits(nbytes))
  {
    hide Nunits, CoreUnits, SbrkArg, SbrkMove, Valid, NextFit, Answered;
    a := new Allocator(base);
    MayAnswer(nbytes, a.brk, g);
    var r, asked := a.Malloc(nbytes, Some(g));
    assert asked;
    ap := r.value;
  }

  /** Memory past all blocks, once freed, ends the last free block; the others are as before. */
  lemma LastGrew(base: int, h: Heap, g: Heap, r: Heap, brk: int, hp: int, k: nat, at: nat)
    requires Valid(base, h) && base < brk <= hp && (forall u :: u in h.own ==> u < brk)
    requires g.fl == h.fl && hp in g.size
    requires (forall b :: b in h.size && b != hp ==> b in g.size && g.size[b] == h.size[b])
    requires forall b :: b in g.size ==> b in h.size || b == hp
    requires Place(g, k, hp) && OneGrew(g, r, k, hp, at)
    ensures r.size[r.fl[at]] >= g.size[hp] ==> Added(h, r, hp, g.size[hp], at)
  {
    hide Lives, Covered, Listed;
    NotListedYet(base, h, brk, hp);
    forall i | 0 <= i < |h.fl| ensures h.fl[i] < hp {
      ListedBelow(base, h, brk, i);
    }
  }

  lemma ListedBelow(base: int, h: Heap, brk: int, i: nat)
    requires Valid(base, h) && base < brk && (forall u :: u in h.own ==> u < brk) && i < |h.fl|
    ensures h.fl[i] < brk
  {
    hide Listed, Lives;
    ListFacts(base, h, i);
    assert h.fl[i] in h.fl;
    if i > 0 {
      BlockOwned(base, h, h.fl[i]);
    }
  }

  lemma EmptyOk(base: int, h: Heap)
    requires h.fl == [base] && h.live == map[] && h.own == map[]
    requires base in h.ptr && h.ptr[base] == base && base in h.size && h.size[base] == 0
    ensures Valid(base, h)
  {
  }

  lemma ListedSizes(base: int, h: Heap)
    requires Listed(base, h)
    ensures forall i :: 0 <= i < |h.fl| ==> h.fl[i] in h.size && h.fl[i] in h.ptr
  {
  }

  lemma CarveFacts(base: int, h: Heap, j: nat)
    requires Valid(base, h) && 1 <= j < |h.fl|
    ensures h.fl[j] in h.ptr && h.ptr[h.fl[j]] == Next(h.fl, j) && h.fl[j] in h.size && h.fl[j] !in h.live
  {
    hide Listed, Covered;
    PtrIsNext(base, h, j);
    var p := h.fl[j];
    assert p in h.fl;
    assert p in h.live ==> p !in h.fl;
  }

  lemma NotLiveInside(base: int, h: Heap, j: nat, q: int)
    requires Valid(base, h) && 1 <= j < |h.fl| && h.fl[j] in h.size && h.fl[j] < q < h.fl[j] + h.size[h.fl[j]]
    ensures q !in h.live
  {
    hide Listed, Covered, Lives;
    ListFacts(base, h, j);
    assert h.fl[j] in h.fl;
    NotLive(base, h, h.fl[j], q);
  }

  lemma PrevStays(h: Heap, j: nat)
    requires 1 <= j < |h.fl| && h.fl[j] in h.size
    ensures h.fl[j - 1] in h.fl && h.fl[j - 1] in Take(h, j).fl
  {
    assert Take(h, j).fl[j - 1] == h.fl[j - 1];
  }

  /** Memory past everything given so far is no block yet. */
  lemma NotListedYet(base: int, h: Heap, brk: int, a: int)
    requires Valid(base, h) && base < brk <= a && (forall u :: u in h.own ==> u < brk)
    ensures a !in h.fl
  {
    hide Listed, Lives;
    forall i | 0 <= i < |h.fl| ensures h.fl[i] != a {
      ListFacts(base, h, i);
      assert h.fl[i] in h.fl;
      if i > 0 { BlockOwned(base, h, h.fl[i]); }
    }
  }

  lemma BlockOwned(base: int, h: Heap, b: int)
    requires Covered(base, h) && IsBlock(base, h, b)
    ensures b in h.own
  {
    assert Covers(h, b);
  }

  lemma NotLiveYet(base: int, h: Heap, a: int)
    requires Valid(base, h) && (forall u :: u in h.own ==> u < a)
    ensures a !in h.live && h.live[a := 0] - {a} == h.live
  {
    hide Listed;
    forall b | b in h.live ensures b in h.own {
      BlockOwned(base, h, b);
    }
  }

  /** What free reads around the place of bp. */
  lemma FreeFacts(base: int, h: Heap, k: nat, bp: int)
    requires Valid(base, h) && Place(h, k, bp) && bp in h.live
    ensures k < |h.fl| && bp in h.size && h.size[bp] == h.live[bp] > 0 && bp !in h.fl
    ensures h.fl[k] in h.ptr && h.fl[k] in h.size && h.ptr[h.fl[k]] == Next(h.fl, k) && bp != h.fl[k]
    ensures k + 1 < |h.fl| ==> h.fl[k + 1] in h.size && h.fl[k + 1] in h.ptr && h.ptr[h.fl[k + 1]] == Next(h.fl, k + 1)
    ensures k + 1 < |h.fl| ==> h.fl[k + 1] != bp && h.fl[k + 1] != h.fl[k]
    ensures k + 1 == |h.fl| ==> bp + h.size[bp] != Next(h.fl, k)
  {
    hide Covered, Lives, Linked, Listed;
    Between(base, h, k, bp);
    PtrIsNext(base, h, k);
    ListedParts(base, h);
    if k + 1 < |h.fl| {
      PtrIsNext(base, h, k + 1);
      Distinct(base, h, k, k + 1);
    }
  }

  /** The pointers free writes are those of the new list. */
  lemma FreedPointers(base: int, h: Heap, k: nat, bp: int, ptr: map<int, int>)
    requires k < |h.fl| && h.fl[k] in h.size && bp in h.size && (k + 1 < |h.fl| ==> h.fl[k + 1] in h.size)
    requires h.fl[k] in h.ptr && h.ptr[h.fl[k]] == Next(h.fl, k) && bp !in h.fl
    requires ptr == PtrsWritten(h, k, bp)
    requires Valid(base, Freed(h, k, bp))
    ensures forall i :: 0 <= i < |Freed(h, k, bp).fl| ==>
              && Freed(h, k, bp).fl[i] in ptr
              && Freed(h, k, bp).fl[i] in Freed(h, k, bp).ptr
              && ptr[Freed(h, k, bp).fl[i]] == Freed(h, k, bp).ptr[Freed(h, k, bp).fl[i]]
  {
    hide Listed, Lives, Covered, Joined;
    var r := Freed(h, k, bp);
    forall i | 0 <= i < |r.fl| ensures r.fl[i] in ptr && r.fl[i] in r.ptr && ptr[r.fl[i]] == r.ptr[r.fl[i]] {
      PtrIsNext(base, r, i);
      if h.fl[k] + h.size[h.fl[k]] == bp {
        assert r.fl[i] in r.fl;
      }
    }
  }

  /** The pointers free writes. */
  function PtrsWritten(h: Heap, k: nat, bp: int): map<int, int>
    requires k < |h.fl| && h.fl[k] in h.size && bp in h.size
  {
    h.ptr[bp := After(h, k, bp)]
         [h.fl[k] := if h.fl[k] + h.size[h.fl[k]] == bp then After(h, k, bp) else bp]
  }

  /** free as the source writes it leaves the heap that Freed describes. */
  lemma FreeDone(base: int, h: Heap, k: nat, bp: int) returns (at: nat)
    requires Valid(base, h) && Place(h, k, bp) && bp in h.live
    ensures k < |h.fl| && h.fl[k] in h.size && bp in h.size && (k + 1 < |h.fl| ==> h.fl[k + 1] in h.size)
    ensures var r := Freed(h, k, bp);
            && Valid(base, r.(ptr := PtrsWritten(h, k, bp), size := SizesWritten(h, k, bp)))
            && r.live == h.live - {bp} && (forall u :: u in r.own <==> u in h.own)
            && at < |r.fl| && r.fl[at] in SizesWritten(h, k, bp)
            && SizesWritten(h, k, bp)[r.fl[at]] >= h.live[bp]
            && k < |r.fl| && r.fl[k] == h.fl[k]
            && OneGrew(h, r.(ptr := PtrsWritten(h, k, bp), size := SizesWritten(h, k, bp)), k, bp, at)
  {
    hide Valid, Place, Freed;
    at := FreedOk(base, h, k, bp);
    FreedGrew(base, h, k, bp);
    FreeFacts(base, h, k, bp);
    FreedSizes(h, k, bp);
    FreedPointers(base, h, k, bp, PtrsWritten(h, k, bp));
    PtrFrame(base, Freed(h, k, bp), Freed(h, k, bp).(ptr := PtrsWritten(h, k, bp)));
  }

  /** The sizes free writes. */
  function SizesWritten(h: Heap, k: nat, bp: int): map<int, int>
    requires k < |h.fl| && h.fl[k] in h.size && bp in h.size && (k + 1 < |h.fl| ==> h.fl[k + 1] in h.size)
  {
    var n := if Touches(h, k, bp) then h.size[bp] + h.size[h.fl[k + 1]] else h.size[bp];
    var s := if Touches(h, k, bp) then h.size[bp := n] else h.size;
    if h.fl[k] + h.size[h.fl[k]] == bp then s[h.fl[k] := h.size[h.fl[k]] + n] else s
  }

  lemma FreedSizes(h: Heap, k: nat, bp: int)
    requires k < |h.fl| && h.fl[k] in h.size && bp in h.size && (k + 1 < |h.fl| ==> h.fl[k + 1] in h.size)
    requires bp != h.fl[k]
    ensures Freed(h, k, bp).size == SizesWritten(h, k, bp)
  {
  }

  /** What follows bp on the new list. */
  function After(h: Heap, k: nat, bp: int): int
    requires k < |h.fl| && bp in h.size
  {
    if Touches(h, k, bp) then Next(h.fl, k + 1) else Next(h.fl, k)
  }

  /** The two tests of free find what they would find without the wrap-around. */
  predicate Straight(h: Heap, k: nat, bp: int) {
    && k < |h.fl| && h.fl[k] in h.size && bp in h.size && (k + 1 < |h.fl| ==> h.fl[k + 1] in h.size)
    && (|| (Plus(bp, h.size[bp]) == Next(h.fl, k) <==> Touches(h, k, bp))
        || (|h.fl| == 1 && h.size[h.fl[0]] == 0 && h.fl[0] in h.ptr && h.ptr[h.fl[0]] == h.fl[0]))
    && (Plus(h.fl[k], h.size[h.fl[k]]) == bp <==> h.fl[k] + h.size[h.fl[k]] == bp)
  }

  /** bp, past all free blocks, is so large that it seems to end at base. */
  predicate Around(h: Heap, k: nat, bp: int) {
    && 0 < k < |h.fl| == k + 1 && h.fl[k] in h.size && bp in h.size && h.fl[0] in h.size && h.fl[0] in h.ptr
    && Plus(bp, h.size[bp]) == h.fl[0]
    && (Plus(h.fl[k], h.size[h.fl[k]]) == bp <==> h.fl[k] + h.size[h.fl[k]] == bp)
  }

  function PtrsAround(h: Heap, k: nat, bp: int): map<int, int>
    requires Around(h, k, bp)
  {
    var nx := h.ptr[h.fl[0]];
    h.ptr[bp := nx][h.fl[k] := if h.fl[k] + h.size[h.fl[k]] == bp then nx else bp]
  }

  function SizesAround(h: Heap, k: nat, bp: int): map<int, int>
    requires Around(h, k, bp)
  {
    var n := h.size[bp] + h.size[h.fl[0]];
    if h.fl[k] + h.size[h.fl[k]] == bp then h.size[bp := n][h.fl[k] := h.size[h.fl[k]] + n] else h.size[bp := n]
  }

  lemma NextFacts(base: int, h: Heap, k: nat)
    requires Valid(base, h) && k < |h.fl|
    ensures Next(h.fl, k) in h.size && Next(h.fl, k) in h.ptr && h.fl[0] == base && h.size[base] == 0
  {
    hide Lives, Covered, Linked, Spaced;
    PtrIsNext(base, h, 0);
    if k + 1 < |h.fl| {
      PtrIsNext(base, h, k + 1);
    }
  }

  ghost predicate Sums(base: int, h: Heap, bp: int)
    requires bp in h.live
  {
    var end := bp + h.live[bp];
    && bp < SPACE
    && (end < SPACE
        || (end < 2 * SPACE && (end != base + SPACE || |h.fl| == 1) && forall i :: 0 <= i < |h.fl| ==> h.fl[i] < bp))
  }

  lemma PlusIs(a: int, n: int)
    requires 0 <= a + n < 2 * SPACE
    ensures Plus(a, n) == if a + n < SPACE then a + n else a + n - SPACE
  {
  }

  lemma Straightens(base: int, h: Heap, k: nat, bp: int)
    requires Valid(base, h) && Place(h, k, bp) && 0 <= base && bp in h.live && Sums(base, h, bp)
    ensures Straight(h, k, bp)
  {
    hide Listed, Lives, Covered, Plus;
    Between(base, h, k, bp);
    NextFacts(base, h, k);
    ListFacts(base, h, k);
    PtrIsNext(base, h, k);
    PlusIs(h.fl[k], h.size[h.fl[k]]);
    PlusIs(bp, h.size[bp]);
  }

  lemma LiveFacts(base: int, h: Heap, bp: int)
    requires Lives(base, h) && bp in h.live
    ensures bp > base && bp !in h.fl && bp in h.size && h.size[bp] == h.live[bp] > 0
  {
  }

  lemma PlaceRange(h: Heap, k: int, bp: int)
    requires Place(h, k, bp)
    ensures 0 <= k < |h.fl|
  {
  }

  lemma PtrIsNext(base: int, h: Heap, j: nat)
    requires Listed(base, h) && j < |h.fl|
    ensures h.fl[j] in h.ptr && h.fl[j] in h.size && h.ptr[h.fl[j]] == Next(h.fl, j)
  {
  }
}
