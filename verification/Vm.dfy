/** kalloc.c and vm.c: the frame allocator and the operations on address spaces. */
module Vm {
  import opened Common
  import opened Links
  import opened VmSpace

  datatype Outcome = Done | NoMem | Panic

  function JunkPage(): (r: seq<int>)
    ensures |r| == NENTRIES
  {
    seq(NENTRIES, _ => JUNK)
  }

  class Machine {
    var mem: seq<seq<int>>
    var freelist: int
    const lo: nat                // frames that kfree accepts: from `end` to PHYSTOP
    const hi: nat
    ghost var free: seq<nat>

    ghost predicate Valid()
      reads this
    {
      && FreeList(mem, freelist, free) && Filled(mem) && hi <= |mem|
      && forall f :: f in free ==> lo <= f < hi
    }

    // ---- kalloc.c -----------------------------------------------------------------------

    constructor (memory: seq<seq<int>>, first: nat, last: nat)
      requires Filled(memory) && last <= |memory|
      ensures Valid() && mem == memory && lo == first && hi == last && free == []
    {
      mem, lo, hi, freelist, free := memory, first, last, 0, [];
    }

    /** kinit1 and kinit2: the whole frames from vstart up to vend become free. */
    method Freerange(vstart: nat, vend: nat) returns (panic: bool)
      requires Valid() && KERNBASE <= vstart && KERNBASE + lo * PGSIZE <= vstart && vend <= KERNBASE + hi * PGSIZE
      requires forall f :: f in free ==> KERNBASE + (f + 1) * PGSIZE <= vstart
      modifies this
      ensures Valid() && !panic
      ensures forall f: nat :: f in free <==>
                f in old(free) || (vstart <= KERNBASE + f * PGSIZE && KERNBASE + (f + 1) * PGSIZE <= vend)
    {
      hide FreeList, Filled;
      panic := false;
      var p := RoundUp(vstart);
      RoundsUp(vstart);
      ghost var first := (p - KERNBASE) / PGSIZE;
      ghost var n := first;
      while p + PGSIZE <= vend
        invariant Valid() && !panic && first <= n && p == KERNBASE + n * PGSIZE && (first < n ==> p <= vend)
        invariant forall f: nat :: f in free <==> f in old(free) || first <= f < n
        decreases vend - p
      {
        FrameOf(p, n);
        panic := Kfree((p - KERNBASE) / PGSIZE);
        p := p + PGSIZE;
        n := n + 1;
      }
      Whole(vstart, vend, first, n);
    }

    method Kalloc() returns (r: Option<nat>)
      requires Valid()
      modifies this`freelist, this`free
      ensures Valid() && (r.None? <==> old(free) == [])
      ensures r.None? ==> free == old(free) && freelist == old(freelist)
      ensures r.Some? ==>
                r.value == old(free)[0] < |mem| && lo <= r.value < hi && free == old(free)[1..] && r.value !in free
    {
      FreeHead(mem, freelist, free);
      if freelist == 0 {
        return None;
      }
      FreePop(mem, freelist, free);
      var f := FrameAt(freelist);
      assert free[0] in free;
      freelist := mem[f][0];
      assert forall g :: g in free[1..] ==> g in free;
      free := free[1..];
      hide FreeList;
      r := Some(f);
    }

    /** A frame already on the list is not noticed; the list then has no end. */
    method Kfree(f: nat) returns (panic: bool)
      requires Valid() && f < |mem|
      modifies this`mem, this`freelist, this`free
      ensures panic <==> !(lo <= f < hi)
      ensures |mem| == |old(mem)| && forall g :: 0 <= g < |mem| && g != f ==> mem[g] == old(mem)[g]
      ensures panic ==> Valid() && mem == old(mem) && free == old(free)
      ensures !panic ==> |mem[f]| == NENTRIES && forall k :: 0 < k < NENTRIES ==> mem[f][k] == JUNK
      ensures !panic && f !in old(free) ==> Valid() && free == [f] + old(free)
      ensures !panic && f in old(free) ==> Endless(FrameAt(freelist), NextOf(mem))
    {
      if !(lo <= f < hi) {
        return true;
      }
      if f in free {
        FreedTwice(mem, freelist, free, f, JunkPage()[0 := freelist]);
      } else {
        FreePush(mem, freelist, free, f, JunkPage()[0 := freelist]);
      }
      hide FreeList, Endless;
      mem := mem[f := JunkPage()];
      mem := mem[f := mem[f][0 := freelist]];
      assert mem == old(mem)[f := JunkPage()[0 := old(freelist)]];
      freelist := Addr(f);
      AddrBack(f);
      free := [f] + free;
      panic := false;
    }

    // ---- Address spaces -----------------------------------------------------------------

    /** The pool's frames are shared out between the free list and the space. */
    ghost predicate World(pool: set<nat>, sp: Space)
      reads this
    {
      Valid() && Good(mem, sp) && Shared(pool, free, sp) && forall f :: f in pool ==> lo <= f < hi
    }

    lemma WorldGood(pool: set<nat>, sp: Space)
      requires World(pool, sp)
      ensures Good(mem, sp)
    {
    }

    /** walkpgdir as far as an existing page table. */
    method FindTable(d: nat, i: nat, ghost sp: Space) returns (r: Option<nat>)
      requires Good(mem, sp) && d == sp.dir && i < NENTRIES
      ensures r.Some? <==> i in sp.tables
      ensures r.Some? ==> r.value == sp.tables[i]
    {
      hide Leaves, FramesApart;
      DirWord(mem, sp, i);
      if Here(mem[d][i]) {
        r := Some(Frame(mem[d][i]));
      } else {
        r := None;
      }
    }

    method Walkpgdir(d: nat, v: nat, alloc: bool, ghost pool: set<nat>, ghost sp: Space)
      returns (r: Option<nat>, ghost sp1: Space)
      requires World(pool, sp) && d == sp.dir && v < NVPN
      modifies this
      ensures World(pool, sp1) && sp1.dir == sp.dir && sp1.ptes == sp.ptes
      ensures sp1.tables.Keys == if r.Some? then sp.tables.Keys + {Pdx(v)} else sp.tables.Keys
      ensures r.Some? <==> Pdx(v) in sp1.tables
      ensures r.Some? ==> r.value == sp1.tables[Pdx(v)]
      ensures Pdx(v) in sp.tables || r.None? ==> sp1 == sp && mem == old(mem) && free == old(free)
      ensures r.None? <==> Pdx(v) !in sp.tables && (!alloc || old(free) == [])
      ensures |free| + |sp1.tables| == |old(free)| + |sp.tables|
      ensures Untouched(old(mem), mem, pool) && PagesKept(old(mem), mem, sp)
    {
      hide FreeList, Good, Owns, Untouched, PagesKept;
      DirOwned(sp);
      KeptNone(mem, pool, sp);
      sp1 := sp;
      var i := v / NENTRIES;
      r := FindTable(d, i, sp);
      if r.Some? || !alloc {
        return;
      }
      var page := Kalloc();
      if page.None? {
        return None, sp;
      }
      var t := page.value;
      SharedTable(pool, old(free), sp, i);
      NewTable(t, d, i, pool, sp);
      sp1 := sp.(tables := sp.tables[i := t]);
      r := Some(t);
    }

    /** The new page table is cleared and hooked into the directory. */
    method NewTable(t: nat, d: nat, i: nat, ghost pool: set<nat>, ghost sp: Space)
      requires Valid() && Good(mem, sp) && d == sp.dir && i < NENTRIES && i !in sp.tables && t < |mem|
      requires t !in free && t in pool && !Owns(sp, t) && d !in free && d in pool
      modifies this`mem
      ensures Valid() && Good(mem, sp.(tables := sp.tables[i := t]))
      ensures Untouched(old(mem), mem, pool) && PagesKept(old(mem), mem, sp)
    {
      TableSet(mem, sp, i, t);
      FreeAside(mem, freelist, free, t, Zeroes());
      FreeAside(mem[t := Zeroes()], freelist, free, d, mem[d][i := Word(t, TABLEFLAGS)]);
      NotPage(sp, t);
      hide FreeList, Good, Owns, OwnsPage;
      mem := mem[t := Zeroes()];
      mem := mem[d := mem[d][i := Word(t, TABLEFLAGS)]];
    }

    /** One round of mappages' loop. */
    method MapOne(d: nat, v: nat, f: nat, perm: nat, ghost pool: set<nat>, ghost sp: Space)
      returns (r: Outcome, ghost sp1: Space)
      requires World(pool, sp) && d == sp.dir && v < NVPN && perm < PGSIZE && (v < UVPN ==> f !in pool && lo <= f < hi)
      modifies this
      ensures World(if r.Done? && v < UVPN then pool + {f} else pool, sp1)
      ensures if r.Done? then PageAdded(sp, sp1, v, f, perm) else PageNotAdded(sp, sp1)
      ensures r.Panic? <==> v in sp.ptes
      ensures r.NoMem? <==> Pdx(v) !in sp.tables && old(free) == []
      ensures |free| + |sp1.tables| == |old(free)| + |sp.tables| && (r.NoMem? ==> free == [])
      ensures Untouched(old(mem), mem, pool) && PagesKept(old(mem), mem, sp)
    {
      hide FreeList, Good, Shared, Owns, OwnsPage, Untouched, PagesKept, Word, Frame, Here, WithP;
      EntryWord(mem, sp, v);
      var pte;
      pte, sp1 := Walkpgdir(d, v, true, pool, sp);
      ghost var mem1, sp0 := mem, sp1;
      EntryWord(mem, sp1, v);
      if pte.None? {
        return NoMem, sp1;
      }
      var t := pte.value;
      if Here(mem[t][v % NENTRIES]) {
        return Panic, sp1;
      }
      WithPFits(perm);
      WordParts(f, WithP(perm));
      WriteEntry(t, v, Word(f, WithP(perm)), pool, sp1);
      KeptTwice(old(mem), mem1, mem, pool, sp, sp0);
      sp1 := sp1.(ptes := sp1.ptes[v := Word(f, WithP(perm))]);
      r := Done;
    }

    /** *pte = w, where there was no page. */
    method WriteEntry(t: nat, v: nat, w: int, ghost pool: set<nat>, ghost sp: Space)
      requires World(pool, sp) && v < NVPN && v !in sp.ptes && Pdx(v) in sp.tables && t == sp.tables[Pdx(v)]
      requires Here(w) && (v < UVPN ==> Frame(w) >= 0 && Frame(w) !in pool && lo <= Frame(w) < hi)
      modifies this`mem
      ensures World(if v < UVPN then pool + {Frame(w)} else pool, sp.(ptes := sp.ptes[v := w]))
      ensures Untouched(old(mem), mem, pool) && PagesKept(old(mem), mem, sp)
    {
      hide FreeList, Leaves, DirOk, FramesApart, Owns, OwnsPage, Frame, Here;
      TableFrame(mem, sp, pool, free, v);
      PteSet(mem, sp, v, w);
      SharedPage(pool, free, sp, v, w);
      Store(t, v % NENTRIES, w);
      Stored(old(mem), t, v % NENTRIES, w, pool, sp);
    }

    /** A word of a frame in use. */
    method Store(t: nat, k: nat, w: int)
      requires Valid() && t < |mem| && k < NENTRIES && t !in free
      modifies this`mem
      ensures Valid() && k < |old(mem)[t]| && mem == Poke(old(mem), t, k, w)
    {
      FreeAside(mem, freelist, free, t, mem[t][k := w]);
      hide FreeList;
      mem := mem[t := mem[t][k := w]];
    }

    /** The frames for the user pages among n pages from v on are not in the pool. */
    ghost predicate Lendable(pool: set<nat>, v: nat, n: nat, f: nat) {
      forall g :: f <= g < f + n && v + (g - f) < UVPN ==> g !in pool && lo <= g < hi
    }

    /** mappages has mapped m pages from v on; it began with space sp and memory mem0. */
    ghost predicate Mapping(pool: set<nat>, sp: Space, sp1: Space, v: nat, m: nat, f: nat, perm: nat,
                            mem0: seq<seq<int>>)
      reads this
    {
      && MapsTo(sp, sp1, v, m, f, perm) && World(Lent(pool, v, m, f), sp1)
      && Untouched(mem0, mem, pool) && PagesKept(mem0, mem, sp)
    }

    /** One round of mappages' loop. */
    method MapNext(d: nat, a: nat, g: nat, perm: nat, ghost v: nat, ghost m: nat, ghost n: nat, ghost f: nat,
                   ghost pool: set<nat>, ghost sp: Space, ghost sp0: Space, ghost mem0: seq<seq<int>>)
      returns (r: Outcome, ghost sp1: Space)
      requires d == sp.dir && m < n && v + n <= NVPN && a == v + m && g == f + m && perm < PGSIZE
      requires Lendable(pool, v, n, f) && Mapping(pool, sp, sp0, v, m, f, perm, mem0)
      modifies this
      ensures Mapping(pool, sp, sp1, v, if r.Done? then m + 1 else m, f, perm, mem0)
      ensures r.Panic? <==> a in sp.ptes
      ensures r.NoMem? ==> |old(free)| + |sp0.tables| < |Tabs(sp.tables.Keys, v, n)|
      ensures |free| + |sp1.tables| == |old(free)| + |sp0.tables|
    {
      hide World, FreeList, Filled, Good, Shared, Owns, OwnsPage, Untouched, PagesKept;
      hide MapsTo, Tabs, Lent, Pdx, PageAdded, PageNotAdded;
      ghost var mem1, lent := mem, Lent(pool, v, m, f);
      NotLent(pool, v, m, n, f);
      hide Lendable;
      MapsDir(sp, sp0, v, m, f, perm);
      TabsLeft(sp, sp0, v, m, f, perm, n);
      r, sp1 := MapOne(d, a, g, perm, lent, sp0);
      if r.Done? {
        MapDone(pool, lent, sp, sp0, sp1, v, m, f, perm, mem0, mem1);
      } else {
        MapStopped(pool, sp, sp0, sp1, v, m, f, perm, mem0, mem1);
      }
    }

    lemma NotLent(pool: set<nat>, v: nat, m: nat, n: nat, f: nat)
      requires Lendable(pool, v, n, f) && m < n
      ensures v + m < UVPN ==> f + m !in pool && f + m !in Lent(pool, v, m, f) && lo <= f + m < hi
    {
      hide Lent;
      assert v + m < UVPN ==> f + m !in pool && lo <= f + m < hi;
      LentMore(pool, v, m, f);
    }

    /** The page has been mapped. */
    lemma MapDone(pool: set<nat>, lent: set<nat>, sp: Space, sp0: Space, sp1: Space, v: nat, m: nat, f: nat,
                  perm: nat, mem0: seq<seq<int>>, mem1: seq<seq<int>>)
      requires MapsTo(sp, sp0, v, m, f, perm) && perm < PGSIZE && v + m !in sp.ptes
      requires PageAdded(sp0, sp1, v + m, f + m, perm)
      requires lent == Lent(pool, v, m, f) && (v + m < UVPN ==> f + m !in pool)
      requires World(if v + m < UVPN then lent + {f + m} else lent, sp1)
      requires Untouched(mem0, mem1, pool) && PagesKept(mem0, mem1, sp)
      requires Untouched(mem1, mem, lent) && PagesKept(mem1, mem, sp0)
      ensures Mapping(pool, sp, sp1, v, m + 1, f, perm, mem0)
    {
      hide World, Untouched, PagesKept, MapsTo, Tabs, Lent, PageAdded;
      LentMore(pool, v, m, f);
      MapsMore(sp, sp0, sp1, v, m, f, perm);
      KeptMore(mem0, mem1, mem, pool, sp, sp0, v, m, f, perm);
    }

    /** It has not. */
    lemma MapStopped(pool: set<nat>, sp: Space, sp0: Space, sp1: Space, v: nat, m: nat, f: nat, perm: nat,
                     mem0: seq<seq<int>>, mem1: seq<seq<int>>)
      requires MapsTo(sp, sp0, v, m, f, perm) && perm < PGSIZE && PageNotAdded(sp0, sp1)
      requires World(Lent(pool, v, m, f), sp1)
      requires Untouched(mem0, mem1, pool) && PagesKept(mem0, mem1, sp)
      requires Untouched(mem1, mem, Lent(pool, v, m, f)) && PagesKept(mem1, mem, sp0)
      ensures Mapping(pool, sp, sp1, v, m, f, perm, mem0)
    {
      hide World, Untouched, PagesKept, MapsTo, Tabs, Lent, PageNotAdded;
      MapsSame(sp, sp0, sp1, v, m, f, perm);
      KeptMore(mem0, mem1, mem, pool, sp, sp0, v, m, f, perm);
    }

    /** The loop of mappages, from page v up to page last. */
    method MapRange(d: nat, v: nat, last: nat, f: nat, perm: nat, ghost pool: set<nat>, ghost sp: Space)
      returns (r: Outcome, ghost m: nat, ghost sp1: Space)
      requires World(pool, sp) && d == sp.dir && v <= last < NVPN && perm < PGSIZE && Lendable(pool, v, last - v + 1, f)
      modifies this
      ensures Mapping(pool, sp, sp1, v, m, f, perm, old(mem))
      ensures m <= last - v + 1 && (r.Done? <==> m == last - v + 1) && (r.Panic? <==> !r.Done? && v + m in sp.ptes)
      ensures r.NoMem? ==> |old(free)| + |sp.tables| < |Tabs(sp.tables.Keys, v, last - v + 1)|
      ensures |free| + |sp1.tables| == |old(free)| + |sp.tables|
    {
      hide World, Untouched, PagesKept, MapsTo, Tabs, Lent, Lendable;
      sp1 := sp;
      var a := v;
      MapsNone(sp, v, f, perm);
      LentNone(pool, v, f);
      KeptNone(mem, pool, sp);
      assert Mapping(pool, sp, sp1, v, 0, f, perm, old(mem));
      hide Mapping;
      while true
        invariant v <= a <= last && Mapping(pool, sp, sp1, v, a - v, f, perm, old(mem))
        invariant |free| + |sp1.tables| == |old(free)| + |sp.tables|
        decreases last - a
      {
        r, sp1 := MapNext(d, a, f + (a - v), perm, v, a - v, last - v + 1, f, pool, sp, sp1, old(mem));
        m := if r.Done? then a - v + 1 else a - v;
        if !r.Done? || a == last {
          return;
        }
        a := a + 1;
      }
    }

    /** mappages: the pages of the size bytes from va on, to the frames from f on. m of them get
        mapped; it stops at a page that is mapped already or that no page table is left for. */
    method Mappages(d: nat, va: nat, size: nat, f: nat, perm: nat, ghost pool: set<nat>, ghost sp: Space)
      returns (r: Outcome, ghost m: nat, ghost sp1: Space)
      requires World(pool, sp) && d == sp.dir && size > 0 && va + size <= NVPN * PGSIZE && perm < PGSIZE
      requires Lendable(pool, va / PGSIZE, Pages(va, size), f)
      modifies this
      ensures Mapping(pool, sp, sp1, va / PGSIZE, m, f, perm, old(mem))
      ensures m <= Pages(va, size) && (r.Done? <==> m == Pages(va, size))
      ensures r.Panic? <==> !r.Done? && va / PGSIZE + m in sp.ptes
      ensures r.NoMem? ==> |old(free)| + |sp.tables| < |Tabs(sp.tables.Keys, va / PGSIZE, Pages(va, size))|
      ensures |free| + |sp1.tables| == |old(free)| + |sp.tables|
      ensures SeesMapped(old(mem), mem, d, va / PGSIZE, m, f, perm)
    {
      hide Mapping, World, Tabs, SeesMapped, Lendable, Good;
      PagesFit(va, size);
      WorldGood(pool, sp);
      var a, last := va / PGSIZE, (va + size - 1) / PGSIZE;
      r, m, sp1 := MapRange(d, a, last, f, perm, pool, sp);
      MappingSeen(pool, sp, sp1, a, m, f, perm, old(mem));
    }

    lemma MappingSeen(pool: set<nat>, sp: Space, sp1: Space, v: nat, m: nat, f: nat, perm: nat, mem0: seq<seq<int>>)
      requires Mapping(pool, sp, sp1, v, m, f, perm, mem0) && Good(mem0, sp) && perm < PGSIZE
      ensures SeesMapped(mem0, mem, sp.dir, v, m, f, perm)
    {
      hide Good, MapsTo, SeesMapped, FreeList, Shared;
      MapsSeen(mem0, mem, sp, sp1, v, m, f, perm);
    }

    /** mappages of one page just allocated. */
    method MapPage(d: nat, v: nat, f: nat, perm: nat, ghost pool: set<nat>, ghost sp: Space)
      returns (ok: bool, ghost sp1: Space)
      requires World(pool - {f}, sp) && f in pool && lo <= f < hi && d == sp.dir && v < UVPN && v !in sp.ptes
      requires perm < PGSIZE
      modifies this
      ensures World(if ok then pool else pool - {f}, sp1) && sp1.dir == sp.dir
      ensures sp1.ptes == if ok then sp.ptes[v := Word(f, WithP(perm))] else sp.ptes
      ensures ok <==> |old(free)| + |sp.tables| >= |sp.tables.Keys + {Pdx(v)}|
      ensures ok ==> sp1.tables.Keys == sp.tables.Keys + {Pdx(v)}
      ensures |free| + |sp1.tables| == |old(free)| + |sp.tables|
      ensures Untouched(old(mem), mem, pool - {f}) && PagesKept(old(mem), mem, sp)
    {
      hide World, Untouched, PagesKept, Word, WithP, Pdx, Tabs, Lent, Spread;
      OnePage(v);
      var out, m, sp2 := Mappages(d, v * PGSIZE, PGSIZE, f, perm, pool - {f}, sp);
      sp1 := sp2;
      TabsOne(sp.tables.Keys, v);
      LentOne(pool, v, f);
      SpreadOne(sp.ptes, v, f, perm);
      SpreadMore(sp.ptes, v, 0, f, perm);
      MapsDir(sp, sp1, v, m, f, perm);
      ok := out.Done?;
    }

    /** kfree the frame of mapped page v, then *pte = 0. */
    method DropPage(t: nat, v: nat, ghost pool: set<nat>, ghost sp: Space)
      returns (panic: bool)
      requires World(pool, sp) && v in sp.ptes && v < UVPN && Pdx(v) in sp.tables && t == sp.tables[Pdx(v)]
      modifies this
      ensures World(pool, sp.(ptes := sp.ptes - {v})) && !panic
      ensures Untouched(old(mem), mem, pool) && PagesKept(old(mem), mem, sp.(ptes := sp.ptes - {v}))
    {
      hide FreeList;
      EntryWord(mem, sp, v);
      TableFrame(mem, sp, pool, free, v);
      SharedClear(pool, free, sp, v);
      var f := Frame(mem[t][v % NENTRIES]);
      panic := Kfree(f);
      PageDropped(old(mem), sp, v, mem[f]);
      assert mem == old(mem)[f := mem[f]];
      Store(t, v % NENTRIES, 0);
      Dropped(old(mem), mem, sp, v, pool);
    }

    /** The else branch of deallocuvm's loop. */
    method DropIfMapped(t: nat, v: nat, ghost pool: set<nat>, ghost sp: Space)
      returns (panic: bool, ghost sp1: Space)
      requires World(pool, sp) && v < UVPN && Pdx(v) in sp.tables && t == sp.tables[Pdx(v)]
      modifies this
      ensures World(pool, sp1) && !panic && sp1 == sp.(ptes := sp.ptes - {v})
      ensures Untouched(old(mem), mem, pool) && PagesKept(old(mem), mem, sp1)
    {
      hide FreeList, Good, Shared, Owns, OwnsPage, Untouched, PagesKept, Frame;
      EntryWord(mem, sp, v);
      sp1 := sp.(ptes := sp.ptes - {v});
      KeptNone(mem, pool, sp);
      if Here(mem[t][v % NENTRIES]) {
        panic := DropPage(t, v, pool, sp);
      } else {
        assert sp.ptes - {v} == sp.ptes;
        panic := false;
      }
    }

    /** One round of deallocuvm's loop, at the address of page v: it clears the entry of v, or
        steps over the whole range of a missing page table. */
    method DeallocRound(d: nat, a: nat, ghost v: nat, ghost pool: set<nat>, ghost sp: Space)
      returns (a1: nat, panic: bool, ghost v1: nat, ghost sp1: Space)
      requires World(pool, sp) && d == sp.dir && a == v * PGSIZE && v < UVPN
      modifies this
      ensures World(pool, sp1) && !panic && sp1.dir == sp.dir && sp1.tables == sp.tables
      ensures a1 == v1 * PGSIZE && v < v1 && sp1.ptes == Without(sp.ptes, v, v1)
      ensures v1 == v + 1 || forall u :: v <= u < v1 ==> u !in sp.ptes
      ensures Untouched(old(mem), mem, pool) && PagesKept(old(mem), mem, sp1)
    {
      hide World, Good, Untouched, PagesKept, Without, Pdx, Ptx;
      PageOf(a, v);
      var pte;
      pte, sp1 := Walkpgdir(d, a / PGSIZE, false, pool, sp);
      panic := false;
      if pte.None? {
        SkipTo(a, v);
        WorldGood(pool, sp);
        WithoutSkip(mem, sp, v, (Pdx(v) + 1) * NENTRIES);
        v1 := (Pdx(v) + 1) * NENTRIES - 1;
        a1 := (a / (PGSIZE * NENTRIES) + 1) * (PGSIZE * NENTRIES) - PGSIZE;
      } else {
        WithoutOne(sp.ptes, v);
        panic, sp1 := DropIfMapped(pte.value, a / PGSIZE, pool, sp);
        a1, v1 := a, v;
      }
      a1 := a1 + PGSIZE;
      v1 := v1 + 1;
    }

    /** deallocuvm, which steps over directory entries without a page table: it clears the
        entries of all pages from newsz up to oldsz, and frees their frames. */
    method Deallocuvm(d: nat, oldsz: nat, newsz: nat, ghost pool: set<nat>, ghost sp: Space)
      returns (sz: nat, panic: bool, ghost sp1: Space)
      requires World(pool, sp) && d == sp.dir && oldsz <= KERNBASE && lo > 0
      modifies this
      ensures World(pool, sp1) && !panic && sp1.dir == sp.dir && sp1.tables == sp.tables
      ensures sz == if newsz >= oldsz then oldsz else newsz
      ensures sp1.ptes == if newsz >= oldsz then sp.ptes
              else Without(sp.ptes, RoundUp(newsz) / PGSIZE, RoundUp(oldsz) / PGSIZE)
      ensures Untouched(old(mem), mem, pool) && PagesKept(old(mem), mem, sp1)
      ensures SeesCut(old(mem), mem, d, if newsz >= oldsz then RoundUp(oldsz) else RoundUp(newsz), RoundUp(oldsz))
    {
      hide World, Untouched, PagesKept, Without, SeesCut;
      sp1, panic := sp, false;
      KeptNone(mem, pool, sp);
      WorldGood(pool, sp);
      hide Good;
      if newsz >= oldsz {
        CutNone(mem, d, RoundUp(oldsz));
        return oldsz, false, sp;
      }
      var a := RoundUp(newsz);
      ghost var first, last := a / PGSIZE, RoundUp(oldsz) / PGSIZE;
      ghost var v: nat := first;
      Rounds(newsz, oldsz);
      WithoutNone(sp.ptes, first);
      hide RoundUp;
      while a < oldsz
        invariant a == v * PGSIZE && first <= v
        invariant World(pool, sp1) && !panic && sp1.dir == sp.dir && sp1.tables == sp.tables
        invariant sp1.ptes == Without(sp.ptes, first, v) && forall u :: last <= u < v ==> u !in sp.ptes
        invariant Untouched(old(mem), mem, pool) && PagesKept(old(mem), mem, sp1)
        decreases oldsz - a
      {
        Below(v, oldsz);
        ghost var mem1, sp0, v0 := mem, sp1, v;
        a, panic, v, sp1 := DeallocRound(d, a, v, pool, sp1);
        WithoutTwice(sp.ptes, first, v0, v);
        KeptLess(old(mem), mem1, mem, pool, sp0, sp1);
      }
      CoveredPast(v, oldsz);
      WithoutPast(sp.ptes, first, last, v);
      WorldGood(pool, sp1);
      CutSeen(old(mem), mem, sp, sp1, newsz, oldsz);
      sz := newsz;
    }

    /** freevm: every frame of the space goes back to the free list, once. */
    method Freevm(d: nat, ghost pool: set<nat>, ghost sp: Space) returns (panic: bool)
      requires World(pool, sp) && d == sp.dir && lo > 0
      modifies this
      ensures Valid() && !panic && (forall f :: f in pool <==> f in free)
      ensures Untouched(old(mem), mem, pool)
    {
      hide FreeList, Good, Owns, OwnsPage, Untouched, PagesKept, Without, Shared;
      var _, p, sp1 := Deallocuvm(d, KERNBASE, 0, pool, sp);
      panic := p;
      NoPages(sp.ptes, sp1);
      ghost var row := DirRow(mem, sp1);
      ghost var mem1 := mem;
      LeftAll(mem, pool, free, sp1);
      KeptNone(mem, pool, sp1);
      for i := 0 to NENTRIES
        invariant Valid() && !panic && d < |mem| && mem[d] == row && Left(pool, free, sp1, i)
        invariant Untouched(mem1, mem, pool)
      {
        RowWord(mem1, sp1, i);
        if Here(mem[d][i]) {
          LeftNext(pool, free, sp1, i);
          ghost var mem2 := mem;
          panic := Kfree(Frame(mem[d][i]));
          UntouchedOne(mem1, mem2, mem, pool, sp1.tables[i]);
        } else {
          LeftSkip(pool, free, sp1, i);
        }
      }
      LeftLast(pool, free, sp1);
      ghost var mem2 := mem;
      panic := Kfree(d);
      UntouchedOne(mem1, mem2, mem, pool, d);
      UntouchedTwice(old(mem), mem1, mem, pool);
    }

    // ---- copyuvm --------------------------------------------------------------------------

    /** kalloc, and memmove or memset of the new frame. */
    method NewFrame(row: seq<int>, ghost pool: set<nat>, ghost sp: Space) returns (r: Option<nat>)
      requires World(pool, sp) && |row| == NENTRIES
      modifies this
      ensures r.None? ==> mem == old(mem) && free == old(free) == [] && World(pool, sp)
      ensures r.Some? ==> |free| == |old(free)| - 1
      ensures r.Some? ==> World(pool - {r.value}, sp) && r.value in pool && lo <= r.value < hi && r.value < |mem|
      ensures r.Some? ==> mem == old(mem)[r.value := row] && !Owns(sp, r.value) && r.value !in free
    {
      hide Good, Owns, Filled;
      r := Kalloc();
      if r.Some? {
        var f := r.value;
        TakeFrame(pool, old(free), sp);
        GoodAside(mem, sp, f, row);
        FreeAside(mem, freelist, free, f, row);
        GoodFilled(mem[f := row], sp);
        hide FreeList, Shared;
        mem := mem[f := row];
      }
    }

    /** One round of copyuvm's loop: page v, whose entry in the parent is w. */
    method CopyPage(d: nat, v: nat, w: int, ghost pool: set<nat>, ghost sp: Space)
      returns (ok: bool, ghost sp1: Space)
      requires World(pool, sp) && d == sp.dir && v < UVPN && v !in sp.ptes && Here(w)
      requires 0 <= Frame(w) < |mem| && Frame(w) !in pool
      modifies this
      ensures World(pool, sp1) && sp1.dir == sp.dir && Untouched(old(mem), mem, pool)
      ensures ok ==> v in sp1.ptes && sp1.ptes == sp.ptes[v := sp1.ptes[v]] && Flags(sp1.ptes[v]) == Flags(w)
      ensures ok ==> 0 <= Frame(sp1.ptes[v]) < |mem| && mem[Frame(sp1.ptes[v])] == old(mem)[Frame(w)]
      ensures ok ==> PagesKept(old(mem), mem, sp)
      ensures ok ==>
                |free| + |sp1.tables| + 1 == |old(free)| + |sp.tables| && sp1.tables.Keys == sp.tables.Keys + {Pdx(v)}
      ensures ok <==> |old(free)| + |sp.tables| >= |sp.tables.Keys + {Pdx(v)}| + 1
    {
      hide FreeList, Good, Shared, Owns, OwnsPage, Word, Pdx;
      TablesMore(sp, Pdx(v));
      sp1 := sp;
      RowSize(mem, Frame(w));
      var page := NewFrame(mem[Frame(w)], pool, sp);
      if page.None? {
        return false, sp;
      }
      var f := page.value;
      ghost var mem1 := mem;
      FlagsOf(w);
      ok, sp1 := MapPage(d, v, f, Flags(w), pool, sp);
      NotPage(sp, f);
      CopyKept(old(mem), mem1, mem, pool, f, sp);
      if ok {
        WordParts(f, Flags(w));
        return;
      }
      ghost var mem2 := mem;
      GiveBack(pool, free, sp, sp1, f);
      hide Owns;
      var _ := Kfree(f);
      GoodAside(mem2, sp1, f, mem[f]);
      assert mem == mem2[f := mem[f]];
      UntouchedOne(old(mem), mem2, mem, pool, f);
    }

    /** allocuvm: zeroed pages from oldsz up to newsz, or 0 with the entries as they were. */
    method Allocuvm(d: nat, oldsz: nat, newsz: nat, ghost pool: set<nat>, ghost sp: Space)
      returns (sz: nat, ghost sp1: Space)
      requires World(pool, sp) && d == sp.dir && lo > 0
      requires oldsz <= newsz < KERNBASE ==>
                 forall v :: RoundUp(oldsz) / PGSIZE <= v < RoundUp(newsz) / PGSIZE ==> v !in sp.ptes
      modifies this
      ensures World(pool, sp1) && sp1.dir == sp.dir && Untouched(old(mem), mem, pool) && PagesKept(old(mem), mem, sp)
      ensures newsz >= KERNBASE ==> sz == 0 && sp1 == sp
      ensures newsz < KERNBASE && newsz < oldsz ==> sz == oldsz && sp1 == sp
      ensures oldsz <= newsz < KERNBASE ==>
                var first, last := RoundUp(oldsz) / PGSIZE, RoundUp(newsz) / PGSIZE;
                first <= last &&
                if |old(free)| + |sp.tables| >= Need(sp.tables.Keys, first, last - first)
                then sz == newsz && Grown(mem, sp, sp1, first, last) && SeesGrown(old(mem), mem, d, first, last)
                else sz == 0 && sp1.ptes == sp.ptes
    {
      hide World, Untouched, PagesKept, Grown, Need, RoundUp, SeesGrown;
      KeptNone(mem, pool, sp);
      if newsz >= KERNBASE {
        return 0, sp;
      }
      if newsz < oldsz {
        return oldsz, sp;
      }
      var ok;
      WorldGood(pool, sp);
      ok, sp1 := GrowPages(d, oldsz, newsz, pool, sp);
      WorldGood(pool, sp1);
      if ok {
        GrownSeen(old(mem), mem, sp, sp1, RoundUp(oldsz) / PGSIZE, RoundUp(newsz) / PGSIZE);
      }
      sz := if ok then newsz else 0;
    }

    /** allocuvm has added the pages from first up to v; it began with space sp and memory mem0. */
    ghost predicate Growing(pool: set<nat>, sp: Space, sp1: Space, first: nat, v: nat, mem0: seq<seq<int>>)
      requires first <= v
      reads this
    {
      && sp1.dir == sp.dir && World(pool, sp1) && Untouched(mem0, mem, pool) && PagesKept(mem0, mem, sp)
      && Grown(mem, sp, sp1, first, v) && sp1.tables.Keys == Tabs(sp.tables.Keys, first, v - first)
    }

    /** The loop of allocuvm. */
    method GrowPages(d: nat, oldsz: nat, newsz: nat, ghost pool: set<nat>, ghost sp: Space)
      returns (ok: bool, ghost sp1: Space)
      requires World(pool, sp) && d == sp.dir && lo > 0 && oldsz <= newsz < KERNBASE
      requires forall v :: RoundUp(oldsz) / PGSIZE <= v < RoundUp(newsz) / PGSIZE ==> v !in sp.ptes
      modifies this
      ensures World(pool, sp1) && sp1.dir == sp.dir && Untouched(old(mem), mem, pool) && PagesKept(old(mem), mem, sp)
      ensures RoundUp(oldsz) / PGSIZE <= RoundUp(newsz) / PGSIZE
      ensures ok <==> |old(free)| + |sp.tables| >=
                        Need(sp.tables.Keys, RoundUp(oldsz) / PGSIZE, RoundUp(newsz) / PGSIZE - RoundUp(oldsz) / PGSIZE)
      ensures ok ==> Grown(mem, sp, sp1, RoundUp(oldsz) / PGSIZE, RoundUp(newsz) / PGSIZE)
      ensures !ok ==> sp1.ptes == sp.ptes
    {
      hide World, FreeList, Filled, Good, Shared, Owns, OwnsPage, Untouched, PagesKept, Grown;
      hide RoundUp, Need, Growing;
      sp1, ok := sp, true;
      var a := RoundUp(oldsz);
      ghost var first, last := a / PGSIZE, RoundUp(newsz) / PGSIZE;
      ghost var v: nat := first;
      RoundsTo(oldsz, newsz);
      GrowStart(pool, sp, first);
      while a < newsz
        invariant a == v * PGSIZE && first <= v && (v > first ==> v <= last)
        invariant Growing(pool, sp, sp1, first, v, old(mem))
        invariant |free| + |sp1.tables| + (v - first) == |old(free)| + |sp.tables|
        decreases newsz - a
      {
        Below(v, newsz);
        PageOf(a, v);
        ok, sp1 := GrowNext(d, a / PGSIZE, oldsz, newsz, first, last, pool, sp, sp1, old(mem));
        if !ok {
          return;
        }
        a := a + PGSIZE;
        v := v + 1;
      }
      CoveredTo(v, oldsz, newsz);
      GrowingDone(pool, sp, sp1, first, v, old(mem));
    }

    lemma GrowStart(pool: set<nat>, sp: Space, first: nat)
      requires World(pool, sp)
      ensures Growing(pool, sp, sp, first, first, mem)
    {
      hide World, Untouched, PagesKept, Grown;
      KeptNone(mem, pool, sp);
      GrownNone(mem, sp, first);
    }

    lemma GrowingDone(pool: set<nat>, sp: Space, sp1: Space, first: nat, v: nat, mem0: seq<seq<int>>)
      requires first <= v && Growing(pool, sp, sp1, first, v, mem0)
      ensures sp1.dir == sp.dir && World(pool, sp1) && Untouched(mem0, mem, pool) && PagesKept(mem0, mem, sp)
      ensures Grown(mem, sp, sp1, first, v) && |sp1.tables| + (v - first) == Need(sp.tables.Keys, first, v - first)
    {
      hide World, Untouched, PagesKept, Grown;
      NeedMet(sp1, sp.tables.Keys, first, v - first);
    }

    /** One round of allocuvm's loop. */
    method GrowNext(d: nat, v: nat, oldsz: nat, newsz: nat, ghost first: nat, ghost last: nat,
                    ghost pool: set<nat>, ghost sp: Space, ghost sp0: Space, ghost mem0: seq<seq<int>>)
      returns (ok: bool, ghost sp1: Space)
      requires first == RoundUp(oldsz) / PGSIZE <= v < last == RoundUp(newsz) / PGSIZE && v < UVPN
      requires d == sp.dir && oldsz <= newsz < KERNBASE && lo > 0 && Growing(pool, sp, sp0, first, v, mem0)
      requires forall u :: first <= u < last ==> u !in sp.ptes
      modifies this
      ensures ok ==>
                Growing(pool, sp, sp1, first, v + 1, mem0) && |free| + |sp1.tables| + 1 == |old(free)| + |sp0.tables|
      ensures !ok ==> sp1.dir == sp.dir && World(pool, sp1) && sp1.ptes == sp.ptes
      ensures !ok ==> Untouched(mem0, mem, pool) && PagesKept(mem0, mem, sp)
      ensures !ok ==> |old(free)| + |sp0.tables| + (v - first) < Need(sp.tables.Keys, first, last - first)
    {
      hide World, FreeList, Filled, Good, Shared, Owns, OwnsPage, Untouched, PagesKept;
      hide Frame, Flags, Grown, Word, RoundUp, Tabs, Pdx, Need, Zeroes, Cut;
      ghost var mem1 := mem;
      GrownRoom(mem, sp, sp0, first, v);
      ok, sp1 := GrowPage(d, v, oldsz, newsz, pool, sp0);
      NeedMore(sp.tables.Keys, first, v, last);
      if ok {
        GrowsOn(mem0, mem1, mem, pool, sp, sp0, sp1, first, v);
      } else {
        GrowsBack(mem0, mem1, mem, pool, sp, sp0, sp1, first, v, oldsz, newsz);
      }
    }

    /** One round of allocuvm's loop; on failure everything from oldsz on is given back. */
    method GrowPage(d: nat, v: nat, oldsz: nat, newsz: nat, ghost pool: set<nat>, ghost sp: Space)
      returns (ok: bool, ghost sp1: Space)
      requires World(pool, sp) && d == sp.dir && v < UVPN && v !in sp.ptes && oldsz <= newsz < KERNBASE && lo > 0
      modifies this
      ensures World(pool, sp1) && sp1.dir == sp.dir && Untouched(old(mem), mem, pool)
      ensures ok ==> v in sp1.ptes && sp1.ptes == sp.ptes[v := sp1.ptes[v]] && Flags(sp1.ptes[v]) == TABLEFLAGS
      ensures ok ==>
                0 <= Frame(sp1.ptes[v]) < |mem| && mem[Frame(sp1.ptes[v])] == Zeroes() && PagesKept(old(mem), mem, sp)
      ensures !ok ==> sp1.ptes == Cut(sp.ptes, oldsz, newsz) && PagesKept(old(mem), mem, sp1)
      ensures ok ==>
                |free| + |sp1.tables| + 1 == |old(free)| + |sp.tables| && sp1.tables.Keys == sp.tables.Keys + {Pdx(v)}
      ensures ok <==> |old(free)| + |sp.tables| >= |sp.tables.Keys + {Pdx(v)}| + 1
    {
      hide FreeList, Good, Shared, Owns, OwnsPage, Word, Untouched, PagesKept, Zeroes, Pdx;
      TablesMore(sp, Pdx(v));
      var page := NewFrame(Zeroes(), pool, sp);
      if page.None? {
        KeptNone(mem, pool, sp);
        sp1 := GiveUp(d, oldsz, newsz, pool, sp);
        return false, sp1;
      }
      var f := page.value;
      ghost var mem1 := mem;
      ok, sp1 := MapPage(d, v, f, 6, pool, sp);
      NotPage(sp, f);
      CopyKept(old(mem), mem1, mem, pool, f, sp);
      if ok {
        WordParts(f, TABLEFLAGS);
        return;
      }
      ghost var mem2 := mem;
      sp1 := GiveUp(d, oldsz, newsz, pool - {f}, sp1);
      ghost var mem3 := mem;
      GiveBack(pool, free, sp, sp1, f);
      NotPage(sp1, f);
      var _ := Kfree(f);
      GoodAside(mem3, sp1, f, mem[f]);
      assert mem == mem3[f := mem[f]];
      KeptBack(old(mem), mem2, mem3, mem, pool, f, sp, sp1);
    }

    /** deallocuvm(pgdir, newsz, oldsz) */
    method GiveUp(d: nat, oldsz: nat, newsz: nat, ghost pool: set<nat>, ghost sp: Space) returns (ghost sp1: Space)
      requires World(pool, sp) && d == sp.dir && oldsz <= newsz < KERNBASE && lo > 0
      modifies this
      ensures World(pool, sp1) && sp1.dir == sp.dir && sp1.ptes == Cut(sp.ptes, oldsz, newsz)
      ensures Untouched(old(mem), mem, pool) && PagesKept(old(mem), mem, sp1)
    {
      hide FreeList, Good, Shared, Owns, OwnsPage, Untouched, PagesKept;
      var _, _, cut := Deallocuvm(d, newsz, oldsz, pool, sp);
      sp1 := cut;
    }

    /** setupkvm: a directory with the kernel's mappings, or nothing taken. */
    method Setupkvm(kmap: seq<Region>, ghost pool: set<nat>) returns (r: Option<nat>, ghost sp: Space)
      requires Valid() && (forall f :: f in pool <==> f in free) && Regions(kmap) && lo > 0
      modifies this
      ensures Untouched(old(mem), mem, pool)
      ensures r.Some? ==> World(pool, sp) && r.value == sp.dir && sp.ptes == Kernel(kmap, |kmap|)
      ensures r.Some? ==> |free| + |sp.tables| + 1 == |old(free)| && sp.tables.Keys == KernelTabs(kmap, |kmap|)
      ensures r.None? ==> Valid() && forall f :: f in pool <==> f in free
      ensures r.Some? <==> |old(free)| >= 1 + |KernelTabs(kmap, |kmap|)|
      ensures r.Some? ==> SeesKernel(mem, r.value, kmap)
      ensures r.Some? ==> forall a: nat :: a < KERNBASE ==> Mmu(mem, r.value, a) == None
    {
      hide FreeList, Good, Shared, Owns, OwnsPage, Untouched, PagesKept, Spread, Tabs, Lent;
      hide SeesKernel, Mmu, SeesMapped;
      sp := Space(0, map[], map[]);
      KeptNone(mem, pool, sp);
      var page := Kalloc();
      if page.None? {
        return None, sp;
      }
      var d := page.value;
      sp := Space(d, map[], map[]);
      NewDir(d, pool, old(free), sp);
      for k := 0 to |kmap|
        invariant World(pool, sp) && sp.dir == d && sp.ptes == Kernel(kmap, k) && Untouched(old(mem), mem, pool)
        invariant |free| + |sp.tables| + 1 == |old(free)| && sp.tables.Keys == KernelTabs(kmap, k)
      {
        var out;
        ghost var m;
        ghost var mem1 := mem;
        PagesOf(kmap[k].virt, kmap[k].n);
        KernelTabsMore(kmap, k);
        out, m, sp := Mappages(d, kmap[k].virt * PGSIZE, kmap[k].n * PGSIZE, kmap[k].phys, kmap[k].perm, pool, sp);
        UntouchedTwice(old(mem), mem1, mem, pool);
        NoRemap(kmap, k);
        LentAbove(pool, kmap[k].virt, m, kmap[k].phys);
        if !out.Done? {
          ghost var mem2 := mem;
          var _ := Freevm(d, pool, sp);
          UntouchedTwice(old(mem), mem2, mem, pool);
          return None, sp;
        }
      }
      OnlyKernel(mem, sp, kmap);
      r := Some(d);
    }

    /** memset(pgdir, 0, PGSIZE) makes an empty space. */
    method NewDir(d: nat, ghost pool: set<nat>, ghost free0: seq<nat>, ghost sp: Space)
      requires Valid() && free0 != [] && d == free0[0] && free == free0[1..] && d !in free && d < |mem| && lo <= d < hi
      requires (forall f :: f in pool <==> f in free0) && sp == Space(d, map[], map[])
      modifies this`mem
      ensures World(pool, sp) && Untouched(old(mem), mem, pool)
    {
      hide FreeList;
      FreeAside(mem, freelist, free, d, Zeroes());
      EmptySpace(mem, d);
      assert forall f :: f in free0 <==> f == d || f in free;
      mem := mem[d := Zeroes()];
      hide Good;
      assert d in free0;
      assert forall f: nat :: Owns(sp, f) <==> f == d;
    }

    /** copyuvm: the child has the same user pages with the same flags and bytes, in frames
        that were free; on failure nothing is taken. Nothing outside those frames changes. */
    method Copyuvm(pgdir: nat, sz: nat, kmap: seq<Region>, ghost pool: set<nat>, ghost sp0: Space)
      returns (r: Option<nat>, ghost sp: Space)
      requires Valid() && (forall f :: f in pool <==> f in free) && Regions(kmap) && lo > 0
      requires Parent(mem, sp0, pool, sz) && pgdir == sp0.dir
      modifies this
      ensures Untouched(old(mem), mem, pool) && Parent(mem, sp0, pool, sz)
      ensures r.Some? ==> World(pool, sp) && r.value == sp.dir && CopyOf(mem, sp0, sp, RoundUp(sz) / PGSIZE)
      ensures r.Some? ==> KernelPart(kmap, sp)
      ensures r.None? ==> Valid() && forall f :: f in pool <==> f in free
      ensures r.Some? <==> |old(free)| >= 1 + Need(KernelTabs(kmap, |kmap|), 0, RoundUp(sz) / PGSIZE)
      ensures r.Some? ==> SeesKernel(mem, r.value, kmap) && SeesCopy(mem, pgdir, r.value, RoundUp(sz) / PGSIZE)
    {
      hide World, Untouched, Kernel, KernelTabs, Parent, CopyOf, Tabs, Need, RoundUp, SeesKernel, SeesCopy, Mmu;
      NeedNone(KernelTabs(kmap, |kmap|), 0, RoundUp(sz) / PGSIZE);
      r, sp := Setupkvm(kmap, pool);
      if r.None? {
        ParentKept(old(mem), mem, sp0, pool, sz);
        return;
      }
      CopyStart(kmap, pool, sp0, sp, sz, old(mem));
      hide Copying;
      var d, v := r.value, 0;
      while v * PGSIZE < sz
        invariant v <= RoundUp(sz) / PGSIZE && d == sp.dir && Copying(kmap, pool, sp0, sp, v, sz, old(mem))
        invariant |free| + |sp.tables| + 1 + v == |old(free)|
        decreases sz - v * PGSIZE
      {
        SizeFits(kmap, pool, sp0, sp, v, sz, old(mem));
        Below(v, sz);
        var ok;
        ok, sp := CopyNext(pgdir, d, v, sz, kmap, pool, sp0, sp, old(mem));
        if !ok {
          ghost var mem1 := mem;
          var _ := Freevm(d, pool, sp);
          UntouchedTwice(old(mem), mem1, mem, pool);
          ParentKept(mem1, mem, sp0, pool, sz);
          return None, sp;
        }
        v := v + 1;
      }
      Covered(v, sz);
      CopyDone(kmap, pool, sp0, sp, v, sz, old(mem));
      ChildSeen(pool, sp0, sp, v, sz, kmap);
    }

    lemma ChildSeen(pool: set<nat>, sp0: Space, sp: Space, v: nat, sz: nat, kmap: seq<Region>)
      requires World(pool, sp) && Parent(mem, sp0, pool, sz) && CopyOf(mem, sp0, sp, v) && KernelPart(kmap, sp)
      requires Regions(kmap) && v == RoundUp(sz) / PGSIZE
      ensures SeesKernel(mem, sp.dir, kmap) && SeesCopy(mem, sp0.dir, sp.dir, v)
    {
      hide FreeList, Good, CopyOf, Owns, SeesKernel, SeesCopy, KernelPart;
      KernelSeen(mem, sp, kmap);
      CopySeen(mem, sp0, sp, pool, v);
    }

    /** copyuvm has copied the pages up to v; it began with memory mem0. */
    ghost predicate Copying(kmap: seq<Region>, pool: set<nat>, sp0: Space, sp: Space, v: nat, sz: nat,
                            mem0: seq<seq<int>>)
      reads this
    {
      && World(pool, sp) && Untouched(mem0, mem, pool) && Parent(mem, sp0, pool, sz) && CopyOf(mem, sp0, sp, v)
      && KernelPart(kmap, sp) && sp.tables.Keys == Tabs(KernelTabs(kmap, |kmap|), 0, v)
    }

    lemma CopyStart(kmap: seq<Region>, pool: set<nat>, sp0: Space, sp: Space, sz: nat, mem0: seq<seq<int>>)
      requires World(pool, sp) && Untouched(mem0, mem, pool) && Parent(mem0, sp0, pool, sz) && Regions(kmap)
      requires sp.ptes == Kernel(kmap, |kmap|) && sp.tables.Keys == KernelTabs(kmap, |kmap|)
      ensures Copying(kmap, pool, sp0, sp, 0, sz, mem0)
    {
      hide Untouched, Kernel, KernelTabs, Parent, CopyOf;
      ParentKept(mem0, mem, sp0, pool, sz);
      CopyNone(mem, sp0, sp, kmap);
    }

    lemma SizeFits(kmap: seq<Region>, pool: set<nat>, sp0: Space, sp: Space, v: nat, sz: nat, mem0: seq<seq<int>>)
      requires Copying(kmap, pool, sp0, sp, v, sz, mem0)
      ensures sz <= KERNBASE
    {
    }

    lemma CopyDone(kmap: seq<Region>, pool: set<nat>, sp0: Space, sp: Space, v: nat, sz: nat, mem0: seq<seq<int>>)
      requires Copying(kmap, pool, sp0, sp, v, sz, mem0)
      ensures World(pool, sp) && Untouched(mem0, mem, pool) && Parent(mem, sp0, pool, sz) && CopyOf(mem, sp0, sp, v)
      ensures KernelPart(kmap, sp) && |sp.tables| + v == Need(KernelTabs(kmap, |kmap|), 0, v)
    {
      hide World, Untouched, Parent, CopyOf;
      NeedMet(sp, KernelTabs(kmap, |kmap|), 0, v);
    }

    /** One round of copyuvm's loop. */
    method CopyNext(pgdir: nat, d: nat, v: nat, sz: nat, kmap: seq<Region>,
                    ghost pool: set<nat>, ghost sp0: Space, ghost sp1: Space, ghost mem0: seq<seq<int>>)
      returns (ok: bool, ghost sp: Space)
      requires pgdir == sp0.dir && d == sp1.dir && v < RoundUp(sz) / PGSIZE && v < UVPN
      requires Copying(kmap, pool, sp0, sp1, v, sz, mem0)
      modifies this
      ensures sp.dir == d
      ensures ok ==>
                Copying(kmap, pool, sp0, sp, v + 1, sz, mem0) && |free| + |sp.tables| + 1 == |old(free)| + |sp1.tables|
      ensures !ok ==> World(pool, sp) && Untouched(mem0, mem, pool) && Parent(mem, sp0, pool, sz)
      ensures !ok ==> |old(free)| + |sp1.tables| + v < Need(KernelTabs(kmap, |kmap|), 0, RoundUp(sz) / PGSIZE)
    {
      hide World, FreeList, Filled, Good, Shared, Owns, OwnsPage, Untouched, PagesKept;
      hide Kernel, KernelTabs, Parent, CopyOf, Frame, Flags, Need, Tabs, RoundUp;
      ParentWord(mem, sp0, pool, sz, v);
      var t := FindTable(pgdir, v / NENTRIES, sp0);
      var w := mem[t.value][v % NENTRIES];
      ghost var mem1 := mem;
      CopyRoom(mem, sp0, sp1, v);
      ok, sp := CopyPage(d, v, w, pool, sp1);
      NeedMore(KernelTabs(kmap, |kmap|), 0, v, RoundUp(sz) / PGSIZE);
      UntouchedTwice(mem0, mem1, mem, pool);
      WorldFilled(pool, sp);
      ParentKept(mem1, mem, sp0, pool, sz);
      if ok {
        CopyMore(mem1, mem, sp0, sp1, sp, pool, v, sz);
      }
    }

    lemma WorldFilled(pool: set<nat>, sp: Space)
      requires World(pool, sp)
      ensures Filled(mem)
    {
    }
  }

  // ---- Growing ----------------------------------------------------------------------------

  ghost function Cut(ptes: map<nat, int>, oldsz: nat, newsz: nat): map<nat, int> {
    if oldsz >= newsz then ptes else Without(ptes, RoundUp(oldsz) / PGSIZE, RoundUp(newsz) / PGSIZE)
  }

  /** The pages from first up to v are new, writable by the user and zero; others are as before. */
  ghost predicate Grown(mem: seq<seq<int>>, sp: Space, sp1: Space, first: nat, v: nat) {
    && (forall u: nat :: !(first <= u < v) ==>
          (u in sp1.ptes <==> u in sp.ptes) && (u in sp.ptes ==> sp1.ptes[u] == sp.ptes[u]))
    && (forall u: nat :: first <= u < v ==> u !in sp.ptes && Blank(mem, sp1, u))
  }

  ghost predicate Blank(mem: seq<seq<int>>, sp: Space, u: nat) {
    u in sp.ptes && Flags(sp.ptes[u]) == TABLEFLAGS
    && 0 <= Frame(sp.ptes[u]) < |mem| && mem[Frame(sp.ptes[u])] == Zeroes()
  }

  /** The processor finds zeroed pages, writable by the user, from first up to last, where it found
      none, and elsewhere what it found before. */
  ghost predicate SeesGrown(mem0: seq<seq<int>>, mem: seq<seq<int>>, d: nat, first: nat, last: nat) {
    forall a: nat :: a < NVPN * PGSIZE ==>
      if first <= a / PGSIZE < last then Mmu(mem0, d, a) == None && ZeroPage(mem, Mmu(mem, d, a))
      else Mmu(mem, d, a) == Mmu(mem0, d, a)
  }

  predicate ZeroPage(mem: seq<seq<int>>, e: Option<int>) {
    && e.Some? && e.value % 0x1000 == 7 && 0 <= e.value / 0x1000 < |mem|
    && forall k :: 0 <= k < |mem[e.value / 0x1000]| ==> mem[e.value / 0x1000][k] == 0
  }

  lemma GrownSeen(mem0: seq<seq<int>>, mem: seq<seq<int>>, sp: Space, sp1: Space, first: nat, last: nat)
    requires Good(mem0, sp) && Good(mem, sp1) && sp1.dir == sp.dir && Grown(mem, sp, sp1, first, last)
    ensures SeesGrown(mem0, mem, sp.dir, first, last)
  {
    hide Good, Mmu;
    forall a: nat | a < NVPN * PGSIZE
      ensures if first <= a / PGSIZE < last then Mmu(mem0, sp.dir, a) == None && ZeroPage(mem, Mmu(mem, sp.dir, a))
              else Mmu(mem, sp.dir, a) == Mmu(mem0, sp.dir, a)
    {
      MmuSees(mem0, sp, a);
      MmuSees(mem, sp1, a);
    }
  }

  lemma GrownNone(mem: seq<seq<int>>, sp: Space, first: nat)
    ensures Grown(mem, sp, sp, first, first)
  {
  }

  lemma GrownRoom(mem: seq<seq<int>>, sp: Space, sp1: Space, first: nat, v: nat)
    requires Grown(mem, sp, sp1, first, v) && v !in sp.ptes
    ensures v !in sp1.ptes
  {
  }

  /** Old pages of the space are pages of the grown one, so what keeps those keeps these. */
  lemma KeptGrown(mem0: seq<seq<int>>, mem1: seq<seq<int>>, mem2: seq<seq<int>>, sp: Space, sp0: Space, first: nat,
                  v: nat)
    requires PagesKept(mem0, mem1, sp) && Grown(mem1, sp, sp0, first, v) && PagesKept(mem1, mem2, sp0)
    ensures PagesKept(mem0, mem2, sp)
  {
    hide Frame, Blank;
    forall f: nat | OwnsPage(sp, f) ensures OwnsPage(sp0, f) {
      var u :| u in sp.ptes && u < UVPN && Frame(sp.ptes[u]) == f;
      assert u in sp0.ptes && sp0.ptes[u] == sp.ptes[u];
    }
  }

  lemma GrownMore(mem1: seq<seq<int>>, mem: seq<seq<int>>, sp: Space, sp0: Space, sp1: Space, first: nat, v: nat)
    requires Grown(mem1, sp, sp0, first, v) && first <= v < UVPN && v !in sp.ptes && v in sp1.ptes
    requires sp1.ptes == sp0.ptes[v := sp1.ptes[v]] && Blank(mem, sp1, v) && PagesKept(mem1, mem, sp0)
    ensures Grown(mem, sp, sp1, first, v + 1)
  {
    hide Frame, Flags, Zeroes;
    forall u: nat | first <= u < v + 1 ensures u !in sp.ptes && Blank(mem, sp1, u) {
      if u < v {
        assert Blank(mem1, sp0, u);
        assert OwnsPage(sp0, Frame(sp0.ptes[u]));
      }
    }
  }

  lemma GrownBack(mem: seq<seq<int>>, sp: Space, sp0: Space, first: nat, v: nat, last: nat)
    requires Grown(mem, sp, sp0, first, v) && v <= last && forall u :: first <= u < last ==> u !in sp.ptes
    ensures Without(sp0.ptes, first, last) == sp.ptes
  {
    hide Blank;
  }

  lemma GrowsOn(mem0: seq<seq<int>>, mem1: seq<seq<int>>, mem: seq<seq<int>>, pool: set<nat>,
                sp: Space, sp0: Space, sp1: Space, first: nat, v: nat)
    requires Untouched(mem0, mem1, pool) && PagesKept(mem0, mem1, sp) && Untouched(mem1, mem, pool)
    requires PagesKept(mem1, mem, sp0)
    requires Grown(mem1, sp, sp0, first, v) && first <= v < UVPN && v !in sp.ptes && v in sp1.ptes
    requires sp1.ptes == sp0.ptes[v := sp1.ptes[v]] && Flags(sp1.ptes[v]) == TABLEFLAGS
    requires 0 <= Frame(sp1.ptes[v]) < |mem| && mem[Frame(sp1.ptes[v])] == Zeroes()
    ensures Untouched(mem0, mem, pool) && PagesKept(mem0, mem, sp) && Grown(mem, sp, sp1, first, v + 1)
  {
    hide Untouched, PagesKept, Grown, Frame, Flags, Zeroes;
    UntouchedTwice(mem0, mem1, mem, pool);
    KeptGrown(mem0, mem1, mem, sp, sp0, first, v);
    GrownMore(mem1, mem, sp, sp0, sp1, first, v);
  }

  lemma GrowsBack(mem0: seq<seq<int>>, mem1: seq<seq<int>>, mem: seq<seq<int>>, pool: set<nat>,
                  sp: Space, sp0: Space, sp1: Space, first: nat, v: nat, oldsz: nat, newsz: nat)
    requires Untouched(mem0, mem1, pool) && PagesKept(mem0, mem1, sp) && Untouched(mem1, mem, pool)
    requires PagesKept(mem1, mem, sp1)
    requires first == RoundUp(oldsz) / PGSIZE <= v < RoundUp(newsz) / PGSIZE && oldsz <= newsz
    requires forall u :: first <= u < RoundUp(newsz) / PGSIZE ==> u !in sp.ptes
    requires Grown(mem1, sp, sp0, first, v) && sp1.ptes == Cut(sp0.ptes, oldsz, newsz)
    ensures sp1.ptes == sp.ptes && Untouched(mem0, mem, pool) && PagesKept(mem0, mem, sp)
  {
    hide Untouched, PagesKept, Grown, RoundUp;
    GrownBack(mem1, sp, sp0, first, v, RoundUp(newsz) / PGSIZE);
    KeptTwice(mem0, mem1, mem, pool, sp, sp1);
  }

  lemma RoundsTo(oldsz: nat, newsz: nat)
    requires oldsz <= newsz < KERNBASE
    ensures RoundUp(oldsz) == RoundUp(oldsz) / PGSIZE * PGSIZE
    ensures RoundUp(oldsz) / PGSIZE <= RoundUp(newsz) / PGSIZE <= UVPN
  {
  }

  lemma CoveredTo(v: nat, oldsz: nat, newsz: nat)
    requires oldsz <= newsz < KERNBASE && v * PGSIZE >= newsz && RoundUp(oldsz) / PGSIZE <= v <= RoundUp(newsz) / PGSIZE
    ensures v == RoundUp(newsz) / PGSIZE
  {
  }

  lemma KeptBack(mem0: seq<seq<int>>, mem2: seq<seq<int>>, mem3: seq<seq<int>>, mem: seq<seq<int>>, pool: set<nat>,
                 f: nat, sp: Space, sp1: Space)
    requires Untouched(mem0, mem2, pool) && PagesKept(mem0, mem2, sp) && f in pool && f < |mem3| == |mem|
    requires Untouched(mem2, mem3, pool - {f}) && PagesKept(mem2, mem3, sp1) && mem == mem3[f := mem[f]]
    requires !OwnsPage(sp1, f)
    requires forall v :: v in sp1.ptes ==> v in sp.ptes && sp1.ptes[v] == sp.ptes[v]
    ensures Untouched(mem0, mem, pool) && PagesKept(mem0, mem, sp1)
  {
    forall g: nat | OwnsPage(sp1, g) ensures OwnsPage(sp, g) {
    }
    hide OwnsPage;
  }

  // ---- The kernel's part of a page table --------------------------------------------------

  /** An entry of kmap[] in pages. */
  datatype Region = Region(virt: nat, n: nat, phys: nat, perm: nat)

  /** The regions lie above KERNBASE and do not overlap. */
  predicate Regions(kmap: seq<Region>) {
    && (forall k :: 0 <= k < |kmap| ==>
          UVPN <= kmap[k].virt && kmap[k].n > 0 && kmap[k].virt + kmap[k].n <= NVPN && kmap[k].perm < PGSIZE)
    && (forall j, k :: 0 <= j < k < |kmap| ==>
          kmap[j].virt + kmap[j].n <= kmap[k].virt || kmap[k].virt + kmap[k].n <= kmap[j].virt)
  }

  ghost function Kernel(kmap: seq<Region>, k: nat): map<nat, int>
    requires k <= |kmap|
  {
    if k == 0 then map[]
    else Spread(Kernel(kmap, k - 1), kmap[k - 1].virt, kmap[k - 1].n, kmap[k - 1].phys, kmap[k - 1].perm)
  }

  lemma {:induction false} KernelAt(kmap: seq<Region>, k: nat, v: nat)
    requires k <= |kmap| && v in Kernel(kmap, k)
    ensures exists j :: 0 <= j < k && kmap[j].virt <= v < kmap[j].virt + kmap[j].n
  {
    if k > 0 {
      var r := kmap[k - 1];
      SpreadAt(Kernel(kmap, k - 1), r.virt, r.n, r.phys, r.perm, v);
      if !(r.virt <= v < r.virt + r.n) {
        KernelAt(kmap, k - 1, v);
      }
    }
  }

  lemma NoRemap(kmap: seq<Region>, k: nat)
    requires Regions(kmap) && k < |kmap|
    ensures forall v :: kmap[k].virt <= v < kmap[k].virt + kmap[k].n ==> v !in Kernel(kmap, k)
  {
    forall v | v in Kernel(kmap, k) ensures !(kmap[k].virt <= v < kmap[k].virt + kmap[k].n) {
      KernelAt(kmap, k, v);
    }
  }

  /** Entry e for page v is that of the region v lies in, and absent if v lies in none. */
  ghost predicate ByRegion(e: Option<int>, kmap: seq<Region>, v: nat) {
    && (forall k :: 0 <= k < |kmap| && kmap[k].virt <= v < kmap[k].virt + kmap[k].n ==>
          PointsAt(e, kmap[k].phys + (v - kmap[k].virt), kmap[k].perm))
    && ((forall k :: 0 <= k < |kmap| ==> !(kmap[k].virt <= v < kmap[k].virt + kmap[k].n)) ==> e == None)
  }

  /** From KERNBASE on, the processor finds each region of kmap[] at its frames with its flags,
      and nothing else. */
  ghost predicate SeesKernel(mem: seq<seq<int>>, d: nat, kmap: seq<Region>) {
    forall a: nat :: KERNBASE <= a < NVPN * PGSIZE ==> ByRegion(Mmu(mem, d, a), kmap, a / PGSIZE)
  }

  ghost function EntryAt(ptes: map<nat, int>, v: nat): Option<int> {
    if v in ptes then Some(ptes[v]) else None
  }

  lemma {:induction false} KernelIs(kmap: seq<Region>, k: nat, v: nat)
    requires Regions(kmap) && k <= |kmap|
    ensures ByRegion(EntryAt(Kernel(kmap, k), v), kmap[..k], v)
  {
    hide PointsAt, Spread, Word, WithP, ByRegion, Regions;
    if k == 0 {
      assert kmap[..0] == [];
      NoRegion(None, [], v);
    } else {
      var r := kmap[k - 1];
      var ptes := Kernel(kmap, k - 1);
      KernelIs(kmap, k - 1, v);
      SpreadAt(ptes, r.virt, r.n, r.phys, r.perm, v);
      LastRegion(kmap, k, v);
      if r.virt <= v < r.virt + r.n {
        PointsTo(r.phys + (v - r.virt), r.perm);
      }
      RegionMore(EntryAt(ptes, v), EntryAt(Kernel(kmap, k), v), kmap, k, v);
    }
  }

  lemma NoRegion(e: Option<int>, kmap: seq<Region>, v: nat)
    requires kmap == [] && e == None
    ensures ByRegion(e, kmap, v)
  {
  }

  lemma LastRegion(kmap: seq<Region>, k: nat, v: nat)
    requires Regions(kmap) && 0 < k <= |kmap|
    ensures kmap[k - 1].perm < PGSIZE
    ensures kmap[k - 1].virt <= v < kmap[k - 1].virt + kmap[k - 1].n ==>
              forall j :: 0 <= j < k - 1 ==> !(kmap[j].virt <= v < kmap[j].virt + kmap[j].n)
  {
  }

  lemma RegionMore(e0: Option<int>, e: Option<int>, kmap: seq<Region>, k: nat, v: nat)
    requires 0 < k <= |kmap| && ByRegion(e0, kmap[..k - 1], v)
    requires kmap[k - 1].virt <= v < kmap[k - 1].virt + kmap[k - 1].n ==>
               && PointsAt(e, kmap[k - 1].phys + (v - kmap[k - 1].virt), kmap[k - 1].perm)
               && forall j :: 0 <= j < k - 1 ==> !(kmap[j].virt <= v < kmap[j].virt + kmap[j].n)
    requires !(kmap[k - 1].virt <= v < kmap[k - 1].virt + kmap[k - 1].n) ==> e == e0
    ensures ByRegion(e, kmap[..k], v)
  {
    hide PointsAt;
    assert forall j :: 0 <= j < k - 1 ==> kmap[..k - 1][j] == kmap[j] == kmap[..k][j];
    if (forall j :: 0 <= j < k ==> !(kmap[..k][j].virt <= v < kmap[..k][j].virt + kmap[..k][j].n)) {
      assert !(kmap[k - 1].virt <= v < kmap[k - 1].virt + kmap[k - 1].n) by { assert kmap[..k][k - 1] == kmap[k - 1]; }
    }
  }

  lemma KernelSeen(mem: seq<seq<int>>, sp: Space, kmap: seq<Region>)
    requires Good(mem, sp) && KernelPart(kmap, sp) && Regions(kmap)
    ensures SeesKernel(mem, sp.dir, kmap)
  {
    hide Good, Kernel, ByRegion, Mmu;
    assert kmap[..|kmap|] == kmap;
    forall a: nat | KERNBASE <= a < NVPN * PGSIZE ensures ByRegion(Mmu(mem, sp.dir, a), kmap, a / PGSIZE) {
      MmuSees(mem, sp, a);
      KernelIs(kmap, |kmap|, a / PGSIZE);
      assert Mmu(mem, sp.dir, a) == EntryAt(Kernel(kmap, |kmap|), a / PGSIZE);
    }
  }

  lemma OnlyKernel(mem: seq<seq<int>>, sp: Space, kmap: seq<Region>)
    requires Good(mem, sp) && sp.ptes == Kernel(kmap, |kmap|) && Regions(kmap)
    ensures SeesKernel(mem, sp.dir, kmap) && forall a: nat :: a < KERNBASE ==> Mmu(mem, sp.dir, a) == None
  {
    hide Good, Kernel, SeesKernel, Mmu;
    KernelSeen(mem, sp, kmap);
    forall a: nat | a < KERNBASE ensures Mmu(mem, sp.dir, a) == None {
      MmuSees(mem, sp, a);
      if a / PGSIZE in Kernel(kmap, |kmap|) {
        KernelAt(kmap, |kmap|, a / PGSIZE);
      }
    }
  }

  lemma EmptySpace(mem: seq<seq<int>>, d: nat)
    requires Filled(mem) && d < |mem|
    ensures Good(mem[d := Zeroes()], Space(d, map[], map[]))
  {
    hide Zeroes;
  }

  // ---- Parent and child ---------------------------------------------------------------------

  /** An address space of which every page below sz is present, outside the pool. */
  ghost predicate Parent(mem: seq<seq<int>>, sp: Space, pool: set<nat>, sz: nat) {
    && Good(mem, sp) && sz <= KERNBASE
    && (forall f :: f in pool ==> !Owns(sp, f))
    && (forall v: nat :: v < RoundUp(sz) / PGSIZE ==> v in sp.ptes && Frame(sp.ptes[v]) < |mem|)
  }

  /** The user pages of the copy are the first n, with the flags and the bytes of sp0's. */
  ghost predicate CopyOf(mem: seq<seq<int>>, sp0: Space, sp: Space, n: nat) {
    && (forall v: nat :: v < UVPN ==> (v in sp.ptes <==> v < n))
    && (forall v: nat :: v < n ==> Copied(mem, sp0, sp, v))
  }

  ghost predicate Copied(mem: seq<seq<int>>, sp0: Space, sp: Space, v: nat) {
    && v in sp.ptes && v in sp0.ptes && Flags(sp.ptes[v]) == Flags(sp0.ptes[v])
    && 0 <= Frame(sp.ptes[v]) < |mem| && 0 <= Frame(sp0.ptes[v]) < |mem|
    && mem[Frame(sp.ptes[v])] == mem[Frame(sp0.ptes[v])]
  }

  /** In both spaces the processor finds the pages below n, in different frames with the same flags
      and bytes, and in the copy no other below KERNBASE. */
  ghost predicate SeesCopy(mem: seq<seq<int>>, d0: nat, d: nat, n: nat) {
    forall a: nat :: a < KERNBASE ==>
      if a / PGSIZE < n then SameBytes(mem, Mmu(mem, d0, a), Mmu(mem, d, a)) else Mmu(mem, d, a) == None
  }

  predicate SameBytes(mem: seq<seq<int>>, e0: Option<int>, e: Option<int>) {
    && e0.Some? && e.Some? && e.value % 0x1000 == e0.value % 0x1000 && e.value / 0x1000 != e0.value / 0x1000
    && 0 <= e.value / 0x1000 < |mem| && 0 <= e0.value / 0x1000 < |mem|
    && mem[e.value / 0x1000] == mem[e0.value / 0x1000]
  }

  lemma CopySeen(mem: seq<seq<int>>, sp0: Space, sp: Space, pool: set<nat>, n: nat)
    requires Good(mem, sp0) && Good(mem, sp) && CopyOf(mem, sp0, sp, n) && n <= UVPN
    requires (forall f :: f in pool ==> !Owns(sp0, f)) && forall f: nat :: Owns(sp, f) ==> f in pool
    ensures SeesCopy(mem, sp0.dir, sp.dir, n)
  {
    hide Good, Mmu, OwnsTable;
    forall a: nat | a < KERNBASE
      ensures if a / PGSIZE < n then SameBytes(mem, Mmu(mem, sp0.dir, a), Mmu(mem, sp.dir, a))
              else Mmu(mem, sp.dir, a) == None
    {
      var v := a / PGSIZE;
      MmuSees(mem, sp0, a);
      MmuSees(mem, sp, a);
      assert v < UVPN;
      if v < n {
        assert Copied(mem, sp0, sp, v);
        assert OwnsPage(sp, Frame(sp.ptes[v])) && OwnsPage(sp0, Frame(sp0.ptes[v]));
        assert Owns(sp, Frame(sp.ptes[v])) && Owns(sp0, Frame(sp0.ptes[v]));
      }
    }
  }

  lemma ParentKept(mem0: seq<seq<int>>, mem: seq<seq<int>>, sp: Space, pool: set<nat>, sz: nat)
    requires Parent(mem0, sp, pool, sz) && Untouched(mem0, mem, pool) && Filled(mem)
    ensures Parent(mem, sp, pool, sz)
  {
    hide Frame, RoundUp, Word;
    assert Owns(sp, sp.dir);
    assert mem[sp.dir] == mem0[sp.dir];
    forall i | i in sp.tables ensures sp.tables[i] < |mem| && mem[sp.tables[i]] == mem0[sp.tables[i]] {
      assert OwnsTable(sp, sp.tables[i]);
      assert Owns(sp, sp.tables[i]);
    }
    forall u: nat ensures WordAt(mem, sp, u) == WordAt(mem0, sp, u) {
    }
    LeavesSame(mem0, sp, mem, sp);
    hide Leaves, WordAt, Owns;
  }

  lemma CopyNone(mem: seq<seq<int>>, sp0: Space, sp: Space, kmap: seq<Region>)
    requires Regions(kmap) && sp.ptes == Kernel(kmap, |kmap|)
    ensures CopyOf(mem, sp0, sp, 0)
  {
    forall v | v in sp.ptes ensures v >= UVPN {
      KernelAt(kmap, |kmap|, v);
    }
  }

  /** The mappings above KERNBASE are those of kmap[]. */
  ghost predicate KernelPart(kmap: seq<Region>, sp: Space) {
    forall v :: v >= UVPN ==>
      (v in sp.ptes <==> v in Kernel(kmap, |kmap|)) && (v in sp.ptes ==> sp.ptes[v] == Kernel(kmap, |kmap|)[v])
  }

  lemma ParentWord(mem: seq<seq<int>>, sp: Space, pool: set<nat>, sz: nat, v: nat)
    requires Parent(mem, sp, pool, sz) && v < RoundUp(sz) / PGSIZE && v < UVPN
    ensures Good(mem, sp) && Pdx(v) in sp.tables && sp.tables[Pdx(v)] < |mem| && Ptx(v) < |mem[sp.tables[Pdx(v)]]|
    ensures v in sp.ptes && mem[sp.tables[Pdx(v)]][Ptx(v)] == sp.ptes[v] && Here(sp.ptes[v])
    ensures 0 <= Frame(sp.ptes[v]) < |mem| && Frame(sp.ptes[v]) !in pool
  {
    hide Frame;
    EntryWord(mem, sp, v);
    var f := Frame(sp.ptes[v]);
    assert f >= 0;
    assert OwnsPage(sp, f);
    assert Owns(sp, f);
  }

  lemma CopyRoom(mem: seq<seq<int>>, sp0: Space, sp: Space, v: nat)
    requires CopyOf(mem, sp0, sp, v) && v < UVPN
    ensures v !in sp.ptes
  {
  }

  lemma CopyMore(mem1: seq<seq<int>>, mem: seq<seq<int>>, sp0: Space, sp1: Space, sp: Space, pool: set<nat>, v: nat,
                 sz: nat)
    requires CopyOf(mem1, sp0, sp1, v) && v < UVPN && v < RoundUp(sz) / PGSIZE && Parent(mem1, sp0, pool, sz)
    requires v in sp.ptes && sp.ptes == sp1.ptes[v := sp.ptes[v]] && v in sp0.ptes
    requires Flags(sp.ptes[v]) == Flags(sp0.ptes[v])
    requires 0 <= Frame(sp.ptes[v]) < |mem| == |mem1| && 0 <= Frame(sp0.ptes[v]) < |mem1|
    requires mem[Frame(sp.ptes[v])] == mem1[Frame(sp0.ptes[v])]
    requires PagesKept(mem1, mem, sp1) && Untouched(mem1, mem, pool)
    ensures CopyOf(mem, sp0, sp, v + 1)
  {
    hide Frame, Flags, Parent, RoundUp;
    forall u: nat | u < v + 1 ensures Copied(mem, sp0, sp, u) {
      ParentWord(mem1, sp0, pool, sz, u);
      if u < v {
        assert Copied(mem1, sp0, sp1, u);
        assert OwnsPage(sp1, Frame(sp1.ptes[u]));
      }
    }
  }

  lemma Covered(v: nat, sz: nat)
    requires v * PGSIZE >= sz && v <= RoundUp(sz) / PGSIZE
    ensures v == RoundUp(sz) / PGSIZE
  {
  }

  // ---- Frames needed ------------------------------------------------------------------------

  /** The directory entries with a page table once n pages from v on are mapped. */
  ghost function Tabs(keys: set<nat>, v: nat, n: nat): set<nat> {
    if n == 0 then keys else Tabs(keys, v, n - 1) + {Pdx(v + n - 1)}
  }

  /** The frames for n new pages from v on and for all the page tables. */
  ghost function Need(keys: set<nat>, v: nat, n: nat): nat { |Tabs(keys, v, n)| + n }

  ghost function KernelTabs(kmap: seq<Region>, k: nat): set<nat>
    requires k <= |kmap|
  {
    if k == 0 then {} else Tabs(KernelTabs(kmap, k - 1), kmap[k - 1].virt, kmap[k - 1].n)
  }

  lemma TabsNone(keys: set<nat>, v: nat)
    ensures Tabs(keys, v, 0) == keys
  {
  }

  lemma TabsOne(keys: set<nat>, v: nat)
    ensures Tabs(keys, v, 0) == keys && Tabs(keys, v, 1) == keys + {Pdx(v)}
  {
    hide Pdx;
  }

  lemma {:induction false} TabsGrow(keys: set<nat>, v: nat, m: nat, n: nat)
    requires m <= n
    ensures Tabs(keys, v, m) <= Tabs(keys, v, n)
    decreases n - m
  {
    hide Pdx;
    if m < n {
      TabsGrow(keys, v, m + 1, n);
    }
  }

  /** One page more adds its table, and the whole range has at least that one. */
  lemma TabsMore(keys: set<nat>, v: nat, m: nat, n: nat)
    requires m < n
    ensures Tabs(keys, v, m + 1) == Tabs(keys, v, m) + {Pdx(v + m)}
    ensures keys <= Tabs(keys, v, m)
    ensures |Tabs(keys, v, m) + {Pdx(v + m)}| <= |Tabs(keys, v, n)|
  {
    hide Pdx;
    TabsGrow(keys, v, 0, m);
    TabsGrow(keys, v, m + 1, n);
    SubsetSize(Tabs(keys, v, m + 1), Tabs(keys, v, n));
  }

  lemma TabsSize(sp: Space, keys: set<nat>, v: nat, m: nat)
    requires sp.tables.Keys == Tabs(keys, v, m)
    ensures |sp.tables| == |Tabs(keys, v, m)|
  {
  }

  lemma TablesMore(sp: Space, i: nat)
    ensures |sp.tables.Keys + {i}| == |sp.tables| + if i in sp.tables then 0 else 1
  {
    assert |sp.tables.Keys| == |sp.tables|;
    if i in sp.tables {
      assert sp.tables.Keys + {i} == sp.tables.Keys;
    }
  }

  /** Page v, after the pages from first on, needs a frame and maybe a table. */
  lemma NeedMore(keys: set<nat>, first: nat, v: nat, last: nat)
    requires first <= v < last
    ensures Tabs(keys, first, v + 1 - first) == Tabs(keys, first, v - first) + {Pdx(v)}
    ensures |Tabs(keys, first, v - first) + {Pdx(v)}| + (v - first) + 1 <= Need(keys, first, last - first)
  {
    hide Tabs, Pdx;
    TabsMore(keys, first, v - first, last - first);
  }

  lemma NeedMet(sp: Space, keys: set<nat>, v: nat, n: nat)
    requires sp.tables.Keys == Tabs(keys, v, n)
    ensures |sp.tables| + n == Need(keys, v, n)
  {
    TabsSize(sp, keys, v, n);
  }

  lemma NeedNone(keys: set<nat>, v: nat, n: nat)
    ensures Tabs(keys, v, 0) == keys && |keys| <= Need(keys, v, n)
  {
    TabsGrow(keys, v, 0, n);
    SubsetSize(keys, Tabs(keys, v, n));
  }

  lemma {:induction false} KernelTabsGrow(kmap: seq<Region>, j: nat, k: nat)
    requires j <= k <= |kmap|
    ensures KernelTabs(kmap, j) <= KernelTabs(kmap, k)
  {
    hide Tabs;
    if j < k {
      KernelTabsGrow(kmap, j, k - 1);
      TabsNone(KernelTabs(kmap, k - 1), kmap[k - 1].virt);
      TabsGrow(KernelTabs(kmap, k - 1), kmap[k - 1].virt, 0, kmap[k - 1].n);
    }
  }

  lemma KernelTabsMore(kmap: seq<Region>, k: nat)
    requires k < |kmap|
    ensures KernelTabs(kmap, k + 1) == Tabs(KernelTabs(kmap, k), kmap[k].virt, kmap[k].n)
    ensures |KernelTabs(kmap, k + 1)| <= |KernelTabs(kmap, |kmap|)|
  {
    hide Tabs;
    KernelTabsGrow(kmap, k + 1, |kmap|);
    SubsetSize(KernelTabs(kmap, k + 1), KernelTabs(kmap, |kmap|));
  }

  /** The pages that size bytes from va on lie in. */
  function Pages(va: nat, size: nat): nat
    requires size > 0
  {
    (va + size - 1) / PGSIZE - va / PGSIZE + 1
  }

  lemma PagesFit(va: nat, size: nat)
    requires size > 0 && va + size <= NVPN * PGSIZE
    ensures Pages(va, size) > 0 && va / PGSIZE + Pages(va, size) <= NVPN
    ensures (va + size - 1) / PGSIZE == va / PGSIZE + Pages(va, size) - 1
  {
  }

  lemma PagesOf(v: nat, n: nat)
    requires n > 0
    ensures v * PGSIZE / PGSIZE == v && Pages(v * PGSIZE, n * PGSIZE) == n
  {
    assert (v * PGSIZE + n * PGSIZE - 1) / PGSIZE == v + n - 1;
  }

  lemma OnePage(v: nat)
    ensures v * PGSIZE / PGSIZE == v && Pages(v * PGSIZE, PGSIZE) == 1
  {
    PagesOf(v, 1);
  }

  /** The pool with the frames of the user pages among n pages from v on, mapped to the frames from
      f on. */
  ghost function Lent(pool: set<nat>, v: nat, n: nat, f: nat): set<nat> {
    if n == 0 then pool
    else if v + n - 1 < UVPN then Lent(pool, v, n - 1, f) + {f + n - 1}
    else Lent(pool, v, n - 1, f)
  }

  lemma LentNone(pool: set<nat>, v: nat, f: nat)
    ensures Lent(pool, v, 0, f) == pool
  {
  }

  lemma LentOne(pool: set<nat>, v: nat, f: nat)
    requires v < UVPN && f in pool
    ensures Lent(pool - {f}, v, 0, f) == pool - {f} && Lent(pool - {f}, v, 1, f) == pool
  {
    assert pool - {f} + {f} == pool;
  }

  lemma {:induction false} LentIs(pool: set<nat>, v: nat, n: nat, f: nat, g: nat)
    ensures g in Lent(pool, v, n, f) <==> g in pool || (f <= g < f + n && v + (g - f) < UVPN)
  {
    if n > 0 {
      LentIs(pool, v, n - 1, f, g);
    }
  }

  lemma {:induction false} LentAbove(pool: set<nat>, v: nat, n: nat, f: nat)
    requires v >= UVPN
    ensures Lent(pool, v, n, f) == pool
  {
    if n > 0 {
      LentAbove(pool, v, n - 1, f);
    }
  }

  lemma LentMore(pool: set<nat>, v: nat, m: nat, f: nat)
    requires v + m < UVPN ==> f + m !in pool
    ensures v + m < UVPN ==> f + m !in Lent(pool, v, m, f)
    ensures Lent(pool, v, m + 1, f) ==
            if v + m < UVPN then Lent(pool, v, m, f) + {f + m} else Lent(pool, v, m, f)
  {
    LentIs(pool, v, m, f, f + m);
  }

  lemma RowSize(mem: seq<seq<int>>, g: nat)
    requires Filled(mem) && g < |mem|
    ensures |mem[g]| == NENTRIES
  {
  }

  lemma GoodFilled(mem: seq<seq<int>>, sp: Space)
    requires Good(mem, sp)
    ensures Filled(mem)
  {
  }

  lemma TakeFrame(pool: set<nat>, free: seq<nat>, sp: Space)
    requires Shared(pool, free, sp) && free != [] && free[0] !in free[1..]
    ensures Shared(pool - {free[0]}, free[1..], sp) && free[0] in pool && !Owns(sp, free[0])
  {
    hide Owns;
    assert free[0] in free;
    assert forall f :: f in free <==> f == free[0] || f in free[1..];
  }

  /** The frame taken for a page that could not be mapped is given back. */
  lemma GiveBack(pool: set<nat>, free: seq<nat>, sp: Space, sp1: Space, f: nat)
    requires Shared(pool - {f}, free, sp1) && f in pool
    ensures Shared(pool, [f] + free, sp1) && !Owns(sp1, f) && f !in free
  {
    hide Owns;
  }

  lemma FlagsOf(w: int)
    requires Here(w)
    ensures 0 <= Flags(w) < PGSIZE && WithP(Flags(w)) == Flags(w) && Flags(w) % 2 == 1
  {
    Odd(w % PGSIZE, w / 2 - 2048 * (w / PGSIZE));
  }

  lemma SpreadOne(ptes: map<nat, int>, v: nat, f: nat, perm: nat)
    ensures Spread(ptes, v, 1, f, perm) == ptes[v := Word(f, WithP(perm))]
  {
    assert Spread(ptes, v, 0, f, perm) == ptes;
  }

  lemma CopyKept(mem0: seq<seq<int>>, mem1: seq<seq<int>>, mem2: seq<seq<int>>, pool: set<nat>, f: nat, sp: Space)
    requires f < |mem0| && f in pool && |mem1| == |mem0|
    requires (forall g :: 0 <= g < |mem0| && g != f ==> mem1[g] == mem0[g])
    requires Untouched(mem1, mem2, pool - {f}) && PagesKept(mem1, mem2, sp) && !OwnsPage(sp, f)
    ensures Untouched(mem0, mem2, pool) && PagesKept(mem0, mem2, sp) && mem2[f] == mem1[f]
  {
    hide OwnsPage;
  }

  ghost function DirRow(mem: seq<seq<int>>, sp: Space): (row: seq<int>)
    requires Good(mem, sp)
    ensures sp.dir < |mem| && row == mem[sp.dir] && |row| == NENTRIES
  {
    mem[sp.dir]
  }

  lemma RowWord(mem: seq<seq<int>>, sp: Space, i: nat)
    requires Good(mem, sp) && i < NENTRIES
    ensures Here(DirRow(mem, sp)[i]) <==> i in sp.tables
    ensures i in sp.tables ==> Frame(DirRow(mem, sp)[i]) == sp.tables[i] < |mem|
  {
    DirWord(mem, sp, i);
    hide Leaves, FramesApart;
  }

  /** What is still in use while freevm frees the tables from entry i on. */
  ghost predicate Left(pool: set<nat>, free: seq<nat>, sp: Space, i: nat) {
    && FramesApart(sp) && sp.dir in pool && sp.dir !in free
    && (forall f :: f in free ==> f in pool)
    && (forall j :: j in sp.tables ==> j < NENTRIES && sp.tables[j] in pool && (j >= i <==> sp.tables[j] !in free))
    && (forall f :: f in pool && f !in free && f != sp.dir ==> OwnsTable(sp, f))
  }

  lemma NoPages(ptes: map<nat, int>, sp: Space)
    requires sp.ptes == Without(ptes, RoundUp(0) / PGSIZE, RoundUp(KERNBASE) / PGSIZE)
    ensures forall v :: v in sp.ptes ==> v >= UVPN
  {
  }

  lemma LeftAll(mem: seq<seq<int>>, pool: set<nat>, free: seq<nat>, sp: Space)
    requires Good(mem, sp) && Shared(pool, free, sp) && forall v :: v in sp.ptes ==> v >= UVPN
    ensures Left(pool, free, sp, 0)
  {
    hide FramesApart, Leaves;
    assert Owns(sp, sp.dir);
    forall j | j in sp.tables ensures Owns(sp, sp.tables[j]) {
      assert OwnsTable(sp, sp.tables[j]);
    }
  }

  lemma LeftNext(pool: set<nat>, free: seq<nat>, sp: Space, i: nat)
    requires Left(pool, free, sp, i) && i in sp.tables
    ensures sp.tables[i] !in free && sp.tables[i] in pool && sp.tables[i] != sp.dir
    ensures Left(pool, [sp.tables[i]] + free, sp, i + 1)
  {
    hide OwnsTable;
  }

  lemma LeftSkip(pool: set<nat>, free: seq<nat>, sp: Space, i: nat)
    requires Left(pool, free, sp, i) && i !in sp.tables
    ensures Left(pool, free, sp, i + 1)
  {
    hide OwnsTable;
  }

  lemma LeftLast(pool: set<nat>, free: seq<nat>, sp: Space)
    requires Left(pool, free, sp, NENTRIES)
    ensures forall f :: f in pool <==> f in [sp.dir] + free
    ensures sp.dir in pool && sp.dir !in free
  {
    hide FramesApart;
  }

  lemma UntouchedOne(mem0: seq<seq<int>>, mem1: seq<seq<int>>, mem2: seq<seq<int>>, pool: set<nat>, f: nat)
    requires Untouched(mem0, mem1, pool) && f in pool && |mem2| == |mem1|
    requires forall g :: 0 <= g < |mem2| && g != f ==> mem2[g] == mem1[g]
    ensures Untouched(mem0, mem2, pool)
  {
  }

  lemma UntouchedTwice(mem0: seq<seq<int>>, mem1: seq<seq<int>>, mem2: seq<seq<int>>, pool: set<nat>)
    requires Untouched(mem0, mem1, pool) && Untouched(mem1, mem2, pool)
    ensures Untouched(mem0, mem2, pool) && |mem0| == |mem1| == |mem2|
  {
  }

  /** PGROUNDUP, where it does not wrap. */
  function RoundUp(sz: nat): nat { (sz + PGSIZE - 1) / PGSIZE * PGSIZE }

  lemma RoundsUp(a: nat)
    ensures a <= RoundUp(a) < a + PGSIZE && RoundUp(a) % PGSIZE == 0
    ensures a >= KERNBASE ==> RoundUp(a) == KERNBASE + (RoundUp(a) - KERNBASE) / PGSIZE * PGSIZE
  {
  }

  /** The frames from first up to n are those that lie wholly in the range. */
  lemma Whole(vstart: nat, vend: nat, first: nat, n: nat)
    requires vstart <= KERNBASE + first * PGSIZE < vstart + PGSIZE && first <= n && KERNBASE + (n + 1) * PGSIZE > vend
    requires first < n ==> KERNBASE + n * PGSIZE <= vend
    ensures forall f: nat ::
              (vstart <= KERNBASE + f * PGSIZE && KERNBASE + (f + 1) * PGSIZE <= vend) <==> first <= f < n
  {
  }

  lemma FrameOf(p: nat, n: nat)
    requires p == KERNBASE + n * PGSIZE
    ensures (p - KERNBASE) / PGSIZE == n
  {
  }

  lemma Rounds(newsz: nat, oldsz: nat)
    requires newsz < oldsz <= KERNBASE
    ensures RoundUp(newsz) == RoundUp(newsz) / PGSIZE * PGSIZE
    ensures RoundUp(newsz) / PGSIZE <= RoundUp(oldsz) / PGSIZE <= UVPN
  {
  }

  lemma Below(v: nat, oldsz: nat)
    requires v * PGSIZE < oldsz <= KERNBASE
    ensures v < RoundUp(oldsz) / PGSIZE && v < UVPN
  {
  }

  lemma PageOf(a: nat, v: nat)
    requires a == v * PGSIZE
    ensures a / PGSIZE == v
  {
  }

  /** The byte address of the next directory entry, in pages. */
  lemma SkipTo(a: nat, v: nat)
    requires a == v * PGSIZE
    ensures (a / (PGSIZE * NENTRIES) + 1) * (PGSIZE * NENTRIES) == (Pdx(v) + 1) * NENTRIES * PGSIZE
    ensures v < (Pdx(v) + 1) * NENTRIES <= v + NENTRIES
  {
    assert a / (PGSIZE * NENTRIES) == v / NENTRIES;
  }

  lemma WithoutNone(ptes: map<nat, int>, a: int)
    ensures Without(ptes, a, a) == ptes
  {
  }

  lemma WithoutOne(ptes: map<nat, int>, v: nat)
    ensures Without(ptes, v, v + 1) == ptes - {v}
  {
  }

  lemma WithoutTwice(ptes: map<nat, int>, a: nat, v: nat, w: nat)
    requires a <= v <= w
    ensures Without(Without(ptes, a, v), v, w) == Without(ptes, a, w)
    ensures forall u :: u in Without(Without(ptes, a, v), v, w) ==>
              u in Without(ptes, a, v) && Without(ptes, a, w)[u] == Without(ptes, a, v)[u]
    ensures forall u :: v <= u < w && u !in Without(ptes, a, v) ==> u !in ptes
  {
  }

  lemma WithoutPast(ptes: map<nat, int>, a: nat, last: nat, v: nat)
    requires last <= v && forall u :: last <= u < v ==> u !in ptes
    ensures Without(ptes, a, v) == Without(ptes, a, last)
  {
  }

  lemma CoveredPast(v: nat, oldsz: nat)
    requires v * PGSIZE >= oldsz
    ensures RoundUp(oldsz) / PGSIZE <= v
  {
  }

  /** Without a page table no page of its range is mapped. */
  lemma WithoutSkip(mem: seq<seq<int>>, sp: Space, v: nat, next: nat)
    requires Good(mem, sp) && Pdx(v) !in sp.tables && next == (Pdx(v) + 1) * NENTRIES
    ensures Without(sp.ptes, v, next) == sp.ptes && forall u :: v <= u < next ==> u !in sp.ptes
  {
    forall u | u in sp.ptes ensures !(v <= u < next) {
      HasTable(mem, sp, u);
      SamePdx(v, u);
    }
    hide Good, Pdx;
  }

  lemma SamePdx(v: nat, u: nat)
    ensures v <= u < (Pdx(v) + 1) * NENTRIES ==> Pdx(u) == Pdx(v)
  {
  }

  lemma HasTable(mem: seq<seq<int>>, sp: Space, u: nat)
    requires Good(mem, sp) && u in sp.ptes
    ensures Pdx(u) in sp.tables
  {
    EntryWord(mem, sp, u);
  }

  /** Dropping a page keeps the contents of the others. */
  lemma KeptLess(mem0: seq<seq<int>>, mem1: seq<seq<int>>, mem2: seq<seq<int>>, pool: set<nat>, sp: Space, sp1: Space)
    requires Untouched(mem0, mem1, pool) && PagesKept(mem0, mem1, sp) && Untouched(mem1, mem2, pool)
    requires PagesKept(mem1, mem2, sp1)
    requires forall v :: v in sp1.ptes ==> v in sp.ptes && sp1.ptes[v] == sp.ptes[v]
    ensures Untouched(mem0, mem2, pool) && PagesKept(mem0, mem2, sp1)
  {
    forall f: nat | OwnsPage(sp1, f) ensures OwnsPage(sp, f) {
    }
    hide OwnsPage;
  }

  lemma Dropped(mem0: seq<seq<int>>, mem: seq<seq<int>>, sp: Space, v: nat, pool: set<nat>)
    requires FramesApart(sp) && v in sp.ptes && v < UVPN && Pdx(v) in sp.tables && |mem| == |mem0|
    requires sp.tables[Pdx(v)] in pool && Frame(sp.ptes[v]) >= 0 && Frame(sp.ptes[v]) in pool
    requires !OwnsPage(sp, sp.tables[Pdx(v)])
    requires forall g: nat :: g < |mem| && g != Frame(sp.ptes[v]) && g != sp.tables[Pdx(v)] ==> mem[g] == mem0[g]
    ensures Untouched(mem0, mem, pool) && PagesKept(mem0, mem, sp.(ptes := sp.ptes - {v}))
  {
    hide Frame;
    var sp1 := sp.(ptes := sp.ptes - {v});
    forall g: nat | OwnsPage(sp1, g) ensures OwnsPage(sp, g) && g != Frame(sp.ptes[v]) {
      var u :| u in sp1.ptes && u < UVPN && Frame(sp1.ptes[u]) == g;
      assert u in sp.ptes && sp1.ptes[u] == sp.ptes[u] && u != v;
    }
    hide OwnsPage;
  }

  /** The entries outside the pages from a up to b. */
  ghost function Without(ptes: map<nat, int>, a: int, b: int): map<nat, int> {
    map v | v in ptes && !(a <= v < b) :: ptes[v]
  }

  /** The processor finds nothing from address a up to b, and elsewhere what it found before. */
  ghost predicate SeesCut(mem0: seq<seq<int>>, mem: seq<seq<int>>, d: nat, a: nat, b: nat) {
    forall c: nat :: c < NVPN * PGSIZE ==> Mmu(mem, d, c) == if a <= c < b then None else Mmu(mem0, d, c)
  }

  lemma CutNone(mem: seq<seq<int>>, d: nat, a: nat)
    ensures SeesCut(mem, mem, d, a, a)
  {
    hide Mmu;
  }

  lemma CutSeen(mem0: seq<seq<int>>, mem: seq<seq<int>>, sp: Space, sp1: Space, newsz: nat, oldsz: nat)
    requires Good(mem0, sp) && Good(mem, sp1) && sp1.dir == sp.dir
    requires sp1.ptes == Without(sp.ptes, RoundUp(newsz) / PGSIZE, RoundUp(oldsz) / PGSIZE)
    ensures SeesCut(mem0, mem, sp.dir, RoundUp(newsz), RoundUp(oldsz))
  {
    RoundsUp(newsz);
    RoundsUp(oldsz);
    hide Good, Mmu, RoundUp;
    forall c: nat | c < NVPN * PGSIZE
      ensures Mmu(mem, sp.dir, c) == if RoundUp(newsz) <= c < RoundUp(oldsz) then None else Mmu(mem0, sp.dir, c)
    {
      MmuSees(mem0, sp, c);
      MmuSees(mem, sp1, c);
    }
  }

  /** The frame of mapped page v is overwritten and its entry cleared. */
  lemma PageDropped(mem: seq<seq<int>>, sp: Space, v: nat, row: seq<int>)
    requires Good(mem, sp) && v in sp.ptes && v < UVPN && |row| == NENTRIES
    requires 0 <= Frame(sp.ptes[v]) < |mem|
    ensures Pdx(v) in sp.tables && sp.tables[Pdx(v)] < |mem| && Ptx(v) < NENTRIES
    ensures sp.tables[Pdx(v)] != Frame(sp.ptes[v])
    ensures |mem[sp.tables[Pdx(v)]]| == NENTRIES
    ensures Good(Poke(mem[Frame(sp.ptes[v]) := row], sp.tables[Pdx(v)], Ptx(v), 0), sp.(ptes := sp.ptes - {v}))
  {
    PteCleared(mem, sp, v);
    var f, t := Frame(sp.ptes[v]), sp.tables[Pdx(v)];
    var mem1 := Poke(mem, t, Ptx(v), 0);
    var sp1 := sp.(ptes := sp.ptes - {v});
    ClearOwns(sp, v, f);
    assert f != t;
    GoodAside(mem1, sp1, f, row);
    assert mem1[f := row] == Poke(mem[f := row], t, Ptx(v), 0);
    hide Good, Owns;
  }

  /** The entries after mapping n pages from v to the frames from f. */
  ghost function Spread(ptes: map<nat, int>, v: nat, n: nat, f: nat, perm: nat): map<nat, int> {
    if n == 0 then ptes else Spread(ptes, v, n - 1, f, perm)[v + n - 1 := Word(f + n - 1, WithP(perm))]
  }

  /** ptes1 is ptes with n pages from v, unmapped before, mapped to the frames from f. */
  ghost predicate Extended(ptes: map<nat, int>, ptes1: map<nat, int>, v: nat, n: nat, f: nat, perm: nat) {
    ptes1 == Spread(ptes, v, n, f, perm) && forall k :: v <= k < v + n ==> k !in ptes
  }

  lemma ExtendedMore(ptes: map<nat, int>, ptes1: map<nat, int>, v: nat, n: nat, f: nat, perm: nat)
    requires Extended(ptes, ptes1, v, n, f, perm)
    ensures n == 0 ==> ptes1 == ptes
    ensures v + n in ptes1 <==> v + n in ptes
    ensures v + n !in ptes1 ==> Extended(ptes, ptes1[v + n := Word(f + n, WithP(perm))], v, n + 1, f, perm)
  {
    hide Word, WithP;
    SpreadAt(ptes, v, n, f, perm, v + n);
    SpreadMore(ptes, v, n, f, perm);
  }

  lemma SpreadMore(ptes: map<nat, int>, v: nat, n: nat, f: nat, perm: nat)
    ensures Spread(ptes, v, n + 1, f, perm) == Spread(ptes, v, n, f, perm)[v + n := Word(f + n, WithP(perm))]
    ensures Spread(ptes, v, 0, f, perm) == ptes
  {
  }

  lemma {:induction false} SpreadAt(ptes: map<nat, int>, v: nat, n: nat, f: nat, perm: nat, k: nat)
    ensures v <= k < v + n ==>
              k in Spread(ptes, v, n, f, perm) && Spread(ptes, v, n, f, perm)[k] == Word(f + (k - v), WithP(perm))
    ensures !(v <= k < v + n) ==> (k in Spread(ptes, v, n, f, perm) <==> k in ptes)
    ensures !(v <= k < v + n) && k in ptes ==> Spread(ptes, v, n, f, perm)[k] == ptes[k]
  {
    hide Word, WithP;
    if n > 0 {
      SpreadAt(ptes, v, n - 1, f, perm, k);
    }
  }

  lemma KeptNone(mem: seq<seq<int>>, pool: set<nat>, sp: Space)
    ensures Untouched(mem, mem, pool) && PagesKept(mem, mem, sp)
  {
  }

  /** sp1 is sp with m pages from v, unmapped before, mapped to the frames from f. */
  ghost predicate MapsTo(sp: Space, sp1: Space, v: nat, m: nat, f: nat, perm: nat) {
    && sp1.dir == sp.dir && Extended(sp.ptes, sp1.ptes, v, m, f, perm)
    && sp1.tables.Keys == Tabs(sp.tables.Keys, v, m)
  }

  lemma MapsNone(sp: Space, v: nat, f: nat, perm: nat)
    ensures MapsTo(sp, sp, v, 0, f, perm)
  {
  }

  lemma MapsDir(sp: Space, sp1: Space, v: nat, m: nat, f: nat, perm: nat)
    requires MapsTo(sp, sp1, v, m, f, perm)
    ensures sp1.dir == sp.dir && (v + m in sp1.ptes <==> v + m in sp.ptes)
    ensures |sp1.tables| == |Tabs(sp.tables.Keys, v, m)|
  {
    hide Tabs, Word, WithP;
    ExtendedMore(sp.ptes, sp1.ptes, v, m, f, perm);
    TabsSize(sp1, sp.tables.Keys, v, m);
  }

  /** The processor finds m pages from v at the frames from f on with the flags of perm, and
      elsewhere what it found before. */
  ghost predicate SeesMapped(mem0: seq<seq<int>>, mem: seq<seq<int>>, d: nat, v: nat, m: nat, f: nat, perm: nat) {
    forall a: nat :: a < NVPN * PGSIZE ==>
      if v <= a / PGSIZE < v + m then PointsAt(Mmu(mem, d, a), f + (a / PGSIZE - v), perm)
      else Mmu(mem, d, a) == Mmu(mem0, d, a)
  }

  lemma MapsSeen(mem0: seq<seq<int>>, mem: seq<seq<int>>, sp: Space, sp1: Space, v: nat, m: nat, f: nat, perm: nat)
    requires Good(mem0, sp) && Good(mem, sp1) && MapsTo(sp, sp1, v, m, f, perm) && perm < PGSIZE
    ensures SeesMapped(mem0, mem, sp.dir, v, m, f, perm)
  {
    hide Good, Spread, Tabs, Mmu, Word, WithP, PointsAt;
    forall a: nat | a < NVPN * PGSIZE
      ensures if v <= a / PGSIZE < v + m then PointsAt(Mmu(mem, sp.dir, a), f + (a / PGSIZE - v), perm)
              else Mmu(mem, sp.dir, a) == Mmu(mem0, sp.dir, a)
    {
      MmuSees(mem0, sp, a);
      MmuSees(mem, sp1, a);
      SpreadAt(sp.ptes, v, m, f, perm, a / PGSIZE);
      if v <= a / PGSIZE < v + m {
        PointsTo(f + (a / PGSIZE - v), perm);
      }
    }
  }

  /** Page v has been mapped to frame f, with a page table for it. */
  ghost predicate PageAdded(sp: Space, sp1: Space, v: nat, f: nat, perm: nat) {
    && sp1.dir == sp.dir && sp1.ptes == sp.ptes[v := Word(f, WithP(perm))]
    && sp1.tables.Keys == sp.tables.Keys + {Pdx(v)}
  }

  ghost predicate PageNotAdded(sp: Space, sp1: Space) {
    sp1.dir == sp.dir && sp1.ptes == sp.ptes && sp1.tables.Keys == sp.tables.Keys
  }

  /** One more page. */
  lemma MapsMore(sp: Space, sp0: Space, sp1: Space, v: nat, m: nat, f: nat, perm: nat)
    requires MapsTo(sp, sp0, v, m, f, perm) && v + m !in sp.ptes && PageAdded(sp0, sp1, v + m, f + m, perm)
    ensures MapsTo(sp, sp1, v, m + 1, f, perm)
  {
    hide Tabs, Word, WithP, Pdx;
    ExtendedMore(sp.ptes, sp0.ptes, v, m, f, perm);
    TabsMore(sp.tables.Keys, v, m, m + 1);
  }

  lemma MapsSame(sp: Space, sp0: Space, sp1: Space, v: nat, m: nat, f: nat, perm: nat)
    requires MapsTo(sp, sp0, v, m, f, perm) && PageNotAdded(sp0, sp1)
    ensures MapsTo(sp, sp1, v, m, f, perm)
  {
    hide Tabs, Extended;
  }

  /** Without a table for the next page, the tables there are do not suffice for the range. */
  lemma TabsLeft(sp: Space, sp0: Space, v: nat, m: nat, f: nat, perm: nat, n: nat)
    requires MapsTo(sp, sp0, v, m, f, perm) && m < n
    ensures Pdx(v + m) !in sp0.tables ==> |sp0.tables| < |Tabs(sp.tables.Keys, v, n)|
  {
    hide Tabs, Extended, Pdx;
    TabsMore(sp.tables.Keys, v, m, n);
    TablesMore(sp0, Pdx(v + m));
  }

  /** What keeps the pages mapped so far, and the frames outside, keeps all that was there. */
  lemma KeptMore(mem0: seq<seq<int>>, mem1: seq<seq<int>>, mem2: seq<seq<int>>, pool: set<nat>, sp: Space, sp1: Space,
                 v: nat, n: nat, f: nat, perm: nat)
    requires Untouched(mem0, mem1, pool) && PagesKept(mem0, mem1, sp) && perm < PGSIZE
    requires Untouched(mem1, mem2, Lent(pool, v, n, f)) && PagesKept(mem1, mem2, sp1)
    requires MapsTo(sp, sp1, v, n, f, perm)
    ensures Untouched(mem0, mem2, pool) && PagesKept(mem0, mem2, sp)
  {
    hide Frame, Word, WithP, Tabs;
    forall g: nat | OwnsPage(sp, g) ensures OwnsPage(sp1, g) {
      var u :| u in sp.ptes && u < UVPN && Frame(sp.ptes[u]) == g;
      SpreadAt(sp.ptes, v, n, f, perm, u);
    }
    forall g | g in Lent(pool, v, n, f) && g !in pool ensures OwnsPage(sp1, g) {
      LentIs(pool, v, n, f, g);
      SpreadAt(sp.ptes, v, n, f, perm, v + (g - f));
      WithPFits(perm);
      WordParts(g, WithP(perm));
    }
    hide OwnsPage, Spread, Lent;
  }

  lemma Stored(mem: seq<seq<int>>, t: nat, k: nat, w: int, pool: set<nat>, sp: Space)
    requires t < |mem| && k < |mem[t]| && t in pool && !OwnsPage(sp, t)
    ensures Untouched(mem, Poke(mem, t, k, w), pool) && PagesKept(mem, Poke(mem, t, k, w), sp)
  {
  }

  lemma EntryWord(mem: seq<seq<int>>, sp: Space, v: nat)
    requires Good(mem, sp) && v < NVPN
    ensures Pdx(v) in sp.tables ==> sp.tables[Pdx(v)] < |mem| && Ptx(v) < |mem[sp.tables[Pdx(v)]]|
    ensures Pdx(v) in sp.tables ==> (Here(mem[sp.tables[Pdx(v)]][Ptx(v)]) <==> v in sp.ptes)
    ensures Pdx(v) in sp.tables && v in sp.ptes ==> mem[sp.tables[Pdx(v)]][Ptx(v)] == sp.ptes[v]
    ensures v in sp.ptes ==> Pdx(v) in sp.tables
  {
    hide FramesApart;
    assert Here(WordAt(mem, sp, v)) <==> v in sp.ptes;
  }

  lemma TableFrame(mem: seq<seq<int>>, sp: Space, pool: set<nat>, free: seq<nat>, v: nat)
    requires Good(mem, sp) && Shared(pool, free, sp) && Pdx(v) in sp.tables
    ensures var t := sp.tables[Pdx(v)]; t < |mem| && Ptx(v) < |mem[t]| && t in pool && t !in free && !OwnsPage(sp, t)
  {
    hide Leaves;
    var t := sp.tables[Pdx(v)];
    assert OwnsTable(sp, t);
    assert Owns(sp, t);
  }

  lemma DirWord(mem: seq<seq<int>>, sp: Space, i: nat)
    requires Good(mem, sp) && i < NENTRIES
    ensures sp.dir < |mem| && i < |mem[sp.dir]| && (Here(mem[sp.dir][i]) <==> i in sp.tables)
    ensures i in sp.tables ==> Frame(mem[sp.dir][i]) == sp.tables[i]
  {
    hide Leaves, FramesApart;
    if i in sp.tables {
      WordParts(sp.tables[i], TABLEFLAGS);
    }
  }

  lemma DirOwned(sp: Space)
    ensures Owns(sp, sp.dir)
  {
  }

  /** The directory and a frame outside the space are not user pages of it. */
  lemma NotPage(sp: Space, t: nat)
    requires !Owns(sp, t)
    ensures !OwnsPage(sp, t)
  {
  }
}
