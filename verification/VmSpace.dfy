/** Physical frames of words, the free list threaded through them, and address spaces:
    what the two-level page tables in memory say. */
module VmSpace {
  import opened Common
  import opened Links

  const PGSIZE: int := 4096
  const NENTRIES: nat := 1024
  const KERNBASE: int := 0x8000_0000
  const UVPN: nat := 0x8_0000        // virtual pages below KERNBASE
  const NVPN: nat := 0x10_0000       // virtual pages of the 32-bit space
  const JUNK: int := 0x0101_0101     // memset(v, 1, PGSIZE)
  const TABLEFLAGS: int := 7         // PTE_P | PTE_W | PTE_U

  // ---- Words ---------------------------------------------------------------------------

  /** A page table entry: the frame in the upper 20 bits, flags below, bit 0 for present. */
  function Word(f: int, flags: int): int { f * PGSIZE + flags }
  function Frame(w: int): int { w / PGSIZE }
  function Flags(w: int): int { w % PGSIZE }
  predicate Here(w: int) { w % 2 == 1 }

  /** perm | PTE_P */
  function WithP(perm: int): int { if perm % 2 == 1 then perm else perm + 1 }

  lemma WordParts(f: nat, flags: nat)
    requires flags < PGSIZE
    ensures Frame(Word(f, flags)) == f && Flags(Word(f, flags)) == flags
    ensures Here(Word(f, flags)) <==> flags % 2 == 1
  {
    assert Word(f, flags) == 2 * (f * 2048) + flags;
  }

  /** Bit 0 is set and no other bit changes. */
  lemma WithPFits(perm: nat)
    requires perm < PGSIZE
    ensures 0 <= WithP(perm) < PGSIZE && WithP(perm) % 2 == 1 && WithP(perm) / 2 == perm / 2
  {
  }

  // ---- The free list -------------------------------------------------------------------

  /** The kernel address of a frame, P2V; 0 is the null pointer. */
  function Addr(f: int): int { if f == NIL then 0 else f * PGSIZE + KERNBASE }
  function FrameAt(a: int): int { if a == 0 then NIL else (a - KERNBASE) / PGSIZE }

  lemma AddrBack(f: int)
    requires f >= NIL
    ensures FrameAt(Addr(f)) == f && (Addr(f) == 0 <==> f == NIL)
  {
  }

  /** A free frame holds the pointer to the next one in its first word. */
  function NextOf(mem: seq<seq<int>>): (r: seq<int>)
    ensures |r| == |mem|
  {
    seq(|mem|, f requires 0 <= f < |mem| => if |mem[f]| > 0 then FrameAt(mem[f][0]) else NIL)
  }

  /** Null, or the address of a frame. */
  predicate Pointer(a: int) { a == 0 || a == Addr(FrameAt(a)) }

  ghost predicate FreeList(mem: seq<seq<int>>, freelist: int, free: seq<nat>) {
    && Pointer(freelist) && Linked(FrameAt(freelist), NextOf(mem), free)
    && forall f :: f in free ==> f < |mem| && |mem[f]| > 0 && Pointer(mem[f][0])
  }

  lemma NextSet(mem: seq<seq<int>>, f: nat, row: seq<int>)
    requires f < |mem| && |row| > 0
    ensures NextOf(mem[f := row]) == NextOf(mem)[f := FrameAt(row[0])]
  {
  }

  /** Writing a frame that is in use leaves the free list alone. */
  lemma FreeAside(mem: seq<seq<int>>, freelist: int, free: seq<nat>, f: nat, row: seq<int>)
    requires FreeList(mem, freelist, free) && f < |mem| && f !in free && |row| > 0
    ensures FreeList(mem[f := row], freelist, free)
  {
    hide Linked;
    NextSet(mem, f, row);
    LinkedAside(FrameAt(freelist), NextOf(mem), free, f, FrameAt(row[0]));
  }

  /** kfree: the frame goes first, holding the old head. */
  lemma FreePush(mem: seq<seq<int>>, freelist: int, free: seq<nat>, f: nat, row: seq<int>)
    requires FreeList(mem, freelist, free) && f < |mem| && f !in free && |row| > 0 && row[0] == freelist
    ensures FreeList(mem[f := row], Addr(f), [f] + free)
  {
    hide Linked;
    NextSet(mem, f, row);
    AddrBack(f);
    LinkedPush(FrameAt(freelist), NextOf(mem), free, f);
  }

  lemma FreedTwice(mem: seq<seq<int>>, freelist: int, free: seq<nat>, f: nat, row: seq<int>)
    requires FreeList(mem, freelist, free) && f in free && |row| > 0 && row[0] == freelist
    ensures f < |mem| && Endless(f, NextOf(mem[f := row]))
  {
    hide Linked, Endless;
    NextSet(mem, f, row);
    PushedTwice(FrameAt(freelist), NextOf(mem), free, f);
  }

  lemma FreeHead(mem: seq<seq<int>>, freelist: int, free: seq<nat>)
    requires FreeList(mem, freelist, free)
    ensures freelist == 0 <==> free == []
    ensures free != [] ==> FrameAt(freelist) == free[0] < |mem| && freelist == Addr(free[0])
  {
    HeadIs(FrameAt(freelist), NextOf(mem), free);
    hide Linked;
  }

  /** kalloc: the first free frame, leaving the rest. */
  lemma FreePop(mem: seq<seq<int>>, freelist: int, free: seq<nat>)
    requires FreeList(mem, freelist, free) && free != []
    ensures free[0] < |mem| && |mem[free[0]]| > 0 && FreeList(mem, mem[free[0]][0], free[1..])
    ensures free[0] !in free[1..] && FrameAt(freelist) == free[0] && freelist != 0
  {
    FreeHead(mem, freelist, free);
    LinkedRest(FrameAt(freelist), NextOf(mem), free);
    FirstOnce(FrameAt(freelist), NextOf(mem), free);
    hide Linked;
    assert free[0] in free;
    forall f | f in free[1..] ensures f in free {
    }
  }

  lemma FirstOnce(head: int, next: seq<int>, free: seq<nat>)
    requires Linked(head, next, free) && free != []
    ensures free[0] !in free[1..]
  {
  }

  ghost predicate Filled(mem: seq<seq<int>>) {
    forall f :: 0 <= f < |mem| ==> |mem[f]| == NENTRIES
  }

  // ---- Address spaces -------------------------------------------------------------------

  /** A page directory, its page tables by directory index, and its present page table
      entries by virtual page number. */
  datatype Space = Space(dir: nat, tables: map<nat, nat>, ptes: map<nat, int>)

  function Pdx(v: nat): nat { v / NENTRIES }
  function Ptx(v: nat): nat { v % NENTRIES }

  /** The entry for virtual page v as memory has it; 0 without a page table. */
  function WordAt(mem: seq<seq<int>>, sp: Space, v: nat): int {
    if Pdx(v) in sp.tables && sp.tables[Pdx(v)] < |mem| && Ptx(v) < |mem[sp.tables[Pdx(v)]]|
    then mem[sp.tables[Pdx(v)]][Ptx(v)] else 0
  }

  ghost predicate DirOk(mem: seq<seq<int>>, sp: Space) {
    && sp.dir < |mem| && |mem[sp.dir]| == NENTRIES
    && (forall i :: i in sp.tables ==>
          i < NENTRIES && sp.tables[i] < |mem| && mem[sp.dir][i] == Word(sp.tables[i], TABLEFLAGS))
    && (forall i :: 0 <= i < NENTRIES && Here(mem[sp.dir][i]) ==> i in sp.tables)
  }

  ghost predicate Leaves(mem: seq<seq<int>>, sp: Space) {
    && (forall v :: v in sp.ptes ==> v < NVPN && sp.ptes[v] == WordAt(mem, sp, v) && Here(sp.ptes[v]))
    && (forall v: nat :: v < NVPN && Here(WordAt(mem, sp, v)) ==> v in sp.ptes)
  }

  /** The frames of an address space: its directory, its tables and its user pages. */
  ghost predicate Owns(sp: Space, f: nat) {
    f == sp.dir || OwnsTable(sp, f) || OwnsPage(sp, f)
  }

  ghost predicate OwnsTable(sp: Space, f: nat) {
    exists i :: i in sp.tables && sp.tables[i] == f
  }

  ghost predicate OwnsPage(sp: Space, f: nat) {
    exists v :: v in sp.ptes && v < UVPN && Frame(sp.ptes[v]) == f
  }

  /** No frame has two uses. */
  ghost predicate FramesApart(sp: Space) {
    && (forall i, j :: i in sp.tables && j in sp.tables && i != j ==> sp.tables[i] != sp.tables[j])
    && (forall i :: i in sp.tables ==> sp.tables[i] != sp.dir)
    && (forall v, w :: v in sp.ptes && w in sp.ptes && v < UVPN && w < UVPN && v != w ==>
          Frame(sp.ptes[v]) != Frame(sp.ptes[w]))
    && (forall v, i :: v in sp.ptes && v < UVPN && i in sp.tables ==> Frame(sp.ptes[v]) != sp.tables[i])
    && (forall v :: v in sp.ptes && v < UVPN ==> Frame(sp.ptes[v]) >= 0 && Frame(sp.ptes[v]) != sp.dir)
  }

  ghost predicate Good(mem: seq<seq<int>>, sp: Space) {
    Filled(mem) && DirOk(mem, sp) && Leaves(mem, sp) && FramesApart(sp)
  }

  /** Every frame of the pool is free or in use in the space, not both; others are elsewhere. */
  ghost predicate Shared(pool: set<nat>, free: seq<nat>, sp: Space) {
    && (forall f :: f in pool <==> f in free || Owns(sp, f))
    && (forall f :: f in free ==> !Owns(sp, f))
  }

  // ---- The processor's view -------------------------------------------------------------

  /** The page table entry that decides what the processor does with linear address a: bits 31 to 22
      select a directory entry, which must be present and restrict nothing, bits 21 to 12 the entry of
      the table it points to. */
  function Mmu(mem: seq<seq<int>>, d: nat, a: nat): Option<int> {
    if d >= |mem| || a / 0x40_0000 >= |mem[d]| || mem[d][a / 0x40_0000] % 0x1000 != 7 then None
    else
      var t := mem[d][a / 0x40_0000] / 0x1000;
      if t < 0 || t >= |mem| || a / 0x1000 % 0x400 >= |mem[t]| || mem[t][a / 0x1000 % 0x400] % 2 != 1 then None
      else Some(mem[t][a / 0x1000 % 0x400])
  }

  /** A present entry for frame f with the flags of perm. */
  predicate PointsAt(e: Option<int>, f: int, perm: int) {
    e.Some? && e.value / 0x1000 == f && e.value % 2 == 1 && e.value % 0x1000 / 2 == perm / 2
  }

  lemma TwoLevels(a: nat)
    ensures a / 0x40_0000 == Pdx(a / PGSIZE) && a / 0x1000 % 0x400 == Ptx(a / PGSIZE)
  {
  }

  /** The present entries of a space are those the processor finds. */
  lemma MmuSees(mem: seq<seq<int>>, sp: Space, a: nat)
    requires Good(mem, sp) && a < NVPN * PGSIZE
    ensures Mmu(mem, sp.dir, a) == if a / PGSIZE in sp.ptes then Some(sp.ptes[a / PGSIZE]) else None
  {
    hide FramesApart;
    var v := a / PGSIZE;
    TwoLevels(a);
    DirSeen(mem, sp, Pdx(v));
    hide DirOk, Pdx, Ptx;
    assert Here(WordAt(mem, sp, v)) <==> v in sp.ptes;
  }

  lemma DirSeen(mem: seq<seq<int>>, sp: Space, i: nat)
    requires DirOk(mem, sp)
    ensures sp.dir < |mem| && |mem[sp.dir]| == NENTRIES
    ensures i in sp.tables ==>
              && i < NENTRIES && sp.tables[i] < |mem|
              && mem[sp.dir][i] % 0x1000 == 7 && mem[sp.dir][i] / 0x1000 == sp.tables[i]
    ensures i !in sp.tables && i < NENTRIES ==> mem[sp.dir][i] % 0x1000 != 7
  {
    if i in sp.tables {
      WordParts(sp.tables[i], TABLEFLAGS);
      hide Word;
    } else if i < NENTRIES {
      OddSeven(mem[sp.dir][i]);
    }
  }

  lemma OddSeven(w: int)
    ensures w % 0x1000 == 7 ==> Here(w)
  {
    var q, r := w / 0x1000, w % 0x1000;
    assert w == 0x1000 * q + r;
    if r == 7 {
      Odd(w, 0x800 * q + 3);
    }
  }

  lemma Odd(r: int, h: int)
    requires r == 2 * h + 1
    ensures r % 2 == 1
  {
  }

  lemma PointsTo(f: nat, perm: nat)
    requires perm < PGSIZE
    ensures PointsAt(Some(Word(f, WithP(perm))), f, perm)
  {
    WithPFits(perm);
    WordParts(f, WithP(perm));
  }

  // ---- Changing one entry ---------------------------------------------------------------

  /** The frame t's word k is set to w. */
  function Poke(mem: seq<seq<int>>, t: nat, k: nat, w: int): seq<seq<int>>
    requires t < |mem| && k < |mem[t]|
  {
    mem[t := mem[t][k := w]]
  }

  lemma WordAtPoke(mem: seq<seq<int>>, sp: Space, v: nat, w: int, u: nat)
    requires Filled(mem) && DirOk(mem, sp) && FramesApart(sp) && Pdx(v) in sp.tables && sp.tables[Pdx(v)] < |mem|
    requires Ptx(v) < |mem[sp.tables[Pdx(v)]]|
    ensures WordAt(Poke(mem, sp.tables[Pdx(v)], Ptx(v), w), sp, u) == if u == v then w else WordAt(mem, sp, u)
  {
    assert u == Pdx(u) * NENTRIES + Ptx(u) && v == Pdx(v) * NENTRIES + Ptx(v);
  }

  lemma DirPoke(mem: seq<seq<int>>, sp: Space, v: nat, w: int)
    requires Filled(mem) && DirOk(mem, sp) && FramesApart(sp) && Pdx(v) in sp.tables && sp.tables[Pdx(v)] < |mem|
    requires Ptx(v) < |mem[sp.tables[Pdx(v)]]|
    ensures Filled(Poke(mem, sp.tables[Pdx(v)], Ptx(v), w)) && DirOk(Poke(mem, sp.tables[Pdx(v)], Ptx(v), w), sp)
  {
  }

  lemma LeavesSame(mem: seq<seq<int>>, sp: Space, mem1: seq<seq<int>>, sp1: Space)
    requires Leaves(mem, sp) && sp1.ptes == sp.ptes && forall u: nat :: WordAt(mem1, sp1, u) == WordAt(mem, sp, u)
    ensures Leaves(mem1, sp1)
  {
    hide WordAt, Here;
  }

  lemma LeavesBut(mem: seq<seq<int>>, sp: Space, mem1: seq<seq<int>>, sp1: Space, v: nat, w: int)
    requires Leaves(mem, sp) && v < NVPN && sp1.ptes == if Here(w) then sp.ptes[v := w] else sp.ptes - {v}
    requires forall u: nat :: WordAt(mem1, sp1, u) == if u == v then w else WordAt(mem, sp, u)
    ensures Leaves(mem1, sp1)
  {
    hide WordAt, Here;
  }

  /** A present entry is put where there was none. */
  lemma PteSet(mem: seq<seq<int>>, sp: Space, v: nat, w: int)
    requires Good(mem, sp) && v < NVPN && v !in sp.ptes && Pdx(v) in sp.tables && sp.tables[Pdx(v)] < |mem|
    requires Ptx(v) < |mem[sp.tables[Pdx(v)]]| && Here(w) && (v < UVPN ==> Frame(w) >= 0 && !Owns(sp, Frame(w)))
    ensures Good(Poke(mem, sp.tables[Pdx(v)], Ptx(v), w), sp.(ptes := sp.ptes[v := w]))
    ensures forall f: nat :: Owns(sp.(ptes := sp.ptes[v := w]), f) <==> Owns(sp, f) || (v < UVPN && f == Frame(w))
  {
    hide Frame, Here;
    var mem1 := Poke(mem, sp.tables[Pdx(v)], Ptx(v), w);
    var sp1 := sp.(ptes := sp.ptes[v := w]);
    DirPoke(mem, sp, v, w);
    PteApart(sp, v, w);
    PteOwns(sp, v, w);
    hide Leaves, FramesApart, Owns, Poke, DirOk;
    forall u: nat ensures WordAt(mem1, sp1, u) == if u == v then w else WordAt(mem, sp, u) {
      WordAtPoke(mem, sp, v, w, u);
    }
    LeavesBut(mem, sp, mem1, sp1, v, w);
    DirOther(mem1, sp, sp1);
  }

  lemma DirOther(mem: seq<seq<int>>, sp: Space, sp1: Space)
    requires DirOk(mem, sp) && sp1.dir == sp.dir && sp1.tables == sp.tables
    ensures DirOk(mem, sp1)
  {
  }

  lemma PteApart(sp: Space, v: nat, w: int)
    requires FramesApart(sp) && v !in sp.ptes && (v < UVPN ==> Frame(w) >= 0 && !Owns(sp, Frame(w)))
    ensures FramesApart(sp.(ptes := sp.ptes[v := w]))
  {
    hide Frame;
  }

  lemma PteOwns(sp: Space, v: nat, w: int)
    requires v !in sp.ptes
    ensures forall f: nat :: Owns(sp.(ptes := sp.ptes[v := w]), f) <==> Owns(sp, f) || (v < UVPN && f == Frame(w))
  {
    forall f: nat ensures Owns(sp.(ptes := sp.ptes[v := w]), f) <==> Owns(sp, f) || (v < UVPN && f == Frame(w)) {
      PteOwnsOne(sp, v, w, f);
    }
  }

  lemma PteOwnsOne(sp: Space, v: nat, w: int, f: nat)
    requires v !in sp.ptes
    ensures Owns(sp.(ptes := sp.ptes[v := w]), f) <==> Owns(sp, f) || (v < UVPN && f == Frame(w))
  {
    hide Frame;
    var sp1 := sp.(ptes := sp.ptes[v := w]);
    assert OwnsTable(sp1, f) <==> OwnsTable(sp, f);
    if OwnsPage(sp, f) {
      var u :| u in sp.ptes && u < UVPN && Frame(sp.ptes[u]) == f;
      assert u in sp1.ptes && sp1.ptes[u] == sp.ptes[u];
    }
    if OwnsPage(sp1, f) {
      var u :| u in sp1.ptes && u < UVPN && Frame(sp1.ptes[u]) == f;
      assert u != v ==> u in sp.ptes && sp1.ptes[u] == sp.ptes[u];
    }
    assert v in sp1.ptes && sp1.ptes[v] == w;
  }

  /** The entry of a mapped page is cleared. */
  lemma PteCleared(mem: seq<seq<int>>, sp: Space, v: nat)
    requires Good(mem, sp) && v in sp.ptes
    ensures v < NVPN && Pdx(v) in sp.tables && sp.tables[Pdx(v)] < |mem| && Ptx(v) < |mem[sp.tables[Pdx(v)]]|
    ensures Good(Poke(mem, sp.tables[Pdx(v)], Ptx(v), 0), sp.(ptes := sp.ptes - {v}))
  {
    hide Frame;
    assert sp.ptes[v] == WordAt(mem, sp, v) && Here(sp.ptes[v]);
    var mem1 := Poke(mem, sp.tables[Pdx(v)], Ptx(v), 0);
    var sp1 := sp.(ptes := sp.ptes - {v});
    DirPoke(mem, sp, v, 0);
    ClearApart(sp, v);
    hide Leaves, FramesApart, Poke, DirOk;
    forall u: nat ensures WordAt(mem1, sp1, u) == if u == v then 0 else WordAt(mem, sp, u) {
      WordAtPoke(mem, sp, v, 0, u);
    }
    LeavesBut(mem, sp, mem1, sp1, v, 0);
    DirOther(mem1, sp, sp1);
  }

  lemma ClearApart(sp: Space, v: nat)
    requires FramesApart(sp) && v in sp.ptes
    ensures FramesApart(sp.(ptes := sp.ptes - {v}))
  {
    hide Frame;
  }

  lemma ClearOwns(sp: Space, v: nat, f: nat)
    requires FramesApart(sp) && v in sp.ptes
    ensures Owns(sp.(ptes := sp.ptes - {v}), f) <==> Owns(sp, f) && !(v < UVPN && f == Frame(sp.ptes[v]))
  {
    hide Frame;
    var sp1 := sp.(ptes := sp.ptes - {v});
    assert OwnsTable(sp1, f) <==> OwnsTable(sp, f);
    if OwnsPage(sp1, f) {
      var u :| u in sp1.ptes && u < UVPN && Frame(sp1.ptes[u]) == f;
      assert u in sp.ptes && sp1.ptes[u] == sp.ptes[u];
    }
    if OwnsPage(sp, f) {
      var u :| u in sp.ptes && u < UVPN && Frame(sp.ptes[u]) == f;
      assert u != v ==> u in sp1.ptes && sp1.ptes[u] == sp.ptes[u];
    }
  }

  // ---- A new page table -------------------------------------------------------------------

  function Zeroes(): (r: seq<int>)
    ensures |r| == NENTRIES && forall k :: 0 <= k < NENTRIES ==> r[k] == 0
  {
    seq(NENTRIES, _ => 0)
  }

  /** Frame t, cleared, becomes the page table of directory entry i. */
  lemma TableSet(mem: seq<seq<int>>, sp: Space, i: nat, t: nat)
    requires Good(mem, sp) && i < NENTRIES && i !in sp.tables && t < |mem| && !Owns(sp, t)
    ensures sp.dir < |mem| && i < |mem[sp.dir]| && sp.dir != t
    ensures Good(Poke(mem[t := Zeroes()], sp.dir, i, Word(t, TABLEFLAGS)), sp.(tables := sp.tables[i := t]))
  {
    hide Frame, Word, Zeroes;
    var mem1 := Poke(mem[t := Zeroes()], sp.dir, i, Word(t, TABLEFLAGS));
    var sp1 := sp.(tables := sp.tables[i := t]);
    TableApart(sp, i, t);
    TableDir(mem, sp, i, t);
    hide DirOk, FramesApart, Poke, Owns, Leaves;
    forall u: nat ensures WordAt(mem1, sp1, u) == WordAt(mem, sp, u) {
      TableWord(mem, sp, i, t, u);
    }
    LeavesSame(mem, sp, mem1, sp1);
  }

  lemma TableApart(sp: Space, i: nat, t: nat)
    requires FramesApart(sp) && i !in sp.tables && !Owns(sp, t)
    ensures FramesApart(sp.(tables := sp.tables[i := t]))
  {
    hide Frame;
    forall j | j in sp.tables ensures sp.tables[j] != t {
      assert OwnsTable(sp, sp.tables[j]);
    }
    forall v | v in sp.ptes && v < UVPN ensures Frame(sp.ptes[v]) != t {
      assert OwnsPage(sp, t) || Frame(sp.ptes[v]) != t;
    }
    hide Owns;
  }

  lemma TableDir(mem: seq<seq<int>>, sp: Space, i: nat, t: nat)
    requires Filled(mem) && DirOk(mem, sp) && i < NENTRIES && i !in sp.tables && t < |mem| && sp.dir != t
    ensures Filled(Poke(mem[t := Zeroes()], sp.dir, i, Word(t, TABLEFLAGS)))
    ensures DirOk(Poke(mem[t := Zeroes()], sp.dir, i, Word(t, TABLEFLAGS)), sp.(tables := sp.tables[i := t]))
  {
    hide Word, Here;
  }

  lemma TableWord(mem: seq<seq<int>>, sp: Space, i: nat, t: nat, u: nat)
    requires Good(mem, sp) && i < NENTRIES && i !in sp.tables && t < |mem| && !Owns(sp, t)
    requires sp.dir < |mem| && i < |mem[sp.dir]| && sp.dir != t
    ensures WordAt(Poke(mem[t := Zeroes()], sp.dir, i, Word(t, TABLEFLAGS)),
                   sp.(tables := sp.tables[i := t]), u) == WordAt(mem, sp, u)
  {
    hide Leaves, Frame, Word;
    assert Pdx(u) in sp.tables ==> OwnsTable(sp, sp.tables[Pdx(u)]);
  }

  lemma TableOwns(sp: Space, i: nat, t: nat, f: nat)
    requires i !in sp.tables
    ensures Owns(sp.(tables := sp.tables[i := t]), f) <==> Owns(sp, f) || f == t
  {
    hide Frame;
    var sp1 := sp.(tables := sp.tables[i := t]);
    assert OwnsPage(sp1, f) <==> OwnsPage(sp, f);
    if OwnsTable(sp, f) {
      var j :| j in sp.tables && sp.tables[j] == f;
      assert j in sp1.tables && sp1.tables[j] == f;
    }
    if OwnsTable(sp1, f) {
      var j :| j in sp1.tables && sp1.tables[j] == f;
      assert j != i ==> j in sp.tables && sp.tables[j] == f;
    }
    assert i in sp1.tables && sp1.tables[i] == t;
  }

  /** Writing a frame that the space does not own changes nothing in it. */
  lemma GoodAside(mem: seq<seq<int>>, sp: Space, f: nat, row: seq<int>)
    requires Good(mem, sp) && f < |mem| && !Owns(sp, f) && |row| == NENTRIES
    ensures Good(mem[f := row], sp)
  {
    hide Frame, Word;
    var mem1 := mem[f := row];
    forall i | i in sp.tables ensures sp.tables[i] != f {
      assert OwnsTable(sp, sp.tables[i]);
    }
    forall u: nat ensures WordAt(mem1, sp, u) == WordAt(mem, sp, u) {
    }
    assert DirOk(mem1, sp) by {
      hide Leaves, WordAt, FramesApart;
    }
    hide DirOk, FramesApart, WordAt, Owns;
  }

  // ---- Who has which frame --------------------------------------------------------------

  lemma SharedTable(pool: set<nat>, free: seq<nat>, sp: Space, i: nat)
    requires Shared(pool, free, sp) && free != [] && i !in sp.tables && free[0] !in free[1..]
    ensures Shared(pool, free[1..], sp.(tables := sp.tables[i := free[0]]))
  {
    hide Owns;
    forall f: nat ensures Owns(sp.(tables := sp.tables[i := free[0]]), f) <==> Owns(sp, f) || f == free[0] {
      TableOwns(sp, i, free[0], f);
    }
    assert forall f :: f in free <==> f == free[0] || f in free[1..];
  }

  lemma SharedPage(pool: set<nat>, free: seq<nat>, sp: Space, v: nat, w: int)
    requires Shared(pool, free, sp) && v !in sp.ptes && (v < UVPN ==> Frame(w) >= 0 && Frame(w) !in pool)
    ensures Shared(if v < UVPN then pool + {Frame(w)} else pool, free, sp.(ptes := sp.ptes[v := w]))
  {
    hide Owns, Frame;
    PteOwns(sp, v, w);
  }

  lemma SharedClear(pool: set<nat>, free: seq<nat>, sp: Space, v: nat)
    requires Shared(pool, free, sp) && FramesApart(sp) && v in sp.ptes && v < UVPN && Frame(sp.ptes[v]) >= 0
    ensures Shared(pool, [Frame(sp.ptes[v])] + free, sp.(ptes := sp.ptes - {v}))
    ensures Owns(sp, Frame(sp.ptes[v])) && Frame(sp.ptes[v]) !in free && Frame(sp.ptes[v]) in pool
  {
    hide Frame;
    var g := Frame(sp.ptes[v]);
    assert OwnsPage(sp, g);
    assert Owns(sp, g);
    hide Owns;
    forall f: nat ensures Owns(sp.(ptes := sp.ptes - {v}), f) <==> Owns(sp, f) && f != g {
      ClearOwns(sp, v, f);
    }
  }

  /** Frames outside the pool are as they were. */
  ghost predicate Untouched(mem0: seq<seq<int>>, mem: seq<seq<int>>, pool: set<nat>) {
    |mem| == |mem0| && forall f: nat :: f < |mem| && f !in pool ==> mem[f] == mem0[f]
  }

  /** The user pages of the space hold what they held. */
  ghost predicate PagesKept(mem0: seq<seq<int>>, mem: seq<seq<int>>, sp: Space) {
    |mem| == |mem0| && forall f: nat :: f < |mem| && OwnsPage(sp, f) ==> mem[f] == mem0[f]
  }

  lemma KeptTwice(mem0: seq<seq<int>>, mem1: seq<seq<int>>, mem2: seq<seq<int>>, pool: set<nat>, sp: Space, sp1: Space)
    requires Untouched(mem0, mem1, pool) && PagesKept(mem0, mem1, sp) && Untouched(mem1, mem2, pool)
    requires PagesKept(mem1, mem2, sp1)
    requires sp1.ptes == sp.ptes
    ensures Untouched(mem0, mem2, pool) && PagesKept(mem0, mem2, sp)
  {
    forall f: nat | OwnsPage(sp, f) ensures OwnsPage(sp1, f) {
    }
    hide OwnsPage;
  }
}
