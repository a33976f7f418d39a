/** lab/kern/pmap.c and lab/kern/env.c: the page allocator, the two-level page tables and
    the address spaces of environments, updated in place. */
module Pmap {
  import opened Common
  import opened Links
  import opened PageRefs

  const MPENTRY: nat := 7                 // MPENTRY_PADDR / PGSIZE
  const IOHOLE: nat := 96                 // (EXTPHYSMEM - IOPHYSMEM) / PGSIZE

  /** Pages that page_init marks as in use. */
  predicate Reserved(i: nat, basemem: nat, extmem: nat) {
    i == 0 || (i != MPENTRY && basemem <= i < basemem + IOHOLE + extmem)
  }

  /** The free list as the pp_link fields thread it; other pages have a null link. */
  ghost predicate Threaded(head: int, link: seq<int>, free: seq<nat>) {
    Linked(head, link, free) && forall p :: 0 <= p < |link| && p !in free ==> link[p] == NIL
  }

  lemma ThreadedPush(head: int, link: seq<int>, free: seq<nat>, p: nat)
    requires Threaded(head, link, free) && p < |link| && p !in free
    ensures Threaded(p, link[p := head], [p] + free)
  {
    LinkedPush(head, link, free, p);
    hide Linked;
  }

  lemma ThreadedIdle(head: int, link: seq<int>, free: seq<nat>, p: nat)
    requires Threaded(head, link, free) && p < |link| && p !in free
    ensures link[p := NIL] == link
  {
  }

  lemma ThreadedNone(link: seq<int>)
    requires forall p :: 0 <= p < |link| ==> link[p] == NIL
    ensures Threaded(NIL, link, [])
  {
  }

  lemma ThreadedApart(head: int, link: seq<int>, free: seq<nat>)
    requires Threaded(head, link, free)
    ensures Apart(free)
  {
  }

  lemma ThreadedPop(head: int, link: seq<int>, free: seq<nat>)
    requires Threaded(head, link, free) && free != []
    ensures head == free[0] && 0 <= head < |link| && Threaded(link[head], link[head := NIL], free[1..])
  {
    HeadIs(head, link, free);
    LinkedRest(head, link, free);
    FirstGone(head, link, free);
    LinkedAside(link[head], link, free[1..], head, NIL);
    hide Linked;
    forall p | 0 <= p < |link| && p !in free[1..] ensures link[head := NIL][p] == NIL {
      assert p == head || p !in free;
    }
  }

  lemma FirstGone(head: int, link: seq<int>, free: seq<nat>)
    requires Linked(head, link, free) && free != []
    ensures free[0] !in free[1..]
  {
  }

  /** Only a listed page other than the last has a link that page_free can see. */
  lemma LinkSeen(head: int, link: seq<int>, free: seq<nat>, p: nat)
    requires Threaded(head, link, free) && p < |link|
    ensures link[p] != NIL <==> p in free && p != free[|free| - 1]
  {
    if p in free {
      var k :| 0 <= k < |free| && free[k] == p;
      LinkAt(head, link, free, k);
    }
  }

  /** A second page_free of the last page of the list is not noticed, since its link is null.
      It closes the list to a cycle, which is no list any more; and page_alloc then hands the
      page out and leaves it on the list. */
  lemma LastFreedTwice(head: int, link: seq<int>, free: seq<nat>, p: nat)
    requires Threaded(head, link, free) && free != [] && p == free[|free| - 1]
    ensures p < |link| && link[p] == NIL
    ensures Endless(p, link[p := head])
    ensures Threaded(link[p := head][p], link[p := head][p := NIL], free) && p in free
  {
    LinkAt(head, link, free, |free| - 1);
    PushedTwice(head, link, free, p);
    assert link[p := head][p := NIL] == link;
  }

  ghost function BootRefs(npages: nat, basemem: nat, extmem: nat): map<Slot, nat> {
    map p: nat | p < npages && Reserved(p, basemem, extmem) :: Boot(p) := p
  }

  lemma BootInv(s: State, npages: nat, basemem: nat, extmem: nat)
    requires |s.ref| == |s.mem| == npages && s.refs == BootRefs(npages, basemem, extmem) && s.owner == map[]
    requires forall p :: 0 <= p < npages ==> |s.mem[p]| == NENTRIES
    requires forall p :: 0 <= p < npages ==> s.ref[p] == if Reserved(p, basemem, extmem) then 1 else 0
    requires Apart(s.free) && forall p :: p in s.free ==> p < npages && !Reserved(p, basemem, extmem)
    ensures Inv(s)
  {
    forall p | 0 <= p < npages ensures |Of(s.refs, p)| == if Reserved(p, basemem, extmem) then 1 else 0 {
      assert Of(s.refs, p) == if Reserved(p, basemem, extmem) then {Boot(p)} else {};
    }
  }

  class Kernel {
    var ref: seq<int>
    var link: seq<int>
    var pageFreeList: int
    var mem: seq<seq<Entry>>
    const kernPgdir: seq<Entry>
    ghost var free: seq<nat>
    ghost var refs: map<Slot, nat>
    ghost var owner: map<nat, Slot>

    ghost function Now(): State
      reads this
    {
      State(ref, free, mem, refs, owner)
    }

    ghost predicate Listed()
      reads this
    {
      Threaded(pageFreeList, link, free) && |link| == |ref| == |mem| && |kernPgdir| == NENTRIES
    }

    ghost predicate Valid()
      reads this
    {
      Listed() && Inv(Now())
    }

    /** page_init: page 0, the I/O hole and the kernel are in use, the page at MPENTRY is left
        alone, and the rest are free. */
    constructor (npages: nat, basemem: nat, extmem: nat, memory: seq<seq<Entry>>, kern: seq<Entry>)
      requires |memory| == npages && |kern| == NENTRIES && forall p :: 0 <= p < npages ==> |memory[p]| == NENTRIES
      ensures Valid() && mem == memory && kernPgdir == kern
      ensures forall p: nat :: p in free <==>
                p < npages && p != 0 && p != 7 && !(basemem <= p < basemem + 96 + extmem)
      ensures |ref| == npages && forall p :: 0 <= p < npages ==>
                ref[p] == if p == 0 || (p != 7 && basemem <= p < basemem + 96 + extmem) then 1 else 0
    {
      ref, link := seq(npages, _ => 0), seq(npages, _ => NIL);
      pageFreeList, mem, kernPgdir := NIL, memory, kern;
      free, refs, owner := [], BootRefs(npages, basemem, extmem), map[];
      new;
      ThreadedNone(link);
      hide Threaded, BootRefs;
      for i := 0 to npages
        invariant |ref| == |link| == npages && mem == memory && refs == BootRefs(npages, basemem, extmem)
        invariant owner == map[]
        invariant Threaded(pageFreeList, link, free)
        invariant forall p: nat :: p in free <==> p < i && p != MPENTRY && !Reserved(p, basemem, extmem)
        invariant forall p :: 0 <= p < npages ==> ref[p] == if p < i && Reserved(p, basemem, extmem) then 1 else 0
      {
        ThreadedIdle(pageFreeList, link, free, i);
        if i == 0 || (i != MPENTRY && basemem <= i < basemem + IOHOLE + extmem) {
          ref, link := ref[i := 1], link[i := NIL];
        } else if i != MPENTRY {
          ThreadedPush(pageFreeList, link, free, i);
          ref, link := ref[i := 0], link[i := pageFreeList];
          pageFreeList, free := i, [i] + free;
        }
      }
      ThreadedApart(pageFreeList, link, free);
      BootInv(Now(), npages, basemem, extmem);
    }

    method PageAlloc(zero: bool) returns (r: Option<nat>)
      requires Listed()
      modifies this
      ensures Listed() && (r.None? <==> old(free) == [])
      ensures r.None? ==> Now() == old(Now())
      ensures r.Some? ==> r.value == old(free)[0] < |mem| && r.value !in free
      ensures r.Some? ==> Now() == Allocated(old(Now()), zero)
      ensures r.Some? ==> mem == if zero then old(mem)[r.value := seq(NENTRIES, _ => Absent)] else old(mem)
      ensures r.Some? ==> free == old(free)[1..] && ref == old(ref)
      ensures old(Valid()) ==> Valid()
    {
      ghost var s := Now();
      HeadIs(pageFreeList, link, free);
      if pageFreeList == NIL {
        return None;
      }
      var p := pageFreeList;
      ThreadedPop(pageFreeList, link, free);
      FirstGone(pageFreeList, link, free);
      hide Linked, Threaded;
      pageFreeList := link[p];
      link := link[p := NIL];
      free := free[1..];
      if zero {
        mem := mem[p := Zeroed()];
      }
      hide Inv;
      if Inv(s) {
        AllocatedOk(s, zero);
      }
      r := Some(p);
    }

    /** The two assertions of page_free are its panics. A page already on the list is noticed
        unless it is the last; then the list becomes a cycle. */
    method PageFree(p: nat) returns (panic: bool)
      requires Listed() && p < |ref|
      modifies this`link, this`pageFreeList, this`free
      ensures panic <==> ref[p] != 0 || (p in old(free) && p != old(free)[|old(free)| - 1])
      ensures panic ==> Listed() && link == old(link) && free == old(free)
      ensures !panic ==> pageFreeList == p && link == old(link)[p := old(pageFreeList)]
      ensures !panic && p !in old(free) ==> Listed() && free == [p] + old(free)
      ensures !panic && p in old(free) ==> Endless(pageFreeList, link)
      ensures old(Valid()) ==> (Valid() <==> panic || p !in old(free))
    {
      ghost var s := Now();
      LinkSeen(pageFreeList, link, free, p);
      if ref[p] != 0 || link[p] != NIL {
        return true;
      }
      if p in free {
        LastFreedTwice(pageFreeList, link, free, p);
      } else {
        ThreadedPush(pageFreeList, link, free, p);
      }
      hide Linked, Endless, Inv;
      link := link[p := pageFreeList];
      pageFreeList := p;
      if p !in free {
        if Inv(s) {
          FreedOk(s, p);
        }
        free := [p] + free;
      }
      panic := false;
    }

    method PageDecref(p: nat) returns (panic: bool)
      requires Listed() && p < |ref| && p !in free
      modifies this
      ensures Listed() && !panic && Now() == Decrefed(old(Now()), p)
    {
      hide Threaded;
      ref := ref[p := (ref[p] - 1) % REFMAX];
      panic := false;
      if ref[p] == 0 {
        panic := PageFree(p);
      }
    }

    /** All of Valid except that the counts are right. */
    ghost predicate Sound()
      reads this
    {
      Listed() && Consistent(Now())
    }

    /** The entry for the address is entry j of the returned table. */
    method PgdirWalk(d: nat, i: nat, create: bool) returns (r: Option<nat>)
      requires Listed() && d < |mem| && i < |mem[d]| && d !in free
      modifies this
      ensures Listed() && (r.None? <==> old(mem[d][i].Absent?) && (!create || old(free) == []))
      ensures r.None? ==> Now() == old(Now())
      ensures r.Some? && old(mem[d][i].Present?) ==> Now() == old(Now())
      ensures r.Some? && old(mem[d][i].Absent?) ==> CanWalk(old(Now()), d, i) && Now() == Walked(old(Now()), d, i)
      ensures r.Some? ==> r.value == Home(Now(), d, i)
      ensures r.Some? && old(mem[d][i].Absent?) ==>
                && r.value == old(free)[0] && free == old(free)[1..] && d < |old(mem)|
                && mem == old(mem)[r.value := seq(NENTRIES, _ => Absent)][
                     d := old(mem)[d][i := Present(r.value, PTE_P | PTE_W | PTE_U)]]
      ensures old(Valid()) && Dir(d) in old(refs) && i < UPDX ==> Valid()
    {
      ghost var s := Now();
      hide Threaded, Shape, Counted, FreeUnused, Kept, Tables, Entries;
      if mem[d][i].Absent? {
        if !create {
          return None;
        }
        var page := PageAlloc(true);
        if page.None? {
          return None;
        }
        var t := page.value;
        ref := ref[t := (ref[t] + 1) % REFMAX];
        mem := mem[d := mem[d][i := Present(t, PTE_P | PTE_W | PTE_U)]];
        refs, owner := refs[Pde(d, i) := t], owner[t := Pde(d, i)];
        if Inv(s) && Dir(d) in s.refs && i < UPDX {
          WalkedOk(s, d, i);
        }
      }
      r := Some(mem[d][i].page);
    }

    method PageLookup(d: nat, i: nat, j: nat) returns (r: Option<(nat, nat)>)
      requires Sound() && UserAt(Now(), d, i, j)
      modifies this
      ensures Listed() && Now() == old(Now())
      ensures r.Some? <==> Lookup(Now(), d, i, j).Present?
      ensures r.Some? ==> r.value.0 == Lookup(Now(), d, i, j).page && r.value.1 == Home(Now(), d, i)
    {
      hide Threaded, Entries, FreeUnused;
      InUse(Now(), d);
      var pte := PgdirWalk(d, i, false);
      if pte.None? {
        return None;
      }
      HomeIs(Now(), d, i, j);
      var t := pte.value;
      if mem[t][j].Absent? {
        return None;
      }
      r := Some((mem[t][j].page, t));
    }

    /** Unmaps the page at the address, if there is one. */
    method PageRemove(d: nat, i: nat, j: nat)
      requires Sound() && UserAt(Now(), d, i, j)
      modifies this
      ensures Listed()
      ensures old(Lookup(Now(), d, i, j)).Absent? ==> Now() == old(Now())
      ensures old(Lookup(Now(), d, i, j)).Present? ==>
                CanDrop(old(Now()), d, i, j) && Now() == EntryDropped(old(Now()), Home(old(Now()), d, i), j)
      ensures MapsAt(old(Now()), Now(), d, i, j, Absent)
      ensures old(Valid()) ==> Valid()
    {
      ghost var s := Now();
      hide Threaded, Tables, Entries, MapsAt;
      SameMaps(s, d, i, j);
      var found := PageLookup(d, i, j);
      if found.None? {
        return;
      }
      var page, t := found.value.0, found.value.1;
      HomeIs(Now(), d, i, j);
      MappedPage(Now(), d, i, j);
      DroppedMaps(s, d, i, j);
      var _ := PageDecref(page);
      mem := mem[t := mem[t][j := Absent]];
      refs := refs - {Pte(t, j)};
      hide Inv;
      if Inv(s) {
        EntryDroppedOk(s, t, j);
      }
    }

    /** page_insert; false is -E_NO_MEM. The count of pp is incremented before an earlier
        mapping is removed, so inserting a page again where it is does not free it. */
    method PageInsert(d: nat, pp: nat, i: nat, j: nat, perm: bv12) returns (ok: bool)
      requires Sound() && UserAt(Now(), d, i, j) && pp < |ref| && pp !in free
      requires Valid() || Lookup(Now(), d, i, j).Absent?
      modifies this
      ensures Sound() && (ok <==> old(mem[d][i].Present?) || old(free) != [])
      ensures !ok ==> Now() == old(Now())
      ensures ok ==> CanInsert(old(Now()), d, i, j, pp) && Now() == Inserted(old(Now()), d, i, j, pp, perm)
      ensures ok ==> MapsAt(old(Now()), Now(), d, i, j, Present(pp, perm | PTE_P))
      ensures ok ==> Widened(old(Now()), Now(), d, i, perm)
      ensures old(Valid()) ==>
                (Valid() <==> !ok || IsPage(old(Lookup(Now(), d, i, j)), pp) || old(|Of(refs, pp)|) < REFMAX - 1)
    {
      hide Threaded, Tables, Entries, Of, Counted, Lookup, Ready, MapsAt, Widened;
      ghost var s := Now();
      InUse(s, d);
      var pte := PgdirWalk(d, i, true);
      if pte.None? {
        return false;
      }
      WalkedReady(s, d, i, j, pp);
      InsertedOk(s, d, i, j, pp, perm);
      InsertedMaps(s, d, i, j, pp, perm);
      InsertedWidens(s, d, i, j, pp, perm);
      assert Now() == Walked(s, d, i);
      Found(Now(), d, i, j, pp);
      hide Walked;
      EnterPage(d, pp, pte.value, i, j, perm);
      ok := true;
    }

    /** pp_ref++ and the removal of an earlier mapping. */
    method TakeReference(d: nat, pp: nat, t: nat, i: nat, j: nat)
      requires Listed() && Ready(Now(), d, i, j, pp) && t == Home(Now(), d, i)
      modifies this
      ensures Listed() && t < |old(mem)| && j < |old(mem)[t]| && pp < |old(ref)|
      ensures old(mem)[t][j].Present? ==> old(mem)[t][j].page < |old(ref)|
      ensures Now() == Emptied(old(Now()), t, j, pp)
    {
      hide Threaded, Tables, Entries, Of, Counted, Lookup, PdeOk;
      ghost var w := Now();
      Found(w, d, i, j, pp);
      hide Ready, UserAt;
      ref := ref[pp := (ref[pp] + 1) % REFMAX];
      MappedFree(w, Now());
      if mem[t][j].Present? {
        LookupMem(w, Now(), d, i, j);
        PageRemove(d, i, j);
        IncThenDrop(w, t, j, pp);
      }
    }

    /** page_insert once the entry for the address has been found. */
    method EnterPage(d: nat, pp: nat, t: nat, i: nat, j: nat, perm: bv12)
      requires Listed() && Ready(Now(), d, i, j, pp) && t == Home(Now(), d, i)
      modifies this
      ensures Listed() && Now() == Filled(old(Now()), d, i, j, pp, perm)
    {
      hide Threaded, Tables, Entries, Of, Counted, Lookup, PdeOk;
      ghost var w := Now();
      Found(w, d, i, j, pp);
      hide Ready, UserAt, Inv;
      TakeReference(d, pp, t, i, j);
      EnteredBy(w, t, j, pp, perm);
      EnteredMem(w, t, j, pp, perm);
      hide Emptied, Remade, EntryDropped, Decrefed, Entered, Mapped, FreeUnused;
      WriteEntry(t, j, Present(pp, perm | PTE_P));
      hide Entered, EntrySet, Threaded;
      WidenPerm(d, i, perm);
    }

    /** *pte = pa | perm | PTE_P */
    method WriteEntry(t: nat, j: nat, e: Entry)
      requires Listed() && t < |mem| && j < |mem[t]| && e.Present?
      modifies this`mem, this`refs
      ensures Listed() && Now() == EntrySet(old(Now()), t, j, e)
    {
      hide Threaded;
      mem := mem[t := mem[t][j := e]];
      refs := refs[Pte(t, j) := e.page];
    }

    /** pgdir[PDX(va)] |= perm */
    method WidenPerm(d: nat, i: nat, perm: bv12)
      requires Listed() && d < |mem| && i < |mem[d]| && mem[d][i].Present?
      modifies this`mem
      ensures Listed() && Now() == PermSet(old(Now()), d, i, perm)
    {
      hide Threaded;
      mem := mem[d := mem[d][i := Present(mem[d][i].page, mem[d][i].perm | perm)]];
    }

    /** env_setup_vm: a new directory with the kernel's upper part and itself at UVPT. */
    method EnvSetupVm() returns (r: Option<nat>)
      requires Valid()
      modifies this
      ensures Valid() && (r.None? <==> old(free) == [])
      ensures r.None? ==> Now() == old(Now())
      ensures r.Some? ==>
                r.value == old(free)[0] && free == old(free)[1..] && refs == old(refs)[Dir(r.value) := r.value]
      ensures r.Some? ==> NewSpace(old(Now()), Now(), r.value)
      ensures r.Some? ==> r.value < |old(mem)| && mem == old(mem)[r.value := mem[r.value]] && |mem[r.value]| == NENTRIES
      ensures r.Some? ==>
                forall k :: 0 <= k < NENTRIES ==>
                  mem[r.value][k] == if k < UPDX then Absent
                                     else if k == UVPT then Present(r.value, PTE_P | PTE_U) else kernPgdir[k]
    {
      hide Threaded, Tables, Entries, Counted, Of, Lookup;
      ghost var s := Now();
      var page := PageAlloc(true);
      if page.None? {
        return None;
      }
      var d := page.value;
      ref := ref[d := (ref[d] + 1) % REFMAX];
      var row := DirectoryRow(d);
      mem := mem[d := row];
      refs := refs[Dir(d) := d];
      NewDirectory(s, Now(), d);
      r := Some(d);
    }

    method DirectoryRow(d: nat) returns (row: seq<Entry>)
      requires |kernPgdir| == NENTRIES && d < |mem| && |mem[d]| == NENTRIES
      ensures |row| == NENTRIES && (forall k :: 0 <= k < UPDX ==> row[k] == Absent)
      ensures forall k :: UPDX <= k < NENTRIES ==>
                row[k] == if k == UVPT then Present(d, PTE_P | PTE_U) else kernPgdir[k]
    {
      row := mem[d];
      for i := 0 to UPDX
        invariant |row| == NENTRIES && forall k :: 0 <= k < i ==> row[k] == Absent
      {
        row := row[i := Absent];
      }
      for i := UPDX to NENTRIES
        invariant |row| == NENTRIES && forall k :: 0 <= k < UPDX ==> row[k] == Absent
        invariant forall k :: UPDX <= k < i ==> row[k] == kernPgdir[k]
      {
        row := row[i := kernPgdir[i]];
      }
      row := row[UVPT := Present(d, PTE_P | PTE_U)];
    }

    /** env_free's inner loop: unmaps every page of table t. */
    method EmptyTable(d: nat, i: nat, t: nat, ghost s0: State)
      requires Valid() && Inv(s0) && Freeing(s0, Now(), d) && UserAt(Now(), d, i, 0) && mem[d][i].Present?
      requires t == Home(Now(), d, i)
      modifies this
      ensures Valid() && Freeing(s0, Now(), d) && UserAt(Now(), d, i, 0)
      ensures |mem| == old(|mem|) && mem[d] == old(mem[d]) && Blank(Now(), t)
    {
      hide Threaded, Tables, Entries, Of, Lookup, Counted, FreeUnused, Freeing, EntryDropped;
      HomeIs(Now(), d, i, 0);
      for j := 0 to NENTRIES
        invariant Valid() && Freeing(s0, Now(), d) && UserAt(Now(), d, i, 0)
        invariant |mem| == old(|mem|) && mem[d] == old(mem[d]) && t < |mem| && |mem[t]| == NENTRIES
        invariant forall k :: 0 <= k < j ==> mem[t][k].Absent?
      {
        if mem[t][j].Present? {
          ghost var s := Now();
          HomeIs(s, d, i, j);
          EntryDrops(s, d, i, j);
          PageRemove(d, i, j);
          EntryGone(s0, s, d, i, j);
        }
      }
    }

    /** The body of env_free's loop for a present directory entry. */
    method FreeTable(d: nat, i: nat, ghost s0: State)
      requires Valid() && Inv(s0) && Freeing(s0, Now(), d) && UserAt(Now(), d, i, 0) && mem[d][i].Present?
      modifies this
      ensures Valid() && Freeing(s0, Now(), d) && Dir(d) in refs && |mem| == old(|mem|)
      ensures mem[d] == old(mem[d])[i := Absent]
    {
      hide Threaded, Tables, Entries, Of, Lookup, Counted, FreeUnused, Freeing;
      HomeIs(Now(), d, i, 0);
      var t := mem[d][i].page;
      EmptyTable(d, i, t, s0);
      HomeIs(Now(), d, i, 0);
      ghost var s := Now();
      TableDrops(s, d, i);
      TableBelongs(s0, s, d, i);
      FreeingStep(s0, s, TableFreed(s, d, i), d, Pde(d, i));
      TableBusy(s, d, i);
      mem := mem[d := mem[d][i := Absent]];
      refs, owner := refs - {Pde(d, i)}, owner - {t};
      var _ := PageDecref(t);
      assert Now() == TableFreed(s, d, i);
      FreeingInv(s0, Now(), d);
    }

    /** env_free: exactly the references of this environment go, and exactly the pages that
        only it referred to come back to the free list. */
    method EnvFree(d: nat)
      requires Valid() && Dir(d) in refs
      modifies this
      ensures Valid() && EnvFreed(old(Now()), Now(), d)
    {
      hide Threaded, Tables, Entries, Of, Lookup, Counted, FreeUnused, Freeing, EnvFreed;
      ghost var s0 := Now();
      FreeingStart(s0, d);
      DirPage(s0, d);
      for i := 0 to UPDX
        invariant Valid() && Freeing(s0, Now(), d) && Dir(d) in refs && d < |mem| && |mem[d]| == NENTRIES
        invariant forall k :: 0 <= k < i ==> mem[d][k].Absent?
      {
        if mem[d][i].Present? {
          FreeTable(d, i, s0);
        }
      }
      ghost var s := Now();
      DirPage(s, d);
      DirDrops(s, d);
      FreeingStep(s0, s, DirFreed(s, d), d, Dir(d));
      refs := refs - {Dir(d)};
      var _ := PageDecref(d);
      assert Now() == DirFreed(s, d);
      FreeingInv(s0, Now(), d);
      FreeingDone(s0, Now(), d);
    }
  }

  lemma EntryGone(s0: State, s: State, d: nat, i: nat, j: nat)
    requires Inv(s0) && Inv(s) && Freeing(s0, s, d) && UserAt(s, d, i, j) && s.mem[d][i].Present?
    requires s.mem[d][i].page < |s.mem|
    requires j < |s.mem[s.mem[d][i].page]| && s.mem[s.mem[d][i].page][j].Present?
    ensures s.mem[s.mem[d][i].page][j].page < |s.ref|
    ensures Freeing(s0, EntryDropped(s, s.mem[d][i].page, j), d) && Inv(EntryDropped(s, s.mem[d][i].page, j))
    ensures EntryDropped(s, s.mem[d][i].page, j).mem == s.mem[s.mem[d][i].page := s.mem[s.mem[d][i].page][j := Absent]]
    ensures s.mem[d][i].page != d && EntryDropped(s, s.mem[d][i].page, j).refs == s.refs - {Pte(s.mem[d][i].page, j)}
  {
    hide Of, Lookup, Counted, FreeUnused;
    var t := s.mem[d][i].page;
    EntryDrops(s, d, i, j);
    assert PdeOk(s, d, i) && OwnerOk(s, t);
    assert Belongs(s0, d, Pte(t, j));
    hide Inv, Freeing, Drops, PdeOk, OwnerOk;
    FreeingStep(s0, s, EntryDropped(s, t, j), d, Pte(t, j));
    FreeingInv(s0, EntryDropped(s, t, j), d);
  }

  const UVPT: nat := 0x3bd                // PDX(UVPT)

  /** A new address space with no user pages; the others are as they were. */
  ghost predicate NewSpace(s: State, t: State, d: nat) {
    && d < |t.mem| && NoUser(t, d)
    && forall e: nat, i: nat, k: nat :: UserAt(s, e, i, k) ==>
       UserAt(t, e, i, k) && Lookup(t, e, i, k) == Lookup(s, e, i, k)
  }

  lemma NewDirectory(s: State, t: State, d: nat)
    requires Inv(s) && s.free != [] && d == s.free[0] && d < |s.mem| == |t.mem| && NoUser(t, d)
    requires t == s.(free := s.free[1..], ref := Increfed(s.ref, d),
                      mem := s.mem[d := t.mem[d]], refs := s.refs[Dir(d) := d])
    ensures Inv(t) && NewSpace(s, t, d)
  {
    hide Of;
    FreeIsUnused(s, d);
    TakeOk(s);
    var u := s.(free := s.free[1..]);
    OfNone(s.refs, d);
    CountedAdd(u, t, Dir(d), d);
    var v := u.(ref := Increfed(u.ref, d));
    MappedFree(u, v);
    hide Counted, FreeUnused, Tables, Entries, Lookup;
    DirAddedOk(v, t, d);
    forall e: nat, i: nat, k: nat | UserAt(s, e, i, k)
      ensures UserAt(t, e, i, k) && Lookup(t, e, i, k) == Lookup(s, e, i, k)
    {
      LookupMem(v, s, e, i, k);
    }
  }

  lemma TableBelongs(s0: State, s: State, d: nat, i: nat)
    requires Freeing(s0, s, d) && Pde(d, i) in s.refs
    ensures Belongs(s0, d, Pde(d, i))
  {
  }

  /** A page table in use is not on the free list. */
  lemma TableBusy(s: State, d: nat, i: nat)
    requires Inv(s) && PdeOk(s, d, i) && Pde(d, i) in s.refs
    ensures s.mem[d][i].page !in s.free && s.mem[d][i].page != d && Dir(d) in s.refs
  {
    assert OwnerOk(s, s.mem[d][i].page);
  }

  lemma DirPage(s: State, d: nat)
    requires Inv(s) && Dir(d) in s.refs
    ensures d < |s.mem| == |s.ref| && d !in s.free && |s.mem[d]| == NENTRIES
  {
  }

  lemma FreeingInv(s0: State, s: State, d: nat)
    requires Freeing(s0, s, d)
    ensures Inv(s)
  {
  }

  lemma Found(w: State, d: nat, i: nat, j: nat, pp: nat)
    requires Ready(w, d, i, j, pp)
    ensures Consistent(w) && UserAt(w, d, i, j) && d < |w.mem| && i < |w.mem[d]| && w.mem[d][i].Present?
    ensures pp < |w.ref| == |w.mem|
    ensures w.mem[d][i].page == Home(w, d, i) && Home(w, d, i) in w.owner && Home(w, d, i) != d
    ensures Home(w, d, i) < |w.mem| && j < |w.mem[Home(w, d, i)]| && Lookup(w, d, i, j) == w.mem[Home(w, d, i)][j]
    ensures w.mem[Home(w, d, i)][j].Present? ==> w.mem[Home(w, d, i)][j].page < |w.ref| && Inv(w)
    ensures forall p :: p in w.free ==> p < |w.mem|
    ensures Apart(w.free)
  {
    hide Lookup, Tables, Entries, Counted;
  }

  predicate IsPage(e: Entry, pp: nat) { e.Present? && e.page == pp }

  /** pp_ref++ before the removal of an earlier entry amounts to doing it after, unless the
      earlier page is pp itself, whose count is then unchanged. */
  ghost function Remade(w: State, t: nat, j: nat, pp: nat): State
    requires t < |w.mem| && j < |w.mem[t]| && w.mem[t][j].Present? && w.mem[t][j].page < |w.ref| && pp < |w.ref|
  {
    if w.mem[t][j].page == pp then EntrySet(w, t, j, Absent)
    else
      var v := EntryDropped(w, t, j);
      v.(ref := Increfed(v.ref, pp))
  }

  lemma IncThenDrop(w: State, t: nat, j: nat, pp: nat)
    requires Inv(w) && t in w.owner && t < |w.mem| && j < |w.mem[t]| && w.mem[t][j].Present? && pp < |w.ref|
    requires w.mem[t][j].page < |w.ref|
    ensures EntryDropped(w.(ref := Increfed(w.ref, pp)), t, j) == Remade(w, t, j, pp)
  {
    hide Tables, Of, Shape;
    assert Pte(t, j) in w.refs && w.refs[Pte(t, j)] == w.mem[t][j].page;
    OfNone(w.refs, w.mem[t][j].page);
    assert w.ref[w.mem[t][j].page] > 0;
    hide Counted, Entries;
    var v := w.(ref := Increfed(w.ref, pp));
    if w.mem[t][j].page == pp {
      assert ((w.ref[pp] + 1) % REFMAX - 1) % REFMAX == w.ref[pp] by {
        WrapBack(w.ref[pp]);
      }
      assert v.ref[pp := w.ref[pp]] == w.ref;
    } else {
      var o := w.mem[t][j].page;
      assert w.ref[pp := (w.ref[pp] + 1) % REFMAX][o := (w.ref[o] - 1) % REFMAX]
          == w.ref[o := (w.ref[o] - 1) % REFMAX][pp := (w.ref[pp] + 1) % REFMAX];
    }
  }

  lemma WrapBack(n: int)
    requires 0 <= n < REFMAX
    ensures ((n + 1) % REFMAX - 1) % REFMAX == n
  {
  }

  /** The state just before page_insert writes the new entry. */
  ghost function Emptied(w: State, t: nat, j: nat, pp: nat): State
    requires t < |w.mem| && j < |w.mem[t]| && (w.mem[t][j].Present? ==> w.mem[t][j].page < |w.ref|) && pp < |w.ref|
  {
    if w.mem[t][j].Absent? then w.(ref := Increfed(w.ref, pp)) else Remade(w, t, j, pp)
  }

  lemma EnteredBy(w: State, t: nat, j: nat, pp: nat, perm: bv12)
    requires t < |w.mem| && j < |w.mem[t]| && pp < |w.ref| && (w.mem[t][j].Present? ==> w.mem[t][j].page < |w.ref|)
    ensures t < |Emptied(w, t, j, pp).mem| && j < |Emptied(w, t, j, pp).mem[t]|
    ensures EntrySet(Emptied(w, t, j, pp), t, j, Present(pp, perm | PTE_P)) == Entered(w, t, j, pp, perm)
  {
    var e := Present(pp, perm | PTE_P);
    assert (w.refs - {Pte(t, j)})[Pte(t, j) := pp] == w.refs[Pte(t, j) := pp];
    assert w.mem[t][j := Absent][j := e] == w.mem[t][j := e];
    assert w.mem[t := w.mem[t][j := Absent]][t := w.mem[t][j := e]] == w.mem[t := w.mem[t][j := e]];
  }

  /** At one address of one environment t maps e, and at every other what s maps. */
  ghost predicate MapsAt(s: State, t: State, d: nat, i: nat, j: nat, e: Entry) {
    forall d1: nat, i1: nat, k: nat :: UserAt(s, d1, i1, k) ==>
      Lookup(t, d1, i1, k) == if d1 == d && i1 == i && k == j then e else Lookup(s, d1, i1, k)
  }

  lemma SameMaps(s: State, d: nat, i: nat, j: nat)
    ensures Lookup(s, d, i, j).Absent? ==> MapsAt(s, s, d, i, j, Absent)
  {
    hide Lookup;
  }

  lemma DroppedMaps(s: State, d: nat, i: nat, j: nat)
    requires Mapped(s) && UserAt(s, d, i, j) && s.mem[d][i].Present? && CanDrop(s, d, i, j)
    ensures MapsAt(s, EntryDropped(s, Home(s, d, i), j), d, i, j, Absent)
  {
    HomeIs(s, d, i, j);
    var t := Home(s, d, i);
    var r, v := EntryDropped(s, t, j), EntrySet(s, t, j, Absent);
    hide Tables, Entries, Lookup, Shape, Kept;
    forall d1: nat, i1: nat, k: nat | UserAt(s, d1, i1, k)
      ensures Lookup(r, d1, i1, k) == if d1 == d && i1 == i && k == j then Absent else Lookup(s, d1, i1, k)
    {
      EntrySetLookup(s, t, j, Absent, d1, i1, k);
      LookupMem(r, v, d1, i1, k);
    }
  }

  lemma InsertedMaps(s: State, d: nat, i: nat, j: nat, pp: nat, perm: bv12)
    requires CanInsert(s, d, i, j, pp)
    ensures MapsAt(s, Inserted(s, d, i, j, pp, perm), d, i, j, Present(pp, perm | PTE_P))
  {
    hide CanInsert, Inserted, Lookup;
    forall d1: nat, i1: nat, k: nat | UserAt(s, d1, i1, k)
      ensures Lookup(Inserted(s, d, i, j, pp, perm), d1, i1, k) ==
              if d1 == d && i1 == i && k == j then Present(pp, perm | PTE_P) else Lookup(s, d1, i1, k)
    {
      InsertedLookup(s, d, i, j, pp, perm, d1, i1, k);
    }
  }

  /** The directory entry allows what it allowed, all to a new page table, and perm besides. */
  ghost predicate Widened(s: State, t: State, d: nat, i: nat, perm: bv12) {
    && d < |s.mem| && i < |s.mem[d]| && d < |t.mem| && i < |t.mem[d]| && t.mem[d][i].Present?
    && t.mem[d][i].perm == perm | if s.mem[d][i].Present? then s.mem[d][i].perm else PTE_P | PTE_W | PTE_U
  }

  lemma InsertedWidens(s: State, d: nat, i: nat, j: nat, pp: nat, perm: bv12)
    requires CanInsert(s, d, i, j, pp)
    ensures Widened(s, Inserted(s, d, i, j, pp, perm), d, i, perm)
  {
    WalkedReady(s, d, i, j, pp);
    var w := Walked(s, d, i);
    WalkedPerm(s, d, i, j, pp);
    hide Walked;
    FilledPerm(w, d, i, j, pp, perm);
    hide CanInsert, Filled, Ready;
  }

  lemma WalkedPerm(s: State, d: nat, i: nat, j: nat, pp: nat)
    requires CanInsert(s, d, i, j, pp)
    requires s.mem[d][i].Absent? ==> s.free[0] < |s.ref| == |s.mem| && s.free[0] != d
    ensures d < |Walked(s, d, i).mem| && i < |Walked(s, d, i).mem[d]| && Walked(s, d, i).mem[d][i].Present?
    ensures Walked(s, d, i).mem[d][i].perm == if s.mem[d][i].Present? then s.mem[d][i].perm else PTE_P | PTE_W | PTE_U
  {
    hide Consistent, Inv, Lookup;
  }

  lemma FilledPerm(w: State, d: nat, i: nat, j: nat, pp: nat, perm: bv12)
    requires Ready(w, d, i, j, pp)
    ensures var t := Filled(w, d, i, j, pp, perm);
            d < |w.mem| && i < |w.mem[d]| && w.mem[d][i].Present? && d < |t.mem| && i < |t.mem[d]|
            && t.mem[d][i].Present? && t.mem[d][i].perm == w.mem[d][i].perm | perm
  {
    EnteredMem(w, Home(w, d, i), j, pp, perm);
    hide CanInsert, Entered, Lookup, PdeOk;
  }

  ghost predicate CanWalk(s: State, d: nat, i: nat) {
    d < |s.mem| && i < |s.mem[d]|
    && (s.mem[d][i].Absent? ==> s.free != [] && s.free[0] < |s.ref| == |s.mem| && s.free[0] != d)
  }

  ghost predicate CanDrop(s: State, d: nat, i: nat, j: nat) {
    var t := Home(s, d, i);
    t < |s.mem| && j < |s.mem[t]| && s.mem[t][j].Present? && s.mem[t][j].page < |s.ref|
  }

  lemma InUse(s: State, d: nat)
    requires FreeUnused(s) && Kept(s) && Dir(d) in s.refs
    ensures d !in s.free
  {
  }

  lemma HomeIs(s: State, d: nat, i: nat, j: nat)
    requires Mapped(s) && UserAt(s, d, i, j)
    ensures s.mem[d][i].Present? ==>
              Home(s, d, i) < |s.mem| && |s.mem[Home(s, d, i)]| == NENTRIES
              && Lookup(s, d, i, j) == s.mem[Home(s, d, i)][j]
              && PdeOk(s, d, i) && Pde(d, i) in s.refs
  {
    hide Entries;
    if s.mem[d][i].Present? {
      assert PdeOk(s, d, i) && OwnerOk(s, s.mem[d][i].page);
    }
  }

  lemma MappedPage(s: State, d: nat, i: nat, j: nat)
    requires Mapped(s) && FreeUnused(s) && UserAt(s, d, i, j) && Lookup(s, d, i, j).Present?
    ensures CanDrop(s, d, i, j) && Lookup(s, d, i, j).page !in s.free
    ensures Home(s, d, i) in s.owner && Pte(Home(s, d, i), j) in s.refs
  {
    HomeIs(s, d, i, j);
    assert Pte(Home(s, d, i), j) in s.refs;
    hide Tables, Entries;
  }
}
