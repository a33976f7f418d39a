/** JOS physical pages: who refers to each page, how often, and what the page tables say. */
module PageRefs {
  import opened Links

  const NENTRIES: nat := 1024        // entries of a page table or directory
  const UPDX: nat := 0x3bb           // PDX(UTOP): the user part of a directory
  const REFMAX: nat := 0x1_0000      // pp_ref is a uint16_t

  datatype Entry = Absent | Present(page: nat, perm: bv12)

  /** A place that holds a counted reference: a page kept by the boot code, an environment's
      directory, a user entry of a directory, an entry of a page table. */
  datatype Slot = Boot(p: nat) | Dir(d: nat) | Pde(d: nat, i: nat) | Pte(t: nat, j: nat)

  /** free is the free list; refs says which page each slot refers to, owner which
      directory entry each page table hangs from. */
  datatype State = State(
    ref: seq<int>, free: seq<nat>, mem: seq<seq<Entry>>, refs: map<Slot, nat>, owner: map<nat, Slot>)

  // ---- Counting -----------------------------------------------------------------------

  ghost function Of(refs: map<Slot, nat>, p: nat): set<Slot> {
    set x | x in refs && refs[x] == p
  }

  lemma OfAdded(refs: map<Slot, nat>, x: Slot, p: nat, q: nat)
    requires x !in refs
    ensures |Of(refs[x := p], q)| == |Of(refs, q)| + if q == p then 1 else 0
  {
    if q == p {
      assert Of(refs[x := p], q) == Of(refs, q) + {x};
    } else {
      assert Of(refs[x := p], q) == Of(refs, q);
    }
  }

  lemma OfDropped(refs: map<Slot, nat>, x: Slot, q: nat)
    requires x in refs
    ensures |Of(refs - {x}, q)| == |Of(refs, q)| - if q == refs[x] then 1 else 0
  {
    if q == refs[x] {
      assert Of(refs, q) == Of(refs - {x}, q) + {x};
    } else {
      assert Of(refs - {x}, q) == Of(refs, q);
    }
  }

  lemma OfNone(refs: map<Slot, nat>, p: nat)
    ensures |Of(refs, p)| == 0 <==> forall x :: x in refs ==> refs[x] != p
  {
    if x :| x in refs && refs[x] == p {
      assert x in Of(refs, p);
    }
    if Of(refs, p) == {} {
      assert forall x :: x in refs ==> x !in Of(refs, p);
    }
  }

  // ---- The invariant ------------------------------------------------------------------

  ghost predicate Shape(s: State) {
    && |s.ref| == |s.mem|
    && (forall p :: 0 <= p < |s.mem| ==> |s.mem[p]| == NENTRIES)
    && (forall x :: x in s.refs ==> s.refs[x] < |s.mem|)
    && (forall p :: p in s.free ==> p < |s.mem|)
    && Apart(s.free)
  }

  /** pp_ref is the number of references. */
  ghost predicate Counted(s: State) {
    forall p :: 0 <= p < |s.ref| ==> 0 <= s.ref[p] < REFMAX && s.ref[p] == |Of(s.refs, p)|
  }

  ghost predicate FreeUnused(s: State) {
    forall x :: x in s.refs ==> s.refs[x] !in s.free
  }

  ghost predicate Kept(s: State) {
    && (forall p :: Boot(p) in s.refs ==> s.refs[Boot(p)] == p)
    && (forall d :: Dir(d) in s.refs ==> s.refs[Dir(d)] == d)
  }

  /** The user entries of the directories are the Pde slots, and each page table hangs
      from one of them. */
  ghost predicate Tables(s: State) {
    && (forall d: nat, i: nat :: Pde(d, i) in s.refs ==> PdeOk(s, d, i))
    && (forall d: nat, i: nat :: Dir(d) in s.refs && i < UPDX && d < |s.mem| && i < |s.mem[d]| && s.mem[d][i].Present?
          ==> Pde(d, i) in s.refs)
    && (forall t :: t in s.owner ==> OwnerOk(s, t))
  }

  ghost predicate PdeOk(s: State, d: nat, i: nat) {
    && Dir(d) in s.refs && d < |s.mem| && i < UPDX && i < |s.mem[d]|
    && s.mem[d][i].Present? && Pde(d, i) in s.refs && s.refs[Pde(d, i)] == s.mem[d][i].page
    && s.mem[d][i].page in s.owner && s.owner[s.mem[d][i].page] == Pde(d, i)
  }

  ghost predicate OwnerOk(s: State, t: nat) {
    && t in s.owner && s.owner[t].Pde? && s.owner[t] in s.refs && s.refs[s.owner[t]] == t
    && t < |s.mem| && Dir(t) !in s.refs
  }

  /** The entries of the page tables are the Pte slots. */
  ghost predicate Entries(s: State) {
    && (forall t: nat, j: nat :: Pte(t, j) in s.refs ==>
          t in s.owner && t < |s.mem| && j < |s.mem[t]| && s.mem[t][j].Present?
          && s.refs[Pte(t, j)] == s.mem[t][j].page)
    && (forall t: nat, j: nat :: t in s.owner && t < |s.mem| && j < |s.mem[t]| && s.mem[t][j].Present? ==>
          Pte(t, j) in s.refs)
  }

  ghost predicate Inv(s: State) {
    Shape(s) && Counted(s) && FreeUnused(s) && Kept(s) && Tables(s) && Entries(s)
  }

  /** What directory d maps at the page of directory index i and table index j. */
  function Lookup(s: State, d: nat, i: nat, j: nat): Entry {
    if d < |s.mem| && i < |s.mem[d]| && s.mem[d][i].Present?
       && s.mem[d][i].page < |s.mem| && j < |s.mem[s.mem[d][i].page]|
    then s.mem[s.mem[d][i].page][j] else Absent
  }

  // ---- Counts and the free list -------------------------------------------------------

  /** pp_ref++ */
  function Increfed(ref: seq<int>, p: nat): seq<int>
    requires p < |ref|
  {
    ref[p := (ref[p] + 1) % REFMAX]
  }

  /** page_decref: the page goes to the free list when the count comes to 0. */
  function Decrefed(s: State, p: nat): State
    requires p < |s.ref|
  {
    var n := (s.ref[p] - 1) % REFMAX;
    s.(ref := s.ref[p := n], free := if n == 0 then [p] + s.free else s.free)
  }

  /** A new reference in slot x. */
  lemma CountedAdd(s: State, t: State, x: Slot, p: nat)
    requires Shape(s) && FreeUnused(s) && x !in s.refs && p < |s.ref| && p !in s.free
    requires t.ref == Increfed(s.ref, p) && t.refs == s.refs[x := p] && t.free == s.free
    ensures Counted(s) ==> (Counted(t) <==> |Of(s.refs, p)| < REFMAX - 1)
    ensures FreeUnused(t)
  {
    hide Of;
    forall q | 0 <= q < |s.ref|
      ensures |Of(t.refs, q)| == |Of(s.refs, q)| + if q == p then 1 else 0
    {
      OfAdded(s.refs, x, p, q);
    }
    if Counted(s) && |Of(s.refs, p)| == REFMAX - 1 {
      assert t.ref[p] == 0;
    }
  }

  /** The reference in slot x goes away; the page is freed iff it was the last. */
  lemma CountedDrop(s: State, t: State, x: Slot)
    requires Shape(s) && Counted(s) && FreeUnused(s) && x in s.refs
    requires t == Decrefed(s, s.refs[x]).(refs := s.refs - {x}, mem := t.mem, owner := t.owner)
    ensures Counted(t) && FreeUnused(t) && Apart(t.free)
    ensures forall p :: p in t.free <==> p in s.free || (p == s.refs[x] && |Of(s.refs, p)| == 1)
  {
    hide Of;
    var p := s.refs[x];
    OfNone(s.refs, p);
    forall q | 0 <= q < |s.ref|
      ensures |Of(t.refs, q)| == |Of(s.refs, q)| - if q == p then 1 else 0
    {
      OfDropped(s.refs, x, q);
    }
    OfNone(t.refs, p);
    ApartPush(s.free, p);
  }

  lemma ApartPush(free: seq<nat>, p: nat)
    requires Apart(free) && p !in free
    ensures Apart([p] + free)
  {
    ApartMore(free, p);
  }

  // ---- Changing an entry of a page table ------------------------------------------------

  /** Everything that speaks of memory rather than counts. */
  ghost predicate Mapped(s: State) {
    Shape(s) && Kept(s) && Tables(s) && Entries(s)
  }

  /** All of Inv except that the counts are right. */
  ghost predicate Consistent(s: State) {
    Mapped(s) && FreeUnused(s)
  }

  function EntrySet(s: State, t: nat, j: nat, e: Entry): State
    requires t < |s.mem| && j < |s.mem[t]|
  {
    s.(mem := s.mem[t := s.mem[t][j := e]],
       refs := if e.Present? then s.refs[Pte(t, j) := e.page] else s.refs - {Pte(t, j)})
  }

  lemma EntrySetOk(s: State, t: nat, j: nat, e: Entry)
    requires Mapped(s) && t in s.owner && t < |s.mem| && j < |s.mem[t]| && (e.Present? ==> e.page < |s.mem|)
    ensures Mapped(EntrySet(s, t, j, e))
  {
    EntrySetTables(s, t, j, e);
    EntrySetEntries(s, t, j, e);
    hide Tables, Entries;
  }

  lemma EntrySetTables(s: State, t: nat, j: nat, e: Entry)
    requires Shape(s) && Tables(s) && t in s.owner && t < |s.mem| && j < |s.mem[t]|
    ensures Tables(EntrySet(s, t, j, e))
  {
    var r := EntrySet(s, t, j, e);
    assert OwnerOk(s, t);
    forall d: nat, i: nat | Pde(d, i) in r.refs ensures PdeOk(r, d, i) {
      assert PdeOk(s, d, i);
    }
    forall u | u in r.owner ensures OwnerOk(r, u) {
      assert OwnerOk(s, u);
    }
  }

  lemma EntrySetEntries(s: State, t: nat, j: nat, e: Entry)
    requires Shape(s) && Entries(s) && t in s.owner && t < |s.mem| && j < |s.mem[t]|
    ensures Entries(EntrySet(s, t, j, e))
  {
    var r := EntrySet(s, t, j, e);
    forall u: nat, k: nat | Pte(u, k) in r.refs
      ensures u in r.owner && u < |r.mem| && k < |r.mem[u]| && r.mem[u][k].Present?
      ensures r.refs[Pte(u, k)] == r.mem[u][k].page
    {
      assert u != t || k != j ==> Pte(u, k) in s.refs;
    }
    forall u: nat, k: nat | u in r.owner && u < |r.mem| && k < |r.mem[u]| && r.mem[u][k].Present?
      ensures Pte(u, k) in r.refs
    {
    }
  }

  /** Only the one page's mapping changes, in the one address space that has the table. */
  lemma EntrySetLookup(s: State, t: nat, j: nat, e: Entry, d: nat, i: nat, k: nat)
    requires Mapped(s) && t in s.owner && t < |s.mem| && j < |s.mem[t]|
    requires Dir(d) in s.refs && i < UPDX
    ensures Lookup(EntrySet(s, t, j, e), d, i, k) ==
            if s.owner[t] == Pde(d, i) && k == j then e else Lookup(s, d, i, k)
  {
    hide Entries;
    assert OwnerOk(s, t);
    var r := EntrySet(s, t, j, e);
    if Pde(d, i) in s.refs {
      assert PdeOk(s, d, i);
    }
    if s.owner[t] == Pde(d, i) {
      assert PdeOk(s, d, i);
    }
    assert d != t;
  }

  // ---- Page tables and directories ------------------------------------------------------

  ghost predicate Unused(s: State, p: nat) {
    forall x :: x in s.refs ==> s.refs[x] != p
  }

  lemma UnusedIs(s: State, p: nat)
    requires Kept(s) && Tables(s) && Entries(s) && Unused(s, p)
    ensures Dir(p) !in s.refs && p !in s.owner
    ensures forall j: nat :: Pte(p, j) !in s.refs
    ensures forall i: nat :: Pde(p, i) !in s.refs
  {
    forall t | t in s.owner ensures t != p {
      assert OwnerOk(s, t);
    }
    forall d: nat, i: nat | Pde(d, i) in s.refs ensures d != p {
      assert PdeOk(s, d, i);
    }
  }

  function Zeroed(): seq<Entry> {
    seq(NENTRIES, _ => Absent)
  }

  /** A cleared page t becomes the page table of directory entry (d, i). */
  function TableAdded(s: State, d: nat, i: nat, t: nat, perm: bv12): State
    requires d < |s.mem| && t < |s.mem| && d != t && i < |s.mem[d]|
  {
    s.(mem := s.mem[t := Zeroed()][d := s.mem[d][i := Present(t, perm)]],
       refs := s.refs[Pde(d, i) := t], owner := s.owner[t := Pde(d, i)])
  }

  lemma TableAddedOk(s: State, d: nat, i: nat, t: nat, perm: bv12)
    requires Mapped(s) && Dir(d) in s.refs && d < |s.mem| && t < |s.mem| && i < UPDX && i < |s.mem[d]|
    requires s.mem[d][i].Absent?
    requires Unused(s, t)
    ensures d != t && Mapped(TableAdded(s, d, i, t, perm))
  {
    UnusedIs(s, t);
    var r := TableAdded(s, d, i, t, perm);
    TableAddedTables(s, d, i, t, perm);
    TableAddedEntries(s, d, i, t, perm);
    hide Tables, Entries;
  }

  lemma TableAddedTables(s: State, d: nat, i: nat, t: nat, perm: bv12)
    requires Shape(s) && Tables(s) && Kept(s) && Entries(s) && Dir(d) in s.refs && d < |s.mem| && t < |s.mem|
    requires i < UPDX
    requires i < |s.mem[d]| && s.mem[d][i].Absent? && d != t && Unused(s, t)
    ensures Tables(TableAdded(s, d, i, t, perm))
  {
    UnusedIs(s, t);
    hide Entries;
    var r := TableAdded(s, d, i, t, perm);
    forall d1: nat, i1: nat | Pde(d1, i1) in r.refs ensures PdeOk(r, d1, i1) {
      if d1 != d || i1 != i {
        assert PdeOk(s, d1, i1);
      }
    }
    forall u | u in r.owner ensures OwnerOk(r, u) {
      if u != t {
        assert OwnerOk(s, u);
      } else {
        assert Dir(t) !in r.refs;
      }
    }
  }

  lemma TableAddedEntries(s: State, d: nat, i: nat, t: nat, perm: bv12)
    requires Shape(s) && Tables(s) && Kept(s) && Entries(s) && Dir(d) in s.refs && d < |s.mem| && t < |s.mem|
    requires i < UPDX
    requires i < |s.mem[d]| && d != t && Unused(s, t)
    ensures Entries(TableAdded(s, d, i, t, perm))
  {
    UnusedIs(s, t);
    forall u | u in s.owner ensures u != d {
      assert OwnerOk(s, u);
    }
    hide Tables;
    var r := TableAdded(s, d, i, t, perm);
  }

  lemma TableAddedLookup(s: State, d: nat, i: nat, t: nat, perm: bv12, d1: nat, i1: nat, k: nat)
    requires Mapped(s) && Dir(d) in s.refs && d < |s.mem| && t < |s.mem| && i < UPDX && i < |s.mem[d]|
    requires s.mem[d][i].Absent?
    requires Unused(s, t) && d != t && Dir(d1) in s.refs && i1 < UPDX
    ensures Lookup(TableAdded(s, d, i, t, perm), d1, i1, k) == Lookup(s, d1, i1, k)
  {
    UnusedIs(s, t);
    if Pde(d1, i1) in s.refs {
      assert PdeOk(s, d1, i1);
      assert OwnerOk(s, s.mem[d1][i1].page);
    }
    forall u | u in s.owner ensures u != d {
      assert OwnerOk(s, u);
    }
    hide Entries, Tables;
  }

  /** The emptied page table of directory entry (d, i) is unhooked. */
  function TableDropped(s: State, d: nat, i: nat): State
    requires d < |s.mem| && i < |s.mem[d]| && s.mem[d][i].Present?
  {
    s.(mem := s.mem[d := s.mem[d][i := Absent]], refs := s.refs - {Pde(d, i)}, owner := s.owner - {s.mem[d][i].page})
  }

  ghost predicate Blank(s: State, t: nat) {
    t < |s.mem| && forall j :: 0 <= j < |s.mem[t]| ==> s.mem[t][j].Absent?
  }

  lemma TableDroppedOk(s: State, d: nat, i: nat)
    requires Mapped(s) && Pde(d, i) in s.refs && PdeOk(s, d, i) && Blank(s, s.mem[d][i].page)
    ensures Mapped(TableDropped(s, d, i))
  {
    TableDroppedTables(s, d, i);
    TableDroppedEntries(s, d, i);
    hide Tables, Entries;
  }

  lemma TableDroppedTables(s: State, d: nat, i: nat)
    requires Shape(s) && Tables(s) && Pde(d, i) in s.refs && PdeOk(s, d, i)
    ensures Tables(TableDropped(s, d, i))
  {
    var r := TableDropped(s, d, i);
    forall d1: nat, i1: nat | Pde(d1, i1) in r.refs ensures PdeOk(r, d1, i1) {
      assert PdeOk(s, d1, i1);
    }
    forall u | u in r.owner ensures OwnerOk(r, u) {
      assert OwnerOk(s, u);
    }
  }

  lemma TableDroppedEntries(s: State, d: nat, i: nat)
    requires Shape(s) && Tables(s) && Entries(s) && Pde(d, i) in s.refs && PdeOk(s, d, i) && Blank(s, s.mem[d][i].page)
    ensures Entries(TableDropped(s, d, i))
  {
    forall u | u in s.owner ensures u != d {
      assert OwnerOk(s, u);
    }
    hide Tables;
  }

  lemma TableDroppedLookup(s: State, d: nat, i: nat, d1: nat, i1: nat, k: nat)
    requires Mapped(s) && Pde(d, i) in s.refs && PdeOk(s, d, i) && Dir(d1) in s.refs && i1 < UPDX
    ensures d1 != d ==> Lookup(TableDropped(s, d, i), d1, i1, k) == Lookup(s, d1, i1, k)
  {
    if Pde(d1, i1) in s.refs {
      assert PdeOk(s, d1, i1);
      assert OwnerOk(s, s.mem[d1][i1].page);
    }
    hide Entries, Tables;
  }

  /** Page d becomes a directory with no user entries, or stops being one. */
  ghost predicate NoUser(s: State, d: nat) {
    d < |s.mem| && |s.mem[d]| == NENTRIES && forall i :: 0 <= i < UPDX ==> s.mem[d][i].Absent?
  }

  lemma DirAddedOk(s: State, t: State, d: nat)
    requires Mapped(s) && d < |s.mem| && Unused(s, d) && |t.mem| == |s.mem| && NoUser(t, d)
    requires t == s.(mem := s.mem[d := t.mem[d]], refs := s.refs[Dir(d) := d])
    ensures Mapped(t)
    ensures forall d1: nat, i: nat, k: nat :: Dir(d1) in s.refs && i < UPDX ==>
              Lookup(t, d1, i, k) == Lookup(s, d1, i, k)
  {
    UnusedIs(s, d);
    forall d1: nat, i: nat | Pde(d1, i) in t.refs ensures PdeOk(t, d1, i) && PdeOk(s, d1, i) {
      assert PdeOk(s, d1, i);
    }
    forall u | u in t.owner ensures OwnerOk(t, u) {
      assert OwnerOk(s, u);
    }
  }

  lemma DirDroppedOk(s: State, d: nat)
    requires Mapped(s) && Dir(d) in s.refs && NoUser(s, d)
    ensures Mapped(s.(refs := s.refs - {Dir(d)}))
  {
    var t := s.(refs := s.refs - {Dir(d)});
    forall d1: nat, i: nat | Pde(d1, i) in t.refs ensures PdeOk(t, d1, i) {
      assert PdeOk(s, d1, i);
    }
    forall u | u in t.owner ensures OwnerOk(t, u) {
      assert OwnerOk(s, u);
    }
  }

  // ---- page_remove and page_insert --------------------------------------------------------

  /** pgdir[i] |= perm on a present entry. */
  function PermSet(s: State, d: nat, i: nat, perm: bv12): State
    requires d < |s.mem| && i < |s.mem[d]| && s.mem[d][i].Present?
  {
    s.(mem := s.mem[d := s.mem[d][i := Present(s.mem[d][i].page, s.mem[d][i].perm | perm)]])
  }

  lemma PermSetOk(s: State, d: nat, i: nat, perm: bv12)
    requires Mapped(s) && Pde(d, i) in s.refs && PdeOk(s, d, i)
    ensures Mapped(PermSet(s, d, i, perm))
    ensures forall d1: nat, i1: nat, k: nat :: Dir(d1) in s.refs && i1 < UPDX ==>
              Lookup(PermSet(s, d, i, perm), d1, i1, k) == Lookup(s, d1, i1, k)
  {
    var r := PermSet(s, d, i, perm);
    PermSetTables(s, d, i, perm);
    assert d !in s.owner by {
      assert d in s.owner ==> OwnerOk(s, d);
    }
    forall d1: nat, i1: nat, k: nat | Dir(d1) in s.refs && i1 < UPDX
      ensures Lookup(r, d1, i1, k) == Lookup(s, d1, i1, k)
    {
      PermSetLookup(s, d, i, perm, d1, i1, k);
    }
    hide Tables, Lookup;
  }

  lemma PermSetTables(s: State, d: nat, i: nat, perm: bv12)
    requires Shape(s) && Tables(s) && Pde(d, i) in s.refs && PdeOk(s, d, i)
    ensures Tables(PermSet(s, d, i, perm))
  {
    var r := PermSet(s, d, i, perm);
    forall d1: nat, i1: nat | Pde(d1, i1) in r.refs ensures PdeOk(r, d1, i1) {
      assert PdeOk(s, d1, i1);
    }
    forall u | u in r.owner ensures OwnerOk(r, u) {
      assert OwnerOk(s, u);
    }
  }

  lemma PermSetLookup(s: State, d: nat, i: nat, perm: bv12, d1: nat, i1: nat, k: nat)
    requires Shape(s) && Kept(s) && Tables(s) && Pde(d, i) in s.refs && PdeOk(s, d, i) && Dir(d1) in s.refs && i1 < UPDX
    ensures Lookup(PermSet(s, d, i, perm), d1, i1, k) == Lookup(s, d1, i1, k)
  {
    if s.mem[d1][i1].Present? {
      assert PdeOk(s, d1, i1) && OwnerOk(s, s.mem[d1][i1].page);
    }
  }

  /** The entry j of table t is cleared and its page loses a reference. */
  function EntryDropped(s: State, t: nat, j: nat): State
    requires t < |s.mem| && j < |s.mem[t]| && s.mem[t][j].Present? && s.mem[t][j].page < |s.ref|
  {
    EntrySet(Decrefed(s, s.mem[t][j].page), t, j, Absent)
  }

  lemma MappedFree(s: State, t: State)
    requires Mapped(s) && t == s.(ref := t.ref, free := t.free) && |t.ref| == |s.ref|
    requires Apart(t.free) && forall p :: p in t.free ==> p < |t.mem|
    ensures Mapped(t)
  {
    forall d1: nat, i1: nat | Pde(d1, i1) in t.refs ensures PdeOk(t, d1, i1) {
      assert PdeOk(s, d1, i1);
    }
    forall u | u in t.owner ensures OwnerOk(t, u) {
      assert OwnerOk(s, u);
    }
  }

  /** Dropping an entry keeps the invariant, unmaps exactly its page there, and frees the page
      exactly when that was its last reference. */
  lemma EntryDroppedOk(s: State, t: nat, j: nat)
    requires Inv(s) && t in s.owner && Pte(t, j) in s.refs && t < |s.mem| && j < |s.mem[t]| && s.mem[t][j].Present?
    requires s.mem[t][j].page < |s.ref|
    ensures Inv(EntryDropped(s, t, j))
    ensures forall p :: p in EntryDropped(s, t, j).free <==>
              p in s.free || (p == s.mem[t][j].page && |Of(s.refs, p)| == 1)
  {
    hide Of, Tables;
    var r := EntryDropped(s, t, j);
    assert s.refs[Pte(t, j)] == s.mem[t][j].page;
    hide Entries;
    CountedDrop(s, r, Pte(t, j));
    var v := EntrySet(s, t, j, Absent);
    EntrySetOk(s, t, j, Absent);
    hide Kept;
    MappedFree(v, r);
  }

  const PTE_P: bv12 := 1
  const PTE_W: bv12 := 2
  const PTE_U: bv12 := 4

  /** pgdir_walk with create: a missing page table comes from the free list. */
  function Walked(s: State, d: nat, i: nat): State
    requires d < |s.mem| && i < |s.mem[d]|
    requires s.mem[d][i].Absent? ==> s.free != [] && s.free[0] < |s.ref| == |s.mem| && s.free[0] != d
  {
    if s.mem[d][i].Present? then s
    else TableAdded(s.(free := s.free[1..], ref := Increfed(s.ref, s.free[0])), d, i, s.free[0], PTE_P | PTE_W | PTE_U)
  }

  lemma FreeIsUnused(s: State, p: nat)
    requires Consistent(s) && p in s.free
    ensures Unused(s, p) && p < |s.ref| == |s.mem| && Dir(p) !in s.refs
    ensures Inv(s) ==> s.ref[p] == 0
  {
    hide Of, Tables, Entries;
    OfNone(s.refs, p);
  }

  lemma TakeOk(s: State)
    requires Consistent(s) && s.free != []
    ensures Consistent(s.(free := s.free[1..])) && s.free[0] !in s.free[1..]
    ensures Inv(s) ==> Inv(s.(free := s.free[1..]))
  {
    hide Of;
    ApartRest(s.free);
    forall p | p in s.free[1..] ensures p in s.free {
    }
    MappedFree(s, s.(free := s.free[1..]));
    hide Tables, Entries, Kept;
  }

  /** page_alloc */
  function Allocated(s: State, zero: bool): State
    requires s.free != [] && s.free[0] < |s.mem|
  {
    s.(free := s.free[1..], mem := if zero then s.mem[s.free[0] := Zeroed()] else s.mem)
  }

  lemma AllocatedOk(s: State, zero: bool)
    requires Inv(s) && s.free != []
    ensures s.free[0] < |s.mem| && Inv(Allocated(s, zero))
  {
    hide Of;
    var p := s.free[0];
    FreeIsUnused(s, p);
    TakeOk(s);
    UnusedIs(s, p);
    var u, r := s.(free := s.free[1..]), Allocated(s, zero);
    hide Counted;
    forall d: nat, i: nat | Pde(d, i) in r.refs ensures PdeOk(r, d, i) {
      assert PdeOk(u, d, i);
    }
    forall t | t in r.owner ensures OwnerOk(r, t) {
      assert OwnerOk(u, t);
    }
  }

  /** page_free of a page without references. */
  lemma FreedOk(s: State, p: nat)
    requires Inv(s) && p < |s.ref| && s.ref[p] == 0 && p !in s.free
    ensures Inv(s.(free := [p] + s.free))
  {
    hide Of;
    OfNone(s.refs, p);
    ApartPush(s.free, p);
    MappedFree(s, s.(free := [p] + s.free));
    hide Tables, Entries, Kept;
  }

  lemma WalkedOk(s: State, d: nat, i: nat)
    requires Consistent(s) && Dir(d) in s.refs && i < UPDX && d < |s.mem| && i < |s.mem[d]|
    requires s.mem[d][i].Absent? ==> s.free != []
    ensures s.mem[d][i].Absent? ==> s.free[0] < |s.ref| == |s.mem| && s.free[0] != d
    ensures Consistent(Walked(s, d, i)) && Pde(d, i) in Walked(s, d, i).refs && PdeOk(Walked(s, d, i), d, i)
    ensures Inv(s) ==> Inv(Walked(s, d, i))
  {
    hide Of;
    if s.mem[d][i].Present? {
      assert PdeOk(s, d, i);
    } else {
      var t := s.free[0];
      FreeIsUnused(s, t);
      TakeOk(s);
      var u := s.(free := s.free[1..]);
      hide Tables, Entries;
      var v := u.(ref := Increfed(u.ref, t));
      MappedFree(u, v);
      TableAddedOk(v, d, i, t, PTE_P | PTE_W | PTE_U);
      var r := TableAdded(v, d, i, t, PTE_P | PTE_W | PTE_U);
      NoSuchPde(s, d, i);
      OfNone(s.refs, t);
      CountedAdd(u, r, Pde(d, i), t);
      PdeIs(r, d, i);
    }
  }

  lemma NoSuchPde(s: State, d: nat, i: nat)
    requires Tables(s) && d < |s.mem| && i < |s.mem[d]| && s.mem[d][i].Absent?
    ensures Pde(d, i) !in s.refs
  {
  }

  lemma PdeIs(s: State, d: nat, i: nat)
    requires Tables(s) && Pde(d, i) in s.refs
    ensures PdeOk(s, d, i)
  {
  }

  lemma WalkedLookup(s: State, d: nat, i: nat, d1: nat, i1: nat, k: nat)
    requires Consistent(s) && Dir(d) in s.refs && i < UPDX && d < |s.mem| && i < |s.mem[d]|
    requires s.mem[d][i].Absent? ==> s.free != [] && s.free[0] < |s.ref| == |s.mem| && s.free[0] != d
    requires Dir(d1) in s.refs && i1 < UPDX
    ensures Lookup(Walked(s, d, i), d1, i1, k) == Lookup(s, d1, i1, k)
  {
    hide Of;
    if s.mem[d][i].Absent? {
      var t := s.free[0];
      FreeIsUnused(s, t);
      TakeOk(s);
      var u := s.(free := s.free[1..]);
      hide Tables, Entries;
      var v := u.(ref := Increfed(u.ref, t));
      MappedFree(u, v);
      TableAddedLookup(v, d, i, t, PTE_P | PTE_W | PTE_U, d1, i1, k);
    }
  }

  /** The entry j of table t after page_insert of pp: an earlier page there loses its
      reference, and pp gains one unless it was that page. */
  function Entered(s: State, t: nat, j: nat, pp: nat, perm: bv12): State
    requires t < |s.mem| && j < |s.mem[t]| && pp < |s.ref| && (s.mem[t][j].Present? ==> s.mem[t][j].page < |s.ref|)
  {
    var e := Present(pp, perm | PTE_P);
    if s.mem[t][j].Absent? then EntrySet(s.(ref := Increfed(s.ref, pp)), t, j, e)
    else if s.mem[t][j].page == pp then EntrySet(s, t, j, e)
    else
      var v := EntryDropped(s, t, j);
      EntrySet(v.(ref := Increfed(v.ref, pp)), t, j, e)
  }

  lemma EnteredNew(s: State, t: nat, j: nat, pp: nat, e: Entry)
    requires Consistent(s) && t in s.owner && t < |s.mem| && j < |s.mem[t]| && pp < |s.ref| && pp !in s.free
    requires s.mem[t][j].Absent? && e.Present? && e.page == pp
    ensures Inv(s) ==> (Inv(EntrySet(s.(ref := Increfed(s.ref, pp)), t, j, e)) <==> |Of(s.refs, pp)| < REFMAX - 1)
    ensures Consistent(EntrySet(s.(ref := Increfed(s.ref, pp)), t, j, e))
  {
    hide Of, Tables;
    var v := s.(ref := Increfed(s.ref, pp));
    var r := EntrySet(v, t, j, e);
    assert Pte(t, j) !in s.refs;
    hide Entries;
    MappedFree(s, v);
    EntrySetOk(v, t, j, e);
    CountedAdd(s, r, Pte(t, j), pp);
  }

  lemma EnteredSame(s: State, t: nat, j: nat, pp: nat, e: Entry)
    requires Inv(s) && t in s.owner && t < |s.mem| && j < |s.mem[t]| && pp < |s.ref|
    requires s.mem[t][j].Present? && s.mem[t][j].page == pp && e.Present? && e.page == pp
    ensures Inv(EntrySet(s, t, j, e)) && EntrySet(s, t, j, e).refs == s.refs
  {
    hide Of, Tables;
    assert Pte(t, j) in s.refs && s.refs[Pte(t, j)] == pp;
    EntrySetOk(s, t, j, e);
    assert s.refs[Pte(t, j) := pp] == s.refs;
    hide Entries;
  }

  /** page_insert keeps the counts right exactly when pp was there already or its 16-bit
      count does not wrap. */
  lemma EnteredOk(s: State, t: nat, j: nat, pp: nat, perm: bv12)
    requires Consistent(s) && t in s.owner && t < |s.mem| && j < |s.mem[t]| && pp < |s.ref| && pp !in s.free
    requires Inv(s) || s.mem[t][j].Absent?
    ensures s.mem[t][j].Present? ==> s.mem[t][j].page < |s.ref| && Pte(t, j) in s.refs
    ensures Inv(s) ==> (Inv(Entered(s, t, j, pp, perm)) <==>
              (s.mem[t][j].Present? && s.mem[t][j].page == pp) || |Of(s.refs, pp)| < REFMAX - 1)
    ensures Consistent(Entered(s, t, j, pp, perm))
  {
    hide Of, Tables;
    var e := Present(pp, perm | PTE_P);
    if s.mem[t][j].Absent? {
      EnteredNew(s, t, j, pp, e);
    } else if s.mem[t][j].page == pp {
      EnteredSame(s, t, j, pp, e);
    } else {
      assert Pte(t, j) in s.refs;
      hide Entries;
      EntryDroppedOk(s, t, j);
      var v := EntryDropped(s, t, j);
      OfDropped(s.refs, Pte(t, j), pp);
      EnteredNew(v, t, j, pp, e);
    }
  }

  /** A user address of an environment: directory entry i and table entry j of directory d. */
  ghost predicate UserAt(s: State, d: nat, i: nat, j: nat) {
    Dir(d) in s.refs && i < UPDX && j < NENTRIES && d < |s.mem| && i < |s.mem[d]|
  }

  /** page_insert has the page table it needs. The counts matter only when there is an
      earlier mapping to remove. */
  ghost predicate CanInsert(s: State, d: nat, i: nat, j: nat, pp: nat) {
    && Consistent(s) && UserAt(s, d, i, j) && (s.mem[d][i].Absent? ==> s.free != [])
    && (Inv(s) || Lookup(s, d, i, j).Absent?) && pp < |s.ref| && pp !in s.free
  }

  /** The page table of directory entry (d, i). */
  function Home(s: State, d: nat, i: nat): nat {
    if d < |s.mem| && i < |s.mem[d]| && s.mem[d][i].Present? then s.mem[d][i].page else 0
  }

  /** The state after pgdir_walk, with the entry for the address at hand. */
  ghost predicate Ready(w: State, d: nat, i: nat, j: nat, pp: nat) {
    var t := Home(w, d, i);
    && CanInsert(w, d, i, j, pp) && PdeOk(w, d, i) && Pde(d, i) in w.refs && t in w.owner
    && t < |w.mem| && t != d && j < |w.mem[t]| && Lookup(w, d, i, j) == w.mem[t][j]
    && (w.mem[t][j].Present? ==> w.mem[t][j].page < |w.ref|)
  }

  lemma WalkedReady(s: State, d: nat, i: nat, j: nat, pp: nat)
    requires CanInsert(s, d, i, j, pp)
    ensures s.mem[d][i].Absent? ==> s.free[0] < |s.ref| == |s.mem| && s.free[0] != d
    ensures Ready(Walked(s, d, i), d, i, j, pp) && |Of(Walked(s, d, i).refs, pp)| == |Of(s.refs, pp)|
  {
    hide Of;
    WalkedOk(s, d, i);
    WalkedSame(s, d, i, j);
    var w := Walked(s, d, i);
    assert OwnerOk(w, w.mem[d][i].page);
    hide Tables;
    if s.mem[d][i].Absent? {
      assert s.free[0] in s.free;
      NoSuchPde(s, d, i);
      OfAdded(s.refs, Pde(d, i), s.free[0], pp);
    }
  }

  ghost function Filled(w: State, d: nat, i: nat, j: nat, pp: nat, perm: bv12): State
    requires Ready(w, d, i, j, pp)
  {
    PermSet(Entered(w, Home(w, d, i), j, pp, perm), d, i, perm)
  }

  /** page_insert when pgdir_walk succeeds. */
  ghost function Inserted(s: State, d: nat, i: nat, j: nat, pp: nat, perm: bv12): State
    requires CanInsert(s, d, i, j, pp)
  {
    WalkedReady(s, d, i, j, pp);
    Filled(Walked(s, d, i), d, i, j, pp, perm)
  }

  lemma EnteredMem(s: State, t: nat, j: nat, pp: nat, perm: bv12)
    requires t < |s.mem| && j < |s.mem[t]| && pp < |s.ref| && (s.mem[t][j].Present? ==> s.mem[t][j].page < |s.ref|)
    ensures Entered(s, t, j, pp, perm).mem == s.mem[t := s.mem[t][j := Present(pp, perm | PTE_P)]]
    ensures Entered(s, t, j, pp, perm).refs == s.refs[Pte(t, j) := pp] && Entered(s, t, j, pp, perm).owner == s.owner
    ensures pp !in s.free ==> pp !in Entered(s, t, j, pp, perm).free
  {
    assert (s.refs - {Pte(t, j)})[Pte(t, j) := pp] == s.refs[Pte(t, j) := pp];
    var e := Present(pp, perm | PTE_P);
    assert s.mem[t][j := Absent][j := e] == s.mem[t][j := e];
    assert s.mem[t := s.mem[t][j := Absent]][t := s.mem[t][j := e]] == s.mem[t := s.mem[t][j := e]];
  }

  lemma PermSetInv(s: State, d: nat, i: nat, perm: bv12)
    requires Mapped(s) && Pde(d, i) in s.refs && PdeOk(s, d, i)
    ensures Inv(PermSet(s, d, i, perm)) <==> Inv(s)
    ensures FreeUnused(s) ==> Consistent(PermSet(s, d, i, perm))
  {
    hide Of;
    PermSetOk(s, d, i, perm);
    hide Tables, Entries, Kept, Shape, PdeOk;
  }

  /** page_insert: the counts stay right exactly when pp was mapped there already or its 16-bit
      count does not wrap; pp is not freed. */
  lemma InsertedOk(s: State, d: nat, i: nat, j: nat, pp: nat, perm: bv12)
    requires CanInsert(s, d, i, j, pp)
    ensures Inv(s) ==> (Inv(Inserted(s, d, i, j, pp, perm)) <==>
              (Lookup(s, d, i, j).Present? && Lookup(s, d, i, j).page == pp) || |Of(s.refs, pp)| < REFMAX - 1)
    ensures Consistent(Inserted(s, d, i, j, pp, perm))
    ensures pp !in Inserted(s, d, i, j, pp, perm).free
  {
    hide Of, Lookup, Counted, FreeUnused, Tables, Entries, PdeOk;
    WalkedReady(s, d, i, j, pp);
    WalkedOk(s, d, i);
    var w := Walked(s, d, i);
    hide Walked;
    WalkedSame(s, d, i, j);
    var t := Home(w, d, i);
    EnteredOk(w, t, j, pp, perm);
    EnteredMem(w, t, j, pp, perm);
    var r := Entered(w, t, j, pp, perm);
    hide Entered;
    PdeIs(r, d, i);
    PermSetInv(r, d, i, perm);
  }

  lemma WalkedSame(s: State, d: nat, i: nat, j: nat)
    requires Consistent(s) && UserAt(s, d, i, j) && (s.mem[d][i].Absent? ==> s.free != [])
    requires s.mem[d][i].Absent? ==> s.free[0] < |s.ref| == |s.mem| && s.free[0] != d
    ensures Lookup(Walked(s, d, i), d, i, j) == Lookup(s, d, i, j)
  {
    WalkedLookup(s, d, i, d, i, j);
  }

  /** page_insert maps pp at the one address and changes no other mapping of any environment. */
  lemma InsertedLookup(s: State, d: nat, i: nat, j: nat, pp: nat, perm: bv12, d1: nat, i1: nat, k: nat)
    requires CanInsert(s, d, i, j, pp) && UserAt(s, d1, i1, k)
    ensures Lookup(Inserted(s, d, i, j, pp, perm), d1, i1, k) ==
            if d1 == d && i1 == i && k == j then Present(pp, perm | PTE_P) else Lookup(s, d1, i1, k)
  {
    hide Of, Counted, FreeUnused, Tables, Entries, Lookup;
    WalkedReady(s, d, i, j, pp);
    WalkedLookup(s, d, i, d1, i1, k);
    var w := Walked(s, d, i);
    var t := Home(w, d, i);
    EnteredOk(w, t, j, pp, perm);
    EnteredMem(w, t, j, pp, perm);
    var r := Entered(w, t, j, pp, perm);
    var e := Present(pp, perm | PTE_P);
    EntrySetLookup(w, t, j, e, d1, i1, k);
    LookupMem(r, EntrySet(w, t, j, e), d1, i1, k);
    PdeIs(r, d, i);
    PermSetOk(r, d, i, perm);
  }

  lemma LookupMem(s: State, t: State, d: nat, i: nat, k: nat)
    requires s.mem == t.mem
    ensures Lookup(s, d, i, k) == Lookup(t, d, i, k)
  {
  }

  // ---- env_free ---------------------------------------------------------------------------

  /** Slot x is part of the address space of directory d. */
  predicate Belongs(s: State, d: nat, x: Slot) {
    match x
    case Boot(_) => false
    case Dir(e) => e == d
    case Pde(e, _) => e == d
    case Pte(t, _) => t in s.owner && s.owner[t].Pde? && s.owner[t].d == d
  }

  ghost predicate Referenced(s: State, p: nat) {
    exists x :: x in s.refs && s.refs[x] == p
  }

  /** From s0 to s only references of d have gone, and the pages left without any are free. */
  ghost predicate Freeing(s0: State, s: State, d: nat) {
    && Inv(s) && |s.mem| == |s0.mem|
    && (forall x :: x in s.refs ==> x in s0.refs && s.refs[x] == s0.refs[x])
    && (forall x :: x in s0.refs && x !in s.refs ==> Belongs(s0, d, x))
    && (forall t :: t in s.owner ==> t in s0.owner && s.owner[t] == s0.owner[t])
    && (forall p :: p in s.free <==> p in s0.free || (Referenced(s0, p) && !Referenced(s, p)))
    && (forall e: nat, i: nat, k: nat :: e != d && UserAt(s0, e, i, k) ==> Lookup(s, e, i, k) == Lookup(s0, e, i, k))
  }

  /** The reference in slot x is dropped. */
  ghost predicate Drops(s: State, t: State, d: nat, x: Slot) {
    && x in s.refs && Inv(t) && |t.mem| == |s.mem| && t.refs == s.refs - {x}
    && (forall u :: u in t.owner ==> u in s.owner && t.owner[u] == s.owner[u])
    && (forall p :: p in t.free <==> p in s.free || (p == s.refs[x] && |Of(s.refs, p)| == 1))
    && (forall e: nat, i: nat, k: nat :: e != d && UserAt(s, e, i, k) ==> Lookup(t, e, i, k) == Lookup(s, e, i, k))
  }

  lemma LastReference(s: State, t: State, x: Slot, p: nat)
    requires x in s.refs && t.refs == s.refs - {x}
    ensures Referenced(s, p) && !Referenced(t, p) <==> p == s.refs[x] && |Of(s.refs, p)| == 1
  {
    OfDropped(s.refs, x, p);
    OfNone(t.refs, p);
    OfNone(s.refs, p);
    hide Of;
  }

  lemma FreeingStep(s0: State, s: State, t: State, d: nat, x: Slot)
    requires Inv(s0) && Freeing(s0, s, d) && Drops(s, t, d, x) && Belongs(s0, d, x)
    ensures Freeing(s0, t, d)
  {
    hide Inv, Of, Lookup, Belongs;
    forall p ensures p in t.free <==> p in s0.free || (Referenced(s0, p) && !Referenced(t, p)) {
      LastReference(s, t, x, p);
      FreeingOne(s0, s, t, x, p);
    }
    forall e: nat, i: nat, k: nat | e != d && UserAt(s0, e, i, k) ensures Lookup(t, e, i, k) == Lookup(s0, e, i, k) {
      UserKept(s0, s, d, e, i, k);
    }
  }

  lemma FreeingOne(s0: State, s: State, t: State, x: Slot, p: nat)
    requires t.refs == s.refs - {x} && forall y :: y in s.refs ==> y in s0.refs && s.refs[y] == s0.refs[y]
    ensures Referenced(s, p) ==> Referenced(s0, p)
    ensures Referenced(t, p) ==> Referenced(s, p)
  {
  }

  lemma UserKept(s0: State, s: State, d: nat, e: nat, i: nat, k: nat)
    requires Freeing(s0, s, d) && e != d && UserAt(s0, e, i, k)
    ensures UserAt(s, e, i, k)
  {
    hide Lookup, Counted, FreeUnused, Tables, Entries;
    assert !Belongs(s0, d, Dir(e));
    assert Dir(e) in s.refs;
  }

  lemma FreeingStart(s: State, d: nat)
    requires Inv(s)
    ensures Freeing(s, s, d)
  {
    hide Inv;
  }

  lemma EntryDrops(s: State, d: nat, i: nat, j: nat)
    requires Inv(s) && UserAt(s, d, i, j) && s.mem[d][i].Present? && s.mem[d][i].page < |s.mem|
    requires j < |s.mem[s.mem[d][i].page]| && s.mem[s.mem[d][i].page][j].Present?
    ensures s.mem[s.mem[d][i].page][j].page < |s.ref| && s.mem[d][i].page in s.owner
    ensures s.owner[s.mem[d][i].page] == Pde(d, i)
    ensures Drops(s, EntryDropped(s, s.mem[d][i].page, j), d, Pte(s.mem[d][i].page, j))
  {
    hide Of, Lookup, Counted, FreeUnused;
    assert PdeOk(s, d, i);
    var t := s.mem[d][i].page;
    assert Pte(t, j) in s.refs;
    hide Tables, Entries;
    EntryDroppedOk(s, t, j);
    var r := EntryDropped(s, t, j);
    forall e: nat, i1: nat, k: nat | e != d && UserAt(s, e, i1, k) ensures Lookup(r, e, i1, k) == Lookup(s, e, i1, k) {
      EntrySetLookup(s, t, j, Absent, e, i1, k);
      LookupMem(r, EntrySet(s, t, j, Absent), e, i1, k);
    }
  }

  /** The emptied page table goes, with the reference that its directory entry held. */
  function TableFreed(s: State, d: nat, i: nat): State
    requires d < |s.mem| && i < |s.mem[d]| && s.mem[d][i].Present? && s.mem[d][i].page < |s.ref|
  {
    Decrefed(TableDropped(s, d, i), s.mem[d][i].page)
  }

  lemma TableDrops(s: State, d: nat, i: nat)
    requires Inv(s) && Pde(d, i) in s.refs && PdeOk(s, d, i) && s.mem[d][i].page < |s.ref| && Blank(s, s.mem[d][i].page)
    ensures Drops(s, TableFreed(s, d, i), d, Pde(d, i))
  {
    hide Of, Lookup, Tables, Entries;
    var r := TableFreed(s, d, i);
    CountedDrop(s, r, Pde(d, i));
    TableDroppedOk(s, d, i);
    hide Counted, FreeUnused, Kept;
    MappedFree(TableDropped(s, d, i), r);
    forall e: nat, i1: nat, k: nat | e != d && UserAt(s, e, i1, k) ensures Lookup(r, e, i1, k) == Lookup(s, e, i1, k) {
      TableDroppedLookup(s, d, i, e, i1, k);
      LookupMem(r, TableDropped(s, d, i), e, i1, k);
    }
  }

  function DirFreed(s: State, d: nat): State
    requires d < |s.ref|
  {
    Decrefed(s.(refs := s.refs - {Dir(d)}), d)
  }

  lemma DirDrops(s: State, d: nat)
    requires Inv(s) && Dir(d) in s.refs && NoUser(s, d) && d < |s.ref|
    ensures Drops(s, DirFreed(s, d), d, Dir(d))
  {
    hide Of, Tables, Entries;
    var r := DirFreed(s, d);
    CountedDrop(s, r, Dir(d));
    DirDroppedOk(s, d);
    MappedFree(s.(refs := s.refs - {Dir(d)}), r);
    forall e: nat, i1: nat, k: nat | e != d && UserAt(s, e, i1, k) ensures Lookup(r, e, i1, k) == Lookup(s, e, i1, k) {
      LookupMem(r, s, e, i1, k);
    }
  }

  /** After env_free: exactly the references of d are gone, and the pages that only d
      referred to are the ones newly free. */
  ghost predicate EnvFreed(s0: State, s: State, d: nat) {
    && Inv(s)
    && (forall x :: x in s.refs <==> x in s0.refs && !Belongs(s0, d, x))
    && (forall x :: x in s.refs ==> s.refs[x] == s0.refs[x])
    && (forall p :: p in s.free <==>
          p in s0.free || (Referenced(s0, p) && forall x :: x in s0.refs && s0.refs[x] == p ==> Belongs(s0, d, x)))
    && (forall e: nat, i: nat, k: nat :: e != d && UserAt(s0, e, i, k) ==> Lookup(s, e, i, k) == Lookup(s0, e, i, k))
  }

  lemma FreeingDone(s0: State, s: State, d: nat)
    requires Inv(s0) && Freeing(s0, s, d) && Dir(d) !in s.refs
    ensures EnvFreed(s0, s, d)
  {
    hide Lookup, Of, Counted, FreeUnused;
    forall x | x in s.refs ensures !Belongs(s0, d, x) {
      NotBelongs(s0, s, d, x);
    }
    hide Inv, Belongs;
  }

  lemma NotBelongs(s0: State, s: State, d: nat, x: Slot)
    requires Freeing(s0, s, d) && Dir(d) !in s.refs && x in s.refs
    ensures !Belongs(s0, d, x)
  {
    hide Lookup, Of, Counted, FreeUnused;
    match x
    case Pde(e, i) => assert PdeOk(s, e, i);
    case Pte(t, j) =>
      assert t in s.owner && OwnerOk(s, t);
      assert PdeOk(s, s.owner[t].d, s.owner[t].i);
    case _ =>
  }
}
