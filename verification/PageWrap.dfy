/** The 16-bit pp_ref does wrap: from page_init on, an environment that maps one page at 65536
    addresses, and then loses the page while it is still mapped. */
module PageWrap {
  import opened PageRefs
  import opened Pmap

  const MANY: nat := 65                   // page tables for 65537 addresses

  ghost predicate MapsFirst(s: State, d: nat, pp: nat, n: nat) {
    forall i: nat, j: nat :: i < UPDX && j < NENTRIES ==>
      if i * NENTRIES + j < n then IsPage(Lookup(s, d, i, j), pp) else Lookup(s, d, i, j).Absent?
  }

  /** Page pp is mapped at the first n user pages of d and nowhere else. */
  ghost predicate Times(s: State, d: nat, pp: nat, n: nat) {
    && Consistent(s) && Dir(d) in s.refs && d < |s.mem| && pp < |s.ref| && pp !in s.free
    && |Of(s.refs, pp)| == n && s.ref[pp] == n % REFMAX
    && |s.free| + (n + NENTRIES - 1) / NENTRIES >= MANY
    && (forall i: nat :: i < UPDX ==> (s.mem[d][i].Present? <==> i * NENTRIES < n))
    && MapsFirst(s, d, pp, n)
  }

  /** One more mapping, at an address that has none. */
  lemma OneMore(s: State, d: nat, i: nat, j: nat, pp: nat, perm: bv12)
    requires CanInsert(s, d, i, j, pp) && Lookup(s, d, i, j).Absent?
    ensures var t := Inserted(s, d, i, j, pp, perm);
      && |Of(t.refs, pp)| == |Of(s.refs, pp)| + 1 && t.refs.Keys >= s.refs.Keys
      && |t.free| == |s.free| - (if s.mem[d][i].Absent? then 1 else 0)
      && |t.ref| == |s.ref| && t.ref[pp] == (s.ref[pp] + 1) % REFMAX
      && |t.mem| == |s.mem| && |t.mem[d]| == |s.mem[d]|
      && forall k :: 0 <= k < |s.mem[d]| ==> t.mem[d][k].Present? == (s.mem[d][k].Present? || k == i)
  {
    hide Of, Counted, FreeUnused, Entries;
    WalkedReady(s, d, i, j, pp);
    WalkedSame(s, d, i, j);
    var w := Walked(s, d, i);
    var t := Home(w, d, i);
    EnteredMem(w, t, j, pp, perm);
    NoSuchPte(w, t, j);
    OfAdded(w.refs, Pte(t, j), pp, pp);
    hide Tables, Inv;
  }

  lemma NoSuchPte(s: State, t: nat, j: nat)
    requires Entries(s) && t < |s.mem| && j < |s.mem[t]| && s.mem[t][j].Absent?
    ensures Pte(t, j) !in s.refs
  {
  }

  lemma Again(s: State, d: nat, pp: nat, n: nat, i: nat, j: nat, perm: bv12)
    requires Times(s, d, pp, n) && n <= REFMAX && i == n / NENTRIES && j == n % NENTRIES
    ensures i < UPDX && CanInsert(s, d, i, j, pp) && Times(Inserted(s, d, i, j, pp, perm), d, pp, n + 1)
  {
    hide Of, Lookup, MapsFirst, Consistent;
    TimesCan(s, d, pp, n, i, j);
    OneMore(s, d, i, j, pp, perm);
    InsertedOk(s, d, i, j, pp, perm);
    AgainLookup(s, d, pp, n, perm);
    var t := Inserted(s, d, i, j, pp, perm);
    hide CanInsert, Inserted;
    forall k: nat | k < UPDX ensures t.mem[d][k].Present? <==> k * NENTRIES < n + 1 {
      TableAt(n, k);
    }
    TableCount(n);
  }

  lemma TableAt(n: nat, k: nat)
    ensures k * NENTRIES < n + 1 <==> k * NENTRIES < n || k == n / NENTRIES
  {
  }

  lemma AgainLookup(s: State, d: nat, pp: nat, n: nat, perm: bv12)
    requires Times(s, d, pp, n) && n <= REFMAX && CanInsert(s, d, n / NENTRIES, n % NENTRIES, pp)
    ensures MapsFirst(Inserted(s, d, n / NENTRIES, n % NENTRIES, pp, perm), d, pp, n + 1)
  {
    hide Of, Lookup;
    var t := Inserted(s, d, n / NENTRIES, n % NENTRIES, pp, perm);
    forall i: nat, j: nat | i < UPDX && j < NENTRIES
      ensures if i * NENTRIES + j < n + 1 then IsPage(Lookup(t, d, i, j), pp) else Lookup(t, d, i, j).Absent?
    {
      TimesUser(s, d, pp, n, i, j);
      hide CanInsert, Inserted;
      InsertedLookup(s, d, n / NENTRIES, n % NENTRIES, pp, perm, d, i, j);
      assert i * NENTRIES + j == n <==> i == n / NENTRIES && j == n % NENTRIES;
    }
  }

  lemma TimesCan(s: State, d: nat, pp: nat, n: nat, i: nat, j: nat)
    requires Times(s, d, pp, n) && n <= REFMAX && i == n / NENTRIES && j == n % NENTRIES
    ensures i < UPDX && CanInsert(s, d, i, j, pp) && Lookup(s, d, i, j).Absent?
    ensures s.mem[d][i].Absent? <==> j == 0
    ensures |s.mem[d]| == NENTRIES
  {
    hide Of, Lookup, Counted, FreeUnused, Tables, Entries;
    assert n == i * NENTRIES + j && (i * NENTRIES < n <==> j > 0);
  }

  lemma TimesUser(s: State, d: nat, pp: nat, n: nat, i: nat, j: nat)
    requires Times(s, d, pp, n) && i < UPDX && j < NENTRIES
    ensures UserAt(s, d, i, j)
  {
    hide Of, Lookup, Counted, FreeUnused, Tables, Entries;
  }

  lemma TableCount(n: nat)
    ensures (n + 1 + NENTRIES - 1) / NENTRIES == (n + NENTRIES - 1) / NENTRIES + if n % NENTRIES == 0 then 1 else 0
  {
  }

  /** page_insert of pp at the first address that does not have it. */
  method Share(k: Kernel, d: nat, pp: nat, n: nat)
    requires k.Listed() && Times(k.Now(), d, pp, n) && n <= REFMAX
    modifies k
    ensures k.Sound() && Times(k.Now(), d, pp, n + 1)
    ensures old(k.Valid()) ==> (k.Valid() <==> n < REFMAX - 1)
  {
    ghost var s := k.Now();
    var i, j := n / NENTRIES, n % NENTRIES;
    TimesCan(s, d, pp, n, i, j);
    Again(s, d, pp, n, i, j, PTE_W | PTE_U);
    hide Times, Consistent, Lookup, Of, Inv;
    var _ := k.PageInsert(d, pp, i, j, PTE_W | PTE_U);
  }

  /** page_init leaves enough free pages. */
  lemma {:induction false} Enough(free: seq<nat>, n: nat)
    requires n > 0 && forall p: nat :: 0 < p < n && p != MPENTRY ==> p in free
    ensures |free| >= n - if n > MPENTRY then 2 else 1
  {
    if n > 1 {
      if n - 1 == MPENTRY {
        Enough(free, n - 1);
      } else {
        var p: nat := n - 1;
        assert p in free;
        var k :| 0 <= k < |free| && free[k] == p;
        var rest := free[..k] + free[k + 1..];
        forall q: nat | 0 < q < p && q != MPENTRY ensures q in rest {
          assert q in free;
        }
        Enough(rest, p);
      }
    }
  }

  /** A new environment and a page that it does not map yet. */
  method NotYet(npages: nat, basemem: nat, extmem: nat, memory: seq<seq<Entry>>, kern: seq<Entry>)
    returns (k: Kernel, d: nat, pp: nat)
    requires |memory| == npages && |kern| == NENTRIES && forall p :: 0 <= p < npages ==> |memory[p]| == NENTRIES
    requires npages > MANY + 3 && basemem > MANY + 3
    ensures fresh(k) && k.Valid() && Times(k.Now(), d, pp, 0)
  {
    k := new Kernel(npages, basemem, extmem, memory, kern);
    Enough(k.free, MANY + 4);
    var dir := k.EnvSetupVm();
    d := dir.value;
    ghost var s := k.Now();
    var page := k.PageAlloc(false);
    pp := page.value;
    FreeIsUnused(s, pp);
    OfNone(s.refs, pp);
  }

  /** 65535 mappings of the page: the counts are still right. */
  method SharedOften(npages: nat, basemem: nat, extmem: nat, memory: seq<seq<Entry>>, kern: seq<Entry>)
    returns (k: Kernel, d: nat, pp: nat)
    requires |memory| == npages && |kern| == NENTRIES && forall p :: 0 <= p < npages ==> |memory[p]| == NENTRIES
    requires npages > MANY + 3 && basemem > MANY + 3
    ensures fresh(k) && k.Valid() && Times(k.Now(), d, pp, REFMAX - 1)
  {
    k, d, pp := NotYet(npages, basemem, extmem, memory, kern);
    hide Times, Inv, Threaded;
    for n := 0 to REFMAX - 1
      invariant fresh(k) && k.Valid() && Times(k.Now(), d, pp, n)
    {
      Share(k, d, pp, n);
    }
  }

  /** The next one makes the count 0. */
  method CountWraps(npages: nat, basemem: nat, extmem: nat, memory: seq<seq<Entry>>, kern: seq<Entry>)
    returns (k: Kernel, d: nat, pp: nat)
    requires |memory| == npages && |kern| == NENTRIES && forall p :: 0 <= p < npages ==> |memory[p]| == NENTRIES
    requires npages > MANY + 3 && basemem > MANY + 3
    ensures fresh(k) && k.Sound() && !k.Valid() && Times(k.Now(), d, pp, REFMAX)
  {
    k, d, pp := SharedOften(npages, basemem, extmem, memory, kern);
    hide Times, Inv, Threaded;
    Share(k, d, pp, REFMAX - 1);
  }

  /** One page_insert more makes it 1, and then a page_remove frees the page, although 65536
      addresses still map it. */
  method FreedWhileMapped(npages: nat, basemem: nat, extmem: nat, memory: seq<seq<Entry>>, kern: seq<Entry>)
    returns (k: Kernel, d: nat, pp: nat)
    requires |memory| == npages && |kern| == NENTRIES && forall p :: 0 <= p < npages ==> |memory[p]| == NENTRIES
    requires npages > MANY + 3 && basemem > MANY + 3
    ensures fresh(k) && k.Listed() && pp in k.free
    ensures forall i: nat, j: nat :: i < MANY - 1 && j < NENTRIES ==> IsPage(Lookup(k.Now(), d, i, j), pp)
  {
    k, d, pp := CountWraps(npages, basemem, extmem, memory, kern);
    hide Threaded;
    Share(k, d, pp, REFMAX);
    ghost var s := k.Now();
    TimesUser(s, d, pp, REFMAX + 1, MANY - 1, 0);
    assert IsPage(Lookup(s, d, MANY - 1, 0), pp);
    k.PageRemove(d, MANY - 1, 0);
    RemovedOne(s, d, pp, k.Now());
  }

  lemma RemovedOne(s: State, d: nat, pp: nat, t: State)
    requires Times(s, d, pp, REFMAX + 1) && CanDrop(s, d, MANY - 1, 0)
    requires t == EntryDropped(s, Home(s, d, MANY - 1), 0)
    ensures pp in t.free
    ensures forall i: nat, j: nat :: i < MANY - 1 && j < NENTRIES ==> IsPage(Lookup(t, d, i, j), pp)
  {
    hide Of, Lookup;
    var u := Home(s, d, MANY - 1);
    HomeIs(s, d, MANY - 1, 0);
    assert s.ref[pp] == 1;
    forall i: nat, j: nat | i < MANY - 1 && j < NENTRIES ensures IsPage(Lookup(t, d, i, j), pp) {
      EntrySetLookup(s, u, 0, Absent, d, i, j);
      LookupMem(t, EntrySet(s, u, 0, Absent), d, i, j);
    }
  }
}
