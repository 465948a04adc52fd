/** The operations of kern/vmm on the page tables of processes 1 and up. */
module Vmm {
  import opened Bytes
  import Quota
  import opened PageAlloc
  import opened PageTable

  const MAGIC: nat := 1048577
  const VM_USERLO: nat := 0x4000_0000
  const VM_USERHI: nat := 0xF000_0000

  predicate UserAddress(va: nat) { VM_USERLO <= va < VM_USERHI }

  function Pde(va: nat): (d: nat) { va / 0x40_0000 }
  function Pte(va: nat): (i: nat) { va / PAGESIZE % ENTRIES }

  lemma UserPage(p: nat, va: nat)
    requires UserAddress(va) && 1 <= p < NUM_IDS
    ensures User(p, Pde(va), Pte(va)) && User(p, Pde(va), 0)
  {
  }

  /** The pages that mapping one more user page takes. */
  function Needed(pdir: seq<seq<word>>, p: nat, d: nat): (n: nat) {
    if p < |pdir| && d < |pdir[p]| && pdir[p][d] == 0 then 2 else 1
  }

  class Mm {
    const pmm: Pmm
    var pdir: seq<seq<word>>
    var mem: seq<Page>
    ghost var role: map<nat, Role>

    ghost predicate Valid()
      reads this, pmm
    {
      pmm.Valid() && VmInv(pdir, mem, role, pmm.own)
    }

    /** pdir_init: user entries of every page directory are absent. */
    constructor (pmm: Pmm, pdir: seq<seq<word>>, mem: seq<Page>)
      requires pmm.Valid() && pmm.own == map[] && Shape(pdir, mem)
      requires forall p, d :: 1 <= p < NUM_IDS && PDELO <= d < PDEHI ==> pdir[p][d] == 0
      ensures Valid() && this.pmm == pmm && this.pdir == pdir && this.mem == mem
    {
      this.pmm, this.pdir, this.mem, this.role := pmm, pdir, mem, map[];
    }

    /** container_alloc, with the new page on the books as not yet in use. */
    method TakePage(p: nat) returns (g: nat)
      requires Valid() && p < NUM_IDS && pmm.cont[p].used
      modifies this`role, pmm
      ensures Valid() && pmm.perm == old(pmm.perm)
      ensures g == 0 <==> old(pmm.cont)[p].usage == old(pmm.cont)[p].quota
      ensures g == 0 ==> pmm.cont == old(pmm.cont) && role == old(role)
      ensures g != 0 ==>
                && 0 < g < Quota.NPAGES && g !in old(role) && role == old(role)[g := Spare(p)]
                && pmm.cont == old(pmm.cont)[p := old(pmm.cont)[p].(usage := old(pmm.cont)[p].usage + 1)]
    {
      hide VmInv, Quota.QuotaInv, TableOk;
      SameKeys(pdir, mem, role, pmm.own);
      g := pmm.ContainerAlloc(p);
      if g != 0 {
        SpareAdded(pdir, mem, role, old(pmm.own), g, p);
        role := role[g := Spare(p)];
      }
    }

    /** The clearing loop of alloc_ptbl. */
    method ClearTable(g: nat)
      requires g < |mem| && |mem[g]| == PAGESIZE
      modifies this`mem
      ensures |mem| == |old(mem)| && mem == old(mem)[g := mem[g]] && |mem[g]| == PAGESIZE
      ensures forall i :: 0 <= i < ENTRIES ==> GetU32(mem[g], 4 * i) == 0
    {
      hide GetU32, PutU32;
      var i := 0;
      while i < ENTRIES
        invariant 0 <= i <= ENTRIES && |mem| == |old(mem)| && mem == old(mem)[g := mem[g]] && |mem[g]| == PAGESIZE
        invariant forall k :: 0 <= k < i ==> GetU32(mem[g], 4 * k) == 0
      {
        forall k | 0 <= k < ENTRIES ensures GetU32(PutU32(mem[g], 4 * i, 0),
                                                   4 * k) == if k == i then 0 else GetU32(mem[g], 4 * k) {
          EntryStored(mem[g], i, 0, k);
        }
        mem := mem[g := PutU32(mem[g], 4 * i, 0)];
        i := i + 1;
      }
    }

    /** alloc_ptbl: an empty page table for the directory entry of `va`, or 0 if the quota is used up. */
    method AllocPtbl(p: nat, va: nat) returns (g: nat)
      requires Valid() && 1 <= p < NUM_IDS && pmm.cont[p].used && UserAddress(va) && pdir[p][Pde(va)] == 0
      modifies this`pdir, this`mem, this`role, pmm
      ensures Valid() && pmm.perm == old(pmm.perm) && SameEntries(old(pdir), old(mem), pdir, mem)
      ensures DataKept(old(mem), mem, old(role))
      ensures g == 0 <==> old(pmm.cont)[p].usage == old(pmm.cont)[p].quota
      ensures g == 0 ==> pmm.cont == old(pmm.cont) && role == old(role) && pdir == old(pdir) && mem == old(mem)
      ensures g != 0 ==>
                && g !in old(role) && role == old(role)[g := Table(p, Pde(va))] && g * PAGESIZE + PTE_PTU < TWO32
                && pdir == WithDir(old(pdir), p, Pde(va), g * PAGESIZE + PTE_PTU)
                && pmm.cont == old(pmm.cont)[p := old(pmm.cont)[p].(usage := old(pmm.cont)[p].usage + 1)]
    {
      hide VmInv, SameEntries, GetU32, Pmm.Valid;
      UserPage(p, va);
      VmShape(pdir, mem, role, pmm.own);
      SameNow(pdir, mem);
      g := TakePage(p);
      if g != 0 {
        var d := Pde(va);
        var row: seq<word> := pdir[p][d := g * PAGESIZE + PTE_PTU];
        pdir := pdir[p := row];
        ClearTable(g);
        TableAdded(old(pdir), old(mem), role, pmm.own, p, d, g, mem[g]);
        role := role[g := Table(p, d)];
      }
    }

    /** map_page for a page that `p` has just been given. */
    method MapPage(p: nat, va: nat, g: nat, perm: nat) returns (r: nat)
      requires Valid() && 1 <= p < NUM_IDS && pmm.cont[p].used && UserAddress(va)
      requires g in role && role[g] == Spare(p) && perm < PAGESIZE
      modifies this`pdir, this`mem, this`role, pmm
      ensures Valid() && pmm.perm == old(pmm.perm) && DataKept(old(mem), mem, old(role)) && Shape(pdir, mem)
      ensures r == MAGIC <==> old(pdir)[p][Pde(va)] == 0 && old(pmm.cont)[p].usage == old(pmm.cont)[p].quota
      ensures r == MAGIC ==> pmm.cont == old(pmm.cont) && role == old(role) && pdir == old(pdir) && mem == old(mem)
      ensures r != MAGIC ==>
                && g * PAGESIZE + perm < TWO32
                && OneChanged(old(pdir), old(mem), pdir, mem, p, Pde(va), Pte(va), g * PAGESIZE + perm)
                && pdir[p][Pde(va)] != 0 && r == pdir[p][Pde(va)] / PAGESIZE
                && (forall d :: 0 <= d < ENTRIES && pdir[p][d] == 0 ==> old(pdir)[p][d] == 0)
                && (forall d :: 0 <= d < ENTRIES && d != Pde(va) ==> pdir[p][d] == old(pdir)[p][d])
                && (forall x :: x in old(role) ==> x in role)
                && g in role && role[g] == Data(p, Pde(va), Pte(va))
                && pmm.cont == old(pmm.cont)[p := old(pmm.cont)[p].(usage :=
                     old(pmm.cont)[p].usage + Needed(old(pdir), p, Pde(va)) - 1)]
    {
      hide VmInv, SameEntries, OneChanged, WithEntry, Remapped, Entry, GetU32, PutU32, Pmm.Valid;
      UserPage(p, va);
      VmShape(pdir, mem, role, pmm.own);
      SameNow(pdir, mem);
      pmm.Bounds(p);
      var e := pdir[p][Pde(va)];
      r := e / PAGESIZE;
      if e == 0 {
        r := AllocPtbl(p, va);
        if r == 0 {
          return MAGIC;
        }
      }
      StoreMapping(p, va, g, perm, old(pdir), old(mem), old(role));
      VmShape(pdir, mem, role, pmm.own);
      assert e != 0 ==> pmm.cont == old(pmm.cont)[p := old(pmm.cont)[p]];
    }

    /** set_ptbl_entry_by_va. */
    method StoreMapping(p: nat, va: nat, g: nat, perm: nat, ghost pdir0: seq<seq<word>>, ghost mem0: seq<Page>,
                        ghost role0: map<nat, Role>)
      requires Valid() && 1 <= p < NUM_IDS && UserAddress(va) && pdir[p][Pde(va)] != 0
      requires g in role && role[g] == Spare(p) && perm < PAGESIZE
      requires SameEntries(pdir0, mem0, pdir, mem) && DataKept(mem0, mem, role0)
      requires forall x :: x in role0 ==> x in role && (!role0[x].Table? ==> role[x] == role0[x])
      modifies this`mem, this`role
      ensures Valid() && DataKept(mem0, mem, role0) && g * PAGESIZE + perm < TWO32
      ensures OneChanged(pdir0, mem0, pdir, mem, p, Pde(va), Pte(va), g * PAGESIZE + perm)
      ensures role.Keys == old(role).Keys && role[g] == Data(p, Pde(va), Pte(va))
      ensures pdir[p][Pde(va)] / PAGESIZE < Quota.NPAGES
    {
      hide VmInv, SameEntries, OneChanged, WithEntry, Remapped, Entry, PutU32, Pmm.Valid;
      UserPage(p, va);
      VmShape(pdir, mem, role, pmm.own);
      var d, i := Pde(va), Pte(va);
      Mapped(pdir, mem, role, pmm.own, p, d, i, g, perm);
      StoredData(pdir, mem, role, pmm.own, p, d, i, g * PAGESIZE + perm);
      RemappedKept(pdir, mem, role, pmm.own, p, d, i);
      ChangedAfterSame(pdir0, mem0, pdir, mem, WithEntry(pdir, mem, p, d, i, g * PAGESIZE + perm), p, d, i,
                       g * PAGESIZE + perm);
      WithEntryIs(pdir, mem, p, d, i, g * PAGESIZE + perm);
      ghost var role' := Remapped(pdir, mem, role, p, d, i)[g := Data(p, d, i)];
      var t := pdir[p][d] / PAGESIZE;
      mem := mem[t := PutU32(mem[t], 4 * i, g * PAGESIZE + perm)];
      role := role';
    }

    /**
      alloc_page: a fresh page is mapped at `va`.  It fails exactly when the quota
      does not cover the page and, if it is missing, the page table.
     */
    method AllocPage(p: nat, va: nat, perm: nat) returns (r: nat)
      requires Valid() && 1 <= p < NUM_IDS && pmm.cont[p].used && UserAddress(va) && perm < PAGESIZE
      modifies this`pdir, this`mem, this`role, pmm
      ensures Valid() && pmm.perm == old(pmm.perm) && |pmm.cont| == NUM_IDS && pmm.cont[p].used && Shape(pdir, mem)
      ensures DataKept(old(mem), mem, old(role))
      ensures r == MAGIC <==> old(pmm.cont)[p].usage + Needed(old(pdir), p, Pde(va)) > old(pmm.cont)[p].quota
      ensures r == 1048577 <==>
                old(pmm.cont)[p].usage + (if old(pdir)[p][va / 0x40_0000] == 0 then 2 else 1) > old(pmm.cont)[p].quota
      ensures r != 1048577 ==>
                var e := Entry(pdir, mem, p, va / 0x40_0000, va / 0x1000 % 0x400);
                && e % 0x1000 == perm && e / 0x1000 !in old(pmm.own)
                && e / 0x1000 in pmm.own && pmm.own[e / 0x1000] == p
      ensures pmm.cont[p].quota == old(pmm.cont)[p].quota
      ensures r == MAGIC ==>
                && SameEntries(old(pdir), old(mem), pdir, mem) && pdir == old(pdir)
                && pmm.cont[p].usage == pmm.cont[p].quota >= old(pmm.cont)[p].usage
      ensures r != MAGIC ==>
                && pmm.cont == old(pmm.cont)[p := old(pmm.cont)[p].(usage :=
                     old(pmm.cont)[p].usage + Needed(old(pdir), p, Pde(va)))]
                && (forall d :: 0 <= d < ENTRIES && pdir[p][d] == 0 ==> d != Pde(va) && old(pdir)[p][d] == 0)
                && (forall d :: 0 <= d < ENTRIES && d != Pde(va) ==> pdir[p][d] == old(pdir)[p][d])
                && NewPage(old(pdir), old(mem), old(role), pdir, mem, role, p, Pde(va), Pte(va), perm)
    {
      hide VmInv, SameEntries, OneChanged, Entry, DataKept, Pmm.Valid, NewPage;
      UserPage(p, va);
      VmShape(pdir, mem, role, pmm.own);
      pmm.Bounds(p);
      SameNow(pdir, mem);
      SameKeys(pdir, mem, role, pmm.own);
      KeptNow(mem, role);
      var g := TakePage(p);
      if g == 0 {
        return MAGIC;
      }
      ghost var role1 := role;
      r := MapPage(p, va, g, perm);
      KeptLess(old(mem), mem, old(role), role1);
      if r != MAGIC {
        NewPageIs(old(pdir), old(mem), old(role), pdir, mem, role, p, Pde(va), Pte(va), g, perm);
        SameKeys(pdir, mem, role, pmm.own);
      }
      pmm.Bounds(p);
    }

    /** unmap_page returns the entry that was there and removes it. */
    method UnmapPage(p: nat, va: nat) returns (e: word)
      requires Valid() && 1 <= p < NUM_IDS && UserAddress(va)
      modifies this`mem, this`role
      ensures Valid() && e == Entry(pdir, old(mem), p, Pde(va), Pte(va))
      ensures OneChanged(pdir, old(mem), pdir, mem, p, Pde(va), Pte(va), 0)
      ensures DataKept(old(mem), mem, old(role)) && role.Keys == old(role).Keys
    {
      hide VmInv, OneChanged, WithEntry, Remapped, Entry, PutU32, Pmm.Valid;
      UserPage(p, va);
      VmShape(pdir, mem, role, pmm.own);
      KeptNow(mem, role);
      var d, i := Pde(va), Pte(va);
      e := Entry(pdir, mem, p, d, i);
      UnchangedZero(pdir, mem, role, pmm.own, p, d, i);
      if e != 0 {
        Unmapped(pdir, mem, role, pmm.own, p, d, i);
        StoredData(pdir, mem, role, pmm.own, p, d, i, 0);
        RemappedKept(pdir, mem, role, pmm.own, p, d, i);
        WithEntryIs(pdir, mem, p, d, i, 0);
        ghost var role' := Remapped(pdir, mem, role, p, d, i);
        var t := pdir[p][d] / PAGESIZE;
        mem := mem[t := PutU32(mem[t], 4 * i, 0)];
        role := role';
      }
    }

    /** free_ptbl. */
    method FreePtbl(p: nat, va: nat)
      requires Valid() && 1 <= p < NUM_IDS && UserAddress(va)
      modifies this`pdir, this`role, pmm
      ensures Valid() && pmm.perm == old(pmm.perm)
      ensures forall p': nat, d': nat, i': nat :: User(p', d', i') ==>
                Entry(pdir, mem, p', d', i') ==
                  if p' == p && d' == Pde(va) then 0 else Entry(old(pdir), mem, p', d', i')
      ensures old(pdir)[p][Pde(va)] != 0 ==>
                && pmm.own == old(pmm.own) - {old(pdir)[p][Pde(va)] / PAGESIZE}
                && pmm.cont[p].usage == old(pmm.cont)[p].usage - 1
      ensures old(pdir)[p][Pde(va)] == 0 ==> pmm.own == old(pmm.own) && pmm.cont == old(pmm.cont)
    {
      hide VmInv, Entry, Quota.QuotaInv;
      pmm.Bounds(p);
      UserPage(p, va);
      VmShape(pdir, mem, role, pmm.own);
      SameKeys(pdir, mem, role, pmm.own);
      var d := Pde(va);
      var g := pdir[p][d] / PAGESIZE;
      if pdir[p][d] != 0 {
        TableRemoved(pdir, mem, role, pmm.own, p, d);
        role := Dropped(role, p, d);
      } else {
        NoTable(pdir, mem, p, d);
        assert pdir[p][d := 0] == pdir[p];
        assert pdir[p := pdir[p]] == pdir;
        assert pmm.own - {0} == pmm.own;
      }
      var row: seq<word> := pdir[p][d := 0];
      pdir := pdir[p := row];
      pmm.ContainerFree(p, g);
    }
  }

  /**
    (p, d, i) is mapped to a page that nobody had before, with permission `perm`; nothing else is
    translated differently.
   */
  ghost predicate NewPage(pdir: seq<seq<word>>, mem: seq<Page>, role: map<nat, Role>,
                          pdir': seq<seq<word>>, mem': seq<Page>, role': map<nat, Role>, p: nat, d: nat, i: nat,
                          perm: nat) {
    var e := Entry(pdir', mem', p, d, i);
    && OneChanged(pdir, mem, pdir', mem', p, d, i, e)
    && e % PAGESIZE == perm && e / PAGESIZE !in role
    && e / PAGESIZE in role' && role'[e / PAGESIZE] == Data(p, d, i)
    && (forall x :: x in role ==> x in role')
  }

  lemma NewPageIs(pdir: seq<seq<word>>, mem: seq<Page>, role: map<nat, Role>,
                  pdir': seq<seq<word>>, mem': seq<Page>, role': map<nat, Role>, p: nat, d: nat, i: nat, g: nat,
                  perm: nat)
    requires User(p, d, i) && perm < PAGESIZE && g * PAGESIZE + perm < TWO32
    requires OneChanged(pdir, mem, pdir', mem', p, d, i, g * PAGESIZE + perm)
    requires g !in role && g in role' && role'[g] == Data(p, d, i) && forall x :: x in role ==> x in role'
    ensures NewPage(pdir, mem, role, pdir', mem', role', p, d, i, perm)
    ensures Entry(pdir', mem', p, d, i) == g * PAGESIZE + perm
  {
    hide Entry;
    var e := Entry(pdir', mem', p, d, i);
    assert e == g * PAGESIZE + perm && e / PAGESIZE == g && e % PAGESIZE == perm;
  }

  lemma KeptNow(mem: seq<Page>, role: map<nat, Role>)
    ensures DataKept(mem, mem, role)
  {
  }

  lemma KeptLess(mem: seq<Page>, mem': seq<Page>, role: map<nat, Role>, role1: map<nat, Role>)
    requires DataKept(mem, mem', role1) && forall x :: x in role ==> x in role1 && role1[x] == role[x]
    ensures DataKept(mem, mem', role)
  {
  }

  lemma UnchangedZero(pdir: seq<seq<word>>, mem: seq<Page>, role: map<nat, Role>, own: map<nat, nat>, p: nat, d: nat,
                      i: nat)
    requires VmInv(pdir, mem, role, own) && User(p, d, i)
    ensures Entry(pdir, mem, p, d, i) == 0 ==> OneChanged(pdir, mem, pdir, mem, p, d, i, 0)
    ensures Entry(pdir, mem, p, d, i) != 0 ==> pdir[p][d] != 0
  {
  }

  lemma NoTable(pdir: seq<seq<word>>, mem: seq<Page>, p: nat, d: nat)
    requires p < |pdir| && d < |pdir[p]| && pdir[p][d] == 0
    ensures forall i: nat :: Entry(pdir, mem, p, d, i) == 0
  {
  }

  lemma SameNow(pdir: seq<seq<word>>, mem: seq<Page>)
    ensures SameEntries(pdir, mem, pdir, mem)
  {
  }

  lemma ChangedAfterSame(pdir0: seq<seq<word>>, mem0: seq<Page>, pdir: seq<seq<word>>, mem: seq<Page>, mem': seq<Page>,
                         p: nat, d: nat, i: nat, e: word)
    requires SameEntries(pdir0, mem0, pdir, mem) && OneChanged(pdir, mem, pdir, mem', p, d, i, e)
    ensures OneChanged(pdir0, mem0, pdir, mem', p, d, i, e)
  {
    hide Entry;
  }

  lemma WithEntryIs(pdir: seq<seq<word>>, mem: seq<Page>, p: nat, d: nat, i: nat, e: word)
    requires Shape(pdir, mem) && p < NUM_IDS && d < ENTRIES && i < ENTRIES && pdir[p][d] / PAGESIZE < |mem|
    ensures var t := pdir[p][d] / PAGESIZE; WithEntry(pdir, mem, p, d, i, e) == mem[t := PutU32(mem[t], 4 * i, e)]
  {
  }

  lemma SameKeys(pdir: seq<seq<word>>, mem: seq<Page>, role: map<nat, Role>, own: map<nat, nat>)
    requires VmInv(pdir, mem, role, own)
    ensures role.Keys == own.Keys && forall g :: g in role ==> own[g] == role[g].p
  {
  }
}
