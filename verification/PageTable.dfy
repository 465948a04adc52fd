/**
  Two-level page tables as kern/vmm keeps them: static page directories, and page
  tables inside the physical pages that the allocator hands out.
 */
module PageTable {
  import opened Bytes
  import Quota

  const NUM_IDS: nat := Quota.NUM_IDS
  const PAGESIZE: nat := Quota.PAGESIZE
  const ENTRIES: nat := 1024
  const PDELO: nat := 256              // VM_USERLO / PDIRSIZE
  const PDEHI: nat := 960              // VM_USERHI / PDIRSIZE
  const PTE_P: nat := 1
  const PTE_W: nat := 2
  const PTE_U: nat := 4
  const PTE_PTU: nat := 7

  type Page = seq<byte>

  /** What an allocated page is used for. */
  datatype Role =
    | Table(p: nat, d: nat)            // page table of directory entry `d` of process `p`
    | Data(p: nat, d: nat, i: nat)     // mapped by entry `i` of that table
    | Spare(p: nat)                    // allocated by `p`, not mapped

  ghost predicate Shape(pdir: seq<seq<word>>, mem: seq<Page>) {
    && |pdir| == NUM_IDS && (forall p :: 0 <= p < NUM_IDS ==> |pdir[p]| == ENTRIES)
    && |mem| == Quota.NPAGES && (forall g :: 0 <= g < Quota.NPAGES ==> |mem[g]| == PAGESIZE)
  }

  predicate User(p: nat, d: nat, i: nat) {
    1 <= p < NUM_IDS && PDELO <= d < PDEHI && i < ENTRIES
  }

  /** get_ptbl_entry_by_va: the entry that translates user page (d, i) of process `p`, 0 if there is none. */
  function Entry(pdir: seq<seq<word>>, mem: seq<Page>, p: nat, d: nat, i: nat): (e: word) {
    if p < |pdir| && d < |pdir[p]| && pdir[p][d] != 0 && pdir[p][d] / PAGESIZE < |mem|
       && 4 * i + 4 <= |mem[pdir[p][d] / PAGESIZE]|
    then GetU32(mem[pdir[p][d] / PAGESIZE], 4 * i) else 0
  }

  ghost predicate DirOk(pdir: seq<seq<word>>, role: map<nat, Role>) {
    forall p: nat, d: nat :: User(p, d, 0) && p < |pdir| && d < |pdir[p]| && pdir[p][d] != 0 ==>
      var g := pdir[p][d] / PAGESIZE; pdir[p][d] == g * PAGESIZE + PTE_PTU && g in role && role[g] == Table(p, d)
  }

  ghost predicate EntriesOk(pdir: seq<seq<word>>, mem: seq<Page>, role: map<nat, Role>) {
    forall p: nat, d: nat, i: nat :: User(p, d, i) && Entry(pdir, mem, p, d, i) != 0 ==>
      var g := Entry(pdir, mem, p, d, i) / PAGESIZE; g in role && role[g] == Data(p, d, i)
  }

  ghost predicate RolesOk(pdir: seq<seq<word>>, mem: seq<Page>, role: map<nat, Role>) {
    forall g :: g in role ==>
      match role[g]
      case Table(p, d) => User(p, d, 0) && p < |pdir| && d < |pdir[p]| && pdir[p][d] == g * PAGESIZE + PTE_PTU
      case Data(p, d, i) => User(p, d, i) && Entry(pdir, mem, p, d, i) / PAGESIZE == g
      case Spare(p) => true
  }

  /** Roles refine the allocator's accounts: one role for each allocated page, in the hands of its owner. */
  ghost predicate Accounts(role: map<nat, Role>, own: map<nat, nat>) {
    role.Keys == own.Keys && forall g :: g in role ==> role[g].p == own[g] && 0 < g < Quota.NPAGES
  }

  ghost predicate VmInv(pdir: seq<seq<word>>, mem: seq<Page>, role: map<nat, Role>, own: map<nat, nat>) {
    && Shape(pdir, mem) && DirOk(pdir, role) && EntriesOk(pdir, mem, role)
    && RolesOk(pdir, mem, role) && Accounts(role, own)
  }

  /** No physical page serves two mappings. */
  lemma SingleMapping(pdir: seq<seq<word>>, mem: seq<Page>, role: map<nat, Role>, own: map<nat, nat>,
                      p: nat, d: nat, i: nat, p': nat, d': nat, i': nat)
    requires VmInv(pdir, mem, role, own) && User(p, d, i) && User(p', d', i')
    requires Entry(pdir, mem, p, d, i) != 0 && Entry(pdir, mem, p', d', i') != 0
    requires Entry(pdir, mem, p, d, i) / PAGESIZE == Entry(pdir, mem, p', d', i') / PAGESIZE
    ensures p == p' && d == d' && i == i'
  {
    assert role[Entry(pdir, mem, p, d, i) / PAGESIZE] == Data(p, d, i);
  }

  /** No page is both a page table and mapped. */
  lemma TablesNotMapped(pdir: seq<seq<word>>, mem: seq<Page>, role: map<nat, Role>, own: map<nat, nat>,
                        p: nat, d: nat, p': nat, d': nat, i': nat)
    requires VmInv(pdir, mem, role, own) && User(p, d, 0) && User(p', d', i')
    requires pdir[p][d] != 0 && Entry(pdir, mem, p', d', i') != 0
    ensures pdir[p][d] / PAGESIZE != Entry(pdir, mem, p', d', i') / PAGESIZE
  {
    assert role[pdir[p][d] / PAGESIZE] == Table(p, d);
  }

  /** A page that is no page table may be overwritten, also one that nobody has. */
  lemma DataWritten(pdir: seq<seq<word>>, mem: seq<Page>, role: map<nat, Role>, own: map<nat, nat>, g: nat, x: Page)
    requires VmInv(pdir, mem, role, own) && g < |mem| && (g in role ==> !role[g].Table?) && |x| == PAGESIZE
    ensures VmInv(pdir, mem[g := x], role, own)
    ensures forall p: nat, d: nat, i: nat :: User(p, d, i) ==>
              Entry(pdir, mem[g := x], p, d, i) == Entry(pdir, mem, p, d, i)
  {
    hide VmInv, Entry;
    VmShape(pdir, mem, role, own);
    forall p: nat, d: nat, i: nat | User(p, d, i)
      ensures Entry(pdir, mem[g := x], p, d, i) == Entry(pdir, mem, p, d, i) {
      NoTableWritten(pdir, mem, role, own, g, x, p, d, i);
    }
    SameTranslation(pdir, mem, mem[g := x], role, own);
  }

  lemma VmShape(pdir: seq<seq<word>>, mem: seq<Page>, role: map<nat, Role>, own: map<nat, nat>)
    requires VmInv(pdir, mem, role, own)
    ensures Shape(pdir, mem) && (forall g :: g in role ==> 0 < g < Quota.NPAGES)
  {
  }

  lemma NoTableWritten(pdir: seq<seq<word>>, mem: seq<Page>, role: map<nat, Role>, own: map<nat, nat>, g: nat, x: Page,
                       p: nat, d: nat, i: nat)
    requires VmInv(pdir, mem, role, own) && g < |mem| && (g in role ==> !role[g].Table?) && |x| == PAGESIZE
    requires User(p, d, i)
    ensures Entry(pdir, mem[g := x], p, d, i) == Entry(pdir, mem, p, d, i)
  {
    assert User(p, d, 0);
    hide EntriesOk, RolesOk;
  }

  /** The roles depend on the entries only. */
  lemma SameTranslation(pdir: seq<seq<word>>, mem: seq<Page>, mem': seq<Page>, role: map<nat, Role>, own: map<nat, nat>)
    requires VmInv(pdir, mem, role, own) && |mem'| == |mem| && forall g :: 0 <= g < |mem'| ==> |mem'[g]| == PAGESIZE
    requires forall p: nat, d: nat, i: nat :: User(p, d, i) ==> Entry(pdir, mem', p, d, i) == Entry(pdir, mem, p, d, i)
    ensures VmInv(pdir, mem', role, own)
  {
    hide Entry;
  }

  lemma EntryStored(t: Page, i: nat, e: word, k: nat)
    requires |t| == PAGESIZE && i < ENTRIES && k < ENTRIES
    ensures GetU32(PutU32(t, 4 * i, e), 4 * k) == if k == i then e else GetU32(t, 4 * k)
  {
    if k != i {
      WordsFrame(t, PutU32(t, 4 * i, e), 4 * k, 1);
      assert GetWords(t, 4 * k, 1)[0] == GetWords(PutU32(t, 4 * i, e), 4 * k, 1)[0];
    }
  }

  /** set_ptbl_entry and rmv_ptbl_entry. */
  ghost function WithEntry(pdir: seq<seq<word>>, mem: seq<Page>, p: nat, d: nat, i: nat, e: word): (r: seq<Page>)
    requires Shape(pdir, mem) && p < NUM_IDS && d < ENTRIES && i < ENTRIES && pdir[p][d] / PAGESIZE < |mem|
  {
    var g := pdir[p][d] / PAGESIZE;
    mem[g := PutU32(mem[g], 4 * i, e)]
  }

  /** Storing one entry changes one translation. */
  lemma StoredEntry(pdir: seq<seq<word>>, mem: seq<Page>, role: map<nat, Role>, p: nat, d: nat, i: nat, e: word,
                    p': nat, d': nat, i': nat)
    requires Shape(pdir, mem) && DirOk(pdir, role) && User(p, d, i) && User(p', d', i')
    requires pdir[p][d] != 0 && pdir[p][d] / PAGESIZE < |mem|
    ensures Entry(pdir, WithEntry(pdir, mem, p, d, i, e), p', d', i') ==
              if p' == p && d' == d && i' == i then e else Entry(pdir, mem, p', d', i')
  {
    assert User(p, d, 0) && User(p', d', 0);
    if p' == p && d' == d {
      EntryStored(mem[pdir[p][d] / PAGESIZE], i, e, i');
    }
  }

  /** A fresh page is mapped at (p, d, i); a page that was mapped there stays allocated. */
  ghost function Remapped(pdir: seq<seq<word>>, mem: seq<Page>, role: map<nat, Role>, p: nat, d: nat,
                          i: nat): (r: map<nat, Role>) {
    var e := Entry(pdir, mem, p, d, i);
    if e == 0 then role else role[e / PAGESIZE := Spare(p)]
  }

  /** The translation of (p, d, i) has become `e`, and no other has changed. */
  ghost predicate OneChanged(pdir: seq<seq<word>>, mem: seq<Page>, pdir': seq<seq<word>>, mem': seq<Page>, p: nat,
                             d: nat, i: nat, e: word) {
    forall p': nat, d': nat, i': nat :: User(p', d', i') ==>
      Entry(pdir', mem', p', d', i') == if p' == p && d' == d && i' == i then e else Entry(pdir, mem, p', d', i')
  }

  lemma StoredOne(pdir: seq<seq<word>>, mem: seq<Page>, role: map<nat, Role>, own: map<nat, nat>, p: nat, d: nat,
                  i: nat, e: word)
    requires VmInv(pdir, mem, role, own) && User(p, d, i) && pdir[p][d] != 0
    ensures pdir[p][d] / PAGESIZE < |mem| && role[pdir[p][d] / PAGESIZE] == Table(p, d)
    ensures Shape(pdir, WithEntry(pdir, mem, p, d, i, e))
    ensures OneChanged(pdir, mem, pdir, WithEntry(pdir, mem, p, d, i, e), p, d, i, e)
    ensures forall g :: 0 <= g < |mem| && g != pdir[p][d] / PAGESIZE ==> WithEntry(pdir, mem, p, d, i, e)[g] == mem[g]
  {
    hide EntriesOk, RolesOk, Entry;
    assert User(p, d, 0) && role[pdir[p][d] / PAGESIZE] == Table(p, d);
    forall p': nat, d': nat, i': nat | User(p', d', i')
      ensures Entry(pdir, WithEntry(pdir, mem, p, d, i, e), p', d', i') ==
                if p' == p && d' == d && i' == i then e else Entry(pdir, mem, p', d', i')
    {
      StoredEntry(pdir, mem, role, p, d, i, e, p', d', i');
    }
  }

  lemma MappedEntries(pdir: seq<seq<word>>, mem: seq<Page>, mem': seq<Page>, role: map<nat, Role>, p: nat, d: nat,
                      i: nat, g: nat, e: word)
    requires EntriesOk(pdir, mem, role) && RolesOk(pdir, mem, role) && User(p, d, i)
    requires OneChanged(pdir, mem, pdir, mem', p, d, i, e) && e / PAGESIZE == g && 0 !in role && g in role
    requires role[g] == Spare(p)
    ensures EntriesOk(pdir, mem', Remapped(pdir, mem, role, p, d, i)[g := Data(p, d, i)])
    ensures RolesOk(pdir, mem', Remapped(pdir, mem, role, p, d, i)[g := Data(p, d, i)])
  {
    hide Entry;
  }

  /** map_page with the page table in place: a fresh page is mapped at (p, d, i). */
  lemma Mapped(pdir: seq<seq<word>>, mem: seq<Page>, role: map<nat, Role>, own: map<nat, nat>, p: nat, d: nat, i: nat,
               g: nat, perm: nat)
    requires VmInv(pdir, mem, role, own) && User(p, d, i) && pdir[p][d] != 0
    requires g in role && role[g] == Spare(p) && perm < PAGESIZE && g * PAGESIZE + perm < TWO32
    ensures pdir[p][d] / PAGESIZE < |mem|
    ensures VmInv(pdir, WithEntry(pdir, mem, p, d, i, g * PAGESIZE + perm),
                  Remapped(pdir, mem, role, p, d, i)[g := Data(p, d, i)], own)
    ensures OneChanged(pdir, mem, pdir, WithEntry(pdir, mem, p, d, i, g * PAGESIZE + perm), p, d, i,
                       g * PAGESIZE + perm)
  {
    hide Entry, WithEntry, OneChanged, EntriesOk, RolesOk;
    var e: word := g * PAGESIZE + perm;
    assert e / PAGESIZE == g;
    StoredOne(pdir, mem, role, own, p, d, i, e);
    MappedEntries(pdir, mem, WithEntry(pdir, mem, p, d, i, e), role, p, d, i, g, e);
    RemappedKept(pdir, mem, role, own, p, d, i);
  }

  lemma RemappedKept(pdir: seq<seq<word>>, mem: seq<Page>, role: map<nat, Role>, own: map<nat, nat>, p: nat, d: nat,
                     i: nat)
    requires VmInv(pdir, mem, role, own) && User(p, d, i)
    ensures var r := Remapped(pdir, mem, role, p, d, i);
            && r.Keys == role.Keys && (forall g :: g in r && !role[g].Data? ==> r[g] == role[g])
            && (forall g :: g in r ==> r[g].p == role[g].p && (r[g].Table? ==> r[g] == role[g]))
  {
    var e := Entry(pdir, mem, p, d, i);
    if e != 0 {
      assert role[e / PAGESIZE] == Data(p, d, i);
    }
  }

  lemma UnmappedEntries(pdir: seq<seq<word>>, mem: seq<Page>, mem': seq<Page>, role: map<nat, Role>, p: nat, d: nat,
                        i: nat)
    requires EntriesOk(pdir, mem, role) && RolesOk(pdir, mem, role) && User(p, d, i)
    requires OneChanged(pdir, mem, pdir, mem', p, d, i, 0)
    ensures EntriesOk(pdir, mem', Remapped(pdir, mem, role, p, d, i))
    ensures RolesOk(pdir, mem', Remapped(pdir, mem, role, p, d, i))
  {
    hide Entry;
  }

  /** unmap_page: the page that was mapped stays allocated. */
  lemma Unmapped(pdir: seq<seq<word>>, mem: seq<Page>, role: map<nat, Role>, own: map<nat, nat>, p: nat, d: nat, i: nat)
    requires VmInv(pdir, mem, role, own) && User(p, d, i) && pdir[p][d] != 0
    ensures pdir[p][d] / PAGESIZE < |mem|
    ensures VmInv(pdir, WithEntry(pdir, mem, p, d, i, 0), Remapped(pdir, mem, role, p, d, i), own)
    ensures OneChanged(pdir, mem, pdir, WithEntry(pdir, mem, p, d, i, 0), p, d, i, 0)
  {
    hide Entry, WithEntry, OneChanged, EntriesOk, RolesOk;
    StoredOne(pdir, mem, role, own, p, d, i, 0);
    UnmappedEntries(pdir, mem, WithEntry(pdir, mem, p, d, i, 0), role, p, d, i);
    RemappedKept(pdir, mem, role, own, p, d, i);
  }

  /** alloc_ptbl: a fresh page becomes the empty page table of directory entry `d`. */
  lemma TableAdded(pdir: seq<seq<word>>, mem: seq<Page>, role: map<nat, Role>, own: map<nat, nat>, p: nat, d: nat,
                   g: nat, x: Page)
    requires VmInv(pdir, mem, role, own) && User(p, d, 0) && pdir[p][d] == 0
    requires g in role && role[g] == Spare(p) && |x| == PAGESIZE && g * PAGESIZE + PTE_PTU < TWO32
    requires forall i :: 0 <= i < ENTRIES ==> GetU32(x, 4 * i) == 0
    ensures var pdir' := WithDir(pdir, p, d, g * PAGESIZE + PTE_PTU);
            && VmInv(pdir', mem[g := x], role[g := Table(p, d)], own)
            && SameEntries(pdir, mem, pdir', mem[g := x])
  {
    hide Entry, EntriesOk, RolesOk;
    var e: word := g * PAGESIZE + PTE_PTU;
    assert e / PAGESIZE == g;
    var pdir', mem', role' := WithDir(pdir, p, d, e), mem[g := x], role[g := Table(p, d)];
    forall p': nat, d': nat, i': nat | User(p', d', i')
      ensures Entry(pdir', mem', p', d', i') == Entry(pdir, mem, p', d', i') {
      TableAddedEntry(pdir, mem, role, p, d, g, x, p', d', i');
    }
    TableAddedRoles(pdir, mem, pdir', mem', role, p, d, g);
  }

  lemma TableAddedEntry(pdir: seq<seq<word>>, mem: seq<Page>, role: map<nat, Role>, p: nat, d: nat, g: nat, x: Page,
                        p': nat, d': nat, i': nat)
    requires Shape(pdir, mem) && DirOk(pdir, role) && User(p, d, 0) && pdir[p][d] == 0 && User(p', d', i')
    requires g in role && g < |mem| && role[g] == Spare(p) && |x| == PAGESIZE && g * PAGESIZE + PTE_PTU < TWO32
    requires forall i :: 0 <= i < ENTRIES ==> GetU32(x, 4 * i) == 0
    ensures Entry(WithDir(pdir, p, d, g * PAGESIZE + PTE_PTU), mem[g := x], p', d', i') == Entry(pdir, mem, p', d', i')
  {
    var e: word := g * PAGESIZE + PTE_PTU;
    assert e / PAGESIZE == g;
    assert User(p', d', 0);
  }

  ghost function WithDir(pdir: seq<seq<word>>, p: nat, d: nat, e: word): (r: seq<seq<word>>)
    requires p < |pdir| && d < |pdir[p]|
  {
    var row: seq<word> := pdir[p][d := e];
    pdir[p := row]
  }

  ghost predicate SameEntries(pdir: seq<seq<word>>, mem: seq<Page>, pdir': seq<seq<word>>, mem': seq<Page>) {
    forall p: nat, d: nat, i: nat :: User(p, d, i) ==> Entry(pdir', mem', p, d, i) == Entry(pdir, mem, p, d, i)
  }

  lemma TableAddedRoles(pdir: seq<seq<word>>, mem: seq<Page>, pdir': seq<seq<word>>, mem': seq<Page>,
                        role: map<nat, Role>, p: nat, d: nat, g: nat)
    requires EntriesOk(pdir, mem, role) && RolesOk(pdir, mem, role) && SameEntries(pdir, mem, pdir', mem')
    requires User(p, d, 0) && p < |pdir| && d < |pdir[p]| && pdir[p][d] == 0
    requires g * PAGESIZE + PTE_PTU < TWO32 && pdir' == WithDir(pdir, p, d, g * PAGESIZE + PTE_PTU)
    requires g in role && role[g] == Spare(p)
    ensures EntriesOk(pdir', mem', role[g := Table(p, d)]) && RolesOk(pdir', mem', role[g := Table(p, d)])
  {
    hide Entry;
  }

  /** After free_ptbl the pages mapped through the table stay allocated. */
  ghost function Dropped(role: map<nat, Role>, p: nat, d: nat): (r: map<nat, Role>) {
    map g | g in role && role[g] != Table(p, d) ::
      if role[g].Data? && role[g].p == p && role[g].d == d then Spare(p) else role[g]
  }

  /** free_ptbl: the translations of one directory entry disappear, and no others. */
  lemma TableRemoved(pdir: seq<seq<word>>, mem: seq<Page>, role: map<nat, Role>, own: map<nat, nat>, p: nat, d: nat)
    requires VmInv(pdir, mem, role, own) && User(p, d, 0) && pdir[p][d] != 0
    ensures var g := pdir[p][d] / PAGESIZE;
            && g in own && own[g] == p
            && VmInv(WithDir(pdir, p, d, 0), mem, Dropped(role, p, d), own - {g})
    ensures forall p': nat, d': nat, i': nat :: User(p', d', i') ==>
              Entry(WithDir(pdir, p, d, 0), mem, p', d', i') == if p' == p && d' == d then 0
                                                                else Entry(pdir, mem, p', d', i')
  {
    hide Entry, EntriesOk, RolesOk, Dropped;
    var g := pdir[p][d] / PAGESIZE;
    assert role[g] == Table(p, d);
    assert Shape(WithDir(pdir, p, d, 0), mem);
    hide DirOk, Accounts, Shape;
    forall p': nat, d': nat, i': nat | User(p', d', i')
      ensures Entry(WithDir(pdir, p, d, 0), mem, p', d', i') == if p' == p && d' == d then 0
                                                                else Entry(pdir, mem, p', d', i')
    {
      DroppedEntry(pdir, mem, p, d, p', d', i');
    }
    DroppedRoles(pdir, mem, role, own, p, d);
  }

  lemma DroppedEntry(pdir: seq<seq<word>>, mem: seq<Page>, p: nat, d: nat, p': nat, d': nat, i': nat)
    requires p < |pdir| && d < |pdir[p]|
    ensures Entry(WithDir(pdir, p, d, 0), mem, p', d', i') == if p' == p && d' == d then 0
                                                              else Entry(pdir, mem, p', d', i')
  {
  }

  lemma DroppedRoles(pdir: seq<seq<word>>, mem: seq<Page>, role: map<nat, Role>, own: map<nat, nat>, p: nat, d: nat)
    requires VmInv(pdir, mem, role, own) && User(p, d, 0) && pdir[p][d] != 0
    requires forall p': nat, d': nat, i': nat :: User(p', d', i') ==>
               Entry(WithDir(pdir, p, d, 0), mem, p', d', i') == if p' == p && d' == d then 0
                                                                 else Entry(pdir, mem, p', d', i')
    ensures var pdir', role' := WithDir(pdir, p, d, 0), Dropped(role, p, d);
            && EntriesOk(pdir', mem, role') && RolesOk(pdir', mem, role') && DirOk(pdir', role')
            && Accounts(role', own - {pdir[p][d] / PAGESIZE})
  {
    hide Entry, DirOk, Accounts;
    DroppedDir(pdir, mem, role, own, p, d);
    DroppedOne(pdir, mem, role, own, p, d);
  }

  /** Only one page is the table of a directory entry. */
  lemma DroppedOne(pdir: seq<seq<word>>, mem: seq<Page>, role: map<nat, Role>, own: map<nat, nat>, p: nat, d: nat)
    requires VmInv(pdir, mem, role, own) && User(p, d, 0) && pdir[p][d] != 0
    ensures pdir[p][d] / PAGESIZE in role && role[pdir[p][d] / PAGESIZE] == Table(p, d)
    ensures forall x :: x in role && x != pdir[p][d] / PAGESIZE ==> role[x] != Table(p, d)
  {
    hide EntriesOk, Entry;
    var g := pdir[p][d] / PAGESIZE;
    assert role[g] == Table(p, d);
    forall x | x in role && role[x] == Table(p, d) ensures x == g {
      assert pdir[p][d] == x * PAGESIZE + PTE_PTU;
    }
  }

  lemma DroppedDir(pdir: seq<seq<word>>, mem: seq<Page>, role: map<nat, Role>, own: map<nat, nat>, p: nat, d: nat)
    requires VmInv(pdir, mem, role, own) && User(p, d, 0) && pdir[p][d] != 0
    ensures DirOk(WithDir(pdir, p, d, 0), Dropped(role, p, d))
    ensures Accounts(Dropped(role, p, d), own - {pdir[p][d] / PAGESIZE})
  {
    hide EntriesOk, RolesOk, Entry;
    DroppedOne(pdir, mem, role, own, p, d);
    assert Dropped(role, p, d).Keys == role.Keys - {pdir[p][d] / PAGESIZE};
  }

  /** container_alloc gives `p` one more page, not yet in use. */
  lemma SpareAdded(pdir: seq<seq<word>>, mem: seq<Page>, role: map<nat, Role>, own: map<nat, nat>, g: nat, p: nat)
    requires VmInv(pdir, mem, role, own) && g !in own && 0 < g < Quota.NPAGES
    ensures VmInv(pdir, mem, role[g := Spare(p)], own[g := p])
  {
    hide Entry;
  }

  /** Pages that hold no page table keep their bytes. */
  ghost predicate DataKept(mem: seq<Page>, mem': seq<Page>, role: map<nat, Role>) {
    |mem'| == |mem| && forall g :: g in role && !role[g].Table? && g < |mem| ==> mem'[g] == mem[g]
  }

  lemma StoredData(pdir: seq<seq<word>>, mem: seq<Page>, role: map<nat, Role>, own: map<nat, nat>, p: nat, d: nat,
                   i: nat, e: word)
    requires VmInv(pdir, mem, role, own) && User(p, d, i) && pdir[p][d] != 0
    ensures pdir[p][d] / PAGESIZE < |mem| && DataKept(mem, WithEntry(pdir, mem, p, d, i, e), role)
  {
    hide Entry, EntriesOk, RolesOk;
    StoredOne(pdir, mem, role, own, p, d, i, e);
  }
}
