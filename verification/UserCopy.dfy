/** Copying between the kernel and user pages, kern/lib/pmap.c, as flat copying. */
module UserCopy {
  import opened Bytes
  import opened Collections
  import Quota
  import opened PageAlloc
  import opened PageTable
  import opened Vmm

  /** The page table entry of user page number `n`. */
  ghost function Ent(pdir: seq<seq<word>>, mem: seq<Page>, p: nat, n: nat): (e: word) {
    Entry(pdir, mem, p, n / ENTRIES, n % ENTRIES)
  }

  ghost predicate Present(pdir: seq<seq<word>>, mem: seq<Page>, p: nat, n: nat) {
    Ent(pdir, mem, p, n) % 2 == 1
  }

  /** The byte a process sees at address `va`. */
  ghost function UserByte(pdir: seq<seq<word>>, mem: seq<Page>, p: nat, va: nat): (x: byte) {
    var g := Ent(pdir, mem, p, va / PAGESIZE) / PAGESIZE;
    if g < |mem| && va % PAGESIZE < |mem[g]| then mem[g][va % PAGESIZE] else 0
  }

  /**
    The two steps of the translation.  The top ten bits of an address select the directory entry, which names
    the page table; the next ten select the word of it that names the page; the last twelve select the byte.
   */
  lemma WalkIs(pdir: seq<seq<word>>, mem: seq<Page>, role: map<nat, Role>, own: map<nat, nat>, p: nat, va: nat)
    requires VmInv(pdir, mem, role, own) && 1 <= p < 64 && 0x4000_0000 <= va < 0xF000_0000
    ensures |pdir| == 64 && |pdir[p]| == 1024
    ensures var pde, pte := pdir[p][va / 0x40_0000], Ent(pdir, mem, p, va / 0x1000);
            && (pde == 0 ==> pte == 0)
            && (pde != 0 ==>
                  && pde % 0x1000 == 7 && 0 < pde / 0x1000 < |mem| && |mem[pde / 0x1000]| == 0x1000
                  && pte == GetU32(mem[pde / 0x1000], 4 * (va / 0x1000 % 0x400)))
            && pte / 0x1000 < |mem| && |mem[pte / 0x1000]| == 0x1000
            && UserByte(pdir, mem, p, va) == mem[pte / 0x1000][va % 0x1000]
  {
    PageNumber(p, va);
    assert User(p, Pde(va), 0);
    EntryPage(pdir, mem, role, own, p, va / PAGESIZE);
    hide EntriesOk, RolesOk;
  }

  predicate UserN(p: nat, n: nat) { 1 <= p < NUM_IDS && Quota.USERLO <= n < Quota.USERHI }

  lemma PageNumber(p: nat, va: nat)
    requires 1 <= p < NUM_IDS && UserAddress(va)
    ensures UserN(p, va / PAGESIZE) && Pde(va) == va / PAGESIZE / ENTRIES && Pte(va) == va / PAGESIZE % ENTRIES
    ensures User(p, Pde(va), Pte(va))
  {
  }

  lemma UserOf(p: nat, n: nat)
    requires UserN(p, n)
    ensures User(p, n / ENTRIES, n % ENTRIES)
  {
  }

  /** `p` still has every page table it had. */
  ghost predicate TablesKept(pdir: seq<seq<word>>, pdir': seq<seq<word>>, p: nat) {
    p < |pdir| ==>
      && p < |pdir'| && |pdir'[p]| <= |pdir[p]|
      && (forall d: nat :: d < |pdir'[p]| && pdir'[p][d] == 0 ==> pdir[p][d] == 0)
  }

  /**
    Every page that is mapped stays mapped as it is, with the same bytes except for process `p` between
    `lo` and `hi`.
   */
  ghost predicate KeptOutside(pdir: seq<seq<word>>, mem: seq<Page>, pdir': seq<seq<word>>, mem': seq<Page>, p: nat,
                              lo: nat, hi: nat) {
    && TablesKept(pdir, pdir', p)
    && forall q: nat, va: nat :: UserN(q, va / PAGESIZE) && Present(pdir, mem, q, va / PAGESIZE) ==>
      && Ent(pdir', mem', q, va / PAGESIZE) == Ent(pdir, mem, q, va / PAGESIZE)
      && (!(q == p && lo <= va < hi) ==> UserByte(pdir', mem', q, va) == UserByte(pdir, mem, q, va))
  }

  /** What is missing later was missing before. */
  lemma NeedKept(pdir: seq<seq<word>>, mem: seq<Page>, pdir': seq<seq<word>>, mem': seq<Page>, p: nat, a: nat, b: nat,
                 s: set<nat>)
    requires p < |pdir| && 1 <= p < NUM_IDS && KeptOutside(pdir, mem, pdir', mem', p, a, b) && UserPages(s)
    ensures Need(pdir', mem', p, s) <= Need(pdir, mem, p, s)
  {
    hide Ent, UserByte;
    forall n: nat | n in MissingPages(pdir', mem', p, s) ensures !Present(pdir, mem, p, n) {
      assert n == n * PAGESIZE / PAGESIZE;
    }
    SubsetSize(MissingPages(pdir', mem', p, s), MissingPages(pdir, mem, p, s));
    SubsetSize(MissingTables(pdir', p, s), MissingTables(pdir, p, s));
  }

  /** No page has become present except pages `lo .. hi` of process `p`. */
  ghost predicate OnlyAdded(pdir: seq<seq<word>>, mem: seq<Page>, pdir': seq<seq<word>>, mem': seq<Page>, p: nat,
                            lo: nat, hi: nat) {
    forall q: nat, n: nat :: UserN(q, n) && Present(pdir', mem', q, n) && !(q == p && lo <= n < hi) ==>
      Present(pdir, mem, q, n)
  }

  /** Pages that have become present are present, writable and the user's. */
  ghost predicate AddedPtu(pdir: seq<seq<word>>, mem: seq<Page>, pdir': seq<seq<word>>, mem': seq<Page>) {
    forall q: nat, n: nat :: UserN(q, n) && Present(pdir', mem', q, n) && !Present(pdir, mem, q, n) ==>
      Ent(pdir', mem', q, n) % PAGESIZE == PTE_PTU
  }

  /** What was added first keeps its permission while more is added. */
  lemma PtuThen(pdir: seq<seq<word>>, mem: seq<Page>, pdir1: seq<seq<word>>, mem1: seq<Page>, pdir2: seq<seq<word>>,
                mem2: seq<Page>, p: nat, lo: nat, hi: nat)
    requires AddedPtu(pdir, mem, pdir1, mem1) && AddedPtu(pdir1, mem1, pdir2, mem2)
    requires KeptOutside(pdir1, mem1, pdir2, mem2, p, lo, hi)
    ensures AddedPtu(pdir, mem, pdir2, mem2)
  {
    hide Ent, UserByte;
    forall q: nat, n: nat | UserN(q, n) && Present(pdir2, mem2, q, n) && !Present(pdir, mem, q, n)
      ensures Ent(pdir2, mem2, q, n) % PAGESIZE == PTE_PTU {
      assert n * PAGESIZE / PAGESIZE == n;
    }
  }

  lemma PtuNone(pdir: seq<seq<word>>, mem: seq<Page>)
    ensures AddedPtu(pdir, mem, pdir, mem)
  {
  }

  /** One new page, or none. */
  lemma PtuOne(pdir: seq<seq<word>>, mem: seq<Page>, pdir': seq<seq<word>>, mem': seq<Page>, p: nat, n: nat)
    requires OnlyAdded(pdir, mem, pdir', mem', p, n, n + 1)
    requires Present(pdir', mem', p, n) ==> Ent(pdir', mem', p, n) % PAGESIZE == PTE_PTU
    ensures AddedPtu(pdir, mem, pdir', mem')
  {
    hide Ent;
  }

  ghost predicate HasByte(pdir: seq<seq<word>>, mem: seq<Page>, p: nat, va: nat, x: byte) {
    Present(pdir, mem, p, va / PAGESIZE) && UserByte(pdir, mem, p, va) == x
  }

  ghost predicate Holds(pdir: seq<seq<word>>, mem: seq<Page>, p: nat, va: nat, src: seq<byte>) {
    forall k: nat :: k < |src| ==> HasByte(pdir, mem, p, va + k, src[k])
  }

  ghost predicate UserPages(s: set<nat>) {
    forall n :: n in s ==> Quota.USERLO <= n < Quota.USERHI
  }

  /** Of the pages `s`, those that are missing, and the page tables that are missing for them. */
  ghost function MissingPages(pdir: seq<seq<word>>, mem: seq<Page>, p: nat, s: set<nat>): (r: set<nat>) {
    set n | n in s && !Present(pdir, mem, p, n)
  }

  ghost function MissingTables(pdir: seq<seq<word>>, p: nat, s: set<nat>): (r: set<nat>)
    requires p < |pdir|
  {
    set n | n in s && n / ENTRIES < |pdir[p]| && pdir[p][n / ENTRIES] == 0 :: n / ENTRIES
  }

  ghost function Need(pdir: seq<seq<word>>, mem: seq<Page>, p: nat, s: set<nat>): (k: nat)
    requires p < |pdir|
  {
    |MissingPages(pdir, mem, p, s)| + |MissingTables(pdir, p, s)|
  }

  /** Nothing is missing less that has not been paid for: `u` and `u'` are the usage before and after. */
  ghost predicate Paid(pdir: seq<seq<word>>, mem: seq<Page>, u: int, pdir': seq<seq<word>>, mem': seq<Page>, u': int,
                       p: nat) {
    && p < |pdir| && p < |pdir'|
    && forall s: set<nat> :: UserPages(s) ==> u + Need(pdir, mem, p, s) <= u' + Need(pdir', mem', p, s)
  }

  lemma PaidThen(pdir: seq<seq<word>>, mem: seq<Page>, u: int, pdir1: seq<seq<word>>, mem1: seq<Page>, u1: int,
                 pdir2: seq<seq<word>>, mem2: seq<Page>, u2: int, p: nat)
    requires Paid(pdir, mem, u, pdir1, mem1, u1, p) && Paid(pdir1, mem1, u1, pdir2, mem2, u2, p)
    ensures Paid(pdir, mem, u, pdir2, mem2, u2, p)
  {
    hide UserPages, Need;
  }

  /** A new page changes no byte that could be seen before. */
  lemma NewPageKept(pdir: seq<seq<word>>, mem: seq<Page>, role: map<nat, Role>, own: map<nat, nat>,
                    pdir': seq<seq<word>>, mem': seq<Page>, role': map<nat, Role>, p: nat, n: nat, perm: nat)
    requires VmInv(pdir, mem, role, own) && UserN(p, n) && DataKept(mem, mem', role) && perm % 2 == 1
    requires NewPage(pdir, mem, role, pdir', mem', role', p, n / ENTRIES, n % ENTRIES, perm)
    requires !Present(pdir, mem, p, n) && TablesKept(pdir, pdir', p)
    ensures Present(pdir', mem', p, n)
    ensures KeptOutside(pdir, mem, pdir', mem', p, 0, 0) && OnlyAdded(pdir, mem, pdir', mem', p, n, n + 1)
  {
    hide Entry, Ent, NewPage, VmInv, DataKept, UserByte, TablesKept;
    NewPageEnts(pdir, mem, role, pdir', mem', role', p, n, perm);
    forall q: nat, va: nat | UserN(q, va / PAGESIZE) && Present(pdir, mem, q, va / PAGESIZE)
      ensures Ent(pdir', mem', q, va / PAGESIZE) == Ent(pdir, mem, q, va / PAGESIZE)
      ensures UserByte(pdir', mem', q, va) == UserByte(pdir, mem, q, va)
    {
      ByteKept(pdir, mem, role, own, pdir', mem', q, va);
    }
  }

  /** Only the entry of page `n` of process `p` has changed. */
  ghost predicate EntsSame(pdir: seq<seq<word>>, mem: seq<Page>, pdir': seq<seq<word>>, mem': seq<Page>, p: nat,
                           n: nat) {
    forall q: nat, m: nat :: UserN(q, m) && !(q == p && m == n) ==> Ent(pdir', mem', q, m) == Ent(pdir, mem, q, m)
  }

  lemma NewPageEnts(pdir: seq<seq<word>>, mem: seq<Page>, role: map<nat, Role>,
                    pdir': seq<seq<word>>, mem': seq<Page>, role': map<nat, Role>, p: nat, n: nat, perm: nat)
    requires UserN(p, n) && perm % 2 == 1
    requires NewPage(pdir, mem, role, pdir', mem', role', p, n / ENTRIES, n % ENTRIES, perm)
    ensures EntsSame(pdir, mem, pdir', mem', p, n) && Present(pdir', mem', p, n)
  {
    hide Entry;
    ParityOf(Ent(pdir', mem', p, n));
    forall q: nat, m: nat | UserN(q, m) && !(q == p && m == n) ensures Ent(pdir', mem', q, m) == Ent(pdir, mem, q, m) {
      UserOf(q, m);
    }
  }

  lemma ParityOf(e: nat)
    ensures e % 2 == e % PAGESIZE % 2
  {
  }

  lemma ByteKept(pdir: seq<seq<word>>, mem: seq<Page>, role: map<nat, Role>, own: map<nat, nat>,
                 pdir': seq<seq<word>>, mem': seq<Page>, q: nat, va: nat)
    requires VmInv(pdir, mem, role, own) && DataKept(mem, mem', role)
    requires UserN(q, va / PAGESIZE) && Present(pdir, mem, q, va / PAGESIZE)
    requires Ent(pdir', mem', q, va / PAGESIZE) == Ent(pdir, mem, q, va / PAGESIZE)
    ensures UserByte(pdir', mem', q, va) == UserByte(pdir, mem, q, va)
  {
    hide Ent;
    EntryPage(pdir, mem, role, own, q, va / PAGESIZE);
    hide VmInv;
  }

  /** The physical page that an entry names is its own, or page 0, which nobody has, if the entry is empty. */
  lemma EntryPage(pdir: seq<seq<word>>, mem: seq<Page>, role: map<nat, Role>, own: map<nat, nat>, q: nat, n: nat)
    requires VmInv(pdir, mem, role, own) && UserN(q, n)
    ensures var e := Ent(pdir, mem, q, n);
            && e / PAGESIZE < |mem| && |mem[e / PAGESIZE]| == PAGESIZE
            && if e == 0 then 0 !in role
               else e / PAGESIZE in role && role[e / PAGESIZE] == Data(q, n / ENTRIES, n % ENTRIES)
  {
    hide Entry;
    UserOf(q, n);
  }

  lemma SetGone<T>(a: set<T>, b: set<T>, x: T)
    requires a <= b - {x} && x in b
    ensures |a| + 1 <= |b|
  {
    SubsetSize(a, b - {x});
  }

  /** What alloc_page consumes is no longer needed afterwards. */
  lemma NeedStep(pdir: seq<seq<word>>, mem: seq<Page>, pdir': seq<seq<word>>, mem': seq<Page>, p: nat, n: nat,
                 s: set<nat>)
    requires Shape(pdir, mem) && Shape(pdir', mem') && UserN(p, n) && n in s && UserPages(s)
    requires EntsSame(pdir, mem, pdir', mem', p, n) && !Present(pdir, mem, p, n) && Present(pdir', mem', p, n)
    requires forall d :: 0 <= d < ENTRIES && pdir'[p][d] == 0 ==> d != n / ENTRIES && pdir[p][d] == 0
    ensures Need(pdir', mem', p, s) + Needed(pdir, p, n / ENTRIES) <= Need(pdir, mem, p, s)
  {
    hide Ent;
    SetGone(MissingPages(pdir', mem', p, s), MissingPages(pdir, mem, p, s), n);
    var a, b := MissingTables(pdir', p, s), MissingTables(pdir, p, s);
    if pdir[p][n / ENTRIES] == 0 {
      assert n / ENTRIES in b;
      SetGone(a, b, n / ENTRIES);
    } else {
      SubsetSize(a, b);
    }
  }

  /** What is no longer needed has been consumed. */
  lemma NeedPaid(pdir: seq<seq<word>>, mem: seq<Page>, u: int, pdir': seq<seq<word>>, mem': seq<Page>, p: nat, n: nat)
    requires Shape(pdir, mem) && Shape(pdir', mem') && UserN(p, n) && EntsSame(pdir, mem, pdir', mem', p, n)
    requires forall d :: 0 <= d < ENTRIES && d != n / ENTRIES ==> pdir'[p][d] == pdir[p][d]
    ensures Paid(pdir, mem, u, pdir', mem', u + Needed(pdir, p, n / ENTRIES), p)
  {
    hide Need;
    forall s: set<nat> | UserPages(s)
      ensures Need(pdir, mem, p, s) <= Need(pdir', mem', p, s) + Needed(pdir, p, n / ENTRIES) {
      NeedOne(pdir, mem, pdir', mem', p, n, s);
    }
  }

  lemma NeedOne(pdir: seq<seq<word>>, mem: seq<Page>, pdir': seq<seq<word>>, mem': seq<Page>, p: nat, n: nat,
                s: set<nat>)
    requires Shape(pdir, mem) && Shape(pdir', mem') && UserN(p, n) && EntsSame(pdir, mem, pdir', mem', p, n)
    requires forall d :: 0 <= d < ENTRIES && d != n / ENTRIES ==> pdir'[p][d] == pdir[p][d]
    requires UserPages(s)
    ensures Need(pdir, mem, p, s) <= Need(pdir', mem', p, s) + Needed(pdir, p, n / ENTRIES)
  {
    hide Ent;
    SetMore(MissingPages(pdir, mem, p, s), MissingPages(pdir', mem', p, s), n);
    var a, b := MissingTables(pdir, p, s), MissingTables(pdir', p, s);
    if pdir[p][n / ENTRIES] == 0 {
      SetMore(a, b, n / ENTRIES);
    } else {
      SubsetSize(a, b);
    }
  }

  lemma SetMore<T>(a: set<T>, b: set<T>, x: T)
    requires a <= b + {x}
    ensures |a| <= |b| + 1
  {
    SubsetSize(a, b + {x});
  }

  lemma NeedSome(pdir: seq<seq<word>>, mem: seq<Page>, p: nat, n: nat, s: set<nat>)
    requires Shape(pdir, mem) && UserN(p, n) && n in s && !Present(pdir, mem, p, n)
    ensures Need(pdir, mem, p, s) >= Needed(pdir, p, n / ENTRIES)
  {
    SubsetSize({n}, MissingPages(pdir, mem, p, s));
    if pdir[p][n / ENTRIES] == 0 {
      SubsetSize({n / ENTRIES}, MissingTables(pdir, p, s));
    }
  }

  ghost predicate Exists(mm: Mm, p: nat)
    reads mm, mm.pmm
  {
    1 <= p < NUM_IDS && |mm.pmm.cont| == NUM_IDS && mm.pmm.cont[p].used && p < |mm.pdir|
  }

  /** What the process has consumed, and what is missing of the pages `s`. */
  ghost function Bill(mm: Mm, p: nat, s: set<nat>): (k: int)
    requires Exists(mm, p)
    reads mm, mm.pmm
  {
    mm.pmm.cont[p].usage + Need(mm.pdir, mm.mem, p, s)
  }

  /** The quota covers what is missing of the pages `s`. */
  ghost predicate Affords(mm: Mm, p: nat, s: set<nat>)
    requires Exists(mm, p)
    reads mm, mm.pmm
  {
    Bill(mm, p, s) <= mm.pmm.cont[p].quota
  }

  /** alloc_page for a page that is not there. */
  method TryPage(mm: Mm, p: nat, va: nat, perm: nat, ghost s: set<nat>)
    requires mm.Valid() && Exists(mm, p) && UserAddress(va) && perm < PAGESIZE && perm % 2 == 1
    requires UserPages(s) && va / PAGESIZE in s && !Present(mm.pdir, mm.mem, p, va / PAGESIZE)
    modifies mm, mm.pmm
    ensures mm.Valid() && Exists(mm, p) && mm.pmm.cont[p].quota == old(mm.pmm.cont)[p].quota
    ensures Present(mm.pdir, mm.mem, p, va / PAGESIZE) <==>
              old(mm.pmm.cont)[p].usage + Needed(old(mm.pdir), p, Pde(va)) <= old(mm.pmm.cont)[p].quota
    ensures old(Affords(mm, p, s)) ==> Present(mm.pdir, mm.mem, p, va / PAGESIZE)
    ensures Present(mm.pdir, mm.mem, p, va / PAGESIZE) ==>
              && Ent(mm.pdir, mm.mem, p, va / PAGESIZE) % PAGESIZE == perm
              && Bill(mm, p, s) <= old(Bill(mm, p, s))
    ensures KeptOutside(old(mm.pdir), old(mm.mem), mm.pdir, mm.mem, p, 0, 0)
    ensures OnlyAdded(old(mm.pdir), old(mm.mem), mm.pdir, mm.mem, p, va / PAGESIZE, va / PAGESIZE + 1)
    ensures Paid(old(mm.pdir), old(mm.mem), old(mm.pmm.cont)[p].usage, mm.pdir, mm.mem, mm.pmm.cont[p].usage, p)
  {
    hide VmInv, NewPage, KeptOutside, OnlyAdded, Entry, Ent, Need, EntsSame, SameEntries, DataKept, Pmm.Valid, Paid;
    hide UserPages;
    ghost var pdir, mem, role, n := mm.pdir, mm.mem, mm.role, va / PAGESIZE;
    PageNumber(p, va);
    VmShape(pdir, mem, role, mm.pmm.own);
    NeedSome(pdir, mem, p, n, s);
    var r := mm.AllocPage(p, va, perm);
    if r == MAGIC {
      NothingAdded(pdir, mem, role, old(mm.pmm.own), mm.mem, p, n);
      NeedUnchanged(pdir, mem, old(mm.pmm.cont)[p].usage, mm.mem, mm.pmm.cont[p].usage, p);
    } else {
      NewPageKept(pdir, mem, role, old(mm.pmm.own), mm.pdir, mm.mem, mm.role, p, n, perm);
      NewPageEnts(pdir, mem, role, mm.pdir, mm.mem, mm.role, p, n, perm);
      NeedStep(pdir, mem, mm.pdir, mm.mem, p, n, s);
      NeedPaid(pdir, mem, old(mm.pmm.cont)[p].usage, mm.pdir, mm.mem, p, n);
      NewPagePerm(pdir, mem, role, mm.pdir, mm.mem, mm.role, p, n, perm);
    }
  }

  lemma NothingAdded(pdir: seq<seq<word>>, mem: seq<Page>, role: map<nat, Role>, own: map<nat, nat>, mem': seq<Page>,
                     p: nat, n: nat)
    requires VmInv(pdir, mem, role, own) && UserN(p, n) && DataKept(mem, mem', role)
    requires SameEntries(pdir, mem, pdir, mem')
    ensures KeptOutside(pdir, mem, pdir, mem', p, 0, 0) && OnlyAdded(pdir, mem, pdir, mem', p, n, n + 1)
    ensures Present(pdir, mem', p, n) <==> Present(pdir, mem, p, n)
  {
    hide VmInv, DataKept, UserByte;
    EntsAll(pdir, mem, mem');
    hide Ent, SameEntries;
    forall q: nat, va: nat | UserN(q, va / PAGESIZE) && Present(pdir, mem, q, va / PAGESIZE)
      ensures UserByte(pdir, mem', q, va) == UserByte(pdir, mem, q, va)
    {
      ByteKept(pdir, mem, role, own, pdir, mem', q, va);
    }
  }

  lemma EntsAll(pdir: seq<seq<word>>, mem: seq<Page>, mem': seq<Page>)
    requires SameEntries(pdir, mem, pdir, mem')
    ensures forall q: nat, n: nat :: UserN(q, n) ==> Ent(pdir, mem', q, n) == Ent(pdir, mem, q, n)
  {
    hide Entry;
    forall q: nat, n: nat | UserN(q, n) ensures Ent(pdir, mem', q, n) == Ent(pdir, mem, q, n) {
      UserOf(q, n);
    }
  }

  lemma NeedUnchanged(pdir: seq<seq<word>>, mem: seq<Page>, u: int, mem': seq<Page>, u': int, p: nat)
    requires 1 <= p < NUM_IDS && p < |pdir| && SameEntries(pdir, mem, pdir, mem') && u <= u'
    ensures Paid(pdir, mem, u, pdir, mem', u', p)
  {
    EntsAll(pdir, mem, mem');
    hide Ent, SameEntries;
    forall s: set<nat> | UserPages(s) ensures Need(pdir, mem', p, s) == Need(pdir, mem, p, s) {
      assert MissingPages(pdir, mem', p, s) == MissingPages(pdir, mem, p, s);
    }
  }

  lemma NewPagePerm(pdir: seq<seq<word>>, mem: seq<Page>, role: map<nat, Role>,
                    pdir': seq<seq<word>>, mem': seq<Page>, role': map<nat, Role>, p: nat, n: nat, perm: nat)
    requires NewPage(pdir, mem, role, pdir', mem', role', p, n / ENTRIES, n % ENTRIES, perm)
    ensures Ent(pdir', mem', p, n) % PAGESIZE == perm
  {
    hide Entry;
  }

  /**
    The common head of the three loops: if the page of `va` is not present, alloc_page, whose failure goes
    unnoticed.
   */
  method EnsurePage(mm: Mm, p: nat, va: nat, ghost s: set<nat>)
    requires mm.Valid() && Exists(mm, p) && UserAddress(va) && UserPages(s) && va / PAGESIZE in s
    modifies mm, mm.pmm
    ensures mm.Valid() && Exists(mm, p) && mm.pmm.cont[p].quota == old(mm.pmm.cont)[p].quota
    ensures Present(mm.pdir, mm.mem, p, va / PAGESIZE) <==>
              || old(Present(mm.pdir, mm.mem, p, va / PAGESIZE))
              || old(mm.pmm.cont)[p].usage + Needed(old(mm.pdir), p, Pde(va)) <= old(mm.pmm.cont)[p].quota
    ensures old(Affords(mm, p, s)) ==> Present(mm.pdir, mm.mem, p, va / PAGESIZE)
    ensures Present(mm.pdir, mm.mem, p, va / PAGESIZE) ==> Bill(mm, p, s) <= old(Bill(mm, p, s))
    ensures Paid(old(mm.pdir), old(mm.mem), old(mm.pmm.cont)[p].usage, mm.pdir, mm.mem, mm.pmm.cont[p].usage, p)
    ensures KeptOutside(old(mm.pdir), old(mm.mem), mm.pdir, mm.mem, p, 0, 0)
    ensures OnlyAdded(old(mm.pdir), old(mm.mem), mm.pdir, mm.mem, p, va / PAGESIZE, va / PAGESIZE + 1)
    ensures AddedPtu(old(mm.pdir), old(mm.mem), mm.pdir, mm.mem)
  {
    hide VmInv, KeptOutside, OnlyAdded, Entry, Need, Pmm.Valid, AddedPtu, UserPages;
    PtuNone(mm.pdir, mm.mem);
    PageNumber(p, va);
    UnchangedKept(mm.pdir, mm.mem, p, va / PAGESIZE);
    var e := Entry(mm.pdir, mm.mem, p, Pde(va), Pte(va));
    if e % 2 == 0 {
      TryPage(mm, p, va, PTE_P + PTE_U + PTE_W, s);
      PtuOne(old(mm.pdir), old(mm.mem), mm.pdir, mm.mem, p, va / PAGESIZE);
    }
  }

  lemma UnchangedKept(pdir: seq<seq<word>>, mem: seq<Page>, p: nat, n: nat)
    ensures KeptOutside(pdir, mem, pdir, mem, p, 0, 0) && OnlyAdded(pdir, mem, pdir, mem, p, n, n + 1)
  {
  }

  lemma InPage(va: nat, x: nat, m: nat)
    requires 0 < m <= PAGESIZE - va % PAGESIZE
    ensures va <= x < va + m <==> x / PAGESIZE == va / PAGESIZE && va % PAGESIZE <= x % PAGESIZE < va % PAGESIZE + m
    ensures x / PAGESIZE == va / PAGESIZE ==> x - va == x % PAGESIZE - va % PAGESIZE
  {
    if x / PAGESIZE > va / PAGESIZE {
      assert x >= PAGESIZE * (va / PAGESIZE + 1);
    }
  }

  /** memcpy into the physical page behind `va`: what each process sees at `x` of process `q` afterwards. */
  lemma PokedByte(pdir: seq<seq<word>>, mem: seq<Page>, role: map<nat, Role>, own: map<nat, nat>, p: nat, va: nat,
                  piece: seq<byte>, q: nat, x: nat)
    requires VmInv(pdir, mem, role, own) && UserN(p, va / PAGESIZE)
    requires 0 < |piece| <= PAGESIZE - va % PAGESIZE
    requires UserN(q, x / PAGESIZE) && Present(pdir, mem, q, x / PAGESIZE)
    ensures var g := Ent(pdir, mem, p, va / PAGESIZE) / PAGESIZE;
            && (g in role ==> !role[g].Table?) && g < |mem| && |mem[g]| == PAGESIZE
            && var mem' := mem[g := Splice(mem[g], va % PAGESIZE, piece)];
               Ent(pdir, mem', q, x / PAGESIZE) == Ent(pdir, mem, q, x / PAGESIZE) ==>
               UserByte(pdir, mem', q, x) ==
                 if q == p && va <= x < va + |piece| then piece[x - va] else UserByte(pdir, mem, q, x)
  {
    hide Entry, Ent, Splice;
    EntryPage(pdir, mem, role, own, p, va / PAGESIZE);
    EntryPage(pdir, mem, role, own, q, x / PAGESIZE);
    hide VmInv;
    InPage(va, x, |piece|);
    SpliceAt(mem[Ent(pdir, mem, p, va / PAGESIZE) / PAGESIZE], va % PAGESIZE, piece, x % PAGESIZE);
    PairOf(va / PAGESIZE, x / PAGESIZE);
  }

  lemma SpliceAt(b: seq<byte>, off: nat, src: seq<byte>, k: nat)
    requires |b| == PAGESIZE && off + |src| <= PAGESIZE && k < PAGESIZE
    ensures |Splice(b, off, src)| == PAGESIZE
    ensures Splice(b, off, src)[k] == if off <= k < off + |src| then src[k - off] else b[k]
  {
  }

  lemma PairOf(m: nat, n: nat)
    ensures m / ENTRIES == n / ENTRIES && m % ENTRIES == n % ENTRIES ==> m == n
  {
  }

  /** What memcpy into the physical page behind `va` does to user memory as a whole: only a present page sees it. */
  ghost predicate Poked(pdir: seq<seq<word>>, mem: seq<Page>, mem': seq<Page>, p: nat, va: nat, piece: seq<byte>) {
    && (forall q: nat, n: nat :: UserN(q, n) ==> Ent(pdir, mem', q, n) == Ent(pdir, mem, q, n))
    && (forall q: nat, x: nat :: UserN(q, x / PAGESIZE) && Present(pdir, mem, q, x / PAGESIZE) ==>
          UserByte(pdir, mem', q, x) ==
            if q == p && va <= x < va + |piece| then piece[x - va] else UserByte(pdir, mem, q, x))
  }

  lemma PokedState(pdir: seq<seq<word>>, mem: seq<Page>, role: map<nat, Role>, own: map<nat, nat>, p: nat, va: nat,
                   piece: seq<byte>)
    requires VmInv(pdir, mem, role, own) && UserN(p, va / PAGESIZE) && 0 < |piece| <= PAGESIZE - va % PAGESIZE
    ensures var g := Ent(pdir, mem, p, va / PAGESIZE) / PAGESIZE;
            && g < |mem| && |mem[g]| == PAGESIZE
            && var mem' := mem[g := Splice(mem[g], va % PAGESIZE, piece)];
               VmInv(pdir, mem', role, own) && Poked(pdir, mem, mem', p, va, piece)
  {
    hide VmInv, Entry, UserByte, Splice;
    EntryPage(pdir, mem, role, own, p, va / PAGESIZE);
    var g := Ent(pdir, mem, p, va / PAGESIZE) / PAGESIZE;
    SpliceAt(mem[g], va % PAGESIZE, piece, 0);
    var mem' := mem[g := Splice(mem[g], va % PAGESIZE, piece)];
    DataWritten(pdir, mem, role, own, g, Splice(mem[g], va % PAGESIZE, piece));
    forall q: nat, n: nat | UserN(q, n) ensures Ent(pdir, mem', q, n) == Ent(pdir, mem, q, n) {
      UserOf(q, n);
    }
    hide Ent, Present;
    forall q: nat, x: nat | UserN(q, x / PAGESIZE) && Present(pdir, mem, q, x / PAGESIZE)
      ensures UserByte(pdir, mem', q, x) ==
                if q == p && va <= x < va + |piece| then piece[x - va] else UserByte(pdir, mem, q, x)
    {
      PokedByte(pdir, mem, role, own, p, va, piece, q, x);
    }
  }

  /** `memcpy((void *) uva_pa, kva, size)` with the physical address that the entry gives, present or not. */
  method Poke(mm: Mm, p: nat, va: nat, piece: seq<byte>)
    requires mm.Valid() && 1 <= p < NUM_IDS && UserAddress(va)
    requires 0 < |piece| <= PAGESIZE - va % PAGESIZE
    modifies mm`mem
    ensures mm.Valid() && Poked(mm.pdir, old(mm.mem), mm.mem, p, va, piece)
  {
    hide VmInv, Entry, Poked, Pmm.Valid, Splice, Present;
    PageNumber(p, va);
    PokedState(mm.pdir, mm.mem, mm.role, mm.pmm.own, p, va, piece);
    var g := Entry(mm.pdir, mm.mem, p, Pde(va), Pte(va)) / PAGESIZE;
    mm.mem := mm.mem[g := Splice(mm.mem[g], va % PAGESIZE, piece)];
  }

  /** The first page number at or above byte address `e`. */
  function PageEnd(e: nat): (n: nat) { (e + PAGESIZE - 1) / PAGESIZE }

  ghost predicate UserSpan(va: nat, len: nat) { VM_USERLO <= va && va + len <= VM_USERHI }

  /** The pages that `len` bytes at `va` touch. */
  ghost predicate InSpan(va: nat, len: nat, n: nat) { va / PAGESIZE <= n < PageEnd(va + len) }

  ghost function Span(va: nat, len: nat): (s: set<nat>) {
    set n: nat | n < PageEnd(va + len) && InSpan(va, len, n)
  }

  /**
    Process `p` has `bytes` at `va`.  On the way only bytes in [va, w) have changed for anybody,
    and only pages that the span touches have been added.
   */
  ghost predicate Moved(pdir: seq<seq<word>>, mem: seq<Page>, pdir': seq<seq<word>>, mem': seq<Page>, p: nat, va: nat,
                        bytes: seq<byte>, w: nat) {
    && KeptOutside(pdir, mem, pdir', mem', p, va, w)
    && OnlyAdded(pdir, mem, pdir', mem', p, va / PAGESIZE, PageEnd(va + |bytes|))
    && Holds(pdir', mem', p, va, bytes)
  }

  /** What copying `len` bytes at `va` keeps whether or not it finds all the pages. */
  ghost predicate Tried(pdir: seq<seq<word>>, mem: seq<Page>, pdir': seq<seq<word>>, mem': seq<Page>, p: nat, va: nat,
                        len: nat, w: nat) {
    && KeptOutside(pdir, mem, pdir', mem', p, va, w)
    && OnlyAdded(pdir, mem, pdir', mem', p, va / PAGESIZE, PageEnd(va + len))
    && AddedPtu(pdir, mem, pdir', mem')
  }

  lemma TriedNone(pdir: seq<seq<word>>, mem: seq<Page>, p: nat, va: nat, w: nat)
    ensures Tried(pdir, mem, pdir, mem, p, va, 0, w) && Holds(pdir, mem, p, va, [])
  {
  }

  lemma TriedMoved(pdir: seq<seq<word>>, mem: seq<Page>, pdir': seq<seq<word>>, mem': seq<Page>, p: nat, va: nat,
                   bytes: seq<byte>, w: nat)
    requires Tried(pdir, mem, pdir', mem', p, va, |bytes|, w)
    ensures AddedPtu(pdir, mem, pdir', mem')
    ensures Moved(pdir, mem, pdir', mem', p, va, bytes, w) <==> Holds(pdir', mem', p, va, bytes)
  {
    hide KeptOutside, OnlyAdded, AddedPtu, Holds;
  }

  lemma MovedNone(pdir: seq<seq<word>>, mem: seq<Page>, p: nat, va: nat, w: nat)
    ensures Moved(pdir, mem, pdir, mem, p, va, [], w)
  {
  }

  lemma HoldsKept(pdir: seq<seq<word>>, mem: seq<Page>, pdir': seq<seq<word>>, mem': seq<Page>, p: nat, va: nat,
                  bytes: seq<byte>, lo: nat, hi: nat)
    requires 1 <= p < NUM_IDS && UserSpan(va, |bytes|) && (va + |bytes| <= lo || hi <= va || hi <= lo)
    requires Holds(pdir, mem, p, va, bytes) && KeptOutside(pdir, mem, pdir', mem', p, lo, hi)
    ensures Holds(pdir', mem', p, va, bytes)
  {
    hide Ent, UserByte;
    forall k: nat | k < |bytes| ensures HasByte(pdir', mem', p, va + k, bytes[k]) {
      PageNumber(p, va + k);
      assert HasByte(pdir, mem, p, va + k, bytes[k]);
    }
  }

  lemma HoldsJoin(pdir: seq<seq<word>>, mem: seq<Page>, p: nat, va: nat, a: seq<byte>, b: seq<byte>)
    requires Holds(pdir, mem, p, va, a) && Holds(pdir, mem, p, va + |a|, b)
    ensures Holds(pdir, mem, p, va, a + b)
  {
    hide Ent, UserByte;
    forall k: nat | k < |a + b| ensures HasByte(pdir, mem, p, va + k, (a + b)[k]) {
      if k < |a| {
        assert HasByte(pdir, mem, p, va + k, a[k]);
      } else {
        var j: nat := k - |a|;
        assert va + k == va + |a| + j && HasByte(pdir, mem, p, va + |a| + j, b[j]);
      }
    }
  }

  lemma KeptThen(pdir: seq<seq<word>>, mem: seq<Page>, pdir1: seq<seq<word>>, mem1: seq<Page>, pdir2: seq<seq<word>>,
                 mem2: seq<Page>, p: nat, lo: nat, lo1: nat, hi: nat)
    requires lo <= lo1 && KeptOutside(pdir, mem, pdir1, mem1, p, lo, hi)
    requires KeptOutside(pdir1, mem1, pdir2, mem2, p, lo1, hi)
    ensures KeptOutside(pdir, mem, pdir2, mem2, p, lo, hi)
  {
    hide Ent, UserByte;
  }

  lemma KeptWider(pdir: seq<seq<word>>, mem: seq<Page>, pdir': seq<seq<word>>, mem': seq<Page>, p: nat, lo: nat,
                  hi: nat, lo': nat, hi': nat)
    requires KeptOutside(pdir, mem, pdir', mem', p, lo, hi) && (hi <= lo || (lo' <= lo && hi <= hi'))
    ensures KeptOutside(pdir, mem, pdir', mem', p, lo', hi')
  {
    hide Present, UserByte;
  }

  lemma AddedThen(pdir: seq<seq<word>>, mem: seq<Page>, pdir1: seq<seq<word>>, mem1: seq<Page>, pdir2: seq<seq<word>>,
                  mem2: seq<Page>, p: nat, lo: nat, hi: nat, lo1: nat, hi1: nat)
    requires lo <= lo1 && hi <= hi1 && OnlyAdded(pdir, mem, pdir1, mem1, p, lo, hi)
    requires OnlyAdded(pdir1, mem1, pdir2, mem2, p, lo1, hi1)
    ensures OnlyAdded(pdir, mem, pdir2, mem2, p, lo, hi1)
  {
    hide Present;
  }

  /** Copying one span and then the next is copying both. */
  lemma TriedThen(pdir: seq<seq<word>>, mem: seq<Page>, pdir1: seq<seq<word>>, mem1: seq<Page>, pdir2: seq<seq<word>>,
                  mem2: seq<Page>, p: nat, va: nat, m: nat, k: nat, w: nat, w1: nat)
    requires Tried(pdir, mem, pdir1, mem1, p, va, m, w) && Tried(pdir1, mem1, pdir2, mem2, p, va + m, k, w1)
    requires w1 <= w || w1 <= va + m
    ensures Tried(pdir, mem, pdir2, mem2, p, va, m + k, w)
  {
    hide KeptOutside, OnlyAdded, AddedPtu;
    KeptWider(pdir1, mem1, pdir2, mem2, p, va + m, w1, va + m, w);
    KeptThen(pdir, mem, pdir1, mem1, pdir2, mem2, p, va, va + m, w);
    Quota.PagesLe(va, va + m);
    Quota.PagesLe(va + m + PAGESIZE - 1, va + m + k + PAGESIZE - 1);
    AddedThen(pdir, mem, pdir1, mem1, pdir2, mem2, p, va / PAGESIZE, PageEnd(va + m), (va + m) / PAGESIZE,
              PageEnd(va + m + k));
    PtuThen(pdir, mem, pdir1, mem1, pdir2, mem2, p, va + m, w1);
  }

  lemma TriedTwice(pdir: seq<seq<word>>, mem: seq<Page>, pdir1: seq<seq<word>>, mem1: seq<Page>, pdir2: seq<seq<word>>,
                   mem2: seq<Page>, p: nat, va: nat, m: nat, w: nat)
    requires Tried(pdir, mem, pdir1, mem1, p, va, m, w) && Tried(pdir1, mem1, pdir2, mem2, p, va, m, w)
    ensures Tried(pdir, mem, pdir2, mem2, p, va, m, w)
  {
    hide KeptOutside, OnlyAdded, AddedPtu;
    KeptThen(pdir, mem, pdir1, mem1, pdir2, mem2, p, va, va, w);
    AddedThen(pdir, mem, pdir1, mem1, pdir2, mem2, p, va / PAGESIZE, PageEnd(va + m), va / PAGESIZE, PageEnd(va + m));
    PtuThen(pdir, mem, pdir1, mem1, pdir2, mem2, p, va, w);
  }

  /** If both parts are there in the end, the whole is. */
  lemma HoldsThen(pdir1: seq<seq<word>>, mem1: seq<Page>, pdir2: seq<seq<word>>, mem2: seq<Page>, p: nat, va: nat,
                  a: seq<byte>, b: seq<byte>, w: nat)
    requires 1 <= p < NUM_IDS && UserSpan(va, |a|) && Holds(pdir1, mem1, p, va, a)
    requires Tried(pdir1, mem1, pdir2, mem2, p, va + |a|, |b|, w) && Holds(pdir2, mem2, p, va + |a|, b)
    ensures Holds(pdir2, mem2, p, va, a + b)
  {
    hide KeptOutside, OnlyAdded, AddedPtu, Holds;
    HoldsKept(pdir1, mem1, pdir2, mem2, p, va, a, va + |a|, w);
    HoldsJoin(pdir2, mem2, p, va, a, b);
  }

  lemma PokedTried(pdir: seq<seq<word>>, mem: seq<Page>, mem': seq<Page>, p: nat, va: nat, piece: seq<byte>)
    requires Poked(pdir, mem, mem', p, va, piece)
    ensures Tried(pdir, mem, pdir, mem', p, va, |piece|, va + |piece|)
  {
    hide Ent, UserByte;
  }

  lemma PokedHolds(pdir: seq<seq<word>>, mem: seq<Page>, mem': seq<Page>, p: nat, va: nat, piece: seq<byte>)
    requires 1 <= p < NUM_IDS && UserSpan(va, |piece|) && Present(pdir, mem, p, va / PAGESIZE)
    requires Poked(pdir, mem, mem', p, va, piece)
    requires 0 < |piece| <= PAGESIZE - va % PAGESIZE
    ensures Holds(pdir, mem', p, va, piece)
  {
    hide Ent, UserByte;
    forall k: nat | k < |piece| ensures HasByte(pdir, mem', p, va + k, piece[k]) {
      InPage(va, va + k, |piece|);
      PageNumber(p, va + k);
    }
  }

  lemma PokedNeed(pdir: seq<seq<word>>, mem: seq<Page>, u: int, mem': seq<Page>, p: nat, va: nat, piece: seq<byte>,
                  s: set<nat>)
    requires 1 <= p < NUM_IDS && p < |pdir| && Poked(pdir, mem, mem', p, va, piece) && UserPages(s)
    ensures Need(pdir, mem', p, s) == Need(pdir, mem, p, s) && Paid(pdir, mem, u, pdir, mem', u, p)
  {
    hide Ent, UserByte;
    forall r: set<nat> | UserPages(r) ensures Need(pdir, mem', p, r) == Need(pdir, mem, p, r) {
      assert MissingPages(pdir, mem', p, r) == MissingPages(pdir, mem, p, r);
    }
  }

  /** Where the loops stop: the part of the span that lies in the page of `va`. */
  function PieceLen(va: nat, len: nat): (m: nat)
    requires len > 0
    ensures 0 < m <= len && m <= PAGESIZE - va % PAGESIZE
    ensures m < len ==> (va + m) % PAGESIZE == 0
  {
    if len < PAGESIZE - va % PAGESIZE then len else PAGESIZE - va % PAGESIZE
  }

  lemma SpanPages(va: nat, len: nat, k: nat, m: nat)
    requires UserSpan(va, len) && 0 < m && k + m <= len
    ensures UserAddress(va + k) && UserPages(Span(va, len)) && (va + k) / PAGESIZE in Span(va, len)
    ensures (va + k) / PAGESIZE + 1 <= PageEnd(va + k + m)
  {
    Quota.PagesLe(va, va + k);
    Quota.PagesLe(va + k + PAGESIZE, va + len + PAGESIZE - 1);
    assert InSpan(va, len, (va + k) / PAGESIZE);
  }

  lemma EnsuredTried(pdir: seq<seq<word>>, mem: seq<Page>, pdir': seq<seq<word>>, mem': seq<Page>, p: nat, va: nat,
                     m: nat, w: nat)
    requires KeptOutside(pdir, mem, pdir', mem', p, 0, 0) && AddedPtu(pdir, mem, pdir', mem') && m > 0
    requires OnlyAdded(pdir, mem, pdir', mem', p, va / PAGESIZE, va / PAGESIZE + 1)
    ensures Tried(pdir, mem, pdir', mem', p, va, m, w)
  {
    hide KeptOutside, AddedPtu, Present;
    KeptWider(pdir, mem, pdir', mem', p, 0, 0, va, w);
    Quota.PagesLe(va + PAGESIZE, va + m + PAGESIZE - 1);
  }

  /** One turn of the loops of pt_copyout and pt_memset. */
  method WritePiece(mm: Mm, p: nat, va: nat, piece: seq<byte>, ghost s: set<nat>)
    requires mm.Valid() && Exists(mm, p) && UserSpan(va, |piece|) && 0 < |piece| <= PAGESIZE - va % PAGESIZE
    requires UserPages(s) && va / PAGESIZE in s
    modifies mm, mm.pmm
    ensures mm.Valid() && Exists(mm, p) && mm.pmm.cont[p].quota == old(mm.pmm.cont)[p].quota
    ensures Paid(old(mm.pdir), old(mm.mem), old(mm.pmm.cont)[p].usage, mm.pdir, mm.mem, mm.pmm.cont[p].usage, p)
    ensures Tried(old(mm.pdir), old(mm.mem), mm.pdir, mm.mem, p, va, |piece|, va + |piece|)
    ensures old(Affords(mm, p, s)) ==> Bill(mm, p, s) <= old(Bill(mm, p, s)) && Holds(mm.pdir, mm.mem, p, va, piece)
  {
    hide Mm.Valid, KeptOutside, OnlyAdded, Holds, Present, Poked, Need, AddedPtu, Tried, Paid, UserPages;
    SpanPages(va, |piece|, 0, |piece|);
    EnsurePage(mm, p, va, s);
    ghost var pdir, mem, u := mm.pdir, mm.mem, mm.pmm.cont[p].usage;
    EnsuredTried(old(mm.pdir), old(mm.mem), pdir, mem, p, va, |piece|, va + |piece|);
    Poke(mm, p, va, piece);
    PokedTried(pdir, mem, mm.mem, p, va, piece);
    TriedTwice(old(mm.pdir), old(mm.mem), pdir, mem, pdir, mm.mem, p, va, |piece|, va + |piece|);
    PokedNeed(pdir, mem, u, mm.mem, p, va, piece, s);
    PaidThen(old(mm.pdir), old(mm.mem), old(mm.pmm.cont)[p].usage, pdir, mem, u, pdir, mm.mem, u, p);
    if Present(pdir, mem, p, va / PAGESIZE) {
      PokedHolds(pdir, mem, mm.mem, p, va, piece);
    }
  }

  /** The check that the three-argument copies make of the user range, in 32-bit arithmetic. */
  predicate RangeOk(uva: nat, len: nat) { VM_USERLO <= uva && (uva + len) % TWO32 <= VM_USERHI }

  /** The span runs past the top of the address space and ends below the user's end again. */
  predicate ComesRound(uva: nat, len: nat) { VM_USERLO <= uva && TWO32 <= uva + len <= TWO32 + VM_USERHI }

  /** The check means what it says exactly for the other spans. */
  lemma RangeOkExact(uva: nat, len: nat)
    requires uva < TWO32 && len < TWO32
    ensures (RangeOk(uva, len) <==> UserSpan(uva, len)) <==> !ComesRound(uva, len)
  {
  }

  /** The check of the kernel address, in 32-bit arithmetic. */
  predicate KernelOk(kva: nat, len: nat) { (kva + len) % TWO32 <= VM_USERHI }

  lemma KernelOkExact(kva: nat, len: nat)
    requires kva < TWO32 && len < TWO32
    ensures KernelOk(kva, len) <==> kva + len <= VM_USERHI || TWO32 <= kva + len <= TWO32 + VM_USERHI
  {
  }

  /** As for a read of 256 bytes to 128 bytes below the top of the address space. */
  lemma RangeWraps()
    ensures ComesRound(TWO32 - 128, 256) && RangeOk(TWO32 - 128, 256) && !UserSpan(TWO32 - 128, 256)
  {
  }

  /** The quota covers what is missing of the pages that the span touches. */
  ghost predicate CanMove(mm: Mm, p: nat, va: nat, len: nat)
    requires Exists(mm, p)
    reads mm, mm.pmm
  {
    Affords(mm, p, Span(va, len))
  }

  /** A span that is there has been paid for. */
  lemma Settled(mm: Mm, p: nat, va: nat, bytes: seq<byte>)
    requires mm.Valid() && Exists(mm, p) && UserSpan(va, |bytes|) && |bytes| > 0
    requires Holds(mm.pdir, mm.mem, p, va, bytes)
    ensures Bill(mm, p, Span(va, |bytes|)) == mm.pmm.cont[p].usage <= mm.pmm.cont[p].quota
  {
    hide VmInv, Holds, Need, Pmm.Valid;
    VmShape(mm.pdir, mm.mem, mm.role, mm.pmm.own);
    HeldNeeds(mm.pdir, mm.mem, p, va, bytes);
    mm.pmm.Bounds(p);
  }

  lemma PaidAt(mm: Mm, pdir: seq<seq<word>>, mem: seq<Page>, u: int, p: nat, va: nat, len: nat)
    requires Exists(mm, p) && Paid(pdir, mem, u, mm.pdir, mm.mem, mm.pmm.cont[p].usage, p) && UserSpan(va, len)
    requires len > 0
    ensures u + Need(pdir, mem, p, Span(va, len)) <= Bill(mm, p, Span(va, len))
  {
    hide Need, UserPages, Span;
    SpanPages(va, len, 0, len);
  }

  lemma PaidNone(pdir: seq<seq<word>>, mem: seq<Page>, u: int, p: nat)
    requires p < |pdir|
    ensures Paid(pdir, mem, u, pdir, mem, u, p)
  {
  }

  /**
    pt_copyout: `src` are the bytes at the kernel address `kva`.  It always reports all of them copied; the
    process sees them if and only if its quota covers the pages and page tables that are missing, and then
    exactly these have been consumed.
   */
  method CopyOut(mm: Mm, kva: nat, src: seq<byte>, p: nat, uva: nat) returns (copied: nat)
    requires uva < TWO32 && kva < TWO32 && |src| < TWO32 && !ComesRound(uva, |src|) && mm.Valid() && Exists(mm, p)
    modifies mm, mm.pmm
    ensures !(UserSpan(uva, |src|) && KernelOk(kva, |src|)) || src == [] ==>
              copied == 0 && unchanged(mm) && unchanged(mm.pmm)
    ensures UserSpan(uva, |src|) && KernelOk(kva, |src|) ==>
              && copied == |src| && mm.Valid() && Exists(mm, p) && mm.pmm.cont[p].quota == old(mm.pmm.cont)[p].quota
              && Tried(old(mm.pdir), old(mm.mem), mm.pdir, mm.mem, p, uva, |src|, uva + |src|)
              && Paid(old(mm.pdir), old(mm.mem), old(mm.pmm.cont)[p].usage, mm.pdir, mm.mem, mm.pmm.cont[p].usage, p)
    ensures UserSpan(uva, |src|) && KernelOk(kva, |src|) && src != [] ==>
              && (Holds(mm.pdir, mm.mem, p, uva, src) <==> old(CanMove(mm, p, uva, |src|)))
              && (Holds(mm.pdir, mm.mem, p, uva, src) ==>
                    mm.pmm.cont[p].usage == old(Bill(mm, p, Span(uva, |src|))))
  {
    hide Mm.Valid, Holds, Tried, Need, RangeOk, KernelOk, PageEnd, Paid, Span, UserPages;
    RangeOkExact(uva, |src|);
    copied := 0;
    if !RangeOk(uva, |src|) || !KernelOk(kva, |src|) {
      return;
    }
    TriedNone(mm.pdir, mm.mem, p, uva, uva + |src|);
    PaidNone(mm.pdir, mm.mem, mm.pmm.cont[p].usage, p);
    assert src[..0] == [];
    while copied < |src|
      invariant copied <= |src| && mm.Valid() && Exists(mm, p)
      invariant mm.pmm.cont[p].quota == old(mm.pmm.cont)[p].quota
      invariant copied == 0 ==> unchanged(mm) && unchanged(mm.pmm)
      invariant Tried(old(mm.pdir), old(mm.mem), mm.pdir, mm.mem, p, uva, copied, uva + |src|)
      invariant Paid(old(mm.pdir), old(mm.mem), old(mm.pmm.cont)[p].usage, mm.pdir, mm.mem, mm.pmm.cont[p].usage, p)
      invariant old(CanMove(mm, p, uva, |src|)) ==>
                  && Bill(mm, p, Span(uva, |src|)) <= old(Bill(mm, p, Span(uva, |src|)))
                  && Holds(mm.pdir, mm.mem, p, uva, src[..copied])
    {
      var size := PieceLen(uva + copied, |src| - copied);
      var piece := src[copied..copied + size];
      ghost var pdir, mem, u := mm.pdir, mm.mem, mm.pmm.cont[p].usage;
      SpanPages(uva, |src|, copied, size);
      WritePiece(mm, p, uva + copied, piece, Span(uva, |src|));
      TriedThen(old(mm.pdir), old(mm.mem), pdir, mem, mm.pdir, mm.mem, p, uva, copied, size, uva + |src|,
                uva + copied + size);
      PaidThen(old(mm.pdir), old(mm.mem), old(mm.pmm.cont)[p].usage, pdir, mem, u, mm.pdir, mm.mem,
               mm.pmm.cont[p].usage, p);
      if old(CanMove(mm, p, uva, |src|)) {
        HoldsThen(pdir, mem, mm.pdir, mm.mem, p, uva, src[..copied], piece, uva + copied + size);
      }
      assert src[..copied] + piece == src[..copied + size];
      copied := copied + size;
    }
    assert src[..copied] == src;
    if src != [] && Holds(mm.pdir, mm.mem, p, uva, src) {
      Settled(mm, p, uva, src);
      PaidAt(mm, old(mm.pdir), old(mm.mem), old(mm.pmm.cont)[p].usage, p, uva, |src|);
    }
  }

  /** pt_memset, which does not check its range. */
  method MemSet(mm: Mm, p: nat, va: nat, c: byte, len: nat) returns (done: nat)
    requires UserSpan(va, len) && mm.Valid() && Exists(mm, p)
    modifies mm, mm.pmm
    ensures done == len && mm.Valid() && Exists(mm, p) && mm.pmm.cont[p].quota == old(mm.pmm.cont)[p].quota
    ensures len == 0 ==> unchanged(mm) && unchanged(mm.pmm)
    ensures Tried(old(mm.pdir), old(mm.mem), mm.pdir, mm.mem, p, va, len, va + len)
    ensures Paid(old(mm.pdir), old(mm.mem), old(mm.pmm.cont)[p].usage, mm.pdir, mm.mem, mm.pmm.cont[p].usage, p)
    ensures len > 0 ==>
              && (Holds(mm.pdir, mm.mem, p, va, Fill(c, len)) <==> old(CanMove(mm, p, va, len)))
              && (Holds(mm.pdir, mm.mem, p, va, Fill(c, len)) ==>
                    mm.pmm.cont[p].usage == old(Bill(mm, p, Span(va, len))))
  {
    hide Mm.Valid, Holds, Tried, Need, PageEnd, Paid, Span, UserPages;
    done := 0;
    TriedNone(mm.pdir, mm.mem, p, va, va + len);
    PaidNone(mm.pdir, mm.mem, mm.pmm.cont[p].usage, p);
    assert Fill(c, 0) == [];
    while done < len
      invariant done <= len && mm.Valid() && Exists(mm, p)
      invariant mm.pmm.cont[p].quota == old(mm.pmm.cont)[p].quota
      invariant done == 0 ==> unchanged(mm) && unchanged(mm.pmm)
      invariant Tried(old(mm.pdir), old(mm.mem), mm.pdir, mm.mem, p, va, done, va + len)
      invariant Paid(old(mm.pdir), old(mm.mem), old(mm.pmm.cont)[p].usage, mm.pdir, mm.mem, mm.pmm.cont[p].usage, p)
      invariant old(CanMove(mm, p, va, len)) ==>
                  && Bill(mm, p, Span(va, len)) <= old(Bill(mm, p, Span(va, len)))
                  && Holds(mm.pdir, mm.mem, p, va, Fill(c, done))
    {
      var size := PieceLen(va + done, len - done);
      ghost var pdir, mem, u := mm.pdir, mm.mem, mm.pmm.cont[p].usage;
      SpanPages(va, len, done, size);
      WritePiece(mm, p, va + done, Fill(c, size), Span(va, len));
      TriedThen(old(mm.pdir), old(mm.mem), pdir, mem, mm.pdir, mm.mem, p, va, done, size, va + len, va + done + size);
      PaidThen(old(mm.pdir), old(mm.mem), old(mm.pmm.cont)[p].usage, pdir, mem, u, mm.pdir, mm.mem,
               mm.pmm.cont[p].usage, p);
      if old(CanMove(mm, p, va, len)) {
        HoldsThen(pdir, mem, mm.pdir, mm.mem, p, va, Fill(c, done), Fill(c, size), va + done + size);
      }
      assert Fill(c, done) + Fill(c, size) == Fill(c, done + size);
      done := done + size;
    }
    if len > 0 && Holds(mm.pdir, mm.mem, p, va, Fill(c, len)) {
      Settled(mm, p, va, Fill(c, len));
      PaidAt(mm, old(mm.pdir), old(mm.mem), old(mm.pmm.cont)[p].usage, p, va, len);
    }
  }

  function Fill(c: byte, n: nat): (s: seq<byte>)
    ensures |s| == n && forall k :: 0 <= k < n ==> s[k] == c
  {
    seq(n, _ => c)
  }

  /** memcpy out of the physical page that the entry of `va` gives, present or not. */
  method Peek(mm: Mm, p: nat, va: nat, m: nat) returns (piece: seq<byte>)
    requires mm.Valid() && 1 <= p < NUM_IDS && UserAddress(va) && 0 < m <= PAGESIZE - va % PAGESIZE
    ensures |piece| == m && (Holds(mm.pdir, mm.mem, p, va, piece) <==> Present(mm.pdir, mm.mem, p, va / PAGESIZE))
  {
    hide VmInv, Entry, Pmm.Valid;
    PageNumber(p, va);
    EntryPage(mm.pdir, mm.mem, mm.role, mm.pmm.own, p, va / PAGESIZE);
    var g := Entry(mm.pdir, mm.mem, p, Pde(va), Pte(va)) / PAGESIZE;
    piece := mm.mem[g][va % PAGESIZE..va % PAGESIZE + m];
    if Present(mm.pdir, mm.mem, p, va / PAGESIZE) {
      forall k: nat | k < m ensures HasByte(mm.pdir, mm.mem, p, va + k, piece[k]) {
        InPage(va, va + k, m);
      }
    } else {
      assert !HasByte(mm.pdir, mm.mem, p, va + 0, piece[0]);
    }
  }

  /** One turn of the loop of pt_copyin. */
  method ReadPiece(mm: Mm, p: nat, va: nat, m: nat, ghost s: set<nat>, ghost w: nat) returns (piece: seq<byte>)
    requires mm.Valid() && Exists(mm, p) && UserSpan(va, m) && 0 < m <= PAGESIZE - va % PAGESIZE
    requires UserPages(s) && va / PAGESIZE in s
    modifies mm, mm.pmm
    ensures mm.Valid() && Exists(mm, p) && mm.pmm.cont[p].quota == old(mm.pmm.cont)[p].quota
    ensures Paid(old(mm.pdir), old(mm.mem), old(mm.pmm.cont)[p].usage, mm.pdir, mm.mem, mm.pmm.cont[p].usage, p)
    ensures |piece| == m && Tried(old(mm.pdir), old(mm.mem), mm.pdir, mm.mem, p, va, m, w)
    ensures old(Affords(mm, p, s)) ==> Bill(mm, p, s) <= old(Bill(mm, p, s)) && Holds(mm.pdir, mm.mem, p, va, piece)
  {
    hide Mm.Valid, KeptOutside, OnlyAdded, Holds, Present, Tried, Need, AddedPtu, Paid, UserPages;
    SpanPages(va, m, 0, m);
    EnsurePage(mm, p, va, s);
    piece := Peek(mm, p, va, m);
    EnsuredTried(old(mm.pdir), old(mm.mem), mm.pdir, mm.mem, p, va, m, w);
  }

  /** pt_copyin.  A missing page is allocated, so it may change the page tables but no byte that was there. */
  method CopyIn(mm: Mm, p: nat, uva: nat, kva: nat, len: nat) returns (out: seq<byte>, copied: nat)
    requires uva < TWO32 && kva < TWO32 && len < TWO32 && !ComesRound(uva, len) && mm.Valid() && Exists(mm, p)
    modifies mm, mm.pmm
    ensures copied == |out|
    ensures !(UserSpan(uva, len) && KernelOk(kva, len)) || len == 0 ==>
              copied == 0 && unchanged(mm) && unchanged(mm.pmm)
    ensures UserSpan(uva, len) && KernelOk(kva, len) ==>
              && copied == len && mm.Valid() && Exists(mm, p) && mm.pmm.cont[p].quota == old(mm.pmm.cont)[p].quota
              && Tried(old(mm.pdir), old(mm.mem), mm.pdir, mm.mem, p, uva, len, uva)
              && Paid(old(mm.pdir), old(mm.mem), old(mm.pmm.cont)[p].usage, mm.pdir, mm.mem, mm.pmm.cont[p].usage, p)
    ensures UserSpan(uva, len) && KernelOk(kva, len) && len > 0 ==>
              && (Holds(mm.pdir, mm.mem, p, uva, out) <==> old(CanMove(mm, p, uva, len)))
              && (Holds(mm.pdir, mm.mem, p, uva, out) ==>
                    mm.pmm.cont[p].usage == old(Bill(mm, p, Span(uva, len))))
  {
    hide Mm.Valid, Holds, Tried, Need, RangeOk, KernelOk, PageEnd, Paid, Span, UserPages;
    RangeOkExact(uva, len);
    out, copied := [], 0;
    if !RangeOk(uva, len) || !KernelOk(kva, len) {
      return;
    }
    TriedNone(mm.pdir, mm.mem, p, uva, uva);
    PaidNone(mm.pdir, mm.mem, mm.pmm.cont[p].usage, p);
    while copied < len
      invariant copied == |out| <= len && mm.Valid() && Exists(mm, p)
      invariant mm.pmm.cont[p].quota == old(mm.pmm.cont)[p].quota
      invariant copied == 0 ==> unchanged(mm) && unchanged(mm.pmm)
      invariant Tried(old(mm.pdir), old(mm.mem), mm.pdir, mm.mem, p, uva, copied, uva)
      invariant Paid(old(mm.pdir), old(mm.mem), old(mm.pmm.cont)[p].usage, mm.pdir, mm.mem, mm.pmm.cont[p].usage, p)
      invariant old(CanMove(mm, p, uva, len)) ==>
                  && Bill(mm, p, Span(uva, len)) <= old(Bill(mm, p, Span(uva, len)))
                  && Holds(mm.pdir, mm.mem, p, uva, out)
    {
      var size := PieceLen(uva + copied, len - copied);
      ghost var pdir, mem, u := mm.pdir, mm.mem, mm.pmm.cont[p].usage;
      SpanPages(uva, len, copied, size);
      var piece := ReadPiece(mm, p, uva + copied, size, Span(uva, len), uva);
      TriedThen(old(mm.pdir), old(mm.mem), pdir, mem, mm.pdir, mm.mem, p, uva, copied, size, uva, uva);
      PaidThen(old(mm.pdir), old(mm.mem), old(mm.pmm.cont)[p].usage, pdir, mem, u, mm.pdir, mm.mem,
               mm.pmm.cont[p].usage, p);
      if old(CanMove(mm, p, uva, len)) {
        HoldsThen(pdir, mem, mm.pdir, mm.mem, p, uva, out, piece, uva);
      }
      out, copied := out + piece, copied + size;
    }
    if len > 0 && Holds(mm.pdir, mm.mem, p, uva, out) {
      Settled(mm, p, uva, out);
      PaidAt(mm, old(mm.pdir), old(mm.mem), old(mm.pmm.cont)[p].usage, p, uva, len);
    }
  }

  /** The bytes of a span are determined by the state. */
  lemma HoldsUnique(pdir: seq<seq<word>>, mem: seq<Page>, p: nat, va: nat, a: seq<byte>, b: seq<byte>)
    requires |a| == |b| && Holds(pdir, mem, p, va, a) && Holds(pdir, mem, p, va, b)
    ensures a == b
  {
    hide UserByte, Present;
    forall k: nat | k < |a| ensures a[k] == b[k] {
      assert HasByte(pdir, mem, p, va + k, a[k]);
    }
  }

  lemma HeldPage(pdir: seq<seq<word>>, mem: seq<Page>, p: nat, va: nat, bytes: seq<byte>, n: nat)
    requires Holds(pdir, mem, p, va, bytes) && va / PAGESIZE <= n < PageEnd(va + |bytes|) && |bytes| > 0
    ensures Present(pdir, mem, p, n)
  {
    hide Present, UserByte;
    var k: nat := if va / PAGESIZE == n then 0 else n * PAGESIZE - va;
    assert k < |bytes| && (va + k) / PAGESIZE == n;
    assert HasByte(pdir, mem, p, va + k, bytes[k]);
  }

  /** Nothing is missing under a span that is there. */
  lemma HeldNeeds(pdir: seq<seq<word>>, mem: seq<Page>, p: nat, va: nat, bytes: seq<byte>)
    requires Shape(pdir, mem) && 1 <= p < NUM_IDS && UserSpan(va, |bytes|) && Holds(pdir, mem, p, va, bytes)
    requires |bytes| > 0
    ensures Need(pdir, mem, p, Span(va, |bytes|)) == 0
  {
    hide UserByte, Holds, PageEnd;
    SpanPages(va, |bytes|, 0, |bytes|);
    forall n | n in Span(va, |bytes|) ensures Present(pdir, mem, p, n) {
      HeldPage(pdir, mem, p, va, bytes, n);
    }
    NothingMissing(pdir, mem, p, Span(va, |bytes|));
  }

  lemma NothingMissing(pdir: seq<seq<word>>, mem: seq<Page>, p: nat, s: set<nat>)
    requires Shape(pdir, mem) && p < NUM_IDS && UserPages(s) && forall n :: n in s ==> Present(pdir, mem, p, n)
    ensures Need(pdir, mem, p, s) == 0
  {
    hide Present;
    assert MissingPages(pdir, mem, p, s) == {};
    forall n | n in s ensures pdir[p][n / ENTRIES] != 0 {
      EntryNeedsTable(pdir, mem, p, n);
    }
    assert MissingTables(pdir, p, s) == {};
  }

  lemma EntryNeedsTable(pdir: seq<seq<word>>, mem: seq<Page>, p: nat, n: nat)
    requires Shape(pdir, mem) && p < NUM_IDS && n / ENTRIES < ENTRIES && Present(pdir, mem, p, n)
    ensures pdir[p][n / ENTRIES] != 0
  {
  }

  /**
    If the quota covers the span, copying it out and in again gives the same bytes, and the second copy
    allocates nothing.
   */
  method OutAndIn(mm: Mm, src: seq<byte>, p: nat, uva: nat, kva: nat, kva': nat) returns (out: seq<byte>)
    requires UserSpan(uva, |src|) && mm.Valid() && Exists(mm, p)
    requires kva + |src| <= VM_USERHI && kva' + |src| <= VM_USERHI
    modifies mm, mm.pmm
    ensures mm.Valid() && Exists(mm, p) && |out| == |src|
    ensures old(CanMove(mm, p, uva, |src|)) ==>
              out == src && Moved(old(mm.pdir), old(mm.mem), mm.pdir, mm.mem, p, uva, src, uva + |src|)
    ensures old(CanMove(mm, p, uva, |src|)) && src != [] ==>
              mm.pmm.cont[p].usage == old(Bill(mm, p, Span(uva, |src|)))
  {
    hide VmInv, Moved, Need, Holds, Pmm.Valid, Tried, Span;
    if src == [] {
      MovedNone(mm.pdir, mm.mem, p, uva, uva + |src|);
      return [];
    }
    var n := CopyOut(mm, kva, src, p, uva);
    ghost var pdir, mem := mm.pdir, mm.mem;
    TriedMoved(old(mm.pdir), old(mm.mem), pdir, mem, p, uva, src, uva + |src|);
    ghost var done := Holds(pdir, mem, p, uva, src);
    if done {
      Settled(mm, p, uva, src);
    }
    out, n := CopyIn(mm, p, uva, kva', |src|);
    TriedMoved(pdir, mem, mm.pdir, mm.mem, p, uva, out, uva);
    if done {
      MovedTwice(old(mm.pdir), old(mm.mem), pdir, mem, mm.pdir, mm.mem, p, uva, src, out);
    }
  }

  /** A span that is read back is the span that was written. */
  lemma MovedTwice(pdir: seq<seq<word>>, mem: seq<Page>, pdir1: seq<seq<word>>, mem1: seq<Page>, pdir2: seq<seq<word>>,
                   mem2: seq<Page>, p: nat, va: nat, src: seq<byte>, out: seq<byte>)
    requires 1 <= p < NUM_IDS && UserSpan(va, |src|) && |src| == |out|
    requires Moved(pdir, mem, pdir1, mem1, p, va, src, va + |src|) && Moved(pdir1, mem1, pdir2, mem2, p, va, out, va)
    ensures out == src && Moved(pdir, mem, pdir2, mem2, p, va, src, va + |src|)
  {
    hide KeptOutside, OnlyAdded, Holds;
    HoldsKept(pdir1, mem1, pdir2, mem2, p, va, src, va, va);
    HoldsUnique(pdir2, mem2, p, va, src, out);
    KeptWider(pdir1, mem1, pdir2, mem2, p, va, va, va, va + |src|);
    KeptThen(pdir, mem, pdir1, mem1, pdir2, mem2, p, va, va, va + |src|);
    AddedThen(pdir, mem, pdir1, mem1, pdir2, mem2, p, va / PAGESIZE, PageEnd(va + |src|), va / PAGESIZE,
              PageEnd(va + |src|));
  }
}
