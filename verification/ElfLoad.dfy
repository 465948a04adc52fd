/** Loading the segments of an executable, kern/lib/elf.c. */
module ElfLoad {
  import opened Bytes
  import opened Collections
  import Quota
  import opened PageAlloc
  import opened PageTable
  import opened Vmm
  import opened UserCopy

  /** The fields of a program header that elf_load reads. */
  datatype ProgHdr = ProgHdr(load: bool, offset: nat, va: nat, filesz: nat, memsz: nat, writable: bool)

  function RoundDown(x: nat): (r: nat) { x - x % PAGESIZE }

  /** The pages that a segment covers. */
  function First(s: ProgHdr): (n: nat) { s.va / PAGESIZE }
  function Last(s: ProgHdr): (n: nat) { PageEnd(s.va + s.memsz) }

  /** A load segment as the linker lays it out: offset and address agree within a page. */
  ghost predicate Loadable(s: ProgHdr, exe: seq<byte>) {
    && s.offset % PAGESIZE == s.va % PAGESIZE && s.filesz <= s.memsz
    && UserSpan(s.va, s.memsz) && s.offset + s.filesz <= |exe|
  }

  /** The bytes of the segment's pages from the first to the last. */
  function Image(s: ProgHdr, exe: seq<byte>): (r: seq<byte>)
    requires s.offset % PAGESIZE == s.va % PAGESIZE && s.offset + s.filesz <= |exe|
  {
    seq(if First(s) <= Last(s) then (Last(s) - First(s)) * PAGESIZE else 0, j requires j >= 0 =>
      if s.filesz > 0 && First(s) * PAGESIZE + j < s.va + s.filesz then FileByte(s, exe, j) else 0)
  }

  function FileByte(s: ProgHdr, exe: seq<byte>, j: nat): (x: byte)
    requires s.offset % PAGESIZE == s.va % PAGESIZE && s.offset + s.filesz <= |exe|
    requires First(s) * PAGESIZE + j < s.va + s.filesz
  {
    exe[RoundDown(s.offset) + j]
  }

  /** What the file promises at the segment's address: its bytes, then zeros. */
  function Contents(s: ProgHdr, exe: seq<byte>): (r: seq<byte>)
    requires s.offset + s.filesz <= |exe| && s.filesz <= s.memsz
    ensures |r| == s.memsz
    ensures forall k :: 0 <= k < s.filesz ==> r[k] == exe[s.offset + k]
    ensures forall k :: s.filesz <= k < s.memsz ==> r[k] == 0
  {
    exe[s.offset..s.offset + s.filesz] + Fill(0, s.memsz - s.filesz)
  }

  lemma ImageHasContents(s: ProgHdr, exe: seq<byte>)
    requires Loadable(s, exe)
    ensures s.va % PAGESIZE + s.memsz <= |Image(s, exe)|
    ensures Contents(s, exe) == Image(s, exe)[s.va % PAGESIZE..s.va % PAGESIZE + s.memsz]
  {
    hide Contents;
    assert First(s) * PAGESIZE + s.va % PAGESIZE == s.va;
    assert RoundDown(s.offset) + s.va % PAGESIZE == s.offset;
    var b := Image(s, exe)[s.va % PAGESIZE..s.va % PAGESIZE + s.memsz];
    forall k | 0 <= k < s.memsz ensures b[k] == Contents(s, exe)[k] {
      assert b[k] == Image(s, exe)[s.va % PAGESIZE + k];
    }
  }

  lemma HoldsSlice(pdir: seq<seq<word>>, mem: seq<Page>, p: nat, va: nat, bytes: seq<byte>, i: nat, j: nat)
    requires i <= j <= |bytes| && Holds(pdir, mem, p, va, bytes)
    ensures Holds(pdir, mem, p, va + i, bytes[i..j])
  {
    hide HasByte;
    forall k: nat | k < j - i ensures HasByte(pdir, mem, p, va + i + k, bytes[i..j][k]) {
      assert HasByte(pdir, mem, p, va + (i + k), bytes[i + k]);
    }
  }

  /** `part` written over the front of `bytes`. */
  lemma Overwritten(pdir: seq<seq<word>>, mem: seq<Page>, pdir': seq<seq<word>>, mem': seq<Page>, p: nat, va: nat,
                    bytes: seq<byte>, part: seq<byte>)
    requires 1 <= p < NUM_IDS && UserSpan(va, |bytes|) && |part| <= |bytes| && Holds(pdir, mem, p, va, bytes)
    requires Tried(pdir, mem, pdir', mem', p, va, |part|, va + |part|) && Holds(pdir', mem', p, va, part)
    ensures Holds(pdir', mem', p, va, part + bytes[|part|..])
  {
    hide KeptOutside, OnlyAdded, AddedPtu, Holds;
    HoldsSlice(pdir, mem, p, va, bytes, |part|, |bytes|);
    assert bytes[|part|..] == bytes[|part|..|bytes|];
    HoldsKept(pdir, mem, pdir', mem', p, va + |part|, bytes[|part|..], va, va + |part|);
    HoldsJoin(pdir', mem', p, va, part, bytes[|part|..]);
  }

  /** Only pages `lo` to `hi` of process `p` have been written to or added. */
  ghost predicate Visited(pdir: seq<seq<word>>, mem: seq<Page>, pdir': seq<seq<word>>, mem': seq<Page>, p: nat, lo: nat,
                          hi: nat) {
    && KeptOutside(pdir, mem, pdir', mem', p, lo * PAGESIZE, hi * PAGESIZE)
    && OnlyAdded(pdir, mem, pdir', mem', p, lo, hi)
  }

  lemma VisitedNone(pdir: seq<seq<word>>, mem: seq<Page>, p: nat, lo: nat, hi: nat)
    ensures Visited(pdir, mem, pdir, mem, p, lo, hi)
  {
  }

  lemma VisitedThen(pdir: seq<seq<word>>, mem: seq<Page>, pdir1: seq<seq<word>>, mem1: seq<Page>,
                    pdir2: seq<seq<word>>, mem2: seq<Page>, p: nat, lo: nat, hi: nat, lo1: nat, hi1: nat)
    requires Visited(pdir, mem, pdir1, mem1, p, lo, hi) && Visited(pdir1, mem1, pdir2, mem2, p, lo1, hi1)
    requires lo <= lo1 && hi <= hi1
    ensures Visited(pdir, mem, pdir2, mem2, p, lo, hi1)
  {
    hide KeptOutside, OnlyAdded;
    KeptWider(pdir, mem, pdir1, mem1, p, lo * PAGESIZE, hi * PAGESIZE, lo * PAGESIZE, hi1 * PAGESIZE);
    KeptThen(pdir, mem, pdir1, mem1, pdir2, mem2, p, lo * PAGESIZE, lo1 * PAGESIZE, hi1 * PAGESIZE);
    AddedThen(pdir, mem, pdir1, mem1, pdir2, mem2, p, lo, hi, lo1, hi1);
  }

  /** Copying to the front of a page visits that page. */
  lemma TriedPage(pdir: seq<seq<word>>, mem: seq<Page>, pdir': seq<seq<word>>, mem': seq<Page>, p: nat, va: nat, m: nat)
    requires Tried(pdir, mem, pdir', mem', p, va, m, va + m) && va % PAGESIZE == 0 && 0 < m <= PAGESIZE
    ensures Visited(pdir, mem, pdir', mem', p, va / PAGESIZE, va / PAGESIZE + 1)
  {
    hide KeptOutside, OnlyAdded, AddedPtu;
    assert PageEnd(va + m) == va / PAGESIZE + 1;
    KeptWider(pdir, mem, pdir', mem', p, va, va + m, va, (va / PAGESIZE + 1) * PAGESIZE);
  }

  /** A page that is present stays so, as it is. */
  lemma StillPresent(pdir: seq<seq<word>>, mem: seq<Page>, pdir': seq<seq<word>>, mem': seq<Page>, p: nat, lo: nat,
                     hi: nat, n: nat)
    requires Visited(pdir, mem, pdir', mem', p, lo, hi) && UserN(p, n) && Present(pdir, mem, p, n)
    ensures Ent(pdir', mem', p, n) == Ent(pdir, mem, p, n) && Present(pdir', mem', p, n)
  {
    hide Ent, UserByte, OnlyAdded, TablesKept;
    assert n == n * PAGESIZE / PAGESIZE;
  }

  /** A copy within a page that is present has all it needs. */
  lemma PageThere(mm: Mm, p: nat, va: nat, m: nat)
    requires mm.Valid() && Exists(mm, p) && UserSpan(va, PAGESIZE) && va % PAGESIZE == 0 && 0 < m <= PAGESIZE
    requires Present(mm.pdir, mm.mem, p, va / PAGESIZE)
    ensures CanMove(mm, p, va, m) && Bill(mm, p, Span(va, m)) == mm.pmm.cont[p].usage
  {
    hide VmInv, Need, Pmm.Valid, Present;
    VmShape(mm.pdir, mm.mem, mm.role, mm.pmm.own);
    SpanPages(va, m, 0, m);
    assert PageEnd(va + m) == va / PAGESIZE + 1;
    assert forall n :: n in Span(va, m) ==> n == va / PAGESIZE;
    NothingMissing(mm.pdir, mm.mem, p, Span(va, m));
    mm.pmm.Bounds(p);
  }

  /** What page `va` of the segment is made of, case by case as elf_load tests them. */
  lemma PageBytes(s: ProgHdr, exe: seq<byte>, va: nat)
    requires Loadable(s, exe) && va % PAGESIZE == 0 && First(s) * PAGESIZE <= va < Last(s) * PAGESIZE
    ensures va + PAGESIZE <= First(s) * PAGESIZE + |Image(s, exe)|
    ensures var j, zva := va - First(s) * PAGESIZE, s.va + s.filesz;
            var fa := RoundDown(s.offset) + j;
            var page := Image(s, exe)[j..j + PAGESIZE];
            if va < RoundDown(zva) then fa + PAGESIZE <= |exe| && page == exe[fa..fa + PAGESIZE]
            else if va < zva && s.filesz > 0 then
              && zva - va < PAGESIZE && fa + (zva - va) <= |exe|
              && page == exe[fa..fa + (zva - va)] + Fill(0, PAGESIZE - (zva - va))
            else page == Fill(0, PAGESIZE)
  {
    hide Fill;
    var j, fa, zva := va - First(s) * PAGESIZE, RoundDown(s.offset) + (va - First(s) * PAGESIZE), s.va + s.filesz;
    assert fa + (zva - va) == s.offset + s.filesz;
    Multiple(va, First(s), Last(s), zva);
    hide RoundDown, PageEnd;
    var page := Image(s, exe)[j..j + PAGESIZE];
    forall k: nat | k < PAGESIZE ensures page[k] == if s.filesz > 0 && va + k < zva then exe[fa + k] else 0 {
      assert page[k] == Image(s, exe)[j + k];
    }
  }

  /** Page-aligned addresses below a bound stay a whole page below it. */
  lemma Multiple(va: nat, lo: nat, hi: nat, z: nat)
    requires va % PAGESIZE == 0 && lo * PAGESIZE <= va < hi * PAGESIZE
    ensures va + PAGESIZE <= hi * PAGESIZE && (va < RoundDown(z) ==> va + PAGESIZE <= RoundDown(z))
  {
  }

  /** pt_copyout or pt_memset to the front of a page; the page need not be there. */
  method FillFront(mm: Mm, p: nat, kva: nat, src: seq<byte>, zeros: bool, va: nat)
    requires mm.Valid() && Exists(mm, p) && UserSpan(va, PAGESIZE) && va % PAGESIZE == 0
    requires 0 < |src| <= PAGESIZE && kva + |src| <= VM_USERHI && (zeros ==> src == Fill(0, |src|))
    modifies mm, mm.pmm
    ensures mm.Valid() && Exists(mm, p) && mm.pmm.cont[p].quota == old(mm.pmm.cont)[p].quota
    ensures Paid(old(mm.pdir), old(mm.mem), old(mm.pmm.cont)[p].usage, mm.pdir, mm.mem, mm.pmm.cont[p].usage, p)
    ensures Tried(old(mm.pdir), old(mm.mem), mm.pdir, mm.mem, p, va, |src|, va + |src|)
    ensures old(Present(mm.pdir, mm.mem, p, va / PAGESIZE)) ==>
              mm.pmm.cont[p].usage == old(mm.pmm.cont)[p].usage && Holds(mm.pdir, mm.mem, p, va, src)
  {
    hide Mm.Valid, Tried, Holds, Need, Fill, Paid, Present, Span, Affords, Bill;
    if Present(mm.pdir, mm.mem, p, va / PAGESIZE) {
      PageThere(mm, p, va, |src|);
    }
    if zeros {
      var n := MemSet(mm, p, va, 0, |src|);
    } else {
      var n := CopyOut(mm, kva, src, p, va);
    }
  }

  /** A page that the file covers only in part: zeros, and `part` over them. */
  method FillPartly(mm: Mm, p: nat, kva: nat, part: seq<byte>, va: nat)
    requires mm.Valid() && Exists(mm, p) && UserSpan(va, PAGESIZE) && va % PAGESIZE == 0
    requires 0 < |part| < PAGESIZE && kva + |part| <= VM_USERHI
    modifies mm, mm.pmm
    ensures mm.Valid() && Exists(mm, p) && mm.pmm.cont[p].quota == old(mm.pmm.cont)[p].quota
    ensures Paid(old(mm.pdir), old(mm.mem), old(mm.pmm.cont)[p].usage, mm.pdir, mm.mem, mm.pmm.cont[p].usage, p)
    ensures Visited(old(mm.pdir), old(mm.mem), mm.pdir, mm.mem, p, va / PAGESIZE, va / PAGESIZE + 1)
    ensures old(Present(mm.pdir, mm.mem, p, va / PAGESIZE)) ==>
              && mm.pmm.cont[p].usage == old(mm.pmm.cont)[p].usage
              && Holds(mm.pdir, mm.mem, p, va, part + Fill(0, PAGESIZE - |part|))
  {
    hide Mm.Valid, Tried, Visited, Holds, Need, Fill, Paid, Ent;
    FillFront(mm, p, 0, Fill(0, PAGESIZE), true, va);
    ghost var pdir, mem, u := mm.pdir, mm.mem, mm.pmm.cont[p].usage;
    TriedPage(old(mm.pdir), old(mm.mem), pdir, mem, p, va, PAGESIZE);
    FillFront(mm, p, kva, part, false, va);
    TriedPage(pdir, mem, mm.pdir, mm.mem, p, va, |part|);
    VisitedThen(old(mm.pdir), old(mm.mem), pdir, mem, mm.pdir, mm.mem, p, va / PAGESIZE, va / PAGESIZE + 1,
                va / PAGESIZE, va / PAGESIZE + 1);
    PaidThen(old(mm.pdir), old(mm.mem), old(mm.pmm.cont)[p].usage, pdir, mem, u, mm.pdir, mm.mem,
             mm.pmm.cont[p].usage, p);
    if old(Present(mm.pdir, mm.mem, p, va / PAGESIZE)) {
      HeldPage(pdir, mem, p, va, Fill(0, PAGESIZE), va / PAGESIZE);
      Overwritten(pdir, mem, mm.pdir, mm.mem, p, va, Fill(0, PAGESIZE), part);
      assert Fill(0, PAGESIZE)[|part|..] == Fill(0, PAGESIZE - |part|);
    }
  }

  /** The three ways elf_load fills a page that alloc_page has been asked for. */
  method FillPage(mm: Mm, p: nat, s: ProgHdr, exe: seq<byte>, kva: nat, va: nat)
    requires mm.Valid() && Exists(mm, p) && Loadable(s, exe) && kva + |exe| <= VM_USERHI
    requires va % PAGESIZE == 0 && First(s) * PAGESIZE <= va < Last(s) * PAGESIZE
    modifies mm, mm.pmm
    ensures mm.Valid() && Exists(mm, p) && mm.pmm.cont[p].quota == old(mm.pmm.cont)[p].quota
    ensures Paid(old(mm.pdir), old(mm.mem), old(mm.pmm.cont)[p].usage, mm.pdir, mm.mem, mm.pmm.cont[p].usage, p)
    ensures Visited(old(mm.pdir), old(mm.mem), mm.pdir, mm.mem, p, va / PAGESIZE, va / PAGESIZE + 1)
    ensures va - First(s) * PAGESIZE + PAGESIZE <= |Image(s, exe)|
    ensures old(Present(mm.pdir, mm.mem, p, va / PAGESIZE)) ==>
              && mm.pmm.cont[p].usage == old(mm.pmm.cont)[p].usage
              && Holds(mm.pdir, mm.mem, p, va, PageOf(s, exe, va))
  {
    hide Mm.Valid, Tried, Visited, Holds, Need, Image, Fill, Paid, Present;
    PageBytes(s, exe, va);
    SegmentSpan(s, exe, va);
    var fa, zva := RoundDown(s.offset) + (va - First(s) * PAGESIZE), s.va + s.filesz;
    if va < RoundDown(zva) {
      FillFront(mm, p, kva + fa, exe[fa..fa + PAGESIZE], false, va);
      TriedPage(old(mm.pdir), old(mm.mem), mm.pdir, mm.mem, p, va, PAGESIZE);
    } else if va < zva && s.filesz > 0 {
      FillPartly(mm, p, kva + fa, exe[fa..fa + (zva - va)], va);
    } else {
      FillFront(mm, p, 0, Fill(0, PAGESIZE), true, va);
      TriedPage(old(mm.pdir), old(mm.mem), mm.pdir, mm.mem, p, va, PAGESIZE);
    }
  }

  /** The bytes of the segment's page at `va`. */
  ghost function PageOf(s: ProgHdr, exe: seq<byte>, va: nat): (r: seq<byte>)
    requires Loadable(s, exe)
    requires First(s) * PAGESIZE <= va && va - First(s) * PAGESIZE + PAGESIZE <= |Image(s, exe)|
  {
    Image(s, exe)[va - First(s) * PAGESIZE..va - First(s) * PAGESIZE + PAGESIZE]
  }

  lemma SegmentSpan(s: ProgHdr, exe: seq<byte>, va: nat)
    requires Loadable(s, exe) && va % PAGESIZE == 0 && First(s) * PAGESIZE <= va < Last(s) * PAGESIZE
    ensures UserSpan(va, PAGESIZE) && UserAddress(va) && Last(s) <= Quota.USERHI
    ensures Quota.USERLO <= va / PAGESIZE < Last(s)
    ensures PageEnd(va + PAGESIZE) == va / PAGESIZE + 1 && (va + PAGESIZE) / PAGESIZE == va / PAGESIZE + 1
  {
  }

  function Perm(s: ProgHdr): (perm: nat) { if s.writable then PTE_U + PTE_P + PTE_W else PTE_U + PTE_P }

  /** The pages of `p` from `lo` to `hi` are mapped with permission `perm`. */
  ghost predicate MappedAs(pdir: seq<seq<word>>, mem: seq<Page>, p: nat, lo: nat, hi: nat, perm: nat) {
    forall n: nat :: lo <= n < hi ==> Ent(pdir, mem, p, n) % PAGESIZE == perm
  }

  lemma MappedKept(pdir: seq<seq<word>>, mem: seq<Page>, pdir': seq<seq<word>>, mem': seq<Page>, p: nat, a: nat, b: nat,
                   lo: nat, hi: nat, perm: nat)
    requires MappedAs(pdir, mem, p, lo, hi, perm) && Visited(pdir, mem, pdir', mem', p, a, b) && perm % 2 == 1
    requires 1 <= p < NUM_IDS && Quota.USERLO <= lo && hi <= Quota.USERHI
    ensures MappedAs(pdir', mem', p, lo, hi, perm)
  {
    hide Ent, Visited;
    forall n: nat | lo <= n < hi ensures Ent(pdir', mem', p, n) % PAGESIZE == perm {
      ParityOf(Ent(pdir, mem, p, n));
      StillPresent(pdir, mem, pdir', mem', p, a, b, n);
    }
  }

  lemma MappedMore(pdir: seq<seq<word>>, mem: seq<Page>, p: nat, lo: nat, hi: nat, perm: nat)
    requires MappedAs(pdir, mem, p, lo, hi, perm) && Ent(pdir, mem, p, hi) % PAGESIZE == perm
    ensures MappedAs(pdir, mem, p, lo, hi + 1, perm)
  {
    hide Ent;
  }

  /** One page of a segment: alloc_page, whose failure goes unnoticed, then its bytes. */
  method LoadPage(mm: Mm, p: nat, s: ProgHdr, exe: seq<byte>, kva: nat, va: nat, ghost all: set<nat>)
    requires mm.Valid() && Exists(mm, p) && Loadable(s, exe) && kva + |exe| <= VM_USERHI
    requires va % PAGESIZE == 0 && First(s) * PAGESIZE <= va < Last(s) * PAGESIZE
    requires !Present(mm.pdir, mm.mem, p, va / PAGESIZE) && UserPages(all) && va / PAGESIZE in all
    modifies mm, mm.pmm
    ensures mm.Valid() && Exists(mm, p) && mm.pmm.cont[p].quota == old(mm.pmm.cont)[p].quota
    ensures Paid(old(mm.pdir), old(mm.mem), old(mm.pmm.cont)[p].usage, mm.pdir, mm.mem, mm.pmm.cont[p].usage, p)
    ensures Visited(old(mm.pdir), old(mm.mem), mm.pdir, mm.mem, p, va / PAGESIZE, va / PAGESIZE + 1)
    ensures va - First(s) * PAGESIZE + PAGESIZE <= |Image(s, exe)|
    ensures old(Affords(mm, p, all)) ==>
              && Bill(mm, p, all) <= old(Bill(mm, p, all))
              && Ent(mm.pdir, mm.mem, p, va / PAGESIZE) % PAGESIZE == Perm(s)
              && Holds(mm.pdir, mm.mem, p, va, PageOf(s, exe, va))
  {
    hide Mm.Valid, Ent, Visited, KeptOutside, OnlyAdded, Need, Image, Present, Holds, Paid, UserPages;
    SegmentSpan(s, exe, va);
    PermOdd(s);
    ghost var n := va / PAGESIZE;
    TryPage(mm, p, va, Perm(s), all);
    ghost var pdir, mem, u := mm.pdir, mm.mem, mm.pmm.cont[p].usage;
    TriedVisited(old(mm.pdir), old(mm.mem), pdir, mem, p, n);
    FillPage(mm, p, s, exe, kva, va);
    VisitedThen(old(mm.pdir), old(mm.mem), pdir, mem, mm.pdir, mm.mem, p, n, n + 1, n, n + 1);
    PaidThen(old(mm.pdir), old(mm.mem), old(mm.pmm.cont)[p].usage, pdir, mem, u, mm.pdir, mm.mem,
             mm.pmm.cont[p].usage, p);
    if Present(pdir, mem, p, n) {
      StillPresent(pdir, mem, mm.pdir, mm.mem, p, n, n + 1, n);
      VisitedNeed(pdir, mem, mm.pdir, mm.mem, p, n, n + 1, all);
    }
  }

  lemma TriedVisited(pdir: seq<seq<word>>, mem: seq<Page>, pdir': seq<seq<word>>, mem': seq<Page>, p: nat, n: nat)
    requires KeptOutside(pdir, mem, pdir', mem', p, 0, 0) && OnlyAdded(pdir, mem, pdir', mem', p, n, n + 1)
    ensures Visited(pdir, mem, pdir', mem', p, n, n + 1)
  {
    hide KeptOutside, OnlyAdded;
    KeptWider(pdir, mem, pdir', mem', p, 0, 0, n * PAGESIZE, (n + 1) * PAGESIZE);
  }

  lemma VisitedNeed(pdir: seq<seq<word>>, mem: seq<Page>, pdir': seq<seq<word>>, mem': seq<Page>, p: nat, lo: nat,
                    hi: nat, s: set<nat>)
    requires Visited(pdir, mem, pdir', mem', p, lo, hi) && p < |pdir| && 1 <= p < NUM_IDS && UserPages(s)
    ensures p < |pdir'| && Need(pdir', mem', p, s) <= Need(pdir, mem, p, s)
  {
    NeedKept(pdir, mem, pdir', mem', p, lo * PAGESIZE, hi * PAGESIZE, s);
  }

  /** No page of `p` between `lo` and `hi` is present. */
  ghost predicate Absent(pdir: seq<seq<word>>, mem: seq<Page>, p: nat, lo: nat, hi: nat) {
    forall n: nat :: lo <= n < hi ==> !Present(pdir, mem, p, n)
  }

  lemma StillAbsent(pdir: seq<seq<word>>, mem: seq<Page>, pdir': seq<seq<word>>, mem': seq<Page>, p: nat, a: nat,
                    b: nat, lo: nat, hi: nat)
    requires Visited(pdir, mem, pdir', mem', p, a, b) && 1 <= p < NUM_IDS && Quota.USERLO <= lo && hi <= Quota.USERHI
    requires Absent(pdir, mem, p, lo, hi) && (hi <= a || b <= lo)
    ensures Absent(pdir', mem', p, lo, hi)
  {
    hide Present, UserByte, KeptOutside;
  }

  lemma ImageSize(s: ProgHdr, exe: seq<byte>)
    requires Loadable(s, exe)
    ensures First(s) <= Last(s) && |Image(s, exe)| == (Last(s) - First(s)) * PAGESIZE
    ensures RoundDown(s.va) == First(s) * PAGESIZE
    ensures UserSpan(First(s) * PAGESIZE, |Image(s, exe)|)
  {
    Quota.PagesLe(s.va, s.va + s.memsz + PAGESIZE - 1);
  }

  lemma AbsentAt(pdir: seq<seq<word>>, mem: seq<Page>, p: nat, lo: nat, hi: nat)
    requires Absent(pdir, mem, p, lo, hi) && lo < hi
    ensures !Present(pdir, mem, p, lo) && Absent(pdir, mem, p, lo + 1, hi)
  {
    hide Present;
  }

  /** The segment is there as the file has it: contents and permissions. */
  ghost predicate There(pdir: seq<seq<word>>, mem: seq<Page>, p: nat, s: ProgHdr, exe: seq<byte>)
    requires Loadable(s, exe)
  {
    && Holds(pdir, mem, p, First(s) * PAGESIZE, Image(s, exe))
    && MappedAs(pdir, mem, p, First(s), Last(s), Perm(s))
  }

  /** The page loop for one load segment. */
  method LoadSegment(mm: Mm, p: nat, s: ProgHdr, exe: seq<byte>, kva: nat, ghost all: set<nat>)
    requires mm.Valid() && Exists(mm, p) && Loadable(s, exe) && kva + |exe| <= VM_USERHI
    requires Absent(mm.pdir, mm.mem, p, First(s), Last(s))
    requires UserPages(all) && forall n :: First(s) <= n < Last(s) ==> n in all
    modifies mm, mm.pmm
    ensures mm.Valid() && Exists(mm, p) && mm.pmm.cont[p].quota == old(mm.pmm.cont)[p].quota
    ensures Paid(old(mm.pdir), old(mm.mem), old(mm.pmm.cont)[p].usage, mm.pdir, mm.mem, mm.pmm.cont[p].usage, p)
    ensures Visited(old(mm.pdir), old(mm.mem), mm.pdir, mm.mem, p, First(s), Last(s))
    ensures old(Affords(mm, p, all)) ==>
              Bill(mm, p, all) <= old(Bill(mm, p, all)) && There(mm.pdir, mm.mem, p, s, exe)
  {
    hide Mm.Valid, Visited, Need, Image, Absent, Ent, MappedAs, Perm, Holds, Paid, UserPages, PageOf;
    ImageSize(s, exe);
    ghost var base, img := First(s) * PAGESIZE, Image(s, exe);
    var va := RoundDown(s.va);
    MappedNone(mm.pdir, mm.mem, p, First(s), Perm(s));
    VisitedNone(mm.pdir, mm.mem, p, First(s), First(s));
    PaidNone(mm.pdir, mm.mem, mm.pmm.cont[p].usage, p);
    HoldsNone(mm.pdir, mm.mem, p, base);
    assert img[..0] == [];
    while va < Last(s) * PAGESIZE
      invariant base <= va <= Last(s) * PAGESIZE && va % PAGESIZE == 0 && mm.Valid() && Exists(mm, p)
      invariant mm.pmm.cont[p].quota == old(mm.pmm.cont)[p].quota
      invariant Paid(old(mm.pdir), old(mm.mem), old(mm.pmm.cont)[p].usage, mm.pdir, mm.mem, mm.pmm.cont[p].usage, p)
      invariant Visited(old(mm.pdir), old(mm.mem), mm.pdir, mm.mem, p, First(s), va / PAGESIZE)
      invariant Absent(mm.pdir, mm.mem, p, va / PAGESIZE, Last(s))
      invariant old(Affords(mm, p, all)) ==>
                  && Bill(mm, p, all) <= old(Bill(mm, p, all))
                  && MappedAs(mm.pdir, mm.mem, p, First(s), va / PAGESIZE, Perm(s))
                  && Holds(mm.pdir, mm.mem, p, base, img[..va - base])
    {
      SegmentSpan(s, exe, va);
      ghost var n := va / PAGESIZE;
      AbsentAt(mm.pdir, mm.mem, p, n, Last(s));
      ghost var pdir, mem, u := mm.pdir, mm.mem, mm.pmm.cont[p].usage;
      LoadPage(mm, p, s, exe, kva, va, all);
      StillAbsent(pdir, mem, mm.pdir, mm.mem, p, n, n + 1, n + 1, Last(s));
      VisitedThen(old(mm.pdir), old(mm.mem), pdir, mem, mm.pdir, mm.mem, p, First(s), n, n, n + 1);
      PaidThen(old(mm.pdir), old(mm.mem), old(mm.pmm.cont)[p].usage, pdir, mem, u, mm.pdir, mm.mem,
               mm.pmm.cont[p].usage, p);
      if old(Affords(mm, p, all)) {
        PageLoaded(pdir, mem, mm.pdir, mm.mem, p, s, exe, va);
      }
      va := va + PAGESIZE;
    }
    assert img[..va - base] == img;
  }

  lemma HoldsNone(pdir: seq<seq<word>>, mem: seq<Page>, p: nat, va: nat)
    ensures Holds(pdir, mem, p, va, [])
  {
  }

  /** One more page of the segment. */
  lemma PageLoaded(pdir: seq<seq<word>>, mem: seq<Page>, pdir': seq<seq<word>>, mem': seq<Page>, p: nat, s: ProgHdr,
                   exe: seq<byte>, va: nat)
    requires 1 <= p < NUM_IDS && Loadable(s, exe) && va % PAGESIZE == 0
    requires First(s) * PAGESIZE <= va < Last(s) * PAGESIZE
    requires va - First(s) * PAGESIZE + PAGESIZE <= |Image(s, exe)|
    requires Visited(pdir, mem, pdir', mem', p, va / PAGESIZE, va / PAGESIZE + 1)
    requires MappedAs(pdir, mem, p, First(s), va / PAGESIZE, Perm(s))
    requires Ent(pdir', mem', p, va / PAGESIZE) % PAGESIZE == Perm(s)
    requires Holds(pdir, mem, p, First(s) * PAGESIZE, Image(s, exe)[..va - First(s) * PAGESIZE])
    requires Holds(pdir', mem', p, va, PageOf(s, exe, va))
    ensures MappedAs(pdir', mem', p, First(s), va / PAGESIZE + 1, Perm(s))
    ensures Holds(pdir', mem', p, First(s) * PAGESIZE, Image(s, exe)[..va - First(s) * PAGESIZE + PAGESIZE])
  {
    hide Ent, Image, Holds, KeptOutside, OnlyAdded, MappedAs, Perm;
    SegmentSpan(s, exe, va);
    ImageSize(s, exe);
    PermOdd(s);
    var base, img := First(s) * PAGESIZE, Image(s, exe);
    MappedKept(pdir, mem, pdir', mem', p, va / PAGESIZE, va / PAGESIZE + 1, First(s), va / PAGESIZE, Perm(s));
    MappedMore(pdir', mem', p, First(s), va / PAGESIZE, Perm(s));
    HoldsKept(pdir, mem, pdir', mem', p, base, img[..va - base], va, va + PAGESIZE);
    HoldsJoin(pdir', mem', p, base, img[..va - base], PageOf(s, exe, va));
    assert img[..va - base] + PageOf(s, exe, va) == img[..va - base + PAGESIZE];
  }

  lemma PermOdd(s: ProgHdr)
    ensures Perm(s) % 2 == 1 && Perm(s) < PAGESIZE
  {
  }

  lemma MappedNone(pdir: seq<seq<word>>, mem: seq<Page>, p: nat, lo: nat, perm: nat)
    ensures MappedAs(pdir, mem, p, lo, lo, perm)
  {
  }

  /** No two load segments share a page. */
  ghost predicate Separate(phs: seq<ProgHdr>) {
    forall i, j :: 0 <= i < j < |phs| && phs[i].load && phs[j].load ==>
      Last(phs[i]) <= First(phs[j]) || Last(phs[j]) <= First(phs[i])
  }

  ghost predicate AllLoadable(phs: seq<ProgHdr>, exe: seq<byte>) {
    forall i :: 0 <= i < |phs| && phs[i].load ==> Loadable(phs[i], exe)
  }

  /** The segments from `i` on are not there yet; those before `i` are complete. */
  ghost predicate Pending(pdir: seq<seq<word>>, mem: seq<Page>, p: nat, phs: seq<ProgHdr>, i: nat) {
    forall k: nat :: i <= k < |phs| && phs[k].load ==> Absent(pdir, mem, p, First(phs[k]), Last(phs[k]))
  }

  ghost predicate Loaded(pdir: seq<seq<word>>, mem: seq<Page>, p: nat, phs: seq<ProgHdr>, exe: seq<byte>, i: nat)
    requires AllLoadable(phs, exe)
  {
    forall k: nat :: k < i && k < |phs| && phs[k].load ==> There(pdir, mem, p, phs[k], exe)
  }

  ghost predicate InSegments(phs: seq<ProgHdr>, n: nat) {
    exists k :: 0 <= k < |phs| && phs[k].load && First(phs[k]) <= n < Last(phs[k])
  }

  /** The pages of the load segments. */
  ghost function Segments(phs: seq<ProgHdr>): (s: set<nat>)
    ensures UserPages(s)
  {
    set n | Quota.USERLO <= n < Quota.USERHI && InSegments(phs, n)
  }

  lemma SegmentIn(phs: seq<ProgHdr>, exe: seq<byte>, i: nat)
    requires i < |phs| && phs[i].load && Loadable(phs[i], exe)
    ensures Quota.USERLO <= First(phs[i]) && Last(phs[i]) <= Quota.USERHI
    ensures forall n :: First(phs[i]) <= n < Last(phs[i]) ==> n in Segments(phs)
  {
    forall n | First(phs[i]) <= n < Last(phs[i]) ensures n in Segments(phs) {
      assert InSegments(phs, n);
    }
  }

  /** No page has become present except pages of load segments of process `p`. */
  ghost predicate AddedSegments(pdir: seq<seq<word>>, mem: seq<Page>, pdir': seq<seq<word>>, mem': seq<Page>, p: nat,
                                phs: seq<ProgHdr>) {
    forall q: nat, n: nat :: UserN(q, n) && Present(pdir', mem', q, n) && !(q == p && InSegments(phs, n)) ==>
      Present(pdir, mem, q, n)
  }

  lemma SegmentAdded(pdir: seq<seq<word>>, mem: seq<Page>, pdir1: seq<seq<word>>, mem1: seq<Page>,
                     pdir2: seq<seq<word>>, mem2: seq<Page>, p: nat, phs: seq<ProgHdr>, i: nat)
    requires i < |phs| && phs[i].load && AddedSegments(pdir, mem, pdir1, mem1, p, phs)
    requires Visited(pdir1, mem1, pdir2, mem2, p, First(phs[i]), Last(phs[i]))
    ensures AddedSegments(pdir, mem, pdir2, mem2, p, phs)
  {
    hide Present, UserByte, KeptOutside;
  }

  /** Loading pages that were absent changes no byte that was there. */
  lemma SegmentKept(pdir: seq<seq<word>>, mem: seq<Page>, pdir': seq<seq<word>>, mem': seq<Page>, p: nat, lo: nat,
                    hi: nat)
    requires Absent(pdir, mem, p, lo, hi) && Visited(pdir, mem, pdir', mem', p, lo, hi)
    ensures KeptOutside(pdir, mem, pdir', mem', p, 0, 0)
  {
    hide Present, UserByte, OnlyAdded, TablesKept;
    forall q: nat, va: nat | UserN(q, va / PAGESIZE) && Present(pdir, mem, q, va / PAGESIZE)
      ensures !(q == p && lo * PAGESIZE <= va < hi * PAGESIZE)
    {
      if lo * PAGESIZE <= va < hi * PAGESIZE {
        assert lo <= va / PAGESIZE < hi;
      }
    }
  }

  lemma LaterPending(pdir: seq<seq<word>>, mem: seq<Page>, pdir': seq<seq<word>>, mem': seq<Page>, p: nat,
                     phs: seq<ProgHdr>, exe: seq<byte>, i: nat)
    requires i < |phs| && phs[i].load && AllLoadable(phs, exe) && Separate(phs) && Pending(pdir, mem, p, phs, i)
    requires 1 <= p < NUM_IDS && Visited(pdir, mem, pdir', mem', p, First(phs[i]), Last(phs[i]))
    ensures Pending(pdir', mem', p, phs, i + 1)
  {
    hide Visited, Absent;
    forall k: nat | i + 1 <= k < |phs| && phs[k].load ensures Absent(pdir', mem', p, First(phs[k]), Last(phs[k])) {
      SegmentIn(phs, exe, k);
      StillAbsent(pdir, mem, pdir', mem', p, First(phs[i]), Last(phs[i]), First(phs[k]), Last(phs[k]));
    }
  }

  lemma EarlierLoaded(pdir: seq<seq<word>>, mem: seq<Page>, pdir': seq<seq<word>>, mem': seq<Page>, p: nat,
                      phs: seq<ProgHdr>, exe: seq<byte>, i: nat)
    requires i < |phs| && phs[i].load && AllLoadable(phs, exe) && Separate(phs) && Loaded(pdir, mem, p, phs, exe, i)
    requires 1 <= p < NUM_IDS && Visited(pdir, mem, pdir', mem', p, First(phs[i]), Last(phs[i]))
    requires There(pdir', mem', p, phs[i], exe)
    ensures Loaded(pdir', mem', p, phs, exe, i + 1)
  {
    hide There;
    forall k: nat | k < i && phs[k].load ensures There(pdir', mem', p, phs[k], exe) {
      StillThere(pdir, mem, pdir', mem', p, phs[k], exe, First(phs[i]), Last(phs[i]));
    }
  }

  lemma StillThere(pdir: seq<seq<word>>, mem: seq<Page>, pdir': seq<seq<word>>, mem': seq<Page>, p: nat, s: ProgHdr,
                   exe: seq<byte>, lo: nat, hi: nat)
    requires 1 <= p < NUM_IDS && Loadable(s, exe) && There(pdir, mem, p, s, exe)
    requires Visited(pdir, mem, pdir', mem', p, lo, hi) && (Last(s) <= lo || hi <= First(s))
    ensures There(pdir', mem', p, s, exe)
  {
    hide KeptOutside, OnlyAdded, Holds, Image, MappedAs, Perm;
    ImageSize(s, exe);
    SegmentIn([s.(load := true)], exe, 0);
    PermOdd(s);
    MappedKept(pdir, mem, pdir', mem', p, lo, hi, First(s), Last(s), Perm(s));
    HoldsKept(pdir, mem, pdir', mem', p, First(s) * PAGESIZE, Image(s, exe), lo * PAGESIZE, hi * PAGESIZE);
  }

  /** The pages of a segment, by its addresses. */
  lemma PagesOf(s: ProgHdr, n: nat)
    ensures First(s) <= n < Last(s) <==> s.va / 4096 <= n && n * 4096 < s.va + s.memsz
  {
  }

  lemma PermBits(s: ProgHdr, e: nat)
    requires e % PAGESIZE == Perm(s)
    ensures e % 2 == 1 && e / 4 % 2 == 1 && (e / 2 % 2 == 1 <==> s.writable)
  {
    var q := 512 * (e / PAGESIZE);
    var w := if s.writable then 1 else 0;
    ThreeBits(e, q, w);
  }

  /** A number whose lowest bits are 1, w and 1. */
  lemma ThreeBits(e: nat, q: nat, w: nat)
    requires e == 8 * q + 4 + 2 * w + 1 && w < 2
    ensures e % 2 == 1 && e / 4 % 2 == 1 && e / 2 % 2 == w
  {
    assert e / 4 == 2 * q + 1 && e / 2 == 2 * (2 * q + 1) + w;
  }

  lemma LoadedContents(pdir: seq<seq<word>>, mem: seq<Page>, p: nat, phs: seq<ProgHdr>, exe: seq<byte>, k: nat, a: nat)
    requires AllLoadable(phs, exe) && Loaded(pdir, mem, p, phs, exe, |phs|) && k < |phs| && phs[k].load
    requires phs[k].va <= a < phs[k].va + phs[k].memsz
    ensures var s := phs[k];
            && s.offset + s.filesz <= |exe|
            && UserByte(pdir, mem, p, a) == if a < s.va + s.filesz then exe[s.offset + (a - s.va)] else 0
  {
    hide Image, Contents, UserByte, MappedAs, Perm;
    var s := phs[k];
    assert There(pdir, mem, p, s, exe);
    ImageHasContents(s, exe);
    HoldsSlice(pdir, mem, p, First(s) * PAGESIZE, Image(s, exe), s.va % PAGESIZE, s.va % PAGESIZE + s.memsz);
    assert HasByte(pdir, mem, p, s.va + (a - s.va), Contents(s, exe)[a - s.va]);
  }

  lemma LoadedBits(pdir: seq<seq<word>>, mem: seq<Page>, p: nat, phs: seq<ProgHdr>, exe: seq<byte>, k: nat, n: nat)
    requires AllLoadable(phs, exe) && Loaded(pdir, mem, p, phs, exe, |phs|) && k < |phs| && phs[k].load
    requires phs[k].va / 4096 <= n && n * 4096 < phs[k].va + phs[k].memsz
    ensures var e := Ent(pdir, mem, p, n); e % 2 == 1 && e / 4 % 2 == 1 && (e / 2 % 2 == 1 <==> phs[k].writable)
  {
    hide Ent, Image, Holds, Perm;
    assert There(pdir, mem, p, phs[k], exe);
    PagesOf(phs[k], n);
    PermBits(phs[k], Ent(pdir, mem, p, n));
  }

  /** All pages of the load segments are present. */
  ghost predicate AllPresent(pdir: seq<seq<word>>, mem: seq<Page>, p: nat, phs: seq<ProgHdr>) {
    forall k: nat, n: nat ::
      k < |phs| && phs[k].load && phs[k].va / 4096 <= n && n * 4096 < phs[k].va + phs[k].memsz ==>
        Ent(pdir, mem, p, n) % 2 == 1
  }

  /** When every page of the segments is there, nothing of them is missing. */
  lemma AllThere(mm: Mm, p: nat, phs: seq<ProgHdr>)
    requires mm.Valid() && Exists(mm, p) && AllPresent(mm.pdir, mm.mem, p, phs)
    ensures Bill(mm, p, Segments(phs)) == mm.pmm.cont[p].usage <= mm.pmm.cont[p].quota
  {
    hide VmInv, Pmm.Valid, Ent, Need, First, Last;
    VmShape(mm.pdir, mm.mem, mm.role, mm.pmm.own);
    forall n | n in Segments(phs) ensures Present(mm.pdir, mm.mem, p, n) {
      var k :| 0 <= k < |phs| && phs[k].load && First(phs[k]) <= n < Last(phs[k]);
      PagesOf(phs[k], n);
    }
    NothingMissing(mm.pdir, mm.mem, p, Segments(phs));
    mm.pmm.Bounds(p);
  }

  /**
    elf_load into a process that has none of the segments' pages.  It never reports a failure: all pages
    of the segments are there if and only if the quota covers them and the page tables that are missing for
    them, each once.  Then exactly these have been consumed, the segments' bytes are those of the file and
    zeros after them, and the entry of each page is present (bit 0), the user's (bit 2), and writable (bit 1)
    iff its segment is.  In any case nothing that was there changes, and no other page becomes present.
   */
  method Load(mm: Mm, p: nat, phs: seq<ProgHdr>, exe: seq<byte>, kva: nat)
    requires mm.Valid() && Exists(mm, p) && AllLoadable(phs, exe) && Separate(phs) && kva + |exe| <= VM_USERHI
    requires Pending(mm.pdir, mm.mem, p, phs, 0)
    modifies mm, mm.pmm
    ensures mm.Valid() && Exists(mm, p) && mm.pmm.cont[p].quota == old(mm.pmm.cont)[p].quota
    ensures Loaded(mm.pdir, mm.mem, p, phs, exe, |phs|) <==> old(Affords(mm, p, Segments(phs)))
    ensures Loaded(mm.pdir, mm.mem, p, phs, exe, |phs|) ==> mm.pmm.cont[p].usage == old(Bill(mm, p, Segments(phs)))
    ensures old(Affords(mm, p, Segments(phs))) <==>
              forall k: nat, n: nat ::
                k < |phs| && phs[k].load && phs[k].va / 4096 <= n && n * 4096 < phs[k].va + phs[k].memsz ==>
                  Ent(mm.pdir, mm.mem, p, n) % 2 == 1
    ensures old(Affords(mm, p, Segments(phs))) ==> forall k: nat, n: nat ::
              k < |phs| && phs[k].load && phs[k].va / 4096 <= n && n * 4096 < phs[k].va + phs[k].memsz ==>
                var e := Ent(mm.pdir, mm.mem, p, n); e / 4 % 2 == 1 && (e / 2 % 2 == 1 <==> phs[k].writable)
    ensures old(Affords(mm, p, Segments(phs))) ==> forall k: nat, a: nat ::
              k < |phs| && phs[k].load && phs[k].va <= a < phs[k].va + phs[k].memsz ==>
                UserByte(mm.pdir, mm.mem, p, a) ==
                  if a < phs[k].va + phs[k].filesz then exe[phs[k].offset + (a - phs[k].va)] else 0
    ensures KeptOutside(old(mm.pdir), old(mm.mem), mm.pdir, mm.mem, p, 0, 0)
    ensures AddedSegments(old(mm.pdir), old(mm.mem), mm.pdir, mm.mem, p, phs)
  {
    hide Mm.Valid, KeptOutside, AddedSegments, Visited, Pending, Loaded, Separate, There, Need, Paid, Segments;
    hide Absent, Ent, UserByte;
    NothingLoaded(mm.pdir, mm.mem, p, phs, exe);
    PaidNone(mm.pdir, mm.mem, mm.pmm.cont[p].usage, p);
    var i := 0;
    while i < |phs|
      invariant i <= |phs| && mm.Valid() && Exists(mm, p) && mm.pmm.cont[p].quota == old(mm.pmm.cont)[p].quota
      invariant Paid(old(mm.pdir), old(mm.mem), old(mm.pmm.cont)[p].usage, mm.pdir, mm.mem, mm.pmm.cont[p].usage, p)
      invariant Pending(mm.pdir, mm.mem, p, phs, i)
      invariant KeptOutside(old(mm.pdir), old(mm.mem), mm.pdir, mm.mem, p, 0, 0)
      invariant AddedSegments(old(mm.pdir), old(mm.mem), mm.pdir, mm.mem, p, phs)
      invariant old(Affords(mm, p, Segments(phs))) ==>
                  && Bill(mm, p, Segments(phs)) <= old(Bill(mm, p, Segments(phs)))
                  && Loaded(mm.pdir, mm.mem, p, phs, exe, i)
    {
      ghost var pdir, mem, u := mm.pdir, mm.mem, mm.pmm.cont[p].usage;
      SkipOne(pdir, mem, p, phs, exe, i);
      if phs[i].load {
        SegmentIn(phs, exe, i);
        LoadSegment(mm, p, phs[i], exe, kva, Segments(phs));
        LaterPending(pdir, mem, mm.pdir, mm.mem, p, phs, exe, i);
        if old(Affords(mm, p, Segments(phs))) {
          EarlierLoaded(pdir, mem, mm.pdir, mm.mem, p, phs, exe, i);
        }
        SegmentKept(pdir, mem, mm.pdir, mm.mem, p, First(phs[i]), Last(phs[i]));
        KeptThen(old(mm.pdir), old(mm.mem), pdir, mem, mm.pdir, mm.mem, p, 0, 0, 0);
        SegmentAdded(old(mm.pdir), old(mm.mem), pdir, mem, mm.pdir, mm.mem, p, phs, i);
        PaidThen(old(mm.pdir), old(mm.mem), old(mm.pmm.cont)[p].usage, pdir, mem, u, mm.pdir, mm.mem,
                 mm.pmm.cont[p].usage, p);
      }
      i := i + 1;
    }
    LoadedAll(mm.pdir, mm.mem, p, phs, exe);
    if AllPresent(mm.pdir, mm.mem, p, phs) {
      AllThere(mm, p, phs);
      AllPaid(old(mm.pdir), old(mm.mem), old(mm.pmm.cont)[p].usage, mm.pdir, mm.mem, mm.pmm.cont[p].usage, p,
              Segments(phs));
    }
  }

  lemma LoadedAll(pdir: seq<seq<word>>, mem: seq<Page>, p: nat, phs: seq<ProgHdr>, exe: seq<byte>)
    requires AllLoadable(phs, exe)
    ensures Loaded(pdir, mem, p, phs, exe, |phs|) ==> AllPresent(pdir, mem, p, phs)
    ensures Loaded(pdir, mem, p, phs, exe, |phs|) ==> forall k: nat, n: nat ::
              k < |phs| && phs[k].load && phs[k].va / 4096 <= n && n * 4096 < phs[k].va + phs[k].memsz ==>
                var e := Ent(pdir, mem, p, n); e / 4 % 2 == 1 && (e / 2 % 2 == 1 <==> phs[k].writable)
    ensures Loaded(pdir, mem, p, phs, exe, |phs|) ==> forall k: nat, a: nat ::
              k < |phs| && phs[k].load && phs[k].va <= a < phs[k].va + phs[k].memsz ==>
                UserByte(pdir, mem, p, a) ==
                  if a < phs[k].va + phs[k].filesz then exe[phs[k].offset + (a - phs[k].va)] else 0
  {
    hide Loaded, Ent, UserByte;
    if Loaded(pdir, mem, p, phs, exe, |phs|) {
      forall k: nat, n: nat |
        k < |phs| && phs[k].load && phs[k].va / 4096 <= n && n * 4096 < phs[k].va + phs[k].memsz
        ensures var e := Ent(pdir, mem, p, n); e % 2 == 1 && e / 4 % 2 == 1 && (e / 2 % 2 == 1 <==> phs[k].writable)
      {
        LoadedBits(pdir, mem, p, phs, exe, k, n);
      }
      forall k: nat, a: nat | k < |phs| && phs[k].load && phs[k].va <= a < phs[k].va + phs[k].memsz
        ensures UserByte(pdir, mem, p, a) ==
                  if a < phs[k].va + phs[k].filesz then exe[phs[k].offset + (a - phs[k].va)] else 0
      {
        LoadedContents(pdir, mem, p, phs, exe, k, a);
      }
    }
  }

  lemma AllPaid(pdir: seq<seq<word>>, mem: seq<Page>, u: int, pdir': seq<seq<word>>, mem': seq<Page>, u': int, p: nat,
                s: set<nat>)
    requires Paid(pdir, mem, u, pdir', mem', u', p) && UserPages(s)
    ensures u + Need(pdir, mem, p, s) <= u' + Need(pdir', mem', p, s)
  {
    hide Need;
  }

  lemma NothingLoaded(pdir: seq<seq<word>>, mem: seq<Page>, p: nat, phs: seq<ProgHdr>, exe: seq<byte>)
    requires AllLoadable(phs, exe)
    ensures Loaded(pdir, mem, p, phs, exe, 0) && KeptOutside(pdir, mem, pdir, mem, p, 0, 0)
    ensures AddedSegments(pdir, mem, pdir, mem, p, phs)
  {
  }

  lemma SkipOne(pdir: seq<seq<word>>, mem: seq<Page>, p: nat, phs: seq<ProgHdr>, exe: seq<byte>, i: nat)
    requires AllLoadable(phs, exe) && i < |phs| && Pending(pdir, mem, p, phs, i)
    ensures phs[i].load ==> Absent(pdir, mem, p, First(phs[i]), Last(phs[i]))
    ensures !phs[i].load ==>
              && Pending(pdir, mem, p, phs, i + 1)
              && (Loaded(pdir, mem, p, phs, exe, i) ==> Loaded(pdir, mem, p, phs, exe, i + 1))
  {
    hide Absent, There;
  }
}
