/** The redo log of kern/fs/log.c above the buffer cache. */
module RedoLog {
  import opened Bytes
  import opened BufCache
  import opened LogSpec
  import opened Collections

  ghost function Locs(ss: set<nat>): (ls: set<Loc>) { set s | s in ss :: At(s) }

  ghost function Elements(ss: seq<nat>): (r: set<nat>) { set s | s in ss }

  /** The log while no commit is in progress: nothing on disk but the log blocks has changed. */
  ghost predicate LogInv(g: Area, disk: Image, view: Image, busy: set<Loc>, dirty: set<Loc>, held: set<nat>,
                         ss: seq<word>) {
    && Formatted(g, disk) && view.Keys == disk.Keys
    && g.start + g.size <= TWO32
    && HeadCount(disk[At(g.start)]) == 0
    && |ss| <= LOGSIZE && InstallOk(g, disk, ss) && Distinct(ss)
    && busy == Locs(held) && (forall s :: s in held ==> Home(g, s))
    && dirty == Locs(Elements(ss))
    && (forall i :: 0 <= i < |ss| ==> disk[At(g.start + 1 + i)] == view[At(ss[i])])
  }

  lemma NoneInstalled(g: Area, d: Image, ss: seq<nat>)
    requires InstallOk(g, d, ss)
    ensures Installed(g, d, ss, 0) == d
  {
  }

  lemma InstallSource(g: Area, d: Image, ss: seq<nat>, k: nat)
    requires InstallOk(g, d, ss) && k < |ss|
    ensures At(g.start + k + 1) in d && Installed(g, d, ss, k)[At(g.start + k + 1)] == d[At(g.start + k + 1)]
    ensures At(ss[k]) in d && At(g.start + k + 1) != At(ss[k])
  {
    InstalledFrame(g, d, ss, k, At(g.start + k + 1));
  }

  lemma {:induction false} LocsSize(ss: set<nat>)
    ensures |Locs(ss)| == |ss|
  {
    if ss != {} {
      var s :| s in ss;
      LocsSize(ss - {s});
      assert Locs(ss) == Locs(ss - {s}) + {At(s)};
    }
  }

  lemma {:induction false} ElementsSize(ss: seq<nat>)
    ensures |Elements(ss)| <= |ss|
  {
    if ss != [] {
      ElementsSize(ss[1..]);
      assert Elements(ss) == Elements(ss[1..]) + {ss[0]};
    }
  }

  /** The buffers that install_trans has still to write, before iteration `k`. */
  lemma DirtyRest(ss: seq<nat>, k: nat)
    requires k < |ss|
    ensures At(ss[k]) in Locs(Elements(ss[k..])) && |Locs(Elements(ss[k..]))| <= |ss|
    ensures Distinct(ss) ==> Locs(Elements(ss[k..])) - {At(ss[k])} == Locs(Elements(ss[k + 1..]))
  {
    assert ss[k..] == [ss[k]] + ss[k + 1..];
    LocsSize(Elements(ss[k..]));
    ElementsSize(ss[k..]);
    assert Elements(ss[k..]) == Elements(ss[k + 1..]) + {ss[k]};
    assert Locs(Elements(ss[k..])) == Locs(Elements(ss[k + 1..])) + {At(ss[k])};
    if Distinct(ss) {
      assert ss[k] !in Elements(ss[k + 1..]);
    }
  }

  ghost function Appended(ss: seq<word>, s: word): (r: seq<word>) {
    if s in ss then ss else ss + [s]
  }

  /** Where log_write puts sector `s`: its own old slot, or the next free one. */
  ghost predicate Slot(ss: seq<word>, s: word, i: nat) {
    i <= |ss| && s !in ss[..i] && (i < |ss| ==> ss[i] == s)
  }

  lemma AppendedInv(g: Area, disk: Image, view: Image, busy: set<Loc>, dirty: set<Loc>, held: set<nat>,
                    ss: seq<word>, s: word, i: nat, data: Block)
    requires LogInv(g, disk, view, busy, dirty, held, ss) && Slot(ss, s, i)
    requires Home(g, s) && |ss| < LOGSIZE && |ss| < g.size - 1
    ensures At(g.start + 1 + i) in disk && At(g.start + 1 + i) !in busy && At(g.start + 1 + i) !in dirty
    ensures LogInv(g, disk[At(g.start + 1 + i) := data], view[At(s) := data][At(g.start + 1 + i) := data],
                   busy, dirty + {At(s)}, held, Appended(ss, s))
  {
    var ss' := Appended(ss, s);
    assert ss'[i] == s && Distinct(ss');
    assert Locs(Elements(ss')) == Locs(Elements(ss)) + {At(s)};
    var disk', view' := disk[At(g.start + 1 + i) := data], view[At(s) := data][At(g.start + 1 + i) := data];
    forall k | 0 <= k < |ss'| ensures disk'[At(g.start + 1 + k)] == view'[At(ss'[k])] {
    }
  }

  /** What the cache shows is what the disk holds with the log applied. */
  lemma InvApplied(g: Area, disk: Image, view: Image, busy: set<Loc>, dirty: set<Loc>, held: set<nat>, ss: seq<word>)
    requires LogInv(g, disk, view, busy, dirty, held, ss)
    requires forall l :: l in disk && l !in dirty ==> view[l] == disk[l]
    ensures InstallOk(g, disk, ss) && |ss| <= LOGSIZE && Formatted(g, view)
    ensures Applied(g, disk, ss, HomeOf(g, disk), HomeOf(g, view))
  {
    forall s: nat | s < g.start && s !in ss ensures view[At(s)] == disk[At(s)] {
      assert At(s) !in dirty;
    }
  }

  lemma NothingApplied(g: Area, d: Image, v: map<nat, Block>, w: map<nat, Block>)
    requires Formatted(g, d) && Applied(g, d, [], v, w)
    ensures v == w
  {
  }

  lemma AppendedElements(ss: seq<word>, s: word)
    ensures Elements(Appended(ss, s)) == Elements(ss) + {s}
    ensures |Elements(ss) + {s}| == |Elements(ss)| + if s in ss then 0 else 1
    ensures |Appended(ss, s)| == |ss| + if s in ss then 0 else 1
  {
    if s in ss {
      assert Elements(ss) + {s} == Elements(ss);
    }
  }

  lemma HeldInv(g: Area, disk: Image, view: Image, busy: set<Loc>, dirty: set<Loc>, held: set<nat>, ss: seq<word>,
                s: nat)
    requires LogInv(g, disk, view, busy, dirty, held, ss) && Home(g, s)
    ensures LogInv(g, disk, view, busy + {At(s)}, dirty, held + {s}, ss)
    ensures LogInv(g, disk, view, busy - {At(s)}, dirty, held - {s}, ss)
    ensures At(s) in disk && (s !in held ==> At(s) !in busy)
  {
    assert Locs(held + {s}) == Locs(held) + {At(s)};
    assert Locs(held - {s}) == Locs(held) - {At(s)};
  }

  /** A log append changes the view of one sector and nothing that a crash would leave. */
  lemma AppendedHome(g: Area, disk: Image, view: Image, busy: set<Loc>, dirty: set<Loc>, held: set<nat>,
                     ss: seq<word>, s: word, i: nat, data: Block)
    requires LogInv(g, disk, view, busy, dirty, held, ss) && i <= |ss| < g.size - 1 && Home(g, s)
    ensures var disk', view' := disk[At(g.start + 1 + i) := data], view[At(s) := data][At(g.start + 1 + i) := data];
            && Formatted(g, disk') && Formatted(g, view')
            && HomeOf(g, view') == HomeOf(g, view)[s := data] && HomeOf(g, disk') == HomeOf(g, disk)
            && Recovers(g, disk', HomeOf(g, disk))
  {
    var disk', view' := disk[At(g.start + 1 + i) := data], view[At(s) := data][At(g.start + 1 + i) := data];
    LogBlockHome(g, disk, g.start + 1 + i, data);
    HomeBlock(g, view, s, data);
    LogBlockHome(g, view[At(s) := data], g.start + 1 + i, data);
    assert disk'[At(g.start)] == disk[At(g.start)];
    NothingCommitted(g, disk');
    hide LogInv, HeadCount, HomeOf;
  }

  /** A write behind the head of the log changes no home sector. */
  lemma LogBlockHome(g: Area, d: Image, s: nat, data: Block)
    requires Formatted(g, d) && g.start < s < g.start + g.size
    ensures Formatted(g, d[At(s) := data]) && HomeOf(g, d[At(s) := data]) == HomeOf(g, d)
  {
    HomeIs(g, d[At(s) := data], HomeOf(g, d));
  }

  lemma HomeBlock(g: Area, d: Image, s: nat, data: Block)
    requires Formatted(g, d) && s < g.start
    ensures Formatted(g, d[At(s) := data]) && HomeOf(g, d[At(s) := data]) == HomeOf(g, d)[s := data]
  {
    HomeIs(g, d[At(s) := data], HomeOf(g, d)[s := data]);
  }

  lemma Addressed(g: Area, d: Image)
    requires LogOk(g, d)
    ensures Formatted(g, d) && At(g.start) in d && HeadCount(d[At(g.start)]) <= LOGSIZE
  {
  }

  lemma RecoveredIsEmpty(g: Area, d: Image)
    requires LogOk(g, d)
    ensures Formatted(g, Recovered(g, d)) && HeadCount(Recovered(g, d)[At(g.start)]) == 0
  {
    HeadRoundTrip(d[At(g.start)], []);
  }

  /** Every disk left behind since `mark` holds `base` and recovers to it. */
  ghost predicate Unchanged(g: Area, mark: seq<Image>, trace: seq<Image>, base: map<nat, Block>) {
    mark <= trace && forall k :: |mark| <= k < |trace| ==> Recovers(g, trace[k], base) && HomeOf(g, trace[k]) == base
  }

  lemma UnchangedAppend(g: Area, mark: seq<Image>, trace: seq<Image>, base: map<nat, Block>, d: Image)
    requires Unchanged(g, mark, trace, base) && Recovers(g, d, base) && HomeOf(g, d) == base
    ensures Unchanged(g, mark, trace + [d], base)
  {
  }

  /** The sectors on which two views differ. */
  ghost function Changed(v: map<nat, Block>, w: map<nat, Block>): (s: set<nat>) {
    set s | s in v.Keys + w.Keys && !(s in v && s in w && v[s] == w[s])
  }

  /** `ptr` names the buffers of sectors outside the log that the thread holds. */
  ghost predicate Holding(g: Area, bufs: seq<Buf<Block>>, ptr: map<nat, nat>) {
    forall s :: s in ptr ==> Home(g, s) && HeldAs(bufs, ptr[s], At(s))
  }

  lemma HoldingOne(g: Area, bufs: seq<Buf<Block>>, ptr: map<nat, nat>, s: nat)
    requires Holding(g, bufs, ptr) && s in ptr
    ensures Home(g, s) && HeldAs(bufs, ptr[s], At(s))
  {
  }

  lemma HoldingMore(g: Area, bufs: seq<Buf<Block>>, bufs': seq<Buf<Block>>, ptr: map<nat, nat>, s: nat, b: nat)
    requires Holding(g, bufs, ptr) && Home(g, s) && HeldAs(bufs', b, At(s))
    requires |bufs| == |bufs'| && forall i :: 0 <= i < |bufs| && i != b ==> bufs'[i] == bufs[i]
    requires b < |bufs| && !bufs[b].busy
    ensures Holding(g, bufs', ptr[s := b])
  {
  }

  lemma HoldingLess(g: Area, bufs: seq<Buf<Block>>, ptr: map<nat, nat>, s: nat)
    requires Holding(g, bufs, ptr) && s in ptr
    ensures ptr[s] < |bufs|
    ensures Holding(g, bufs[ptr[s] := bufs[ptr[s]].(busy := false)], ptr - {s})
  {
    forall x | x in ptr && x != s ensures ptr[x] != ptr[s] {
      assert HeldAs(bufs, ptr[x], At(x));
    }
  }

  lemma HoldingKept(g: Area, bufs: seq<Buf<Block>>, bufs': seq<Buf<Block>>, ptr: map<nat, nat>)
    requires Holding(g, bufs, ptr)
    requires forall k, l :: HeldAs(bufs, k, l) ==> HeldAs(bufs', k, l)
    ensures Holding(g, bufs', ptr)
  {
  }

  /** The whole state of the log and of the thread that uses it. */
  ghost predicate LogState(g: Area, bufs: seq<Buf<Block>>, disk: Image, cview: Image, busy: set<Loc>, dirty: set<Loc>,
                  edited: set<nat>, trace: seq<Image>, n: nat, sector: seq<word>, ptr: map<nat, nat>,
                  held: set<nat>, logged: set<nat>, view: map<nat, Block>, base: map<nat, Block>, mark: seq<Image>) {
    && edited == {} && n <= |sector| == LOGSIZE
    && Formatted(g, disk) && Formatted(g, cview)
    && LogInv(g, disk, cview, busy, dirty, held, sector[..n])
    && Unchanged(g, mark, trace, base)
    && view == HomeOf(g, cview) && base == HomeOf(g, disk)
    && logged == Elements(sector[..n]) && |logged| == n
    && ptr.Keys == held && Holding(g, bufs, ptr)
  }

  lemma StateRead(g: Area, bufs: seq<Buf<Block>>, disk: Image, cview: Image, busy: set<Loc>, dirty: set<Loc>,
                  edited: set<nat>, trace: seq<Image>, n: nat, sector: seq<word>, ptr: map<nat, nat>,
                  held: set<nat>, logged: set<nat>, view: map<nat, Block>, base: map<nat, Block>, mark: seq<Image>,
                  bufs': seq<Buf<Block>>, s: nat, b: nat)
    requires LogState(g, bufs, disk, cview, busy, dirty, edited, trace, n, sector, ptr, held, logged, view, base, mark)
    requires Home(g, s) && HeldAs(bufs', b, At(s)) && b < |bufs| && !bufs[b].busy
    requires |bufs| == |bufs'| && forall i :: 0 <= i < |bufs| && i != b ==> bufs'[i] == bufs[i]
    ensures LogState(g, bufs', disk, cview, busy + {At(s)}, dirty, edited, trace, n, sector, ptr[s := b],
                     held + {s}, logged, view, base, mark)
  {
    hide LogInv, Unchanged, HomeOf, Elements, Formatted, Holding;
    HeldInv(g, disk, cview, busy, dirty, held, sector[..n], s);
    HoldingMore(g, bufs, bufs', ptr, s, b);
  }

  lemma StateRelease(g: Area, bufs: seq<Buf<Block>>, disk: Image, cview: Image, busy: set<Loc>, dirty: set<Loc>,
                  edited: set<nat>, trace: seq<Image>, n: nat, sector: seq<word>, ptr: map<nat, nat>,
                  held: set<nat>, logged: set<nat>, view: map<nat, Block>, base: map<nat, Block>, mark: seq<Image>,
                     s: nat)
    requires LogState(g, bufs, disk, cview, busy, dirty, edited, trace, n, sector, ptr, held, logged, view, base, mark)
    requires s in held
    ensures Home(g, s) && s in ptr && HeldAs(bufs, ptr[s], At(s)) && ptr[s] < |bufs| && edited == {}
    ensures LogState(g, bufs[ptr[s] := bufs[ptr[s]].(busy := false)], disk, cview, busy - {At(s)}, dirty, edited, trace,
                     n, sector, ptr - {s}, held - {s}, logged, view, base, mark)
  {
    hide LogInv, Unchanged, HomeOf, Elements, Formatted, Holding;
    HoldingOne(g, bufs, ptr, s);
    HoldingLess(g, bufs, ptr, s);
    HeldInv(g, disk, cview, busy, dirty, held, sector[..n], s);
  }

  lemma StateWrite(g: Area, bufs: seq<Buf<Block>>, disk: Image, cview: Image, busy: set<Loc>, dirty: set<Loc>,
                  edited: set<nat>, trace: seq<Image>, n: nat, sector: seq<word>, ptr: map<nat, nat>,
                  held: set<nat>, logged: set<nat>, view: map<nat, Block>, base: map<nat, Block>, mark: seq<Image>,
                   bufs': seq<Buf<Block>>, s: word, i: nat, data: Block)
    requires LogState(g, bufs, disk, cview, busy, dirty, edited, trace, n, sector, ptr, held, logged, view, base, mark)
    requires Home(g, s) && n < LOGSIZE && n < g.size - 1 && Slot(sector[..n], s, i)
    requires forall k, l :: HeldAs(bufs, k, l) ==> HeldAs(bufs', k, l)
    ensures var disk', cview' := disk[At(g.start + 1 + i) := data], cview[At(s) := data][At(g.start + 1 + i) := data];
            LogState(g, bufs', disk', cview', busy, dirty + {At(s)}, edited, trace + [disk'],
                     if i == n then n + 1 else n, sector[i := s], ptr, held, logged + {s}, view[s := data], base, mark)
  {
    var disk' := disk[At(g.start + 1 + i) := data];
    SlotUsed(sector, n, s, i);
    hide Slot, Formatted, LogInv, Unchanged, HomeOf, Elements, Holding, Recovers, Appended;
    AppendedInv(g, disk, cview, busy, dirty, held, sector[..n], s, i, data);
    AppendedHome(g, disk, cview, busy, dirty, held, sector[..n], s, i, data);
    AppendedElements(sector[..n], s);
    HoldingKept(g, bufs, bufs', ptr);
    UnchangedAppend(g, mark, trace, base, disk');
  }

  lemma SlotUsed(sector: seq<word>, n: nat, s: word, i: nat)
    requires n < |sector| && Slot(sector[..n], s, i)
    ensures i <= n && sector[i := s][..if i == n then n + 1 else n] == Appended(sector[..n], s)
  {
  }

  /** The header block with the count and the first `k` sectors written. */
  ghost function HeadSoFar(hb: Block, ss: seq<word>, k: nat): (r: Block)
    requires k <= |ss| <= LOGSIZE
  {
    PutWords(hb, 0, ([|ss| as word] + ss)[..k + 1])
  }

  lemma HeadFirst(hb: Block, ss: seq<word>)
    requires |ss| <= LOGSIZE
    ensures HeadSoFar(hb, ss, 0) == PutU32(hb, 0, |ss|) && HeadSoFar(hb, ss, |ss|) == WithHead(hb, ss)
  {
    hide PutU32, GetU32;
    var ws := [|ss| as word] + ss;
    PutWordsNext(hb, 0, ws, 0);
    assert ws[..0] == [] && ws[..|ss| + 1] == ws;
  }

  lemma HeadNext(hb: Block, ss: seq<word>, k: nat)
    requires k < |ss| <= LOGSIZE
    ensures HeadSoFar(hb, ss, k + 1) == PutU32(HeadSoFar(hb, ss, k), 4 + 4 * k, ss[k])
  {
    hide PutU32, GetU32;
    PutWordsNext(hb, 0, [|ss| as word] + ss, k + 1);
    hide PutWords;
  }

  class Log {
    const cache: Cache<Block>
    const area: Area
    var n: nat
    var sector: seq<word>
    var trans: bool
    var ptr: map<nat, nat>                // the buffers the thread holds, by sector
    ghost var held: set<nat>              // the keys of ptr
    ghost var logged: set<nat>            // sectors logged by the running transaction
    ghost var view: map<nat, Block>       // the sectors outside the log, as the thread sees them
    ghost var base: map<nat, Block>       // the same sectors after the last committed transaction
    ghost var mark: seq<Image>            // the trace when the transaction began

    constructor (cache: Cache<Block>, area: Area)
      ensures this.cache == cache && this.area == area
      ensures n == 0 && |sector| == LOGSIZE && !trans && held == {}
    {
      this.cache, this.area := cache, area;
      n, sector, trans, ptr := 0, seq(LOGSIZE, _ => 0), false, map[];
      held, logged, view, base, mark := {}, {}, map[], map[], [];
    }

    ghost function Logged(): (ss: seq<word>)
      reads this
      requires n <= |sector|
    {
      sector[..n]
    }

    ghost predicate Core()
      reads this, cache
    {
      && cache.Valid() && cache.edited == {}
      && n <= |sector| == LOGSIZE
      && Formatted(area, cache.disk) && Formatted(area, cache.view)
      && LogInv(area, cache.disk, cache.view, cache.busy, cache.dirty, held, Logged())
    }

    ghost predicate Valid()
      reads this, cache
    {
      && cache.Valid()
      && LogState(area, cache.bufs, cache.disk, cache.view, cache.busy, cache.dirty, cache.edited, cache.trace,
                  n, sector, ptr, held, logged, view, base, mark)
    }

    lemma CleanSector(s: nat)
      requires cache.Valid() && cache.edited == {} && At(s) in cache.disk && At(s) !in cache.dirty
      ensures At(s) in cache.view && cache.view[At(s)] == cache.disk[At(s)]
      ensures cache.busy == {} ==> cache.busy + cache.dirty == cache.dirty
    {
      CleanView(cache.bufs, cache.where, cache.disk, cache.view, cache.busy, cache.dirty);
    }

    method InstallOne(tail: nat, ghost d0: Image)
      requires cache.Valid() && cache.edited == {} && cache.busy == {}
      requires tail < n <= |sector| == LOGSIZE && InstallOk(area, d0, Logged())
      requires cache.disk == Installed(area, d0, Logged(), tail)
      requires forall l :: l in cache.dirty ==> l.dev == ROOTDEV && Home(area, l.sector)
      requires cache.dirty == {} || (At(sector[tail]) in cache.dirty && |cache.dirty| < NBUF)
      modifies cache
      ensures cache.Valid() && cache.edited == {} && cache.busy == {}
      ensures cache.dirty == old(cache.dirty) - {At(sector[tail])}
      ensures cache.disk == Installed(area, d0, Logged(), tail + 1)
      ensures cache.trace == old(cache.trace) + [cache.disk]
    {
      hide Cache.Valid;
      InstallSource(area, d0, Logged(), tail);
      CleanSector(area.start + tail + 1);
      cache.CopySector(At(area.start + tail + 1), At(sector[tail]));
    }

    /** install_trans. */
    method InstallTrans()
      requires cache.Valid() && cache.edited == {} && cache.busy == {}
      requires n <= |sector| == LOGSIZE && InstallOk(area, cache.disk, Logged())
      requires cache.dirty == {} || (cache.dirty == Locs(Elements(Logged())) && Distinct(Logged()) && n < NBUF)
      modifies cache
      ensures cache.Valid() && cache.edited == {} && cache.busy == {} && cache.dirty == {}
      ensures cache.disk == Installed(area, old(cache.disk), Logged(), n)
      ensures cache.trace == old(cache.trace) + InstallTrace(area, old(cache.disk), Logged(), n)
    {
      hide Cache.Valid, Installed;
      NoneInstalled(area, cache.disk, Logged());
      ghost var ss, d0 := Logged(), cache.disk;
      var tail := 0;
      while tail < n
        invariant 0 <= tail <= n
        invariant cache.Valid() && cache.edited == {} && cache.busy == {}
        invariant cache.disk == Installed(area, d0, ss, tail)
        invariant cache.trace == old(cache.trace) + InstallTrace(area, d0, ss, tail)
        invariant cache.dirty == if old(cache.dirty) == {} then {} else Locs(Elements(ss[tail..]))
      {
        DirtyRest(ss, tail);
        InstallOne(tail, d0);
        tail := tail + 1;
      }
    }

    /** read_head. */
    method ReadHead()
      requires cache.Valid() && cache.edited == {} && cache.busy == {} && cache.dirty == {}
      requires LogOk(area, cache.disk) && |sector| == LOGSIZE
      modifies this`n, this`sector, cache
      ensures cache.Valid() && cache.edited == {} && cache.busy == {} && cache.dirty == {}
      ensures cache.disk == old(cache.disk) && cache.trace == old(cache.trace)
      ensures n <= |sector| == LOGSIZE && Logged() == HeadSectors(cache.disk[At(area.start)])
    {
      hide Cache.Valid, HeadSectors, InstallOk, GetU32;
      Addressed(area, cache.disk);
      var hb := Fetch(area.start);
      DecodeHead(hb);
    }

    /** The copying of the header block into `log.lh`. */
    method DecodeHead(hb: Block)
      requires HeadCount(hb) <= LOGSIZE == |sector|
      modifies this`n, this`sector
      ensures n <= |sector| == LOGSIZE && Logged() == HeadSectors(hb)
    {
      hide GetU32;
      n := GetU32(hb, 0);
      var i := 0;
      while i < n
        modifies this`sector
        invariant 0 <= i <= n == HeadCount(hb) && |sector| == LOGSIZE
        invariant forall j :: 0 <= j < i ==> sector[j] == HeadSectors(hb)[j]
      {
        sector := sector[i := GetU32(hb, 4 + 4 * i)];
        i := i + 1;
      }
    }

    /** Read a clean sector and let it go again. */
    method Fetch(s: nat) returns (data: Block)
      requires cache.Valid() && cache.edited == {} && cache.busy == {} && At(s) in cache.disk
      requires At(s) !in cache.dirty && |cache.dirty| < NBUF
      modifies cache
      ensures cache.Valid() && cache.edited == {} && cache.busy == {} && cache.dirty == old(cache.dirty)
      ensures cache.disk == old(cache.disk) && cache.trace == old(cache.trace) && cache.view == old(cache.view)
      ensures data == cache.disk[At(s)]
    {
      hide Cache.Valid;
      CleanSector(s);
      var r := cache.Read(At(s));
      data := cache.bufs[r.value].data;
      cache.Release(r.value);
    }

    method EncodeHead(hb: Block) returns (r: Block)
      requires n <= |sector| == LOGSIZE
      ensures r == WithHead(hb, Logged())
    {
      hide PutU32, WithHead, HeadSoFar;
      HeadFirst(hb, Logged());
      r := PutU32(hb, 0, n);
      var i := 0;
      while i < n
        invariant 0 <= i <= n
        invariant r == HeadSoFar(hb, Logged(), i)
      {
        HeadNext(hb, Logged(), i);
        r := PutU32(r, 4 + 4 * i, sector[i]);
        i := i + 1;
      }
    }

    /** write_head: for a non-empty header, the commit point. */
    method WriteHead()
      requires cache.Valid() && cache.edited == {} && cache.busy == {} && |cache.dirty| < NBUF
      requires At(area.start) in cache.disk && At(area.start) !in cache.dirty
      requires n <= |sector| == LOGSIZE
      modifies cache
      ensures cache.Valid() && cache.edited == {} && cache.busy == {} && cache.dirty == old(cache.dirty)
      ensures cache.disk == old(cache.disk)[At(area.start) := WithHead(old(cache.disk)[At(area.start)], Logged())]
      ensures cache.view == old(cache.view)[At(area.start) := cache.disk[At(area.start)]]
      ensures cache.trace == old(cache.trace) + [cache.disk]
    {
      hide Cache.Valid, WithHead;
      CleanSector(area.start);
      var r := cache.Read(At(area.start));
      var b := r.value;
      var hb := EncodeHead(cache.bufs[b].data);
      cache.Finish(b, hb);
    }

    /** install_trans, `log.lh.n = 0`, write_head: the common end of recovery and commit. */
    method InstallAndErase()
      requires cache.Valid() && cache.edited == {} && cache.busy == {}
      requires n <= |sector| == LOGSIZE && LogOk(area, cache.disk)
      requires Logged() == HeadSectors(cache.disk[At(area.start)])
      requires cache.dirty == {} || (cache.dirty == Locs(Elements(Logged())) && Distinct(Logged()) && n < NBUF)
      modifies this`n, cache
      ensures n == 0
      ensures cache.Valid() && cache.edited == {} && cache.busy == {} && cache.dirty == {}
      ensures cache.disk == Recovered(area, old(cache.disk))
      ensures cache.trace == old(cache.trace) + RecoveryTrace(area, old(cache.disk))
    {
      hide Cache.Valid, WithHead, Installed, LogOk, InstallOk, RecoveryTrace, Recovered, HeadSectors;
      RecoveryPlan(area, cache.disk, Logged());
      InstallTrans();
      n := 0;
      WriteHead();
    }

    /** recover_from_log. */
    method RecoverFromLog()
      requires cache.Valid() && cache.edited == {} && cache.busy == {} && cache.dirty == {}
      requires LogOk(area, cache.disk) && |sector| == LOGSIZE && area.start + area.size <= TWO32
      modifies this`n, this`sector, this`held, this`ptr, this`logged, this`view, this`base, this`mark, cache
      ensures Valid() && logged == {} && held == {} && view == base == AfterCrash(area, old(cache.disk))
      ensures cache.disk == Recovered(area, old(cache.disk))
      ensures cache.trace == old(cache.trace) + RecoveryTrace(area, old(cache.disk))
    {
      hide Cache.Valid, LogOk, HeadSectors, HeadCount, Recovered, RecoveryTrace, Formatted, Log.Valid, HomeOf, Core;
      Addressed(area, cache.disk);
      ReadHead();
      InstallAndErase();
      held, ptr := {}, map[];
      RecoveredIsEmpty(area, old(cache.disk));
      EmptyLog();
      Rest();
    }

    /** Nothing is logged: the ghost state is what the disk says. */
    ghost method Rest()
      requires Core() && n == 0 && held == {} && ptr == map[] && cache.view == cache.disk
      modifies this`logged, this`view, this`base, this`mark
      ensures Valid() && logged == {} && view == base == HomeOf(area, cache.disk) && mark == cache.trace
    {
      logged, view, base, mark := {}, HomeOf(area, cache.view), HomeOf(area, cache.disk), cache.trace;
    }

    lemma EmptyLog()
      requires cache.Valid() && cache.edited == {} && cache.busy == {} && cache.dirty == {}
      requires n == 0 && held == {} && |sector| == LOGSIZE && area.start + area.size <= TWO32
      requires Formatted(area, cache.disk) && HeadCount(cache.disk[At(area.start)]) == 0
      ensures Core() && cache.view == cache.disk
    {
      CleanView(cache.bufs, cache.where, cache.disk, cache.view, cache.busy, cache.dirty);
    }

    method FindSector(s: word) returns (i: nat)
      requires n <= |sector| == LOGSIZE
      ensures Slot(Logged(), s, i) && i <= n
    {
      i := 0;
      while i < n
        invariant 0 <= i <= n && s !in Logged()[..i]
      {
        if sector[i] == s {
          return;
        }
        i := i + 1;
      }
    }

    /** One more buffer can be had without stopping at "no buffers". */
    ghost predicate Room()
      reads this
    {
      |held + logged| < NBUF
    }

    lemma RoomInCache()
      requires Valid() && Room()
      ensures cache.Room()
    {
      hide Cache.Valid, Holding, Unchanged, InstallOk, Formatted, HomeOf;
      LocsSize(held + logged);
      assert cache.busy + cache.dirty == Locs(held + logged);
    }

    lemma ViewAt(s: nat)
      requires Valid() && Home(area, s)
      ensures s in view && At(s) in cache.view && At(s) in cache.disk && view[s] == cache.view[At(s)]
      ensures s !in held ==> At(s) !in cache.busy
    {
    }

    /** bufcache_read of a sector outside the log. */
    method Read(s: nat) returns (data: Block)
      requires Valid() && Home(area, s) && s !in held && Room()
      modifies this`held, this`ptr, cache
      ensures Valid() && held == old(held) + {s} && cache.trace == old(cache.trace)
      ensures s in view && data == view[s]
    {
      hide Cache.Valid, LogState;
      RoomInCache();
      ViewAt(s);
      var r := cache.Read(At(s));
      StateRead(area, old(cache.bufs), cache.disk, cache.view, old(cache.busy), cache.dirty, cache.edited, cache.trace,
                n, sector, ptr, held, logged, view, base, mark, cache.bufs, s, r.value);
      held := held + {s};
      ptr := ptr[s := r.value];
      data := cache.bufs[r.value].data;
    }

    /** bufcache_release. */
    method Release(s: nat)
      requires Valid() && s in held
      modifies this`held, this`ptr, cache
      ensures Valid() && held == old(held) - {s} && cache.trace == old(cache.trace)
    {
      hide Cache.Valid, LogState;
      StateRelease(area, cache.bufs, cache.disk, cache.view, cache.busy, cache.dirty, cache.edited, cache.trace, n,
                   sector, ptr, held, logged, view, base, mark, s);
      cache.Release(ptr[s]);
      held := held - {s};
      ptr := ptr - {s};
    }

    lemma Sizes()
      requires Valid()
      ensures n == |logged| && n <= |sector| == LOGSIZE
    {
    }

    lemma SlotFree(s: nat, i: nat)
      requires Valid() && s in held && i <= n < area.size - 1
      ensures Home(area, s) && s in ptr && cache.Holds(ptr[s], At(s)) && cache.edited == {} && n == |logged|
      ensures At(area.start + 1 + i) in cache.disk
      ensures At(area.start + 1 + i) !in cache.busy && At(area.start + 1 + i) !in cache.dirty
    {
      HoldingOne(area, cache.bufs, ptr, s);
    }

    /**
      The holder of sector `s` changes its bytes to `data` and calls log_write.  The
      two limits are the ones log_write itself stops at.
     */
    method LogWrite(s: word, data: Block)
      requires Valid() && trans && s in held && Room()
      requires |logged| < LOGSIZE && |logged| < area.size - 1
      modifies this`n, this`sector, this`logged, this`view, cache
      ensures Valid() && logged == old(logged) + {s} && view == old(view)[s := data]
    {
      hide Cache.Valid, LogState, Slot, Room;
      RoomInCache();
      Sizes();
      var i := FindSector(s);
      SlotFree(s, i);
      Append(ptr[s], s, i, data);
      StateWrite(area, old(cache.bufs), old(cache.disk), old(cache.view), cache.busy, old(cache.dirty),
                 old(cache.edited),
                 old(cache.trace), old(n), old(sector), ptr, held, logged, view, base, mark, cache.bufs, s, i, data);
      view := view[s := data];
      logged := logged + {s};
    }

    method Append(b: nat, s: word, i: nat, data: Block)
      requires cache.Valid() && cache.edited == {} && cache.Room() && cache.Holds(b, At(s)) && i <= n < |sector|
      requires At(area.start + 1 + i) in cache.disk && At(area.start + 1 + i) !in cache.busy
      requires At(area.start + 1 + i) !in cache.dirty
      modifies this`n, this`sector, cache
      ensures cache.Valid() && cache.edited == {}
      ensures sector == old(sector)[i := s] && n == if i == old(n) then old(n) + 1 else old(n)
      ensures cache.disk == old(cache.disk)[At(area.start + 1 + i) := data]
      ensures cache.view == old(cache.view)[At(s) := data][At(area.start + 1 + i) := data]
      ensures cache.trace == old(cache.trace) + [cache.disk]
      ensures cache.busy == old(cache.busy)
      ensures cache.dirty == old(cache.dirty) + {At(s)}
      ensures forall k, l :: HeldAs(old(cache.bufs), k, l) ==> HeldAs(cache.bufs, k, l)
    {
      hide Cache.Valid;
      cache.Edit(b, data);
      sector := sector[i := s];
      cache.Store(At(area.start + 1 + i), data);
      if i == n {
        n := n + 1;
      }
      cache.MarkDirty(b);
    }

    /** begin_trans by a thread that finds the log free. */
    method BeginTrans()
      requires Valid() && !trans && logged == {}
      modifies this`trans, this`mark
      ensures Valid() && trans && mark == cache.trace
    {
      trans := true;
      mark := cache.trace;
    }

    /** Nothing written since the transaction began has changed what a crash would leave. */
    lemma TraceSafe()
      requires Valid()
      ensures mark <= cache.trace
      ensures forall k :: |mark| <= k < |cache.trace| ==>
                Recovers(area, cache.trace[k], base) && HomeOf(area, cache.trace[k]) == base
    {
    }

    /** The logged blocks, applied to what is on disk, are what the file system sees. */
    lemma LoggedIsView()
      requires Valid()
      ensures InstallOk(area, cache.disk, Logged()) && n <= LOGSIZE
      ensures Applied(area, cache.disk, Logged(), base, view)
      ensures n == 0 ==> view == base
    {
      CleanView(cache.bufs, cache.where, cache.disk, cache.view, cache.busy, cache.dirty);
      hide LogInv, HomeOf, Applied, InstallOk, Cache.Valid, CacheInv, Holding, Unchanged;
      InvApplied(area, cache.disk, cache.view, cache.busy, cache.dirty, held, Logged());
      if n == 0 {
        NothingApplied(area, cache.disk, base, view);
      }
    }

    /** A transaction changes logged sectors only. */
    lemma ChangedLogged()
      requires Valid()
      ensures Changed(base, view) <= logged
    {
      hide Cache.Valid, Holding, Unchanged, InstallOk, LogInv;
      LoggedIsView();
    }

    lemma CommitFacts()
      requires Core()
      ensures var h := CommitRecord(area, cache.disk, Logged());
              && LogOk(area, h) && HeadSectors(h[At(area.start)]) == Logged() && Distinct(Logged())
              && cache.dirty == Locs(Elements(Logged())) && |cache.dirty| <= n
              && At(area.start) in cache.disk && At(area.start) !in cache.dirty
      ensures area.start + area.size <= TWO32 && (held == {} ==> cache.busy == {})
    {
      HeadRoundTrip(cache.disk[At(area.start)], Logged());
      LocsSize(Elements(Logged()));
      ElementsSize(Logged());
    }

    /** Every image written by the commit of `ss` recovers to the new state. */
    lemma CommitTrace(d: Image, ss: seq<word>, t: seq<Image>, result: map<nat, Block>)
      requires InstallOk(area, d, ss) && |ss| <= LOGSIZE && LogOk(area, CommitRecord(area, d, ss))
      requires Applied(area, d, ss, HomeOf(area, d), result)
      requires t == [CommitRecord(area, d, ss)] + RecoveryTrace(area, CommitRecord(area, d, ss))
      ensures forall k :: 0 <= k < |t| ==> Recovers(area, t[k], result) && OldOrNew(area, t[k], HomeOf(area, d), result)
      ensures HomeOf(area, Recovered(area, CommitRecord(area, d, ss))) == result
    {
      hide HeadSectors, HeadCount, WithHead, Recovered, RecoveryTrace, RecoveryImage, Applied, CommitRecord, Recovers;
      hide OldOrNew;
      var h := CommitRecord(area, d, ss);
      CommittedHome(area, d, ss, result);
      CommittedImage(area, d, ss, result, 0);
      hide InstallOk, LogOk;
      assert |RecoveryTrace(area, h)| == |ss| + 1;
      forall k | 0 <= k < |t| ensures Recovers(area, t[k], result) && OldOrNew(area, t[k], HomeOf(area, d), result) {
        CommitTraceAt(d, ss, result, k);
        if k > 0 {
          RecoveryTraceAt(area, h, k - 1);
        }
      }
    }

    lemma CommitTraceAt(d: Image, ss: seq<word>, result: map<nat, Block>, k: nat)
      requires InstallOk(area, d, ss) && |ss| <= LOGSIZE && LogOk(area, CommitRecord(area, d, ss)) && k <= |ss| + 1
      requires Applied(area, d, ss, HomeOf(area, d), result)
      ensures var h := CommitRecord(area, d, ss);
              && RecoverySteps(area, h) == |ss| + 1 && RecoveryImage(area, h, 0) == h
              && Recovers(area, RecoveryImage(area, h, k), result)
              && OldOrNew(area, RecoveryImage(area, h, k), HomeOf(area, d), result)
    {
      hide HeadSectors, HeadCount, WithHead, Recovered, Applied, InstallOk, CommitRecord, LogOk, OldOrNew;
      CommittedImage(area, d, ss, result, k);
      CommittedOldOrNew(area, d, ss, result, k);
    }

    /**
      commit_trans.  Every disk left before the header write recovers to the state
      before the transaction (Unchanged, at entry); from the header write on, every
      disk recovers to the whole transaction.
     */
    method CommitTrans()
      requires Valid() && trans && held == {} && |logged| < NBUF
      modifies this`n, this`trans, this`logged, this`view, this`base, this`mark, cache
      ensures Valid() && !trans && logged == {} && view == base == old(view)
      ensures old(cache.trace) <= cache.trace == mark
      ensures forall k :: |old(cache.trace)| <= k < |cache.trace| ==>
                Recovers(area, cache.trace[k], view) && OldOrNew(area, cache.trace[k], old(base), view)
    {
      hide OldOrNew, Cache.Valid, LogInv, LogOk, HeadSectors, HeadCount, WithHead, Recovered, RecoveryTrace, Recovers;
      hide Applied, InstallOk, CommitRecord;
      LoggedIsView();
      ghost var d, ss, v := cache.disk, Logged(), view;
      if n > 0 {
        Commit();
        ghost var h := CommitRecord(area, d, ss);
        ghost var t := [h] + RecoveryTrace(area, h);
        assert cache.trace == old(cache.trace) + t;
        CommitTrace(d, ss, t, v);
        assert ptr == map[];
        Rest();
      } else {
        mark := cache.trace;
      }
      trans := false;
    }

    method Commit()
      requires Core() && held == {} && 0 < n < NBUF
      modifies this`n, cache
      ensures Core() && n == 0
      ensures LogOk(area, CommitRecord(area, old(cache.disk), old(Logged())))
      ensures cache.view == cache.disk == Recovered(area, CommitRecord(area, old(cache.disk), old(Logged())))
      ensures cache.trace == old(cache.trace) + [CommitRecord(area, old(cache.disk), old(Logged()))]
                             + RecoveryTrace(area, CommitRecord(area, old(cache.disk), old(Logged())))
    {
      hide Cache.Valid, LogInv, LogOk, HeadSectors, HeadCount, WithHead, Recovered, RecoveryTrace, Elements, Distinct;
      hide Formatted;
      CommitFacts();
      ghost var h := CommitRecord(area, cache.disk, Logged());
      WriteHead();
      assert cache.disk == h;
      InstallAndErase();
      RecoveredIsEmpty(area, h);
      EmptyLog();
    }
  }
}
