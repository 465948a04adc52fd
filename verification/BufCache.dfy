/**
  The buffer cache of kern/fs/bufcache.c, used by one thread, above an abstract
  IDE disk.  Every sector write appends the new disk image to `trace`, so the
  elements of `trace` are exactly the disks that a crash can leave behind.
 */
module BufCache {
  import opened Collections
  import opened Ring

  const BSIZE: nat := 512
  const NBUF: nat := 10
  const NODEV: int := -1

  datatype Loc = Loc(dev: int, sector: nat)

  type Disk<T> = map<Loc, T>

  /** struct buf, with the three flag bits spelled out. */
  datatype Buf<T> = Buf(dev: int, sector: nat, busy: bool, valid: bool, dirty: bool, data: T) {
    predicate Real() { dev != NODEV }
    function At(): Loc { Loc(dev, sector) }
    predicate Recyclable() { !busy && !dirty }
  }

  /** `where` is the inverse of the buffers' locations: one buffer per sector. */
  ghost predicate Indexed<T>(bufs: seq<Buf<T>>, where: map<Loc, nat>, disk: Disk<T>) {
    && |bufs| == NBUF
    && (forall i :: 0 <= i < NBUF && bufs[i].Real() ==> bufs[i].At() in where && where[bufs[i].At()] == i)
    && (forall l :: l in where ==> l in disk && where[l] < NBUF && bufs[where[l]].Real() && bufs[where[l]].At() == l)
  }

  ghost predicate Flags<T>(bufs: seq<Buf<T>>, busy: set<Loc>, dirty: set<Loc>) {
    forall i :: 0 <= i < |bufs| ==>
      if bufs[i].Real()
      then bufs[i].valid && (bufs[i].busy <==> bufs[i].At() in busy) && (bufs[i].dirty <==> bufs[i].At() in dirty)
      else bufs[i].Recyclable()
  }

  /** A buffer that is neither dirty nor being changed by its holder equals the disk. */
  ghost predicate Coherent<T>(bufs: seq<Buf<T>>, disk: Disk<T>, edited: set<nat>) {
    forall i :: 0 <= i < |bufs| && bufs[i].Real() && !bufs[i].dirty && i !in edited ==>
      bufs[i].At() in disk && bufs[i].data == disk[bufs[i].At()]
  }

  /** What a reader sees of each sector: the cached copy if there is one. */
  ghost predicate Viewed<T>(bufs: seq<Buf<T>>, where: map<Loc, nat>, disk: Disk<T>, view: Disk<T>) {
    && view.Keys == disk.Keys
    && (forall l :: l in disk ==>
      view[l] == if l in where && where[l] < |bufs| then bufs[where[l]].data else disk[l])
  }

  ghost predicate CacheInv<T>(bufs: seq<Buf<T>>, where: map<Loc, nat>, disk: Disk<T>, view: Disk<T>,
                           busy: set<Loc>, dirty: set<Loc>, edited: set<nat>) {
    && Indexed(bufs, where, disk)
    && Flags(bufs, busy, dirty)
    && busy <= where.Keys && dirty <= where.Keys
    && Coherent(bufs, disk, edited)
    && Viewed(bufs, where, disk, view)
    && (forall i :: i in edited ==> i < NBUF && bufs[i].busy)
  }

  /** Buffer `b` is the busy buffer of `l`. */
  ghost predicate HeldAs<T>(bufs: seq<Buf<T>>, b: nat, l: Loc) {
    b < |bufs| && bufs[b].Real() && bufs[b].busy && bufs[b].valid && bufs[b].At() == l
  }

  ghost function LocsUpTo<T>(bufs: seq<Buf<T>>, k: nat): (s: set<Loc>)
    requires k <= |bufs|
  {
    if k == 0 then {} else LocsUpTo(bufs, k - 1) + {bufs[k - 1].At()}
  }

  lemma {:induction false} DistinctLocs<T>(bufs: seq<Buf<T>>, where: map<Loc, nat>, disk: Disk<T>, busy: set<Loc>,
                                           dirty: set<Loc>, k: nat)
    requires Indexed(bufs, where, disk) && Flags(bufs, busy, dirty) && k <= NBUF
    requires forall i :: 0 <= i < NBUF ==> !bufs[i].Recyclable()
    ensures |LocsUpTo(bufs, k)| == k && LocsUpTo(bufs, k) <= busy + dirty
    ensures forall l :: l in LocsUpTo(bufs, k) ==> l in where && where[l] < k
  {
    if k > 0 {
      DistinctLocs(bufs, where, disk, busy, dirty, k - 1);
      assert bufs[k - 1].Real();
      assert bufs[k - 1].At() !in LocsUpTo(bufs, k - 1);
    }
  }

  /** "no buffers" needs NBUF different sectors busy or dirty at the same moment. */
  lemma SomeRecyclable<T>(bufs: seq<Buf<T>>, where: map<Loc, nat>, disk: Disk<T>, busy: set<Loc>, dirty: set<Loc>)
    requires Indexed(bufs, where, disk) && Flags(bufs, busy, dirty)
    requires |busy + dirty| < NBUF
    ensures exists i :: 0 <= i < NBUF && bufs[i].Recyclable()
  {
    if forall i :: 0 <= i < NBUF ==> !bufs[i].Recyclable() {
      DistinctLocs(bufs, where, disk, busy, dirty, NBUF);
      SubsetSize(LocsUpTo(bufs, NBUF), busy + dirty);
    }
  }

  /** Recycling buffer `b` for sector `l`, whose contents are read from the disk. */
  ghost function Reused<T>(bufs: seq<Buf<T>>, disk: Disk<T>, b: nat, l: Loc): (r: seq<Buf<T>>)
    requires b < |bufs| && l in disk
  {
    bufs[b := Buf(l.dev, l.sector, true, true, false, disk[l])]
  }

  ghost function Rehomed<T>(bufs: seq<Buf<T>>, where: map<Loc, nat>, b: nat, l: Loc): (r: map<Loc, nat>)
    requires b < |bufs|
  {
    (if bufs[b].Real() then where - {bufs[b].At()} else where)[l := b]
  }

  lemma ReusedIndexed<T>(bufs: seq<Buf<T>>, where: map<Loc, nat>, disk: Disk<T>, b: nat, l: Loc)
    requires Indexed(bufs, where, disk)
    requires b < NBUF && l in disk && l !in where && l.dev != NODEV
    ensures Indexed(Reused(bufs, disk, b, l), Rehomed(bufs, where, b, l), disk)
  {
    assert Reused(bufs, disk, b, l)[b].At() == l;
  }

  lemma ReusedViewed<T>(bufs: seq<Buf<T>>, where: map<Loc, nat>, disk: Disk<T>, view: Disk<T>, b: nat, l: Loc)
    requires Indexed(bufs, where, disk) && Viewed(bufs, where, disk, view)
    requires b < NBUF && l in disk && l !in where && l.dev != NODEV
    requires bufs[b].Real() ==> bufs[b].At() in disk && bufs[b].data == disk[bufs[b].At()]
    ensures Viewed(Reused(bufs, disk, b, l), Rehomed(bufs, where, b, l), disk, view)
  {
    var where' := Rehomed(bufs, where, b, l);
    forall l' | l' in disk && l' in where' && l' != l ensures where'[l'] == where[l'] != b {
    }
  }

  lemma ReusedInv<T>(bufs: seq<Buf<T>>, where: map<Loc, nat>, disk: Disk<T>, view: Disk<T>,
                  busy: set<Loc>, dirty: set<Loc>, edited: set<nat>, b: nat, l: Loc)
    requires CacheInv(bufs, where, disk, view, busy, dirty, edited)
    requires b < NBUF && bufs[b].Recyclable() && l in disk && l !in where && l.dev != NODEV
    ensures CacheInv(Reused(bufs, disk, b, l), Rehomed(bufs, where, b, l), disk, view, busy + {l}, dirty, edited)
  {
    var bufs', where' := Reused(bufs, disk, b, l), Rehomed(bufs, where, b, l);
    ReusedIndexed(bufs, where, disk, b, l);
    ReusedViewed(bufs, where, disk, view, b, l);
    assert bufs[b].Real() ==> bufs[b].At() !in busy + dirty;
    assert forall i :: 0 <= i < NBUF && i != b ==> bufs'[i] == bufs[i];
  }

  ghost function Put<T>(s: set<T>, x: T, on: bool): (r: set<T>) {
    if on then s + {x} else s - {x}
  }

  /** The ring holds every buffer exactly once, after the list head NBUF. */
  ghost predicate FullRing(prev: seq<nat>, next: seq<nat>, cyc: seq<nat>) {
    && |next| == |prev| == NBUF + 1 && |cyc| == NBUF + 1 && cyc[0] == NBUF
    && IsRing(prev, next, cyc)
    && (forall i :: 0 <= i < NBUF ==> i in cyc)
  }

  lemma ChangedIndexed<T>(bufs: seq<Buf<T>>, where: map<Loc, nat>, disk: Disk<T>, b: nat, nb: Buf<T>, content: T)
    requires Indexed(bufs, where, disk)
    requires b < NBUF && bufs[b].Real() && nb.At() == bufs[b].At()
    ensures Indexed(bufs[b := nb], where, disk[nb.At() := content])
  {
  }

  lemma ChangedCoherent<T>(bufs: seq<Buf<T>>, where: map<Loc, nat>, disk: Disk<T>, edited: set<nat>,
                        b: nat, nb: Buf<T>, content: T, editing: bool)
    requires Indexed(bufs, where, disk) && Coherent(bufs, disk, edited)
    requires b < NBUF && bufs[b].Real() && nb.At() == bufs[b].At()
    requires nb.dirty || editing || nb.data == content
    ensures Coherent(bufs[b := nb], disk[nb.At() := content], Put(edited, b, editing))
  {
    forall i | 0 <= i < NBUF && i != b && bufs[i].Real() ensures bufs[i].At() != nb.At() {
    }
  }

  lemma ChangedViewed<T>(bufs: seq<Buf<T>>, where: map<Loc, nat>, disk: Disk<T>, view: Disk<T>, b: nat, nb: Buf<T>,
                         content: T)
    requires Indexed(bufs, where, disk) && Viewed(bufs, where, disk, view)
    requires b < NBUF && bufs[b].Real() && nb.At() == bufs[b].At()
    ensures Viewed(bufs[b := nb], where, disk[nb.At() := content], view[nb.At() := nb.data])
  {
    assert where[nb.At()] == b;
  }

  lemma ChangedFlags<T>(bufs: seq<Buf<T>>, where: map<Loc, nat>, disk: Disk<T>, busy: set<Loc>, dirty: set<Loc>, b: nat,
                        nb: Buf<T>)
    requires Indexed(bufs, where, disk) && Flags(bufs, busy, dirty)
    requires b < NBUF && bufs[b].Real() && nb.At() == bufs[b].At() && nb.valid
    ensures Flags(bufs[b := nb], Put(busy, nb.At(), nb.busy), Put(dirty, nb.At(), nb.dirty))
  {
    forall i | 0 <= i < NBUF && i != b && bufs[i].Real() ensures bufs[i].At() != nb.At() {
    }
  }

  /**
    Any change of one buffer that keeps its sector keeps the invariant, provided a
    buffer that ends up neither dirty nor being edited equals the disk.
   */
  lemma ChangedInv<T>(bufs: seq<Buf<T>>, where: map<Loc, nat>, disk: Disk<T>, view: Disk<T>,
                   busy: set<Loc>, dirty: set<Loc>, edited: set<nat>, b: nat, nb: Buf<T>, content: T, editing: bool)
    requires CacheInv(bufs, where, disk, view, busy, dirty, edited)
    requires b < NBUF && bufs[b].Real() && nb.At() == bufs[b].At() && nb.valid
    requires nb.dirty || editing || nb.data == content
    requires editing || b in edited ==> nb.busy
    ensures CacheInv(bufs[b := nb], where, disk[nb.At() := content], view[nb.At() := nb.data],
                     Put(busy, nb.At(), nb.busy), Put(dirty, nb.At(), nb.dirty), Put(edited, b, editing))
  {
    SizeOf(bufs, where, disk, view, busy, dirty, edited);
    hide Indexed, Coherent, Viewed, Flags;
    ChangedIndexed(bufs, where, disk, b, nb, content);
    ChangedCoherent(bufs, where, disk, edited, b, nb, content, editing);
    ChangedViewed(bufs, where, disk, view, b, nb, content);
    ChangedFlags(bufs, where, disk, busy, dirty, b, nb);
    assert nb.At() in where by { Located(bufs, where, disk, b); }
  }

  lemma Located<T>(bufs: seq<Buf<T>>, where: map<Loc, nat>, disk: Disk<T>, b: nat)
    requires Indexed(bufs, where, disk) && b < NBUF && bufs[b].Real()
    ensures bufs[b].At() in where && where[bufs[b].At()] == b && bufs[b].At() in disk
  {
  }

  lemma SizeOf<T>(bufs: seq<Buf<T>>, where: map<Loc, nat>, disk: Disk<T>, view: Disk<T>,
               busy: set<Loc>, dirty: set<Loc>, edited: set<nat>)
    requires CacheInv(bufs, where, disk, view, busy, dirty, edited)
    ensures |bufs| == NBUF && view.Keys == disk.Keys
    ensures forall l :: l in disk && l !in where ==> view[l] == disk[l]
    ensures forall i :: i in edited ==> i < NBUF && bufs[i].busy
  {
  }

  lemma Cached<T>(bufs: seq<Buf<T>>, where: map<Loc, nat>, disk: Disk<T>, view: Disk<T>,
               busy: set<Loc>, dirty: set<Loc>, edited: set<nat>, l: Loc)
    requires CacheInv(bufs, where, disk, view, busy, dirty, edited) && l in where
    ensures var b := where[l];
            && b < |bufs| && bufs[b].Real() && bufs[b].At() == l && bufs[b].valid
            && l in view && view[l] == bufs[b].data && (bufs[b].busy <==> l in busy)
  {
  }

  /** A reader sees the disk wherever no dirty buffer is in the way. */
  lemma CleanView<T>(bufs: seq<Buf<T>>, where: map<Loc, nat>, disk: Disk<T>, view: Disk<T>,
                     busy: set<Loc>, dirty: set<Loc>)
    requires CacheInv(bufs, where, disk, view, busy, dirty, {})
    ensures view.Keys == disk.Keys
    ensures forall l :: l in disk && l !in dirty ==> view[l] == disk[l]
  {
  }

  lemma HitInv<T>(bufs: seq<Buf<T>>, where: map<Loc, nat>, disk: Disk<T>, view: Disk<T>,
                busy: set<Loc>, dirty: set<Loc>, edited: set<nat>, b: nat)
    requires CacheInv(bufs, where, disk, view, busy, dirty, edited)
    requires b < NBUF && bufs[b].Real() && !bufs[b].busy
    ensures CacheInv(bufs[b := bufs[b].(busy := true)], where, disk, view, busy + {bufs[b].At()}, dirty, edited)
  {
    var l := bufs[b].At();
    assert l in where && view[l] == bufs[b].data;
    ChangedInv(bufs, where, disk, view, busy, dirty, edited, b, bufs[b].(busy := true), disk[l], false);
    assert disk[l := disk[l]] == disk && view[l := view[l]] == view;
    assert Put(busy, l, bufs[b].busy) == busy && Put(dirty, l, bufs[b].dirty) == dirty;
    assert Put(edited, b, b in edited) == edited;
  }

  lemma EditInv<T>(bufs: seq<Buf<T>>, where: map<Loc, nat>, disk: Disk<T>, view: Disk<T>,
                busy: set<Loc>, dirty: set<Loc>, edited: set<nat>, b: nat, data: T)
    requires CacheInv(bufs, where, disk, view, busy, dirty, edited)
    requires b < NBUF && bufs[b].Real() && bufs[b].busy
    ensures CacheInv(bufs[b := bufs[b].(data := data)], where, disk, view[bufs[b].At() := data], busy, dirty,
                     edited + {b})
  {
    var l := bufs[b].At();
    assert l in where && view[l] == bufs[b].data;
    ChangedInv(bufs, where, disk, view, busy, dirty, edited, b, bufs[b].(data := data), disk[l], true);
    assert disk[l := disk[l]] == disk && view[l := view[l]] == view;
    assert Put(busy, l, bufs[b].busy) == busy && Put(dirty, l, bufs[b].dirty) == dirty;
    assert Put(edited, b, b in edited) == edited;
  }

  lemma WriteInv<T>(bufs: seq<Buf<T>>, where: map<Loc, nat>, disk: Disk<T>, view: Disk<T>,
                busy: set<Loc>, dirty: set<Loc>, edited: set<nat>, b: nat)
    requires CacheInv(bufs, where, disk, view, busy, dirty, edited)
    requires b < NBUF && bufs[b].Real() && bufs[b].busy
    ensures CacheInv(bufs[b := bufs[b].(dirty := false)], where, disk[bufs[b].At() := bufs[b].data], view, busy,
                     dirty - {bufs[b].At()}, edited - {b})
  {
    var l := bufs[b].At();
    assert l in where && view[l] == bufs[b].data;
    ChangedInv(bufs, where, disk, view, busy, dirty, edited, b, bufs[b].(dirty := false), bufs[b].data, false);
    assert disk[l := disk[l]] == disk && view[l := view[l]] == view;
    assert Put(busy, l, bufs[b].busy) == busy && Put(dirty, l, bufs[b].dirty) == dirty;
    assert Put(edited, b, b in edited) == edited;
  }

  lemma DirtyInv<T>(bufs: seq<Buf<T>>, where: map<Loc, nat>, disk: Disk<T>, view: Disk<T>,
                busy: set<Loc>, dirty: set<Loc>, edited: set<nat>, b: nat)
    requires CacheInv(bufs, where, disk, view, busy, dirty, edited)
    requires b < NBUF && bufs[b].Real() && bufs[b].busy
    ensures CacheInv(bufs[b := bufs[b].(dirty := true)], where, disk, view, busy, dirty + {bufs[b].At()}, edited - {b})
  {
    var l := bufs[b].At();
    assert l in where && view[l] == bufs[b].data;
    ChangedInv(bufs, where, disk, view, busy, dirty, edited, b, bufs[b].(dirty := true), disk[l], false);
    assert disk[l := disk[l]] == disk && view[l := view[l]] == view;
    assert Put(busy, l, bufs[b].busy) == busy && Put(dirty, l, bufs[b].dirty) == dirty;
    assert Put(edited, b, b in edited) == edited;
  }

  lemma FreeInv<T>(bufs: seq<Buf<T>>, where: map<Loc, nat>, disk: Disk<T>, view: Disk<T>,
                busy: set<Loc>, dirty: set<Loc>, edited: set<nat>, b: nat)
    requires CacheInv(bufs, where, disk, view, busy, dirty, edited)
    requires b < NBUF && bufs[b].Real() && b !in edited
    ensures CacheInv(bufs[b := bufs[b].(busy := false)], where, disk, view, busy - {bufs[b].At()}, dirty, edited)
  {
    var l := bufs[b].At();
    assert l in where && view[l] == bufs[b].data;
    ChangedInv(bufs, where, disk, view, busy, dirty, edited, b, bufs[b].(busy := false), disk[l], false);
    assert disk[l := disk[l]] == disk && view[l := view[l]] == view;
    assert Put(busy, l, bufs[b].busy) == busy && Put(dirty, l, bufs[b].dirty) == dirty;
    assert Put(edited, b, b in edited) == edited;
  }

  class Cache<T> {
    var bufs: seq<Buf<T>>
    var prev: seq<nat>
    var next: seq<nat>
    var disk: Disk<T>
    ghost var trace: seq<Disk<T>>
    ghost var cyc: seq<nat>
    ghost var where: map<Loc, nat>
    ghost var view: Disk<T>
    ghost var busy: set<Loc>
    ghost var dirty: set<Loc>
    ghost var edited: set<nat>

    ghost predicate Valid()
      reads this
    {
      && |bufs| == NBUF && view.Keys == disk.Keys
      && FullRing(prev, next, cyc)
      && CacheInv(bufs, where, disk, view, busy, dirty, edited)
      && |trace| > 0 && trace[|trace| - 1] == disk
    }

    ghost predicate Holds(b: nat, l: Loc)
      reads this
    {
      HeldAs(bufs, b, l)
    }

    /** bufcache_init. */
    constructor (image: Disk<T>, blank: T)
      ensures Valid() && disk == view == image && trace == [image]
      ensures busy == dirty == {} && edited == {} && where == map[]
    {
      bufs := seq(NBUF, _ => Buf(NODEV, 0, false, false, false, blank));
      disk, trace, view := image, [image], image;
      where, busy, dirty, edited := map[], {}, {}, {};
      new;
      InitRing();
    }

    method InitRing()
      modifies this`prev, this`next, this`cyc
      ensures FullRing(prev, next, cyc)
    {
      prev, next := seq(NBUF + 1, _ => NBUF), seq(NBUF + 1, _ => NBUF);
      cyc := [NBUF];
      var b := 0;
      while b < NBUF
        invariant 0 <= b <= NBUF
        invariant |prev| == |next| == NBUF + 1 && |cyc| == b + 1 && cyc[0] == NBUF
        invariant IsRing(prev, next, cyc)
        invariant forall i :: 0 <= i < b ==> i in cyc
        invariant forall i :: i in cyc ==> i < b || i == NBUF
      {
        PushFront(prev, next, cyc, b);
        PushedFrontMembers(cyc, b);
        var first := next[NBUF];
        next := next[b := first];
        prev := prev[b := NBUF];
        prev := prev[first := b];
        next := next[NBUF := b];
        cyc := PushedFront(cyc, b);
        b := b + 1;
      }
    }

    /** The first loop of bufcache_get. */
    method Lookup(l: Loc) returns (b: nat)
      requires Valid() && l.dev != NODEV
      ensures b == if l in where then where[l] else NBUF
    {
      b := next[NBUF];
      ghost var k := 1;
      assert next[cyc[0]] == cyc[1];
      while b != NBUF
        invariant 1 <= k <= |cyc|
        invariant b == if k < |cyc| then cyc[k] else NBUF
        invariant forall j :: 1 <= j < k ==> bufs[cyc[j]].At() != l
        decreases |cyc| - k
      {
        if bufs[b].dev == l.dev && bufs[b].sector == l.sector {
          return;
        }
        b := next[b];
        k := k + 1;
      }
      if l in where {
        assert where[l] in cyc;
      }
    }

    /** The second loop of bufcache_get: the least recently released buffer that may be recycled. */
    method Victim() returns (b: nat)
      requires Valid()
      ensures b == NBUF ==> forall i :: 0 <= i < NBUF ==> !bufs[i].Recyclable()
      ensures b != NBUF ==> exists k :: 1 <= k < |cyc| && cyc[k] == b < NBUF && bufs[b].Recyclable()
                              && forall j :: k < j < |cyc| ==> cyc[j] < NBUF && !bufs[cyc[j]].Recyclable()
    {
      b := prev[NBUF];
      ghost var k := |cyc| - 1;
      while b != NBUF
        invariant 0 <= k < |cyc| && b == cyc[k]
        invariant forall j :: k < j < |cyc| ==> cyc[j] < NBUF && !bufs[cyc[j]].Recyclable()
        decreases k
      {
        if !bufs[b].busy && !bufs[b].dirty {
          return;
        }
        b := prev[b];
        k := k - 1;
      }
      forall i | 0 <= i < NBUF ensures !bufs[i].Recyclable() {
        assert i in cyc;
      }
    }

    /** ide_rw as one synchronous request: write the sector if dirty, otherwise read it. */
    method IdeRw(b: nat)
      requires b < |bufs| && bufs[b].At() in disk
      requires bufs[b].busy && !(bufs[b].valid && !bufs[b].dirty)
      modifies this`bufs, this`disk, this`trace
      ensures old(bufs[b].dirty) ==>
                && disk == old(disk)[old(bufs[b].At()) := old(bufs[b].data)]
                && trace == old(trace) + [disk]
                && bufs == old(bufs)[b := old(bufs[b]).(valid := true, dirty := false)]
      ensures !old(bufs[b].dirty) ==>
                && disk == old(disk) && trace == old(trace)
                && bufs == old(bufs)[b := old(bufs[b]).(valid := true, data := disk[old(bufs[b].At())])]
    {
      var buf := bufs[b];
      if buf.dirty {
        disk := disk[buf.At() := buf.data];
        trace := trace + [disk];
        bufs := bufs[b := buf.(valid := true, dirty := false)];
      } else {
        bufs := bufs[b := buf.(valid := true, data := disk[buf.At()])];
      }
    }

    /**
      bufcache_read.  None stands for the "no buffers" panic.  A buffer held by the
      caller is not requested again: one thread would wait for itself.
     */
    method Read(l: Loc) returns (r: Option<nat>)
      requires Valid() && l in disk && l.dev != NODEV && l !in busy
      modifies this`bufs, this`disk, this`trace, this`where, this`busy
      ensures Valid() && disk == old(disk) && trace == old(trace)
      ensures r.None? <==> l !in old(where) && forall i :: 0 <= i < NBUF ==> !old(bufs)[i].Recyclable()
      ensures r.None? ==> bufs == old(bufs) && busy == old(busy)
      ensures r.Some? ==> Holds(r.value, l) && bufs[r.value].data == view[l] && busy == old(busy) + {l}
      ensures r.Some? ==> !old(bufs)[r.value].busy && r.value !in edited
      ensures |bufs| == |old(bufs)| && forall i :: 0 <= i < |bufs| && r != Some(i) ==> bufs[i] == old(bufs)[i]
      ensures l in dirty || |old(busy + dirty)| < NBUF ==> r.Some?
    {
      hide FullRing, Coherent, Viewed;
      if |busy + dirty| < NBUF {
        SomeRecyclable(bufs, where, disk, busy, dirty);
      }
      var b := Lookup(l);
      if b != NBUF {
        Hit(b, l);
        return Some(b);
      }
      b := Victim();
      if b == NBUF {
        return None;
      }
      Recycle(b, l);
      return Some(b);
    }

    method Hit(b: nat, l: Loc)
      requires Valid() && l in where && where[l] == b && l !in busy
      modifies this`bufs, this`busy
      ensures Valid() && Holds(b, l) && bufs[b].data == view[l] && busy == old(busy) + {l} && b !in edited
      ensures b < |old(bufs)| && !old(bufs)[b].busy && bufs == old(bufs)[b := old(bufs)[b].(busy := true)]
    {
      Cached(bufs, where, disk, view, busy, dirty, edited, l);
      SizeOf(bufs, where, disk, view, busy, dirty, edited);
      hide CacheInv, FullRing;
      HitInv(bufs, where, disk, view, busy, dirty, edited, b);
      bufs := bufs[b := bufs[b].(busy := true)];
      busy := busy + {l};
    }

    /** The tail of bufcache_get, and the disk read that bufcache_read then starts. */
    method Recycle(b: nat, l: Loc)
      requires Valid() && b < NBUF && bufs[b].Recyclable() && l in disk && l !in where && l.dev != NODEV
      modifies this`bufs, this`disk, this`trace, this`where, this`busy
      ensures Valid() && disk == old(disk) && trace == old(trace)
      ensures Holds(b, l) && bufs[b].data == view[l] && busy == old(busy) + {l} && b !in edited
      ensures |bufs| == |old(bufs)| == NBUF && forall i :: 0 <= i < NBUF && i != b ==> bufs[i] == old(bufs)[i]
    {
      SizeOf(bufs, where, disk, view, busy, dirty, edited);
      hide CacheInv, FullRing;
      ReusedInv(bufs, where, disk, view, busy, dirty, edited, b, l);
      where := Rehomed(bufs, where, b, l);
      busy := busy + {l};
      bufs := bufs[b := Buf(l.dev, l.sector, true, false, false, bufs[b].data)];
      IdeRw(b);
      assert bufs == Reused(old(bufs), disk, b, l);
    }

    /** The holder changes the buffer's bytes. */
    method Edit(b: nat, data: T)
      requires Valid() && b < |bufs| && Holds(b, bufs[b].At())
      modifies this`bufs, this`view, this`edited
      ensures Valid() && edited == old(edited) + {b}
      ensures bufs == old(bufs)[b := old(bufs[b]).(data := data)]
      ensures view == old(view)[old(bufs[b].At()) := data]
    {
      var l := bufs[b].At();
      hide CacheInv, FullRing;
      EditInv(bufs, where, disk, view, busy, dirty, edited, b, data);
      view := view[l := data];
      bufs := bufs[b := bufs[b].(data := data)];
      edited := edited + {b};
    }

    /** bufcache_write. */
    method Write(b: nat)
      requires Valid() && b < |bufs| && Holds(b, bufs[b].At())
      modifies this`bufs, this`disk, this`trace, this`dirty, this`edited
      ensures Valid() && edited == old(edited) - {b} && dirty == old(dirty) - {old(bufs[b].At())}
      ensures disk == old(disk)[old(bufs[b].At()) := old(bufs[b].data)] && trace == old(trace) + [disk]
      ensures bufs == old(bufs)[b := old(bufs[b]).(dirty := false)]
    {
      var l := bufs[b].At();
      hide CacheInv, FullRing;
      WriteInv(bufs, where, disk, view, busy, dirty, edited, b);
      bufs := bufs[b := bufs[b].(dirty := true)];
      IdeRw(b);
      dirty := dirty - {l};
      edited := edited - {b};
    }

    method Rewrite(b: nat, data: T)
      requires Valid() && b < |bufs| && Holds(b, bufs[b].At())
      modifies this`bufs, this`disk, this`trace, this`dirty, this`edited, this`view
      ensures Valid() && edited == old(edited) - {b} && dirty == old(dirty) - {old(bufs[b].At())}
      ensures disk == old(disk)[old(bufs[b].At()) := data] && trace == old(trace) + [disk]
      ensures view == old(view)[old(bufs[b].At()) := data]
      ensures bufs == old(bufs)[b := old(bufs[b]).(dirty := false, data := data)]
    {
      hide CacheInv, FullRing;
      Edit(b, data);
      Write(b);
    }

    /** `b->flags |= B_DIRTY`, the last statement of log_write. */
    method MarkDirty(b: nat)
      requires Valid() && b < |bufs| && Holds(b, bufs[b].At())
      modifies this`bufs, this`dirty, this`edited
      ensures Valid() && edited == old(edited) - {b} && dirty == old(dirty) + {old(bufs[b].At())}
      ensures bufs == old(bufs)[b := old(bufs[b]).(dirty := true)]
    {
      hide CacheInv, FullRing;
      DirtyInv(bufs, where, disk, view, busy, dirty, edited, b);
      dirty := dirty + {bufs[b].At()};
      bufs := bufs[b := bufs[b].(dirty := true)];
      edited := edited - {b};
    }

    /** bufcache_release: the buffer becomes the most recently used one. */
    method Release(b: nat)
      requires Valid() && b < |bufs| && Holds(b, bufs[b].At()) && b !in edited
      modifies this`bufs, this`busy, this`prev, this`next, this`cyc
      ensures Valid() && busy == old(busy) - {old(bufs[b].At())}
      ensures bufs == old(bufs)[b := old(bufs[b]).(busy := false)]
      ensures exists k :: 1 <= k < |old(cyc)| && old(cyc)[k] == b &&
                cyc == [old(cyc)[0], b] + old(cyc)[1..k] + old(cyc)[k + 1..]
    {
      hide CacheInv, FullRing;
      MoveToFront(b);
      ghost var k :| 1 <= k < |old(cyc)| && old(cyc)[k] == b && cyc == PushedFront(Without(old(cyc), k), b);
      MovedFront(old(cyc), k);
      FreeInv(bufs, where, disk, view, busy, dirty, edited, b);
      busy := busy - {bufs[b].At()};
      bufs := bufs[b := bufs[b].(busy := false)];
    }

    method MoveToFront(b: nat)
      requires FullRing(prev, next, cyc) && b < NBUF
      modifies this`prev, this`next, this`cyc
      ensures FullRing(prev, next, cyc)
      ensures exists k :: 1 <= k < |old(cyc)| && old(cyc)[k] == b && cyc == PushedFront(Without(old(cyc), k), b)
    {
      assert b in cyc;
      ghost var k :| 0 <= k < |cyc| && cyc[k] == b;
      Unlink(prev, next, cyc, k);
      WithoutDistinct(cyc, k);
      prev := prev[next[b] := prev[b]];
      next := next[prev[b] := next[b]];
      cyc := Without(cyc, k);
      PushFront(prev, next, cyc, b);
      PushedFrontMembers(cyc, b);
      var first := next[NBUF];
      next := next[b := first];
      prev := prev[b := NBUF];
      prev := prev[first := b];
      next := next[NBUF := b];
      cyc := PushedFront(cyc, b);
    }

    ghost predicate Room()
      reads this
    {
      |busy + dirty| < NBUF
    }

    /** The calling pattern of log.c: read a sector, overwrite its bytes, write it, release it. */
    method Store(l: Loc, data: T)
      requires Valid() && l in disk && l.dev != NODEV && l !in busy && Room()
      modifies this
      ensures Valid() && edited == old(edited)
      ensures disk == old(disk)[l := data] && trace == old(trace) + [disk] && view == old(view)[l := data]
      ensures busy == old(busy) && dirty == old(dirty) - {l}
      ensures |bufs| == |old(bufs)|
      ensures forall i :: 0 <= i < |bufs| && old(bufs)[i].busy ==> bufs[i] == old(bufs)[i]
    {
      hide CacheInv, FullRing;
      var r := Read(l);
      var b := r.value;
      Finish(b, data);
    }

    /** Overwrite a held sector, write it, release it. */
    method Finish(b: nat, data: T)
      requires Valid() && b < |bufs| && Holds(b, bufs[b].At())
      modifies this
      ensures Valid() && edited == old(edited) - {b}
      ensures disk == old(disk)[old(bufs[b].At()) := data] && trace == old(trace) + [disk]
      ensures view == old(view)[old(bufs[b].At()) := data]
      ensures busy == old(busy) - {old(bufs[b].At())} && dirty == old(dirty) - {old(bufs[b].At())}
      ensures |bufs| == |old(bufs)| && forall i :: 0 <= i < |bufs| && i != b ==> bufs[i] == old(bufs)[i]
    {
      hide CacheInv, FullRing;
      Rewrite(b, data);
      Release(b);
    }

    method ReleaseBoth(a: nat, b: nat)
      requires Valid() && a < |bufs| && b < |bufs| && a != b && edited == {}
      requires Holds(a, bufs[a].At()) && Holds(b, bufs[b].At())
      modifies this`bufs, this`busy, this`prev, this`next, this`cyc
      ensures Valid() && busy == old(busy) - {old(bufs[a].At()), old(bufs[b].At())}
    {
      hide CacheInv, FullRing;
      Release(a);
      Release(b);
    }

    /** One iteration of install_trans: both buffers are held while the bytes are copied. */
    method CopySector(src: Loc, dst: Loc)
      requires Valid() && edited == {} && src in disk && dst in disk && src != dst
      requires src.dev != NODEV && dst.dev != NODEV && src !in busy && dst !in busy
      requires Room() && (dst in dirty || |busy + dirty| + 1 < NBUF)
      modifies this
      ensures Valid() && edited == {}
      ensures disk == old(disk)[dst := old(view)[src]] && trace == old(trace) + [disk]
      ensures busy == old(busy) && dirty == old(dirty) - {dst}
    {
      hide CacheInv, FullRing;
      var lbuf, dbuf := ReadBoth(src, dst);
      Rewrite(dbuf, bufs[lbuf].data);
      ReleaseBoth(lbuf, dbuf);
    }

    method ReadBoth(src: Loc, dst: Loc) returns (a: nat, b: nat)
      requires Valid() && edited == {} && src in disk && dst in disk && src != dst
      requires src.dev != NODEV && dst.dev != NODEV && src !in busy && dst !in busy
      requires Room() && (dst in dirty || |busy + dirty| + 1 < NBUF)
      modifies this`bufs, this`disk, this`trace, this`where, this`busy
      ensures Valid() && disk == old(disk) && trace == old(trace) && busy == old(busy) + {src} + {dst}
      ensures a < |bufs| && b < |bufs| && a != b && Holds(a, src) && Holds(b, dst) && bufs[a].data == view[src]
    {
      hide CacheInv, FullRing, Valid;
      var r := Read(src);
      a := r.value;
      HoldOne(src, old(busy), dirty);
      r := Read(dst);
      b := r.value;
    }
  }

  lemma HoldOne<T>(x: T, a: set<T>, b: set<T>)
    ensures |a + {x} + b| <= |a + b| + 1
  {
    assert a + {x} + b == (a + b) + {x};
  }
}
