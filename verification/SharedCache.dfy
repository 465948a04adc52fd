/**
  The buffer cache and the disk queue under any interleaving of threads and disk interrupts.
  Each step is one region under bcache.lock or ide_lk, or one action of the thread that holds the
  buffer.  The specification is a memory `mem` with one cell per sector: releasing a buffer stores
  its data there, and whoever gets the sector next sees it.
 */
module SharedCache {
  import opened Collections

  /** Fresh: got but not read yet.  Queued: in the disk queue, its holder waits.  Usable: returned to the holder. */
  datatype Phase = Fresh | Queued | Usable

  /**
    A buffer header and its data.  `edited` and `touched` record the holder's behaviour: data changed
    since it was last the same as on disk, and data changed since the buffer was acquired.
   */
  datatype Buf<K, T> = Buf(key: Option<K>, busy: bool, valid: bool, dirty: bool, data: T, phase: Phase, edited: bool,
                           touched: bool)

  datatype World<K, T> = World(
    bufs: seq<Buf<K, T>>,
    ring: seq<nat>,            // from bcache.head.next on
    queue: seq<nat>,           // idequeue
    wire: Option<T>,           // what ide_start has sent for the request at the head, if it is a write
    disk: map<K, T>,
    holds: seq<set<nat>>,      // the buffers that each thread has been given and not released
    mem: map<K, T>,
    when: seq<nat>,            // time of each buffer's last release
    clock: nat)

  datatype Label<K, T> =
    | Hit(t: nat, b: nat, k: K)
    | Recycle(t: nat, b: nat, k: K)
    | Edit(t: nat, b: nat, x: T)
    | MarkDirty(t: nat, b: nat)
    | SubmitRead(t: nat, b: nat)
    | SubmitWrite(t: nat, b: nat)
    | Release(t: nat, b: nat)
    | Interrupt

  // ---- what every step keeps ----

  ghost predicate BufOk<K, T>(f: Buf<K, T>, disk: map<K, T>, mem: map<K, T>) {
    match f.key
    case None => !f.busy && !f.valid && !f.dirty
    case Some(k) =>
      && k in disk && k in mem && (f.dirty ==> f.valid)
      && (!f.busy ==> f.valid && f.data == mem[k] && (!f.dirty ==> f.data == disk[k]))
      && (f.busy && f.phase.Fresh? ==> !f.valid && disk[k] == mem[k])
      && (f.busy && f.phase.Queued? && !f.dirty ==> !f.valid && disk[k] == mem[k])
      && (f.busy && f.phase.Usable? ==> f.valid && (!f.dirty && !f.edited ==> f.data == disk[k]))
      && (f.busy && f.valid && !f.touched ==> f.data == mem[k])
      && (f.busy && !f.valid ==> !f.touched)
  }

  ghost predicate AllBufsOk<K, T>(w: World<K, T>) {
    forall b :: 0 <= b < |w.bufs| ==> BufOk(w.bufs[b], w.disk, w.mem)
  }

  /** At most one buffer per sector. */
  ghost predicate OneBuffer<K, T>(bufs: seq<Buf<K, T>>) {
    forall a, b :: 0 <= a < b < |bufs| && bufs[a].key.Some? ==> bufs[a].key != bufs[b].key
  }

  ghost predicate Cached<K, T>(bufs: seq<Buf<K, T>>, k: K) {
    exists b :: 0 <= b < |bufs| && bufs[b].key == Some(k)
  }

  /** A sector that is not cached is up to date on disk. */
  ghost predicate RestOnDisk<K(!new), T>(w: World<K, T>) {
    w.mem.Keys == w.disk.Keys && forall k :: k in w.disk && !Cached(w.bufs, k) ==> w.disk[k] == w.mem[k]
  }

  ghost predicate HoldersOk<K, T>(bufs: seq<Buf<K, T>>, holds: seq<set<nat>>) {
    && (forall t: nat, b: nat :: Holds(holds, t, b) ==> b < |bufs| && bufs[b].busy)
    && (forall t: nat, u: nat, b: nat :: Holds(holds, t, b) && Holds(holds, u, b) ==> t == u)
    && (forall b: nat :: b < |bufs| && bufs[b].busy ==> Held(holds, b))
  }

  ghost predicate Held(holds: seq<set<nat>>, b: nat) { exists t: nat :: Holds(holds, t, b) }

  predicate Holds(holds: seq<set<nat>>, t: nat, b: nat) { t < |holds| && b in holds[t] }

  ghost predicate QueueOk<K, T>(w: World<K, T>) {
    && Distinct(w.queue)
    && (forall i :: 0 <= i < |w.queue| ==> w.queue[i] < |w.bufs|)
    && (forall b :: 0 <= b < |w.bufs| ==> (b in w.queue <==> w.bufs[b].busy && w.bufs[b].phase.Queued?))
    && (w.queue != [] ==> w.wire == Wire(w.bufs[w.queue[0]]))
  }

  /** The ring holds every buffer once, the most recently released first. */
  ghost predicate RingOk(ring: seq<nat>, when: seq<nat>, clock: nat) {
    Newest(ring, when) && forall b :: 0 <= b < |when| ==> b in ring && when[b] < clock
  }

  ghost predicate Newest(ring: seq<nat>, when: seq<nat>) {
    && (forall x :: x in ring ==> x < |when|)
    && (forall i, j :: 0 <= i < j < |ring| ==> ring[i] < |when| && ring[j] < |when| && when[ring[i]] > when[ring[j]])
  }

  ghost predicate Inv<K(!new), T>(w: World<K, T>) {
    && |w.when| == |w.bufs| && AllBufsOk(w) && OneBuffer(w.bufs) && RestOnDisk(w)
    && HoldersOk(w.bufs, w.holds) && QueueOk(w) && RingOk(w.ring, w.when, w.clock)
  }

  // ---- the steps ----

  /** ide_start: the data of a write goes out now. */
  function Wire<K, T>(f: Buf<K, T>): (r: Option<T>) { if f.dirty then Some(f.data) else None }

  ghost predicate Mine<K, T>(w: World<K, T>, t: nat, b: nat, p: Phase) {
    Holds(w.holds, t, b) && b < |w.bufs| && w.bufs[b].phase == p
  }

  ghost predicate Recyclable<K, T>(f: Buf<K, T>) { !f.busy && !f.dirty }

  ghost predicate Fires<K, T>(w: World<K, T>, l: Label<K, T>) {
    match l
    case Hit(t, b, k) => t < |w.holds| && k in w.disk && b < |w.bufs| && w.bufs[b].key == Some(k) && !w.bufs[b].busy
    case Recycle(t, b, k) =>
      && t < |w.holds| && k in w.disk && !Cached(w.bufs, k) && b < |w.bufs|
      && exists i :: 0 <= i < |w.ring| && w.ring[i] == b && Recyclable(w.bufs[b]) &&
           forall j :: i < j < |w.ring| && w.ring[j] < |w.bufs| ==> !Recyclable(w.bufs[w.ring[j]])
    case Edit(t, b, x) => Mine(w, t, b, Usable)
    case MarkDirty(t, b) => Mine(w, t, b, Usable)
    case SubmitRead(t, b) => Mine(w, t, b, Fresh)
    case SubmitWrite(t, b) => Mine(w, t, b, Usable)
    // the holder writes or marks what it has changed before it lets go
    case Release(t, b) => Mine(w, t, b, Usable) && (w.bufs[b].edited ==> w.bufs[b].dirty)
    case Interrupt => w.queue != [] && w.queue[0] < |w.bufs| && w.bufs[w.queue[0]].key.Some?
  }

  ghost function Enqueued<K, T>(w: World<K, T>, b: nat, f: Buf<K, T>): (r: World<K, T>)
    requires b < |w.bufs|
  {
    w.(bufs := w.bufs[b := f], queue := w.queue + [b], wire := if w.queue == [] then Wire(f) else w.wire)
  }

  /** bufcache_release moves the buffer to the front. */
  ghost function ToFront(ring: seq<nat>, b: nat): (r: seq<nat>) { [b] + Others(ring, b) }

  ghost function Others(ring: seq<nat>, b: nat): (r: seq<nat>) {
    if ring == [] then [] else (if ring[0] == b then [] else [ring[0]]) + Others(ring[1..], b)
  }

  ghost function Next<K, T>(w: World<K, T>, l: Label<K, T>): (r: World<K, T>)
    requires Fires(w, l) && |w.when| == |w.bufs|
  {
    match l
    case Hit(t, b, k) =>
      var f := w.bufs[b];
      w.(bufs := w.bufs[b := f.(busy := true, phase := if f.valid then Usable else Fresh, edited := false,
                                touched := false)],
         holds := w.holds[t := w.holds[t] + {b}])
    case Recycle(t, b, k) =>
      var f := w.bufs[b];
      w.(bufs := w.bufs[b := Buf(Some(k), true, false, false, f.data, Fresh, false, false)],
         holds := w.holds[t := w.holds[t] + {b}])
    case Edit(t, b, x) => w.(bufs := w.bufs[b := w.bufs[b].(data := x, edited := true, touched := true)])
    case MarkDirty(t, b) => w.(bufs := w.bufs[b := w.bufs[b].(dirty := true)])
    case SubmitRead(t, b) => Enqueued(w, b, w.bufs[b].(phase := Queued))
    case SubmitWrite(t, b) => Enqueued(w, b, w.bufs[b].(dirty := true, phase := Queued))
    case Release(t, b) =>
      var f := w.bufs[b];
      w.(bufs := w.bufs[b := f.(busy := false)], holds := w.holds[t := w.holds[t] - {b}],
         mem := if f.key.Some? then w.mem[f.key.value := f.data] else w.mem,
         ring := ToFront(w.ring, b), when := w.when[b := w.clock], clock := w.clock + 1)
    case Interrupt =>
      var b := w.queue[0];
      var f := w.bufs[b];
      var k := f.key.value;
      var g := f.(data := if !f.dirty && k in w.disk then w.disk[k] else f.data, valid := true, dirty := false,
                  phase := Usable, edited := false);
      var bufs := w.bufs[b := g];
      var queue := w.queue[1..];
      w.(bufs := bufs, queue := queue,
         disk := if w.wire.Some? then w.disk[k := w.wire.value] else w.disk,
         wire := if queue != [] && queue[0] < |bufs| then Wire(bufs[queue[0]]) else None)
  }

  // ---- every step keeps the invariant ----

  /** Only buffer `b` and the sector it is for have changed. */
  lemma OtherBufs<K(!new), T>(w: World<K, T>, r: World<K, T>, b: nat)
    requires Inv(w) && b < |w.bufs| && |r.bufs| == |w.bufs| && r.bufs == w.bufs[b := r.bufs[b]]
    requires r.bufs[b].key == w.bufs[b].key && BufOk(r.bufs[b], r.disk, r.mem)
    requires forall k :: k in w.disk ==>
              k in r.disk && k in r.mem && (w.bufs[b].key != Some(k) ==> r.disk[k] == w.disk[k] && r.mem[k] == w.mem[k])
    requires r.disk.Keys == w.disk.Keys && r.mem.Keys == w.mem.Keys
    ensures AllBufsOk(r) && OneBuffer(r.bufs) && RestOnDisk(r)
  {
    hide QueueOk, RingOk, HoldersOk;
    forall a | 0 <= a < |r.bufs| ensures BufOk(r.bufs[a], r.disk, r.mem) {
      if a != b {
        assert BufOk(w.bufs[a], w.disk, w.mem);
        SameKeyNever(w.bufs, a, b);
      }
    }
    forall k | k in r.disk && !Cached(r.bufs, k) ensures r.disk[k] == r.mem[k] {
      SameKeys(w.bufs, r.bufs, k);
    }
  }

  lemma SameKeyNever<K, T>(bufs: seq<Buf<K, T>>, a: nat, b: nat)
    requires OneBuffer(bufs) && a < |bufs| && b < |bufs| && a != b
    ensures bufs[a].key.Some? ==> bufs[a].key != bufs[b].key
  {
  }

  lemma SameKeys<K, T>(bufs: seq<Buf<K, T>>, bufs': seq<Buf<K, T>>, k: K)
    requires |bufs| == |bufs'| && forall i :: 0 <= i < |bufs| ==> bufs'[i].key == bufs[i].key
    ensures Cached(bufs, k) <==> Cached(bufs', k)
  {
    if Cached(bufs, k) {
      var b :| 0 <= b < |bufs| && bufs[b].key == Some(k);
      assert bufs'[b].key == Some(k);
    }
  }

  lemma QueueQuiet<K, T>(w: World<K, T>, r: World<K, T>, b: nat)
    requires QueueOk(w) && b < |w.bufs| && |r.bufs| == |w.bufs| && r.bufs == w.bufs[b := r.bufs[b]]
    requires r.queue == w.queue && r.wire == w.wire
    requires !(w.bufs[b].busy && w.bufs[b].phase.Queued?) && !(r.bufs[b].busy && r.bufs[b].phase.Queued?)
    ensures QueueOk(r)
  {
    assert b !in w.queue;
    assert w.queue != [] ==> w.queue[0] in w.queue;
  }

  lemma QueueSubmit<K, T>(w: World<K, T>, b: nat, f: Buf<K, T>)
    requires QueueOk(w) && b < |w.bufs| && w.bufs[b].busy && !w.bufs[b].phase.Queued? && f.busy && f.phase.Queued?
    ensures QueueOk(Enqueued(w, b, f))
  {
    assert b !in w.queue;
    var r := Enqueued(w, b, f);
    assert forall x :: x in r.queue <==> x in w.queue || x == b;
    assert w.queue != [] ==> w.queue[0] in w.queue;
  }

  lemma QueuePop<K, T>(w: World<K, T>, r: World<K, T>)
    requires QueueOk(w) && w.queue != [] && r.queue == w.queue[1..]
    requires |r.bufs| == |w.bufs| && r.bufs == w.bufs[w.queue[0] := r.bufs[w.queue[0]]]
    requires !r.bufs[w.queue[0]].phase.Queued?
    requires r.queue != [] ==> r.wire == Wire(r.bufs[r.queue[0]])
    ensures QueueOk(r)
  {
    var b := w.queue[0];
    forall x | x in w.queue && x != b ensures x in r.queue {
      var i :| 0 <= i < |w.queue| && w.queue[i] == x;
      assert r.queue[i - 1] == x;
    }
    assert b !in r.queue;
    forall x | 0 <= x < |r.bufs| ensures x in r.queue <==> r.bufs[x].busy && r.bufs[x].phase.Queued? {
      assert x != b ==> (x in w.queue <==> x in r.queue);
    }
  }

  lemma HoldersQuiet<K, T>(bufs: seq<Buf<K, T>>, bufs': seq<Buf<K, T>>, holds: seq<set<nat>>, b: nat)
    requires HoldersOk(bufs, holds) && b < |bufs| && |bufs'| == |bufs| && bufs' == bufs[b := bufs'[b]]
    requires bufs[b].busy && bufs'[b].busy
    ensures HoldersOk(bufs', holds)
  {
    hide Held;
  }

  lemma HoldersAdd<K, T>(bufs: seq<Buf<K, T>>, bufs': seq<Buf<K, T>>, holds: seq<set<nat>>, t: nat, b: nat)
    requires HoldersOk(bufs, holds) && b < |bufs| && t < |holds| && !bufs[b].busy
    requires |bufs'| == |bufs| && bufs' == bufs[b := bufs'[b]] && bufs'[b].busy
    ensures HoldersOk(bufs', holds[t := holds[t] + {b}])
  {
    var holds' := holds[t := holds[t] + {b}];
    forall u: nat, a: nat | Holds(holds', u, a) && !(u == t && a == b) ensures Holds(holds, u, a) && a != b {
      assert Holds(holds, u, a);
    }
    assert Holds(holds', t, b);
    forall a: nat | a < |bufs'| && bufs'[a].busy && a != b ensures Held(holds', a) {
      var u: nat :| Holds(holds, u, a);
      assert Holds(holds', u, a);
    }
  }

  lemma HoldersDrop<K, T>(bufs: seq<Buf<K, T>>, bufs': seq<Buf<K, T>>, holds: seq<set<nat>>, t: nat, b: nat)
    requires HoldersOk(bufs, holds) && b < |bufs| && t < |holds| && b in holds[t]
    requires |bufs'| == |bufs| && bufs' == bufs[b := bufs'[b]] && !bufs'[b].busy
    ensures HoldersOk(bufs', holds[t := holds[t] - {b}])
  {
    var holds' := holds[t := holds[t] - {b}];
    assert Holds(holds, t, b);
    forall u: nat, a: nat | Holds(holds', u, a) ensures Holds(holds, u, a) && a != b {
      assert Holds(holds, u, a);
    }
    forall a: nat | a < |bufs'| && bufs'[a].busy ensures Held(holds', a) {
      var u: nat :| Holds(holds, u, a);
      assert Holds(holds', u, a);
    }
  }

  lemma {:induction false} OthersAre(ring: seq<nat>, b: nat)
    ensures forall x :: x in Others(ring, b) <==> x in ring && x != b
  {
    if ring != [] {
      OthersAre(ring[1..], b);
      assert ring == [ring[0]] + ring[1..];
    }
  }

  lemma NewestCons(x: nat, ring: seq<nat>, when: seq<nat>)
    requires Newest(ring, when) && x < |when| && forall y :: y in ring ==> when[x] > when[y]
    ensures Newest([x] + ring, when)
  {
    var r := [x] + ring;
    forall i, j | 0 <= i < j < |r| ensures r[i] < |when| && r[j] < |when| && when[r[i]] > when[r[j]] {
      assert r[j] == ring[j - 1] && ring[j - 1] in ring;
      assert i > 0 ==> r[i] == ring[i - 1];
    }
  }

  lemma NewestTail(ring: seq<nat>, when: seq<nat>)
    requires Newest(ring, when) && ring != []
    ensures Newest(ring[1..], when) && ring[0] < |when| && forall y :: y in ring[1..] ==>
              y < |when| && when[ring[0]] > when[y]
  {
    var o := ring[1..];
    assert ring[0] in ring;
    forall i, j | 0 <= i < j < |o| ensures o[i] < |when| && o[j] < |when| && when[o[i]] > when[o[j]] {
      assert o[i] == ring[i + 1] && o[j] == ring[j + 1];
    }
    forall y | y in o ensures y < |when| && when[ring[0]] > when[y] {
      var j :| 0 <= j < |o| && o[j] == y;
      assert ring[j + 1] == y;
    }
  }

  lemma {:induction false} OthersNewest(ring: seq<nat>, b: nat, when: seq<nat>, x: nat)
    requires Newest(ring, when) && b < |when|
    ensures Newest(Others(ring, b), when[b := x])
  {
    if ring != [] {
      hide Newest;
      NewestTail(ring, when);
      OthersNewest(ring[1..], b, when, x);
      OthersAre(ring[1..], b);
      var o := Others(ring[1..], b);
      if ring[0] == b {
        assert Others(ring, b) == o;
      } else {
        NewestCons(ring[0], o, when[b := x]);
      }
    }
  }

  /** The ring is a permutation of the buffers in the order of their last release. */
  lemma RingFront(ring: seq<nat>, when: seq<nat>, clock: nat, b: nat)
    requires RingOk(ring, when, clock) && b < |when|
    ensures RingOk(ToFront(ring, b), when[b := clock], clock + 1)
  {
    OthersAre(ring, b);
    OthersNewest(ring, b, when, clock);
    var when' := when[b := clock];
    NewestCons(b, Others(ring, b), when');
    assert forall x :: x in ToFront(ring, b) <==> x in ring || x == b;
  }

  lemma HitKeeps<K(!new), T>(w: World<K, T>, l: Label<K, T>)
    requires Inv(w) && Fires(w, l) && l.Hit?
    ensures Inv(Next(w, l))
  {
    hide RingOk, QueueOk, HoldersOk, OneBuffer;
    var r := Next(w, l);
    OtherBufs(w, r, l.b);
    QueueQuiet(w, r, l.b);
    HoldersAdd(w.bufs, r.bufs, w.holds, l.t, l.b);
  }

  lemma HolderActs<K(!new), T>(w: World<K, T>, l: Label<K, T>)
    requires Inv(w) && Fires(w, l) && (l.Edit? || l.MarkDirty?)
    ensures Inv(Next(w, l))
  {
    hide RingOk, QueueOk, OneBuffer;
    var r := Next(w, l);
    assert BufOk(w.bufs[l.b], w.disk, w.mem);
    OtherBufs(w, r, l.b);
    QueueQuiet(w, r, l.b);
    HoldersQuiet(w.bufs, r.bufs, w.holds, l.b);
  }

  lemma SubmitKeeps<K(!new), T>(w: World<K, T>, l: Label<K, T>)
    requires Inv(w) && Fires(w, l) && (l.SubmitRead? || l.SubmitWrite?)
    ensures Inv(Next(w, l))
  {
    hide RingOk, QueueOk, OneBuffer;
    var r := Next(w, l);
    assert BufOk(w.bufs[l.b], w.disk, w.mem);
    OtherBufs(w, r, l.b);
    QueueSubmit(w, l.b, r.bufs[l.b]);
    HoldersQuiet(w.bufs, r.bufs, w.holds, l.b);
  }

  lemma ReleaseKeeps<K(!new), T>(w: World<K, T>, l: Label<K, T>)
    requires Inv(w) && Fires(w, l) && l.Release?
    ensures Inv(Next(w, l))
  {
    hide RingOk, QueueOk, OneBuffer, ToFront;
    var r := Next(w, l);
    assert BufOk(w.bufs[l.b], w.disk, w.mem);
    OtherBufs(w, r, l.b);
    QueueQuiet(w, r, l.b);
    HoldersDrop(w.bufs, r.bufs, w.holds, l.t, l.b);
    RingFront(w.ring, w.when, w.clock, l.b);
  }

  lemma InterruptKeeps<K(!new), T>(w: World<K, T>, l: Label<K, T>)
    requires Inv(w) && Fires(w, l) && l.Interrupt?
    ensures Inv(Next(w, l))
  {
    hide RingOk, OneBuffer;
    var r, b := Next(w, l), w.queue[0];
    assert b in w.queue && BufOk(w.bufs[b], w.disk, w.mem);
    QueuePop(w, r);
    hide QueueOk;
    OtherBufs(w, r, b);
    HoldersQuiet(w.bufs, r.bufs, w.holds, b);
  }

  /** An idle clean buffer can be given to another sector: what it held is on disk. */
  lemma RecycledBufs<K(!new), T>(w: World<K, T>, r: World<K, T>, b: nat, k: K)
    requires AllBufsOk(w) && OneBuffer(w.bufs) && RestOnDisk(w) && b < |w.bufs| && Recyclable(w.bufs[b]) && k in w.disk
    requires !Cached(w.bufs, k)
    requires |r.bufs| == |w.bufs| && r.bufs == w.bufs[b := r.bufs[b]] && r.disk == w.disk && r.mem == w.mem
    requires r.bufs[b].key == Some(k) && r.bufs[b].busy && r.bufs[b].phase.Fresh? && !r.bufs[b].valid
    requires !r.bufs[b].dirty && !r.bufs[b].touched
    ensures AllBufsOk(r) && OneBuffer(r.bufs) && RestOnDisk(r)
  {
    assert BufOk(w.bufs[b], w.disk, w.mem) && BufOk(r.bufs[b], r.disk, r.mem);
    hide BufOk;
    forall k' | k' in r.disk && !Cached(r.bufs, k') ensures r.disk[k'] == r.mem[k'] {
      CachedBut(w.bufs, r.bufs, b, k');
    }
  }

  lemma RecycleKeeps<K(!new), T>(w: World<K, T>, l: Label<K, T>)
    requires Inv(w) && Fires(w, l) && l.Recycle?
    ensures Inv(Next(w, l))
  {
    hide RingOk, QueueOk, HoldersOk, AllBufsOk, OneBuffer, RestOnDisk, Cached;
    var r := Next(w, l);
    QueueQuiet(w, r, l.b);
    HoldersAdd(w.bufs, r.bufs, w.holds, l.t, l.b);
    RecycledBufs(w, r, l.b, l.k);
  }

  lemma CachedBut<K, T>(bufs: seq<Buf<K, T>>, bufs': seq<Buf<K, T>>, b: nat, k: K)
    requires b < |bufs| == |bufs'| && bufs' == bufs[b := bufs'[b]]
    ensures Cached(bufs, k) ==> Cached(bufs', k) || bufs[b].key == Some(k)
  {
    if Cached(bufs, k) {
      var a :| 0 <= a < |bufs| && bufs[a].key == Some(k);
      assert bufs'[a].key == Some(k) || a == b;
    }
  }

  lemma NextKeeps<K(!new), T>(w: World<K, T>, l: Label<K, T>)
    requires Inv(w) && Fires(w, l)
    ensures Inv(Next(w, l))
  {
    hide Next, Inv, Fires;
    InvSize(w);
    match l
    case Hit(_, _, _) => HitKeeps(w, l);
    case Recycle(_, _, _) => RecycleKeeps(w, l);
    case Edit(_, _, _) => HolderActs(w, l);
    case MarkDirty(_, _) => HolderActs(w, l);
    case SubmitRead(_, _) => SubmitKeeps(w, l);
    case SubmitWrite(_, _) => SubmitKeeps(w, l);
    case Release(_, _) => ReleaseKeeps(w, l);
    case Interrupt => InterruptKeeps(w, l);
  }

  lemma InvSize<K(!new), T>(w: World<K, T>)
    requires Inv(w)
    ensures |w.when| == |w.bufs|
  {
  }

  // ---- over all runs from bufcache_init ----

  ghost predicate Start<K, T>(w: World<K, T>) {
    && |w.when| == |w.bufs| == |w.ring| && w.queue == [] && w.mem == w.disk && w.clock == |w.bufs|
    && (forall b :: 0 <= b < |w.bufs| ==>
          && w.bufs[b].key == None && !w.bufs[b].busy && !w.bufs[b].valid && !w.bufs[b].dirty
          && w.when[b] == b && w.ring[b] == |w.bufs| - 1 - b)
    && (forall t :: 0 <= t < |w.holds| ==> w.holds[t] == {})
  }

  lemma StartInv<K(!new), T>(w: World<K, T>)
    requires Start(w)
    ensures Inv(w)
  {
    hide RingOk;
    StartRing(w.ring, w.when);
  }

  lemma StartRing(ring: seq<nat>, when: seq<nat>)
    requires |ring| == |when| && forall b :: 0 <= b < |when| ==> when[b] == b && ring[b] == |when| - 1 - b
    ensures RingOk(ring, when, |when|)
  {
    forall b | 0 <= b < |when| ensures b in ring {
      assert ring[|when| - 1 - b] == b;
    }
  }

  ghost predicate IsRun<K(!new), T>(w: World<K, T>, run: seq<Label<K, T>>)
    requires Inv(w)
    decreases |run|
  {
    run == [] || (Fires(w, run[0]) && (NextKeeps(w, run[0]); IsRun(Next(w, run[0]), run[1..])))
  }

  ghost function End<K(!new), T>(w: World<K, T>, run: seq<Label<K, T>>): (r: World<K, T>)
    requires Inv(w) && IsRun(w, run)
    ensures Inv(r)
    decreases |run|
  {
    if run == [] then w else NextKeeps(w, run[0]); End(Next(w, run[0]), run[1..])
  }

  /** At most one buffer per sector, and exactly one holder for a busy buffer, none for another, after every run. */
  lemma Exclusive<K(!new), T>(w: World<K, T>, run: seq<Label<K, T>>, a: nat, b: nat, t: nat, u: nat)
    requires Start(w) && Inv(w) && IsRun(w, run)
    ensures var e := End(w, run);
            && (a < |e.bufs| && b < |e.bufs| && e.bufs[a].key.Some? && e.bufs[a].key == e.bufs[b].key ==> a == b)
            && (Holds(e.holds, t, b) && Holds(e.holds, u, b) ==> t == u)
            && (Holds(e.holds, t, b) ==> b < |e.bufs| && e.bufs[b].busy)
            && (b < |e.bufs| && e.bufs[b].busy ==> exists v: nat :: v < |e.holds| && b in e.holds[v])
  {
    hide IsRun, AllBufsOk, RestOnDisk, QueueOk, RingOk;
    var e := End(w, run);
    assert Inv(e);
    if b < |e.bufs| && e.bufs[b].busy {
      var v: nat :| Holds(e.holds, v, b);
    }
  }

  // ---- one cell per sector ----

  /** What was stored last for sector `k` in a run, and `x` if nothing was. */
  ghost function Stored<K(!new), T>(w: World<K, T>, run: seq<Label<K, T>>, k: K, x: T): (r: T)
    requires Inv(w) && IsRun(w, run)
    decreases |run|
  {
    if run == [] then x
    else
      var l := run[0];
      NextKeeps(w, l);
      Stored(Next(w, l), run[1..], k, if l.Edit? && w.bufs[l.b].key == Some(k) then l.x else x)
  }

  /** Sector `k` has the value `x`: in its buffer if that has been read, and on disk otherwise. */
  ghost predicate Current<K, T>(w: World<K, T>, k: K, x: T) {
    && k in w.disk
    && (forall b :: 0 <= b < |w.bufs| && w.bufs[b].key == Some(k) ==>
          if w.bufs[b].valid then w.bufs[b].data == x else w.disk[k] == x)
    && (!Cached(w.bufs, k) ==> w.disk[k] == x)
  }

  /** A step on buffer `b` that leaves the other sectors alone. */
  lemma CurrentOthers<K(!new), T>(w: World<K, T>, r: World<K, T>, b: nat, k: K, x: T, y: T)
    requires Inv(w) && b < |w.bufs| && |r.bufs| == |w.bufs| && r.bufs == w.bufs[b := r.bufs[b]]
    requires r.bufs[b].key == w.bufs[b].key && Current(w, k, x)
    requires k in r.disk
    requires if w.bufs[b].key == Some(k) then y == if r.bufs[b].valid then r.bufs[b].data else r.disk[k]
             else r.disk[k] == w.disk[k] && y == x
    ensures Current(r, k, y)
  {
    hide AllBufsOk, RestOnDisk, HoldersOk, QueueOk, RingOk;
    SameKeys(w.bufs, r.bufs, k);
    if w.bufs[b].key == Some(k) {
      assert Cached(w.bufs, k);
      forall a: nat | a < |r.bufs| && a != b ensures r.bufs[a].key != Some(k) {
        SameKeyNever(w.bufs, b, a);
      }
    }
  }

  lemma CurrentKept<K(!new), T>(w: World<K, T>, l: Label<K, T>, k: K, x: T)
    requires Inv(w) && Fires(w, l) && Current(w, k, x)
    ensures Current(Next(w, l), k, if l.Edit? && w.bufs[l.b].key == Some(k) then l.x else x)
  {
    hide Inv, Current;
    InvSize(w);
    match l
    case Recycle(_, _, _) => CurrentRecycled(w, l, k, x);
    case Interrupt => CurrentCompleted(w, l, k, x);
    case Hit(_, _, _) => CurrentTouched(w, l, l.b, k, x);
    case Edit(_, _, _) => CurrentTouched(w, l, l.b, k, x);
    case MarkDirty(_, _) => CurrentTouched(w, l, l.b, k, x);
    case SubmitRead(_, _) => CurrentTouched(w, l, l.b, k, x);
    case SubmitWrite(_, _) => CurrentTouched(w, l, l.b, k, x);
    case Release(_, _) => CurrentTouched(w, l, l.b, k, x);
  }

  lemma CurrentTouched<K(!new), T>(w: World<K, T>, l: Label<K, T>, b: nat, k: K, x: T)
    requires Inv(w) && Fires(w, l) && Current(w, k, x) && !l.Recycle? && !l.Interrupt? && b == l.b
    ensures Current(Next(w, l), k, if l.Edit? && w.bufs[b].key == Some(k) then l.x else x)
  {
    hide OneBuffer, RestOnDisk, QueueOk, RingOk, Cached, ToFront;
    assert BufOk(w.bufs[b], w.disk, w.mem);
    CurrentOthers(w, Next(w, l), b, k, x, if l.Edit? && w.bufs[b].key == Some(k) then l.x else x);
  }

  lemma CurrentCompleted<K(!new), T>(w: World<K, T>, l: Label<K, T>, k: K, x: T)
    requires Inv(w) && Fires(w, l) && Current(w, k, x) && l.Interrupt?
    ensures Current(Next(w, l), k, x)
  {
    hide OneBuffer, RestOnDisk, RingOk, Cached, HoldersOk;
    var b := w.queue[0];
    assert b in w.queue && BufOk(w.bufs[b], w.disk, w.mem);
    CurrentOthers(w, Next(w, l), b, k, x, x);
  }

  lemma CurrentRecycled<K(!new), T>(w: World<K, T>, l: Label<K, T>, k: K, x: T)
    requires Inv(w) && Fires(w, l) && Current(w, k, x) && l.Recycle?
    ensures Current(Next(w, l), k, x)
  {
    hide RestOnDisk, QueueOk, RingOk, HoldersOk;
    var r := Next(w, l);
    assert BufOk(w.bufs[l.b], w.disk, w.mem);
    CachedBut(w.bufs, r.bufs, l.b, k);
  }

  lemma {:induction false} CurrentRun<K(!new), T>(w: World<K, T>, run: seq<Label<K, T>>, k: K, x: T)
    requires Inv(w) && IsRun(w, run) && Current(w, k, x)
    ensures Current(End(w, run), k, Stored(w, run, k, x))
    decreases |run|
  {
    hide Inv, Current, Next, Cached;
    InvSize(w);
    if run != [] {
      var l := run[0];
      NextKeeps(w, l);
      CurrentKept(w, l, k, x);
      CurrentRun(Next(w, l), run[1..], k, if l.Edit? && w.bufs[l.b].key == Some(k) then l.x else x);
    }
  }

  /**
    The cache is a memory: after every run, whoever has been given a sector's buffer sees what was stored
    there last by anybody, or what the disk had at first if nobody has stored anything.  While the sector
    has no buffer, or an idle clean one, the disk has it.
   */
  lemma SeesLastStore<K(!new), T>(w: World<K, T>, run: seq<Label<K, T>>, k: K, t: nat, b: nat)
    requires Start(w) && Inv(w) && IsRun(w, run) && k in w.disk
    ensures var e, x := End(w, run), Stored(w, run, k, w.disk[k]);
            && k in e.disk
            && (Mine(e, t, b, Usable) && e.bufs[b].key == Some(k) ==> e.bufs[b].data == x)
            && (!Cached(e.bufs, k) ==> e.disk[k] == x)
            && (b < |e.bufs| && e.bufs[b].key == Some(k) && !e.bufs[b].busy && !e.bufs[b].dirty ==> e.disk[k] == x)
  {
    hide IsRun, OneBuffer, RestOnDisk, QueueOk, RingOk;
    var e := End(w, run);
    CurrentRun(w, run, k, w.disk[k]);
    assert Inv(e);
    if b < |e.bufs| {
      assert BufOk(e.bufs[b], e.disk, e.mem);
    }
  }

  /** Whoever wants a sector gets it if its buffer is idle, or if it has none and some buffer is idle and clean. */
  lemma GetFires<K(!new), T>(w: World<K, T>, t: nat, k: K, a: nat)
    requires Inv(w) && t < |w.holds| && k in w.disk && a < |w.bufs| && !w.bufs[a].busy
    ensures w.bufs[a].key == Some(k) ==> Fires(w, Hit(t, a, k))
    ensures !Cached(w.bufs, k) && !w.bufs[a].dirty ==> exists b: nat :: Fires(w, Recycle(t, b, k))
  {
    hide AllBufsOk, OneBuffer, RestOnDisk, HoldersOk, QueueOk, Cached;
    if !Cached(w.bufs, k) && !w.bufs[a].dirty {
      assert a in w.ring;
      var i :| 0 <= i < |w.ring| && w.ring[i] == a;
      var b := LastRecyclable(w, i);
      assert Fires(w, Recycle(t, b, k));
    }
  }

  lemma {:induction false} LastRecyclable<K, T>(w: World<K, T>, i: nat) returns (b: nat)
    requires i < |w.ring| && w.ring[i] < |w.bufs| && Recyclable(w.bufs[w.ring[i]])
    ensures b < |w.bufs| && Recyclable(w.bufs[b])
    ensures exists i :: 0 <= i < |w.ring| && w.ring[i] == b &&
              forall j :: i < j < |w.ring| && w.ring[j] < |w.bufs| ==> !Recyclable(w.bufs[w.ring[j]])
    decreases |w.ring| - i
  {
    if j: nat :| i < j < |w.ring| && w.ring[j] < |w.bufs| && Recyclable(w.bufs[w.ring[j]]) {
      b := LastRecyclable(w, j);
    } else {
      b := w.ring[i];
    }
  }

  /** A busy buffer is never stuck: its holder can go on, or the disk can, and what is usable can be let go. */
  lemma HolderFires<K(!new), T>(w: World<K, T>, b: nat)
    requires Inv(w) && b < |w.bufs| && w.bufs[b].busy
    ensures w.bufs[b].phase.Queued? ==> b in w.queue && Fires(w, Interrupt)
    ensures w.bufs[b].phase.Fresh? ==> exists t: nat :: Fires(w, SubmitRead(t, b))
    ensures w.bufs[b].phase.Usable? ==>
              exists t: nat :: Fires(w, MarkDirty(t, b)) && Fires(Next(w, MarkDirty(t, b)), Release(t, b))
  {
    hide OneBuffer, RestOnDisk, RingOk;
    if w.bufs[b].phase.Queued? {
      assert b in w.queue && w.queue[0] in w.queue;
      assert BufOk(w.bufs[w.queue[0]], w.disk, w.mem);
    } else {
      var t: nat :| Holds(w.holds, t, b);
      assert Mine(w, t, b, w.bufs[b].phase);
      assert w.bufs[b].phase.Fresh? ==> Fires(w, SubmitRead(t, b));
      assert w.bufs[b].phase.Usable? ==> Fires(w, MarkDirty(t, b));
    }
  }

  /** Whoever has a buffer and has not changed it sees what was last released for that sector. */
  lemma SeesLastRelease<K(!new), T>(w: World<K, T>, run: seq<Label<K, T>>, t: nat, b: nat)
    requires Start(w) && Inv(w) && IsRun(w, run)
    ensures var e := End(w, run);
            Mine(e, t, b, Usable) && !e.bufs[b].touched ==>
              e.bufs[b].key.Some? && e.bufs[b].key.value in e.mem && e.bufs[b].data == e.mem[e.bufs[b].key.value]
  {
    hide IsRun, OneBuffer, RestOnDisk, QueueOk, RingOk;
    var e := End(w, run);
    assert Inv(e);
    if Mine(e, t, b, Usable) {
      assert BufOk(e.bufs[b], e.disk, e.mem);
    }
  }

  /**
    Nothing released is lost: if the disk does not have what was last released for a sector, a buffer
    still does, and while nobody holds it that buffer is dirty, so it is not recycled.
   */
  lemma NothingLost<K(!new), T>(w: World<K, T>, run: seq<Label<K, T>>, k: K)
    requires Start(w) && Inv(w) && IsRun(w, run)
    ensures var e := End(w, run);
            k in e.disk && e.disk[k] != e.mem[k] ==>
              exists b :: 0 <= b < |e.bufs| && e.bufs[b].key == Some(k) && e.bufs[b].valid &&
                (!e.bufs[b].busy ==> e.bufs[b].dirty && e.bufs[b].data == e.mem[k])
  {
    hide IsRun, OneBuffer, QueueOk, RingOk, HoldersOk;
    var e := End(w, run);
    assert Inv(e);
    if k in e.disk && e.disk[k] != e.mem[k] {
      assert Cached(e.bufs, k);
      var b :| 0 <= b < |e.bufs| && e.bufs[b].key == Some(k);
      assert BufOk(e.bufs[b], e.disk, e.mem);
    }
  }

  /** An idle clean buffer that is in use at all equals the disk. */
  lemma IdleCleanIsDisk<K(!new), T>(w: World<K, T>, run: seq<Label<K, T>>, b: nat)
    requires Start(w) && Inv(w) && IsRun(w, run)
    ensures var e := End(w, run);
            b < |e.bufs| && !e.bufs[b].busy && !e.bufs[b].dirty && e.bufs[b].key.Some? ==>
              e.bufs[b].valid && e.bufs[b].key.value in e.disk && e.bufs[b].data == e.disk[e.bufs[b].key.value]
  {
    hide IsRun, OneBuffer, QueueOk, RingOk, HoldersOk, RestOnDisk;
    var e := End(w, run);
    assert Inv(e);
    if b < |e.bufs| {
      assert BufOk(e.bufs[b], e.disk, e.mem);
    }
  }

  /** bufcache_get recycles the idle clean buffer that was released longest ago. */
  lemma RecyclesOldest<K(!new), T>(w: World<K, T>, l: Label<K, T>, a: nat)
    requires Inv(w) && Fires(w, l) && l.Recycle? && a < |w.bufs| && Recyclable(w.bufs[a])
    ensures w.when[l.b] <= w.when[a]
  {
    var i :| 0 <= i < |w.ring| && w.ring[i] == l.b && Recyclable(w.bufs[l.b]) &&
      forall j :: i < j < |w.ring| && w.ring[j] < |w.bufs| ==> !Recyclable(w.bufs[w.ring[j]]);
    assert a in w.ring;
    var j :| 0 <= j < |w.ring| && w.ring[j] == a;
    assert j <= i;
  }
}
