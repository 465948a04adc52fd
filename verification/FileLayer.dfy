/** file_write of kern/fs/file.c: a write cut into transactions that fit the log. */
module FileLayer {
  import opened Bytes
  import opened Collections
  import opened BufCache
  import opened LogSpec
  import opened RedoLog
  import opened Layout
  import opened Ownership
  import opened FileSpec
  import opened InodeSpec
  import opened FreeSpace
  import opened InodeLayer

  /** The most bytes one transaction writes. */
  const CHUNK: nat := (LOGSIZE - 1 - 1 - 2) / 2 * 512

  /** `sectors` is a consistent file system that is `v` with `src` written to file `i` at `off`. */
  ghost predicate Holds(sb: Super, v: View, t: Inodes, i: nat, off: nat, src: seq<byte>, sectors: View) {
    exists u, owner :: FsState(sb, sectors, u, owner, {}, {}) && FileWritten(v, t, sectors, u, i, off, src)
  }

  /** A kernel that starts from `d` reads the super block and recovers to `v`. */
  ghost predicate Boots(g: Area, sb: Super, d: Image, v: View) {
    Recovers(g, d, v) && SuperOn(sb, d)
  }

  /** `j` of `n` bytes are whole chunks, or all of them. */
  predicate WholeChunks(j: nat, n: nat) { j <= n && (j % CHUNK == 0 || j == n) }

  /** After a crash that leaves `d`, recovery finds the file with `j` bytes of `src` written, and no other change. */
  ghost predicate HasPrefix(g: Area, sb: Super, d: Image, v: View, t: Inodes, i: nat, off: nat, src: seq<byte>,
                            j: nat) {
    && j <= |src| && LogOk(g, d) && SuperOn(sb, d)
    && if j == 0 then AfterCrash(g, d) == v else Holds(sb, v, t, i, off, src[..j], AfterCrash(g, d))
  }

  /** After a crash that leaves `d`, recovery finds the file with some whole chunks of `src` written. */
  ghost predicate CrashSafe(g: Area, sb: Super, d: Image, v: View, t: Inodes, i: nat, off: nat, src: seq<byte>) {
    exists j: nat :: WholeChunks(j, |src|) && HasPrefix(g, sb, d, v, t, i, off, src, j)
  }

  /** The images since `trace0` have `js[0]`, `js[1]`, ... bytes written, never fewer than the image before. */
  ghost predicate Steps(g: Area, sb: Super, v: View, t: Inodes, trace0: seq<Image>, trace: seq<Image>,
                        inum: nat, off: nat, data: seq<byte>, js: seq<nat>, i: nat) {
    && trace0 <= trace && |js| == |trace| - |trace0|
    && (forall k :: 0 <= k < |js| ==>
          && js[k] <= i && WholeChunks(js[k], |data|)
          && HasPrefix(g, sb, trace[|trace0| + k], v, t, inum, off, data, js[k]))
    && (forall k, l :: 0 <= k < l < |js| ==> js[k] <= js[l])
  }

  /** What a crash leaves grows by whole chunks, from image to image, up to `i` bytes. */
  ghost predicate Grows(g: Area, sb: Super, v: View, t: Inodes, trace0: seq<Image>, trace: seq<Image>,
                        inum: nat, off: nat, data: seq<byte>, i: nat) {
    exists js :: Steps(g, sb, v, t, trace0, trace, inum, off, data, js, i)
  }

  lemma SpliceTwice(c: seq<byte>, off: nat, a: seq<byte>, b: seq<byte>)
    requires off <= |c|
    ensures off + |a| <= |Splice(c, off, a)| && Splice(Splice(c, off, a), off + |a|, b) == Splice(c, off, a + b)
  {
    var x, y := Splice(Splice(c, off, a), off + |a|, b), Splice(c, off, a + b);
    assert |x| == |y|;
    forall k | 0 <= k < |x| ensures x[k] == y[k] {
    }
  }

  lemma WrittenTwice(v: View, t: Inodes, w: View, u: Inodes, x: View, y: Inodes, i: nat, off: nat, a: seq<byte>,
                     b: seq<byte>)
    requires FileWritten(v, t, w, u, i, off, a) && FileWritten(w, u, x, y, i, off + |a|, b)
    ensures FileWritten(v, t, x, y, i, off, a + b)
  {
    SpliceTwice(Contents(v, t, i), off, a, b);
    hide Contents, Splice, Whole;
  }

  lemma WrittenWhole(v: View, t: Inodes, w: View, u: Inodes, i: nat, off: nat, src: seq<byte>)
    requires FileWritten(v, t, w, u, i, off, src)
    ensures Whole(w, u) && i in t && i in u && u[i].size == |Splice(Contents(v, t, i), off, src)| && off <= t[i].size
  {
    ContentsSize(w, u, i);
    ContentsSize(v, t, i);
  }

  /** An empty log has room for the bitmap and `k` more sectors exactly when it and its header are large enough. */
  lemma LogFits(sb: Super, k: nat)
    ensures Budget(sb, {}, {}, k) <==> |BitmapSectors(sb)| + k < LOGSIZE && |BitmapSectors(sb)| + k < sb.nlog - 1
  {
    assert Pinned(sb, {}, {}) == BitmapSectors(sb);
  }

  /** A chunk never needs more than four data blocks, the table block, the inode and the bitmap. */
  lemma ChunkFits(sb: Super, off: nat, n: nat)
    requires n <= CHUNK && Budget(sb, {}, {}, 6)
    ensures Blocks(off, n) <= 4 && Budget(sb, {}, {}, Blocks(off, n) + 2)
  {
  }

  lemma FewChanged(sb: Super, logged: set<nat>, off: nat, n: nat, changed: set<nat>)
    requires n <= CHUNK && Spent(sb, {}, logged, Blocks(off, n) + 2) && changed <= logged
    ensures |changed| <= |BitmapSectors(sb)| + 6
  {
    assert Pinned(sb, {}, {}) == BitmapSectors(sb);
    assert Blocks(off, n) <= 4;
    SubsetSize(changed, Pinned(sb, {}, logged));
  }

  /** The bitmap is one block exactly when it has no more bits than a block. */
  lemma OneBitmapBlock(sb: Super)
    requires sb.size > 0
    ensures |BitmapSectors(sb)| == 1 <==> sb.size <= BPB
  {
    var first := sb.BBlock(0);
    if sb.size <= BPB {
      assert BitmapSectors(sb) == {first};
    } else {
      assert sb.BBlock(BPB) == first + 1;
      SubsetSize({first, first + 1}, BitmapSectors(sb));
    }
  }

  /** No transaction is running. */
  ghost predicate Idle(fs: Fs)
    reads fs, fs.log, fs.log.cache
  {
    && fs.Valid() && Whole(fs.log.view, fs.t)
    && !fs.log.trans && fs.log.logged == {} && fs.log.held == {} && fs.floating == {} && fs.lag == {}
    && fs.log.base == fs.log.view
  }

  /** No transaction is running and inode `ip` is in memory. */
  ghost predicate Quiet(fs: Fs, ip: Inode)
    reads fs, ip, fs.log, fs.log.cache
  {
    Idle(fs) && fs.Locked(ip)
  }

  /** The images of one transaction: before its commit record, and from there on. */
  lemma BootImages(g: Area, sb: Super, trace: seq<Image>, from: nat, mid: nat, v: View, w: View)
    requires 1 < g.start && SuperBlock(sb, v) && SuperBlock(sb, w) && from <= mid <= |trace|
    requires forall k :: from <= k < mid ==> Recovers(g, trace[k], v) && HomeOf(g, trace[k]) == v
    requires forall k :: mid <= k < |trace| ==> Recovers(g, trace[k], w) && OldOrNew(g, trace[k], v, w)
    ensures forall k :: from <= k < mid ==> Boots(g, sb, trace[k], v)
    ensures forall k :: mid <= k < |trace| ==> Boots(g, sb, trace[k], w)
  {
    hide SuperBlock, Describes, AfterCrash;
    forall k | from <= k < |trace| ensures SuperOn(sb, trace[k]) {
      if k < mid {
        HomeOldOrNew(g, trace[k]);
        SuperStays(g, sb, trace[k], v, v);
      } else {
        SuperStays(g, sb, trace[k], v, w);
      }
    }
  }

  lemma SuperThere(sb: Super, v: View, t: Inodes, owner: map<nat, Slot>)
    requires FsState(sb, v, t, owner, {}, {})
    ensures SuperBlock(sb, v) && 1 < sb.Start()
  {
  }

  lemma HomeOldOrNew(g: Area, d: Image)
    requires Formatted(g, d)
    ensures OldOrNew(g, d, HomeOf(g, d), HomeOf(g, d))
  {
  }

  /** From image `from` on, the images start a kernel with sectors `v`, and from image `mid` on with sectors `w`. */
  ghost predicate Switches(g: Area, sb: Super, trace: seq<Image>, from: nat, mid: nat, v: View, w: View) {
    && from <= mid <= |trace|
    && (forall k :: from <= k < mid ==> Boots(g, sb, trace[k], v))
    && (forall k :: mid <= k < |trace| ==> Boots(g, sb, trace[k], w))
  }

  /**
    The images since `trace` start a kernel with the old sectors `v`, and from the commit record on with
    the new ones, if the transaction has ended.
   */
  ghost predicate AllOrNothing(fs: Fs, trace: seq<Image>, v: View, ended: bool)
    reads fs, fs.log, fs.log.cache
  {
    && trace <= fs.log.cache.trace
    && exists mid: nat ::
         && Switches(fs.log.area, fs.sb, fs.log.cache.trace, |trace|, mid, v, fs.log.view)
         && (ended || mid == |fs.log.cache.trace|)
  }

  /** A transaction that began at `trace` with sectors `v`. */
  ghost predicate Began(fs: Fs, trace: seq<Image>, v: View)
    reads fs, fs.log
  {
    fs.log.mark == trace && fs.log.base == v && SuperBlock(fs.sb, v) && 1 < fs.log.area.start
  }

  /** commit_trans of a transaction that has done its work. */
  method EndTrans(fs: Fs, ghost trace: seq<Image>, ghost v: View)
    requires fs.Valid() && fs.log.trans && fs.log.held == {} && fs.floating == {} && fs.lag == {}
    requires Whole(fs.log.view, fs.t)
    requires Budget(fs.sb, {}, fs.log.logged, 0) && Began(fs, trace, v)
    modifies fs.log, fs.log.cache
    ensures Idle(fs) && fs.log.view == old(fs.log.view) && AllOrNothing(fs, trace, v, true)
  {
    hide Log.Valid, FsState, Budget, Whole, Boots, Recovers, OldOrNew, HomeOf, SuperBlock;
    ghost var mid := |fs.log.cache.trace|;
    fs.log.TraceSafe();
    SuperThere(fs.sb, fs.log.view, fs.t, fs.owner);
    BudgetRoom(fs.sb, {}, fs.log.logged, 0);
    fs.log.CommitTrans();
    BootImages(fs.log.area, fs.sb, fs.log.cache.trace, |trace|, mid, v, fs.log.view);
    assert Switches(fs.log.area, fs.sb, fs.log.cache.trace, |trace|, mid, v, fs.log.view);
  }

  /** A transaction that stops before commit_trans. */
  lemma StopTrans(fs: Fs, trace: seq<Image>, v: View)
    requires fs.log.Valid() && Began(fs, trace, v)
    ensures AllOrNothing(fs, trace, v, false)
  {
    hide Log.Valid, Boots, Recovers, HomeOf, SuperBlock;
    fs.log.TraceSafe();
    BootImages(fs.log.area, fs.sb, fs.log.cache.trace, |trace|, |fs.log.cache.trace|, v, v);
    assert Switches(fs.log.area, fs.sb, fs.log.cache.trace, |trace|, |fs.log.cache.trace|, v, fs.log.view);
  }

  /** One transaction of file_write.  None stands for the "out of blocks" panic. */
  method WriteChunk(fs: Fs, ip: Inode, piece: seq<byte>, off: word) returns (r: Option<int>)
    requires Quiet(fs, ip) && |piece| <= CHUNK && Budget(fs.sb, {}, {}, 6)
    modifies fs, ip, fs.log, fs.log.cache
    ensures AllOrNothing(fs, old(fs.log.cache.trace), old(fs.log.view), r.Some?)
    ensures r.Some? ==> Quiet(fs, ip) && |Changed(old(fs.log.view), fs.log.view)| <= |BitmapSectors(fs.sb)| + 6
    ensures r == Some(-1) <==> Refused(old(ip.size), off, |piece|)
    ensures r == Some(-1) ==> fs.log.view == old(fs.log.view) && fs.t == old(fs.t) && fs.owner == old(fs.owner)
    ensures r.Some? && r.value != -1 ==>
              && r.value == |piece| && FileWritten(old(fs.log.view), old(fs.t), fs.log.view, fs.t, ip.inum, off, piece)
              && KeepsBalance(fs.sb, old(fs.owner), fs.owner, ip.inum, off / BSIZE, off / BSIZE + Blocks(off, |piece|))
    ensures r.None? ==>
              && UsedBelow(fs.sb, fs.log.view, fs.sb.size)
              && Short(fs.sb, old(fs.owner), ip.inum, off / BSIZE, off / BSIZE + Blocks(off, |piece|))
    ensures r == Some(|piece|) <==>
              !Refused(old(ip.size), off, |piece|) && Fits(fs.sb, old(fs.owner), ip.inum, off, |piece|)
  {
    hide Log.Valid, FsState, Budget, FileWritten, Whole, Refused, AllOrNothing, UsedBelow, KeepsBalance, Short, Fits;
    hide Blocks, Spent;
    hide SuperBlock, Changed, OwnerGrows, Span, IBlock;
    ghost var trace, v := fs.log.cache.trace, fs.log.view;
    SuperThere(fs.sb, v, fs.t, fs.owner);
    ChunkFits(fs.sb, off, |piece|);
    fs.log.BeginTrans();
    r := fs.InodeWrite(ip, piece, off);
    if r.None? {
      StopTrans(fs, trace, v);
      return;
    }
    if r.value != -1 {
      WrittenWhole(v, old(fs.t), fs.log.view, fs.t, ip.inum, off, piece);
    }
    CommitChunk(fs, ip, trace, v, off, |piece|);
  }

  /** commit_trans at the end of a chunk of `n` bytes at `off`. */
  method CommitChunk(fs: Fs, ip: Inode, ghost trace: seq<Image>, ghost v: View, ghost off: nat, ghost n: nat)
    requires fs.Valid() && fs.Locked(ip) && fs.log.trans && fs.log.held == {} && fs.floating == {} && fs.lag == {}
    requires Whole(fs.log.view, fs.t) && Budget(fs.sb, {}, fs.log.logged, 0) && Began(fs, trace, v)
    requires n <= CHUNK && Spent(fs.sb, {}, fs.log.logged, Blocks(off, n) + 2)
    modifies fs.log, fs.log.cache
    ensures Quiet(fs, ip) && fs.log.view == old(fs.log.view) && |Changed(v, fs.log.view)| <= |BitmapSectors(fs.sb)| + 6
    ensures AllOrNothing(fs, trace, v, true)
  {
    hide Log.Valid, FsState, Budget, Whole, Blocks, Spent, SuperBlock, Changed, AllOrNothing;
    fs.log.ChangedLogged();
    FewChanged(fs.sb, fs.log.logged, off, n, Changed(fs.log.base, fs.log.view));
    EndTrans(fs, trace, v);
  }

  class File {
    var readable: bool
    var writable: bool
    const ip: Inode
    var off: word

    constructor (ip: Inode, readable: bool, writable: bool)
      ensures this.ip == ip && this.readable == readable && this.writable == writable && off == 0
    {
      this.ip, this.readable, this.writable, this.off := ip, readable, writable, 0;
    }
  }

  /** When file_write can store all of `n` bytes. */
  predicate Accepted(writable: bool, size: nat, off: nat, n: nat) {
    writable && (n > 0 ==> off <= size && off + n <= MAXFILE * BSIZE)
  }

  /**
    How many bytes file_write stores when there are enough free blocks: all, or the chunks that end
    below the largest file.
   */
  function Reach(writable: bool, size: nat, off: nat, n: nat): (m: nat)
    ensures m <= n && (Accepted(writable, size, off, n) ==> m == n)
    ensures 0 < m ==> writable && off <= size && off + m <= MAXFILE * BSIZE
  {
    if Accepted(writable, size, off, n) then n
    else if !writable || off > size || off > MAXFILE * BSIZE then 0
    else Multiple(MAXFILE * BSIZE - off)
  }

  /** The largest multiple of the chunk size up to `x`. */
  function Multiple(x: nat): (m: nat)
    ensures m <= x
  {
    x - x % CHUNK
  }

  lemma NextMultiple(x: nat, i: nat)
    requires i % 1536 == 0 && i <= x - x % 1536
    ensures i < x - x % 1536 <==> i + 1536 <= x
    ensures i < x - x % 1536 ==> i + 1536 <= x - x % 1536
    ensures (i + 1536) % 1536 == 0
  {
    var k, q := i / 1536, x / 1536;
    assert i == 1536 * k && x == 1536 * q + x % 1536;
  }

  /** The loop of file_write never stops inside that many bytes, and a refusal comes right after them. */
  lemma ReachStep(size: nat, off: nat, n: nat, i: nat)
    requires i < n && i <= Reach(true, size, off, n) && i % CHUNK == 0
    ensures var m, goal := ChunkSize(n, i), Reach(true, size, off, n);
            && (off > size || off + i + m > MAXFILE * BSIZE <==> i == goal)
            && WholeChunks(i + m, n) && (i < goal ==> i + m <= goal)
  {
    assert CHUNK == 1536;
    assert (i + CHUNK) % CHUNK == 0;
    if off <= size && off <= MAXFILE * BSIZE && off + n > MAXFILE * BSIZE {
      NextMultiple(MAXFILE * BSIZE - off, i);
    }
  }

  /** How far file_write comes, in numbers. */
  lemma ReachExact(writable: bool, size: nat, off: nat, n: nat)
    ensures Accepted(writable, size, off, n) <==> writable && (n == 0 || (off <= size && off + n <= 71680))
    ensures Reach(writable, size, off, n) ==
              if Accepted(writable, size, off, n) then n
              else if !writable || off > size || off > 71680 then 0 else (71680 - off) / 1536 * 1536
  {
  }

  /** file_write has stored `i` bytes in committed transactions. */
  ghost predicate Stage(g: Area, sb: Super, v0: View, t0: Inodes, v: View, t: Inodes, trace0: seq<Image>,
                        trace: seq<Image>, inum: nat, off: nat, data: seq<byte>, i: nat) {
    && WholeChunks(i, |data|)
    && (if i == 0 then v == v0 && t == t0 else FileWritten(v0, t0, v, t, inum, off, data[..i]))
    && Grows(g, sb, v0, t0, trace0, trace, inum, off, data, i)
  }

  lemma PrefixImage(g: Area, sb: Super, d: Image, v0: View, t0: Inodes, v: View, t: Inodes, owner: map<nat, Slot>,
                    inum: nat, off: nat, data: seq<byte>, i: nat)
    requires Boots(g, sb, d, v) && i <= |data| && FsState(sb, v, t, owner, {}, {})
    requires if i == 0 then v == v0 else FileWritten(v0, t0, v, t, inum, off, data[..i])
    ensures HasPrefix(g, sb, d, v0, t0, inum, off, data, i)
  {
    if i > 0 {
      assert Holds(sb, v0, t0, inum, off, data[..i], AfterCrash(g, d));
    }
  }

  /** More images, with `j` bytes written. */
  lemma GrowsMore(g: Area, sb: Super, v0: View, t0: Inodes, trace0: seq<Image>, trace: seq<Image>, trace': seq<Image>,
                  inum: nat, off: nat, data: seq<byte>, i: nat, j: nat)
    requires Grows(g, sb, v0, t0, trace0, trace, inum, off, data, i) && i <= j && WholeChunks(j, |data|)
    requires trace <= trace'
    requires forall k :: |trace| <= k < |trace'| ==> HasPrefix(g, sb, trace'[k], v0, t0, inum, off, data, j)
    ensures Grows(g, sb, v0, t0, trace0, trace', inum, off, data, j)
  {
    hide HasPrefix;
    var js :| Steps(g, sb, v0, t0, trace0, trace, inum, off, data, js, i);
    var js' := js + seq(|trace'| - |trace|, _ => j);
    forall k | 0 <= k < |js'|
      ensures js'[k] <= j && WholeChunks(js'[k], |data|)
      ensures HasPrefix(g, sb, trace'[|trace0| + k], v0, t0, inum, off, data, js'[k])
    {
      assert k < |js| ==> js'[k] == js[k] && trace'[|trace0| + k] == trace[|trace0| + k];
    }
    assert Steps(g, sb, v0, t0, trace0, trace', inum, off, data, js', j);
  }

  /** More images that boot to the file as it is now. */
  lemma GrowsBoots(g: Area, sb: Super, v0: View, t0: Inodes, v: View, t: Inodes, owner: map<nat, Slot>,
                   trace0: seq<Image>, trace: seq<Image>, trace': seq<Image>, inum: nat, off: nat, data: seq<byte>,
                   i: nat, j: nat)
    requires Grows(g, sb, v0, t0, trace0, trace, inum, off, data, i) && i <= j && WholeChunks(j, |data|)
    requires FsState(sb, v, t, owner, {}, {})
    requires if j == 0 then v == v0 else FileWritten(v0, t0, v, t, inum, off, data[..j])
    requires trace <= trace' && forall k :: |trace| <= k < |trace'| ==> Boots(g, sb, trace'[k], v)
    ensures Grows(g, sb, v0, t0, trace0, trace', inum, off, data, j)
  {
    hide FsState, FileWritten, HasPrefix, Boots, Grows;
    forall k | |trace| <= k < |trace'| ensures HasPrefix(g, sb, trace'[k], v0, t0, inum, off, data, j) {
      PrefixImage(g, sb, trace'[k], v0, t0, v, t, owner, inum, off, data, j);
    }
    GrowsMore(g, sb, v0, t0, trace0, trace, trace', inum, off, data, i, j);
  }

  /** A chunk that stops or is refused leaves only disks that recover to the state before it. */
  lemma StageStopped(g: Area, sb: Super, v0: View, t0: Inodes, v: View, t: Inodes, owner: map<nat, Slot>,
                     trace0: seq<Image>, trace: seq<Image>, trace': seq<Image>, inum: nat, off: nat, data: seq<byte>,
                     i: nat)
    requires Stage(g, sb, v0, t0, v, t, trace0, trace, inum, off, data, i) && FsState(sb, v, t, owner, {}, {})
    requires trace <= trace' && forall k :: |trace| <= k < |trace'| ==> Boots(g, sb, trace'[k], v)
    ensures Stage(g, sb, v0, t0, v, t, trace0, trace', inum, off, data, i)
  {
    hide FsState, FileWritten, Boots, Grows;
    GrowsBoots(g, sb, v0, t0, v, t, owner, trace0, trace, trace', inum, off, data, i, i);
  }

  /** A committed chunk of `m` bytes. */
  lemma StageNext(g: Area, sb: Super, v0: View, t0: Inodes, v: View, t: Inodes, owner: map<nat, Slot>,
                  w: View, u: Inodes, owner': map<nat, Slot>,
                  trace0: seq<Image>, trace: seq<Image>, trace': seq<Image>, inum: nat, off: nat, data: seq<byte>,
                  i: nat, m: nat, mid: nat)
    requires Stage(g, sb, v0, t0, v, t, trace0, trace, inum, off, data, i)
    requires FsState(sb, v, t, owner, {}, {}) && FsState(sb, w, u, owner', {}, {}) && 0 < m
    requires i + m <= |data| && WholeChunks(i + m, |data|)
    requires FileWritten(v, t, w, u, inum, off + i, data[i..i + m])
    requires trace <= trace' && Switches(g, sb, trace', |trace|, mid, v, w)
    ensures Stage(g, sb, v0, t0, w, u, trace0, trace', inum, off, data, i + m)
  {
    hide FsState, FileWritten, Boots, Grows;
    if i == 0 {
      assert data[..0 + m] == data[0..0 + m];
    } else {
      assert |data[..i]| == i && data[..i] + data[i..i + m] == data[..i + m];
      WrittenTwice(v0, t0, v, t, w, u, inum, off, data[..i], data[i..i + m]);
    }
    GrowsBoots(g, sb, v0, t0, v, t, owner, trace0, trace, trace'[..mid], inum, off, data, i, i);
    GrowsBoots(g, sb, v0, t0, w, u, owner', trace0, trace'[..mid], trace', inum, off, data, i, i + m);
  }

  lemma RefusedIff(g: Area, sb: Super, v0: View, t0: Inodes, v: View, t: Inodes, trace0: seq<Image>, trace: seq<Image>,
                   inum: nat, off: nat, data: seq<byte>, i: nat, m: nat)
    requires Stage(g, sb, v0, t0, v, t, trace0, trace, inum, off, data, i) && Whole(v, t) && Whole(v0, t0)
    requires inum in t && inum in t0 && 0 < m <= CHUNK && off + i < TWO32
    ensures Refused(t[inum].size, off + i, m) <==> off > t0[inum].size || off + i + m > MAXFILE * BSIZE
  {
    hide Contents, Splice;
    assert NoHoles(v, t, inum) && NoHoles(v0, t0, inum);
    if i > 0 {
      WrittenWhole(v0, t0, v, t, inum, off, data[..i]);
      SpliceLength(Contents(v0, t0, inum), off, data[..i]);
    }
  }

  lemma QuietState(fs: Fs, ip: Inode)
    requires Quiet(fs, ip)
    ensures FsState(fs.sb, fs.log.view, fs.t, fs.owner, {}, {}) && Whole(fs.log.view, fs.t)
    ensures ip.inum in fs.t && fs.t[ip.inum] == ip.D()
  {
  }

  /** The bytes on the disk after `m` bytes have been stored. */
  lemma StageBytes(fs: Fs, ip: Inode, v: View, t: Inodes, owner: map<nat, Slot>, trace: seq<Image>, off: nat,
                   data: seq<byte>, m: nat)
    requires Quiet(fs, ip) && FsState(fs.sb, v, t, owner, {}, {}) && Whole(v, t) && ip.inum in t
    requires Stage(fs.log.area, fs.sb, v, t, fs.log.view, fs.t, trace, fs.log.cache.trace, ip.inum, off, data, m)
    ensures ip.size == if m == 0 || off + m <= t[ip.inum].size then t[ip.inum].size else off + m
    ensures m <= |data|
    ensures forall p: nat :: p < ip.size ==>
              DiskByte(fs.log.view, ip.addrs, p) ==
                if off <= p < off + m then data[p - off] else DiskByte(v, t[ip.inum].addrs, p)
  {
    hide Grows, FileWritten, DiskByte, Log.Valid, FsState, Whole;
    if m > 0 {
      WrittenBytes(fs.sb, v, t, owner, fs.log.view, fs.t, fs.owner, ip.inum, off, data[..m]);
    }
  }

  lemma SpliceLength(c: seq<byte>, off: nat, src: seq<byte>)
    requires off <= |c|
    ensures |Splice(c, off, src)| >= off + |src|
  {
  }

  /**
    file_write.  None stands for the "out of blocks" panic.  Whatever happens, every
    disk a crash can leave on the way recovers to a consistent file system in which
    the file has some whole chunks of the data, never fewer than an earlier disk, and
    everything else is as before.
   */
  method FileWrite(fs: Fs, f: File, data: seq<byte>) returns (r: Option<int>)
    requires Quiet(fs, f.ip) && |data| < TWO32 / 2 && Budget(fs.sb, {}, {}, 6)
    modifies f`off, fs, f.ip, fs.log, fs.log.cache
    ensures r.Some? ==> Quiet(fs, f.ip)
    ensures r.Some? ==> r.value == if Accepted(f.writable, old(f.ip.size), old(f.off), |data|) then |data| else -1
    ensures r.Some? ==> f.off == old(f.off) + Reach(f.writable, old(f.ip.size), old(f.off), |data|)
    ensures r.None? <==> !Fits(fs.sb, old(fs.owner), f.ip.inum, old(f.off),
                               Reach(f.writable, old(f.ip.size), old(f.off), |data|))
    ensures r.None? ==> UsedBelow(fs.sb, fs.log.view, fs.sb.size)
    ensures r.Some? ==> Stage(fs.log.area, fs.sb, old(fs.log.view), old(fs.t), fs.log.view, fs.t,
                              old(fs.log.cache.trace),
                              fs.log.cache.trace, f.ip.inum, old(f.off), data, f.off - old(f.off))
    ensures r.Some? ==>
              r.value == if f.writable && (data == [] || (old(f.off) <= old(f.ip.size) && old(f.off) + |data| <= 71680))
                         then |data| else -1
    ensures r.Some? && r.value == -1 ==>
              f.off == old(f.off) + if !f.writable || old(f.off) > old(f.ip.size) || old(f.off) > 71680 then 0
                                    else (71680 - old(f.off)) / 1536 * 1536
    ensures r.Some? ==>
              var off, m := old(f.off), f.off - old(f.off);
              && 0 <= m <= |data| && (r.value != -1 ==> m == |data|)
              && f.ip.size == (if m == 0 || off + m <= old(f.ip.size) then old(f.ip.size) else off + m)
              && forall p: nat :: p < f.ip.size ==>
                   DiskByte(fs.log.view, f.ip.addrs, p) ==
                     if off <= p < off + m then data[p - off] else old(DiskByte(fs.log.view, f.ip.addrs, p))
    ensures Grows(fs.log.area, fs.sb, old(fs.log.view), old(fs.t), old(fs.log.cache.trace), fs.log.cache.trace,
                  f.ip.inum, old(f.off), data, |data|)
    ensures old(fs.log.cache.trace) <= fs.log.cache.trace
    ensures forall k :: |old(fs.log.cache.trace)| <= k < |fs.log.cache.trace| ==>
              CrashSafe(fs.log.area, fs.sb, fs.log.cache.trace[k], old(fs.log.view), old(fs.t), f.ip.inum, old(f.off),
                        data)
  {
    hide Quiet, Stage, FileWritten, CrashSafe, Grows, Boots, Refused, Fits, UsedBelow, Budget, FsState, Whole, DiskByte;
    hide Accepted, Reach;
    ghost var v0, t0, trace0, off := fs.log.view, fs.t, fs.log.cache.trace, f.off;
    QuietState(fs, f.ip);
    StageStart(fs.log.area, fs.sb, v0, t0, trace0, f.ip.inum, off, data);
    StageGrows(fs.log.area, fs.sb, v0, t0, v0, t0, trace0, trace0, f.ip.inum, off, data, 0);
    if !f.writable {
      NothingFits(fs.sb, fs.owner, f.ip.inum, off);
      r := Some(-1);
    } else {
      r := WriteChunks(fs, f, data);
    }
    if r.Some? {
      ReachExact(f.writable, old(f.ip.size), off, |data|);
      StageBytes(fs, f.ip, v0, t0, old(fs.owner), trace0, off, data, f.off - off);
    }
    GrowsSafe(fs.log.area, fs.sb, v0, t0, trace0, fs.log.cache.trace, f.ip.inum, off, data);
  }

  lemma StageStart(g: Area, sb: Super, v: View, t: Inodes, trace: seq<Image>, inum: nat, off: nat, data: seq<byte>)
    ensures Stage(g, sb, v, t, v, t, trace, trace, inum, off, data, 0)
  {
    assert Steps(g, sb, v, t, trace, trace, inum, off, data, [], 0);
  }

  lemma StageGrows(g: Area, sb: Super, v0: View, t0: Inodes, v: View, t: Inodes, trace0: seq<Image>, trace: seq<Image>,
                   inum: nat, off: nat, data: seq<byte>, i: nat)
    requires Stage(g, sb, v0, t0, v, t, trace0, trace, inum, off, data, i)
    ensures i <= |data| && Grows(g, sb, v0, t0, trace0, trace, inum, off, data, |data|)
  {
    hide HasPrefix, FileWritten;
    var js :| Steps(g, sb, v0, t0, trace0, trace, inum, off, data, js, i);
    assert Steps(g, sb, v0, t0, trace0, trace, inum, off, data, js, |data|);
  }

  lemma GrowsSafe(g: Area, sb: Super, v0: View, t0: Inodes, trace0: seq<Image>, trace: seq<Image>,
                  inum: nat, off: nat, data: seq<byte>)
    requires Grows(g, sb, v0, t0, trace0, trace, inum, off, data, |data|)
    ensures trace0 <= trace
    ensures forall k :: |trace0| <= k < |trace| ==> CrashSafe(g, sb, trace[k], v0, t0, inum, off, data)
  {
    hide HasPrefix;
    var js :| Steps(g, sb, v0, t0, trace0, trace, inum, off, data, js, |data|);
    forall k | |trace0| <= k < |trace| ensures CrashSafe(g, sb, trace[k], v0, t0, inum, off, data) {
      var l := k - |trace0|;
      assert HasPrefix(g, sb, trace[|trace0| + l], v0, t0, inum, off, data, js[l]);
    }
  }

  function ChunkSize(n: nat, i: nat): (m: nat)
    requires i <= n
    ensures m <= CHUNK && i + m <= n && (i < n ==> m > 0)
  {
    if n - i > CHUNK then CHUNK else n - i
  }

  lemma QuietParts(fs: Fs, ip: Inode)
    requires Quiet(fs, ip)
    ensures FsState(fs.sb, fs.log.view, fs.t, fs.owner, {}, {}) && Whole(fs.log.view, fs.t)
    ensures ip.inum in fs.t && fs.t[ip.inum].size == ip.size
  {
  }

  /** One iteration of the loop of file_write. */
  method WriteNext(fs: Fs, f: File, data: seq<byte>, i: nat,
                   ghost v0: View, ghost t0: Inodes, ghost trace0: seq<Image>, ghost off: nat) returns (r: Option<int>)
    requires Quiet(fs, f.ip) && Budget(fs.sb, {}, {}, 6)
    requires i < |data| && WholeChunks(i + ChunkSize(|data|, i), |data|)
    requires f.off == off + i && Whole(v0, t0) && f.ip.inum in t0
    requires Stage(fs.log.area, fs.sb, v0, t0, fs.log.view, fs.t, trace0, fs.log.cache.trace, f.ip.inum, off, data, i)
    modifies f`off, fs, f.ip, fs.log, fs.log.cache
    ensures r.Some? ==> Quiet(fs, f.ip)
    ensures Grows(fs.log.area, fs.sb, v0, t0, trace0, fs.log.cache.trace, f.ip.inum, off, data, |data|)
    ensures r.Some? ==> r.value == -1 || r.value == ChunkSize(|data|, i)
    ensures r == Some(-1) <==> off > t0[f.ip.inum].size || off + i + ChunkSize(|data|, i) > MAXFILE * BSIZE
    ensures r.Some? ==>
              var n := if r.value == -1 then i else i + r.value;
              && f.off == off + n
              && Stage(fs.log.area, fs.sb, v0, t0, fs.log.view, fs.t, trace0, fs.log.cache.trace, f.ip.inum, off, data,
                       n)
    ensures r.Some? && r.value == -1 ==> fs.owner == old(fs.owner)
    ensures r.Some? && r.value != -1 ==>
              KeepsBalance(fs.sb, old(fs.owner), fs.owner, f.ip.inum,
                           (off + i) / BSIZE, (off + i) / BSIZE + Blocks(off + i, ChunkSize(|data|, i)))
    ensures r.None? ==>
              && UsedBelow(fs.sb, fs.log.view, fs.sb.size)
              && Short(fs.sb, old(fs.owner), f.ip.inum, (off + i) / BSIZE,
                       (off + i) / BSIZE + Blocks(off + i, ChunkSize(|data|, i)))
  {
    hide Quiet, Stage, FileWritten, Grows, Boots, Refused, FsState, Whole, UsedBelow, KeepsBalance, Short, Fits;
    hide Blocks, Budget, Switches, Changed, BitmapSectors;
    QuietParts(fs, f.ip);
    var m := ChunkSize(|data|, i);
    ghost var v, t, owner, trace := fs.log.view, fs.t, fs.owner, fs.log.cache.trace;
    RefusedIff(fs.log.area, fs.sb, v0, t0, v, t, trace0, trace, f.ip.inum, off, data, i, m);
    r := WriteChunk(fs, f.ip, data[i..i + m], f.off);
    ghost var mid: nat :| && Switches(fs.log.area, fs.sb, fs.log.cache.trace, |trace|, mid, v, fs.log.view)
                          && (r.Some? || mid == |fs.log.cache.trace|);
    if r.Some? && r.value > 0 {
      QuietParts(fs, f.ip);
      StageNext(fs.log.area, fs.sb, v0, t0, v, t, owner, fs.log.view, fs.t, fs.owner,
                trace0, trace, fs.log.cache.trace, f.ip.inum, off, data, i, m, mid);
      StageGrows(fs.log.area, fs.sb, v0, t0, fs.log.view, fs.t, trace0, fs.log.cache.trace, f.ip.inum, off, data,
                 i + m);
      f.off := f.off + r.value;
    } else {
      OnlyOld(fs.log.area, fs.sb, fs.log.cache.trace, |trace|, mid, v, fs.log.view);
      StageStopped(fs.log.area, fs.sb, v0, t0, v, t, owner, trace0, trace, fs.log.cache.trace, f.ip.inum, off, data, i);
      StageGrows(fs.log.area, fs.sb, v0, t0, v, t, trace0, fs.log.cache.trace, f.ip.inum, off, data, i);
    }
  }

  lemma OnlyOld(g: Area, sb: Super, trace: seq<Image>, from: nat, mid: nat, v: View, w: View)
    requires Switches(g, sb, trace, from, mid, v, w) && (v == w || mid == |trace|)
    ensures forall k :: from <= k < |trace| ==> Boots(g, sb, trace[k], v)
  {
  }

  /** The loop of file_write. */
  method WriteChunks(fs: Fs, f: File, data: seq<byte>) returns (r: Option<int>)
    requires Quiet(fs, f.ip) && |data| < TWO32 / 2 && Budget(fs.sb, {}, {}, 6)
    modifies f`off, fs, f.ip, fs.log, fs.log.cache
    ensures r.Some? ==> Quiet(fs, f.ip)
    ensures r.Some? ==> r.value == if Accepted(true, old(f.ip.size), old(f.off), |data|) then |data| else -1
    ensures r.Some? ==> f.off == old(f.off) + Reach(true, old(f.ip.size), old(f.off), |data|)
    ensures r.None? <==> !Fits(fs.sb, old(fs.owner), f.ip.inum, old(f.off),
                               Reach(true, old(f.ip.size), old(f.off), |data|))
    ensures r.None? ==> UsedBelow(fs.sb, fs.log.view, fs.sb.size)
    ensures r.Some? ==> Stage(fs.log.area, fs.sb, old(fs.log.view), old(fs.t), fs.log.view, fs.t,
                              old(fs.log.cache.trace),
                              fs.log.cache.trace, f.ip.inum, old(f.off), data, f.off - old(f.off))
    ensures Grows(fs.log.area, fs.sb, old(fs.log.view), old(fs.t), old(fs.log.cache.trace), fs.log.cache.trace,
                  f.ip.inum, old(f.off), data, |data|)
  {
    hide Quiet, Stage, FileWritten, Grows, Boots, Refused, FsState, Whole, ChunkSize, Budget;
    hide UsedBelow, KeepsBalance, Short, Fits, Blocks, Reach;
    ghost var v0, t0, trace0, off, owner0 := fs.log.view, fs.t, fs.log.cache.trace, f.off, fs.owner;
    ghost var goal := Reach(true, f.ip.size, off, |data|);
    ghost var lo, hi := off / BSIZE, off / BSIZE + Blocks(off, goal);
    QuietParts(fs, f.ip);
    StageStart(fs.log.area, fs.sb, v0, t0, trace0, f.ip.inum, off, data);
    StageGrows(fs.log.area, fs.sb, v0, t0, v0, t0, trace0, trace0, f.ip.inum, off, data, 0);
    BalanceNow(fs.sb, owner0, f.ip.inum, lo, hi);
    var i := 0;
    while i < |data|
      invariant 0 <= i <= goal && (i % CHUNK == 0 || i == |data|) && f.off == off + i && Quiet(fs, f.ip)
      invariant Stage(fs.log.area, fs.sb, v0, t0, fs.log.view, fs.t, trace0, fs.log.cache.trace, f.ip.inum, off, data,
                      i)
      invariant KeepsBalance(fs.sb, owner0, fs.owner, f.ip.inum, lo, hi)
    {
      ghost var owner := fs.owner;
      ReachStep(t0[f.ip.inum].size, off, |data|, i);
      r := WriteNext(fs, f, data, i, v0, t0, trace0, off);
      SpentMore(fs.sb, owner0, owner, fs.owner, f.ip.inum, off, goal, i, ChunkSize(|data|, i));
      if r.None? {
        return;
      }
      if r.value == -1 {
        ReachFits(fs, f.ip, v0, t0, owner0, trace0, off, data, i);
        return;
      }
      i := i + r.value;
    }
    StageGrows(fs.log.area, fs.sb, v0, t0, fs.log.view, fs.t, trace0, fs.log.cache.trace, f.ip.inum, off, data, i);
    ReachFits(fs, f.ip, v0, t0, owner0, trace0, off, data, i);
    r := Some(i);
  }

  /** What a chunk has taken, or has not found, counts for the whole write. */
  lemma SpentMore(sb: Super, owner0: map<nat, Slot>, owner: map<nat, Slot>, owner': map<nat, Slot>,
                  inum: nat, off: nat, goal: nat, i: nat, m: nat)
    requires KeepsBalance(sb, owner0, owner, inum, off / BSIZE, off / BSIZE + Blocks(off, goal))
    requires i < goal ==> i + m <= goal
    ensures i < goal && KeepsBalance(sb, owner, owner', inum, (off + i) / BSIZE,
                                     (off + i) / BSIZE + Blocks(off + i, m)) ==>
              KeepsBalance(sb, owner0, owner', inum, off / BSIZE, off / BSIZE + Blocks(off, goal))
    ensures i < goal && Short(sb, owner, inum, (off + i) / BSIZE, (off + i) / BSIZE + Blocks(off + i, m)) ==>
              !Fits(sb, owner0, inum, off, goal)
  {
    hide KeepsBalance, Short, Fits, Blocks;
    if i < goal {
      var lo, hi := off / BSIZE, off / BSIZE + Blocks(off, goal);
      PartSpan(off, goal, i, m);
      Wider(sb, owner, owner', inum, (off + i) / BSIZE, (off + i) / BSIZE + Blocks(off + i, m), lo, hi);
      BalanceThen(sb, owner0, owner, owner', inum, lo, hi);
      if Short(sb, owner0, inum, lo, hi) {
        ShortDoesNotFit(sb, owner0, inum, off, goal);
      }
    }
  }

  /** Bytes that have been stored did fit. */
  lemma ReachFits(fs: Fs, ip: Inode, v0: View, t0: Inodes, owner0: map<nat, Slot>, trace0: seq<Image>,
                  off: nat, data: seq<byte>, i: nat)
    requires Quiet(fs, ip)
    requires Stage(fs.log.area, fs.sb, v0, t0, fs.log.view, fs.t, trace0, fs.log.cache.trace, ip.inum, off, data, i)
    requires KeepsBalance(fs.sb, owner0, fs.owner, ip.inum, off / BSIZE, off / BSIZE + Blocks(off, i))
    ensures Fits(fs.sb, owner0, ip.inum, off, i)
  {
    hide FsState, FileWritten, Grows, KeepsBalance, Fits, Blocks, Log.Valid;
    if i == 0 {
      NothingFits(fs.sb, owner0, ip.inum, off);
    } else {
      WrittenFits(fs.sb, v0, t0, owner0, fs.log.view, fs.t, fs.owner, ip.inum, off, data[..i]);
    }
  }
}
