/** How many blocks are free, and how many a file still needs for a span of its blocks. */
module FreeSpace {
  import opened Bytes
  import opened Collections
  import opened BufCache
  import opened Layout
  import opened Ownership
  import opened FileSpec
  import opened InodeSpec

  ghost function DataBlocks(sb: Super): (s: set<nat>) {
    set b | 0 <= b < sb.size && sb.Data(b)
  }

  /** The number of data blocks without an owner. */
  ghost function Spare(sb: Super, owner: map<nat, Slot>): (n: nat) {
    |DataBlocks(sb) - owner.Keys|
  }

  /** The blocks from `lo` to `hi` that file `i` does not have. */
  ghost function Missing(owner: map<nat, Slot>, i: nat, lo: nat, hi: nat): (s: set<nat>) {
    set bn: nat | lo <= bn < hi && BlockSlot(i, bn) !in owner.Values
  }

  ghost predicate TableMissing(owner: map<nat, Slot>, i: nat, lo: nat, hi: nat) {
    lo < hi && NDIRECT < hi && Table(i) !in owner.Values
  }

  /** The blocks that have to be allocated before file `i` has the blocks from `lo` to `hi`. */
  ghost function Need(owner: map<nat, Slot>, i: nat, lo: nat, hi: nat): (n: nat) {
    |Missing(owner, i, lo, hi)| + if TableMissing(owner, i, lo, hi) then 1 else 0
  }

  ghost function Balance(sb: Super, owner: map<nat, Slot>, i: nat, lo: nat, hi: nat): (n: int) {
    Spare(sb, owner) - Need(owner, i, lo, hi)
  }

  /** There are enough free blocks for `n` bytes at `off` of file `i`. */
  ghost predicate Fits(sb: Super, owner: map<nat, Slot>, i: nat, off: nat, n: nat) {
    Balance(sb, owner, i, off / BSIZE, off / BSIZE + Blocks(off, n)) >= 0
  }

  /** What was taken was needed: for every span around `lo .. hi` the balance is the same. */
  ghost predicate KeepsBalance(sb: Super, owner: map<nat, Slot>, owner': map<nat, Slot>, i: nat, lo: nat, hi: nat) {
    forall a: nat, b: nat :: a <= lo && hi <= b ==> Balance(sb, owner', i, a, b) == Balance(sb, owner, i, a, b)
  }

  /** There are too few free blocks for any span around `lo .. hi`. */
  ghost predicate Short(sb: Super, owner: map<nat, Slot>, i: nat, lo: nat, hi: nat) {
    forall a: nat, b: nat :: a <= lo && hi <= b ==> Balance(sb, owner, i, a, b) < 0
  }

  /** Free blocks are those whose bit is clear. */
  lemma SpareIsFree(sb: Super, v: View, t: Inodes, owner: map<nat, Slot>, lag: set<nat>)
    requires FsState(sb, v, t, owner, {}, lag)
    ensures DataBlocks(sb) - owner.Keys == set b | 0 <= b < sb.size && !Used(sb, v, b)
  {
  }

  lemma FullIsSpareless(sb: Super, v: View, t: Inodes, owner: map<nat, Slot>, lag: set<nat>)
    requires FsState(sb, v, t, owner, {}, lag) && UsedBelow(sb, v, sb.size)
    ensures Spare(sb, owner) == 0
  {
    SpareIsFree(sb, v, t, owner, lag);
    assert DataBlocks(sb) - owner.Keys == {};
  }

  lemma SpareGain(sb: Super, owner: map<nat, Slot>, b: nat, sl: Slot)
    requires b in DataBlocks(sb) && b !in owner
    ensures Spare(sb, owner[b := sl]) == Spare(sb, owner) - 1
    ensures owner[b := sl].Values == owner.Values + {sl}
  {
    hide DataBlocks;
    ValuesGain(owner, b, sl);
    OneLess(DataBlocks(sb), owner.Keys, b);
    assert owner[b := sl].Keys == owner.Keys + {b};
  }

  lemma OneLess(s: set<nat>, t: set<nat>, b: nat)
    requires b in s && b !in t
    ensures |s - (t + {b})| == |s - t| - 1
  {
    assert s - (t + {b}) == (s - t) - {b};
  }

  lemma ValuesGain(owner: map<nat, Slot>, b: nat, sl: Slot)
    requires b !in owner
    ensures owner[b := sl].Values == owner.Values + {sl}
  {
    var owner' := owner[b := sl];
    forall x | x in owner.Values ensures x in owner'.Values {
      var c :| c in owner && owner[c] == x;
      assert owner'[c] == x;
    }
    assert owner'[b] == sl;
  }

  lemma SlotsDiffer(i: nat, a: nat, b: nat)
    ensures BlockSlot(i, a) == BlockSlot(i, b) <==> a == b
    ensures BlockSlot(i, a) != Table(i)
  {
  }

  /** A free block becomes block `bn` of the file. */
  lemma GainBlock(sb: Super, owner: map<nat, Slot>, b: nat, i: nat, bn: nat)
    requires b in DataBlocks(sb) && b !in owner && BlockSlot(i, bn) !in owner.Values
    ensures KeepsBalance(sb, owner, owner[b := BlockSlot(i, bn)], i, bn, bn + 1)
  {
    hide Spare, DataBlocks, BlockSlot;
    var owner' := owner[b := BlockSlot(i, bn)];
    SpareGain(sb, owner, b, BlockSlot(i, bn));
    forall lo: nat, hi: nat | lo <= bn && bn + 1 <= hi
      ensures Balance(sb, owner', i, lo, hi) == Balance(sb, owner, i, lo, hi) {
      MissingLess(owner.Values, owner, owner', i, bn, lo, hi);
    }
  }

  lemma MissingLess(values: set<Slot>, owner: map<nat, Slot>, owner': map<nat, Slot>, i: nat, bn: nat, lo: nat, hi: nat)
    requires owner.Values == values && owner'.Values == values + {BlockSlot(i, bn)} && BlockSlot(i, bn) !in values
    requires lo <= bn < hi
    ensures |Missing(owner', i, lo, hi)| == |Missing(owner, i, lo, hi)| - 1
    ensures TableMissing(owner', i, lo, hi) <==> TableMissing(owner, i, lo, hi)
  {
    hide BlockSlot;
    forall x: nat ensures x in Missing(owner', i, lo, hi) <==> x in Missing(owner, i, lo, hi) && x != bn {
      SlotsDiffer(i, x, bn);
    }
    assert Missing(owner', i, lo, hi) == Missing(owner, i, lo, hi) - {bn};
    SlotsDiffer(i, bn, bn);
  }

  /** A free block becomes the table block of the file. */
  lemma GainTable(sb: Super, owner: map<nat, Slot>, b: nat, i: nat, bn: nat)
    requires b in DataBlocks(sb) && b !in owner && Table(i) !in owner.Values && NDIRECT <= bn
    ensures KeepsBalance(sb, owner, owner[b := Table(i)], i, bn, bn + 1)
  {
    hide Spare, DataBlocks, BlockSlot;
    var owner' := owner[b := Table(i)];
    SpareGain(sb, owner, b, Table(i));
    forall lo: nat, hi: nat | lo <= bn && bn + 1 <= hi
      ensures Balance(sb, owner', i, lo, hi) == Balance(sb, owner, i, lo, hi) {
      forall x: nat ensures x in Missing(owner', i, lo, hi) <==> x in Missing(owner, i, lo, hi) {
        SlotsDiffer(i, x, x);
      }
      assert Missing(owner', i, lo, hi) == Missing(owner, i, lo, hi);
    }
  }

  lemma ShortOne(sb: Super, owner: map<nat, Slot>, i: nat, bn: nat)
    requires Spare(sb, owner) == 0 && BlockSlot(i, bn) !in owner.Values
    ensures Short(sb, owner, i, bn, bn + 1)
  {
    hide Spare;
    forall lo: nat, hi: nat | lo <= bn && bn + 1 <= hi ensures Balance(sb, owner, i, lo, hi) < 0 {
      SubsetSize({bn}, Missing(owner, i, lo, hi));
    }
  }

  lemma BalanceNow(sb: Super, owner: map<nat, Slot>, i: nat, lo: nat, hi: nat)
    ensures KeepsBalance(sb, owner, owner, i, lo, hi)
  {
  }

  /** What holds for a span holds for a wider one. */
  lemma Wider(sb: Super, owner: map<nat, Slot>, owner': map<nat, Slot>, i: nat, lo: nat, hi: nat, lo': nat, hi': nat)
    requires lo' <= lo && hi <= hi'
    ensures KeepsBalance(sb, owner, owner', i, lo, hi) ==> KeepsBalance(sb, owner, owner', i, lo', hi')
    ensures Short(sb, owner, i, lo, hi) ==> Short(sb, owner, i, lo', hi')
  {
    hide Balance;
  }

  lemma BalanceThen(sb: Super, owner: map<nat, Slot>, owner1: map<nat, Slot>, owner2: map<nat, Slot>, i: nat, lo: nat,
                    hi: nat)
    requires KeepsBalance(sb, owner, owner1, i, lo, hi)
    ensures KeepsBalance(sb, owner1, owner2, i, lo, hi) ==> KeepsBalance(sb, owner, owner2, i, lo, hi)
    ensures Short(sb, owner1, i, lo, hi) ==> Short(sb, owner, i, lo, hi)
  {
    hide Balance;
  }

  lemma SlotOwned(sb: Super, v: View, t: Inodes, owner: map<nat, Slot>, floating: set<nat>, lag: set<nat>, sl: Slot)
    requires FsState(sb, v, t, owner, floating, lag)
    ensures sl in owner.Values <==> Ref(v, t, sl) != 0
    ensures forall b :: b in owner ==> b in DataBlocks(sb)
  {
    if Ref(v, t, sl) != 0 {
      assert owner[Ref(v, t, sl)] == sl;
    }
  }

  /** The blocks of a span that are still missing, from the addresses on the disk. */
  ghost function MissingAddrs(v: View, addrs: seq<word>, lo: nat, hi: nat): (s: set<nat>) {
    set bn: nat | lo <= bn < hi && DiskAddr(v, addrs, bn) == 0
  }

  /**
    There are blocks for `n` bytes at `off` exactly when at least as many bits of the bitmap are clear as
    addresses of their blocks are zero, the table block's among them if they reach past the first twelve.
   */
  lemma FitsExact(sb: Super, v: View, t: Inodes, owner: map<nat, Slot>, i: nat, off: nat, n: nat)
    requires FsState(sb, v, t, owner, {}, {}) && i in t && n > 0 && off + n <= 71680
    ensures var lo, hi := off / 512, (off + n - 1) / 512 + 1;
            |t[i].addrs| == 13 &&
            (Fits(sb, owner, i, off, n) <==>
               |set b | 0 <= b < sb.size && !Used(sb, v, b)| >=
                 |MissingAddrs(v, t[i].addrs, lo, hi)| + (if 12 < hi && t[i].addrs[12] == 0 then 1 else 0))
  {
    hide FsState, Used, Ref, DataBlocks, Need, MissingAddrs;
    SpareIsFree(sb, v, t, owner, {});
    NeedIs(sb, v, t, owner, i, off / 512, (off + n - 1) / 512 + 1);
  }

  lemma NeedIs(sb: Super, v: View, t: Inodes, owner: map<nat, Slot>, i: nat, lo: nat, hi: nat)
    requires FsState(sb, v, t, owner, {}, {}) && i in t && lo < hi <= 140
    ensures |t[i].addrs| == 13
    ensures Need(owner, i, lo, hi) ==
              |MissingAddrs(v, t[i].addrs, lo, hi)| + if 12 < hi && t[i].addrs[12] == 0 then 1 else 0
  {
    assert Ref(v, t, Table(i)) == t[i].addrs[12];
    hide FsState, Ref, DiskAddr, BlockSlot;
    SlotOwned(sb, v, t, owner, {}, {}, Table(i));
    forall bn: nat | lo <= bn < hi ensures BlockSlot(i, bn) in owner.Values <==> DiskAddr(v, t[i].addrs, bn) != 0 {
      SlotOwned(sb, v, t, owner, {}, {}, BlockSlot(i, bn));
      BlockAddr(v, t, i, bn);
    }
    assert Missing(owner, i, lo, hi) == MissingAddrs(v, t[i].addrs, lo, hi);
  }

  /** A file that has all blocks of a span needs none. */
  lemma NoNeed(sb: Super, v: View, t: Inodes, owner: map<nat, Slot>, lag: set<nat>, i: nat, lo: nat, hi: nat)
    requires FsState(sb, v, t, owner, {}, lag) && forall bn: nat :: lo <= bn < hi ==> Ref(v, t, BlockSlot(i, bn)) != 0
    ensures Need(owner, i, lo, hi) == 0
  {
    hide FsState;
    forall bn: nat | lo <= bn < hi ensures BlockSlot(i, bn) in owner.Values {
      SlotOwned(sb, v, t, owner, {}, lag, BlockSlot(i, bn));
    }
    assert Missing(owner, i, lo, hi) == {};
    if lo < hi && NDIRECT < hi {
      var bn := hi - 1;
      assert Ref(v, t, BlockSlot(i, bn)) != 0 && BlockSlot(i, bn) == Indirect(i, bn - NDIRECT);
      SlotOwned(sb, v, t, owner, {}, lag, Table(i));
    }
  }

  /** A write of `n` bytes at `off` needs at most its blocks and a table block. */
  lemma EnoughFree(sb: Super, owner: map<nat, Slot>, i: nat, off: nat, n: nat)
    requires Spare(sb, owner) >= Blocks(off, n) + 1
    ensures Fits(sb, owner, i, off, n)
  {
    hide Spare, Blocks;
    RangeSize(Missing(owner, i, off / BSIZE, off / BSIZE + Blocks(off, n)), off / BSIZE, off / BSIZE + Blocks(off, n));
  }

  /** Slot `sl` has got block `b`, which was free. */
  ghost predicate Taken(sb: Super, owner: map<nat, Slot>, owner': map<nat, Slot>, b: nat, sl: Slot) {
    b !in owner && b in DataBlocks(sb) && owner' == owner[b := sl]
  }

  lemma DataBlock(sb: Super, b: nat)
    requires sb.Data(b)
    ensures b in DataBlocks(sb)
  {
  }

  /** What allocating, or failing to allocate, a missing block means for the balance. */
  lemma BlockOutcome(sb: Super, v: View, t: Inodes, owner: map<nat, Slot>, lag: set<nat>, i: nat, bn: nat,
                     owner': map<nat, Slot>, b: nat)
    requires FsState(sb, v, t, owner, {}, lag) && Ref(v, t, BlockSlot(i, bn)) == 0
    ensures Taken(sb, owner, owner', b, BlockSlot(i, bn)) ==> KeepsBalance(sb, owner, owner', i, bn, bn + 1)
    ensures Spare(sb, owner) == 0 ==> Short(sb, owner, i, bn, bn + 1)
  {
    hide FsState, KeepsBalance, Short, Spare, DataBlocks;
    SlotOwned(sb, v, t, owner, {}, lag, BlockSlot(i, bn));
    if Taken(sb, owner, owner', b, BlockSlot(i, bn)) {
      GainBlock(sb, owner, b, i, bn);
    }
    if Spare(sb, owner) == 0 {
      ShortOne(sb, owner, i, bn);
    }
  }

  /** The same for the table block of a file without one, on the way to block `bn`. */
  lemma TableOutcome(sb: Super, v: View, t: Inodes, owner: map<nat, Slot>, lag: set<nat>, i: nat, bn: nat,
                     owner': map<nat, Slot>, b: nat)
    requires FsState(sb, v, t, owner, {}, lag) && Ref(v, t, Table(i)) == 0 && NDIRECT <= bn
    ensures Taken(sb, owner, owner', b, Table(i)) ==> KeepsBalance(sb, owner, owner', i, bn, bn + 1)
    ensures Spare(sb, owner) == 0 ==> Short(sb, owner, i, bn, bn + 1)
  {
    hide FsState, KeepsBalance, Short, Spare, DataBlocks;
    SlotOwned(sb, v, t, owner, {}, lag, Table(i));
    SlotOwned(sb, v, t, owner, {}, lag, BlockSlot(i, bn));
    if Taken(sb, owner, owner', b, Table(i)) {
      GainTable(sb, owner, b, i, bn);
    }
    if Spare(sb, owner) == 0 {
      ShortOne(sb, owner, i, bn);
    }
  }

  /** A finished write has shown that there were enough free blocks. */
  lemma WrittenRoom(sb: Super, v: View, t: Inodes, owner0: map<nat, Slot>, owner: map<nat, Slot>, i: nat, off: nat,
                    n: nat)
    requires FsState(sb, v, t, owner, {}, {}) && i in t && NoHoles(v, t, i) && off + n <= t[i].size
    requires KeepsBalance(sb, owner0, owner, i, off / BSIZE, off / BSIZE + Blocks(off, n))
    ensures Fits(sb, owner0, i, off, n)
  {
    hide FsState, Spare, Ref;
    var lo, hi := off / BSIZE, off / BSIZE + Blocks(off, n);
    forall bn: nat | lo <= bn < hi ensures Ref(v, t, BlockSlot(i, bn)) != 0 {
      SpanBlock(off, n, bn);
      PresentByte(v, t, i, bn * BSIZE);
    }
    NoNeed(sb, v, t, owner, {}, i, lo, hi);
    assert Balance(sb, owner, i, lo, hi) == Balance(sb, owner0, i, lo, hi);
  }

  lemma SpanBlock(off: nat, n: nat, bn: nat)
    requires off / BSIZE <= bn < off / BSIZE + Blocks(off, n)
    ensures bn * BSIZE < off + n && bn * BSIZE / BSIZE == bn
  {
  }

  lemma WrittenFits(sb: Super, v: View, t: Inodes, owner0: map<nat, Slot>, w: View, u: Inodes, owner: map<nat, Slot>,
                    i: nat, off: nat, src: seq<byte>)
    requires FsState(sb, w, u, owner, {}, {}) && FileWritten(v, t, w, u, i, off, src)
    requires KeepsBalance(sb, owner0, owner, i, off / BSIZE, off / BSIZE + Blocks(off, |src|))
    ensures Fits(sb, owner0, i, off, |src|)
  {
    hide FsState, KeepsBalance, Fits, Blocks, Contents;
    ContentsSize(w, u, i);
    WrittenRoom(sb, w, u, owner0, owner, i, off, |src|);
  }

  lemma NothingFits(sb: Super, owner: map<nat, Slot>, i: nat, off: nat)
    ensures Fits(sb, owner, i, off, 0)
  {
    hide Spare;
    assert Missing(owner, i, off / BSIZE, off / BSIZE) == {};
  }

  lemma ShortDoesNotFit(sb: Super, owner: map<nat, Slot>, i: nat, off: nat, n: nat)
    requires Short(sb, owner, i, off / BSIZE, off / BSIZE + Blocks(off, n))
    ensures !Fits(sb, owner, i, off, n)
  {
    hide Balance, Blocks;
  }

  /** Part of a write touches part of its blocks. */
  lemma PartSpan(off: nat, n: nat, i: nat, m: nat)
    requires i + m <= n && i < n
    ensures off / BSIZE <= (off + i) / BSIZE && (off + i) / BSIZE + Blocks(off + i, m) <= off / BSIZE + Blocks(off, n)
  {
    assert (off + i) / BSIZE <= (off + n - 1) / BSIZE;
    if m > 0 {
      assert (off + i + m - 1) / BSIZE <= (off + n - 1) / BSIZE;
    }
  }

  // Which sectors a write may log.

  /** The table block of file `i` and its blocks from `lo` to `hi`. */
  ghost function Span(owner: map<nat, Slot>, i: nat, lo: nat, hi: nat): (s: set<nat>) {
    set b | b in owner && (owner[b] == Table(i) || InSpan(owner[b], i, lo, hi))
  }

  ghost predicate InSpan(sl: Slot, i: nat, lo: nat, hi: nat) {
    exists bn: nat :: lo <= bn < hi && sl == BlockSlot(i, bn)
  }

  /** Nobody has lost a block, and only file `i` has got new ones. */
  ghost predicate OwnerGrows(owner: map<nat, Slot>, owner': map<nat, Slot>, i: nat) {
    && (forall b :: b in owner ==> b in owner' && owner'[b] == owner[b])
    && (forall b :: b in owner' && b !in owner ==> owner'[b].inum == i)
  }

  lemma SpanGrows(owner: map<nat, Slot>, owner': map<nat, Slot>, i: nat, lo: nat, hi: nat)
    requires OwnerGrows(owner, owner', i)
    ensures Span(owner, i, lo, hi) <= Span(owner', i, lo, hi)
  {
  }

  /** A span of one block is at most two sectors. */
  lemma SpanOfOne(sb: Super, v: View, t: Inodes, owner: map<nat, Slot>, floating: set<nat>, lag: set<nat>, i: nat,
                  bn: nat)
    requires FsState(sb, v, t, owner, floating, lag)
    ensures |Span(owner, i, bn, bn + 1)| <= 2
  {
    hide FsState, Ref, BlockSlot;
    var a: nat, b: nat := Ref(v, t, Table(i)), Ref(v, t, BlockSlot(i, bn));
    var s := Span(owner, i, bn, bn + 1);
    forall x | x in s ensures x == a || x == b {
      OwnerRef(sb, v, t, owner, floating, lag, x);
    }
    SubsetSize(s, {a, b});
  }

  lemma OwnerRef(sb: Super, v: View, t: Inodes, owner: map<nat, Slot>, floating: set<nat>, lag: set<nat>, b: nat)
    requires FsState(sb, v, t, owner, floating, lag) && b in owner
    ensures Ref(v, t, owner[b]) == b
  {
  }

  lemma {:induction false} TouchedSpan(sb: Super, v: View, t: Inodes, owner: map<nat, Slot>, floating: set<nat>,
                                       lag: set<nat>, i: nat, lo: nat, mid: nat, hi: nat)
    requires FsState(sb, v, t, owner, floating, lag) && mid <= hi
    requires forall bn: nat :: lo <= bn < mid ==> Ref(v, t, BlockSlot(i, bn)) != 0
    ensures Touched(v, t, i, lo, mid) <= Span(owner, i, lo, hi)
    decreases mid
  {
    hide BlockSlot;
    if lo < mid {
      TouchedSpan(sb, v, t, owner, floating, lag, i, lo, mid - 1, hi);
      var sl := BlockSlot(i, mid - 1);
      assert owner[Ref(v, t, sl)] == sl && InSpan(sl, i, lo, hi);
    }
  }

  lemma WithinSpan(sb: Super, logged0: set<nat>, logged: set<nat>, v: View, t: Inodes, owner: map<nat, Slot>,
                   floating: set<nat>, lag: set<nat>, i: nat, lo: nat, mid: nat, hi: nat)
    requires Within(sb, logged0, logged, v, t, i, lo, mid) && FsState(sb, v, t, owner, floating, lag) && mid <= hi
    ensures logged <= logged0 + BitmapSectors(sb) + Span(owner, i, lo, hi)
  {
    TouchedSpan(sb, v, t, owner, floating, lag, i, lo, mid, hi);
    hide Span, Touched, FsState, BitmapSectors;
    assert TableOf(t[i]) <= Span(owner, i, lo, hi) by {
      TableInSpan(sb, v, t, owner, floating, lag, i, lo, hi);
    }
  }

  lemma TableInSpan(sb: Super, v: View, t: Inodes, owner: map<nat, Slot>, floating: set<nat>, lag: set<nat>, i: nat,
                    lo: nat, hi: nat)
    requires FsState(sb, v, t, owner, floating, lag) && i in t
    ensures TableOf(t[i]) <= Span(owner, i, lo, hi)
  {
    var a := Ref(v, t, Table(i));
    assert a != 0 ==> owner[a] == Table(i);
  }

  lemma ProgressGrows(v: View, t: Inodes, owner: map<nat, Slot>, w: View, u: Inodes, owner': map<nat, Slot>,
                      i: nat, off: nat, src: seq<byte>, tot: nat)
    requires Progress(v, t, owner, w, u, owner', i, off, src, tot)
    ensures OwnerGrows(owner, owner', i)
  {
  }

  /** What the copy loop has logged. */
  lemma LoopLogged(sb: Super, v0: View, t0: Inodes, owner0: map<nat, Slot>, logged0: set<nat>,
                   v: View, t: Inodes, owner: map<nat, Slot>, lag: set<nat>, logged: set<nat>,
                   i: nat, off: nat, src: seq<byte>, tot: nat, mid: nat)
    requires LoopState(sb, v0, t0, owner0, logged0, v, t, owner, lag, logged, i, off, src, tot, mid)
    requires FsState(sb, v, t, owner, {}, lag)
    ensures logged <= logged0 + BitmapSectors(sb) + Span(owner, i, off / BSIZE, off / BSIZE + Blocks(off, |src|))
    ensures OwnerGrows(owner0, owner, i)
  {
    hide FsState, Progress, Within, Budget, OwnerGrows, Span, BitmapSectors;
    ProgressGrows(v0, t0, owner0, v, t, owner, i, off, src, tot);
    WithinSpan(sb, logged0, logged, v, t, owner, {}, lag, i, off / BSIZE, mid, off / BSIZE + Blocks(off, |src|));
  }

  // What one file takes, another one does not find.

  lemma SlotFile(i: nat, bn: nat)
    ensures BlockSlot(i, bn).inum == i
  {
  }

  /** The needs of other files are as they were. */
  lemma OtherNeeds(owner: map<nat, Slot>, owner': map<nat, Slot>, i: nat, d: nat, lo: nat, hi: nat)
    requires OwnerGrows(owner, owner', i) && d != i
    ensures Need(owner', d, lo, hi) == Need(owner, d, lo, hi)
  {
    hide BlockSlot;
    forall sl: Slot | sl.inum == d ensures sl in owner'.Values <==> sl in owner.Values {
      OtherSlot(owner, owner', i, sl);
    }
    forall bn: nat ensures bn in Missing(owner', d, lo, hi) <==> bn in Missing(owner, d, lo, hi) {
      SlotFile(d, bn);
    }
    assert Missing(owner', d, lo, hi) == Missing(owner, d, lo, hi);
  }

  lemma OtherSlot(owner: map<nat, Slot>, owner': map<nat, Slot>, i: nat, sl: Slot)
    requires OwnerGrows(owner, owner', i) && sl.inum != i
    ensures sl in owner'.Values <==> sl in owner.Values
  {
    if sl in owner.Values {
      var b :| b in owner && owner[b] == sl;
      assert owner'[b] == sl;
    }
  }

  /** A file without blocks needs one for its first block. */
  lemma FirstNeed(sb: Super, v: View, t: Inodes, owner: map<nat, Slot>, lag: set<nat>, i: nat)
    requires FsState(sb, v, t, owner, {}, lag) && i in t && NoAddrs(t[i])
    ensures Need(owner, i, 0, 1) == 1
  {
    SlotOwned(sb, v, t, owner, {}, lag, BlockSlot(i, 0));
    assert Missing(owner, i, 0, 1) == {0};
  }

  lemma FirstThere(sb: Super, v: View, t: Inodes, owner: map<nat, Slot>, lag: set<nat>, i: nat)
    requires FsState(sb, v, t, owner, {}, lag) && i in t && NoHoles(v, t, i) && t[i].size > 0
    ensures Need(owner, i, 0, 1) == 0
  {
    hide FsState, Ref;
    assert 0 * BSIZE == 0;
    NoNeed(sb, v, t, owner, lag, i, 0, 1);
  }

  /** After file `i` has got its first block there is one block less for file `d`. */
  lemma OneBlockLess(sb: Super, owner: map<nat, Slot>, owner': map<nat, Slot>, i: nat, d: nat, lo: nat, hi: nat)
    requires OwnerGrows(owner, owner', i) && KeepsBalance(sb, owner, owner', i, 0, 1) && d != i
    requires Need(owner, i, 0, 1) == 1 && Need(owner', i, 0, 1) == 0
    ensures Balance(sb, owner', d, lo, hi) == Balance(sb, owner, d, lo, hi) - 1
    ensures Balance(sb, owner, i, 0, 1) >= 0 <==> Spare(sb, owner) > 0
  {
    hide Need, Spare, OwnerGrows;
    OtherNeeds(owner, owner', i, d, lo, hi);
    assert Balance(sb, owner', i, 0, 1) == Balance(sb, owner, i, 0, 1);
  }
}
