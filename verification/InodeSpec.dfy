/** The state of the block and inode layers as a value, and what each change of it preserves. */
module InodeSpec {
  import opened Bytes
  import opened Collections
  import opened BufCache
  import opened LogSpec
  import opened Layout
  import opened Ownership
  import opened FileSpec

  function Zeros(): (z: Block)
    ensures forall i :: 0 <= i < BSIZE ==> z[i] == 0
  {
    seq(BSIZE, _ => 0)
  }

  /** The fields of struct superblock. */
  ghost predicate Describes(sb: Super, block: Block) {
    GetU32(block, 0) == sb.size && GetU32(block, 8) == sb.ninodes && GetU32(block, 12) == sb.nlog
  }

  ghost predicate SuperBlock(sb: Super, v: View) {
    1 in v && Describes(sb, v[1])
  }

  /** The disk has the super block, whatever is in the log. */
  ghost predicate SuperOn(sb: Super, d: Image) {
    At(1) in d && Describes(sb, d[At(1)])
  }

  lemma SuperStays(g: Area, sb: Super, d: Image, v: View, w: View)
    requires OldOrNew(g, d, v, w) && 1 < g.start && SuperBlock(sb, v) && SuperBlock(sb, w)
    ensures SuperOn(sb, d)
  {
  }

  /** The disk agrees with the inode table, apart from the inodes in `lag`. */
  ghost predicate Synced(sb: Super, v: View, t: Inodes, lag: set<nat>) {
    forall i :: i in t && i !in lag && IBlock(i) in v ==> Ino(v, i) == t[i]
  }

  ghost function BitmapSectors(sb: Super): (s: set<nat>) {
    set b | 0 <= b < sb.size :: sb.BBlock(b)
  }

  lemma FirstBits(b: nat, bi: nat)
    requires b % BPB == 0 && bi < BPB
    ensures (b + bi) % BPB == bi && (b + bi) / BPB == b / BPB && (b + bi) % 8 == bi % 8
  {
  }

  /** The inner loop of block_alloc: the first clear bit below `lim`. */
  method ScanBits(data: Block, lim: nat) returns (bi: nat)
    requires lim <= BPB
    ensures bi <= lim && forall j :: 0 <= j < bi ==> Bit(data[j / 8], j % 8)
    ensures bi < lim ==> !Bit(data[bi / 8], bi % 8)
  {
    bi := 0;
    while bi < lim
      invariant 0 <= bi <= lim && forall j :: 0 <= j < bi ==> Bit(data[j / 8], j % 8)
    {
      if !Bit(data[bi / 8], bi % 8) {
        return;
      }
      bi := bi + 1;
    }
  }

  /** The sectors after block_alloc has returned `b`. */
  ghost function Allocated(sb: Super, v: View, b: nat): (r: View)
    requires sb.BBlock(b) in v
  {
    MarkedView(sb, v, b, true)[b := Zeros()]
  }

  /** Sectors outside the inode area do not matter to the on-disk inodes, nor sector 1 to anything else. */
  lemma DataWriteKept(sb: Super, v: View, t: Inodes, lag: set<nat>, s: nat, x: Block)
    requires sb.Ok() && TableOk(sb, t) && SuperBlock(sb, v) && Synced(sb, v, t, lag)
    requires s in v && sb.BitmapStart() <= s
    ensures SuperBlock(sb, v[s := x]) && Synced(sb, v[s := x], t, lag)
  {
    forall i | i in t ensures IBlock(i) != s {
      InodeArea(sb, i);
    }
  }

  lemma AllocatedInv(sb: Super, v: View, t: Inodes, owner: map<nat, Slot>, floating: set<nat>, lag: set<nat>, b: nat)
    requires FsInv(sb, v, t, owner, floating) && SuperBlock(sb, v) && Synced(sb, v, t, lag)
    requires b < sb.size && !Used(sb, v, b)
    ensures sb.Data(b) && b !in owner && b in v && sb.BBlock(b) in v && sb.BBlock(b) < sb.DataStart()
    ensures FsInv(sb, Allocated(sb, v, b), t, owner, floating + {b})
    ensures SuperBlock(sb, Allocated(sb, v, b)) && Synced(sb, Allocated(sb, v, b), t, lag)
    ensures forall sl :: Ref(Allocated(sb, v, b), t, sl) == Ref(v, t, sl)
  {
    BitmapArea(sb, b);
    var w := MarkedView(sb, v, b, true);
    MarkedWrite(sb, v, t, owner, floating, b, true);
    DataWriteKept(sb, v, t, lag, sb.BBlock(b), w[sb.BBlock(b)]);
    forall i | i in t ensures t[i].Addr(NDIRECT) != b {
      assert Ref(v, t, Table(i)) == t[i].Addr(NDIRECT);
    }
    hide FsInv, Synced, SuperBlock;
    AllocatedZero(sb, w, t, owner, floating + {b}, lag, b);
  }

  lemma AllocatedZero(sb: Super, w: View, t: Inodes, owner: map<nat, Slot>, floating: set<nat>, lag: set<nat>, b: nat)
    requires FsInv(sb, w, t, owner, floating) && SuperBlock(sb, w) && Synced(sb, w, t, lag)
    requires sb.Data(b) && b in w && forall i :: i in t ==> t[i].Addr(NDIRECT) != b
    ensures FsInv(sb, w[b := Zeros()], t, owner, floating)
    ensures SuperBlock(sb, w[b := Zeros()]) && Synced(sb, w[b := Zeros()], t, lag)
    ensures forall sl :: Ref(w[b := Zeros()], t, sl) == Ref(w, t, sl)
  {
    OtherWrite(sb, w, t, owner, floating, b, Zeros());
    DataWriteKept(sb, w, t, lag, b, Zeros());
  }

  /** Everything the file system knows about its sectors. */
  ghost predicate FsState(sb: Super, v: View, t: Inodes, owner: map<nat, Slot>, floating: set<nat>, lag: set<nat>) {
    SuperBlock(sb, v) && FsInv(sb, v, t, owner, floating) && Synced(sb, v, t, lag)
  }

  lemma AllocatedState(sb: Super, v: View, t: Inodes, owner: map<nat, Slot>, floating: set<nat>, lag: set<nat>, b: nat)
    requires FsState(sb, v, t, owner, floating, lag) && b < sb.size && !Used(sb, v, b)
    ensures sb.Data(b) && b !in owner && b in v && sb.BBlock(b) in v && sb.BBlock(b) < sb.DataStart()
    ensures FsState(sb, Allocated(sb, v, b), t, owner, floating + {b}, lag)
  {
    AllocatedInv(sb, v, t, owner, floating, lag, b);
  }

  /** What a transaction has pinned in the cache, counting all bitmap blocks. */
  ghost function Pinned(sb: Super, held: set<nat>, logged: set<nat>): (s: set<nat>) {
    held + logged + BitmapSectors(sb)
  }

  /** `k` more sectors can be logged without a panic of the log or of the cache. */
  ghost predicate Budget(sb: Super, held: set<nat>, logged: set<nat>, k: nat) {
    |Pinned(sb, held, logged)| + k < LOGSIZE && |Pinned(sb, held, logged)| + k < sb.nlog - 1
  }

  /** At most `k` sectors have been logged since, not counting the bitmap. */
  ghost predicate Spent(sb: Super, logged: set<nat>, logged': set<nat>, k: nat) {
    |Pinned(sb, {}, logged')| <= |Pinned(sb, {}, logged)| + k
  }

  lemma SpentMost(sb: Super, logged: set<nat>, logged': set<nat>, k: nat, n: nat)
    requires k <= n && (Spent(sb, logged, logged', k) || logged' == logged)
    ensures Spent(sb, logged, logged', n)
  {
  }

  lemma SpentOne(sb: Super, logged: set<nat>, logged': set<nat>, k: nat, s: nat)
    requires Spent(sb, logged, logged', k)
    ensures Spent(sb, logged, logged' + {s}, k + 1)
  {
    assert Pinned(sb, {}, logged' + {s}) == Pinned(sb, {}, logged') + {s};
  }

  lemma BudgetRoom(sb: Super, held: set<nat>, logged: set<nat>, k: nat)
    requires Budget(sb, held, logged, k)
    ensures |held + logged| < NBUF && |logged| + k < LOGSIZE && |logged| + k < sb.nlog - 1
  {
    SubsetSize(held + logged, Pinned(sb, held, logged));
    SubsetSize(logged, Pinned(sb, held, logged));
  }

  /** Holding or logging one more sector. */
  lemma BudgetMore(sb: Super, held: set<nat>, logged: set<nat>, s: nat, k: nat)
    requires Budget(sb, held, logged, k + 1)
    ensures Budget(sb, held + {s}, logged, k) && Budget(sb, held, logged + {s}, k)
  {
    assert Pinned(sb, held + {s}, logged) == Pinned(sb, held, logged) + {s};
    assert Pinned(sb, held, logged + {s}) == Pinned(sb, held, logged) + {s};
  }

  /** A held or logged or bitmap sector counts only once. */
  lemma BudgetSame(sb: Super, held: set<nat>, logged: set<nat>, held': set<nat>, logged': set<nat>, k: nat)
    requires Budget(sb, held, logged, k)
    requires Pinned(sb, held', logged') <= Pinned(sb, held, logged)
    ensures Budget(sb, held', logged', k)
  {
    SubsetSize(Pinned(sb, held', logged'), Pinned(sb, held, logged));
  }

  lemma ZeroTable(v: View, b: nat, j: nat)
    requires b in v && v[b] == Zeros()
    ensures TableEntry(v, b, j) == 0
  {
    FourDigits(0, 0, 0, 0);
  }

  /** A freshly allocated block is stored in an empty address of inode `i`. */
  lemma AttachedState(sb: Super, v: View, t: Inodes, owner: map<nat, Slot>, floating: set<nat>, lag: set<nat>, i: nat,
                      k: nat, b: word)
    requires FsState(sb, v, t, owner, floating, lag) && i in t && k <= NDIRECT
    requires b in floating && t[i].Addr(k) == 0 && b in v && v[b] == Zeros()
    ensures k < |t[i].addrs| && b !in owner && b != 0
    ensures FsState(sb, v, WithAddr(t, i, k, b), owner[b := AddrSlot(i, k)], floating - {b}, lag + {i})
    ensures Ref(v, WithAddr(t, i, k, b), AddrSlot(i, k)) == b
    ensures Grown(v, t, owner, v, WithAddr(t, i, k, b), owner[b := AddrSlot(i, k)], i)
  {
    hide Grown;
    forall j ensures TableEntry(v, b, j) == 0 {
      ZeroTable(v, b, j);
    }
    Attached(sb, v, t, owner, floating, i, k, b);
    AttachedGrown(sb, v, t, owner, floating, lag, i, k, b);
  }

  lemma AttachedGrown(sb: Super, v: View, t: Inodes, owner: map<nat, Slot>, floating: set<nat>, lag: set<nat>, i: nat,
                      k: nat, b: word)
    requires FsState(sb, v, t, owner, floating, lag) && i in t && k < |t[i].addrs| && b !in owner && b in v
    ensures Grown(v, t, owner, v, WithAddr(t, i, k, b), owner[b := AddrSlot(i, k)], i)
  {
    assert forall s :: s in owner ==> s in v;
    hide FsState;
  }

  /** A freshly allocated block is stored in an empty entry of the table block of inode `i`. */
  lemma AttachedIndirectState(sb: Super, v: View, t: Inodes, owner: map<nat, Slot>, floating: set<nat>, lag: set<nat>,
                              i: nat, j: nat, b: word)
    requires FsState(sb, v, t, owner, floating, lag) && i in t && j < NINDIRECT && b in floating && b in v
    requires var a := t[i].Addr(NDIRECT); a != 0 && a in v && TableEntry(v, a, j) == 0
    ensures var a := t[i].Addr(NDIRECT);
            var w := v[a := PutU32(v[a], 4 * j, b)];
            && b !in owner && b != 0 && a != b
            && FsState(sb, w, t, owner[b := Indirect(i, j)], floating - {b}, lag)
            && Ref(w, t, Indirect(i, j)) == b
            && Grown(v, t, owner, w, t, owner[b := Indirect(i, j)], i)
  {
    hide Grown;
    var a := t[i].Addr(NDIRECT);
    AttachedIndirect(sb, v, t, owner, floating, i, j, b);
    assert Ref(v, t, Table(i)) == a;
    DataWriteKept(sb, v, t, lag, a, PutU32(v[a], 4 * j, b));
    AttachedIndirectGrown(sb, v, t, owner, floating, lag, i, j, b);
  }

  lemma AttachedIndirectGrown(sb: Super, v: View, t: Inodes, owner: map<nat, Slot>, floating: set<nat>, lag: set<nat>,
                              i: nat, j: nat, b: word)
    requires FsState(sb, v, t, owner, floating, lag) && i in t && j < NINDIRECT && b !in owner && b in v
    requires var a := t[i].Addr(NDIRECT); a != 0 && a in v
    ensures Grown(v, t, owner, v[t[i].Addr(NDIRECT) := PutU32(v[t[i].Addr(NDIRECT)], 4 * j, b)], t,
                  owner[b := Indirect(i, j)], i)
  {
    assert Ref(v, t, Table(i)) == t[i].Addr(NDIRECT);
    assert forall s :: s in owner ==> s in v;
    hide PutU32;
  }

  /** Allocation alone changes no owned block. */
  lemma AllocatedGrown(sb: Super, v: View, t: Inodes, owner: map<nat, Slot>, floating: set<nat>, lag: set<nat>, b: nat,
                       i: nat)
    requires FsState(sb, v, t, owner, floating, lag) && sb.BBlock(b) in v && b < sb.size && b !in owner
    ensures Grown(v, t, owner, Allocated(sb, v, b), t, owner, i)
  {
    BitmapArea(sb, b);
    assert forall s :: s in owner ==> s in v;
  }

  /**
    Exactly the blocks of inode `i` are free now, the inode is empty, and every
    other file and inode is as before.
   */
  ghost predicate Truncated(sb: Super, v: View, t: Inodes, owner: map<nat, Slot>, w: View, u: Inodes,
                            owner': map<nat, Slot>, i: nat) {
    && Whole(w, u) && i in t && i in u && u.Keys == t.Keys
    && u[i] == t[i].(size := 0, addrs := u[i].addrs) && NoAddrs(u[i])
    && (forall b: nat :: b < sb.size ==> (Used(sb, w, b) <==> Used(sb, v, b) && !(b in owner && owner[b].inum == i)))
    && (forall b :: b in owner' <==> b in owner && owner[b].inum != i)
    && (forall k :: k in t && k != i ==> u[k] == t[k] && Contents(w, u, k) == Contents(v, t, k))
  }

  /** The blocks that have become free are the ones to which the inode's addresses led. */
  lemma FreedBlocks(sb: Super, v: View, t: Inodes, owner: map<nat, Slot>, floating: set<nat>, lag: set<nat>, w: View,
                    u: Inodes, owner': map<nat, Slot>, i: nat)
    requires FsState(sb, v, t, owner, floating, lag) && Truncated(sb, v, t, owner, w, u, owner', i)
    ensures forall b: nat :: b < sb.size ==> (Used(sb, w, b) <==> Used(sb, v, b) && !BlockOf(v, t[i], b))
  {
    hide Used, Contents, Whole, BlockOf, Ref;
    NoZeroOwner(sb, v, t, owner, floating, lag);
    forall b: nat | b < sb.size ensures Used(sb, w, b) <==> Used(sb, v, b) && !BlockOf(v, t[i], b) {
      OwnerIs(v, t, owner, i, b);
    }
  }

  lemma NoZeroOwner(sb: Super, v: View, t: Inodes, owner: map<nat, Slot>, floating: set<nat>, lag: set<nat>)
    requires FsState(sb, v, t, owner, floating, lag)
    ensures 0 !in owner && Refs(v, t, owner) && Owned(v, t, owner) && forall i :: i in t ==> t[i].Ok()
  {
    hide Used, Ref;
  }

  ghost predicate NoAddrs(d: DInode) {
    forall k :: 0 <= k < |d.addrs| ==> d.addrs[k] == 0
  }

  lemma AllFreed(d: DInode)
    requires d.Ok() && d.addrs[NDIRECT] == 0 && forall k :: 0 <= k < NDIRECT ==> d.addrs[k] == 0
    ensures NoAddrs(d)
  {
  }

  lemma TrimmedTwice(sb: Super, v: View, t: Inodes, owner: map<nat, Slot>, w: View, u: Inodes, owner': map<nat, Slot>,
                     x: View, y: Inodes, owner'': map<nat, Slot>, i: nat)
    requires Trimmed(sb, v, t, owner, w, u, owner', i) && Trimmed(sb, w, u, owner', x, y, owner'', i)
    ensures Trimmed(sb, v, t, owner, x, y, owner'', i)
  {
  }

  /** An inode without addresses owns nothing. */
  lemma NothingLeft(sb: Super, w: View, u: Inodes, owner: map<nat, Slot>, lag: set<nat>, i: nat, b: nat)
    requires FsState(sb, w, u, owner, {}, lag) && i in u && b in owner
    requires NoAddrs(u[i])
    ensures owner[b].inum != i
  {
    assert Ref(w, u, owner[b]) == b;
  }

  lemma TrimmedOwner(sb: Super, v: View, t: Inodes, owner: map<nat, Slot>, w: View, u: Inodes, owner': map<nat, Slot>,
                     lag: set<nat>, i: nat)
    requires FsState(sb, v, t, owner, {}, {}) && FsState(sb, w, u, owner', {}, lag) && i in u
    requires Trimmed(sb, v, t, owner, w, u, owner', i) && NoAddrs(u[i])
    ensures forall b :: b in owner' <==> b in owner && owner[b].inum != i
    ensures forall b: nat :: b < sb.size ==> (Used(sb, w, b) <==> Used(sb, v, b) && !(b in owner && owner[b].inum == i))
  {
    forall b | b in owner' ensures owner'[b].inum != i {
      NothingLeft(sb, w, u, owner', lag, i, b);
    }
  }

  lemma TrimmedOther(sb: Super, v: View, t: Inodes, owner: map<nat, Slot>, w: View, u: Inodes, owner': map<nat, Slot>,
                     lag: set<nat>, i: nat, k: nat)
    requires FsState(sb, v, t, owner, {}, {}) && FsState(sb, w, u, owner', {}, lag)
    requires Trimmed(sb, v, t, owner, w, u, owner', i) && k in t && k != i && NoHoles(v, t, k)
    ensures NoHoles(w, u, k) && Contents(w, u, k) == Contents(v, t, k)
  {
    forall bn: nat | Ref(v, t, BlockSlot(k, bn)) != 0
      ensures var b := Ref(v, t, BlockSlot(k, bn)); Ref(w, u, BlockSlot(k, bn)) == b && b in v && b in w && w[b] == v[b]
    {
      TrimmedRef(sb, v, t, owner, w, u, owner', lag, i, BlockSlot(k, bn));
    }
    hide FsState, Trimmed;
    SameContents(v, t, w, u, k);
  }

  lemma TrimmedRef(sb: Super, v: View, t: Inodes, owner: map<nat, Slot>, w: View, u: Inodes, owner': map<nat, Slot>,
                   lag: set<nat>, i: nat, sl: Slot)
    requires FsState(sb, v, t, owner, {}, {}) && FsState(sb, w, u, owner', {}, lag)
    requires Trimmed(sb, v, t, owner, w, u, owner', i) && sl.inum != i && Ref(v, t, sl) != 0
    ensures var b := Ref(v, t, sl); Ref(w, u, sl) == b && b in v && b in w && w[b] == v[b]
  {
    var b := Ref(v, t, sl);
    assert owner[b] == sl;
    assert b in owner' && owner'[b] == sl;
  }

  lemma TruncatedState(sb: Super, v: View, t: Inodes, owner: map<nat, Slot>, w: View, u: Inodes, owner': map<nat, Slot>,
                       lag: set<nat>, x: View, i: nat)
    requires FsState(sb, v, t, owner, {}, {}) && Whole(v, t) && i in u
    requires FsState(sb, w, u, owner', {}, lag) && Trimmed(sb, v, t, owner, w, u, owner', i)
    requires NoAddrs(u[i])
    requires IBlock(i) in w && WithSize(u, i, 0)[i].Ok()
    requires x == w[IBlock(i) := WithInode(w[IBlock(i)], i, WithSize(u, i, 0)[i])]
    ensures Truncated(sb, v, t, owner, x, WithSize(u, i, 0), owner', i)
  {
    hide FsState, Trimmed, Whole, NoHoles, Contents, Used, WithInode;
    var u' := WithSize(u, i, 0);
    TrimmedOwner(sb, v, t, owner, w, u, owner', lag, i);
    TrimmedTables(sb, v, t, owner, w, u, owner', i);
    SizedState(sb, w, u, owner', lag, i, 0);
    forall k | k in t && k != i ensures NoHoles(x, u', k) && Contents(x, u', k) == Contents(v, t, k) {
      WholeOne(v, t, k);
      TrimmedOther(sb, v, t, owner, w, u, owner', lag, i, k);
      SizedOther(w, u, i, 0, k);
      UpdatedContents(sb, w, u', owner', lag + {i}, i, k);
    }
    EmptyFile(x, u', i);
    forall b: nat | b < sb.size ensures Used(sb, x, b) == Used(sb, w, b) {
      InodeWriteUsed(sb, w, u', owner', lag + {i}, i, x[IBlock(i)], b);
    }
    TableIs(sb, w, u, owner', lag, i);
    TruncatedIntro(sb, v, t, owner, x, u', owner', i);
  }

  lemma TruncatedIntro(sb: Super, v: View, t: Inodes, owner: map<nat, Slot>, w: View, u: Inodes, owner': map<nat, Slot>,
                       i: nat)
    requires i in t && i in u && u.Keys == t.Keys && NoHoles(w, u, i)
    requires u[i] == t[i].(size := 0, addrs := u[i].addrs) && NoAddrs(u[i])
    requires forall b: nat :: b < sb.size ==>
              (Used(sb, w, b) <==> Used(sb, v, b) && !(b in owner && owner[b].inum == i))
    requires forall b :: b in owner' <==> b in owner && owner[b].inum != i
    requires forall k :: k in t && k != i ==> u[k] == t[k]
    requires forall k :: k in t && k != i ==> NoHoles(w, u, k) && Contents(w, u, k) == Contents(v, t, k)
    ensures Truncated(sb, v, t, owner, w, u, owner', i)
  {
    hide NoHoles, Contents, Used;
  }

  lemma TrimmedTables(sb: Super, v: View, t: Inodes, owner: map<nat, Slot>, w: View, u: Inodes, owner': map<nat, Slot>,
                      i: nat)
    requires Trimmed(sb, v, t, owner, w, u, owner', i) && i in u
    ensures i in t && u.Keys == t.Keys && (forall k :: k in t && k != i ==> u[k] == t[k])
    ensures u[i] == t[i].(addrs := u[i].addrs)
  {
  }

  lemma SizedOther(w: View, u: Inodes, i: nat, size: word, k: nat)
    requires i in u && k in u && k != i && NoHoles(w, u, k)
    ensures NoHoles(w, WithSize(u, i, size), k) && Contents(w, WithSize(u, i, size), k) == Contents(w, u, k)
  {
    forall sl ensures Ref(w, WithSize(u, i, size), sl) == Ref(w, u, sl) {
      WithSizeRef(w, u, i, size, sl);
    }
    SameContents(w, u, w, WithSize(u, i, size), k);
  }

  lemma EmptyFile(v: View, t: Inodes, i: nat)
    requires i in t && t[i].size == 0
    ensures NoHoles(v, t, i)
  {
  }

  lemma InodeWriteUsed(sb: Super, v: View, t: Inodes, owner: map<nat, Slot>, lag: set<nat>, i: nat, x: Block, b: nat)
    requires FsState(sb, v, t, owner, {}, lag) && i in t && b < sb.size
    ensures Used(sb, v[IBlock(i) := x], b) == Used(sb, v, b)
  {
    InodeArea(sb, i);
    BitmapArea(sb, b);
  }

  /** Only inode `i` has lost blocks, and no data block has changed. */
  ghost predicate Trimmed(sb: Super, v: View, t: Inodes, owner: map<nat, Slot>, w: View, u: Inodes,
                          owner': map<nat, Slot>, i: nat) {
    && DataSame(sb, v, w)
    && (forall b :: b in owner' ==> b in owner && owner'[b] == owner[b])
    && (forall b :: b in owner && owner[b].inum != i ==> b in owner')
    && u.Keys == t.Keys && (forall k :: k in t && k != i ==> u[k] == t[k])
    && (i in t ==> u[i] == t[i].(addrs := u[i].addrs))
  }

  lemma TrimmedNot(sb: Super, v: View, t: Inodes, owner: map<nat, Slot>, i: nat)
    ensures Trimmed(sb, v, t, owner, v, t, owner, i)
  {
  }

  lemma TrimmedStep(sb: Super, v0: View, t0: Inodes, owner0: map<nat, Slot>, v: View, t: Inodes, owner: map<nat, Slot>,
                    w: View, i: nat, k: nat)
    requires Trimmed(sb, v0, t0, owner0, v, t, owner, i) && i in t && k < NDIRECT && k < |t[i].addrs|
    requires t[i].addrs[k] in owner && owner[t[i].addrs[k]] == Direct(i, k) && DataSame(sb, v, w)
    ensures Trimmed(sb, v0, t0, owner0, w, WithAddr(t, i, k, 0), owner - {t[i].addrs[k] as nat}, i)
  {
  }

  lemma DataSameNow(sb: Super, v: View)
    ensures DataSame(sb, v, v)
  {
  }

  lemma EntriesEnd(data: Block)
    ensures Entries(data, NINDIRECT) == {}
  {
  }

  lemma DataSameTwice(sb: Super, v: View, w: View, x: View)
    requires DataSame(sb, v, w) && DataSame(sb, w, x)
    ensures DataSame(sb, v, x)
  {
  }

  lemma EntriesStep(data: Block, j: nat, a: nat)
    requires j < NINDIRECT && Apart(data) && a !in Entries(data, 0)
    ensures var b, floating := GetU32(data, 4 * j), Entries(data, j) + {a};
            if b == 0 then floating == Entries(data, j + 1) + {a}
            else b in floating && floating - {b as nat} == Entries(data, j + 1) + {a}
  {
    hide Entries, Apart;
    EntriesNext(data, j);
    EntriesSub(data, j);
  }

  lemma EntriesListed(v: View, a: nat)
    requires a in v && a != 0
    ensures Entries(v[a], 0) == Listed(v, a)
  {
    var data := v[a];
    forall b | b in Entries(data, 0) ensures b in Listed(v, a) {
      EntriesAre(data, 0, b);
      var k :| 0 <= k < NINDIRECT && GetU32(data, 4 * k) == b && b != 0;
      assert TableEntry(v, a, k) == b;
    }
    forall b | b in Listed(v, a) ensures b in Entries(data, 0) {
      var j :| 0 <= j < NINDIRECT && TableEntry(v, a, j) == b && b != 0;
      EntryIn(data, j, 0);
    }
  }

  lemma {:induction false} EntryIn(data: Block, k: nat, j: nat)
    requires j <= k < NINDIRECT && GetU32(data, 4 * k) != 0
    ensures GetU32(data, 4 * k) as nat in Entries(data, j)
    decreases k - j
  {
    if j < k {
      EntryIn(data, k, j + 1);
    }
  }

  lemma DetachedTableState(sb: Super, v: View, t: Inodes, owner: map<nat, Slot>, lag: set<nat>, i: nat)
    requires FsState(sb, v, t, owner, {}, lag) && i in t && t[i].Addr(NDIRECT) != 0
    ensures NDIRECT < |t[i].addrs|
    ensures var a := t[i].Addr(NDIRECT);
            && a in v && sb.Data(a) && a < sb.Start() && Apart(v[a]) && a !in Entries(v[a], 0)
            && FsState(sb, v, WithAddr(t, i, NDIRECT, 0), owner - (Entries(v[a], 0) + {a as nat}),
                       Entries(v[a], 0) + {a as nat}, lag + {i})
  {
    hide Entries, Listed, Apart, FsInv, Synced, SuperBlock;
    TableOwned(sb, v, t, owner, {}, lag, i);
    TableIs(sb, v, t, owner, lag, i);
    var a := t[i].Addr(NDIRECT);
    DetachedTable(sb, v, t, owner, {}, i);
    EntriesListed(v, a);
    var gone := Listed(v, a) + {a as nat};
    assert {} + gone == gone;
    SyncedMore(sb, v, t, lag, i, WithAddr(t, i, NDIRECT, 0));
    TableApartState(sb, v, t, owner, lag, i);
  }

  lemma SyncedMore(sb: Super, v: View, t: Inodes, lag: set<nat>, i: nat, u: Inodes)
    requires Synced(sb, v, t, lag) && u.Keys == t.Keys && forall k :: k in t && k != i ==> u[k] == t[k]
    ensures Synced(sb, v, u, lag + {i})
  {
  }

  lemma TableApartState(sb: Super, v: View, t: Inodes, owner: map<nat, Slot>, lag: set<nat>, i: nat)
    requires FsState(sb, v, t, owner, {}, lag) && i in t && t[i].Addr(NDIRECT) != 0 && t[i].Addr(NDIRECT) in v
    ensures Apart(v[t[i].Addr(NDIRECT)]) && sb.Data(t[i].Addr(NDIRECT))
  {
    TableApart(v, t, owner, i);
    TableOwned(sb, v, t, owner, {}, lag, i);
  }

  lemma TableApart(v: View, t: Inodes, owner: map<nat, Slot>, i: nat)
    requires Refs(v, t, owner) && i in t && t[i].Addr(NDIRECT) != 0 && t[i].Addr(NDIRECT) in v
    ensures Apart(v[t[i].Addr(NDIRECT)])
  {
    var data := v[t[i].Addr(NDIRECT)];
    forall j, k | 0 <= j < k < NINDIRECT && GetU32(data, 4 * j) != 0
      ensures GetU32(data, 4 * j) != GetU32(data, 4 * k) {
      assert Ref(v, t, Indirect(i, j)) == GetU32(data, 4 * j);
      assert Ref(v, t, Indirect(i, k)) == GetU32(data, 4 * k);
    }
  }

  lemma TrimmedTable(sb: Super, v: View, t: Inodes, owner: map<nat, Slot>, lag: set<nat>, w: View, i: nat)
    requires FsState(sb, v, t, owner, {}, lag) && DataSame(sb, v, w) && i in t && t[i].Addr(NDIRECT) != 0
    ensures var a := t[i].Addr(NDIRECT);
            a in v && Trimmed(sb, v, t, owner, w, WithAddr(t, i, NDIRECT, 0), owner - (Entries(v[a], 0) + {a as nat}),
                              i)
  {
    hide FsState, Entries, DataSame;
    TableOwned(sb, v, t, owner, {}, lag, i);
    TableIs(sb, v, t, owner, lag, i);
    var a := t[i].Addr(NDIRECT);
    forall b | b in Entries(v[a], 0) ensures b in owner && owner[b].inum == i {
      EntryOwned(sb, v, t, owner, lag, i, b);
    }
  }

  lemma TableIs(sb: Super, v: View, t: Inodes, owner: map<nat, Slot>, lag: set<nat>, i: nat)
    requires FsState(sb, v, t, owner, {}, lag) && i in t
    ensures |t[i].addrs| == NDIRECT + 1
  {
  }

  lemma EntryOwned(sb: Super, v: View, t: Inodes, owner: map<nat, Slot>, lag: set<nat>, i: nat, b: nat)
    requires FsState(sb, v, t, owner, {}, lag) && i in t && t[i].Addr(NDIRECT) != 0
    requires t[i].Addr(NDIRECT) in v && b in Entries(v[t[i].Addr(NDIRECT)], 0)
    ensures b in owner && owner[b].inum == i
  {
    var a := t[i].Addr(NDIRECT);
    EntriesAre(v[a], 0, b);
    var k :| 0 <= k < NINDIRECT && GetU32(v[a], 4 * k) == b && b != 0;
    assert Ref(v, t, Indirect(i, k)) == b;
  }

  /** The blocks named by entries `j`, `j + 1`, ... of a table block. */
  ghost function Entries(data: Block, j: nat): (s: set<nat>)
    decreases NINDIRECT - j
  {
    if j >= NINDIRECT then {}
    else Entries(data, j + 1) + if GetU32(data, 4 * j) == 0 then {} else {GetU32(data, 4 * j) as nat}
  }

  /** No block is listed twice. */
  ghost predicate Apart(data: Block) {
    forall j, k :: 0 <= j < k < NINDIRECT && GetU32(data, 4 * j) != 0 ==> GetU32(data, 4 * j) != GetU32(data, 4 * k)
  }

  lemma {:induction false} EntriesAre(data: Block, j: nat, b: nat)
    ensures b in Entries(data, j) ==> exists k :: j <= k < NINDIRECT && GetU32(data, 4 * k) == b && b != 0
    decreases NINDIRECT - j
  {
    if j < NINDIRECT {
      EntriesAre(data, j + 1, b);
      if b in Entries(data, j + 1) {
        var k :| j + 1 <= k < NINDIRECT && GetU32(data, 4 * k) == b && b != 0;
      }
    }
  }

  lemma {:induction false} EntriesSub(data: Block, j: nat)
    ensures Entries(data, j) <= Entries(data, 0)
  {
    if j > 0 {
      EntriesSub(data, j - 1);
    }
  }

  /** Freeing entry `j` leaves the later ones to be freed. */
  lemma EntriesNext(data: Block, j: nat)
    requires j < NINDIRECT && Apart(data)
    ensures var b := GetU32(data, 4 * j);
            if b == 0 then Entries(data, j) == Entries(data, j + 1)
            else b in Entries(data, j) && Entries(data, j) - {b as nat} == Entries(data, j + 1)
  {
    var b := GetU32(data, 4 * j);
    EntriesAre(data, j + 1, b);
  }

  /** No data block has changed. */
  ghost predicate DataSame(sb: Super, v: View, w: View) {
    w.Keys == v.Keys && forall s :: s in v && sb.DataStart() <= s ==> w[s] == v[s]
  }

  lemma UsedIn(sb: Super, v: View, b: nat)
    requires Used(sb, v, b)
    ensures sb.BBlock(b) in v
  {
  }

  lemma FloatingState(sb: Super, v: View, t: Inodes, owner: map<nat, Slot>, floating: set<nat>, lag: set<nat>, b: nat)
    requires FsState(sb, v, t, owner, floating, lag) && b in floating
    ensures sb.Ok() && SuperBlock(sb, v) && b < sb.size && Used(sb, v, b) && !sb.Data(1) && !sb.Data(sb.BBlock(b))
    ensures sb.BBlock(b) in v
    ensures FsState(sb, MarkedView(sb, v, b, false), t, owner, floating - {b}, lag)
    ensures DataSame(sb, v, MarkedView(sb, v, b, false))
  {
    hide DataSame, Used, Bitmap;
    FloatingFacts(sb, v, t, owner, floating, lag, b);
    MarkedWrite(sb, v, t, owner, floating, b, false);
    DataWriteKept(sb, v, t, lag, sb.BBlock(b), Marked(v[sb.BBlock(b)], b % BPB, false));
  }

  lemma FloatingFacts(sb: Super, v: View, t: Inodes, owner: map<nat, Slot>, floating: set<nat>, lag: set<nat>, b: nat)
    requires FsState(sb, v, t, owner, floating, lag) && b in floating
    ensures sb.Ok() && b < sb.size && Used(sb, v, b) && sb.Data(b) && b !in owner && !sb.Data(1)
    ensures !sb.Data(sb.BBlock(b))
    ensures 1 < sb.BitmapStart() <= sb.BBlock(b) < sb.DataStart() <= sb.Start() && sb.BBlock(b) in v
    ensures DataSame(sb, v, MarkedView(sb, v, b, false))
  {
    BitmapArea(sb, b);
    hide Marked;
  }

  lemma DetachedState(sb: Super, v: View, t: Inodes, owner: map<nat, Slot>, lag: set<nat>, i: nat, k: nat)
    requires FsState(sb, v, t, owner, {}, lag) && i in t && k < NDIRECT && t[i].Addr(k) != 0
    ensures var b := t[i].Addr(k);
            && b in owner && owner[b] == Direct(i, k) && k < |t[i].addrs|
            && FsState(sb, v, WithAddr(t, i, k, 0), owner - {b}, {b as nat}, lag + {i})
  {
    Detached(sb, v, t, owner, {}, i, k);
    assert {} + {t[i].Addr(k) as nat} == {t[i].Addr(k) as nat};
  }

  lemma ContentsSize(v: View, t: Inodes, i: nat)
    requires i in t
    ensures |Contents(v, t, i)| == t[i].size
  {
  }

  /** A slice of a file that does not cross a block boundary is a slice of that block. */
  lemma PieceOf(sb: Super, v: View, t: Inodes, owner: map<nat, Slot>, lag: set<nat>, i: nat, q: nat, m: nat)
    requires FsState(sb, v, t, owner, {}, lag) && i in t && NoHoles(v, t, i)
    requires 0 < m <= BSIZE - q % BSIZE && q + m <= t[i].size
    ensures var b := Ref(v, t, BlockSlot(i, q / BSIZE));
            && b in v && b < sb.Start() && |Contents(v, t, i)| == t[i].size
            && v[b][q % BSIZE..q % BSIZE + m] == Contents(v, t, i)[q..q + m]
  {
    hide FsState, NoHoles, Contents, Ref, BlockSlot;
    PresentByte(v, t, i, q);
    BlockThere(sb, v, t, owner, lag, BlockSlot(i, q / BSIZE));
    ContentsSize(v, t, i);
    var b, o := Ref(v, t, BlockSlot(i, q / BSIZE)), q % BSIZE;
    var x, y := v[b][o..o + m], Contents(v, t, i)[q..q + m];
    forall k | 0 <= k < m ensures x[k] == y[k] {
      PieceAt(v, t, i, q, m, k);
    }
  }

  lemma BlockThere(sb: Super, v: View, t: Inodes, owner: map<nat, Slot>, lag: set<nat>, sl: Slot)
    requires FsState(sb, v, t, owner, {}, lag) && Ref(v, t, sl) != 0
    ensures Ref(v, t, sl) in v && Ref(v, t, sl) < sb.Start()
  {
    assert Ref(v, t, sl) in owner;
  }

  lemma PieceAt(v: View, t: Inodes, i: nat, q: nat, m: nat, k: nat)
    requires i in t && k < m <= BSIZE - q % BSIZE && q + m <= t[i].size && Ref(v, t, BlockSlot(i, q / BSIZE)) in v
    ensures |Contents(v, t, i)| == t[i].size
    ensures v[Ref(v, t, BlockSlot(i, q / BSIZE))][q % BSIZE + k] == Contents(v, t, i)[q + k]
  {
    hide Ref, BlockSlot;
    Position(q, q + k, m);
  }

  lemma Wraps(off: word, n: word)
    ensures (off + n) % TWO32 < off <==> off + n >= TWO32
  {
  }

  lemma SliceAppend<T>(s: seq<T>, a: nat, b: nat, c: nat)
    requires a <= b <= c <= |s|
    ensures s[a..b] + s[b..c] == s[a..c]
  {
  }

  /**
    File `i` has `src` at offset `off`, grown if necessary; every other file and every other inode field
    is as before.
   */
  ghost predicate FileWritten(v: View, t: Inodes, w: View, u: Inodes, i: nat, off: nat, src: seq<byte>) {
    && Whole(w, u) && i in t && i in u && off <= |Contents(v, t, i)|
    && Contents(w, u, i) == Splice(Contents(v, t, i), off, src)
    && u.Keys == t.Keys
    && (forall k :: k in t && k != i ==> u[k] == t[k] && Contents(w, u, k) == Contents(v, t, k))
    && u[i] == t[i].(addrs := u[i].addrs, size := u[i].size)
  }

  /** A write byte by byte, on the disk. */
  lemma WrittenBytes(sb: Super, v: View, t: Inodes, owner: map<nat, Slot>, w: View, u: Inodes, owner': map<nat, Slot>,
                     i: nat, off: nat, src: seq<byte>)
    requires FsState(sb, v, t, owner, {}, {}) && FsState(sb, w, u, owner', {}, {}) && Whole(v, t)
    requires FileWritten(v, t, w, u, i, off, src)
    ensures u[i].size == if off + |src| <= t[i].size then t[i].size else off + |src|
    ensures forall p: nat :: p < u[i].size ==>
              DiskByte(w, u[i].addrs, p) == if off <= p < off + |src| then src[p - off] else DiskByte(v, t[i].addrs, p)
  {
    ContentsSize(v, t, i);
    ContentsSize(w, u, i);
    WholeOne(v, t, i);
    WholeOne(w, u, i);
    NoZeroOwner(sb, v, t, owner, {}, {});
    NoZeroOwner(sb, w, u, owner', {}, {});
    hide Contents, NoHoles, FsState, DiskByte, Whole;
    forall p: nat | p < u[i].size
      ensures DiskByte(w, u[i].addrs, p) == if off <= p < off + |src| then src[p - off] else DiskByte(v, t[i].addrs, p)
    {
      FileBytes(w, u, i, p);
      if p < t[i].size {
        FileBytes(v, t, i, p);
      }
    }
  }

  lemma WholeOne(v: View, t: Inodes, i: nat)
    requires Whole(v, t) && i in t
    ensures NoHoles(v, t, i)
  {
  }

  lemma WrittenState(sb: Super, v: View, t: Inodes, owner: map<nat, Slot>, w: View, u: Inodes, owner': map<nat, Slot>,
                     lag: set<nat>, i: nat, off: nat, src: seq<byte>, size: word)
    requires FsState(sb, v, t, owner, {}, {}) && FsState(sb, w, u, owner', {}, lag) && Whole(v, t)
    requires Progress(v, t, owner, w, u, owner', i, off, src, |src|)
    requires off <= t[i].size && off + |src| <= MAXFILE * BSIZE
    requires size == if off + |src| > t[i].size then off + |src| else t[i].size
    ensures i in u && FileWritten(v, t, w, WithSize(u, i, size), i, off, src)
    ensures size == t[i].size ==> WithSize(u, i, size) == u
  {
    hide *;
    ProgressTable(v, t, owner, w, u, owner', i, off, src, |src|);
    WholeOne(v, t, i);
    var u' := WithSize(u, i, size);
    ProgressDone(v, t, owner, w, u, owner', i, off, src, size);
    forall k | k in t && k != i ensures NoHoles(w, u', k) && Contents(w, u', k) == Contents(v, t, k) {
      WholeOne(v, t, k);
      WrittenOther(sb, v, t, owner, w, u, owner', lag, i, off, src, size, k);
    }
    WrittenIntro(v, t, w, u, i, off, src, size);
  }

  lemma WrittenIntro(v: View, t: Inodes, w: View, u: Inodes, i: nat, off: nat, src: seq<byte>, size: word)
    requires i in t && i in u && u.Keys == t.Keys && (forall k :: k in t && k != i ==> u[k] == t[k])
    requires u[i] == t[i].(addrs := u[i].addrs) && off <= |Contents(v, t, i)|
    requires NoHoles(w, WithSize(u, i, size), i)
    requires Contents(w, WithSize(u, i, size), i) == Splice(Contents(v, t, i), off, src)
    requires forall k :: k in t && k != i ==>
               NoHoles(w, WithSize(u, i, size), k) && Contents(w, WithSize(u, i, size), k) == Contents(v, t, k)
    ensures FileWritten(v, t, w, WithSize(u, i, size), i, off, src)
    ensures size == t[i].size ==> WithSize(u, i, size) == u
  {
    hide NoHoles, Contents, Splice;
  }

  lemma ProgressTable(v0: View, t0: Inodes, owner0: map<nat, Slot>, v: View, t: Inodes, owner: map<nat, Slot>,
                      i: nat, off: nat, src: seq<byte>, tot: nat)
    requires Progress(v0, t0, owner0, v, t, owner, i, off, src, tot)
    ensures i in t0 && i in t && t.Keys == t0.Keys && (forall k :: k in t0 && k != i ==> t[k] == t0[k])
    ensures t[i] == t0[i].(addrs := t[i].addrs) && |Contents(v0, t0, i)| == t0[i].size
  {
  }

  lemma WrittenOther(sb: Super, v: View, t: Inodes, owner: map<nat, Slot>, w: View, u: Inodes, owner': map<nat, Slot>,
                     lag: set<nat>, i: nat, off: nat, src: seq<byte>, size: word, k: nat)
    requires Progress(v, t, owner, w, u, owner', i, off, src, |src|)
    requires FsState(sb, v, t, owner, {}, {}) && FsState(sb, w, u, owner', {}, lag)
    requires k != i && k in t && NoHoles(v, t, k)
    ensures var u' := WithSize(u, i, size); NoHoles(w, u', k) && Contents(w, u', k) == Contents(v, t, k)
  {
    var u' := WithSize(u, i, size);
    ProgressOther(v, t, owner, w, u, owner', i, off, src, |src|, k);
    hide Progress;
    forall sl ensures Ref(w, u', sl) == Ref(w, u, sl) {
      WithSizeRef(w, u, i, size, sl);
    }
    SameContents(w, u, w, u', k);
  }

  /** A file is determined by its size, its references and the blocks they name. */
  lemma SameContents(v: View, t: Inodes, w: View, u: Inodes, k: nat)
    requires k in t && k in u && t[k].size == u[k].size && NoHoles(v, t, k)
    requires forall bn: nat :: Ref(v, t, BlockSlot(k, bn)) != 0 ==>
              Ref(w, u, BlockSlot(k, bn)) == Ref(v, t, BlockSlot(k, bn))
    requires forall bn: nat :: var b := Ref(v, t, BlockSlot(k, bn)); b != 0 ==>
              (b in v <==> b in w) && (b in v ==> w[b] == v[b])
    ensures NoHoles(w, u, k) && Contents(w, u, k) == Contents(v, t, k)
  {
    forall p: nat | p < t[k].size ensures ByteAt(w, u, k, p) == ByteAt(v, t, k, p) {
      PresentByte(v, t, k, p);
    }
  }

  lemma SizedState(sb: Super, v: View, t: Inodes, owner: map<nat, Slot>, lag: set<nat>, i: nat, size: word)
    requires FsState(sb, v, t, owner, {}, lag) && i in t
    ensures FsState(sb, v, WithSize(t, i, size), owner, {}, lag + {i})
  {
    hide SuperBlock, GetU32, Used, Ref;
    var u := WithSize(t, i, size);
    forall sl ensures Ref(v, u, sl) == Ref(v, t, sl) {
      WithSizeRef(v, t, i, size, sl);
    }
  }

  /** inode_update touches no file's bytes. */
  lemma WrittenUpdated(sb: Super, v: View, t: Inodes, w: View, u: Inodes, owner: map<nat, Slot>, lag: set<nat>,
                       i: nat, off: nat, src: seq<byte>)
    requires FsState(sb, w, u, owner, {}, lag) && FileWritten(v, t, w, u, i, off, src)
    ensures IBlock(i) in w && FileWritten(v, t, w[IBlock(i) := WithInode(w[IBlock(i)], i, u[i])], u, i, off, src)
  {
    UpdatedState(sb, w, u, owner, {}, lag, i);
    var x := w[IBlock(i) := WithInode(w[IBlock(i)], i, u[i])];
    forall k | k in u ensures NoHoles(x, u, k) && Contents(x, u, k) == Contents(w, u, k) {
      UpdatedContents(sb, w, u, owner, lag, i, k);
    }
  }

  lemma UpdatedContents(sb: Super, w: View, u: Inodes, owner: map<nat, Slot>, lag: set<nat>, i: nat, k: nat)
    requires FsState(sb, w, u, owner, {}, lag) && i in u && k in u && NoHoles(w, u, k)
    ensures IBlock(i) in w
    ensures var x := w[IBlock(i) := WithInode(w[IBlock(i)], i, u[i])];
            NoHoles(x, u, k) && Contents(x, u, k) == Contents(w, u, k)
  {
    UpdatedState(sb, w, u, owner, {}, lag, i);
    InodeArea(sb, i);
    var x := w[IBlock(i) := WithInode(w[IBlock(i)], i, u[i])];
    forall sl | Ref(w, u, sl) != 0 ensures Ref(x, u, sl) == Ref(w, u, sl) != IBlock(i) {
      SectorRef(sb, w, u, owner, lag, IBlock(i), x[IBlock(i)], sl);
    }
    hide FsState;
    SameContents(w, u, x, u, k);
  }

  lemma SectorRef(sb: Super, v: View, t: Inodes, owner: map<nat, Slot>, lag: set<nat>, s: nat, x: Block, sl: Slot)
    requires FsState(sb, v, t, owner, {}, lag) && s < sb.DataStart()
    ensures Ref(v, t, sl) != 0 ==> Ref(v, t, sl) != s
    ensures Ref(v[s := x], t, sl) == Ref(v, t, sl)
  {
    hide Synced, SuperBlock, Owned, GetU32, Used;
    if sl.Indirect? && sl.inum in t {
      assert Ref(v, t, Table(sl.inum)) == t[sl.inum].Addr(NDIRECT);
    }
  }

  /** The state between two iterations of the copy loop. */
  ghost predicate LoopState(sb: Super, v0: View, t0: Inodes, owner0: map<nat, Slot>, logged0: set<nat>,
                            v: View, t: Inodes, owner: map<nat, Slot>, lag: set<nat>, logged: set<nat>,
                            i: nat, off: nat, src: seq<byte>, tot: nat, hi: nat) {
    && off / BSIZE <= hi <= off / BSIZE + Blocks(off, |src|) && (tot < |src| ==> hi == (off + tot) / BSIZE)
    && Progress(v0, t0, owner0, v, t, owner, i, off, src, tot)
    && Within(sb, logged0, logged, v, t, i, off / BSIZE, hi)
    && lag <= {i} && (off + tot <= t0[i].size ==> t == t0 && lag == {})
    && Budget(sb, {}, logged0, Blocks(off, |src|) + 2)
  }

  lemma LoopStart(sb: Super, v: View, t: Inodes, owner: map<nat, Slot>, logged: set<nat>, i: nat, off: nat,
                  src: seq<byte>)
    requires FsState(sb, v, t, owner, {}, {}) && i in t && NoHoles(v, t, i) && off <= t[i].size
    requires Budget(sb, {}, logged, Blocks(off, |src|) + 2)
    ensures LoopState(sb, v, t, owner, logged, v, t, owner, {}, logged, i, off, src, 0, off / BSIZE)
  {
    StartState(sb, v, t, owner, i, off, src);
    WithinStart(sb, logged, v, t, i, off / BSIZE);
  }

  lemma LoopBudget(sb: Super, v0: View, t0: Inodes, owner0: map<nat, Slot>, logged0: set<nat>,
                   v: View, t: Inodes, owner: map<nat, Slot>, lag: set<nat>, logged: set<nat>,
                   i: nat, off: nat, src: seq<byte>, tot: nat, hi: nat)
    requires LoopState(sb, v0, t0, owner0, logged0, v, t, owner, lag, logged, i, off, src, tot, hi)
    ensures Progress(v0, t0, owner0, v, t, owner, i, off, src, tot)
    ensures Budget(sb, {}, logged, if tot < |src| then 2 else 1)
    ensures Spent(sb, logged0, logged, Blocks(off, |src|) + 1)
    ensures lag <= {i} && i in t0 && (off + tot <= t0[i].size ==> t == t0 && lag == {})
  {
    hide Progress, Within, Budget, Pinned;
    var n := Blocks(off, |src|);
    if tot < |src| {
      BlocksLeft(off, |src|, tot);
      WithinBudget(sb, logged0, logged, v, t, i, off / BSIZE, hi, n - 1, 2);
    } else {
      WithinBudget(sb, logged0, logged, v, t, i, off / BSIZE, hi, n, 1);
    }
    ProgressIn(v0, t0, owner0, v, t, owner, i, off, src, tot);
  }

  lemma ProgressIn(v0: View, t0: Inodes, owner0: map<nat, Slot>, v: View, t: Inodes, owner: map<nat, Slot>,
                   i: nat, off: nat, src: seq<byte>, tot: nat)
    requires Progress(v0, t0, owner0, v, t, owner, i, off, src, tot)
    ensures i in t0 && Untouched(v0, t0, v, t, i, off, tot)
  {
  }

  lemma LoopStep(sb: Super, v0: View, t0: Inodes, owner0: map<nat, Slot>, logged0: set<nat>,
                 v: View, t: Inodes, owner: map<nat, Slot>, lag: set<nat>, logged: set<nat>,
                 w: View, u: Inodes, owner': map<nat, Slot>, lag': set<nat>, logged': set<nat>,
                 i: nat, off: nat, src: seq<byte>, tot: nat, hi: nat)
    requires tot < |src| && LoopState(sb, v0, t0, owner0, logged0, v, t, owner, lag, logged, i, off, src, tot, hi)
    requires Progress(v0, t0, owner0, w, u, owner', i, off, src, tot + Piece(off + tot, |src| - tot))
    requires Touching(sb, v, t, lag, logged, w, u, lag', logged', i, (off + tot) / BSIZE)
    ensures LoopState(sb, v0, t0, owner0, logged0, w, u, owner', lag', logged', i, off, src,
                      tot + Piece(off + tot, |src| - tot), hi + 1)
  {
    hide Progress, Within, Budget, Touching;
    BlocksLeft(off, |src|, tot);
    WithinStep(sb, logged0, v, t, lag, logged, w, u, lag', logged', i, off / BSIZE, hi);
    ProgressIn(v0, t0, owner0, v, t, owner, i, off, src, tot);
    if off + tot < t0[i].size {
      StillThere(v0, t0, owner0, v, t, i, off, src, tot);
    }
  }

  /** The number of blocks that bytes `off .. off + n` lie in. */
  function Blocks(off: nat, n: nat): (k: nat) {
    if n == 0 then 0 else (off + n - 1) / BSIZE - off / BSIZE + 1
  }

  lemma BlocksLeft(off: nat, n: nat, tot: nat)
    requires tot < n
    ensures off / BSIZE <= (off + tot) / BSIZE < off / BSIZE + Blocks(off, n)
    ensures var m := Piece(off + tot, n - tot); tot + m < n ==> (off + tot + m) / BSIZE == (off + tot) / BSIZE + 1
  {
    assert (off + tot) / BSIZE <= (off + n - 1) / BSIZE;
  }

  ghost function Touched(v: View, t: Inodes, i: nat, lo: nat, hi: nat): (s: set<nat>)
    decreases hi
  {
    if hi <= lo then {} else Touched(v, t, i, lo, hi - 1) + {Ref(v, t, BlockSlot(i, hi - 1)) as nat}
  }

  lemma {:induction false} TouchedSize(v: View, t: Inodes, i: nat, lo: nat, hi: nat)
    requires lo <= hi
    ensures |Touched(v, t, i, lo, hi)| <= hi - lo
    decreases hi
  {
    if lo < hi {
      TouchedSize(v, t, i, lo, hi - 1);
    }
  }

  lemma {:induction false} TouchedSame(v: View, t: Inodes, w: View, u: Inodes, i: nat, lo: nat, hi: nat)
    requires forall bn: nat :: lo <= bn < hi ==> Ref(v, t, BlockSlot(i, bn)) == Ref(w, u, BlockSlot(i, bn))
    ensures Touched(v, t, i, lo, hi) == Touched(w, u, i, lo, hi)
    decreases hi
  {
    if lo < hi {
      TouchedSame(v, t, w, u, i, lo, hi - 1);
    }
  }

  /** A write logs bitmap blocks, the table block and the data blocks it has reached, no more. */
  ghost predicate Within(sb: Super, logged0: set<nat>, logged: set<nat>, v: View, t: Inodes, i: nat, lo: nat, hi: nat) {
    && i in t && (forall bn: nat :: lo <= bn < hi ==> Ref(v, t, BlockSlot(i, bn)) != 0)
    && logged <= logged0 + BitmapSectors(sb) + TableOf(t[i]) + Touched(v, t, i, lo, hi)
  }

  lemma WithinStart(sb: Super, logged: set<nat>, v: View, t: Inodes, i: nat, lo: nat)
    requires i in t
    ensures Within(sb, logged, logged, v, t, i, lo, lo)
  {
  }

  lemma WithinStep(sb: Super, logged0: set<nat>, v: View, t: Inodes, lag: set<nat>, logged: set<nat>,
                   w: View, u: Inodes, lag': set<nat>, logged': set<nat>, i: nat, lo: nat, hi: nat)
    requires Within(sb, logged0, logged, v, t, i, lo, hi) && lo <= hi
    requires Touching(sb, v, t, lag, logged, w, u, lag', logged', i, hi)
    ensures Within(sb, logged0, logged', w, u, i, lo, hi + 1)
    ensures lag' <= lag + {i} && (Ref(v, t, BlockSlot(i, hi)) != 0 ==> u == t && lag' == lag)
  {
    TouchedSame(v, t, w, u, i, lo, hi);
    assert Ref(v, t, Table(i)) == t[i].Addr(NDIRECT) && Ref(w, u, Table(i)) == u[i].Addr(NDIRECT);
  }

  lemma WithinBudget(sb: Super, logged0: set<nat>, logged: set<nat>, v: View, t: Inodes, i: nat, lo: nat, hi: nat,
                     d: nat, k: nat)
    requires Within(sb, logged0, logged, v, t, i, lo, hi) && lo <= hi <= lo + d
    requires Budget(sb, {}, logged0, d + 1 + k)
    ensures Budget(sb, {}, logged, k) && Spent(sb, logged0, logged, d + 1)
  {
    TouchedSize(v, t, i, lo, hi);
    TableOne(t[i]);
    var touched, table := Touched(v, t, i, lo, hi), TableOf(t[i]);
    var all := Pinned(sb, {}, logged0) + table + touched;
    assert |all| <= |Pinned(sb, {}, logged0)| + |table| + |touched|;
    SubsetSize(Pinned(sb, {}, logged), all);
  }

  lemma StartState(sb: Super, v: View, t: Inodes, owner: map<nat, Slot>, i: nat, off: nat, src: seq<byte>)
    requires FsState(sb, v, t, owner, {}, {}) && i in t && NoHoles(v, t, i)
    ensures Progress(v, t, owner, v, t, owner, i, off, src, 0)
  {
    assert forall b :: b in owner ==> b in v;
    ProgressStart(v, t, owner, i, off, src);
  }

  /** A byte below the old size still has its block. */
  lemma StillThere(v0: View, t0: Inodes, owner0: map<nat, Slot>, v: View, t: Inodes, i: nat, off: nat, src: seq<byte>,
                   tot: nat)
    requires i in t0 && off + tot < t0[i].size && Untouched(v0, t0, v, t, i, off, tot)
    ensures Ref(v, t, BlockSlot(i, (off + tot) / BSIZE)) != 0
  {
  }

  lemma TableOne(d: DInode)
    ensures |TableOf(d)| <= 1
  {
  }

  lemma TouchingData(sb: Super, v: View, t: Inodes, lag: set<nat>, logged: set<nat>,
                     w: View, u: Inodes, lag': set<nat>, logged': set<nat>, x: View, logged'': set<nat>, i: nat,
                     bn: nat)
    requires Touching(sb, v, t, lag, logged, w, u, lag', logged', i, bn)
    requires forall s :: Ref(x, u, s) == Ref(w, u, s)
    requires logged'' == logged' + {Ref(w, u, BlockSlot(i, bn)) as nat}
    ensures Touching(sb, v, t, lag, logged, x, u, lag', logged'', i, bn)
  {
  }

  /** `min(n - tot, BSIZE - off % BSIZE)`. */
  function Piece(q: nat, left: nat): (m: nat)
    ensures m <= left && m <= BSIZE - q % BSIZE && (left > 0 ==> m > 0)
  {
    if left < BSIZE - q % BSIZE then left else BSIZE - q % BSIZE
  }

  lemma StoredInode(sb: Super, v: View, t: Inodes, owner: map<nat, Slot>, floating: set<nat>, lag: set<nat>, i: nat)
    requires FsState(sb, v, t, owner, floating, lag) && i in t && i !in lag
    ensures IBlock(i) < sb.Start() && IBlock(i) in v && Ino(v, i) == t[i]
  {
    InodeArea(sb, i);
  }

  lemma UpdatedState(sb: Super, v: View, t: Inodes, owner: map<nat, Slot>, floating: set<nat>, lag: set<nat>, i: nat)
    requires FsState(sb, v, t, owner, floating, lag) && i in t
    ensures IBlock(i) in v && IBlock(i) < sb.Start() < TWO32
    ensures FsState(sb, v[IBlock(i) := WithInode(v[IBlock(i)], i, t[i])], t, owner, floating, lag - {i})
  {
    InodeArea(sb, i);
    var w := v[IBlock(i) := WithInode(v[IBlock(i)], i, t[i])];
    forall k | k in t ensures t[k].Addr(NDIRECT) != IBlock(i) {
      assert Ref(v, t, Table(k)) == t[k].Addr(NDIRECT);
    }
    OtherWrite(sb, v, t, owner, floating, IBlock(i), w[IBlock(i)]);
    forall k | k in t && k !in lag - {i} && IBlock(k) in w ensures Ino(w, k) == t[k] {
      InodeStored(v, i, t[i], k);
    }
  }

  lemma MappedProgress(sb: Super, v0: View, t0: Inodes, owner0: map<nat, Slot>,
                       v: View, t: Inodes, owner: map<nat, Slot>, lag: set<nat>, logged: set<nat>,
                       w: View, u: Inodes, owner': map<nat, Slot>, lag': set<nat>, logged': set<nat>,
                       i: nat, off: nat, src: seq<byte>, tot: nat, b: word)
    requires FsState(sb, v, t, owner, {}, lag) && FsState(sb, w, u, owner', {}, lag')
    requires Progress(v0, t0, owner0, v, t, owner, i, off, src, tot)
    requires Mapped(sb, v, t, owner, lag, logged, w, u, owner', lag', logged', i, BlockSlot(i, (off + tot) / BSIZE), b)
    ensures Progress(v0, t0, owner0, w, u, owner', i, off, src, tot)
    ensures b != 0 && b == Ref(w, u, BlockSlot(i, (off + tot) / BSIZE))
    ensures Touching(sb, v, t, lag, logged, w, u, lag', logged', i, (off + tot) / BSIZE)
    ensures i in u && logged' <= logged + BitmapSectors(sb) + TableOf(u[i]) + {b as nat}
  {
    hide Progress;
    ProgressGrown(v0, t0, owner0, v, t, owner, w, u, owner', i, off, src, tot);
    forall sl | Ref(v, t, sl) != 0 ensures Ref(w, u, sl) == Ref(v, t, sl) {
      GrownRef(v, t, owner, w, u, owner', i, sl);
    }
  }

  /** Overwriting a data block keeps the state and all references. */
  lemma StoredState(sb: Super, v: View, t: Inodes, owner: map<nat, Slot>, lag: set<nat>, sl: Slot, x: Block)
    requires FsState(sb, v, t, owner, {}, lag) && Ref(v, t, sl) != 0 && !sl.Table?
    ensures var b := Ref(v, t, sl);
            && b in v && sb.Data(b) && FsState(sb, v[b := x], t, owner, {}, lag)
            && (forall s :: Ref(v[b := x], t, s) == Ref(v, t, s))
  {
    var b := Ref(v, t, sl);
    assert owner[b] == sl;
    forall k | k in t ensures t[k].Addr(NDIRECT) != b {
      assert Ref(v, t, Table(k)) == t[k].Addr(NDIRECT);
    }
    OtherWrite(sb, v, t, owner, {}, b, x);
    DataWriteKept(sb, v, t, lag, b, x);
  }

  lemma StepState(sb: Super, v0: View, t0: Inodes, owner0: map<nat, Slot>, v: View, t: Inodes, owner: map<nat, Slot>,
                  lag: set<nat>, i: nat, off: nat, src: seq<byte>, tot: nat, m: nat, b: word)
    requires FsState(sb, v, t, owner, {}, lag) && b == Ref(v, t, BlockSlot(i, (off + tot) / BSIZE)) != 0
    requires Progress(v0, t0, owner0, v, t, owner, i, off, src, tot)
    requires tot + m <= |src| && 0 < m <= BSIZE - (off + tot) % BSIZE
    ensures b in v && b < sb.Start() && |Splice(v[b], (off + tot) % BSIZE, src[tot..tot + m])| == BSIZE
    ensures var w := v[b := Splice(v[b], (off + tot) % BSIZE, src[tot..tot + m])];
            && FsState(sb, w, t, owner, {}, lag)
            && Progress(v0, t0, owner0, w, t, owner, i, off, src, tot + m)
            && (forall s :: Ref(w, t, s) == Ref(v, t, s))
  {
    assert b in owner && b in v;
    var x := Splice(v[b], (off + tot) % BSIZE, src[tot..tot + m]);
    StoredState(sb, v, t, owner, lag, BlockSlot(i, (off + tot) / BSIZE), x);
    ProgressWrite(v0, t0, owner0, v, t, owner, i, off, src, tot, m);
  }

  /** One more data block may be held and logged. */
  lemma BudgetBlock(sb: Super, logged: set<nat>, logged': set<nat>, table: set<nat>, b: nat)
    requires Budget(sb, {}, logged, 2) && |table| <= 1 && logged' <= logged + BitmapSectors(sb) + table + {b}
    ensures |{} + logged'| < NBUF && |{b} + logged'| < NBUF && |logged'| < LOGSIZE && |logged'| < sb.nlog - 1
  {
    var all := Pinned(sb, {}, logged) + table + {b};
    assert |all| <= |Pinned(sb, {}, logged)| + |table| + 1;
    SubsetSize({b} + logged', all);
    SubsetSize({} + logged', all);
    SubsetSize(logged', all);
  }

  /** How one step of a write may change the inode and the set of logged sectors. */
  ghost predicate Touching(sb: Super, v: View, t: Inodes, lag: set<nat>, logged: set<nat>,
                           w: View, u: Inodes, lag': set<nat>, logged': set<nat>, i: nat, bn: nat) {
    && i in u && Ref(w, u, BlockSlot(i, bn)) != 0
    && logged' <= logged + BitmapSectors(sb) + TableOf(u[i]) + {Ref(w, u, BlockSlot(i, bn)) as nat}
    && lag <= lag' <= lag + {i}
    && (Ref(v, t, BlockSlot(i, bn)) != 0 ==> u == t && lag' == lag)
    && (forall sl :: Ref(v, t, sl) != 0 ==> Ref(w, u, sl) == Ref(v, t, sl))
  }

  ghost function TableOf(d: DInode): (s: set<nat>) {
    if d.Addr(NDIRECT) == 0 then {} else {d.Addr(NDIRECT) as nat}
  }

  /** What bmap promises: slot `sl` of inode `i` holds block `b`, and nothing else has changed but by growth. */
  ghost predicate Mapped(sb: Super, v: View, t: Inodes, owner: map<nat, Slot>, lag: set<nat>, logged: set<nat>,
                         w: View, u: Inodes, owner': map<nat, Slot>, lag': set<nat>, logged': set<nat>,
                         i: nat, sl: Slot, b: word) {
    && b != 0 && Ref(w, u, sl) == b && i in u
    && Grown(v, t, owner, w, u, owner', i)
    && lag <= lag' <= lag + {i}
    && logged' <= logged + BitmapSectors(sb) + TableOf(u[i]) + {b as nat}
    && (Ref(v, t, sl) != 0 ==> w == v && u == t && owner' == owner && lag' == lag && logged' == logged)
    && (Ref(v, t, sl) == 0 ==> b in w && w[b] == Zeros())
  }

  /** bmap of a block that is there changes nothing. */
  lemma MappedThere(sb: Super, v: View, t: Inodes, owner: map<nat, Slot>, lag: set<nat>, logged: set<nat>,
                    w: View, u: Inodes, owner': map<nat, Slot>, lag': set<nat>, logged': set<nat>,
                    i: nat, sl: Slot, b: word)
    requires Mapped(sb, v, t, owner, lag, logged, w, u, owner', lag', logged', i, sl, b) && Ref(v, t, sl) != 0
    ensures b == Ref(v, t, sl) && w == v && u == t && owner' == owner && lag' == lag && logged' == logged
  {
    hide Ref, Grown, BitmapSectors;
  }

  /** Inode `i`, which had no table block, has got the empty one `a`. */
  ghost predicate NewTable(v: View, t: Inodes, owner: map<nat, Slot>, lag: set<nat>,
                           v1: View, t1: Inodes, owner1: map<nat, Slot>, lag1: set<nat>, i: nat, a: word) {
    && i in t && t[i].Ok() && t[i].Addr(NDIRECT) == 0 && i in t1 && t1[i].Addr(NDIRECT) == a
    && Grown(v, t, owner, v1, t1, owner1, i) && lag1 == lag + {i} && a in v1 && v1[a] == Zeros()
  }

  lemma MappedAfter(sb: Super, v: View, t: Inodes, owner: map<nat, Slot>, lag: set<nat>, logged: set<nat>,
                    v1: View, t1: Inodes, owner1: map<nat, Slot>, lag1: set<nat>, logged1: set<nat>,
                    v2: View, owner2: map<nat, Slot>, logged2: set<nat>, i: nat, j: nat, a: word, b: word)
    requires NewTable(v, t, owner, lag, v1, t1, owner1, lag1, i, a)
    requires logged1 <= logged + BitmapSectors(sb) + {a as nat}
    requires Mapped(sb, v1, t1, owner1, lag1, logged1, v2, t1, owner2, lag1, logged2, i, Indirect(i, j), b)
    ensures Mapped(sb, v, t, owner, lag, logged, v2, t1, owner2, lag1, logged2, i, Indirect(i, j), b)
  {
    GrownTwice(v, t, owner, v1, t1, owner1, v2, t1, owner2, i);
    ZeroTable(v1, a, j);
  }

  lemma NewTableEmpty(v: View, t: Inodes, owner: map<nat, Slot>, lag: set<nat>,
                      v1: View, t1: Inodes, owner1: map<nat, Slot>, lag1: set<nat>, i: nat, a: word, j: nat)
    requires NewTable(v, t, owner, lag, v1, t1, owner1, lag1, i, a)
    ensures Ref(v1, t1, Indirect(i, j)) == 0
  {
    ZeroTable(v1, a, j);
  }

  /** The budget after a table block has been allocated: it is pinned by the log already. */
  lemma BudgetTable(sb: Super, logged: set<nat>, logged': set<nat>, a: nat)
    requires Budget(sb, {}, logged, 2) && logged' <= logged + BitmapSectors(sb) + {a}
    ensures |{} + logged'| < NBUF && Budget(sb, {a}, logged', 1)
  {
    BudgetMore(sb, {}, logged, a, 1);
    BudgetSame(sb, {}, logged + {a}, {a}, logged', 1);
    BudgetRoom(sb, {a}, logged', 1);
    SubsetSize({} + logged', {a} + logged');
  }

  lemma BudgetAlloc(sb: Super, held: set<nat>, logged: set<nat>, b: nat)
    requires Budget(sb, held, logged, 1) && b < sb.size
    ensures Budget(sb, held, logged + {sb.BBlock(b), b}, 0)
  {
    BudgetMore(sb, held, logged, b, 0);
    BudgetSame(sb, held, logged + {b}, held, logged + {sb.BBlock(b), b}, 0);
  }

  lemma TableOwned(sb: Super, v: View, t: Inodes, owner: map<nat, Slot>, floating: set<nat>, lag: set<nat>, i: nat)
    requires FsState(sb, v, t, owner, floating, lag) && i in t && t[i].Addr(NDIRECT) != 0
    ensures var a := t[i].Addr(NDIRECT); a in owner && a in v && a < sb.Start() && owner[a] == Table(i)
  {
    assert Ref(v, t, Table(i)) == t[i].Addr(NDIRECT);
  }

  lemma GrownNot(sb: Super, v: View, t: Inodes, owner: map<nat, Slot>, floating: set<nat>, lag: set<nat>, i: nat)
    requires FsState(sb, v, t, owner, floating, lag)
    ensures Grown(v, t, owner, v, t, owner, i)
  {
    assert forall s :: s in owner ==> s in v;
  }

  lemma AllocatedTable(sb: Super, v: View, t: Inodes, owner: map<nat, Slot>, floating: set<nat>, lag: set<nat>, b: nat,
                       a: nat, j: nat)
    requires FsState(sb, v, t, owner, floating, lag) && sb.BBlock(b) in v && b < sb.size && b !in owner && a in owner
    ensures a in v && a in Allocated(sb, v, b) && Allocated(sb, v, b)[a] == v[a]
    ensures TableEntry(Allocated(sb, v, b), a, j) == TableEntry(v, a, j)
  {
    BitmapArea(sb, b);
  }

  lemma AllocatedContent(sb: Super, v: View, b: nat)
    requires sb.BBlock(b) in v
    ensures b in Allocated(sb, v, b) && Allocated(sb, v, b)[b] == Zeros()
  {
  }

  lemma WithAddrIs(t: Inodes, i: nat, k: nat, b: word)
    requires i in t && k < |t[i].addrs|
    ensures i in WithAddr(t, i, k, b) && WithAddr(t, i, k, b)[i] == t[i].(addrs := t[i].addrs[k := b])
  {
  }

  ghost predicate UsedBelow(sb: Super, v: View, n: nat) {
    forall c: nat :: c < n ==> Used(sb, v, c)
  }

  lemma NoneBelow(sb: Super, v: View)
    ensures UsedBelow(sb, v, 0)
  {
  }

  /** The inner loop of block_alloc looks at the bits of blocks `b`, `b + 1`, ... */
  lemma Scanned(sb: Super, v: View, b: nat, bi: nat, lim: nat)
    requires b % BPB == 0 && bi <= lim <= BPB && sb.BBlock(b) in v
    requires forall j :: 0 <= j < bi ==> Bit(v[sb.BBlock(b)][j / 8], j % 8)
    requires bi < lim ==> !Bit(v[sb.BBlock(b)][bi / 8], bi % 8)
    requires UsedBelow(sb, v, b)
    ensures UsedBelow(sb, v, b + bi)
    ensures bi < lim ==> !Used(sb, v, b + bi) && sb.BBlock(b + bi) == sb.BBlock(b)
  {
    forall c: nat | b <= c < b + bi ensures Used(sb, v, c) {
      FirstBits(b, c - b);
      assert Bit(v[sb.BBlock(b)][(c - b) / 8], (c - b) % 8);
    }
    if bi < lim {
      FirstBits(b, bi);
    }
  }

  lemma Opening(sb: Super, v: View, t: Inodes, owner: map<nat, Slot>, floating: set<nat>, lag: set<nat>, held: set<nat>)
    requires FsState(sb, v, t, owner, floating, lag) && forall s :: s in held ==> s in owner
    ensures sb.Ok() && 1 < sb.Start() && 1 !in held && SuperBlock(sb, v) && BitmapSectors(sb) !! held
  {
    forall b: nat | b < sb.size ensures sb.BBlock(b) !in held {
      BitmapArea(sb, b);
    }
  }

  lemma UnusedUnheld(sb: Super, v: View, t: Inodes, owner: map<nat, Slot>, floating: set<nat>, lag: set<nat>, b: nat)
    requires FsState(sb, v, t, owner, floating, lag) && b < sb.size && !Used(sb, v, b)
    ensures b !in owner && b != sb.BBlock(b) && b < TWO32
  {
    BitmapArea(sb, b);
  }

  lemma BitmapWord(sb: Super, b: nat)
    requires sb.Ok() && b < sb.size
    ensures 1 < sb.BBlock(b) < sb.Start() <= sb.size < TWO32
    ensures sb.BBlock(b) == b / BPB + sb.ninodes / IPB + 3
  {
    BitmapArea(sb, b);
  }

  lemma BudgetMarked(sb: Super, held: set<nat>, logged: set<nat>, bm: nat, k: nat)
    requires Budget(sb, held, logged, k) && bm in BitmapSectors(sb)
    ensures Budget(sb, held - {bm}, logged + {bm}, k)
  {
    BudgetSame(sb, held, logged, held - {bm}, logged + {bm}, k);
  }

  lemma BudgetBitmap(sb: Super, held: set<nat>, logged: set<nat>, bm: nat, k: nat)
    requires Budget(sb, held, logged, k) && bm in BitmapSectors(sb)
    ensures Budget(sb, held + {bm}, logged, k)
  {
    BudgetSame(sb, held, logged, held + {bm}, logged, k);
  }

  lemma BitmapSector(sb: Super, b: nat)
    ensures sb.BBlock(b) == b / BPB + sb.ninodes / IPB + 3
  {
  }

  lemma InBitmap(sb: Super, b: nat)
    requires b < sb.size
    ensures sb.BBlock(b) in BitmapSectors(sb)
  {
  }

  lemma BudgetLess(sb: Super, held: set<nat>, logged: set<nat>, k: nat)
    requires Budget(sb, held, logged, k)
    ensures forall j :: 0 <= j <= k ==> Budget(sb, held, logged, j)
  {
  }

  /** `off > ip->size || off + n < off`, or the end lies beyond the largest file. */
  predicate Refused(size: word, off: word, n: word) {
    off > size || (off + n) % TWO32 < off || (off + n) % TWO32 > MAXFILE * BSIZE
  }

  /** Without the 32-bit sums: the write begins past the end of the file, or ends past the largest file. */
  lemma RefusedExact(size: word, off: word, n: word)
    ensures Refused(size, off, n) <==> off > size || off + n > 71680
  {
  }
}
