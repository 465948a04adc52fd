/** The block and inode layers, kern/fs/block.c and kern/fs/inode.c, inside one transaction. */
module InodeLayer {
  import opened Bytes
  import opened Collections
  import opened BufCache
  import opened LogSpec
  import opened RedoLog
  import opened Layout
  import opened Ownership
  import opened FileSpec
  import opened InodeSpec
  import opened FreeSpace

  class Inode {
    const inum: nat
    var typ: nat
    var major: nat
    var minor: nat
    var nlink: nat
    var size: word
    var addrs: seq<word>

    constructor (inum: nat, d: DInode)
      ensures this.inum == inum && D() == d
    {
      this.inum := inum;
      typ, major, minor, nlink, size, addrs := d.typ, d.major, d.minor, d.nlink, d.size, d.addrs;
    }

    function D(): (d: DInode)
      reads this
    {
      DInode(typ, major, minor, nlink, size, addrs)
    }
  }

  class Fs {
    const log: Log
    const sb: Super
    ghost var t: Inodes
    ghost var owner: map<nat, Slot>
    ghost var floating: set<nat>
    ghost var lag: set<nat>

    constructor (log: Log, sb: Super, ghost t: Inodes, ghost owner: map<nat, Slot>)
      ensures this.log == log && this.sb == sb && this.t == t && this.owner == owner && floating == {} && lag == {}
    {
      this.log, this.sb := log, sb;
      this.t, this.owner, floating, lag := t, owner, {}, {};
    }

    ghost predicate Ready()
      reads this, log, log.cache
    {
      log.Valid() && log.area == Area(sb.Start(), sb.nlog)
    }

    ghost predicate Valid()
      reads this, log, log.cache
    {
      Ready() && FsState(sb, log.view, t, owner, floating, lag)
    }

    /** read_superblock. */
    method ReadSuper() returns (size: nat, ninodes: nat)
      requires Ready() && 1 < sb.Start() && SuperBlock(sb, log.view) && 1 !in log.held && log.Room()
      modifies log`held, log`ptr, log.cache
      ensures Ready() && log.held == old(log.held)
      ensures size == sb.size && ninodes == sb.ninodes
    {
      hide Log.Valid;
      var data := log.Read(1);
      size, ninodes := GetU32(data, 0), GetU32(data, 8);
      log.Release(1);
    }

    /** bufcache_read, change the bytes to `data`, log_write, bufcache_release. */
    method Update(s: word, data: Block)
      requires log.trans && Ready() && s < sb.Start() && s !in log.held && Budget(sb, log.held, log.logged, 1)
      modifies log`held, log`ptr, log`n, log`sector, log`logged, log`view, log.cache
      ensures Ready() && log.held == old(log.held) && log.logged == old(log.logged) + {s}
      ensures log.view == old(log.view)[s := data]
    {
      hide Log.Valid, Budget;
      BudgetRoom(sb, log.held, log.logged, 1);
      BudgetMore(sb, log.held, log.logged, s, 0);
      var _ := log.Read(s);
      BudgetRoom(sb, log.held, log.logged, 0);
      log.LogWrite(s, data);
      log.Release(s);
    }

    /** block_zero. */
    method BlockZero(b: word)
      requires log.trans && Ready() && b < sb.Start() && b !in log.held && Budget(sb, log.held, log.logged, 1)
      modifies log`held, log`ptr, log`n, log`sector, log`logged, log`view, log.cache
      ensures Ready() && log.held == old(log.held) && log.logged == old(log.logged) + {b}
      ensures log.view == old(log.view)[b := Zeros()]
    {
      Update(b, Zeros());
    }

    /** The held bitmap sector of `b` gets its bit set or cleared, is logged and released. */
    method MarkBlock(bm: word, b: word, data: Block, on: bool)
      requires log.trans && Ready() && b < sb.size && bm == sb.BBlock(b) && bm in log.view
      requires bm in log.held && data == log.view[bm] && Budget(sb, log.held, log.logged, 0)
      modifies log`held, log`ptr, log`n, log`sector, log`logged, log`view, log.cache
      ensures Ready() && log.view == MarkedView(sb, old(log.view), b, on)
      ensures log.held == old(log.held) - {bm} && log.logged == old(log.logged) + {bm as nat}
    {
      hide Log.Valid, Budget;
      BudgetRoom(sb, log.held, log.logged, 0);
      log.LogWrite(bm, Marked(data, b % BPB, on));
      log.Release(bm);
    }

    /** The free bit that block_alloc found is set, and the block cleared. */
    method TakeBlock(bm: word, b: word, data: Block)
      requires log.trans && Valid() && b < sb.size && !Used(sb, log.view, b) && bm == sb.BBlock(b) && bm in log.view
      requires bm in log.held && data == log.view[bm] && b !in log.held
      requires Budget(sb, log.held, log.logged, 1)
      modifies this`floating, log`held, log`ptr, log`n, log`sector, log`logged, log`view, log.cache
      ensures Valid() && floating == old(floating) + {b as nat} && sb.Data(b) && b !in owner
      ensures log.held == old(log.held) - {bm} && log.logged == old(log.logged) + {bm as nat, b as nat}
      ensures log.view == Allocated(sb, old(log.view), b)
    {
      hide Log.Valid, FsState, Used, Budget, MarkedView, Super.BBlock, Super.DataStart, Super.BitmapStart, Pinned;
      hide BitmapSectors, Zeros, SuperBlock, Super.Ok;
      AllocatedState(sb, log.view, t, owner, floating, lag, b);
      InBitmap(sb, b);
      BudgetLess(sb, log.held, log.logged, 1);
      BudgetMarked(sb, log.held, log.logged, bm, 1);
      MarkBlock(bm, b, data, true);
      BlockZero(b);
      floating := floating + {b as nat};
    }

    /** No held sector is the super block, a bitmap block or a free block. */
    ghost predicate HoldsOwned()
      reads this, log
    {
      forall s :: s in log.held ==> s in owner
    }

    /**
      block_alloc: the lowest free block, marked used and cleared.  None stands for
      the "out of blocks" panic.
     */
    method BlockAlloc() returns (r: Option<word>)
      requires log.trans && Valid() && HoldsOwned() && Budget(sb, log.held, log.logged, 1)
      modifies this`floating, log`held, log`ptr, log`n, log`sector, log`logged, log`view, log.cache
      ensures Valid() && log.held == old(log.held)
      ensures r.None? ==> UsedBelow(sb, log.view, sb.size)
      ensures r.None? ==> log.view == old(log.view) && floating == old(floating) && log.logged == old(log.logged)
      ensures r.Some? ==>
                && sb.Data(r.value) && r.value !in owner && sb.BBlock(r.value) in old(log.view)
                && !Used(sb, old(log.view), r.value)
                && UsedBelow(sb, old(log.view), r.value)
                && floating == old(floating) + {r.value as nat}
                && log.view == Allocated(sb, old(log.view), r.value)
                && log.logged == old(log.logged) + {sb.BBlock(r.value), r.value as nat}
    {
      hide Log.Valid, FsState, Used, Budget, Allocated, UsedBelow, Super.BBlock, Super.DataStart, Super.Data;
      hide Super.BitmapStart, Super.Ok;
      Opening(sb, log.view, t, owner, floating, lag, log.held);
      BudgetRoom(sb, log.held, log.logged, 1);
      var size, ninodes := ReadSuper();
      NoneBelow(sb, log.view);
      var b := 0;
      while b < size
        invariant b % BPB == 0
        invariant Valid() && log.held == old(log.held) && log.logged == old(log.logged) && log.view == old(log.view)
        invariant floating == old(floating)
        invariant UsedBelow(sb, log.view, if b < size then b else size)
      {
        BitmapSector(sb, b);
        r := AllocIn(b, size, b / BPB + ninodes / IPB + 3);
        if r.Some? {
          return;
        }
        b := b + BPB;
      }
      return None;
    }

    /** One bitmap block: the body of the outer loop of block_alloc. */
    method AllocIn(b: nat, size: nat, bm: nat) returns (r: Option<word>)
      requires log.trans && Valid() && HoldsOwned() && Budget(sb, log.held, log.logged, 1)
      requires b % BPB == 0 && b < size == sb.size && bm == sb.BBlock(b)
      requires UsedBelow(sb, log.view, b)
      modifies this`floating, log`held, log`ptr, log`n, log`sector, log`logged, log`view, log.cache
      ensures Valid() && log.held == old(log.held)
      ensures r.None? ==> UsedBelow(sb, log.view, if b + BPB < size then b + BPB else size)
      ensures r.None? ==> log.view == old(log.view) && floating == old(floating) && log.logged == old(log.logged)
      ensures r.Some? ==>
                && sb.Data(r.value) && r.value !in owner && sb.BBlock(r.value) in old(log.view)
                && !Used(sb, old(log.view), r.value)
                && UsedBelow(sb, old(log.view), r.value)
                && floating == old(floating) + {r.value as nat}
                && log.view == Allocated(sb, old(log.view), r.value)
                && log.logged == old(log.logged) + {sb.BBlock(r.value), r.value as nat}
    {
      hide Log.Valid, FsState, Used, Budget, Allocated, UsedBelow, Super.BBlock, Super.DataStart, Super.Data;
      hide Super.BitmapStart, Bit, BitmapSectors;
      var lim := if size - b < BPB then size - b else BPB;
      var bi, data := FindIn(b, lim, bm);
      if bi < lim {
        UnusedUnheld(sb, log.view, t, owner, floating, lag, b + bi);
        TakeBlock(bm, b + bi, data);
        return Some(b + bi);
      }
      log.Release(bm);
      return None;
    }

    /** Read the bitmap block of `b` and look for a clear bit; the block stays held. */
    method FindIn(b: nat, lim: nat, bm: nat) returns (bi: nat, data: Block)
      requires Valid() && HoldsOwned() && Budget(sb, log.held, log.logged, 1)
      requires b % BPB == 0 && b + lim <= sb.size && 0 < lim <= BPB && bm == sb.BBlock(b) && UsedBelow(sb, log.view, b)
      modifies log`held, log`ptr, log.cache
      ensures Valid() && bm !in old(log.held) && log.held == old(log.held) + {bm} && bm < TWO32
      ensures bm in log.view && data == log.view[bm] && Budget(sb, log.held, log.logged, 1)
      ensures bi <= lim && UsedBelow(sb, log.view, b + bi)
      ensures bi < lim ==> !Used(sb, log.view, b + bi) && sb.BBlock(b + bi) == bm
    {
      hide Log.Valid, FsState, Used, Budget, UsedBelow, Super.BBlock, Super.DataStart, Super.Data, Super.BitmapStart;
      hide Bit, BitmapSectors;
      Opening(sb, log.view, t, owner, floating, lag, log.held);
      BudgetRoom(sb, log.held, log.logged, 1);
      InBitmap(sb, b);
      BitmapWord(sb, b);
      BudgetBitmap(sb, log.held, log.logged, bm, 1);
      data := log.Read(bm);
      bi := ScanBits(data, lim);
      Scanned(sb, log.view, b, bi, lim);
    }

    /** The in-memory inode is the file system's current knowledge of it. */
    ghost predicate Locked(ip: Inode)
      reads this, ip
    {
      ip.inum in t && t[ip.inum] == ip.D() && ip.D().Ok()
    }

    /** inode_lock for an inode that is not in memory; the source stops at one without a type. */
    method InodeLock(inum: nat) returns (ip: Inode)
      requires Valid() && inum in t && inum !in lag && t[inum].typ != 0 && log.held == {} && log.Room()
      modifies log`held, log`ptr, log.cache
      ensures fresh(ip) && ip.inum == inum && Valid() && Locked(ip) && log.held == {}
      ensures log.cache.trace == old(log.cache.trace)
      ensures inum / 8 + 2 in log.view
      ensures StructInode(log.view[inum / 8 + 2], 64 * (inum % 8), ip.typ, ip.major, ip.minor, ip.nlink, ip.size,
                          ip.addrs)
    {
      hide Log.Valid, FsState, IBlock, StructInode, FromWords;
      StoredInode(sb, log.view, t, owner, floating, lag, inum);
      InodeBytes(log.view, inum);
      var data := log.Read(IBlock(inum));
      var d := FromWords(GetWords(data, 64 * (inum % IPB), INODE_WORDS));
      log.Release(IBlock(inum));
      ip := new Inode(inum, d);
    }

    /** `ip->addrs[k] = block_alloc(ip->dev)`. */
    method AllocAddr(ip: Inode, k: nat) returns (r: Option<word>)
      requires log.trans && Valid() && Locked(ip) && k <= NDIRECT && ip.addrs[k] == 0
      requires log.held == {} && floating == {} && Budget(sb, log.held, log.logged, 1)
      modifies ip`addrs, this`t, this`owner, this`floating, this`lag
      modifies log`held, log`ptr, log`n, log`sector, log`logged, log`view, log.cache
      ensures Valid() && Locked(ip) && log.held == {} && (r.Some? ==> floating == {})
      ensures r.None? ==> UsedBelow(sb, log.view, sb.size) && Spare(sb, old(owner)) == 0
      ensures r.Some? ==> Taken(sb, old(owner), owner, r.value, AddrSlot(ip.inum, k))
      ensures r.Some? ==>
                && r.value != 0 && ip.addrs == old(ip.addrs)[k := r.value]
                && r.value in log.view && log.view[r.value] == Zeros()
                && Ref(log.view, t, AddrSlot(ip.inum, k)) == r.value
                && Grown(old(log.view), old(t), old(owner), log.view, t, owner, ip.inum)
                && lag == old(lag) + {ip.inum}
                && log.logged <= old(log.logged) + BitmapSectors(sb) + {r.value as nat}
    {
      hide Log.Valid, FsState, Used, Budget, Allocated, Grown, WithAddr, UsedBelow, Spare, DataBlocks;
      r := BlockAlloc();
      if r.None? {
        FullIsSpareless(sb, log.view, t, owner, lag);
      } else {
        var b := r.value;
        DataBlock(sb, b);
        AllocatedGrown(sb, old(log.view), t, owner, old(floating), lag, b, ip.inum);
        AllocatedContent(sb, old(log.view), b);
        AttachedState(sb, log.view, t, owner, floating, lag, ip.inum, k, b);
        GrownTwice(old(log.view), t, owner, log.view, t, owner,
                   log.view, WithAddr(t, ip.inum, k, b), owner[b := AddrSlot(ip.inum, k)], ip.inum);
        InBitmap(sb, b);
        WithAddrIs(t, ip.inum, k, b);
        ip.addrs := ip.addrs[k := b];
        t := WithAddr(t, ip.inum, k, b);
        owner := owner[b := AddrSlot(ip.inum, k)];
        floating := floating - {b};
        lag := lag + {ip.inum};
      }
    }

    /** `a[bn] = addr = block_alloc(ip->dev); log_write(bp)`, with the table block held. */
    method AllocEntry(ip: Inode, a: word, j: nat, data: Block) returns (r: Option<word>)
      requires log.trans && Valid() && Locked(ip) && j < NINDIRECT && floating == {}
      requires a == ip.addrs[NDIRECT] != 0 && log.held == {a as nat} && a in log.view && data == log.view[a]
      requires Ref(log.view, t, Indirect(ip.inum, j)) == 0
      requires Budget(sb, log.held, log.logged, 1)
      modifies this`owner, this`floating
      modifies log`held, log`ptr, log`n, log`sector, log`logged, log`view, log.cache
      ensures Valid() && log.held == {a as nat}
      ensures r.None? ==> UsedBelow(sb, log.view, sb.size) && Spare(sb, old(owner)) == 0
      ensures r.Some? ==> Taken(sb, old(owner), owner, r.value, Indirect(ip.inum, j))
      ensures r.Some? ==>
                && floating == {} && r.value != 0 && Ref(log.view, t, Indirect(ip.inum, j)) == r.value
                && Grown(old(log.view), t, old(owner), log.view, t, owner, ip.inum)
                && log.logged <= old(log.logged) + BitmapSectors(sb) + {a as nat, r.value as nat}
                && r.value in log.view && log.view[r.value] == Zeros()
    {
      hide Log.Valid, FsState, Used, Budget, Allocated, Grown, UsedBelow, Spare, DataBlocks;
      TableOwned(sb, log.view, t, owner, floating, lag, ip.inum);
      r := BlockAlloc();
      if r.None? {
        FullIsSpareless(sb, log.view, t, owner, lag);
      } else {
        DataBlock(sb, r.value);
        InBitmap(sb, r.value);
        BudgetAlloc(sb, log.held, old(log.logged), r.value);
        BudgetRoom(sb, log.held, log.logged, 0);
        StoreEntry(ip, a, j, data, r.value, old(log.view), old(owner));
      }
    }

    /** `a[bn] = addr; log_write(bp)`. */
    method StoreEntry(ip: Inode, a: word, j: nat, data: Block, b: word, ghost v: View, ghost own: map<nat, Slot>)
      requires log.trans && Valid() && Locked(ip) && j < NINDIRECT && floating == {b as nat} && own == owner
      requires a == ip.addrs[NDIRECT] != 0 && log.held == {a as nat} && a in v && data == v[a] && a in owner
      requires FsState(sb, v, t, owner, {}, lag) && Ref(v, t, Indirect(ip.inum, j)) == 0
      requires b < sb.size && b !in owner && sb.BBlock(b) in v && log.view == Allocated(sb, v, b)
      requires |log.logged| < LOGSIZE && |log.logged| < sb.nlog - 1 && log.Room()
      modifies this`owner, this`floating
      modifies log`held, log`ptr, log`n, log`sector, log`logged, log`view, log.cache
      ensures Valid() && floating == {} && log.held == {a as nat} && owner == old(owner)[b := Indirect(ip.inum, j)]
      ensures b != 0 && Ref(log.view, t, Indirect(ip.inum, j)) == b
      ensures Grown(v, t, own, log.view, t, owner, ip.inum)
      ensures log.logged == old(log.logged) + {a as nat}
      ensures b in log.view && log.view[b] == Zeros()
    {
      hide Log.Valid, FsState, Used, Budget, Grown;
      AllocatedGrown(sb, v, t, owner, {}, lag, b, ip.inum);
      AllocatedContent(sb, v, b);
      AllocatedTable(sb, v, t, owner, {}, lag, b, a, j);
      hide Allocated;
      AttachedIndirectState(sb, log.view, t, owner, floating, lag, ip.inum, j, b);
      ghost var w := log.view[a := PutU32(data, 4 * j, b)];
      GrownTwice(v, t, owner, log.view, t, owner, w, t, owner[b := Indirect(ip.inum, j)], ip.inum);
      log.LogWrite(a, PutU32(data, 4 * j, b));
      owner := owner[b := Indirect(ip.inum, j)];
      floating := floating - {b};
    }

    /** The part of bmap behind the table block. */
    method MapIndirect(ip: Inode, j: nat) returns (r: Option<word>)
      requires Valid() && Locked(ip) && j < NINDIRECT && ip.addrs[NDIRECT] != 0
      requires log.held == {} && floating == {} && log.Room()
      requires Ref(log.view, t, Indirect(ip.inum, j)) == 0 ==>
                log.trans && Budget(sb, {ip.addrs[NDIRECT] as nat}, log.logged, 1)
      modifies this`owner, this`floating
      modifies log`held, log`ptr, log`n, log`sector, log`logged, log`view, log.cache
      ensures log.Valid()
      ensures r.Some? ==>
                && Valid() && log.held == {} && floating == {}
                && Mapped(sb, old(log.view), t, old(owner), lag, old(log.logged),
                          log.view, t, owner, lag, log.logged, ip.inum, Indirect(ip.inum, j), r.value)
      ensures Ref(old(log.view), t, Indirect(ip.inum, j)) != 0 ==> r.Some?
      ensures r.Some? ==> KeepsBalance(sb, old(owner), owner, ip.inum, NDIRECT + j, NDIRECT + j + 1)
      ensures r.None? ==> UsedBelow(sb, log.view, sb.size) && Short(sb, old(owner), ip.inum, NDIRECT + j,
                                                                    NDIRECT + j + 1)
    {
      hide Log.Valid, FsState, Used, Budget, Allocated, Grown, UsedBelow, Spare, DataBlocks, KeepsBalance, Short, Taken;
      hide GetU32;
      TableOwned(sb, log.view, t, owner, floating, lag, ip.inum);
      GrownNot(sb, log.view, t, owner, floating, lag, ip.inum);
      var a := ip.addrs[NDIRECT];
      var data := log.Read(a);
      var addr := GetU32(data, 4 * j);
      assert addr == Ref(log.view, t, Indirect(ip.inum, j));
      if addr != 0 {
        BalanceNow(sb, owner, ip.inum, NDIRECT + j, NDIRECT + j + 1);
        r := Some(addr);
      } else {
        r := AllocEntry(ip, a, j, data);
        BlockOutcome(sb, old(log.view), t, old(owner), lag, ip.inum, NDIRECT + j, owner,
                     if r.Some? then r.value else 0);
      }
      log.Release(a);
    }

    /** The part of bmap for the first NDIRECT blocks. */
    method MapDirect(ip: Inode, bn: nat) returns (r: Option<word>)
      requires Valid() && Locked(ip) && bn < NDIRECT && log.held == {} && floating == {}
      requires Ref(log.view, t, Direct(ip.inum, bn)) == 0 ==> log.trans && Budget(sb, log.held, log.logged, 1)
      modifies ip`addrs, this`t, this`owner, this`floating, this`lag
      modifies log`held, log`ptr, log`n, log`sector, log`logged, log`view, log.cache
      ensures log.Valid()
      ensures r.Some? ==>
                && Valid() && Locked(ip) && log.held == {} && floating == {}
                && Mapped(sb, old(log.view), old(t), old(owner), old(lag), old(log.logged),
                          log.view, t, owner, lag, log.logged, ip.inum, Direct(ip.inum, bn), r.value)
      ensures Ref(old(log.view), old(t), Direct(ip.inum, bn)) != 0 ==> r.Some?
      ensures r.Some? ==> KeepsBalance(sb, old(owner), owner, ip.inum, bn, bn + 1)
      ensures r.None? ==> UsedBelow(sb, log.view, sb.size) && Short(sb, old(owner), ip.inum, bn, bn + 1)
    {
      hide Log.Valid, FsState, Used, Budget, Allocated, Grown, UsedBelow, Spare, DataBlocks, KeepsBalance, Short, Taken;
      GrownNot(sb, log.view, t, owner, floating, lag, ip.inum);
      if ip.addrs[bn] != 0 {
        BalanceNow(sb, owner, ip.inum, bn, bn + 1);
        return Some(ip.addrs[bn]);
      }
      r := AllocAddr(ip, bn);
      BlockOutcome(sb, old(log.view), old(t), old(owner), old(lag), ip.inum, bn, owner, if r.Some? then r.value else 0);
    }

    /**
      bmap: the disk block of block `bn` of the file, allocated if there was none.
      None stands for the "out of blocks" panic.
     */
    method Bmap(ip: Inode, bn: nat) returns (r: Option<word>)
      requires Valid() && Locked(ip) && bn < MAXFILE && log.held == {} && floating == {} && log.Room()
      requires Ref(log.view, t, BlockSlot(ip.inum, bn)) == 0 ==> log.trans && Budget(sb, log.held, log.logged, 2)
      modifies ip`addrs, this`t, this`owner, this`floating, this`lag
      modifies log`held, log`ptr, log`n, log`sector, log`logged, log`view, log.cache
      ensures log.Valid()
      ensures r.Some? ==>
                && Valid() && Locked(ip) && log.held == {} && floating == {}
                && Mapped(sb, old(log.view), old(t), old(owner), old(lag), old(log.logged),
                          log.view, t, owner, lag, log.logged, ip.inum, BlockSlot(ip.inum, bn), r.value)
      ensures Ref(old(log.view), old(t), BlockSlot(ip.inum, bn)) != 0 ==> r.Some?
      ensures r.Some? ==> KeepsBalance(sb, old(owner), owner, ip.inum, bn, bn + 1)
      ensures r.None? ==> UsedBelow(sb, log.view, sb.size) && Short(sb, old(owner), ip.inum, bn, bn + 1)
    {
      hide Log.Valid, FsState, Used, Budget, Allocated, Grown, Mapped, UsedBelow, KeepsBalance, Short;
      if bn < NDIRECT {
        if Ref(log.view, t, Direct(ip.inum, bn)) == 0 {
          BudgetLess(sb, log.held, log.logged, 2);
        }
        r := MapDirect(ip, bn);
      } else if ip.addrs[NDIRECT] != 0 {
        if Ref(log.view, t, Indirect(ip.inum, bn - NDIRECT)) == 0 {
          BudgetMore(sb, log.held, log.logged, ip.addrs[NDIRECT], 1);
          assert log.held + {ip.addrs[NDIRECT] as nat} == {ip.addrs[NDIRECT] as nat};
        }
        r := MapIndirect(ip, bn - NDIRECT);
      } else {
        r := MapFirstIndirect(ip, bn - NDIRECT);
      }
    }

    /** The same when the file has no table block yet. */
    method MapFirstIndirect(ip: Inode, j: nat) returns (r: Option<word>)
      requires log.trans && Valid() && Locked(ip) && j < NINDIRECT && ip.addrs[NDIRECT] == 0
      requires log.held == {} && floating == {} && Budget(sb, log.held, log.logged, 2)
      modifies ip`addrs, this`t, this`owner, this`floating, this`lag
      modifies log`held, log`ptr, log`n, log`sector, log`logged, log`view, log.cache
      ensures log.Valid()
      ensures r.Some? ==>
                && Valid() && Locked(ip) && log.held == {} && floating == {}
                && Mapped(sb, old(log.view), old(t), old(owner), old(lag), old(log.logged),
                          log.view, t, owner, lag, log.logged, ip.inum, Indirect(ip.inum, j), r.value)
      ensures r.Some? ==> KeepsBalance(sb, old(owner), owner, ip.inum, NDIRECT + j, NDIRECT + j + 1)
      ensures r.None? ==> UsedBelow(sb, log.view, sb.size) && Short(sb, old(owner), ip.inum, NDIRECT + j,
                                                                    NDIRECT + j + 1)
    {
      hide Log.Valid, FsState, Budget, Grown, UsedBelow, KeepsBalance, Short, BitmapSectors, NewTable, Mapped;
      r := AddTable(ip, NDIRECT + j);
      if r.None? {
        return;
      }
      var a := r.value;
      ghost var v, t1, owner1, lag1, logged1 := log.view, t, owner, lag, log.logged;
      NewTableEmpty(old(log.view), old(t), old(owner), old(lag), v, t1, owner1, lag1, ip.inum, a, j);
      r := MapIndirect(ip, j);
      BalanceThen(sb, old(owner), owner1, owner, ip.inum, NDIRECT + j, NDIRECT + j + 1);
      if r.Some? {
        MappedAfter(sb, old(log.view), old(t), old(owner), old(lag), old(log.logged),
                    v, t1, owner1, lag1, logged1, log.view, owner, log.logged, ip.inum, j, a, r.value);
      }
    }

    /** The table block, on the way to block `bn` of the file. */
    method AddTable(ip: Inode, ghost bn: nat) returns (r: Option<word>)
      requires log.trans && Valid() && Locked(ip) && NDIRECT <= bn && ip.addrs[NDIRECT] == 0
      requires log.held == {} && floating == {} && Budget(sb, {}, log.logged, 2)
      modifies ip`addrs, this`t, this`owner, this`floating, this`lag
      modifies log`held, log`ptr, log`n, log`sector, log`logged, log`view, log.cache
      ensures Valid() && Locked(ip) && log.held == {}
      ensures r.Some? ==>
                && floating == {} && ip.addrs[NDIRECT] == r.value != 0 && log.Room()
                && Budget(sb, {r.value as nat}, log.logged, 1)
                && NewTable(old(log.view), old(t), old(owner), old(lag), log.view, t, owner, lag, ip.inum, r.value)
                && log.logged <= old(log.logged) + BitmapSectors(sb) + {r.value as nat}
                && KeepsBalance(sb, old(owner), owner, ip.inum, bn, bn + 1)
      ensures r.None? ==> UsedBelow(sb, log.view, sb.size) && Short(sb, old(owner), ip.inum, bn, bn + 1)
    {
      hide Log.Valid, FsState, Budget, Grown, UsedBelow, Spare, DataBlocks, KeepsBalance, Short, Taken, BitmapSectors;
      BudgetLess(sb, {}, log.logged, 2);
      r := AllocAddr(ip, NDIRECT);
      TableOutcome(sb, old(log.view), old(t), old(owner), old(lag), ip.inum, bn, owner, if r.Some? then r.value else 0);
      if r.Some? {
        BudgetTable(sb, old(log.logged), log.logged, r.value);
      }
    }

    /** inode_update: the on-disk inode becomes the in-memory one. */
    method InodeUpdate(ip: Inode)
      requires log.trans && Valid() && Locked(ip) && log.held == {} && Budget(sb, log.held, log.logged, 1)
      modifies this`lag, log`held, log`ptr, log`n, log`sector, log`logged, log`view, log.cache
      ensures Valid() && log.held == {} && lag == old(lag) - {ip.inum}
      ensures IBlock(ip.inum) in old(log.view) && log.logged == old(log.logged) + {IBlock(ip.inum)}
      ensures log.view == old(log.view)[IBlock(ip.inum) := WithInode(old(log.view)[IBlock(ip.inum)], ip.inum, ip.D())]
      ensures ip.inum / 8 + 2 in log.view
      ensures StructInode(log.view[ip.inum / 8 + 2], 64 * (ip.inum % 8), ip.typ, ip.major, ip.minor, ip.nlink, ip.size,
                          ip.addrs)
    {
      hide Log.Valid, FsState, Budget, WithInode, StructInode;
      UpdatedState(sb, log.view, t, owner, floating, lag, ip.inum);
      BudgetRoom(sb, log.held, log.logged, 1);
      BudgetMore(sb, log.held, log.logged, IBlock(ip.inum), 0);
      var data := log.Read(IBlock(ip.inum));
      BudgetRoom(sb, log.held, log.logged, 0);
      log.LogWrite(IBlock(ip.inum), WithInode(data, ip.inum, ip.D()));
      log.Release(IBlock(ip.inum));
      lag := lag - {ip.inum};
      StoredInode(sb, log.view, t, owner, floating, lag, ip.inum);
      InodeBytes(log.view, ip.inum);
    }

    /** One iteration of the copy loop of inode_write, which advances by `r.value` bytes. */
    method WriteStep(ip: Inode, src: seq<byte>, off: nat, tot: nat, ghost v0: View, ghost t0: Inodes,
                     ghost owner0: map<nat, Slot>)
      returns (r: Option<nat>)
      requires log.trans && Valid() && Locked(ip) && log.held == {} && floating == {} && Budget(sb, {}, log.logged, 2)
      requires tot < |src| && off + |src| <= MAXFILE * BSIZE
      requires Progress(v0, t0, owner0, log.view, t, owner, ip.inum, off, src, tot)
      modifies ip`addrs, this`t, this`owner, this`floating, this`lag
      modifies log`held, log`ptr, log`n, log`sector, log`logged, log`view, log.cache
      ensures log.Valid()
      ensures r.Some? ==>
                && Valid() && Locked(ip) && log.held == {} && floating == {}
                && r.value == Piece(off + tot, |src| - tot)
                && Progress(v0, t0, owner0, log.view, t, owner, ip.inum, off, src, tot + r.value)
                && Touching(sb, old(log.view), old(t), old(lag), old(log.logged), log.view, t, lag, log.logged,
                            ip.inum, (off + tot) / BSIZE)
      ensures r.Some? ==> KeepsBalance(sb, old(owner), owner, ip.inum, (off + tot) / BSIZE, (off + tot) / BSIZE + 1)
      ensures r.None? ==> UsedBelow(sb, log.view, sb.size) && Short(sb, old(owner), ip.inum, (off + tot) / BSIZE,
                                                                    (off + tot) / BSIZE + 1)
    {
      hide Log.Valid, FsState, Budget, Mapped, Progress, Touching, TableOf, Ref, BlockSlot, Piece, BitmapSectors;
      hide UsedBelow, KeepsBalance, Short;
      var bn := (off + tot) / BSIZE;
      BudgetRoom(sb, {}, log.logged, 2);
      var q := Bmap(ip, bn);
      if q.None? {
        return None;
      }
      MappedProgress(sb, v0, t0, owner0, old(log.view), old(t), old(owner), old(lag), old(log.logged),
                     log.view, t, owner, lag, log.logged, ip.inum, off, src, tot, q.value);
      var m := StorePiece(ip, src, off, tot, q.value, v0, t0, owner0, old(log.view), old(t), old(lag), old(log.logged));
      r := Some(m);
    }

    /** The part of the iteration after bmap. */
    method StorePiece(ip: Inode, src: seq<byte>, off: nat, tot: nat, b: word, ghost v0: View, ghost t0: Inodes,
                      ghost owner0: map<nat, Slot>,
                      ghost v1: View, ghost t1: Inodes, ghost lag1: set<nat>, ghost logged1: set<nat>) returns (m: nat)
      requires log.trans && Valid() && Locked(ip) && log.held == {} && floating == {} && tot < |src|
      requires Budget(sb, {}, logged1, 2)
      requires log.logged <= logged1 + BitmapSectors(sb) + TableOf(t[ip.inum]) + {b as nat}
      requires b == Ref(log.view, t, BlockSlot(ip.inum, (off + tot) / BSIZE)) != 0
      requires Progress(v0, t0, owner0, log.view, t, owner, ip.inum, off, src, tot)
      requires Touching(sb, v1, t1, lag1, logged1, log.view, t, lag, log.logged, ip.inum, (off + tot) / BSIZE)
      modifies log`held, log`ptr, log`n, log`sector, log`logged, log`view, log.cache
      ensures Valid() && log.held == {} && m == Piece(off + tot, |src| - tot)
      ensures Progress(v0, t0, owner0, log.view, t, owner, ip.inum, off, src, tot + m)
      ensures Touching(sb, v1, t1, lag1, logged1, log.view, t, lag, log.logged, ip.inum, (off + tot) / BSIZE)
    {
      hide Log.Valid, FsState, Budget, Progress, Splice, Touching, TableOf, Ref, BlockSlot, BitmapSectors;
      m := Piece(off + tot, |src| - tot);
      StepState(sb, v0, t0, owner0, log.view, t, owner, lag, ip.inum, off, src, tot, m, b);
      TableOne(t[ip.inum]);
      BudgetBlock(sb, logged1, log.logged, TableOf(t[ip.inum]), b);
      ghost var w, logged2 := log.view, log.logged;
      PutBytes(b, (off + tot) % BSIZE, src[tot..tot + m]);
      TouchingData(sb, v1, t1, lag1, logged1, w, t, lag, logged2, log.view, log.logged, ip.inum, (off + tot) / BSIZE);
    }

    /** Copy `piece` into block `b` at offset `o` and log it. */
    method PutBytes(b: word, o: nat, piece: seq<byte>)
      requires log.trans && Ready() && log.held == {} && b < sb.Start() && b in log.view && o + |piece| <= BSIZE
      requires |{} + log.logged| < NBUF && |{b as nat} + log.logged| < NBUF
      requires |log.logged| < LOGSIZE && |log.logged| < sb.nlog - 1
      modifies log`held, log`ptr, log`n, log`sector, log`logged, log`view, log.cache
      ensures Ready() && log.held == {} && log.logged == old(log.logged) + {b as nat}
      ensures log.view == old(log.view)[b := Splice(old(log.view)[b], o, piece)]
    {
      hide Log.Valid;
      var data := log.Read(b);
      assert log.held == {b as nat};
      log.LogWrite(b, Splice(data, o, piece));
      log.Release(b);
    }

    /** The copy loop of inode_write. */
    method WriteLoop(ip: Inode, src: seq<byte>, off: nat) returns (ok: bool)
      requires log.trans && Valid() && Locked(ip) && log.held == {} && floating == {} && lag == {}
      requires NoHoles(log.view, t, ip.inum) && off <= ip.size && off + |src| <= MAXFILE * BSIZE
      requires Budget(sb, {}, log.logged, Blocks(off, |src|) + 2)
      modifies ip`addrs, this`t, this`owner, this`floating, this`lag
      modifies log`held, log`ptr, log`n, log`sector, log`logged, log`view, log.cache
      ensures log.Valid()
      ensures ok ==>
                && Valid() && Locked(ip) && log.held == {} && floating == {} && lag <= {ip.inum}
                && Progress(old(log.view), old(t), old(owner), log.view, t, owner, ip.inum, off, src, |src|)
                && Budget(sb, {}, log.logged, 1) && Spent(sb, old(log.logged), log.logged, Blocks(off, |src|) + 1)
                && (off + |src| <= ip.size ==> t == old(t) && lag == {})
                && KeepsBalance(sb, old(owner), owner, ip.inum, off / BSIZE, off / BSIZE + Blocks(off, |src|))
                && OwnerGrows(old(owner), owner, ip.inum)
                && log.logged <= old(log.logged) + BitmapSectors(sb)
                                 + Span(owner, ip.inum, off / BSIZE, off / BSIZE + Blocks(off, |src|))
      ensures !ok ==> UsedBelow(sb, log.view, sb.size) && Short(sb, old(owner), ip.inum, off / BSIZE,
                                                                off / BSIZE + Blocks(off, |src|))
    {
      hide Log.Valid, FsState, Budget, Progress, NoHoles, Touching, LoopState, UsedBelow, KeepsBalance, Short, Blocks;
      hide Spent;
      hide BitmapSectors, Span, OwnerGrows;
      ghost var v0, t0, owner0, logged0 := log.view, t, owner, log.logged;
      LoopStart(sb, v0, t0, owner0, logged0, ip.inum, off, src);
      var tot := 0;
      ghost var hi: nat := off / BSIZE;
      ghost var end := off / BSIZE + Blocks(off, |src|);
      BalanceNow(sb, owner, ip.inum, off / BSIZE, end);
      while tot < |src|
        invariant 0 <= tot <= |src|
        invariant Valid() && Locked(ip) && log.held == {} && floating == {}
        invariant LoopState(sb, v0, t0, owner0, logged0, log.view, t, owner, lag, log.logged, ip.inum, off, src, tot,
                            hi)
        invariant KeepsBalance(sb, owner0, owner, ip.inum, off / BSIZE, end)
      {
        ghost var v1, t1, owner1, lag1, logged1 := log.view, t, owner, lag, log.logged;
        LoopBudget(sb, v0, t0, owner0, logged0, v1, t1, owner1, lag1, logged1, ip.inum, off, src, tot, hi);
        var r := WriteStep(ip, src, off, tot, v0, t0, owner0);
        BlocksLeft(off, |src|, tot);
        Wider(sb, owner1, owner, ip.inum, (off + tot) / BSIZE, (off + tot) / BSIZE + 1, off / BSIZE, end);
        BalanceThen(sb, owner0, owner1, owner, ip.inum, off / BSIZE, end);
        if r.None? {
          return false;
        }
        LoopStep(sb, v0, t0, owner0, logged0, v1, t1, owner1, lag1, logged1,
                 log.view, t, owner, lag, log.logged, ip.inum, off, src, tot, hi);
        tot := tot + r.value;
        hi := hi + 1;
      }
      LoopBudget(sb, v0, t0, owner0, logged0, log.view, t, owner, lag, log.logged, ip.inum, off, src, tot, hi);
      LoopLogged(sb, v0, t0, owner0, logged0, log.view, t, owner, lag, log.logged, ip.inum, off, src, tot, hi);
      return true;
    }

    /**
      inode_write for a file that is not a device.  None stands for the "out of
      blocks" panic, Some(-1) for the error return.
     */
    method InodeWrite(ip: Inode, src: seq<byte>, off: word) returns (r: Option<int>)
      requires log.trans && Valid() && Locked(ip) && log.held == {} && floating == {} && lag == {} && Whole(log.view, t)
      requires |src| < TWO32 && Budget(sb, {}, log.logged, Blocks(off, |src|) + 2)
      modifies ip`addrs, ip`size, this`t, this`owner, this`floating, this`lag
      modifies log`held, log`ptr, log`n, log`sector, log`logged, log`view, log.cache
      ensures log.Valid()
      ensures r == Some(-1) <==> Refused(old(ip.size), off, |src|)
      ensures r == Some(-1) <==> off > old(ip.size) || off + |src| > 71680
      ensures r == Some(-1) ==>
                log.view == old(log.view) && log.logged == old(log.logged) && t == old(t) && owner == old(owner)
      ensures r.Some? ==> Valid() && Locked(ip) && log.held == {} && floating == {} && lag == {}
      ensures r.Some? ==> Budget(sb, {}, log.logged, 0) && Spent(sb, old(log.logged), log.logged,
                                                                 Blocks(off, |src|) + 2)
      ensures r.Some? && r.value != -1 ==>
                r.value == |src| && FileWritten(old(log.view), old(t), log.view, t, ip.inum, off, src)
      ensures r.None? ==> UsedBelow(sb, log.view, sb.size) && Short(sb, old(owner), ip.inum, off / BSIZE,
                                                                    off / BSIZE + Blocks(off, |src|))
      ensures r.Some? && r.value != -1 ==>
                KeepsBalance(sb, old(owner), owner, ip.inum, off / BSIZE, off / BSIZE + Blocks(off, |src|))
      ensures r.Some? && r.value != -1 ==>
                && OwnerGrows(old(owner), owner, ip.inum)
                && log.logged <= old(log.logged) + BitmapSectors(sb) + {IBlock(ip.inum)}
                                 + Span(owner, ip.inum, off / BSIZE, off / BSIZE + Blocks(off, |src|))
      ensures !Refused(old(ip.size), off, |src|) ==>
                (r.None? <==> !Fits(sb, old(owner), ip.inum, off, |src|))
    {
      hide Log.Valid, FsState, Budget, Progress, NoHoles, Whole, UsedBelow, KeepsBalance, Short, Fits, Blocks, Spent;
      hide Refused, FileWritten;
      hide BitmapSectors, Span, OwnerGrows, IBlock;
      BudgetLess(sb, {}, log.logged, Blocks(off, |src|) + 2);
      RefusedExact(ip.size, off, |src|);
      if Refused(ip.size, off, |src|) {
        SpentMost(sb, log.logged, log.logged, 0, Blocks(off, |src|) + 2);
        return Some(-1);
      }
      WholeOne(log.view, t, ip.inum);
      var ok := WriteLoop(ip, src, off);
      if !ok {
        ShortDoesNotFit(sb, old(owner), ip.inum, off, |src|);
        return None;
      }
      FinishWrite(ip, src, off, old(log.view), old(t), old(owner), old(log.logged));
      WrittenFits(sb, old(log.view), old(t), old(owner), log.view, t, owner, ip.inum, off, src);
      return Some(|src|);
    }

    /** The part of inode_write behind the copy loop: a longer file gets its new size. */
    method FinishWrite(ip: Inode, src: seq<byte>, off: nat, ghost v0: View, ghost t0: Inodes,
                       ghost owner0: map<nat, Slot>, ghost logged0: set<nat>)
      requires log.trans && Valid() && Locked(ip) && log.held == {} && floating == {} && lag <= {ip.inum}
      requires FsState(sb, v0, t0, owner0, {}, {}) && Whole(v0, t0)
      requires Progress(v0, t0, owner0, log.view, t, owner, ip.inum, off, src, |src|)
      requires ip.inum in t0 && off <= t0[ip.inum].size == ip.size && off + |src| <= MAXFILE * BSIZE
      requires off + |src| <= ip.size ==> t == t0 && lag == {}
      requires Budget(sb, {}, log.logged, 1) && Spent(sb, logged0, log.logged, Blocks(off, |src|) + 1)
      modifies ip`size, this`t, this`lag
      modifies log`held, log`ptr, log`n, log`sector, log`logged, log`view, log.cache
      ensures Valid() && Locked(ip) && log.held == {} && lag == {} && Budget(sb, {}, log.logged, 0)
      ensures Spent(sb, logged0, log.logged, Blocks(off, |src|) + 2)
      ensures FileWritten(v0, t0, log.view, t, ip.inum, off, src)
      ensures log.logged <= old(log.logged) + {IBlock(ip.inum)}
    {
      hide Log.Valid, FsState, Budget, Progress, Whole, Blocks, Spent, FileWritten;
      BudgetLess(sb, {}, log.logged, 1);
      ghost var size := if off + |src| > ip.size then off + |src| else ip.size;
      WrittenState(sb, v0, t0, owner0, log.view, t, owner, lag, ip.inum, off, src, size);
      if |src| > 0 && off + |src| > ip.size {
        SpentOne(sb, logged0, log.logged, Blocks(off, |src|) + 1, IBlock(ip.inum));
        SetSize(ip, off + |src|, v0, t0, off, src);
      } else {
        SpentMost(sb, logged0, log.logged, Blocks(off, |src|) + 1, Blocks(off, |src|) + 2);
      }
    }

    /** `ip->size = off; inode_update(ip)`. */
    method SetSize(ip: Inode, size: word, ghost v: View, ghost t0: Inodes, ghost off: nat, ghost src: seq<byte>)
      requires log.trans && Valid() && Locked(ip) && log.held == {} && floating == {} && lag <= {ip.inum}
      requires Budget(sb, {}, log.logged, 1)
      requires FileWritten(v, t0, log.view, WithSize(t, ip.inum, size), ip.inum, off, src)
      modifies ip`size, this`t, this`lag
      modifies log`held, log`ptr, log`n, log`sector, log`logged, log`view, log.cache
      ensures Valid() && Locked(ip) && log.held == {} && lag == {} && Budget(sb, {}, log.logged, 0)
      ensures log.logged == old(log.logged) + {IBlock(ip.inum)}
      ensures FileWritten(v, t0, log.view, t, ip.inum, off, src)
    {
      hide Log.Valid, FsState, Budget, FileWritten;
      SizedState(sb, log.view, t, owner, lag, ip.inum, size);
      BudgetMore(sb, {}, log.logged, IBlock(ip.inum), 0);
      ip.size := size;
      t := WithSize(t, ip.inum, size);
      lag := lag + {ip.inum};
      WrittenUpdated(sb, v, t0, log.view, t, owner, lag, ip.inum, off, src);
      InodeUpdate(ip);
    }

    /** The inode may be read: nothing is held, and there is a buffer to be had. */
    ghost predicate Readable(ip: Inode)
      reads this, ip, log, log.cache
    {
      Valid() && Locked(ip) && log.held == {} && floating == {} && log.Room()
    }

    ghost predicate Frozen(v: View, t0: Inodes, owner0: map<nat, Slot>, lag0: set<nat>, logged0: set<nat>)
      reads this, log
    {
      log.view == v && t == t0 && owner == owner0 && lag == lag0 && log.logged == logged0
    }

    /** One iteration of the copy loop of inode_read. */
    method ReadStep(ip: Inode, q: nat, left: nat) returns (piece: seq<byte>)
      requires Readable(ip) && NoHoles(log.view, t, ip.inum)
      requires 0 < left && q + left <= ip.size
      modifies ip`addrs, this`t, this`owner, this`floating, this`lag
      modifies log`held, log`ptr, log`n, log`sector, log`logged, log`view, log.cache
      ensures Readable(ip) && Frozen(old(log.view), old(t), old(owner), old(lag), old(log.logged))
      ensures |Contents(log.view, t, ip.inum)| == ip.size
      ensures piece == Contents(log.view, t, ip.inum)[q..q + Piece(q, left)]
    {
      hide Log.Valid, FsState, Contents, NoHoles, Mapped, Budget, KeepsBalance, Short, UsedBelow, Ref, BlockSlot;
      PresentByte(log.view, t, ip.inum, q);
      PieceOf(sb, log.view, t, owner, lag, ip.inum, q, Piece(q, left));
      var r := Bmap(ip, q / BSIZE);
      var b := r.value;
      MappedThere(sb, old(log.view), old(t), old(owner), old(lag), old(log.logged), log.view, t, owner, lag,
                  log.logged, ip.inum, BlockSlot(ip.inum, q / BSIZE), b);
      var data := log.Read(b);
      var m := Piece(q, left);
      piece := data[q % BSIZE..q % BSIZE + m];
      log.Release(b);
    }

    /** inode_read for a file that is not a device.  None stands for the error return. */
    method InodeRead(ip: Inode, off: word, n: word) returns (r: Option<seq<byte>>)
      requires Readable(ip) && Whole(log.view, t)
      modifies ip`addrs, this`t, this`owner, this`floating, this`lag
      modifies log`held, log`ptr, log`n, log`sector, log`logged, log`view, log.cache
      ensures Readable(ip) && Frozen(old(log.view), old(t), old(owner), old(lag), old(log.logged))
      ensures r.None? <==> off > ip.size || off + n >= TWO32
      ensures |Contents(log.view, t, ip.inum)| == ip.size
      ensures r.Some? ==> r.value == Contents(log.view, t, ip.inum)[off..if off + n > ip.size then ip.size else off + n]
      ensures r.Some? ==>
                && |r.value| == (if off + n > ip.size then ip.size - off else n)
                && forall k: nat :: k < |r.value| ==> r.value[k] == DiskByte(log.view, ip.addrs, off + k)
    {
      hide Fs.Readable, Contents, NoHoles, Whole, DiskByte;
      ReadableSize(ip);
      WholeOne(log.view, t, ip.inum);
      Wraps(off, n);
      FrozenNow();
      if off > ip.size || (off + n) % TWO32 < off {
        return None;
      }
      var dst := ReadLoop(ip, off, if off + n > ip.size then ip.size - off else n);
      ReadableBytes(ip);
      return Some(dst);
    }

    lemma ReadableBytes(ip: Inode)
      requires Readable(ip) && NoHoles(log.view, t, ip.inum)
      ensures |Contents(log.view, t, ip.inum)| == ip.size
      ensures forall p: nat :: p < ip.size ==> Contents(log.view, t, ip.inum)[p] == DiskByte(log.view, ip.addrs, p)
    {
      hide Contents, NoHoles, DiskByte, Log.Valid;
      NoZeroOwner(sb, log.view, t, owner, floating, lag);
      ContentsSize(log.view, t, ip.inum);
      hide FsState;
      forall p: nat | p < ip.size ensures Contents(log.view, t, ip.inum)[p] == DiskByte(log.view, ip.addrs, p) {
        FileBytes(log.view, t, ip.inum, p);
      }
    }

    lemma ReadableSize(ip: Inode)
      requires Readable(ip)
      ensures ip.inum in t && |Contents(log.view, t, ip.inum)| == ip.size
    {
      ContentsSize(log.view, t, ip.inum);
    }

    lemma FrozenNow()
      ensures Frozen(log.view, t, owner, lag, log.logged)
    {
    }

    method ReadLoop(ip: Inode, off: nat, len: nat) returns (dst: seq<byte>)
      requires Readable(ip) && NoHoles(log.view, t, ip.inum) && off + len <= ip.size
      modifies ip`addrs, this`t, this`owner, this`floating, this`lag
      modifies log`held, log`ptr, log`n, log`sector, log`logged, log`view, log.cache
      ensures Readable(ip) && Frozen(old(log.view), old(t), old(owner), old(lag), old(log.logged))
      ensures |Contents(log.view, t, ip.inum)| == ip.size
      ensures dst == Contents(log.view, t, ip.inum)[off..off + len]
    {
      hide Fs.Readable, Contents, NoHoles;
      ReadableSize(ip);
      ghost var c := Contents(log.view, t, ip.inum);
      dst := [];
      while |dst| < len
        invariant |dst| <= len && Readable(ip) && Frozen(old(log.view), old(t), old(owner), old(lag), old(log.logged))
        invariant dst == c[off..off + |dst|]
      {
        var piece := ReadStep(ip, off + |dst|, len - |dst|);
        SliceAppend(c, off, off + |dst|, off + |dst| + |piece|);
        dst := dst + piece;
      }
    }

    /** block_free.  The bit is set: "freeing free block" is what the caller must exclude. */
    method BlockFree(b: word)
      requires log.trans && Ready() && sb.Ok() && SuperBlock(sb, log.view) && b < sb.size && Used(sb, log.view, b)
      requires 1 !in log.held && sb.BBlock(b) !in log.held && Budget(sb, log.held, log.logged, 0)
      modifies log`held, log`ptr, log`n, log`sector, log`logged, log`view, log.cache
      ensures Ready() && log.held == old(log.held) && log.logged == old(log.logged) + {sb.BBlock(b)}
      ensures sb.BBlock(b) in old(log.view) && log.view == MarkedView(sb, old(log.view), b, false)
    {
      hide Log.Valid, Budget, MarkedView, Used, SuperBlock, Super.BBlock, Super.BitmapStart, Super.DataStart;
      UsedIn(sb, log.view, b);
      BitmapWord(sb, b);
      BudgetRoom(sb, log.held, log.logged, 0);
      var size, ninodes := ReadSuper();
      var bm := b / BPB + ninodes / IPB + 3;
      InBitmap(sb, b);
      BudgetSame(sb, log.held, log.logged, log.held + {bm}, log.logged, 0);
      var data := log.Read(bm);
      MarkBlock(bm, b, data, false);
    }

    /** Free a block that has already left its slot. */
    method FreeFloating(b: word)
      requires log.trans && Valid() && b in floating && Budget(sb, log.held, log.logged, 0)
      requires forall s :: s in log.held ==> sb.Data(s)
      modifies this`floating, log`held, log`ptr, log`n, log`sector, log`logged, log`view, log.cache
      ensures Valid() && log.held == old(log.held) && floating == old(floating) - {b as nat}
      ensures log.logged <= old(log.logged) + BitmapSectors(sb) && DataSame(sb, old(log.view), log.view)
    {
      hide Log.Valid, FsState, Budget, Used, MarkedView;
      FloatingState(sb, log.view, t, owner, floating, lag, b);
      InBitmap(sb, b);
      BlockFree(b);
      floating := floating - {b as nat};
    }

    /** One direct address of inode_trunc. */
    method FreeDirect(ip: Inode, k: nat)
      requires log.trans && Valid() && Locked(ip) && k < NDIRECT && ip.addrs[k] != 0
      requires log.held == {} && floating == {} && Budget(sb, {}, log.logged, 0)
      modifies ip`addrs, this`t, this`owner, this`floating, this`lag
      modifies log`held, log`ptr, log`n, log`sector, log`logged, log`view, log.cache
      ensures Valid() && Locked(ip) && log.held == {} && floating == {} && lag == old(lag) + {ip.inum}
      ensures ip.addrs == old(ip.addrs)[k := 0] && t == WithAddr(old(t), ip.inum, k, 0)
      ensures owner == old(owner) - {old(ip.addrs[k]) as nat}
      ensures old(ip.addrs[k]) in old(owner) && old(owner)[old(ip.addrs[k])] == Direct(ip.inum, k)
      ensures log.logged <= old(log.logged) + BitmapSectors(sb) && DataSame(sb, old(log.view), log.view)
    {
      hide Log.Valid, FsState, Budget, WithAddr;
      var b := ip.addrs[k];
      DetachedState(sb, log.view, t, owner, lag, ip.inum, k);
      WithAddrIs(t, ip.inum, k, 0);
      t := WithAddr(t, ip.inum, k, 0);
      owner := owner - {b};
      floating := {b as nat};
      lag := lag + {ip.inum};
      FreeFloating(b);
      ip.addrs := ip.addrs[k := 0];
    }

    /** The first loop of inode_trunc. */
    method FreeAllDirect(ip: Inode)
      requires log.trans && Valid() && Locked(ip) && log.held == {} && floating == {} && Budget(sb, {}, log.logged, 0)
      modifies ip`addrs, this`t, this`owner, this`floating, this`lag
      modifies log`held, log`ptr, log`n, log`sector, log`logged, log`view, log.cache
      ensures Valid() && Locked(ip) && log.held == {} && floating == {} && old(lag) <= lag <= old(lag) + {ip.inum}
      ensures Trimmed(sb, old(log.view), old(t), old(owner), log.view, t, owner, ip.inum)
      ensures ip.addrs[NDIRECT] == old(ip.addrs[NDIRECT]) && forall k :: 0 <= k < NDIRECT ==> ip.addrs[k] == 0
      ensures log.logged <= old(log.logged) + BitmapSectors(sb)
    {
      hide Log.Valid, FsState, Budget, Trimmed, BitmapSectors;
      TrimmedNot(sb, log.view, t, owner, ip.inum);
      var k := 0;
      while k < NDIRECT
        invariant 0 <= k <= NDIRECT
        invariant Valid() && Locked(ip) && log.held == {} && floating == {} && old(lag) <= lag <= old(lag) + {ip.inum}
        invariant Trimmed(sb, old(log.view), old(t), old(owner), log.view, t, owner, ip.inum)
        invariant ip.addrs[NDIRECT] == old(ip.addrs[NDIRECT]) && forall j :: 0 <= j < k ==> ip.addrs[j] == 0
        invariant log.logged <= old(log.logged) + BitmapSectors(sb)
      {
        if ip.addrs[k] != 0 {
          FreeNext(ip, k, old(log.view), old(t), old(owner), old(log.logged));
        }
        k := k + 1;
      }
    }

    /** One turn of that loop. */
    method FreeNext(ip: Inode, k: nat, ghost v0: View, ghost t0: Inodes, ghost owner0: map<nat, Slot>,
                    ghost logged0: set<nat>)
      requires log.trans && Valid() && Locked(ip) && k < NDIRECT && ip.addrs[k] != 0 && log.held == {} && floating == {}
      requires Budget(sb, {}, logged0, 0) && log.logged <= logged0 + BitmapSectors(sb)
      requires Trimmed(sb, v0, t0, owner0, log.view, t, owner, ip.inum)
      modifies ip`addrs, this`t, this`owner, this`floating, this`lag
      modifies log`held, log`ptr, log`n, log`sector, log`logged, log`view, log.cache
      ensures Valid() && Locked(ip) && log.held == {} && floating == {} && lag == old(lag) + {ip.inum}
      ensures Trimmed(sb, v0, t0, owner0, log.view, t, owner, ip.inum) && ip.addrs == old(ip.addrs)[k := 0]
      ensures log.logged <= logged0 + BitmapSectors(sb)
    {
      hide Log.Valid, FsState, Budget, Trimmed, WithAddr, DataSame;
      BudgetSame(sb, {}, logged0, {}, log.logged, 0);
      ghost var v1, t1, owner1 := log.view, t, owner;
      FreeDirect(ip, k);
      TrimmedStep(sb, v0, t0, owner0, v1, t1, owner1, log.view, ip.inum, k);
    }

    /** The loop of inode_trunc over the entries of the table block. */
    method FreeEntries(data: Block, a: word)
      requires log.trans && Valid() && log.held == {a as nat} && Budget(sb, log.held, log.logged, 0) && sb.Data(a)
      requires floating == Entries(data, 0) + {a as nat} && a !in Entries(data, 0) && Apart(data)
      modifies this`floating, log`held, log`ptr, log`n, log`sector, log`logged, log`view, log.cache
      ensures Valid() && log.held == {a as nat} && floating == {a as nat}
      ensures log.logged <= old(log.logged) + BitmapSectors(sb) && DataSame(sb, old(log.view), log.view)
    {
      hide Log.Valid, FsState, Budget, Entries, Apart, DataSame, GetU32, BitmapSectors, Super.Data;
      EntriesEnd(data);
      DataSameNow(sb, log.view);
      var j := 0;
      while j < NINDIRECT
        invariant 0 <= j <= NINDIRECT
        invariant Valid() && log.held == {a as nat}
        invariant floating == Entries(data, j) + {a as nat}
        invariant log.logged <= old(log.logged) + BitmapSectors(sb) && DataSame(sb, old(log.view), log.view)
      {
        EntriesStep(data, j, a);
        if GetU32(data, 4 * j) != 0 {
          BudgetSame(sb, log.held, old(log.logged), log.held, log.logged, 0);
          ghost var v1 := log.view;
          FreeFloating(GetU32(data, 4 * j));
          DataSameTwice(sb, old(log.view), v1, log.view);
        }
        j := j + 1;
      }
    }

    /** The part of inode_trunc behind the table block. */
    method FreeTable(ip: Inode)
      requires log.trans && Valid() && Locked(ip) && ip.addrs[NDIRECT] != 0
      requires log.held == {} && floating == {} && Budget(sb, {}, log.logged, 1)
      modifies ip`addrs, this`t, this`owner, this`floating, this`lag
      modifies log`held, log`ptr, log`n, log`sector, log`logged, log`view, log.cache
      ensures Valid() && Locked(ip) && log.held == {} && floating == {} && lag == old(lag) + {ip.inum}
      ensures Trimmed(sb, old(log.view), old(t), old(owner), log.view, t, owner, ip.inum)
      ensures ip.addrs == old(ip.addrs)[NDIRECT := 0]
      ensures log.logged <= old(log.logged) + BitmapSectors(sb)
    {
      hide Log.Valid, FsState, Budget, Trimmed, WithAddr, Entries, Apart, DataSame;
      ghost var v0, t0, owner0, lag0 := log.view, t, owner, lag;
      var a := ip.addrs[NDIRECT];
      DetachedTableState(sb, v0, t0, owner0, lag0, ip.inum);
      WithAddrIs(t, ip.inum, NDIRECT, 0);
      t := WithAddr(t, ip.inum, NDIRECT, 0);
      owner := owner - (Entries(log.view[a], 0) + {a as nat});
      floating := Entries(log.view[a], 0) + {a as nat};
      lag := lag + {ip.inum};
      FreeListed(a);
      TrimmedTable(sb, v0, t0, owner0, lag0, log.view, ip.inum);
      ip.addrs := ip.addrs[NDIRECT := 0];
    }

    /** Read the table block, free what it lists, then the block itself. */
    method FreeListed(a: word)
      requires log.trans && Valid() && a in log.view && sb.Data(a) && a < sb.Start()
      requires log.held == {} && Budget(sb, {}, log.logged, 1)
      requires floating == Entries(log.view[a], 0) + {a as nat} && a !in Entries(log.view[a], 0) && Apart(log.view[a])
      modifies this`floating, log`held, log`ptr, log`n, log`sector, log`logged, log`view, log.cache
      ensures Valid() && log.held == {} && floating == {}
      ensures log.logged <= old(log.logged) + BitmapSectors(sb) && DataSame(sb, old(log.view), log.view)
    {
      hide Log.Valid, FsState, Budget, Entries, Apart, DataSame;
      BudgetRoom(sb, {}, log.logged, 1);
      BudgetMore(sb, {}, log.logged, a, 0);
      BudgetLess(sb, {}, log.logged, 1);
      assert {} + {a as nat} == {a as nat};
      var data := log.Read(a);
      FreeEntries(data, a);
      log.Release(a);
      BudgetSame(sb, {}, old(log.logged), {}, log.logged, 0);
      ghost var v1 := log.view;
      FreeFloating(a);
      DataSameTwice(sb, old(log.view), v1, log.view);
    }

    /** inode_trunc: the file loses all its blocks and bytes, on disk and in memory. */
    method InodeTrunc(ip: Inode)
      requires log.trans && Valid() && Locked(ip) && log.held == {} && floating == {} && lag == {} && Whole(log.view, t)
      requires Budget(sb, {}, log.logged, 1)
      modifies ip`addrs, ip`size, this`t, this`owner, this`floating, this`lag
      modifies log`held, log`ptr, log`n, log`sector, log`logged, log`view, log.cache
      ensures Valid() && Locked(ip) && log.held == {} && floating == {} && lag == {}
      ensures Truncated(sb, old(log.view), old(t), old(owner), log.view, t, owner, ip.inum)
      ensures log.logged <= old(log.logged) + BitmapSectors(sb) + {IBlock(ip.inum)}
      ensures ip.size == 0 && |ip.addrs| == 13 && forall k :: 0 <= k < 13 ==> ip.addrs[k] == 0
      ensures forall b: nat :: b < sb.size ==>
                (Used(sb, log.view, b) <==> old(Used(sb, log.view, b)) && !BlockOf(old(log.view), old(ip.D()), b))
    {
      hide Log.Valid, FsState, Budget, Trimmed, Truncated, Whole, NoAddrs, Used, BlockOf;
      FreeBlocks(ip);
      BudgetSame(sb, {}, old(log.logged), {}, log.logged, 1);
      EraseInode(ip, old(log.view), old(t), old(owner));
      FreedBlocks(sb, old(log.view), old(t), old(owner), {}, {}, log.view, t, owner, ip.inum);
      EmptyNow(ip, old(log.view), old(t), old(owner));
    }

    lemma EmptyNow(ip: Inode, v: View, t0: Inodes, owner0: map<nat, Slot>)
      requires Truncated(sb, v, t0, owner0, log.view, t, owner, ip.inum) && Locked(ip)
      ensures ip.size == 0 && |ip.addrs| == 13 && forall k :: 0 <= k < 13 ==> ip.addrs[k] == 0
    {
      hide Contents, Whole, Used;
    }

    /** All the freeing of inode_trunc. */
    method FreeBlocks(ip: Inode)
      requires log.trans && Valid() && Locked(ip) && log.held == {} && floating == {} && lag == {}
      requires Budget(sb, {}, log.logged, 1)
      modifies ip`addrs, this`t, this`owner, this`floating, this`lag
      modifies log`held, log`ptr, log`n, log`sector, log`logged, log`view, log.cache
      ensures Valid() && Locked(ip) && log.held == {} && floating == {} && lag <= {ip.inum}
      ensures Trimmed(sb, old(log.view), old(t), old(owner), log.view, t, owner, ip.inum) && NoAddrs(ip.D())
      ensures log.logged <= old(log.logged) + BitmapSectors(sb)
    {
      hide Log.Valid, FsState, Budget, Trimmed, NoAddrs;
      BudgetLess(sb, {}, log.logged, 1);
      FreeAllDirect(ip);
      BudgetSame(sb, {}, old(log.logged), {}, log.logged, 1);
      if ip.addrs[NDIRECT] != 0 {
        ghost var v1, t1, owner1 := log.view, t, owner;
        FreeTable(ip);
        TrimmedTwice(sb, old(log.view), old(t), old(owner), v1, t1, owner1, log.view, t, owner, ip.inum);
      }
      AllFreed(ip.D());
    }

    /** `ip->size = 0; inode_update(ip)` at the end of inode_trunc. */
    method EraseInode(ip: Inode, ghost v: View, ghost t0: Inodes, ghost owner0: map<nat, Slot>)
      requires log.trans && Valid() && Locked(ip) && log.held == {} && floating == {} && lag <= {ip.inum}
      requires Budget(sb, {}, log.logged, 1)
      requires FsState(sb, v, t0, owner0, {}, {}) && Whole(v, t0)
      requires Trimmed(sb, v, t0, owner0, log.view, t, owner, ip.inum) && NoAddrs(ip.D())
      modifies ip`size, this`t, this`lag
      modifies log`held, log`ptr, log`n, log`sector, log`logged, log`view, log.cache
      ensures Valid() && Locked(ip) && log.held == {} && lag == {}
      ensures Truncated(sb, v, t0, owner0, log.view, t, owner, ip.inum)
      ensures log.logged == old(log.logged) + {IBlock(ip.inum)}
    {
      hide Log.Valid, FsState, Budget, Trimmed, Truncated, Whole, NoAddrs, WithInode;
      SizedState(sb, log.view, t, owner, lag, ip.inum, 0);
      ghost var w, u, lag0 := log.view, t, lag;
      ip.size := 0;
      t := WithSize(t, ip.inum, 0);
      lag := lag + {ip.inum};
      InodeUpdate(ip);
      TruncatedState(sb, v, t0, owner0, w, u, owner, lag0, log.view, ip.inum);
    }
  }
}
