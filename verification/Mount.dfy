/** From a disk image to a running file system: log_init, inode_lock, and the image a new disk starts from. */
module Mount {
  import opened Bytes
  import opened BufCache
  import opened LogSpec
  import opened RedoLog
  import opened Layout
  import opened Ownership
  import opened FileSpec
  import opened InodeSpec
  import opened InodeLayer
  import opened FileLayer

  function LogArea(sb: Super): (g: Area) {
    Area(sb.Start(), sb.nlog)
  }

  /** The disk has a super block and a readable log, and what its log makes of it is a consistent file system. */
  ghost predicate Mountable(sb: Super, d: Image, t: Inodes, owner: map<nat, Slot>) {
    && SuperOn(sb, d) && LogOk(LogArea(sb), d)
    && FsState(sb, AfterCrash(LogArea(sb), d), t, owner, {}, {}) && Whole(AfterCrash(LogArea(sb), d), t)
  }

  /** The image of every crash while mounting recovers like the first one. */
  lemma MountTrace(g: Area, d: Image)
    requires LogOk(g, d)
    ensures var trace := [d] + RecoveryTrace(g, d);
            forall k :: 0 <= k < |trace| ==> Recovers(g, trace[k], AfterCrash(g, d))
  {
    hide Recovered, RecoveryTrace, LogOk, HomeOf;
    var trace := [d] + RecoveryTrace(g, d);
    forall k | 0 <= k < |trace| ensures Recovers(g, trace[k], AfterCrash(g, d)) {
      if k > 0 {
        RecoveryTraceAt(g, d, k - 1);
        RecoveryRestarts(g, d, k);
      }
    }
  }

  /** bufcache_init, then log_init, which reads the super block before it looks at the log. */
  method Mount(image: Image, blank: Block, ghost sb: Super, ghost t: Inodes,
               ghost owner: map<nat, Slot>) returns (fs: Fs)
    requires Mountable(sb, image, t, owner)
    ensures fresh(fs) && fresh(fs.log) && fresh(fs.log.cache)
    ensures Idle(fs) && fs.sb == sb && fs.t == t && fs.owner == owner
    ensures At(1) in image && fs.sb == Super(GetU32(image[At(1)], 0), GetU32(image[At(1)], 8), GetU32(image[At(1)], 12))
    ensures fs.log.area == Area(sb.size - sb.nlog, sb.nlog)
    ensures fs.log.view == AfterCrash(LogArea(sb), image) && fs.log.cache.disk == Recovered(LogArea(sb), image)
    ensures forall k :: 0 <= k < |fs.log.cache.trace| ==>
              Recovers(LogArea(sb), fs.log.cache.trace[k], AfterCrash(LogArea(sb), image))
  {
    hide Cache.Valid, LogOk, HomeOf, Recovered, RecoveryTrace, Log.Valid, FsState, Whole, AfterCrash, Recovers;
    StateSuper(sb, AfterCrash(LogArea(sb), image), t, owner);
    MountTrace(LogArea(sb), image);
    var cache := new Cache(image, blank);
    var super := ReadBlockOne(cache);
    var s := Super(GetU32(super, 0), GetU32(super, 8), GetU32(super, 12));
    var log := new Log(cache, Area(s.size - s.nlog, s.nlog));
    log.RecoverFromLog();
    fs := new Fs(log, s, t, owner);
  }

  /** read_superblock, as log_init calls it. */
  method ReadBlockOne(cache: Cache<Block>) returns (data: Block)
    requires cache.Valid() && cache.edited == {} && cache.busy == {} && cache.dirty == {} && At(1) in cache.disk
    modifies cache
    ensures cache.Valid() && cache.edited == {} && cache.busy == {} && cache.dirty == {}
    ensures cache.disk == old(cache.disk) && cache.trace == old(cache.trace) && data == cache.disk[At(1)]
  {
    hide CacheInv, FullRing;
    CleanView(cache.bufs, cache.where, cache.disk, cache.view, cache.busy, cache.dirty);
    var r := cache.Read(At(1));
    data := cache.bufs[r.value].data;
    cache.Release(r.value);
  }

  lemma StateSuper(sb: Super, v: View, t: Inodes, owner: map<nat, Slot>)
    requires FsState(sb, v, t, owner, {}, {})
    ensures sb.Ok() && sb.Start() == sb.size - sb.nlog
  {
  }

  /**
    Every disk that file_write can leave behind starts a kernel again, with the file
    as it was or with whole chunks of the data in it.
   */
  method Reboot(image: Image, blank: Block, inum: nat, ghost sb: Super, ghost v: View, ghost t: Inodes,
                ghost owner: map<nat, Slot>, ghost off: nat, ghost data: seq<byte>) returns (fs: Fs, ip: Inode)
    requires FsState(sb, v, t, owner, {}, {}) && Whole(v, t) && inum in t && t[inum].typ != 0
    requires CrashSafe(LogArea(sb), sb, image, v, t, inum, off, data)
    ensures Quiet(fs, ip) && fs.sb == sb && ip.inum == inum
    ensures || (fs.log.view == v && fs.t == t)
            || exists j: nat :: WholeChunks(j, |data|) && FileWritten(v, t, fs.log.view, fs.t, inum, off, data[..j])
  {
    hide FsState, Whole, FileWritten, Mountable, SuperOn, LogOk, AfterCrash, Log.Valid;
    ghost var u, owner', w := SafeMount(sb, image, v, t, owner, inum, off, data);
    fs := Mount(image, blank, sb, u, owner');
    ip := fs.InodeLock(inum);
  }

  lemma SafeMount(sb: Super, d: Image, v: View, t: Inodes, owner: map<nat, Slot>, i: nat, off: nat, data: seq<byte>)
    returns (u: Inodes, owner': map<nat, Slot>, w: View)
    requires FsState(sb, v, t, owner, {}, {}) && Whole(v, t) && i in t
    requires CrashSafe(LogArea(sb), sb, d, v, t, i, off, data)
    ensures Mountable(sb, d, u, owner') && LogOk(LogArea(sb), d) && w == AfterCrash(LogArea(sb), d)
    ensures i in u && u[i].typ == t[i].typ
    ensures (w == v && u == t) || exists j: nat :: WholeChunks(j, |data|) && FileWritten(v, t, w, u, i, off, data[..j])
  {
    hide FsState, Contents, Splice, SuperOn, LogOk, AfterCrash;
    var j: nat :| WholeChunks(j, |data|) && HasPrefix(LogArea(sb), sb, d, v, t, i, off, data, j);
    w := AfterCrash(LogArea(sb), d);
    if j == 0 {
      u, owner' := t, owner;
    } else {
      u, owner' :| FsState(sb, w, u, owner', {}, {}) && FileWritten(v, t, w, u, i, off, data[..j]);
    }
  }

  // A new disk: every inode free but the root, the bits of the data blocks clear, the log empty.

  function SuperWords(sb: Super): (ws: seq<word>)
    requires sb.Ok() && sb.ninodes < TWO32
    ensures |ws| == 4
  {
    [sb.size, sb.Start() - sb.DataStart(), sb.ninodes, sb.nlog]
  }

  function Describe(sb: Super): (block: Block)
    requires sb.Ok() && sb.ninodes < TWO32
  {
    PutWords(Zeros(), 0, SuperWords(sb))
  }

  lemma DescribeOk(sb: Super)
    requires sb.Ok() && sb.ninodes < TWO32
    ensures Describes(sb, Describe(sb))
  {
    WordsRoundTrip(Zeros(), 0, SuperWords(sb));
    assert GetWords(Describe(sb), 0, 4)[0] == sb.size && GetWords(Describe(sb), 0, 4)[2] == sb.ninodes
           && GetWords(Describe(sb), 0, 4)[3] == sb.nlog;
  }

  function BlankSector(sb: Super, s: nat): (block: Block)
    requires sb.Ok() && sb.ninodes < TWO32
  {
    if s == 1 then Describe(sb) else Zeros()
  }

  ghost function Blank(sb: Super): (v: View)
    requires sb.Ok() && sb.ninodes < TWO32
  {
    map s | 0 <= s < sb.Start() :: BlankSector(sb, s)
  }

  /** Block `b` is marked used unless it is a data block. */
  ghost function Reserve(sb: Super, v: View, b: nat): (w: View)
    ensures w.Keys == v.Keys
  {
    if sb.Data(b) || sb.BBlock(b) !in v then v else MarkedView(sb, v, b, true)
  }

  lemma ReserveUsed(sb: Super, v: View, b: nat, c: nat)
    requires sb.BBlock(b) in v
    ensures Used(sb, Reserve(sb, v, b), c) <==> Used(sb, v, c) || (c == b && !sb.Data(b))
  {
    MarkedUsed(sb, v, b, true, c);
    hide Used, MarkedView, Super.Data, Super.BBlock;
  }

  lemma ReserveFrame(sb: Super, v: View, b: nat, s: nat)
    requires sb.Ok() && b < sb.size && s < sb.BitmapStart() && s in v
    ensures Reserve(sb, v, b)[s] == v[s]
  {
    BitmapArea(sb, b);
    hide Super.Data, Super.BBlock, Super.BitmapStart, Marked;
  }

  /** Blank sectors with the bits of all blocks below `n` set that are not data blocks. */
  ghost function Formatting(sb: Super, n: nat): (v: View)
    requires sb.Ok() && sb.ninodes < TWO32
    ensures v.Keys == Blank(sb).Keys
  {
    if n == 0 then Blank(sb) else Reserve(sb, Formatting(sb, n - 1), n - 1)
  }

  lemma BlankBits(sb: Super, b: nat)
    requires sb.Ok() && sb.ninodes < TWO32 && b < sb.size
    ensures sb.BBlock(b) in Blank(sb) && !Used(sb, Blank(sb), b)
  {
    BitmapArea(sb, b);
    hide Super.BBlock, Super.BitmapStart, Super.DataStart;
    NoBits(b % 8);
    assert Blank(sb)[sb.BBlock(b)] == Zeros();
  }

  lemma {:induction false} NoBits(k: nat)
    ensures !Bit(0, k)
  {
    if k > 0 {
      NoBits(k - 1);
    }
  }

  lemma {:induction false} FormattingUsed(sb: Super, n: nat, c: nat)
    requires sb.Ok() && sb.ninodes < TWO32 && n <= sb.size && c < sb.size
    ensures Used(sb, Formatting(sb, n), c) <==> c < n && !sb.Data(c)
  {
    hide Used, Super.Data, Super.BBlock, Super.Ok, Blank, Reserve;
    BlankBits(sb, c);
    if n > 0 {
      FormattingUsed(sb, n - 1, c);
      BlankBits(sb, n - 1);
      ReserveUsed(sb, Formatting(sb, n - 1), n - 1, c);
    }
  }

  lemma {:induction false} FormattingFrame(sb: Super, n: nat, s: nat)
    requires sb.Ok() && sb.ninodes < TWO32 && n <= sb.size && s < sb.BitmapStart()
    ensures s in Formatting(sb, n) && Formatting(sb, n)[s] == BlankSector(sb, s)
  {
    if n == 0 {
      BitmapArea(sb, 0);
      hide Super.BBlock, Super.BitmapStart, Super.DataStart, BlankSector;
    } else {
      hide Super.BBlock, Super.BitmapStart, Super.DataStart, BlankSector, Reserve, Blank, Super.Ok;
      FormattingFrame(sb, n - 1, s);
      ReserveFrame(sb, Formatting(sb, n - 1), n - 1, s);
    }
  }

  function NoInode(i: nat): (d: DInode) {
    DInode(0, 0, 0, 0, 0, seq(NDIRECT + 1, _ => 0))
  }

  ghost function NoInodes(sb: Super): (t: Inodes) {
    map i | 0 <= i < sb.ninodes :: NoInode(i)
  }

  lemma ZeroInode(v: View, i: nat)
    requires IBlock(i) in v && v[IBlock(i)] == Zeros()
    ensures Ino(v, i) == NoInode(i)
  {
    hide FromWords, NoInode, Zeros;
    ZeroWords(64 * (i % IPB), INODE_WORDS);
    ZeroFields(GetWords(Zeros(), 64 * (i % IPB), INODE_WORDS), i);
  }

  lemma ZeroWords(off: nat, n: nat)
    requires off + 4 * n <= BSIZE
    ensures forall k :: 0 <= k < n ==> GetWords(Zeros(), off, n)[k] == 0
  {
    forall k | 0 <= k < n ensures GetU32(Zeros(), off + 4 * k) == 0 {
      ZeroWord(off + 4 * k);
    }
    hide GetU32, Zeros;
  }

  lemma ZeroWord(off: nat)
    requires off + 4 <= BSIZE
    ensures GetU32(Zeros(), off) == 0
  {
    FourDigits(0, 0, 0, 0);
  }

  lemma ZeroFields(ws: seq<word>, i: nat)
    requires |ws| == INODE_WORDS && forall k :: 0 <= k < |ws| ==> ws[k] == 0
    ensures FromWords(ws) == NoInode(i)
  {
    assert ws[3..] == NoInode(i).addrs;
  }

  /** Without block numbers in the inodes no block has an owner. */
  lemma NoOwners(sb: Super, v: View, t: Inodes)
    requires Sectors(sb, v) && TableOk(sb, t) && Bitmap(sb, v, map[], {})
    requires forall i, k: nat :: i in t ==> t[i].Addr(k) == 0
    ensures FsInv(sb, v, t, map[], {})
  {
    hide Sectors, TableOk, Bitmap;
    forall sl ensures Ref(v, t, sl) == 0 {
    }
  }

  lemma NewBitmap(sb: Super)
    requires sb.Ok() && sb.ninodes < TWO32
    ensures Bitmap(sb, Formatting(sb, sb.size), map[], {})
  {
    hide Formatting, Used, Super.BBlock, Super.BitmapStart, Super.DataStart;
    forall b: nat | b < sb.size ensures Used(sb, Formatting(sb, sb.size), b) <==> !sb.Data(b) {
      FormattingUsed(sb, sb.size, b);
    }
  }

  lemma NewSectors(sb: Super)
    requires sb.Ok() && sb.ninodes < TWO32
    ensures Sectors(sb, Formatting(sb, sb.size)) && TableOk(sb, NoInodes(sb))
  {
    hide Super.BBlock, Super.BitmapStart, Super.DataStart;
    assert Formatting(sb, sb.size).Keys == Blank(sb).Keys;
    forall i | i in NoInodes(sb) ensures NoInodes(sb)[i].Ok() {
      assert NoInodes(sb)[i] == NoInode(i);
    }
  }

  const ROOTINO: nat := 1
  const T_DIR: nat := 1

  function RootInode(): (d: DInode) {
    NoInode(ROOTINO).(typ := T_DIR, nlink := 1)
  }

  ghost function RootOnly(sb: Super): (t: Inodes) {
    NoInodes(sb)[ROOTINO := RootInode()]
  }

  ghost function NewDisk(sb: Super): (v: View)
    requires sb.Ok() && sb.ninodes < TWO32
  {
    var v := Formatting(sb, sb.size);
    if IBlock(ROOTINO) in v then v[IBlock(ROOTINO) := WithInode(v[IBlock(ROOTINO)], ROOTINO, RootInode())] else v
  }

  /** The sectors of a new disk are a consistent file system with an empty root and without owners of data blocks. */
  lemma NewDiskState(sb: Super)
    requires sb.Ok() && ROOTINO < sb.ninodes < TWO32
    ensures FsState(sb, NewDisk(sb), RootOnly(sb), map[], {}, {}) && Whole(NewDisk(sb), RootOnly(sb))
  {
    hide FsState, Formatting, WithInode, IBlock;
    RootState(sb);
    UpdatedState(sb, Formatting(sb, sb.size), RootOnly(sb), map[], {}, {ROOTINO}, ROOTINO);
    assert {ROOTINO} - {ROOTINO} == {};
  }

  lemma RootState(sb: Super)
    requires sb.Ok() && ROOTINO < sb.ninodes < TWO32
    ensures FsState(sb, Formatting(sb, sb.size), RootOnly(sb), map[], {}, {ROOTINO})
  {
    hide Formatting, Bitmap, Sectors, Super.Ok, SuperBlock, IBlock, Ino, FsInv;
    NewSuper(sb);
    NewSectors(sb);
    NewBitmap(sb);
    NewInodes(sb);
    NoOwners(sb, Formatting(sb, sb.size), RootOnly(sb));
  }

  /** A disk with these sectors and an empty log can be mounted. */
  lemma NewImage(sb: Super, d: Image)
    requires sb.Ok() && ROOTINO < sb.ninodes < TWO32
    requires Formatted(LogArea(sb), d) && HeadCount(d[At(sb.Start())]) == 0
    requires HomeOf(LogArea(sb), d) == NewDisk(sb)
    ensures Mountable(sb, d, RootOnly(sb), map[])
  {
    NewDiskState(sb);
    SuperThere(sb, NewDisk(sb), RootOnly(sb), map[]);
    NothingCommitted(LogArea(sb), d);
    hide NewDisk, FsState, Whole, RootOnly, HeadCount, LogOk, AfterCrash, Describes;
    assert HomeOf(LogArea(sb), d)[1] == d[At(1)];
  }

  lemma NewSuper(sb: Super)
    requires sb.Ok() && sb.ninodes < TWO32
    ensures SuperBlock(sb, Formatting(sb, sb.size))
  {
    FormattingFrame(sb, sb.size, 1);
    DescribeOk(sb);
  }

  lemma NewInodes(sb: Super)
    requires sb.Ok() && sb.ninodes < TWO32
    ensures Synced(sb, Formatting(sb, sb.size), NoInodes(sb), {})
  {
    hide Formatting, Super.BBlock, Super.BitmapStart, Super.DataStart, Ino, IBlock;
    var v, t := Formatting(sb, sb.size), NoInodes(sb);
    forall i | i in t ensures IBlock(i) in v && Ino(v, i) == t[i] {
      InodeArea(sb, i);
      FormattingFrame(sb, sb.size, IBlock(i));
      ZeroInode(v, i);
    }
  }
}
