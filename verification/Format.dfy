/** A first file system, and the next one after a crash. */
module Format {
  import opened Bytes
  import opened LogSpec
  import opened Layout
  import opened Ownership
  import opened FileSpec
  import opened InodeSpec
  import opened RedoLog
  import opened InodeLayer
  import opened FileLayer
  import opened Mount
  import opened DirCodec
  import opened DirSpec
  import opened DirLayer
  import NameSpec
  import Namespace

  /** What starts a kernel with sectors that are a consistent file system can be mounted as that file system. */
  lemma BootsMountable(sb: Super, d: Image, v: View, t: Inodes, owner: map<nat, Ownership.Slot>)
    requires Boots(LogArea(sb), sb, d, v) && FsState(sb, v, t, owner, {}, {}) && Whole(v, t)
    ensures Mountable(sb, d, t, owner) && AfterCrash(LogArea(sb), d) == v
  {
    hide FsState, Whole, LogOk, AfterCrash, SuperOn;
  }

  lemma TidyRoot(sb: Super)
    ensures Tidy(RootOnly(sb))
  {
    forall i | i in RootOnly(sb) ensures TidyInode(RootOnly(sb)[i]) {
      assert i != ROOTINO ==> RootOnly(sb)[i] == Mount.NoInode(i);
    }
  }

  /** A directory without entries, and nothing else. */
  ghost predicate Bare(nodes: seq<NameSpec.Node>) {
    && ROOTINO < |nodes| && nodes[ROOTINO] == NameSpec.Node(NameSpec.Dir, 1, [])
    && forall i :: 0 <= i < |nodes| && i != ROOTINO ==> nodes[i] == NameSpec.Node(NameSpec.Free, 0, [])
  }

  lemma BareWithDots(nodes: seq<NameSpec.Node>)
    requires Bare(nodes)
    ensures nodes[ROOTINO] == NameSpec.Node(NameSpec.Dir, 1, [])
    ensures NameSpec.Inv(nodes[ROOTINO := NameSpec.Node(NameSpec.Dir, 1, Dots(ROOTINO, ROOTINO))])
  {
    hide NameSpec.Inv;
    Namespace.NewTree(nodes[ROOTINO := NameSpec.Node(NameSpec.Dir, 1, Dots(ROOTINO, ROOTINO))]);
  }

  lemma RootNodes(sb: Super, v: View)
    requires ROOTINO < sb.ninodes
    ensures Bare(TreeOf(v, RootOnly(sb), sb.ninodes))
  {
    ContentsSize(v, RootOnly(sb), ROOTINO);
    hide Contents;
    assert Slots(Contents(v, RootOnly(sb), ROOTINO)) == [];
    forall i | 0 <= i < sb.ninodes && i != ROOTINO
      ensures NodeOf(v, RootOnly(sb), i) == NameSpec.Node(NameSpec.Free, 0, []) {
      assert RootOnly(sb)[i] == Mount.NoInode(i);
    }
  }

  /** The root directory of a new disk gets its dots, in one transaction.  Stopped: there is no data block for them. */
  method MakeRoot(image: Image, blank: Block, ghost sb: Super) returns (r: Result, fs: Fs)
    requires sb.Ok() && ROOTINO < sb.ninodes < TWO32 && Budget(sb, {}, {}, 6)
    requires Formatted(LogArea(sb), image) && HeadCount(image[At(sb.Start())]) == 0
    requires HomeOf(LogArea(sb), image) == NewDisk(sb)
    ensures r.Stopped? ==> UsedBelow(fs.sb, fs.log.view, fs.sb.size)
    ensures !r.Declined? && (r.Done? ==> Idle(fs) && fs.sb == sb && Tidy(fs.t) && NameSpec.Inv(Tree(fs)))
  {
    hide FsState, Whole, Mountable, AfterCrash, LogOk, NewDisk, RootOnly, Budget, Log.Valid, Tidy, TreeOf, HomeOf;
    hide HeadCount, UsedBelow;
    hide NameSpec.Inv, Recovers, Recovered;
    NewImage(sb, image);
    fs := Mount.Mount(image, blank, sb, RootOnly(sb), map[]);
    TidyRoot(sb);
    RootNodes(sb, fs.log.view);
    r := DotsOfRoot(fs);
  }

  method DotsOfRoot(fs: Fs) returns (r: Result)
    requires Idle(fs) && Tidy(fs.t) && ROOTINO < fs.sb.ninodes && Budget(fs.sb, {}, {}, 6)
    requires Bare(Tree(fs))
    modifies fs, fs.log, fs.log.cache
    ensures r.Stopped? ==> UsedBelow(fs.sb, fs.log.view, fs.sb.size)
    ensures !r.Declined? && (r.Done? ==> Idle(fs) && Tidy(fs.t) && NameSpec.Inv(Tree(fs)))
  {
    hide FsState, Whole, Budget, Log.Valid, Tidy, TreeOf, UsedBelow, NameSpec.Inv;
    hide SuperBlock, AllOrNothing, Bare, Dots, Layout.StructInode;
    ghost var trace, v := fs.log.cache.trace, fs.log.view;
    BareWithDots(Tree(fs));
    SuperThere(fs.sb, v, fs.t, fs.owner);
    BudgetRoom(fs.sb, {}, {}, 6);
    RootIn(fs);
    fs.log.BeginTrans();
    var ip := fs.InodeLock(ROOTINO);
    r := RootEntries(fs, ip);
    if r.Done? {
      EndTrans(fs, trace, v);
    }
  }

  method RootEntries(fs: Fs, ip: Inode) returns (r: Result)
    requires fs.log.trans && Settled(fs) && fs.Locked(ip) && ip.typ == DirSpec.T_DIR && ip.inum == ROOTINO < |Tree(fs)|
    requires Tree(fs)[ROOTINO] == NameSpec.Node(NameSpec.Dir, 1, []) && Budget(fs.sb, {}, fs.log.logged, 6)
    modifies ip`addrs, ip`size, fs`t, fs`owner, fs`floating, fs`lag
    modifies fs.log`held, fs.log`ptr, fs.log`n, fs.log`sector, fs.log`logged, fs.log`view, fs.log.cache
    ensures !r.Declined? && (r.Stopped? ==> UsedBelow(fs.sb, fs.log.view, fs.sb.size))
    ensures r.Done? ==>
              && Settled(fs) && fs.Locked(ip) && Budget(fs.sb, {}, fs.log.logged, 0)
              && Tree(fs) == old(Tree(fs))[ROOTINO := NameSpec.Node(NameSpec.Dir, 1, Dots(ROOTINO, ROOTINO))]
  {
    hide Settled, Budget, Tree, UsedBelow, NameSpec.HasName, NameSpec.Linked, Fs.Locked, NameOk;
    DotNames();
    FirstDots(Tree(fs)[ROOTINO], ROOTINO, ROOTINO);
    r := RootEntry(fs, ip, ".", 3);
    if r.Done? {
      r := RootEntry(fs, ip, "..", 0);
    }
  }

  lemma DotNames()
    ensures NameOk(".") && NameOk("..")
  {
  }

  lemma InsideFirst(ents: seq<NameSpec.Dirent>)
    requires |ents| <= 1
    ensures Inside(NameSpec.Slot(ents, 0))
  {
  }

  /** One of the two entries. */
  method RootEntry(fs: Fs, ip: Inode, name: NameSpec.Name, ghost k: nat) returns (r: Result)
    requires fs.log.trans && Settled(fs) && fs.Locked(ip) && ip.typ == DirSpec.T_DIR && ip.inum == ROOTINO < |Tree(fs)|
    requires NameOk(name)
    requires |Tree(fs)[ROOTINO].ents| <= 1 && !NameSpec.HasName(Tree(fs)[ROOTINO].ents, name)
    requires Tree(fs)[ROOTINO].kind == NameSpec.Dir && Budget(fs.sb, {}, fs.log.logged, 3 + k)
    modifies ip`addrs, ip`size, fs`t, fs`owner, fs`floating, fs`lag
    modifies fs.log`held, fs.log`ptr, fs.log`n, fs.log`sector, fs.log`logged, fs.log`view, fs.log.cache
    ensures !r.Declined? && (r.Stopped? ==> UsedBelow(fs.sb, fs.log.view, fs.sb.size))
    ensures r.Done? ==>
              && Settled(fs) && fs.Locked(ip) && Budget(fs.sb, {}, fs.log.logged, k)
              && Tree(fs) == old(Tree(fs))[ROOTINO := NameSpec.Linked(old(Tree(fs))[ROOTINO], name, ROOTINO)]
  {
    hide Settled, Budget, Spent, TreeOf, NodeOf, UsedBelow, NameSpec.HasName, NameSpec.Linked, NoPlace, EntryLogged;
    hide Inside;
    hide OnlyGrown;
    BudgetLess(fs.sb, {}, fs.log.logged, 3 + k);
    ReadyForEntry(fs, ip, 3 + k);
    InsideFirst(Tree(fs)[ROOTINO].ents);
    r := DirLink(fs, ip, name, ROOTINO);
    if r.Done? {
      BudgetLeft(fs.sb, old(fs.log.logged), fs.log.logged, 3, k);
    }
  }

  lemma RootIn(fs: Fs)
    requires fs.Valid() && ROOTINO < fs.sb.ninodes && Tree(fs)[ROOTINO].kind == NameSpec.Dir
    ensures ROOTINO in fs.t && fs.t[ROOTINO].typ == DirSpec.T_DIR
  {
  }
}
