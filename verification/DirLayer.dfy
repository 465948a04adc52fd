/** dir_lookup, dir_link, sys_link and sys_unlink on the blocks of the disk, each system call one transaction. */
module DirLayer {
  import opened Bytes
  import opened Collections
  import opened BufCache
  import opened LogSpec
  import opened RedoLog
  import opened Layout
  import opened Ownership
  import opened FileSpec
  import opened InodeSpec
  import opened FreeSpace
  import opened InodeLayer
  import opened FileLayer
  import opened DirCodec
  import opened DirSpec
  import opened NameSpec
  import Namespace

  const T_FILE: nat := 2

  datatype Result = Done | Declined | Stopped

  /** Nothing is in flight, apart from what the transaction has logged. */
  ghost predicate Settled(fs: Fs)
    reads fs, fs.log, fs.log.cache
  {
    && fs.Valid() && Whole(fs.log.view, fs.t) && Tidy(fs.t)
    && fs.log.held == {} && fs.floating == {} && fs.lag == {}
  }

  /** The tree of names as the transaction sees it. */
  ghost function Tree(fs: Fs): (r: seq<Node>)
    reads fs, fs.log
  {
    TreeOf(fs.log.view, fs.t, fs.sb.ninodes)
  }

  ghost function Ents(fs: Fs, dp: Inode): (r: seq<Dirent>)
    reads fs, fs.log
  {
    NodeOf(fs.log.view, fs.t, dp.inum).ents
  }

  /** A directory that may be read. */
  ghost predicate Open(fs: Fs, dp: Inode)
    reads fs, dp, fs.log, fs.log.cache
  {
    Settled(fs) && fs.Locked(dp) && dp.typ == T_DIR && fs.log.Room()
  }

  lemma OpenSize(fs: Fs, dp: Inode)
    requires Open(fs, dp)
    ensures dp.inum in fs.t && |Contents(fs.log.view, fs.t, dp.inum)| == dp.size && dp.size % DIRENT == 0
    ensures Ents(fs, dp) == Slots(Contents(fs.log.view, fs.t, dp.inum)) && |Ents(fs, dp)| == dp.size / DIRENT
    ensures dp.size <= MAXFILE * BSIZE
  {
    DirCount(fs.log.view, fs.t, dp.inum);
    WholeOne(fs.log.view, fs.t, dp.inum);
  }

  /** The directory has the entries `ents`, and nothing has changed since the sectors were `v`. */
  ghost predicate Reading(fs: Fs, dp: Inode, v: View, t: Inodes, owner: map<nat, Ownership.Slot>, lag: set<nat>,
                          logged: set<nat>, ents: seq<Dirent>)
    reads fs, dp, fs.log, fs.log.cache
  {
    Open(fs, dp) && fs.Frozen(v, t, owner, lag, logged) && Ents(fs, dp) == ents
  }

  /** Before a loop over the entries. */
  lemma StartReading(fs: Fs, dp: Inode)
    requires Open(fs, dp)
    ensures Reading(fs, dp, fs.log.view, fs.t, fs.owner, fs.lag, fs.log.logged, Ents(fs, dp))
    ensures dp.size == DIRENT * |Ents(fs, dp)|
  {
    hide Open;
    OpenSize(fs, dp);
  }

  /** inode_read of the entry in slot `s`. */
  method ReadEntry(fs: Fs, dp: Inode, s: nat, ghost v: View, ghost t: Inodes, ghost owner: map<nat, Ownership.Slot>,
                   ghost lag: set<nat>, ghost logged: set<nat>, ghost ents: seq<Dirent>) returns (de: Dirent)
    requires Reading(fs, dp, v, t, owner, lag, logged, ents) && s < |ents|
    modifies dp`addrs, fs`t, fs`owner, fs`floating, fs`lag
    modifies fs.log`held, fs.log`ptr, fs.log`n, fs.log`sector, fs.log`logged, fs.log`view, fs.log.cache
    ensures Reading(fs, dp, v, t, owner, lag, logged, ents) && de == ents[s]
  {
    hide Log.Valid, FsState, Contents, Whole, Slots, Decode, Tidy;
    OpenSize(fs, dp);
    assert DIRENT * s + DIRENT <= dp.size;
    SlotAt(Contents(fs.log.view, fs.t, dp.inum), s);
    var r := fs.InodeRead(dp, DIRENT * s, DIRENT);
    de := Decode(r.value);
  }

  /** dir_lookup: the entry of `name` and its slot; 0 if there is none. */
  method DirLookup(fs: Fs, dp: Inode, name: Name) returns (inum: nat, s: nat)
    requires Open(fs, dp)
    modifies dp`addrs, fs`t, fs`owner, fs`floating, fs`lag
    modifies fs.log`held, fs.log`ptr, fs.log`n, fs.log`sector, fs.log`logged, fs.log`view, fs.log.cache
    ensures Open(fs, dp) && fs.Frozen(old(fs.log.view), old(fs.t), old(fs.owner), old(fs.lag), old(fs.log.logged))
    ensures inum == 0 <==> !HasName(Ents(fs, dp), name)
    ensures inum != 0 ==> s < |Ents(fs, dp)| && Ents(fs, dp)[s] == Dirent(inum, name)
  {
    hide Open, Ents;
    StartReading(fs, dp);
    ghost var v, t, owner, lag, logged, ents := fs.log.view, fs.t, fs.owner, fs.lag, fs.log.logged, Ents(fs, dp);
    inum, s := Scan(fs, dp, name, v, t, owner, lag, logged, ents);
  }

  /** The loop of dir_lookup. */
  method Scan(fs: Fs, dp: Inode, name: Name, ghost v: View, ghost t: Inodes, ghost owner: map<nat, Ownership.Slot>,
              ghost lag: set<nat>, ghost logged: set<nat>, ghost ents: seq<Dirent>) returns (inum: nat, s: nat)
    requires Reading(fs, dp, v, t, owner, lag, logged, ents) && dp.size == DIRENT * |ents|
    modifies dp`addrs, fs`t, fs`owner, fs`floating, fs`lag
    modifies fs.log`held, fs.log`ptr, fs.log`n, fs.log`sector, fs.log`logged, fs.log`view, fs.log.cache
    ensures Reading(fs, dp, v, t, owner, lag, logged, ents)
    ensures inum == 0 <==> !HasName(ents, name)
    ensures inum != 0 ==> s < |ents| && ents[s] == Dirent(inum, name)
  {
    hide Reading;
    s := 0;
    while DIRENT * s < dp.size
      invariant Reading(fs, dp, v, t, owner, lag, logged, ents) && s <= |ents|
      invariant forall k :: 0 <= k < s ==> ents[k].inum == 0 || ents[k].name != name
    {
      var de := ReadEntry(fs, dp, s, v, t, owner, lag, logged, ents);
      if de.inum != 0 && de.name == name {
        return de.inum, s;
      }
      s := s + 1;
    }
    inum := 0;
  }

  /** The search of dir_link for an empty slot. */
  method FindSlot(fs: Fs, dp: Inode, ghost v: View, ghost t: Inodes, ghost owner: map<nat, Ownership.Slot>,
                  ghost lag: set<nat>, ghost logged: set<nat>, ghost ents: seq<Dirent>) returns (s: nat)
    requires Reading(fs, dp, v, t, owner, lag, logged, ents) && dp.size == DIRENT * |ents|
    modifies dp`addrs, fs`t, fs`owner, fs`floating, fs`lag
    modifies fs.log`held, fs.log`ptr, fs.log`n, fs.log`sector, fs.log`logged, fs.log`view, fs.log.cache
    ensures Reading(fs, dp, v, t, owner, lag, logged, ents) && s == NameSpec.Slot(ents, 0)
  {
    hide Reading;
    s := 0;
    while DIRENT * s < dp.size
      invariant Reading(fs, dp, v, t, owner, lag, logged, ents) && s <= |ents|
      invariant NameSpec.Slot(ents, s) == NameSpec.Slot(ents, 0)
    {
      var de := ReadEntry(fs, dp, s, v, t, owner, lag, logged, ents);
      if de.inum == 0 {
        return;
      }
      s := s + 1;
    }
  }

  /** Inodes other than `i` are as before, and `i` differs in size and blocks at most. */
  ghost predicate OnlyGrown(t: Inodes, u: Inodes, i: nat) {
    && u.Keys == t.Keys && (forall k :: k in t && k != i ==> u[k] == t[k])
    && (i in t ==> u[i] == t[i].(addrs := u[i].addrs, size := u[i].size))
  }

  /** The blocks that writing slot `s` of directory `i` may take, and the sectors it may log. */
  ghost predicate EntryLogged(sb: Super, owner: map<nat, Ownership.Slot>, owner': map<nat, Ownership.Slot>,
                              logged: set<nat>, logged': set<nat>, i: nat, s: nat) {
    && OwnerGrows(owner, owner', i) && KeepsBalance(sb, owner, owner', i, DIRENT * s / BSIZE, DIRENT * s / BSIZE + 1)
    && logged' <= logged + BitmapSectors(sb) + {IBlock(i)} + Span(owner', i, DIRENT * s / BSIZE, DIRENT * s / BSIZE + 1)
  }

  /** inode_write of `e` into slot `s`: false without a block for it, or past the largest directory. */
  method WriteEntry(fs: Fs, dp: Inode, s: nat, e: Dirent) returns (ok: bool)
    requires fs.log.trans && Open(fs, dp) && EntryFits(e) && Budget(fs.sb, {}, fs.log.logged, 3)
    requires s <= |Ents(fs, dp)|
    modifies dp`addrs, dp`size, fs`t, fs`owner, fs`floating, fs`lag
    modifies fs.log`held, fs.log`ptr, fs.log`n, fs.log`sector, fs.log`logged, fs.log`view, fs.log.cache
    ensures ok <==> Inside(s) && Fits(fs.sb, old(fs.owner), dp.inum, DIRENT * s, DIRENT)
    ensures !ok ==> fs.log.Valid() && (Inside(s) ==> UsedBelow(fs.sb, fs.log.view, fs.sb.size))
    ensures ok ==>
              && Settled(fs) && fs.Locked(dp) && Spent(fs.sb, old(fs.log.logged), fs.log.logged, 3)
              && Tree(fs) ==
                  old(Tree(fs))[dp.inum := old(Tree(fs))[dp.inum].(ents := NameSpec.Put(old(Ents(fs, dp)), s, e))]
              && OnlyGrown(old(fs.t), fs.t, dp.inum)
              && FilesSame(old(fs.log.view), old(fs.t), fs.log.view, fs.t, {dp.inum})
              && EntryLogged(fs.sb, old(fs.owner), fs.owner, old(fs.log.logged), fs.log.logged, dp.inum, s)
  {
    hide OwnerGrows, Span, BitmapSectors, IBlock, FilesSame;
    hide Log.Valid, FsState, Contents, Whole, Slots, Encode, Tidy, Budget, Spent, UsedBelow, Fits, NameSpec.Put;
    hide KeepsBalance, Short;
    hide FileWritten;
    OpenSize(fs, dp);
    EntryBlock(s);
    EntryInside(fs.sb, fs.log.view, fs.t, fs.owner, dp.inum);
    RefusedOutside(dp.size, s);
    hide Refused;
    var r := fs.InodeWrite(dp, Encode(e), DIRENT * s);
    ok := r == Some(DIRENT);
    if ok {
      WrittenTree(old(fs.log.view), old(fs.t), fs.log.view, fs.t, dp.inum, s, e, fs.sb.ninodes);
      WrittenOnly(old(fs.log.view), old(fs.t), fs.log.view, fs.t, dp.inum, DIRENT * s, Encode(e));
      WrittenFiles(old(fs.log.view), old(fs.t), fs.log.view, fs.t, dp.inum, DIRENT * s, Encode(e));
    }
  }

  lemma EntryInside(sb: Super, v: View, t: Inodes, owner: map<nat, Ownership.Slot>, i: nat)
    requires FsState(sb, v, t, owner, {}, {}) && i in t
    ensures i < sb.ninodes
  {
  }

  /** Slot `s` ends within the largest file. */
  predicate Inside(s: nat) { DIRENT * s + DIRENT <= MAXFILE * BSIZE }

  lemma RefusedOutside(size: word, s: nat)
    requires DIRENT * s <= size <= MAXFILE * BSIZE
    ensures DIRENT * s < TWO32 && (Refused(size, DIRENT * s, DIRENT) <==> !Inside(s))
  {
  }

  lemma WrittenOnly(v: View, t: Inodes, w: View, u: Inodes, i: nat, off: nat, src: seq<byte>)
    requires FileWritten(v, t, w, u, i, off, src)
    ensures Whole(w, u) && OnlyGrown(t, u, i)
  {
    hide Contents, Whole, Splice;
  }

  lemma InTree(fs: Fs, dp: Inode)
    requires Settled(fs) && fs.Locked(dp)
    ensures dp.inum < |Tree(fs)| && Tree(fs)[dp.inum].ents == Ents(fs, dp)
    ensures Tree(fs)[dp.inum].kind == KindOf(dp.typ) && Tree(fs)[dp.inum].nlink == dp.nlink <= LINK_MAX
  {
    assert TidyInode(fs.t[dp.inum]);
    EntryInside(fs.sb, fs.log.view, fs.t, fs.owner, dp.inum);
  }

  /** The next entry lies past the largest file, or the free blocks do not cover what it needs and `k` more. */
  ghost predicate NoPlace(fs: Fs, owner: map<nat, Ownership.Slot>, i: nat, ents: seq<Dirent>, k: nat) {
    var s := NameSpec.Slot(ents, 0);
    Inside(s) ==> Balance(fs.sb, owner, i, DIRENT * s / BSIZE, DIRENT * s / BSIZE + 1) < k
  }

  /** Why dir_link stops: the directory or the disk is full. */
  ghost predicate Full(fs: Fs, ents: seq<Dirent>)
    reads fs, fs.log
  {
    Inside(NameSpec.Slot(ents, 0)) ==> UsedBelow(fs.sb, fs.log.view, fs.sb.size)
  }

  lemma PlaceFits(fs: Fs, owner: map<nat, Ownership.Slot>, i: nat, ents: seq<Dirent>)
    ensures var s := NameSpec.Slot(ents, 0);
            NoPlace(fs, owner, i, ents, 0) <==> !(Inside(s) && Fits(fs.sb, owner, i, DIRENT * s, DIRENT))
  {
    hide Balance, Blocks;
    EntryBlock(NameSpec.Slot(ents, 0));
  }

  /** dir_link.  Stopped stands for the panics of a full disk or directory, Declined for the error return. */
  method DirLink(fs: Fs, dp: Inode, name: Name, inum: nat) returns (r: Result)
    requires fs.log.trans && Open(fs, dp) && inum != 0 && EntryFits(Dirent(inum, name))
    requires Budget(fs.sb, {}, fs.log.logged, 3)
    modifies dp`addrs, dp`size, fs`t, fs`owner, fs`floating, fs`lag
    modifies fs.log`held, fs.log`ptr, fs.log`n, fs.log`sector, fs.log`logged, fs.log`view, fs.log.cache
    ensures r.Declined? <==> HasName(old(Ents(fs, dp)), name)
    ensures r.Declined? ==>
              Open(fs, dp) && fs.Frozen(old(fs.log.view), old(fs.t), old(fs.owner), old(fs.lag), old(fs.log.logged))
    ensures r.Stopped? ==> fs.log.Valid() && Full(fs, old(Ents(fs, dp)))
    ensures r.Stopped? <==>
              !HasName(old(Ents(fs, dp)), name) && NoPlace(fs, old(fs.owner), dp.inum, old(Ents(fs, dp)), 0)
    ensures r.Done? ==>
              && Settled(fs) && fs.Locked(dp) && Spent(fs.sb, old(fs.log.logged), fs.log.logged, 3)
              && Tree(fs) == old(Tree(fs))[dp.inum := Linked(old(Tree(fs))[dp.inum], name, inum)]
              && OnlyGrown(old(fs.t), fs.t, dp.inum)
              && FilesSame(old(fs.log.view), old(fs.t), fs.log.view, fs.t, {dp.inum})
              && EntryLogged(fs.sb, old(fs.owner), fs.owner, old(fs.log.logged), fs.log.logged, dp.inum,
                             NameSpec.Slot(old(Ents(fs, dp)), 0))
  {
    hide FilesSame;
    hide Settled, Budget, Spent, UsedBelow, Fits, NameSpec.Put, EntryFits, HasName, NodeOf, EntryLogged, Inside;
    hide NoPlace;
    PlaceFits(fs, fs.owner, dp.inum, Ents(fs, dp));
    var found, at := DirLookup(fs, dp, name);
    if found != 0 {
      return Declined;
    }
    StartReading(fs, dp);
    var s := FindSlot(fs, dp, fs.log.view, fs.t, fs.owner, fs.lag, fs.log.logged, Ents(fs, dp));
    assert Tree(fs) == old(Tree(fs)) && Ents(fs, dp) == old(Ents(fs, dp));
    InTree(fs, dp);
    OpenSize(fs, dp);
    var ok := WriteEntry(fs, dp, s, Dirent(inum, name));
    r := if ok then Done else Stopped;
  }

  /** New type and link count of an inode in memory, and inode_update. */
  method SetLabel(fs: Fs, ip: Inode, typ: nat, nlink: nat)
    requires fs.log.trans && Settled(fs) && fs.Locked(ip) && typ < TWO16 && nlink < TWO16
    requires Budget(fs.sb, {}, fs.log.logged, 1)
    modifies ip`typ, ip`nlink, fs`t, fs`lag
    modifies fs.log`held, fs.log`ptr, fs.log`n, fs.log`sector, fs.log`logged, fs.log`view, fs.log.cache
    ensures fs.Valid() && fs.Locked(ip) && fs.log.held == {} && fs.lag == {}
    ensures ip.typ == typ && ip.nlink == nlink && fs.t == old(fs.t)[ip.inum := ip.D()]
    ensures Labelled(old(fs.log.view), old(fs.t), fs.log.view, fs.t, ip.inum, ip.D())
    ensures fs.log.logged == old(fs.log.logged) + {IBlock(ip.inum)}
  {
    hide Log.Valid, FsState, Whole, Budget, WithInode, Labelled, Contents, Tidy, IBlock;
    ip.typ, ip.nlink := typ, nlink;
    LabelState(fs.sb, fs.log.view, fs.t, fs.owner, ip.inum, ip.D());
    LabelStored(fs.sb, fs.log.view, fs.t, fs.owner, ip.inum, ip.D());
    fs.t := fs.t[ip.inum := ip.D()];
    fs.lag := {ip.inum};
    fs.InodeUpdate(ip);
  }

  /** A new link count changes one node. */
  lemma Relinked(fs: Fs, ip: Inode, v: View, t: Inodes)
    requires Labelled(v, t, fs.log.view, fs.t, ip.inum, ip.D()) && ip.D().typ == t[ip.inum].typ != 0
    requires ip.inum < fs.sb.ninodes && Tidy(t) && ip.nlink <= LINK_MAX
    ensures Tree(fs) == TreeOf(v, t, fs.sb.ninodes)[ip.inum := TreeOf(v, t, fs.sb.ninodes)[ip.inum].(nlink := ip.nlink)]
    ensures Tidy(fs.t) && Whole(fs.log.view, fs.t)
  {
    hide Contents, Whole;
    LabelledTree(v, t, fs.log.view, fs.t, ip.inum, ip.D(), fs.sb.ninodes);
  }

  /** `ip->nlink = nlink; inode_update(ip)`. */
  method SetLinks(fs: Fs, ip: Inode, nlink: nat)
    requires fs.log.trans && Settled(fs) && fs.Locked(ip) && ip.typ != 0 && nlink <= LINK_MAX
    requires Budget(fs.sb, {}, fs.log.logged, 1)
    modifies ip`typ, ip`nlink, fs`t, fs`lag
    modifies fs.log`held, fs.log`ptr, fs.log`n, fs.log`sector, fs.log`logged, fs.log`view, fs.log.cache
    ensures Settled(fs) && fs.Locked(ip) && ip.D() == old(ip.D()).(nlink := nlink)
    ensures fs.t == old(fs.t)[ip.inum := ip.D()]
    ensures ip.inum < |old(Tree(fs))| && Tree(fs) == old(Tree(fs))[ip.inum := old(Tree(fs))[ip.inum].(nlink := nlink)]
    ensures Spent(fs.sb, old(fs.log.logged), fs.log.logged, 1)
    ensures fs.log.logged == old(fs.log.logged) + {IBlock(ip.inum)}
    ensures FilesSame(old(fs.log.view), old(fs.t), fs.log.view, fs.t, {ip.inum})
    ensures Contents(fs.log.view, fs.t, ip.inum) == old(Contents(fs.log.view, fs.t, ip.inum))
  {
    hide Log.Valid, FsState, Whole, Budget, Labelled, Contents, Tidy, IBlock, Spent, TreeOf, FilesSame;
    InTree(fs, ip);
    SpentMost(fs.sb, fs.log.logged, fs.log.logged, 0, 0);
    SpentOne(fs.sb, fs.log.logged, fs.log.logged, 0, IBlock(ip.inum));
    SetLabel(fs, ip, ip.typ, nlink);
    Relinked(fs, ip, old(fs.log.view), old(fs.t));
    LabelledFiles(old(fs.log.view), old(fs.t), fs.log.view, fs.t, ip.inum, ip.D());
  }

  /** sys_link inside its transaction.  Stopped stands for the panics of dir_link. */
  method LinkInside(fs: Fs, ip: Inode, dp: Option<Inode>, name: Name) returns (r: Result)
    requires fs.log.trans && Settled(fs) && fs.Locked(ip) && ip.typ != T_DIR && ip.typ != 0 && 0 < ip.inum < TWO16
    requires NameOk(name)
    requires ip.nlink < LINK_MAX && Budget(fs.sb, {}, fs.log.logged, 6)
    requires dp.Some? ==> fs.Locked(dp.value) && dp.value.typ == T_DIR
    modifies ip`typ, ip`nlink, fs`t, fs`owner, fs`floating, fs`lag, if dp.Some? then {dp.value} else {}
    modifies fs.log`held, fs.log`ptr, fs.log`n, fs.log`sector, fs.log`logged, fs.log`view, fs.log.cache
    ensures fs.log.Valid()
    ensures !r.Stopped? ==>
              Settled(fs) && fs.Locked(ip) && Budget(fs.sb, {}, fs.log.logged, 0) && (dp.Some? ==> fs.Locked(dp.value))
    ensures r.Declined? <==> dp.None? || HasName(old(Ents(fs, dp.value)), name)
    ensures r.Stopped? ==>
              Full(fs, old(Ents(fs, dp.value))) && NoPlace(fs, old(fs.owner), dp.value.inum, old(Ents(fs, dp.value)), 0)
    ensures r.Done? ==> !NoPlace(fs, old(fs.owner), dp.value.inum, old(Ents(fs, dp.value)), 0)
    ensures r.Declined? ==> Tree(fs) == old(Tree(fs))
    ensures r.Done? ==>
              && dp.value.inum < |old(Tree(fs))| && ip.inum < |old(Tree(fs))| && ip.inum != dp.value.inum
              && Tree(fs) == AddLink(old(Tree(fs)), dp.value.inum, name, ip.inum)
              && ip.D() == old(ip.D()).(nlink := old(ip.nlink) + 1)
              && dp.value.typ == old(dp.value.typ) && dp.value.nlink == old(dp.value.nlink)
              && FilesSame(old(fs.log.view), old(fs.t), fs.log.view, fs.t, {ip.inum, dp.value.inum})
              && Contents(fs.log.view, fs.t, ip.inum) == old(Contents(fs.log.view, fs.t, ip.inum))
    ensures r.Declined? ==> FilesSame(old(fs.log.view), old(fs.t), fs.log.view, fs.t, {})
  {
    hide Settled, Budget, Spent, Full, HasName, AddLink, TreeOf, NodeOf, Linked, Tree, Ents, Log.Valid, NoPlace;
    hide FilesSame, Contents;
    InTree(fs, ip);
    if dp.Some? {
      InTree(fs, dp.value);
    }
    ghost var nodes, i := Tree(fs), ip.inum;
    BudgetLess(fs.sb, {}, fs.log.logged, 6);
    SetLinks(fs, ip, ip.nlink + 1);
    BudgetLeft(fs.sb, old(fs.log.logged), fs.log.logged, 1, 5);
    BudgetLess(fs.sb, {}, fs.log.logged, 5);
    ghost var logged, v1, t1 := fs.log.logged, fs.log.view, fs.t;
    if dp.Some? {
      var q := LinkMore(fs, ip, dp.value, name, nodes);
      if q.Stopped? {
        return Stopped;
      } else if q.Done? {
        FilesThen(old(fs.log.view), old(fs.t), v1, t1, fs.log.view, fs.t, {ip.inum}, {dp.value.inum},
                  {ip.inum, dp.value.inum});
        FileIs(v1, t1, fs.log.view, fs.t, {dp.value.inum}, ip.inum);
        BudgetLeft(fs.sb, logged, fs.log.logged, 3, 2);
        BudgetLess(fs.sb, {}, fs.log.logged, 2);
        return q;
      }
    }
    Uncount(fs, ip, nodes);
    FilesThen(old(fs.log.view), old(fs.t), v1, t1, fs.log.view, fs.t, {ip.inum}, {ip.inum}, {ip.inum});
    FilesBack(old(fs.log.view), old(fs.t), fs.log.view, fs.t, ip.inum);
    return Declined;
  }

  /** The way back at `bad` in sys_link. */
  method Uncount(fs: Fs, ip: Inode, ghost nodes: seq<Node>)
    requires fs.log.trans && Settled(fs) && fs.Locked(ip) && ip.typ != 0 && ip.inum < |nodes|
    requires ip.nlink == nodes[ip.inum].nlink + 1
    requires Tree(fs) == nodes[ip.inum := nodes[ip.inum].(nlink := ip.nlink)] && Budget(fs.sb, {}, fs.log.logged, 1)
    modifies ip`typ, ip`nlink, fs`t, fs`lag
    modifies fs.log`held, fs.log`ptr, fs.log`n, fs.log`sector, fs.log`logged, fs.log`view, fs.log.cache
    ensures Settled(fs) && fs.log.Valid() && fs.Locked(ip) && Budget(fs.sb, {}, fs.log.logged, 0) && Tree(fs) == nodes
    ensures fs.t == old(fs.t)[ip.inum := ip.D()] && ip.D() == old(ip.D()).(nlink := nodes[ip.inum].nlink)
    ensures FilesSame(old(fs.log.view), old(fs.t), fs.log.view, fs.t, {ip.inum})
    ensures Contents(fs.log.view, fs.t, ip.inum) == old(Contents(fs.log.view, fs.t, ip.inum))
  {
    hide Settled, Budget, Spent, TreeOf, NodeOf, Log.Valid, FilesSame, Contents;
    InTree(fs, ip);
    SetLinks(fs, ip, ip.nlink - 1);
    BudgetLeft(fs.sb, old(fs.log.logged), fs.log.logged, 1, 0);
    Unlinked(nodes, ip.inum, nodes[ip.inum].nlink + 1);
    SettledLog(fs);
  }

  lemma Unlinked(nodes: seq<Node>, i: nat, nlink: nat)
    requires i < |nodes|
    ensures var r := nodes[i := nodes[i].(nlink := nlink)]; r[i := r[i].(nlink := nodes[i].nlink)] == nodes
  {
  }

  /** dir_link as sys_link calls it, with the link already counted. */
  method LinkMore(fs: Fs, ip: Inode, dp: Inode, name: Name, ghost nodes: seq<Node>) returns (r: Result)
    requires fs.log.trans && Settled(fs) && fs.Locked(ip) && ip.typ != T_DIR && 0 < ip.inum < TWO16 && NameOk(name)
    requires ip.inum < |nodes| && Tree(fs) == nodes[ip.inum := nodes[ip.inum].(nlink := nodes[ip.inum].nlink + 1)]
    requires fs.Locked(dp) && dp.typ == T_DIR && dp.inum < |nodes| && Budget(fs.sb, {}, fs.log.logged, 3)
    modifies dp`addrs, dp`size, fs`t, fs`owner, fs`floating, fs`lag
    modifies fs.log`held, fs.log`ptr, fs.log`n, fs.log`sector, fs.log`logged, fs.log`view, fs.log.cache
    ensures fs.log.Valid()
    ensures !r.Stopped? ==> Settled(fs) && fs.Locked(ip) && fs.Locked(dp)
    ensures r.Declined? <==> HasName(nodes[dp.inum].ents, name)
    ensures r.Stopped? ==> Full(fs, nodes[dp.inum].ents) && NoPlace(fs, old(fs.owner), dp.inum, nodes[dp.inum].ents, 0)
    ensures r.Done? ==> !NoPlace(fs, old(fs.owner), dp.inum, nodes[dp.inum].ents, 0)
    ensures r.Declined? ==> Tree(fs) == old(Tree(fs)) && fs.log.logged == old(fs.log.logged)
    ensures r.Declined? ==> fs.log.view == old(fs.log.view) && fs.t == old(fs.t)
    ensures r.Done? ==>
              && Spent(fs.sb, old(fs.log.logged), fs.log.logged, 3)
              && ip.inum != dp.inum && Tree(fs) == AddLink(nodes, dp.inum, name, ip.inum)
              && FilesSame(old(fs.log.view), old(fs.t), fs.log.view, fs.t, {dp.inum})
  {
    hide FilesSame;
    hide Budget, Spent, Full, HasName, Linked, Log.Valid, FsState, Whole, Tidy, NodeOf, NoPlace, EntryLogged;
    assert ip.inum != dp.inum;
    InTree(fs, dp);
    BudgetRoom(fs.sb, {}, fs.log.logged, 3);
    r := DirLink(fs, dp, name, ip.inum);
  }

  lemma SettledLog(fs: Fs)
    requires Settled(fs)
    ensures fs.log.Valid()
  {
  }

  /** The tree after sys_link: directory `d` names inode `i`, which has one link more. */
  ghost predicate LinkedTree(nodes: seq<Node>, d: nat, name: Name, i: nat, r: seq<Node>) {
    d < |nodes| && i < |nodes| && i != d && r == AddLink(nodes, d, name, i)
  }

  /**
    sys_link for a file that is still linked and a directory (none: not found): one transaction that
    adds the link or changes nothing, wherever a crash cuts it off.
   */
  method SysLink(fs: Fs, ip: Inode, dp: Option<Inode>, name: Name) returns (r: Result)
    requires Idle(fs) && Tidy(fs.t) && Budget(fs.sb, {}, {}, 6)
    requires fs.Locked(ip) && ip.typ != 0 && 0 < ip.inum < TWO16 && 0 < ip.nlink < LINK_MAX && NameOk(name)
    requires dp.Some? ==> fs.Locked(dp.value) && dp.value.typ == T_DIR
    modifies ip`typ, ip`nlink, fs, fs.log, fs.log.cache, if dp.Some? then {dp.value} else {}
    ensures !r.Declined? ==> dp.Some?
    ensures r.Declined? ==> FilesSame(old(fs.log.view), old(fs.t), fs.log.view, fs.t, {})
    ensures r.Done? ==>
              var v, t, w, u, i, d := old(fs.log.view), old(fs.t), fs.log.view, fs.t, ip.inum, dp.value.inum;
              && FilesSame(v, t, w, u, {i, d}) && i in t && i in u && d in t && d in u
              && u[i] == t[i].(nlink := t[i].nlink + 1) && Contents(w, u, i) == Contents(v, t, i)
              && u[d].typ == 1 && u[d].nlink == t[d].nlink
              && (UniqueNames(NodeOf(v, t, d).ents) ==>
                    NameSpec.Entries(NodeOf(w, u, d).ents) == NameSpec.Entries(NodeOf(v, t, d).ents)[name := i])
    ensures r.Declined? <==> old(ip.typ) == T_DIR || dp.None? || HasName(old(Ents(fs, dp.value)), name)
    ensures AllOrNothing(fs, old(fs.log.cache.trace), old(fs.log.view), !r.Stopped?)
    ensures !r.Stopped? ==> Idle(fs) && Tidy(fs.t) && fs.Locked(ip) && (dp.Some? ==> fs.Locked(dp.value))
    ensures r.Stopped? ==>
              Full(fs, old(Ents(fs, dp.value))) && NoPlace(fs, old(fs.owner), dp.value.inum, old(Ents(fs, dp.value)), 0)
    ensures r.Done? ==> !NoPlace(fs, old(fs.owner), dp.value.inum, old(Ents(fs, dp.value)), 0)
    ensures r.Declined? ==> Tree(fs) == old(Tree(fs))
    ensures r.Done? ==>
              && LinkedTree(old(Tree(fs)), dp.value.inum, name, ip.inum, Tree(fs))
              && (old(Inv(Tree(fs))) ==> (Inv(Tree(fs)) <==> old(dp.value.nlink) > 0))
  {
    hide FilesSame, Contents, NameSpec.Entries, UniqueNames;
    hide Log.Valid, FsState, Budget, Full, HasName, AddLink, TreeOf, NodeOf, NoPlace, Whole, Tidy, AllOrNothing, Inv;
    hide SuperBlock;
    ghost var trace, v, nodes := fs.log.cache.trace, fs.log.view, Tree(fs);
    SuperThere(fs.sb, v, fs.t, fs.owner);
    InTree(fs, ip);
    if dp.Some? {
      InTree(fs, dp.value);
    }
    BudgetLess(fs.sb, {}, {}, 6);
    fs.log.BeginTrans();
    if ip.typ == T_DIR {
      r := Declined;
      FilesNone(fs.log.view, fs.t, {});
    } else {
      r := LinkInside(fs, ip, dp, name);
    }
    if r.Done? && Inv(nodes) {
      Namespace.LinkMade(nodes, dp.value.inum, name, ip.inum);
    }
    if r.Done? && UniqueNames(nodes[dp.value.inum].ents) {
      EnteredName(nodes, dp.value.inum, name, ip.inum);
    }
    if r.Stopped? {
      StopTrans(fs, trace, v);
    } else {
      EndTrans(fs, trace, v);
    }
  }

  /** The link as one more binding of the directory's map. */
  lemma EnteredName(nodes: seq<Node>, d: nat, name: Name, i: nat)
    requires d < |nodes| && i < |nodes| && i != d && i != 0
    requires UniqueNames(nodes[d].ents) && !HasName(nodes[d].ents, name)
    ensures NameSpec.Entries(AddLink(nodes, d, name, i)[d].ents) == NameSpec.Entries(nodes[d].ents)[name := i]
  {
    EntriesPut(nodes[d].ents, NameSpec.Slot(nodes[d].ents, 0), Dirent(i, name));
  }

  // ---- sys_unlink ----

  /** isdirempty. */
  method IsDirEmpty(fs: Fs, dp: Inode) returns (r: bool)
    requires Open(fs, dp)
    modifies dp`addrs, fs`t, fs`owner, fs`floating, fs`lag
    modifies fs.log`held, fs.log`ptr, fs.log`n, fs.log`sector, fs.log`logged, fs.log`view, fs.log.cache
    ensures Open(fs, dp) && fs.Frozen(old(fs.log.view), old(fs.t), old(fs.owner), old(fs.lag), old(fs.log.logged))
    ensures r <==> NoneNamed(Ents(fs, dp))
  {
    hide Open, Ents;
    StartReading(fs, dp);
    ghost var v, t, owner, lag, logged, ents := fs.log.view, fs.t, fs.owner, fs.lag, fs.log.logged, Ents(fs, dp);
    r := ScanEmpty(fs, dp, v, t, owner, lag, logged, ents);
  }

  /** Nothing after the two dots. */
  ghost predicate NoneNamed(ents: seq<Dirent>) {
    forall k :: 2 <= k < |ents| ==> ents[k].inum == 0
  }

  method ScanEmpty(fs: Fs, dp: Inode, ghost v: View, ghost t: Inodes, ghost owner: map<nat, Ownership.Slot>,
                   ghost lag: set<nat>, ghost logged: set<nat>, ghost ents: seq<Dirent>) returns (r: bool)
    requires Reading(fs, dp, v, t, owner, lag, logged, ents) && dp.size == DIRENT * |ents|
    modifies dp`addrs, fs`t, fs`owner, fs`floating, fs`lag
    modifies fs.log`held, fs.log`ptr, fs.log`n, fs.log`sector, fs.log`logged, fs.log`view, fs.log.cache
    ensures Reading(fs, dp, v, t, owner, lag, logged, ents) && (r <==> NoneNamed(ents))
  {
    hide Reading;
    var s := 2;
    while DIRENT * s < dp.size
      invariant Reading(fs, dp, v, t, owner, lag, logged, ents)
      invariant 2 <= s && forall k :: 2 <= k < s && k < |ents| ==> ents[k].inum == 0
    {
      var de := ReadEntry(fs, dp, s, v, t, owner, lag, logged, ents);
      if de.inum != 0 {
        return false;
      }
      s := s + 1;
    }
    r := true;
  }

  /** inode_put of an inode that the caller has locked; `last` says whether there is no other reference. */
  method PutInode(fs: Fs, ip: Inode, last: bool)
    requires fs.log.trans && Settled(fs) && fs.Locked(ip) && IBlock(ip.inum) in fs.log.logged
    requires Budget(fs.sb, {}, fs.log.logged, 1)
    modifies ip`typ, ip`nlink, ip`addrs, ip`size, fs`t, fs`owner, fs`floating, fs`lag
    modifies fs.log`held, fs.log`ptr, fs.log`n, fs.log`sector, fs.log`logged, fs.log`view, fs.log.cache
    ensures Settled(fs) && fs.Locked(ip) && Budget(fs.sb, {}, fs.log.logged, 0)
    ensures OthersKept(old(fs.t), fs.t, ip.inum)
    ensures ip.inum < |old(Tree(fs))|
    ensures Tree(fs) == if last && old(ip.nlink) == 0 then Reclaim(old(Tree(fs)), ip.inum) else old(Tree(fs))
    ensures FilesSame(old(fs.log.view), old(fs.t), fs.log.view, fs.t, {ip.inum})
    ensures last && old(ip.nlink) == 0 ==> ip.typ == 0 && OwnsNothing(old(fs.owner), fs.owner, ip.inum)
    ensures !(last && old(ip.nlink) == 0) ==>
              fs.log.view == old(fs.log.view) && fs.t == old(fs.t) && fs.owner == old(fs.owner)
  {
    hide Settled, Budget, IBlock, TreeOf, NodeOf, OthersSame, BitmapSectors, Reclaim, FilesSame, OwnsNothing;
    InTree(fs, ip);
    BudgetLess(fs.sb, {}, fs.log.logged, 1);
    FilesNone(fs.log.view, fs.t, {ip.inum});
    if last && ip.nlink == 0 {
      EmptyInode(fs, ip);
      ghost var w, u := fs.log.view, fs.t;
      FreeInode(fs, ip);
      ReclaimedTree(old(fs.log.view), old(fs.t), w, u, fs.log.view, fs.t, ip.inum, fs.sb.ninodes);
      FilesThen(old(fs.log.view), old(fs.t), w, u, fs.log.view, fs.t, {ip.inum}, {ip.inum}, {ip.inum});
    }
  }

  /** The blocks that inode `i` had belong to nobody. */
  ghost predicate OwnsNothing(owner: map<nat, Ownership.Slot>, owner': map<nat, Ownership.Slot>, i: nat) {
    forall b :: b in owner && owner[b].inum == i ==> b !in owner'
  }

  /** The inode_trunc of inode_put. */
  method EmptyInode(fs: Fs, ip: Inode)
    requires fs.log.trans && Settled(fs) && fs.Locked(ip) && IBlock(ip.inum) in fs.log.logged
    requires Budget(fs.sb, {}, fs.log.logged, 1)
    modifies ip`addrs, ip`size, fs`t, fs`owner, fs`floating, fs`lag
    modifies fs.log`held, fs.log`ptr, fs.log`n, fs.log`sector, fs.log`logged, fs.log`view, fs.log.cache
    ensures Settled(fs) && fs.Locked(ip) && Budget(fs.sb, {}, fs.log.logged, 1)
    ensures OthersSame(old(fs.log.view), old(fs.t), fs.log.view, fs.t, ip.inum) && OthersKept(old(fs.t), fs.t, ip.inum)
    ensures ip.size == 0 && NoAddrs(ip.D()) && ip.nlink == old(ip.nlink)
    ensures FilesSame(old(fs.log.view), old(fs.t), fs.log.view, fs.t, {ip.inum})
    ensures OwnsNothing(old(fs.owner), fs.owner, ip.inum)
  {
    hide Log.Valid, FsState, Whole, Budget, Contents, Tidy, IBlock, NodeOf, NoAddrs, Truncated, OthersSame;
    hide FilesSame, Layout.Used, BlockOf;
    hide BitmapSectors, TreeOf;
    fs.InodeTrunc(ip);
    BudgetSame(fs.sb, {}, old(fs.log.logged), {}, fs.log.logged, 1);
    TruncatedNodes(fs.sb, old(fs.log.view), old(fs.t), old(fs.owner), fs.log.view, fs.t, fs.owner, ip.inum);
    TruncatedOthers(fs.sb, old(fs.log.view), old(fs.t), old(fs.owner), fs.log.view, fs.t, fs.owner, ip.inum);
    TruncatedFiles(fs.sb, old(fs.log.view), old(fs.t), old(fs.owner), fs.log.view, fs.t, fs.owner, ip.inum);
  }

  /** `ip->type = 0; inode_update(ip)`. */
  method FreeInode(fs: Fs, ip: Inode)
    requires fs.log.trans && Settled(fs) && fs.Locked(ip) && Budget(fs.sb, {}, fs.log.logged, 1)
    requires ip.nlink == 0 && ip.size == 0 && NoAddrs(ip.D())
    modifies ip`typ, ip`nlink, fs`t, fs`lag
    modifies fs.log`held, fs.log`ptr, fs.log`n, fs.log`sector, fs.log`logged, fs.log`view, fs.log.cache
    ensures Settled(fs) && fs.Locked(ip) && Budget(fs.sb, {}, fs.log.logged, 0)
    ensures OthersSame(old(fs.log.view), old(fs.t), fs.log.view, fs.t, ip.inum) && OthersKept(old(fs.t), fs.t, ip.inum)
    ensures NodeOf(fs.log.view, fs.t, ip.inum) == Node(Free, 0, [])
    ensures ip.typ == 0 && FilesSame(old(fs.log.view), old(fs.t), fs.log.view, fs.t, {ip.inum})
  {
    hide Log.Valid, FsState, Whole, Budget, Labelled, Contents, Tidy, IBlock, NodeOf, OthersSame, BitmapSectors, TreeOf;
    hide FilesSame;
    BudgetMore(fs.sb, {}, fs.log.logged, IBlock(ip.inum), 0);
    SetLabel(fs, ip, 0, ip.nlink);
    FreedNode(old(fs.log.view), old(fs.t), fs.log.view, fs.t, ip.inum, ip.D());
    LabelledFiles(old(fs.log.view), old(fs.t), fs.log.view, fs.t, ip.inum, ip.D());
  }

  ghost predicate OthersKept(t: Inodes, u: Inodes, i: nat) {
    forall k :: k in t && k != i ==> k in u && u[k] == t[k]
  }

  lemma TruncatedOthers(sb: Super, v: View, t: Inodes, owner: map<nat, Ownership.Slot>, w: View, u: Inodes,
                        owner': map<nat, Ownership.Slot>, i: nat)
    requires Truncated(sb, v, t, owner, w, u, owner', i)
    ensures OthersKept(t, u, i) && i in u && u[i].size == 0 && NoAddrs(u[i])
  {
    hide Contents, Whole, Layout.Used;
  }

  /** Clearing slot `s` of the directory, which needs no new block. */
  method ClearEntry(fs: Fs, dp: Inode, s: nat)
    requires fs.log.trans && Open(fs, dp) && s < |Ents(fs, dp)| && Budget(fs.sb, {}, fs.log.logged, 3)
    modifies dp`addrs, dp`size, fs`t, fs`owner, fs`floating, fs`lag
    modifies fs.log`held, fs.log`ptr, fs.log`n, fs.log`sector, fs.log`logged, fs.log`view, fs.log.cache
    ensures Settled(fs) && fs.Locked(dp) && Spent(fs.sb, old(fs.log.logged), fs.log.logged, 3)
    ensures dp.inum < |old(Tree(fs))| && s < |old(Tree(fs))[dp.inum].ents|
    ensures Tree(fs) == old(Tree(fs))[dp.inum := Cleared(old(Tree(fs))[dp.inum], s)]
    ensures OnlyGrown(old(fs.t), fs.t, dp.inum) && OwnerGrows(old(fs.owner), fs.owner, dp.inum)
    ensures FilesSame(old(fs.log.view), old(fs.t), fs.log.view, fs.t, {dp.inum})
  {
    hide Log.Valid, FsState, Whole, Tidy, Budget, Spent, UsedBelow, Fits, EntryFits, NodeOf, TreeOf, OnlyGrown;
    hide FilesSame;
    OpenSize(fs, dp);
    InTree(fs, dp);
    NoEntryIsZeros();
    PresentFits(fs.sb, fs.log.view, fs.t, fs.owner, dp.inum, DIRENT * s, DIRENT);
    var ok := WriteEntry(fs, dp, s, NO_ENTRY);
  }

  /** What sys_unlink does once it knows that `ip` may go: its entry, the link counts, and the reference to it. */
  method Remove(fs: Fs, dp: Inode, ip: Inode, s: nat, ghost nodes: seq<Node>)
    requires fs.log.trans && Open(fs, dp) && fs.Locked(ip) && ip.inum != dp.inum && Budget(fs.sb, {}, fs.log.logged, 6)
    requires nodes == Tree(fs) && s < |Ents(fs, dp)| && ip.typ != 0 && ip.nlink > 0 && dp.nlink > 0
    modifies dp, ip, fs`t, fs`owner, fs`floating, fs`lag
    modifies fs.log`held, fs.log`ptr, fs.log`n, fs.log`sector, fs.log`logged, fs.log`view, fs.log.cache
    ensures Settled(fs) && fs.Locked(dp) && fs.Locked(ip) && IBlock(ip.inum) in fs.log.logged
    ensures Budget(fs.sb, {}, fs.log.logged, 1)
    ensures dp.inum < |nodes| && ip.inum < |nodes| && s < |nodes[dp.inum].ents| && nodes[ip.inum].nlink > 0
    ensures nodes[dp.inum].nlink > 0
    ensures nodes[ip.inum].kind == KindOf(old(ip.typ)) && ip.nlink == old(ip.nlink) - 1
    ensures nodes[ip.inum].nlink == old(ip.nlink)
    ensures Tree(fs) == if nodes[ip.inum].kind == Dir then DropDir(nodes, dp.inum, s, ip.inum)
                        else DropFile(nodes, dp.inum, s, ip.inum)
    ensures FilesSame(old(fs.log.view), old(fs.t), fs.log.view, fs.t, {dp.inum, ip.inum})
    ensures ip.D() == old(ip.D()).(nlink := old(ip.nlink) - 1)
    ensures Contents(fs.log.view, fs.t, ip.inum) == old(Contents(fs.log.view, fs.t, ip.inum))
    ensures OwnerGrows(old(fs.owner), fs.owner, dp.inum)
    ensures dp.typ == old(dp.typ) && dp.nlink == old(dp.nlink) - if old(ip.typ) == T_DIR then 1 else 0
  {
    hide Settled, Budget, Spent, TreeOf, NodeOf, Tree, Ents, IBlock, Cleared, DropDir, DropFile, FilesSame, Contents;
    hide OwnerGrows;
    OpenSettled(fs, dp);
    InTree(fs, dp);
    InTree(fs, ip);
    Unenter(fs, dp, s, ip.typ == T_DIR);
    ghost var logged, v1, t1 := fs.log.logged, fs.log.view, fs.t;
    BudgetLess(fs.sb, {}, logged, 2);
    FileIs(old(fs.log.view), old(fs.t), v1, t1, {dp.inum}, ip.inum);
    SetLinks(fs, ip, ip.nlink - 1);
    FilesThen(old(fs.log.view), old(fs.t), v1, t1, fs.log.view, fs.t, {dp.inum}, {ip.inum}, {dp.inum, ip.inum});
    BudgetLeft(fs.sb, logged, fs.log.logged, 1, 1);
    Dropping(nodes, dp.inum, s, ip.inum);
  }

  /** The entry goes, and with a directory the link that its ".." was. */
  method Unenter(fs: Fs, dp: Inode, s: nat, dir: bool)
    requires fs.log.trans && Open(fs, dp) && s < |Ents(fs, dp)| && dp.nlink > 0 && Budget(fs.sb, {}, fs.log.logged, 6)
    modifies dp, fs`t, fs`owner, fs`floating, fs`lag
    modifies fs.log`held, fs.log`ptr, fs.log`n, fs.log`sector, fs.log`logged, fs.log`view, fs.log.cache
    ensures Settled(fs) && fs.Locked(dp) && Budget(fs.sb, {}, fs.log.logged, 2) && OthersKept(old(fs.t), fs.t, dp.inum)
    ensures dp.inum < |old(Tree(fs))| && s < |old(Tree(fs))[dp.inum].ents|
    ensures old(Tree(fs))[dp.inum].nlink == old(dp.nlink)
    ensures var r := old(Tree(fs))[dp.inum := Cleared(old(Tree(fs))[dp.inum], s)];
            Tree(fs) == if dir then r[dp.inum := r[dp.inum].(nlink := old(dp.nlink) - 1)] else r
    ensures FilesSame(old(fs.log.view), old(fs.t), fs.log.view, fs.t, {dp.inum})
    ensures OwnerGrows(old(fs.owner), fs.owner, dp.inum)
    ensures dp.typ == old(dp.typ) && dp.nlink == old(dp.nlink) - if dir then 1 else 0
  {
    hide Settled, Budget, Spent, TreeOf, NodeOf, Tree, Ents, IBlock, Cleared, OnlyGrown, FilesSame, OwnerGrows;
    hide Contents;
    OpenSettled(fs, dp);
    InTree(fs, dp);
    BudgetLess(fs.sb, {}, fs.log.logged, 6);
    ClearEntry(fs, dp, s);
    GrownOthers(old(fs.t), fs.t, dp.inum);
    BudgetLeft(fs.sb, old(fs.log.logged), fs.log.logged, 3, 3);
    BudgetLess(fs.sb, {}, fs.log.logged, 3);
    if dir {
      ghost var logged, v1, t1 := fs.log.logged, fs.log.view, fs.t;
      SetLinks(fs, dp, dp.nlink - 1);
      BudgetLeft(fs.sb, logged, fs.log.logged, 1, 2);
      FilesThen(old(fs.log.view), old(fs.t), v1, t1, fs.log.view, fs.t, {dp.inum}, {dp.inum}, {dp.inum});
    }
  }

  lemma Dropping(nodes: seq<Node>, d: nat, s: nat, i: nat)
    requires d < |nodes| && i < |nodes| && i != d && s < |nodes[d].ents| && nodes[i].nlink > 0 && nodes[d].nlink > 0
    ensures var r := nodes[d := Cleared(nodes[d], s)];
            && r[d := r[d].(nlink := nodes[d].nlink - 1)][i := nodes[i].(nlink := nodes[i].nlink - 1)] ==
                DropDir(nodes, d, s, i)
            && r[i := r[i].(nlink := nodes[i].nlink - 1)] == DropFile(nodes, d, s, i)
  {
  }

  lemma GrownOthers(t: Inodes, u: Inodes, i: nat)
    requires OnlyGrown(t, u, i) && i in t
    ensures OthersKept(t, u, i) && u[i].typ == t[i].typ && u[i].nlink == t[i].nlink
  {
  }

  lemma OpenSettled(fs: Fs, dp: Inode)
    requires Open(fs, dp)
    ensures Settled(fs) && fs.Locked(dp) && dp.typ == T_DIR
  {
  }

  /**
    The tree after sys_unlink has removed name `name` of directory `d`, and the inode itself if nothing
    refers to it any more.
   */
  ghost predicate UnlinkedTree(nodes: seq<Node>, d: nat, name: Name, last: bool, r: seq<Node>) {
    exists s: nat, i: nat, m :: Namespace.Removed(nodes, d, s, i, name, m) && i < |m| && r == Dropped(m, i, last)
  }

  ghost function Dropped(nodes: seq<Node>, i: nat, last: bool): (r: seq<Node>)
    requires i < |nodes|
  {
    if last && nodes[i].nlink == 0 then Reclaim(nodes, i) else nodes
  }

  /**
    What sys_unlink does to the inode `i` that the name stood for and to the directory `d`: the last link and
    the last reference free the inode and its blocks, anything else costs it one link; a directory takes the
    link of its ".." with it; no other file is touched.
   */
  ghost predicate UnlinkedFiles(sb: Super, v: View, t: Inodes, w: View, u: Inodes, d: nat, i: nat, last: bool) {
    && FilesSame(v, t, w, u, {d, i}) && i in t && i in u && d in t && d in u
    && u[d].typ == 1 && u[d].nlink == t[d].nlink - (if t[i].typ == 1 then 1 else 0)
    && if last && t[i].nlink == 1
       then u[i].typ == 0 && forall b: nat :: b < sb.size && BlockOf(v, t[i], b) ==> !Layout.Used(sb, w, b)
       else u[i] == t[i].(nlink := u[i].nlink) && u[i].nlink == t[i].nlink - 1 && Contents(w, u, i) == Contents(v, t, i)
  }

  /** The blocks of a freed inode are marked free. */
  lemma BlocksFreed(sb: Super, v: View, t: Inodes, owner: map<nat, Ownership.Slot>, owner1: map<nat, Ownership.Slot>,
                    w: View, u: Inodes, owner2: map<nat, Ownership.Slot>, d: nat, i: nat, b: nat)
    requires FsState(sb, v, t, owner, {}, {}) && FsState(sb, w, u, owner2, {}, {}) && OwnerGrows(owner, owner1, d)
    requires OwnsNothing(owner1, owner2, i) && i in t && BlockOf(v, t[i], b) && b < sb.size
    ensures !Layout.Used(sb, w, b)
  {
    hide BlockOf, Layout.Used, Ownership.Ref, SuperBlock;
    NoZeroOwner(sb, v, t, owner, {}, {});
    OwnerIs(v, t, owner, i, b);
  }

  lemma DroppedOrder(nodes: seq<Node>, i: nat, last: bool)
    requires Inv(nodes) && NameSpec.Used(nodes, i)
    ensures Inv(Dropped(nodes, i, last))
  {
    hide Inv;
    if last && nodes[i].nlink == 0 {
      ReclaimKeeps(nodes, i);
    }
  }

  /** What dir_lookup has found for sys_unlink. */
  lemma FoundTarget(nodes: seq<Node>, d: nat, name: Name, s: nat, i: nat)
    requires Inv(nodes) && d < |nodes| && nodes[d].kind == Dir && name != "." && name != ".." && i != 0
    requires s < |nodes[d].ents| && nodes[d].ents[s] == Dirent(i, name)
    ensures Named(nodes, d, s, i) && NameSpec.Used(nodes, i) && nodes[i].nlink > 0 && nodes[d].nlink > 0 && i != d
    ensures Namespace.Unlinkable(nodes, d, name) <==> (nodes[i].kind == Dir ==> EmptyDir(nodes, i))
  {
    hide Inv;
    Namespace.FoundNamed(nodes, d, name, s);
    NamedHasLinks(nodes, d, s, i);
    Namespace.OneTarget(nodes, d, name, s);
  }

  /** The orderly tree stays orderly. */
  lemma RemovedOrder(nodes: seq<Node>, d: nat, name: Name, s: nat, i: nat, m: seq<Node>, last: bool)
    requires Inv(nodes) && Named(nodes, d, s, i) && nodes[d].ents[s].name == name && NameSpec.Used(nodes, i) && i != d
    requires nodes[i].nlink > 0 && nodes[d].nlink > 0 && (nodes[i].kind == Dir ==> EmptyDir(nodes, i))
    requires m == if nodes[i].kind == Dir then DropDir(nodes, d, s, i) else DropFile(nodes, d, s, i)
    ensures Inv(m) && NameSpec.Used(m, i) && Namespace.Removed(nodes, d, s, i, name, m)
    ensures Inv(Dropped(m, i, last)) && UnlinkedTree(nodes, d, name, last, Dropped(m, i, last))
  {
    hide Inv;
    Namespace.UnlinkMade(nodes, d, s, i, name);
    DroppedOrder(m, i, last);
  }

  /** sys_unlink inside its transaction. */
  method UnlinkInside(fs: Fs, dp: Inode, name: Name, last: bool) returns (r: Result)
    requires fs.log.trans && Open(fs, dp) && Inv(Tree(fs)) && Budget(fs.sb, {}, fs.log.logged, 6)
    modifies dp, fs`t, fs`owner, fs`floating, fs`lag
    modifies fs.log`held, fs.log`ptr, fs.log`n, fs.log`sector, fs.log`logged, fs.log`view, fs.log.cache
    ensures !r.Stopped? && Settled(fs) && fs.Locked(dp) && Budget(fs.sb, {}, fs.log.logged, 0)
    ensures dp.inum < |old(Tree(fs))| && (r.Done? <==> Namespace.Unlinkable(old(Tree(fs)), dp.inum, name))
    ensures r.Declined? ==> Tree(fs) == old(Tree(fs))
    ensures r.Done? ==> UnlinkedTree(old(Tree(fs)), dp.inum, name, last, Tree(fs)) && Inv(Tree(fs))
    ensures r.Declined? ==> fs.log.view == old(fs.log.view) && fs.t == old(fs.t)
    ensures r.Done? ==>
              && name in NameSpec.Entries(old(Ents(fs, dp)))
              && UnlinkedFiles(fs.sb, old(fs.log.view), old(fs.t), fs.log.view, fs.t, dp.inum,
                               NameSpec.Entries(old(Ents(fs, dp)))[name], last)
  {
    hide UnlinkedFiles, NameSpec.Entries;
    hide Inv, Settled, Budget, TreeOf, NodeOf, UnlinkedTree, Namespace.Removed, EmptyDir, HasName;
    OpenSettled(fs, dp);
    InTree(fs, dp);
    BudgetLess(fs.sb, {}, fs.log.logged, 6);
    r := Declined;
    if name == "." || name == ".." {
      return;
    }
    var i, s := DirLookup(fs, dp, name);
    OpenSettled(fs, dp);
    InTree(fs, dp);
    if i == 0 {
      NotThere(Tree(fs), dp.inum, name);
      return;
    }
    FoundTarget(Tree(fs), dp.inum, name, s, i);
    TargetName(Tree(fs), dp.inum, name, s);
    r := UnlinkFound(fs, dp, name, s, i, last);
  }

  lemma TargetName(nodes: seq<Node>, d: nat, name: Name, s: nat)
    requires Inv(nodes) && d < |nodes| && nodes[d].kind == Dir && s < |nodes[d].ents| && nodes[d].ents[s].name == name
    requires nodes[d].ents[s].inum != 0
    ensures name in NameSpec.Entries(nodes[d].ents) && NameSpec.Entries(nodes[d].ents)[name] == nodes[d].ents[s].inum
  {
    hide Inv;
    Namespace.TreeFacts(nodes, d, name);
    Namespace.FoundIs(nodes, d, name, s);
  }

  /** inode_get and inode_lock of what an entry names. */
  method OpenInode(fs: Fs, dp: Inode, i: nat) returns (ip: Inode)
    requires Open(fs, dp) && NameSpec.Used(Tree(fs), i)
    modifies fs.log`held, fs.log`ptr, fs.log.cache
    ensures fresh(ip) && ip.inum == i && Open(fs, dp) && fs.Locked(ip)
    ensures ip.typ == T_DIR ==> Open(fs, ip)
    ensures Tree(fs) == old(Tree(fs)) && Tree(fs)[i].kind == KindOf(ip.typ) && Tree(fs)[i].nlink == ip.nlink
    ensures Tree(fs)[i].ents == Ents(fs, ip)
  {
    hide Log.Valid, FsState, Whole, Tidy, Slots, Contents;
    ip := fs.InodeLock(i);
    InTree(fs, ip);
  }

  lemma OpenOther(fs: Fs, ip: Inode, dp: Inode)
    requires Open(fs, ip) && fs.Locked(dp) && dp.typ == T_DIR
    ensures Open(fs, dp)
  {
  }

  /** May sys_unlink remove what the entry names? */
  method MayRemove(fs: Fs, dp: Inode, ip: Inode) returns (ok: bool)
    requires Open(fs, dp) && fs.Locked(ip) && ip != dp && (ip.typ == T_DIR ==> Open(fs, ip))
    modifies ip`addrs, fs`t, fs`owner, fs`floating, fs`lag
    modifies fs.log`held, fs.log`ptr, fs.log`n, fs.log`sector, fs.log`logged, fs.log`view, fs.log.cache
    ensures Open(fs, dp) && fs.Locked(ip)
    ensures fs.Frozen(old(fs.log.view), old(fs.t), old(fs.owner), old(fs.lag), old(fs.log.logged))
    ensures ok <==> (ip.typ == T_DIR ==> NoneNamed(Ents(fs, ip)))
  {
    hide Settled, NoneNamed, Ents, Log.Room;
    ok := true;
    if ip.typ == T_DIR {
      ok := IsDirEmpty(fs, ip);
      OpenOther(fs, ip, dp);
    }
  }

  /** sys_unlink once the entry has been found. */
  method UnlinkFound(fs: Fs, dp: Inode, name: Name, s: nat, i: nat, last: bool) returns (r: Result)
    requires fs.log.trans && Open(fs, dp) && dp.nlink > 0 && Inv(Tree(fs)) && Budget(fs.sb, {}, fs.log.logged, 6)
    requires dp.inum < |Tree(fs)| && s < |Tree(fs)[dp.inum].ents| && Tree(fs)[dp.inum].ents[s] == Dirent(i, name)
    requires Named(Tree(fs), dp.inum, s, i) && NameSpec.Used(Tree(fs), i) && Tree(fs)[i].nlink > 0 && i != dp.inum
    modifies dp, fs`t, fs`owner, fs`floating, fs`lag
    modifies fs.log`held, fs.log`ptr, fs.log`n, fs.log`sector, fs.log`logged, fs.log`view, fs.log.cache
    ensures !r.Stopped? && Settled(fs) && fs.Locked(dp) && Budget(fs.sb, {}, fs.log.logged, 0)
    ensures r.Done? <==> (old(Tree(fs))[i].kind == Dir ==> EmptyDir(old(Tree(fs)), i))
    ensures r.Declined? ==> Tree(fs) == old(Tree(fs))
    ensures r.Done? ==> UnlinkedTree(old(Tree(fs)), dp.inum, name, last, Tree(fs)) && Inv(Tree(fs))
    ensures r.Declined? ==> fs.log.view == old(fs.log.view) && fs.t == old(fs.t)
    ensures r.Done? ==> UnlinkedFiles(fs.sb, old(fs.log.view), old(fs.t), fs.log.view, fs.t, dp.inum, i, last)
  {
    hide Inv, Settled, Budget, TreeOf, NodeOf, UnlinkedTree, Namespace.Removed, Log.Valid, DropDir, DropFile;
    hide UnlinkedFiles;
    ghost var nodes := Tree(fs);
    BudgetLess(fs.sb, {}, fs.log.logged, 6);
    var ip := OpenInode(fs, dp, i);
    OpenSettled(fs, dp);
    InTree(fs, dp);
    var ok := MayRemove(fs, dp, ip);
    if !ok {
      OpenSettled(fs, dp);
      return Declined;
    }
    RemoveAndPut(fs, dp, ip, name, s, last, nodes);
    return Done;
  }

  method RemoveAndPut(fs: Fs, dp: Inode, ip: Inode, name: Name, s: nat, last: bool, ghost nodes: seq<Node>)
    requires fs.log.trans && Open(fs, dp) && fs.Locked(ip) && ip.inum != dp.inum && Budget(fs.sb, {}, fs.log.logged, 6)
    requires nodes == Tree(fs) && s < |Ents(fs, dp)| && ip.nlink > 0 && dp.nlink > 0
    requires Inv(nodes) && Named(nodes, dp.inum, s, ip.inum) && dp.inum < |nodes| && nodes[dp.inum].ents[s].name == name
    requires NameSpec.Used(nodes, ip.inum) && (nodes[ip.inum].kind == Dir ==> EmptyDir(nodes, ip.inum))
    modifies dp, ip, fs`t, fs`owner, fs`floating, fs`lag
    modifies fs.log`held, fs.log`ptr, fs.log`n, fs.log`sector, fs.log`logged, fs.log`view, fs.log.cache
    ensures Settled(fs) && fs.Locked(dp) && Budget(fs.sb, {}, fs.log.logged, 0)
    ensures UnlinkedTree(nodes, dp.inum, name, last, Tree(fs)) && Inv(Tree(fs))
    ensures UnlinkedFiles(fs.sb, old(fs.log.view), old(fs.t), fs.log.view, fs.t, dp.inum, ip.inum, last)
  {
    hide Inv, Settled, Budget, TreeOf, NodeOf, UnlinkedTree, Namespace.Removed, Log.Valid, DropDir, DropFile, EmptyDir;
    hide Open, Ents, Tree, UnlinkedFiles, FilesSame, Contents, OwnerGrows, OwnsNothing, FsState, IBlock;
    OpenSettled(fs, dp);
    InTree(fs, ip);
    SettledState(fs);
    Remove(fs, dp, ip, s, nodes);
    InTree(fs, ip);
    RemovedOrder(nodes, dp.inum, name, s, ip.inum, Tree(fs), last);
    ghost var v1, t1, owner1 := fs.log.view, fs.t, fs.owner;
    PutInode(fs, ip, last);
    SettledState(fs);
    PutOutcome(fs.sb, old(fs.log.view), old(fs.t), old(fs.owner), v1, t1, owner1, fs.log.view, fs.t, fs.owner,
               dp.inum, ip.inum, last);
  }

  lemma PutOutcome(sb: Super, v: View, t: Inodes, owner: map<nat, Ownership.Slot>, v1: View, t1: Inodes,
                   owner1: map<nat, Ownership.Slot>, w: View, u: Inodes, owner2: map<nat, Ownership.Slot>, d: nat,
                   i: nat, last: bool)
    requires FsState(sb, v, t, owner, {}, {}) && FsState(sb, w, u, owner2, {}, {}) && OwnerGrows(owner, owner1, d)
    requires FilesSame(v, t, v1, t1, {d, i}) && FilesSame(v1, t1, w, u, {i}) && i in t && d in t && d != i
    requires t[i].nlink > 0 && t1[i] == t[i].(nlink := t1[i].nlink) && t1[i].nlink == t[i].nlink - 1
    requires Contents(v1, t1, i) == Contents(v, t, i)
    requires t1[d].typ == 1 && t1[d].nlink == t[d].nlink - (if t[i].typ == 1 then 1 else 0)
    requires last && t[i].nlink == 1 ==> u[i].typ == 0 && OwnsNothing(owner1, owner2, i)
    requires !(last && t[i].nlink == 1) ==> w == v1 && u == t1
    ensures UnlinkedFiles(sb, v, t, w, u, d, i, last)
  {
    hide Contents, OwnerGrows, OwnsNothing, FsState, BlockOf, Layout.Used;
    FilesThen(v, t, v1, t1, w, u, {d, i}, {i}, {d, i});
    FileIs(v1, t1, w, u, {i}, d);
    if last && t[i].nlink == 1 {
      forall b: nat | b < sb.size && BlockOf(v, t[i], b) ensures !Layout.Used(sb, w, b) {
        BlocksFreed(sb, v, t, owner, owner1, w, u, owner2, d, i, b);
      }
    }
  }

  lemma NotThere(nodes: seq<Node>, d: nat, name: Name)
    requires d < |nodes| && !HasName(nodes[d].ents, name)
    ensures !Namespace.Unlinkable(nodes, d, name)
  {
  }

  /**
    sys_unlink in an orderly tree: one transaction that removes the name, and the inode if that was the
    last link and the last reference, or changes nothing; so does a crash inside it.
   */
  method SysUnlink(fs: Fs, dp: Inode, name: Name, last: bool) returns (r: Result)
    requires Idle(fs) && Tidy(fs.t) && Inv(Tree(fs)) && Budget(fs.sb, {}, {}, 6)
    requires fs.Locked(dp) && dp.typ == T_DIR
    modifies dp, fs, fs.log, fs.log.cache
    ensures var v, t, ents := old(fs.log.view), old(fs.t), NodeOf(old(fs.log.view), old(fs.t), dp.inum).ents;
            r.Done? <==>
              && name != "." && name != ".." && name in NameSpec.Entries(ents)
              && var i := NameSpec.Entries(ents)[name];
                 i in t && (t[i].typ == 1 ==> NoneNamed(NodeOf(v, t, i).ents))
    ensures r.Declined? ==> FilesSame(old(fs.log.view), old(fs.t), fs.log.view, fs.t, {})
    ensures r.Done? ==>
              var v, t, w, u, d := old(fs.log.view), old(fs.t), fs.log.view, fs.t, dp.inum;
              && name in NameSpec.Entries(NodeOf(v, t, d).ents)
              && NameSpec.Entries(NodeOf(w, u, d).ents) == NameSpec.Entries(NodeOf(v, t, d).ents) - {name}
              && var i := NameSpec.Entries(NodeOf(v, t, d).ents)[name];
                 && FilesSame(v, t, w, u, {d, i}) && i in t && i in u && d in t && d in u
                 && u[d].typ == 1 && u[d].nlink == t[d].nlink - (if t[i].typ == 1 then 1 else 0)
                 && if last && t[i].nlink == 1
                    then u[i].typ == 0 &&
                         forall b: nat :: b < fs.sb.size && BlockOf(v, t[i], b) ==> !Layout.Used(fs.sb, w, b)
                    else && u[i] == t[i].(nlink := u[i].nlink) && u[i].nlink == t[i].nlink - 1
                         && Contents(w, u, i) == Contents(v, t, i)
    ensures AllOrNothing(fs, old(fs.log.cache.trace), old(fs.log.view), true)
    ensures !r.Stopped? && Idle(fs) && Tidy(fs.t) && fs.Locked(dp) && Inv(Tree(fs))
    ensures dp.inum < |old(Tree(fs))| && (r.Done? <==> Namespace.Unlinkable(old(Tree(fs)), dp.inum, name))
    ensures r.Declined? ==> Tree(fs) == old(Tree(fs))
    ensures r.Done? ==> UnlinkedTree(old(Tree(fs)), dp.inum, name, last, Tree(fs))
  {
    hide FilesSame, Contents, NameSpec.Entries, BlockOf, Layout.Used;
    hide Log.Valid, FsState, Budget, Inv, TreeOf, NodeOf, Whole, Tidy, AllOrNothing, SuperBlock, UnlinkedTree;
    hide Namespace.Unlinkable;
    ghost var trace, v := fs.log.cache.trace, fs.log.view;
    SuperThere(fs.sb, v, fs.t, fs.owner);
    BudgetRoom(fs.sb, {}, {}, 6);
    fs.log.BeginTrans();
    FilesNone(fs.log.view, fs.t, {});
    UnlinkableIs(fs, dp, name);
    r := UnlinkInside(fs, dp, name, last);
    if r.Done? {
      RemovedName(old(Tree(fs)), dp.inum, name, last, Tree(fs));
    }
    EndTrans(fs, trace, v);
  }

  /** What sys_unlink removes, in terms of the disk: no dot, and no directory with entries after its dots. */
  lemma UnlinkableIs(fs: Fs, dp: Inode, name: Name)
    requires Open(fs, dp) && Inv(Tree(fs))
    ensures var ents := Ents(fs, dp);
            && dp.inum < |Tree(fs)|
            && (Namespace.Unlinkable(Tree(fs), dp.inum, name) <==>
                  && name != "." && name != ".." && name in NameSpec.Entries(ents)
                  && var i := NameSpec.Entries(ents)[name];
                     i in fs.t && (fs.t[i].typ == 1 ==> NoneNamed(NodeOf(fs.log.view, fs.t, i).ents)))
  {
    hide FsState, Log.Valid, Whole, Slots, Contents, Tidy, NameSpec.Entries, Inv;
    InTree(fs, dp);
    AllInodes(fs.sb, fs.log.view, fs.t, fs.owner);
    var nodes, d := Tree(fs), dp.inum;
    Namespace.TreeFacts(nodes, d, name);
    if HasName(nodes[d].ents, name) {
      var s :| 0 <= s < |nodes[d].ents| && nodes[d].ents[s].inum != 0 && nodes[d].ents[s].name == name;
      TargetName(nodes, d, name, s);
      if name != "." && name != ".." {
        FoundTarget(nodes, d, name, s, nodes[d].ents[s].inum);
      }
    }
  }

  /** The tree has lost exactly that name. */
  lemma RemovedName(nodes: seq<Node>, d: nat, name: Name, last: bool, r: seq<Node>)
    requires Inv(nodes) && UnlinkedTree(nodes, d, name, last, r)
    ensures d < |nodes| && d < |r|
    ensures NameSpec.Entries(r[d].ents) == NameSpec.Entries(nodes[d].ents) - {name}
  {
    hide NameSpec.Entries, CountOk, UniqueNames;
    var s: nat, i: nat, m :| Namespace.Removed(nodes, d, s, i, name, m) && i < |m| && r == Dropped(m, i, last);
    assert DirOk(nodes, d);
    EntriesCleared(nodes[d].ents, s);
  }

  // ---- create ----

  /** Is inode `i` free?  Its block stays held. */
  method LookAt(fs: Fs, i: nat) returns (data: Block, free: bool)
    requires Settled(fs) && i in fs.t && Budget(fs.sb, {}, fs.log.logged, 1)
    modifies fs.log`held, fs.log`ptr, fs.log.cache
    ensures fs.Valid() && fs.log.held == {IBlock(i)} && IBlock(i) in fs.log.view && data == fs.log.view[IBlock(i)]
    ensures free <==> fs.t[i].typ == 0
  {
    hide Log.Valid, FsState, IBlock, Budget, Whole, Tidy;
    StoredInode(fs.sb, fs.log.view, fs.t, fs.owner, {}, {}, i);
    BudgetRoom(fs.sb, {}, fs.log.logged, 1);
    data := fs.log.Read(IBlock(i));
    var d := FromWords(GetWords(data, 64 * (i % IPB), INODE_WORDS));
    free := d.typ == 0;
  }

  /** Mark a free inode allocated on the disk. */
  method MarkInode(fs: Fs, i: nat, data: Block, typ: nat)
    requires fs.log.trans && fs.Valid() && Whole(fs.log.view, fs.t) && Tidy(fs.t) && fs.floating == {} && fs.lag == {}
    requires i in fs.t && fs.t[i].typ == 0 && typ < TWO16 && Budget(fs.sb, {}, fs.log.logged, 1)
    requires fs.log.held == {IBlock(i)} && IBlock(i) in fs.log.view && data == fs.log.view[IBlock(i)]
    modifies fs`t, fs.log`held, fs.log`ptr, fs.log`n, fs.log`sector, fs.log`logged, fs.log`view, fs.log.cache
    ensures fs.Valid() && fs.log.held == {} && fs.t == old(fs.t)[i := NewInode(typ)]
    ensures Labelled(old(fs.log.view), old(fs.t), fs.log.view, fs.t, i, NewInode(typ))
    ensures fs.log.logged == old(fs.log.logged) + {IBlock(i)}
  {
    hide Log.Valid, FsState, IBlock, Budget, Whole, Tidy, WithInode, Labelled;
    ghost var v, t, d := fs.log.view, fs.t, NewInode(typ);
    FreeOk(fs.sb, v, t, fs.owner, i);
    NewInodeIs(t, i, typ);
    LabelState(fs.sb, v, t, fs.owner, i, d);
    LabelStored(fs.sb, v, t, fs.owner, i, d);
    UpdatedState(fs.sb, v, t[i := d], fs.owner, {}, {i}, i);
    assert {i} - {i} == {};
    BudgetMore(fs.sb, {}, fs.log.logged, IBlock(i), 0);
    BudgetRoom(fs.sb, {} + {IBlock(i)}, fs.log.logged, 0);
    fs.log.LogWrite(IBlock(i), WithInode(data, i, NewInode(typ)));
    fs.log.Release(IBlock(i));
    fs.t := fs.t[i := d];
  }

  lemma FreeOk(sb: Super, v: View, t: Inodes, owner: map<nat, Ownership.Slot>, i: nat)
    requires FsState(sb, v, t, owner, {}, {}) && i in t
    ensures t[i].Ok()
  {
  }

  /** inode_alloc; 0 stands for the "no inodes" panic. */
  method InodeAlloc(fs: Fs, typ: nat) returns (i: nat)
    requires fs.log.trans && Settled(fs) && 0 < typ < TWO16 && Budget(fs.sb, {}, fs.log.logged, 1)
    modifies fs`t, fs.log`held, fs.log`ptr, fs.log`n, fs.log`sector, fs.log`logged, fs.log`view, fs.log.cache
    ensures fs.Valid() && fs.log.held == {}
    ensures i == 0 ==> forall k :: 1 <= k < fs.sb.ninodes ==> k in old(fs.t) && old(fs.t)[k].typ != 0
    ensures i != 0 ==>
              && i < fs.sb.ninodes && i in old(fs.t) && old(fs.t)[i].typ == 0 && fs.t == old(fs.t)[i := NewInode(typ)]
              && Labelled(old(fs.log.view), old(fs.t), fs.log.view, fs.t, i, NewInode(typ))
              && fs.log.logged == old(fs.log.logged) + {IBlock(i)}
  {
    hide Log.Valid, FsState, IBlock, Budget, Whole, Tidy, Labelled;
    SuperThere(fs.sb, fs.log.view, fs.t, fs.owner);
    AllInodes(fs.sb, fs.log.view, fs.t, fs.owner);
    BudgetRoom(fs.sb, {}, fs.log.logged, 1);
    var size, ninodes := fs.ReadSuper();
    i := 1;
    while i < ninodes
      invariant 1 <= i && Settled(fs) && fs.t == old(fs.t) && fs.log.view == old(fs.log.view)
      invariant fs.log.logged == old(fs.log.logged)
      invariant forall k :: 1 <= k < i && k < ninodes ==> k in fs.t && fs.t[k].typ != 0
    {
      var data, free := LookAt(fs, i);
      if free {
        MarkInode(fs, i, data, typ);
        return;
      }
      fs.log.Release(IBlock(i));
      i := i + 1;
    }
    i := 0;
  }

  lemma AllInodes(sb: Super, v: View, t: Inodes, owner: map<nat, Ownership.Slot>)
    requires FsState(sb, v, t, owner, {}, {})
    ensures forall k: nat :: k < sb.ninodes ==> k in t
  {
  }

  /** inode_alloc, inode_lock, `ip->nlink = 1` and inode_update.  Declined cannot happen. */
  method NewNode(fs: Fs, dp: Inode, typ: nat, ghost k: nat) returns (r: Result, ip: Inode?)
    requires fs.log.trans && Open(fs, dp) && 0 < typ < TWO16 && 0 < k && Budget(fs.sb, {}, fs.log.logged, k + 1)
    modifies fs`t, fs`lag, fs.log`held, fs.log`ptr, fs.log`n, fs.log`sector, fs.log`logged, fs.log`view, fs.log.cache
    ensures !r.Declined? && fs.log.Valid()
    ensures r.Stopped? ==> forall k :: 1 <= k < |old(Tree(fs))| ==> old(Tree(fs))[k].kind != Free
    ensures r.Done? ==>
              && ip != null && fresh(ip) && Open(fs, dp) && fs.Locked(ip) && ip.inum != dp.inum && ip.typ == typ
              && NoAddrs(ip.D()) && ip.size == 0
              && 0 < ip.inum < |old(Tree(fs))| && old(Tree(fs))[ip.inum].kind == Free
              && Tree(fs) == old(Tree(fs))[ip.inum := Node(KindOf(typ), 1, [])]
              && Budget(fs.sb, {}, fs.log.logged, k) && IBlock(ip.inum) in fs.log.logged
              && FilesSame(old(fs.log.view), old(fs.t), fs.log.view, fs.t, {ip.inum})
              && ip.major == 0 && ip.minor == 0 && ip.nlink == 1 && ip.inum in old(fs.t) && old(fs.t)[ip.inum].typ == 0
  {
    hide FilesSame;
    hide Log.Valid, FsState, Whole, Budget, Spent, Labelled, Contents, Tidy, IBlock, Slots;
    ghost var nodes := Tree(fs);
    BudgetLess(fs.sb, {}, fs.log.logged, k + 1);
    var i := InodeAlloc(fs, typ);
    if i == 0 {
      return Stopped, null;
    }
    Counted(fs.sb, old(fs.log.logged), i);
    BudgetLeft(fs.sb, old(fs.log.logged), fs.log.logged, 1, k);
    BudgetRoom(fs.sb, {}, fs.log.logged, k);
    NewNodeTree(old(fs.log.view), old(fs.t), fs.log.view, fs.t, i, typ, fs.sb.ninodes);
    LabelledWhole(old(fs.log.view), old(fs.t), fs.log.view, fs.t, i, NewInode(typ));
    LabelledFiles(old(fs.log.view), old(fs.t), fs.log.view, fs.t, i, NewInode(typ));
    ip := fs.InodeLock(i);
    ghost var logged, v1, t1 := fs.log.logged, fs.log.view, fs.t;
    BudgetLess(fs.sb, {}, logged, k);
    SetLinks(fs, ip, 1);
    assert fs.log.logged == logged;
    FilesThen(old(fs.log.view), old(fs.t), v1, t1, fs.log.view, fs.t, {i}, {i}, {i});
    r := Done;
  }

  lemma Counted(sb: Super, logged: set<nat>, i: nat)
    ensures Spent(sb, logged, logged + {IBlock(i)}, 1)
  {
    SpentMost(sb, logged, logged, 0, 0);
    SpentOne(sb, logged, logged, 0, IBlock(i));
  }

  lemma LabelledWhole(v: View, t: Inodes, w: View, u: Inodes, i: nat, d: DInode)
    requires Labelled(v, t, w, u, i, d)
    ensures Whole(w, u)
  {
  }

  /** What create returns for a name that is taken: the file if a file was wanted, 0 otherwise. */
  ghost predicate OpensOnly(ents: seq<Dirent>, t: Inodes, name: Name, typ: nat, i: nat) {
    exists s :: 0 <= s < |ents| && ents[s].inum != 0 && ents[s].name == name && ents[s].inum in t &&
      i == if typ == T_FILE && t[ents[s].inum].typ == T_FILE then ents[s].inum else 0
  }

  /** create, inside its transaction.  Stopped stands for the panics without a free inode or a place for an entry. */
  method CreateInside(fs: Fs, dp: Inode, name: Name, typ: nat) returns (r: Result, i: nat)
    requires fs.log.trans && Open(fs, dp) && Inv(Tree(fs)) && NameOk(name) && (dp.nlink == 0 ==> name != "..")
    requires 0 < typ < TWO16 && fs.sb.ninodes <= TWO16 && (typ == T_DIR ==> dp.nlink < LINK_MAX)
    requires Budget(fs.sb, {}, fs.log.logged, if typ == T_DIR then 7 else 6)
    modifies dp, fs`t, fs`owner, fs`floating, fs`lag
    modifies fs.log`held, fs.log`ptr, fs.log`n, fs.log`sector, fs.log`logged, fs.log`view, fs.log.cache
    ensures fs.log.Valid() && (!r.Stopped? ==> Settled(fs) && fs.Locked(dp) && Budget(fs.sb, {}, fs.log.logged, 0))
    ensures r.Declined? <==> HasName(old(Ents(fs, dp)), name)
    ensures r.Declined? ==> Tree(fs) == old(Tree(fs)) && OpensOnly(old(Ents(fs, dp)), old(fs.t), name, typ, i)
    ensures r.Stopped? ==> NoInode(old(Tree(fs))) || Full(fs, old(Ents(fs, dp)))
    ensures r.Stopped? ==> CannotCreate(fs, old(Tree(fs)), old(fs.owner), dp.inum, if typ == T_DIR then 1 else 0)
    ensures r.Done? ==> !CannotCreate(fs, old(Tree(fs)), old(fs.owner), dp.inum, if typ == T_DIR then 1 else 0)
    ensures r.Done? ==>
              && CreatedNode(old(Tree(fs)), dp.inum, name, i, KindOf(typ), Tree(fs))
              && (Inv(Tree(fs)) <==> old(dp.nlink) > 0)
              && CreatedFiles(old(fs.log.view), old(fs.t), fs.log.view, fs.t, dp.inum, i, typ)
    ensures r.Declined? ==> fs.log.view == old(fs.log.view) && fs.t == old(fs.t)
  {
    hide CreatedFiles;
    hide Inv, Settled, Budget, HasName, Log.Valid, NodeOf, TreeOf, CreatedNode, CannotCreate, Full, NoInode;
    OpenSettled(fs, dp);
    InTree(fs, dp);
    SettledLog(fs);
    BudgetLess(fs.sb, {}, fs.log.logged, if typ == T_DIR then 7 else 6);
    var s;
    i, s := DirLookup(fs, dp, name);
    OpenSettled(fs, dp);
    InTree(fs, dp);
    if i != 0 {
      EntryInUse(Tree(fs), dp.inum, s);
      var ip := OpenInode(fs, dp, i);
      OpenSettled(fs, dp);
      SettledLog(fs);
      var found := i;
      i := if typ == T_FILE && ip.typ == T_FILE then found else 0;
      return Declined, i;
    }
    if typ == T_DIR {
      r, i := CreateDir(fs, dp, name);
    } else {
      r, i := CreateFile(fs, dp, name, typ);
    }
  }

  /** Slot `s` of a directory names an inode in use; only the ".." of a removed directory may not. */
  lemma EntryInUse(nodes: seq<Node>, d: nat, s: nat)
    requires Inv(nodes) && d < |nodes| && nodes[d].kind == Dir && s < |nodes[d].ents| && nodes[d].ents[s].inum != 0
    requires nodes[d].nlink == 0 ==> nodes[d].ents[s].name != ".."
    ensures NameSpec.Used(nodes, nodes[d].ents[s].inum)
  {
    hide CountOk;
    assert DirOk(nodes, d);
    if nodes[d].nlink > 0 {
      assert EntryOk(nodes, d, s);
    }
  }

  /** Inode `i` was free and is now of kind `kind`, and named `name` in directory `d`. */
  ghost predicate CreatedNode(nodes: seq<Node>, d: nat, name: Name, i: nat, kind: Kind, r: seq<Node>) {
    && d < |nodes| && 0 < i < |nodes| && i != d && nodes[i].kind == Free
    && r == Namespace.NewNodes(nodes, d, name, i, kind)
  }

  ghost predicate NoInode(nodes: seq<Node>) {
    forall k :: 1 <= k < |nodes| ==> nodes[k].kind != Free
  }

  /** There is no free inode, or no place for the entry beside `k` new blocks. */
  ghost predicate CannotCreate(fs: Fs, nodes: seq<Node>, owner: map<nat, Ownership.Slot>, d: nat, k: nat) {
    NoInode(nodes) || (d < |nodes| && NoPlace(fs, owner, d, nodes[d].ents, k))
  }

  /**
    What create does to files: inode `i`, which was free, has the type and one link, and nothing else in it
    unless it is a directory; directory `d` has gained the link of the new ".."; no other file is touched.
   */
  ghost predicate CreatedFiles(v: View, t: Inodes, w: View, u: Inodes, d: nat, i: nat, typ: nat) {
    && FilesSame(v, t, w, u, {d, i}) && i in t && i in u && d in t && d in u && i != d
    && t[i].typ == 0 && u[i].typ == typ && u[i].nlink == 1 && u[i].major == 0 && u[i].minor == 0
    && (typ != 1 ==> u[i].size == 0)
    && u[d].typ == 1 && u[d].nlink == t[d].nlink + (if typ == 1 then 1 else 0)
  }

  lemma FileCreated(v: View, t: Inodes, v1: View, t1: Inodes, w: View, u: Inodes, d: nat, i: nat, typ: nat)
    requires FilesSame(v, t, v1, t1, {i}) && FilesSame(v1, t1, w, u, {d}) && i in t && d in t && i != d
    requires t[i].typ == 0 && t1[i].typ == typ && t1[i].nlink == 1 && t1[i].major == 0 && t1[i].minor == 0
    requires t1[i].size == 0 && typ != 1 && t[d].typ == 1 && u[d].typ == t1[d].typ && u[d].nlink == t1[d].nlink
    ensures CreatedFiles(v, t, w, u, d, i, typ)
  {
    hide Contents;
    FilesThen(v, t, v1, t1, w, u, {i}, {d}, {d, i});
  }

  /** The part of create that makes a new file. */
  method CreateFile(fs: Fs, dp: Inode, name: Name, typ: nat) returns (r: Result, i: nat)
    requires fs.log.trans && Open(fs, dp) && Inv(Tree(fs)) && NameOk(name)
    requires KindOf(typ) == File && typ < TWO16 && fs.sb.ninodes <= TWO16 && Budget(fs.sb, {}, fs.log.logged, 6)
    requires !HasName(Ents(fs, dp), name)
    modifies dp, fs`t, fs`owner, fs`floating, fs`lag
    modifies fs.log`held, fs.log`ptr, fs.log`n, fs.log`sector, fs.log`logged, fs.log`view, fs.log.cache
    ensures fs.log.Valid() && !r.Declined?
    ensures r.Done? ==> Settled(fs) && fs.Locked(dp) && Budget(fs.sb, {}, fs.log.logged, 0)
    ensures r.Stopped? ==> CannotCreate(fs, old(Tree(fs)), old(fs.owner), dp.inum, 0)
    ensures r.Stopped? ==> NoInode(old(Tree(fs))) || Full(fs, old(Ents(fs, dp)))
    ensures r.Done? ==> !CannotCreate(fs, old(Tree(fs)), old(fs.owner), dp.inum, 0)
    ensures r.Done? ==> CreatedNode(old(Tree(fs)), dp.inum, name, i, File, Tree(fs))
    ensures r.Done? ==> (Inv(Tree(fs)) <==> old(dp.nlink) > 0)
    ensures r.Done? ==> CreatedFiles(old(fs.log.view), old(fs.t), fs.log.view, fs.t, dp.inum, i, typ)
  {
    hide FilesSame, CreatedFiles, Contents;
    hide Inv, Settled, Budget, Spent, HasName, Log.Valid, NodeOf, TreeOf, NoPlace, Linked, Namespace.NewNodes;
    hide EntryLogged, Full;
    OpenSettled(fs, dp);
    InTree(fs, dp);
    ghost var nodes := Tree(fs);
    var ip;
    r, ip := NewNode(fs, dp, typ, 5);
    if r.Stopped? {
      return r, 0;
    }
    i := ip.inum;
    OpenSettled(fs, dp);
    InTree(fs, dp);
    ghost var logged, v1, t1 := fs.log.logged, fs.log.view, fs.t;
    BudgetLess(fs.sb, {}, logged, 5);
    r := DirLink(fs, dp, name, i);
    if r.Done? {
      FileCreated(old(fs.log.view), old(fs.t), v1, t1, fs.log.view, fs.t, dp.inum, i, typ);
      BudgetLeft(fs.sb, logged, fs.log.logged, 3, 2);
      BudgetLess(fs.sb, {}, fs.log.logged, 2);
      SettledLog(fs);
      FileMade(nodes, dp.inum, name, i, Tree(fs));
      Namespace.Created(nodes, dp.inum, name, i, File);
    }
  }

  /** The part of create that makes a new directory: its two dots, the parent's link count, and its name. */
  method CreateDir(fs: Fs, dp: Inode, name: Name) returns (r: Result, i: nat)
    requires fs.log.trans && Open(fs, dp) && dp.nlink < LINK_MAX && Inv(Tree(fs)) && NameOk(name)
    requires fs.sb.ninodes <= TWO16 && Budget(fs.sb, {}, fs.log.logged, 7) && !HasName(Ents(fs, dp), name)
    modifies dp, fs`t, fs`owner, fs`floating, fs`lag
    modifies fs.log`held, fs.log`ptr, fs.log`n, fs.log`sector, fs.log`logged, fs.log`view, fs.log.cache
    ensures fs.log.Valid() && !r.Declined?
    ensures r.Done? ==> Settled(fs) && fs.Locked(dp) && Budget(fs.sb, {}, fs.log.logged, 0)
    ensures r.Stopped? ==> CannotCreate(fs, old(Tree(fs)), old(fs.owner), dp.inum, 1)
    ensures r.Stopped? ==> NoInode(old(Tree(fs))) || Full(fs, old(Ents(fs, dp)))
    ensures r.Done? ==> !CannotCreate(fs, old(Tree(fs)), old(fs.owner), dp.inum, 1)
    ensures r.Done? ==> CreatedNode(old(Tree(fs)), dp.inum, name, i, Dir, Tree(fs))
    ensures r.Done? ==> (Inv(Tree(fs)) <==> old(dp.nlink) > 0)
    ensures r.Done? ==> CreatedFiles(old(fs.log.view), old(fs.t), fs.log.view, fs.t, dp.inum, i, T_DIR)
  {
    hide Inv, Settled, Budget, Log.Valid, NodeOf, TreeOf, Full, Ents, IBlock, CreatedNode, HasName, NoPlace, NoAddrs;
    hide FilesSame, Contents, CreatedFiles, Tree, Fs.Locked;
    OpenSettled(fs, dp);
    LockedIs(fs, dp);
    InTree(fs, dp);
    TreeSize(fs);
    DirNotZero(Tree(fs), dp.inum);
    ghost var nodes := Tree(fs);
    var ip;
    r, ip := NewDir(fs, dp);
    if r.Stopped? {
      return r, 0;
    }
    i := ip.inum;
    ghost var v1, t1 := fs.log.view, fs.t;
    r := FillDir(fs, dp, ip, name, nodes);
    if r.Done? {
      LockedIs(fs, dp);
      LockedIs(fs, ip);
      DirCreated(old(fs.log.view), old(fs.t), v1, t1, fs.log.view, fs.t, dp.inum, i);
    }
  }

  lemma LockedIs(fs: Fs, ip: Inode)
    requires fs.Locked(ip)
    ensures ip.inum in fs.t && fs.t[ip.inum] == ip.D()
  {
  }

  lemma DirCreated(v: View, t: Inodes, v1: View, t1: Inodes, w: View, u: Inodes, d: nat, i: nat)
    requires FilesSame(v, t, v1, t1, {d, i}) && FilesSame(v1, t1, w, u, {d, i}) && i in t && d in t && i != d
    requires t[i].typ == 0 && u[i].typ == 1 && u[i].nlink == 1 && u[i].major == 0 && u[i].minor == 0
    requires u[d].typ == 1 && u[d].nlink == t[d].nlink + 1
    ensures CreatedFiles(v, t, w, u, d, i, T_DIR)
  {
    hide Contents;
    FilesThen(v, t, v1, t1, w, u, {d, i}, {d, i}, {d, i});
  }

  /** The entries for a new directory. */
  method FillDir(fs: Fs, dp: Inode, ip: Inode, name: Name, ghost nodes: seq<Node>) returns (r: Result)
    requires fs.log.trans && Settled(fs) && fs.Locked(ip) && fs.Locked(dp) && ip.inum != dp.inum && ip != dp
    requires ip.typ == dp.typ == T_DIR && NoAddrs(ip.D())
    requires Inv(nodes) && 0 < dp.inum < |nodes| <= TWO16 && 0 < ip.inum < |nodes| && nodes[dp.inum].kind == Dir
    requires nodes[ip.inum].kind == Free && !HasName(nodes[dp.inum].ents, name) && NameOk(name)
    requires Tree(fs) == nodes[ip.inum := Node(Dir, 1, [])]
                              [dp.inum := nodes[dp.inum].(nlink := nodes[dp.inum].nlink + 1)]
    requires IBlock(ip.inum) in fs.log.logged && Budget(fs.sb, {}, fs.log.logged, 5)
    modifies dp`addrs, dp`size, ip`addrs, ip`size, fs`t, fs`owner, fs`floating, fs`lag
    modifies fs.log`held, fs.log`ptr, fs.log`n, fs.log`sector, fs.log`logged, fs.log`view, fs.log.cache
    ensures !r.Declined? && fs.log.Valid() && (r.Stopped? ==> Full(fs, nodes[dp.inum].ents))
    ensures r.Stopped? <==> NoPlace(fs, old(fs.owner), dp.inum, nodes[dp.inum].ents, 1)
    ensures r.Done? ==>
              && Settled(fs) && fs.Locked(dp) && Budget(fs.sb, {}, fs.log.logged, 0)
              && CreatedNode(nodes, dp.inum, name, ip.inum, Dir, Tree(fs))
              && (Inv(Tree(fs)) <==> nodes[dp.inum].nlink > 0)
              && FilesSame(old(fs.log.view), old(fs.t), fs.log.view, fs.t, {dp.inum, ip.inum}) && fs.Locked(ip)
  {
    hide FilesSame;
    hide Inv, Settled, Budget, Log.Valid, Full, Tree, IBlock, CreatedNode, HasName, EntryLogged, Fs.Locked;
    hide NameOk, NameSpec.Slot, NoPlace, UsedBelow, NoAddrs, FirstBlock;
    ghost var m, owner0, logged0 := Tree(fs), fs.owner, fs.log.logged;
    r := AddDot(fs, dp, ip, m);
    if r.Stopped? {
      NoBlockNoPlace(fs, owner0, dp.inum, nodes[dp.inum].ents);
      FullDisk(fs, nodes[dp.inum].ents);
      return;
    }
    ghost var v1, t1 := fs.log.view, fs.t;
    AddDotDot(fs, dp, ip, m, owner0, logged0);
    ghost var v2, t2 := fs.log.view, fs.t;
    FilesThen(old(fs.log.view), old(fs.t), v1, t1, v2, t2, {ip.inum}, {ip.inum}, {ip.inum});
    PlaceLess(fs, owner0, fs.owner, ip.inum, dp.inum, nodes[dp.inum].ents);
    r := EnterDir(fs, dp, name, ip, nodes);
    if r.Done? {
      FilesThen(old(fs.log.view), old(fs.t), v2, t2, fs.log.view, fs.t, {ip.inum}, {dp.inum}, {dp.inum, ip.inum});
    }
  }

  /** File `i` had no block, and has its first one now. */
  ghost predicate FirstBlock(sb: Super, owner: map<nat, Ownership.Slot>, owner': map<nat, Ownership.Slot>, i: nat) {
    && OwnerGrows(owner, owner', i) && KeepsBalance(sb, owner, owner', i, 0, 1)
    && Need(owner, i, 0, 1) == 1 && Need(owner', i, 0, 1) == 0
  }

  /** On a full disk there is no place beside another block. */
  lemma NoBlockNoPlace(fs: Fs, owner: map<nat, Ownership.Slot>, d: nat, ents: seq<Dirent>)
    requires Spare(fs.sb, owner) == 0
    ensures NoPlace(fs, owner, d, ents, 1)
  {
    hide Spare;
  }

  lemma FullDisk(fs: Fs, ents: seq<Dirent>)
    requires UsedBelow(fs.sb, fs.log.view, fs.sb.size)
    ensures Full(fs, ents)
  {
  }

  lemma PlaceLess(fs: Fs, owner: map<nat, Ownership.Slot>, owner': map<nat, Ownership.Slot>, i: nat, d: nat,
                  ents: seq<Dirent>)
    requires FirstBlock(fs.sb, owner, owner', i) && i != d
    ensures NoPlace(fs, owner', d, ents, 0) <==> NoPlace(fs, owner, d, ents, 1)
  {
    hide Balance, OwnerGrows, KeepsBalance, Need;
    var lo := DIRENT * NameSpec.Slot(ents, 0) / BSIZE;
    OneBlockLess(fs.sb, owner, owner', i, d, lo, lo + 1);
  }

  /** A new inode for a directory, whose ".." is counted in its parent. */
  method NewDir(fs: Fs, dp: Inode) returns (r: Result, ip: Inode?)
    requires fs.log.trans && Open(fs, dp) && dp.nlink < LINK_MAX && Budget(fs.sb, {}, fs.log.logged, 7)
    modifies dp`typ, dp`nlink, fs`t, fs`lag
    modifies fs.log`held, fs.log`ptr, fs.log`n, fs.log`sector, fs.log`logged, fs.log`view, fs.log.cache
    ensures !r.Declined? && fs.log.Valid() && (r.Stopped? ==> NoInode(old(Tree(fs))))
    ensures r.Done? ==>
              && ip != null && fresh(ip) && Settled(fs) && fs.Locked(dp) && fs.Locked(ip) && ip.inum != dp.inum
              && ip.typ == dp.typ == T_DIR && dp.inum < |old(Tree(fs))| && 0 < ip.inum < |old(Tree(fs))|
              && NoAddrs(ip.D())
              && old(Tree(fs))[ip.inum].kind == Free
              && Tree(fs) == old(Tree(fs))[ip.inum := Node(Dir, 1, [])]
                               [dp.inum := old(Tree(fs))[dp.inum].(nlink := old(Tree(fs))[dp.inum].nlink + 1)]
              && Budget(fs.sb, {}, fs.log.logged, 5) && IBlock(ip.inum) in fs.log.logged
              && FilesSame(old(fs.log.view), old(fs.t), fs.log.view, fs.t, {dp.inum, ip.inum})
              && ip.major == 0 && ip.minor == 0 && ip.nlink == 1 && dp.nlink == old(dp.nlink) + 1
              && ip.inum in old(fs.t) && old(fs.t)[ip.inum].typ == 0
  {
    hide FilesSame, Contents;
    hide Settled, Budget, Spent, Log.Valid, NodeOf, TreeOf, IBlock, Tree, Ents, NoAddrs;
    OpenSettled(fs, dp);
    InTree(fs, dp);
    r, ip := NewNode(fs, dp, T_DIR, 6);
    if r.Stopped? {
      return;
    }
    OpenSettled(fs, dp);
    InTree(fs, dp);
    ghost var logged, v1, t1 := fs.log.logged, fs.log.view, fs.t;
    BudgetLess(fs.sb, {}, logged, 6);
    SetLinks(fs, dp, dp.nlink + 1);
    FilesThen(old(fs.log.view), old(fs.t), v1, t1, fs.log.view, fs.t, {ip.inum}, {dp.inum}, {dp.inum, ip.inum});
    BudgetLeft(fs.sb, logged, fs.log.logged, 1, 5);
    SettledLog(fs);
  }

  lemma TreeSize(fs: Fs)
    ensures |Tree(fs)| == fs.sb.ninodes
  {
  }

  lemma DirNotZero(nodes: seq<Node>, d: nat)
    requires Inv(nodes) && d < |nodes| && nodes[d].kind == Dir
    ensures d != 0
  {
  }

  function Dots(i: nat, d: nat): (ents: seq<Dirent>) { [Dirent(i, "."), Dirent(d, "..")] }

  /** `dir_link(ip, ".", ip->inum)` for a new directory. */
  method AddDot(fs: Fs, dp: Inode, ip: Inode, ghost m: seq<Node>) returns (r: Result)
    requires fs.log.trans && Settled(fs) && fs.Locked(ip) && fs.Locked(dp) && ip.inum != dp.inum && ip != dp
    requires ip.typ == T_DIR && NoAddrs(ip.D())
    requires m == Tree(fs) && ip.inum < |m| && m[ip.inum] == Node(Dir, 1, []) && 0 < ip.inum < TWO16
    requires IBlock(ip.inum) in fs.log.logged && Budget(fs.sb, {}, fs.log.logged, 5)
    modifies ip`addrs, ip`size, fs`t, fs`owner, fs`floating, fs`lag
    modifies fs.log`held, fs.log`ptr, fs.log`n, fs.log`sector, fs.log`logged, fs.log`view, fs.log.cache
    ensures !r.Declined? && fs.log.Valid()
    ensures r.Stopped? ==> UsedBelow(fs.sb, fs.log.view, fs.sb.size) && Spare(fs.sb, old(fs.owner)) == 0
    ensures r.Done? ==>
              && Settled(fs) && fs.Locked(ip) && fs.Locked(dp) && Budget(fs.sb, {}, fs.log.logged, 3)
              && Tree(fs) == m[ip.inum := Node(Dir, 1, [Dirent(ip.inum, ".")])]
              && EntryLogged(fs.sb, old(fs.owner), fs.owner, old(fs.log.logged), fs.log.logged, ip.inum, 0)
              && FirstBlock(fs.sb, old(fs.owner), fs.owner, ip.inum)
              && FilesSame(old(fs.log.view), old(fs.t), fs.log.view, fs.t, {ip.inum})
  {
    hide Settled, Budget, Spent, Log.Valid, NodeOf, TreeOf, EntryLogged, UsedBelow, IBlock, NoPlace, Linked, HasName;
    hide OnlyGrown, FirstBlock, NoAddrs, Spare, FilesSame;
    ghost var owner0 := fs.owner;
    BudgetLess(fs.sb, {}, fs.log.logged, 5);
    ReadyForEntry(fs, ip, 5);
    FirstDots(m[ip.inum], ip.inum, dp.inum);
    SettledState(fs);
    FirstNeed(fs.sb, fs.log.view, fs.t, owner0, {}, ip.inum);
    FirstPlace(fs, owner0, ip.inum);
    r := DirLink(fs, ip, ".", ip.inum);
    if r.Done? {
      GrownOthers(old(fs.t), fs.t, ip.inum);
      SettledState(fs);
      DotsLogged(fs.sb, fs.log.view, fs.t, old(fs.owner), fs.owner, fs.owner,
                 old(fs.log.logged), fs.log.logged, fs.log.logged, ip.inum, 3);
      DotThere(fs, ip, owner0, old(fs.log.logged));
    }
  }

  lemma FirstPlace(fs: Fs, owner: map<nat, Ownership.Slot>, i: nat)
    requires Need(owner, i, 0, 1) == 1
    ensures NoPlace(fs, owner, i, [], 0) <==> Spare(fs.sb, owner) == 0
    ensures Inside(NameSpec.Slot([], 0))
  {
    hide Spare, Need;
    assert DIRENT * 0 / BSIZE == 0;
  }

  lemma DotThere(fs: Fs, ip: Inode, owner0: map<nat, Ownership.Slot>, logged0: set<nat>)
    requires Settled(fs) && fs.Locked(ip) && ip.typ == T_DIR && ip.inum < |Tree(fs)| && |Tree(fs)[ip.inum].ents| > 0
    requires Need(owner0, ip.inum, 0, 1) == 1
    requires EntryLogged(fs.sb, owner0, fs.owner, logged0, fs.log.logged, ip.inum, 0)
    ensures FirstBlock(fs.sb, owner0, fs.owner, ip.inum)
  {
    hide FsState, Need, OwnerGrows, KeepsBalance, Log.Valid, NoHoles;
    assert DIRENT * 0 / BSIZE == 0;
    DirCount(fs.log.view, fs.t, ip.inum);
    WholeOne(fs.log.view, fs.t, ip.inum);
    FirstThere(fs.sb, fs.log.view, fs.t, fs.owner, {}, ip.inum);
  }

  /** `dir_link(ip, "..", dp->inum)` after that, which finds its block already there. */
  method AddDotDot(fs: Fs, dp: Inode, ip: Inode, ghost m: seq<Node>, ghost owner0: map<nat, Ownership.Slot>,
                   ghost logged0: set<nat>)
    requires fs.log.trans && Settled(fs) && fs.Locked(ip) && fs.Locked(dp) && ip.inum != dp.inum && ip != dp
    requires ip.typ == T_DIR
    requires ip.inum < |m| && m[ip.inum] == Node(Dir, 1, []) && 0 < ip.inum < TWO16 && 0 < dp.inum < TWO16
    requires Tree(fs) == m[ip.inum := Node(Dir, 1, [Dirent(ip.inum, ".")])]
    requires IBlock(ip.inum) in logged0 && Budget(fs.sb, {}, logged0, 5) && Budget(fs.sb, {}, fs.log.logged, 3)
    requires EntryLogged(fs.sb, owner0, fs.owner, logged0, fs.log.logged, ip.inum, 0)
    requires FirstBlock(fs.sb, owner0, fs.owner, ip.inum)
    modifies ip`addrs, ip`size, fs`t, fs`owner, fs`floating, fs`lag
    modifies fs.log`held, fs.log`ptr, fs.log`n, fs.log`sector, fs.log`logged, fs.log`view, fs.log.cache
    ensures Settled(fs) && fs.Locked(ip) && fs.Locked(dp) && Budget(fs.sb, {}, fs.log.logged, 3)
    ensures Tree(fs) == m[ip.inum := Node(Dir, 1, Dots(ip.inum, dp.inum))]
    ensures FirstBlock(fs.sb, owner0, fs.owner, ip.inum)
    ensures FilesSame(old(fs.log.view), old(fs.t), fs.log.view, fs.t, {ip.inum})
  {
    hide Settled, Budget, Spent, Log.Valid, NodeOf, TreeOf, EntryLogged, UsedBelow, IBlock, NoPlace, Linked, HasName;
    hide OnlyGrown, FirstBlock, FilesSame;
    ghost var owner1 := fs.owner;
    ReadyForEntry(fs, ip, 3);
    FirstDots(m[ip.inum], ip.inum, dp.inum);
    SecondPlace(fs, owner0, fs.owner, ip.inum, Ents(fs, ip));
    var r := DirLink(fs, ip, "..", dp.inum);
    GrownOthers(old(fs.t), fs.t, ip.inum);
    SettledState(fs);
    DotsLogged(fs.sb, fs.log.view, fs.t, owner0, old(fs.owner), fs.owner, logged0, old(fs.log.logged), fs.log.logged,
               ip.inum, 3);
    StillFirst(fs, ip, owner0, owner1, old(fs.log.logged));
  }

  lemma SecondPlace(fs: Fs, owner0: map<nat, Ownership.Slot>, owner: map<nat, Ownership.Slot>, i: nat,
                    ents: seq<Dirent>)
    requires FirstBlock(fs.sb, owner0, owner, i) && NameSpec.Slot(ents, 0) == 1
    ensures !NoPlace(fs, owner, i, ents, 0)
  {
    hide Spare, Need, OwnerGrows, KeepsBalance, NameSpec.Slot;
    assert DIRENT * 1 / BSIZE == 0;
  }

  lemma StillFirst(fs: Fs, ip: Inode, owner0: map<nat, Ownership.Slot>, owner1: map<nat, Ownership.Slot>,
                   logged1: set<nat>)
    requires Settled(fs) && fs.Locked(ip) && ip.typ == T_DIR && ip.inum < |Tree(fs)| && |Tree(fs)[ip.inum].ents| > 0
    requires FirstBlock(fs.sb, owner0, owner1, ip.inum)
    requires EntryLogged(fs.sb, owner1, fs.owner, logged1, fs.log.logged, ip.inum, 1)
    ensures FirstBlock(fs.sb, owner0, fs.owner, ip.inum)
  {
    hide FsState, Need, KeepsBalance, Log.Valid, NoHoles, Tidy, NameSpec.Entries, Short, Contents;
    assert DIRENT * 1 / BSIZE == 0;
    DirCount(fs.log.view, fs.t, ip.inum);
    WholeOne(fs.log.view, fs.t, ip.inum);
    FirstThere(fs.sb, fs.log.view, fs.t, fs.owner, {}, ip.inum);
    BalanceThen(fs.sb, owner0, owner1, fs.owner, ip.inum, 0, 1);
  }

  /** One more entry may go into a directory that has at most one. */
  lemma ReadyForEntry(fs: Fs, ip: Inode, k: nat)
    requires Settled(fs) && fs.Locked(ip) && ip.typ == T_DIR && Budget(fs.sb, {}, fs.log.logged, k)
    requires ip.inum < |Tree(fs)| && |Tree(fs)[ip.inum].ents| <= 1
    ensures Open(fs, ip) && Ents(fs, ip) == Tree(fs)[ip.inum].ents
  {
    hide Budget, FsState, Log.Valid, Whole, Tidy;
    BudgetRoom(fs.sb, {}, fs.log.logged, k);
    InTree(fs, ip);
    OpenSize(fs, ip);
  }

  lemma SettledState(fs: Fs)
    requires Settled(fs)
    ensures FsState(fs.sb, fs.log.view, fs.t, fs.owner, {}, {}) && fs.log.Valid()
  {
  }

  lemma FirstDots(n: Node, i: nat, d: nat)
    requires n == Node(Dir, 1, [])
    ensures !HasName(n.ents, ".") && NameSpec.Slot(n.ents, 0) == 0
    ensures var n1 := Linked(n, ".", i);
            && n1 == Node(Dir, 1, [Dirent(i, ".")]) && !HasName(n1.ents, "..")
            && (i != 0 ==> NameSpec.Slot(n1.ents, 0) == 1 && Linked(n1, "..", d) == Node(Dir, 1, Dots(i, d)))
  {
    assert Linked(n, ".", i).ents == [Dirent(i, ".")];
    if i != 0 {
      assert NameSpec.Slot([Dirent(i, ".")], 1) == 1;
      assert NameSpec.Put([Dirent(i, ".")], 1, Dirent(d, "..")) == Dots(i, d);
    }
  }

  /** The name of the new directory in its parent. */
  method EnterDir(fs: Fs, dp: Inode, name: Name, ip: Inode, ghost nodes: seq<Node>) returns (r: Result)
    requires fs.log.trans && Settled(fs) && fs.Locked(dp) && dp.typ == T_DIR && NameOk(name) && 0 < ip.inum < TWO16
    requires Inv(nodes) && dp.inum < |nodes| && ip.inum < |nodes| && ip.inum != dp.inum && nodes[dp.inum].kind == Dir
    requires nodes[ip.inum].kind == Free && !HasName(nodes[dp.inum].ents, name)
    requires Tree(fs) == nodes[dp.inum := nodes[dp.inum].(nlink := nodes[dp.inum].nlink + 1)]
                              [ip.inum := Node(Dir, 1, Dots(ip.inum, dp.inum))]
    requires Budget(fs.sb, {}, fs.log.logged, 3)
    modifies dp`addrs, dp`size, fs`t, fs`owner, fs`floating, fs`lag
    modifies fs.log`held, fs.log`ptr, fs.log`n, fs.log`sector, fs.log`logged, fs.log`view, fs.log.cache
    ensures !r.Declined? && fs.log.Valid() && (r.Stopped? ==> Full(fs, nodes[dp.inum].ents))
    ensures r.Stopped? <==> NoPlace(fs, old(fs.owner), dp.inum, nodes[dp.inum].ents, 0)
    ensures r.Done? ==>
              && Settled(fs) && fs.Locked(dp) && Budget(fs.sb, {}, fs.log.logged, 0)
              && CreatedNode(nodes, dp.inum, name, ip.inum, Dir, Tree(fs))
              && (Inv(Tree(fs)) <==> nodes[dp.inum].nlink > 0)
              && FilesSame(old(fs.log.view), old(fs.t), fs.log.view, fs.t, {dp.inum})
              && (old(fs.Locked(ip)) ==> fs.Locked(ip))
  {
    hide Inv, Budget, Spent, Log.Valid, NodeOf, TreeOf, EntryLogged, Full, NoPlace, Linked, HasName, FsState;
    hide Whole, Tidy, FilesSame;
    InTree(fs, dp);
    BudgetRoom(fs.sb, {}, fs.log.logged, 3);
    ghost var logged := fs.log.logged;
    r := DirLink(fs, dp, name, ip.inum);
    if r.Done? {
      BudgetLeft(fs.sb, logged, fs.log.logged, 3, 0);
      DirMade(nodes, dp.inum, name, ip.inum, Tree(fs));
      Namespace.Created(nodes, dp.inum, name, ip.inum, Dir);
    }
  }

  lemma DirMade(nodes: seq<Node>, d: nat, name: Name, i: nat, r: seq<Node>)
    requires d < |nodes| && i < |nodes| && i != d
    requires var m := nodes[d := nodes[d].(nlink := nodes[d].nlink + 1)][i := Node(Dir, 1, Dots(i, d))];
             r == m[d := Linked(m[d], name, i)]
    ensures r == Namespace.NewNodes(nodes, d, name, i, Dir)
  {
  }

  lemma FileMade(nodes: seq<Node>, d: nat, name: Name, i: nat, r: seq<Node>)
    requires d < |nodes| && 0 < i < |nodes| && i != d && nodes[i].kind == Free
    requires var m := nodes[i := Node(File, 1, [])]; r == m[d := Linked(m[d], name, i)]
    ensures r == Namespace.NewNodes(nodes, d, name, i, File)
  {
  }

  /** Two entries in the one block of a new directory: at most the block and a table block are new to the log. */
  lemma DotsLogged(sb: Super, v: View, t: Inodes, owner0: map<nat, Ownership.Slot>, owner1: map<nat, Ownership.Slot>,
                   owner2: map<nat, Ownership.Slot>, logged0: set<nat>, logged1: set<nat>, logged2: set<nat>, i: nat,
                   k: nat)
    requires FsState(sb, v, t, owner2, {}, {}) && IBlock(i) in logged0 && Budget(sb, {}, logged0, k + 2)
    requires EntryLogged(sb, owner0, owner1, logged0, logged1, i, 0)
    requires (owner2 == owner1 && logged2 == logged1) || EntryLogged(sb, owner1, owner2, logged1, logged2, i, 1)
    ensures Budget(sb, {}, logged2, k)
  {
    hide FsState, Span, BitmapSectors, IBlock;
    assert DIRENT * 0 / BSIZE == 0 && DIRENT * 1 / BSIZE == 0;
    var span := Span(owner2, i, 0, 1);
    SpanOfOne(sb, v, t, owner2, {}, {}, i, 0);
    if owner2 != owner1 || logged2 != logged1 {
      SpanGrows(owner1, owner2, i, 0, 1);
    }
    assert logged2 <= logged0 + BitmapSectors(sb) + span;
    var all := Pinned(sb, {}, logged0) + span;
    assert |all| <= |Pinned(sb, {}, logged0)| + |span|;
    SubsetSize(Pinned(sb, {}, logged2), all);
  }

  /**
    The transaction of sys_open with O_CREATE and of sys_mkdir in an orderly tree: all or nothing.
   */
  method SysCreate(fs: Fs, dp: Inode, name: Name, typ: nat) returns (r: Result, i: nat)
    requires Idle(fs) && Tidy(fs.t) && Inv(Tree(fs)) && fs.sb.ninodes <= TWO16
    requires Budget(fs.sb, {}, {}, if typ == T_DIR then 7 else 6)
    requires fs.Locked(dp) && dp.typ == T_DIR && (typ == T_DIR ==> dp.nlink < LINK_MAX) && 0 < typ < TWO16
    requires NameOk(name) && (dp.nlink == 0 ==> name != "..")
    modifies dp, fs, fs.log, fs.log.cache
    ensures r.Declined? ==> FilesSame(old(fs.log.view), old(fs.t), fs.log.view, fs.t, {})
    ensures r.Done? ==>
              var v, t, w, u, d := old(fs.log.view), old(fs.t), fs.log.view, fs.t, dp.inum;
              && FilesSame(v, t, w, u, {d, i}) && i in t && i in u && d in t && d in u && i != d
              && t[i].typ == 0 && u[i].typ == typ && u[i].nlink == 1 && u[i].major == 0 && u[i].minor == 0
              && (typ != 1 ==> u[i].size == 0)
              && (typ == 1 ==> NodeOf(w, u, i).ents == [Dirent(i, "."), Dirent(d, "..")])
              && u[d].typ == 1 && u[d].nlink == t[d].nlink + (if typ == 1 then 1 else 0)
              && NameSpec.Entries(NodeOf(w, u, d).ents) == NameSpec.Entries(NodeOf(v, t, d).ents)[name := i]
    ensures r.Declined? ==>
              var t, m := old(fs.t), NameSpec.Entries(NodeOf(old(fs.log.view), old(fs.t), dp.inum).ents);
              && name in m && m[name] in t && i == if typ == 2 && t[m[name]].typ == 2 then m[name] else 0
    ensures AllOrNothing(fs, old(fs.log.cache.trace), old(fs.log.view), !r.Stopped?)
    ensures !r.Stopped? ==> Idle(fs) && Tidy(fs.t) && fs.Locked(dp)
    ensures r.Declined? <==> HasName(old(Ents(fs, dp)), name)
    ensures r.Declined? ==> Tree(fs) == old(Tree(fs)) && OpensOnly(old(Ents(fs, dp)), old(fs.t), name, typ, i)
    ensures r.Stopped? ==> NoInode(old(Tree(fs))) || Full(fs, old(Ents(fs, dp)))
    ensures r.Stopped? ==> CannotCreate(fs, old(Tree(fs)), old(fs.owner), dp.inum, if typ == T_DIR then 1 else 0)
    ensures r.Done? ==> !CannotCreate(fs, old(Tree(fs)), old(fs.owner), dp.inum, if typ == T_DIR then 1 else 0)
    ensures r.Done? ==>
              && CreatedNode(old(Tree(fs)), dp.inum, name, i, KindOf(typ), Tree(fs))
              && (Inv(Tree(fs)) <==> old(dp.nlink) > 0)
  {
    hide FilesSame, Contents, NameSpec.Entries;
    hide Log.Valid, FsState, Budget, Inv, TreeOf, NodeOf, Whole, Tidy, AllOrNothing, SuperBlock, HasName;
    hide OpensOnly, CannotCreate, CreatedNode, NoInode, Full;
    ghost var trace, v := fs.log.cache.trace, fs.log.view;
    SuperThere(fs.sb, v, fs.t, fs.owner);
    BudgetRoom(fs.sb, {}, {}, if typ == T_DIR then 7 else 6);
    InTree(fs, dp);
    fs.log.BeginTrans();
    FilesNone(fs.log.view, fs.t, {});
    r, i := CreateInside(fs, dp, name, typ);
    if r.Done? {
      CreatedNames(old(Tree(fs)), dp.inum, name, i, KindOf(typ), Tree(fs));
    } else if r.Declined? {
      OpensIs(old(Tree(fs)), dp.inum, old(fs.t), name, typ, i);
    }
    if r.Stopped? {
      StopTrans(fs, trace, v);
    } else {
      EndTrans(fs, trace, v);
    }
  }

  /** What create returns for a name that is taken. */
  lemma OpensIs(nodes: seq<Node>, d: nat, t: Inodes, name: Name, typ: nat, i: nat)
    requires Inv(nodes) && d < |nodes| && nodes[d].kind == Dir && OpensOnly(nodes[d].ents, t, name, typ, i)
    ensures var m := NameSpec.Entries(nodes[d].ents);
            && name in m && m[name] in t && i == if typ == 2 && t[m[name]].typ == 2 then m[name] else 0
  {
    hide Inv, NameSpec.Entries;
    var ents := nodes[d].ents;
    var s :| 0 <= s < |ents| && ents[s].inum != 0 && ents[s].name == name && ents[s].inum in t &&
      i == if typ == T_FILE && t[ents[s].inum].typ == T_FILE then ents[s].inum else 0;
    TargetName(nodes, d, name, s);
  }

  /** The names after create. */
  lemma CreatedNames(nodes: seq<Node>, d: nat, name: Name, i: nat, kind: Kind, r: seq<Node>)
    requires Inv(nodes) && CreatedNode(nodes, d, name, i, kind, r)
    requires nodes[d].kind == Dir && !HasName(nodes[d].ents, name)
    ensures d < |r| && i < |r| && NameSpec.Entries(r[d].ents) == NameSpec.Entries(nodes[d].ents)[name := i]
    ensures kind == Dir ==> r[i].ents == [Dirent(i, "."), Dirent(d, "..")]
  {
    hide NameSpec.Entries, CountOk, UniqueNames, HasName;
    assert DirOk(nodes, d);
    EntriesPut(nodes[d].ents, NameSpec.Slot(nodes[d].ents, 0), Dirent(i, name));
  }
}
