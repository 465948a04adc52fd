/** The tree of names that the sectors hold. */
module DirSpec {
  import opened Bytes
  import opened Layout
  import opened Ownership
  import opened FileSpec
  import opened InodeSpec
  import opened FreeSpace
  import opened BufCache
  import opened DirCodec
  import opened NameSpec

  const T_DIR: nat := 1
  const LINK_MAX: nat := 0x7FFF   // nlink is an int16_t

  function KindOf(typ: nat): (k: Kind) { if typ == 0 then Free else if typ == T_DIR then Dir else File }

  ghost function NodeOf(v: View, t: Inodes, i: nat): (n: Node) {
    if i in t then Node(KindOf(t[i].typ), t[i].nlink, if t[i].typ == T_DIR then Slots(Contents(v, t, i)) else [])
    else Node(Free, 0, [])
  }

  ghost function TreeOf(v: View, t: Inodes, n: nat): (r: seq<Node>)
    ensures |r| == n && forall i :: 0 <= i < n ==> r[i] == NodeOf(v, t, i)
  {
    seq(n, i requires 0 <= i < n => NodeOf(v, t, i))
  }

  /** Directories consist of whole entries, no link count is negative, and free inodes have nothing left in them. */
  ghost predicate Tidy(t: Inodes) {
    forall i :: i in t ==> TidyInode(t[i])
  }

  ghost predicate TidyInode(d: DInode) {
    && (d.typ == T_DIR ==> d.size % DIRENT == 0) && d.nlink <= LINK_MAX
    && (d.typ == 0 ==> d.size == 0 && d.nlink == 0 && NoAddrs(d))
  }

  /** Inode `i` has become `d`, with the same bytes; nothing else has changed. */
  ghost predicate Labelled(v: View, t: Inodes, w: View, u: Inodes, i: nat, d: DInode) {
    && Whole(w, u) && i in t && u == t[i := d] && d.size == t[i].size && d.addrs == t[i].addrs
    && forall k :: k in t ==> Contents(w, u, k) == Contents(v, t, k)
  }

  // What happens to files, whatever the tree says of them.

  /** Every inode but those in `s` is as it was, and so are its bytes. */
  ghost predicate FilesSame(v: View, t: Inodes, w: View, u: Inodes, s: set<nat>) {
    u.Keys == t.Keys && forall k :: k in t && k !in s ==> u[k] == t[k] && Contents(w, u, k) == Contents(v, t, k)
  }

  lemma FilesNone(v: View, t: Inodes, s: set<nat>)
    ensures FilesSame(v, t, v, t, s)
  {
  }

  lemma FilesThen(v: View, t: Inodes, v1: View, t1: Inodes, v2: View, t2: Inodes, s: set<nat>, s1: set<nat>,
                  s2: set<nat>)
    requires FilesSame(v, t, v1, t1, s) && FilesSame(v1, t1, v2, t2, s1) && s <= s2 && s1 <= s2
    ensures FilesSame(v, t, v2, t2, s2)
  {
    hide Contents;
  }

  /** Inode `i` is as it was after all. */
  lemma FilesBack(v: View, t: Inodes, w: View, u: Inodes, i: nat)
    requires FilesSame(v, t, w, u, {i}) && i in t && i in u && u[i] == t[i] && Contents(w, u, i) == Contents(v, t, i)
    ensures FilesSame(v, t, w, u, {}) && u == t
  {
    hide Contents;
  }

  lemma FileIs(v: View, t: Inodes, w: View, u: Inodes, s: set<nat>, i: nat)
    requires FilesSame(v, t, w, u, s) && i in t && i !in s
    ensures i in u && u[i] == t[i] && Contents(w, u, i) == Contents(v, t, i)
  {
    hide Contents;
  }

  lemma WrittenFiles(v: View, t: Inodes, w: View, u: Inodes, i: nat, off: nat, src: seq<byte>)
    requires FileWritten(v, t, w, u, i, off, src)
    ensures FilesSame(v, t, w, u, {i})
  {
    hide Contents, Whole, Splice;
  }

  lemma LabelledFiles(v: View, t: Inodes, w: View, u: Inodes, i: nat, d: DInode)
    requires Labelled(v, t, w, u, i, d)
    ensures FilesSame(v, t, w, u, {i}) && Contents(w, u, i) == Contents(v, t, i)
  {
    hide Contents, Whole;
  }

  lemma TruncatedFiles(sb: Super, v: View, t: Inodes, owner: map<nat, Ownership.Slot>, w: View, u: Inodes,
                       owner': map<nat, Ownership.Slot>, i: nat)
    requires Truncated(sb, v, t, owner, w, u, owner', i)
    ensures FilesSame(v, t, w, u, {i}) && forall b :: b in owner' <==> b in owner && owner[b].inum != i
  {
    hide Contents, Whole, Layout.Used;
  }

  /** A new link count. */
  lemma LabelledTree(v: View, t: Inodes, w: View, u: Inodes, i: nat, d: DInode, n: nat)
    requires Labelled(v, t, w, u, i, d) && d.typ == t[i].typ != 0 && d.nlink <= LINK_MAX && i < n && Tidy(t)
    ensures TreeOf(w, u, n) == TreeOf(v, t, n)[i := NodeOf(v, t, i).(nlink := d.nlink)] && Tidy(u)
  {
    hide Contents, Slots, Whole, NoAddrs;
  }

  lemma DirCount(v: View, t: Inodes, i: nat)
    requires i in t && t[i].typ == T_DIR && Tidy(t)
    ensures |Contents(v, t, i)| == t[i].size && t[i].size % DIRENT == 0
    ensures NodeOf(v, t, i).ents == Slots(Contents(v, t, i)) && |NodeOf(v, t, i).ents| == t[i].size / DIRENT
  {
    ContentsSize(v, t, i);
    hide Contents;
  }

  lemma WrittenSizes(v: View, t: Inodes, w: View, u: Inodes, i: nat, s: nat, e: Dirent)
    requires EntryFits(e) && i in t && t[i].typ == T_DIR && Tidy(t) && s <= |NodeOf(v, t, i).ents|
    requires FileWritten(v, t, w, u, i, DIRENT * s, Encode(e))
    ensures Tidy(u)
  {
    DirCount(v, t, i);
    ContentsSize(w, u, i);
    hide Contents, Slots, Whole, Encode, Splice;
    SlotWritten(Contents(v, t, i), s, e);
  }

  /** A new entry in a directory. */
  lemma WrittenTree(v: View, t: Inodes, w: View, u: Inodes, i: nat, s: nat, e: Dirent, n: nat)
    requires EntryFits(e) && i in t && t[i].typ == T_DIR && i < n && Tidy(t) && s <= |NodeOf(v, t, i).ents|
    requires FileWritten(v, t, w, u, i, DIRENT * s, Encode(e))
    ensures TreeOf(w, u, n) == TreeOf(v, t, n)[i := NodeOf(v, t, i).(ents := NameSpec.Put(NodeOf(v, t, i).ents, s, e))]
    ensures Tidy(u)
  {
    hide Contents, Slots, Whole, Encode, Splice, NameSpec.Put;
    DirCount(v, t, i);
    WrittenSizes(v, t, w, u, i, s, e);
    DirectoryWritten(v, t, w, u, i, s, e);
  }

  lemma SlotAt(c: seq<byte>, k: nat)
    requires DIRENT * k + DIRENT <= |c|
    ensures k < |Slots(c)| && Slots(c)[k] == Decode(c[DIRENT * k..DIRENT * k + DIRENT])
  {
  }

  /** An entry lies in one block. */
  lemma EntryBlock(s: nat)
    ensures Blocks(DIRENT * s, DIRENT) == 1
  {
  }

  // Changing what an inode says, but not its blocks.

  lemma LabelRef(v: View, t: Inodes, i: nat, d: DInode, sl: Ownership.Slot)
    requires i in t && d.addrs == t[i].addrs
    ensures Ownership.Ref(v, t[i := d], sl) == Ownership.Ref(v, t, sl)
  {
  }

  lemma LabelState(sb: Super, v: View, t: Inodes, owner: map<nat, Ownership.Slot>, i: nat, d: DInode)
    requires FsState(sb, v, t, owner, {}, {}) && i in t && d.Ok() && d.addrs == t[i].addrs
    ensures FsState(sb, v, t[i := d], owner, {}, {i})
  {
    hide SuperBlock, Layout.Used, Ownership.Ref, Ino, IBlock;
    var u := t[i := d];
    forall sl ensures Ownership.Ref(v, u, sl) == Ownership.Ref(v, t, sl) {
      LabelRef(v, t, i, d, sl);
    }
    assert TableOk(sb, u);
    assert Synced(sb, v, u, {i});
    assert Ownership.Refs(v, u, owner);
    assert Owned(v, u, owner);
  }

  lemma LabelContents(v: View, t: Inodes, i: nat, d: DInode, k: nat)
    requires i in t && d.addrs == t[i].addrs && d.size == t[i].size && k in t && NoHoles(v, t, k)
    ensures NoHoles(v, t[i := d], k) && Contents(v, t[i := d], k) == Contents(v, t, k)
  {
    forall sl ensures Ownership.Ref(v, t[i := d], sl) == Ownership.Ref(v, t, sl) {
      LabelRef(v, t, i, d, sl);
    }
    hide Ownership.Ref;
    SameContents(v, t, v, t[i := d], k);
  }

  /** After inode_update of the new label. */
  lemma LabelStored(sb: Super, v: View, t: Inodes, owner: map<nat, Ownership.Slot>, i: nat, d: DInode)
    requires FsState(sb, v, t, owner, {}, {}) && Whole(v, t) && i in t && d.Ok() && d.addrs == t[i].addrs
    requires d.size == t[i].size
    ensures IBlock(i) in v && Labelled(v, t, v[IBlock(i) := WithInode(v[IBlock(i)], i, d)], t[i := d], i, d)
  {
    hide Contents, NoHoles, FsState;
    var u := t[i := d];
    LabelState(sb, v, t, owner, i, d);
    UpdatedState(sb, v, u, owner, {}, {i}, i);
    var w := v[IBlock(i) := WithInode(v[IBlock(i)], i, d)];
    forall k | k in u ensures NoHoles(w, u, k) && Contents(w, u, k) == Contents(v, t, k) {
      WholeOne(v, t, k);
      LabelContents(v, t, i, d, k);
      UpdatedContents(sb, v, u, owner, {i}, i, k);
    }
  }

  /** What is left of a budget. */
  lemma BudgetLeft(sb: Super, logged: set<nat>, logged': set<nat>, n: nat, k: nat)
    requires Budget(sb, {}, logged, n + k) && Spent(sb, logged, logged', n)
    ensures Budget(sb, {}, logged', k)
  {
  }

  // Freeing an inode.

  ghost predicate OthersSame(v: View, t: Inodes, w: View, u: Inodes, i: nat) {
    forall k: nat :: k != i ==> NodeOf(w, u, k) == NodeOf(v, t, k)
  }

  lemma TruncatedNodes(sb: Super, v: View, t: Inodes, owner: map<nat, Ownership.Slot>, w: View, u: Inodes,
                       owner': map<nat, Ownership.Slot>, i: nat)
    requires Truncated(sb, v, t, owner, w, u, owner', i) && Tidy(t)
    ensures Tidy(u) && Whole(w, u) && OthersSame(v, t, w, u, i)
  {
    hide Contents, Slots, Whole, Layout.Used;
  }

  lemma FreedNode(v: View, t: Inodes, w: View, u: Inodes, i: nat, d: DInode)
    requires Labelled(v, t, w, u, i, d) && Tidy(t) && d.typ == 0 && d.nlink == 0 && d.size == 0 && NoAddrs(d)
    ensures Tidy(u) && Whole(w, u) && OthersSame(v, t, w, u, i) && NodeOf(w, u, i) == Node(Free, 0, [])
  {
    hide Contents, Slots, Whole;
  }

  lemma ReclaimedTree(v: View, t: Inodes, w: View, u: Inodes, x: View, y: Inodes, i: nat, n: nat)
    requires OthersSame(v, t, w, u, i) && OthersSame(w, u, x, y, i) && NodeOf(x, y, i) == Node(Free, 0, []) && i < n
    ensures TreeOf(x, y, n) == Reclaim(TreeOf(v, t, n), i)
  {
    hide NodeOf;
    forall k: nat | k < n && k != i ensures TreeOf(x, y, n)[k] == TreeOf(v, t, n)[k] {
      assert NodeOf(w, u, k) == NodeOf(v, t, k);
    }
  }

  /** What inode_alloc writes. */
  function NewInode(typ: nat): (d: DInode) {
    DInode(typ, 0, 0, 0, 0, seq(NDIRECT + 1, _ => 0))
  }

  lemma NewInodeIs(t: Inodes, i: nat, typ: nat)
    requires Tidy(t) && i in t && t[i].Ok() && t[i].typ == 0 && typ < TWO16
    ensures NewInode(typ).Ok() && NewInode(typ).addrs == t[i].addrs && NewInode(typ).size == t[i].size
  {
    assert TidyInode(t[i]);
    assert NewInode(typ).addrs == t[i].addrs;
  }

  /** A new inode without entries or links. */
  lemma NewNodeTree(v: View, t: Inodes, w: View, u: Inodes, i: nat, typ: nat, n: nat)
    requires Labelled(v, t, w, u, i, NewInode(typ)) && Tidy(t) && typ != 0 && i < n
    ensures TreeOf(w, u, n) == TreeOf(v, t, n)[i := Node(KindOf(typ), 0, [])] && Tidy(u)
  {
    ContentsSize(w, u, i);
    hide Contents, Whole, NoAddrs;
    assert Slots(Contents(w, u, i)) == [];
  }

  /** The blocks of bytes that are there already need not be found. */
  lemma PresentFits(sb: Super, v: View, t: Inodes, owner: map<nat, Ownership.Slot>, i: nat, off: nat, n: nat)
    requires FsState(sb, v, t, owner, {}, {}) && Whole(v, t) && i in t && off + n <= t[i].size
    ensures Fits(sb, owner, i, off, n)
  {
    hide FsState, NoHoles, Fits, Blocks;
    WholeOne(v, t, i);
    BalanceNow(sb, owner, i, off / BSIZE, off / BSIZE + Blocks(off, n));
    WrittenRoom(sb, v, t, owner, owner, i, off, n);
  }
}
