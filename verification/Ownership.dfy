/**
  Who refers to which disk block.  `Inodes` is the inode table as the running
  file system knows it: the on-disk inodes, overridden by the locked in-memory one.
 */
module Ownership {
  import opened Bytes
  import opened LogSpec
  import opened Layout

  type Inodes = map<nat, DInode>

  /** The places that can hold a block number. */
  datatype Slot = Direct(inum: nat, k: nat) | Table(inum: nat) | Indirect(inum: nat, j: nat)

  function TableEntry(v: View, a: nat, j: nat): (r: word) {
    if a != 0 && a in v && j < NINDIRECT then GetU32(v[a], 4 * j) else 0
  }

  /** The block number in a slot, 0 if there is none. */
  function Ref(v: View, t: Inodes, sl: Slot): (r: word) {
    if sl.inum !in t then 0 else
    match sl
    case Direct(i, k) => if k < NDIRECT then t[i].Addr(k) else 0
    case Table(i) => t[i].Addr(NDIRECT)
    case Indirect(i, j) => TableEntry(v, t[i].Addr(NDIRECT), j)
  }

  ghost predicate Refs(v: View, t: Inodes, owner: map<nat, Slot>) {
    forall sl :: Ref(v, t, sl) != 0 ==> Ref(v, t, sl) in owner && owner[Ref(v, t, sl)] == sl
  }

  ghost predicate Owned(v: View, t: Inodes, owner: map<nat, Slot>) {
    forall b :: b in owner ==> Ref(v, t, owner[b]) == b
  }

  /** Exactly the metadata, the owned blocks and the blocks in transit are marked used. */
  ghost predicate Bitmap(sb: Super, v: View, owner: map<nat, Slot>, floating: set<nat>) {
    && (forall b :: b in owner ==> sb.Data(b) && b !in floating)
    && (forall b :: b in floating ==> sb.Data(b))
    && (forall b: nat :: b < sb.size ==> (Used(sb, v, b) <==> !sb.Data(b) || b in owner || b in floating))
  }

  ghost predicate TableOk(sb: Super, t: Inodes) {
    && (forall i: nat :: i in t <==> i < sb.ninodes)
    && (forall i :: i in t ==> t[i].Ok())
  }

  /**
    Each used data block is referred to by exactly one slot, each free block by none.
    `floating` are blocks that one running operation has taken from the bitmap and
    not yet stored in a slot, or has removed from its slot and not yet freed.
   */
  ghost predicate FsInv(sb: Super, v: View, t: Inodes, owner: map<nat, Slot>, floating: set<nat>) {
    && Sectors(sb, v) && TableOk(sb, t)
    && Refs(v, t, owner) && Owned(v, t, owner) && Bitmap(sb, v, owner, floating)
  }

  /** No two slots hold the same block. */
  lemma SingleReference(sb: Super, v: View, t: Inodes, owner: map<nat, Slot>, floating: set<nat>, s1: Slot, s2: Slot)
    requires FsInv(sb, v, t, owner, floating)
    requires Ref(v, t, s1) == Ref(v, t, s2) != 0
    ensures s1 == s2
  {
  }

  /** Neither table blocks nor the bitmap can tell `v` and `w` apart. */
  ghost predicate SameRefs(sb: Super, v: View, w: View, t: Inodes) {
    && (forall i :: i in t && t[i].Addr(NDIRECT) != 0 && t[i].Addr(NDIRECT) in v ==>
          t[i].Addr(NDIRECT) in w && w[t[i].Addr(NDIRECT)] == v[t[i].Addr(NDIRECT)])
    && (forall i :: i in t && t[i].Addr(NDIRECT) in w ==> t[i].Addr(NDIRECT) in v)
  }

  lemma SameRef(sb: Super, v: View, w: View, t: Inodes, sl: Slot)
    requires SameRefs(sb, v, w, t)
    ensures Ref(v, t, sl) == Ref(w, t, sl)
  {
  }

  /** A write to a sector that is neither bitmap nor table block. */
  lemma OtherWrite(sb: Super, v: View, t: Inodes, owner: map<nat, Slot>, floating: set<nat>, s: nat, x: Block)
    requires FsInv(sb, v, t, owner, floating) && s in v
    requires s < sb.BitmapStart() || sb.DataStart() <= s
    requires forall i :: i in t ==> t[i].Addr(NDIRECT) != s
    ensures FsInv(sb, v[s := x], t, owner, floating)
    ensures forall sl :: Ref(v[s := x], t, sl) == Ref(v, t, sl)
  {
    var w := v[s := x];
    forall sl ensures Ref(w, t, sl) == Ref(v, t, sl) {
      SameRef(sb, v, w, t, sl);
    }
    forall b: nat | b < sb.size ensures Used(sb, w, b) == Used(sb, v, b) {
      BitmapArea(sb, b);
    }
  }

  /** Marking a block used or free moves it into or out of transit. */
  lemma MarkedWrite(sb: Super, v: View, t: Inodes, owner: map<nat, Slot>, floating: set<nat>, b: nat, on: bool)
    requires FsInv(sb, v, t, owner, floating) && sb.Data(b) && b !in owner && sb.BBlock(b) in v
    ensures var w := MarkedView(sb, v, b, on);
            && FsInv(sb, w, t, owner, if on then floating + {b} else floating - {b})
            && (forall sl :: Ref(w, t, sl) == Ref(v, t, sl))
  {
    var w := MarkedView(sb, v, b, on);
    BitmapArea(sb, b);
    forall i | i in t && t[i].Addr(NDIRECT) != 0 ensures t[i].Addr(NDIRECT) != sb.BBlock(b) {
      assert Ref(v, t, Table(i)) in owner;
    }
    forall sl ensures Ref(w, t, sl) == Ref(v, t, sl) {
      SameRef(sb, v, w, t, sl);
    }
    MarkedBitmap(sb, v, owner, floating, b, on);
  }

  lemma MarkedBitmap(sb: Super, v: View, owner: map<nat, Slot>, floating: set<nat>, b: nat, on: bool)
    requires Bitmap(sb, v, owner, floating) && sb.Data(b) && b !in owner && sb.BBlock(b) in v
    ensures Bitmap(sb, MarkedView(sb, v, b, on), owner, if on then floating + {b} else floating - {b})
  {
    var w, floating' := MarkedView(sb, v, b, on), if on then floating + {b} else floating - {b};
    forall c: nat | c < sb.size ensures Used(sb, w, c) <==> !sb.Data(c) || c in owner || c in floating' {
      MarkedUsed(sb, v, b, on, c);
    }
  }

  ghost function WithAddr(t: Inodes, i: nat, k: nat, b: word): (r: Inodes)
    requires i in t && k < |t[i].addrs|
  {
    t[i := t[i].(addrs := t[i].addrs[k := b])]
  }

  function AddrSlot(i: nat, k: nat): (sl: Slot) {
    if k == NDIRECT then Table(i) else Direct(i, k)
  }

  lemma WithAddrRef(v: View, t: Inodes, i: nat, k: nat, b: word, sl: Slot)
    requires i in t && t[i].Ok() && k <= NDIRECT
    requires k == NDIRECT ==> forall j :: TableEntry(v, b, j) == TableEntry(v, t[i].Addr(NDIRECT), j)
    ensures Ref(v, WithAddr(t, i, k, b), sl) == if sl == AddrSlot(i, k) then b else Ref(v, t, sl)
  {
    if sl.Indirect? && sl.inum == i && k == NDIRECT {
      assert TableEntry(v, b, sl.j) == TableEntry(v, t[i].Addr(NDIRECT), sl.j);
    }
  }

  /** Slot `sl`, which was empty, is the only one whose contents change, to a block without an owner. */
  lemma OneMoreRef(v: View, t: Inodes, w: View, u: Inodes, owner: map<nat, Slot>, sl: Slot, b: word)
    requires Refs(v, t, owner) && Owned(v, t, owner) && b !in owner && b != 0 && 0 !in owner && Ref(v, t, sl) == 0
    requires forall s :: Ref(w, u, s) == if s == sl then b else Ref(v, t, s)
    ensures Refs(w, u, owner[b := sl]) && Owned(w, u, owner[b := sl])
  {
    hide Ref;
  }

  /** A block in transit gets an owner. */
  lemma Settles(sb: Super, v: View, owner: map<nat, Slot>, floating: set<nat>, b: nat, sl: Slot)
    requires Bitmap(sb, v, owner, floating) && b in floating
    ensures Bitmap(sb, v, owner[b := sl], floating - {b}) && b !in owner && b != 0 && 0 !in owner
  {
    hide Used;
  }

  /** A block in transit is stored in an empty slot of the inode itself. */
  lemma Attached(sb: Super, v: View, t: Inodes, owner: map<nat, Slot>, floating: set<nat>, i: nat, k: nat, b: word)
    requires FsInv(sb, v, t, owner, floating) && i in t && k <= NDIRECT
    requires b in floating && t[i].Addr(k) == 0
    requires k == NDIRECT ==> forall j :: TableEntry(v, b, j) == 0
    ensures FsInv(sb, v, WithAddr(t, i, k, b), owner[b := AddrSlot(i, k)], floating - {b})
    ensures forall sl :: Ref(v, WithAddr(t, i, k, b), sl) == if sl == AddrSlot(i, k) then b else Ref(v, t, sl)
  {
    var t' := WithAddr(t, i, k, b);
    Settles(sb, v, owner, floating, b, AddrSlot(i, k));
    assert Ref(v, t, AddrSlot(i, k)) == 0;
    hide Bitmap, Refs, Owned, Ref, TableEntry, Sectors;
    forall sl ensures Ref(v, t', sl) == if sl == AddrSlot(i, k) then b else Ref(v, t, sl) {
      WithAddrRef(v, t, i, k, b, sl);
    }
    OneMoreRef(v, t, v, t', owner, AddrSlot(i, k), b);
  }

  lemma TableStored(v: View, a: nat, j: nat, b: word, k: nat)
    requires a != 0 && a in v && j < NINDIRECT
    ensures TableEntry(v[a := PutU32(v[a], 4 * j, b)], a, k) == if k == j then b else TableEntry(v, a, k)
  {
    var block := PutU32(v[a], 4 * j, b);
    if k != j && k < NINDIRECT {
      WordsFrame(v[a], block, 4 * k, 1);
      assert GetWords(v[a], 4 * k, 1)[0] == GetWords(block, 4 * k, 1)[0];
    }
  }

  /** A block in transit is stored in an empty entry of the inode's table block. */
  lemma AttachedIndirect(sb: Super, v: View, t: Inodes, owner: map<nat, Slot>, floating: set<nat>, i: nat, j: nat,
                         b: word)
    requires FsInv(sb, v, t, owner, floating) && i in t && j < NINDIRECT && b in floating
    requires var a := t[i].Addr(NDIRECT); a != 0 && a in v && TableEntry(v, a, j) == 0
    ensures var a := t[i].Addr(NDIRECT);
            var w := v[a := PutU32(v[a], 4 * j, b)];
            && FsInv(sb, w, t, owner[b := Indirect(i, j)], floating - {b})
            && (forall sl :: Ref(w, t, sl) == if sl == Indirect(i, j) then b else Ref(v, t, sl))
  {
    var a := t[i].Addr(NDIRECT);
    var w := v[a := PutU32(v[a], 4 * j, b)];
    assert Ref(v, t, Table(i)) == a && a in owner;
    DataWrite(sb, v, owner, floating, a, PutU32(v[a], 4 * j, b));
    Settles(sb, w, owner, floating, b, Indirect(i, j));
    assert Ref(v, t, Indirect(i, j)) == 0;
    hide Bitmap, Refs, Owned, Ref, TableEntry;
    forall sl ensures Ref(w, t, sl) == if sl == Indirect(i, j) then b else Ref(v, t, sl) {
      TableWriteRef(v, t, owner, i, j, b, sl);
    }
    OneMoreRef(v, t, w, t, owner, Indirect(i, j), b);
  }

  /** A write to an owned block changes no bit. */
  lemma DataWrite(sb: Super, v: View, owner: map<nat, Slot>, floating: set<nat>, a: nat, x: Block)
    requires sb.Ok() && Bitmap(sb, v, owner, floating) && a in owner
    ensures Bitmap(sb, v[a := x], owner, floating)
  {
    forall c: nat | c < sb.size ensures Used(sb, v[a := x], c) == Used(sb, v, c) {
      BitmapArea(sb, c);
    }
  }

  lemma TableWriteRef(v: View, t: Inodes, owner: map<nat, Slot>, i: nat, j: nat, b: word, sl: Slot)
    requires Refs(v, t, owner) && i in t && j < NINDIRECT
    requires t[i].Addr(NDIRECT) != 0 && t[i].Addr(NDIRECT) in v
    ensures var a := t[i].Addr(NDIRECT);
            Ref(v[a := PutU32(v[a], 4 * j, b)], t, sl) == if sl == Indirect(i, j) then b else Ref(v, t, sl)
  {
    var a := t[i].Addr(NDIRECT);
    if sl.Indirect? && sl.inum in t {
      if sl.inum == i {
        TableStored(v, a, j, b, sl.j);
      } else {
        assert Ref(v, t, Table(i)) == a;
        assert Ref(v, t, Table(sl.inum)) != a;
      }
    }
  }

  /** A block is removed from a direct slot. */
  lemma Detached(sb: Super, v: View, t: Inodes, owner: map<nat, Slot>, floating: set<nat>, i: nat, k: nat)
    requires FsInv(sb, v, t, owner, floating) && i in t && k < NDIRECT && t[i].Addr(k) != 0
    ensures var b := t[i].Addr(k);
            && b in owner && owner[b] == Direct(i, k)
            && FsInv(sb, v, WithAddr(t, i, k, 0), owner - {b}, floating + {b})
    ensures forall sl :: Ref(v, WithAddr(t, i, k, 0), sl) == if sl == Direct(i, k) then 0 else Ref(v, t, sl)
  {
    var t' := WithAddr(t, i, k, 0);
    assert Ref(v, t, Direct(i, k)) == t[i].Addr(k);
    forall sl ensures Ref(v, t', sl) == if sl == Direct(i, k) then 0 else Ref(v, t, sl) {
      WithAddrRef(v, t, i, k, 0, sl);
    }
  }

  /** The blocks a table block lists. */
  ghost function Listed(v: View, a: nat): (s: set<nat>) {
    set j | 0 <= j < NINDIRECT && TableEntry(v, a, j) != 0 :: TableEntry(v, a, j) as nat
  }

  /** The table block is removed, and with it everything it lists. */
  lemma DetachedTable(sb: Super, v: View, t: Inodes, owner: map<nat, Slot>, floating: set<nat>, i: nat)
    requires FsInv(sb, v, t, owner, floating) && i in t && t[i].Addr(NDIRECT) != 0
    ensures var gone := Listed(v, t[i].Addr(NDIRECT)) + {t[i].Addr(NDIRECT) as nat};
            && gone <= owner.Keys && t[i].Addr(NDIRECT) !in Listed(v, t[i].Addr(NDIRECT))
            && FsInv(sb, v, WithAddr(t, i, NDIRECT, 0), owner - gone, floating + gone)
    ensures forall sl :: Ref(v, WithAddr(t, i, NDIRECT, 0), sl) ==
                           if sl == Table(i) || (sl.Indirect? && sl.inum == i) then 0 else Ref(v, t, sl)
  {
    var a, t' := t[i].Addr(NDIRECT), WithAddr(t, i, NDIRECT, 0);
    var gone := Listed(v, a) + {a as nat};
    assert Ref(v, t, Table(i)) == a;
    forall b | b in Listed(v, a) ensures b in owner && owner[b].Indirect? && owner[b].inum == i {
      var j :| 0 <= j < NINDIRECT && TableEntry(v, a, j) == b;
      assert Ref(v, t, Indirect(i, j)) == b;
    }
    forall sl ensures Ref(v, t', sl) == if sl == Table(i) || (sl.Indirect? && sl.inum == i) then 0 else Ref(v, t, sl) {
    }
    forall sl | Ref(v, t', sl) != 0 ensures Ref(v, t', sl) !in gone {
    }
    forall b | b in owner - gone ensures Ref(v, t', owner[b]) == b {
      DetachedOther(v, t, owner, i, b);
    }
  }

  lemma DetachedOther(v: View, t: Inodes, owner: map<nat, Slot>, i: nat, b: nat)
    requires Owned(v, t, owner) && i in t && b in owner
    requires b != t[i].Addr(NDIRECT) && b !in Listed(v, t[i].Addr(NDIRECT)) && b != 0
    ensures owner[b] != Table(i) && !(owner[b].Indirect? && owner[b].inum == i)
  {
    assert Ref(v, t, owner[b]) == b;
  }

  /** Block `bn` of file `i`. */
  /** Block `b` belongs to the file of inode `d`: one of its thirteen addresses, or one that its table block lists. */
  ghost predicate BlockOf(v: View, d: DInode, b: nat) {
    && b != 0 && |d.addrs| == 13
    && ((exists k :: 0 <= k < 13 && d.addrs[k] == b)
        || (d.addrs[12] != 0 && d.addrs[12] in v && exists j :: 0 <= j < 128 && GetU32(v[d.addrs[12]], 4 * j) == b))
  }

  /** The owner of a block is the inode whose addresses lead to it. */
  lemma OwnerIs(v: View, t: Inodes, owner: map<nat, Slot>, i: nat, b: nat)
    requires Refs(v, t, owner) && Owned(v, t, owner) && i in t && t[i].Ok() && 0 !in owner
    ensures b in owner && owner[b].inum == i <==> BlockOf(v, t[i], b)
  {
    var d := t[i];
    if BlockOf(v, d, b) {
      if k :| 0 <= k < 13 && d.addrs[k] == b {
        assert Ref(v, t, AddrSlot(i, k)) == b;
      } else {
        var j :| 0 <= j < 128 && GetU32(v[d.addrs[12]], 4 * j) == b;
        assert Ref(v, t, Indirect(i, j)) == b;
      }
    }
    if b in owner && owner[b].inum == i {
      assert Ref(v, t, owner[b]) == b;
      match owner[b]
      case Direct(_, k) => assert d.addrs[k] == b;
      case Table(_) => assert d.addrs[12] == b;
      case Indirect(_, j) => assert GetU32(v[d.addrs[12]], 4 * j) == b;
    }
  }

  function BlockSlot(i: nat, bn: nat): (sl: Slot) {
    if bn < NDIRECT then Direct(i, bn) else Indirect(i, bn - NDIRECT)
  }

  /** File `i` has gained blocks; no data block that had an owner has changed. */
  ghost predicate Grown(v: View, t: Inodes, owner: map<nat, Slot>, w: View, u: Inodes, owner': map<nat, Slot>, i: nat) {
    && (forall b :: b in owner ==> b in owner' && owner'[b] == owner[b])
    && (forall b :: b in owner && !owner[b].Table? ==> b in v && b in w && w[b] == v[b])
    && (forall b :: b in owner' && b !in owner ==> owner'[b].inum == i)
    && u.Keys == t.Keys && (forall k :: k in t && k != i ==> u[k] == t[k])
    && (i in t ==> u[i] == t[i].(addrs := u[i].addrs))
  }

  lemma GrownTwice(v: View, t: Inodes, owner: map<nat, Slot>, w: View, u: Inodes, owner': map<nat, Slot>,
                   x: View, y: Inodes, owner'': map<nat, Slot>, i: nat)
    requires Grown(v, t, owner, w, u, owner', i) && Grown(w, u, owner', x, y, owner'', i)
    ensures Grown(v, t, owner, x, y, owner'', i)
  {
  }

  /** A reference stays when a file grows. */
  lemma GrownRef(v: View, t: Inodes, owner: map<nat, Slot>, w: View, u: Inodes, owner': map<nat, Slot>, i: nat,
                 sl: Slot)
    requires Grown(v, t, owner, w, u, owner', i) && Refs(v, t, owner) && Owned(w, u, owner')
    requires Ref(v, t, sl) != 0
    ensures Ref(w, u, sl) == Ref(v, t, sl)
    ensures !sl.Table? ==> var b := Ref(v, t, sl); b in v && b in w && w[b] == v[b]
  {
    var b := Ref(v, t, sl);
    assert owner[b] == sl && owner'[b] == sl;
  }
}
