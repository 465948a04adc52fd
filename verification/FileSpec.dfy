/** Files as flat byte sequences, and what a partly done write looks like. */
module FileSpec {
  import opened Bytes
  import opened BufCache
  import opened LogSpec
  import opened Layout
  import opened Ownership

  /** Byte `p` of file `i`, through the direct blocks or the table block. */
  ghost function ByteAt(v: View, t: Inodes, i: nat, p: nat): (x: byte) {
    var a := Ref(v, t, BlockSlot(i, p / BSIZE));
    if a in v then v[a][p % BSIZE] else 0
  }

  /** Every block below the size of the file is there. */
  ghost predicate NoHoles(v: View, t: Inodes, i: nat) {
    i in t ==>
      && t[i].size <= MAXFILE * BSIZE
      && forall bn: nat :: bn * BSIZE < t[i].size ==> Ref(v, t, BlockSlot(i, bn)) != 0
  }

  ghost predicate Whole(v: View, t: Inodes) {
    forall i :: i in t ==> NoHoles(v, t, i)
  }

  /** The abstract file. */
  ghost function Contents(v: View, t: Inodes, i: nat): (s: seq<byte>) {
    if i in t then seq(t[i].size, p requires 0 <= p => ByteAt(v, t, i, p)) else []
  }

  lemma PresentByte(v: View, t: Inodes, i: nat, p: nat)
    requires NoHoles(v, t, i) && i in t && p < t[i].size
    ensures Ref(v, t, BlockSlot(i, p / BSIZE)) != 0 && p / BSIZE < MAXFILE
  {
    assert p / BSIZE * BSIZE < t[i].size;
  }

  /** Where block `bn` of a file with these addresses is: twelve blocks, and 128 more that the thirteenth lists. */
  ghost function DiskAddr(v: View, addrs: seq<word>, bn: nat): (a: word) {
    if |addrs| != 13 then 0
    else if bn < 12 then addrs[bn]
    else if bn < 140 && addrs[12] != 0 && addrs[12] in v then GetU32(v[addrs[12]], 4 * (bn - 12)) else 0
  }

  ghost function DiskByte(v: View, addrs: seq<word>, p: nat): (x: byte) {
    var a := DiskAddr(v, addrs, p / 512);
    if a in v then v[a][p % 512] else 0
  }

  lemma BlockAddr(v: View, t: Inodes, i: nat, bn: nat)
    requires i in t && t[i].Ok() && bn < 140
    ensures Ref(v, t, BlockSlot(i, bn)) == DiskAddr(v, t[i].addrs, bn)
  {
  }

  /** The flat file, block by block. */
  lemma FileBytes(v: View, t: Inodes, i: nat, p: nat)
    requires i in t && t[i].Ok() && NoHoles(v, t, i) && p < t[i].size
    ensures |Contents(v, t, i)| == t[i].size && Contents(v, t, i)[p] == DiskByte(v, t[i].addrs, p)
  {
    PresentByte(v, t, i, p);
    BlockAddr(v, t, i, p / 512);
    hide Ref, DiskAddr, BlockSlot;
  }

  /** `tot` bytes of `src` have been stored from offset `off` of file `i` on; its size is still the old one. */
  ghost predicate Progress(v: View, t: Inodes, owner: map<nat, Slot>, w: View, u: Inodes, owner': map<nat, Slot>,
                           i: nat, off: nat, src: seq<byte>, tot: nat) {
    && tot <= |src| && i in t
    && (forall b :: b in owner ==> b in owner' && owner'[b] == owner[b])
    && (forall b :: b in owner && !owner[b].Table? && owner[b].inum != i ==> b in v && b in w && w[b] == v[b])
    && (forall b :: b in owner' && b !in owner ==> owner'[b].inum == i)
    && u.Keys == t.Keys && (forall k :: k in t && k != i ==> u[k] == t[k])
    && u[i] == t[i].(addrs := u[i].addrs)
    && Stored(w, u, i, off, src, tot) && Untouched(v, t, w, u, i, off, tot)
  }

  ghost predicate Stored(w: View, u: Inodes, i: nat, off: nat, src: seq<byte>, tot: nat) {
    forall p: nat :: off <= p < off + tot && p - off < |src| ==>
      Ref(w, u, BlockSlot(i, p / BSIZE)) != 0 && ByteAt(w, u, i, p) == src[p - off]
  }

  ghost predicate Untouched(v: View, t: Inodes, w: View, u: Inodes, i: nat, off: nat, tot: nat) {
    i in t && forall p: nat :: p < t[i].size && !(off <= p < off + tot) ==>
      Ref(w, u, BlockSlot(i, p / BSIZE)) != 0 && ByteAt(w, u, i, p) == ByteAt(v, t, i, p)
  }

  lemma ProgressStart(v: View, t: Inodes, owner: map<nat, Slot>, i: nat, off: nat, src: seq<byte>)
    requires i in t && NoHoles(v, t, i) && forall b :: b in owner ==> b in v
    ensures Progress(v, t, owner, v, t, owner, i, off, src, 0)
  {
    forall p: nat | p < t[i].size ensures Ref(v, t, BlockSlot(i, p / BSIZE)) != 0 {
      PresentByte(v, t, i, p);
    }
  }

  lemma GrownByte(v: View, t: Inodes, owner: map<nat, Slot>, w: View, u: Inodes, owner': map<nat, Slot>, i: nat, k: nat,
                  p: nat)
    requires Grown(v, t, owner, w, u, owner', i) && Refs(v, t, owner) && Owned(w, u, owner')
    requires Ref(v, t, BlockSlot(k, p / BSIZE)) != 0
    ensures Ref(w, u, BlockSlot(k, p / BSIZE)) != 0 && ByteAt(w, u, k, p) == ByteAt(v, t, k, p)
  {
    GrownRef(v, t, owner, w, u, owner', i, BlockSlot(k, p / BSIZE));
  }

  /** Growing the file keeps what has been written and what has not. */
  lemma ProgressGrown(v0: View, t0: Inodes, owner0: map<nat, Slot>, v: View, t: Inodes, owner: map<nat, Slot>,
                      w: View, u: Inodes, owner': map<nat, Slot>, i: nat, off: nat, src: seq<byte>, tot: nat)
    requires Progress(v0, t0, owner0, v, t, owner, i, off, src, tot)
    requires Grown(v, t, owner, w, u, owner', i) && Refs(v, t, owner) && Owned(w, u, owner')
    ensures Progress(v0, t0, owner0, w, u, owner', i, off, src, tot)
  {
    ProgressGrownBytes(v0, t0, owner0, v, t, owner, w, u, owner', i, off, src, tot);
    hide Stored, Untouched;
  }

  lemma ProgressGrownBytes(v0: View, t0: Inodes, owner0: map<nat, Slot>, v: View, t: Inodes, owner: map<nat, Slot>,
                           w: View, u: Inodes, owner': map<nat, Slot>, i: nat, off: nat, src: seq<byte>, tot: nat)
    requires Progress(v0, t0, owner0, v, t, owner, i, off, src, tot)
    requires Grown(v, t, owner, w, u, owner', i) && Refs(v, t, owner) && Owned(w, u, owner')
    ensures Stored(w, u, i, off, src, tot) && Untouched(v0, t0, w, u, i, off, tot)
  {
    forall p: nat | Ref(v, t, BlockSlot(i, p / BSIZE)) != 0
      ensures Ref(w, u, BlockSlot(i, p / BSIZE)) != 0 && ByteAt(w, u, i, p) == ByteAt(v, t, i, p)
    {
      GrownByte(v, t, owner, w, u, owner', i, i, p);
    }
  }

  lemma SlotsApart(i: nat, a: nat, b: nat)
    ensures BlockSlot(i, a) == BlockSlot(i, b) ==> a == b
  {
  }

  /** Storing into a data block changes no reference. */
  lemma DataRefs(v: View, t: Inodes, owner: map<nat, Slot>, b: nat, x: Block, sl: Slot)
    requires Refs(v, t, owner) && b in owner && !owner[b].Table? && b in v && b != 0
    ensures Ref(v[b := x], t, sl) == Ref(v, t, sl)
  {
    if sl.Indirect? && sl.inum in t {
      assert Ref(v, t, Table(sl.inum)) != b;
    }
  }

  lemma Position(q: nat, p: nat, m: nat)
    requires 0 < m <= BSIZE - q % BSIZE
    ensures q <= p < q + m <==> p / BSIZE == q / BSIZE && q % BSIZE <= p % BSIZE < q % BSIZE + m
    ensures p / BSIZE == q / BSIZE ==> p - q == p % BSIZE - q % BSIZE
  {
    if p / BSIZE > q / BSIZE {
      assert p >= BSIZE * (q / BSIZE + 1);
    }
  }

  /** One byte after `piece` has been copied into the block of file `i` that holds byte `q`. */
  lemma WrittenByte(v: View, t: Inodes, owner: map<nat, Slot>, i: nat, q: nat, piece: seq<byte>, p: nat)
    requires Refs(v, t, owner) && 0 < |piece| <= BSIZE - q % BSIZE
    requires var b := Ref(v, t, BlockSlot(i, q / BSIZE)); b != 0 && b in v
    ensures var b := Ref(v, t, BlockSlot(i, q / BSIZE));
            var w := v[b := Splice(v[b], q % BSIZE, piece)];
            ByteAt(w, t, i, p) == if q <= p < q + |piece| then piece[p - q] else ByteAt(v, t, i, p)
  {
    var b := Ref(v, t, BlockSlot(i, q / BSIZE));
    DataRefs(v, t, owner, b, Splice(v[b], q % BSIZE, piece), BlockSlot(i, p / BSIZE));
    Position(q, p, |piece|);
    SlotsApart(i, p / BSIZE, q / BSIZE);
  }

  /** One iteration of the copy loop of inode_write, after bmap. */
  lemma ProgressWrite(v0: View, t0: Inodes, owner0: map<nat, Slot>, v: View, t: Inodes, owner: map<nat, Slot>,
                      i: nat, off: nat, src: seq<byte>, tot: nat, m: nat)
    requires Progress(v0, t0, owner0, v, t, owner, i, off, src, tot) && Refs(v, t, owner)
    requires 0 < m <= BSIZE - (off + tot) % BSIZE && tot + m <= |src|
    requires var b := Ref(v, t, BlockSlot(i, (off + tot) / BSIZE)); b != 0 && b in v
    ensures var b := Ref(v, t, BlockSlot(i, (off + tot) / BSIZE));
            var w := v[b := Splice(v[b], (off + tot) % BSIZE, src[tot..tot + m])];
            Progress(v0, t0, owner0, w, t, owner, i, off, src, tot + m)
  {
    var q := off + tot;
    var b := Ref(v, t, BlockSlot(i, q / BSIZE));
    var w := v[b := Splice(v[b], q % BSIZE, src[tot..tot + m])];
    ProgressWriteBytes(v0, t0, owner0, v, t, owner, i, off, src, tot, m);
    assert owner[b].inum == i;
    hide Stored, Untouched;
  }

  lemma ProgressWriteBytes(v0: View, t0: Inodes, owner0: map<nat, Slot>, v: View, t: Inodes, owner: map<nat, Slot>,
                           i: nat, off: nat, src: seq<byte>, tot: nat, m: nat)
    requires Progress(v0, t0, owner0, v, t, owner, i, off, src, tot) && Refs(v, t, owner)
    requires 0 < m <= BSIZE - (off + tot) % BSIZE && tot + m <= |src|
    requires var b := Ref(v, t, BlockSlot(i, (off + tot) / BSIZE)); b != 0 && b in v
    ensures var b := Ref(v, t, BlockSlot(i, (off + tot) / BSIZE));
            var w := v[b := Splice(v[b], (off + tot) % BSIZE, src[tot..tot + m])];
            Stored(w, t, i, off, src, tot + m) && Untouched(v0, t0, w, t, i, off, tot + m)
  {
    var q := off + tot;
    var b, piece := Ref(v, t, BlockSlot(i, q / BSIZE)), src[tot..tot + m];
    var w := v[b := Splice(v[b], q % BSIZE, piece)];
    forall p: nat ensures ByteAt(w, t, i, p) == if q <= p < q + m then piece[p - q] else ByteAt(v, t, i, p) {
      WrittenByte(v, t, owner, i, q, piece, p);
    }
    forall p: nat ensures Ref(w, t, BlockSlot(i, p / BSIZE)) == Ref(v, t, BlockSlot(i, p / BSIZE)) {
      DataRefs(v, t, owner, b, Splice(v[b], q % BSIZE, piece), BlockSlot(i, p / BSIZE));
    }
    forall p: nat | q <= p < q + m ensures Ref(v, t, BlockSlot(i, p / BSIZE)) != 0 && piece[p - q] == src[p - off] {
      Position(q, p, m);
    }
  }

  ghost function WithSize(t: Inodes, i: nat, size: word): (u: Inodes)
    requires i in t
  {
    t[i := t[i].(size := size)]
  }

  /** References do not depend on sizes. */
  lemma WithSizeRef(v: View, t: Inodes, i: nat, size: word, sl: Slot)
    requires i in t
    ensures Ref(v, WithSize(t, i, size), sl) == Ref(v, t, sl)
  {
  }

  /** Other files are as they were. */
  lemma ProgressOther(v: View, t: Inodes, owner: map<nat, Slot>, w: View, u: Inodes, owner': map<nat, Slot>,
                      i: nat, off: nat, src: seq<byte>, tot: nat, k: nat)
    requires Progress(v, t, owner, w, u, owner', i, off, src, tot) && Refs(v, t, owner) && Owned(w, u, owner')
    requires k != i && k in t && NoHoles(v, t, k)
    ensures NoHoles(w, u, k) && Contents(w, u, k) == Contents(v, t, k)
  {
    forall bn: nat | Ref(v, t, BlockSlot(k, bn)) != 0
      ensures var b := Ref(v, t, BlockSlot(k, bn)); Ref(w, u, BlockSlot(k, bn)) == b && b in v && b in w && w[b] == v[b]
    {
      var b := Ref(v, t, BlockSlot(k, bn));
      assert owner[b] == BlockSlot(k, bn);
    }
    forall p: nat | p < t[k].size ensures ByteAt(w, u, k, p) == ByteAt(v, t, k, p) {
      PresentByte(v, t, k, p);
    }
  }

  /** The finished write, before and after the size is adjusted. */
  lemma ProgressDone(v: View, t: Inodes, owner: map<nat, Slot>, w: View, u: Inodes, owner': map<nat, Slot>,
                     i: nat, off: nat, src: seq<byte>, size: word)
    requires Progress(v, t, owner, w, u, owner', i, off, src, |src|)
    requires NoHoles(v, t, i) && off <= t[i].size && off + |src| <= MAXFILE * BSIZE
    requires size == if off + |src| > t[i].size then off + |src| else t[i].size
    ensures NoHoles(w, WithSize(u, i, size), i)
    ensures Contents(w, WithSize(u, i, size), i) == Splice(Contents(v, t, i), off, src)
  {
    var u' := WithSize(u, i, size);
    forall p: nat | p < size
      ensures Ref(w, u', BlockSlot(i, p / BSIZE)) != 0
      ensures ByteAt(w, u', i, p) == if off <= p < off + |src| then src[p - off] else ByteAt(v, t, i, p)
    {
      WithSizeRef(w, u, i, size, BlockSlot(i, p / BSIZE));
    }
    forall bn: nat | bn * BSIZE < size ensures Ref(w, u', BlockSlot(i, bn)) != 0 {
      assert bn * BSIZE / BSIZE == bn;
    }
    var c, d := Contents(w, u', i), Contents(v, t, i);
    assert |c| == size && |d| == t[i].size;
    forall p: nat | p < size ensures c[p] == Splice(d, off, src)[p] {
      assert c[p] == ByteAt(w, u', i, p);
      if p < t[i].size {
        assert d[p] == ByteAt(v, t, i, p);
      }
    }
  }
}
