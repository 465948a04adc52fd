/** On-disk layout of kern/fs/dinode.h: super block, inodes, bitmap, data, log. */
module Layout {
  import opened Bytes
  import opened BufCache
  import opened LogSpec

  const NDIRECT: nat := 12
  const NINDIRECT: nat := 128
  const MAXFILE: nat := 140
  const IPB: nat := 8
  const BPB: nat := 4096
  const INODE_WORDS: nat := 16

  /** The sectors outside the log, as one transaction sees them. */
  type View = map<nat, Block>

  datatype Super = Super(size: nat, ninodes: nat, nlog: nat) {
    function Start(): nat { if nlog <= size then size - nlog else 0 }
    function BitmapStart(): nat { ninodes / IPB + 3 }
    function BBlock(b: nat): nat { b / BPB + ninodes / IPB + 3 }
    function DataStart(): nat { BBlock(size) + 1 }
    predicate Data(b: nat) { DataStart() <= b < Start() }
    /** The areas follow each other and the log leaves room for them. */
    predicate Ok() { 1 <= nlog <= size < TWO32 && DataStart() <= Start() }
  }

  function IBlock(i: nat): nat { i / IPB + 2 }

  ghost predicate Sectors(sb: Super, v: View) {
    sb.Ok() && forall s: nat :: s < sb.Start() ==> s in v
  }

  /** The areas lie inside the sectors the log protects, one after the other. */
  lemma InodeArea(sb: Super, i: nat)
    requires sb.Ok() && i < sb.ninodes
    ensures 1 < IBlock(i) < sb.BitmapStart() < sb.DataStart() <= sb.Start()
  {
    assert i / IPB <= sb.ninodes / IPB;
  }

  lemma BitmapArea(sb: Super, b: nat)
    requires sb.Ok() && b < sb.size
    ensures 1 < sb.BitmapStart() <= sb.BBlock(b) < sb.DataStart() <= sb.Start()
  {
    assert b / BPB <= sb.size / BPB;
  }

  /** The bit of block `b`. */
  predicate Used(sb: Super, v: View, b: nat) {
    sb.BBlock(b) in v && Bit(v[sb.BBlock(b)][b % BPB / 8], b % 8)
  }

  /** Where the bit is on the disk. */
  lemma BitmapBit(sb: Super, v: View, b: nat)
    ensures var s := b / 4096 + sb.ninodes / 8 + 3;
            Used(sb, v, b) <==> s in v && v[s][b % 4096 / 8] / [1, 2, 4, 8, 16, 32, 64, 128][b % 8] % 2 == 1
  {
    if sb.BBlock(b) in v {
      BitWeight(v[sb.BBlock(b)][b % BPB / 8], b % 8);
    }
  }

  function Marked(block: Block, bi: nat, on: bool): (r: Block)
    requires bi < BPB
  {
    SetBitByte(block[bi / 8], bi % 8, on);
    block[bi / 8 := SetBit(block[bi / 8], bi % 8, on)]
  }

  ghost function MarkedView(sb: Super, v: View, b: nat, on: bool): (r: View)
    requires sb.BBlock(b) in v
  {
    v[sb.BBlock(b) := Marked(v[sb.BBlock(b)], b % BPB, on)]
  }

  /** Marking one block changes its bit and no other. */
  lemma MarkedUsed(sb: Super, v: View, b: nat, on: bool, c: nat)
    requires sb.BBlock(b) in v
    ensures Used(sb, MarkedView(sb, v, b, on), c) == if c == b then on else Used(sb, v, c)
  {
    BitIndex(b);
    BitIndex(c);
    if sb.BBlock(c) == sb.BBlock(b) {
      BitPosition(b, c);
      hide Super.BBlock, Bit, SetBit;
      MarkedBit(v[sb.BBlock(b)], b % BPB, on, c % BPB);
    } else {
      hide Super.BBlock, Bit, SetBit, Marked;
    }
  }

  lemma BitIndex(b: nat)
    ensures b % BPB < BPB && b % BPB / 8 < BSIZE && b % BPB % 8 == b % 8
  {
  }

  lemma BitPosition(b: nat, c: nat)
    requires b / BPB == c / BPB
    ensures b == c <==> b % BPB == c % BPB
  {
  }

  lemma MarkedBit(block: Block, bi: nat, on: bool, ci: nat)
    requires bi < BPB && ci < BPB
    ensures Bit(Marked(block, bi, on)[ci / 8], ci % 8) == if ci == bi then on else Bit(block[ci / 8], ci % 8)
  {
    hide Bit, SetBit;
    if ci / 8 == bi / 8 && ci != bi {
      assert ci % 8 != bi % 8;
      SetBitOther(block[bi / 8], bi % 8, on, ci % 8);
    }
  }

  /** struct dinode. */
  datatype DInode = DInode(typ: nat, major: nat, minor: nat, nlink: nat, size: word, addrs: seq<word>) {
    predicate Ok() {
      typ < TWO16 && major < TWO16 && minor < TWO16 && nlink < TWO16 && |addrs| == NDIRECT + 1
    }
    function Addr(k: nat): word { if k < |addrs| then addrs[k] else 0 }
  }

  function ToWords(d: DInode): (ws: seq<word>)
    requires d.Ok()
    ensures |ws| == INODE_WORDS
  {
    [d.typ + TWO16 * d.major, d.minor + TWO16 * d.nlink, d.size] + d.addrs
  }

  function FromWords(ws: seq<word>): (d: DInode)
    requires |ws| == INODE_WORDS
    ensures d.Ok()
  {
    DInode(ws[0] % TWO16, ws[0] / TWO16, ws[1] % TWO16, ws[1] / TWO16, ws[2], ws[3..])
  }

  lemma InodeRoundTrip(d: DInode)
    requires d.Ok()
    ensures FromWords(ToWords(d)) == d
  {
    assert ToWords(d)[3..] == d.addrs;
  }

  /** Inode `i` as the disk has it. */
  function Ino(v: View, i: nat): (d: DInode)
    requires IBlock(i) in v
    ensures d.Ok()
  {
    FromWords(GetWords(v[IBlock(i)], 64 * (i % IPB), INODE_WORDS))
  }

  function WithInode(block: Block, i: nat, d: DInode): (r: Block)
    requires d.Ok()
  {
    PutWords(block, 64 * (i % IPB), ToWords(d))
  }

  /** struct dinode at byte `o`: five fields and thirteen addresses. */
  ghost predicate StructInode(b: Block, o: nat, typ: nat, major: nat, minor: nat, nlink: nat, size: nat,
                              addrs: seq<word>) {
    && o + 64 <= |b| && |addrs| == 13
    && typ == b[o] as int + 0x100 * b[o + 1] as int && major == b[o + 2] as int + 0x100 * b[o + 3] as int
    && minor == b[o + 4] as int + 0x100 * b[o + 5] as int && nlink == b[o + 6] as int + 0x100 * b[o + 7] as int
    && size == GetU32(b, o + 8) && forall k :: 0 <= k < 13 ==> addrs[k] == GetU32(b, o + 12 + 4 * k)
  }

  /** Where inode `i` is on the disk. */
  lemma InodeBytes(v: View, i: nat)
    requires IBlock(i) in v
    ensures var d := Ino(v, i);
            i / 8 + 2 in v && StructInode(v[i / 8 + 2], 64 * (i % 8), d.typ, d.major, d.minor, d.nlink, d.size, d.addrs)
  {
    var b, o := v[i / 8 + 2], 64 * (i % 8);
    var ws := GetWords(b, o, INODE_WORDS);
    assert ws[0] == GetU32(b, o + 4 * 0) && ws[1] == GetU32(b, o + 4 * 1) && ws[2] == GetU32(b, o + 4 * 2);
    LittleEndian(b, o);
    LittleEndian(b, o + 4);
    forall k | 0 <= k < 13 ensures ws[3..][k] == GetU32(b, o + 12 + 4 * k) {
      assert ws[3 + k] == GetU32(b, o + 4 * (3 + k));
    }
  }

  /** inode_update stores one inode and keeps its neighbours in the block. */
  lemma InodeStored(v: View, i: nat, d: DInode, j: nat)
    requires IBlock(i) in v && IBlock(j) in v && d.Ok()
    ensures Ino(v[IBlock(i) := WithInode(v[IBlock(i)], i, d)], j) == if i == j then d else Ino(v, j)
  {
    var block := WithInode(v[IBlock(i)], i, d);
    if i == j {
      WordsRoundTrip(v[IBlock(i)], 64 * (i % IPB), ToWords(d));
      InodeRoundTrip(d);
    } else if IBlock(i) == IBlock(j) {
      assert i % IPB != j % IPB;
      WordsFrame(v[IBlock(i)], block, 64 * (j % IPB), INODE_WORDS);
    }
  }
}
