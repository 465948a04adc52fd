/** Bytes, little-endian words and bits inside a disk block or a physical page. */
module Bytes {
  const TWO32: nat := 0x1_0000_0000
  const TWO16: nat := 0x1_0000

  type byte = x: int | 0 <= x < 256
  type word = x: int | 0 <= x < TWO32

  function Join(low: byte, high: nat): (v: nat) { low + 256 * high }

  /** Horner's rule from the last digit: the number whose little-endian digits are `bs` and then those of `high`. */
  function Number(bs: seq<byte>, high: nat): (v: nat) {
    if bs == [] then high else Number(bs[..|bs| - 1], Join(bs[|bs| - 1], high))
  }

  lemma FourDigits(b0: byte, b1: byte, b2: byte, b3: byte)
    ensures Number([b0, b1, b2, b3], 0) == Join(b0, Join(b1, Join(b2, b3))) < TWO32
  {
    assert [b0, b1, b2, b3][..3] == [b0, b1, b2] && [b0, b1, b2][..2] == [b0, b1] && [b0, b1][..1] == [b0];
    assert [b0][..0] == [];
    var h := Join(b1, Join(b2, b3));
    assert Number([b0], h) == Join(b0, h) && Number([b0, b1], Join(b2, b3)) == Number([b0], h);
  }

  /** The 32-bit word that a little-endian machine reads at byte offset `off`. */
  function GetU32(b: seq<byte>, off: nat): (v: word)
    requires off + 4 <= |b|
  {
    FourDigits(b[off], b[off + 1], b[off + 2], b[off + 3]);
    Number([b[off], b[off + 1], b[off + 2], b[off + 3]], 0)
  }

  /** Byte by byte. */
  lemma LittleEndian(b: seq<byte>, off: nat)
    requires off + 4 <= |b|
    ensures GetU32(b, off) as int ==
              b[off] as int + 0x100 * b[off + 1] as int + 0x1_0000 * b[off + 2] as int + 0x100_0000 * b[off + 3] as int
    ensures GetU32(b, off) % TWO16 == b[off] as int + 0x100 * b[off + 1] as int
    ensures GetU32(b, off) / TWO16 == b[off + 2] as int + 0x100 * b[off + 3] as int
  {
    FourDigits(b[off], b[off + 1], b[off + 2], b[off + 3]);
  }

  function PutU32(b: seq<byte>, off: nat, v: word): (r: seq<byte>)
    requires off + 4 <= |b|
    ensures |r| == |b|
    ensures GetU32(r, off) == v
    ensures forall i :: 0 <= i < |b| && !(off <= i < off + 4) ==> r[i] == b[i]
  {
    var v1 := v / 256; var v2 := v1 / 256; var v3 := v2 / 256;
    FourDigits(v % 256, v1 % 256, v2 % 256, v3);
    b[off := v % 256][off + 1 := v1 % 256][off + 2 := v2 % 256][off + 3 := v3]
  }

  /** `n` consecutive words. */
  function GetWords(b: seq<byte>, off: nat, n: nat): (ws: seq<word>)
    requires off + 4 * n <= |b|
    ensures |ws| == n
    ensures forall i :: 0 <= i < n ==> ws[i] == GetU32(b, off + 4 * i)
  {
    seq(n, i requires 0 <= i < n => GetU32(b, off + 4 * i))
  }

  function PutWords(b: seq<byte>, off: nat, ws: seq<word>): (r: seq<byte>)
    requires off + 4 * |ws| <= |b|
    ensures |r| == |b|
    ensures forall i :: 0 <= i < |b| && !(off <= i < off + 4 * |ws|) ==> r[i] == b[i]
    ensures forall i :: 0 <= i < |ws| ==> GetU32(r, off + 4 * i) == ws[i]
    decreases |ws|
  {
    if ws == [] then b
    else PutU32(PutWords(b, off, ws[..|ws| - 1]), off + 4 * (|ws| - 1), ws[|ws| - 1])
  }

  /** One more word. */
  lemma PutWordsNext(b: seq<byte>, off: nat, ws: seq<word>, k: nat)
    requires k < |ws| && off + 4 * |ws| <= |b|
    ensures PutWords(b, off, ws[..k + 1]) == PutU32(PutWords(b, off, ws[..k]), off + 4 * k, ws[k])
  {
    assert ws[..k + 1][..k] == ws[..k];
  }

  /** Storing a run of words and loading it back is the identity. */
  lemma WordsRoundTrip(b: seq<byte>, off: nat, ws: seq<word>)
    requires off + 4 * |ws| <= |b|
    ensures GetWords(PutWords(b, off, ws), off, |ws|) == ws
  {
  }

  /** Loading depends only on the bytes loaded. */
  lemma WordsFrame(b: seq<byte>, c: seq<byte>, off: nat, n: nat)
    requires off + 4 * n <= |b| == |c|
    requires forall i :: off <= i < off + 4 * n ==> b[i] == c[i]
    ensures GetWords(b, off, n) == GetWords(c, off, n)
  {
    forall i | 0 <= i < n ensures GetU32(b, off + 4 * i) == GetU32(c, off + 4 * i) {
    }
  }

  /** Bit `k` of `x`: whether `x & (1 << k)` is non-zero. */
  predicate Bit(x: nat, k: nat)
    decreases k
  {
    if k == 0 then x % 2 == 1 else Bit(x / 2, k - 1)
  }

  /** The weights of the bits of a byte. */
  lemma BitWeight(x: nat, k: nat)
    requires k < 8
    ensures Bit(x, k) <==> x / [1, 2, 4, 8, 16, 32, 64, 128][k] % 2 == 1
  {
    if k > 0 {
      BitWeight(x / 2, k - 1);
      assert x / 2 / 2 == x / 4 && x / 2 / 4 == x / 8 && x / 2 / 8 == x / 16;
      assert x / 2 / 16 == x / 32 && x / 2 / 32 == x / 64 && x / 2 / 64 == x / 128;
    }
  }

  /** `x | (1 << k)` when `on`, `x & ~(1 << k)` otherwise. */
  function SetBit(x: nat, k: nat, on: bool): (y: nat)
    ensures Bit(y, k) == on
    decreases k
  {
    if k == 0 then x / 2 * 2 + (if on then 1 else 0)
    else 2 * SetBit(x / 2, k - 1, on) + x % 2
  }

  /** Setting one bit leaves every other bit alone. */
  lemma {:induction false} SetBitOther(x: nat, k: nat, on: bool, j: nat)
    requires j != k
    ensures Bit(SetBit(x, k, on), j) == Bit(x, j)
    decreases k
  {
    var y := SetBit(x, k, on);
    SetBitParts(x, k, on);
    if j == 0 {
      assert Bit(y, 0) == (y % 2 == 1) && Bit(x, 0) == (x % 2 == 1);
    } else {
      assert Bit(y, j) == Bit(y / 2, j - 1) && Bit(x, j) == Bit(x / 2, j - 1);
      hide Bit, SetBit;
      if k != 0 {
        SetBitOther(x / 2, k - 1, on, j - 1);
      }
    }
  }

  /** The lowest bit of the result, and the others. */
  lemma SetBitParts(x: nat, k: nat, on: bool)
    ensures k == 0 ==> SetBit(x, k, on) / 2 == x / 2
    ensures k != 0 ==> SetBit(x, k, on) / 2 == SetBit(x / 2, k - 1, on) && SetBit(x, k, on) % 2 == x % 2
  {
    hide Bit;
    if k == 0 {
      Doubled(x / 2, if on then 1 else 0);
    } else {
      Doubled(SetBit(x / 2, k - 1, on), x % 2);
    }
  }

  lemma Doubled(a: nat, b: nat)
    requires b < 2
    ensures (2 * a + b) / 2 == a && (2 * a + b) % 2 == b
  {
  }

  /** A number below `2 * p` keeps below it when a bit of weight at most `p` is set. */
  lemma {:induction false} SetBitByte(x: nat, k: nat, on: bool)
    requires x < 256 && k < 8
    ensures SetBit(x, k, on) < 256
  {
    SetBitBound(x, k, on, 7);
  }

  function Weight(n: nat): (w: nat)
    ensures w > 0
  {
    if n == 0 then 2 else 2 * Weight(n - 1)
  }

  lemma {:induction false} SetBitBound(x: nat, k: nat, on: bool, n: nat)
    requires k <= n && x < Weight(n)
    ensures SetBit(x, k, on) < Weight(n)
    decreases k
  {
    var w := if n == 0 then 1 else Weight(n - 1);
    assert Weight(n) == 2 * w;
    Halved(x, w);
    if k != 0 {
      SetBitBound(x / 2, k - 1, on, n - 1);
    }
  }

  lemma Halved(x: nat, w: nat)
    requires x < 2 * w
    ensures x / 2 < w
  {
  }

  /** `b` with the bytes from `off` on replaced by `src`. */
  function Splice(b: seq<byte>, off: nat, src: seq<byte>): (r: seq<byte>)
    requires off <= |b|
    ensures |r| == if off + |src| <= |b| then |b| else off + |src|
    ensures forall i :: 0 <= i < |r| ==> r[i] == if off <= i < off + |src| then src[i - off] else b[i]
  {
    b[..off] + src + if off + |src| <= |b| then b[off + |src|..] else []
  }
}
