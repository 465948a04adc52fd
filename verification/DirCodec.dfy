/** Directory entries in the bytes of a directory file: struct dirent of kern/fs/dir.h. */
module DirCodec {
  import opened Bytes
  import opened Layout
  import Ownership
  import FileSpec
  import InodeSpec
  import opened NameSpec
  import PathSpec

  const DIRSIZ: nat := PathSpec.DIRSIZ
  const DIRENT: nat := 16

  /** A name that skipelem can produce: room for the terminating zero. */
  predicate NameOk(n: Name) { |n| < DIRSIZ && forall i :: 0 <= i < |n| ==> 0 < n[i] as int < 256 }

  predicate EntryFits(e: Dirent) { e.inum < 0x1_0000 && NameOk(e.name) }

  /** strncpy into the name field pads with zeros. */
  function EncodeName(n: Name): (b: seq<byte>)
    requires NameOk(n)
  {
    seq(DIRSIZ, i requires 0 <= i < DIRSIZ => if i < |n| then n[i] as int else 0)
  }

  /** The length of the name that starts the field, as strncmp sees it. */
  function NameLen(b: seq<byte>, k: nat): (n: nat)
    requires k <= |b|
    ensures k <= n <= |b| && (n < |b| ==> b[n] == 0) && forall i :: k <= i < n ==> b[i] != 0
    decreases |b| - k
  {
    if k == |b| || b[k] == 0 then k else NameLen(b, k + 1)
  }

  function DecodeName(b: seq<byte>): (n: Name) {
    seq(NameLen(b, 0), i requires 0 <= i < NameLen(b, 0) => b[i] as char)
  }

  function Encode(e: Dirent): (b: seq<byte>)
    requires EntryFits(e)
    ensures |b| == DIRENT
  {
    [e.inum % 256, e.inum / 256] + EncodeName(e.name)
  }

  function Decode(b: seq<byte>): (e: Dirent)
    requires |b| == DIRENT
  {
    Dirent(Join(b[0], b[1]), DecodeName(b[2..]))
  }

  /** Reading back an entry that was written. */
  lemma EntryRoundTrip(e: Dirent)
    requires EntryFits(e)
    ensures Decode(Encode(e)) == e
  {
    var f := EncodeName(e.name);
    assert Encode(e)[2..] == f;
    assert NameLen(f, 0) == |e.name| by {
      assert f[|e.name|] == 0;
    }
  }

  /** sys_unlink clears an entry with zeros. */
  lemma NoEntryIsZeros()
    ensures EntryFits(NO_ENTRY) && forall i :: 0 <= i < DIRENT ==> Encode(NO_ENTRY)[i] == 0
  {
  }

  /** struct dirent at byte `o`: a 16-bit inode number and a name of 14 characters, or fewer and a zero. */
  ghost predicate StructEntry(c: seq<byte>, o: nat, e: Dirent) {
    && o + 16 <= |c| && e.inum == c[o] as int + 0x100 * c[o + 1] as int && |e.name| <= 14
    && (forall i :: 0 <= i < |e.name| ==> e.name[i] as int == c[o + 2 + i] != 0)
    && (|e.name| < 14 ==> c[o + 2 + |e.name|] == 0)
  }

  /** Where entry `k` is in the bytes of a directory. */
  lemma EntryBytes(c: seq<byte>, k: nat)
    requires 16 * k + 16 <= |c|
    ensures k < |Slots(c)| && StructEntry(c, 16 * k, Slots(c)[k])
  {
    assert (16 * k + 16) / 16 == k + 1 && k < |c| / 16;
    var b := c[DIRENT * k..DIRENT * k + DIRENT];
    var f := b[2..];
    assert forall i :: 0 <= i < 14 ==> f[i] == c[16 * k + 2 + i];
    assert Slots(c)[k] == Decode(b);
  }

  /** The slots of a directory file. */
  ghost function Slots(c: seq<byte>): (r: seq<Dirent>)
    ensures |r| == |c| / DIRENT
  {
    seq(|c| / DIRENT, k requires 0 <= k < |c| / DIRENT => Decode(c[DIRENT * k..DIRENT * k + DIRENT]))
  }

  /** Writing one entry at its offset changes one slot, or appends one. */
  lemma SlotWritten(c: seq<byte>, s: nat, e: Dirent)
    requires |c| % DIRENT == 0 && s <= |c| / DIRENT && EntryFits(e)
    ensures var d := Splice(c, DIRENT * s, Encode(e)); |d| % DIRENT == 0 && Slots(d) == Put(Slots(c), s, e)
  {
    var d := Splice(c, DIRENT * s, Encode(e));
    EntryRoundTrip(e);
    forall k | 0 <= k < |d| / DIRENT ensures Slots(d)[k] == Put(Slots(c), s, e)[k] {
      var x := d[DIRENT * k..DIRENT * k + DIRENT];
      if k == s {
        assert x == Encode(e);
      } else {
        assert x == c[DIRENT * k..DIRENT * k + DIRENT];
      }
    }
  }

  /**
    inode_write of an entry into directory `i` is dir_link's, or sys_unlink's, change of one slot; no
    other directory changes.
   */
  lemma DirectoryWritten(v: View, t: Ownership.Inodes, w: View, u: Ownership.Inodes, i: nat, s: nat, e: Dirent)
    requires EntryFits(e) && |FileSpec.Contents(v, t, i)| % DIRENT == 0 && s <= |FileSpec.Contents(v, t, i)| / DIRENT
    requires InodeSpec.FileWritten(v, t, w, u, i, DIRENT * s, Encode(e))
    ensures Slots(FileSpec.Contents(w, u, i)) == Put(Slots(FileSpec.Contents(v, t, i)), s, e)
    ensures forall j :: j in t && j != i ==> Slots(FileSpec.Contents(w, u, j)) == Slots(FileSpec.Contents(v, t, j))
  {
    hide FileSpec.Contents, Encode, Slots;
    SlotWritten(FileSpec.Contents(v, t, i), s, e);
  }
}
