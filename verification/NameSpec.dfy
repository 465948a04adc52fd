/**
  Directories and link counts.  A node is an inode; `ents` are the entries of a directory in slot
  order, and an entry with inode number 0 is an empty slot.
 */
module NameSpec {

  type Name = string

  const ROOT: nat := 1

  datatype Kind = Free | Dir | File
  datatype Dirent = Dirent(inum: nat, name: Name)
  datatype Node = Node(kind: Kind, nlink: nat, ents: seq<Dirent>)

  // ---- one directory ----

  /** At most one entry per name. */
  ghost predicate UniqueNames(ents: seq<Dirent>) {
    forall i, j :: 0 <= i < j < |ents| && ents[i].inum != 0 && ents[j].inum != 0 ==> ents[i].name != ents[j].name
  }

  ghost predicate HasName(ents: seq<Dirent>, name: Name) {
    exists s :: 0 <= s < |ents| && ents[s].inum != 0 && ents[s].name == name
  }

  /** The directory as a finite map from names to inode numbers. */
  ghost function Entries(ents: seq<Dirent>): (m: map<Name, nat>) {
    if ents == [] then map[]
    else
      var m, e := Entries(ents[..|ents| - 1]), ents[|ents| - 1];
      if e.inum == 0 then m else m[e.name := e.inum]
  }

  /** dir_link writes the new entry into the first empty slot, or appends it. */
  function Slot(ents: seq<Dirent>, from: nat): (s: nat)
    requires from <= |ents|
    ensures from <= s <= |ents| && (s < |ents| ==> ents[s].inum == 0) && forall i :: from <= i < s ==> ents[i].inum != 0
    decreases |ents| - from
  {
    if from == |ents| || ents[from].inum == 0 then from else Slot(ents, from + 1)
  }

  function Put(ents: seq<Dirent>, s: nat, e: Dirent): (r: seq<Dirent>)
    requires s <= |ents|
    ensures |r| == (if s < |ents| then |ents| else |ents| + 1) && r[s] == e
    ensures forall i :: 0 <= i < |ents| && i != s ==> r[i] == ents[i]
  {
    if s < |ents| then ents[s := e] else ents + [e]
  }

  lemma {:induction false} EntriesAre(ents: seq<Dirent>, name: Name)
    requires UniqueNames(ents)
    ensures name in Entries(ents) <==> HasName(ents, name)
    ensures forall s :: 0 <= s < |ents| && ents[s].inum != 0 && ents[s].name == name ==>
              Entries(ents)[name] == ents[s].inum
  {
    if ents != [] {
      var front, e := ents[..|ents| - 1], ents[|ents| - 1];
      EntriesAre(front, name);
      if HasName(front, name) {
        var s :| 0 <= s < |front| && front[s].inum != 0 && front[s].name == name;
        assert ents[s] == front[s];
      }
      forall s | 0 <= s < |ents| && ents[s].inum != 0 && ents[s].name == name
        ensures name in Entries(ents) && Entries(ents)[name] == ents[s].inum
      {
        if s < |front| {
          assert front[s] == ents[s];
        }
      }
    }
  }

  /** Linking a new name adds one binding to the map. */
  lemma EntriesPut(ents: seq<Dirent>, s: nat, e: Dirent)
    requires UniqueNames(ents) && s <= |ents| && (s < |ents| ==> ents[s].inum == 0) && e.inum != 0
    requires !HasName(ents, e.name)
    ensures UniqueNames(Put(ents, s, e)) && Entries(Put(ents, s, e)) == Entries(ents)[e.name := e.inum]
  {
    PutUnique(ents, s, e);
    hide UniqueNames, HasName, Entries, Put;
    var r := Put(ents, s, e);
    forall name ensures name in Entries(r) <==> name in Entries(ents) || name == e.name {
      PutNames(ents, s, e, name);
    }
    forall name | name in Entries(r)
      ensures Entries(r)[name] == if name == e.name then e.inum else Entries(ents)[name] {
      PutNames(ents, s, e, name);
    }
  }

  lemma PutUnique(ents: seq<Dirent>, s: nat, e: Dirent)
    requires UniqueNames(ents) && s <= |ents| && !HasName(ents, e.name)
    ensures UniqueNames(Put(ents, s, e))
  {
    var r := Put(ents, s, e);
    forall i, j | 0 <= i < j < |r| && r[i].inum != 0 && r[j].inum != 0 ensures r[i].name != r[j].name {
      assert i != s ==> r[i] == ents[i];
      assert j != s ==> r[j] == ents[j];
    }
  }

  /** One name after the new entry. */
  lemma PutNames(ents: seq<Dirent>, s: nat, e: Dirent, name: Name)
    requires UniqueNames(ents) && s <= |ents| && (s < |ents| ==> ents[s].inum == 0) && e.inum != 0
    requires !HasName(ents, e.name) && UniqueNames(Put(ents, s, e))
    ensures var m, m' := Entries(ents), Entries(Put(ents, s, e));
            && (name in m' <==> name in m || name == e.name)
            && (name in m' ==> m'[name] == if name == e.name then e.inum else m[name])
  {
    hide UniqueNames, Entries;
    var r := Put(ents, s, e);
    EntriesAre(r, name);
    EntriesAre(ents, name);
    assert r[s] == e;
    if HasName(ents, name) {
      var i :| 0 <= i < |ents| && ents[i].inum != 0 && ents[i].name == name;
      assert r[i] == ents[i];
    }
  }

  /** Clearing a slot removes one binding. */
  lemma EntriesCleared(ents: seq<Dirent>, s: nat)
    requires UniqueNames(ents) && s < |ents| && ents[s].inum != 0
    ensures UniqueNames(ents[s := Dirent(0, "")]) && Entries(ents[s := Dirent(0, "")]) == Entries(ents) - {ents[s].name}
  {
    var r := ents[s := Dirent(0, "")];
    forall name ensures name in Entries(r) <==> name in Entries(ents) && name != ents[s].name {
      EntriesAre(r, name);
      EntriesAre(ents, name);
      if HasName(ents, name) && name != ents[s].name {
        var i :| 0 <= i < |ents| && ents[i].inum != 0 && ents[i].name == name;
        assert r[i] == ents[i];
      }
    }
    forall name | name in Entries(r) ensures Entries(r)[name] == Entries(ents)[name] {
      EntriesAre(r, name);
      EntriesAre(ents, name);
      var i :| 0 <= i < |r| && r[i].inum != 0 && r[i].name == name;
      assert r[i] == ents[i];
    }
  }

  // ---- the whole tree ----

  predicate Used(nodes: seq<Node>, i: nat) { 0 < i < |nodes| && nodes[i].kind != Free }

  /** A directory that can still be reached by name. */
  predicate Live(nodes: seq<Node>, d: nat) { d < |nodes| && nodes[d].kind == Dir && nodes[d].nlink > 0 }

  /** Slot `s` of live directory `d` refers to `i` by a name other than ".". */
  predicate Ref(nodes: seq<Node>, d: nat, s: nat, i: nat) {
    Live(nodes, d) && s < |nodes[d].ents| && nodes[d].ents[s].inum == i && nodes[d].ents[s].name != "."
  }

  ghost function Refs(nodes: seq<Node>, i: nat): (r: set<(nat, nat)>) {
    set d: nat, s: nat | d < |nodes| && s < |nodes[d].ents| && Ref(nodes, d, s, i) :: (d, s)
  }

  /** Where ".." leads. */
  ghost function Up(nodes: seq<Node>, d: nat): (p: nat)
    requires d < |nodes| && |nodes[d].ents| >= 2
  {
    nodes[d].ents[1].inum
  }

  ghost predicate DotsOk(nodes: seq<Node>, d: nat)
    requires d < |nodes|
  {
    var ents := nodes[d].ents;
    && |ents| >= 2 && ents[0] == Dirent(d, ".") && ents[1].name == ".." && 0 < ents[1].inum
    && (ents[1].inum == d <==> d == ROOT)
    && UniqueNames(ents)
  }

  /** What slot `s` of live directory `d` may say.  A directory is entered only in its parent. */
  ghost predicate EntryOk(nodes: seq<Node>, d: nat, s: nat)
    requires d < |nodes| && s < |nodes[d].ents|
  {
    var i := nodes[d].ents[s].inum;
    i != 0 ==>
      && Used(nodes, i) && (s == 1 ==> Live(nodes, i))
      && (s >= 2 && nodes[i].kind == Dir ==> Live(nodes, i) && i != ROOT && |nodes[i].ents| >= 2 && Up(nodes, i) == d)
  }

  ghost predicate EnteredIn(nodes: seq<Node>, p: nat, d: nat) {
    p < |nodes| && exists s :: 2 <= s < |nodes[p].ents| && nodes[p].ents[s].inum == d
  }

  ghost predicate EnteredOnce(nodes: seq<Node>, d: nat)
    requires d < |nodes|
  {
    forall s, s' :: 2 <= s < s' < |nodes[d].ents| && nodes[d].ents[s].inum != 0
                    && nodes[d].ents[s].inum == nodes[d].ents[s'].inum ==>
      nodes[d].ents[s].inum < |nodes| && nodes[nodes[d].ents[s].inum].kind != Dir
  }

  ghost predicate DirOk(nodes: seq<Node>, d: nat)
    requires d < |nodes|
  {
    nodes[d].kind == Dir ==>
      && d != 0 && DotsOk(nodes, d)
      && (nodes[d].nlink > 0 ==>
            && (forall s: nat :: s < |nodes[d].ents| ==> EntryOk(nodes, d, s))
            && EnteredOnce(nodes, d) && (d != ROOT ==> EnteredIn(nodes, Up(nodes, d), d)))
      && (nodes[d].nlink == 0 ==> forall s :: 2 <= s < |nodes[d].ents| ==> nodes[d].ents[s].inum == 0)
  }

  /** The link count is the number of entries other than "." in live directories. */
  ghost predicate CountOk(nodes: seq<Node>, i: nat) {
    Used(nodes, i) ==> nodes[i].nlink == |Refs(nodes, i)|
  }

  ghost predicate Inv(nodes: seq<Node>) {
    && Live(nodes, ROOT) && nodes[0].kind == Free
    && (forall d: nat :: d < |nodes| ==> DirOk(nodes, d))
    && (forall i: nat :: CountOk(nodes, i))
  }

  /** Nothing live refers to an unused inode. */
  lemma UnusedRefs(nodes: seq<Node>, i: nat)
    requires Inv(nodes) && 0 < i && !Used(nodes, i)
    ensures Refs(nodes, i) == {}
  {
    hide CountOk;
    forall d: nat, s: nat | d < |nodes| && s < |nodes[d].ents| ensures !Ref(nodes, d, s, i) {
      assert DirOk(nodes, d);
      assert Live(nodes, d) ==> EntryOk(nodes, d, s);
    }
  }

  /** Nothing but possibly `x` was lost on the way from `nodes` to `r`. */
  ghost predicate KeptAt(nodes: seq<Node>, r: seq<Node>, x: nat, i: nat)
    requires |r| == |nodes|
  {
    Used(nodes, i) && i != x ==>
      && r[i].kind == nodes[i].kind
      && (nodes[i].kind == Dir && |nodes[i].ents| >= 2 ==> |r[i].ents| >= 2 && r[i].ents[1] == nodes[i].ents[1])
      && (Live(nodes, i) ==> Live(r, i))
  }

  ghost predicate Kept(nodes: seq<Node>, r: seq<Node>, x: nat) {
    && |r| == |nodes|
    && (forall i: nat :: i < |nodes| ==> KeptAt(nodes, r, x, i))
    && (forall p: nat, c: nat :: EnteredIn(nodes, p, c) && Live(nodes, p) && Live(nodes, c) && c != x ==>
        EnteredIn(r, p, c))
  }

  /** A directory that was not touched is still in order. */
  lemma DirFrame(nodes: seq<Node>, r: seq<Node>, x: nat, d: nat)
    requires Inv(nodes) && Kept(nodes, r, x) && d < |nodes| && (x != 0 ==> d != x)
    requires r[d].ents == nodes[d].ents && r[d].kind == nodes[d].kind && (r[d].nlink > 0 <==> nodes[d].nlink > 0)
    requires x != 0 && Live(nodes, d) ==> forall s :: 1 <= s < |nodes[d].ents| ==> nodes[d].ents[s].inum != x
    ensures DirOk(r, d)
  {
    hide CountOk, UniqueNames, EnteredIn;
    assert DirOk(nodes, d);
    if Live(nodes, d) {
      forall s: nat | s < |nodes[d].ents| ensures EntryOk(r, d, s) {
        EntryFrame(nodes, r, x, d, s);
      }
      assert EntryOk(nodes, d, 1);
      OnceFrame(nodes, r, x, d);
    }
  }

  lemma EntryFrame(nodes: seq<Node>, r: seq<Node>, x: nat, d: nat, s: nat)
    requires Kept(nodes, r, x) && d < |nodes| && r[d].ents == nodes[d].ents && s < |nodes[d].ents|
    requires EntryOk(nodes, d, s)
    requires x != 0 ==> nodes[d].ents[s].inum != x
    ensures EntryOk(r, d, s)
  {
    hide EnteredIn;
    var i := nodes[d].ents[s].inum;
    if i != 0 {
      assert KeptAt(nodes, r, x, i);
    }
  }

  lemma OnceFrame(nodes: seq<Node>, r: seq<Node>, x: nat, d: nat)
    requires Kept(nodes, r, x) && d < |nodes| && r[d].ents == nodes[d].ents && EnteredOnce(nodes, d)
    requires forall s: nat :: s < |nodes[d].ents| ==> EntryOk(nodes, d, s)
    requires x != 0 ==> forall s :: 1 <= s < |r[d].ents| ==> r[d].ents[s].inum != x
    ensures EnteredOnce(r, d)
  {
    hide EnteredIn;
    forall s, s' | 2 <= s < s' < |r[d].ents| && r[d].ents[s].inum != 0 && r[d].ents[s].inum == r[d].ents[s'].inum
      ensures r[d].ents[s].inum < |r| && r[r[d].ents[s].inum].kind != Dir
    {
      assert EntryOk(nodes, d, s) && KeptAt(nodes, r, x, nodes[d].ents[s].inum);
    }
  }

  // ---- the operations on the table of inodes ----

  /** inode_alloc of a file. */
  function Alloc(nodes: seq<Node>, i: nat): (r: seq<Node>)
    requires i < |nodes|
  {
    nodes[i := Node(File, 0, [])]
  }

  lemma AllocKeeps(nodes: seq<Node>, i: nat)
    requires Inv(nodes) && 0 < i < |nodes| && nodes[i].kind == Free
    ensures Inv(Alloc(nodes, i))
  {
    hide DirOk;
    var r := Alloc(nodes, i);
    UnusedRefs(nodes, i);
    AllocKept(nodes, i);
    forall d: nat | d < |r| ensures DirOk(r, d) {
      if d == i {
        FileOk(r, d);
      } else {
        DirFrame(nodes, r, 0, d);
      }
    }
    forall x: nat ensures CountOk(r, x) {
      assert CountOk(nodes, x);
      assert Refs(r, x) == Refs(nodes, x);
    }
  }

  lemma AllocKept(nodes: seq<Node>, i: nat)
    requires Inv(nodes) && 0 < i < |nodes| && nodes[i].kind == Free
    ensures Kept(nodes, Alloc(nodes, i), 0)
  {
    hide CountOk;
    var r := Alloc(nodes, i);
    forall p: nat, c: nat | EnteredIn(nodes, p, c) && Live(nodes, p) && Live(nodes, c) ensures EnteredIn(r, p, c) {
      assert r[p] == nodes[p];
    }
  }

  lemma FileOk(nodes: seq<Node>, i: nat)
    requires i < |nodes| && nodes[i].kind != Dir
    ensures DirOk(nodes, i)
  {
  }

  /** dir_link(dp, name, i) together with the new link count of file `i`. */
  function AddLink(nodes: seq<Node>, dp: nat, name: Name, i: nat): (r: seq<Node>)
    requires dp < |nodes| && i < |nodes| && i != dp
  {
    nodes[i := nodes[i].(nlink := nodes[i].nlink + 1)][dp := Linked(nodes[dp], name, i)]
  }

  function Linked(d: Node, name: Name, i: nat): (r: Node) {
    d.(ents := Put(d.ents, Slot(d.ents, 0), Dirent(i, name)))
  }

  /** The new name does not displace "." or "..". */
  lemma SlotAfterDots(nodes: seq<Node>, dp: nat)
    requires dp < |nodes| && nodes[dp].kind == Dir && DirOk(nodes, dp)
    ensures 2 <= Slot(nodes[dp].ents, 0)
  {
    assert nodes[dp].ents[0].inum == dp && nodes[dp].ents[1].inum > 0;
  }

  lemma NamesPut(ents: seq<Dirent>, s: nat, e: Dirent)
    requires UniqueNames(ents) && s <= |ents| && !HasName(ents, e.name)
    ensures UniqueNames(Put(ents, s, e))
  {
  }

  /** A live directory that has got one more entry. */
  lemma GrownDir(nodes: seq<Node>, r: seq<Node>, dp: nat, name: Name, i: nat)
    requires Inv(nodes) && Live(nodes, dp) && Kept(nodes, r, 0) && !HasName(nodes[dp].ents, name)
    requires r[dp].ents == Linked(nodes[dp], name, i).ents && r[dp].kind == Dir && r[dp].nlink > 0
    requires 0 < i < |r| && r[i].kind != Free
    requires r[i].kind == Dir ==> Live(r, i) && i != ROOT && |r[i].ents| >= 2 && Up(r, i) == dp && !Used(nodes, i)
    ensures DirOk(r, dp)
  {
    hide CountOk, EnteredIn, UniqueNames;
    assert DirOk(nodes, dp);
    SlotAfterDots(nodes, dp);
    var old', s := nodes[dp].ents, Slot(nodes[dp].ents, 0);
    NamesPut(old', s, Dirent(i, name));
    forall k: nat | k < |r[dp].ents| ensures EntryOk(r, dp, k) {
      if k != s {
        assert EntryOk(nodes, dp, k) && r[dp].ents[k] == old'[k];
        KeptEntry(nodes, r, dp, k);
      }
    }
    assert EntryOk(nodes, dp, 1);
    GrownOnce(nodes, r, dp, s, i);
  }

  lemma KeptEntry(nodes: seq<Node>, r: seq<Node>, d: nat, s: nat)
    requires Kept(nodes, r, 0) && d < |nodes| && s < |nodes[d].ents| && EntryOk(nodes, d, s)
    requires s < |r[d].ents| && r[d].ents[s] == nodes[d].ents[s]
    ensures EntryOk(r, d, s)
  {
    hide EnteredIn;
    var i := nodes[d].ents[s].inum;
    if i != 0 {
      assert KeptAt(nodes, r, 0, i);
    }
  }

  lemma GrownOnce(nodes: seq<Node>, r: seq<Node>, d: nat, n: nat, i: nat)
    requires Kept(nodes, r, 0) && d < |nodes| && EnteredOnce(nodes, d) && n <= |nodes[d].ents| && 0 < i < |r|
    requires |r[d].ents| >= |nodes[d].ents| && n < |r[d].ents| <= |nodes[d].ents| + 1
    requires |r[d].ents| > |nodes[d].ents| ==> n == |nodes[d].ents|
    requires forall k :: 0 <= k < |nodes[d].ents| && k != n ==> r[d].ents[k] == nodes[d].ents[k]
    requires r[d].ents[n].inum == i && (r[i].kind == Dir ==> !Used(nodes, i))
    requires forall s: nat :: s < |nodes[d].ents| ==> EntryOk(nodes, d, s)
    ensures EnteredOnce(r, d)
  {
    hide EnteredIn;
    forall s, s' | 2 <= s < s' < |r[d].ents| && r[d].ents[s].inum != 0 && r[d].ents[s].inum == r[d].ents[s'].inum
      ensures r[d].ents[s].inum < |r| && r[r[d].ents[s].inum].kind != Dir
    {
      var k := if s == n then s' else s;
      assert EntryOk(nodes, d, k) && KeptAt(nodes, r, 0, nodes[d].ents[k].inum);
    }
  }

  lemma AddLinkKept(nodes: seq<Node>, dp: nat, name: Name, i: nat)
    requires Inv(nodes) && Live(nodes, dp) && Used(nodes, i) && nodes[i].kind == File
    ensures Kept(nodes, AddLink(nodes, dp, name, i), 0)
  {
    hide CountOk;
    var r := AddLink(nodes, dp, name, i);
    assert DirOk(nodes, dp);
    SlotAfterDots(nodes, dp);
    forall p: nat, c: nat | EnteredIn(nodes, p, c) && Live(nodes, p) && Live(nodes, c) ensures EnteredIn(r, p, c) {
      var s :| 2 <= s < |nodes[p].ents| && nodes[p].ents[s].inum == c;
      assert c != 0 by {
        assert DirOk(nodes, c);
      }
      assert r[p].ents[s].inum == c;
    }
  }

  lemma AddLinkRefs(nodes: seq<Node>, dp: nat, name: Name, i: nat, x: nat)
    requires Inv(nodes) && Live(nodes, dp) && Used(nodes, i) && nodes[i].kind == File && name != "." && 0 < x
    ensures var at := (dp, Slot(nodes[dp].ents, 0));
            && Refs(AddLink(nodes, dp, name, i), x) == (if x == i then Refs(nodes, x) + {at} else Refs(nodes, x))
            && at !in Refs(nodes, x)
  {
    hide CountOk, DirOk;
    var r, s := AddLink(nodes, dp, name, i), Slot(nodes[dp].ents, 0);
    forall d: nat, k: nat | d < |nodes| && !(d == dp && k == s) ensures Ref(r, d, k, x) <==> Ref(nodes, d, k, x) {
    }
    assert Ref(r, dp, s, x) <==> x == i;
  }

  /** A link made in a live directory keeps everything in order. */
  lemma AddLinkKeeps(nodes: seq<Node>, dp: nat, name: Name, i: nat)
    requires Inv(nodes) && Live(nodes, dp) && Used(nodes, i) && nodes[i].kind == File && !HasName(nodes[dp].ents, name)
    ensures Inv(AddLink(nodes, dp, name, i))
  {
    hide DirOk, Refs, HasName;
    var r := AddLink(nodes, dp, name, i);
    AddLinkKept(nodes, dp, name, i);
    forall d: nat | d < |r| ensures DirOk(r, d) {
      if d == dp {
        GrownDir(nodes, r, dp, name, i);
      } else if d == i {
        FileOk(r, d);
      } else {
        DirFrame(nodes, r, 0, d);
      }
    }
    NotDot(nodes, dp, name);
    forall x: nat ensures CountOk(r, x) {
      assert CountOk(nodes, x);
      if x > 0 {
        AddLinkRefs(nodes, dp, name, i, x);
      }
    }
  }

  lemma NotDot(nodes: seq<Node>, dp: nat, name: Name)
    requires Inv(nodes) && dp < |nodes| && nodes[dp].kind == Dir && !HasName(nodes[dp].ents, name)
    ensures name != "." && name != ".."
  {
    assert DirOk(nodes, dp);
    assert nodes[dp].ents[0] == Dirent(dp, ".") && nodes[dp].ents[1].name == "..";
  }

  /** A link made in a directory that has itself been unlinked counts for nothing. */
  lemma AddLinkBreaks(nodes: seq<Node>, dp: nat, name: Name, i: nat)
    requires Inv(nodes) && dp < |nodes| && nodes[dp].kind == Dir && nodes[dp].nlink == 0 && Used(nodes, i)
    requires nodes[i].kind == File
    ensures !Inv(AddLink(nodes, dp, name, i))
  {
    hide DirOk;
    var r := AddLink(nodes, dp, name, i);
    assert Refs(r, i) == Refs(nodes, i);
    assert CountOk(nodes, i) && !CountOk(r, i);
  }

  // ---- new directories ----

  /** What create does for T_DIR: the new directory with its dots, the entry in dp, and the link for "..". */
  function MakeDir(nodes: seq<Node>, dp: nat, name: Name, i: nat): (r: seq<Node>)
    requires dp < |nodes| && i < |nodes| && i != dp
  {
    nodes[i := Node(Dir, 1, [Dirent(i, "."), Dirent(dp, "..")])]
         [dp := Linked(nodes[dp].(nlink := nodes[dp].nlink + 1), name, i)]
  }

  lemma MakeDirEntered(nodes: seq<Node>, dp: nat, name: Name, i: nat, p: nat, c: nat)
    requires Inv(nodes) && Live(nodes, dp) && 0 < i < |nodes| && nodes[i].kind == Free
    requires EnteredIn(nodes, p, c) && Live(nodes, p) && Live(nodes, c)
    ensures EnteredIn(MakeDir(nodes, dp, name, i), p, c)
  {
    hide CountOk;
    var r := MakeDir(nodes, dp, name, i);
    SlotAfterDots(nodes, dp);
    var s :| 2 <= s < |nodes[p].ents| && nodes[p].ents[s].inum == c;
    assert c != 0 by {
      assert DirOk(nodes, c);
    }
    assert r[p].ents[s].inum == c;
  }

  lemma MakeDirKept(nodes: seq<Node>, dp: nat, name: Name, i: nat)
    requires Inv(nodes) && Live(nodes, dp) && 0 < i < |nodes| && nodes[i].kind == Free
    ensures Kept(nodes, MakeDir(nodes, dp, name, i), 0)
  {
    hide CountOk;
    var r := MakeDir(nodes, dp, name, i);
    assert DirOk(nodes, dp);
    SlotAfterDots(nodes, dp);
    forall p: nat, c: nat | EnteredIn(nodes, p, c) && Live(nodes, p) && Live(nodes, c) ensures EnteredIn(r, p, c) {
      MakeDirEntered(nodes, dp, name, i, p, c);
    }
  }

  lemma MakeDirRefs(nodes: seq<Node>, dp: nat, name: Name, i: nat, x: nat)
    requires Inv(nodes) && Live(nodes, dp) && 0 < i < |nodes| && nodes[i].kind == Free && name != "." && 0 < x
    ensures var at := (dp, Slot(nodes[dp].ents, 0));
            && Refs(MakeDir(nodes, dp, name, i), x) == (if x == i then Refs(nodes, x) + {at}
                                                        else if x == dp then Refs(nodes, x) + {(i, 1)}
                                                             else Refs(nodes, x))
            && at !in Refs(nodes, x) && (i, 1) !in Refs(nodes, x)
  {
    hide CountOk, DirOk;
    var r, s := MakeDir(nodes, dp, name, i), Slot(nodes[dp].ents, 0);
    forall d: nat, k: nat | d < |nodes| && d != i && !(d == dp && k == s)
      ensures Ref(r, d, k, x) <==> Ref(nodes, d, k, x) {
    }
    forall k: nat ensures Ref(r, i, k, x) <==> k == 1 && x == dp {
    }
    assert Ref(r, dp, s, x) <==> x == i;
  }

  lemma NewDirOk(nodes: seq<Node>, dp: nat, name: Name, i: nat)
    requires Inv(nodes) && Live(nodes, dp) && 0 < i < |nodes| && nodes[i].kind == Free
    ensures DirOk(MakeDir(nodes, dp, name, i), i)
  {
    hide CountOk;
    var r, s := MakeDir(nodes, dp, name, i), Slot(nodes[dp].ents, 0);
    assert DirOk(nodes, dp);
    SlotAfterDots(nodes, dp);
    assert r[dp].ents[s].inum == i;
  }

  lemma MakeDirKeeps(nodes: seq<Node>, dp: nat, name: Name, i: nat)
    requires Inv(nodes) && Live(nodes, dp) && 0 < i < |nodes| && nodes[i].kind == Free && !HasName(nodes[dp].ents, name)
    ensures Inv(MakeDir(nodes, dp, name, i))
  {
    hide DirOk, Refs, HasName;
    var r := MakeDir(nodes, dp, name, i);
    MakeDirKept(nodes, dp, name, i);
    forall d: nat | d < |r| ensures DirOk(r, d) {
      if d == dp {
        GrownDir(nodes, r, dp, name, i);
      } else if d == i {
        NewDirOk(nodes, dp, name, i);
      } else {
        DirFrame(nodes, r, 0, d);
      }
    }
    NotDot(nodes, dp, name);
    UnusedRefs(nodes, i);
    forall x: nat ensures CountOk(r, x) {
      assert CountOk(nodes, x);
      if x > 0 {
        MakeDirRefs(nodes, dp, name, i, x);
      }
    }
  }

  lemma DeadDots(nodes: seq<Node>, dp: nat)
    requires Inv(nodes) && dp < |nodes| && nodes[dp].kind == Dir
    ensures |nodes[dp].ents| >= 2 && nodes[dp].ents[0] == Dirent(dp, ".") && nodes[dp].ents[1].name == ".."
    ensures 0 < nodes[dp].ents[1].inum && 2 <= Slot(nodes[dp].ents, 0)
    ensures nodes[dp].nlink == 0 ==> nodes[dp].ents[1].inum != dp && forall s :: 2 <= s < |nodes[dp].ents| ==>
              nodes[dp].ents[s].inum == 0
  {
    assert DirOk(nodes, dp);
    SlotAfterDots(nodes, dp);
  }

  /** In an unlinked directory it brings the directory back to life, and with it a ".." that nobody counted. */
  lemma MakeDirBreaks(nodes: seq<Node>, dp: nat, name: Name, i: nat)
    requires Inv(nodes) && dp < |nodes| && nodes[dp].kind == Dir && nodes[dp].nlink == 0
    requires 0 < i < |nodes| && nodes[i].kind == Free && !HasName(nodes[dp].ents, name)
    ensures !Inv(MakeDir(nodes, dp, name, i))
  {
    hide DirOk, CountOk, Refs;
    DeadDots(nodes, dp);
    var r, u := MakeDir(nodes, dp, name, i), nodes[dp].ents[1].inum;
    RevivedLinks(nodes, dp, name, i);
    if u == i {
      UpToNew(nodes, dp, name, i);
    } else if Used(nodes, u) {
      UpUncounted(nodes, dp, name, i);
    } else {
      EntryNeedsUsed(r, dp, 1);
    }
  }

  /** The revived directory is live, and its ".." and the new entry are references. */
  lemma RevivedLinks(nodes: seq<Node>, dp: nat, name: Name, i: nat)
    requires Inv(nodes) && dp < |nodes| && nodes[dp].kind == Dir && nodes[dp].nlink == 0 && |nodes[dp].ents| >= 2
    requires 0 < i < |nodes| && nodes[i].kind == Free && !HasName(nodes[dp].ents, name)
    ensures var r, u, s := MakeDir(nodes, dp, name, i), nodes[dp].ents[1].inum, Slot(nodes[dp].ents, 0);
            && Live(r, dp) && |r| == |nodes| && s != 1
            && 1 < |r[dp].ents| && r[dp].ents[1].inum == u && Ref(r, dp, 1, u) && Ref(r, dp, s, i)
            && (u != i && !Used(nodes, u) ==> u != 0 && !Used(r, u))
  {
    hide DirOk, CountOk;
    NotDot(nodes, dp, name);
    DeadDots(nodes, dp);
  }

  lemma UpToNew(nodes: seq<Node>, dp: nat, name: Name, i: nat)
    requires Inv(nodes) && dp < |nodes| && nodes[dp].kind == Dir && nodes[dp].nlink == 0 && |nodes[dp].ents| >= 2
    requires 0 < i < |nodes| && nodes[i].kind == Free && !HasName(nodes[dp].ents, name) && nodes[dp].ents[1].inum == i
    ensures !CountOk(MakeDir(nodes, dp, name, i), i)
  {
    hide DirOk;
    RevivedLinks(nodes, dp, name, i);
    var r, s := MakeDir(nodes, dp, name, i), Slot(nodes[dp].ents, 0);
    Two(Refs(r, i), (dp, 1), (dp, s));
  }

  lemma UpUncounted(nodes: seq<Node>, dp: nat, name: Name, i: nat)
    requires Inv(nodes) && dp < |nodes| && nodes[dp].kind == Dir && nodes[dp].nlink == 0 && |nodes[dp].ents| >= 2
    requires 0 < i < |nodes| && nodes[i].kind == Free && nodes[dp].ents[1].inum != i
    requires Used(nodes, nodes[dp].ents[1].inum)
    ensures !CountOk(MakeDir(nodes, dp, name, i), nodes[dp].ents[1].inum)
  {
    hide DirOk, Refs;
    var u := nodes[dp].ents[1].inum;
    UpAgain(nodes, dp, name, i);
    assert CountOk(nodes, u);
  }

  lemma Two<T>(s: set<T>, a: T, b: T)
    requires a in s && b in s && a != b
    ensures |s| >= 2
  {
    assert |s - {a}| == |s| - 1 && b in s - {a};
  }

  lemma EntryNeedsUsed(nodes: seq<Node>, d: nat, s: nat)
    requires d < |nodes| && Live(nodes, d) && s < |nodes[d].ents| && nodes[d].ents[s].inum != 0
    requires !Used(nodes, nodes[d].ents[s].inum)
    ensures !DirOk(nodes, d)
  {
    assert !EntryOk(nodes, d, s);
  }

  lemma UpAgain(nodes: seq<Node>, dp: nat, name: Name, i: nat)
    requires Inv(nodes) && dp < |nodes| && nodes[dp].kind == Dir && nodes[dp].nlink == 0 && |nodes[dp].ents| >= 2
    requires 0 < i < |nodes| && nodes[i].kind == Free && nodes[dp].ents[1].inum != i
    ensures var r, u := MakeDir(nodes, dp, name, i), nodes[dp].ents[1].inum;
            (dp, 1) !in Refs(nodes, u) && Refs(r, u) == Refs(nodes, u) + {(dp, 1)} && u != dp
  {
    hide CountOk, DirOk;
    DeadDots(nodes, dp);
    var r, u := MakeDir(nodes, dp, name, i), nodes[dp].ents[1].inum;
    forall d: nat, k: nat | d < |nodes| ensures Ref(r, d, k, u) <==> Ref(nodes, d, k, u) || (d == dp && k == 1) {
    }
  }

  // ---- unlinking ----

  const NO_ENTRY: Dirent := Dirent(0, "")

  function Cleared(d: Node, s: nat): (r: Node)
    requires s < |d.ents|
  {
    d.(ents := d.ents[s := NO_ENTRY])
  }

  /** sys_unlink of a file at slot `s` of dp. */
  function DropFile(nodes: seq<Node>, dp: nat, s: nat, i: nat): (r: seq<Node>)
    requires dp < |nodes| && i < |nodes| && i != dp && s < |nodes[dp].ents| && nodes[i].nlink > 0
  {
    nodes[dp := Cleared(nodes[dp], s)][i := nodes[i].(nlink := nodes[i].nlink - 1)]
  }

  /** sys_unlink of a directory, whose ".." stops counting for dp. */
  function DropDir(nodes: seq<Node>, dp: nat, s: nat, i: nat): (r: seq<Node>)
    requires dp < |nodes| && i < |nodes| && i != dp && s < |nodes[dp].ents| && nodes[i].nlink > 0 && nodes[dp].nlink > 0
  {
    nodes[dp := Cleared(nodes[dp].(nlink := nodes[dp].nlink - 1), s)][i := nodes[i].(nlink := nodes[i].nlink - 1)]
  }

  /** Slot `s` of live directory dp names `i`. */
  ghost predicate Named(nodes: seq<Node>, dp: nat, s: nat, i: nat) {
    Live(nodes, dp) && 2 <= s < |nodes[dp].ents| && nodes[dp].ents[s].inum == i && 0 < i
  }

  /** "unlink: nlink < 1" cannot happen. */
  lemma NamedHasLinks(nodes: seq<Node>, dp: nat, s: nat, i: nat)
    requires Inv(nodes) && Named(nodes, dp, s, i)
    ensures Used(nodes, i) && nodes[i].nlink > 0 && i != dp && i != ROOT && (dp, s) in Refs(nodes, i)
    ensures nodes[i].kind == Dir ==> Live(nodes, i) && |nodes[i].ents| >= 2 && Up(nodes, i) == dp
  {
    assert DirOk(nodes, dp) && EntryOk(nodes, dp, s) && CountOk(nodes, i);
    assert Ref(nodes, dp, s, i) && (dp, s) in Refs(nodes, i) && Refs(nodes, i) != {};
    RootIsDir(nodes);
  }

  lemma RootIsDir(nodes: seq<Node>)
    requires Inv(nodes)
    ensures nodes[ROOT].kind == Dir && |nodes[ROOT].ents| >= 2 && Up(nodes, ROOT) == ROOT
  {
    assert DirOk(nodes, ROOT);
  }

  /** A live directory that has lost the entry of `x`, and perhaps a link. */
  lemma ShrunkDir(nodes: seq<Node>, r: seq<Node>, x: nat, dp: nat, s: nat)
    requires Inv(nodes) && Live(nodes, dp) && Kept(nodes, r, x) && 2 <= s < |nodes[dp].ents| && (x != 0 ==> dp != x)
    requires r[dp].ents == nodes[dp].ents[s := NO_ENTRY] && r[dp].kind == Dir && r[dp].nlink > 0
    requires x != 0 ==> forall k :: 1 <= k < |nodes[dp].ents| && k != s ==> nodes[dp].ents[k].inum != x
    ensures DirOk(r, dp)
  {
    hide CountOk, EnteredIn;
    assert DirOk(nodes, dp);
    forall k: nat | k < |r[dp].ents| ensures EntryOk(r, dp, k) {
      if k != s {
        assert EntryOk(nodes, dp, k);
        if nodes[dp].ents[k].inum != 0 {
          assert KeptAt(nodes, r, x, nodes[dp].ents[k].inum);
        }
      }
    }
    assert EntryOk(nodes, dp, 1);
    ShrunkOnce(nodes, r, x, dp, s);
  }

  lemma ShrunkOnce(nodes: seq<Node>, r: seq<Node>, x: nat, d: nat, n: nat)
    requires Kept(nodes, r, x) && d < |nodes| && EnteredOnce(nodes, d) && n < |nodes[d].ents|
    requires r[d].ents == nodes[d].ents[n := NO_ENTRY]
    requires forall s: nat :: s < |nodes[d].ents| ==> EntryOk(nodes, d, s)
    requires x != 0 ==> forall s :: 1 <= s < |r[d].ents| ==> r[d].ents[s].inum != x
    ensures EnteredOnce(r, d)
  {
    hide EnteredIn;
    forall s, s' | 2 <= s < s' < |r[d].ents| && r[d].ents[s].inum != 0 && r[d].ents[s].inum == r[d].ents[s'].inum
      ensures r[d].ents[s].inum < |r| && r[r[d].ents[s].inum].kind != Dir
    {
      assert EntryOk(nodes, d, s) && KeptAt(nodes, r, x, nodes[d].ents[s].inum);
    }
  }

  lemma DropFileKept(nodes: seq<Node>, dp: nat, s: nat, i: nat)
    requires Inv(nodes) && Named(nodes, dp, s, i) && i < |nodes| && i != dp && nodes[i].kind == File
    requires nodes[i].nlink > 0
    ensures Kept(nodes, DropFile(nodes, dp, s, i), 0)
  {
    hide CountOk, DirOk;
    var r := DropFile(nodes, dp, s, i);
    forall p: nat, c: nat | EnteredIn(nodes, p, c) && Live(nodes, p) && Live(nodes, c) ensures EnteredIn(r, p, c) {
      var k :| 2 <= k < |nodes[p].ents| && nodes[p].ents[k].inum == c;
      assert r[p].ents[k].inum == c;
    }
  }

  lemma DropFileRefs(nodes: seq<Node>, dp: nat, s: nat, i: nat, x: nat)
    requires Named(nodes, dp, s, i) && i < |nodes| && i != dp && nodes[i].kind == File && nodes[i].nlink > 0 && 0 < x
    ensures Refs(DropFile(nodes, dp, s, i), x) == if x == i then Refs(nodes, x) - {(dp, s)} else Refs(nodes, x)
  {
    var r := DropFile(nodes, dp, s, i);
    forall d: nat, k: nat | d < |nodes| && !(d == dp && k == s) ensures Ref(r, d, k, x) <==> Ref(nodes, d, k, x) {
    }
  }

  lemma DropFileKeeps(nodes: seq<Node>, dp: nat, s: nat, i: nat)
    requires Inv(nodes) && Named(nodes, dp, s, i) && i < |nodes| && i != dp && nodes[i].kind == File
    requires nodes[i].nlink > 0
    ensures Inv(DropFile(nodes, dp, s, i))
  {
    hide DirOk, Refs;
    var r := DropFile(nodes, dp, s, i);
    DropFileKept(nodes, dp, s, i);
    forall d: nat | d < |r| ensures DirOk(r, d) {
      if d == dp {
        ShrunkDir(nodes, r, 0, dp, s);
      } else if d == i {
        FileOk(r, d);
      } else {
        DirFrame(nodes, r, 0, d);
      }
    }
    NamedHasLinks(nodes, dp, s, i);
    forall x: nat ensures CountOk(r, x) {
      assert CountOk(nodes, x);
      if x > 0 {
        DropFileRefs(nodes, dp, s, i, x);
      }
    }
  }

  // ---- unlinking a directory ----

  ghost predicate EmptyDir(nodes: seq<Node>, i: nat) {
    i < |nodes| && nodes[i].kind == Dir && forall k :: 2 <= k < |nodes[i].ents| ==> nodes[i].ents[k].inum == 0
  }

  /** An empty directory has one link: its entry in its parent. */
  lemma EmptyDirRefs(nodes: seq<Node>, dp: nat, s: nat, i: nat)
    requires Inv(nodes) && Named(nodes, dp, s, i) && EmptyDir(nodes, i)
    ensures Refs(nodes, i) == {(dp, s)}
  {
    hide CountOk;
    NamedHasLinks(nodes, dp, s, i);
    forall d: nat, k: nat | Ref(nodes, d, k, i) ensures d == dp && k == s {
      assert DirOk(nodes, d) && EntryOk(nodes, d, k) && DirOk(nodes, dp);
      NoChild(nodes, i, d);
    }
    assert Ref(nodes, dp, s, i);
  }

  lemma NoChild(nodes: seq<Node>, i: nat, d: nat)
    requires Inv(nodes) && EmptyDir(nodes, i) && i != ROOT && Live(nodes, d)
    ensures |nodes[d].ents| >= 2 && Up(nodes, d) != i
  {
    hide CountOk;
    assert DirOk(nodes, d);
    assert d != ROOT ==> EnteredIn(nodes, Up(nodes, d), d);
  }

  /** The parent of a live directory stays live without it. */
  lemma ParentHasMore(nodes: seq<Node>, dp: nat, s: nat, i: nat)
    requires Inv(nodes) && Named(nodes, dp, s, i) && EmptyDir(nodes, i)
    ensures (i, 1) in Refs(nodes, dp) && nodes[dp].nlink >= 2
  {
    NamedHasLinks(nodes, dp, s, i);
    assert DirOk(nodes, dp) && DirOk(nodes, i) && CountOk(nodes, dp);
    assert Ref(nodes, i, 1, dp);
    if dp == ROOT {
      assert Ref(nodes, ROOT, 1, dp);
      Two(Refs(nodes, dp), (i, 1), (ROOT, 1));
    } else {
      var p := Up(nodes, dp);
      assert EntryOk(nodes, dp, 1) && EnteredIn(nodes, p, dp);
      var k :| 2 <= k < |nodes[p].ents| && nodes[p].ents[k].inum == dp;
      assert DirOk(nodes, p) && Ref(nodes, p, k, dp);
      Two(Refs(nodes, dp), (i, 1), (p, k));
    }
  }

  lemma DropDirKept(nodes: seq<Node>, dp: nat, s: nat, i: nat)
    requires Inv(nodes) && Named(nodes, dp, s, i) && EmptyDir(nodes, i) && i != dp && nodes[i].nlink > 0
    requires nodes[dp].nlink >= 2
    ensures Kept(nodes, DropDir(nodes, dp, s, i), i)
  {
    hide CountOk, DirOk;
    var r := DropDir(nodes, dp, s, i);
    forall p: nat, c: nat | EnteredIn(nodes, p, c) && Live(nodes, p) && Live(nodes, c) && c != i
      ensures EnteredIn(r, p, c) {
      var k :| 2 <= k < |nodes[p].ents| && nodes[p].ents[k].inum == c;
      assert r[p].ents[k].inum == c;
    }
  }

  lemma DropDirRefs(nodes: seq<Node>, dp: nat, s: nat, i: nat, x: nat)
    requires Inv(nodes) && Named(nodes, dp, s, i) && EmptyDir(nodes, i) && i != dp && nodes[i].nlink == 1
    requires nodes[dp].nlink >= 2 && 0 < x
    requires |nodes[i].ents| >= 2 && Up(nodes, i) == dp
    ensures Refs(DropDir(nodes, dp, s, i), x) == Refs(nodes, x) - (if x == i then {(dp, s)}
                                                                   else if x == dp then {(i, 1)} else {})
  {
    hide CountOk;
    assert DirOk(nodes, i);
    hide DirOk;
    var r := DropDir(nodes, dp, s, i);
    forall d: nat, k: nat | d < |nodes| && d != i && !(d == dp && k == s)
      ensures Ref(r, d, k, x) <==> Ref(nodes, d, k, x) {
    }
    forall k: nat ensures !Ref(r, i, k, x) && (Ref(nodes, i, k, x) ==> k == 1 && x == dp) {
    }
  }

  /** sys_unlink of an empty directory leaves it dead and everything else in order. */
  lemma DropDirKeeps(nodes: seq<Node>, dp: nat, s: nat, i: nat)
    requires Inv(nodes) && Named(nodes, dp, s, i) && EmptyDir(nodes, i)
    ensures i < |nodes| && i != dp && nodes[i].nlink == 1 && nodes[dp].nlink >= 2
    ensures Inv(DropDir(nodes, dp, s, i))
  {
    hide DirOk, Refs;
    NamedHasLinks(nodes, dp, s, i);
    EmptyDirRefs(nodes, dp, s, i);
    ParentHasMore(nodes, dp, s, i);
    assert CountOk(nodes, i) && CountOk(nodes, dp);
    var r := DropDir(nodes, dp, s, i);
    DropDirKept(nodes, dp, s, i);
    forall d: nat | d < |r| ensures DirOk(r, d) {
      if d == dp {
        OnlyEntry(nodes, dp, s, i, d);
        ShrunkDir(nodes, r, i, dp, s);
      } else if d == i {
        DeadDirOk(nodes, r, i);
      } else {
        OnlyEntry(nodes, dp, s, i, d);
        DirFrame(nodes, r, i, d);
      }
    }
    forall x: nat ensures CountOk(r, x) {
      assert CountOk(nodes, x);
      if x > 0 {
        DropDirRefs(nodes, dp, s, i, x);
      }
    }
  }

  lemma OnlyEntry(nodes: seq<Node>, dp: nat, s: nat, i: nat, d: nat)
    requires Inv(nodes) && Refs(nodes, i) == {(dp, s)} && d < |nodes| && 0 < i
    ensures Live(nodes, d) ==> forall k :: 1 <= k < |nodes[d].ents| && !(d == dp && k == s) ==>
              nodes[d].ents[k].inum != i
  {
    hide CountOk;
    if Live(nodes, d) {
      assert DirOk(nodes, d);
      forall k | 1 <= k < |nodes[d].ents| && !(d == dp && k == s) ensures nodes[d].ents[k].inum != i {
        assert (d, k) !in Refs(nodes, i);
        assert !Ref(nodes, d, k, i);
      }
    }
  }

  lemma DeadDirOk(nodes: seq<Node>, r: seq<Node>, i: nat)
    requires |r| == |nodes| && EmptyDir(nodes, i) && DirOk(nodes, i) && r[i] == nodes[i].(nlink := 0)
    ensures DirOk(r, i)
  {
  }

  // ---- inode_put of an inode without links and without other references ----

  function Reclaim(nodes: seq<Node>, i: nat): (r: seq<Node>)
    requires i < |nodes|
  {
    nodes[i := Node(Free, 0, [])]
  }

  lemma ReclaimKept(nodes: seq<Node>, i: nat)
    requires Inv(nodes) && Used(nodes, i) && nodes[i].nlink == 0
    ensures Kept(nodes, Reclaim(nodes, i), i)
  {
    hide CountOk, DirOk;
    var r := Reclaim(nodes, i);
    forall p: nat, c: nat | EnteredIn(nodes, p, c) && Live(nodes, p) && Live(nodes, c) && c != i
      ensures EnteredIn(r, p, c) {
      assert r[p] == nodes[p];
    }
  }

  lemma NoEntry(nodes: seq<Node>, i: nat, d: nat)
    requires Inv(nodes) && Refs(nodes, i) == {} && d < |nodes| && 0 < i
    ensures Live(nodes, d) ==> forall k :: 1 <= k < |nodes[d].ents| ==> nodes[d].ents[k].inum != i
  {
    hide CountOk;
    if Live(nodes, d) {
      assert DirOk(nodes, d);
      forall k | 1 <= k < |nodes[d].ents| ensures nodes[d].ents[k].inum != i {
        assert (d, k) !in Refs(nodes, i);
        assert !Ref(nodes, d, k, i);
      }
    }
  }

  lemma ReclaimKeeps(nodes: seq<Node>, i: nat)
    requires Inv(nodes) && Used(nodes, i) && nodes[i].nlink == 0
    ensures Inv(Reclaim(nodes, i))
  {
    hide DirOk, Refs;
    var r := Reclaim(nodes, i);
    assert CountOk(nodes, i);
    ReclaimKept(nodes, i);
    forall d: nat | d < |r| ensures DirOk(r, d) {
      if d == i {
        FileOk(r, d);
      } else {
        NoEntry(nodes, i, d);
        DirFrame(nodes, r, i, d);
      }
    }
    forall x: nat ensures CountOk(r, x) {
      assert CountOk(nodes, x);
      ReclaimRefs(nodes, i, x);
    }
  }

  lemma ReclaimRefs(nodes: seq<Node>, i: nat, x: nat)
    requires i < |nodes| && nodes[i].nlink == 0
    ensures Refs(Reclaim(nodes, i), x) == Refs(nodes, x)
  {
    var r := Reclaim(nodes, i);
    forall d: nat, k: nat | d < |nodes| ensures Ref(r, d, k, x) <==> Ref(nodes, d, k, x) {
    }
  }
}
