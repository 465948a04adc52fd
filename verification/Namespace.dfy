/** Directories, create, link and unlink: kern/fs/dir.c and kern/fs/sysfile.c. */
module Namespace {
  import opened Collections
  import opened NameSpec

  datatype Outcome = Done | Refused

  class Tree {
    var nodes: seq<Node>

    /** The file system that mkfs leaves: a root directory. */
    constructor (n: nat)
      requires n > ROOT
      ensures Inv(nodes) && |nodes| == n && Entries(nodes[ROOT].ents) == map["." := ROOT, ".." := ROOT]
    {
      nodes := seq(n, i => if i == ROOT then Node(Dir, 1, [Dirent(ROOT, "."), Dirent(ROOT, "..")])
                           else Node(Free, 0, []));
      new;
      NewTree(nodes);
    }

    /** dir_lookup: the entry of `name` and the slot it is in; 0 if there is none. */
    method DirLookup(d: nat, name: Name) returns (i: nat, off: nat)
      requires d < |nodes| && nodes[d].kind == Dir
      ensures i == 0 <==> !HasName(nodes[d].ents, name)
      ensures i != 0 ==> off < |nodes[d].ents| && nodes[d].ents[off] == Dirent(i, name)
    {
      off := 0;
      while off < |nodes[d].ents|
        invariant off <= |nodes[d].ents|
        invariant forall k :: 0 <= k < off ==> nodes[d].ents[k].inum == 0 || nodes[d].ents[k].name != name
      {
        if nodes[d].ents[off].inum != 0 && nodes[d].ents[off].name == name {
          return nodes[d].ents[off].inum, off;
        }
        off := off + 1;
      }
      i := 0;
    }

    /** dir_link: the first empty slot, or one more, gets the entry; refused if the name is taken. */
    method DirLink(d: nat, name: Name, i: nat) returns (r: Outcome)
      requires d < |nodes| && nodes[d].kind == Dir
      modifies this
      ensures r == Refused <==> HasName(old(nodes)[d].ents, name)
      ensures nodes == if r == Refused then old(nodes) else old(nodes)[d := Linked(old(nodes)[d], name, i)]
    {
      var found, at := DirLookup(d, name);
      if found != 0 {
        return Refused;
      }
      var off := 0;
      while off < |nodes[d].ents| && nodes[d].ents[off].inum != 0
        invariant off <= |nodes[d].ents| && Slot(nodes[d].ents, off) == Slot(nodes[d].ents, 0)
      {
        off := off + 1;
      }
      nodes := nodes[d := nodes[d].(ents := Put(nodes[d].ents, off, Dirent(i, name)))];
      return Done;
    }

    /** isdirempty: nothing after the two dots. */
    method IsDirEmpty(d: nat) returns (r: bool)
      requires d < |nodes| && nodes[d].kind == Dir
      ensures r <==> EmptyDir(nodes, d)
    {
      var off := 2;
      while off < |nodes[d].ents|
        invariant 2 <= off && forall k :: 2 <= k < off && k < |nodes[d].ents| ==> nodes[d].ents[k].inum == 0
      {
        if nodes[d].ents[off].inum != 0 {
          return false;
        }
        off := off + 1;
      }
      return true;
    }

    /** inode_alloc: the first unused inode; 0 if there is none. */
    method InodeAlloc(kind: Kind) returns (i: nat)
      requires kind != Free
      modifies this
      ensures i == 0 ==> nodes == old(nodes) && forall k :: 1 <= k < |nodes| ==> nodes[k].kind != Free
      ensures i != 0 ==> i < |old(nodes)| && old(nodes)[i].kind == Free && nodes == old(nodes)[i := Node(kind, 0, [])]
    {
      i := 1;
      while i < |nodes|
        invariant 1 <= i && nodes == old(nodes) && forall k :: 1 <= k < i && k < |nodes| ==> nodes[k].kind != Free
      {
        if nodes[i].kind == Free {
          nodes := nodes[i := Node(kind, 0, [])];
          return;
        }
        i := i + 1;
      }
      i := 0;
    }

    /** The part of create that makes a new inode. */
    method MakeNode(dp: nat, name: Name, kind: Kind) returns (i: nat)
      requires dp < |nodes| && nodes[dp].kind == Dir && kind != Free && !HasName(nodes[dp].ents, name)
      requires exists k :: 1 <= k < |nodes| && nodes[k].kind == Free
      modifies this
      ensures 0 < i < |old(nodes)| && i != dp && old(nodes)[i].kind == Free
      ensures nodes == NewNodes(old(nodes), dp, name, i, kind)
    {
      hide Slot, Put, HasName;
      i := InodeAlloc(kind);
      nodes := nodes[i := nodes[i].(nlink := 1)];
      if kind == Dir {
        nodes := nodes[dp := nodes[dp].(nlink := nodes[dp].nlink + 1)];
        DotsLinked(nodes[i], i, dp);
        var r := DirLink(i, ".", i);
        r := DirLink(i, "..", dp);
      }
      var r := DirLink(dp, name, i);
    }

    /**
      create, after nameiparent has found the directory dp.  An existing file is opened, anything else
      with that name refused (0).  A new inode keeps the tree in order if and only if dp is still linked.
     */
    method Create(dp: nat, name: Name, kind: Kind) returns (i: nat)
      requires Inv(nodes) && dp < |nodes| && nodes[dp].kind == Dir && kind != Free
      requires !HasName(nodes[dp].ents, name) ==> exists k :: 1 <= k < |nodes| && nodes[k].kind == Free
      modifies this
      ensures HasName(old(nodes)[dp].ents, name) ==> nodes == old(nodes) && Opened(nodes, dp, name, kind, i)
      ensures !HasName(old(nodes)[dp].ents, name) ==>
                && 0 < i < |old(nodes)| && i != dp && old(nodes)[i].kind == Free
                && nodes == NewNodes(old(nodes), dp, name, i, kind)
                && Entries(nodes[dp].ents) == Entries(old(nodes)[dp].ents)[name := i]
                && (Inv(nodes) <==> old(nodes)[dp].nlink > 0)
    {
      hide Inv, HasName, NewNodes;
      var off;
      i, off := DirLookup(dp, name);
      if i != 0 {
        assert nodes[dp].ents[off] == Dirent(i, name);
        if kind == File && i < |nodes| && nodes[i].kind == File {
          return i;
        }
        return 0;
      }
      i := MakeNode(dp, name, kind);
      Created(old(nodes), dp, name, i, kind);
      CreatedEntries(old(nodes), dp, name, i, kind);
    }

    /**
      sys_link, after namei has found `i` and nameiparent has looked for the new directory
      (None: not found).  The link count goes up first and comes down again on failure.
     */
    method Link(i: nat, dp: Option<nat>, name: Name) returns (r: Outcome)
      requires Inv(nodes) && Used(nodes, i) && (dp.Some? ==> dp.value < |nodes| && nodes[dp.value].kind == Dir)
      modifies this
      ensures r == Done <==> old(nodes)[i].kind != Dir && dp.Some? && !HasName(old(nodes)[dp.value].ents, name)
      ensures r == Refused ==> nodes == old(nodes)
      ensures r == Done ==>
                && i != dp.value && nodes == AddLink(old(nodes), dp.value, name, i)
                && Entries(nodes[dp.value].ents) == Entries(old(nodes)[dp.value].ents)[name := i]
                && (Inv(nodes) <==> old(nodes)[dp.value].nlink > 0)
    {
      hide Inv, HasName, Slot, Put;
      if nodes[i].kind == Dir {
        return Refused;
      }
      nodes := nodes[i := nodes[i].(nlink := nodes[i].nlink + 1)];
      if dp.Some? {
        r := DirLink(dp.value, name, i);
        if r == Done {
          LinkMade(old(nodes), dp.value, name, i);
          return;
        }
      }
      nodes := nodes[i := nodes[i].(nlink := nodes[i].nlink - 1)];
      return Refused;
    }

    /** sys_unlink, after nameiparent has found dp. */
    method Unlink(dp: nat, name: Name) returns (r: Outcome)
      requires Inv(nodes) && dp < |nodes| && nodes[dp].kind == Dir
      modifies this
      ensures Inv(nodes)
      ensures r == Refused ==> nodes == old(nodes)
      ensures r == Done <==> Unlinkable(old(nodes), dp, name)
      ensures r == Done ==> exists s, i :: Removed(old(nodes), dp, s, i, name, nodes)
      ensures r == Done ==> Entries(nodes[dp].ents) == Entries(old(nodes)[dp].ents) - {name}
    {
      hide Inv;
      if name == "." || name == ".." {
        return Refused;
      }
      var i, off := DirLookup(dp, name);
      if i == 0 {
        return Refused;
      }
      FoundNamed(nodes, dp, name, off);
      NamedHasLinks(nodes, dp, off, i);
      var empty := true;
      if nodes[i].kind == Dir {
        empty := IsDirEmpty(i);
        if !empty {
          OneTarget(nodes, dp, name, off);
          return Refused;
        }
      }
      UnlinkMade(nodes, dp, off, i, name);
      nodes := nodes[dp := Cleared(nodes[dp], off)];
      if nodes[i].kind == Dir {
        nodes := nodes[dp := nodes[dp].(nlink := nodes[dp].nlink - 1)];
      }
      nodes := nodes[i := nodes[i].(nlink := nodes[i].nlink - 1)];
      assert Removed(old(nodes), dp, off, i, name, nodes);
      return Done;
    }

    /** inode_put of the last reference: an inode without links is freed. */
    method InodePut(i: nat)
      requires Inv(nodes) && Used(nodes, i)
      modifies this
      ensures Inv(nodes) && nodes == if old(nodes)[i].nlink == 0 then Reclaim(old(nodes), i) else old(nodes)
    {
      hide Inv;
      if nodes[i].nlink == 0 {
        ReclaimKeeps(nodes, i);
        nodes := nodes[i := Node(Free, 0, [])];
      }
    }
  }

  /** What create returns for a name that is taken. */
  ghost predicate Opened(nodes: seq<Node>, dp: nat, name: Name, kind: Kind, i: nat)
    requires dp < |nodes|
  {
    exists off :: 0 <= off < |nodes[dp].ents| && nodes[dp].ents[off].inum != 0 && nodes[dp].ents[off].name == name &&
      var t := nodes[dp].ents[off].inum;
      i == if kind == File && t < |nodes| && nodes[t].kind == File then t else 0
  }

  /** There is such an entry, and it is neither a dot nor a directory in use. */
  ghost predicate Unlinkable(nodes: seq<Node>, dp: nat, name: Name)
    requires dp < |nodes|
  {
    && name != "." && name != ".."
    && exists s :: 0 <= s < |nodes[dp].ents| && nodes[dp].ents[s].inum != 0 && nodes[dp].ents[s].name == name &&
         var i := nodes[dp].ents[s].inum; i < |nodes| && (nodes[i].kind == Dir ==> EmptyDir(nodes, i))
  }

  /** Slot `s` of dp named `i`; the entry is gone and so is the link it stood for. */
  ghost predicate Removed(nodes: seq<Node>, dp: nat, s: nat, i: nat, name: Name, r: seq<Node>) {
    && dp < |nodes| && i < |nodes| && i != dp && s < |nodes[dp].ents| && nodes[dp].ents[s] == Dirent(i, name)
    && 0 < i && nodes[i].nlink > 0 && nodes[dp].kind == Dir && nodes[dp].nlink > 0
    && r == if nodes[i].kind == Dir then DropDir(nodes, dp, s, i) else DropFile(nodes, dp, s, i)
  }

  lemma NewTree(nodes: seq<Node>)
    requires |nodes| > ROOT && nodes[ROOT] == Node(Dir, 1, [Dirent(ROOT, "."), Dirent(ROOT, "..")])
    requires forall i :: 0 <= i < |nodes| && i != ROOT ==> nodes[i] == Node(Free, 0, [])
    ensures Inv(nodes) && Entries(nodes[ROOT].ents) == map["." := ROOT, ".." := ROOT]
  {
    var ents := nodes[ROOT].ents;
    assert ents[..1] == [Dirent(ROOT, ".")] && ents[..1][..0] == [];
    assert Entries(ents[..1]) == map["." := ROOT];
    forall d: nat | d < |nodes| ensures DirOk(nodes, d) {
    }
    forall i: nat ensures CountOk(nodes, i) {
      assert Ref(nodes, ROOT, 1, ROOT);
      assert i == ROOT ==> Refs(nodes, i) == {(ROOT, 1)};
    }
  }

  lemma TreeFacts(nodes: seq<Node>, dp: nat, name: Name)
    requires Inv(nodes) && dp < |nodes| && nodes[dp].kind == Dir
    ensures UniqueNames(nodes[dp].ents) && (name in Entries(nodes[dp].ents) <==> HasName(nodes[dp].ents, name))
    ensures nodes[dp].nlink > 0 ==> forall n :: n in Entries(nodes[dp].ents) ==> Used(nodes, Entries(nodes[dp].ents)[n])
  {
    hide CountOk;
    assert DirOk(nodes, dp);
    EntriesAre(nodes[dp].ents, name);
    if nodes[dp].nlink > 0 {
      forall n | n in Entries(nodes[dp].ents) ensures Used(nodes, Entries(nodes[dp].ents)[n]) {
        EntriesAre(nodes[dp].ents, n);
        var s :| 0 <= s < |nodes[dp].ents| && nodes[dp].ents[s].inum != 0 && nodes[dp].ents[s].name == n;
        assert EntryOk(nodes, dp, s);
      }
    }
  }

  lemma FoundIs(nodes: seq<Node>, dp: nat, name: Name, off: nat)
    requires dp < |nodes| && UniqueNames(nodes[dp].ents) && off < |nodes[dp].ents| && nodes[dp].ents[off].inum != 0
    requires nodes[dp].ents[off].name == name
    ensures name in Entries(nodes[dp].ents) && Entries(nodes[dp].ents)[name] == nodes[dp].ents[off].inum
  {
    EntriesAre(nodes[dp].ents, name);
  }

  ghost function NewNodes(nodes: seq<Node>, dp: nat, name: Name, i: nat, kind: Kind): (r: seq<Node>)
    requires dp < |nodes| && i < |nodes| && i != dp
  {
    if kind == Dir then MakeDir(nodes, dp, name, i) else AddLink(Alloc(nodes, i), dp, name, i)
  }

  /** The two ways create can end, and what each means for the tree. */
  lemma Created(nodes: seq<Node>, dp: nat, name: Name, i: nat, kind: Kind)
    requires Inv(nodes) && dp < |nodes| && nodes[dp].kind == Dir && kind != Free && !HasName(nodes[dp].ents, name)
    requires 0 < i < |nodes| && nodes[i].kind == Free
    ensures Inv(NewNodes(nodes, dp, name, i, kind)) <==> nodes[dp].nlink > 0
  {
    hide Inv, HasName, MakeDir, AddLink;
    if kind == Dir {
      if nodes[dp].nlink > 0 {
        MakeDirKeeps(nodes, dp, name, i);
      } else {
        MakeDirBreaks(nodes, dp, name, i);
      }
    } else {
      AllocKeeps(nodes, i);
      var m := Alloc(nodes, i);
      if nodes[dp].nlink > 0 {
        AddLinkKeeps(m, dp, name, i);
      } else {
        AddLinkBreaks(m, dp, name, i);
      }
    }
  }

  lemma CreatedEntries(nodes: seq<Node>, dp: nat, name: Name, i: nat, kind: Kind)
    requires Inv(nodes) && dp < |nodes| && nodes[dp].kind == Dir && !HasName(nodes[dp].ents, name) && 0 < i < |nodes|
    requires i != dp
    ensures |NewNodes(nodes, dp, name, i, kind)| == |nodes|
    ensures Entries(NewNodes(nodes, dp, name, i, kind)[dp].ents) == Entries(nodes[dp].ents)[name := i]
  {
    hide Inv, HasName, Entries, Slot, NameSpec.Put;
    LinkedEntries(nodes, dp, name, i);
  }

  lemma LinkedEntries(nodes: seq<Node>, dp: nat, name: Name, i: nat)
    requires Inv(nodes) && dp < |nodes| && nodes[dp].kind == Dir && !HasName(nodes[dp].ents, name) && 0 < i
    ensures Entries(Linked(nodes[dp], name, i).ents) == Entries(nodes[dp].ents)[name := i]
  {
    hide CountOk;
    assert DirOk(nodes, dp);
    EntriesPut(nodes[dp].ents, Slot(nodes[dp].ents, 0), Dirent(i, name));
  }

  lemma DotsLinked(d: Node, i: nat, dp: nat)
    requires d.ents == []
    ensures Linked(d, ".", i) == d.(ents := [Dirent(i, ".")])
    ensures i != 0 ==> Linked(Linked(d, ".", i), "..", dp) == d.(ents := [Dirent(i, "."), Dirent(dp, "..")])
    ensures !HasName(d.ents, ".") && !HasName(Linked(d, ".", i).ents, "..")
  {
  }

  lemma LinkMade(nodes: seq<Node>, dp: nat, name: Name, i: nat)
    requires Inv(nodes) && dp < |nodes| && nodes[dp].kind == Dir && Used(nodes, i) && nodes[i].kind == File
    requires !HasName(nodes[dp].ents, name)
    ensures Inv(AddLink(nodes, dp, name, i)) <==> nodes[dp].nlink > 0
    ensures Entries(Linked(nodes[dp], name, i).ents) == Entries(nodes[dp].ents)[name := i]
  {
    hide Inv, AddLink, HasName;
    LinkedEntries(nodes, dp, name, i);
    if nodes[dp].nlink > 0 {
      AddLinkKeeps(nodes, dp, name, i);
    } else {
      AddLinkBreaks(nodes, dp, name, i);
    }
  }

  /** A name other than the dots is found only in a live directory, after the dots. */
  lemma FoundNamed(nodes: seq<Node>, dp: nat, name: Name, off: nat)
    requires Inv(nodes) && dp < |nodes| && nodes[dp].kind == Dir && name != "." && name != ".."
    requires off < |nodes[dp].ents| && nodes[dp].ents[off].inum != 0 && nodes[dp].ents[off].name == name
    ensures Named(nodes, dp, off, nodes[dp].ents[off].inum)
  {
    hide CountOk;
    assert DirOk(nodes, dp);
  }

  lemma OneTarget(nodes: seq<Node>, dp: nat, name: Name, off: nat)
    requires Inv(nodes) && dp < |nodes| && nodes[dp].kind == Dir
    requires off < |nodes[dp].ents| && nodes[dp].ents[off].inum != 0 && nodes[dp].ents[off].name == name
    ensures forall s :: 0 <= s < |nodes[dp].ents| && nodes[dp].ents[s].inum != 0 && nodes[dp].ents[s].name == name ==>
              s == off
  {
    hide CountOk;
    assert DirOk(nodes, dp);
  }

  lemma UnlinkMade(nodes: seq<Node>, dp: nat, s: nat, i: nat, name: Name)
    requires Inv(nodes) && Named(nodes, dp, s, i) && nodes[dp].ents[s].name == name && i < |nodes| && i != dp
    requires nodes[i].nlink > 0
    requires nodes[i].kind == File || EmptyDir(nodes, i)
    ensures Inv(if nodes[i].kind == Dir then DropDir(nodes, dp, s, i) else DropFile(nodes, dp, s, i))
    ensures Entries(Cleared(nodes[dp], s).ents) == Entries(nodes[dp].ents) - {name}
  {
    hide CountOk, EntryOk;
    assert DirOk(nodes, dp);
    EntriesCleared(nodes[dp].ents, s);
    hide DirOk;
    if nodes[i].kind == Dir {
      DropDirKeeps(nodes, dp, s, i);
    } else {
      DropFileKeeps(nodes, dp, s, i);
    }
  }

  /** mkdir d, unlink d from outside, then create a file in it: the file's link count is wrong. */
  lemma DeadDirectory(nodes: seq<Node>)
    requires |nodes| == 4 && nodes[ROOT] == Node(Dir, 1, [Dirent(ROOT, "."), Dirent(ROOT, "..")])
    requires forall i :: 0 <= i < |nodes| && i != ROOT ==> nodes[i] == Node(Free, 0, [])
    ensures var made := MakeDir(nodes, ROOT, "d", 2);
            && made[2].nlink > 0 && made[ROOT].nlink > 0 && |made[ROOT].ents| == 3 && Inv(DropDir(made, ROOT, 2, 2))
            && !Inv(AddLink(Alloc(DropDir(made, ROOT, 2, 2), 3), 2, "f", 3))
  {
    hide Inv;
    NewTree(nodes);
    MakeDirKeeps(nodes, ROOT, "d", 2);
    var made := MakeDir(nodes, ROOT, "d", 2);
    assert Slot(nodes[ROOT].ents, 0) == 2 by {
      assert Slot(nodes[ROOT].ents, 1) == Slot(nodes[ROOT].ents, 2);
    }
    DropDirKeeps(made, ROOT, 2, 2);
    var dropped := DropDir(made, ROOT, 2, 2);
    AllocKeeps(dropped, 3);
    AddLinkBreaks(Alloc(dropped, 3), 2, "f", 3);
  }
}
