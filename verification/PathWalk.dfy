/** skipelem and namex of kern/fs/path.c, with the references that they take and drop. */
module PathWalk {
  import opened NameSpec
  import opened PathSpec
  import opened Namespace
  import opened Collections
  import opened InodeCache

  /** Past the slashes from position `p` on. */
  method SkipSlashes(path: string, p: nat) returns (q: nat)
    requires p <= |path|
    ensures p <= q <= |path| && (q < |path| ==> path[q] != '/') && Segments(path[q..]) == Segments(path[p..])
  {
    hide Segments;
    q := p;
    while q < |path| && path[q] == '/'
      invariant p <= q <= |path| && Segments(path[q..]) == Segments(path[p..])
    {
      SlashSegments(path[q..]);
      assert path[q..][1..] == path[q + 1..];
      q := q + 1;
    }
  }

  /** To the end of the segment that starts at position `p`. */
  method SegmentEnd(path: string, p: nat) returns (q: nat)
    requires p < |path| && path[p] != '/'
    ensures p < q <= |path| && Segments(path[p..]) == [path[p..q]] + Segments(path[q..])
  {
    hide Segments;
    q := p;
    while q < |path| && path[q] != '/'
      invariant p <= q <= |path| && '/' !in path[p..q]
    {
      assert path[p..q + 1] == path[p..q] + [path[q]];
      q := q + 1;
    }
    assert path[p..] == path[p..q] + path[q..];
    HeadSegment(path[p..q], path[q..]);
  }

  /**
    skipelem: the first segment, cut, and what follows it without leading slashes;
    ok is false if there is no segment left.
   */
  method SkipElem(path: string) returns (ok: bool, name: Name, rest: string)
    ensures ok <==> Segments(path) != []
    ensures ok ==> name == Cut(Segments(path)[0]) && Segments(rest) == Segments(path)[1..] && |rest| < |path|
    ensures ok ==> (rest == "" <==> |Segments(path)| == 1)
  {
    hide Segments;
    EmptySegments();
    assert path[0..] == path;
    var p := SkipSlashes(path, 0);
    if p == |path| {
      assert path[p..] == "";
      return false, "", "";
    }
    var q := SegmentEnd(path, p);
    name := if q - p >= DIRSIZ then path[p..p + DIRSIZ - 1] else path[p..q];
    q := SkipSlashes(path, q);
    ok, rest := true, path[q..];
    if rest != "" {
      SegmentsNonEmpty(rest);
    }
  }

  ghost function Resolve(nodes: seq<Node>, from: nat, names: seq<Name>, parent: bool): (w: Walk) {
    if parent then Parent(nodes, from, names) else Namei(nodes, from, names)
  }

  lemma ResolveEnd(nodes: seq<Node>, i: nat, parent: bool)
    ensures Resolve(nodes, i, [], parent) == if parent then NotFound else Found(i)
  {
  }

  lemma ResolveStep(nodes: seq<Node>, i: nat, names: seq<Name>, parent: bool)
    requires names != []
    ensures var w := Down(nodes, i, names[0]);
            Resolve(nodes, i, names, parent) ==
              if parent && |names| == 1
              then (if !Used(nodes, i) then Stop else if nodes[i].kind != Dir then NotFound else Found(i))
              else if w.Found? then Resolve(nodes, w.i, names[1..], parent) else w
  {
    if parent {
      if |names| > 1 {
        ParentStep(nodes, i, names);
      } else {
        assert names[..0] == [];
      }
    }
  }

  lemma LookupIs(nodes: seq<Node>, d: nat, name: Name, i: nat, off: nat)
    requires Inv(nodes) && Used(nodes, d) && nodes[d].kind == Dir && (i == 0 <==> !HasName(nodes[d].ents, name))
    requires i != 0 ==> off < |nodes[d].ents| && nodes[d].ents[off] == Dirent(i, name)
    ensures Down(nodes, d, name) == if i == 0 then NotFound else Found(i)
  {
    TreeFacts(nodes, d, name);
    if i != 0 {
      FoundIs(nodes, d, name, off);
    }
  }

  lemma DownFails(nodes: seq<Node>, i: nat, name: Name)
    ensures !Used(nodes, i) ==> Down(nodes, i, name) == Stop
    ensures Used(nodes, i) && nodes[i].kind != Dir ==> Down(nodes, i, name) == NotFound
  {
  }

  /** Some slot of directory `d` holds inode `i` under `name`. */
  ghost predicate Bound(nodes: seq<Node>, d: nat, name: Name, i: nat) {
    0 < d < |nodes| && nodes[d].kind == Dir && 0 < i && Dirent(i, name) in nodes[d].ents
  }

  /** Inodes of which each is a directory with an entry for the next one. */
  ghost predicate Trail(nodes: seq<Node>, ids: seq<nat>, names: seq<Name>) {
    |ids| == |names| + 1 && forall j :: 0 <= j < |names| ==> Bound(nodes, ids[j], names[j], ids[j + 1])
  }

  lemma DownExact(nodes: seq<Node>, d: nat, name: Name, i: nat)
    requires Inv(nodes)
    ensures Down(nodes, d, name) == Found(i) <==> Bound(nodes, d, name, i)
    ensures Down(nodes, d, name) == Stop <==> !Used(nodes, d)
  {
    hide Inv, Entries;
    if Used(nodes, d) && nodes[d].kind == Dir {
      TreeFacts(nodes, d, name);
      if HasName(nodes[d].ents, name) {
        var s :| 0 <= s < |nodes[d].ents| && nodes[d].ents[s].inum != 0 && nodes[d].ents[s].name == name;
        FoundIs(nodes, d, name, s);
        assert nodes[d].ents[s] == Dirent(nodes[d].ents[s].inum, name);
      }
    }
  }

  /** The inode of a path is the one at the end of a trail of directory entries with the path's names. */
  lemma NameiExact(nodes: seq<Node>, from: nat, names: seq<Name>, i: nat)
    requires Inv(nodes)
    ensures Namei(nodes, from, names) == Found(i) <==>
              exists ids :: Trail(nodes, ids, names) && ids[0] == from && ids[|names|] == i
  {
    hide Inv;
    if Namei(nodes, from, names) == Found(i) {
      var ids := TrailOf(nodes, from, names);
    }
    forall ids | Trail(nodes, ids, names) && ids[0] == from ensures Namei(nodes, from, names) == Found(ids[|names|]) {
      TrailFound(nodes, ids, names, names);
    }
  }

  /** The directory of a path's last name is at the end of a trail with the names before it. */
  lemma ParentExact(nodes: seq<Node>, from: nat, names: seq<Name>, d: nat)
    requires Inv(nodes)
    ensures Parent(nodes, from, names) == Found(d) <==>
              && names != [] && 0 < d < |nodes| && nodes[d].kind == Dir
              && exists ids :: Trail(nodes, ids, names[..|names| - 1]) && ids[0] == from && ids[|names| - 1] == d
  {
    hide Inv;
    if names != [] {
      NameiExact(nodes, from, names[..|names| - 1], d);
    }
  }

  /** The walk stops the kernel iff a trail with some of the names leads to an inode without a type. */
  lemma NameiStops(nodes: seq<Node>, from: nat, names: seq<Name>)
    requires Inv(nodes)
    ensures Namei(nodes, from, names) == Stop <==>
              exists ids :: StopsAt(nodes, ids, names) && ids[0] == from
  {
    hide Inv, Down;
    if Namei(nodes, from, names) == Stop {
      var ids := StopOf(nodes, from, names);
    }
    forall ids | StopsAt(nodes, ids, names) && ids[0] == from ensures Namei(nodes, from, names) == Stop {
      var k := |ids| - 1;
      TrailFound(nodes, ids, names[..k], names);
      DownExact(nodes, ids[k], names[k], 0);
    }
  }

  ghost predicate StopsAt(nodes: seq<Node>, ids: seq<nat>, names: seq<Name>) {
    && 0 < |ids| <= |names| && Trail(nodes, ids, names[..|ids| - 1])
    && (ids[|ids| - 1] == 0 || ids[|ids| - 1] >= |nodes| || nodes[ids[|ids| - 1]].kind == Free)
  }

  /** Along a trail the walk comes to its end, and goes on from there. */
  lemma {:induction false} TrailFound(nodes: seq<Node>, ids: seq<nat>, front: seq<Name>, names: seq<Name>)
    requires Inv(nodes) && Trail(nodes, ids, front) && front <= names
    ensures Namei(nodes, ids[0], names) == Namei(nodes, ids[|front|], names[|front|..])
    decreases |front|
  {
    hide Inv, Down;
    if front != [] {
      DownExact(nodes, ids[0], names[0], ids[1]);
      assert Bound(nodes, ids[0], front[0], ids[1]);
      TrailFound(nodes, ids[1..], front[1..], names[1..]);
      assert names[1..][|front| - 1..] == names[|front|..];
    } else {
      assert names[0..] == names;
    }
  }

  lemma {:induction false} TrailOf(nodes: seq<Node>, from: nat, names: seq<Name>) returns (ids: seq<nat>)
    requires Inv(nodes) && Namei(nodes, from, names).Found?
    ensures Trail(nodes, ids, names) && ids[0] == from && ids[|names|] == Namei(nodes, from, names).i
    decreases |names|
  {
    hide Inv, Down;
    ids := [from];
    if names != [] {
      var next := Down(nodes, from, names[0]).i;
      DownExact(nodes, from, names[0], next);
      ids := TrailOf(nodes, next, names[1..]);
      ids := [from] + ids;
    }
  }

  lemma {:induction false} StopOf(nodes: seq<Node>, from: nat, names: seq<Name>) returns (ids: seq<nat>)
    requires Inv(nodes) && Namei(nodes, from, names).Stop?
    ensures StopsAt(nodes, ids, names) && ids[0] == from
    decreases |names|
  {
    hide Inv, Down;
    ids := [from];
    var w := Down(nodes, from, names[0]);
    if w.Found? {
      DownExact(nodes, from, names[0], w.i);
      ids := StopOf(nodes, w.i, names[1..]);
      assert names[..|ids|][1..] == names[1..][..|ids| - 1];
      ids := [from] + ids;
    } else {
      DownExact(nodes, from, names[0], 0);
    }
  }

  /** Somebody has read inode `i` and still refers to it. */
  ghost predicate InUse(slots: seq<InCore>, i: nat) {
    exists k :: 0 <= k < |slots| && slots[k].For(i) && slots[k].valid
  }

  /** The inodes that have a type but no links. */
  ghost function Unlinked(nodes: seq<Node>): (r: set<nat>) {
    set i: nat | i < |nodes| && Used(nodes, i) && nodes[i].nlink == 0
  }

  /** What an entry of a linked directory names is linked. */
  lemma EntryLinked(nodes: seq<Node>, d: nat, s: nat)
    requires Inv(nodes) && Live(nodes, d) && s < |nodes[d].ents| && nodes[d].ents[s].inum != 0
    ensures Used(nodes, nodes[d].ents[s].inum) && nodes[nodes[d].ents[s].inum].nlink > 0
  {
    var i := nodes[d].ents[s].inum;
    assert DirOk(nodes, d) && EntryOk(nodes, d, s) && CountOk(nodes, i);
    if nodes[d].ents[s].name == "." {
      assert s == 0;
    } else {
      assert (d, s) in Refs(nodes, i);
    }
  }

  /** No path from the root, nor from any linked inode, leads to an inode without links. */
  lemma {:induction false} PathLinked(nodes: seq<Node>, i: nat, names: seq<Name>)
    requires Inv(nodes) && Used(nodes, i) && nodes[i].nlink > 0
    ensures var w := Namei(nodes, i, names);
            w.Found? ==> Used(nodes, w.i) && nodes[w.i].nlink > 0 && w.i !in Unlinked(nodes)
    decreases |names|
  {
    hide Inv, Entries;
    if names != [] && Down(nodes, i, names[0]).Found? {
      TreeFacts(nodes, i, names[0]);
      var s :| 0 <= s < |nodes[i].ents| && nodes[i].ents[s].inum != 0 && nodes[i].ents[s].name == names[0];
      FoundIs(nodes, i, names[0], s);
      EntryLinked(nodes, i, s);
      PathLinked(nodes, nodes[i].ents[s].inum, names[1..]);
    }
  }

  /**
    sys_unlink of the last link to an inode that is still open leaves it with a type and out of reach:
    after a crash nobody refers to it, and no path leads to it.
   */
  lemma UnlinkLeaks(nodes: seq<Node>, dp: nat, s: nat, i: nat, name: Name, r: seq<Node>)
    requires Inv(r) && Used(nodes, i) && nodes[i].nlink == 1 && Removed(nodes, dp, s, i, name, r)
    ensures i in Unlinked(r) && forall names :: Namei(r, ROOT, names) != Found(i)
  {
    hide Inv;
    RootLinked(r);
    forall names ensures Namei(r, ROOT, names) != Found(i) {
      PathLinked(r, ROOT, names);
    }
  }

  lemma RootLinked(nodes: seq<Node>)
    requires Inv(nodes)
    ensures Used(nodes, ROOT) && nodes[ROOT].nlink > 0
  {
  }

  /**
    The inodes without links that nobody refers to.  No slot has one, and no directory that one can still
    be in leads to one.
   */
  ghost predicate LostOk(nodes: seq<Node>, slots: seq<InCore>, lost: set<nat>) {
    && lost <= Unlinked(nodes)
    && (forall k :: 0 <= k < |slots| && slots[k].ref > 0 ==> slots[k].inum !in lost)
    && (forall d: nat :: d in Unlinked(nodes) && d !in lost && nodes[d].kind == Dir ==>
          |nodes[d].ents| >= 2 && Up(nodes, d) !in lost)
  }

  /** An inode without links that is not lost exists only as long as it is in use, and nothing free is in use. */
  ghost predicate RefsOk(nodes: seq<Node>, slots: seq<InCore>, lost: set<nat>) {
    && (forall i: nat :: i in Unlinked(nodes) && i !in lost ==> InUse(slots, i))
    && (forall k :: 0 <= k < |slots| && slots[k].ref > 0 && slots[k].valid ==> Used(nodes, slots[k].inum))
    && LostOk(nodes, slots, lost)
  }

  /** What a directory that is not lost names is not lost. */
  lemma EntryNotLost(nodes: seq<Node>, slots: seq<InCore>, lost: set<nat>, d: nat, s: nat)
    requires Inv(nodes) && RefsOk(nodes, slots, lost) && Used(nodes, d) && nodes[d].kind == Dir && d !in lost
    requires s < |nodes[d].ents| && nodes[d].ents[s].inum != 0
    ensures nodes[d].ents[s].inum !in lost
  {
    hide CountOk;
    if nodes[d].nlink > 0 {
      EntryLinked(nodes, d, s);
    } else {
      assert DirOk(nodes, d) && d in Unlinked(nodes);
    }
  }

  lemma TakenRefs(nodes: seq<Node>, slots: seq<InCore>, lost: set<nat>, k: nat, i: nat)
    requires RefsOk(nodes, slots, lost) && k < |slots| && (slots[k].For(i) || slots[k].ref == 0) && i !in lost
    ensures RefsOk(nodes, Taken(slots, k, i), lost)
  {
    hide Unlinked;
    var r := Taken(slots, k, i);
    forall j: nat | j in Unlinked(nodes) && j !in lost ensures InUse(r, j) {
      var a :| 0 <= a < |slots| && slots[a].For(j) && slots[a].valid;
      assert r[a].For(j) && r[a].valid;
    }
  }

  lemma ValidatedRefs(nodes: seq<Node>, slots: seq<InCore>, lost: set<nat>, k: nat)
    requires RefsOk(nodes, slots, lost) && k < |slots| && Used(nodes, slots[k].inum)
    ensures RefsOk(nodes, slots[k := slots[k].(valid := true)], lost)
  {
    hide Unlinked;
    var r := slots[k := slots[k].(valid := true)];
    forall j: nat | j in Unlinked(nodes) && j !in lost ensures InUse(r, j) {
      var a :| 0 <= a < |slots| && slots[a].For(j) && slots[a].valid;
      assert r[a].For(j) && r[a].valid;
    }
  }

  /** The inode that the last reference to it frees is the one that inode_put looks for: valid, without links. */
  lemma LastIsValid(nodes: seq<Node>, slots: seq<InCore>, lost: set<nat>, k: nat)
    requires RefsOk(nodes, slots, lost) && SlotsOk(slots) && k < |slots| && slots[k].ref > 0
    ensures RefOf(slots, slots[k].inum) == slots[k].ref
    ensures Used(nodes, slots[k].inum) && nodes[slots[k].inum].nlink == 0 ==> slots[k].valid
  {
    RefIs(slots, k);
    if Used(nodes, slots[k].inum) && nodes[slots[k].inum].nlink == 0 {
      assert slots[k].inum in Unlinked(nodes) && slots[k].inum !in lost;
      var a :| 0 <= a < |slots| && slots[a].For(slots[k].inum) && slots[a].valid;
      assert a == k;
    }
  }

  /** After inode_put of slot `k`, when the inode is freed, and when it is not. */
  lemma DroppedRefs(nodes: seq<Node>, slots: seq<InCore>, lost: set<nat>, k: nat, nodes': seq<Node>, valid: bool)
    requires RefsOk(nodes, slots, lost) && SlotsOk(slots) && k < |slots| && slots[k].ref > 0
    requires var i := slots[k].inum;
             var last := slots[k].ref == 1 && Used(nodes, i) && nodes[i].nlink == 0;
             nodes' == (if last then Reclaim(nodes, i) else nodes) && (valid <==> slots[k].valid && !last)
    ensures RefsOk(nodes', slots[k := InCore(slots[k].inum, slots[k].ref - 1, valid)], lost)
  {
    var r := slots[k := InCore(slots[k].inum, slots[k].ref - 1, valid)];
    forall j: nat | j in Unlinked(nodes') && j !in lost ensures InUse(r, j) {
      assert j in Unlinked(nodes);
      var a :| 0 <= a < |slots| && slots[a].For(j) && slots[a].valid;
      assert r[a].For(j) && r[a].valid;
    }
    forall a | 0 <= a < |r| && r[a].ref > 0 && r[a].valid ensures Used(nodes', r[a].inum) {
      assert slots[a].ref > 0 && slots[a].valid;
    }
    hide InUse, Reclaim;
    assert forall d: nat :: d in Unlinked(nodes') ==> d in Unlinked(nodes) && nodes'[d] == nodes[d];
  }

  /** A reference that one has just taken is not the last one to an inode without links. */
  lemma JustTaken(nodes: seq<Node>, before: seq<InCore>, lost: set<nat>, slots: seq<InCore>, i: nat)
    requires RefsOk(nodes, before, lost) && Used(nodes, i) && nodes[i].nlink == 0 && i !in lost
    requires RefOf(slots, i) > RefOf(before, i)
    ensures RefOf(slots, i) > 1
  {
    assert i in Unlinked(nodes);
    var a :| 0 <= a < |before| && before[a].For(i) && before[a].valid;
    HasRefs(before, a);
  }

  /** Slot `k` has one reference less, the other slots are as before. */
  ghost predicate Dropped(slots: seq<InCore>, slots': seq<InCore>, k: nat) {
    && |slots'| == |slots| && k < |slots| && slots'[k].inum == slots[k].inum && slots'[k].ref == slots[k].ref - 1
    && forall a :: 0 <= a < |slots| && a != k ==> slots'[a] == slots[a]
  }

  class Walker {
    const tree: Tree
    ghost const lost: set<nat>
    var slots: seq<InCore>
    var cwd: nat

    ghost predicate Valid()
      reads this, tree
    {
      Inv(tree.nodes) && SlotsOk(slots) && RefsOk(tree.nodes, slots, lost)
    }

    /** inode_init: every slot is free.  What has no links now is lost for good. */
    constructor (tree: Tree)
      requires Inv(tree.nodes)
      ensures Valid() && this.tree == tree && lost == Unlinked(tree.nodes)
      ensures forall k :: 0 <= k < |slots| ==> slots[k].ref == 0
    {
      this.tree, slots, cwd := tree, seq(NINODE, _ => InCore(0, 0, false)), 0;
      lost := Unlinked(tree.nodes);
    }

    /** The thread has a reference to inode `i` through slot `k`. */
    ghost predicate Refers(k: nat, i: nat)
      reads this
    {
      k < |slots| && slots[k].For(i)
    }

    /** inode_get of an inode that something leads to.  None stands for the "no inodes" panic. */
    method Get(i: nat) returns (r: Option<nat>)
      requires Valid() && i !in lost
      modifies this`slots
      ensures Valid()
      ensures r.None? <==> RefOf(old(slots), i) == 0 && Full(old(slots))
      ensures r.None? ==> slots == old(slots)
      ensures r.Some? ==> Refers(r.value, i) && OneMore(old(slots), slots, i)
      ensures r.Some? ==> r.value < |old(slots)| && slots == Taken(old(slots), r.value, i)
      ensures r.Some? ==> old(slots)[r.value].For(i) || old(slots)[r.value].ref == 0
    {
      hide Inv, RefsOk, RefOf, SlotsOk;
      r := Find(slots, i);
      if r.Some? {
        var k := r.value;
        TakenOk(slots, k, i);
        TakenRefs(tree.nodes, slots, lost, k, i);
        slots := slots[k := if slots[k].For(i) then slots[k].(ref := slots[k].ref + 1) else InCore(i, 1, false)];
      }
    }

    lemma RootNotLost()
      requires Valid()
      ensures ROOT !in lost
    {
    }

    lemma NotLost(k: nat)
      requires Valid() && k < |slots| && slots[k].ref > 0
      ensures slots[k].inum !in lost
    {
    }

    /** inode_dup. */
    method Dup(k: nat)
      requires Valid() && k < |slots| && slots[k].ref > 0
      modifies this`slots
      ensures Valid() && OneMore(old(slots), slots, old(slots)[k].inum) && Refers(k, old(slots)[k].inum)
    {
      hide Inv, RefsOk, RefOf, SlotsOk;
      NotLost(k);
      TakenOk(slots, k, slots[k].inum);
      TakenRefs(tree.nodes, slots, lost, k, slots[k].inum);
      slots := slots[k := slots[k].(ref := slots[k].ref + 1)];
    }

    /** inode_lock by a thread that finds the inode unlocked; false stands for the "no type" panic. */
    method Lock(k: nat) returns (ok: bool)
      requires Valid() && k < |slots| && slots[k].ref > 0
      modifies this`slots
      ensures ok <==> Used(tree.nodes, old(slots)[k].inum)
      ensures ok ==> Valid() && SameRefs(old(slots), slots) && Refers(k, old(slots)[k].inum) && slots[k].valid
    {
      hide Inv, RefOf;
      ValidatedOk(slots, k);
      assert slots[k := slots[k].(valid := true)] == slots || !slots[k].valid;
      if !slots[k].valid {
        if !Used(tree.nodes, slots[k].inum) {
          return false;
        }
        ValidatedRefs(tree.nodes, slots, lost, k);
        slots := slots[k := slots[k].(valid := true)];
      }
      ok := true;
    }

    /** inode_put: dropping the last reference to an inode without links frees it. */
    method Put(k: nat)
      requires Valid() && k < |slots| && slots[k].ref > 0
      modifies this`slots, tree
      ensures Valid() && OneMore(slots, old(slots), old(slots)[k].inum)
      ensures Dropped(old(slots), slots, k)
      ensures tree.nodes == var i := old(slots)[k].inum;
                            if Used(old(tree.nodes), i) && old(tree.nodes)[i].nlink == 0 && RefOf(old(slots), i) == 1
                            then Reclaim(old(tree.nodes), i) else old(tree.nodes)
    {
      hide Inv, RefOf, SlotsOk, InUse, Reclaim, OneMore;
      ghost var nodes := tree.nodes;
      LastIsValid(nodes, slots, lost, k);
      var valid := slots[k].valid;
      if slots[k].ref == 1 && slots[k].valid && tree.nodes[slots[k].inum].nlink == 0 {
        tree.InodePut(slots[k].inum);
        valid := false;
      }
      DroppedOk(slots, k, valid);
      DroppedRefs(nodes, slots, lost, k, tree.nodes, valid);
      slots := slots[k := InCore(slots[k].inum, slots[k].ref - 1, valid)];
    }

    /** Dropping a reference that one has just taken frees nothing. */
    method PutBack(k: nat, ghost before: seq<InCore>)
      requires Valid() && k < |slots| && slots[k].ref > 0
      requires OneMore(before, slots, slots[k].inum) && RefsOk(tree.nodes, before, lost)
      modifies this`slots, tree
      ensures Valid() && SameRefs(before, slots) && tree.nodes == old(tree.nodes)
      ensures Dropped(old(slots), slots, k)
    {
      hide Inv, RefOf, SlotsOk, RefsOk;
      ghost var i := slots[k].inum;
      if Used(tree.nodes, i) && tree.nodes[i].nlink == 0 {
        NotLost(k);
        JustTaken(tree.nodes, before, lost, slots, i);
      }
      Put(k);
    }

    /** Moving on from the inode in slot `k` to an entry `dir` of it, which may be the inode itself. */
    method PutParent(k: nat, dir: nat, ghost before: seq<InCore>)
      requires Valid() && k < |slots| && slots[k].ref > 0
      requires TwoMore(before, slots, slots[k].inum, dir) && RefsOk(tree.nodes, before, lost)
      modifies this`slots, tree
      ensures Valid() && OneMore(before, slots, dir) && tree.nodes == old(tree.nodes)
      ensures Dropped(old(slots), slots, k)
    {
      hide Inv, RefOf, SlotsOk, RefsOk;
      ghost var i := slots[k].inum;
      if Used(tree.nodes, i) && tree.nodes[i].nlink == 0 {
        NotLost(k);
        JustTaken(tree.nodes, before, lost, slots, i);
      }
      Put(k);
    }

    /**
      namex: the fold of directory lookup over the path's names, from inode 1 if the path starts with a
      slash, and from the current directory if it does not or is empty; for nameiparent over all but the
      last, which is returned.  Exactly the inode that is returned has one more reference afterwards, and
      the file system is not changed.  None stands for the "no inodes" panic.
     */
    method Namex(path: string, parent: bool) returns (r: Option<Walk>, name: Name, k: nat)
      requires Valid() && (path == "" || path[0] != '/' ==> cwd < |slots| && slots[cwd].ref > 0)
      modifies this`slots, tree
      ensures tree.nodes == old(tree.nodes)
      ensures r.Some? && path != "" && path[0] == '/' ==>
                r.value == Resolve(tree.nodes, 1, Elems(path[1..]), parent)
      ensures r.Some? && (path == "" || path[0] != '/') ==>
                r.value == Resolve(tree.nodes, old(slots)[cwd].inum, Elems(path), parent)
      ensures r.Some? && r.value.Found? ==> Valid() && Refers(k, r.value.i) && OneMore(old(slots), slots, r.value.i)
      ensures r.Some? && r.value.NotFound? ==> Valid() && SameRefs(old(slots), slots)
      ensures parent && r.Some? && r.value.Found? ==> Elems(path) != [] && name == Elems(path)[|Elems(path)| - 1]
      ensures r.None? ==> Full(slots)
      ensures |Active(old(slots))| + 1 < NINODE ==> r.Some?
    {
      hide Inv, RefsOk, OneMore, TwoMore, SameRefs, Resolve, Segments, Down, RefOf, SlotsOk, Full, Active;
      name := "";
      ghost var start, nodes := slots, tree.nodes;
      r, k := Start(path);
      if r.None? {
        return;
      }
      if path != "" && path[0] == '/' {
        SlashSegments(path);
      }
      var ip := r.value.i;
      ghost var from := ip;
      var rest := path;
      while true
        invariant Valid() && tree.nodes == nodes && OneMore(start, slots, ip) && Refers(k, ip)
        invariant Resolve(nodes, from, Elems(path), parent) == Resolve(nodes, ip, Elems(rest), parent)
        invariant Elems(rest) != [] ==>
                  Elems(path) != [] && Elems(rest)[|Elems(rest)| - 1] == Elems(path)[|Elems(path)| - 1]
        decreases |rest|
      {
        var ok, elem, next := SkipElem(rest);
        if !ok {
          ResolveEnd(nodes, ip, parent);
          assert Elems(rest) == [];
          break;
        }
        assert Elems(rest)[0] == elem && Elems(rest)[1..] == Elems(next);
        ResolveStep(nodes, ip, Elems(rest), parent);
        DownFails(nodes, ip, elem);
        name := elem;
        ghost var unlocked := slots;
        var typed := Lock(k);
        if !typed {
          return Some(Stop), name, k;
        }
        OneMoreSame(start, unlocked, slots, ip);
        if tree.nodes[ip].kind != Dir {
          PutBack(k, start);
          return Some(NotFound), name, k;
        }
        if parent && next == "" {
          return Some(Found(ip)), name, k;
        }
        var dir;
        r, dir, k := StepDown(k, ip, name, start);
        if r.None? || r.value.NotFound? {
          return;
        }
        ip, rest := dir, next;
      }
      if parent {
        PutBack(k, start);
        return Some(NotFound), name, k;
      }
      return Some(Found(ip)), name, k;
    }

    /** A reference to the inode that the path starts at. */
    method Start(path: string) returns (r: Option<Walk>, k: nat)
      requires Valid() && (path == "" || path[0] != '/' ==> cwd < |slots| && slots[cwd].ref > 0)
      modifies this`slots
      ensures Valid()
      ensures r.Some? && path != "" && path[0] == '/' ==> r.value == Found(1)
      ensures r.Some? && (path == "" || path[0] != '/') ==> r.value == Found(old(slots)[cwd].inum)
      ensures r.Some? ==> Refers(k, r.value.i) && OneMore(old(slots), slots, r.value.i)
      ensures r.None? ==> Full(slots)
      ensures |Active(old(slots))| + 1 < NINODE ==> r.Some?
    {
      hide Inv, RefsOk, OneMore, RefOf;
      if path != "" && path[0] == '/' {
        if Full(slots) {
          ActiveSize(slots);
        }
        RootNotLost();
        var q := Get(ROOT);
        if q.None? {
          return None, 0;
        }
        return Some(Found(ROOT)), q.value;
      }
      k := cwd;
      r := Some(Found(slots[k].inum));
      Dup(k);
    }

    /** dir_lookup of `name` in the locked directory of slot `k`, then inode_unlockput of the directory. */
    method StepDown(k: nat, ip: nat, name: Name, ghost start: seq<InCore>) returns (r: Option<Walk>, dir: nat, k': nat)
      requires Valid() && Refers(k, ip) && OneMore(start, slots, ip)
      requires RefsOk(tree.nodes, start, lost) && SlotsOk(start)
      requires Used(tree.nodes, ip) && tree.nodes[ip].kind == Dir
      modifies this`slots, tree
      ensures Valid() && tree.nodes == old(tree.nodes)
      ensures r.Some? ==> r.value == Down(tree.nodes, ip, name)
      ensures r.Some? ==> r.value == Found(dir) || r.value == NotFound
      ensures r == Some(NotFound) ==> SameRefs(start, slots)
      ensures r == Some(Found(dir)) ==> Refers(k', dir) && OneMore(start, slots, dir)
      ensures r.None? ==> Full(slots)
      ensures |Active(start)| + 1 < NINODE ==> r.Some?
    {
      hide Inv, RefsOk, OneMore, TwoMore, SameRefs, Down, RefOf, SlotsOk, Full, Active;
      var off;
      k' := k;
      dir, off := tree.DirLookup(ip, name);
      LookupIs(tree.nodes, ip, name, dir, off);
      NotLost(k);
      if dir == 0 {
        PutBack(k, start);
        return Some(NotFound), dir, k;
      }
      if |Active(start)| + 1 < NINODE {
        NotFull(start, slots, ip);
      }
      ghost var held := slots;
      EntryNotLost(tree.nodes, slots, lost, ip, off);
      var q := Get(dir);
      if q.None? {
        return None, dir, k;
      }
      TwoRefs(start, held, slots, ip, dir);
      PutParent(k, dir, start);
      return Some(Found(dir)), dir, q.value;
    }
  }
}
