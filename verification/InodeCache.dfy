/** The inode cache of kern/fs/inode.c: slots with reference counts. */
module InodeCache {
  import opened Collections

  const NINODE: nat := 50

  /** The part of struct inode that inode_get and inode_put look at; `valid` is I_VALID. */
  datatype InCore = InCore(inum: nat, ref: nat, valid: bool) {
    predicate For(i: nat) { ref > 0 && inum == i }
    function Refs(i: nat): nat { if inum == i then ref else 0 }
  }

  /** No inode is in two slots. */
  ghost predicate SlotsOk(slots: seq<InCore>) {
    && |slots| == NINODE
    && forall a, b :: 0 <= a < b < |slots| && slots[a].ref > 0 && slots[b].ref > 0 ==> slots[a].inum != slots[b].inum
  }

  /** The number of references to inode `i`. */
  function RefOf(slots: seq<InCore>, i: nat): (n: nat) {
    if slots == [] then 0 else slots[0].Refs(i) + RefOf(slots[1..], i)
  }

  lemma {:induction false} RefUpdate(slots: seq<InCore>, k: nat, x: InCore, i: nat)
    requires k < |slots|
    ensures RefOf(slots[k := x], i) == RefOf(slots, i) - slots[k].Refs(i) + x.Refs(i)
  {
    if k == 0 {
      assert slots[0 := x][1..] == slots[1..];
    } else {
      assert slots[k := x][1..] == slots[1..][k - 1 := x];
      RefUpdate(slots[1..], k - 1, x, i);
    }
  }

  lemma {:induction false} RefNone(slots: seq<InCore>, i: nat)
    requires forall k :: 0 <= k < |slots| ==> !slots[k].For(i)
    ensures RefOf(slots, i) == 0
  {
    if slots != [] {
      RefNone(slots[1..], i);
    }
  }

  /** The slot of an inode has all its references. */
  lemma RefIs(slots: seq<InCore>, k: nat)
    requires SlotsOk(slots) && k < |slots| && slots[k].ref > 0
    ensures RefOf(slots, slots[k].inum) == slots[k].ref
  {
    var i, rest := slots[k].inum, slots[k := InCore(0, 0, false)];
    RefUpdate(slots, k, InCore(0, 0, false), i);
    RefNone(rest, i);
  }

  /** An inode with references has a slot. */
  lemma {:induction false} RefSlot(slots: seq<InCore>, i: nat) returns (k: nat)
    requires RefOf(slots, i) > 0
    ensures k < |slots| && slots[k].For(i)
  {
    if slots[0].For(i) {
      k := 0;
    } else {
      k := RefSlot(slots[1..], i);
      k := k + 1;
    }
  }

  /** One more reference to `i` than before, and as many to every other inode. */
  ghost predicate OneMore(slots: seq<InCore>, slots': seq<InCore>, i: nat) {
    forall j: nat :: RefOf(slots', j) == RefOf(slots, j) + if j == i then 1 else 0
  }

  ghost predicate TwoMore(slots: seq<InCore>, slots': seq<InCore>, i: nat, k: nat) {
    forall j: nat :: RefOf(slots', j) == RefOf(slots, j) + (if j == i then 1 else 0) + if j == k then 1 else 0
  }

  ghost predicate SameRefs(slots: seq<InCore>, slots': seq<InCore>) {
    forall j: nat :: RefOf(slots', j) == RefOf(slots, j)
  }

  lemma OneMoreSame(slots: seq<InCore>, slots1: seq<InCore>, slots2: seq<InCore>, i: nat)
    requires OneMore(slots, slots1, i) && SameRefs(slots1, slots2)
    ensures OneMore(slots, slots2, i)
  {
  }

  lemma TwoRefs(slots: seq<InCore>, slots1: seq<InCore>, slots2: seq<InCore>, i: nat, k: nat)
    requires OneMore(slots, slots1, i) && OneMore(slots1, slots2, k)
    ensures TwoMore(slots, slots2, i, k)
  {
  }

  /** Every slot is taken: inode_get stops at "no inodes" for an inode that has none. */
  predicate Full(slots: seq<InCore>) {
    forall k :: 0 <= k < |slots| ==> slots[k].ref > 0
  }

  /** The inodes that have references. */
  ghost function Active(slots: seq<InCore>): (s: set<nat>) {
    set k | 0 <= k < |slots| && slots[k].ref > 0 :: slots[k].inum
  }

  lemma {:induction false} ActiveSize(slots: seq<InCore>)
    requires Full(slots)
    requires forall a, b :: 0 <= a < b < |slots| ==> slots[a].inum != slots[b].inum
    ensures |Active(slots)| == |slots|
  {
    if slots != [] {
      ActiveSize(slots[1..]);
      var rest := slots[1..];
      forall x ensures x in Active(slots) <==> x == slots[0].inum || x in Active(rest) {
        if x in Active(rest) {
          var k :| 0 <= k < |rest| && rest[k].ref > 0 && rest[k].inum == x;
          assert slots[k + 1] == rest[k];
        }
      }
      assert slots[0].inum !in Active(rest);
      assert Active(slots) == {slots[0].inum} + Active(rest);
    }
  }

  /** With one reference more the cache fills up only if it had at most one slot left. */
  lemma NotFull(slots: seq<InCore>, slots': seq<InCore>, i: nat)
    requires SlotsOk(slots) && SlotsOk(slots') && OneMore(slots, slots', i) && |Active(slots)| + 1 < NINODE
    ensures !Full(slots')
  {
    forall x | x in Active(slots') ensures x in Active(slots) + {i} {
      var k :| 0 <= k < |slots'| && slots'[k].ref > 0 && slots'[k].inum == x;
      RefIs(slots', k);
      if x != i {
        var a := RefSlot(slots, x);
      }
    }
    SubsetSize(Active(slots'), Active(slots) + {i});
    if Full(slots') {
      ActiveSize(slots');
    }
  }

  /** The slot that inode_get finds: the inode's own, or else the first free one. */
  method Find(slots: seq<InCore>, i: nat) returns (r: Option<nat>)
    ensures r.None? <==> RefOf(slots, i) == 0 && Full(slots)
    ensures r.Some? ==>
              && r.value < |slots|
              && (slots[r.value].For(i) || (slots[r.value].ref == 0 && RefOf(slots, i) == 0))
  {
    var empty: Option<nat> := None;
    var k := 0;
    while k < |slots|
      invariant 0 <= k <= |slots| && forall a :: 0 <= a < k ==> !slots[a].For(i)
      invariant empty.None? <==> forall a :: 0 <= a < k ==> slots[a].ref > 0
      invariant empty.Some? ==> empty.value < k && slots[empty.value].ref == 0
    {
      if slots[k].ref > 0 && slots[k].inum == i {
        HasRefs(slots, k);
        return Some(k);
      }
      if empty.None? && slots[k].ref == 0 {
        empty := Some(k);
      }
      k := k + 1;
    }
    RefNone(slots, i);
    return empty;
  }

  lemma {:induction false} HasRefs(slots: seq<InCore>, k: nat)
    requires k < |slots| && slots[k].ref > 0
    ensures RefOf(slots, slots[k].inum) > 0
  {
    if k > 0 {
      HasRefs(slots[1..], k - 1);
    }
  }

  /** The slots after inode_get: a recycled slot is not yet valid. */
  function Taken(slots: seq<InCore>, k: nat, i: nat): (r: seq<InCore>)
    requires k < |slots|
  {
    slots[k := if slots[k].For(i) then slots[k].(ref := slots[k].ref + 1) else InCore(i, 1, false)]
  }

  lemma TakenOk(slots: seq<InCore>, k: nat, i: nat)
    requires SlotsOk(slots) && k < |slots| && (slots[k].For(i) || (slots[k].ref == 0 && RefOf(slots, i) == 0))
    ensures SlotsOk(Taken(slots, k, i)) && OneMore(slots, Taken(slots, k, i), i)
  {
    var r := Taken(slots, k, i);
    forall j: nat ensures RefOf(r, j) == RefOf(slots, j) + if j == i then 1 else 0 {
      RefUpdate(slots, k, r[k], j);
    }
    forall a, b | 0 <= a < b < |r| && r[a].ref > 0 && r[b].ref > 0 ensures r[a].inum != r[b].inum {
      if !slots[k].For(i) {
        if slots[a].For(i) {
          HasRefs(slots, a);
        }
        if slots[b].For(i) {
          HasRefs(slots, b);
        }
      }
    }
  }

  lemma DroppedOk(slots: seq<InCore>, k: nat, valid: bool)
    requires SlotsOk(slots) && k < |slots| && slots[k].ref > 0
    ensures var r := slots[k := InCore(slots[k].inum, slots[k].ref - 1, valid)];
            SlotsOk(r) && OneMore(r, slots, slots[k].inum)
  {
    var r := slots[k := InCore(slots[k].inum, slots[k].ref - 1, valid)];
    forall j: nat ensures RefOf(slots, j) == RefOf(r, j) + if j == slots[k].inum then 1 else 0 {
      RefUpdate(slots, k, r[k], j);
    }
  }

  lemma ValidatedOk(slots: seq<InCore>, k: nat)
    requires SlotsOk(slots) && k < |slots|
    ensures SlotsOk(slots[k := slots[k].(valid := true)]) && SameRefs(slots, slots[k := slots[k].(valid := true)])
  {
    forall j: nat ensures RefOf(slots[k := slots[k].(valid := true)], j) == RefOf(slots, j) {
      RefUpdate(slots, k, slots[k].(valid := true), j);
    }
  }
}
