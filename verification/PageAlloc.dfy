/** The page allocator of kern/pmm/MATOp and the containers of kern/pmm/MContainer above it. */
module PageAlloc {
  import opened Quota

  const USERPAGES: nat := USERHI - USERLO

  predicate Free(perm: seq<nat>, alloc: seq<bool>, pg: nat)
    requires pg < |perm| == |alloc|
  {
    perm[pg] > 1 && !alloc[pg]
  }

  /** The `d`-th page that the circular scan from `last` looks at. */
  function Circular(last: nat, d: nat): (pg: nat)
    requires USERLO <= last < USERHI && d <= USERPAGES
    ensures USERLO <= pg < USERHI
  {
    if last + d < USERHI then last + d else last + d - USERPAGES
  }

  function Distance(last: nat, pg: nat): (d: nat)
    requires USERLO <= last < USERHI && USERLO <= pg < USERHI
    ensures d < USERPAGES && Circular(last, d) == pg
  {
    if pg >= last then pg - last else pg - last + USERPAGES
  }

  /** What comes first on the way round from `last`. */
  lemma DistanceOrder(last: nat, pg: nat, i: nat)
    requires USERLO <= last < USERHI && USERLO <= pg < USERHI && USERLO <= i < USERHI
    ensures Distance(last, pg) <= Distance(last, i) <==> if last <= pg then i < last || pg <= i else pg <= i < last
  {
  }

  /** The allocation table: only normal pages are ever allocated, and all of them lie in the user range. */
  ghost predicate TableOk(nps: nat, perm: seq<nat>, alloc: seq<bool>, last: nat, own: map<nat, nat>) {
    && |perm| == |alloc| == NPAGES && nps <= NPAGES && USERLO <= last < USERHI
    && (forall pg :: 0 <= pg < NPAGES && perm[pg] > 1 ==> USERLO <= pg < USERHI && pg < nps)
    && (forall pg :: 0 <= pg < NPAGES ==> (alloc[pg] <==> pg in own))
    && own.Keys <= Normal(perm)
  }

  lemma FreeExists(nps: nat, perm: seq<nat>, alloc: seq<bool>, last: nat, own: map<nat, nat>)
    requires TableOk(nps, perm, alloc, last, own) && |own| < |Normal(perm)|
    ensures exists pg :: USERLO <= pg < USERHI && Free(perm, alloc, pg)
  {
    assert own.Keys != Normal(perm);
    var pg :| pg in Normal(perm) && pg !in own;
    assert Free(perm, alloc, pg);
  }

  lemma TableTaken(nps: nat, perm: seq<nat>, alloc: seq<bool>, last: nat, own: map<nat, nat>, pg: nat, id: nat)
    requires TableOk(nps, perm, alloc, last, own) && USERLO <= pg < USERHI && Free(perm, alloc, pg)
    ensures TableOk(nps, perm, alloc[pg := true], pg, own[pg := id]) && pg in Normal(perm) && pg !in own
  {
  }

  class Pmm {
    var nps: nat
    var perm: seq<nat>
    var alloc: seq<bool>
    var last: nat
    var cont: seq<Container>
    ghost var own: map<nat, nat>

    ghost predicate Valid()
      reads this
    {
      TableOk(nps, perm, alloc, last, own) && QuotaInv(cont, own, |Normal(perm)|)
    }

    constructor (nps: nat, perm: seq<nat>)
      requires |perm| == NPAGES && nps <= NPAGES
      requires forall pg :: 0 <= pg < NPAGES && perm[pg] > 1 ==> USERLO <= pg < USERHI && pg < nps
      requires |Normal(perm)| <= INT_MAX
      ensures Valid() && own == map[] && this.perm == perm && this.nps == nps
      ensures cont[0] == Container(|Normal(perm)|, 0, 0, 0, true)
    {
      this.nps, this.perm := nps, perm;
      alloc := seq(NPAGES, _ => false);
      last := USERLO;
      own := map[];
      var quota := CountNormal(nps, perm);
      cont := seq(NUM_IDS, p => if p == 0 then Container(quota, 0, 0, 0, true) else Container(0, 0, 0, 0, false));
      new;
      forall p | 0 <= p < NUM_IDS ensures Balanced(cont, own, p) {
        assert PagesOf(own, p) == {};
      }
      forall q | 1 <= q < NUM_IDS ensures ChildOk(cont, q) {
      }
    }

    lemma Bounds(p: nat)
      requires Valid() && p < NUM_IDS
      ensures |perm| == NPAGES && |cont| == NUM_IDS && (cont[p].used ==> 0 <= cont[p].usage <= cont[p].quota <= INT_MAX)
    {
      assert Balanced(cont, own, p);
    }

    /** palloc: the first free page at or after the last one handed out, in circular order. */
    method Palloc() returns (pg: nat)
      requires TableOk(nps, perm, alloc, last, own)
      modifies this`alloc, this`last
      ensures |alloc| == NPAGES
      ensures pg == 0 ==> alloc == old(alloc) && forall i :: USERLO <= i < USERHI ==> !Free(perm, alloc, i)
      ensures pg != 0 ==>
                && USERLO <= pg < USERHI && Free(perm, old(alloc), pg) && alloc == old(alloc)[pg := true]
                && (forall i :: USERLO <= i < USERHI && perm[i] > 1 && !old(alloc)[i] ==>
                      if old(last) <= pg then i < old(last) || pg <= i else pg <= i < old(last))
      ensures last == if pg == 0 then USERLO else pg
    {
      var idx, free, first := last, nps, true;
      ghost var d := 0;
      while (idx != last || first) && free == nps
        invariant 0 <= d <= USERPAGES && idx == Circular(last, d) && (first <==> d == 0)
        invariant free == nps ==> forall j :: 0 <= j < d ==> !Free(perm, alloc, Circular(last, j))
        invariant free != nps ==>
                    && d > 0 && free == Circular(last, d - 1) && Free(perm, alloc, free)
                    && forall j :: 0 <= j < d - 1 ==> !Free(perm, alloc, Circular(last, j))
        decreases USERPAGES - d
      {
        first := false;
        if perm[idx] > 1 && !alloc[idx] {
          free := idx;
        }
        idx := idx + 1;
        if idx >= USERHI {
          idx := USERLO;
        }
        d := d + 1;
      }
      if free == nps {
        forall i | USERLO <= i < USERHI ensures !Free(perm, alloc, i) {
          assert Circular(last, Distance(last, i)) == i;
        }
        pg := 0;
        last := USERLO;
      } else {
        forall i | USERLO <= i < USERHI && perm[i] > 1 && !alloc[i]
          ensures if last <= free then i < last || free <= i else free <= i < last {
          assert Circular(last, Distance(last, i)) == i && Free(perm, alloc, i);
          DistanceOrder(last, free, i);
        }
        pg := free;
        alloc := alloc[pg := true];
        last := pg;
      }
    }

    /** pfree. */
    method Pfree(pg: nat)
      requires |alloc| == NPAGES && pg < NPAGES
      modifies this`alloc
      ensures alloc == old(alloc)[pg := false]
    {
      alloc := alloc[pg := false];
    }

    /** container_alloc returns 0 exactly when the container's own quota is used up. */
    method ContainerAlloc(id: nat) returns (pg: nat)
      requires Valid() && id < NUM_IDS && cont[id].used
      modifies this`alloc, this`last, this`cont, this`own
      ensures Valid()
      ensures pg == 0 <==> old(cont)[id].usage == old(cont)[id].quota
      ensures pg == 0 ==> cont == old(cont) && own == old(own)
      ensures pg != 0 ==>
                && pg in Normal(perm) && pg !in old(own) && own == old(own)[pg := id]
                && cont == old(cont)[id := old(cont)[id].(usage := old(cont)[id].usage + 1)]
    {
      hide QuotaInv, TableOk, Normal;
      Bounds(id);
      pg := 0;
      if cont[id].usage + 1 <= cont[id].quota {
        RoomForAll(cont, own, |Normal(perm)|, id);
        FreeExists(nps, perm, alloc, last, own);
        cont := cont[id := cont[id].(usage := cont[id].usage + 1)];
        pg := Palloc();
        TableTaken(nps, perm, old(alloc), old(last), own, pg, id);
        AllocKept(old(cont), own, |Normal(perm)|, id, pg);
        own := own[pg := id];
      }
    }

    /** The allocation table is right, whatever the containers say. */
    ghost predicate Sound()
      reads this
    {
      TableOk(nps, perm, alloc, last, own)
    }

    /** container_free: the accounts stay right exactly when the page is free or the caller's own. */
    method ContainerFree(id: nat, pg: nat)
      requires Valid() && id < NUM_IDS && pg < NPAGES
      modifies this`alloc, this`cont, this`own
      ensures Sound() && own == old(own) - {pg}
      ensures Valid() <==> (pg in old(own) ==> old(own)[pg] == id)
      ensures pg in old(own) && old(own)[pg] == id ==> old(cont)[id].usage > 0
      ensures cont == if pg in old(own) && old(cont)[id].usage > 0
                      then old(cont)[id := old(cont)[id].(usage := old(cont)[id].usage - 1)] else old(cont)
    {
      if alloc[pg] {
        FreeOutcome(id, pg);
        Pfree(pg);
        if cont[id].usage > 0 {
          cont := cont[id := cont[id].(usage := cont[id].usage - 1)];
        }
      }
      assert pg !in own ==> own - {pg} == own;
      own := own - {pg};
    }

    lemma FreeOutcome(id: nat, pg: nat)
      requires Valid() && id < NUM_IDS && pg in own
      ensures own[pg] == id ==> cont[id].usage > 0
      ensures var c := if cont[id].usage > 0 then cont[id := cont[id].(usage := cont[id].usage - 1)] else cont;
              QuotaInv(c, own - {pg}, |Normal(perm)|) <==> own[pg] == id
    {
      if own[pg] == id {
        FreeKept(cont, own, |Normal(perm)|, pg);
      } else {
        assert cont[id := cont[id].(usage := cont[id].usage)] == cont;
        FreeBreaks(cont, own, |Normal(perm)|, id, pg,
                   if cont[id].usage > 0 then cont[id].usage - 1 else cont[id].usage);
      }
    }

    /** container_split.  Its early return cannot be reached from the guards of sys_spawn. */
    method ContainerSplit(id: nat, quota: nat) returns (child: nat)
      requires Valid() && CanSplit(cont, id) && quota < TWO32
      modifies this`cont
      ensures Sound() && (Valid() <==> old(cont)[id].usage + quota <= old(cont)[id].quota)
      ensures child == Child(id, old(cont)[id].nchildren) < NUM_IDS && !old(cont)[child].used
      ensures cont == SplitOf(old(cont), id, quota) && cont[child].used && cont[child].parent == id
      ensures old(cont)[id].usage + quota <= old(cont)[id].quota ==>
                && child == 3 * id + 1 + old(cont)[id].nchildren && cont[child] == Container(quota, 0, id, 0, true)
                && cont[id] == old(cont)[id].(usage := old(cont)[id].usage + quota,
                                              nchildren := old(cont)[id].nchildren + 1)
                && forall p :: 0 <= p < NUM_IDS && p != id && p != child ==> cont[p] == old(cont)[p]
    {
      SplitExact(cont, own, |Normal(perm)|, id, quota);
      if cont[id].usage + quota <= cont[id].quota {
        SplitFields(cont, own, |Normal(perm)|, id, quota);
      }
      var nc := cont[id].nchildren;
      child := id * MAX_CHILDREN + 1 + nc;
      cont := cont[child := Container(ToInt(quota), 0, id, 0, true)];
      cont := cont[id := cont[id].(usage := ToInt(cont[id].usage + quota))];
      cont := cont[id := cont[id].(nchildren := cont[id].nchildren + 1)];
      assert cont == SplitOf(old(cont), id, quota);
    }

    /**
      The guards of sys_spawn and of kctx_new, then container_split.  NUM_IDS stands
      for a refusal.  A request that comes round is let through and breaks the accounts.
     */
    method Spawn(curid: nat, quota: nat) returns (child: nat)
      requires Valid() && curid < NUM_IDS && cont[curid].used && quota < TWO32
      modifies this`cont
      ensures Sound() && own == old(own)
      ensures Valid() <==> child == NUM_IDS || old(cont)[curid].usage + quota <= old(cont)[curid].quota
      ensures child == NUM_IDS <==>
                || (old(cont)[curid].usage + quota > old(cont)[curid].quota
                    && !ComesRound(old(cont)[curid].usage, old(cont)[curid].quota, quota))
                || old(cont)[curid].nchildren == MAX_CHILDREN || curid >= (NUM_IDS - 1) / MAX_CHILDREN
      ensures child == NUM_IDS ==> cont == old(cont)
      ensures child != NUM_IDS ==>
                && child == Child(curid, old(cont)[curid].nchildren) < NUM_IDS && !old(cont)[child].used
                && cont == SplitOf(old(cont), curid, quota)
      ensures child != NUM_IDS && old(cont)[curid].usage + quota <= old(cont)[curid].quota ==>
                && child == 3 * curid + 1 + old(cont)[curid].nchildren
                && cont[child] == Container(quota, 0, curid, 0, true)
                && cont[curid] == old(cont)[curid].(usage := old(cont)[curid].usage + quota,
                                                    nchildren := old(cont)[curid].nchildren + 1)
                && forall p :: 0 <= p < NUM_IDS && p != curid && p != child ==> cont[p] == old(cont)[p]
    {
      assert Balanced(cont, own, curid);
      if !CanConsume(cont[curid].usage, cont[curid].quota, quota) {
        return NUM_IDS;
      } else if NUM_IDS < curid * MAX_CHILDREN + 1 + MAX_CHILDREN {
        return NUM_IDS;
      } else if cont[curid].nchildren == MAX_CHILDREN {
        return NUM_IDS;
      }
      child := ContainerSplit(curid, quota);
    }
  }

  /** The counting loop of container_init: the number of unallocated normal pages. */
  method CountNormal(nps: nat, perm: seq<nat>) returns (n: nat)
    requires |perm| == NPAGES && nps <= NPAGES
    requires forall pg :: 0 <= pg < NPAGES && perm[pg] > 1 ==> USERLO <= pg < USERHI && pg < nps
    ensures n == |Normal(perm)|
  {
    n := 0;
    var idx := 1;
    assert NormalBelow(perm, 1) == {};
    while idx < nps
      invariant 1 <= idx && (idx <= nps || idx == 1)
      invariant n == |NormalBelow(perm, idx)|
    {
      assert NormalBelow(perm, idx + 1) == NormalBelow(perm, idx) + if perm[idx] > 1 then {idx} else {};
      if perm[idx] > 1 {
        n := n + 1;
      }
      idx := idx + 1;
    }
    assert NormalBelow(perm, idx) == Normal(perm);
  }

  ghost function NormalBelow(perm: seq<nat>, k: nat): (s: set<nat>)
    requires |perm| == NPAGES
  {
    set pg | 0 <= pg < NPAGES && pg < k && perm[pg] > 1
  }
}
