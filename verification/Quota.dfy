/**
  Physical pages and the quotas that containers hold on them: the invariant of
  kern/pmm over every run of split, alloc and free.
 */
module Quota {
  const PAGESIZE: nat := 4096
  const NPAGES: nat := 0x10_0000
  const USERLO: nat := 0x4_0000        // VM_USERLO / PAGESIZE
  const USERHI: nat := 0xF_0000        // VM_USERHI / PAGESIZE
  const NUM_IDS: nat := 64
  const MAX_CHILDREN: nat := 3
  const TWO32: nat := 0x1_0000_0000
  const INT_MAX: int := 0x7FFF_FFFF

  lemma PagesLe(a: nat, b: nat)
    requires a <= b
    ensures a / PAGESIZE <= b / PAGESIZE
  {
  }

  /** struct SContainer. */
  datatype Container = Container(quota: int, usage: int, parent: nat, nchildren: nat, used: bool)

  /** The value of an int field after `x` has been stored in it. */
  function ToInt(x: int): (r: int)
    ensures -INT_MAX - 1 <= r <= INT_MAX
    ensures -INT_MAX - 1 <= x <= INT_MAX ==> r == x
    ensures (x - r) % TWO32 == 0
  {
    if x % TWO32 <= INT_MAX then x % TWO32 else x % TWO32 - TWO32
  }

  /** The pages that the allocator may hand out. */
  ghost function Normal(perm: seq<nat>): (s: set<nat>)
    requires |perm| == NPAGES
  {
    set pg | USERLO <= pg < USERHI && perm[pg] > 1
  }

  ghost function PagesOf(own: map<nat, nat>, p: nat): (s: set<nat>) {
    set pg | pg in own && own[pg] == p
  }

  ghost function PagesBelow(own: map<nat, nat>, k: nat): (s: set<nat>) {
    set pg | pg in own && own[pg] < k
  }

  function Child(id: nat, nc: nat): (q: nat) { id * MAX_CHILDREN + 1 + nc }

  /** Child ids never collide. */
  lemma ChildUnique(id: nat, nc: nat, id': nat, nc': nat)
    requires nc < MAX_CHILDREN && nc' < MAX_CHILDREN && Child(id, nc) == Child(id', nc')
    ensures id == id' && nc == nc'
  {
  }

  /** The quota of the `nc`-th child of `p`, if it has one. */
  ghost function ChildQuota(c: seq<Container>, p: nat, nc: nat): (s: int)
    requires p < |c|
  {
    if c[p].used && nc < c[p].nchildren && Child(p, nc) < |c| then c[Child(p, nc)].quota else 0
  }

  /** What container `p` has handed to its children. */
  ghost function Handed(c: seq<Container>, p: nat): (s: int)
    requires p < |c|
  {
    ChildQuota(c, p, 0) + ChildQuota(c, p, 1) + ChildQuota(c, p, 2)
  }

  /** Container `p` has used what it handed out plus one for each page it owns. */
  ghost predicate Balanced(c: seq<Container>, own: map<nat, nat>, p: nat)
    requires p < |c|
  {
    if c[p].used
    then
      && c[p].usage == Handed(c, p) + |PagesOf(own, p)|
      && 0 <= c[p].usage <= c[p].quota <= INT_MAX && c[p].nchildren <= MAX_CHILDREN
    else PagesOf(own, p) == {}
  }

  /** Container ids form the tree in which `p` has the children `3p + 1`, `3p + 2`, `3p + 3`, used in this order. */
  ghost predicate Tree(c: seq<Container>) {
    && |c| == NUM_IDS && c[0].used
    && (forall q :: 1 <= q < NUM_IDS ==> ChildOk(c, q))
  }

  ghost predicate ChildOk(c: seq<Container>, q: nat)
    requires 1 <= q < |c|
  {
    var p := (q - 1) / MAX_CHILDREN;
    c[q].used <==> c[p].used && (q - 1) % MAX_CHILDREN < c[p].nchildren
  }

  ghost predicate QuotaInv(c: seq<Container>, own: map<nat, nat>, total: nat) {
    && Tree(c) && c[0].quota == total
    && (forall p :: 0 <= p < NUM_IDS ==> Balanced(c, own, p))
    && (forall pg :: pg in own ==> own[pg] < NUM_IDS)
  }

  // Sums over the used containers below `k`.

  ghost function UsedQuota(c: seq<Container>, q: nat): (s: int)
    requires q < |c|
  {
    if c[q].used then c[q].quota else 0
  }

  ghost function Quotas(c: seq<Container>, k: nat): (s: int)
    requires k <= |c|
  {
    if k == 0 then 0 else Quotas(c, k - 1) + UsedQuota(c, k - 1)
  }

  ghost function Usages(c: seq<Container>, k: nat): (s: int)
    requires k <= |c|
  {
    if k == 0 then 0 else Usages(c, k - 1) + if c[k - 1].used then c[k - 1].usage else 0
  }

  ghost function HandedBelow(c: seq<Container>, k: nat): (s: int)
    requires k <= |c|
  {
    if k == 0 then 0 else HandedBelow(c, k - 1) + Handed(c, k - 1)
  }

  /** The quotas of the three children of `p` are what `p` has handed out. */
  lemma HandedIs(c: seq<Container>, p: nat)
    requires Tree(c) && Child(p, 2) < NUM_IDS
    ensures Handed(c, p) == UsedQuota(c, Child(p, 0)) + UsedQuota(c, Child(p, 1)) + UsedQuota(c, Child(p, 2))
  {
    forall nc: nat | nc < MAX_CHILDREN ensures ChildQuota(c, p, nc) == UsedQuota(c, Child(p, nc)) {
      var q := Child(p, nc);
      assert (q - 1) / MAX_CHILDREN == p && (q - 1) % MAX_CHILDREN == nc;
      assert ChildOk(c, q);
    }
  }

  /** Every container but the root is a child of exactly one other. */
  lemma {:induction false} HandedIsQuotas(c: seq<Container>, k: nat)
    requires Tree(c) && Child(k, 0) <= NUM_IDS
    ensures c[0].quota + HandedBelow(c, k) == Quotas(c, Child(k, 0))
  {
    if k == 0 {
      assert Quotas(c, 1) == Quotas(c, 0) + UsedQuota(c, 0);
    } else {
      HandedIsQuotas(c, k - 1);
      HandedIs(c, k - 1);
      var q := Child(k - 1, 0);
      assert Quotas(c, q + 1) == Quotas(c, q) + UsedQuota(c, q);
      assert Quotas(c, q + 2) == Quotas(c, q + 1) + UsedQuota(c, q + 1);
      assert Quotas(c, q + 3) == Quotas(c, q + 2) + UsedQuota(c, q + 2);
    }
  }

  /** The containers at the end of the id range have no children. */
  lemma {:induction false} LeavesHandNothing(c: seq<Container>, k: nat)
    requires |c| == NUM_IDS && NUM_IDS / MAX_CHILDREN <= k <= NUM_IDS
    ensures HandedBelow(c, k) == HandedBelow(c, NUM_IDS / MAX_CHILDREN)
  {
    if k > NUM_IDS / MAX_CHILDREN {
      LeavesHandNothing(c, k - 1);
      assert Handed(c, k - 1) == 0;
    }
  }

  lemma AllHanded(c: seq<Container>)
    requires Tree(c)
    ensures HandedBelow(c, NUM_IDS) == Quotas(c, NUM_IDS) - c[0].quota
  {
    HandedIsQuotas(c, NUM_IDS / MAX_CHILDREN);
    LeavesHandNothing(c, NUM_IDS);
  }

  lemma PagesNext(own: map<nat, nat>, k: nat)
    ensures |PagesBelow(own, k + 1)| == |PagesBelow(own, k)| + |PagesOf(own, k)|
  {
    assert PagesBelow(own, k + 1) == PagesBelow(own, k) + PagesOf(own, k);
    assert PagesBelow(own, k) !! PagesOf(own, k);
  }

  lemma {:induction false} UsagesAre(c: seq<Container>, own: map<nat, nat>, k: nat)
    requires k <= |c| && forall p :: 0 <= p < k ==> Balanced(c, own, p)
    ensures Usages(c, k) == HandedBelow(c, k) + |PagesBelow(own, k)|
  {
    if k == 0 {
      assert PagesBelow(own, 0) == {};
    } else {
      UsagesAre(c, own, k - 1);
      PagesNext(own, k - 1);
      assert Balanced(c, own, k - 1);
    }
  }

  lemma {:induction false} UsagesWithin(c: seq<Container>, own: map<nat, nat>, k: nat)
    requires k <= |c| && forall p :: 0 <= p < k ==> Balanced(c, own, p)
    ensures Usages(c, k) <= Quotas(c, k)
    ensures forall id :: 0 <= id < k && c[id].used && c[id].usage < c[id].quota ==> Usages(c, k) < Quotas(c, k)
  {
    if k > 0 {
      UsagesWithin(c, own, k - 1);
      assert Balanced(c, own, k - 1);
    }
  }

  /** Conservation: usage over all containers, less the quotas of all children, is the number of allocated pages. */
  lemma UsageIsPages(c: seq<Container>, own: map<nat, nat>, total: nat)
    requires QuotaInv(c, own, total)
    ensures Usages(c, NUM_IDS) - (Quotas(c, NUM_IDS) - c[0].quota) == |own| <= total
  {
    UsagesAre(c, own, NUM_IDS);
    UsagesWithin(c, own, NUM_IDS);
    AllHanded(c);
    assert PagesBelow(own, NUM_IDS) == own.Keys;
  }

  /** While any container is below its quota, fewer pages are allocated than exist. */
  lemma RoomForAll(c: seq<Container>, own: map<nat, nat>, total: nat, id: nat)
    requires QuotaInv(c, own, total) && id < NUM_IDS && c[id].used && c[id].usage < c[id].quota
    ensures |own| < total
  {
    UsageIsPages(c, own, total);
    UsagesWithin(c, own, NUM_IDS);
  }

  lemma PagesAdded(own: map<nat, nat>, pg: nat, id: nat, p: nat)
    requires pg !in own
    ensures |PagesOf(own[pg := id], p)| == |PagesOf(own, p)| + if p == id then 1 else 0
    ensures p != id ==> PagesOf(own[pg := id], p) == PagesOf(own, p)
  {
    if p == id {
      assert PagesOf(own[pg := id], p) == PagesOf(own, p) + {pg};
    } else {
      assert PagesOf(own[pg := id], p) == PagesOf(own, p);
    }
  }

  /** A new usage of `id` changes nobody's children. */
  lemma SameHanded(c: seq<Container>, id: nat, usage: int)
    requires Tree(c) && id < NUM_IDS
    ensures var c' := c[id := c[id].(usage := usage)];
            Tree(c') && forall p :: 0 <= p < NUM_IDS ==> Handed(c', p) == Handed(c, p)
  {
    var c' := c[id := c[id].(usage := usage)];
    forall q | 1 <= q < NUM_IDS ensures ChildOk(c', q) {
      assert ChildOk(c, q);
    }
  }

  /** container_alloc below the quota. */
  lemma AllocKept(c: seq<Container>, own: map<nat, nat>, total: nat, id: nat, pg: nat)
    requires QuotaInv(c, own, total) && id < NUM_IDS && c[id].used && c[id].usage < c[id].quota && pg !in own
    ensures QuotaInv(c[id := c[id].(usage := c[id].usage + 1)], own[pg := id], total)
  {
    var c' := c[id := c[id].(usage := c[id].usage + 1)];
    var own' := own[pg := id];
    SameHanded(c, id, c[id].usage + 1);
    hide Tree, Handed;
    forall p | 0 <= p < NUM_IDS ensures Balanced(c', own', p) {
      PagesAdded(own, pg, id, p);
      assert Balanced(c, own, p);
    }
  }

  lemma PagesRemoved(own: map<nat, nat>, pg: nat, p: nat)
    requires pg in own
    ensures |PagesOf(own - {pg}, p)| == |PagesOf(own, p)| - if p == own[pg] then 1 else 0
    ensures p != own[pg] ==> PagesOf(own - {pg}, p) == PagesOf(own, p)
  {
    if p == own[pg] {
      assert PagesOf(own - {pg}, p) == PagesOf(own, p) - {pg};
    } else {
      assert PagesOf(own - {pg}, p) == PagesOf(own, p);
    }
  }

  /** container_free by the owner of the page. */
  lemma FreeKept(c: seq<Container>, own: map<nat, nat>, total: nat, pg: nat)
    requires QuotaInv(c, own, total) && pg in own
    ensures own[pg] < NUM_IDS && c[own[pg]].used && c[own[pg]].usage > 0
    ensures QuotaInv(c[own[pg] := c[own[pg]].(usage := c[own[pg]].usage - 1)], own - {pg}, total)
  {
    var id := own[pg];
    HandedNat(c, own, total, id);
    assert Balanced(c, own, id) && pg in PagesOf(own, id);
    var c' := c[id := c[id].(usage := c[id].usage - 1)];
    var own' := own - {pg};
    SameHanded(c, id, c[id].usage - 1);
    hide Tree, Handed;
    forall p | 0 <= p < NUM_IDS ensures Balanced(c', own', p) {
      PagesRemoved(own, pg, p);
      assert Balanced(c, own, p);
    }
  }

  /** container_free by anybody else leaves the owner charged for a page it no longer has. */
  lemma FreeBreaks(c: seq<Container>, own: map<nat, nat>, total: nat, id: nat, pg: nat, usage: int)
    requires QuotaInv(c, own, total) && pg in own && id < NUM_IDS && own[pg] != id
    ensures !QuotaInv(c[id := c[id].(usage := usage)], own - {pg}, total)
  {
    var p := own[pg];
    assert Balanced(c, own, p) && pg in PagesOf(own, p);
    PagesRemoved(own, pg, p);
    SameHanded(c, id, usage);
    assert !Balanced(c[id := c[id].(usage := usage)], own - {pg}, p);
  }

  /** The root with quota 2, which has split off container 1 with quota 1. */
  ghost function RootAndChild(): (c: seq<Container>)
    ensures |c| == NUM_IDS && c[0] == Container(2, 1, 0, 1, true) && c[1] == Container(1, 1, 0, 0, true)
    ensures forall p :: 2 <= p < NUM_IDS ==> c[p] == Container(0, 0, 0, 0, false)
  {
    seq(NUM_IDS, p => if p == 0 then Container(2, 1, 0, 1, true)
                      else if p == 1 then Container(1, 1, 0, 0, true) else Container(0, 0, 0, 0, false))
  }

  /** The accounts are right while container 1 owns a page, and no longer when the root frees that page. */
  lemma FreeOfAnothers()
    ensures QuotaInv(RootAndChild(), map[USERLO := 1], 2)
    ensures !QuotaInv(RootAndChild()[0 := RootAndChild()[0].(usage := 0)], map[USERLO := 1] - {USERLO}, 2)
  {
    hide RootAndChild;
    var c, own := RootAndChild(), map[USERLO := 1];
    forall p | 0 <= p < NUM_IDS ensures Balanced(c, own, p) {
      assert PagesOf(own, p) == if p == 1 then {USERLO} else {};
    }
    forall q | 1 <= q < NUM_IDS ensures ChildOk(c, q) {
    }
    FreeBreaks(c, own, 2, 0, USERLO, 0);
  }

  lemma HandedNat(c: seq<Container>, own: map<nat, nat>, total: nat, p: nat)
    requires QuotaInv(c, own, total) && p < NUM_IDS
    ensures Handed(c, p) >= 0
  {
    forall nc: nat | nc < MAX_CHILDREN ensures ChildQuota(c, p, nc) >= 0 {
      var q := Child(p, nc);
      if q < NUM_IDS {
        assert (q - 1) / MAX_CHILDREN == p && (q - 1) % MAX_CHILDREN == nc;
        assert ChildOk(c, q) && Balanced(c, own, q);
      }
    }
  }

  /** The containers after container_split, whose int fields hold what the unsigned request leaves in them. */
  ghost function SplitOf(c: seq<Container>, id: nat, q: nat): (r: seq<Container>)
    requires id < |c| && Child(id, c[id].nchildren) < |c|
  {
    var child := Child(id, c[id].nchildren);
    c[child := Container(ToInt(q), 0, id, 0, true)][id := c[id].(usage := ToInt(c[id].usage + q),
                                                                 nchildren := c[id].nchildren + 1)]
  }

  /** A split within the quota, field by field. */
  lemma SplitFields(c: seq<Container>, own: map<nat, nat>, total: nat, id: nat, q: nat)
    requires QuotaInv(c, own, total) && CanSplit(c, id) && c[id].usage + q <= c[id].quota
    ensures var r, child := SplitOf(c, id, q), 3 * id + 1 + c[id].nchildren;
            && |r| == |c| && child < |c| && r[child] == Container(q, 0, id, 0, true)
            && r[id] == Container(c[id].quota, c[id].usage + q, c[id].parent, c[id].nchildren + 1, true)
            && forall p :: 0 <= p < |c| && p != id && p != child ==> r[p] == c[p]
  {
    assert Balanced(c, own, id);
  }

  /** What sys_spawn checks before container_split, apart from the quota. */
  ghost predicate CanSplit(c: seq<Container>, id: nat) {
    id < |c| && c[id].used && c[id].nchildren < MAX_CHILDREN && Child(id, c[id].nchildren) < |c|
  }

  /** The parent's handed quota grows by the child's, nobody else's changes. */
  lemma SplitHanded(c: seq<Container>, id: nat, q: nat, p: nat)
    requires Tree(c) && CanSplit(c, id) && p < NUM_IDS
    ensures !c[Child(id, c[id].nchildren)].used
    ensures Handed(SplitOf(c, id, q), p) == Handed(c, p) + if p == id then ToInt(q) else 0
  {
    var child, c' := Child(id, c[id].nchildren), SplitOf(c, id, q);
    assert (child - 1) / MAX_CHILDREN == id && (child - 1) % MAX_CHILDREN == c[id].nchildren;
    assert ChildOk(c, child);
    forall nc: nat | nc < MAX_CHILDREN
      ensures ChildQuota(c', p, nc) == ChildQuota(c, p, nc) + if p == id && nc == c[id].nchildren then ToInt(q) else 0 {
      if Child(p, nc) == child {
        ChildUnique(p, nc, id, c[id].nchildren);
      }
    }
  }

  /** container_split keeps the accounts right exactly when the request fits the parent's quota. */
  lemma SplitExact(c: seq<Container>, own: map<nat, nat>, total: nat, id: nat, q: nat)
    requires QuotaInv(c, own, total) && CanSplit(c, id) && q < TWO32
    ensures !c[Child(id, c[id].nchildren)].used
    ensures QuotaInv(SplitOf(c, id, q), own, total) <==> c[id].usage + q <= c[id].quota
  {
    SplitHanded(c, id, q, id);
    if c[id].usage + q <= c[id].quota {
      SplitKept(c, own, total, id, q);
    } else {
      SplitBreaks(c, own, total, id, q);
    }
  }

  lemma SplitKept(c: seq<Container>, own: map<nat, nat>, total: nat, id: nat, q: nat)
    requires QuotaInv(c, own, total) && CanSplit(c, id) && c[id].usage + q <= c[id].quota
    ensures QuotaInv(SplitOf(c, id, q), own, total)
  {
    var child := Child(id, c[id].nchildren);
    var c' := SplitOf(c, id, q);
    assert Balanced(c, own, child) && Balanced(c, own, id);
    SplitTree(c, id, q);
    SplitHanded(c, id, q, child);
    forall p | 0 <= p < NUM_IDS ensures Balanced(c', own, p) {
      assert Balanced(c, own, p);
      SplitHanded(c, id, q, p);
    }
  }

  lemma SplitBreaks(c: seq<Container>, own: map<nat, nat>, total: nat, id: nat, q: nat)
    requires QuotaInv(c, own, total) && CanSplit(c, id) && q < TWO32 && c[id].usage + q > c[id].quota
    ensures !QuotaInv(SplitOf(c, id, q), own, total)
  {
    var child, c' := Child(id, c[id].nchildren), SplitOf(c, id, q);
    assert Balanced(c, own, id);
    SplitHanded(c, id, q, id);
    HandedNat(c, own, total, id);
    if ToInt(q) < 0 {
      assert !Balanced(c', own, child);
    } else {
      assert !Balanced(c', own, id);
    }
  }

  lemma SplitTree(c: seq<Container>, id: nat, q: nat)
    requires Tree(c) && CanSplit(c, id)
    ensures Tree(SplitOf(c, id, q))
  {
    var child, c' := Child(id, c[id].nchildren), SplitOf(c, id, q);
    assert (child - 1) / MAX_CHILDREN == id && (child - 1) % MAX_CHILDREN == c[id].nchildren;
    assert ChildOk(c, child);
    forall r | 1 <= r < NUM_IDS ensures ChildOk(c', r) {
      assert ChildOk(c, r);
      if (r - 1) / MAX_CHILDREN == id && (r - 1) % MAX_CHILDREN == c[id].nchildren {
        ChildUnique(id, c[id].nchildren, (r - 1) / MAX_CHILDREN, (r - 1) % MAX_CHILDREN);
      }
    }
  }

  /** container_can_consume, in 32-bit unsigned arithmetic. */
  predicate CanConsume(usage: nat, quota: nat, n: nat) {
    (usage + n) % TWO32 <= quota
  }

  /** The sum comes round to a value within the quota. */
  predicate ComesRound(usage: int, quota: int, n: nat) {
    TWO32 <= usage + n <= TWO32 + quota
  }

  /** The comparison means what it says exactly when the sum does not come round. */
  lemma CanConsumeExact(usage: nat, quota: nat, n: nat)
    requires usage <= quota <= INT_MAX && n < TWO32
    ensures (CanConsume(usage, quota, n) <==> usage + n <= quota) <==> !ComesRound(usage, quota, n)
  {
  }

  /** A request for which it does not. */
  lemma CanConsumeWraps()
    ensures CanConsume(1, 1, TWO32 - 1) && !(1 + (TWO32 - 1) <= 1)
  {
  }
}
