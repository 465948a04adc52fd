/** From the firmware memory map (kern/dev/mboot.c) to page permissions (kern/pmm/MATInit). */
module MemoryMap {
  import opened Collections
  import opened Quota
  import opened PageAlloc

  const TOP: nat := 0xFFFF_FFFF
  const MEM_RAM: nat := 1

  /** struct pmmap: the addresses from `start` up to but excluding `end`. */
  datatype Region = Region(start: nat, end: nat, typ: nat) {
    predicate Has(a: nat) { start <= a < end }
  }

  /** A multiboot memory map entry. */
  datatype Entry = Entry(baseLow: nat, baseHigh: nat, lengthLow: nat, lengthHigh: nat, typ: nat) {
    predicate Ok() { baseLow < TWO32 && baseHigh < TWO32 && lengthLow < TWO32 && lengthHigh < TWO32 }
    function Base(): nat { baseLow + TWO32 * baseHigh }
    function Length(): nat { lengthLow + TWO32 * lengthHigh }
    predicate Has(a: nat) { Base() <= a < Base() + Length() }
  }

  /** Address `a` lies in a region of type `typ`. */
  ghost predicate Covers(l: seq<Region>, typ: nat, a: nat) {
    exists i :: 0 <= i < |l| && l[i].typ == typ && l[i].Has(a)
  }

  ghost predicate Reported(es: seq<Entry>, typ: nat, a: nat) {
    exists i :: 0 <= i < |es| && es[i].typ == typ && es[i].Has(a)
  }

  ghost predicate Sorted(l: seq<Region>) {
    forall i, j :: 0 <= i < j < |l| ==> l[i].start <= l[j].start
  }

  lemma CoversConcat(l: seq<Region>, m: seq<Region>, typ: nat, a: nat)
    ensures Covers(l + m, typ, a) <==> Covers(l, typ, a) || Covers(m, typ, a)
  {
    var k := l + m;
    if Covers(l, typ, a) {
      var i :| 0 <= i < |l| && l[i].typ == typ && l[i].Has(a);
      assert k[i] == l[i];
    }
    if Covers(m, typ, a) {
      var i :| 0 <= i < |m| && m[i].typ == typ && m[i].Has(a);
      assert k[|l| + i] == m[i];
    }
  }

  lemma CoversOne(r: Region, typ: nat, a: nat)
    ensures Covers([r], typ, a) <==> r.typ == typ && r.Has(a)
  {
    assert [r][0] == r;
  }

  /** pmmap_insert: behind every region that starts no later. */
  method Insert(l: seq<Region>, r: Region) returns (l': seq<Region>)
    requires Sorted(l)
    ensures Sorted(l') && |l'| == |l| + 1 && multiset(l') == multiset(l) + multiset{r}
    ensures forall typ: nat, a: nat :: Covers(l', typ, a) <==> Covers(l, typ, a) || (r.typ == typ && r.Has(a))
  {
    var k := 0;
    while k < |l| && !(r.start < l[k].start)
      invariant 0 <= k <= |l| && forall i :: 0 <= i < k ==> l[i].start <= r.start
    {
      k := k + 1;
    }
    l' := l[..k] + [r] + l[k..];
    InsertedSorted(l, k, r);
    InsertedSame(l, k, r);
    hide Covers;
    forall typ: nat, a: nat ensures Covers(l', typ, a) <==> Covers(l, typ, a) || (r.typ == typ && r.Has(a)) {
      InsertedCovers(l, k, r, typ, a);
    }
  }

  lemma InsertedSorted(l: seq<Region>, k: nat, r: Region)
    requires Sorted(l) && k <= |l| && (forall i :: 0 <= i < k ==> l[i].start <= r.start)
    requires k < |l| ==> r.start < l[k].start
    ensures Sorted(l[..k] + [r] + l[k..])
  {
    var m := l[..k] + [r] + l[k..];
    forall i | 0 <= i < |m| ensures m[i] == if i < k then l[i] else if i == k then r else l[i - 1] {
    }
  }

  lemma InsertedSame(l: seq<Region>, k: nat, r: Region)
    requires k <= |l|
    ensures multiset(l[..k] + [r] + l[k..]) == multiset(l) + multiset{r}
  {
    assert l == l[..k] + l[k..];
  }

  lemma InsertedCovers(l: seq<Region>, k: nat, r: Region, typ: nat, a: nat)
    requires k <= |l|
    ensures Covers(l[..k] + [r] + l[k..], typ, a) <==> Covers(l, typ, a) || (r.typ == typ && r.Has(a))
  {
    hide Covers;
    assert l == l[..k] + l[k..];
    CoversConcat(l[..k] + [r], l[k..], typ, a);
    CoversConcat(l[..k], [r], typ, a);
    CoversConcat(l[..k], l[k..], typ, a);
    CoversOne(r, typ, a);
  }

  predicate Mergeable(r: Region, s: Region) {
    r.start <= s.start && r.end >= s.start && r.typ == s.typ
  }

  function Joined(r: Region, s: Region): (m: Region) {
    r.(end := if r.end >= s.end then r.end else s.end)
  }

  /** The first step of pmmap_merge: one pass that moves on after each merge. */
  function Merge(l: seq<Region>): (m: seq<Region>) {
    if |l| < 2 then l
    else if Mergeable(l[0], l[1]) then [Joined(l[0], l[1])] + Merge(l[2..])
    else [l[0]] + Merge(l[1..])
  }

  /** pmmap_merge on the list in place. */
  method MergeInPlace(l: seq<Region>) returns (m: seq<Region>)
    ensures m == Merge(l)
  {
    m := l;
    var i := 0;
    while i + 1 < |m|
      invariant 0 <= i <= |m|
      invariant Merge(l) == m[..i] + Merge(m[i..])
      decreases |m| - i
    {
      MergeStep(m, i);
      if Mergeable(m[i], m[i + 1]) {
        m := m[..i] + [Joined(m[i], m[i + 1])] + m[i + 2..];
      }
      i := i + 1;
    }
    assert m[..i] + Merge(m[i..]) == m;
  }

  /** One iteration: element `i` is settled, and the pass goes on behind it. */
  lemma MergeStep(m: seq<Region>, i: nat)
    requires i + 1 < |m|
    ensures var m' := if Mergeable(m[i], m[i + 1]) then m[..i] + [Joined(m[i], m[i + 1])] + m[i + 2..] else m;
            m[..i] + Merge(m[i..]) == m'[..i + 1] + Merge(m'[i + 1..])
  {
    hide Merge, Mergeable, Joined;
    MergeFrom(m, i);
    if Mergeable(m[i], m[i + 1]) {
      Replaced(m, i, Joined(m[i], m[i + 1]));
    }
  }

  lemma MergeFrom(m: seq<Region>, i: nat)
    requires i + 1 < |m|
    ensures Merge(m[i..]) == if Mergeable(m[i], m[i + 1]) then [Joined(m[i], m[i + 1])] + Merge(m[i + 2..])
                             else [m[i]] + Merge(m[i + 1..])
  {
    hide Mergeable, Joined;
    assert m[i..][2..] == m[i + 2..] && m[i..][1..] == m[i + 1..];
  }

  lemma Replaced(m: seq<Region>, i: nat, x: Region)
    requires i + 1 < |m|
    ensures (m[..i] + [x] + m[i + 2..])[..i + 1] == m[..i] + [x] && (m[..i] + [x] + m[i + 2..])[i + 1..] == m[i + 2..]
  {
  }

  lemma {:induction false} MergeCovers(l: seq<Region>, typ: nat, a: nat)
    ensures Covers(Merge(l), typ, a) <==> Covers(l, typ, a)
    decreases |l|
  {
    if |l| >= 2 {
      if Mergeable(l[0], l[1]) {
        MergeCovers(l[2..], typ, a);
        assert l == [l[0]] + [l[1]] + l[2..];
        CoversConcat([l[0]] + [l[1]], l[2..], typ, a);
        CoversConcat([l[0]], [l[1]], typ, a);
        CoversConcat([Joined(l[0], l[1])], Merge(l[2..]), typ, a);
        CoversOne(l[0], typ, a);
        CoversOne(l[1], typ, a);
        CoversOne(Joined(l[0], l[1]), typ, a);
      } else {
        MergeCovers(l[1..], typ, a);
        assert l == [l[0]] + l[1..];
        CoversConcat([l[0]], l[1..], typ, a);
        CoversConcat([l[0]], Merge(l[1..]), typ, a);
      }
    }
  }

  lemma {:induction false} MergeSorted(l: seq<Region>, lo: nat)
    requires Sorted(l) && forall i :: 0 <= i < |l| ==> lo <= l[i].start <= l[i].end <= TOP
    ensures Sorted(Merge(l)) && forall i :: 0 <= i < |Merge(l)| ==> lo <= Merge(l)[i].start <= Merge(l)[i].end <= TOP
    decreases |l|
  {
    if |l| >= 2 {
      MergeSorted(if Mergeable(l[0], l[1]) then l[2..] else l[1..], l[0].start);
    }
  }

  /** One pass may leave regions that overlap: a third one reaches into two that were joined. */
  lemma MergeOnce()
    ensures exists l :: Sorted(l) && |Merge(l)| >= 2 && Mergeable(Merge(l)[0], Merge(l)[1])
  {
    var l := [Region(0, 10, 1), Region(5, 20, 1), Region(15, 30, 1)];
    assert Merge(l[2..]) == l[2..];
    assert Merge(l) == [Region(0, 20, 1), Region(15, 30, 1)];
    assert Sorted(l);
  }

  /** Or a region of another type lies between them. */
  lemma MergeNeighbours()
    ensures exists l :: Sorted(l) && Merge(l) == l && |l| >= 3 && Mergeable(l[0], l[2])
  {
    var l := [Region(0, 20, 1), Region(5, 6, 2), Region(10, 30, 1)];
    assert Merge(l[2..]) == l[2..];
    assert l[1..][1..] == l[2..];
    assert Merge(l[1..]) == [l[1]] + Merge(l[2..]);
    assert Merge(l) == l;
    assert Sorted(l);
  }

  /** No two regions could be merged. */
  ghost predicate Settled(m: seq<Region>) {
    forall i, j :: 0 <= i < j < |m| ==> !Mergeable(m[i], m[j])
  }

  /** Regions that touch are neighbours in the list, and none touches two others. */
  ghost predicate InPairs(l: seq<Region>) {
    && (forall i, j :: 0 <= i < j < |l| && Mergeable(l[i], l[j]) ==> j == i + 1)
    && (forall i, j :: 0 <= i && j == i + 1 && j + 1 < |l| && Mergeable(l[i], l[j]) ==> !Mergeable(l[j], l[j + 1]))
  }

  ghost predicate Touches(x: Region, l: seq<Region>) {
    exists k :: 0 <= k < |l| && Mergeable(x, l[k])
  }

  lemma TouchesCons(x: Region, y: Region, l: seq<Region>)
    ensures Touches(x, [y] + l) <==> Mergeable(x, y) || Touches(x, l)
  {
    var m := [y] + l;
    if Mergeable(x, y) {
      assert Mergeable(x, m[0]);
    }
    if Touches(x, l) {
      var k :| 0 <= k < |l| && Mergeable(x, l[k]);
      assert m[k + 1] == l[k];
    }
  }

  /** What touches the merged list touches the list itself. */
  lemma {:induction false} TouchesMerged(x: Region, l: seq<Region>)
    requires Sorted(l) && (l != [] ==> x.start <= l[0].start)
    ensures Touches(x, Merge(l)) <==> Touches(x, l)
    decreases |l|
  {
    if |l| >= 2 {
      hide Touches;
      TouchesSplit(x, l);
      if Mergeable(l[0], l[1]) {
        TouchesMerged(x, l[2..]);
        TouchesCons(x, Joined(l[0], l[1]), Merge(l[2..]));
      } else {
        TouchesMerged(x, l[1..]);
        TouchesCons(x, l[0], Merge(l[1..]));
      }
    }
  }

  lemma TouchesSplit(x: Region, l: seq<Region>)
    requires |l| >= 2
    ensures Touches(x, l) <==> Mergeable(x, l[0]) || Touches(x, l[1..])
    ensures Touches(x, l[1..]) <==> Mergeable(x, l[1]) || Touches(x, l[2..])
  {
    hide Touches;
    TouchesCons(x, l[0], l[1..]);
    TouchesCons(x, l[1], l[2..]);
    assert l == [l[0]] + l[1..] && l[1..] == [l[1]] + l[2..];
  }

  lemma SettledCons(x: Region, m: seq<Region>)
    ensures Settled([x] + m) <==> Settled(m) && !Touches(x, m)
  {
    var r := [x] + m;
    if Settled(r) {
      forall i, j | 0 <= i < j < |m| ensures !Mergeable(m[i], m[j]) {
        assert r[i + 1] == m[i] && r[j + 1] == m[j];
      }
      forall k | 0 <= k < |m| ensures !Mergeable(x, m[k]) {
        assert r[0] == x && r[k + 1] == m[k];
      }
    }
  }

  /** A first region that is not joined. */
  lemma PairsAlone(l: seq<Region>)
    requires |l| >= 2 && !Mergeable(l[0], l[1])
    ensures InPairs(l) <==> InPairs(l[1..]) && !Touches(l[0], l[1..])
  {
    var m := l[1..];
    if InPairs(l) {
      forall i, j | 0 <= i < j < |m| && Mergeable(m[i], m[j]) ensures j == i + 1 {
        assert m[i] == l[i + 1] && m[j] == l[j + 1];
      }
      forall i, j | 0 <= i && j == i + 1 && j + 1 < |m| && Mergeable(m[i], m[j]) ensures !Mergeable(m[j], m[j + 1]) {
        assert m[i] == l[i + 1] && m[j] == l[j + 1] && m[j + 1] == l[j + 2];
      }
      forall k | 0 <= k < |m| ensures !Mergeable(l[0], m[k]) {
        assert m[k] == l[k + 1];
      }
    }
    if InPairs(m) && !Touches(l[0], m) {
      forall i, j | 0 <= i < j < |l| && Mergeable(l[i], l[j]) ensures j == i + 1 {
        assert l[j] == m[j - 1] && (i > 0 ==> l[i] == m[i - 1]);
      }
      forall i, j | 0 <= i && j == i + 1 && j + 1 < |l| && Mergeable(l[i], l[j]) ensures !Mergeable(l[j], l[j + 1]) {
        assert l[j] == m[j - 1] && l[j + 1] == m[j] && (i > 0 ==> l[i] == m[i - 1]);
      }
    }
  }

  /** What touches two joined regions touches one of them. */
  lemma TouchesJoined(r: Region, s: Region, l: seq<Region>)
    requires Mergeable(r, s) && forall k :: 0 <= k < |l| ==> s.start <= l[k].start
    ensures Touches(Joined(r, s), l) <==> Touches(r, l) || Touches(s, l)
  {
    if Touches(Joined(r, s), l) {
      var k :| 0 <= k < |l| && Mergeable(Joined(r, s), l[k]);
      assert Mergeable(r, l[k]) || Mergeable(s, l[k]);
    }
    if Touches(r, l) {
      var k :| 0 <= k < |l| && Mergeable(r, l[k]);
      assert Mergeable(Joined(r, s), l[k]);
    }
    if Touches(s, l) {
      var k :| 0 <= k < |l| && Mergeable(s, l[k]);
      assert Mergeable(Joined(r, s), l[k]);
    }
  }

  /** Two regions that are joined. */
  lemma PairsJoined(l: seq<Region>)
    requires Sorted(l) && |l| >= 2 && Mergeable(l[0], l[1])
    ensures InPairs(l) <==> InPairs(l[2..]) && !Touches(l[0], l[2..]) && !Touches(l[1], l[2..])
  {
    var m := l[2..];
    if InPairs(l) {
      forall i, j | 0 <= i < j < |m| && Mergeable(m[i], m[j]) ensures j == i + 1 {
        assert m[i] == l[i + 2] && m[j] == l[j + 2];
      }
      forall i, j | 0 <= i && j == i + 1 && j + 1 < |m| && Mergeable(m[i], m[j]) ensures !Mergeable(m[j], m[j + 1]) {
        assert m[i] == l[i + 2] && m[j] == l[j + 2] && m[j + 1] == l[j + 3];
      }
      forall k | 0 <= k < |m| ensures !Mergeable(l[0], m[k]) && !Mergeable(l[1], m[k]) {
        assert m[k] == l[k + 2];
      }
    }
    if InPairs(m) && !Touches(l[0], m) && !Touches(l[1], m) {
      forall i, j | 0 <= i < j < |l| && Mergeable(l[i], l[j]) ensures j == i + 1 {
        assert (j > 1 ==> l[j] == m[j - 2]) && (i > 1 ==> l[i] == m[i - 2]);
      }
      forall i, j | 0 <= i && j == i + 1 && j + 1 < |l| && Mergeable(l[i], l[j]) ensures !Mergeable(l[j], l[j + 1]) {
        assert l[j + 1] == m[j - 1] && (j > 1 ==> l[j] == m[j - 2]) && (i > 1 ==> l[i] == m[i - 2]);
      }
    }
  }

  /** One pass is enough exactly when the regions that touch come in pairs of neighbours. */
  lemma {:induction false} MergeSettles(l: seq<Region>)
    requires Sorted(l)
    ensures Settled(Merge(l)) <==> InPairs(l)
    decreases |l|
  {
    if |l| >= 2 {
      hide InPairs, Settled, Touches, Joined;
      var joined := Mergeable(l[0], l[1]);
      var x, rest := if joined then Joined(l[0], l[1]) else l[0], if joined then l[2..] else l[1..];
      MergeSettles(rest);
      JoinedStart(l[0], l[1]);
      SettledCons(x, Merge(rest));
      TouchesMerged(x, rest);
      if joined {
        PairsJoined(l);
        TouchesJoined(l[0], l[1], l[2..]);
      } else {
        PairsAlone(l);
      }
    }
  }

  lemma JoinedStart(r: Region, s: Region)
    ensures Joined(r, s).start == r.start
  {
  }

  /** The clamping of pmmap_init. */
  function Clamp(e: Entry): (r: Region) {
    Region(e.baseLow,
           if e.lengthHigh != 0 || e.lengthLow >= TOP - e.baseLow then TOP else e.baseLow + e.lengthLow,
           e.typ)
  }

  lemma ClampExact(e: Entry, a: nat)
    requires e.Ok() && e.baseHigh == 0
    ensures Clamp(e).Has(a) <==> e.Has(a) && a < TOP
    ensures Clamp(e).start <= Clamp(e).end <= TOP
    ensures Clamp(e).start == e.Base()
    ensures Clamp(e).end == if e.Base() + e.Length() < TOP then e.Base() + e.Length() else TOP
  {
  }

  /** Some region of the list has all of `r`. */
  ghost predicate Within(r: Region, l: seq<Region>) {
    exists k :: 0 <= k < |l| && l[k].typ == r.typ && l[k].start <= r.start && r.end <= l[k].end
  }

  lemma WithinCons(r: Region, x: Region, l: seq<Region>)
    ensures Within(r, [x] + l) <==> (x.typ == r.typ && x.start <= r.start && r.end <= x.end) || Within(r, l)
  {
    var m := [x] + l;
    if x.typ == r.typ && x.start <= r.start && r.end <= x.end {
      assert m[0] == x;
    }
    if Within(r, l) {
      var k :| 0 <= k < |l| && l[k].typ == r.typ && l[k].start <= r.start && r.end <= l[k].end;
      assert m[k + 1] == l[k];
    }
  }

  /** Merging tears no region apart. */
  lemma {:induction false} MergeContains(l: seq<Region>, r: Region)
    requires r in l
    ensures Within(r, Merge(l))
    decreases |l|
  {
    hide Within;
    if |l| < 2 {
      assert l == [r] + [];
      WithinCons(r, r, []);
    } else if Mergeable(l[0], l[1]) {
      WithinCons(r, Joined(l[0], l[1]), Merge(l[2..]));
      if r != l[0] && r != l[1] {
        assert r in l[2..];
        MergeContains(l[2..], r);
      }
    } else {
      WithinCons(r, l[0], Merge(l[1..]));
      if r != l[0] {
        assert r in l[1..];
        MergeContains(l[1..], r);
      }
    }
  }

  ghost predicate Ends(l: seq<Region>, end: nat) {
    exists k :: 0 <= k < |l| && l[k].end == end
  }

  /** A merged region ends where one of its regions did. */
  lemma {:induction false} MergeEnds(l: seq<Region>, k: nat)
    requires k < |Merge(l)|
    ensures Ends(l, Merge(l)[k].end)
    decreases |l|
  {
    if |l| >= 2 {
      assert Ends(l, l[0].end) && Ends(l, l[1].end);
      if k > 0 {
        var n := if Mergeable(l[0], l[1]) then 2 else 1;
        MergeEnds(l[n..], k - 1);
        var j :| 0 <= j < |l[n..]| && l[n..][j].end == Merge(l)[k].end;
        assert l[j + n] == l[n..][j];
      }
    }
  }

  /** The regions that the entries below 4 GB give, in some order. */
  ghost predicate FromEntries(es: seq<Entry>, n: nat, l: seq<Region>)
    requires n <= |es|
  {
    && (forall j: nat :: j < n && es[j].baseHigh == 0 ==> Clamp(es[j]) in l)
    && (forall k :: 0 <= k < |l| ==> ClampOf(es, n, l[k]))
  }

  ghost predicate ClampOf(es: seq<Entry>, n: nat, r: Region)
    requires n <= |es|
  {
    exists j: nat :: j < n && es[j].baseHigh == 0 && Clamp(es[j]) == r
  }

  lemma NextEntry(es: seq<Entry>, n: nat, l: seq<Region>, l': seq<Region>)
    requires n < |es| && FromEntries(es, n, l)
    requires if es[n].baseHigh == 0 then multiset(l') == multiset(l) + multiset{Clamp(es[n])} else l' == l
    ensures FromEntries(es, n + 1, l')
  {
    hide Clamp;
    forall j: nat | j < n + 1 && es[j].baseHigh == 0 ensures Clamp(es[j]) in l' {
      assert j < n ==> Clamp(es[j]) in multiset(l);
      assert Clamp(es[j]) in multiset(l');
    }
    forall k | 0 <= k < |l'| ensures ClampOf(es, n + 1, l'[k]) {
      assert l'[k] in multiset(l');
      if !(es[n].baseHigh == 0 && l'[k] == Clamp(es[n])) {
        assert l'[k] in multiset(l);
        var i :| 0 <= i < |l| && l[i] == l'[k];
        assert ClampOf(es, n, l[i]);
      }
    }
  }

  /** Every entry lies in one region, up to the last byte of 4 GB, and every region ends where an entry does. */
  ghost predicate Faithful(es: seq<Entry>, l: seq<Region>) {
    && (forall j: nat :: j < |es| && es[j].baseHigh == 0 ==> Within(Clamp(es[j]), l))
    && (forall k :: 0 <= k < |l| ==> EntryEnds(es, l[k].end))
  }

  ghost predicate EntryEnds(es: seq<Entry>, end: nat) {
    exists j: nat :: j < |es| && es[j].baseHigh == 0 && Clamp(es[j]).end == end
  }

  lemma MergeFaithful(es: seq<Entry>, l: seq<Region>)
    requires FromEntries(es, |es|, l)
    ensures Faithful(es, Merge(l))
  {
    hide Clamp, Within;
    forall j: nat | j < |es| && es[j].baseHigh == 0 ensures Within(Clamp(es[j]), Merge(l)) {
      MergeContains(l, Clamp(es[j]));
    }
    forall k | 0 <= k < |Merge(l)| ensures EntryEnds(es, Merge(l)[k].end) {
      MergeEnds(l, k);
      var i :| 0 <= i < |l| && l[i].end == Merge(l)[k].end;
      assert ClampOf(es, |es|, l[i]);
    }
  }

  /** pmmap_init: the region list says exactly what the firmware reported below the last byte of 4 GB. */
  method PmmapInit(es: seq<Entry>) returns (l: seq<Region>)
    requires forall i :: 0 <= i < |es| ==> es[i].Ok()
    ensures Sorted(l) && forall i :: 0 <= i < |l| ==> l[i].start <= l[i].end <= TOP
    ensures forall typ: nat, a: nat :: Covers(l, typ, a) <==> Reported(es, typ, a) && a < TOP
    ensures Faithful(es, l)
  {
    hide Faithful, FromEntries;
    NoEntries(es);
    l := [];
    var i := 0;
    while i < |es|
      invariant 0 <= i <= |es| && Sorted(l) && forall k :: 0 <= k < |l| ==> l[k].start <= l[k].end <= TOP
      invariant forall typ: nat, a: nat :: Covers(l, typ, a) <==> Reported(es[..i], typ, a) && a < TOP
      invariant FromEntries(es, i, l)
    {
      ghost var before := l;
      if es[i].baseHigh == 0 {
        l := InsertRegion(l, Clamp(es[i]));
      }
      forall typ: nat, a: nat ensures Covers(l, typ, a) <==> Reported(es[..i + 1], typ, a) && a < TOP {
        ReportedNext(es, i, typ, a);
        if es[i].baseHigh == 0 {
          ClampExact(es[i], a);
        }
      }
      NextEntry(es, i, before, l);
      i := i + 1;
    }
    assert es[..i] == es;
    ghost var all := l;
    MergeFaithful(es, all);
    l := MergeInPlace(l);
    MergeSorted(all, 0);
    forall typ: nat, a: nat ensures Covers(l, typ, a) <==> Covers(all, typ, a) {
      MergeCovers(all, typ, a);
    }
  }

  lemma NoEntries(es: seq<Entry>)
    ensures FromEntries(es, 0, [])
  {
  }

  method InsertRegion(l: seq<Region>, r: Region) returns (l': seq<Region>)
    requires Sorted(l) && r.start <= r.end <= TOP && forall k :: 0 <= k < |l| ==> l[k].start <= l[k].end <= TOP
    ensures multiset(l') == multiset(l) + multiset{r}
    ensures Sorted(l') && forall k :: 0 <= k < |l'| ==> l'[k].start <= l'[k].end <= TOP
    ensures forall typ: nat, a: nat :: Covers(l', typ, a) <==> Covers(l, typ, a) || (r.typ == typ && r.Has(a))
  {
    l' := Insert(l, r);
    forall k | 0 <= k < |l'| ensures l'[k].start <= l'[k].end <= TOP {
      assert l'[k] in multiset(l');
    }
  }

  lemma ReportedNext(es: seq<Entry>, i: nat, typ: nat, a: nat)
    requires i < |es|
    ensures Reported(es[..i + 1], typ, a) <==> Reported(es[..i], typ, a) || (es[i].typ == typ && es[i].Has(a))
  {
    var x, y := es[..i], es[..i + 1];
    if Reported(x, typ, a) {
      var k :| 0 <= k < |x| && x[k].typ == typ && x[k].Has(a);
      assert y[k] == x[k];
    }
    assert y[i] == es[i];
    if Reported(y, typ, a) {
      var k :| 0 <= k < |y| && y[k].typ == typ && y[k].Has(a);
      assert k < i ==> x[k] == y[k];
    }
  }

  /** The page lies in the region as a whole. */
  predicate Inside(r: Region, pg: nat) {
    r.start <= pg * PAGESIZE && (pg + 1) * PAGESIZE <= r.end
  }

  /** Every byte of the page was reported as RAM. */
  ghost predicate RamPage(es: seq<Entry>, pg: nat) {
    forall a: nat :: pg * PAGESIZE <= a < (pg + 1) * PAGESIZE ==> Reported(es, MEM_RAM, a)
  }

  /** One entry, of RAM, has the whole page, and no entry of another type has a byte of it. */
  ghost predicate WholeRam(es: seq<Entry>, i: nat, pg: nat) {
    && i < |es| && es[i].typ == 1
    && es[i].baseLow + 0x1_0000_0000 * es[i].baseHigh <= 4096 * pg
    && 4096 * pg + 4096 <= es[i].baseLow + es[i].lengthLow + 0x1_0000_0000 * (es[i].baseHigh + es[i].lengthHigh)
    && forall j: nat :: j < |es| && es[j].typ != 1 ==>
         || 4096 * pg + 4096 <= es[j].baseLow + 0x1_0000_0000 * es[j].baseHigh
         || es[j].baseLow + es[j].lengthLow + 0x1_0000_0000 * (es[j].baseHigh + es[j].lengthHigh) <= 4096 * pg
  }

  /** Such a page is found in a region, and every region that it is found in is RAM. */
  lemma WholeIsFirst(es: seq<Entry>, l: seq<Region>, i: nat, pg: nat)
    requires (forall i :: 0 <= i < |es| ==> es[i].Ok()) && Faithful(es, l) && WholeRam(es, i, pg) && pg < USERHI
    requires forall typ: nat, a: nat :: Covers(l, typ, a) <==> Reported(es, typ, a) && a < TOP
    ensures FirstIsRam(l, pg) && exists k :: 0 <= k < |l| && Inside(l[k], pg)
  {
    hide WholeRam, Faithful, Covers, Inside;
    var k := RegionOf(es, l, i, pg);
    forall j | 0 <= j < |l| && Inside(l[j], pg) ensures l[j].typ == 1 {
      OnlyRam(es, l, j, i, pg);
    }
    FirstInside(l, k, pg);
  }

  lemma RegionOf(es: seq<Entry>, l: seq<Region>, i: nat, pg: nat) returns (k: nat)
    requires (forall i :: 0 <= i < |es| ==> es[i].Ok()) && Faithful(es, l) && WholeRam(es, i, pg) && pg < USERHI
    ensures k < |l| && Inside(l[k], pg)
  {
    ClampWhole(es[i], pg);
    hide WholeRam, Clamp;
    var r := Clamp(es[i]);
    assert Within(r, l);
    k :| k < |l| && l[k].typ == r.typ && l[k].start <= r.start && r.end <= l[k].end;
  }

  lemma ClampWhole(e: Entry, pg: nat)
    requires e.Ok() && pg < USERHI && e.baseLow + 0x1_0000_0000 * e.baseHigh <= 4096 * pg
    requires 4096 * pg + 4096 <= e.baseLow + e.lengthLow + 0x1_0000_0000 * (e.baseHigh + e.lengthHigh)
    ensures e.baseHigh == 0 && Inside(Clamp(e), pg)
  {
  }

  lemma OnlyRam(es: seq<Entry>, l: seq<Region>, j: nat, i: nat, pg: nat)
    requires j < |l| && Inside(l[j], pg) && WholeRam(es, i, pg) && pg < USERHI
    requires forall typ: nat, a: nat :: Covers(l, typ, a) <==> Reported(es, typ, a) && a < TOP
    ensures l[j].typ == 1
  {
    assert l[j].Has(4096 * pg);
    assert Covers(l, l[j].typ, 4096 * pg);
    assert Reported(es, l[j].typ, 4096 * pg);
  }

  /** No byte of the page was reported as anything but RAM. */
  ghost predicate Unmixed(es: seq<Entry>, pg: nat) {
    forall typ: nat, a: nat :: 4096 * pg <= a < 4096 * pg + 4096 && Reported(es, typ, a) ==> typ == 1
  }

  /** Where no two regions touch, a page of RAM lies in one region, however many entries it was reported in. */
  lemma SettledIsFirst(es: seq<Entry>, l: seq<Region>, pg: nat)
    requires Sorted(l) && Settled(l) && RamPage(es, pg) && Unmixed(es, pg) && pg < USERHI
    requires forall typ: nat, a: nat :: Covers(l, typ, a) <==> Reported(es, typ, a) && a < TOP
    ensures FirstIsRam(l, pg) && exists k :: 0 <= k < |l| && Inside(l[k], pg)
  {
    hide Reported, Sorted, Settled;
    var a := pg * PAGESIZE;
    assert Covers(l, 1, a);
    var k :| 0 <= k < |l| && l[k].typ == 1 && l[k].Has(a);
    assert Inside(l[k], pg) by {
      var e := l[k].end;
      if e < a + PAGESIZE {
        assert Covers(l, 1, e);
        var j :| 0 <= j < |l| && l[j].typ == 1 && l[j].Has(e);
        NoTouch(l, k, j);
      }
    }
    forall j: nat | j < |l| && Inside(l[j], pg) ensures l[j].typ == 1 {
      assert l[j].Has(a);
      assert Covers(l, l[j].typ, a);
    }
    FirstInside(l, k, pg);
  }

  /** A region of a settled list is followed by no other of its type. */
  lemma NoTouch(l: seq<Region>, k: nat, j: nat)
    requires Sorted(l) && Settled(l) && k < |l| && j < |l| && l[k].start < l[k].end && l[j].typ == l[k].typ
    ensures !l[j].Has(l[k].end)
  {
    assert l[j].Has(l[k].end) ==> Mergeable(l[k], l[j]) || Mergeable(l[j], l[k]);
  }

  lemma {:induction false} FirstInside(l: seq<Region>, k: nat, pg: nat)
    requires k < |l| && Inside(l[k], pg) && forall j :: 0 <= j < |l| && Inside(l[j], pg) ==> l[j].typ == 1
    ensures FirstIsRam(l, pg)
    decreases k
  {
    hide Inside;
    if j: nat :| j < k && Inside(l[j], pg) {
      FirstInside(l, j, pg);
    }
  }

  /** The first region that contains the whole page is RAM. */
  ghost predicate FirstIsRam(l: seq<Region>, pg: nat) {
    exists i :: 0 <= i < |l| && l[i].typ == MEM_RAM && Inside(l[i], pg) && forall j :: 0 <= j < i ==> !Inside(l[j], pg)
  }

  /** The inner loop of pmem_init. */
  method Usable(l: seq<Region>, pg: nat) returns (ok: bool)
    ensures ok <==> FirstIsRam(l, pg)
  {
    var i, flag, norm := 0, false, false;
    while i < |l| && !flag
      invariant 0 <= i <= |l|
      invariant !flag ==> forall j :: 0 <= j < i ==> !Inside(l[j], pg)
      invariant flag ==> i > 0 && Inside(l[i - 1], pg) && norm == (l[i - 1].typ == MEM_RAM)
      invariant flag ==> forall j :: 0 <= j < i - 1 ==> !Inside(l[j], pg)
    {
      norm := l[i].typ == MEM_RAM;
      if Inside(l[i], pg) {
        flag := true;
      }
      i := i + 1;
    }
    ok := flag && norm;
  }

  /** The number of whole pages below the end of the highest region. */
  ghost predicate IsPageCount(l: seq<Region>, nps: nat) {
    && (forall i :: 0 <= i < |l| ==> l[i].end / PAGESIZE <= nps)
    && (nps == 0 || exists i :: 0 <= i < |l| && l[i].end / PAGESIZE == nps)
  }

  /** The first loop of pmem_init: the number of pages below the highest address. */
  method CountPages(l: seq<Region>) returns (nps: nat)
    requires forall i :: 0 <= i < |l| ==> l[i].start <= l[i].end <= TOP
    ensures nps <= NPAGES && IsPageCount(l, nps)
    ensures forall i, pg: nat :: 0 <= i < |l| && Inside(l[i], pg) ==> pg < nps
  {
    var top, i := 0, 0;
    while i < |l|
      invariant 0 <= i <= |l| && 0 <= top <= TOP
      invariant forall k :: 0 <= k < i ==> l[k].end <= top
      invariant top == 0 || exists k :: 0 <= k < i && l[k].end == top
    {
      var cur := l[i].start + (l[i].end - l[i].start);
      if top < cur {
        top := cur;
      }
      i := i + 1;
    }
    nps := top / PAGESIZE;
    if top != 0 {
      var k :| 0 <= k < |l| && l[k].end == top;
      assert l[k].end / PAGESIZE == nps;
    }
    forall i, pg: nat | 0 <= i < |l| && Inside(l[i], pg) ensures pg < nps {
      assert pg + 1 <= top / PAGESIZE by {
        assert (pg + 1) * PAGESIZE <= top;
      }
    }
  }

  /** What pmem_init records for page `pg`. */
  ghost predicate PermOk(l: seq<Region>, nps: nat, pg: nat, perm: nat) {
    perm == if pg >= nps then 0 else if !(USERLO <= pg < USERHI) then 1 else if FirstIsRam(l, pg) then 2 else 0
  }

  /** How many whole pages there are below the highest end of an entry, or below 4 GB. */
  ghost predicate HighestEnd(es: seq<Entry>, nps: nat) {
    && (forall j :: 0 <= j < |es| && es[j].baseHigh == 0 ==> EndPage(es[j]) <= nps)
    && (nps == 0 || exists j :: 0 <= j < |es| && es[j].baseHigh == 0 && EndPage(es[j]) == nps)
  }

  function EndPage(e: Entry): (n: nat) {
    var end := e.baseLow + e.lengthLow + 0x1_0000_0000 * (e.baseHigh + e.lengthHigh);
    (if end < 0xFFFF_FFFF then end else 0xFFFF_FFFF) / 4096
  }

  lemma CountIs(es: seq<Entry>, l: seq<Region>, nps: nat)
    requires (forall i :: 0 <= i < |es| ==> es[i].Ok()) && Faithful(es, l) && IsPageCount(l, nps)
    ensures HighestEnd(es, nps)
  {
    hide Clamp, EndPage, Entry.Ok, Within;
    forall j: nat | j < |es| && es[j].baseHigh == 0 ensures EndPage(es[j]) <= nps {
      EndIs(es[j]);
      EndCounted(l, nps, Clamp(es[j]));
    }
    if nps != 0 {
      var k :| 0 <= k < |l| && l[k].end / PAGESIZE == nps;
      assert EntryEnds(es, l[k].end);
      var j: nat :| j < |es| && es[j].baseHigh == 0 && Clamp(es[j]).end == l[k].end;
      EndIs(es[j]);
    }
  }

  lemma EndCounted(l: seq<Region>, nps: nat, r: Region)
    requires IsPageCount(l, nps) && Within(r, l)
    ensures r.end / PAGESIZE <= nps
  {
    var k :| 0 <= k < |l| && l[k].typ == r.typ && l[k].start <= r.start && r.end <= l[k].end;
    PagesLe(r.end, l[k].end);
  }

  lemma EndIs(e: Entry)
    requires e.Ok() && e.baseHigh == 0
    ensures EndPage(e) == Clamp(e).end / PAGESIZE
  {
    ClampExact(e, 0);
  }

  /** A user page that one RAM entry has, and no other entry has a part of, is normal memory. */
  lemma WholeIsUsable(es: seq<Entry>, l: seq<Region>, nps: nat, perm: seq<nat>, i: nat, pg: nat)
    requires (forall i :: 0 <= i < |es| ==> es[i].Ok()) && Faithful(es, l) && WholeRam(es, i, pg)
    requires forall typ: nat, a: nat :: Covers(l, typ, a) <==> Reported(es, typ, a) && a < TOP
    requires forall i, pg: nat :: 0 <= i < |l| && Inside(l[i], pg) ==> pg < nps
    requires USERLO <= pg < USERHI && |perm| == NPAGES && PermOk(l, nps, pg, perm[pg])
    ensures perm[pg] == 2
  {
    hide WholeRam, Faithful, Covers, Reported, Inside, FirstIsRam;
    WholeIsFirst(es, l, i, pg);
  }

  lemma RamIsUsable(es: seq<Entry>, l: seq<Region>, nps: nat, perm: seq<nat>, pg: nat)
    requires Sorted(l) && Settled(l) && RamPage(es, pg) && Unmixed(es, pg)
    requires forall typ: nat, a: nat :: Covers(l, typ, a) <==> Reported(es, typ, a) && a < TOP
    requires forall i, pg: nat :: 0 <= i < |l| && Inside(l[i], pg) ==> pg < nps
    requires USERLO <= pg < USERHI && |perm| == NPAGES && PermOk(l, nps, pg, perm[pg])
    ensures perm[pg] == 2
  {
    hide Sorted, Settled, RamPage, Unmixed, Covers, Reported, Inside, FirstIsRam;
    SettledIsFirst(es, l, pg);
  }

  /**
    pmem_init: kernel pages get permission 1, user pages 2 if the first region that contains the page
    is RAM and 0 otherwise.  A page with permission 2 is RAM according to the firmware, byte by byte, and a
    user page that lies in one RAM entry and in no entry of another type gets permission 2; so does, if
    merging has left no regions that touch, every user page that was reported as RAM and nothing else.
   */
  method PmemInit(es: seq<Entry>) returns (l: seq<Region>, nps: nat, perm: seq<nat>)
    requires forall i :: 0 <= i < |es| ==> es[i].Ok()
    ensures Sorted(l) && forall typ: nat, a: nat :: Covers(l, typ, a) <==> Reported(es, typ, a) && a < TOP
    ensures |perm| == NPAGES && nps <= NPAGES && IsPageCount(l, nps)
    ensures forall pg :: 0 <= pg < NPAGES ==> PermOk(l, nps, pg, perm[pg])
    ensures HighestEnd(es, nps)
    ensures forall pg :: 0 <= pg < NPAGES && perm[pg] > 1 ==> 0x4_0000 <= pg < 0xF_0000 && RamPage(es, pg)
    ensures forall pg: nat, i: nat :: 0x4_0000 <= pg < 0xF_0000 && WholeRam(es, i, pg) ==> perm[pg] == 2
    ensures Settled(l) ==>
              forall pg: nat :: 0x4_0000 <= pg < 0xF_0000 && RamPage(es, pg) && Unmixed(es, pg) ==> perm[pg] == 2
    ensures forall pg :: 0 <= pg < NPAGES ==> (perm[pg] == 1 <==> pg < nps && (pg < 0x4_0000 || 0xF_0000 <= pg))
  {
    hide Covers, Reported, Inside, FirstIsRam, IsPageCount, RamPage, Faithful, WholeRam, HighestEnd;
    hide Settled, Unmixed, Sorted;
    l := PmmapInit(es);
    nps := CountPages(l);
    perm := seq(NPAGES, _ => 0);
    var pg := 0;
    while pg < nps
      invariant 0 <= pg <= nps && |perm| == NPAGES
      invariant forall k :: 0 <= k < NPAGES ==> PermOk(l, if pg < nps then pg else nps, k, perm[k])
      invariant forall k :: 0 <= k < NPAGES && perm[k] > 1 ==> RamPage(es, k)
    {
      if pg < USERLO || USERHI <= pg {
        perm := perm[pg := 1];
      } else {
        var ok := Usable(l, pg);
        if ok {
          RamFromRegion(es, l, pg);
        }
        perm := perm[pg := if ok then 2 else 0];
      }
      pg := pg + 1;
    }
    CountIs(es, l, nps);
    forall pg: nat, i: nat | 0x4_0000 <= pg < 0xF_0000 && WholeRam(es, i, pg) ensures perm[pg] == 2 {
      WholeIsUsable(es, l, nps, perm, i, pg);
    }
    if Settled(l) {
      forall pg: nat | 0x4_0000 <= pg < 0xF_0000 && RamPage(es, pg) && Unmixed(es, pg) ensures perm[pg] == 2 {
        RamIsUsable(es, l, nps, perm, pg);
      }
    }
  }

  lemma RamFromRegion(es: seq<Entry>, l: seq<Region>, pg: nat)
    requires forall typ: nat, a: nat :: Covers(l, typ, a) <==> Reported(es, typ, a) && a < TOP
    requires FirstIsRam(l, pg)
    ensures RamPage(es, pg)
  {
    var i :| 0 <= i < |l| && l[i].typ == MEM_RAM && Inside(l[i], pg);
    forall a: nat | pg * PAGESIZE <= a < (pg + 1) * PAGESIZE ensures Reported(es, MEM_RAM, a) {
      assert l[i].Has(a);
      assert Covers(l, MEM_RAM, a);
    }
  }

  lemma NormalBounded(perm: seq<nat>)
    requires |perm| == NPAGES
    ensures |Normal(perm)| <= INT_MAX
  {
    RangeSize(Normal(perm), USERLO, USERHI);
  }

  /**
    Boot: every page the allocator can ever return lies wholly in memory that was reported as RAM, user pages
    that lie in one RAM entry and in no other are among them, and the root container's quota is their number.
   */
  method Boot(es: seq<Entry>) returns (pmm: Pmm)
    requires forall i :: 0 <= i < |es| ==> es[i].Ok()
    ensures fresh(pmm) && pmm.Valid() && pmm.own == map[]
    ensures forall pg :: pg in Normal(pmm.perm) ==> USERLO <= pg < USERHI && RamPage(es, pg)
    ensures forall pg: nat, i: nat :: 0x4_0000 <= pg < 0xF_0000 && WholeRam(es, i, pg) ==> pg in Normal(pmm.perm)
    ensures pmm.cont[0] == Container(|Normal(pmm.perm)|, 0, 0, 0, true)
  {
    var l, nps, perm := PmemInit(es);
    NormalBounded(perm);
    pmm := new Pmm(nps, perm);
  }
}
