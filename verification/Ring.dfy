/**
  The doubly linked ring of buffer headers, as index-valued `prev` and `next`
  fields.  `cyc` lists the nodes in `next` order, starting at the list head.
 */
module Ring {
  import opened Collections

  ghost predicate IsRing(prev: seq<nat>, next: seq<nat>, cyc: seq<nat>) {
    && |prev| == |next| && |cyc| > 0
    && (forall i :: 0 <= i < |cyc| ==> cyc[i] < |next|)
    && Distinct(cyc)
    && (forall i :: 0 <= i < |cyc| - 1 ==> next[cyc[i]] == cyc[i + 1])
    && (forall i :: 0 < i < |cyc| ==> prev[cyc[i]] == cyc[i - 1])
    && next[cyc[|cyc| - 1]] == cyc[0]
    && prev[cyc[0]] == cyc[|cyc| - 1]
  }

  ghost function PushedFront(cyc: seq<nat>, b: nat): (r: seq<nat>)
    requires |cyc| > 0
  {
    [cyc[0], b] + cyc[1..]
  }

  /** Taken out and put in front, the others in their order. */
  lemma MovedFront(cyc: seq<nat>, k: nat)
    requires 1 <= k < |cyc|
    ensures PushedFront(Without(cyc, k), cyc[k]) == [cyc[0], cyc[k]] + cyc[1..k] + cyc[k + 1..]
  {
    assert Without(cyc, k)[1..] == cyc[1..k] + cyc[k + 1..];
  }

  lemma PushedFrontMembers(cyc: seq<nat>, b: nat)
    requires |cyc| > 0
    ensures forall x :: x in PushedFront(cyc, b) <==> x in cyc || x == b
  {
    var r := PushedFront(cyc, b);
    assert r[1] == b;
    forall x | x in cyc ensures x in r {
      var i :| 0 <= i < |cyc| && cyc[i] == x;
      assert r[if i == 0 then 0 else i + 1] == x;
    }
  }

  /** Unlinking a node other than the head leaves the ring of the others. */
  lemma Unlink(prev: seq<nat>, next: seq<nat>, cyc: seq<nat>, k: nat)
    requires IsRing(prev, next, cyc) && 0 < k < |cyc|
    ensures var b := cyc[k]; b < |next| && next[b] < |next| && prev[b] < |next|
    ensures var b := cyc[k];
            IsRing(prev[next[b] := prev[b]], next[prev[b] := next[b]], Without(cyc, k))
  {
    var b, r := cyc[k], Without(cyc, k);
    WithoutDistinct(cyc, k);
    assert prev[b] == cyc[k - 1];
    assert next[b] == if k + 1 < |cyc| then cyc[k + 1] else cyc[0];
    assert forall i :: 0 <= i < |r| ==> r[i] == if i < k then cyc[i] else cyc[i + 1];
    UnlinkNext(prev, next, cyc, k);
    UnlinkPrev(prev, next, cyc, k);
  }

  lemma UnlinkNext(prev: seq<nat>, next: seq<nat>, cyc: seq<nat>, k: nat)
    requires IsRing(prev, next, cyc) && 0 < k < |cyc|
    ensures var r, next' := Without(cyc, k), next[cyc[k - 1] := next[cyc[k]]];
            (forall i :: 0 <= i < |r| ==> r[i] < |next|)
            && (forall i :: 0 <= i < |r| - 1 ==> next'[r[i]] == r[i + 1]) && next'[r[|r| - 1]] == r[0]
  {
    var r, next' := Without(cyc, k), next[cyc[k - 1] := next[cyc[k]]];
    assert forall i :: 0 <= i < |r| ==> r[i] == if i < k then cyc[i] else cyc[i + 1];
    forall i | 0 <= i < |r| - 1 ensures next'[r[i]] == r[i + 1] {
      assert i != k - 1 ==> r[i] != cyc[k - 1];
    }
  }

  lemma UnlinkPrev(prev: seq<nat>, next: seq<nat>, cyc: seq<nat>, k: nat)
    requires IsRing(prev, next, cyc) && 0 < k < |cyc|
    ensures var r, n := Without(cyc, k), if k + 1 < |cyc| then cyc[k + 1] else cyc[0];
            var prev' := prev[n := prev[cyc[k]]];
            (forall i :: 0 <= i < |r| ==> r[i] < |prev|)
            && (forall i :: 0 < i < |r| ==> prev'[r[i]] == r[i - 1]) && prev'[r[0]] == r[|r| - 1]
  {
    var r, n := Without(cyc, k), if k + 1 < |cyc| then cyc[k + 1] else cyc[0];
    var prev' := prev[n := prev[cyc[k]]];
    assert forall i :: 0 <= i < |r| ==> r[i] == if i < k then cyc[i] else cyc[i + 1];
    forall i | 0 < i < |r| ensures prev'[r[i]] == r[i - 1] {
    }
  }

  /** Linking a node that is not in the ring just after the head. */
  lemma PushFront(prev: seq<nat>, next: seq<nat>, cyc: seq<nat>, b: nat)
    requires IsRing(prev, next, cyc) && b < |next| && b !in cyc
    ensures var h := cyc[0]; h < |next| && next[h] < |next|
    ensures var h := cyc[0];
            IsRing(prev[b := h][next[h] := b], next[b := next[h]][h := b], PushedFront(cyc, b))
  {
    var h, r := cyc[0], PushedFront(cyc, b);
    assert next[h] == if |cyc| > 1 then cyc[1] else h;
    assert forall i :: 0 <= i < |r| ==> r[i] == if i == 0 then h else if i == 1 then b else cyc[i - 1];
    assert Distinct(r);
    PushNext(next, cyc, b, r);
    PushPrev(prev, next, cyc, b, r);
  }

  lemma PushNext(next: seq<nat>, cyc: seq<nat>, b: nat, r: seq<nat>)
    requires |cyc| > 0 && Distinct(cyc) && b !in cyc && b < |next| && r == PushedFront(cyc, b)
    requires forall i :: 0 <= i < |cyc| ==> cyc[i] < |next|
    requires forall i :: 0 <= i < |cyc| - 1 ==> next[cyc[i]] == cyc[i + 1]
    requires next[cyc[|cyc| - 1]] == cyc[0]
    ensures var h := cyc[0];
            var next' := next[b := next[h]][h := b];
            && (forall i :: 0 <= i < |r| ==> r[i] < |next|)
            && (forall i :: 0 <= i < |r| - 1 ==> next'[r[i]] == r[i + 1]) && next'[r[|r| - 1]] == r[0]
  {
    assert forall i :: 2 <= i < |r| ==> r[i] == cyc[i - 1];
  }

  lemma PushPrev(prev: seq<nat>, next: seq<nat>, cyc: seq<nat>, b: nat, r: seq<nat>)
    requires IsRing(prev, next, cyc) && b < |next| && b !in cyc && r == PushedFront(cyc, b)
    ensures var h := cyc[0];
            var prev' := prev[b := h][(if |cyc| > 1 then cyc[1] else h) := b];
            && (forall i :: 0 <= i < |r| ==> r[i] < |prev|)
            && (forall i :: 0 < i < |r| ==> prev'[r[i]] == r[i - 1]) && prev'[r[0]] == r[|r| - 1]
  {
    assert forall i :: 2 <= i < |r| ==> r[i] == cyc[i - 1];
  }
}
