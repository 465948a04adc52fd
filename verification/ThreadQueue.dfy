/**
  The index-linked thread queues of kern/thread/PTQueueInit: `prev` and `next` are the
  TCB fields, `head` and `tail` those of the queues, and NUM_IDS is the null index.
 */
module ThreadQueue {
  import opened Collections
  import Quota

  const NUM_IDS: nat := Quota.NUM_IDS
  const NUM_CPUS: nat := 8
  const NQUEUES: nat := NUM_IDS + NUM_CPUS

  ghost function After(s: seq<nat>, i: nat): (x: nat) { if i + 1 < |s| then s[i + 1] else NUM_IDS }

  ghost function Before(s: seq<nat>, i: nat): (x: nat) { if 0 < i <= |s| then s[i - 1] else NUM_IDS }

  ghost predicate NodeOk(prev: seq<nat>, next: seq<nat>, s: seq<nat>, i: nat)
    requires |prev| == NUM_IDS && |next| == NUM_IDS && i < |s|
  {
    s[i] < NUM_IDS && next[s[i]] == After(s, i) && prev[s[i]] == Before(s, i)
  }

  /** `s` is threaded through prev and next from `h` to `t`. */
  ghost predicate Linked(prev: seq<nat>, next: seq<nat>, h: nat, t: nat, s: seq<nat>)
    requires |prev| == NUM_IDS && |next| == NUM_IDS
  {
    && Distinct(s) && (forall i: nat :: i < |s| ==> NodeOk(prev, next, s, i))
    && h == (if s == [] then NUM_IDS else s[0])
    && t == (if s == [] then NUM_IDS else s[|s| - 1])
  }

  /** home[pid] is the queue that pid is in, or NQUEUES. */
  ghost predicate HomeOk(s: seq<nat>, home: seq<nat>, c: nat)
    requires |home| == NUM_IDS
  {
    forall pid :: 0 <= pid < NUM_IDS ==> (home[pid] == c <==> pid in s)
  }

  ghost predicate QueueOk(prev: seq<nat>, next: seq<nat>, head: seq<nat>, tail: seq<nat>, q: seq<seq<nat>>,
                          home: seq<nat>, c: nat)
    requires |prev| == NUM_IDS && |next| == NUM_IDS && |home| == NUM_IDS
    requires |head| == NQUEUES && |tail| == NQUEUES && |q| == NQUEUES && c < NQUEUES
  {
    Linked(prev, next, head[c], tail[c], q[c]) && HomeOk(q[c], home, c)
  }

  ghost predicate AllOk(prev: seq<nat>, next: seq<nat>, head: seq<nat>, tail: seq<nat>, q: seq<seq<nat>>,
                        home: seq<nat>) {
    && |prev| == NUM_IDS && |next| == NUM_IDS && |home| == NUM_IDS
    && |head| == NQUEUES && |tail| == NQUEUES && |q| == NQUEUES
    && (forall c :: 0 <= c < NQUEUES ==> QueueOk(prev, next, head, tail, q, home, c))
  }

  /** The queues are disjoint and hold nobody twice. */
  lemma QueuesDisjoint(prev: seq<nat>, next: seq<nat>, head: seq<nat>, tail: seq<nat>, q: seq<seq<nat>>, home: seq<nat>,
                       c: nat, i: nat, c': nat, i': nat)
    requires AllOk(prev, next, head, tail, q, home)
    requires c < NQUEUES && c' < NQUEUES && i < |q[c]| && i' < |q[c']| && q[c][i] == q[c'][i']
    ensures c == c' && i == i'
  {
    assert QueueOk(prev, next, head, tail, q, home, c) && QueueOk(prev, next, head, tail, q, home, c');
    assert NodeOk(prev, next, q[c], i) && q[c][i] in q[c] && q[c'][i'] in q[c'];
  }

  /** A queue none of whose members' links changed is still there. */
  lemma LinkedFrame(prev: seq<nat>, next: seq<nat>, prev': seq<nat>, next': seq<nat>, h: nat, t: nat, s: seq<nat>)
    requires |prev| == NUM_IDS && |next| == NUM_IDS && |prev'| == NUM_IDS && |next'| == NUM_IDS
    requires Linked(prev, next, h, t, s)
    requires forall x :: x in s && x < NUM_IDS ==> prev'[x] == prev[x] && next'[x] == next[x]
    ensures Linked(prev', next', h, t, s)
  {
    forall i: nat | i < |s| ensures NodeOk(prev', next', s, i) {
      assert NodeOk(prev, next, s, i) && s[i] in s;
    }
  }

  lemma Appended(prev: seq<nat>, next: seq<nat>, h: nat, t: nat, s: seq<nat>, pid: nat)
    requires |prev| == NUM_IDS && |next| == NUM_IDS && Linked(prev, next, h, t, s) && pid < NUM_IDS && pid !in s
    ensures t == NUM_IDS ==> s == [] && Linked(prev[pid := NUM_IDS], next[pid := NUM_IDS], pid, pid, s + [pid])
    ensures t != NUM_IDS ==>
              t < NUM_IDS && s != [] && Linked(prev[pid := t], next[t := pid][pid := NUM_IDS], h, pid, s + [pid])
  {
    if s != [] {
      var r := s + [pid];
      assert NodeOk(prev, next, s, |s| - 1);
      var prev', next' := prev[pid := t], next[t := pid][pid := NUM_IDS];
      forall i: nat | i < |r| ensures NodeOk(prev', next', r, i) {
        if i < |s| {
          assert NodeOk(prev, next, s, i) && s[i] in s && (i < |s| - 1 ==> s[i] != s[|s| - 1]);
        }
      }
    }
  }

  lemma Neighbours(prev: seq<nat>, next: seq<nat>, h: nat, t: nat, s: seq<nat>, k: nat)
    requires |prev| == NUM_IDS && |next| == NUM_IDS && Linked(prev, next, h, t, s) && k < |s|
    ensures s[k] < NUM_IDS && prev[s[k]] == Before(s, k) && next[s[k]] == After(s, k)
    ensures Before(s, k) != NUM_IDS <==> k > 0
    ensures After(s, k) != NUM_IDS <==> k + 1 < |s|
    ensures k > 0 ==> Before(s, k) != s[k] && Before(s, k) != After(s, k) && Before(s, k) < NUM_IDS
    ensures k + 1 < |s| ==> After(s, k) != s[k] && After(s, k) < NUM_IDS
  {
    assert NodeOk(prev, next, s, k);
    if k > 0 {
      assert NodeOk(prev, next, s, k - 1);
    }
    if k + 1 < |s| {
      assert NodeOk(prev, next, s, k + 1);
    }
  }

  ghost function JoinedPrev(prev: seq<nat>, pid: nat, a: nat, b: nat): (r: seq<nat>)
    requires |prev| == NUM_IDS && pid < NUM_IDS && b <= NUM_IDS
  {
    (if b == NUM_IDS then prev else prev[b := a])[pid := NUM_IDS]
  }

  ghost function JoinedNext(next: seq<nat>, pid: nat, a: nat, b: nat): (r: seq<nat>)
    requires |next| == NUM_IDS && pid < NUM_IDS && a <= NUM_IDS
  {
    (if a == NUM_IDS then next else next[a := b])[pid := NUM_IDS]
  }

  lemma JoinedNode(prev: seq<nat>, next: seq<nat>, h: nat, t: nat, s: seq<nat>, k: nat, i: nat)
    requires |prev| == NUM_IDS && |next| == NUM_IDS && Linked(prev, next, h, t, s) && k < |s| && i < |s| - 1
    ensures var pid, a, b := s[k], Before(s, k), After(s, k);
            && pid < NUM_IDS && a <= NUM_IDS && b <= NUM_IDS
            && NodeOk(JoinedPrev(prev, pid, a, b), JoinedNext(next, pid, a, b), Without(s, k), i)
  {
    hide Linked;
    var j, r := if i < k then i else i + 1, Without(s, k);
    Neighbours(prev, next, h, t, s, k);
    Neighbours(prev, next, h, t, s, j);
    Apart(prev, next, h, t, s, k, j);
    assert r[i] == s[j];
    assert After(r, i) == if i + 1 == k then After(s, k) else After(s, j);
    assert Before(r, i) == if i == k then Before(s, k) else Before(s, j);
  }

  lemma Apart(prev: seq<nat>, next: seq<nat>, h: nat, t: nat, s: seq<nat>, k: nat, j: nat)
    requires |prev| == NUM_IDS && |next| == NUM_IDS && Linked(prev, next, h, t, s) && k < |s| && j < |s| && j != k
    ensures s[j] != s[k] && (s[j] == Before(s, k) <==> j + 1 == k) && (s[j] == After(s, k) <==> j == k + 1)
  {
    assert NodeOk(prev, next, s, j);
  }

  /** Joining the neighbours of the k-th member leaves the queue of the others. */
  lemma Unlinked(prev: seq<nat>, next: seq<nat>, h: nat, t: nat, s: seq<nat>, k: nat)
    requires |prev| == NUM_IDS && |next| == NUM_IDS && Linked(prev, next, h, t, s) && k < |s|
    ensures var pid, a, b := s[k], Before(s, k), After(s, k);
            && pid < NUM_IDS && a == prev[pid] && b == next[pid] && a <= NUM_IDS && b <= NUM_IDS
            && (a != NUM_IDS ==> a != pid && a != b) && (b != NUM_IDS ==> b != pid)
            && Linked(JoinedPrev(prev, pid, a, b), JoinedNext(next, pid, a, b),
                      if a == NUM_IDS then b else h, if b == NUM_IDS then a else t, Without(s, k))
  {
    hide JoinedPrev, JoinedNext, NodeOk;
    Neighbours(prev, next, h, t, s, k);
    var pid, a, b, r := s[k], Before(s, k), After(s, k), Without(s, k);
    JoinedSize(prev, next, pid, a, b);
    var next', prev' := JoinedNext(next, pid, a, b), JoinedPrev(prev, pid, a, b);
    forall i: nat | i < |r| ensures NodeOk(prev', next', r, i) {
      JoinedNode(prev, next, h, t, s, k, i);
    }
  }

  lemma JoinedSize(prev: seq<nat>, next: seq<nat>, pid: nat, a: nat, b: nat)
    requires |prev| == NUM_IDS && |next| == NUM_IDS && pid < NUM_IDS && a <= NUM_IDS && b <= NUM_IDS
    ensures |JoinedPrev(prev, pid, a, b)| == NUM_IDS && |JoinedNext(next, pid, a, b)| == NUM_IDS
  {
  }

  /** Changing queue `c` and the links of its own members and of nobody's members keeps all queues. */
  lemma OneQueue(prev: seq<nat>, next: seq<nat>, head: seq<nat>, tail: seq<nat>, q: seq<seq<nat>>, home: seq<nat>,
                 prev': seq<nat>, next': seq<nat>, c: nat, h: nat, t: nat, s: seq<nat>, home': seq<nat>)
    requires AllOk(prev, next, head, tail, q, home) && c < NQUEUES
    requires |prev'| == NUM_IDS && |next'| == NUM_IDS && |home'| == NUM_IDS && Linked(prev', next', h, t, s)
    requires HomeOk(s, home', c)
    requires forall x :: 0 <= x < NUM_IDS && home[x] != c && home[x] != NQUEUES ==>
               prev'[x] == prev[x] && next'[x] == next[x] && home'[x] == home[x]
    requires forall x :: 0 <= x < NUM_IDS && home'[x] != c && home'[x] != NQUEUES ==> home[x] == home'[x]
    ensures AllOk(prev', next', head[c := h], tail[c := t], q[c := s], home')
  {
    var head', tail', q' := head[c := h], tail[c := t], q[c := s];
    forall d | 0 <= d < NQUEUES ensures QueueOk(prev', next', head', tail', q', home', d) {
      if d != c {
        assert QueueOk(prev, next, head, tail, q, home, d);
        LinkedFrame(prev, next, prev', next', head[d], tail[d], q[d]);
      }
    }
  }

  class Queues {
    var prev: seq<nat>
    var next: seq<nat>
    var head: seq<nat>
    var tail: seq<nat>
    ghost var q: seq<seq<nat>>
    ghost var home: seq<nat>

    ghost predicate Valid()
      reads this
    {
      AllOk(prev, next, head, tail, q, home)
    }

    /** tqueue_init. */
    constructor ()
      ensures Valid() && q == seq(NQUEUES, _ => []) && home == seq(NUM_IDS, _ => NQUEUES)
    {
      prev, next := seq(NUM_IDS, _ => NUM_IDS), seq(NUM_IDS, _ => NUM_IDS);
      head, tail := seq(NQUEUES, _ => NUM_IDS), seq(NQUEUES, _ => NUM_IDS);
      q, home := seq(NQUEUES, _ => []), seq(NUM_IDS, _ => NQUEUES);
    }

    /** tqueue_enqueue: a thread that is in no queue goes to the tail of queue `c`. */
    method Enqueue(c: nat, pid: nat)
      requires Valid() && c < NQUEUES && pid < NUM_IDS && home[pid] == NQUEUES
      modifies this
      ensures Valid() && q == old(q)[c := old(q)[c] + [pid]] && home == old(home)[pid := c]
    {
      hide Linked;
      assert QueueOk(prev, next, head, tail, q, home, c);
      Appended(prev, next, head[c], tail[c], q[c], pid);
      var t := tail[c];
      var prev', next';
      if t == NUM_IDS {
        prev', next' := prev[pid := NUM_IDS], next[pid := NUM_IDS];
        head := head[c := pid];
      } else {
        next' := next[t := pid];
        prev', next' := prev[pid := t], next'[pid := NUM_IDS];
        TailIsMember(prev, next, head[c], t, q[c]);
      }
      tail := tail[c := pid];
      OneQueue(prev, next, old(head), old(tail), q, home, prev', next', c, head[c], pid, q[c] + [pid], home[pid := c]);
      assert head == old(head)[c := head[c]];
      prev, next, q, home := prev', next', q[c := q[c] + [pid]], home[pid := c];
    }

    /** tqueue_dequeue: the head leaves queue `c`; NUM_IDS if there is none. */
    method Dequeue(c: nat) returns (pid: nat)
      requires Valid() && c < NQUEUES
      modifies this
      ensures Valid() && (pid == NUM_IDS <==> old(q)[c] == [])
      ensures pid == NUM_IDS ==> q == old(q) && home == old(home)
      ensures pid != NUM_IDS ==>
                && pid == old(q)[c][0] && q == old(q)[c := old(q)[c][1..]] && pid < NUM_IDS
                && home == old(home)[pid := NQUEUES]
    {
      hide Linked, HomeOk, JoinedPrev, JoinedNext;
      assert QueueOk(prev, next, head, tail, q, home, c);
      pid := head[c];
      HeadOf(prev, next, head[c], tail[c], q[c]);
      if pid != NUM_IDS {
        Left(prev, next, head, tail, q, home, c, 0);
        assert Without(q[c], 0) == q[c][1..];
        var n := next[pid];
        if n == NUM_IDS {
          head := head[c := NUM_IDS];
          tail := tail[c := NUM_IDS];
        } else {
          prev := prev[n := NUM_IDS];
          head := head[c := n];
        }
        JoinedIs(old(prev), old(next), pid, NUM_IDS, n);
        prev := prev[pid := NUM_IDS];
        next := next[pid := NUM_IDS];
        assert tail == old(tail)[c := tail[c]];
        home := home[pid := NQUEUES];
        q := q[c := q[c][1..]];
      }
    }

    /** tqueue_remove: a member of queue `c` leaves it, wherever it is. */
    method Remove(c: nat, pid: nat)
      requires Valid() && c < NQUEUES && pid < NUM_IDS && home[pid] == c
      modifies this
      ensures Valid() && home == old(home)[pid := NQUEUES]
      ensures exists k :: 0 <= k < |old(q)[c]| && old(q)[c][k] == pid && q == old(q)[c := Without(old(q)[c], k)]
    {
      hide Linked, JoinedPrev, JoinedNext;
      assert QueueOk(prev, next, head, tail, q, home, c);
      ghost var k: nat :| k < |q[c]| && q[c][k] == pid;
      Left(prev, next, head, tail, q, home, c, k);
      var p, n := prev[pid], next[pid];
      if p == NUM_IDS {
        if n == NUM_IDS {
          head := head[c := NUM_IDS];
          tail := tail[c := NUM_IDS];
        } else {
          prev := prev[n := NUM_IDS];
          head := head[c := n];
        }
      } else {
        if n == NUM_IDS {
          next := next[p := NUM_IDS];
          tail := tail[c := p];
        } else {
          if p != n {
            next := next[p := n];
          }
          prev := prev[n := p];
        }
      }
      JoinedIs(old(prev), old(next), pid, p, n);
      prev := prev[pid := NUM_IDS];
      next := next[pid := NUM_IDS];
      assert head == old(head)[c := head[c]] && tail == old(tail)[c := tail[c]];
      home := home[pid := NQUEUES];
      q := q[c := Without(q[c], k)];
    }
  }

  lemma HeadOf(prev: seq<nat>, next: seq<nat>, h: nat, t: nat, s: seq<nat>)
    requires |prev| == NUM_IDS && |next| == NUM_IDS && Linked(prev, next, h, t, s)
    ensures h == NUM_IDS <==> s == []
    ensures h != NUM_IDS ==> h == s[0] && h < NUM_IDS
  {
    if s != [] {
      assert NodeOk(prev, next, s, 0);
    }
  }

  lemma JoinedIs(prev: seq<nat>, next: seq<nat>, pid: nat, a: nat, b: nat)
    requires |prev| == NUM_IDS && |next| == NUM_IDS && pid < NUM_IDS && a <= NUM_IDS && b <= NUM_IDS
    ensures JoinedPrev(prev, pid, a, b) == (if b == NUM_IDS then prev else prev[b := a])[pid := NUM_IDS]
    ensures JoinedNext(next, pid, a, b) == (if a == NUM_IDS then next else next[a := b])[pid := NUM_IDS]
  {
  }

  /** All queues after the k-th member has left queue `c`. */
  lemma Left(prev: seq<nat>, next: seq<nat>, head: seq<nat>, tail: seq<nat>, q: seq<seq<nat>>, home: seq<nat>, c: nat,
             k: nat)
    requires AllOk(prev, next, head, tail, q, home) && c < NQUEUES && k < |q[c]|
    ensures var pid, a, b := q[c][k], Before(q[c], k), After(q[c], k);
            && pid < NUM_IDS && a == prev[pid] && b == next[pid] && a <= NUM_IDS && b <= NUM_IDS
            && (a != NUM_IDS ==> a != b) && (a == NUM_IDS <==> k == 0)
            && AllOk(JoinedPrev(prev, pid, a, b), JoinedNext(next, pid, a, b),
                     head[c := if a == NUM_IDS then b else head[c]],
                     tail[c := if b == NUM_IDS then a else tail[c]], q[c := Without(q[c], k)], home[pid := NQUEUES])
  {
    hide Linked, JoinedPrev, JoinedNext, Without;
    assert QueueOk(prev, next, head, tail, q, home, c);
    Unlinked(prev, next, head[c], tail[c], q[c], k);
    Neighbours(prev, next, head[c], tail[c], q[c], k);
    var pid, a, b := q[c][k], Before(q[c], k), After(q[c], k);
    LinkedDistinct(prev, next, head[c], tail[c], q[c]);
    HomeAfter(q[c], home, c, k);
    JoinedSize(prev, next, pid, a, b);
    JoinedElse(prev, next, q[c], home, c, pid, a, b);
    OneQueue(prev, next, head, tail, q, home, JoinedPrev(prev, pid, a, b), JoinedNext(next, pid, a, b), c,
             if a == NUM_IDS then b else head[c], if b == NUM_IDS then a else tail[c], Without(q[c], k),
             home[pid := NQUEUES]);
  }

  lemma LinkedDistinct(prev: seq<nat>, next: seq<nat>, h: nat, t: nat, s: seq<nat>)
    requires |prev| == NUM_IDS && |next| == NUM_IDS && Linked(prev, next, h, t, s)
    ensures Distinct(s)
  {
  }

  lemma JoinedElse(prev: seq<nat>, next: seq<nat>, s: seq<nat>, home: seq<nat>, c: nat, pid: nat, a: nat, b: nat)
    requires |prev| == NUM_IDS && |next| == NUM_IDS && |home| == NUM_IDS && HomeOk(s, home, c)
    requires pid < NUM_IDS && a <= NUM_IDS && b <= NUM_IDS && pid in s && (a != NUM_IDS ==> a in s)
    requires b != NUM_IDS ==> b in s
    ensures forall x :: 0 <= x < NUM_IDS && home[x] != c ==>
              JoinedPrev(prev, pid, a, b)[x] == prev[x] && JoinedNext(next, pid, a, b)[x] == next[x]
  {
  }

  lemma HomeAfter(s: seq<nat>, home: seq<nat>, c: nat, k: nat)
    requires |home| == NUM_IDS && HomeOk(s, home, c) && k < |s| && s[k] < NUM_IDS && Distinct(s) && c < NQUEUES
    ensures HomeOk(Without(s, k), home[s[k] := NQUEUES], c) && home[s[k]] == c
  {
    WithoutDistinct(s, k);
  }

  lemma TailIsMember(prev: seq<nat>, next: seq<nat>, h: nat, t: nat, s: seq<nat>)
    requires |prev| == NUM_IDS && |next| == NUM_IDS && Linked(prev, next, h, t, s)
    ensures t != NUM_IDS ==> t in s
    ensures h != NUM_IDS ==> h in s
  {
  }
}
