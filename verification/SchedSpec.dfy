/** The scheduler of kern/thread/PThread on one CPU as a state machine over its locked steps. */
module SchedSpec {
  import opened Collections
  import opened ThreadQueue

  datatype TState = Ready | Run | Sleep | Dead

  /** The ready queue, the state and the channel of each thread, and the current thread. */
  datatype Sched = Sched(ready: seq<nat>, state: seq<TState>, chan: seq<nat>, cur: nat)

  datatype Op = Spawn(pid: nat) | Yield | SleepOn(c: nat) | Wakeup(c: nat) | Tidy

  /** The pids below `k` that a wakeup of channel `c` finds asleep, in the order in which it queues them. */
  function Woken(state: seq<TState>, chan: seq<nat>, c: nat, k: nat): (r: seq<nat>)
    requires |state| == |chan| && k <= |state|
    ensures forall p :: p in r <==> 1 <= p < k && state[p] == Sleep && chan[p] == c
    ensures forall i, j :: 0 <= i < j < |r| ==> r[i] < r[j]
  {
    if k <= 1 then []
    else
      var r := Woken(state, chan, c, k - 1);
      assert forall i :: 0 <= i < |r| ==> r[i] in r;
      if chan[k - 1] == c && state[k - 1] == Sleep then r + [k - 1] else r
  }

  function WokenStates(state: seq<TState>, chan: seq<nat>, c: nat, k: nat): (r: seq<TState>)
    requires |state| == |chan| && k <= |state|
  {
    seq(|state|, p requires 0 <= p < |state| =>
          if 1 <= p < k && state[p] == Sleep && chan[p] == c then Ready else state[p])
  }

  function WokenChans(state: seq<TState>, chan: seq<nat>, c: nat, k: nat): (r: seq<nat>)
    requires |state| == |chan| && k <= |state|
  {
    seq(|chan|, p requires 0 <= p < |chan| => if 1 <= p < k && state[p] == Sleep && chan[p] == c then 0 else chan[p])
  }

  /**
    What every step keeps, for threads 1 and up: the ready queue holds exactly the READY threads,
    once each; the current thread is the only RUN thread; the idle thread 1 is never asleep.
   */
  ghost predicate Inv(s: Sched) {
    && |s.state| == NUM_IDS && |s.chan| == NUM_IDS
    && Distinct(s.ready) && (forall p :: p in s.ready ==> 1 <= p < NUM_IDS && s.state[p] == Ready)
    && (forall p :: 1 <= p < NUM_IDS && s.state[p] == Ready ==> p in s.ready)
    && 1 <= s.cur < NUM_IDS && s.state[s.cur] == Run
    && (forall p :: 1 <= p < NUM_IDS && s.state[p] == Run ==> p == s.cur)
    && (s.state[1] == Ready || s.state[1] == Run)
  }

  /** A new thread is one that did not exist; the idle thread does not sleep. */
  ghost predicate Enabled(s: Sched, op: Op) {
    && (op.Spawn? ==> 1 <= op.pid < NUM_IDS && op.pid < |s.state| && s.state[op.pid] == Dead)
    && (op.SleepOn? ==> s.cur != 1)
  }

  /** A sleeping thread never finds the ready queue empty. */
  lemma SomebodyReady(s: Sched)
    requires Inv(s) && s.cur != 1
    ensures s.ready != []
  {
    assert 1 in s.ready;
  }

  ghost function Step(s: Sched, op: Op): (t: Sched)
    requires Inv(s) && Enabled(s, op)
  {
    match op
    case Spawn(pid) => s.(state := s.state[pid := Ready], ready := s.ready + [pid])
    case Yield =>
      var q := s.ready + [s.cur];
      Sched(q[1..], s.state[s.cur := Ready][InRange(s, q[0]) := Run], s.chan, q[0])
    case SleepOn(c) =>
      SomebodyReady(s);
      Sched(s.ready[1..], s.state[s.cur := Sleep][InRange(s, s.ready[0]) := Run], s.chan[s.cur := c], s.ready[0])
    case Wakeup(c) =>
      Sched(s.ready + Woken(s.state, s.chan, c, NUM_IDS), WokenStates(s.state, s.chan, c, NUM_IDS),
            WokenChans(s.state, s.chan, c, NUM_IDS), s.cur)
    case Tidy => s.(chan := s.chan[s.cur := 0])
  }

  ghost function InRange(s: Sched, p: nat): (r: nat)
    requires Inv(s) && (p in s.ready || p == s.cur)
    ensures r == p < NUM_IDS
  {
    p
  }

  lemma TailMembers(q: seq<nat>)
    requires Distinct(q) && q != []
    ensures Distinct(q[1..]) && forall x :: x in q[1..] <==> x in q && x != q[0]
  {
    forall x | x in q && x != q[0] ensures x in q[1..] {
      var i :| 0 <= i < |q| && q[i] == x;
      assert q[1..][i - 1] == x;
    }
  }

  lemma SpawnKeeps(s: Sched, pid: nat)
    requires Inv(s) && Enabled(s, Spawn(pid))
    ensures Inv(Step(s, Spawn(pid)))
  {
    assert pid !in s.ready;
  }

  lemma YieldKeeps(s: Sched)
    requires Inv(s)
    ensures Inv(Step(s, Yield))
  {
    var q := s.ready + [s.cur];
    assert s.cur !in s.ready && (forall x :: x in q <==> x in s.ready || x == s.cur);
    TailMembers(q);
    assert q[0] in q;
  }

  lemma SleepKeeps(s: Sched, c: nat)
    requires Inv(s) && s.cur != 1
    ensures Inv(Step(s, SleepOn(c)))
  {
    SomebodyReady(s);
    TailMembers(s.ready);
    assert s.ready[0] in s.ready;
  }

  lemma WakeupKeeps(s: Sched, c: nat)
    requires Inv(s)
    ensures Inv(Step(s, Wakeup(c)))
  {
    hide Woken;
    var w := Woken(s.state, s.chan, c, NUM_IDS);
    forall i, j | 0 <= i < |s.ready| && 0 <= j < |w| ensures s.ready[i] != w[j] {
      assert s.ready[i] in s.ready && w[j] in w;
    }
  }

  lemma StepKeeps(s: Sched, op: Op)
    requires Inv(s) && Enabled(s, op)
    ensures Inv(Step(s, op))
  {
    hide Step, Inv;
    match op
    case Spawn(pid) => SpawnKeeps(s, pid);
    case Yield => YieldKeeps(s);
    case SleepOn(c) => SleepKeeps(s, c);
    case Wakeup(c) => WakeupKeeps(s, c);
    case Tidy => TidyKeeps(s);
  }

  lemma TidyKeeps(s: Sched)
    requires Inv(s)
    ensures Inv(Step(s, Tidy))
  {
  }

  /** A run: operations each of which is enabled where it happens. */
  ghost predicate AllEnabled(s: Sched, ops: seq<Op>)
    requires Inv(s)
    decreases |ops|
  {
    ops == [] || (Enabled(s, ops[0]) && (StepKeeps(s, ops[0]); AllEnabled(Step(s, ops[0]), ops[1..])))
  }

  ghost function Steps(s: Sched, ops: seq<Op>): (t: Sched)
    requires Inv(s) && AllEnabled(s, ops)
    ensures Inv(t)
    decreases |ops|
  {
    if ops == [] then s else StepKeeps(s, ops[0]); Steps(Step(s, ops[0]), ops[1..])
  }

  // ---- sleepers ----

  /** Thread `p` is asleep on channel `c` and in no queue. */
  ghost predicate AsleepOn(s: Sched, p: nat, c: nat) {
    1 <= p < |s.state| && p < |s.chan| && s.state[p] == Sleep && s.chan[p] == c && p !in s.ready && p != s.cur
  }

  /** Whoever goes to sleep on `c` is asleep on `c`. */
  lemma SleepStores(s: Sched, c: nat)
    requires Inv(s) && Enabled(s, SleepOn(c))
    ensures AsleepOn(Step(s, SleepOn(c)), s.cur, c)
  {
    SleepKeeps(s, c);
  }

  /** Nothing but a wakeup of its channel touches a sleeper. */
  lemma SleeperKept(s: Sched, op: Op, p: nat, c: nat)
    requires Inv(s) && Enabled(s, op) && AsleepOn(s, p, c) && op != Wakeup(c)
    ensures AsleepOn(Step(s, op), p, c)
  {
    StepKeeps(s, op);
  }

  /** A wakeup of its channel makes a sleeper ready, and queues it behind everybody who was ready before. */
  lemma SleeperWoken(s: Sched, p: nat, c: nat)
    requires Inv(s) && AsleepOn(s, p, c)
    ensures var t := Step(s, Wakeup(c));
            && Inv(t) && p < |t.state| && t.state[p] == Ready
            && exists i :: |s.ready| <= i < |t.ready| && t.ready[i] == p
  {
    WakeupKeeps(s, c);
    var w, t := Woken(s.state, s.chan, c, NUM_IDS), Step(s, Wakeup(c));
    assert p in w;
    var k :| 0 <= k < |w| && w[k] == p;
    assert t.ready[|s.ready| + k] == p;
  }

  /**
    Whatever happens after thread_sleep(c), the thread stays asleep until the first thread_wakeup(c), and
    that makes it ready.
   */
  lemma {:induction false} SleepsUntilWoken(s: Sched, ops: seq<Op>, p: nat, c: nat)
    requires Inv(s) && AllEnabled(s, ops) && AsleepOn(s, p, c) && Wakeup(c) !in ops
    ensures AsleepOn(Steps(s, ops), p, c)
    decreases |ops|
  {
    hide Inv, Step, AsleepOn, Enabled;
    if ops != [] {
      assert ops[0] in ops;
      SleeperKept(s, ops[0], p, c);
      StepKeeps(s, ops[0]);
      SleepsUntilWoken(Step(s, ops[0]), ops[1..], p, c);
    }
  }

  /** The same for runs that begin with thread_sleep. */
  lemma SleepThenWake(s: Sched, c: nat, ops: seq<Op>)
    requires Inv(s) && AllEnabled(s, [SleepOn(c)] + ops) && Wakeup(c) !in ops
    ensures var t := Steps(s, [SleepOn(c)] + ops);
            && t.state[s.cur] == Sleep && s.cur !in t.ready
            && var u := Step(t, Wakeup(c)); |u.state| == NUM_IDS && u.state[s.cur] == Ready && s.cur in u.ready
  {
    hide Step;
    var run := [SleepOn(c)] + ops;
    assert run[0] == SleepOn(c) && run[1..] == ops;
    SleepStores(s, c);
    StepKeeps(s, SleepOn(c));
    SleepsUntilWoken(Step(s, SleepOn(c)), ops, s.cur, c);
    SleeperWoken(Steps(Step(s, SleepOn(c)), ops), s.cur, c);
  }

  /** The threads that an operation queues, and the thread that it takes from the queue and runs. */
  ghost function Queued(s: Sched, op: Op): (r: seq<nat>)
    requires Inv(s)
  {
    match op
    case Spawn(pid) => [pid]
    case Yield => [s.cur]
    case Wakeup(c) => Woken(s.state, s.chan, c, NUM_IDS)
    case _ => []
  }

  ghost function Dispatched(s: Sched, op: Op): (r: seq<nat>)
    requires Inv(s) && Enabled(s, op)
  {
    if op.Yield? || op.SleepOn? then [Step(s, op).cur] else []
  }

  lemma StepFifo(s: Sched, op: Op)
    requires Inv(s) && Enabled(s, op)
    ensures s.ready + Queued(s, op) == Dispatched(s, op) + Step(s, op).ready
  {
    if op.SleepOn? {
      SomebodyReady(s);
    }
  }

  ghost function AllQueued(s: Sched, ops: seq<Op>): (r: seq<nat>)
    requires Inv(s) && AllEnabled(s, ops)
    decreases |ops|
  {
    if ops == [] then [] else StepKeeps(s, ops[0]); Queued(s, ops[0]) + AllQueued(Step(s, ops[0]), ops[1..])
  }

  /** The threads that a run dispatches, in order. */
  ghost function AllDispatched(s: Sched, ops: seq<Op>): (r: seq<nat>)
    requires Inv(s) && AllEnabled(s, ops)
    decreases |ops|
  {
    if ops == [] then [] else StepKeeps(s, ops[0]); Dispatched(s, ops[0]) + AllDispatched(Step(s, ops[0]), ops[1..])
  }

  /** First in, first out over whole runs. */
  lemma {:induction false} RunFifo(s: Sched, ops: seq<Op>)
    requires Inv(s) && AllEnabled(s, ops)
    ensures s.ready + AllQueued(s, ops) == AllDispatched(s, ops) + Steps(s, ops).ready
    decreases |ops|
  {
    hide Inv, Step, Queued, Dispatched;
    if ops != [] {
      StepKeeps(s, ops[0]);
      var t, rest := Step(s, ops[0]), ops[1..];
      StepFifo(s, ops[0]);
      RunFifo(t, rest);
      calc {
        s.ready + AllQueued(s, ops);
        s.ready + (Queued(s, ops[0]) + AllQueued(t, rest));
        (s.ready + Queued(s, ops[0])) + AllQueued(t, rest);
        (Dispatched(s, ops[0]) + t.ready) + AllQueued(t, rest);
        Dispatched(s, ops[0]) + (t.ready + AllQueued(t, rest));
        Dispatched(s, ops[0]) + (AllDispatched(t, rest) + Steps(t, rest).ready);
        AllDispatched(s, ops) + Steps(s, ops).ready;
      }
    }
  }

  /**
    Bounded waiting: whatever mix of operations follows, the thread at position `i` of the ready queue
    is the one that the (i + 1)-th dispatch runs, no earlier dispatch runs it, and until then it moves up
    one place with each dispatch.
   */
  lemma BoundedWaiting(s: Sched, ops: seq<Op>, i: nat)
    requires Inv(s) && AllEnabled(s, ops) && i < |s.ready|
    ensures var d := AllDispatched(s, ops);
            if i < |d|
            then d[i] == s.ready[i] && forall j :: 0 <= j < i ==> d[j] != s.ready[i]
            else s.ready[i] !in d && i - |d| < |Steps(s, ops).ready| && Steps(s, ops).ready[i - |d|] == s.ready[i]
  {
    hide AllQueued, AllDispatched, Steps;
    RunFifo(s, ops);
    var d, q, r := AllDispatched(s, ops), AllQueued(s, ops), Steps(s, ops).ready;
    assert (s.ready + q)[i] == (d + r)[i];
    forall j | 0 <= j < i && j < |d| ensures d[j] == s.ready[j] {
      assert (s.ready + q)[j] == (d + r)[j];
    }
  }

  /** Every yield and every sleep is one dispatch. */
  lemma {:induction false} DispatchCount(s: Sched, ops: seq<Op>)
    requires Inv(s) && AllEnabled(s, ops)
    ensures |AllDispatched(s, ops)| == Switches(ops)
    decreases |ops|
  {
    hide Inv, Step;
    if ops != [] {
      StepKeeps(s, ops[0]);
      DispatchCount(Step(s, ops[0]), ops[1..]);
    }
  }

  function Switches(ops: seq<Op>): (n: nat) {
    if ops == [] then 0 else (if ops[0].Yield? || ops[0].SleepOn? then 1 else 0) + Switches(ops[1..])
  }
}
