/** kern/thread/PThread: the thread table and the ready queue of one CPU. */
module Scheduler {
  import Quota
  import opened ThreadQueue
  import opened PageAlloc
  import opened SchedSpec

  const READYQ: nat := NUM_IDS
  const SCHED_SLICE: nat := 5
  const TICK: nat := 1                 // 1000 / LAPIC_TIMER_INTR_FREQ
  const BOOT_QUOTA: nat := 10000

  /** Threads are in the ready queue or in none; the container of a thread says whether it exists. */
  ghost predicate HomesOk(home: seq<nat>) {
    |home| == NUM_IDS && home[0] == NQUEUES && forall p :: 0 <= p < NUM_IDS ==> home[p] == READYQ || home[p] == NQUEUES
  }

  ghost predicate Alive(state: seq<TState>, cont: seq<Quota.Container>) {
    |state| == NUM_IDS && |cont| == NUM_IDS && forall p :: 1 <= p < NUM_IDS ==> (state[p] != Dead <==> cont[p].used)
  }

  /** Without children there are no other containers. */
  lemma {:induction false} NobodyUsed(c: seq<Quota.Container>, p: nat)
    requires Quota.Tree(c) && c[0].nchildren == 0 && 1 <= p < NUM_IDS
    ensures !c[p].used
  {
    assert Quota.ChildOk(c, p);
    if p > Quota.MAX_CHILDREN {
      NobodyUsed(c, (p - 1) / Quota.MAX_CHILDREN);
    }
  }

  lemma NobodyAlive(pmm: Pmm)
    requires pmm.Valid() && pmm.cont[0].nchildren == 0
    ensures |pmm.cont| == NUM_IDS && forall p :: 1 <= p < NUM_IDS ==> !pmm.cont[p].used
  {
    forall p | 1 <= p < NUM_IDS ensures !pmm.cont[p].used {
      NobodyUsed(pmm.cont, p);
    }
  }

  class Threads {
    const queues: Queues
    const pmm: Pmm
    var state: seq<TState>
    var chan: seq<nat>
    var cur: nat
    var ticks: nat

    ghost predicate Tables()
      reads this, queues, pmm
    {
      queues.Valid() && HomesOk(queues.home) && pmm.Valid() && Alive(state, pmm.cont)
    }

    ghost function View(): (s: Sched)
      requires queues.Valid()
      reads this, queues
    {
      Sched(queues.q[READYQ], state, chan, cur)
    }

    ghost predicate Valid()
      reads this, queues, pmm
    {
      Tables() && Inv(View())
    }

    /**
      thread_init, and then kern_main: the boot thread 0 spawns the idle thread 1 and the shell 2,
      takes the shell from the ready queue and switches to it.
     */
    constructor (pmm: Pmm)
      requires pmm.Valid() && pmm.own == map[] && 2 * BOOT_QUOTA <= pmm.cont[0].quota
      requires pmm.cont[0] == Quota.Container(pmm.cont[0].quota, 0, 0, 0, true)
      modifies pmm
      ensures Valid() && fresh(queues) && this.pmm == pmm && cur == 2 && ticks == 0
      ensures queues.q[READYQ] == [1] && forall p :: 3 <= p < NUM_IDS ==> state[p] == Dead
    {
      var qs := new Queues();
      queues, this.pmm := qs, pmm;
      state := seq(NUM_IDS, p => if p == 0 then Run else Dead);
      chan := seq(NUM_IDS, _ => 0);
      cur, ticks := 0, 0;
      new;
      hide Pmm.Valid, Quota.QuotaInv, AllOk, Inv;
      NobodyAlive(pmm);
      KernMain();
    }

    /** kern_main. */
    method KernMain()
      requires Tables() && cur == 0 && pmm.cont[0].used && pmm.cont[0].usage + 2 * BOOT_QUOTA <= pmm.cont[0].quota
      requires pmm.cont[0].nchildren == 0
      requires queues.q[READYQ] == [] && queues.home[1] == queues.home[2] == NQUEUES && |chan| == NUM_IDS
      requires forall p :: 1 <= p < NUM_IDS ==> state[p] == Dead
      modifies this`state, this`cur, queues, pmm
      ensures Valid() && cur == 2 && queues.q[READYQ] == [1] && forall p :: 3 <= p < NUM_IDS ==> state[p] == Dead
    {
      hide Pmm.Valid, QueueOk, Inv;
      var idle := BootSpawn();
      var shell := BootSpawn();
      queues.Remove(READYQ, shell);
      assert queues.q[READYQ] == [1];
      state := state[shell := Run];
      cur := shell;
      BootInv(View());
    }

    /** proc_create as kern_main calls it, with the boot thread current. */
    method BootSpawn() returns (pid: nat)
      requires Tables() && cur == 0 && pmm.cont[0].usage + BOOT_QUOTA <= pmm.cont[0].quota && pmm.cont[0].nchildren <= 1
      requires pmm.cont[0].used && queues.home[pmm.cont[0].nchildren + 1] == NQUEUES
      modifies this`state, queues, pmm
      ensures Tables() && pid == old(pmm.cont)[0].nchildren + 1
      ensures state == old(state)[pid := Ready] && queues.q == old(queues.q)[READYQ := old(queues.q)[READYQ] + [pid]]
      ensures queues.home == old(queues.home)[pid := READYQ]
      ensures pmm.cont[0] == old(pmm.cont)[0].(usage := old(pmm.cont)[0].usage + BOOT_QUOTA,
                                               nchildren := old(pmm.cont)[0].nchildren + 1)
    {
      pmm.Bounds(0);
      pid := pmm.Spawn(0, BOOT_QUOTA);
      state := state[pid := Ready];
      queues.Enqueue(READYQ, pid);
    }

    /** A thread that is not READY is in no queue. */
    lemma NotQueued(p: nat)
      requires queues.Valid() && HomesOk(queues.home) && Inv(View()) && 1 <= p < NUM_IDS && state[p] != Ready
      ensures queues.home[p] == NQUEUES
    {
      assert QueueOk(queues.prev, queues.next, queues.head, queues.tail, queues.q, queues.home, READYQ);
    }

    /** thread_spawn, called by the current thread through the guards of sys_spawn. */
    method ThreadSpawn(quota: nat) returns (pid: nat)
      requires Valid() && quota < Quota.TWO32
      requires !Quota.ComesRound(pmm.cont[cur].usage, pmm.cont[cur].quota, quota)
      modifies this, queues, pmm
      ensures Valid()
      ensures pid == NUM_IDS ==> View() == old(View())
      ensures pid != NUM_IDS ==> old(Enabled(View(), Spawn(pid))) && View() == Step(old(View()), Spawn(pid))
      ensures var c := old(pmm.cont)[old(cur)];
              pid == NUM_IDS <==> c.usage + quota > c.quota || c.nchildren == 3 || old(cur) >= 21
      ensures pid != NUM_IDS ==>
                && pid == 3 * cur + 1 + old(pmm.cont)[cur].nchildren && cur == old(cur)
                && queues.q[READYQ] == old(queues.q[READYQ]) + [pid] && state == old(state)[pid := Ready]
                && pmm.cont[pid] == Quota.Container(quota, 0, cur, 0, true)
    {
      hide Pmm.Valid;
      pid := pmm.Spawn(cur, quota);
      if pid != NUM_IDS {
        assert old(Enabled(View(), Spawn(pid)));
        StepKeeps(old(View()), Spawn(pid));
        NotQueued(pid);
        state := state[pid := Ready];
        queues.Enqueue(READYQ, pid);
      }
    }

    /** thread_yield. */
    method ThreadYield()
      requires Valid()
      modifies this`state, this`cur, queues
      ensures Valid() && View() == Step(old(View()), Yield)
      ensures var q := old(queues.q[READYQ]) + [old(cur)]; cur == q[0] && queues.q[READYQ] == q[1..]
      ensures cur < |old(state)| && state == old(state)[old(cur) := Ready][cur := Run]
    {
      hide Pmm.Valid, Quota.QuotaInv;
      StepKeeps(View(), Yield);
      NotQueued(cur);
      state := state[cur := Ready];
      queues.Enqueue(READYQ, cur);
      var pid := queues.Dequeue(READYQ);
      state := state[pid := Run];
      cur := pid;
    }

    /**
      thread_sleep up to the context switch.  The idle thread does not sleep, so there is always
      somebody to switch to.
     */
    method ThreadSleep(c: nat)
      requires Valid() && cur != 1
      modifies this, queues
      ensures Valid() && View() == Step(old(View()), SleepOn(c))
      ensures old(queues.q[READYQ]) == [cur] + queues.q[READYQ]
      ensures cur < |old(state)| && state == old(state)[old(cur) := Sleep][cur := Run] && state[old(cur)] == Sleep
      ensures chan == old(chan)[old(cur) := c]
    {
      hide Pmm.Valid, Quota.QuotaInv;
      StepKeeps(View(), SleepOn(c));
      SomebodyReady(View());
      ghost var was := View();
      state := state[cur := Sleep];
      chan := chan[cur := c];
      var pid := queues.Dequeue(READYQ);
      state := state[pid := Run];
      cur := pid;
    }

    /** The rest of thread_sleep, when the thread runs again. */
    method ThreadResume()
      requires Valid()
      modifies this`chan
      ensures Valid() && View() == Step(old(View()), Tidy) && chan == old(chan)[cur := 0]
    {
      StepKeeps(View(), Tidy);
      chan := chan[cur := 0];
    }

    /** sched_update: every SCHED_SLICE-th tick yields. */
    method SchedUpdate()
      requires Valid() && ticks < SCHED_SLICE
      modifies this`state, this`cur, this`ticks, queues
      ensures Valid() && ticks == (old(ticks) + 1) % 5
      ensures View() == if ticks == 0 then Step(old(View()), Yield) else old(View())
    {
      ticks := ticks + TICK;
      if ticks >= SCHED_SLICE {
        ticks := 0;
        ThreadYield();
      }
    }

    /** thread_wakeup. */
    method ThreadWakeup(c: nat)
      requires Valid()
      modifies this`state, this`chan, queues
      ensures Valid() && View() == Step(old(View()), Wakeup(c))
      ensures forall p :: 1 <= p < NUM_IDS ==>
                if old(state)[p] == Sleep && old(chan)[p] == c then state[p] == Ready && chan[p] == 0
                else state[p] == old(state)[p] && chan[p] == old(chan)[p]
      ensures old(queues.q[READYQ]) <= queues.q[READYQ] && cur == old(cur)
    {
      hide Pmm.Valid, Quota.QuotaInv, Inv, Woken, WokenStates, WokenChans;
      StepKeeps(View(), Wakeup(c));
      ghost var was := View();
      SleepersApart();
      WokenStart(was, c);
      var pid := 1;
      while pid < NUM_IDS
        invariant 1 <= pid <= NUM_IDS && Tables() && cur == was.cur
        invariant queues.q[READYQ] == was.ready + Woken(was.state, was.chan, c, pid)
        invariant state == WokenStates(was.state, was.chan, c, pid) && chan == WokenChans(was.state, was.chan, c, pid)
        invariant forall p :: pid <= p < NUM_IDS && was.state[p] == Sleep ==> queues.home[p] == NQUEUES
      {
        WokenNext(was, c, pid);
        if chan[pid] == c && state[pid] == Sleep {
          state := state[pid := Ready];
          chan := chan[pid := 0];
          queues.Enqueue(READYQ, pid);
        }
        pid := pid + 1;
      }
      WokenEnd(was, c);
    }

    lemma SleepersApart()
      requires Valid()
      ensures |state| == |chan| == NUM_IDS && forall p :: 1 <= p < NUM_IDS && state[p] == Sleep ==>
                queues.home[p] == NQUEUES
    {
      forall p | 1 <= p < NUM_IDS && state[p] == Sleep ensures queues.home[p] == NQUEUES {
        NotQueued(p);
      }
    }
  }

  lemma WokenStart(s: Sched, c: nat)
    requires |s.state| == |s.chan| == NUM_IDS
    ensures s.ready + Woken(s.state, s.chan, c, 1) == s.ready
    ensures WokenStates(s.state, s.chan, c, 1) == s.state && WokenChans(s.state, s.chan, c, 1) == s.chan
  {
  }

  lemma WokenEnd(s: Sched, c: nat)
    requires |s.state| == |s.chan| == NUM_IDS
    ensures var st, ch := WokenStates(s.state, s.chan, c, NUM_IDS), WokenChans(s.state, s.chan, c, NUM_IDS);
            && |st| == |ch| == NUM_IDS
            && forall p :: 1 <= p < NUM_IDS ==>
                 if s.state[p] == Sleep && s.chan[p] == c then st[p] == Ready && ch[p] == 0
                 else st[p] == s.state[p] && ch[p] == s.chan[p]
  {
  }

  /** One turn of the wakeup loop: the loop looks at arrays it has changed only below `k`. */
  lemma WokenNext(s: Sched, c: nat, k: nat)
    requires |s.state| == |s.chan| == NUM_IDS && 1 <= k < NUM_IDS
    ensures var st, ch := WokenStates(s.state, s.chan, c, k), WokenChans(s.state, s.chan, c, k);
            && |st| == |ch| == NUM_IDS && st[k] == s.state[k] && ch[k] == s.chan[k]
            && var hit := s.chan[k] == c && s.state[k] == Sleep;
               && WokenStates(s.state, s.chan, c, k + 1) == (if hit then st[k := Ready] else st)
               && WokenChans(s.state, s.chan, c, k + 1) == (if hit then ch[k := 0] else ch)
               && s.ready + Woken(s.state, s.chan, c, k + 1) ==
                  (if hit then (s.ready + Woken(s.state, s.chan, c, k)) + [k]
                   else s.ready + Woken(s.state, s.chan, c, k))
  {
  }

  lemma BootInv(s: Sched)
    requires |s.state| == |s.chan| == NUM_IDS && s.ready == [1] && s.cur == 2 && s.state[1] == Ready
    requires s.state[2] == Run
    requires forall p :: 3 <= p < NUM_IDS ==> s.state[p] == Dead
    ensures Inv(s)
  {
  }
}
