/**
  thread_sleep(chan, lk) against thread_wakeup(chan), one lock step at a time and in every
  interleaving.  The lock `lk` protects a condition; a thread that finds it false sleeps on
  the channel, a thread that makes it true wakes the channel up, with lk still held or not.
 */
module SleepWakeup {
  import opened ThreadQueue
  import opened SchedSpec

  /** Where a thread is.  `seen` and `made` are versions of the condition. */
  datatype Pc =
    | Out                          // does not hold lk
    | Locked                       // holds lk
    | Resolved(seen: nat)          // saw the condition false under lk and has called thread_sleep
    | Both(seen: nat)              // has acquired sched_lk too
    | Dropped(seen: nat)           // has released lk, still holds sched_lk
    | Slept(seen: nat)             // has set its state and channel and switched away
    | Back                         // runs again and is about to reacquire lk
    | Changed(made: nat)           // has made the condition true under lk, and holds lk
    | ChangedFree(made: nat)       // the same, but has released lk
    | Waking(made: nat, held: bool)  // in thread_wakeup, holds sched_lk

  datatype Label = Acquire | Release | LookFalse | MakeFalse | TakeSched | DropLk | GoToSleep | Resume | Reacquire
                 | MakeTrue | ReleaseEarly | EnterWakeup | WakeAll
                 | SleepElsewhere(other: nat) | WakeElsewhere(other: nat)

  /** `ver` counts the changes to true, `served` is the latest one whose wakeup is complete. */
  datatype World = World(pcs: seq<Pc>, lk: nat, sched: nat, cond: bool, ver: nat, served: nat, state: seq<TState>,
                         chan: seq<nat>, c: nat)

  const FREE: nat := NUM_IDS

  predicate HoldsLk(pc: Pc) {
    pc.Locked? || pc.Resolved? || pc.Both? || pc.Changed? || (pc.Waking? && pc.held)
  }

  predicate HoldsSched(pc: Pc) { pc.Both? || pc.Dropped? || pc.Waking? }

  /** On the way from seeing the condition false to being asleep. */
  predicate Committed(pc: Pc) { pc.Resolved? || pc.Both? || pc.Dropped? || pc.Slept? }

  predicate Pending(pc: Pc) { pc.Changed? || pc.ChangedFree? || pc.Waking? }

  ghost predicate ThreadOk(w: World, t: nat)
    requires |w.pcs| == NUM_IDS && |w.state| == NUM_IDS && |w.chan| == NUM_IDS && t < NUM_IDS
  {
    var pc := w.pcs[t];
    && (HoldsLk(pc) <==> w.lk == t) && (HoldsSched(pc) <==> w.sched == t)
    && (pc.Resolved? || pc.Both? ==> pc.seen == w.ver)
    && (pc.Dropped? ==> w.served <= pc.seen)
    && (pc.Slept? && w.state[t] == Sleep ==> w.chan[t] == w.c && w.served <= pc.seen)
    && (Pending(pc) ==> pc.made <= w.ver)
    && (w.state[t] == Sleep && !pc.Slept? ==> pc.Out? && w.chan[t] != w.c)
  }

  ghost predicate SomePending(w: World) {
    exists t :: 1 <= t < |w.pcs| && Pending(w.pcs[t]) && w.pcs[t].made == w.ver
  }

  ghost predicate Inv(w: World) {
    && |w.pcs| == NUM_IDS && |w.state| == NUM_IDS && |w.chan| == NUM_IDS && w.served <= w.ver
    && w.pcs[0].Out? && (forall t :: 0 <= t < NUM_IDS ==> ThreadOk(w, t))
    && (w.served < w.ver ==> SomePending(w))
  }

  ghost predicate Fires(w: World, t: nat, l: Label)
    requires |w.pcs| == NUM_IDS && |w.state| == NUM_IDS && |w.chan| == NUM_IDS
  {
    && 1 <= t < NUM_IDS && w.state[t] != Sleep
    && match l {
         case Acquire => w.pcs[t].Out? && w.lk == FREE
         case Release => w.pcs[t].Locked?
         case LookFalse => w.pcs[t].Locked? && !w.cond
         case MakeFalse => w.pcs[t].Locked?
         case TakeSched => w.pcs[t].Resolved? && w.sched == FREE
         case DropLk => w.pcs[t].Both?
         case GoToSleep => w.pcs[t].Dropped?
         case Resume => w.pcs[t].Slept? && w.sched == FREE
         case Reacquire => w.pcs[t].Back? && w.lk == FREE
         case MakeTrue => w.pcs[t].Locked?
         case ReleaseEarly => w.pcs[t].Changed?
         case EnterWakeup => (w.pcs[t].Changed? || w.pcs[t].ChangedFree?) && w.sched == FREE
         case WakeAll => w.pcs[t].Waking?
         case SleepElsewhere(o) => w.pcs[t].Out? && w.sched == FREE && o != w.c
         case WakeElsewhere(o) => w.pcs[t].Out? && w.sched == FREE && o != w.c
       }
  }

  ghost function Next(w: World, t: nat, l: Label): (r: World)
    requires |w.pcs| == NUM_IDS && |w.state| == NUM_IDS && |w.chan| == NUM_IDS && Fires(w, t, l)
  {
    var pc := w.pcs[t];
    match l
    case Acquire => w.(pcs := w.pcs[t := Locked], lk := t)
    case Release => w.(pcs := w.pcs[t := Out], lk := FREE)
    case LookFalse => w.(pcs := w.pcs[t := Resolved(w.ver)])
    case MakeFalse => w.(cond := false)
    case TakeSched => w.(pcs := w.pcs[t := Both(pc.seen)], sched := t)
    case DropLk => w.(pcs := w.pcs[t := Dropped(pc.seen)], lk := FREE)
    case GoToSleep => w.(pcs := w.pcs[t := Slept(pc.seen)], sched := FREE, state := w.state[t := Sleep],
                         chan := w.chan[t := w.c])
    case Resume => w.(pcs := w.pcs[t := Back], chan := w.chan[t := 0])
    case Reacquire => w.(pcs := w.pcs[t := Locked], lk := t)
    case MakeTrue => w.(pcs := w.pcs[t := Changed(w.ver + 1)], cond := true, ver := w.ver + 1)
    case ReleaseEarly => w.(pcs := w.pcs[t := ChangedFree(pc.made)], lk := FREE)
    case EnterWakeup => w.(pcs := w.pcs[t := Waking(pc.made, pc.Changed?)], sched := t)
    case WakeAll =>
      w.(pcs := w.pcs[t := if pc.held then Locked else Out], sched := FREE,
         served := if w.served < pc.made then pc.made else w.served,
         state := WokenStates(w.state, w.chan, w.c, NUM_IDS), chan := WokenChans(w.state, w.chan, w.c, NUM_IDS))
    case SleepElsewhere(o) => w.(state := w.state[t := Sleep], chan := w.chan[t := o])
    case WakeElsewhere(o) => w.(state := WokenStates(w.state, w.chan, o, NUM_IDS),
                                chan := WokenChans(w.state, w.chan, o, NUM_IDS))
  }

  /** The steps that take, keep or release lk alone. */
  lemma LockKeeps(w: World, t: nat, l: Label)
    requires Inv(w) && Fires(w, t, l)
    requires l.Acquire? || l.Release? || l.LookFalse? || l.MakeFalse? || l.Reacquire? || l.ReleaseEarly?
    ensures Inv(Next(w, t, l))
  {
    hide SomePending;
    var r := Next(w, t, l);
    assert ThreadOk(w, t);
    forall u | 0 <= u < NUM_IDS ensures ThreadOk(r, u) {
      assert ThreadOk(w, u);
    }
    StillPending(w, r, t);
  }

  /** The steps of a thread on its way to sleep and back, and into thread_wakeup. */
  lemma SleepKeeps(w: World, t: nat, l: Label)
    requires Inv(w) && Fires(w, t, l)
    requires l.TakeSched? || l.DropLk? || l.GoToSleep? || l.Resume? || l.EnterWakeup? || l.SleepElsewhere?
    ensures Inv(Next(w, t, l))
  {
    hide SomePending;
    var r := Next(w, t, l);
    assert ThreadOk(w, t);
    forall u | 0 <= u < NUM_IDS ensures ThreadOk(r, u) {
      assert ThreadOk(w, u);
    }
    StillPending(w, r, t);
  }

  lemma StillPending(w: World, r: World, t: nat)
    requires t < |w.pcs| && |r.pcs| == |w.pcs| && r.pcs == w.pcs[t := r.pcs[t]] && r.ver == w.ver
    requires Pending(w.pcs[t]) ==> Pending(r.pcs[t]) && r.pcs[t].made == w.pcs[t].made
    ensures SomePending(w) ==> SomePending(r)
  {
    if SomePending(w) {
      var u :| 1 <= u < |w.pcs| && Pending(w.pcs[u]) && w.pcs[u].made == w.ver;
      assert Pending(r.pcs[u]) && r.pcs[u].made == r.ver;
    }
  }

  /** Nobody else who saw the condition false can be between seeing it and letting go of lk. */
  lemma MakeTrueKeeps(w: World, t: nat)
    requires Inv(w) && Fires(w, t, MakeTrue)
    ensures Inv(Next(w, t, MakeTrue))
  {
    var r := Next(w, t, MakeTrue);
    forall u | 0 <= u < NUM_IDS ensures ThreadOk(r, u) {
      assert ThreadOk(w, u) && ThreadOk(w, t);
    }
    assert Pending(r.pcs[t]) && r.pcs[t].made == r.ver;
  }

  lemma WakeAllKeeps(w: World, t: nat)
    requires Inv(w) && Fires(w, t, WakeAll)
    ensures Inv(Next(w, t, WakeAll))
  {
    hide SomePending;
    var r := Next(w, t, WakeAll);
    assert ThreadOk(w, t);
    forall u | 0 <= u < NUM_IDS ensures ThreadOk(r, u) {
      assert ThreadOk(w, u);
    }
    PendingAfterWake(w, r, t);
  }

  lemma PendingAfterWake(w: World, r: World, t: nat)
    requires 1 <= t < |w.pcs| == |r.pcs| && r.pcs == w.pcs[t := r.pcs[t]] && r.ver == w.ver && Pending(w.pcs[t])
    ensures SomePending(w) && w.pcs[t].made != w.ver ==> SomePending(r)
  {
    if SomePending(w) && w.pcs[t].made != w.ver {
      var u :| 1 <= u < |w.pcs| && Pending(w.pcs[u]) && w.pcs[u].made == w.ver;
      assert Pending(r.pcs[u]) && r.pcs[u].made == r.ver;
    }
  }

  lemma WakeElsewhereKeeps(w: World, t: nat, o: nat)
    requires Inv(w) && Fires(w, t, WakeElsewhere(o))
    ensures Inv(Next(w, t, WakeElsewhere(o)))
  {
    hide SomePending;
    var r := Next(w, t, WakeElsewhere(o));
    forall u | 0 <= u < NUM_IDS ensures ThreadOk(r, u) {
      assert ThreadOk(w, u);
    }
    StillPending(w, r, t);
  }

  lemma NextKeeps(w: World, t: nat, l: Label)
    requires Inv(w) && Fires(w, t, l)
    ensures Inv(Next(w, t, l))
  {
    hide Next, Inv;
    match l
    case MakeTrue => MakeTrueKeeps(w, t);
    case WakeAll => WakeAllKeeps(w, t);
    case WakeElsewhere(o) => WakeElsewhereKeeps(w, t, o);
    case _ =>
      if l.Acquire? || l.Release? || l.LookFalse? || l.MakeFalse? || l.Reacquire? || l.ReleaseEarly? {
        LockKeeps(w, t, l);
      } else {
        SleepKeeps(w, t, l);
      }
  }

  /** At the start nobody is in the protocol, and nobody sleeps on its channel. */
  ghost predicate Start(w: World) {
    && |w.pcs| == NUM_IDS && |w.state| == NUM_IDS && |w.chan| == NUM_IDS
    && w.lk == FREE && w.sched == FREE && w.ver == w.served
    && (forall t :: 0 <= t < NUM_IDS ==> w.pcs[t].Out? && (w.state[t] == Sleep ==> w.chan[t] != w.c))
  }

  /** Any interleaving of the threads' steps. */
  ghost predicate IsRun(w: World, run: seq<(nat, Label)>)
    requires |w.pcs| == NUM_IDS && |w.state| == NUM_IDS && |w.chan| == NUM_IDS
    decreases |run|
  {
    run == [] || (Fires(w, run[0].0, run[0].1) && IsRun(Next(w, run[0].0, run[0].1), run[1..]))
  }

  ghost function End(w: World, run: seq<(nat, Label)>): (r: World)
    requires |w.pcs| == NUM_IDS && |w.state| == NUM_IDS && |w.chan| == NUM_IDS && IsRun(w, run)
    ensures |r.pcs| == NUM_IDS && |r.state| == NUM_IDS && |r.chan| == NUM_IDS
    decreases |run|
  {
    if run == [] then w else End(Next(w, run[0].0, run[0].1), run[1..])
  }

  lemma {:induction false} RunKeeps(w: World, run: seq<(nat, Label)>)
    requires Inv(w) && IsRun(w, run)
    ensures Inv(End(w, run))
    decreases |run|
  {
    hide Next, Inv, Fires;
    if run != [] {
      InvSizes(w);
      NextKeeps(w, run[0].0, run[0].1);
      InvSizes(Next(w, run[0].0, run[0].1));
      RunKeeps(Next(w, run[0].0, run[0].1), run[1..]);
    }
  }

  lemma InvSizes(w: World)
    requires Inv(w)
    ensures |w.pcs| == NUM_IDS && |w.state| == NUM_IDS && |w.chan| == NUM_IDS
  {
  }

  /** thread_sleep has given lk up and not yet taken it back. */
  predicate InSleep(pc: Pc) { pc.Slept? || pc.Back? }

  /** Thread `t` is in that state before every step of the run. */
  ghost predicate StaysInSleep(w: World, run: seq<(nat, Label)>, t: nat)
    requires |w.pcs| == NUM_IDS && |w.state| == NUM_IDS && |w.chan| == NUM_IDS && IsRun(w, run) && t < NUM_IDS
    decreases |run|
  {
    run == [] || (InSleep(w.pcs[t]) && StaysInSleep(Next(w, run[0].0, run[0].1), run[1..], t))
  }

  lemma StepOutOfSleep(w: World, u: nat, l: Label, t: nat)
    requires Inv(w) && Fires(w, u, l) && t < NUM_IDS && InSleep(w.pcs[t])
    ensures var r := Next(w, u, l); InSleep(r.pcs[t]) || (r.pcs[t].Locked? && r.lk == t && u == t && w.lk == FREE)
  {
  }

  lemma {:induction false} OutOfSleep(w: World, run: seq<(nat, Label)>, t: nat)
    requires Inv(w) && IsRun(w, run) && t < NUM_IDS && InSleep(w.pcs[t]) && StaysInSleep(w, run, t)
    ensures var e := End(w, run); InSleep(e.pcs[t]) || (e.pcs[t].Locked? && e.lk == t)
    decreases |run|
  {
    hide Next, Inv, Fires;
    if run != [] {
      InvSizes(w);
      NextKeeps(w, run[0].0, run[0].1);
      InvSizes(Next(w, run[0].0, run[0].1));
      StepOutOfSleep(w, run[0].0, run[0].1, t);
      if run[1..] != [] {
        OutOfSleep(Next(w, run[0].0, run[0].1), run[1..], t);
      }
    }
  }

  /**
    thread_sleep returns with lk: however the run goes on after a thread has gone to sleep, the first
    place it comes to outside thread_sleep is under lk, which it holds.
   */
  lemma ReturnsLocked(w: World, run: seq<(nat, Label)>, more: seq<(nat, Label)>, t: nat)
    requires Start(w) && IsRun(w, run) && t < NUM_IDS
    requires var e := End(w, run);
             |e.pcs| == NUM_IDS && |e.state| == NUM_IDS && |e.chan| == NUM_IDS && e.pcs[t].Slept? && IsRun(e, more)
    requires StaysInSleep(End(w, run), more, t) && !InSleep(End(End(w, run), more).pcs[t])
    ensures End(End(w, run), more).pcs[t].Locked? && End(End(w, run), more).lk == t
  {
    RunKeeps(w, run);
    OutOfSleep(End(w, run), more, t);
  }

  /** Mutual exclusion, in every state that is reached. */
  lemma OneHolder(w: World, run: seq<(nat, Label)>, t: nat, u: nat)
    requires Start(w) && IsRun(w, run) && t < NUM_IDS && u < NUM_IDS
    ensures var e := End(w, run);
            && |e.pcs| == NUM_IDS
            && ((HoldsLk(e.pcs[t]) && HoldsLk(e.pcs[u])) || (HoldsSched(e.pcs[t]) && HoldsSched(e.pcs[u])) ==> t == u)
  {
    RunKeeps(w, run);
    var e := End(w, run);
    assert ThreadOk(e, t) && ThreadOk(e, u);
  }

  /**
    No lost wakeup.  If a thread is asleep although the condition it saw false has been made true
    since, then a thread that made it true has yet to wake the channel up.
   */
  lemma NoLostWakeup(w: World, run: seq<(nat, Label)>, t: nat)
    requires Start(w) && IsRun(w, run) && t < NUM_IDS
    ensures var e := End(w, run);
            && |e.pcs| == NUM_IDS && |e.state| == NUM_IDS
            && (e.pcs[t].Slept? && e.state[t] == Sleep && e.pcs[t].seen < e.ver ==> SomePending(e))
  {
    RunKeeps(w, run);
    assert ThreadOk(End(w, run), t);
  }

  /**
    A completed thread_wakeup reaches everybody it must: whoever is committed to sleep on the channel
    and saw the condition before the caller changed it is asleep by now, and the wakeup makes it ready.
   */
  lemma WakeupReaches(w: World, run: seq<(nat, Label)>, u: nat, t: nat)
    requires Start(w) && IsRun(w, run) && t < NUM_IDS
    requires var e := End(w, run);
             |e.pcs| == NUM_IDS && |e.state| == NUM_IDS && |e.chan| == NUM_IDS && Fires(e, u, WakeAll)
    requires var e := End(w, run);
             Committed(e.pcs[t]) && e.pcs[t].seen < e.pcs[u].made && (e.pcs[t].Slept? ==> e.state[t] == Sleep)
    ensures var e := End(w, run); e.pcs[t].Slept? && t >= 1 && Next(e, u, WakeAll).state[t] == Ready
  {
    RunKeeps(w, run);
    var e := End(w, run);
    assert ThreadOk(e, t) && ThreadOk(e, u);
  }
}
