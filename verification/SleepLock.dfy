/** sleeplock.c on top of sleep and wakeup. One sleep lock among everything else that
    processes do: its channel is k and its condition is that the lock is free. A process
    outside acquiresleep and releasesleep of this lock, also one that holds it, takes any
    steps with other channels and locks, such as those of other sleep locks. */
module SleepLock {
  import opened Monitor

  /** Where a process is in acquiresleep and releasesleep. */
  datatype Spot = Idle | Want | Got | Holding | Leaving | Waking

  /** owner: the lk->pid field, NOBODY for 0. The field lk->locked is !m.conds[k]. */
  datatype State = State(m: Monitor.State, k: nat, spots: seq<Spot>, owner: int)

  datatype Step =
    | Lock(p: nat)     // acquiresleep: acquire(&lk->lk)
    | Grab(p: nat)     // not locked: set locked and pid
    | Leave(p: nat)    // release(&lk->lk)
    | Unlock(p: nat)   // releasesleep: acquire(&lk->lk)
    | Clear(p: nat)    // clear locked and pid
    | Finish(p: nat)   // after wakeup: release(&lk->lk)
    | Inner(s: Monitor.Step)   // the lines of sleep and wakeup, kkill, and everything else

  predicate Sized(l: State) {
    Shape(l.m) && l.k < |l.m.conds| && |l.spots| == |l.m.procs|
  }

  /** The spinlock lk->lk. */
  function Guard(l: State): nat
    requires Sized(l)
  {
    l.m.guard[l.k]
  }

  /** sleep(k) belongs to acquiresleep and wakeup(k) to releasesleep. Elsewhere a process
      does what it likes, but does not take this lock's spinlock. */
  predicate InnerOk(l: State, s: Monitor.Step)
    requires Sized(l) && s.p < |l.spots|
  {
    match l.spots[s.p]
    case Want => Dozing(s) || Rising(s) || s == TestSleep(s.p, l.k)
    case Waking => !Locking(s) && (s.ScanStart? ==> s.c == l.k)
    case Idle => s != Acquire(s.p, Guard(l))
    case Holding => s != Acquire(s.p, Guard(l))
    case _ => s.Kill?
  }

  /** The step of the monitor that a step is. */
  function Base(l: State, s: Step): Monitor.Step
    requires Sized(l)
  {
    match s
    case Lock(p) => Acquire(p, Guard(l))
    case Grab(p) => SetCond(p, l.k, false)
    case Leave(p) => Release(p, Guard(l))
    case Unlock(p) => Acquire(p, Guard(l))
    case Clear(p) => SetCond(p, l.k, true)
    case Finish(p) => Release(p, Guard(l))
    case Inner(b) => b
  }

  predicate Enabled(l: State, s: Step) {
    && Sized(l) && Monitor.Enabled(l.m, Base(l, s)) && Base(l, s).p < |l.spots|
    && match s
       case Lock(p) => l.spots[p].Idle?
       case Grab(p) => l.spots[p].Want? && l.m.conds[l.k]
       case Leave(p) => l.spots[p].Got?
       case Unlock(p) => l.spots[p].Holding?
       case Clear(p) => l.spots[p].Leaving?
       case Finish(p) => l.spots[p].Waking?
       case Inner(b) => InnerOk(l, b)
  }

  function Next(l: State, s: Step): State
    requires Enabled(l, s)
  {
    var m := Monitor.Next(l.m, Base(l, s));
    match s
    case Lock(p) => l.(m := m, spots := l.spots[p := Want])
    case Grab(p) => l.(m := m, spots := l.spots[p := Got], owner := p)
    case Leave(p) => l.(m := m, spots := l.spots[p := Holding])
    case Unlock(p) => l.(m := m, spots := l.spots[p := Leaving])
    case Clear(p) => l.(m := m, spots := l.spots[p := Waking], owner := NOBODY)
    case Finish(p) => l.(m := m, spots := l.spots[p := Idle])
    case Inner(_) => l.(m := m)
  }

  /** The process has the sleep lock. */
  predicate Holds(spot: Spot) {
    spot.Got? || spot.Holding? || spot.Leaving?
  }

  /** The process is inside the spinlock of the sleep lock, or in sleep under it. */
  predicate Busy(l: State, x: Proc)
    requires Sized(l)
  {
    Guard(l) in x.held || (InSleep(x.pc) && x.pc.c < |l.m.guard| && l.m.guard[x.pc.c] == Guard(l))
  }

  predicate Fits(l: State, p: nat) {
    Sized(l) && p < |l.spots| ==>
      var x := l.m.procs[p];
      && (l.k in x.raised ==> l.spots[p].Waking?)
      && match l.spots[p]
         case Idle => !Busy(l, x)
         case Holding => !Busy(l, x)
         case Got => x.pc.Free? && Guard(l) in x.held
         case Leaving => x.pc.Free? && Guard(l) in x.held
         case Waking => (x.pc.Free? || x.pc.Scan? || x.pc.Look?) && Guard(l) in x.held && l.m.conds[l.k]
         case Want => (x.pc.Free? && Guard(l) in x.held) || (InSleep(x.pc) && x.pc.c == l.k)
  }

  predicate OwnerOk(l: State, p: nat) {
    p < |l.spots| ==> (Holds(l.spots[p]) <==> l.owner == p)
  }

  ghost predicate Inv(l: State) {
    && Monitor.Inv(l.m) && Sized(l) && (forall p :: Fits(l, p)) && (forall p :: OwnerOk(l, p))
    && (l.m.conds[l.k] <==> l.owner == NOBODY) && (l.owner != NOBODY ==> 0 <= l.owner < |l.spots|)
  }

  ghost predicate Init(l: State) {
    && Monitor.Init(l.m) && Sized(l) && l.m.conds[l.k] && l.owner == NOBODY
    && forall p :: 0 <= p < |l.spots| ==> l.spots[p] == Idle
  }

  lemma InitInv(l: State)
    requires Init(l)
    ensures Inv(l)
  {
    Monitor.InitInv(l.m);
  }

  ghost predicate IsRun(l: State, steps: seq<Step>)
    decreases steps
  {
    if steps == [] then true else Enabled(l, steps[0]) && IsRun(Next(l, steps[0]), steps[1..])
  }

  ghost function Run(l: State, steps: seq<Step>): State
    requires IsRun(l, steps)
    decreases steps
  {
    if steps == [] then l else Run(Next(l, steps[0]), steps[1..])
  }

  /** Only one process is inside the spinlock. */
  lemma GuardOnce(l: State, p: nat, q: nat)
    requires Inv(l) && p < |l.spots| && q < |l.spots| && Guard(l) in l.m.procs[p].held && Guard(l) in l.m.procs[q].held
    ensures p == q
  {
    assert HeldOk(l.m, p, Guard(l)) && HeldOk(l.m, q, Guard(l));
  }

  /** The steps of acquiresleep and releasesleep. */
  lemma OwnFits(l: State, s: Step, q: nat)
    requires Inv(l) && Enabled(l, s) && !s.Inner? && q < |l.spots|
    ensures Fits(Next(l, s), q)
  {
    assert Fits(l, q) && Fits(l, s.p) && StateOk(l.m, q);
    if Guard(l) in l.m.procs[q].held && Guard(l) in l.m.procs[s.p].held {
      GuardOnce(l, q, s.p);
    }
  }

  /** A step of the monitor touches this lock's channel only where its process may. */
  lemma LockFits(l: State, s: Monitor.Step, q: nat)
    requires Inv(l) && Enabled(l, Inner(s)) && q < |l.spots| && Locking(s)
    ensures Fits(Next(l, Inner(s)), q)
  {
    assert Fits(l, q) && Fits(l, s.p) && StateOk(l.m, q) && StateOk(l.m, s.p);
  }

  lemma DozeFits(l: State, s: Monitor.Step, q: nat)
    requires Inv(l) && Enabled(l, Inner(s)) && q < |l.spots| && Dozing(s)
    ensures Fits(Next(l, Inner(s)), q)
  {
    assert Fits(l, q) && Fits(l, s.p) && StateOk(l.m, q) && StateOk(l.m, s.p);
  }

  lemma RiseFits(l: State, s: Monitor.Step, q: nat)
    requires Inv(l) && Enabled(l, Inner(s)) && q < |l.spots| && Rising(s)
    ensures Fits(Next(l, Inner(s)), q)
  {
    if s.Kill? {
      KillFits(l, s, q);
    } else {
      assert Fits(l, q) && Fits(l, s.p) && StateOk(l.m, q) && StateOk(l.m, s.p);
    }
  }

  lemma KillFits(l: State, s: Monitor.Step, q: nat)
    requires Inv(l) && Enabled(l, Inner(s)) && q < |l.spots| && s.Kill?
    ensures Fits(Next(l, Inner(s)), q)
  {
    assert Fits(l, q) && Fits(l, s.p) && StateOk(l.m, q) && StateOk(l.m, s.p);
  }

  lemma ScanFits(l: State, s: Monitor.Step, q: nat)
    requires Inv(l) && Enabled(l, Inner(s)) && q < |l.spots| && !Locking(s) && !Dozing(s) && !Rising(s)
    ensures Fits(Next(l, Inner(s)), q)
  {
    assert Fits(l, q) && Fits(l, s.p) && StateOk(l.m, q) && StateOk(l.m, s.p);
  }

  lemma StepFits(l: State, s: Step, q: nat)
    requires Inv(l) && Enabled(l, s) && q < |l.spots|
    ensures Fits(Next(l, s), q)
  {
    if !s.Inner? {
      OwnFits(l, s, q);
    } else if Locking(s.s) {
      LockFits(l, s.s, q);
    } else if Dozing(s.s) {
      DozeFits(l, s.s, q);
    } else if Rising(s.s) {
      RiseFits(l, s.s, q);
    } else {
      ScanFits(l, s.s, q);
    }
  }

  /** Only Grab and Clear change the condition of the channel, and the owner with it. */
  lemma StepOwner(l: State, s: Step)
    requires Inv(l) && Enabled(l, s)
    ensures var n := Next(l, s);
            && (n.m.conds == if s.Grab? then l.m.conds[l.k := false]
                             else if s.Clear? then l.m.conds[l.k := true] else n.m.conds)
            && (s.Inner? ==> |n.m.conds| == |l.m.conds| && n.m.conds[l.k] == l.m.conds[l.k])
            && (s.Lock? || s.Leave? || s.Unlock? || s.Finish? ==> n.m.conds == l.m.conds)
  {
    if s.Inner? && s.s.SetCond? {
      assert Fits(l, s.s.p);
    }
  }

  lemma StepKeeps(l: State, s: Step)
    requires Inv(l) && Enabled(l, s)
    ensures Inv(Next(l, s)) && |Next(l, s).spots| == |l.spots| && Next(l, s).k == l.k
  {
    var n := Next(l, s);
    Monitor.StepKeeps(l.m, Base(l, s));
    StepOwner(l, s);
    forall q: nat
      ensures Fits(n, q)
    {
      if q < |l.spots| {
        StepFits(l, s, q);
      }
    }
    forall q: nat
      ensures OwnerOk(n, q)
    {
      assert OwnerOk(l, q);
      if !s.Inner? {
        assert OwnerOk(l, s.p);
      }
    }
  }

  lemma {:induction false} RunKeeps(l: State, steps: seq<Step>)
    requires Inv(l) && IsRun(l, steps)
    ensures Inv(Run(l, steps)) && |Run(l, steps).spots| == |l.spots| && Run(l, steps).k == l.k
    decreases steps
  {
    if steps != [] {
      StepKeeps(l, steps[0]);
      RunKeeps(Next(l, steps[0]), steps[1..]);
    }
  }

  /** At most one holder, in every reachable state. */
  lemma MutualExclusion(l: State, steps: seq<Step>, p: nat, q: nat)
    requires Init(l) && IsRun(l, steps) && p < |l.spots| && q < |l.spots|
    ensures |Run(l, steps).spots| == |l.spots| && l.k < |Run(l, steps).m.conds|
    ensures Holds(Run(l, steps).spots[p]) && Holds(Run(l, steps).spots[q]) ==> p == q
    ensures Holds(Run(l, steps).spots[p]) ==> !Run(l, steps).m.conds[l.k]
  {
    InitInv(l);
    RunKeeps(l, steps);
    assert OwnerOk(Run(l, steps), p) && OwnerOk(Run(l, steps), q);
  }

  /** A process asleep on the lock's channel wants the lock; and if the lock is free, the
      process that released it is about to wake the sleeper: nobody is stranded. */
  lemma NoStrandedSleeper(l: State, steps: seq<Step>, p: nat)
    requires Init(l) && IsRun(l, steps) && p < |l.spots|
    ensures var n := Run(l, steps);
            && |n.spots| == |l.spots| && Sized(n) && n.k == l.k
            && (n.m.procs[p].state.Sleeping? && n.m.procs[p].chan == l.k ==> n.spots[p].Want?)
            && (n.m.procs[p].state.Sleeping? && n.m.procs[p].chan == l.k && n.m.conds[l.k] ==>
                  && WakeupComing(n.m, p, l.k) && n.m.lks[Guard(n)] < |n.spots| && n.spots[n.m.lks[Guard(n)]].Waking?)
  {
    InitInv(l);
    RunKeeps(l, steps);
    var n := Run(l, steps);
    assert StateOk(n.m, p) && Fits(n, p);
    if n.m.procs[p].state.Sleeping? && n.m.procs[p].chan == l.k && n.m.conds[l.k] {
      WakeupIsComing(n.m, p);
      assert Fits(n, n.m.lks[Guard(n)]);
    }
  }

  /** holdingsleep, read under lk->lk, tells the holder and only the holder. */
  lemma HoldingSleepIsExact(l: State, steps: seq<Step>, p: nat)
    requires Init(l) && IsRun(l, steps) && p < |l.spots|
    ensures var n := Run(l, steps);
            |n.spots| == |l.spots| && l.k < |n.m.conds| && ((!n.m.conds[l.k] && n.owner == p) <==> Holds(n.spots[p]))
  {
    InitInv(l);
    RunKeeps(l, steps);
    assert OwnerOk(Run(l, steps), p);
  }
}
