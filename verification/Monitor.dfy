/** sleep and wakeup (proc.c) as an interleaving machine. There are any number of channels;
    each has a condition that its sleepers wait for, and a condition lock, which several
    channels can share. A process holding the lock of a channel may change the condition or
    test it and sleep; any process may scan the process table in wakeup. Every spinlock
    acquire and release is a step of its own, for condition locks and for each p->lock. */
module Monitor {
  datatype RunState = Running | Runnable | Sleeping

  /** Where a process is. Scan: wakeup(c) has passed `pos` table entries. Look: wakeup(c)
      holds the p->lock of entry `pos`. Enter .. Switching are the lines of sleep(c, lk) up
      to the switch, Woken and Reacquire the lines after it. */
  datatype Pc = Free | Scan(c: nat, pos: nat) | Look(c: nat, pos: nat)
              | Enter(c: nat) | GotLock(c: nat) | Unlocked(c: nat) | Switching(c: nat) | Asleep(c: nat)
              | Woken(c: nat) | Reacquire(c: nat)

  /** chan: p->chan, NOBODY for 0. held: the condition locks of this process. raised: the
      channels whose condition it made true and which it has not scanned for since. */
  datatype Proc = Proc(pc: Pc, state: RunState, chan: int, held: set<nat>, raised: set<nat>)

  /** guard[c]: the condition lock of channel c. lks[l]: the holder of condition lock l;
      locks[p]: the holder of p->lock. */
  datatype State = State(conds: seq<bool>, guard: seq<nat>, lks: seq<int>, locks: seq<int>, procs: seq<Proc>)

  const NOBODY := -1

  datatype Step =
    // a process and its condition locks
    | Acquire(p: nat, l: nat) | Release(p: nat, l: nat) | SetCond(p: nat, c: nat, v: bool) | TestSleep(p: nat, c: nat)
    // sleep
    | TakeOwn(p: nat)      // acquire(&p->lock)
    | DropLk(p: nat)       // release(lk)
    | Doze(p: nat)         // p->chan = chan; p->state = SLEEPING
    | Switch(p: nat)       // sched: the scheduler releases p->lock
    | Resume(p: nat)       // the scheduler takes p->lock and runs p
    | Tidy(p: nat)         // p->chan = 0; release(&p->lock)
    | Retake(p: nat)       // acquire(lk)
    | Kill(p: nat)         // kkill wakes p whatever it sleeps for
    // wakeup
    | ScanStart(p: nat, c: nat)
    | ScanTake(p: nat)     // acquire the next entry's lock
    | ScanWake(p: nat)     // wake it if it sleeps on the channel; release its lock
    | ScanSelf(p: nat)     // skip the caller
    | ScanEnd(p: nat)

  predicate Shape(m: State) {
    |m.guard| == |m.conds| && |m.locks| == |m.procs| && forall c :: 0 <= c < |m.guard| ==> m.guard[c] < |m.lks|
  }

  function SetProc(m: State, p: nat, x: Proc): State
    requires p < |m.procs|
  {
    m.(procs := m.procs[p := x])
  }

  // Condition locks.

  /** A lock is released, also by sleep, only when every channel of it that was raised has
      been scanned for: the changer calls wakeup before it lets go. */
  predicate Settled(m: State, x: Proc, l: nat) {
    forall c :: c in x.raised && c < |m.guard| ==> m.guard[c] != l
  }

  predicate LockEnabled(m: State, s: Step) {
    && Shape(m) && s.p < |m.procs|
    && var x := m.procs[s.p];
    match s
    case Acquire(_, l) => x.pc.Free? && l < |m.lks| && m.lks[l] == NOBODY
    case Release(_, l) => x.pc.Free? && l < |m.lks| && l in x.held && Settled(m, x, l)
    case SetCond(_, c, _) => x.pc.Free? && c < |m.conds| && m.guard[c] in x.held
    case TestSleep(_, c) => x.pc.Free? && c < |m.conds| && x.held == {m.guard[c]} && !m.conds[c]
        && Settled(m, x, m.guard[c])
    case _ => false
  }

  function Raised(m: State, x: Proc, c: nat, v: bool): set<nat>
    requires c < |m.conds|
  {
    if !v then x.raised - {c} else if m.conds[c] then x.raised else x.raised + {c}
  }

  function LockNext(m: State, s: Step): State
    requires LockEnabled(m, s)
  {
    var x := m.procs[s.p];
    match s
    case Acquire(p, l) => SetProc(m, p, x.(held := x.held + {l})).(lks := m.lks[l := p])
    case Release(p, l) => SetProc(m, p, x.(held := x.held - {l})).(lks := m.lks[l := NOBODY])
    case SetCond(p, c, v) => SetProc(m, p, x.(raised := Raised(m, x, c, v))).(conds := m.conds[c := v])
    case TestSleep(p, c) => SetProc(m, p, x.(pc := Enter(c)))
  }

  // sleep up to the switch.

  predicate DozeEnabled(m: State, s: Step) {
    && Shape(m) && s.p < |m.procs|
    && var x := m.procs[s.p];
    match s
    case TakeOwn(p) => x.pc.Enter? && m.locks[p] == NOBODY
    case DropLk(_) => x.pc.GotLock? && x.pc.c < |m.guard|
    case Doze(_) => x.pc.Unlocked?
    case Switch(_) => x.pc.Switching?
    case _ => false
  }

  function DozeNext(m: State, s: Step): State
    requires DozeEnabled(m, s)
  {
    var x := m.procs[s.p];
    match s
    case TakeOwn(p) => SetProc(m, p, x.(pc := GotLock(x.pc.c))).(locks := m.locks[p := p])
    case DropLk(p) =>
      var l := m.guard[x.pc.c];
      SetProc(m, p, x.(pc := Unlocked(x.pc.c), held := x.held - {l})).(lks := m.lks[l := NOBODY])
    case Doze(p) => SetProc(m, p, x.(pc := Switching(x.pc.c), state := Sleeping, chan := x.pc.c))
    case Switch(p) => SetProc(m, p, x.(pc := Asleep(x.pc.c))).(locks := m.locks[p := NOBODY])
  }

  // sleep after the switch, and kkill.

  function Wake(x: Proc): Proc {
    if x.state.Sleeping? then x.(state := Runnable) else x
  }

  predicate RiseEnabled(m: State, s: Step) {
    && Shape(m) && s.p < |m.procs|
    && var x := m.procs[s.p];
    match s
    case Resume(p) => x.pc.Asleep? && x.state.Runnable? && m.locks[p] == NOBODY
    case Tidy(_) => x.pc.Woken?
    case Retake(_) => x.pc.Reacquire? && x.pc.c < |m.guard| && m.lks[m.guard[x.pc.c]] == NOBODY
    case Kill(p) => m.locks[p] == NOBODY
    case _ => false
  }

  function RiseNext(m: State, s: Step): State
    requires RiseEnabled(m, s)
  {
    var x := m.procs[s.p];
    match s
    case Resume(p) => SetProc(m, p, x.(pc := Woken(x.pc.c), state := Running)).(locks := m.locks[p := p])
    case Tidy(p) => SetProc(m, p, x.(pc := Reacquire(x.pc.c), chan := NOBODY)).(locks := m.locks[p := NOBODY])
    case Retake(p) =>
      var l := m.guard[x.pc.c];
      SetProc(m, p, x.(pc := Free, held := x.held + {l})).(lks := m.lks[l := p])
    case Kill(p) => SetProc(m, p, Wake(x))
  }

  // wakeup.

  predicate ScanEnabled(m: State, s: Step) {
    && Shape(m) && s.p < |m.procs|
    && var x := m.procs[s.p];
    match s
    case ScanStart(_, _) => x.pc.Free?
    case ScanTake(p) => x.pc.Scan? && x.pc.pos < |m.procs| && x.pc.pos != p && m.locks[x.pc.pos] == NOBODY
    case ScanWake(_) => x.pc.Look? && x.pc.pos < |m.procs|
    case ScanSelf(p) => x.pc.Scan? && x.pc.pos == p
    case ScanEnd(_) => x.pc.Scan? && x.pc.pos == |m.procs|
    case _ => false
  }

  /** p->state == SLEEPING && p->chan == chan */
  function WakeOn(y: Proc, c: nat): Proc {
    if y.state.Sleeping? && y.chan == c then y.(state := Runnable) else y
  }

  function ScanNext(m: State, s: Step): State
    requires ScanEnabled(m, s)
  {
    var x := m.procs[s.p];
    match s
    case ScanStart(p, c) => SetProc(m, p, x.(pc := Scan(c, 0)))
    case ScanTake(p) => SetProc(m, p, x.(pc := Look(x.pc.c, x.pc.pos))).(locks := m.locks[x.pc.pos := p])
    case ScanWake(p) =>
      var j := x.pc.pos;
      SetProc(SetProc(m, j, WakeOn(m.procs[j], x.pc.c)), p,
              x.(pc := Scan(x.pc.c, j + 1))).(locks := m.locks[j := NOBODY])
    case ScanSelf(p) => SetProc(m, p, x.(pc := Scan(x.pc.c, p + 1)))
    case ScanEnd(p) => SetProc(m, p, x.(pc := Free, raised := x.raised - {x.pc.c}))
  }

  // The kinds of steps.

  predicate Locking(s: Step) {
    s.Acquire? || s.Release? || s.SetCond? || s.TestSleep?
  }

  predicate Dozing(s: Step) {
    s.TakeOwn? || s.DropLk? || s.Doze? || s.Switch?
  }

  predicate Rising(s: Step) {
    s.Resume? || s.Tidy? || s.Retake? || s.Kill?
  }

  predicate Enabled(m: State, s: Step) {
    if Locking(s) then LockEnabled(m, s)
    else if Dozing(s) then DozeEnabled(m, s)
    else if Rising(s) then RiseEnabled(m, s)
    else ScanEnabled(m, s)
  }

  function Next(m: State, s: Step): State
    requires Enabled(m, s)
  {
    if Locking(s) then LockNext(m, s)
    else if Dozing(s) then DozeNext(m, s)
    else if Rising(s) then RiseNext(m, s)
    else ScanNext(m, s)
  }

  // The invariant, one process at a time.

  /** In sleep, from the call to its return. */
  predicate InSleep(pc: Pc) {
    pc.Enter? || pc.GotLock? || pc.Unlocked? || pc.Switching? || pc.Asleep? || pc.Woken? || pc.Reacquire?
  }

  /** The process holds its own p->lock at this point. */
  predicate OwnsSelf(pc: Pc) {
    pc.GotLock? || pc.Unlocked? || pc.Switching? || pc.Woken?
  }

  /** Committed to sleeping and not woken: what a wakeup must not miss. */
  predicate Waiting(x: Proc) {
    x.pc.Unlocked? || x.pc.Switching? || (x.pc.Asleep? && x.state.Sleeping?)
  }

  predicate WaitsOn(x: Proc, c: nat) {
    Waiting(x) && x.pc.c == c
  }

  /** Condition lock l is held by p exactly if p thinks so. */
  predicate HeldOk(m: State, p: nat, l: nat) {
    p < |m.procs| ==> (l in m.procs[p].held <==> l < |m.lks| && m.lks[l] == p)
  }

  predicate OwnOk(m: State, p: nat) {
    p < |m.procs| == |m.locks| ==>
      var pc := m.procs[p].pc;
      && (OwnsSelf(pc) ==> m.locks[p] == p)
      && (pc.Look? ==> pc.pos < |m.procs| && pc.pos != p && m.locks[pc.pos] == p)
      && (pc.Scan? ==> pc.pos <= |m.procs|)
  }

  predicate StateOk(m: State, p: nat) {
    p < |m.procs| && |m.guard| == |m.conds| ==>
      var x := m.procs[p];
      && (x.pc.Switching? ==> x.state.Sleeping?)
      && (x.state.Sleeping? ==> x.pc.Switching? || x.pc.Asleep?)
      && x.chan == (if x.pc.Switching? || x.pc.Asleep? || x.pc.Woken? then x.pc.c else NOBODY)
      && (InSleep(x.pc) ==> x.pc.c < |m.guard|)
      && (InSleep(x.pc) ==> x.held == if x.pc.Enter? || x.pc.GotLock? then {m.guard[x.pc.c]} else {})
      && (InSleep(x.pc) ==> x.raised == {})
      && (x.pc.Enter? || x.pc.GotLock? ==> !m.conds[x.pc.c])
  }

  /** What is raised holds, and its lock is held. */
  predicate RaisedOk(m: State, p: nat, c: nat) {
    p < |m.procs| && |m.guard| == |m.conds| && c in m.procs[p].raised ==>
      c < |m.guard| && m.conds[c] && m.guard[c] in m.procs[p].held
  }

  /** How far the process is in a wakeup of channel c. */
  function Passed(pc: Pc, c: nat): nat {
    if (pc.Scan? || pc.Look?) && pc.c == c then pc.pos else 0
  }

  /** An entry that a scan for c, under c's lock, has passed is not waiting on c: it was
      woken, or was not asleep, and it cannot sleep on c again without the lock. */
  predicate PassedOk(m: State, h: nat, c: nat, p: nat) {
    h < |m.procs| && c < |m.guard| && m.guard[c] in m.procs[h].held && p < |m.procs| && p < Passed(m.procs[h].pc, c)
        && p != h ==>
      !WaitsOn(m.procs[p], c)
  }

  /** Nobody waits for a condition that holds, unless the holder of its lock raised it and
      has not finished a scan for it since. */
  predicate WaitOk(m: State, p: nat) {
    p < |m.procs| && Waiting(m.procs[p]) ==>
      var c := m.procs[p].pc.c;
      c < |m.guard| && c < |m.conds| && m.guard[c] < |m.lks|
      && (m.conds[c] ==> var h := m.lks[m.guard[c]]; 0 <= h < |m.procs| && c in m.procs[h].raised)
  }

  predicate LksOk(m: State, l: nat) {
    l < |m.lks| ==> m.lks[l] == NOBODY || 0 <= m.lks[l] < |m.procs|
  }

  ghost predicate Inv(m: State) {
    && Shape(m) && (forall l :: LksOk(m, l)) && (forall p, l :: HeldOk(m, p, l)) && (forall p :: OwnOk(m, p))
    && (forall p :: StateOk(m, p)) && (forall p, c :: RaisedOk(m, p, c))
    && (forall h, c, p :: PassedOk(m, h, c, p)) && forall p :: WaitOk(m, p)
  }

  /** A process that can go to sleep has raised nothing. */
  lemma NothingRaised(m: State, p: nat, c: nat)
    requires Inv(m) && p < |m.procs| && c < |m.guard| && m.procs[p].held == {m.guard[c]}
             && Settled(m, m.procs[p], m.guard[c])
    ensures m.procs[p].raised == {}
  {
    forall d: nat
      ensures d !in m.procs[p].raised
    {
      assert RaisedOk(m, p, d);
    }
  }

  lemma LockHeld(m: State, s: Step, q: nat, l: nat)
    requires Inv(m) && LockEnabled(m, s)
    ensures HeldOk(LockNext(m, s), q, l)
  {
    assert HeldOk(m, q, l) && HeldOk(m, s.p, l) && StateOk(m, s.p);
  }

  lemma DozeHeld(m: State, s: Step, q: nat, l: nat)
    requires Inv(m) && DozeEnabled(m, s)
    ensures HeldOk(DozeNext(m, s), q, l)
  {
    assert HeldOk(m, q, l) && HeldOk(m, s.p, l) && StateOk(m, s.p);
  }

  lemma RiseHeld(m: State, s: Step, q: nat, l: nat)
    requires Inv(m) && RiseEnabled(m, s)
    ensures HeldOk(RiseNext(m, s), q, l)
  {
    assert HeldOk(m, q, l) && HeldOk(m, s.p, l) && StateOk(m, s.p);
  }

  lemma ScanHeld(m: State, s: Step, q: nat, l: nat)
    requires Inv(m) && ScanEnabled(m, s)
    ensures HeldOk(ScanNext(m, s), q, l)
  {
    assert HeldOk(m, q, l) && HeldOk(m, s.p, l) && StateOk(m, s.p);
  }

  lemma LockOwn(m: State, s: Step, q: nat)
    requires Inv(m) && LockEnabled(m, s)
    ensures OwnOk(LockNext(m, s), q)
  {
    assert OwnOk(m, q) && OwnOk(m, s.p);
  }

  lemma DozeOwn(m: State, s: Step, q: nat)
    requires Inv(m) && DozeEnabled(m, s)
    ensures OwnOk(DozeNext(m, s), q)
  {
    assert OwnOk(m, q) && OwnOk(m, s.p);
  }

  lemma RiseOwn(m: State, s: Step, q: nat)
    requires Inv(m) && RiseEnabled(m, s)
    ensures OwnOk(RiseNext(m, s), q)
  {
    assert OwnOk(m, q) && OwnOk(m, s.p);
  }

  lemma ScanOwn(m: State, s: Step, q: nat)
    requires Inv(m) && ScanEnabled(m, s)
    ensures OwnOk(ScanNext(m, s), q)
  {
    assert OwnOk(m, q) && OwnOk(m, s.p);
  }

  lemma LockState(m: State, s: Step, q: nat)
    requires Inv(m) && LockEnabled(m, s)
    ensures StateOk(LockNext(m, s), q)
  {
    var x := m.procs[s.p];
    assert StateOk(m, q) && StateOk(m, s.p);
    if s.SetCond? {
      assert HeldOk(m, q, m.guard[s.c]) && HeldOk(m, s.p, m.guard[s.c]);
    } else if s.TestSleep? {
      NothingRaised(m, s.p, s.c);
    }
  }

  lemma DozeState(m: State, s: Step, q: nat)
    requires Inv(m) && DozeEnabled(m, s)
    ensures StateOk(DozeNext(m, s), q)
  {
    assert StateOk(m, q) && StateOk(m, s.p);
  }

  lemma RiseState(m: State, s: Step, q: nat)
    requires Inv(m) && RiseEnabled(m, s)
    ensures StateOk(RiseNext(m, s), q)
  {
    assert StateOk(m, q) && StateOk(m, s.p) && OwnOk(m, s.p);
  }

  lemma ScanState(m: State, s: Step, q: nat)
    requires Inv(m) && ScanEnabled(m, s)
    ensures StateOk(ScanNext(m, s), q)
  {
    assert StateOk(m, q) && StateOk(m, s.p);
    assert OwnOk(m, q) && OwnOk(m, s.p);
  }

  lemma LockRaised(m: State, s: Step, q: nat, c: nat)
    requires Inv(m) && LockEnabled(m, s)
    ensures RaisedOk(LockNext(m, s), q, c)
  {
    assert RaisedOk(m, q, c) && RaisedOk(m, s.p, c);
    if s.SetCond? && c < |m.guard| {
      assert HeldOk(m, q, m.guard[c]) && HeldOk(m, s.p, m.guard[c]);
    }
  }

  lemma DozeRaised(m: State, s: Step, q: nat, c: nat)
    requires Inv(m) && DozeEnabled(m, s)
    ensures RaisedOk(DozeNext(m, s), q, c)
  {
    assert RaisedOk(m, q, c) && RaisedOk(m, s.p, c) && StateOk(m, s.p);
  }

  lemma RiseRaised(m: State, s: Step, q: nat, c: nat)
    requires Inv(m) && RiseEnabled(m, s)
    ensures RaisedOk(RiseNext(m, s), q, c)
  {
    assert RaisedOk(m, q, c) && RaisedOk(m, s.p, c) && StateOk(m, s.p);
  }

  lemma ScanRaised(m: State, s: Step, q: nat, c: nat)
    requires Inv(m) && ScanEnabled(m, s)
    ensures RaisedOk(ScanNext(m, s), q, c)
  {
    assert RaisedOk(m, q, c) && RaisedOk(m, s.p, c) && StateOk(m, s.p);
  }

  lemma LockPassed(m: State, s: Step, h: nat, c: nat, q: nat)
    requires Inv(m) && LockEnabled(m, s)
    ensures PassedOk(LockNext(m, s), h, c, q)
  {
    assert PassedOk(m, h, c, q);
  }

  lemma DozePassed(m: State, s: Step, h: nat, c: nat, q: nat)
    requires Inv(m) && DozeEnabled(m, s)
    ensures PassedOk(DozeNext(m, s), h, c, q)
  {
    assert PassedOk(m, h, c, q);
    if s.DropLk? && c < |m.guard| {
      assert StateOk(m, s.p) && HeldOk(m, s.p, m.guard[c]) && HeldOk(m, h, m.guard[c]);
    }
  }

  lemma RisePassed(m: State, s: Step, h: nat, c: nat, q: nat)
    requires Inv(m) && RiseEnabled(m, s)
    ensures PassedOk(RiseNext(m, s), h, c, q)
  {
    assert PassedOk(m, h, c, q);
  }

  lemma ScanPassed(m: State, s: Step, h: nat, c: nat, q: nat)
    requires Inv(m) && ScanEnabled(m, s)
    ensures PassedOk(ScanNext(m, s), h, c, q)
  {
    assert PassedOk(m, h, c, q);
    assert OwnOk(m, s.p) && OwnOk(m, q) && StateOk(m, q) && StateOk(m, s.p);
  }

  lemma LockWait(m: State, s: Step, q: nat)
    requires Inv(m) && LockEnabled(m, s)
    ensures WaitOk(LockNext(m, s), q)
  {
    assert WaitOk(m, q) && StateOk(m, q);
    if q < |m.procs| && Waiting(m.procs[q]) {
      assert HeldOk(m, s.p, m.guard[m.procs[q].pc.c]);
    }
  }

  lemma DozeWait(m: State, s: Step, q: nat)
    requires Inv(m) && DozeEnabled(m, s)
    ensures WaitOk(DozeNext(m, s), q)
  {
    assert WaitOk(m, q) && StateOk(m, q) && StateOk(m, s.p);
    if q < |m.procs| && Waiting(m.procs[q]) {
      assert HeldOk(m, s.p, m.guard[m.procs[q].pc.c]);
    }
  }

  lemma RiseWait(m: State, s: Step, q: nat)
    requires Inv(m) && RiseEnabled(m, s)
    ensures WaitOk(RiseNext(m, s), q)
  {
    assert WaitOk(m, q) && StateOk(m, q) && StateOk(m, s.p);
  }

  lemma ScanWait(m: State, s: Step, q: nat)
    requires Inv(m) && ScanEnabled(m, s)
    ensures WaitOk(ScanNext(m, s), q)
  {
    if s.ScanEnd? {
      ScanEndWait(m, s, q);
    } else {
      assert WaitOk(m, q) && StateOk(m, q) && OwnOk(m, q) && OwnOk(m, s.p);
    }
  }

  lemma ScanEndWait(m: State, s: Step, q: nat)
    requires Inv(m) && ScanEnabled(m, s) && s.ScanEnd?
    ensures WaitOk(ScanNext(m, s), q)
  {
    assert WaitOk(m, q) && StateOk(m, q);
    if q < |m.procs| && Waiting(m.procs[q]) {
      var c := m.procs[q].pc.c;
      assert RaisedOk(m, s.p, c) && PassedOk(m, s.p, c, q);
    }
  }

  lemma StepHeld(m: State, s: Step, q: nat, l: nat)
    requires Inv(m) && Enabled(m, s)
    ensures HeldOk(Next(m, s), q, l)
  {
    if Locking(s) {
      LockHeld(m, s, q, l);
    } else if Dozing(s) {
      DozeHeld(m, s, q, l);
    } else if Rising(s) {
      RiseHeld(m, s, q, l);
    } else {
      ScanHeld(m, s, q, l);
    }
  }

  lemma StepOwn(m: State, s: Step, q: nat)
    requires Inv(m) && Enabled(m, s)
    ensures OwnOk(Next(m, s), q)
  {
    if Locking(s) {
      LockOwn(m, s, q);
    } else if Dozing(s) {
      DozeOwn(m, s, q);
    } else if Rising(s) {
      RiseOwn(m, s, q);
    } else {
      ScanOwn(m, s, q);
    }
  }

  lemma StepState(m: State, s: Step, q: nat)
    requires Inv(m) && Enabled(m, s)
    ensures StateOk(Next(m, s), q)
  {
    if Locking(s) {
      LockState(m, s, q);
    } else if Dozing(s) {
      DozeState(m, s, q);
    } else if Rising(s) {
      RiseState(m, s, q);
    } else {
      ScanState(m, s, q);
    }
  }

  lemma StepRaised(m: State, s: Step, q: nat, c: nat)
    requires Inv(m) && Enabled(m, s)
    ensures RaisedOk(Next(m, s), q, c)
  {
    if Locking(s) {
      LockRaised(m, s, q, c);
    } else if Dozing(s) {
      DozeRaised(m, s, q, c);
    } else if Rising(s) {
      RiseRaised(m, s, q, c);
    } else {
      ScanRaised(m, s, q, c);
    }
  }

  lemma StepPassed(m: State, s: Step, h: nat, c: nat, q: nat)
    requires Inv(m) && Enabled(m, s)
    ensures PassedOk(Next(m, s), h, c, q)
  {
    if Locking(s) {
      LockPassed(m, s, h, c, q);
    } else if Dozing(s) {
      DozePassed(m, s, h, c, q);
    } else if Rising(s) {
      RisePassed(m, s, h, c, q);
    } else {
      ScanPassed(m, s, h, c, q);
    }
  }

  lemma StepWait(m: State, s: Step, q: nat)
    requires Inv(m) && Enabled(m, s)
    ensures WaitOk(Next(m, s), q)
  {
    if Locking(s) {
      LockWait(m, s, q);
    } else if Dozing(s) {
      DozeWait(m, s, q);
    } else if Rising(s) {
      RiseWait(m, s, q);
    } else {
      ScanWait(m, s, q);
    }
  }

  lemma StepShape(m: State, s: Step)
    requires Inv(m) && Enabled(m, s)
    ensures Shape(Next(m, s)) && |Next(m, s).procs| == |m.procs| && Next(m, s).guard == m.guard
            && |Next(m, s).lks| == |m.lks|
    ensures forall l :: LksOk(Next(m, s), l)
  {
    forall l: nat
      ensures LksOk(Next(m, s), l)
    {
      assert LksOk(m, l);
    }
  }

  lemma StepKeeps(m: State, s: Step)
    requires Inv(m) && Enabled(m, s)
    ensures Inv(Next(m, s)) && |Next(m, s).procs| == |m.procs| && Next(m, s).guard == m.guard
  {
    var n := Next(m, s);
    StepShape(m, s);
    forall p: nat, l: nat
      ensures HeldOk(n, p, l)
    {
      StepHeld(m, s, p, l);
    }
    forall p: nat
      ensures OwnOk(n, p)
    {
      StepOwn(m, s, p);
    }
    forall p: nat
      ensures StateOk(n, p)
    {
      StepState(m, s, p);
    }
    forall p: nat
      ensures WaitOk(n, p)
    {
      StepWait(m, s, p);
    }
    forall p: nat, c: nat
      ensures RaisedOk(n, p, c)
    {
      StepRaised(m, s, p, c);
    }
    forall h: nat, c: nat, p: nat
      ensures PassedOk(n, h, c, p)
    {
      StepPassed(m, s, h, c, p);
    }
  }

  // Runs.

  /** Any channels and locks; every process outside sleep and wakeup, with no lock. */
  ghost predicate Init(m: State) {
    && Shape(m) && (forall l :: 0 <= l < |m.lks| ==> m.lks[l] == NOBODY)
    && forall p :: 0 <= p < |m.procs| ==> m.locks[p] == NOBODY && m.procs[p] == Proc(Free, Running, NOBODY, {}, {})
  }

  lemma InitInv(m: State)
    requires Init(m)
    ensures Inv(m)
  {
  }

  ghost predicate IsRun(m: State, steps: seq<Step>)
    decreases steps
  {
    if steps == [] then true else Enabled(m, steps[0]) && IsRun(Next(m, steps[0]), steps[1..])
  }

  ghost function Run(m: State, steps: seq<Step>): State
    requires IsRun(m, steps)
    decreases steps
  {
    if steps == [] then m else Run(Next(m, steps[0]), steps[1..])
  }

  lemma {:induction false} RunKeeps(m: State, steps: seq<Step>)
    requires Inv(m) && IsRun(m, steps)
    ensures Inv(Run(m, steps)) && |Run(m, steps).procs| == |m.procs| && Run(m, steps).guard == m.guard
    decreases steps
  {
    if steps != [] {
      StepKeeps(m, steps[0]);
      RunKeeps(Next(m, steps[0]), steps[1..]);
    }
  }

  /** The holder of c's lock made c's condition true, has not finished a wakeup(c) since, and
      the one it is in, if any, has not passed p yet. Until it has, it keeps the lock. */
  predicate WakeupComing(m: State, p: nat, c: nat) {
    && c < |m.guard| && m.guard[c] < |m.lks|
    && var h := m.lks[m.guard[c]];
    0 <= h < |m.procs| && h != p && c in m.procs[h].raised && Passed(m.procs[h].pc, c) <= p
  }

  lemma WakeupIsComing(m: State, p: nat)
    requires Inv(m) && p < |m.procs| && Waiting(m.procs[p])
    ensures m.procs[p].pc.c < |m.conds| && (m.conds[m.procs[p].pc.c] ==> WakeupComing(m, p, m.procs[p].pc.c))
  {
    var c := m.procs[p].pc.c;
    assert WaitOk(m, p) && StateOk(m, p);
    if m.conds[c] {
      var h := m.lks[m.guard[c]];
      assert RaisedOk(m, h, c) && PassedOk(m, h, c, p);
    }
  }

  /** No lost wakeup: in every reachable state, a process that sleeps on a channel although
      its condition holds is still ahead of a wakeup of that channel. */
  lemma NoLostWakeup(m: State, steps: seq<Step>, p: nat)
    requires Init(m) && IsRun(m, steps) && p < |m.procs|
    ensures var n := Run(m, steps);
            && |n.procs| == |m.procs|
            && (n.procs[p].state.Sleeping? ==>
                  0 <= n.procs[p].chan < |n.conds|
                      && (n.conds[n.procs[p].chan] ==> WakeupComing(n, p, n.procs[p].chan)))
  {
    InitInv(m);
    RunKeeps(m, steps);
    var n := Run(m, steps);
    assert StateOk(n, p);
    if n.procs[p].state.Sleeping? {
      WakeupIsComing(n, p);
    }
  }

  /** And that wakeup does wake it: the scan leaves no sleeper on the channel behind. */
  lemma ScanWakes(m: State, s: Step, q: nat)
    requires Inv(m) && s.ScanWake? && Enabled(m, s) && m.procs[s.p].pc.pos == q && m.procs[q].state.Sleeping?
    requires m.procs[q].chan == m.procs[s.p].pc.c
    ensures Next(m, s).procs[q].state.Runnable?
  {
    assert OwnOk(m, s.p);
  }
}
