/** kfork, kexit and kwait (proc.c) as an interleaving machine over the process table. The
    wait_lock is taken and released in steps of its own, and so is a p->lock that is held
    over several lines; a p->lock held for one test or update makes that line one step. */
module ExitWait {
  datatype RunState = Unused | Used | Active | Sleeping | Zombie

  datatype Pc =
    | User
    | ForkCopy(c: nat)          // allocproc returned slot c, whose lock is held
    | ForkLink(c: nat)          // the child's lock is released
    | ForkLinked(c: nat)        // holds wait_lock; the child's parent is set
    | ForkRun(c: nat)           // wait_lock is released; the child is to be made runnable
    | ExitScan(j: nat)          // holds wait_lock; reparent has handled the entries below j
    | ExitInit(j: nat, k: nat)  // entry j was given to init; wakeup(initproc) is at entry k
    | ExitWake(k: nat)          // wakeup(p->parent) is at entry k
    | ExitLast                  // holds both locks; is a zombie
    | ExitSwitch                // wait_lock is released; has not left its stack yet
    | Gone                      // not running: unused, being made, or a finished zombie
    | WaitScan(j: nat, kids: bool)  // holds wait_lock; kwait has looked at the entries below j
    | SleepIn                   // in sleep: holds wait_lock
    | SleepGot                  // holds wait_lock and its own lock
    | SleepSet                  // holds its own lock
    | SleepSwitch               // is SLEEPING, still holds its own lock
    | Asleep
    | Woken                     // runs again, holds its own lock
    | Rewait                    // about to take wait_lock

  /** For the proofs: maker is the process whose kfork is making this one; exits and reaps
      count how often a process in this slot became a zombie and how often one was freed. */
  datatype Proc = Proc(pc: Pc, state: RunState, parent: int, maker: int, exits: nat, reaps: nat)

  datatype State = State(procs: seq<Proc>, waitLock: int, locks: seq<int>, init: nat)

  const NOBODY := -1

  datatype Step =
    // kfork
    | ForkAlloc(p: nat,
                c: nat) | ForkFail(p: nat) | ForkUnlock(p: nat) | ForkParent(p: nat) | ForkDrop(p: nat) | ForkGo(p: nat)
    // kexit
    | ExitTake(p: nat) | Reparent(p: nat) | Skip(p: nat) | ScanEnd(p: nat) | WakeInit(p: nat) | InitEnd(p: nat)
    | WakeParent(p: nat) | Die(p: nat) | ExitDrop(p: nat) | ExitGone(p: nat)
    // kwait
    | WaitTake(p: nat) | WaitLook(p: nat) | Reap(p: nat) | ReapFault(p: nat) | WaitFail(p: nat) | WaitSleep(p: nat)
    // sleep, the scheduler and kkill
    | TakeOwn(p: nat) | DropWait(p: nat) | Doze(p: nat) | Switch(p: nat)
    | Resume(p: nat) | Tidy(p: nat) | Retake(p: nat) | Kill(p: nat)

  function SetProc(m: State, p: nat, x: Proc): State
    requires p < |m.procs|
  {
    m.(procs := m.procs[p := x])
  }

  /** A step of p that also changes entry o. */
  function Both(m: State, o: nat, y: Proc, p: nat, x: Proc): State
    requires o < |m.procs| && p < |m.procs|
  {
    m.(procs := m.procs[o := y][p := x])
  }

  /** The p->lock of entry k is free, or k is the caller, which wakeup skips. */
  predicate CanLook(m: State, p: nat, k: nat) {
    k < |m.procs| == |m.locks| && (k == p || m.locks[k] == NOBODY)
  }

  function Wake(x: Proc): Proc {
    if x.state.Sleeping? then x.(state := Active) else x
  }

  /** wakeup(target) at entry k: only the target itself sleeps on that channel. */
  function WakeIf(m: State, p: nat, k: nat, target: int): Proc
    requires k < |m.procs|
  {
    if k == target && k != p then Wake(m.procs[k]) else m.procs[k]
  }

  // kfork: making a process.

  predicate MakeEnabled(m: State, s: Step) {
    && s.p < |m.procs| == |m.locks|
    && var pc := m.procs[s.p].pc;
    match s
    case ForkAlloc(p, c) => pc.User? && c < |m.procs| && m.procs[c].state.Unused? && m.locks[c] == NOBODY
    case ForkFail(p) => pc.ForkCopy? && pc.c < |m.procs|
    case ForkUnlock(p) => pc.ForkCopy? && pc.c < |m.procs|
    case _ => false
  }

  function MakeNext(m: State, s: Step): State
    requires MakeEnabled(m, s)
  {
    var p, x := s.p, m.procs[s.p];
    match s
    case ForkAlloc(_, c) =>
      Both(m, c, m.procs[c].(state := Used, maker := p), p, x.(pc := ForkCopy(c))).(locks := m.locks[c := p])
    case ForkFail(_) =>
      Both(m, x.pc.c, m.procs[x.pc.c].(state := Unused, maker := NOBODY), p,
           x.(pc := User)).(locks := m.locks[x.pc.c := NOBODY])
    case ForkUnlock(_) => SetProc(m, p, x.(pc := ForkLink(x.pc.c))).(locks := m.locks[x.pc.c := NOBODY])
  }

  // kfork: linking it to its parent and starting it.

  predicate StartEnabled(m: State, s: Step) {
    && s.p < |m.procs| == |m.locks|
    && var pc := m.procs[s.p].pc;
    match s
    case ForkParent(p) => pc.ForkLink? && m.waitLock == NOBODY && pc.c < |m.procs|
    case ForkDrop(p) => pc.ForkLinked?
    case ForkGo(p) => pc.ForkRun? && pc.c < |m.procs| && m.locks[pc.c] == NOBODY
    case _ => false
  }

  function StartNext(m: State, s: Step): State
    requires StartEnabled(m, s)
  {
    var p, x := s.p, m.procs[s.p];
    match s
    case ForkParent(_) =>
      Both(m, x.pc.c, m.procs[x.pc.c].(parent := p), p, x.(pc := ForkLinked(x.pc.c))).(waitLock := p)
    case ForkDrop(_) => SetProc(m, p, x.(pc := ForkRun(x.pc.c))).(waitLock := NOBODY)
    case ForkGo(_) =>
      Both(m, x.pc.c, m.procs[x.pc.c].(state := Active, pc := User, maker := NOBODY), p, x.(pc := User))
  }

  // kexit: reparent.

  predicate ScanEnabled(m: State, s: Step) {
    && s.p < |m.procs| == |m.locks|
    && var pc := m.procs[s.p].pc;
    match s
    case ExitTake(p) => pc.User? && p != m.init && m.waitLock == NOBODY
    case Reparent(p) => pc.ExitScan? && pc.j < |m.procs| && m.procs[pc.j].parent == p
    case Skip(p) => pc.ExitScan? && pc.j < |m.procs| && m.procs[pc.j].parent != p
    case ScanEnd(p) => pc.ExitScan? && pc.j == |m.procs|
    case InitEnd(p) => pc.ExitInit? && pc.k == |m.procs|
    case _ => false
  }

  function ScanNext(m: State, s: Step): State
    requires ScanEnabled(m, s)
  {
    var p, x := s.p, m.procs[s.p];
    match s
    case ExitTake(_) => SetProc(m, p, x.(pc := ExitScan(0))).(waitLock := p)
    case Reparent(_) => Both(m, x.pc.j, m.procs[x.pc.j].(parent := m.init), p, x.(pc := ExitInit(x.pc.j, 0)))
    case Skip(_) => SetProc(m, p, x.(pc := ExitScan(x.pc.j + 1)))
    case ScanEnd(_) => SetProc(m, p, x.(pc := ExitWake(0)))
    case InitEnd(_) => SetProc(m, p, x.(pc := ExitScan(x.pc.j + 1)))
  }

  // kexit: wakeup(initproc) and wakeup(p->parent).

  predicate WakeEnabled(m: State, s: Step) {
    && s.p < |m.procs| == |m.locks|
    && var pc := m.procs[s.p].pc;
    match s
    case WakeInit(p) => pc.ExitInit? && pc.k < |m.procs| && CanLook(m, p, pc.k)
    case WakeParent(p) => pc.ExitWake? && pc.k < |m.procs| && CanLook(m, p, pc.k)
    case _ => false
  }

  function WakeNext(m: State, s: Step): State
    requires WakeEnabled(m, s)
  {
    var p, x := s.p, m.procs[s.p];
    match s
    case WakeInit(_) => Both(m, x.pc.k, WakeIf(m, p, x.pc.k, m.init), p, x.(pc := ExitInit(x.pc.j, x.pc.k + 1)))
    case WakeParent(_) => Both(m, x.pc.k, WakeIf(m, p, x.pc.k, x.parent), p, x.(pc := ExitWake(x.pc.k + 1)))
  }

  // kexit: the end.

  predicate DieEnabled(m: State, s: Step) {
    && s.p < |m.procs| == |m.locks|
    && var pc := m.procs[s.p].pc;
    match s
    case Die(p) => pc.ExitWake? && pc.k == |m.procs| && m.locks[p] == NOBODY
    case ExitDrop(p) => pc.ExitLast?
    case ExitGone(p) => pc.ExitSwitch?
    case _ => false
  }

  function DieNext(m: State, s: Step): State
    requires DieEnabled(m, s)
  {
    var p, x := s.p, m.procs[s.p];
    match s
    case Die(_) => SetProc(m, p, x.(pc := ExitLast, state := Zombie, exits := x.exits + 1)).(locks := m.locks[p := p])
    case ExitDrop(_) => SetProc(m, p, x.(pc := ExitSwitch)).(waitLock := NOBODY)
    case ExitGone(_) => SetProc(m, p, x.(pc := Gone)).(locks := m.locks[p := NOBODY])
  }

  // kwait: looking for children.

  predicate LookEnabled(m: State, s: Step) {
    && s.p < |m.procs| == |m.locks|
    && var pc := m.procs[s.p].pc;
    match s
    case WaitTake(p) => pc.User? && m.waitLock == NOBODY
    case WaitLook(p) => pc.WaitScan? && pc.j < |m.procs|
                        && (m.procs[pc.j].parent == p ==> m.locks[pc.j] == NOBODY && !m.procs[pc.j].state.Zombie?)
    case WaitSleep(p) => pc.WaitScan? && pc.j == |m.procs| && pc.kids
    case _ => false
  }

  function LookNext(m: State, s: Step): State
    requires LookEnabled(m, s)
  {
    var p, x := s.p, m.procs[s.p];
    match s
    case WaitTake(_) => SetProc(m, p, x.(pc := WaitScan(0, false))).(waitLock := p)
    case WaitLook(_) => SetProc(m, p, x.(pc := WaitScan(x.pc.j + 1, x.pc.kids || m.procs[x.pc.j].parent == p)))
    case WaitSleep(_) => SetProc(m, p, x.(pc := SleepIn))
  }

  // kwait: returning.

  predicate ReapEnabled(m: State, s: Step) {
    && s.p < |m.procs| == |m.locks|
    && var pc := m.procs[s.p].pc;
    match s
    case Reap(p) => pc.WaitScan? && pc.j < |m.procs| && m.procs[pc.j].parent == p
                    && m.locks[pc.j] == NOBODY && m.procs[pc.j].state.Zombie?
    case ReapFault(p) => pc.WaitScan? && pc.j < |m.procs| && m.procs[pc.j].parent == p
                         && m.locks[pc.j] == NOBODY && m.procs[pc.j].state.Zombie?
    case WaitFail(p) => pc.WaitScan? && pc.j == |m.procs|   // no children, or killed
    case _ => false
  }

  function ReapNext(m: State, s: Step): State
    requires ReapEnabled(m, s)
  {
    var p, x := s.p, m.procs[s.p];
    match s
    case Reap(_) =>
      var y := m.procs[x.pc.j];
      Both(m, x.pc.j, y.(state := Unused, parent := NOBODY, reaps := y.reaps + 1), p,
           x.(pc := User)).(waitLock := NOBODY)
    case ReapFault(_) => SetProc(m, p, x.(pc := User)).(waitLock := NOBODY)
    case WaitFail(_) => SetProc(m, p, x.(pc := User)).(waitLock := NOBODY)
  }

  // sleep(p, &wait_lock): going to sleep.

  predicate DozeEnabled(m: State, s: Step) {
    && s.p < |m.procs| == |m.locks|
    && var x := m.procs[s.p];
    match s
    case TakeOwn(p) => x.pc.SleepIn? && m.locks[p] == NOBODY
    case DropWait(p) => x.pc.SleepGot?
    case Doze(p) => x.pc.SleepSet?
    case Switch(p) => x.pc.SleepSwitch?
    case _ => false
  }

  function DozeNext(m: State, s: Step): State
    requires DozeEnabled(m, s)
  {
    var p, x := s.p, m.procs[s.p];
    match s
    case TakeOwn(_) => SetProc(m, p, x.(pc := SleepGot)).(locks := m.locks[p := p])
    case DropWait(_) => SetProc(m, p, x.(pc := SleepSet)).(waitLock := NOBODY)
    case Doze(_) => SetProc(m, p, x.(pc := SleepSwitch, state := Sleeping))
    case Switch(_) => SetProc(m, p, x.(pc := Asleep)).(locks := m.locks[p := NOBODY])
  }

  // sleep: waking up. kkill wakes a process whatever it waits for.

  predicate RiseEnabled(m: State, s: Step) {
    && s.p < |m.procs| == |m.locks|
    && var x := m.procs[s.p];
    match s
    case Resume(p) => x.pc.Asleep? && x.state.Active? && m.locks[p] == NOBODY
    case Tidy(p) => x.pc.Woken?
    case Retake(p) => x.pc.Rewait? && m.waitLock == NOBODY
    case Kill(p) => m.locks[p] == NOBODY
    case _ => false
  }

  function RiseNext(m: State, s: Step): State
    requires RiseEnabled(m, s)
  {
    var p, x := s.p, m.procs[s.p];
    match s
    case Resume(_) => SetProc(m, p, x.(pc := Woken)).(locks := m.locks[p := p])
    case Tidy(_) => SetProc(m, p, x.(pc := Rewait)).(locks := m.locks[p := NOBODY])
    case Retake(_) => SetProc(m, p, x.(pc := WaitScan(0, false))).(waitLock := p)
    case Kill(_) => SetProc(m, p, Wake(x))
  }

  // The kinds of steps.

  predicate Making(s: Step) {
    s.ForkAlloc? || s.ForkFail? || s.ForkUnlock?
  }

  predicate Starting(s: Step) {
    s.ForkParent? || s.ForkDrop? || s.ForkGo?
  }

  predicate Scanning(s: Step) {
    s.ExitTake? || s.Reparent? || s.Skip? || s.ScanEnd? || s.InitEnd?
  }

  predicate Waking(s: Step) {
    s.WakeInit? || s.WakeParent?
  }

  predicate Dying(s: Step) {
    s.Die? || s.ExitDrop? || s.ExitGone?
  }

  predicate Looking(s: Step) {
    s.WaitTake? || s.WaitLook? || s.WaitSleep?
  }

  predicate Reaping(s: Step) {
    s.Reap? || s.ReapFault? || s.WaitFail?
  }

  predicate Dozing(s: Step) {
    s.TakeOwn? || s.DropWait? || s.Doze? || s.Switch?
  }

  predicate Enabled(m: State, s: Step) {
    if Making(s) then MakeEnabled(m, s)
    else if Starting(s) then StartEnabled(m, s)
    else if Scanning(s) then ScanEnabled(m, s)
    else if Waking(s) then WakeEnabled(m, s)
    else if Dying(s) then DieEnabled(m, s)
    else if Looking(s) then LookEnabled(m, s)
    else if Reaping(s) then ReapEnabled(m, s)
    else if Dozing(s) then DozeEnabled(m, s)
    else RiseEnabled(m, s)
  }

  function Next(m: State, s: Step): State
    requires Enabled(m, s)
  {
    if Making(s) then MakeNext(m, s)
    else if Starting(s) then StartNext(m, s)
    else if Scanning(s) then ScanNext(m, s)
    else if Waking(s) then WakeNext(m, s)
    else if Dying(s) then DieNext(m, s)
    else if Looking(s) then LookNext(m, s)
    else if Reaping(s) then ReapNext(m, s)
    else if Dozing(s) then DozeNext(m, s)
    else RiseNext(m, s)
  }

  // The invariant.

  predicate HoldsWait(pc: Pc) {
    pc.ForkLinked? || pc.ExitScan? || pc.ExitInit? || pc.ExitWake? || pc.ExitLast? || pc.WaitScan? || pc.SleepIn?
        || pc.SleepGot?
  }

  predicate HoldsOwn(pc: Pc) {
    pc.SleepGot? || pc.SleepSet? || pc.SleepSwitch? || pc.Woken? || pc.ExitLast? || pc.ExitSwitch?
  }

  /** The process runs or can run: it has not exited. */
  predicate Alive(x: Proc) {
    x.state.Active? || x.state.Sleeping?
  }

  predicate Exits(pc: Pc) {
    pc.ExitScan? || pc.ExitInit? || pc.ExitWake? || pc.ExitLast? || pc.ExitSwitch?
  }

  predicate Forks(pc: Pc) {
    pc.ForkCopy? || pc.ForkLink? || pc.ForkLinked? || pc.ForkRun?
  }

  predicate Waiting(x: Proc) {
    x.pc.SleepSet? || x.pc.SleepSwitch? || (x.pc.Asleep? && x.state.Sleeping?)
  }

  predicate StateFits(x: Proc) {
    match x.pc
    case Gone => x.state.Unused? || x.state.Used? || x.state.Zombie?
    case ExitLast => x.state.Zombie?
    case ExitSwitch => x.state.Zombie?
    case SleepSwitch => x.state.Sleeping?
    case Asleep => x.state.Active? || x.state.Sleeping?
    case _ => x.state.Active?
  }

  /** Locks are held where the code says, states follow the code, and a slot being made
      belongs to one kfork. Every exit is matched by one reap or by a zombie. */
  predicate Sound(m: State, p: nat)
    requires p < |m.procs| == |m.locks|
  {
    var x := m.procs[p];
    && (HoldsWait(x.pc) <==> m.waitLock == p) && (HoldsOwn(x.pc) ==> m.locks[p] == p)
    && StateFits(x) && (x.state.Used? <==> x.maker != NOBODY) && (p == m.init ==> Alive(x) && !Exits(x.pc))
    && (Forks(x.pc) ==> x.pc.c < |m.procs| && m.procs[x.pc.c].maker == p)
    && (x.pc.ForkCopy? ==> m.locks[x.pc.c] == p)
    && x.reaps + (if x.state.Zombie? then 1 else 0) == x.exits
  }

  ghost predicate AllSound(m: State) {
    && |m.locks| == |m.procs| && m.init < |m.procs|
    && (m.waitLock != NOBODY ==> 0 <= m.waitLock < |m.procs|)
    && forall p :: 0 <= p < |m.procs| ==> Sound(m, p)
  }

  /** The entry that a step acts on beside its own process. */
  function Other(m: State, s: Step): nat
    requires s.p < |m.procs|
  {
    var pc := m.procs[s.p].pc;
    match s
    case ForkAlloc(_, c) => c
    case _ =>
      if Forks(pc) then pc.c
      else if pc.ExitScan? || pc.WaitScan? then pc.j
      else if pc.ExitInit? || pc.ExitWake? then pc.k
      else s.p
  }

  lemma MakeSound(m: State, s: Step, q: nat)
    requires AllSound(m) && MakeEnabled(m, s) && q < |m.procs|
    ensures Sound(MakeNext(m, s), q)
  {
    if s.ForkAlloc? {
      MakeSoundForkAlloc(m, s, q);
    } else {
      MakeSoundRest(m, s, q);
    }
  }

  lemma MakeSoundForkAlloc(m: State, s: Step, q: nat)
    requires AllSound(m) && MakeEnabled(m, s) && q < |m.procs| && s.ForkAlloc?
    ensures Sound(MakeNext(m, s), q)
  {
    var o := Other(m, s);
    assert Sound(m, s.p);
    assert o < |m.procs| ==> Sound(m, o);
    assert Sound(m, q);
  }

  lemma MakeSoundRest(m: State, s: Step, q: nat)
    requires AllSound(m) && MakeEnabled(m, s) && q < |m.procs| && !s.ForkAlloc?
    ensures Sound(MakeNext(m, s), q)
  {
    var o := Other(m, s);
    assert Sound(m, s.p);
    assert o < |m.procs| ==> Sound(m, o);
    assert Sound(m, q);
  }

  lemma StartSound(m: State, s: Step, q: nat)
    requires AllSound(m) && StartEnabled(m, s) && q < |m.procs|
    ensures Sound(StartNext(m, s), q)
  {
    var o := Other(m, s);
    assert Sound(m, s.p);
    assert o < |m.procs| ==> Sound(m, o);
    assert Sound(m, q);
  }

  lemma ScanSound(m: State, s: Step, q: nat)
    requires AllSound(m) && ScanEnabled(m, s) && q < |m.procs|
    ensures Sound(ScanNext(m, s), q)
  {
    assert Sound(m, s.p);
    assert Sound(m, q);
  }

  lemma WakeSound(m: State, s: Step, q: nat)
    requires AllSound(m) && WakeEnabled(m, s) && q < |m.procs|
    ensures Sound(WakeNext(m, s), q)
  {
    assert Sound(m, s.p);
    assert Sound(m, q);
  }

  lemma DieSound(m: State, s: Step, q: nat)
    requires AllSound(m) && DieEnabled(m, s) && q < |m.procs|
    ensures Sound(DieNext(m, s), q)
  {
    assert Sound(m, s.p);
    assert Sound(m, q);
  }

  lemma LookSound(m: State, s: Step, q: nat)
    requires AllSound(m) && LookEnabled(m, s) && q < |m.procs|
    ensures Sound(LookNext(m, s), q)
  {
    assert Sound(m, s.p);
    assert Sound(m, q);
  }

  lemma ReapSound(m: State, s: Step, q: nat)
    requires AllSound(m) && ReapEnabled(m, s) && q < |m.procs|
    ensures Sound(ReapNext(m, s), q)
  {
    assert Sound(m, s.p);
    assert Sound(m, q);
  }

  lemma DozeSound(m: State, s: Step, q: nat)
    requires AllSound(m) && DozeEnabled(m, s) && q < |m.procs|
    ensures Sound(DozeNext(m, s), q)
  {
    assert Sound(m, s.p);
    assert Sound(m, q);
  }

  lemma RiseSound(m: State, s: Step, q: nat)
    requires AllSound(m) && RiseEnabled(m, s) && q < |m.procs|
    ensures Sound(RiseNext(m, s), q)
  {
    assert Sound(m, s.p);
    assert Sound(m, q);
  }

  // Parents.

  /** No entry below j is a child of p. */
  predicate KidsGone(m: State, p: nat, j: nat) {
    forall y :: 0 <= y < j && y < |m.procs| ==> m.procs[y].parent != p
  }

  /** The entries that reparent has dealt with, in kexit of p. */
  function Reparented(m: State, pc: Pc): nat {
    match pc
    case ExitScan(j) => j
    case ExitInit(j, _) => j + 1
    case ExitWake(_) => |m.procs|
    case ExitLast => |m.procs|
    case ExitSwitch => |m.procs|
    case _ => 0
  }

  /** Parents are alive, every process past creation but init has one, and the children of
      an exiting process move to init in table order. */
  predicate Kin(m: State, p: nat)
    requires p < |m.procs|
  {
    var x := m.procs[p];
    && (x.parent != NOBODY ==> 0 <= x.parent < |m.procs| && x.parent != p && Alive(m.procs[x.parent]))
    && (p == m.init || x.state.Unused? ==> x.parent == NOBODY)
    && (x.state.Used? ==>
          && 0 <= x.maker < |m.procs|
          && var pc := m.procs[x.maker].pc;
          Forks(pc) && pc.c == p && x.parent == (if pc.ForkLinked? || pc.ForkRun? then x.maker else NOBODY))
    && ((Alive(x) || x.state.Zombie?) && p != m.init ==> x.parent != NOBODY)
    && KidsGone(m, p, Reparented(m, x.pc))
  }

  ghost predicate AllKin(m: State) {
    forall p :: 0 <= p < |m.procs| ==> Kin(m, p)
  }

  lemma MakeKin(m: State, s: Step, q: nat)
    requires AllSound(m) && AllKin(m) && MakeEnabled(m, s) && q < |m.procs|
    ensures Kin(MakeNext(m, s), q)
  {
    if s.ForkAlloc? {
      MakeKinForkAlloc(m, s, q);
    } else {
      MakeKinRest(m, s, q);
    }
  }

  lemma MakeKinForkAlloc(m: State, s: Step, q: nat)
    requires AllSound(m) && AllKin(m) && MakeEnabled(m, s) && q < |m.procs| && s.ForkAlloc?
    ensures Kin(MakeNext(m, s), q)
  {
    var o := Other(m, s);
    assert Sound(m, s.p);
    assert o < |m.procs| ==> Sound(m, o) && Kin(m, o);
    assert Kin(m, q);
  }

  lemma MakeKinRest(m: State, s: Step, q: nat)
    requires AllSound(m) && AllKin(m) && MakeEnabled(m, s) && q < |m.procs| && !s.ForkAlloc?
    ensures Kin(MakeNext(m, s), q)
  {
    var o := Other(m, s);
    assert Sound(m, s.p);
    assert o < |m.procs| ==> Sound(m, o) && Kin(m, o);
    assert Kin(m, q);
  }

  lemma StartKin(m: State, s: Step, q: nat)
    requires AllSound(m) && AllKin(m) && StartEnabled(m, s) && q < |m.procs|
    ensures Kin(StartNext(m, s), q)
  {
    var o := Other(m, s);
    assert Sound(m, s.p);
    assert o < |m.procs| ==> Sound(m, o);
    assert Sound(m, q) && Kin(m, q);
  }

  lemma ScanKin(m: State, s: Step, q: nat)
    requires AllSound(m) && AllKin(m) && ScanEnabled(m, s) && q < |m.procs|
    ensures Kin(ScanNext(m, s), q)
  {
    assert Sound(m, s.p);
    assert Sound(m, m.init);
    assert Sound(m, q) && Kin(m, q);
  }

  /** A round of wakeup changes nobody's parent. */
  lemma WokenKin(m: State, p: nat, k: nat, target: int, pc: Pc, q: nat)
    requires AllSound(m) && AllKin(m) && p < |m.procs| && k < |m.procs| && q < |m.procs|
    requires (m.procs[p].pc.ExitInit? && pc.ExitInit? && pc.j == m.procs[p].pc.j)
             || (m.procs[p].pc.ExitWake? && pc.ExitWake?)
    ensures Kin(Both(m, k, WakeIf(m, p, k, target), p, m.procs[p].(pc := pc)), q)
  {
    assert Sound(m, p) && Kin(m, p);
    assert Sound(m, q) && Kin(m, q);
  }

  lemma WakeKin(m: State, s: Step, q: nat)
    requires AllSound(m) && AllKin(m) && WakeEnabled(m, s) && q < |m.procs|
    ensures Kin(WakeNext(m, s), q)
  {
    var p, x := s.p, m.procs[s.p];
    if s.WakeInit? {
      WokenKin(m, p, x.pc.k, m.init, ExitInit(x.pc.j, x.pc.k + 1), q);
    } else {
      WokenKin(m, p, x.pc.k, x.parent, ExitWake(x.pc.k + 1), q);
    }
  }

  lemma DieKin(m: State, s: Step, q: nat)
    requires AllSound(m) && AllKin(m) && DieEnabled(m, s) && q < |m.procs|
    ensures Kin(DieNext(m, s), q)
  {
    assert Kin(m, s.p);
    assert Sound(m, q) && Kin(m, q);
  }

  lemma LookKin(m: State, s: Step, q: nat)
    requires AllSound(m) && AllKin(m) && LookEnabled(m, s) && q < |m.procs|
    ensures Kin(LookNext(m, s), q)
  {
    assert Sound(m, s.p);
    assert Sound(m, q) && Kin(m, q);
  }

  lemma ReapKin(m: State, s: Step, q: nat)
    requires AllSound(m) && AllKin(m) && ReapEnabled(m, s) && q < |m.procs|
    ensures Kin(ReapNext(m, s), q)
  {
    assert Sound(m, s.p);
    assert Sound(m, q) && Kin(m, q);
  }

  lemma DozeKin(m: State, s: Step, q: nat)
    requires AllSound(m) && AllKin(m) && DozeEnabled(m, s) && q < |m.procs|
    ensures Kin(DozeNext(m, s), q)
  {
    if s.TakeOwn? {
      DozeKinTakeOwn(m, s, q);
    } else {
      DozeKinRest(m, s, q);
    }
  }

  lemma DozeKinTakeOwn(m: State, s: Step, q: nat)
    requires AllSound(m) && AllKin(m) && DozeEnabled(m, s) && q < |m.procs| && s.TakeOwn?
    ensures Kin(DozeNext(m, s), q)
  {
    assert Sound(m, s.p);
    assert Sound(m, q) && Kin(m, q);
  }

  lemma DozeKinRest(m: State, s: Step, q: nat)
    requires AllSound(m) && AllKin(m) && DozeEnabled(m, s) && q < |m.procs| && !s.TakeOwn?
    ensures Kin(DozeNext(m, s), q)
  {
    assert Sound(m, s.p);
    assert Sound(m, q) && Kin(m, q);
  }

  lemma RiseKin(m: State, s: Step, q: nat)
    requires AllSound(m) && AllKin(m) && RiseEnabled(m, s) && q < |m.procs|
    ensures Kin(RiseNext(m, s), q)
  {
    assert Sound(m, s.p);
    assert Sound(m, q) && Kin(m, q);
  }

  // Zombies and waiting parents.

  predicate NoZombieKids(m: State, p: nat, j: nat) {
    forall y :: 0 <= y < j && y < |m.procs| ==> !(m.procs[y].parent == p && m.procs[y].state.Zombie?)
  }

  /** reparent has given init a child, and the scan of its wakeup(initproc) has not passed
      init yet. */
  predicate WakeComing(m: State, p: nat) {
    && p == m.init && 0 <= m.waitLock < |m.procs|
    && m.procs[m.waitLock].pc.ExitInit? && m.procs[m.waitLock].pc.k <= p
  }

  /** kwait sleeps only after it has seen that no child is a zombie; while it is not asleep
      yet, or asleep, a child becomes a zombie only after waking it. */
  predicate Calm(m: State, p: nat)
    requires p < |m.procs| && m.init < |m.procs|
  {
    var x := m.procs[p];
    && (x.pc.WaitScan? ==> NoZombieKids(m, p, x.pc.j))
    && (x.pc.SleepIn? || x.pc.SleepGot? ==> NoZombieKids(m, p, |m.procs|))
    && (x.pc.ExitWake? && 0 <= x.parent < |m.procs| && Waiting(m.procs[x.parent]) ==> x.pc.k <= x.parent)
    && (x.pc.ExitInit? && Waiting(m.procs[m.init]) ==> x.pc.k <= m.init)
    && (Waiting(x) ==> NoZombieKids(m, p, |m.procs|) || WakeComing(m, p))
  }

  ghost predicate AllCalm(m: State)
    requires m.init < |m.procs|
  {
    forall p :: 0 <= p < |m.procs| ==> Calm(m, p)
  }

  lemma AllocCalm(m: State, s: Step, q: nat)
    requires AllSound(m) && AllKin(m) && AllCalm(m) && MakeEnabled(m, s) && q < |m.procs| && s.ForkAlloc?
    ensures Calm(MakeNext(m, s), q)
  {
    var o := Other(m, s);
    assert Sound(m, s.p);
    assert o < |m.procs| ==> Sound(m, o) && Kin(m, o);
    assert Sound(m, q) && Kin(m, q) && Calm(m, q);
  }

  lemma MakeCalm(m: State, s: Step, q: nat)
    requires AllSound(m) && AllKin(m) && AllCalm(m) && MakeEnabled(m, s) && q < |m.procs| && !s.ForkAlloc?
    ensures Calm(MakeNext(m, s), q)
  {
    if s.ForkFail? {
      MakeCalmForkFail(m, s, q);
    } else {
      MakeCalmRest(m, s, q);
    }
  }

  lemma MakeCalmForkFail(m: State, s: Step, q: nat)
    requires AllSound(m) && AllKin(m) && AllCalm(m) && MakeEnabled(m, s) && q < |m.procs| && s.ForkFail?
             && !s.ForkAlloc?
    ensures Calm(MakeNext(m, s), q)
  {
    var o := Other(m, s);
    assert Sound(m, s.p);
    assert o < |m.procs| ==> Sound(m, o) && Kin(m, o);
    assert Sound(m, q) && Kin(m, q) && Calm(m, q);
  }

  lemma MakeCalmRest(m: State, s: Step, q: nat)
    requires AllSound(m) && AllKin(m) && AllCalm(m) && MakeEnabled(m, s) && q < |m.procs| && !s.ForkFail?
             && !s.ForkAlloc?
    ensures Calm(MakeNext(m, s), q)
  {
    var o := Other(m, s);
    assert Sound(m, s.p);
    assert o < |m.procs| ==> Sound(m, o) && Kin(m, o);
    assert Sound(m, q) && Kin(m, q) && Calm(m, q);
  }

  lemma StartCalm(m: State, s: Step, q: nat)
    requires AllSound(m) && AllKin(m) && AllCalm(m) && StartEnabled(m, s) && q < |m.procs|
    ensures Calm(StartNext(m, s), q)
  {
    if s.ForkGo? {
      StartCalmForkGo(m, s, q);
    } else {
      StartCalmRest(m, s, q);
    }
  }

  lemma StartCalmForkGo(m: State, s: Step, q: nat)
    requires AllSound(m) && AllKin(m) && AllCalm(m) && StartEnabled(m, s) && q < |m.procs| && s.ForkGo?
    ensures Calm(StartNext(m, s), q)
  {
    if q == s.p || q == Other(m, s) {
      StartCalmNew(m, s, q);
    } else {
      assert Sound(m, s.p);
      assert Sound(m, Other(m, s));
      assert Sound(m, q) && Kin(m, q) && Calm(m, q);
    }
  }

  /** The process that forks, and its child. */
  lemma StartCalmNew(m: State, s: Step, q: nat)
    requires AllSound(m) && AllKin(m) && AllCalm(m) && StartEnabled(m, s) && q < |m.procs| && s.ForkGo?
    requires q == s.p || q == Other(m, s)
    ensures Calm(StartNext(m, s), q)
  {
    assert Sound(m, s.p) && Calm(m, s.p);
    assert Sound(m, q) && Kin(m, q) && Calm(m, q);
  }

  lemma StartCalmRest(m: State, s: Step, q: nat)
    requires AllSound(m) && AllKin(m) && AllCalm(m) && StartEnabled(m, s) && q < |m.procs| && !s.ForkGo?
    ensures Calm(StartNext(m, s), q)
  {
    var o := Other(m, s);
    assert Sound(m, s.p) && Calm(m, s.p);
    assert o < |m.procs| ==> Sound(m, o) && Calm(m, o);
    assert Sound(m, q) && Kin(m, q) && Calm(m, q);
  }

  lemma ScanCalm(m: State, s: Step, q: nat)
    requires AllSound(m) && AllKin(m) && AllCalm(m) && ScanEnabled(m, s) && q < |m.procs|
    ensures Calm(ScanNext(m, s), q)
  {
    var o := Other(m, s);
    assert Sound(m, s.p);
    assert o < |m.procs| ==> Sound(m, o) && Kin(m, o) && Calm(m, o);
    assert Sound(m, m.init) && Kin(m, m.init);
    assert Sound(m, q) && Calm(m, q);
  }

  lemma WakeCalm(m: State, s: Step, q: nat)
    requires AllSound(m) && AllKin(m) && AllCalm(m) && WakeEnabled(m, s) && q < |m.procs|
    ensures Calm(WakeNext(m, s), q)
  {
    if s.WakeInit? {
      WakeCalmWakeInit(m, s, q);
    } else {
      WakeCalmRest(m, s, q);
    }
  }

  lemma WakeCalmWakeInit(m: State, s: Step, q: nat)
    requires AllSound(m) && AllKin(m) && AllCalm(m) && WakeEnabled(m, s) && q < |m.procs| && s.WakeInit?
    ensures Calm(WakeNext(m, s), q)
  {
    var o := Other(m, s);
    assert Sound(m, s.p) && Kin(m, s.p) && Calm(m, s.p);
    assert o < |m.procs| ==> Sound(m, o);
    assert Sound(m, m.init) && Kin(m, m.init) && Calm(m, m.init);
    assert Sound(m, q) && Calm(m, q);
  }

  lemma WakeCalmRest(m: State, s: Step, q: nat)
    requires AllSound(m) && AllKin(m) && AllCalm(m) && WakeEnabled(m, s) && q < |m.procs| && !s.WakeInit?
    ensures Calm(WakeNext(m, s), q)
  {
    var o := Other(m, s);
    assert Sound(m, s.p) && Kin(m, s.p) && Calm(m, s.p);
    assert o < |m.procs| ==> Sound(m, o);
    assert Sound(m, m.init) && Kin(m, m.init) && Calm(m, m.init);
    assert Sound(m, q) && Calm(m, q);
  }

  lemma DieCalm(m: State, s: Step, q: nat)
    requires AllSound(m) && AllKin(m) && AllCalm(m) && DieEnabled(m, s) && q < |m.procs|
    ensures Calm(DieNext(m, s), q)
  {
    assert Sound(m, s.p) && Calm(m, s.p);
    assert Sound(m, q) && Calm(m, q);
  }

  lemma LookCalm(m: State, s: Step, q: nat)
    requires AllSound(m) && AllKin(m) && AllCalm(m) && LookEnabled(m, s) && q < |m.procs|
    ensures Calm(LookNext(m, s), q)
  {
    assert Sound(m, s.p) && Calm(m, s.p);
    assert Sound(m, q) && Calm(m, q);
  }

  lemma ReapCalm(m: State, s: Step, q: nat)
    requires AllSound(m) && AllKin(m) && AllCalm(m) && ReapEnabled(m, s) && q < |m.procs|
    ensures Calm(ReapNext(m, s), q)
  {
    var o := Other(m, s);
    assert Sound(m, s.p) && Kin(m, s.p);
    assert o < |m.procs| ==> Sound(m, o) && Kin(m, o) && Calm(m, o);
    assert Sound(m, q) && Calm(m, q);
  }

  lemma DozeCalm(m: State, s: Step, q: nat)
    requires AllSound(m) && AllKin(m) && AllCalm(m) && DozeEnabled(m, s) && q < |m.procs|
    ensures Calm(DozeNext(m, s), q)
  {
    assert Sound(m, s.p);
    assert Sound(m, q) && Calm(m, q);
  }

  lemma RiseCalm(m: State, s: Step, q: nat)
    requires AllSound(m) && AllKin(m) && AllCalm(m) && RiseEnabled(m, s) && q < |m.procs|
    ensures Calm(RiseNext(m, s), q)
  {
    if s.Resume? {
      RiseCalmResume(m, s, q);
    } else {
      RiseCalmRest(m, s, q);
    }
  }

  lemma RiseCalmResume(m: State, s: Step, q: nat)
    requires AllSound(m) && AllKin(m) && AllCalm(m) && RiseEnabled(m, s) && q < |m.procs| && s.Resume?
    ensures Calm(RiseNext(m, s), q)
  {
    assert Calm(m, s.p);
    assert Calm(m, q);
  }

  lemma RiseCalmRest(m: State, s: Step, q: nat)
    requires AllSound(m) && AllKin(m) && AllCalm(m) && RiseEnabled(m, s) && q < |m.procs| && !s.Resume?
    ensures Calm(RiseNext(m, s), q)
  {
    assert Calm(m, s.p);
    assert Calm(m, q);
  }

  // Every run.

  ghost predicate Inv(m: State) {
    AllSound(m) && AllKin(m) && AllCalm(m)
  }

  lemma StepSound(m: State, s: Step, q: nat)
    requires Inv(m) && Enabled(m, s) && q < |m.procs|
    ensures |Next(m, s).procs| == |m.procs| == |Next(m, s).locks| && Sound(Next(m, s), q)
  {
    if Making(s) {
      MakeSound(m, s, q);
    } else if Starting(s) {
      StartSound(m, s, q);
    } else if Scanning(s) {
      ScanSound(m, s, q);
    } else if Waking(s) {
      WakeSound(m, s, q);
    } else if Dying(s) {
      DieSound(m, s, q);
    } else if Looking(s) {
      LookSound(m, s, q);
    } else if Reaping(s) {
      ReapSound(m, s, q);
    } else if Dozing(s) {
      DozeSound(m, s, q);
    } else {
      RiseSound(m, s, q);
    }
  }

  lemma StepKin(m: State, s: Step, q: nat)
    requires Inv(m) && Enabled(m, s) && q < |m.procs|
    ensures |Next(m, s).procs| == |m.procs| && Kin(Next(m, s), q)
  {
    if Making(s) {
      MakeKin(m, s, q);
    } else if Starting(s) {
      StartKin(m, s, q);
    } else if Scanning(s) {
      ScanKin(m, s, q);
    } else if Waking(s) {
      WakeKin(m, s, q);
    } else if Dying(s) {
      DieKin(m, s, q);
    } else if Looking(s) {
      LookKin(m, s, q);
    } else if Reaping(s) {
      ReapKin(m, s, q);
    } else if Dozing(s) {
      DozeKin(m, s, q);
    } else {
      RiseKin(m, s, q);
    }
  }

  lemma StepCalm(m: State, s: Step, q: nat)
    requires Inv(m) && Enabled(m, s) && q < |m.procs|
    ensures |Next(m, s).procs| == |m.procs| && Next(m, s).init == m.init && Calm(Next(m, s), q)
  {
    if Making(s) {
      if s.ForkAlloc? {
        AllocCalm(m, s, q);
      } else {
        MakeCalm(m, s, q);
      }
    } else if Starting(s) {
      StartCalm(m, s, q);
    } else if Scanning(s) {
      ScanCalm(m, s, q);
    } else if Waking(s) {
      WakeCalm(m, s, q);
    } else if Dying(s) {
      DieCalm(m, s, q);
    } else if Looking(s) {
      LookCalm(m, s, q);
    } else if Reaping(s) {
      ReapCalm(m, s, q);
    } else if Dozing(s) {
      DozeCalm(m, s, q);
    } else {
      RiseCalm(m, s, q);
    }
  }

  lemma StepShape(m: State, s: Step)
    requires AllSound(m) && Enabled(m, s)
    ensures var n := Next(m, s);
            && |n.procs| == |m.procs| == |n.locks| && n.init == m.init
            && (n.waitLock != NOBODY ==> 0 <= n.waitLock < |n.procs|)
  {
    StepWaitLock(m, s);
  }

  lemma StepWaitLock(m: State, s: Step)
    requires AllSound(m) && Enabled(m, s)
    ensures var n := Next(m, s); n.waitLock == NOBODY || n.waitLock == m.waitLock || n.waitLock == s.p
  {
  }

  lemma StepKeeps(m: State, s: Step)
    requires Inv(m) && Enabled(m, s)
    ensures Inv(Next(m, s)) && |Next(m, s).procs| == |m.procs| && Next(m, s).init == m.init
  {
    StepShape(m, s);
    forall q | 0 <= q < |m.procs|
      ensures Sound(Next(m, s), q) && Kin(Next(m, s), q) && Calm(Next(m, s), q)
    {
      StepSound(m, s, q);
      StepKin(m, s, q);
      StepCalm(m, s, q);
    }
  }

  /** Only init exists. */
  ghost predicate Init(m: State) {
    && |m.locks| == |m.procs| && m.init < |m.procs| && m.waitLock == NOBODY
    && forall p :: 0 <= p < |m.procs| ==>
         m.locks[p] == NOBODY
         && m.procs[p] == if p == m.init then Proc(User, Active, NOBODY, NOBODY, 0, 0)
                          else Proc(Gone, Unused, NOBODY, NOBODY, 0, 0)
  }

  ghost predicate IsRun(m: State, steps: seq<Step>)
    decreases steps
  {
    if steps == [] then true else Enabled(m, steps[0]) && IsRun(Next(m, steps[0]), steps[1..])
  }

  ghost function Run(m: State, steps: seq<Step>): State
    requires IsRun(m, steps)
    decreases steps
  {
    if steps == [] then m else Run(Next(m, steps[0]), steps[1..])
  }

  lemma {:induction false} RunKeeps(m: State, steps: seq<Step>)
    requires Inv(m) && IsRun(m, steps)
    ensures Inv(Run(m, steps)) && |Run(m, steps).procs| == |m.procs| && Run(m, steps).init == m.init
    decreases steps
  {
    if steps != [] {
      StepKeeps(m, steps[0]);
      RunKeeps(Next(m, steps[0]), steps[1..]);
    }
  }

  lemma InitInv(m: State)
    requires Init(m)
    ensures Inv(m)
  {
  }

  /** Every process past creation, other than init, has a parent that has not exited. */
  lemma ParentsAlive(m: State, steps: seq<Step>, p: nat)
    requires Init(m) && IsRun(m, steps) && p < |m.procs| && p != m.init
    ensures var n := Run(m, steps);
            && |n.procs| == |m.procs|
            && (Alive(n.procs[p]) || n.procs[p].state.Zombie? ==>
                  0 <= n.procs[p].parent < |n.procs| && n.procs[p].parent != p && Alive(n.procs[n.procs[p].parent]))
  {
    InitInv(m);
    RunKeeps(m, steps);
    assert Kin(Run(m, steps), p);
  }

  /** No parent stays asleep in kwait with a zombie child, unless the wakeup that reparent
      owes to init is still on its way. */
  lemma NoZombieMissed(m: State, steps: seq<Step>, p: nat, z: nat)
    requires Init(m) && IsRun(m, steps) && p < |m.procs| && z < |m.procs|
    ensures var n := Run(m, steps);
            && |n.procs| == |m.procs|
            && (n.procs[p].state.Sleeping? && n.procs[z].state.Zombie? && n.procs[z].parent == p ==> WakeComing(n, p))
  {
    InitInv(m);
    RunKeeps(m, steps);
    assert Sound(Run(m, steps), p) && Calm(Run(m, steps), p);
  }

  /** Each exit is reaped at most once: the exits of a slot are its reaps, plus one while a
      zombie waits there. */
  lemma ReapedOnce(m: State, steps: seq<Step>, p: nat)
    requires Init(m) && IsRun(m, steps) && p < |m.procs|
    ensures var n := Run(m, steps);
            |n.procs| == |m.procs| && n.procs[p].exits == n.procs[p].reaps + (if n.procs[p].state.Zombie? then 1 else 0)
  {
    InitInv(m);
    RunKeeps(m, steps);
    assert Sound(Run(m, steps), p);
  }

  /** kwait frees only a child that has left its own stack for good. */
  lemma ReapedHasLeft(m: State, steps: seq<Step>, s: Step)
    requires Init(m) && IsRun(m, steps) && s.Reap? && ReapEnabled(Run(m, steps), s)
    ensures var n := Run(m, steps);
            var j := n.procs[s.p].pc.j;
            n.procs[j].pc.Gone? && n.procs[j].parent == s.p && j != n.init && j != s.p
  {
    InitInv(m);
    RunKeeps(m, steps);
    var n := Run(m, steps);
    assert Sound(n, n.procs[s.p].pc.j) && Kin(n, n.procs[s.p].pc.j);
  }
}
