/** begin_op, log_write, end_op, commit and recovery as one concurrent machine: any
    interleaving of processes, with a crash possible between any two disk writes. */
module GroupCommit {
  import opened Blocks
  import opened Wal
  import Log

  /** What a process is doing with the log: `appended` counts the header entries
      its current operation has added. */
  datatype Slot = Outside | Asleep | Retry | Active(appended: nat)

  /** Running: no commit in progress. WriteLog .. Wake: inside end_op's commit.
      ReadHead .. Reclear: recover_from_log after a crash. */
  datatype Pc = Running | WriteLog(i: nat) | WriteHead | Install(i: nat) | ClearHead | Wake
              | ReadHead | Reinstall(i: nat) | Reclear

  datatype State = State(disk: Disk, mem: Disk, lh: seq<Uint>, pins: multiset<Uint>, pc: Pc,
                         slots: seq<Slot>, outstanding: int)

  datatype Step = Begin(p: nat) | LogWrite(p: nat, b: Uint, data: Block) | End(p: nat)
                | CommitStep | Crash | RecoverStep

  predicate Recovering(pc: Pc) {
    pc.ReadHead? || pc.Reinstall? || pc.Reclear?
  }

  /** log.committing */
  predicate Committing(pc: Pc) {
    !pc.Running? && !Recovering(pc)
  }

  /** begin_op's admission test. */
  predicate Full(s: State) {
    |s.lh| + (s.outstanding + 1) * MAXOPBLOCKS > LOGBLOCKS
  }

  predicate Enabled(start: nat, s: State, step: Step) {
    match step
    case Begin(p) => p < |s.slots| && (s.slots[p].Outside? || s.slots[p].Retry?) && !Recovering(s.pc)
    case LogWrite(p, b, _) =>
      // the client's part of the bargain: fewer than MAXOPBLOCKS entries so far
      && p < |s.slots| && s.slots[p].Active? && s.slots[p].appended < MAXOPBLOCKS
      && b < |s.disk| && IsHome(start, b)
    case End(p) => p < |s.slots| && s.slots[p].Active?
    case CommitStep => Committing(s.pc)
    case Crash => true
    case RecoverStep => Recovering(s.pc)
  }

  predicate Panics(s: State, step: Step) {
    match step
    case LogWrite(_, _, _) => |s.lh| >= LOGBLOCKS || s.outstanding < 1
    case End(_) => Committing(s.pc)
    case _ => false
  }

  function WakeAll(slots: seq<Slot>): seq<Slot> {
    seq(|slots|, i requires 0 <= i < |slots| => if slots[i].Asleep? then Retry else slots[i])
  }

  function DoBegin(s: State, p: nat): State
    requires p < |s.slots|
  {
    if Committing(s.pc) || Full(s) then s.(slots := s.slots[p := Asleep])
    else s.(slots := s.slots[p := Active(0)], outstanding := s.outstanding + 1)
  }

  function DoLogWrite(s: State, p: nat, b: Uint, data: Block): State
    requires p < |s.slots| && s.slots[p].Active? && b < |s.mem|
  {
    var s1 := s.(mem := s.mem[b := data], lh := Log.Absorb(s.lh, b));
    if b in s.lh then s1
    else s1.(pins := s.pins + multiset{b}, slots := s.slots[p := Active(s.slots[p].appended + 1)])
  }

  function DoEnd(s: State, p: nat): State
    requires p < |s.slots|
  {
    var s1 := s.(slots := s.slots[p := Outside], outstanding := s.outstanding - 1);
    if s1.outstanding == 0 then s1.(pc := if s.lh == [] then Wake else WriteLog(0))
    else s1.(slots := WakeAll(s1.slots))
  }

  function DoWriteLog(start: nat, s: State): State
    requires Shape(start, s) && s.pc.WriteLog?
  {
    var i := s.pc.i;
    s.(disk := s.disk[start + i + 1 := s.mem[s.lh[i]]],
       pc := if i + 1 < |s.lh| then WriteLog(i + 1) else WriteHead)
  }

  function DoWriteHead(start: nat, s: State): State
    requires Shape(start, s)
  {
    s.(disk := s.disk[start := WithHeader(s.disk[start], s.lh)], pc := Install(0))
  }

  function DoInstall(start: nat, s: State): State
    requires Shape(start, s) && s.pc.Install?
  {
    var i := s.pc.i;
    var data := s.disk[start + i + 1];
    s.(disk := s.disk[s.lh[i] := data], mem := s.mem[s.lh[i] := data],
       pins := s.pins - multiset{s.lh[i]},
       pc := if i + 1 < |s.lh| then Install(i + 1) else ClearHead)
  }

  function DoClearHead(start: nat, s: State): State
    requires Shape(start, s)
  {
    s.(disk := s.disk[start := WithHeader(s.disk[start], [])], lh := [], pc := Wake)
  }

  function DoWake(s: State): State {
    s.(pc := Running, slots := WakeAll(s.slots))
  }

  /** One disk write of commit, or the final wakeup. */
  function DoCommit(start: nat, s: State): State
    requires Shape(start, s) && Committing(s.pc)
  {
    match s.pc
    case WriteLog(_) => DoWriteLog(start, s)
    case WriteHead => DoWriteHead(start, s)
    case Install(_) => DoInstall(start, s)
    case ClearHead => DoClearHead(start, s)
    case Wake => DoWake(s)
  }

  /** Memory is lost: the cache starts again from the disk. */
  function DoCrash(s: State): State {
    s.(mem := s.disk, lh := [], pins := multiset{}, pc := ReadHead,
       slots := seq(|s.slots|, _ => Outside), outstanding := 0)
  }

  function DoReadHead(start: nat, s: State): State
    requires Shape(start, s)
  {
    var lh := Header(s.disk[start]);
    s.(lh := lh, pc := if lh == [] then Reclear else Reinstall(0))
  }

  function DoReinstall(start: nat, s: State): State
    requires Shape(start, s) && s.pc.Reinstall?
  {
    var i := s.pc.i;
    var data := s.disk[start + i + 1];
    s.(disk := s.disk[s.lh[i] := data], mem := s.mem[s.lh[i] := data],
       pc := if i + 1 < |s.lh| then Reinstall(i + 1) else Reclear)
  }

  function DoReclear(start: nat, s: State): State
    requires Shape(start, s)
  {
    var head := WithHeader(s.disk[start], []);
    s.(disk := s.disk[start := head], mem := s.mem[start := head], lh := [], pc := Running)
  }

  function DoRecover(start: nat, s: State): State
    requires Shape(start, s) && Recovering(s.pc)
  {
    match s.pc
    case ReadHead => DoReadHead(start, s)
    case Reinstall(_) => DoReinstall(start, s)
    case Reclear => DoReclear(start, s)
  }

  function Next(start: nat, s: State, step: Step): State
    requires Shape(start, s) && Enabled(start, s, step)
  {
    match step
    case Begin(p) => DoBegin(s, p)
    case LogWrite(p, b, data) => DoLogWrite(s, p, b, data)
    case End(p) => DoEnd(s, p)
    case CommitStep => DoCommit(start, s)
    case Crash => DoCrash(s)
    case RecoverStep => DoRecover(start, s)
  }

  // The invariant.

  predicate Distinct(lh: seq<Uint>) {
    forall i, j :: 0 <= i < j < |lh| ==> lh[i] != lh[j]
  }

  predicate PcOk(s: State) {
    && (s.pc.WriteLog? || s.pc.Install? || s.pc.Reinstall? ==> s.pc.i < |s.lh|)
    && (s.pc.WriteHead? || s.pc.ClearHead? ==> s.lh != [])
    && (s.pc.Wake? || s.pc.ReadHead? ==> s.lh == [])
  }

  predicate Shape(start: nat, s: State) {
    && DiskOk(s.disk, start) && |s.mem| == |s.disk|
    && |s.lh| <= LOGBLOCKS
    && (forall i :: 0 <= i < |s.lh| ==> IsHome(start, s.lh[i]) && s.lh[i] < |s.disk|)
    && PcOk(s)
  }

  function Cost(s: Slot): int {
    if s.Active? then MAXOPBLOCKS - s.appended else 0
  }

  function Unused(slots: seq<Slot>): int {
    if slots == [] then 0 else Unused(slots[..|slots| - 1]) + Cost(slots[|slots| - 1])
  }

  function ActiveCount(slots: seq<Slot>): nat {
    if slots == [] then 0
    else ActiveCount(slots[..|slots| - 1]) + if slots[|slots| - 1].Active? then 1 else 0
  }

  /** The reserved but unused space always fits in the log. */
  predicate Budget(s: State) {
    && (forall p :: 0 <= p < |s.slots| && s.slots[p].Active? ==> s.slots[p].appended <= MAXOPBLOCKS)
    && s.outstanding == ActiveCount(s.slots)
    && (Committing(s.pc) || Recovering(s.pc) ==> s.outstanding == 0)
    && (s.pc.Running? ==> |s.lh| + Unused(s.slots) <= LOGBLOCKS)
    && (s.pc.Running? && s.outstanding == 0 ==> s.lh == [])
  }

  /** A process sleeps in begin_op only while it could not be admitted. */
  predicate SleepersBlocked(s: State) {
    (exists p :: 0 <= p < |s.slots| && s.slots[p].Asleep?) ==> Committing(s.pc) || (s.pc.Running? && Full(s))
  }

  /** Each header entry holds one pin until it is installed. */
  predicate Pinned(s: State)
    requires PcOk(s)
  {
    s.pins == if Recovering(s.pc) || s.pc.ClearHead? || s.pc.Wake? then multiset{}
              else if s.pc.Install? then multiset(s.lh[s.pc.i..])
              else multiset(s.lh)
  }

  function MemContents(s: State): seq<Block>
    requires |s.mem| == |s.disk| && forall i :: 0 <= i < |s.lh| ==> s.lh[i] < |s.disk|
  {
    seq(|s.lh|, i requires 0 <= i < |s.lh| => s.mem[s.lh[i]])
  }

  /** Disk and cache agree on every home block except those listed from index i on. */
  predicate AgreeExcept(start: nat, d: Disk, mem: Disk, lh: seq<Uint>, i: nat) {
    && |d| == |mem|
    && forall b :: 0 <= b < |d| && IsHome(start, b) && d[b] != mem[b] ==> exists j :: i <= j < |lh| && lh[j] == b
  }

  /** The first i logged blocks have been copied home. */
  predicate Installed(start: nat, d: Disk, lh: seq<Uint>, i: nat)
    requires start + i < |d| && i <= |lh| && forall j :: 0 <= j < |lh| ==> lh[j] < |d|
  {
    forall j :: 0 <= j < i ==> d[lh[j]] == d[start + j + 1]
  }

  /** What the disk holds at each point of a commit or a recovery. */
  predicate Phase(start: nat, s: State)
    requires Shape(start, s)
  {
    match s.pc
    case Running => LogEmpty(s.disk, start) && AgreeExcept(start, s.disk, s.mem, s.lh, 0)
    case WriteLog(i) =>
      && LogEmpty(s.disk, start) && AgreeExcept(start, s.disk, s.mem, s.lh, 0)
      && s.disk[start + 1..start + 1 + i] == MemContents(s)[..i]
    case WriteHead =>
      && LogEmpty(s.disk, start) && AgreeExcept(start, s.disk, s.mem, s.lh, 0)
      && s.disk[start + 1..start + 1 + |s.lh|] == MemContents(s)
    case Install(i) =>
      IsLogged(s.disk, start, s.lh, MemContents(s)) && AgreeExcept(start, s.disk, s.mem, s.lh, i)
    case ClearHead => IsLogged(s.disk, start, s.lh, MemContents(s)) && HomeEq(start, s.disk, s.mem)
    case Wake => LogEmpty(s.disk, start) && HomeEq(start, s.disk, s.mem)
    case ReadHead => s.mem == s.disk
    case Reinstall(i) => s.mem == s.disk && s.lh == Header(s.disk[start]) && Installed(start, s.disk, s.lh, i)
    case Reclear => s.mem == s.disk && s.lh == Header(s.disk[start]) && Installed(start, s.disk, s.lh, |s.lh|)
  }

  predicate DiskInv(start: nat, s: State) {
    Shape(start, s) && Phase(start, s) && Distinct(s.lh) && Distinct(Header(s.disk[start]))
  }

  predicate QueueInv(s: State) {
    PcOk(s) && Budget(s) && SleepersBlocked(s) && Pinned(s)
  }

  predicate Inv(start: nat, s: State) {
    DiskInv(start, s) && QueueInv(s)
  }

  // Sums over the process slots.

  lemma {:induction false} SlotSums(slots: seq<Slot>, p: nat, x: Slot)
    requires p < |slots|
    ensures Unused(slots[p := x]) == Unused(slots) - Cost(slots[p]) + Cost(x)
    ensures ActiveCount(slots[p := x])
            == ActiveCount(slots) - (if slots[p].Active? then 1 else 0) + (if x.Active? then 1 else 0)
  {
    var n := |slots| - 1;
    if p < n {
      SlotSums(slots[..n], p, x);
      assert slots[p := x][..n] == slots[..n][p := x];
    } else {
      assert slots[p := x][..n] == slots[..n];
    }
  }

  lemma {:induction false} SumBounds(slots: seq<Slot>)
    requires forall p :: 0 <= p < |slots| && slots[p].Active? ==> slots[p].appended <= MAXOPBLOCKS
    ensures 0 <= Unused(slots) <= ActiveCount(slots) * MAXOPBLOCKS
    ensures ActiveCount(slots) == 0 ==> forall p :: 0 <= p < |slots| ==> !slots[p].Active?
  {
    if slots != [] {
      SumBounds(slots[..|slots| - 1]);
      assert forall p :: 0 <= p < |slots| - 1 ==> slots[p] == slots[..|slots| - 1][p];
    }
  }

  lemma {:induction false} WakeAllSums(slots: seq<Slot>)
    ensures Unused(WakeAll(slots)) == Unused(slots) && ActiveCount(WakeAll(slots)) == ActiveCount(slots)
  {
    if slots != [] {
      var n := |slots| - 1;
      assert WakeAll(slots)[..n] == WakeAll(slots[..n]);
      WakeAllSums(slots[..n]);
    }
  }

  lemma {:induction false} AllOutsideSums(n: nat)
    ensures ActiveCount(seq(n, _ => Outside)) == 0 && Unused(seq(n, _ => Outside)) == 0
  {
    if n > 0 {
      assert seq(n, _ => Outside)[..n - 1] == seq(n - 1, _ => Outside);
      AllOutsideSums(n - 1);
    }
  }

  /** No panic: an operation that keeps its bargain always finds room, and nobody
      is inside an operation while a commit runs. */
  lemma NoPanic(start: nat, s: State, step: Step)
    requires Inv(start, s) && Enabled(start, s, step)
    ensures !Panics(s, step)
  {
    SumBounds(s.slots);
    if step.LogWrite? {
      SlotSums(s.slots, step.p, Outside);
      SumBounds(s.slots[step.p := Outside]);
    }
  }

  // Each kind of step keeps the invariant.

  lemma SameDisk(start: nat, s: State, s': State)
    requires DiskInv(start, s) && s'.disk == s.disk && s'.mem == s.mem && s'.lh == s.lh && s'.pc == s.pc
    ensures DiskInv(start, s')
  {
    assert MemContents(s') == MemContents(s);
  }

  lemma BeginKeeps(start: nat, s: State, p: nat)
    requires Inv(start, s) && Enabled(start, s, Begin(p))
    ensures Inv(start, DoBegin(s, p))
  {
    SameDisk(start, s, DoBegin(s, p));
    BeginQueue(s, p);
  }

  lemma BeginQueue(s: State, p: nat)
    requires QueueInv(s) && p < |s.slots| && (s.slots[p].Outside? || s.slots[p].Retry?) && !Recovering(s.pc)
    ensures QueueInv(DoBegin(s, p))
  {
    SumBounds(s.slots);
    SlotSums(s.slots, p, DoBegin(s, p).slots[p]);
  }

  lemma AbsorbAgrees(start: nat, d: Disk, mem: Disk, lh: seq<Uint>, b: Uint, data: Block)
    requires b < |mem| && AgreeExcept(start, d, mem, lh, 0)
    ensures AgreeExcept(start, d, mem[b := data], Log.Absorb(lh, b), 0)
  {
    var lh' := Log.Absorb(lh, b);
    assert forall j :: 0 <= j < |lh| ==> lh'[j] == lh[j];
    if b !in lh {
      assert lh'[|lh|] == b;
    }
  }

  lemma LogWriteKeeps(start: nat, s: State, p: nat, b: Uint, data: Block)
    requires Inv(start, s) && Enabled(start, s, LogWrite(p, b, data)) && s.pc.Running?
    ensures Inv(start, DoLogWrite(s, p, b, data))
  {
    NoPanic(start, s, LogWrite(p, b, data));
    AbsorbAgrees(start, s.disk, s.mem, s.lh, b, data);
    AbsorbDistinct(s.lh, b);
    LogWriteQueue(s, p, b, data);
  }

  lemma AbsorbDistinct(lh: seq<Uint>, b: Uint)
    requires Distinct(lh)
    ensures Distinct(Log.Absorb(lh, b))
  {
  }

  lemma LogWriteQueue(s: State, p: nat, b: Uint, data: Block)
    requires QueueInv(s) && s.pc.Running? && p < |s.slots| && s.slots[p].Active? && s.slots[p].appended < MAXOPBLOCKS
    requires b < |s.mem|
    ensures QueueInv(DoLogWrite(s, p, b, data))
  {
    var s' := DoLogWrite(s, p, b, data);
    SumBounds(s.slots);
    if b !in s.lh {
      SlotSums(s.slots, p, s'.slots[p]);
      assert forall q :: 0 <= q < |s.slots| ==> (s'.slots[q].Asleep? <==> s.slots[q].Asleep?);
    }
  }

  lemma EndKeeps(start: nat, s: State, p: nat)
    requires Inv(start, s) && Enabled(start, s, End(p))
    ensures Inv(start, DoEnd(s, p))
  {
    NoPanic(start, s, End(p));
    SumBounds(s.slots);
    assert s.pc.Running?;
    EndQueue(s, p);
    EndDisk(start, s, DoEnd(s, p));
  }

  lemma EndDisk(start: nat, s: State, s': State)
    requires DiskInv(start, s) && s.pc.Running? && s'.disk == s.disk && s'.mem == s.mem && s'.lh == s.lh
    requires s'.pc == s.pc || s'.pc == if s.lh == [] then Wake else WriteLog(0)
    ensures DiskInv(start, s')
  {
    assert s.disk[start + 1..start + 1] == MemContents(s')[..0];
  }

  lemma EndQueue(s: State, p: nat)
    requires QueueInv(s) && s.pc.Running? && p < |s.slots| && s.slots[p].Active?
    ensures QueueInv(DoEnd(s, p))
  {
    var slots := s.slots[p := Outside];
    SumBounds(s.slots);
    SlotSums(s.slots, p, Outside);
    SumBounds(slots);
    WakeAllSums(slots);
  }

  lemma CrashKeeps(start: nat, s: State)
    requires Inv(start, s)
    ensures Inv(start, DoCrash(s))
  {
    AllOutsideSums(|s.slots|);
  }

  // The abstract view: what a crash would preserve, and what running code sees.

  function Durable(start: nat, s: State): (d: Disk)
    requires Shape(start, s)
    ensures |d| == |s.disk|
  {
    Logical(s.disk, start)
  }

  function Current(start: nat, s: State): (d: Disk)
    requires Shape(start, s)
    ensures |d| == |s.disk|
  {
    if Recovering(s.pc) then Durable(start, s) else s.mem
  }

  /** The atomic transactions that the machine implements. */
  datatype Event = Stutter | Update(b: nat, data: Block) | CommitAll | LoseMemory

  datatype Abs = Abs(durable: Disk, current: Disk)

  function AbsNext(a: Abs, e: Event): Abs {
    match e
    case Stutter => a
    case Update(b, data) => Abs(a.durable, if b < |a.current| then a.current[b := data] else a.current)
    case CommitAll => Abs(a.current, a.current)
    case LoseMemory => Abs(a.durable, a.durable)
  }

  function EventOf(s: State, step: Step): Event {
    match step
    case LogWrite(_, b, data) => Update(b, data)
    case CommitStep => if s.pc.WriteHead? then CommitAll else Stutter
    case Crash => LoseMemory
    case _ => Stutter
  }

  predicate AbsEq(start: nat, a: Abs, b: Abs) {
    HomeEq(start, a.durable, b.durable) && HomeEq(start, a.current, b.current)
  }

  function AbsOf(start: nat, s: State): Abs
    requires Shape(start, s)
  {
    Abs(Durable(start, s), Current(start, s))
  }

  /** A logged transaction whose other blocks are clean means the cache contents. */
  lemma LoggedMeansMem(start: nat, s: State)
    requires Shape(start, s) && Distinct(s.lh)
    requires IsLogged(s.disk, start, s.lh, MemContents(s)) && AgreeExcept(start, s.disk, s.mem, s.lh, 0)
    ensures HomeEq(start, Durable(start, s), s.mem)
  {
    LoggedInstalls(s.disk, start, s.lh, MemContents(s));
    HomeWritesMeanMem(start, s.disk, s);
  }

  lemma HomeWritesMeanMem(start: nat, d: Disk, s: State)
    requires Shape(start, s) && Distinct(s.lh) && AgreeExcept(start, d, s.mem, s.lh, 0)
    ensures HomeEq(start, Apply(d, HomeWrites(s.lh, MemContents(s))), s.mem)
  {
    forall b | 0 <= b < |d| && IsHome(start, b)
      ensures Apply(d, HomeWrites(s.lh, MemContents(s)))[b] == s.mem[b]
    {
      HomeWritesAt(d, s.lh, MemContents(s), b);
      if b in s.lh {
        var i :| 0 <= i < |s.lh| && s.lh[i] == b;
        assert MemContents(s)[i] == s.mem[b];
      }
    }
  }

  // The commit steps, first on disks alone.

  lemma WriteLogDisk(start: nat, d: Disk, contents: seq<Block>, i: nat)
    requires LogEmpty(d, start) && i < |contents| <= LOGBLOCKS
    requires d[start + 1..start + 1 + i] == contents[..i]
    ensures var e := d[start + i + 1 := contents[i]];
            && LogEmpty(e, start) && HomeEq(start, e, d)
            && HomeEq(start, Logical(e, start), Logical(d, start))
            && e[start + 1..start + 1 + (i + 1)] == contents[..i + 1]
  {
    var w := Write(start + i + 1, contents[i]);
    ApplyOne(d, w);
    LogWriteKeepsLogical(d, start, [w]);
    LogicalOfEmptyLog(d, start);
    LogicalOfEmptyLog(DoWrite(d, w), start);
    NextSlot(d, start + 1, contents, i);
  }

  lemma NextSlot(d: Disk, lo: nat, contents: seq<Block>, i: nat)
    requires lo + i < |d| && i < |contents|
    requires d[lo..lo + i] == contents[..i]
    ensures d[lo + i := contents[i]][lo..lo + (i + 1)] == contents[..i + 1]
  {
    var e := d[lo + i := contents[i]];
    assert e[lo..lo + i] == d[lo..lo + i];
    assert e[lo..lo + (i + 1)] == e[lo..lo + i] + [e[lo + i]];
    assert contents[..i + 1] == contents[..i] + [contents[i]];
  }

  lemma InstallDisk(start: nat, d: Disk, lh: seq<Uint>, contents: seq<Block>, i: nat)
    requires i < |lh| == |contents| && IsLogged(d, start, lh, contents)
    ensures lh[i] < |d| && d[start + i + 1] == contents[i]
    ensures var e := d[lh[i] := contents[i]];
            IsLogged(e, start, lh, contents) && Logical(e, start) == Logical(d, start)
  {
    assert d[start + i + 1] == d[start + 1..start + 1 + |lh|][i];
    var w := Write(lh[i], contents[i]);
    LoggedInstalls(d, start, lh, contents);
    assert InstallWrites(d, start)[i] == w;
    ApplyOne(d, w);
    InstallKeepsLogical(d, start, [w]);
    InstallTargetsLog(start, d, lh, contents, i);
    StillLogged(start, d, DoWrite(d, w), lh, contents);
  }

  lemma StillLogged(start: nat, d: Disk, e: Disk, lh: seq<Uint>, contents: seq<Block>)
    requires |lh| == |contents| && IsLogged(d, start, lh, contents)
    requires SameLog(start, e, d)
    ensures IsLogged(e, start, lh, contents)
  {
    assert e[start + 1..start + 1 + |lh|] == d[start + 1..start + 1 + |lh|];
  }

  lemma WriteLogKeeps(start: nat, s: State)
    requires DiskInv(start, s) && s.pc.WriteLog?
    ensures DiskInv(start, DoWriteLog(start, s))
    ensures AbsEq(start, AbsOf(start, DoWriteLog(start, s)), AbsOf(start, s))
  {
    var s' := DoWriteLog(start, s);
    WriteLogDisk(start, s.disk, MemContents(s), s.pc.i);
    WriteLogShape(start, s, s');
    AgreeStays(start, s.disk, s'.disk, s.mem, s.lh);
    WriteLogPhase(start, s, s', MemContents(s));
    LogicalAbs(start, s, s');
  }

  lemma WriteLogPhase(start: nat, s: State, s': State, contents: seq<Block>)
    requires Shape(start, s) && Shape(start, s') && s.pc.WriteLog? && s' == DoWriteLog(start, s)
    requires LogEmpty(s'.disk, start) && AgreeExcept(start, s'.disk, s'.mem, s'.lh, 0)
    requires contents == MemContents(s') && s'.disk[start + 1..start + 1 + (s.pc.i + 1)] == contents[..s.pc.i + 1]
    ensures Phase(start, s')
  {
    assert s.pc.i + 1 == |s.lh| ==> contents[..s.pc.i + 1] == contents;
  }

  /** The same memory and the same logical disk. */
  lemma LogicalAbs(start: nat, s: State, s': State)
    requires Shape(start, s) && Shape(start, s') && HomeEq(start, Logical(s'.disk, start), Logical(s.disk, start))
    requires s'.mem == s.mem && !Recovering(s.pc) && !Recovering(s'.pc)
    ensures AbsEq(start, AbsOf(start, s'), AbsOf(start, s))
  {
  }

  lemma WriteLogShape(start: nat, s: State, s': State)
    requires Shape(start, s) && s.pc.WriteLog? && s' == DoWriteLog(start, s) && DiskOk(s'.disk, start)
    ensures Shape(start, s') && MemContents(s') == MemContents(s) && s'.disk[start] == s.disk[start]
    ensures s'.disk == s.disk[start + s.pc.i + 1 := MemContents(s)[s.pc.i]]
  {
  }

  lemma AgreeStays(start: nat, d: Disk, e: Disk, mem: Disk, lh: seq<Uint>)
    requires AgreeExcept(start, d, mem, lh, 0) && HomeEq(start, e, d)
    ensures AgreeExcept(start, e, mem, lh, 0)
  {
  }

  /** The commit point. */
  lemma WriteHeadCommits(start: nat, s: State)
    requires DiskInv(start, s) && s.pc.WriteHead?
    ensures DiskInv(start, DoWriteHead(start, s))
    ensures AbsEq(start, AbsOf(start, DoWriteHead(start, s)), Abs(s.mem, s.mem))
  {
    HeaderWriteCommits(s.disk, start, s.lh, MemContents(s));
    HomeWritesMeanMem(start, s.disk, s);
    var s' := DoWriteHead(start, s);
    assert MemContents(s') == MemContents(s);
    assert s'.lh[0..] == s.lh;
  }

  lemma AgreeAfter(start: nat, d: Disk, mem: Disk, lh: seq<Uint>, i: nat)
    requires i < |lh| && lh[i] < |mem| && AgreeExcept(start, d, mem, lh, i)
    ensures AgreeExcept(start, d[lh[i] := mem[lh[i]]], mem, lh, i + 1)
    ensures i + 1 == |lh| ==> HomeEq(start, d[lh[i] := mem[lh[i]]], mem)
  {
    assert lh[i..] == [lh[i]] + lh[i + 1..];
  }

  lemma InstallShape(start: nat, s: State)
    requires Shape(start, s) && s.pc.Install? && s.disk[start + s.pc.i + 1] == s.mem[s.lh[s.pc.i]]
    requires DiskOk(s.disk[s.lh[s.pc.i] := s.mem[s.lh[s.pc.i]]], start)
    ensures var s' := DoInstall(start, s);
            Shape(start, s') && s'.mem == s.mem && MemContents(s') == MemContents(s)
  {
    assert DoInstall(start, s).mem == s.mem;
  }

  lemma InstallKeeps(start: nat, s: State)
    requires DiskInv(start, s) && s.pc.Install?
    ensures DiskInv(start, DoInstall(start, s))
    ensures AbsEq(start, AbsOf(start, DoInstall(start, s)), AbsOf(start, s))
  {
    var i, s' := s.pc.i, DoInstall(start, s);
    InstallDisk(start, s.disk, s.lh, MemContents(s), i);
    AgreeAfter(start, s.disk, s.mem, s.lh, i);
    InstallShape(start, s);
    LogicalAbs(start, s, s');
  }

  lemma ClearHeadKeeps(start: nat, s: State)
    requires DiskInv(start, s) && s.pc.ClearHead?
    ensures DiskInv(start, DoClearHead(start, s))
    ensures AbsEq(start, AbsOf(start, DoClearHead(start, s)), AbsOf(start, s))
  {
    var s' := DoClearHead(start, s);
    LoggedMeansMem(start, s);
    ClearKeepsLogical(s.disk, start);
    LogicalOfEmptyLog(s'.disk, start);
  }

  lemma WakeKeeps(start: nat, s: State)
    requires DiskInv(start, s) && s.pc.Wake?
    ensures DiskInv(start, DoWake(s))
    ensures AbsEq(start, AbsOf(start, DoWake(s)), AbsOf(start, s))
  {
  }

  lemma WakeQueue(start: nat, s: State)
    requires Shape(start, s) && QueueInv(s) && s.pc.Wake?
    ensures QueueInv(DoWake(s))
  {
    WakeAllSums(s.slots);
    SumBounds(s.slots);
  }

  /** A commit step other than the wakeup moves no process. */
  lemma CommitQueue(start: nat, s: State)
    requires Shape(start, s) && QueueInv(s) && Committing(s.pc)
    ensures QueueInv(DoCommit(start, s))
  {
    if s.pc.Wake? {
      WakeQueue(start, s);
    } else {
      CommitPins(start, s);
    }
  }

  lemma SameQueue(s: State, s': State)
    requires QueueInv(s) && Committing(s.pc) && Committing(s'.pc) && PcOk(s') && Pinned(s')
    requires s'.slots == s.slots && s'.outstanding == s.outstanding
    ensures QueueInv(s')
  {
  }

  lemma PinsAfter(s: State, pins: multiset<Uint>)
    requires PcOk(s) && s.pc.Install? && pins == multiset(s.lh[s.pc.i..])
    ensures pins - multiset{s.lh[s.pc.i]} == multiset(s.lh[s.pc.i + 1..])
  {
    assert s.lh[s.pc.i..] == [s.lh[s.pc.i]] + s.lh[s.pc.i + 1..];
  }

  lemma CommitPins(start: nat, s: State)
    requires Shape(start, s) && QueueInv(s) && Committing(s.pc) && !s.pc.Wake?
    ensures QueueInv(DoCommit(start, s))
  {
    if s.pc.Install? {
      InstallPins(start, s);
      SameQueue(s, DoInstall(start, s));
    } else {
      OtherPins(start, s);
    }
  }

  lemma OtherPins(start: nat, s: State)
    requires Shape(start, s) && QueueInv(s) && Committing(s.pc) && !s.pc.Wake? && !s.pc.Install?
    ensures QueueInv(DoCommit(start, s))
  {
    if s.pc.WriteHead? {
      assert s.lh[0..] == s.lh;
      SameQueue(s, DoWriteHead(start, s));
    } else if s.pc.WriteLog? {
      SameQueue(s, DoWriteLog(start, s));
    } else {
      SameQueue(s, DoClearHead(start, s));
    }
  }

  lemma InstallPins(start: nat, s: State)
    requires Shape(start, s) && s.pc.Install? && Pinned(s)
    ensures Pinned(DoInstall(start, s))
  {
    PinsAfter(s, s.pins);
    if s.pc.i + 1 == |s.lh| {
      assert s.lh[s.pc.i + 1..] == [];
    }
  }

  lemma InstalledMore(start: nat, d: Disk, lh: seq<Uint>, i: nat)
    requires i < |lh| <= LOGBLOCKS && start + |lh| < |d| && Distinct(lh)
    requires forall j :: 0 <= j < |lh| ==> lh[j] < |d| && IsHome(start, lh[j])
    requires Installed(start, d, lh, i)
    ensures Installed(start, d[lh[i] := d[start + i + 1]], lh, i + 1)
  {
  }

  lemma ReinstallDisk(start: nat, d: Disk, lh: seq<Uint>, i: nat)
    requires DiskOk(d, start) && lh == Header(d[start]) && i < |lh| && Distinct(lh)
    requires forall j :: 0 <= j < |lh| ==> lh[j] < |d|
    requires Installed(start, d, lh, i)
    ensures var e := d[lh[i] := d[start + i + 1]];
            && DiskOk(e, start) && lh == Header(e[start])
            && Logical(e, start) == Logical(d, start)
            && Installed(start, e, lh, i + 1)
  {
    var contents := d[start + 1..start + 1 + |lh|];
    assert contents[i] == d[start + i + 1];
    assert IsLogged(d, start, lh, contents);
    InstallDisk(start, d, lh, contents, i);
    assert forall j :: 0 <= j < |lh| ==> IsHome(start, lh[j]);
    InstalledMore(start, d, lh, i);
  }

  lemma InstalledMeansLogical(start: nat, d: Disk, lh: seq<Uint>)
    requires DiskOk(d, start) && lh == Header(d[start]) && Distinct(lh)
    requires forall j :: 0 <= j < |lh| ==> lh[j] < |d|
    requires Installed(start, d, lh, |lh|)
    ensures HomeEq(start, d, Logical(d, start))
  {
    var contents := d[start + 1..start + 1 + |lh|];
    assert InstallWrites(d, start) == HomeWrites(lh, contents);
    forall b | 0 <= b < |d| && IsHome(start, b)
      ensures d[b] == Apply(d, HomeWrites(lh, contents))[b]
    {
      HomeWritesAt(d, lh, contents, b);
      if b in lh {
        var i :| 0 <= i < |lh| && lh[i] == b;
        assert contents[i] == d[start + i + 1];
      }
    }
  }

  lemma InstallTargetsLog(start: nat, d: Disk, lh: seq<Uint>, contents: seq<Block>, i: nat)
    requires i < |lh| == |contents| && IsLogged(d, start, lh, contents)
    ensures lh[i] < |d| && lh[i] != start
  {
    assert IsHome(start, Header(d[start])[i]);
  }

  lemma ReadHeadKeeps(start: nat, s: State)
    requires DiskInv(start, s) && s.pc.ReadHead?
    ensures DiskInv(start, DoReadHead(start, s))
    ensures AbsEq(start, AbsOf(start, DoReadHead(start, s)), AbsOf(start, s))
  {
    SameLogical(start, s, DoReadHead(start, s));
  }

  lemma ReinstallAssembles(start: nat, s: State, e: Disk)
    requires DiskInv(start, s) && s.pc.Reinstall?
    requires e == s.disk[s.lh[s.pc.i] := s.disk[start + s.pc.i + 1]]
    requires DiskOk(e, start) && s.lh == Header(e[start]) && Installed(start, e, s.lh, s.pc.i + 1)
    ensures DiskInv(start, DoReinstall(start, s)) && DoReinstall(start, s).disk == e
  {
  }

  lemma ReinstallKeeps(start: nat, s: State)
    requires DiskInv(start, s) && s.pc.Reinstall?
    ensures DiskInv(start, DoReinstall(start, s))
    ensures AbsEq(start, AbsOf(start, DoReinstall(start, s)), AbsOf(start, s))
  {
    ReinstallDisk(start, s.disk, s.lh, s.pc.i);
    ReinstallAssembles(start, s, s.disk[s.lh[s.pc.i] := s.disk[start + s.pc.i + 1]]);
    SameLogical(start, s, DoReinstall(start, s));
  }

  lemma SameLogical(start: nat, s: State, s': State)
    requires Shape(start, s) && Shape(start, s') && Recovering(s.pc) && Recovering(s'.pc)
    requires Logical(s'.disk, start) == Logical(s.disk, start)
    ensures AbsEq(start, AbsOf(start, s'), AbsOf(start, s))
  {
  }

  lemma ReclearKeeps(start: nat, s: State)
    requires DiskInv(start, s) && s.pc.Reclear?
    ensures DiskInv(start, DoReclear(start, s))
    ensures AbsEq(start, AbsOf(start, DoReclear(start, s)), AbsOf(start, s))
  {
    var s' := DoReclear(start, s);
    InstalledMeansLogical(start, s.disk, s.lh);
    ClearKeepsLogical(s.disk, start);
    LogicalOfEmptyLog(s'.disk, start);
  }

  lemma RecoverQueue(start: nat, s: State)
    requires Shape(start, s) && QueueInv(s) && Recovering(s.pc)
    ensures QueueInv(DoRecover(start, s))
  {
    SumBounds(s.slots);
  }

  lemma CommitStepStutters(start: nat, s: State)
    requires DiskInv(start, s) && Committing(s.pc) && !s.pc.WriteHead?
    ensures DiskInv(start, DoCommit(start, s))
    ensures AbsEq(start, AbsOf(start, DoCommit(start, s)), AbsOf(start, s))
  {
    if s.pc.WriteLog? {
      WriteLogKeeps(start, s);
    } else if s.pc.Install? {
      InstallKeeps(start, s);
    } else if s.pc.ClearHead? {
      ClearHeadKeeps(start, s);
    } else {
      WakeKeeps(start, s);
    }
  }

  lemma CommitStepRefines(start: nat, s: State)
    requires DiskInv(start, s) && Committing(s.pc)
    ensures DiskInv(start, DoCommit(start, s))
    ensures AbsEq(start, AbsOf(start, DoCommit(start, s)), AbsNext(AbsOf(start, s), EventOf(s, CommitStep)))
  {
    CommitEvent(start, s);
    if s.pc.WriteHead? {
      WriteHeadCommits(start, s);
    } else {
      CommitStepStutters(start, s);
    }
  }

  lemma CommitEvent(start: nat, s: State)
    requires Shape(start, s) && Committing(s.pc)
    ensures AbsNext(AbsOf(start, s), EventOf(s, CommitStep))
            == if s.pc.WriteHead? then Abs(s.mem, s.mem) else AbsOf(start, s)
  {
  }

  lemma RecoverStepRefines(start: nat, s: State)
    requires DiskInv(start, s) && Recovering(s.pc)
    ensures DiskInv(start, DoRecover(start, s))
    ensures AbsEq(start, AbsOf(start, DoRecover(start, s)), AbsOf(start, s))
  {
    match s.pc
    case ReadHead => ReadHeadKeeps(start, s);
    case Reinstall(_) => ReinstallKeeps(start, s);
    case Reclear => ReclearKeeps(start, s);
  }

  lemma OnlyRunningIsActive(start: nat, s: State, p: nat)
    requires Inv(start, s) && p < |s.slots| && s.slots[p].Active?
    ensures s.pc.Running?
  {
    SumBounds(s.slots);
  }

  lemma SameAbs(start: nat, s: State, s': State)
    requires Shape(start, s) && Shape(start, s')
    requires s'.disk == s.disk && s'.mem == s.mem && Recovering(s'.pc) == Recovering(s.pc)
    ensures AbsEq(start, AbsOf(start, s'), AbsOf(start, s))
  {
  }

  lemma LogWriteUpdates(start: nat, s: State, p: nat, b: Uint, data: Block)
    requires Inv(start, s) && Enabled(start, s, LogWrite(p, b, data)) && s.pc.Running?
    ensures Inv(start, DoLogWrite(s, p, b, data))
    ensures AbsEq(start, AbsOf(start, DoLogWrite(s, p, b, data)), AbsNext(AbsOf(start, s), Update(b, data)))
  {
    LogWriteKeeps(start, s, p, b, data);
  }

  lemma ProcessStepRefines(start: nat, s: State, step: Step)
    requires Inv(start, s) && Enabled(start, s, step) && (step.Begin? || step.LogWrite? || step.End?)
    ensures Inv(start, Next(start, s, step))
    ensures AbsEq(start, AbsOf(start, Next(start, s, step)), AbsNext(AbsOf(start, s), EventOf(s, step)))
  {
    match step
    case Begin(p) =>
      BeginKeeps(start, s, p);
      SameAbs(start, s, DoBegin(s, p));
    case LogWrite(p, b, data) =>
      OnlyRunningIsActive(start, s, p);
      LogWriteUpdates(start, s, p, b, data);
    case End(p) =>
      OnlyRunningIsActive(start, s, p);
      EndKeeps(start, s, p);
      SameAbs(start, s, DoEnd(s, p));
  }

  /** One step: the invariant is kept, and the machine does to the logical disk
      exactly what the corresponding atomic event does. */
  lemma StepRefines(start: nat, s: State, step: Step)
    requires Inv(start, s) && Enabled(start, s, step)
    ensures Inv(start, Next(start, s, step))
    ensures AbsEq(start, AbsOf(start, Next(start, s, step)), AbsNext(AbsOf(start, s), EventOf(s, step)))
  {
    if step.Begin? || step.LogWrite? || step.End? {
      ProcessStepRefines(start, s, step);
    } else if step.Crash? {
      CrashKeeps(start, s);
    } else if step.CommitStep? {
      CommitStepRefines(start, s);
      CommitQueue(start, s);
    } else {
      RecoverStepRefines(start, s);
      RecoverQueue(start, s);
    }
  }

  // Whole runs.

  function Init(disk: Disk, nproc: nat): State {
    State(disk, disk, [], multiset{}, Running, seq(nproc, _ => Outside), 0)
  }

  /** Every step is enabled where it is taken. */
  ghost predicate IsRun(start: nat, s: State, steps: seq<Step>)
    requires Inv(start, s)
    decreases steps
  {
    if steps == [] then true
    else Enabled(start, s, steps[0])
         && (StepRefines(start, s, steps[0]); IsRun(start, Next(start, s, steps[0]), steps[1..]))
  }

  ghost function Run(start: nat, s: State, steps: seq<Step>): (s': State)
    requires Inv(start, s) && IsRun(start, s, steps)
    ensures Inv(start, s')
    decreases steps
  {
    if steps == [] then s else
      StepRefines(start, s, steps[0]);
      Run(start, Next(start, s, steps[0]), steps[1..])
  }

  /** No step of the run panics. */
  ghost predicate NeverPanics(start: nat, s: State, steps: seq<Step>)
    requires Inv(start, s) && IsRun(start, s, steps)
    decreases steps
  {
    steps == [] || (!Panics(s, steps[0])
                    && (StepRefines(start, s, steps[0]); NeverPanics(start, Next(start, s, steps[0]), steps[1..])))
  }

  lemma {:induction false} RunNeverPanics(start: nat, s: State, steps: seq<Step>)
    requires Inv(start, s) && IsRun(start, s, steps)
    ensures NeverPanics(start, s, steps)
    decreases steps
  {
    if steps != [] {
      NoPanic(start, s, steps[0]);
      StepRefines(start, s, steps[0]);
      RunNeverPanics(start, Next(start, s, steps[0]), steps[1..]);
    }
  }

  ghost function AbsRun(start: nat, s: State, steps: seq<Step>, a: Abs): Abs
    requires Inv(start, s) && IsRun(start, s, steps)
    decreases steps
  {
    if steps == [] then a else
      StepRefines(start, s, steps[0]);
      AbsRun(start, Next(start, s, steps[0]), steps[1..], AbsNext(a, EventOf(s, steps[0])))
  }

  lemma AbsNextCongruent(start: nat, a: Abs, b: Abs, e: Event)
    requires AbsEq(start, a, b)
    ensures AbsEq(start, AbsNext(a, e), AbsNext(b, e))
  {
  }

  lemma {:induction false} RunRefines(start: nat, s: State, steps: seq<Step>, a: Abs)
    requires Inv(start, s) && IsRun(start, s, steps) && AbsEq(start, AbsOf(start, s), a)
    ensures AbsEq(start, AbsOf(start, Run(start, s, steps)), AbsRun(start, s, steps, a))
    decreases steps
  {
    if steps != [] {
      StepRefines(start, s, steps[0]);
      AbsNextCongruent(start, AbsOf(start, s), a, EventOf(s, steps[0]));
      RunRefines(start, Next(start, s, steps[0]), steps[1..], AbsNext(a, EventOf(s, steps[0])));
    }
  }

  /** Every run from a clean disk, through any number of crashes and half-finished
      recoveries, is a run of atomic transactions: updates become durable only all
      together, at a header write, and a crash loses exactly the uncommitted ones. */
  lemma RunsAreAtomic(start: nat, disk: Disk, nproc: nat, steps: seq<Step>)
    requires LogEmpty(disk, start)
    ensures Inv(start, Init(disk, nproc))
    ensures IsRun(start, Init(disk, nproc), steps) ==>
              AbsEq(start, AbsOf(start, Run(start, Init(disk, nproc), steps)),
                    AbsRun(start, Init(disk, nproc), steps, Abs(disk, disk)))
  {
    var s := Init(disk, nproc);
    AllOutsideSums(nproc);
    LogicalOfEmptyLog(disk, start);
    if IsRun(start, s, steps) {
      RunRefines(start, s, steps, Abs(disk, disk));
    }
  }

  lemma {:induction false} PrefixRun(start: nat, s: State, steps: seq<Step>, k: nat)
    requires Inv(start, s) && IsRun(start, s, steps) && k <= |steps|
    ensures IsRun(start, s, steps[..k])
    decreases steps
  {
    if k > 0 {
      StepRefines(start, s, steps[0]);
      assert steps[..k][1..] == steps[1..][..k - 1];
      PrefixRun(start, Next(start, s, steps[0]), steps[1..], k - 1);
    }
  }

  /** The cache between operations: the run reaches, after k steps, a state with no
      operation in progress whose cache is (as home blocks) d. */
  ghost predicate QuiescentAt(start: nat, s: State, steps: seq<Step>, k: nat, d: Disk)
    requires Inv(start, s) && IsRun(start, s, steps)
  {
    k <= |steps| && (PrefixRun(start, s, steps, k); Quiescent(start, Run(start, s, steps[..k]), d))
  }

  predicate Quiescent(start: nat, t: State, d: Disk)
    requires Shape(start, t)
  {
    t.outstanding == 0 && HomeEq(start, d, Current(start, t))
  }

  /** No half-done operation ever becomes durable: what a crash preserves is always
      the cache as it was at some moment of the run with no operation in progress. */
  lemma {:induction false} DurableIsQuiescent(start: nat, s: State, steps: seq<Step>)
    requires Inv(start, s) && IsRun(start, s, steps)
    requires s.outstanding == 0 && HomeEq(start, Durable(start, s), Current(start, s))
    ensures exists k :: QuiescentAt(start, s, steps, k, Durable(start, Run(start, s, steps)))
  {
    var k := DurableSince(start, s, steps);
    if k == |steps| + 1 {
      assert steps[..0] == [];
      assert QuiescentAt(start, s, steps, 0, Durable(start, Run(start, s, steps)));
    }
  }

  lemma RunNext(start: nat, s: State, steps: seq<Step>, s1: State, rest: seq<Step>)
    requires Inv(start, s) && steps != [] && IsRun(start, s, steps)
    requires s1 == Next(start, s, steps[0]) && rest == steps[1..]
    requires Inv(start, s1)
    ensures IsRun(start, s1, rest) && Run(start, s, steps) == Run(start, s1, rest)
  {
  }

  /** A run of k + 1 steps is the first step and the run of the k others. */
  lemma RunPrefix(start: nat, s: State, steps: seq<Step>, s1: State, rest: seq<Step>, k: nat)
    requires Inv(start, s) && steps != [] && IsRun(start, s, steps)
    requires s1 == Next(start, s, steps[0]) && rest == steps[1..]
    requires Inv(start, s1) && IsRun(start, s1, rest) && k <= |rest|
    ensures IsRun(start, s, steps[..k + 1]) && IsRun(start, s1, rest[..k])
    ensures Run(start, s, steps[..k + 1]) == Run(start, s1, rest[..k])
  {
    PrefixRun(start, s1, rest, k);
    PrefixRun(start, s, steps, k + 1);
    var part := steps[..k + 1];
    assert part[0] == steps[0] && part[1..] == rest[..k];
    RunNext(start, s, part, s1, rest[..k]);
  }

  lemma QuiescentLater(start: nat, s: State, steps: seq<Step>, s1: State, rest: seq<Step>, k: nat, d: Disk)
    requires Inv(start, s) && IsRun(start, s, steps)
    requires Inv(start, s1) && IsRun(start, s1, rest) && |steps| == |rest| + 1
    requires QuiescentAt(start, s1, rest, k, d)
    requires IsRun(start, s, steps[..k + 1]) && IsRun(start, s1, rest[..k])
    requires Run(start, s, steps[..k + 1]) == Run(start, s1, rest[..k])
    ensures k < |steps| && QuiescentAt(start, s, steps, k + 1, d)
  {
  }

  /** A header write: what is durable after it is the cache before it. */
  lemma QuiescentNow(start: nat, s: State, steps: seq<Step>, s1: State, d: Disk)
    requires Inv(start, s) && steps != [] && IsRun(start, s, steps) && EventOf(s, steps[0]).CommitAll?
    requires Shape(start, s1) && HomeEq(start, d, Durable(start, s1))
    requires AbsEq(start, AbsOf(start, s1), AbsNext(AbsOf(start, s), EventOf(s, steps[0])))
    ensures QuiescentAt(start, s, steps, 0, d)
  {
    assert steps[..0] == [];
  }

  /** Any other step leaves what is durable as it was. */
  lemma DurableStays(start: nat, s: State, e: Event, s1: State, d: Disk)
    requires Shape(start, s) && Shape(start, s1) && !e.CommitAll? && HomeEq(start, d, Durable(start, s1))
    requires AbsEq(start, AbsOf(start, s1), AbsNext(AbsOf(start, s), e))
    ensures HomeEq(start, d, Durable(start, s))
  {
  }

  lemma RunNone(start: nat, s: State, steps: seq<Step>)
    requires Inv(start, s) && steps == [] && IsRun(start, s, steps)
    ensures Run(start, s, steps) == s
  {
  }

  /** Either no header write happens, or the last one is after some k steps. */
  lemma {:induction false} DurableSince(start: nat, s: State, steps: seq<Step>) returns (k: nat)
    requires Inv(start, s) && IsRun(start, s, steps)
    ensures k <= |steps| + 1
    ensures k <= |steps| ==> QuiescentAt(start, s, steps, k, Durable(start, Run(start, s, steps)))
    ensures k == |steps| + 1 ==> HomeEq(start, Durable(start, Run(start, s, steps)), Durable(start, s))
    decreases |steps|
  {
    if |steps| == 0 {
      RunNone(start, s, steps);
      return 1;
    }
    StepRefines(start, s, steps[0]);
    var s1, rest := Next(start, s, steps[0]), steps[1..];
    RunNext(start, s, steps, s1, rest);
    k := DurableSince(start, s1, rest);
    var d := Durable(start, Run(start, s, steps));
    if k <= |rest| {
      RunPrefix(start, s, steps, s1, rest, k);
      QuiescentLater(start, s, steps, s1, rest, k, d);
      k := k + 1;
    } else {
      k := DurableStep(start, s, steps, s1, d);
    }
  }

  lemma DurableStep(start: nat, s: State, steps: seq<Step>, s1: State, d: Disk) returns (k: nat)
    requires Inv(start, s) && steps != [] && IsRun(start, s, steps) && s1 == Next(start, s, steps[0])
    requires Inv(start, s1) && AbsEq(start, AbsOf(start, s1), AbsNext(AbsOf(start, s), EventOf(s, steps[0])))
    requires HomeEq(start, d, Durable(start, s1))
    ensures if k == 0 then QuiescentAt(start, s, steps, 0, d)
            else k == |steps| + 1 && HomeEq(start, d, Durable(start, s))
  {
    if EventOf(s, steps[0]).CommitAll? {
      QuiescentNow(start, s, steps, s1, d);
      k := 0;
    } else {
      DurableStays(start, s, EventOf(s, steps[0]), s1, d);
      k := |steps| + 1;
    }
  }

  /** When end_op's commit has finished, everything written so far is durable. */
  lemma FinishedCommitIsDurable(start: nat, s: State)
    requires Inv(start, s) && (s.pc.Wake? || (s.pc.Running? && s.outstanding == 0))
    ensures HomeEq(start, Durable(start, s), s.mem)
  {
    LogicalOfEmptyLog(s.disk, start);
  }

  /** Admission cannot stall for ever: whoever sleeps in begin_op is waiting for a
      commit or for an operation in progress, and both end by waking every sleeper. */
  lemma SleeperHasWaker(start: nat, s: State, p: nat)
    requires Inv(start, s) && p < |s.slots| && s.slots[p].Asleep?
    ensures Committing(s.pc) || exists q :: 0 <= q < |s.slots| && s.slots[q].Active?
    ensures Committing(s.pc) && s.pc.Wake? ==> Next(start, s, CommitStep).slots[p].Retry?
    ensures forall q :: 0 <= q < |s.slots| && s.slots[q].Active? ==>
              var s' := Next(start, s, End(q)); s'.slots[p].Retry? || Committing(s'.pc)
  {
    if !Committing(s.pc) && forall q :: 0 <= q < |s.slots| ==> !s.slots[q].Active? {
      NoActive(s.slots);
    }
    forall q | 0 <= q < |s.slots| && s.slots[q].Active?
      ensures var s' := Next(start, s, End(q)); s'.slots[p].Retry? || Committing(s'.pc)
    {
      EndWakes(s, p, q);
    }
  }

  lemma EndWakes(s: State, p: nat, q: nat)
    requires p < |s.slots| && q < |s.slots| && s.slots[p].Asleep? && s.slots[q].Active?
    ensures |DoEnd(s, q).slots| == |s.slots| && (DoEnd(s, q).slots[p].Retry? || Committing(DoEnd(s, q).pc))
  {
  }

  lemma {:induction false} NoActive(slots: seq<Slot>)
    requires forall q :: 0 <= q < |slots| ==> !slots[q].Active?
    ensures ActiveCount(slots) == 0
  {
    if slots != [] {
      NoActive(slots[..|slots| - 1]);
    }
  }
}
