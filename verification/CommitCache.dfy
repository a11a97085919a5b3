/** The log and the buffer cache together: commit reads log blocks through bget while every
    block of the header holds a buffer. */
module CommitCache {
  import opened Blocks
  import opened Wal
  import opened GroupCommit
  import Bio

  /** When bget panics: the block is not cached and every buffer is in use. */
  predicate NoBuffer(bufs: seq<Bio.Buf>, dev: nat, n: nat)
    requires |bufs| == Bio.NBUF
  {
    forall i :: 0 <= i < Bio.NBUF ==> !Bio.Mine(bufs[i], dev, n) && bufs[i].refcnt > 0
  }

  predicate Holds(buf: Bio.Buf, dev: nat, n: nat) {
    Bio.Mine(buf, dev, n) && buf.refcnt > 0
  }

  /** log_write pinned a buffer for each block of the header. */
  ghost predicate AllPinned(bufs: seq<Bio.Buf>, dev: nat, lh: seq<Uint>) {
    |bufs| == Bio.NBUF && forall k :: 0 <= k < |lh| ==> PinnedBlock(bufs, dev, lh[k])
  }

  ghost predicate PinnedBlock(bufs: seq<Bio.Buf>, dev: nat, n: nat) {
    exists i: nat :: i < |bufs| && Holds(bufs[i], dev, n)
  }

  /** Different blocks are in different buffers. */
  lemma {:induction false} Buffers(bufs: seq<Bio.Buf>, dev: nat, lh: seq<Uint>) returns (at: set<nat>)
    requires AllPinned(bufs, dev, lh) && Distinct(lh)
    ensures |at| == |lh| && forall i :: i in at ==> i < Bio.NBUF && InUse(bufs, dev, lh, i)
    decreases |lh|
  {
    if lh == [] {
      return {};
    }
    var m := |lh| - 1;
    assert forall k :: 0 <= k < m ==> lh[..m][k] == lh[k];
    var rest := Buffers(bufs, dev, lh[..m]);
    assert PinnedBlock(bufs, dev, lh[m]);
    var i: nat :| i < |bufs| && Holds(bufs[i], dev, lh[m]);
    at := rest + {i};
    forall j | j in rest
      ensures j != i && InUse(bufs, dev, lh, j)
    {
      var k :| 0 <= k < m && Holds(bufs[j], dev, lh[..m][k]);
      assert lh[..m][k] == lh[k] && lh[k] != lh[m];
    }
  }

  predicate InUse(bufs: seq<Bio.Buf>, dev: nat, lh: seq<Uint>, i: nat) {
    i < |bufs| && exists k :: 0 <= k < |lh| && Holds(bufs[i], dev, lh[k])
  }

  lemma {:induction false} Full(at: set<nat>, n: nat, i: nat)
    requires (forall j :: j in at ==> j < n) && |at| == n && i < n
    ensures i in at
  {
    var rest := at - {n - 1};
    if n - 1 !in at {
      assert forall j :: j in at ==> j < n - 1;
      AtMost(at, n - 1);
    } else if i < n - 1 {
      Full(rest, n - 1, i);
    }
  }

  lemma {:induction false} AtMost(at: set<nat>, n: nat)
    requires forall j :: j in at ==> j < n
    ensures |at| <= n
  {
    if n == 0 {
      assert at == {};
    } else {
      AtMost(at - {n - 1}, n - 1);
    }
  }

  /** A header cannot list more blocks than there are buffers, and when it lists as many,
      any other block finds no buffer. */
  lemma FullHeaderTakesAll(bufs: seq<Bio.Buf>, dev: nat, lh: seq<Uint>, n: nat)
    requires AllPinned(bufs, dev, lh) && Distinct(lh)
    ensures |lh| <= Bio.NBUF
    ensures |lh| == Bio.NBUF && n !in lh ==> NoBuffer(bufs, dev, n)
  {
    var at := Buffers(bufs, dev, lh);
    AtMost(at, Bio.NBUF);
    if |lh| == Bio.NBUF && n !in lh {
      forall i | 0 <= i < Bio.NBUF
        ensures !Bio.Mine(bufs[i], dev, n) && bufs[i].refcnt > 0
      {
        Full(at, Bio.NBUF, i);
        assert InUse(bufs, dev, lh, i);
      }
    }
  }

  // The buffers by their use.

  ghost function Pinned(bufs: seq<Bio.Buf>, dev: nat, lh: seq<Uint>): set<nat> {
    set i: nat | i < |bufs| && InUse(bufs, dev, lh, i)
  }

  /** The buffers that someone uses for a block outside the header. */
  ghost function Busy(bufs: seq<Bio.Buf>, dev: nat, lh: seq<Uint>): set<nat> {
    set i: nat | i < |bufs| && bufs[i].refcnt > 0 && !InUse(bufs, dev, lh, i)
  }

  function Idle(bufs: seq<Bio.Buf>): set<nat> {
    set i: nat | i < |bufs| && bufs[i].refcnt == 0
  }

  predicate Cached(bufs: seq<Bio.Buf>, dev: nat, n: nat) {
    exists i :: 0 <= i < |bufs| && Bio.Mine(bufs[i], dev, n)
  }

  /** Each block of the header has one buffer. */
  lemma {:induction false} PinnedCount(bufs: seq<Bio.Buf>, dev: nat, lh: seq<Uint>)
    requires AllPinned(bufs, dev, lh) && Distinct(lh) && Bio.Unique(bufs) && dev != 0
    ensures |Pinned(bufs, dev, lh)| == |lh|
    decreases |lh|
  {
    if lh == [] {
      assert Pinned(bufs, dev, lh) == {};
      return;
    }
    var m := |lh| - 1;
    assert forall k :: 0 <= k < m ==> lh[..m][k] == lh[k];
    PinnedCount(bufs, dev, lh[..m]);
    assert PinnedBlock(bufs, dev, lh[m]);
    var i: nat :| i < |bufs| && Holds(bufs[i], dev, lh[m]);
    forall j: nat
      ensures j in Pinned(bufs, dev, lh) <==> j == i || j in Pinned(bufs, dev, lh[..m])
    {
      PinnedNext(bufs, dev, lh, lh[..m], i, j);
    }
    PinnedNext(bufs, dev, lh, lh[..m], i, i);
    assert Pinned(bufs, dev, lh) == Pinned(bufs, dev, lh[..m]) + {i};
  }

  /** Buffer i holds the last block of the header lh, whose others are in `rest`. */
  lemma PinnedNext(bufs: seq<Bio.Buf>, dev: nat, lh: seq<Uint>, rest: seq<Uint>, i: nat, j: nat)
    requires lh != [] && rest == lh[..|lh| - 1] && Distinct(lh) && Bio.Unique(bufs) && dev != 0
    requires i < |bufs| && Holds(bufs[i], dev, lh[|lh| - 1])
    ensures InUse(bufs, dev, lh, j) <==> j == i || InUse(bufs, dev, rest, j)
    ensures !InUse(bufs, dev, rest, i)
  {
    if InUse(bufs, dev, lh, j) {
      var k :| 0 <= k < |lh| && Holds(bufs[j], dev, lh[k]);
      assert k < |rest| ==> Holds(bufs[j], dev, rest[k]);
    }
    if InUse(bufs, dev, rest, j) {
      var k :| 0 <= k < |rest| && Holds(bufs[j], dev, rest[k]);
      assert Holds(bufs[j], dev, lh[k]);
    }
  }

  lemma {:induction false} AllBelow(n: nat) returns (all: set<nat>)
    ensures |all| == n && forall i: nat :: i in all <==> i < n
  {
    all := {};
    if n > 0 {
      var rest := AllBelow(n - 1);
      all := rest + {n - 1};
    }
  }

  lemma UsesAddUp(bufs: seq<Bio.Buf>, dev: nat, lh: seq<Uint>)
    ensures |Pinned(bufs, dev, lh)| + |Busy(bufs, dev, lh)| + |Idle(bufs)| == |bufs|
  {
    var all := AllBelow(|bufs|);
    var used := Pinned(bufs, dev, lh) + Busy(bufs, dev, lh);
    assert Pinned(bufs, dev, lh) !! Busy(bufs, dev, lh) && used !! Idle(bufs);
    assert used + Idle(bufs) == all;
  }

  /** write_log reads log block i + 1 of the log. That panics if and only if the block is not
      cached and the header's blocks, with the buffers in use for other blocks, number NBUF;
      so in a cache that holds nothing else, exactly when the header is full. */
  lemma WriteLogPanics(start: nat, s: State, bufs: seq<Bio.Buf>, dev: nat)
    requires Inv(start, s) && s.pc.WriteLog? && AllPinned(bufs, dev, s.lh) && Bio.Unique(bufs) && dev != 0
    ensures var n := start + s.pc.i + 1;
            && (NoBuffer(bufs, dev, n) <==>
                  !Cached(bufs, dev, n) && |s.lh| + |Busy(bufs, dev, s.lh)| == Bio.NBUF)
            && (|s.lh| == Bio.NBUF ==> NoBuffer(bufs, dev, n))
            && (Busy(bufs, dev, s.lh) == {} && !Cached(bufs, dev, n) ==>
                  (NoBuffer(bufs, dev, n) <==> |s.lh| == LOGBLOCKS))
  {
    var n := start + s.pc.i + 1;
    PinnedCount(bufs, dev, s.lh);
    UsesAddUp(bufs, dev, s.lh);
    FullHeaderTakesAll(bufs, dev, s.lh, n);
    assert forall k :: 0 <= k < |s.lh| ==> IsHome(start, s.lh[k]);
    assert Idle(bufs) == {} <==> forall i :: 0 <= i < Bio.NBUF ==> bufs[i].refcnt > 0 by {
      forall i | 0 <= i < Bio.NBUF && bufs[i].refcnt == 0
        ensures i in Idle(bufs)
      {
      }
    }
  }

  // Such a commit is reachable.

  ghost predicate Reaches(start: nat, s: State, t: State) {
    Inv(start, s) && exists steps :: IsRun(start, s, steps) && Run(start, s, steps) == t
  }

  lemma ReachNow(start: nat, s: State)
    requires Inv(start, s)
    ensures Reaches(start, s, s)
  {
    assert IsRun(start, s, []) && Run(start, s, []) == s;
  }

  lemma ReachFirst(start: nat, s: State, step: Step, t: State)
    requires Inv(start, s) && Enabled(start, s, step) && Reaches(start, Next(start, s, step), t)
    ensures Reaches(start, s, t)
  {
    var steps :| IsRun(start, Next(start, s, step), steps) && Run(start, Next(start, s, step), steps) == t;
    var all := [step] + steps;
    assert all[1..] == steps;
    assert IsRun(start, s, all) && Run(start, s, all) == t;
  }

  lemma EndOne(start: nat, s: State, p: nat)
    requires Inv(start, s) && s.pc.Running? && s.outstanding > 0 && s.lh != [] && p < |s.slots| && s.slots[p].Active?
    requires forall q :: 0 <= q < |s.slots| ==> !s.slots[q].Asleep?
    ensures var u := DoEnd(s, p);
            && Inv(start, u) && u.lh == s.lh && u.outstanding == s.outstanding - 1 && u.slots == s.slots[p := Outside]
            && u.pc == if u.outstanding == 0 then WriteLog(0) else Running
  {
    EndKeeps(start, s, p);
    var slots := s.slots[p := Outside];
    assert WakeAll(slots) == slots;
  }

  lemma EndThree(start: nat, s: State) returns (u: State)
    requires Inv(start, s) && s.pc.Running? && s.outstanding == 3 && s.lh != []
             && s.slots == [Active(10), Active(10), Active(10)]
    ensures Reaches(start, s, u) && Inv(start, u) && u.lh == s.lh && u.pc == WriteLog(0)
  {
    EndOne(start, s, 0);
    var t := DoEnd(s, 0);
    EndOne(start, t, 1);
    var v := DoEnd(t, 1);
    EndOne(start, v, 2);
    u := DoEnd(v, 2);
    ReachNow(start, u);
    ReachFirst(start, v, End(2), u);
    ReachFirst(start, t, End(1), u);
    ReachFirst(start, s, End(0), u);
  }

  /** Ten log_writes done by each process before p, m by process p, none by the others. */
  function Slots(p: nat, m: nat): seq<Slot> {
    if p == 0 then [Active(m), Active(0), Active(0)]
    else if p == 1 then [Active(10), Active(m), Active(0)]
    else [Active(10), Active(10), Active(m)]
  }

  lemma SlotsNext(p: nat, m: nat)
    requires p < 3
    ensures |Slots(p, m)| == 3 && Slots(p, m)[p] == Active(m) && Slots(p, m)[p := Active(m + 1)] == Slots(p, m + 1)
  {
  }

  /** n blocks, all below b, are in the header. */
  ghost predicate Filling(start: nat, s: State, b: nat, n: nat) {
    && Inv(start, s) && s.pc.Running? && s.outstanding == 3
    && start + LOGBLOCKS < b && b + 30 <= |s.disk| + n && b + 30 < UINT_LIMIT + n
    && |s.lh| == n && forall j :: 0 <= j < |s.lh| ==> s.lh[j] < b
  }

  lemma LogOne(start: nat, s: State, b: Uint, n: nat, p: nat)
    requires Filling(start, s, b, n) && n < 30 && p < |s.slots| && s.slots[p].Active? && s.slots[p].appended < 10
    ensures Enabled(start, s, LogWrite(p, b, ZeroBlock()))
    ensures Filling(start, DoLogWrite(s, p, b, ZeroBlock()), b + 1, n + 1)
    ensures DoLogWrite(s, p, b, ZeroBlock()).slots == s.slots[p := Active(s.slots[p].appended + 1)]
  {
    assert b !in s.lh;
    LogWriteKeeps(start, s, p, b, ZeroBlock());
  }

  lemma LogNext(start: nat, s: State, b: Uint, n: nat, p: nat, m: nat) returns (s': State)
    requires Filling(start, s, b, n) && p < 3 && m < 10 && n == 10 * p + m && s.slots == Slots(p, m)
    ensures Enabled(start, s, LogWrite(p, b, ZeroBlock())) && s' == Next(start, s, LogWrite(p, b, ZeroBlock()))
    ensures Filling(start, s', b + 1, n + 1) && s'.slots == Slots(p, m + 1)
  {
    SlotsNext(p, m);
    LogOne(start, s, b, n, p);
    s' := DoLogWrite(s, p, b, ZeroBlock());
    calc {
      s'.slots;
      s.slots[p := Active(m + 1)];
      Slots(p, m + 1);
    }
  }

  lemma {:induction false} Fill(start: nat, s: State, b: nat, n: nat, p: nat, m: nat) returns (u: State)
    requires Filling(start, s, b, n) && p < 3 && m <= 10 && n == 10 * p + m && s.slots == Slots(p, m)
    ensures Reaches(start, s, u) && Inv(start, u) && |u.lh| == 30 && u.pc == WriteLog(0)
    decreases 3 - p, 10 - m, 0
  {
    if m < 10 {
      var s' := LogNext(start, s, b, n, p, m);
      u := FillAfter(start, s, LogWrite(p, b, ZeroBlock()), s', b + 1, n + 1, p, m + 1);
    } else if p < 2 {
      u := Fill(start, s, b, n, p + 1, 0);
    } else {
      u := EndThree(start, s);
    }
  }

  lemma {:induction false} FillAfter(start: nat, s: State, step: Step, s': State, b: nat, n: nat, p: nat, m: nat)
    returns (u: State)
    requires Inv(start, s) && Enabled(start, s, step) && s' == Next(start, s, step)
    requires Filling(start, s', b, n) && p < 3 && m <= 10 && n == 10 * p + m && s'.slots == Slots(p, m)
    ensures Reaches(start, s, u) && Inv(start, u) && |u.lh| == 30 && u.pc == WriteLog(0)
    decreases 3 - p, 10 - m, 1
  {
    u := Fill(start, s', b, n, p, m);
    ReachFirst(start, s, step, u);
  }

  lemma BeginOne(start: nat, s: State, p: nat)
    requires Inv(start, s) && s.pc.Running? && s.lh == [] && s.outstanding < 3 && p < |s.slots| && s.slots[p].Outside?
    ensures var u := DoBegin(s, p);
            && Inv(start, u) && u.pc.Running? && u.lh == [] && u.outstanding == s.outstanding + 1 && u.disk == s.disk
            && u.slots == s.slots[p := Active(0)]
  {
    BeginKeeps(start, s, p);
  }

  lemma BeginThree(start: nat, s: State, b: nat) returns (u: State)
    requires Inv(start, s) && s.pc.Running? && s.lh == [] && s.outstanding == 0
             && s.slots == [Outside, Outside, Outside]
    requires start + LOGBLOCKS < b && b + 30 <= |s.disk| && b + 30 < UINT_LIMIT
    ensures Reaches(start, s, u) && Inv(start, u) && |u.lh| == 30 && u.pc == WriteLog(0)
  {
    BeginOne(start, s, 0);
    var t := DoBegin(s, 0);
    BeginOne(start, t, 1);
    var v := DoBegin(t, 1);
    BeginOne(start, v, 2);
    var w := DoBegin(v, 2);
    u := Fill(start, w, b, 0, 0, 0);
    ReachFirst(start, v, Begin(2), u);
    ReachFirst(start, t, Begin(1), u);
    ReachFirst(start, s, Begin(0), u);
  }

  /** Three operations of ten blocks each make a commit of NBUF blocks: it begins, and its
      first bread panics. */
  lemma FullCommitReachable(start: nat, disk: Disk) returns (u: State)
    requires LogEmpty(disk, start) && start + LOGBLOCKS + 1 + Bio.NBUF <= |disk|
             && start + LOGBLOCKS + 1 + Bio.NBUF < UINT_LIMIT
    ensures Reaches(start, Init(disk, 3), u) && Inv(start, u) && u.pc == WriteLog(0) && |u.lh| == Bio.NBUF
    ensures forall bufs, dev :: AllPinned(bufs, dev, u.lh) ==> NoBuffer(bufs, dev, start + 1)
  {
    RunsAreAtomic(start, disk, 3, []);
    var s := Init(disk, 3);
    assert s.slots == [Outside, Outside, Outside];
    u := BeginThree(start, s, start + LOGBLOCKS + 1);
    forall bufs, dev | AllPinned(bufs, dev, u.lh)
      ensures NoBuffer(bufs, dev, start + 1)
    {
      FullHeaderTakesAll(bufs, dev, u.lh, start + 1);
      assert forall k :: 0 <= k < |u.lh| ==> IsHome(start, u.lh[k]);
    }
  }
}
