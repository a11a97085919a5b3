/** The commit of the concurrent machine, one disk write at a time, is the write sequence
    that log.c's commit issues on one thread. */
module CommitSteps {
  import opened Blocks
  import opened Wal
  import opened GroupCommit

  /** Between two disk writes of a commit. */
  predicate InCommit(pc: Pc) {
    pc.WriteLog? || pc.WriteHead? || pc.Install? || pc.ClearHead?
  }

  /** How many of its disk writes the commit has made. */
  function Done(s: State): nat
    requires InCommit(s.pc)
  {
    match s.pc
    case WriteLog(i) => i
    case WriteHead => |s.lh|
    case Install(i) => |s.lh| + 1 + i
    case ClearHead => 2 * |s.lh| + 1
  }

  /** The disk write that the next commit step makes. */
  function Issued(start: nat, s: State): Write
    requires Shape(start, s) && InCommit(s.pc)
  {
    match s.pc
    case WriteLog(i) => Write(start + i + 1, s.mem[s.lh[i]])
    case WriteHead => Write(start, WithHeader(s.disk[start], s.lh))
    case Install(i) => Write(s.lh[i], s.disk[start + i + 1])
    case ClearHead => Write(start, WithHeader(s.disk[start], []))
  }

  lemma StepWrites(start: nat, s: State)
    requires Shape(start, s) && InCommit(s.pc)
    ensures DoCommit(start, s).disk == DoWrite(s.disk, Issued(start, s))
  {
  }

  /** The header block before the commit point and after it. */
  function HeadNow(head: Block, blocks: seq<Uint>, pc: Pc): Block
    requires |blocks| <= LOGBLOCKS
  {
    if pc.WriteLog? || pc.WriteHead? then head else WithHeader(head, blocks)
  }

  /** The commit of `blocks`, begun when the header block was `head`, has got to s. */
  ghost predicate Follows(start: nat, head: Block, blocks: seq<Uint>, contents: seq<Block>, s: State) {
    && Inv(start, s) && InCommit(s.pc) && s.lh == blocks && MemContents(s) == contents
    && s.disk[start] == HeadNow(head, blocks, s.pc)
  }

  /** The k-th write of a commit. */
  function Nth(start: nat, head: Block, blocks: seq<Uint>, contents: seq<Block>, k: nat): Write
    requires |blocks| == |contents| <= LOGBLOCKS && k <= 2 * |blocks| + 1
  {
    var n := |blocks|;
    if k < n then Write(start + k + 1, contents[k])
    else if k == n then Write(start, WithHeader(head, blocks))
    else if k < 2 * n + 1 then Write(blocks[k - n - 1], contents[k - n - 1])
    else Write(start, WithHeader(WithHeader(head, blocks), []))
  }

  lemma CommitWritesAt(d: Disk, start: nat, blocks: seq<Uint>, contents: seq<Block>, k: nat)
    requires start < |d| && 0 < |blocks| == |contents| <= LOGBLOCKS && k <= 2 * |blocks| + 1
    ensures |CommitWrites(d, start, blocks, contents)| == 2 * |blocks| + 2
    ensures CommitWrites(d, start, blocks, contents)[k] == Nth(start, d[start], blocks, contents, k)
  {
  }

  /** What the log holds of block i when block i is to be installed. */
  lemma LoggedAt(start: nat, s: State)
    requires Shape(start, s) && s.pc.Install? && IsLogged(s.disk, start, s.lh, MemContents(s))
    ensures s.disk[start + s.pc.i + 1] == MemContents(s)[s.pc.i]
  {
    assert s.disk[start + s.pc.i + 1] == s.disk[start + 1..start + 1 + |s.lh|][s.pc.i];
  }

  /** The step from s makes exactly the next write of the sequence. */
  lemma IssuesNext(start: nat, head: Block, blocks: seq<Uint>, contents: seq<Block>, s: State)
    requires Follows(start, head, blocks, contents, s)
    ensures |contents| == |blocks| <= LOGBLOCKS && blocks != [] && Done(s) <= 2 * |blocks| + 1
    ensures Issued(start, s) == Nth(start, head, blocks, contents, Done(s))
  {
    if s.pc.Install? {
      LoggedAt(start, s);
    }
    IssuedIs(start, head, blocks, contents, s);
  }

  lemma IssuedIs(start: nat, head: Block, blocks: seq<Uint>, contents: seq<Block>, s: State)
    requires Shape(start, s) && InCommit(s.pc) && s.lh == blocks && MemContents(s) == contents
    requires s.disk[start] == HeadNow(head, blocks, s.pc)
    requires s.pc.Install? ==> s.disk[start + s.pc.i + 1] == contents[s.pc.i]
    ensures Done(s) <= 2 * |blocks| + 1 && Issued(start, s) == Nth(start, head, blocks, contents, Done(s))
  {
  }

  /** Installing writes into the cache what it already holds. */
  lemma SameMemory(start: nat, s: State)
    requires DiskInv(start, s) && InCommit(s.pc)
    ensures DoCommit(start, s).mem == s.mem
  {
    if s.pc.Install? {
      LoggedAt(start, s);
      assert MemContents(s)[s.pc.i] == s.mem[s.lh[s.pc.i]];
    }
  }

  lemma HeadAfter(start: nat, head: Block, blocks: seq<Uint>, s: State)
    requires Shape(start, s) && InCommit(s.pc) && !s.pc.ClearHead? && s.lh == blocks
             && s.disk[start] == HeadNow(head, blocks, s.pc)
    ensures var s' := DoCommit(start, s);
            InCommit(s'.pc) && s'.lh == blocks && Done(s') == Done(s) + 1
                && s'.disk[start] == HeadNow(head, blocks, s'.pc)
  {
    if s.pc.Install? {
      assert IsHome(start, s.lh[s.pc.i]);
    }
  }

  /** After the k-th write: on to the next one, or to the wakeup. */
  ghost predicate GoesOn(start: nat, head: Block, blocks: seq<Uint>, contents: seq<Block>, k: nat, s: State) {
    if s.pc.Wake? then k == 2 * |blocks| + 1
    else Follows(start, head, blocks, contents, s) && Done(s) == k + 1
  }

  /** One commit step goes on with the commit, until the last one. */
  lemma StepFollows(start: nat, head: Block, blocks: seq<Uint>, contents: seq<Block>, s: State)
    requires Follows(start, head, blocks, contents, s)
    ensures GoesOn(start, head, blocks, contents, Done(s), DoCommit(start, s))
  {
    StepRefines(start, s, CommitStep);
    if !s.pc.ClearHead? {
      SameMemory(start, s);
      HeadAfter(start, head, blocks, s);
      assert MemContents(DoCommit(start, s)) == contents;
    }
  }

  /** end_op of the last operation begins a commit of what is in the header. */
  lemma EndBegins(start: nat, s: State, p: nat)
    requires Inv(start, s) && Enabled(start, s, End(p)) && s.outstanding == 1 && s.lh != []
    ensures Follows(start, s.disk[start], s.lh, MemContents(s), DoEnd(s, p)) && Done(DoEnd(s, p)) == 0
  {
    NoPanic(start, s, End(p));
    SumBounds(s.slots);
    EndKeeps(start, s, p);
    assert MemContents(DoEnd(s, p)) == MemContents(s);
  }

  /** While a commit runs, nobody is inside an operation. */
  lemma OnlyBegin(start: nat, s: State, step: Step)
    requires Inv(start, s) && Committing(s.pc) && Enabled(start, s, step) && !step.CommitStep? && !step.Crash?
    ensures step.Begin?
  {
    SumBounds(s.slots);
  }

  /** The other processes can only go to sleep in begin_op. */
  lemma OthersWait(start: nat, head: Block, blocks: seq<Uint>, contents: seq<Block>, s: State, step: Step)
    requires Follows(start, head, blocks, contents, s) && Enabled(start, s, step) && !step.CommitStep? && !step.Crash?
    ensures step.Begin? && Next(start, s, step) == s.(slots := s.slots[step.p := Asleep])
    ensures Follows(start, head, blocks, contents, Next(start, s, step)) && Done(Next(start, s, step)) == Done(s)
  {
    OnlyBegin(start, s, step);
    BeginKeeps(start, s, step.p);
    assert MemContents(DoBegin(s, step.p)) == MemContents(s);
  }

  function Count(steps: seq<Step>): nat {
    if steps == [] then 0 else (if steps[0].CommitStep? then 1 else 0) + Count(steps[1..])
  }

  /** The disk writes of the commit steps of a run. */
  ghost function Trace(start: nat, s: State, steps: seq<Step>): seq<Write>
    requires Inv(start, s) && IsRun(start, s, steps)
    decreases steps
  {
    if steps == [] then []
    else
      StepRefines(start, s, steps[0]);
      (if steps[0].CommitStep? && InCommit(s.pc) then [Issued(start, s)] else [])
      + Trace(start, Next(start, s, steps[0]), steps[1..])
  }

  /** ws are the writes of a commit from the k-th on. */
  ghost predicate Part(start: nat, head: Block, blocks: seq<Uint>, contents: seq<Block>, k: nat, ws: seq<Write>) {
    && |blocks| == |contents| <= LOGBLOCKS && k + |ws| <= 2 * |blocks| + 2
    && forall j :: 0 <= j < |ws| ==> ws[j] == Nth(start, head, blocks, contents, k + j)
  }

  lemma PartMore(start: nat, head: Block, blocks: seq<Uint>, contents: seq<Block>, k: nat, w: Write, ws: seq<Write>)
    requires Part(start, head, blocks, contents, k + 1, ws) && k + 1 + |ws| <= 2 * |blocks| + 2
    requires w == Nth(start, head, blocks, contents, k)
    ensures Part(start, head, blocks, contents, k, [w] + ws)
  {
    var vs := [w] + ws;
    forall j | 0 <= j < |vs|
      ensures vs[j] == Nth(start, head, blocks, contents, k + j)
    {
      if j > 0 {
        assert vs[j] == ws[j - 1] == Nth(start, head, blocks, contents, k + 1 + (j - 1));
      }
    }
  }

  lemma PartIs(d: Disk, start: nat, blocks: seq<Uint>, contents: seq<Block>, ws: seq<Write>)
    requires start < |d| && blocks != [] && Part(start, d[start], blocks, contents, 0, ws)
    ensures |CommitWrites(d, start, blocks, contents)| == 2 * |blocks| + 2
    ensures ws == CommitWrites(d, start, blocks, contents)[..|ws|]
  {
    CommitWritesAt(d, start, blocks, contents, 0);
    forall j | 0 <= j < |ws|
      ensures ws[j] == CommitWrites(d, start, blocks, contents)[j]
    {
      CommitWritesAt(d, start, blocks, contents, j);
      assert ws[j] == Nth(start, d[start], blocks, contents, 0 + j);
    }
  }

  /** After the last write, until the wakeup, nothing is written. */
  lemma {:induction false} QuietAtWake(start: nat, s: State, steps: seq<Step>)
    requires Inv(start, s) && s.pc.Wake? && IsRun(start, s, steps) && Count(steps) == 0 && Crash !in steps
    ensures Trace(start, s, steps) == []
    decreases steps
  {
    if steps != [] {
      StepRefines(start, s, steps[0]);
      OnlyBegin(start, s, steps[0]);
      QuietAtWake(start, Next(start, s, steps[0]), steps[1..]);
    }
  }

  lemma TraceOther(start: nat, s: State, steps: seq<Step>)
    requires Inv(start, s) && IsRun(start, s, steps) && steps != [] && !steps[0].CommitStep?
    ensures Inv(start, Next(start, s, steps[0])) && IsRun(start, Next(start, s, steps[0]), steps[1..])
    ensures Trace(start, s, steps) == Trace(start, Next(start, s, steps[0]), steps[1..])
            && Count(steps) == Count(steps[1..])
  {
    StepRefines(start, s, steps[0]);
  }

  lemma TraceCommit(start: nat, s: State, steps: seq<Step>)
    requires Inv(start, s) && IsRun(start, s, steps) && steps != [] && steps[0].CommitStep? && InCommit(s.pc)
    ensures Inv(start, DoCommit(start, s)) && IsRun(start, DoCommit(start, s), steps[1..])
    ensures Trace(start, s, steps) == [Issued(start, s)] + Trace(start, DoCommit(start, s), steps[1..])
    ensures Count(steps) == 1 + Count(steps[1..])
  {
    StepRefines(start, s, steps[0]);
  }

  lemma {:induction false} TraceFollows(start: nat, head: Block, blocks: seq<Uint>, contents: seq<Block>, s: State,
                                        steps: seq<Step>,
                                        k: nat, c: nat)
    returns (ws: seq<Write>)
    requires Follows(start, head, blocks, contents, s) && IsRun(start, s, steps) && Crash !in steps
    requires k == Done(s) && c == Count(steps) && k + c <= 2 * |blocks| + 2
    ensures Trace(start, s, steps) == ws && |ws| == c && Part(start, head, blocks, contents, k, ws)
    decreases steps, 0
  {
    if steps == [] {
      ws := [];
    } else if !steps[0].CommitStep? {
      TraceOther(start, s, steps);
      OthersWait(start, head, blocks, contents, s, steps[0]);
      ws := TraceFollows(start, head, blocks, contents, Next(start, s, steps[0]), steps[1..], k, c);
    } else {
      TraceCommit(start, s, steps);
      IssuesNext(start, head, blocks, contents, s);
      StepFollows(start, head, blocks, contents, s);
      ws := CommitFollows(start, head, blocks, contents, DoCommit(start, s), steps[1..], k, c - 1);
      ws := CommitJoins(start, head, blocks, contents, s, k, ws);
    }
  }

  lemma CommitJoins(start: nat, head: Block, blocks: seq<Uint>, contents: seq<Block>, s: State, k: nat, ws: seq<Write>)
    returns (vs: seq<Write>)
    requires Follows(start, head, blocks, contents, s) && k == Done(s) && k + 1 + |ws| <= 2 * |blocks| + 2
    requires Part(start, head, blocks, contents, k + 1, ws)
    ensures vs == [Issued(start, s)] + ws && Part(start, head, blocks, contents, k, vs)
  {
    IssuesNext(start, head, blocks, contents, s);
    PartMore(start, head, blocks, contents, k, Issued(start, s), ws);
    vs := [Issued(start, s)] + ws;
  }

  lemma {:induction false} CommitFollows(start: nat, head: Block, blocks: seq<Uint>, contents: seq<Block>, s: State,
                                         steps: seq<Step>,
                                         k: nat, c: nat)
    returns (ws: seq<Write>)
    requires |blocks| == |contents| <= LOGBLOCKS && GoesOn(start, head, blocks, contents, k, s)
    requires Inv(start, s) && IsRun(start, s, steps) && Crash !in steps && c == Count(steps)
             && k + 1 + c <= 2 * |blocks| + 2
    ensures Trace(start, s, steps) == ws && |ws| == c && Part(start, head, blocks, contents, k + 1, ws)
    decreases steps, 1
  {
    if s.pc.Wake? {
      QuietAtWake(start, s, steps);
      ws := [];
    } else {
      ws := TraceFollows(start, head, blocks, contents, s, steps, k + 1, c);
    }
  }

  /** When the last operation ends, the commit steps of any run that follows write exactly
      the sequence of commit() for the header and the cache of that moment, in its order,
      whatever the other processes do. */
  lemma CommitTrace(start: nat, s: State, p: nat, steps: seq<Step>)
    requires Inv(start, s) && Enabled(start, s, End(p)) && s.outstanding == 1 && s.lh != []
    requires Inv(start, DoEnd(s, p)) && IsRun(start, DoEnd(s, p), steps) && Crash !in steps
    requires Count(steps) <= 2 * |s.lh| + 2
    ensures var ws := CommitWrites(s.disk, start, s.lh, MemContents(s));
            |ws| == 2 * |s.lh| + 2 && Trace(start, DoEnd(s, p), steps) == ws[..Count(steps)]
  {
    EndBegins(start, s, p);
    var ws := TraceFollows(start, s.disk[start], s.lh, MemContents(s), DoEnd(s, p), steps, 0, Count(steps));
    PartIs(s.disk, start, s.lh, MemContents(s), ws);
  }
}
