/** The two sides of the log's capacity rule together: a transaction that touches few
    enough distinct blocks, as filewrite's do, never asks more of the group commit than
    begin_op reserved for it, whatever the other processes do. */
module Transactions {
  import opened Blocks
  import opened Wal
  import opened GroupCommit
  import FileSpec

  /** A step that the code can take, with no promise about log space. */
  predicate Possible(start: nat, s: State, step: Step) {
    match step
    case LogWrite(p, b, _) => p < |s.slots| && s.slots[p].Active? && b < |s.disk| && IsHome(start, b)
    case _ => Enabled(start, s, step)
  }

  /** The blocks that each process has passed to log_write since its begin_op. */
  type Logs = seq<seq<nat>>

  function NextLogs(logs: Logs, step: Step): Logs {
    match step
    case Begin(p) => if p < |logs| then logs[p := []] else logs
    case LogWrite(p, b, _) => if p < |logs| then logs[p := logs[p] + [b]] else logs
    case _ => logs
  }

  /** Every log_write of the run leaves its transaction with the log of a fitting one. */
  ghost predicate Fitting(start: nat, s: State, logs: Logs, steps: seq<Step>)
    requires Inv(start, s) && |logs| == |s.slots|
    decreases steps
  {
    if steps == [] then true
    else
      && Possible(start, s, steps[0])
      && (steps[0].LogWrite? ==> FileSpec.Fits(NextLogs(logs, steps[0])[steps[0].p]))
      && (Enabled(start, s, steps[0]) ==>
            (StepRefines(start, s, steps[0]);
             SameProcesses(start, s, steps[0]);
             Fitting(start, Next(start, s, steps[0]), NextLogs(logs, steps[0]), steps[1..])))
  }

  lemma SameProcesses(start: nat, s: State, step: Step)
    requires Inv(start, s) && Enabled(start, s, step)
    ensures |Next(start, s, step).slots| == |s.slots|
  {
  }

  /** What an active transaction has logged is in the header, so absorption keeps its
      share of the header within its distinct blocks. */
  ghost predicate Share(s: State, log: seq<nat>, p: nat)
    requires p < |s.slots|
  {
    s.slots[p].Active? ==> (forall b :: b in log ==> b in s.lh) && s.slots[p].appended <= |FileSpec.Distinct(log)|
  }

  ghost predicate Shares(s: State, logs: Logs) {
    |logs| == |s.slots| && forall p :: 0 <= p < |logs| ==> Share(s, logs[p], p)
  }

  lemma ShareGrows(s: State, log: seq<nat>, p: nat, b: Uint, data: Block)
    requires p < |s.slots| && s.slots[p].Active? && b < |s.mem| && Share(s, log, p)
    ensures Share(DoLogWrite(s, p, b, data), log + [b], p)
  {
    var all := FileSpec.Distinct(log + [b]);
    assert all == FileSpec.Distinct(log) + {b as nat};
    if b !in s.lh {
      assert b !in FileSpec.Distinct(log);
    } else {
      FileSpec.SubsetSize(FileSpec.Distinct(log), all);
    }
  }

  /** The header only loses entries when no transaction is active. */
  lemma ShareStays(start: nat, s: State, step: Step, log: seq<nat>, p: nat)
    requires Inv(start, s) && Enabled(start, s, step) && p < |s.slots| && Share(s, log, p)
    requires !(step.Begin? && step.p == p) && !(step.LogWrite? && step.p == p)
    ensures |Next(start, s, step).slots| == |s.slots| && Share(Next(start, s, step), log, p)
  {
    SameProcesses(start, s, step);
    if s.slots[p].Active? {
      OnlyRunningIsActive(start, s, p);
    }
    if step.LogWrite? {
      ShareAfterLogWrite(s, step.p, step.b, step.data, log, p);
    } else if step.End? {
      ShareAfterEnd(s, step.p, log, p);
    } else if step.CommitStep? || step.RecoverStep? {
      ShareAfterCommit(start, s, step, log, p);
    }
  }

  lemma ShareAfterLogWrite(s: State, q: nat, b: Uint, data: Block, log: seq<nat>, p: nat)
    requires p < |s.slots| && q < |s.slots| && q != p && s.slots[q].Active? && b < |s.mem| && Share(s, log, p)
    ensures Share(DoLogWrite(s, q, b, data), log, p)
  {
  }

  lemma ShareAfterEnd(s: State, q: nat, log: seq<nat>, p: nat)
    requires p < |s.slots| && q < |s.slots| && Share(s, log, p)
    ensures Share(DoEnd(s, q), log, p)
  {
  }

  lemma ShareAfterCommit(start: nat, s: State, step: Step, log: seq<nat>, p: nat)
    requires Inv(start, s) && Enabled(start, s, step) && (step.CommitStep? || step.RecoverStep?)
    requires p < |s.slots| && !s.slots[p].Active? && |Next(start, s, step).slots| == |s.slots|
    ensures Share(Next(start, s, step), log, p)
  {
  }

  lemma SharesKeep(start: nat, s: State, step: Step, logs: Logs)
    requires Inv(start, s) && Enabled(start, s, step) && Shares(s, logs)
    ensures Shares(Next(start, s, step), NextLogs(logs, step))
  {
    SameProcesses(start, s, step);
    forall p | 0 <= p < |logs|
      ensures Share(Next(start, s, step), NextLogs(logs, step)[p], p)
    {
      assert Share(s, logs[p], p);
      if step.LogWrite? && step.p == p {
        ShareGrows(s, logs[p], p, step.b, step.data);
      } else if !(step.Begin? && step.p == p) {
        ShareStays(start, s, step, logs[p], p);
      }
    }
  }

  lemma FitsLeavesRoom(s: State, log: seq<nat>, p: nat, b: nat)
    requires p < |s.slots| && s.slots[p].Active? && Share(s, log, p) && FileSpec.Fits(log + [b])
    ensures s.slots[p].appended < MAXOPBLOCKS
  {
    assert (log + [b])[..|log|] == log;
    assert |FileSpec.Distinct((log + [b])[..|log|])| < MAXOPBLOCKS;
  }

  /** Any interleaving of fitting transactions, with any crashes and recoveries, is a run of
      the group commit: no log_write of it finds its reservation used up. */
  lemma {:induction false} FittingRuns(start: nat, s: State, logs: Logs, steps: seq<Step>)
    requires Inv(start, s) && Shares(s, logs) && Fitting(start, s, logs, steps)
    ensures IsRun(start, s, steps)
    decreases steps
  {
    if steps != [] {
      var step := steps[0];
      if step.LogWrite? {
        assert Share(s, logs[step.p], step.p);
        FitsLeavesRoom(s, logs[step.p], step.p, step.b);
      }
      StepRefines(start, s, step);
      SharesKeep(start, s, step, logs);
      FittingRuns(start, Next(start, s, step), NextLogs(logs, step), steps[1..]);
    }
  }

  /** From boot, fitting transactions never panic and are atomic across crashes. */
  lemma FittingRunsAreAtomic(start: nat, disk: Disk, nproc: nat, steps: seq<Step>)
    requires LogEmpty(disk, start)
    ensures Inv(start, Init(disk, nproc))
    ensures |Init(disk, nproc).slots| == nproc
    ensures Fitting(start, Init(disk, nproc), seq(nproc, _ => []), steps) ==>
              && IsRun(start, Init(disk, nproc), steps) && NeverPanics(start, Init(disk, nproc), steps)
              && AbsEq(start, AbsOf(start, Run(start, Init(disk, nproc), steps)),
                       AbsRun(start, Init(disk, nproc), steps, Abs(disk, disk)))
  {
    RunsAreAtomic(start, disk, nproc, []);
    var s, logs := Init(disk, nproc), seq(nproc, _ => []);
    if Fitting(start, s, logs, steps) {
      FittingRuns(start, s, logs, steps);
      RunNeverPanics(start, s, steps);
      RunsAreAtomic(start, disk, nproc, steps);
    }
  }

  /** Every transaction of the run does log_write in the order of one of txns, as far as it
      gets. */
  ghost predicate Made(start: nat, s: State, logs: Logs, steps: seq<Step>, txns: seq<seq<nat>>)
    requires Inv(start, s) && |logs| == |s.slots|
    decreases steps
  {
    if steps == [] then true
    else
      && Possible(start, s, steps[0])
      && (steps[0].LogWrite? ==> PartOf(NextLogs(logs, steps[0])[steps[0].p], txns))
      && (Enabled(start, s, steps[0]) ==>
            (StepRefines(start, s, steps[0]);
             SameProcesses(start, s, steps[0]);
             Made(start, Next(start, s, steps[0]), NextLogs(logs, steps[0]), steps[1..], txns)))
  }

  ghost predicate PartOf(log: seq<nat>, txns: seq<seq<nat>>) {
    exists t :: 0 <= t < |txns| && log <= txns[t]
  }

  lemma PartFits(log: seq<nat>, txns: seq<seq<nat>>)
    requires PartOf(log, txns) && forall t :: FileSpec.FitsAt(txns, t)
    ensures FileSpec.Fits(log)
  {
    var t :| 0 <= t < |txns| && log <= txns[t];
    assert FileSpec.FitsAt(txns, t);
    PrefixFits(txns[t], |log|);
    assert txns[t][..|log|] == log;
  }

  lemma {:induction false} MadeIsFitting(start: nat, s: State, logs: Logs, steps: seq<Step>, txns: seq<seq<nat>>)
    requires Inv(start, s) && |logs| == |s.slots| && Made(start, s, logs, steps, txns)
    requires forall t :: FileSpec.FitsAt(txns, t)
    ensures Fitting(start, s, logs, steps)
    decreases steps
  {
    if steps != [] {
      var step := steps[0];
      if step.LogWrite? {
        PartFits(NextLogs(logs, step)[step.p], txns);
      }
      if Enabled(start, s, step) {
        StepRefines(start, s, step);
        SameProcesses(start, s, step);
        MadeIsFitting(start, Next(start, s, step), NextLogs(logs, step), steps[1..], txns);
      }
    }
  }

  /** From boot, transactions that log what filewrite's do, in any interleaving and with any
      crashes, never panic and are atomic. log0 and log are filewrite's log before and after. */
  lemma FilewritesAreAtomic(start: nat, disk: Disk, nproc: nat, steps: seq<Step>, log0: seq<nat>, log: seq<nat>,
                            txns: seq<seq<nat>>)
    requires LogEmpty(disk, start) && FileSpec.AllFit(log0, log, txns)
    ensures Inv(start, Init(disk, nproc)) && |Init(disk, nproc).slots| == nproc
    ensures Made(start, Init(disk, nproc), seq(nproc, _ => []), steps, txns) ==>
              && IsRun(start, Init(disk, nproc), steps) && NeverPanics(start, Init(disk, nproc), steps)
              && AbsEq(start, AbsOf(start, Run(start, Init(disk, nproc), steps)),
                       AbsRun(start, Init(disk, nproc), steps, Abs(disk, disk)))
  {
    FittingRunsAreAtomic(start, disk, nproc, steps);
    if Made(start, Init(disk, nproc), seq(nproc, _ => []), steps, txns) {
      MadeIsFitting(start, Init(disk, nproc), seq(nproc, _ => []), steps, txns);
    }
  }

  /** A fitting log was fitting all along: filewrite need only be asked at the end. */
  lemma PrefixFits(log: seq<nat>, k: nat)
    requires FileSpec.Fits(log) && k <= |log|
    ensures FileSpec.Fits(log[..k])
  {
    FileSpec.SubsetSize(FileSpec.Distinct(log[..k]), FileSpec.Distinct(log));
    forall j | 0 <= j < k
      ensures |FileSpec.Distinct(log[..k][..j])| < MAXOPBLOCKS
    {
      assert log[..k][..j] == log[..j];
    }
  }
}
