/** The write-ahead log on disk: its layout, the block writes that commit and
    recovery issue, and what a crash between any two of them can leave behind. */
module Wal {
  import opened Blocks

  const MAXOPBLOCKS: nat := 10
  const LOGBLOCKS: nat := 30 // MAXOPBLOCKS * 3

  type Disk = seq<Block>

  /** One bwrite. The device makes a single block write atomic. */
  datatype Write = Write(blockno: nat, data: Block)

  function DoWrite(d: Disk, w: Write): (r: Disk)
    ensures |r| == |d|
  {
    if w.blockno < |d| then d[w.blockno := w.data] else d
  }

  function Apply(d: Disk, ws: seq<Write>): (r: Disk)
    ensures |r| == |d|
    decreases ws
  {
    if ws == [] then d else Apply(DoWrite(d, ws[0]), ws[1..])
  }

  /** The disk and every write it has taken, in order: a crash keeps a prefix. */
  datatype Device = Device(disk: Disk, trace: seq<Write>)

  function Issue(p: Device, ws: seq<Write>): Device {
    Device(Apply(p.disk, ws), p.trace + ws)
  }

  // The log header: word 0 is n, words 1..n are the home block numbers.

  predicate HeaderOk(b: Block) {
    Word(b, 0) <= LOGBLOCKS
  }

  function Header(b: Block): (blocks: seq<Uint>)
    requires HeaderOk(b)
  {
    seq(Word(b, 0), i requires 0 <= i < Word(b, 0) => Word(b, i + 1))
  }

  /** The header block after write_head: words past n keep their old values. */
  function WithHeader(b: Block, blocks: seq<Uint>): Block
    requires |blocks| <= LOGBLOCKS
  {
    PutWords(SetWord(b, 0, |blocks|), 1, blocks)
  }

  /** What write_head wrote is what read_head reads back. */
  lemma HeaderRoundTrip(b: Block, blocks: seq<Uint>)
    requires |blocks| <= LOGBLOCKS
    ensures HeaderOk(WithHeader(b, blocks))
    ensures Header(WithHeader(b, blocks)) == blocks
  {
    var h := WithHeader(b, blocks);
    forall j: nat | j <= |blocks|
      ensures Word(h, j) == if j == 0 then |blocks| else blocks[j - 1]
    {
      WordOfPutWords(SetWord(b, 0, |blocks|), 1, blocks, j);
      WordOfSetWord(b, 0, |blocks|, j);
    }
  }

  // Disk layout: the log occupies blocks start .. start + LOGBLOCKS.

  predicate IsHome(start: nat, b: nat) {
    b < start || start + LOGBLOCKS < b
  }

  predicate HomeEq(start: nat, d: Disk, e: Disk) {
    |d| == |e| && forall b :: 0 <= b < |d| && IsHome(start, b) ==> d[b] == e[b]
  }

  predicate DiskOk(d: Disk, start: nat) {
    && start + LOGBLOCKS < |d|
    && HeaderOk(d[start])
    && forall i :: 0 <= i < |Header(d[start])| ==> IsHome(start, Header(d[start])[i]) && Header(d[start])[i] < |d|
  }

  function LogWrites(start: nat, contents: seq<Block>): seq<Write> {
    seq(|contents|, i requires 0 <= i < |contents| => Write(start + i + 1, contents[i]))
  }

  function HomeWrites(blocks: seq<Uint>, contents: seq<Block>): seq<Write>
    requires |blocks| == |contents|
  {
    seq(|blocks|, i requires 0 <= i < |blocks| => Write(blocks[i], contents[i]))
  }

  /** The first half of commit(): the log blocks, then the header. */
  function LogAndHead(start: nat, head: Block, contents: seq<Block>): seq<Write> {
    LogWrites(start, contents) + [Write(start, head)]
  }

  /** The second half of commit(): the home blocks, then the cleared header. */
  function InstallAndClear(start: nat, head: Block, blocks: seq<Uint>, contents: seq<Block>): seq<Write>
    requires |blocks| == |contents|
  {
    HomeWrites(blocks, contents) + [Write(start, WithHeader(head, []))]
  }

  function CommitWrites(d: Disk, start: nat, blocks: seq<Uint>, contents: seq<Block>): seq<Write>
    requires start < |d| && |blocks| == |contents| <= LOGBLOCKS
  {
    if blocks == [] then [] else
      var head := WithHeader(d[start], blocks);
      LogAndHead(start, head, contents) + InstallAndClear(start, head, blocks, contents)
  }

  /** The writes of install_trans(1) after read_head. */
  function InstallWrites(d: Disk, start: nat): seq<Write>
    requires DiskOk(d, start)
  {
    var n := |Header(d[start])|;
    HomeWrites(Header(d[start]), d[start + 1..start + 1 + n])
  }

  /** The writes of recover_from_log(). */
  function RecoverWrites(d: Disk, start: nat): seq<Write>
    requires DiskOk(d, start)
  {
    InstallWrites(d, start) + [Write(start, WithHeader(d[start], []))]
  }

  function Recover(d: Disk, start: nat): Disk
    requires DiskOk(d, start)
  {
    Apply(d, RecoverWrites(d, start))
  }

  /** What the home blocks mean: their contents once the logged transaction is
      installed. Only the home blocks of the result matter. */
  function Logical(d: Disk, start: nat): (r: Disk)
    requires DiskOk(d, start)
    ensures |r| == |d|
  {
    Apply(d, InstallWrites(d, start))
  }

  // Algebra of write sequences.

  ghost predicate Targets(ws: seq<Write>, b: nat) {
    exists i :: 0 <= i < |ws| && ws[i].blockno == b
  }

  lemma {:induction false} ApplyConcat(d: Disk, us: seq<Write>, ws: seq<Write>)
    ensures Apply(d, us + ws) == Apply(Apply(d, us), ws)
    decreases us
  {
    if us == [] {
      assert us + ws == ws;
    } else {
      assert (us + ws)[1..] == us[1..] + ws;
      ApplyConcat(DoWrite(d, us[0]), us[1..], ws);
    }
  }

  lemma ApplyOne(d: Disk, w: Write)
    ensures Apply(d, [w]) == DoWrite(d, w)
  {
    assert [w][1..] == [];
  }

  lemma IssueConcat(p: Device, us: seq<Write>, ws: seq<Write>)
    ensures Issue(Issue(p, us), ws) == Issue(p, us + ws)
  {
    ApplyConcat(p.disk, us, ws);
    assert p.trace + us + ws == p.trace + (us + ws);
  }

  lemma IssueNext(p: Device, ws: seq<Write>, i: nat)
    requires i < |ws|
    ensures Issue(Issue(p, ws[..i]), [ws[i]]) == Issue(p, ws[..i + 1])
  {
    IssueConcat(p, ws[..i], [ws[i]]);
    assert ws[..i + 1] == ws[..i] + [ws[i]];
  }

  /** A block is decided by the writes that target it, or left alone. */
  lemma {:induction false} ApplyAt(d: Disk, e: Disk, ws: seq<Write>, b: nat)
    requires b < |d| == |e|
    requires Targets(ws, b) || d[b] == e[b]
    ensures Apply(d, ws)[b] == Apply(e, ws)[b]
    ensures !Targets(ws, b) ==> Apply(d, ws)[b] == d[b]
    decreases ws
  {
    if ws != [] {
      var d', e' := DoWrite(d, ws[0]), DoWrite(e, ws[0]);
      if Targets(ws, b) && ws[0].blockno != b {
        var i :| 0 <= i < |ws| && ws[i].blockno == b;
        assert ws[1..][i - 1].blockno == b;
      }
      if Targets(ws[1..], b) {
        var i :| 0 <= i < |ws[1..]| && ws[1..][i].blockno == b;
        assert ws[i + 1].blockno == b;
      }
      if ws[0].blockno == b {
        assert Targets(ws, b);
      }
      ApplyAt(d', e', ws[1..], b);
    }
  }

  /** Writes whose targets are all rewritten afterwards have no effect. */
  lemma Overwritten(d: Disk, us: seq<Write>, ws: seq<Write>)
    requires forall i :: 0 <= i < |us| ==> Targets(ws, us[i].blockno)
    ensures Apply(Apply(d, us), ws) == Apply(d, ws)
  {
    forall b | 0 <= b < |d|
      ensures Apply(Apply(d, us), ws)[b] == Apply(d, ws)[b]
    {
      if !Targets(ws, b) {
        assert !Targets(us, b);
        ApplyAt(d, d, us, b);
      }
      ApplyAt(Apply(d, us), d, ws, b);
    }
  }

  // How each kind of write affects the logical contents.

  predicate IsLogged(d: Disk, start: nat, blocks: seq<Uint>, contents: seq<Block>)
    requires |blocks| == |contents|
  {
    && DiskOk(d, start)
    && Header(d[start]) == blocks
    && d[start + 1..start + 1 + |blocks|] == contents
  }

  predicate LogEmpty(d: Disk, start: nat) {
    DiskOk(d, start) && Word(d[start], 0) == 0
  }

  predicate SameLog(start: nat, d: Disk, e: Disk) {
    && |d| == |e|
    && forall b :: start <= b <= start + LOGBLOCKS && b < |d| ==> d[b] == e[b]
  }

  lemma LogUntouched(d: Disk, start: nat, us: seq<Write>)
    requires forall i :: 0 <= i < |us| ==> IsHome(start, us[i].blockno)
    ensures SameLog(start, Apply(d, us), d)
  {
    forall b | start <= b <= start + LOGBLOCKS && b < |d|
      ensures Apply(d, us)[b] == d[b]
    {
      assert !Targets(us, b);
      ApplyAt(d, d, us, b);
    }
  }

  lemma SameLogSameInstalls(start: nat, d: Disk, e: Disk)
    requires DiskOk(d, start) && SameLog(start, d, e)
    ensures DiskOk(e, start) && e[start] == d[start]
    ensures InstallWrites(e, start) == InstallWrites(d, start)
  {
    var n := |Header(d[start])|;
    assert e[start] == d[start];
    assert e[start + 1..start + 1 + n] == d[start + 1..start + 1 + n];
  }

  lemma InstallTargetsHome(d: Disk, start: nat, w: Write)
    requires DiskOk(d, start) && w in InstallWrites(d, start)
    ensures IsHome(start, w.blockno) && Targets(InstallWrites(d, start), w.blockno)
  {
    var ws := InstallWrites(d, start);
    var j :| 0 <= j < |ws| && ws[j] == w;
  }

  /** Installing logged blocks, in whole or in part, any number of times. */
  lemma InstallKeepsLogical(d: Disk, start: nat, us: seq<Write>)
    requires DiskOk(d, start)
    requires forall i :: 0 <= i < |us| ==> us[i] in InstallWrites(d, start)
    ensures DiskOk(Apply(d, us), start)
    ensures SameLog(start, Apply(d, us), d)
    ensures InstallWrites(Apply(d, us), start) == InstallWrites(d, start)
    ensures Logical(Apply(d, us), start) == Logical(d, start)
  {
    var ws := InstallWrites(d, start);
    forall i | 0 <= i < |us|
      ensures IsHome(start, us[i].blockno) && Targets(ws, us[i].blockno)
    {
      InstallTargetsHome(d, start, us[i]);
    }
    LogUntouched(d, start, us);
    SameLogSameInstalls(start, d, Apply(d, us));
    Overwritten(d, us, ws);
  }

  /** While the header is empty, writing log blocks changes no logical block. */
  lemma LogWriteKeepsLogical(d: Disk, start: nat, us: seq<Write>)
    requires LogEmpty(d, start)
    requires forall i :: 0 <= i < |us| ==> start < us[i].blockno <= start + LOGBLOCKS
    ensures LogEmpty(Apply(d, us), start)
    ensures Apply(d, us)[start] == d[start]
    ensures HomeEq(start, Apply(d, us), d)
  {
    forall b | 0 <= b < |d| && (b == start || IsHome(start, b))
      ensures Apply(d, us)[b] == d[b]
    {
      assert !Targets(us, b);
      ApplyAt(d, d, us, b);
    }
  }

  lemma LogicalOfEmptyLog(d: Disk, start: nat)
    requires LogEmpty(d, start)
    ensures Logical(d, start) == d
  {
    assert InstallWrites(d, start) == [];
  }

  lemma LoggedInstalls(d: Disk, start: nat, blocks: seq<Uint>, contents: seq<Block>)
    requires |blocks| == |contents|
    requires IsLogged(d, start, blocks, contents)
    ensures InstallWrites(d, start) == HomeWrites(blocks, contents)
  {
  }

  lemma HeaderWriteLogs(d: Disk, start: nat, head: Block, blocks: seq<Uint>, contents: seq<Block>)
    requires start + LOGBLOCKS < |d| && |blocks| == |contents| <= LOGBLOCKS
    requires d[start + 1..start + 1 + |blocks|] == contents
    requires forall i :: 0 <= i < |blocks| ==> IsHome(start, blocks[i]) && blocks[i] < |d|
    requires HeaderOk(head) && Header(head) == blocks
    ensures IsLogged(d[start := head], start, blocks, contents)
  {
    var n := |blocks|;
    assert d[start := head][start + 1..start + 1 + n] == d[start + 1..start + 1 + n];
  }

  /** Writing the header is the commit point: it installs every block at once. */
  lemma HeaderWriteCommits(d: Disk, start: nat, blocks: seq<Uint>, contents: seq<Block>)
    requires start + LOGBLOCKS < |d| && |blocks| == |contents| <= LOGBLOCKS
    requires d[start + 1..start + 1 + |blocks|] == contents
    requires forall i :: 0 <= i < |blocks| ==> IsHome(start, blocks[i]) && blocks[i] < |d|
    ensures var e := DoWrite(d, Write(start, WithHeader(d[start], blocks)));
            IsLogged(e, start, blocks, contents) && HomeEq(start, e, d)
            && HomeEq(start, Logical(e, start), Apply(d, HomeWrites(blocks, contents)))
  {
    var head := WithHeader(d[start], blocks);
    HeaderRoundTrip(d[start], blocks);
    HeaderWriteLogs(d, start, head, blocks, contents);
    LoggedInstalls(d[start := head], start, blocks, contents);
    SameHomeSameWrites(d[start := head], d, start, HomeWrites(blocks, contents));
  }

  lemma SameHomeSameWrites(d: Disk, e: Disk, start: nat, ws: seq<Write>)
    requires HomeEq(start, d, e)
    ensures HomeEq(start, Apply(d, ws), Apply(e, ws))
  {
    forall b | 0 <= b < |d| && IsHome(start, b)
      ensures Apply(d, ws)[b] == Apply(e, ws)[b]
    {
      ApplyAt(d, e, ws, b);
    }
  }

  /** Clearing the header is safe once the home blocks are installed. */
  lemma ClearKeepsLogical(d: Disk, start: nat)
    requires DiskOk(d, start)
    requires HomeEq(start, d, Logical(d, start))
    ensures var e := DoWrite(d, Write(start, WithHeader(d[start], [])));
            LogEmpty(e, start) && HomeEq(start, e, d)
  {
    HeaderRoundTrip(d[start], []);
  }

  lemma InstalledIsLogical(d: Disk, start: nat)
    requires DiskOk(d, start)
    ensures DiskOk(Logical(d, start), start)
    ensures Logical(Logical(d, start), start) == Logical(d, start)
    ensures Logical(d, start)[start] == d[start]
  {
    InstallKeepsLogical(d, start, InstallWrites(d, start));
  }

  /** recover_from_log stopped after any k of its writes. */
  function RecoverPrefix(d: Disk, start: nat, k: nat): Disk
    requires DiskOk(d, start)
  {
    var ws := RecoverWrites(d, start);
    Apply(d, if k < |ws| then ws[..k] else ws)
  }

  lemma RecoverFinishes(d: Disk, start: nat)
    requires DiskOk(d, start)
    ensures LogEmpty(Recover(d, start), start)
    ensures HomeEq(start, Recover(d, start), Logical(d, start))
  {
    var ws := InstallWrites(d, start);
    ApplyConcat(d, ws, [Write(start, WithHeader(d[start], []))]);
    InstalledIsLogical(d, start);
    ClearKeepsLogical(Logical(d, start), start);
  }

  lemma RecoverPrefixKeepsLogical(d: Disk, start: nat, k: nat)
    requires DiskOk(d, start)
    ensures DiskOk(RecoverPrefix(d, start, k), start)
    ensures HomeEq(start, Logical(RecoverPrefix(d, start, k), start), Logical(d, start))
  {
    var ws := RecoverWrites(d, start);
    if k < |ws| {
      assert ws[..k] == InstallWrites(d, start)[..k];
      InstallKeepsLogical(d, start, ws[..k]);
    } else {
      RecoverFinishes(d, start);
      LogicalOfEmptyLog(Recover(d, start), start);
    }
  }

  /** Recovery attempts that each crash after some number of writes. */
  function CrashingRecoveries(d: Disk, start: nat, crashes: seq<nat>): (r: Disk)
    requires DiskOk(d, start)
    ensures DiskOk(r, start)
    decreases crashes
  {
    if crashes == [] then d else
      RecoverPrefixKeepsLogical(d, start, crashes[0]);
      CrashingRecoveries(RecoverPrefix(d, start, crashes[0]), start, crashes[1..])
  }

  lemma {:induction false} CrashingRecoveriesKeepLogical(d: Disk, start: nat, crashes: seq<nat>)
    requires DiskOk(d, start)
    ensures HomeEq(start, Logical(CrashingRecoveries(d, start, crashes), start), Logical(d, start))
    decreases crashes
  {
    if crashes != [] {
      RecoverPrefixKeepsLogical(d, start, crashes[0]);
      CrashingRecoveriesKeepLogical(RecoverPrefix(d, start, crashes[0]), start, crashes[1..]);
    }
  }

  /** The disk when commit() has issued k of its writes. */
  function CommitPrefix(d: Disk, start: nat, blocks: seq<Uint>, contents: seq<Block>, k: nat): Disk
    requires start < |d| && |blocks| == |contents| <= LOGBLOCKS
    requires k <= |CommitWrites(d, start, blocks, contents)|
  {
    Apply(d, CommitWrites(d, start, blocks, contents)[..k])
  }

  predicate CanCommit(d: Disk, start: nat, blocks: seq<Uint>, contents: seq<Block>) {
    && LogEmpty(d, start)
    && |blocks| == |contents| <= LOGBLOCKS
    && forall i :: 0 <= i < |blocks| ==> IsHome(start, blocks[i]) && blocks[i] < |d|
  }

  lemma LogWritesLand(d: Disk, start: nat, contents: seq<Block>)
    requires start + |contents| < |d|
    ensures Apply(d, LogWrites(start, contents))[start + 1..start + 1 + |contents|] == contents
    decreases contents
  {
    if contents != [] {
      var k := |contents| - 1;
      var ws := LogWrites(start, contents);
      assert ws == LogWrites(start, contents[..k]) + [Write(start + k + 1, contents[k])];
      ApplyConcat(d, ws[..k], ws[k..]);
      LogWritesLand(d, start, contents[..k]);
      var e := Apply(d, ws[..k]);
      assert Apply(d, ws) == DoWrite(e, ws[k]);
      assert contents == contents[..k] + [contents[k]];
    }
  }

  /** A crash inside commit() leaves the old logical contents before the header
      write, and the new ones from the header write on. */
  lemma CommitPrefixLogical(d: Disk, start: nat, blocks: seq<Uint>, contents: seq<Block>, k: nat)
    requires CanCommit(d, start, blocks, contents)
    requires k <= |CommitWrites(d, start, blocks, contents)|
    ensures var e := CommitPrefix(d, start, blocks, contents, k);
            DiskOk(e, start)
            && HomeEq(start, Logical(e, start),
                      if k <= |blocks| then d else Apply(d, HomeWrites(blocks, contents)))
  {
    var n := |blocks|;
    var e := CommitPrefix(d, start, blocks, contents, k);
    if n == 0 {
      LogicalOfEmptyLog(d, start);
    } else {
      var ws := CommitWrites(d, start, blocks, contents);
      if k <= n {
        assert ws[..k] == LogWrites(start, contents)[..k];
        LogWriteKeepsLogical(d, start, ws[..k]);
        LogicalOfEmptyLog(e, start);
      } else {
        CommitPrefixAfterHeader(d, start, blocks, contents, k);
      }
    }
  }

  /** The disk right after the header write. */
  lemma HeaderPrefix(d: Disk, start: nat, blocks: seq<Uint>, contents: seq<Block>)
    requires CanCommit(d, start, blocks, contents)
    ensures var head := WithHeader(d[start], blocks);
            var e := Apply(d, LogAndHead(start, head, contents));
            && IsLogged(e, start, blocks, contents) && e[start] == head
            && HomeEq(start, Logical(e, start), Apply(d, HomeWrites(blocks, contents)))
  {
    var logs := LogWrites(start, contents);
    LogWriteKeepsLogical(d, start, logs);
    LogWritesLand(d, start, contents);
    LogThenHead(d, start, WithHeader(d[start], blocks), contents);
    HeaderOver(d, Apply(d, logs), start, blocks, contents);
  }

  lemma HeaderOver(d: Disk, d1: Disk, start: nat, blocks: seq<Uint>, contents: seq<Block>)
    requires CanCommit(d, start, blocks, contents) && LogEmpty(d1, start) && HomeEq(start, d1, d)
    requires d1[start + 1..start + 1 + |contents|] == contents
    ensures var e := d1[start := WithHeader(d1[start], blocks)];
            && IsLogged(e, start, blocks, contents)
            && HomeEq(start, Logical(e, start), Apply(d, HomeWrites(blocks, contents)))
  {
    HeaderWriteCommits(d1, start, blocks, contents);
    SameHomeSameWrites(d1, d, start, HomeWrites(blocks, contents));
  }

  lemma LogThenHead(d: Disk, start: nat, head: Block, contents: seq<Block>)
    requires start < |d|
    ensures Apply(d, LogAndHead(start, head, contents)) == Apply(d, LogWrites(start, contents))[start := head]
  {
    ApplyConcat(d, LogWrites(start, contents), [Write(start, head)]);
    ApplyOne(Apply(d, LogWrites(start, contents)), Write(start, head));
  }

  lemma PrefixOfConcat(us: seq<Write>, ws: seq<Write>, k: nat)
    requires |us| <= k <= |us| + |ws|
    ensures (us + ws)[..k] == us + ws[..k - |us|]
  {
  }

  lemma CommitPrefixAfterHeader(d: Disk, start: nat, blocks: seq<Uint>, contents: seq<Block>, k: nat)
    requires CanCommit(d, start, blocks, contents) && |blocks| > 0
    requires |blocks| < k <= |CommitWrites(d, start, blocks, contents)|
    ensures var e := CommitPrefix(d, start, blocks, contents, k);
            DiskOk(e, start) && HomeEq(start, Logical(e, start), Apply(d, HomeWrites(blocks, contents)))
  {
    var head := WithHeader(d[start], blocks);
    var us := LogAndHead(start, head, contents);
    var ws := InstallAndClear(start, head, blocks, contents);
    PrefixOfConcat(us, ws, k);
    ApplyConcat(d, us, ws[..k - |us|]);
    HeaderPrefix(d, start, blocks, contents);
    AfterHeader(Apply(d, us), start, blocks, contents, k - |us|);
  }

  /** From the header write on, commit issues the writes that recovery would. */
  lemma AfterHeader(e: Disk, start: nat, blocks: seq<Uint>, contents: seq<Block>, j: nat)
    requires |blocks| == |contents| && j <= |blocks| + 1
    requires IsLogged(e, start, blocks, contents)
    ensures var f := Apply(e, InstallAndClear(start, e[start], blocks, contents)[..j]);
            DiskOk(f, start) && HomeEq(start, Logical(f, start), Logical(e, start))
  {
    LoggedInstalls(e, start, blocks, contents);
    var ws := RecoverWrites(e, start);
    assert ws[..|ws|] == ws;
    RecoverPrefixKeepsLogical(e, start, j);
  }

  /** Crash atomicity: wherever commit() is cut off, and however often recovery
      itself is cut off before it finishes, the home blocks end up all old (the
      header was not written) or all new (it was), and the log is empty. */
  lemma CrashAtomicity(d: Disk, start: nat, blocks: seq<Uint>, contents: seq<Block>, k: nat, crashes: seq<nat>)
    requires CanCommit(d, start, blocks, contents)
    requires k <= |CommitWrites(d, start, blocks, contents)|
    ensures var e := CommitPrefix(d, start, blocks, contents, k);
            && DiskOk(e, start)
            && var f := Recover(CrashingRecoveries(e, start, crashes), start);
            && LogEmpty(f, start)
            && HomeEq(start, f, if k <= |blocks| then d else Apply(d, HomeWrites(blocks, contents)))
  {
    var e := CommitPrefix(d, start, blocks, contents, k);
    CommitPrefixLogical(d, start, blocks, contents, k);
    CrashingRecoveriesKeepLogical(e, start, crashes);
    RecoverFinishes(CrashingRecoveries(e, start, crashes), start);
  }

  /** The new contents: each listed block holds its logged block, with distinct
      entries, and every other home block is untouched. */
  lemma HomeWritesAt(d: Disk, blocks: seq<Uint>, contents: seq<Block>, b: nat)
    requires |blocks| == |contents| && b < |d|
    requires forall i, j :: 0 <= i < j < |blocks| ==> blocks[i] != blocks[j]
    ensures b !in blocks ==> Apply(d, HomeWrites(blocks, contents))[b] == d[b]
    ensures forall i :: 0 <= i < |blocks| && blocks[i] == b ==> Apply(d, HomeWrites(blocks, contents))[b] == contents[i]
    decreases blocks
  {
    var ws := HomeWrites(blocks, contents);
    if b !in blocks {
      assert !Targets(ws, b);
      ApplyAt(d, d, ws, b);
    } else {
      var n := |blocks| - 1;
      assert ws == HomeWrites(blocks[..n], contents[..n]) + [Write(blocks[n], contents[n])];
      ApplyConcat(d, ws[..n], ws[n..]);
      HomeWritesAt(d, blocks[..n], contents[..n], b);
      assert Apply(d, ws) == DoWrite(Apply(d, ws[..n]), ws[n]);
    }
  }
}
