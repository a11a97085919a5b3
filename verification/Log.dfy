/** log.c as it runs on one thread: the in-memory header, the loops that copy and
    write blocks, commit, recovery, and the boot path. */
module Log {
  import opened Blocks
  import opened Wal

  /** Log absorption: a block already listed is not listed again. */
  function Absorb(lh: seq<Uint>, b: Uint): seq<Uint> {
    if b in lh then lh else lh + [b]
  }

  function Elems(lh: seq<Uint>): set<nat> {
    set b | b in lh
  }

  /** What bread returns: the pinned buffer if there is one, else the disk block. */
  function View(disk: Disk, pinned: map<nat, Block>, b: nat): Block
    requires b < |disk|
  {
    if b in pinned then pinned[b] else disk[b]
  }

  datatype Pin = Bpin(b: Uint) | Bunpin(b: Uint)

  function Bunpins(lh: seq<Uint>): seq<Pin> {
    seq(|lh|, i requires 0 <= i < |lh| => Bunpin(lh[i]))
  }

  /** The logged blocks as the buffer cache holds them. */
  function Contents(disk: Disk, pinned: map<nat, Block>, lh: seq<Uint>): seq<Block>
    requires forall i :: 0 <= i < |lh| ==> lh[i] < |disk|
  {
    seq(|lh|, i requires 0 <= i < |lh| => View(disk, pinned, lh[i]))
  }

  class Log {
    const start: nat
    const block: array<Uint>
    var n: nat
    var outstanding: int
    var dev: Device
    // Buffers that the log keeps in the cache because the disk does not have them yet.
    var pinned: map<nat, Block>
    // The calls of bpin and bunpin, in order.
    var pins: seq<Pin>

    ghost predicate Valid()
      reads this, block
    {
      && block.Length == LOGBLOCKS
      && n <= LOGBLOCKS
      && start + LOGBLOCKS < |dev.disk|
      && (forall i :: 0 <= i < n ==> IsHome(start, block[i]) && block[i] < |dev.disk|)
      && (forall b :: b in pinned ==> IsHome(start, b))
    }

    constructor (start: nat, disk: Disk)
      requires start + LOGBLOCKS < |disk|
      ensures Valid() && fresh(block) && this.start == start && dev == Device(disk, [])
      ensures n == 0 && outstanding == 0 && pinned == map[] && pins == []
    {
      this.start, dev := start, Device(disk, []);
      n, outstanding, pinned, pins := 0, 0, map[], [];
      block := new Uint[LOGBLOCKS](_ => 0);
    }

    method Bwrite(b: nat, data: Block)
      modifies this`dev
      ensures dev == Issue(old(dev), [Write(b, data)])
      ensures dev.disk == DoWrite(old(dev).disk, Write(b, data))
    {
      ApplyOne(dev.disk, Write(b, data));
      dev := Device(DoWrite(dev.disk, Write(b, data)), dev.trace + [Write(b, data)]);
    }

    method ReadHead()
      requires Valid() && DiskOk(dev.disk, start)
      modifies this`n, block
      ensures Valid() && block[..n] == Header(dev.disk[start])
    {
      var buf := View(dev.disk, pinned, start);
      n := Word(buf, 0);
      var i := 0;
      while i < n
        invariant 0 <= i <= n && n == Word(buf, 0)
        invariant forall j :: 0 <= j < i ==> block[j] == Word(buf, j + 1)
      {
        block[i] := Word(buf, i + 1);
        i := i + 1;
      }
      assert block[..n] == Header(dev.disk[start]);
      assert forall j :: 0 <= j < n ==> block[j] == Header(dev.disk[start])[j];
    }

    method WriteHead(ghost lh: seq<Uint>)
      requires Valid() && lh == block[..n]
      modifies this`dev
      ensures dev == Issue(old(dev), [Write(start, WithHeader(old(dev).disk[start], lh))])
    {
      var hb := View(dev.disk, pinned, start);
      hb := SetWord(hb, 0, n);
      var i := 0;
      while i < n
        invariant 0 <= i <= n
        invariant hb == PutWords(SetWord(dev.disk[start], 0, n), 1, lh[..i])
      {
        assert lh[..i + 1][..i] == lh[..i];
        hb := SetWord(hb, i + 1, block[i]);
        i := i + 1;
      }
      assert lh[..n] == lh;
      Bwrite(start, hb);
    }

    /** A round of install_trans. */
    method InstallOne(recovering: bool, i: nat, ghost logged: seq<Block>)
      requires Valid() && i < n && |logged| == n && InLog(dev.disk, start, logged) && (recovering ==> pinned == map[])
      modifies this`dev, this`pinned, this`pins
      ensures dev == Issue(old(dev), [Write(block[i], logged[i])]) && InLog(dev.disk, start, logged) && Valid()
      ensures pinned == old(pinned) - {block[i] as nat}
              && pins == if recovering then old(pins) else old(pins) + [Bunpin(block[i])]
    {
      var lbuf := View(dev.disk, pinned, start + i + 1);
      assert lbuf == logged[i];
      var home := block[i];
      Bwrite(home, lbuf);
      if !recovering {
        pinned, pins := pinned - {home as nat}, pins + [Bunpin(home)];
      }
    }

    /** Copy each log block home; when not recovering, drop its pin. `logged` is what the
        log holds. */
    method InstallTrans(recovering: bool, ghost lh: seq<Uint>, ghost logged: seq<Block>)
      requires Valid() && lh == block[..n] && |logged| == n && InLog(dev.disk, start, logged)
      requires recovering ==> pinned == map[]
      modifies this`dev, this`pinned, this`pins
      ensures dev == Issue(old(dev), HomeWrites(lh, logged))
      ensures pinned == old(pinned) - Elems(lh) && pins == if recovering then old(pins) else old(pins) + Bunpins(lh)
    {
      InstalledNone(dev, pinned, pins, lh, logged, recovering);
      var i := 0;
      while i < n
        invariant 0 <= i <= n == |lh| && Valid() && InLog(dev.disk, start, logged) && (recovering ==> pinned == map[])
        invariant forall j :: 0 <= j < n ==> lh[j] == block[j]
        invariant Installed(old(dev), old(pinned), old(pins), lh, logged, recovering, i, dev, pinned, pins)
      {
        ghost var p1, pinned1, pins1 := dev, pinned, pins;
        InstallOne(recovering, i, logged);
        InstalledNext(old(dev), old(pinned), old(pins), lh, logged, recovering, i, p1, pinned1, pins1);
        i := i + 1;
      }
      InstalledAll(old(dev), old(pinned), old(pins), lh, logged, recovering, dev, pinned, pins);
    }

    /** Copy each logged block from the cache to its log slot. */
    method WriteLog(ghost lh: seq<Uint>)
      requires Valid() && lh == block[..n]
      modifies this`dev
      ensures dev == Issue(old(dev), LogWrites(start, Contents(old(dev).disk, pinned, lh)))
    {
      ghost var ws := LogWrites(start, Contents(dev.disk, pinned, lh));
      assert forall j :: 0 <= j < n ==> IsHome(start, lh[j]) && lh[j] < |dev.disk|;
      var i := 0;
      while i < n
        invariant 0 <= i <= n && dev == Issue(old(dev), ws[..i])
      {
        LogOne(i, lh, ws, old(dev));
        i := i + 1;
      }
      assert ws[..n] == ws;
    }

    /** One block to its place in the log. */
    method LogOne(i: nat, ghost lh: seq<Uint>, ghost ws: seq<Write>, ghost p0: Device)
      requires Valid() && lh == block[..n] && i < n && |p0.disk| == |dev.disk|
      requires forall j :: 0 <= j < n ==> IsHome(start, lh[j]) && lh[j] < |dev.disk|
      requires ws == LogWrites(start, Contents(p0.disk, pinned, lh)) && dev == Issue(p0, ws[..i])
      modifies this`dev
      ensures dev == Issue(p0, ws[..i + 1])
    {
      assert block[i] == lh[i];
      LogWritesMiss(p0.disk, start, ws, i, lh[i]);
      var from := View(dev.disk, pinned, block[i]);
      assert ws[i] == Write(start + i + 1, from);
      IssueNext(p0, ws, i);
      Bwrite(start + i + 1, from);
    }

    /** The first half of commit. */
    method CommitLog(ghost lh: seq<Uint>, ghost contents: seq<Block>)
      requires Valid() && lh == block[..n] && contents == Contents(dev.disk, pinned, lh)
      modifies this`dev
      ensures dev == Issue(old(dev), LogAndHead(start, WithHeader(old(dev).disk[start], lh), contents))
    {
      ghost var p0 := dev;
      WriteLog(lh);
      Untargeted(p0.disk, LogWrites(start, contents), start);
      WriteHead(lh);
      IssueConcat(p0, LogWrites(start, contents), [Write(start, WithHeader(p0.disk[start], lh))]);
    }

    /** The second half. */
    method CommitInstall(ghost lh: seq<Uint>, ghost contents: seq<Block>)
      requires Valid() && lh == block[..n] && |contents| == n && InLog(dev.disk, start, contents)
      modifies this`dev, this`pinned, this`pins, this`n
      ensures Valid() && n == 0 && dev == Issue(old(dev), InstallAndClear(start, old(dev).disk[start], lh, contents))
      ensures pinned == old(pinned) - Elems(lh) && pins == old(pins) + Bunpins(lh)
    {
      ghost var p0 := dev;
      assert forall j :: 0 <= j < n ==> IsHome(start, lh[j]);
      InstallTrans(false, lh, contents);
      n := 0;
      Untargeted(p0.disk, HomeWrites(lh, contents), start);
      WriteHead([]);
      IssueConcat(p0, HomeWrites(lh, contents), [Write(start, WithHeader(p0.disk[start], []))]);
    }

    /** The write sequence of a commit is the one whose prefixes CrashAtomicity covers; every
        listed block is unpinned once. */
    method Commit()
      requires Valid()
      modifies this`dev, this`pinned, this`pins, this`n
      ensures Valid() && n == 0
      ensures var lh := old(block[..n]);
              dev == Issue(old(dev), CommitWrites(old(dev).disk, start, lh, Contents(old(dev).disk, old(pinned), lh)))
      ensures pinned == old(pinned) - Elems(old(block[..n])) && pins == old(pins) + Bunpins(old(block[..n]))
    {
      ghost var p0, lh := dev, block[..n];
      if n > 0 {
        ghost var contents := Contents(dev.disk, pinned, lh);
        CommitLog(lh, contents);
        HeadWritten(p0, start, lh, contents);
        CommitInstall(lh, contents);
        CommitInParts(p0, start, lh, contents);
      } else {
        NoWrites(dev);
        assert lh == [] && pinned == pinned - Elems([]) && pins + Bunpins([]) == pins;
      }
    }

    method RecoverFromLog()
      requires Valid() && DiskOk(dev.disk, start) && pinned == map[]
      modifies this`dev, this`pinned, this`pins, this`n, block
      ensures Valid() && n == 0 && pinned == map[] && pins == old(pins)
      ensures dev == Issue(old(dev), RecoverWrites(old(dev).disk, start))
    {
      ReadHead();
      ghost var p0 := dev;
      InstallTrans(true, Header(p0.disk[start]), p0.disk[start + 1..start + 1 + n]);
      n := 0;
      WriteHead([]);
      RecoverInParts(p0, start);
    }

    /** initlog as wired: it installs the header it holds in memory without reading
        the one on disk, so from the boot state it writes nothing. */
    method InitLog()
      requires Valid() && n == 0 && pinned == map[]
      modifies this`dev, this`pinned, this`pins
      ensures Valid() && dev == Issue(old(dev), BootWrites(old(dev).disk, start)) && pinned == map[]
              && pins == old(pins)
    {
      InstallTrans(true, [], dev.disk[start + 1..start + 1]);
    }

    /** log_write of a buffer the client has just changed to `data`. The capacity
        test comes before absorption. */
    method LogWrite(b: Uint, data: Block) returns (panic: bool)
      requires Valid() && IsHome(start, b) && b < |dev.disk|
      modifies this`pinned, this`pins, this`n, block
      ensures Valid()
      ensures panic <==> old(n) >= LOGBLOCKS || outstanding < 1
      ensures panic ==> pinned == old(pinned) && pins == old(pins) && block[..n] == old(block[..n])
      ensures !panic ==> pinned == old(pinned)[b := data] && block[..n] == Absorb(old(block[..n]), b)
      ensures !panic ==> pins == if b in old(block[..n]) then old(pins) else old(pins) + [Bpin(b)]
    {
      if n >= LOGBLOCKS || outstanding < 1 {
        return true;
      }
      var i := 0;
      while i < n && block[i] != b
        invariant 0 <= i <= n
        invariant forall j :: 0 <= j < i ==> block[j] != b
      {
        i := i + 1;
      }
      ghost var lh := block[..n];
      assert i < n ==> lh[i] == b;
      block[i] := b;
      if i == n {
        n, pins := n + 1, pins + [Bpin(b)];
        assert block[..n] == lh + [b];
      } else {
        assert block[..n] == lh;
      }
      pinned := pinned[b := data];
      return false;
    }
  }

  /** What initlog writes: the header in memory is empty, so nothing. */
  function BootWrites(d: Disk, start: nat): seq<Write>
    requires start + 1 <= |d|
  {
    HomeWrites([], d[start + 1..start + 1])
  }

  function Boot(d: Disk, start: nat): Disk
    requires start + 1 <= |d|
  {
    Apply(d, BootWrites(d, start))
  }

  lemma NoWrites(p: Device)
    ensures Issue(p, []) == p
  {
    assert p.trace + [] == p.trace;
  }

  /** The first i blocks of lh are installed. */
  ghost predicate Installed(p: Device, pinned: map<nat, Block>, pins: seq<Pin>, lh: seq<Uint>, logged: seq<Block>,
                            recovering: bool, i: nat, p': Device, pinned': map<nat, Block>, pins': seq<Pin>)
  {
    && i <= |lh| == |logged| && p' == Issue(p, HomeWrites(lh, logged)[..i]) && pinned' == pinned - Elems(lh[..i])
    && pins' == if recovering then pins else pins + Bunpins(lh)[..i]
  }

  lemma InstalledNone(p: Device, pinned: map<nat, Block>, pins: seq<Pin>, lh: seq<Uint>, logged: seq<Block>,
                      recovering: bool)
    requires |lh| == |logged|
    ensures Installed(p, pinned, pins, lh, logged, recovering, 0, p, pinned, pins)
  {
    NoWrites(p);
    assert pins + Bunpins(lh)[..0] == pins;
  }

  lemma InstalledNext(p: Device, pinned: map<nat, Block>, pins: seq<Pin>, lh: seq<Uint>, logged: seq<Block>,
                      recovering: bool, i: nat, p1: Device, pinned1: map<nat, Block>, pins1: seq<Pin>)
    requires Installed(p, pinned, pins, lh, logged, recovering, i, p1, pinned1, pins1) && i < |lh|
    ensures Installed(p, pinned, pins, lh, logged, recovering, i + 1, Issue(p1, [Write(lh[i], logged[i])]),
                      pinned1 - {lh[i] as nat}, if recovering then pins1 else pins1 + [Bunpin(lh[i])])
  {
    IssueNext(p, HomeWrites(lh, logged), i);
    UnpinNext(pinned, lh, i);
    assert Bunpins(lh)[..i + 1] == Bunpins(lh)[..i] + [Bunpin(lh[i])];
  }

  lemma InstalledAll(p: Device, pinned: map<nat, Block>, pins: seq<Pin>, lh: seq<Uint>, logged: seq<Block>,
                     recovering: bool, p': Device, pinned': map<nat, Block>, pins': seq<Pin>)
    requires Installed(p, pinned, pins, lh, logged, recovering, |lh|, p', pinned', pins')
    ensures p' == Issue(p, HomeWrites(lh, logged)) && pinned' == pinned - Elems(lh)
    ensures pins' == if recovering then pins else pins + Bunpins(lh)
  {
    assert lh[..|lh|] == lh && HomeWrites(lh, logged)[..|lh|] == HomeWrites(lh, logged)
        && Bunpins(lh)[..|lh|] == Bunpins(lh);
  }

  lemma UnpinNext(pinned: map<nat, Block>, lh: seq<Uint>, i: nat)
    requires i < |lh|
    ensures pinned - Elems(lh[..i]) - {lh[i] as nat} == pinned - Elems(lh[..i + 1])
    ensures pinned == map[] ==> pinned - Elems(lh[..i + 1]) == map[]
  {
    assert lh[..i + 1] == lh[..i] + [lh[i]];
    assert Elems(lh[..i + 1]) == Elems(lh[..i]) + {lh[i] as nat};
  }

  /** The two halves of commit, put together. */
  lemma CommitInParts(p: Device, start: nat, blocks: seq<Uint>, contents: seq<Block>)
    requires start < |p.disk| && 0 < |blocks| == |contents| <= LOGBLOCKS
    ensures var head := WithHeader(p.disk[start], blocks);
            Issue(Issue(p, LogAndHead(start, head, contents)), InstallAndClear(start, head, blocks, contents))
            == Issue(p, CommitWrites(p.disk, start, blocks, contents))
  {
    var head := WithHeader(p.disk[start], blocks);
    IssueConcat(p, LogAndHead(start, head, contents), InstallAndClear(start, head, blocks, contents));
  }

  lemma Untargeted(d: Disk, ws: seq<Write>, b: nat)
    requires b < |d| && forall i :: 0 <= i < |ws| ==> ws[i].blockno != b
    ensures Apply(d, ws)[b] == d[b]
  {
    assert !Targets(ws, b);
    ApplyAt(d, d, ws, b);
  }

  /** Writing log blocks leaves the home blocks alone. */
  lemma LogWritesMiss(d: Disk, start: nat, ws: seq<Write>, i: nat, b: nat)
    requires i <= |ws| <= LOGBLOCKS && (forall j :: 0 <= j < |ws| ==> ws[j].blockno == start + j + 1)
    requires b < |d| && IsHome(start, b)
    ensures Apply(d, ws[..i])[b] == d[b]
  {
    Untargeted(d, ws[..i], b);
  }

  /** The log holds these blocks. */
  ghost predicate InLog(d: Disk, start: nat, logged: seq<Block>) {
    start + |logged| < |d| && forall j :: 0 <= j < |logged| ==> d[start + j + 1] == logged[j]
  }

  lemma HeadWritten(p: Device, start: nat, blocks: seq<Uint>, contents: seq<Block>)
    requires start + |contents| < |p.disk| && |blocks| <= LOGBLOCKS
    ensures var head := WithHeader(p.disk[start], blocks);
            var e := Issue(p, LogAndHead(start, head, contents)).disk;
            e[start] == head && InLog(e, start, contents)
  {
    var head, logs := WithHeader(p.disk[start], blocks), LogWrites(start, contents);
    ApplyConcat(p.disk, logs, [Write(start, head)]);
    var d := Apply(p.disk, logs);
    ApplyOne(d, Write(start, head));
    LogWritesLand(p.disk, start, contents);
    forall j | 0 <= j < |contents|
      ensures d[start + j + 1] == contents[j]
    {
      assert d[start + 1..start + 1 + |contents|][j] == d[start + j + 1];
    }
  }

  lemma RecoverInParts(p: Device, start: nat)
    requires DiskOk(p.disk, start)
    ensures var p1 := Issue(p, InstallWrites(p.disk, start));
            Issue(p1, [Write(start, WithHeader(p1.disk[start], []))]) == Issue(p, RecoverWrites(p.disk, start))
  {
    var ws := InstallWrites(p.disk, start);
    Untargeted(p.disk, ws, start);
    IssueConcat(p, ws, [Write(start, WithHeader(p.disk[start], []))]);
  }

  /** Boot as wired does what recovery would do exactly when the on-disk header is
      already empty. */
  lemma BootIsRecoveryIffLogEmpty(d: Disk, start: nat)
    requires DiskOk(d, start)
    ensures Boot(d, start) == Recover(d, start) <==> Word(d[start], 0) == 0
  {
    assert Boot(d, start) == d;
    RecoverFinishes(d, start);
    if Word(d[start], 0) == 0 {
      assert InstallWrites(d, start) == [];
      assert RecoverWrites(d, start) == [Write(start, WithHeader(d[start], []))];
      SetZeroWord(d[start]);
      assert WithHeader(d[start], []) == d[start];
      ApplyConcat(d, [], [Write(start, d[start])]);
      assert d[start := d[start]] == d;
    }
  }

  // What boot as wired leaves of the home blocks.

  /** How many of n home writes are done after k writes of a commit. */
  function Installs(n: nat, k: nat): nat {
    if k <= n + 1 then 0 else if k - (n + 1) > n then n else k - (n + 1)
  }

  /** The home writes among the first k: none of the others goes to a home block. */
  lemma HomePrefix(d: Disk, start: nat, blocks: seq<Uint>, contents: seq<Block>, k: nat, b: nat)
    requires CanCommit(d, start, blocks, contents) && k <= |CommitWrites(d, start, blocks, contents)|
    requires IsHome(start, b) && b < |d|
    ensures var j := Installs(|blocks|, k);
            CommitPrefix(d, start, blocks, contents, k)[b] == Apply(d, HomeWrites(blocks[..j], contents[..j]))[b]
  {
    if k <= |blocks| + 1 {
      HeadPrefix(d, start, blocks, contents, k, b);
    } else {
      var head := WithHeader(d[start], blocks);
      var us := LogAndHead(start, head, contents);
      var ws := InstallAndClear(start, head, blocks, contents);
      PrefixOfConcat(us, ws, k);
      ApplyConcat(d, us, ws[..k - |us|]);
      Untargeted(d, us, b);
      InstallPrefix(Apply(d, us), d, start, head, blocks, contents, k - |us|, b);
    }
  }

  lemma HeadPrefix(d: Disk, start: nat, blocks: seq<Uint>, contents: seq<Block>, k: nat, b: nat)
    requires CanCommit(d, start, blocks, contents) && k <= |CommitWrites(d, start, blocks, contents)|
    requires IsHome(start, b) && b < |d| && k <= |blocks| + 1
    ensures CommitPrefix(d, start, blocks, contents, k)[b] == d[b]
    ensures Apply(d, HomeWrites(blocks[..0], contents[..0])) == d
  {
    assert HomeWrites(blocks[..0], contents[..0]) == [];
    var us := CommitWrites(d, start, blocks, contents)[..k];
    assert forall i :: 0 <= i < |us| ==> us[i].blockno != b;
    Untargeted(d, us, b);
  }

  lemma InstallPrefix(e: Disk, d: Disk, start: nat, head: Block, blocks: seq<Uint>, contents: seq<Block>, m: nat,
                      b: nat)
    requires |e| == |d| && b < |d| && e[b] == d[b] && IsHome(start, b) && |blocks| == |contents| && m <= |blocks| + 1
    ensures var j := if m > |blocks| then |blocks| else m;
            Apply(e, InstallAndClear(start, head, blocks, contents)[..m])[b]
            == Apply(d, HomeWrites(blocks[..j], contents[..j]))[b]
  {
    var ws, hs := InstallAndClear(start, head, blocks, contents), HomeWrites(blocks, contents);
    if m <= |blocks| {
      assert ws[..m] == HomeWrites(blocks[..m], contents[..m]);
      ApplyAt(e, d, ws[..m], b);
    } else {
      assert ws[..m] == ws && blocks[..|blocks|] == blocks && contents[..|blocks|] == contents;
      ApplyConcat(e, hs, [Write(start, WithHeader(head, []))]);
      ApplyOne(Apply(e, hs), Write(start, WithHeader(head, [])));
      ApplyAt(e, d, hs, b);
    }
  }

  /** Block i of the commit is at its home after boot if and only if it was installed before
      the crash; a home block that is not listed is as it was. */
  lemma BootedAt(d: Disk, start: nat, blocks: seq<Uint>, contents: seq<Block>, k: nat, b: nat)
    requires CanCommit(d, start, blocks, contents) && k <= |CommitWrites(d, start, blocks, contents)|
    requires forall i, j :: 0 <= i < j < |blocks| ==> blocks[i] != blocks[j]
    requires IsHome(start, b) && b < |d|
    ensures var e := Boot(CommitPrefix(d, start, blocks, contents, k), start);
            && (b !in blocks ==> e[b] == d[b])
            && forall i :: 0 <= i < |blocks| && blocks[i] == b ==>
                 e[b] == if i < Installs(|blocks|, k) then contents[i] else d[b]
  {
    var j := Installs(|blocks|, k);
    assert Boot(CommitPrefix(d, start, blocks, contents, k), start) == CommitPrefix(d, start, blocks, contents, k);
    HomePrefix(d, start, blocks, contents, k, b);
    PartAt(d, blocks, contents, j, b);
  }

  /** The first j home writes, with distinct targets. */
  lemma PartAt(d: Disk, blocks: seq<Uint>, contents: seq<Block>, j: nat, b: nat)
    requires j <= |blocks| == |contents| && b < |d|
    requires forall i, k :: 0 <= i < k < |blocks| ==> blocks[i] != blocks[k]
    ensures var e := Apply(d, HomeWrites(blocks[..j], contents[..j]));
            && (b !in blocks ==> e[b] == d[b])
            && forall i :: 0 <= i < |blocks| && blocks[i] == b ==> e[b] == if i < j then contents[i] else d[b]
  {
    var some := blocks[..j];
    HomeWritesAt(d, some, contents[..j], b);
    forall i | 0 <= i < |blocks| && blocks[i] == b
      ensures if i < j then some[i] == b else b !in some
    {
    }
  }

  /** Boot as wired leaves the home blocks as before the commit if and only if what was
      installed before the crash was there already, and as after it if and only if what was
      not installed was; so it is atomic exactly when one of the two holds. */
  lemma BootIsAtomicIff(d: Disk, start: nat, blocks: seq<Uint>, contents: seq<Block>, k: nat)
    requires CanCommit(d, start, blocks, contents) && k <= |CommitWrites(d, start, blocks, contents)|
    requires forall i, j :: 0 <= i < j < |blocks| ==> blocks[i] != blocks[j]
    ensures var e, j := Boot(CommitPrefix(d, start, blocks, contents, k), start), Installs(|blocks|, k);
            && (HomeEq(start, e, d) <==> forall i :: 0 <= i < j ==> contents[i] == d[blocks[i]])
            && (HomeEq(start, e, Apply(d, HomeWrites(blocks, contents))) <==>
                  forall i :: j <= i < |blocks| ==> contents[i] == d[blocks[i]])
  {
    var e, j := Boot(CommitPrefix(d, start, blocks, contents, k), start), Installs(|blocks|, k);
    var new' := Apply(d, HomeWrites(blocks, contents));
    forall b | 0 <= b < |d| && IsHome(start, b)
      ensures b !in blocks ==> e[b] == d[b] == new'[b]
    {
      BootedAt(d, start, blocks, contents, k, b);
      HomeWritesAt(d, blocks, contents, b);
    }
    forall i | 0 <= i < |blocks|
      ensures new'[blocks[i]] == contents[i] && e[blocks[i]] == if i < j then contents[i] else d[blocks[i]]
    {
      BootedAt(d, start, blocks, contents, k, blocks[i]);
      HomeWritesAt(d, blocks, contents, blocks[i]);
    }
    BootedOld(d, e, start, blocks, contents, j);
    BootedNew(d, e, new', start, blocks, contents, j);
  }

  lemma BootedOld(d: Disk, e: Disk, start: nat, blocks: seq<Uint>, contents: seq<Block>, j: nat)
    requires |e| == |d| && j <= |blocks| == |contents|
    requires forall i :: 0 <= i < |blocks| ==> IsHome(start, blocks[i]) && blocks[i] < |d|
    requires forall b :: 0 <= b < |d| && IsHome(start, b) && b !in blocks ==> e[b] == d[b]
    requires forall i :: 0 <= i < |blocks| ==> e[blocks[i]] == if i < j then contents[i] else d[blocks[i]]
    ensures HomeEq(start, e, d) <==> forall i :: 0 <= i < j ==> contents[i] == d[blocks[i]]
  {
    if HomeEq(start, e, d) {
      forall i | 0 <= i < j
        ensures contents[i] == d[blocks[i]]
      {
        assert e[blocks[i]] == d[blocks[i]];
      }
    }
  }

  lemma BootedNew(d: Disk, e: Disk, new': Disk, start: nat, blocks: seq<Uint>, contents: seq<Block>, j: nat)
    requires |e| == |d| == |new'| && j <= |blocks| == |contents|
    requires forall i :: 0 <= i < |blocks| ==> IsHome(start, blocks[i]) && blocks[i] < |d|
    requires forall b :: 0 <= b < |d| && IsHome(start, b) && b !in blocks ==> e[b] == new'[b]
    requires forall i :: 0 <= i < |blocks| ==>
               new'[blocks[i]] == contents[i] && e[blocks[i]] == if i < j then contents[i] else d[blocks[i]]
    ensures HomeEq(start, e, new') <==> forall i :: j <= i < |blocks| ==> contents[i] == d[blocks[i]]
  {
    if HomeEq(start, e, new') {
      forall i | j <= i < |blocks|
        ensures contents[i] == d[blocks[i]]
      {
        assert e[blocks[i]] == new'[blocks[i]];
      }
    }
  }

  /** So a crash between two installs is visible after boot: two blocks were to
      change together, one has and one has not. */
  lemma BootCanExposeTornCommit() returns (d: Disk, start: nat, blocks: seq<Uint>, contents: seq<Block>, k: nat)
    ensures CanCommit(d, start, blocks, contents)
    ensures k <= |CommitWrites(d, start, blocks, contents)|
    ensures var e := Boot(CommitPrefix(d, start, blocks, contents, k), start);
            !HomeEq(start, e, d) && !HomeEq(start, e, Apply(d, HomeWrites(blocks, contents)))
  {
    var zero, one := ZeroBlock(), Block(ZeroBlock().bytes[0 := 1]);
    d := seq(40, _ => zero);
    start, blocks, contents, k := 2, [35, 36], [one, one], 4;
    WordOfZeroBlock(0);
    var ws := CommitWrites(d, start, blocks, contents);
    var homes := HomeWrites(blocks, contents);
    assert ws[..k] == ws[..3] + [Write(35, one)];
    ApplyConcat(d, ws[..3], [Write(35, one)]);
    assert forall i :: 0 <= i < 3 ==> ws[i].blockno < 35;
    assert !Targets(ws[..3], 36);
    ApplyAt(d, d, ws[..3], 36);
    var e := Apply(d, ws[..k]);
    assert Boot(e, start) == e;
    assert e[35] == one && e[36] == zero && one.bytes[0] != zero.bytes[0];
    assert homes == [Write(35, one)] + [Write(36, one)];
    ApplyConcat(d, [Write(35, one)], [Write(36, one)]);
    assert IsHome(start, 35) && IsHome(start, 36);
  }
}
