/** bio.c: the buffer cache. Buffers are numbered 0 .. NBUF - 1 and HEAD stands for the
    list head. */
module Bio {
  import opened Blocks

  const NBUF := 30
  const HEAD := NBUF

  datatype Buf = Buf(dev: nat, blockno: nat, refcnt: nat, valid: bool, data: Block)

  type Disk = map<(nat, nat), Block>

  function OnDisk(disk: Disk, dev: nat, blockno: nat): Block {
    if (dev, blockno) in disk then disk[(dev, blockno)] else ZeroBlock()
  }

  // The ring through next and prev, as the sequence of its elements from the head on.

  type Links = s: seq<nat> | |s| == NBUF + 1 witness seq(NBUF + 1, _ => 0)

  function After(c: seq<nat>, i: nat): nat
    requires i < |c|
  {
    if i + 1 < |c| then c[i + 1] else c[0]
  }

  ghost predicate Link(c: seq<nat>, next: Links, prev: Links, i: nat) {
    i < |c| ==> c[i] <= HEAD && After(c, i) <= HEAD && next[c[i]] == After(c, i) && prev[After(c, i)] == c[i]
  }

  /** c is the whole ring, each element once, beginning with the head. */
  ghost predicate Ring(c: seq<nat>, next: Links, prev: Links) {
    && c != [] && c[0] == HEAD
    && (forall i :: Link(c, next, prev, i))
    && (forall i, j :: 0 <= i < j < |c| ==> c[i] != c[j])
  }

  /** Every buffer is in the ring. */
  ghost predicate Complete(c: seq<nat>) {
    |c| == NBUF + 1 && forall b :: 0 <= b <= HEAD ==> b in c
  }

  function Without(c: seq<nat>, i: nat): seq<nat>
    requires i < |c|
  {
    c[..i] + c[i + 1..]
  }

  function PushFront(c: seq<nat>, b: nat): seq<nat>
    requires c != []
  {
    [c[0], b] + c[1..]
  }

  lemma UnlinkRing(c: seq<nat>, next: Links, prev: Links, i: nat)
    requires Ring(c, next, prev) && 0 < i < |c|
    ensures var b := c[i];
            && b < HEAD && next[b] <= HEAD && prev[b] <= HEAD
            && Ring(Without(c, i), next[prev[b] := next[b]], prev[next[b] := prev[b]])
            && b !in Without(c, i)
  {
    var b, d := c[i], Without(c, i);
    assert Link(c, next, prev, i) && Link(c, next, prev, i - 1);
    var next', prev' := next[prev[b] := next[b]], prev[next[b] := prev[b]];
    forall k: nat
      ensures Link(d, next', prev', k)
    {
      if k < |d| {
        var j := if k < i then k else k + 1;
        assert Link(c, next, prev, j);
        assert d[k] == c[j];
      }
    }
  }

  lemma PushRing(c: seq<nat>, next: Links, prev: Links, b: nat)
    requires Ring(c, next, prev) && b < HEAD && b !in c
    ensures next[HEAD] <= HEAD
    ensures Ring(PushFront(c, b), next[b := next[HEAD]][HEAD := b], prev[b := HEAD][next[HEAD] := b])
  {
    var d := PushFront(c, b);
    assert Link(c, next, prev, 0);
    var next', prev' := next[b := next[HEAD]][HEAD := b], prev[b := HEAD][next[HEAD] := b];
    forall k: nat
      ensures Link(d, next', prev', k)
    {
      if 2 <= k < |d| {
        assert Link(c, next, prev, k - 1);
        assert d[k] == c[k - 1] && c[0] != c[k - 1];
        assert After(d, k) == After(c, k - 1);
        assert After(d, k) != c[1];
      }
    }
  }

  lemma PushMembers(c: seq<nat>, b: nat, x: nat)
    requires c != []
    ensures x in PushFront(c, b) <==> x in c || x == b
  {
    if x in c {
      var i :| 0 <= i < |c| && c[i] == x;
      assert PushFront(c, b)[if i == 0 then 0 else i + 1] == x;
    }
    assert PushFront(c, b)[1] == b;
  }

  lemma WithoutMembers(c: seq<nat>, i: nat, x: nat)
    requires i < |c| && x in c && x != c[i]
    ensures x in Without(c, i)
  {
    var k :| 0 <= k < |c| && c[k] == x;
    assert Without(c, i)[if k < i then k else k - 1] == x;
  }

  /** Moving a buffer to the front loses none. */
  lemma StaysComplete(c: seq<nat>, i: nat)
    requires Complete(c) && 0 < i < |c|
    ensures Complete(PushFront(Without(c, i), c[i]))
  {
    forall x: nat | x <= HEAD
      ensures x in PushFront(Without(c, i), c[i])
    {
      PushMembers(Without(c, i), c[i], x);
      if x != c[i] {
        WithoutMembers(c, i, x);
      }
    }
  }

  // What the cache stands for.

  predicate Mine(x: Buf, dev: nat, blockno: nat) {
    x.dev == dev && x.blockno == blockno
  }

  /** Buffer i holds the contents of the block. */
  predicate CachedAt(bufs: seq<Buf>, i: int, dev: nat, blockno: nat) {
    0 <= i < |bufs| && bufs[i].valid && Mine(bufs[i], dev, blockno)
  }

  /** A block of a real device has at most one buffer. */
  ghost predicate Unique(bufs: seq<Buf>) {
    forall i, j ::
      0 <= i < |bufs| && 0 <= j < |bufs| && bufs[i].dev != 0 && Mine(bufs[j], bufs[i].dev, bufs[i].blockno) ==> i == j
  }

  /** A buffer that nobody refers to can be thrown away. */
  predicate Clean(x: Buf, disk: Disk) {
    x.refcnt == 0 && x.valid ==> x.data == OnDisk(disk, x.dev, x.blockno)
  }

  /** The contents of a block as seen through the cache. */
  ghost function View(bufs: seq<Buf>, disk: Disk, dev: nat, blockno: nat): Block {
    if exists i :: CachedAt(bufs, i, dev, blockno)
    then
      var i :| CachedAt(bufs, i, dev, blockno);
      bufs[i].data
    else OnDisk(disk, dev, blockno)
  }

  lemma ViewCached(bufs: seq<Buf>, disk: Disk, i: nat)
    requires Unique(bufs) && i < |bufs| && bufs[i].valid && bufs[i].dev != 0
    ensures View(bufs, disk, bufs[i].dev, bufs[i].blockno) == bufs[i].data
  {
    assert CachedAt(bufs, i, bufs[i].dev, bufs[i].blockno);
  }

  ghost predicate SameView(bufs: seq<Buf>, disk: Disk, bufs': seq<Buf>, disk': Disk) {
    forall d: nat, n: nat :: d != 0 ==> View(bufs', disk', d, n) == View(bufs, disk, d, n)
  }

  /** A change to buffer b that keeps its block and contents. */
  lemma SameContents(bufs: seq<Buf>, disk: Disk, b: nat, x: Buf)
    requires Unique(bufs) && b < |bufs| && x.dev == bufs[b].dev && x.blockno == bufs[b].blockno
    requires x.valid == bufs[b].valid && x.data == bufs[b].data
    ensures Unique(bufs[b := x]) && SameView(bufs, disk, bufs[b := x], disk)
  {
    var bufs' := bufs[b := x];
    forall d: nat, n: nat | d != 0
      ensures View(bufs', disk, d, n) == View(bufs, disk, d, n)
    {
      if i :| CachedAt(bufs, i, d, n) {
        assert CachedAt(bufs', i, d, n);
      } else {
        assert forall i :: CachedAt(bufs', i, d, n) ==> CachedAt(bufs, i, d, n);
      }
    }
  }

  /** Recycling a buffer for a block that is not cached: its old block is seen as it is on
      disk, every other block as before. */
  lemma Recycled(bufs: seq<Buf>, disk: Disk, b: nat, dev: nat, blockno: nat, d: nat, n: nat)
    requires Unique(bufs) && b < |bufs| && d != 0
    requires forall i :: 0 <= i < |bufs| ==> !Mine(bufs[i], dev, blockno)
    ensures var bufs' := bufs[b := Buf(dev, blockno, 1, false, bufs[b].data)];
            Unique(bufs') && View(bufs', disk, d, n) == if Mine(bufs[b], d, n) then OnDisk(disk, d, n)
                                                        else View(bufs, disk, d, n)
  {
    var bufs' := bufs[b := Buf(dev, blockno, 1, false, bufs[b].data)];
    if i :| CachedAt(bufs, i, d, n) {
      if i != b {
        assert CachedAt(bufs', i, d, n);
      } else {
        assert forall j :: !CachedAt(bufs', j, d, n);
      }
    } else {
      assert forall i :: CachedAt(bufs', i, d, n) ==> CachedAt(bufs, i, d, n);
    }
  }

  /** So nothing looks different exactly when the buffer can be thrown away. */
  lemma RecycledClean(bufs: seq<Buf>, disk: Disk, b: nat, dev: nat, blockno: nat)
    requires Unique(bufs) && b < |bufs| && bufs[b].refcnt == 0
    requires forall i :: 0 <= i < |bufs| ==> !Mine(bufs[i], dev, blockno)
    ensures var bufs' := bufs[b := Buf(dev, blockno, 1, false, bufs[b].data)];
            Unique(bufs') && (SameView(bufs, disk, bufs', disk) <==> bufs[b].dev == 0 || Clean(bufs[b], disk))
  {
    var bufs' := bufs[b := Buf(dev, blockno, 1, false, bufs[b].data)];
    if bufs[b].dev != 0 && bufs[b].valid {
      ViewCached(bufs, disk, b);
      Recycled(bufs, disk, b, dev, blockno, bufs[b].dev, bufs[b].blockno);
    }
    if bufs[b].dev == 0 || Clean(bufs[b], disk) {
      forall d: nat, n: nat | d != 0
        ensures View(bufs', disk, d, n) == View(bufs, disk, d, n)
      {
        Recycled(bufs, disk, b, dev, blockno, d, n);
        if Mine(bufs[b], d, n) {
          assert forall i :: CachedAt(bufs, i, d, n) ==> i == b;
        }
      }
    }
  }

  /** Reading a block in. */
  lemma Filled(bufs: seq<Buf>, disk: Disk, b: nat)
    requires Unique(bufs) && b < |bufs| && !bufs[b].valid
    ensures var bufs' := bufs[b := bufs[b].(valid := true, data := OnDisk(disk, bufs[b].dev, bufs[b].blockno))];
            Unique(bufs') && SameView(bufs, disk, bufs', disk)
  {
    var bufs' := bufs[b := bufs[b].(valid := true, data := OnDisk(disk, bufs[b].dev, bufs[b].blockno))];
    forall d: nat, n: nat | d != 0
      ensures View(bufs', disk, d, n) == View(bufs, disk, d, n)
    {
      if i :| CachedAt(bufs, i, d, n) {
        assert CachedAt(bufs', i, d, n);
      } else if Mine(bufs[b], d, n) {
        assert CachedAt(bufs', b, d, n);
      } else {
        assert forall i :: CachedAt(bufs', i, d, n) ==> CachedAt(bufs, i, d, n);
      }
    }
  }

  /** Writing a block out, or storing into its buffer, shows the buffer's contents there and
      nothing else anywhere else. */
  lemma Stored(bufs: seq<Buf>, disk: Disk, b: nat, data: Block, disk': Disk)
    requires Unique(bufs) && b < |bufs| && bufs[b].valid && bufs[b].dev != 0
    requires disk' == disk || disk' == disk[(bufs[b].dev, bufs[b].blockno) := data]
    ensures var bufs' := bufs[b := bufs[b].(data := data)];
            && Unique(bufs')
            && forall d: nat, n: nat :: d != 0 ==>
                 View(bufs', disk', d, n) == if Mine(bufs[b], d, n) then data else View(bufs, disk, d, n)
  {
    var bufs' := bufs[b := bufs[b].(data := data)];
    forall d: nat, n: nat | d != 0
      ensures View(bufs', disk', d, n) == if Mine(bufs[b], d, n) then data else View(bufs, disk, d, n)
    {
      if Mine(bufs[b], d, n) {
        ViewCached(bufs', disk', b);
      } else if i :| CachedAt(bufs, i, d, n) {
        assert CachedAt(bufs', i, d, n);
      } else {
        assert forall i :: CachedAt(bufs', i, d, n) ==> CachedAt(bufs, i, d, n);
      }
    }
  }

  lemma InRing(c: seq<nat>, next: Links, prev: Links, b: nat) returns (i: nat)
    requires Ring(c, next, prev) && Complete(c) && b < HEAD
    ensures 0 < i < |c| && c[i] == b
  {
    assert b in c;
    i :| 0 <= i < |c| && c[i] == b;
  }

  class Cache {
    var next: Links
    var prev: Links
    var bufs: seq<Buf>
    var disk: Disk
    ghost var ring: seq<nat>
    // The buffers whose sleep lock is held.
    var held: set<nat>

    ghost predicate Valid()
      reads this
    {
      && |bufs| == NBUF && Ring(ring, next, prev) && Complete(ring) && Unique(bufs)
      && forall b :: b in held ==> b < NBUF && bufs[b].refcnt > 0
    }

    /** No change would be lost by recycling. */
    ghost predicate Tidy()
      reads this
    {
      forall b :: 0 <= b < |bufs| ==> Clean(bufs[b], disk)
    }

    /** binit: all buffers in the ring, the last one first. */
    constructor (disk0: Disk)
      ensures Valid() && Tidy() && disk == disk0 && held == {}
      ensures forall b :: 0 <= b < NBUF ==> bufs[b] == Buf(0, 0, 0, false, ZeroBlock())
    {
      next, prev := seq(NBUF + 1, _ => HEAD), seq(NBUF + 1, _ => HEAD);
      bufs := seq(NBUF, _ => Buf(0, 0, 0, false, ZeroBlock()));
      disk := disk0;
      ring, held := [HEAD], {};
      new;
      var b := 0;
      while b < NBUF
        invariant 0 <= b <= NBUF && |ring| == b + 1 && Ring(ring, next, prev)
        invariant forall x: nat :: x in ring <==> x == HEAD || x < b
        invariant bufs == seq(NBUF, _ => Buf(0, 0, 0, false, ZeroBlock())) && disk == disk0 && held == {}
      {
        PushRing(ring, next, prev, b);
        next := next[b := next[HEAD]];
        prev := prev[b := HEAD];
        prev := prev[next[HEAD] := b];
        next := next[HEAD := b];
        forall x: nat
          ensures x in PushFront(ring, b) <==> x == HEAD || x <= b
        {
          PushMembers(ring, b, x);
        }
        ring := PushFront(ring, b);
        b := b + 1;
      }
    }

    /** The first loop of bget, from the front: the buffer that caches the block, or HEAD. */
    method FindCached(dev: nat, blockno: nat) returns (b: nat)
      requires Valid()
      ensures b < HEAD ==> Mine(bufs[b], dev, blockno)
      ensures b >= HEAD ==> b == HEAD && forall i :: 0 <= i < NBUF ==> !Mine(bufs[i], dev, blockno)
    {
      assert Link(ring, next, prev, 0);
      b := next[HEAD];
      ghost var i := 1;
      while b != HEAD
        invariant 1 <= i <= |ring| && b == (if i < |ring| then ring[i] else HEAD)
        invariant forall j :: 1 <= j < i ==> ring[j] < HEAD && !Mine(bufs[ring[j]], dev, blockno)
        decreases |ring| - i
      {
        assert Link(ring, next, prev, i);
        if bufs[b].dev == dev && bufs[b].blockno == blockno {
          return;
        }
        b, i := next[b], i + 1;
      }
      forall x | 0 <= x < NBUF
        ensures !Mine(bufs[x], dev, blockno)
      {
        var k := InRing(ring, next, prev, x);
      }
    }

    /** The second loop of bget, from the back: the least recently used buffer that is not in
        use, or HEAD. */
    method FindUnused() returns (b: nat)
      requires Valid()
      ensures b < HEAD ==> bufs[b].refcnt == 0
      ensures b < HEAD ==>
                exists k :: 0 < k < |ring| && ring[k] == b && forall j :: k < j < |ring| ==>
                      ring[j] < NBUF && bufs[ring[j]].refcnt > 0
      ensures b >= HEAD ==> b == HEAD && forall i :: 0 <= i < NBUF ==> bufs[i].refcnt > 0
    {
      assert Link(ring, next, prev, |ring| - 1);
      b := prev[HEAD];
      ghost var i := |ring| - 1;
      while b != HEAD
        invariant 0 <= i < |ring| && b == ring[i]
        invariant forall j :: i < j < |ring| ==> ring[j] < HEAD && bufs[ring[j]].refcnt > 0
        decreases i
      {
        assert Link(ring, next, prev, i - 1);
        if bufs[b].refcnt == 0 {
          return;
        }
        b, i := prev[b], i - 1;
      }
      forall x | 0 <= x < NBUF
        ensures bufs[x].refcnt > 0
      {
        var k := InRing(ring, next, prev, x);
      }
    }

    /** The part of bget under bcache.lock: a buffer for the block, counted as in use. */
    method Bget(dev: nat, blockno: nat) returns (b: nat, panic: bool)
      requires Valid()
      modifies this`bufs
      ensures panic <==> forall i :: 0 <= i < NBUF ==> !Mine(old(bufs)[i], dev, blockno) && old(bufs)[i].refcnt > 0
      ensures panic ==> bufs == old(bufs)
      ensures !panic ==> Valid() && b < NBUF && (old(Tidy()) ==> Tidy())
      ensures !panic ==> (SameView(old(bufs), disk, bufs, disk) <==>
                          Mine(old(bufs)[b], dev, blockno) || old(bufs)[b].dev == 0 || Clean(old(bufs)[b], disk))
      ensures !panic && dev != 0 ==> View(bufs, disk, dev, blockno) == View(old(bufs), disk, dev, blockno)
      ensures !panic ==>
                if Mine(old(bufs)[b], dev, blockno)
                then bufs == old(bufs)[b := old(bufs)[b].(refcnt := old(bufs)[b].refcnt + 1)]
                else && old(bufs)[b].refcnt == 0 && b !in held
                     && bufs == old(bufs)[b := Buf(dev, blockno, 1, false, old(bufs)[b].data)]
                     && (forall i :: 0 <= i < NBUF ==> !Mine(old(bufs)[i], dev, blockno))
                     && exists k :: 0 < k < |ring| && ring[k] == b && forall j :: k < j < |ring| ==>
                           ring[j] < NBUF && old(bufs)[ring[j]].refcnt > 0
    {
      panic := false;
      b := FindCached(dev, blockno);
      if b != HEAD {
        SameContents(bufs, disk, b, bufs[b].(refcnt := bufs[b].refcnt + 1));
        bufs := bufs[b := bufs[b].(refcnt := bufs[b].refcnt + 1)];
        return;
      }
      b := FindUnused();
      if b == HEAD {
        return 0, true;
      }
      RecycledClean(bufs, disk, b, dev, blockno);
      if dev != 0 {
        Recycled(bufs, disk, b, dev, blockno, dev, blockno);
      }
      bufs := bufs[b := Buf(dev, blockno, 1, false, bufs[b].data)];
    }

    /** A locked buffer with the contents of the block; or, when another process has it
        locked, `waits`: the caller has its reference and goes to sleep in acquiresleep. */
    method Bread(dev: nat, blockno: nat) returns (b: nat, panic: bool, waits: bool)
      requires Valid()
      modifies this`bufs, this`held
      ensures panic <==> forall i :: 0 <= i < NBUF ==> !Mine(old(bufs)[i], dev, blockno) && old(bufs)[i].refcnt > 0
      ensures waits <==> !panic && b in old(held)
      ensures waits ==> Valid() && held == old(held) && Mine(old(bufs)[b], dev, blockno)
                        && bufs == old(bufs)[b := old(bufs)[b].(refcnt := old(bufs)[b].refcnt + 1)]
      ensures !panic ==> b < NBUF && (old(Tidy()) ==> Tidy() && SameView(old(bufs), disk, bufs, disk))
      ensures !panic && !waits ==> Valid() && held == old(held) + {b} && Mine(bufs[b], dev, blockno) && bufs[b].valid
      ensures !panic && !waits && dev != 0 ==> bufs[b].data == View(old(bufs), disk, dev, blockno)
    {
      waits := false;
      b, panic := Bget(dev, blockno);
      if panic {
        return;
      }
      if b in held {
        return b, false, true;
      }
      held := held + {b};
      Fetch(b);
      if dev != 0 {
        ViewCached(bufs, disk, b);
      }
    }

    /** bread reads a locked buffer from the disk unless it is valid. */
    method Fetch(b: nat)
      requires Valid() && b in held
      modifies this`bufs
      ensures Valid() && (old(Tidy()) ==> Tidy()) && SameView(old(bufs), disk, bufs, disk)
      ensures b < NBUF && bufs == old(bufs)[b := bufs[b]] && bufs[b].valid
      ensures bufs[b].dev == old(bufs)[b].dev && bufs[b].blockno == old(bufs)[b].blockno
    {
      if !bufs[b].valid {
        Filled(bufs, disk, b);
        bufs := bufs[b := bufs[b].(data := OnDisk(disk, bufs[b].dev, bufs[b].blockno))];
        bufs := bufs[b := bufs[b].(valid := true)];
        assert bufs == old(bufs)[b := old(bufs)[b].(valid := true, data := bufs[b].data)];
      }
    }

    /** The client stores into a buffer that it has locked. */
    method Store(b: nat, data: Block)
      requires Valid() && b in held && bufs[b].valid && bufs[b].dev != 0
      modifies this`bufs
      ensures Valid() && (old(Tidy()) ==> Tidy()) && bufs == old(bufs)[b := old(bufs)[b].(data := data)]
      ensures forall d: nat, n: nat :: d != 0 ==>
                View(bufs, disk, d, n) == if Mine(bufs[b], d, n) then data else View(old(bufs), disk, d, n)
    {
      Stored(bufs, disk, b, data, disk);
      bufs := bufs[b := bufs[b].(data := data)];
    }

    /** Write a locked buffer to disk; on one that is not locked, panic. */
    method Bwrite(b: nat) returns (panic: bool)
      requires Valid() && (b in held ==> bufs[b].valid && bufs[b].dev != 0)
      modifies this`disk
      ensures panic <==> b !in held
      ensures panic ==> disk == old(disk)
      ensures !panic ==> disk == old(disk)[(bufs[b].dev, bufs[b].blockno) := bufs[b].data]
      ensures Valid() && (old(Tidy()) ==> Tidy()) && SameView(bufs, old(disk), bufs, disk)
    {
      if b !in held {
        return true;
      }
      ghost var disk' := disk[(bufs[b].dev, bufs[b].blockno) := bufs[b].data];
      Stored(bufs, disk, b, bufs[b].data, disk');
      assert bufs[b := bufs[b].(data := bufs[b].data)] == bufs;
      ViewCached(bufs, disk, b);
      disk := disk[(bufs[b].dev, bufs[b].blockno) := bufs[b].data];
      forall i | 0 <= i < NBUF && Clean(bufs[i], old(disk))
        ensures Clean(bufs[i], disk)
      {
      }
      return false;
    }

    /** Release a locked buffer; the last reference moves it to the front of the list. A change
        that is neither written nor pinned can be lost from then on. */
    method Brelse(b: nat) returns (panic: bool)
      requires Valid()
      modifies this`bufs, this`held, this`next, this`prev, this`ring
      ensures panic <==> b !in old(held)
      ensures panic ==> bufs == old(bufs) && held == old(held) && ring == old(ring)
      ensures !panic ==>
                bufs == old(bufs)[b := old(bufs)[b].(refcnt := old(bufs)[b].refcnt - 1)] && held == old(held) - {b}
      ensures Valid() && SameView(old(bufs), disk, bufs, disk)
      ensures old(Tidy()) ==> (Tidy() <==> panic || Clean(bufs[b], disk))
      ensures !panic ==> if bufs[b].refcnt > 0 then ring == old(ring)
                         else
                           exists i ::
                             0 < i < |old(ring)| && old(ring)[i] == b && ring == PushFront(Without(old(ring), i), b)
    {
      if b !in held {
        SameContents(bufs, disk, 0, bufs[0]);
        assert bufs[0 := bufs[0]] == bufs;
        return true;
      }
      held := held - {b};
      SameContents(bufs, disk, b, bufs[b].(refcnt := bufs[b].refcnt - 1));
      bufs := bufs[b := bufs[b].(refcnt := bufs[b].refcnt - 1)];
      if bufs[b].refcnt == 0 {
        MoveToFront(b);
      }
      return false;
    }

    /** Unlink buffer b and put it behind the head. */
    method MoveToFront(b: nat)
      requires Ring(ring, next, prev) && Complete(ring) && b < HEAD
      modifies this`next, this`prev, this`ring
      ensures Ring(ring, next, prev) && Complete(ring)
      ensures exists i :: 0 < i < |old(ring)| && old(ring)[i] == b && ring == PushFront(Without(old(ring), i), b)
    {
      ghost var i := InRing(ring, next, prev, b);
      UnlinkRing(ring, next, prev, i);
      StaysComplete(ring, i);
      ghost var c := Without(ring, i);
      prev := prev[next[b] := prev[b]];
      next := next[prev[b] := next[b]];
      PushRing(c, next, prev, b);
      next := next[b := next[HEAD]];
      prev := prev[b := HEAD];
      prev := prev[next[HEAD] := b];
      next := next[HEAD := b];
      ring := PushFront(c, b);
    }

    method Bpin(b: nat)
      requires Valid() && b < NBUF
      modifies this`bufs
      ensures Valid() && bufs == old(bufs)[b := old(bufs)[b].(refcnt := old(bufs)[b].refcnt + 1)]
      ensures SameView(old(bufs), disk, bufs, disk) && (old(Tidy()) ==> Tidy())
    {
      SameContents(bufs, disk, b, bufs[b].(refcnt := bufs[b].refcnt + 1));
      bufs := bufs[b := bufs[b].(refcnt := bufs[b].refcnt + 1)];
    }

    /** Undo a pin. */
    method Bunpin(b: nat)
      requires Valid() && b < NBUF && bufs[b].refcnt > (if b in held then 1 else 0)
      modifies this`bufs
      ensures Valid() && bufs == old(bufs)[b := old(bufs)[b].(refcnt := old(bufs)[b].refcnt - 1)]
      ensures SameView(old(bufs), disk, bufs, disk) && (old(Tidy()) ==> (Tidy() <==> Clean(bufs[b], disk)))
    {
      SameContents(bufs, disk, b, bufs[b].(refcnt := bufs[b].refcnt - 1));
      bufs := bufs[b := bufs[b].(refcnt := bufs[b].refcnt - 1)];
    }
  }
}
