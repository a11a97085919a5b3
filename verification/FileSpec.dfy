/** What the file system's methods are proved against: the log of an operation, the rounds of
    a write and of a truncation, and what both do to file contents. */
module FileSpec {
  import opened Blocks
  import opened FsState
  import opened FileIO
  import Wal

  lemma BlockCoordinate(q: nat, base: nat, bi: nat)
    requires base == q * BPB && bi < BPB
    ensures (base + bi) / BPB == q && (base + bi) % BPB == bi
  {
  }

  /** bi counted inside one bitmap block is the bit of block base + bi. */
  lemma BitInBlock(sb: Super, blocks: seq<Block>, base: nat, bi: nat, q: nat)
    requires SuperOk(sb) && |blocks| == sb.size && base == q * BPB && bi < BPB && base + bi < sb.size
    ensures BBlock(sb, base) == BBlock(sb, base + bi) < |blocks|
    ensures bi / 8 == (base + bi) % BPB / 8 < BSIZE && bi % 8 == (base + bi) % 8
    ensures Bit(sb, blocks, base + bi) == BitOf(blocks[BBlock(sb, base)].bytes[bi / 8], bi % 8)
  {
    BitmapBlockOk(sb, base + bi);
    BlockCoordinate(q, base, bi);
    BlockCoordinate(q, base, 0);
    ByteCoordinate(q, base, bi);
  }

  /** The log grew by some log_writes, all of blocks in `among`. */
  predicate Logs(before: seq<nat>, after: seq<nat>, among: set<nat>) {
    before <= after && forall j :: |before| <= j < |after| ==> after[j] in among
  }

  lemma LogsThree(log: seq<nat>, a: nat, b: nat, c: nat)
    ensures Logs(log, log + [a, b, c], {b, c} + {a})
  {
  }

  /** What a step of bmap on inode i leaves alone, and how it extends the rest. `bm`
      holds the bitmap blocks touched, at most n of them. */
  ghost predicate Grew(sb: Super, i: nat, st: Store, log: seq<nat>, st': Store, log': seq<nat>,
                       among: set<nat>, bm: set<nat>, n: nat)
  {
    && Sized(sb, st) && Sized(sb, st') && Extends(sb, st, st')
    && (forall j :: 0 <= j < |st.inodes| && j != i ==> st'.inodes[j] == st.inodes[j])
    && Logs(log, log', among + bm) && |bm| <= n
  }

  lemma GrewNone(sb: Super, i: nat, st: Store, log: seq<nat>, among: set<nat>, n: nat)
    requires Sized(sb, st)
    ensures Grew(sb, i, st, log, st, log, among, {}, n)
  {
  }

  lemma GrewEntry(sb: Super, i: nat, st: Store, log: seq<nat>, st': Store, log': seq<nat>, bb: nat, addr: nat, ind: nat)
    requires Sized(sb, st) && Sized(sb, st') && Extends(sb, st, st') && st'.inodes == st.inodes
             && log' == log + [bb, addr, ind]
    ensures Grew(sb, i, st, log, st', log', {addr, ind}, {bb}, 1)
  {
    LogsThree(log, bb, addr, ind);
  }

  lemma GrewTwice(sb: Super, i: nat, st0: Store, log0: seq<nat>, st1: Store, log1: seq<nat>, st2: Store, log2: seq<nat>,
                  ind: nat, addr: nat, bm1: set<nat>, bm2: set<nat>, n1: nat, n2: nat)
    requires Grew(sb, i, st0, log0, st1, log1, {ind}, bm1, n1)
             && Grew(sb, i, st1, log1, st2, log2, {addr, ind}, bm2, n2)
    ensures Grew(sb, i, st0, log0, st2, log2, {addr} + {ind}, bm1 + bm2, n1 + n2)
  {
    ExtendsTransitive(sb, st0, st1, st2);
    LogsMore(log0, log1, log2, {ind} + bm1, {addr, ind} + bm2);
    assert {ind} + bm1 + ({addr, ind} + bm2) == {addr} + {ind} + (bm1 + bm2);
    UnionSize(bm1, bm2);
  }

  /** Inode i has lost its addresses below k; nothing else happened to the inodes. */
  ghost predicate CutBelow(st: Store, st': Store, i: nat, k: nat) {
    && |st'.inodes| == |st.inodes| && i < |st.inodes| && |st'.inodes[i].addrs| == |st.inodes[i].addrs| == NDIRECT + 1
    && (forall j :: 0 <= j < |st.inodes| && j != i ==> st'.inodes[j] == st.inodes[j])
    && st'.inodes[i].size == st.inodes[i].size && SameKind(st.inodes[i], st'.inodes[i])
    && forall l :: 0 <= l <= NDIRECT ==> st'.inodes[i].addrs[l] == if l < k then 0 else st.inodes[i].addrs[l]
  }

  lemma CutNext(st: Store, st1: Store, st2: Store, i: nat, k: nat)
    requires CutBelow(st, st1, i, k) && k <= NDIRECT
    requires st2.inodes == st1.inodes[i := st1.inodes[i].(addrs := st1.inodes[i].addrs[k := 0])]
    ensures CutBelow(st, st2, i, k + 1)
  {
  }

  /** The first k direct blocks of inode i have been freed, bs in this order. */
  ghost predicate TruncedTo(sb: Super, st0: Store, own0: Owners, log0: seq<nat>, st: Store, owner: Owners,
                            log: seq<nat>, bs: seq<nat>, i: nat, k: nat)
  {
    && Ok(sb, st0, own0, {}) && OkCut(sb, st, owner, i) && CutBelow(st0, st, i, k)
    && OnlyBitmap(sb, st0.blocks, st.blocks)
    && owner == Without(own0, i, k) && FreedKeys(sb, log0, log, bs, own0, owner)
  }

  ghost predicate Truncated(sb: Super, st0: Store, own0: Owners, log0: seq<nat>, st: Store, owner: Owners,
                            log: seq<nat>, i: nat, k: nat)
  {
    exists bs :: TruncedTo(sb, st0, own0, log0, st, owner, log, bs, i, k)
  }

  ghost predicate OkCut(sb: Super, st: Store, owner: Owners, i: nat) {
    Sized(sb, st) && i < |st.inodes| && Ok(sb, SetSize(st, i, 0), owner, {})
  }

  ghost predicate FreedKeys(sb: Super, log0: seq<nat>, log: seq<nat>, bs: seq<nat>, own0: Owners, owner: Owners) {
    owner.Keys <= own0.Keys && Frees(sb, log0, log, bs, own0.Keys - owner.Keys)
  }

  lemma TruncStart(sb: Super, st: Store, owner: Owners, log: seq<nat>, i: nat)
    requires Ok(sb, st, owner, {}) && i < |st.inodes|
    ensures Truncated(sb, st, owner, log, st, owner, log, i, 0)
  {
    SetSizeKeeps(sb, st, owner, {}, i, 0);
    assert owner == Without(owner, i, 0);
    assert TruncedTo(sb, st, owner, log, st, owner, log, [], i, 0);
  }

  /** filewrite splits a write into transactions of at most this many bytes. */
  const MAX_WRITE := (Wal.MAXOPBLOCKS - 1 - 1 - 2) / 2 * BSIZE

  /** The data block and, past the direct blocks, the indirect block. */
  function Touched(addr: nat, bn: nat, ind: nat): set<nat> {
    {addr} + if bn < NDIRECT then {} else {ind}
  }

  function Min(a: nat, b: nat): nat {
    if a < b then a else b
  }

  /** How much of the n remaining bytes fits in the block at offset off. */
  function Piece(off: nat, n: nat): nat {
    Min(n, BSIZE - off % BSIZE)
  }

  /** The disk is full, or only part of the next m bytes could be read. */
  predicate Halts(full: bool, stored: nat, readable: nat, tot: nat, m: nat, torn: nat) {
    (full && torn == 0) || (tot <= readable < tot + m && torn == Min(stored, readable - tot))
  }

  /** How many of n bytes written at off count, when the first `readable` can be read: the
      last block boundary before that, or all. */
  function Boundary(off: nat, n: nat, readable: nat): (b: nat)
    ensures b <= n && b <= readable
  {
    if n <= readable then n
    else if (off + readable) / BSIZE * BSIZE <= off then 0
    else (off + readable) / BSIZE * BSIZE - off
  }

  predicate IsBoundary(off: nat, n: nat, readable: nat, b: nat) {
    b == Boundary(off, n, readable)
  }

  /** A write of n bytes at off in a file of the given size ends short, after tot bytes: past
      the end of the file no block is left, or the source cannot be read any further. */
  ghost predicate Ends(full: bool, size: nat, stored: nat, readable: nat, off: nat, n: nat, tot: nat, torn: nat) {
    forall b: nat :: IsBoundary(off, n, readable, b) ==>
      || (full && torn == 0 && off + tot >= size && tot <= b)
      || (readable < n && tot == b && torn == Min(stored, readable - b))
  }

  lemma HaltsAtBoundary(full: bool, size: nat, stored: nat, readable: nat, off: nat, n: nat, tot: nat, torn: nat,
                        t: nat, m: nat)
    requires tot < n && tot <= readable && Round(off, n, tot, t) && m == Piece(off + tot, n - tot)
    requires Halts(full && off + tot >= size, stored, readable, tot, m, torn)
    ensures Ends(full, size, stored, readable, off, n, tot, torn)
  {
    var b := Boundary(off, n, readable);
    var q := (off + readable) / BSIZE;
    assert tot == 0 || off + tot == (off / BSIZE + t) * BSIZE;
    if tot > 0 {
      assert off / BSIZE + t <= q;
    }
    assert tot <= b;
    if readable < tot + Piece(off + tot, n - tot) {
      assert off + readable < (off + tot) / BSIZE * BSIZE + BSIZE;
      assert q == (off + tot) / BSIZE;
    }
  }

  /** A byte of file f past those that count, which a copy that fails changes: it can be read,
      and lies in the block of the copy, in the file. */
  predicate TornByte(f: seq<Byte>, off: nat, src: seq<Byte>, stored: nat, readable: nat, o: nat) {
    && readable < |src| && o < |f|
    && var b := Boundary(off, |src|, readable);
    && off + b <= o < off + b + Min(stored, readable - b) && f[o] != src[o - off]
  }

  ghost predicate Untorn(f: seq<Byte>, off: nat, src: seq<Byte>, stored: nat, readable: nat) {
    forall o :: !TornByte(f, off, src, stored, readable, o)
  }

  /** What a write leaves is the file overwritten with exactly the r bytes it reports if and only
      if no byte is torn: a condition on the file and the arguments alone, since past the end of
      the file, where the disk can be full, nothing shows. */
  lemma TornIff(f: seq<Byte>, off: nat, src: seq<Byte>, stored: nat, readable: nat, full: bool, r: nat, torn: nat)
    requires off <= |f| && r + torn <= |src| && r <= readable
    requires if r < |src| then Ends(full, |f|, stored, readable, off, |src|, r, torn) else torn == 0
    ensures Landed(f, off, src, r, torn) == Overwrite(f, off, src[..r]) <==> Untorn(f, off, src, stored, readable)
  {
    LandedIff(f, off, src, r, torn);
    var b := Boundary(off, |src|, readable);
    assert IsBoundary(off, |src|, readable, b);
    if Untorn(f, off, src, stored, readable) {
      forall o | off + r <= o < off + r + torn && o < |f|
        ensures f[o] == src[o - off]
      {
        assert !TornByte(f, off, src, stored, readable, o);
      }
    }
  }

  /** A write of two bytes, the second of which cannot be read: it reports 0 bytes and changes one. */
  lemma TornWrite()
    ensures Boundary(0, 2, 1) == 0 && Ends(false, 2, 1, 1, 0, 2, 0, 1) && TornOff(1, 1, 2, 0, 1)
    ensures Landed([1, 1], 0, [2, 3], 0, 1) == [2, 1] && Overwrite([1, 1], 0, [2, 3][..0]) == [1, 1]
    ensures !Untorn([1, 1], 0, [2, 3], 1, 1)
  {
    assert Landed([1, 1], 0, [2, 3], 0, 1)[0] == 2;
    assert TornByte([1, 1], 0, [2, 3], 1, 1, 0);
  }

  lemma PieceFits(off: nat, n: nat)
    requires off + n <= MAXFILE * BSIZE && 0 < n
    ensures off == off / BSIZE * BSIZE + off % BSIZE && off / BSIZE < MAXFILE
    ensures 0 < Piece(off, n) <= n && off % BSIZE + Piece(off, n) <= BSIZE
  {
  }

  lemma UnmappedPast(sb: Super, st: Store, owner: Owners, i: nat, bn: nat)
    requires Ok(sb, st, owner, {}) && i < |st.inodes| && bn < MAXFILE && Ptr(st, i, Slot(bn)) == 0
    ensures bn * BSIZE >= st.inodes[i].size
  {
    if bn * BSIZE < st.inodes[i].size {
      MappedBelowSize(sb, st, owner, i, bn);
    }
  }

  lemma LogsMore(log0: seq<nat>, log1: seq<nat>, log2: seq<nat>, s: set<nat>, t: set<nat>)
    requires Logs(log0, log1, s) && Logs(log1, log2, t)
    ensures Logs(log0, log2, s + t)
  {
    forall j | |log0| <= j < |log2|
      ensures log2[j] in s + t
    {
      if j < |log1| {
        assert log2[j] == log1[j];
      }
    }
  }

  function Distinct(log: seq<nat>): set<nat> {
    set b | b in log
  }

  /** log_write absorbs repeats, so this is what a transaction must satisfy: at most
      MAXOPBLOCKS distinct blocks, and a free slot before every log_write. */
  ghost predicate Fits(log: seq<nat>) {
    |Distinct(log)| <= Wal.MAXOPBLOCKS && forall k :: 0 <= k < |log| ==> |Distinct(log[..k])| < Wal.MAXOPBLOCKS
  }

  lemma SubsetSize(s: set<nat>, t: set<nat>)
    requires s <= t
    ensures |s| <= |t|
  {
    assert t == s + (t - s);
  }

  // What a truncation logs.

  /** The bitmap blocks logged to free bs in turn. */
  function Bits(sb: Super, bs: seq<nat>): seq<nat> {
    if bs == [] then [] else Bits(sb, bs[..|bs| - 1]) + [BBlock(sb, bs[|bs| - 1])]
  }

  /** The blocks bs, which are those of `gone`, were freed since log0. */
  ghost predicate Frees(sb: Super, log0: seq<nat>, log: seq<nat>, bs: seq<nat>, gone: set<nat>) {
    log == log0 + Bits(sb, bs) && Distinct(bs) == gone
  }

  lemma FreesOne(sb: Super, log0: seq<nat>, log: seq<nat>, bs: seq<nat>, gone: set<nat>, b: nat)
    requires Frees(sb, log0, log, bs, gone)
    ensures Frees(sb, log0, log + [BBlock(sb, b)], bs + [b], gone + {b})
  {
    assert (bs + [b])[..|bs|] == bs;
    assert log0 + Bits(sb, bs) + [BBlock(sb, b)] == log0 + (Bits(sb, bs) + [BBlock(sb, b)]);
    assert Distinct(bs + [b]) == gone + {b};
  }

  lemma FreesKey(sb: Super, log0: seq<nat>, log: seq<nat>, bs: seq<nat>, all: set<nat>, owner: Owners, b: nat)
    requires Frees(sb, log0, log, bs, all - owner.Keys) && b in owner && owner.Keys <= all
    ensures Frees(sb, log0, log + [BBlock(sb, b)], bs + [b], all - (owner - {b}).Keys) && (owner - {b}).Keys <= all
  {
    FreesOne(sb, log0, log, bs, all - owner.Keys, b);
    assert all - (owner - {b}).Keys == all - owner.Keys + {b};
  }

  lemma {:induction false} BitsMore(sb: Super, a: seq<nat>, b: seq<nat>)
    ensures Bits(sb, a + b) == Bits(sb, a) + Bits(sb, b)
  {
    if b == [] {
      assert a + b == a && Bits(sb, a) + [] == Bits(sb, a);
    } else {
      var c, last := b[..|b| - 1], b[|b| - 1];
      BitsMore(sb, a, c);
      assert (a + b)[..|a + b| - 1] == a + c && (a + b)[|a + b| - 1] == last;
      assert Bits(sb, a) + Bits(sb, c) + [BBlock(sb, last)] == Bits(sb, a) + (Bits(sb, c) + [BBlock(sb, last)]);
    }
  }

  lemma FreesMore(sb: Super, log0: seq<nat>, log1: seq<nat>, log2: seq<nat>, bs: seq<nat>, cs: seq<nat>, a: set<nat>,
                  b: set<nat>)
    requires Frees(sb, log0, log1, bs, a) && Frees(sb, log1, log2, cs, b)
    ensures Frees(sb, log0, log2, bs + cs, a + b)
  {
    BitsMore(sb, bs, cs);
    assert Distinct(bs + cs) == a + b;
  }

  lemma {:induction false} BitsAre(sb: Super, bs: seq<nat>, x: nat)
    ensures x in Bits(sb, bs) <==> exists b :: b in bs && x == BBlock(sb, b)
  {
    if bs != [] {
      var last := bs[|bs| - 1];
      BitsAre(sb, bs[..|bs| - 1], x);
      assert forall b :: b in bs <==> b in bs[..|bs| - 1] || b == last;
    }
  }

  /** The blocks of inode i, and the bitmap blocks that hold their bits. */
  ghost function BlocksOf(owner: Owners, i: nat): set<nat> {
    set b | b in owner && owner[b].0 == i
  }

  ghost function Others(owner: Owners, i: nat): Owners {
    map b | b in owner && owner[b].0 != i :: owner[b]
  }

  function Bitmaps(sb: Super, bs: set<nat>): set<nat> {
    set b | b in bs :: BBlock(sb, b)
  }

  lemma DistinctBits(sb: Super, bs: seq<nat>, gone: set<nat>)
    requires Distinct(bs) == gone
    ensures Distinct(Bits(sb, bs)) == Bitmaps(sb, gone)
  {
    forall x
      ensures x in Distinct(Bits(sb, bs)) <==> x in Bitmaps(sb, gone)
    {
      BitsAre(sb, bs, x);
      assert forall b :: b in bs <==> b in gone;
    }
  }

  /** The log of a truncation: bitmap blocks for exactly the blocks in `gone`, then the inode
      block ib. It fits in a transaction exactly when the bitmap blocks are few enough. */
  ghost predicate TruncLog(sb: Super, txn: seq<nat>, gone: set<nat>, ib: nat) {
    && txn != [] && Distinct(txn[..|txn| - 1]) == Bitmaps(sb, gone) && txn[|txn| - 1] == ib
    && (Fits(txn) <==> |Bitmaps(sb, gone)| < Wal.MAXOPBLOCKS)
  }

  lemma TruncLogIs(sb: Super, log0: seq<nat>, log: seq<nat>, bs: seq<nat>, gone: set<nat>, ib: nat)
    requires SuperOk(sb) && Frees(sb, log0, log, bs, gone) && ib < sb.bmapstart
    ensures log + [ib] == log0 + (Bits(sb, bs) + [ib]) && TruncLog(sb, Bits(sb, bs) + [ib], gone, ib)
  {
    var m := Bits(sb, bs);
    DistinctBits(sb, bs, gone);
    assert (m + [ib])[..|m|] == m;
    LastFits(m, Bitmaps(sb, gone), ib);
  }

  lemma LastFits(m: seq<nat>, bits: set<nat>, ib: nat)
    requires Distinct(m) == bits && ib !in bits
    ensures Fits(m + [ib]) <==> |bits| < Wal.MAXOPBLOCKS
  {
    var txn := m + [ib];
    assert txn[..|m|] == m;
    assert Distinct(txn) == bits + {ib};
    forall k | 0 <= k < |txn|
      ensures |Distinct(txn[..k])| <= |bits|
    {
      assert txn[..k] == m[..k];
      SubsetSize(Distinct(m[..k]), bits);
    }
  }

  /** On a disk of at most nine bitmap blocks they always are. */
  lemma SmallDisk(sb: Super, bs: set<nat>)
    requires sb.size <= (Wal.MAXOPBLOCKS - 1) * BPB && forall b :: b in bs ==> b < sb.size
    ensures |Bitmaps(sb, bs)| < Wal.MAXOPBLOCKS
  {
    var all := Range(sb.bmapstart, Wal.MAXOPBLOCKS - 1);
    forall x | x in Bitmaps(sb, bs)
      ensures x in all
    {
      var b :| b in bs && x == BBlock(sb, b);
      InRange(sb.bmapstart, Wal.MAXOPBLOCKS - 1, x);
    }
    InRange(sb.bmapstart, Wal.MAXOPBLOCKS - 1, 0);
    SubsetSize(Bitmaps(sb, bs), all);
  }

  function Range(a: nat, n: nat): set<nat> {
    if n == 0 then {} else Range(a, n - 1) + {a + n - 1}
  }

  lemma {:induction false} InRange(a: nat, n: nat, x: nat)
    ensures (x in Range(a, n) <==> a <= x < a + n) && |Range(a, n)| == n
  {
    if n > 0 {
      InRange(a, n - 1, x);
      InRange(a, n - 1, a + n - 1);
    }
  }

  /** A transaction added txn to the log; it logs nothing only if it failed. */
  ghost predicate Adds(log0: seq<nat>, log: seq<nat>, txn: seq<nat>, failed: bool) {
    log == log0 + txn && Fits(txn) && (failed <==> txn == [])
  }

  ghost predicate Added(log0: seq<nat>, log: seq<nat>, failed: bool) {
    exists txn :: Adds(log0, log, txn, failed)
  }

  lemma WriteFits(log0: seq<nat>, log: seq<nat>, touched: set<nat>, ib: nat, failed: bool)
    requires failed ==> log == log0
    requires !failed ==>
               && log != [] && Logs(log0, log[..|log| - 1], touched) && log[|log| - 1] == ib
               && |touched| < Wal.MAXOPBLOCKS
    ensures Added(log0, log, failed)
  {
    var txn := log[|log0|..];
    if !failed {
      assert log0 == log[..|log0|];
      ShortLogFits(txn, touched, ib);
    }
    assert Adds(log0, log, txn, failed);
  }

  lemma ShortLogFits(log: seq<nat>, touched: set<nat>, ib: nat)
    requires log != [] && (forall j :: 0 <= j < |log| - 1 ==> log[j] in touched) && log[|log| - 1] == ib
    requires |touched| < Wal.MAXOPBLOCKS
    ensures Fits(log)
  {
    var m := log[..|log| - 1];
    assert forall b :: b in m ==> b in touched;
    UnionSize(touched, {ib});
    SubsetSize(Distinct(log), touched + {ib});
    forall k | 0 <= k < |log|
      ensures |Distinct(log[..k])| < Wal.MAXOPBLOCKS
    {
      assert log[..k] == m[..k];
      SubsetSize(Distinct(log[..k]), touched);
    }
  }

  lemma SliceMore<T>(f: seq<T>, a: nat, b: nat, c: nat)
    requires a <= b <= c <= |f|
    ensures f[a..b] + f[b..c] == f[a..c]
  {
  }

  // The log space of one write. After t rounds at most 2t distinct blocks have been
  // logged, one less if the first round began inside a mapped block, one more if the
  // indirect block was allocated (its bitmap block), one more if it was used.

  function One(b: bool): nat {
    if b then 1 else 0
  }

  ghost predicate Spent(touched: set<nat>, t: nat, inside: bool, ind0: nat, ind: nat, used: bool) {
    && |touched| + One(0 < t && inside) <= 2 * t + One(ind != ind0) + One(used)
    && (used ==> ind in touched) && (ind0 != 0 ==> ind == ind0)
  }

  lemma UnionSize(s: set<nat>, t: set<nat>)
    ensures |s + t| <= |s| + |t|
  {
    assert s + t == s + (t - s) && |t - s| <= |t| by {
      assert t == (t - s) + (t * s);
    }
  }

  lemma TouchMore(touched: set<nat>, addr: nat, bn: nat, bm: set<nat>, ind: nat)
    ensures |touched + (Touched(addr, bn, ind) + bm)| <= |touched| + |bm| + 1 + One(bn >= NDIRECT && ind !in touched)
  {
    var base := touched + bm + {addr};
    UnionSize(touched, bm);
    UnionSize(touched + bm, {addr});
    if bn < NDIRECT || ind in touched {
      assert touched + (Touched(addr, bn, ind) + bm) == base;
    } else {
      UnionSize(base, {ind});
      assert touched + (Touched(addr, bn, ind) + bm) == base + {ind};
    }
  }

  lemma SpendMore(touched: set<nat>, t: nat, inside: bool, ind0: nat, ind: nat, used: bool,
                  addr: nat, bn: nat, bm: set<nat>, ind': nat, empty: bool)
    requires Spent(touched, t, inside, ind0, ind, used) && (used ==> ind != 0)
    requires |bm| <= One(empty) + One(ind != ind') && (ind != 0 ==> ind' == ind)
    requires t == 0 && inside ==> !empty
    ensures Spent(touched + (Touched(addr, bn, ind') + bm), t + 1, inside, ind0, ind', used || bn >= NDIRECT)
  {
    TouchMore(touched, addr, bn, bm, ind');
  }

  /** Rounds taken by a write of n bytes at off, tot of them done. */
  predicate Round(off: nat, n: nat, tot: nat, t: nat) {
    && t * BSIZE < n + off % BSIZE + BSIZE
    && (tot < n ==> (t == 0 && tot == 0) || tot + off % BSIZE == t * BSIZE)
  }

  lemma NextRound(off: nat, n: nat, tot: nat, t: nat)
    requires Round(off, n, tot, t) && tot < n
    ensures Round(off, n, tot + Piece(off + tot, n - tot), t + 1)
    ensures (t + 1) * BSIZE < n + off % BSIZE + BSIZE
    ensures 0 < t ==> (off + tot) % BSIZE == 0
  {
    if 0 < t {
      var q := off / BSIZE;
      assert off + tot == (q + t) * BSIZE;
    }
  }

  /** A write that begins inside a block begins inside a mapped one. */
  lemma InsideIsMapped(sb: Super, st: Store, owner: Owners, i: nat, off: nat, tot: nat, bn: nat)
    requires Ok(sb, st, owner, {}) && i < |st.inodes| && off <= st.inodes[i].size && bn == (off + tot) / BSIZE < MAXFILE
    ensures off % BSIZE != 0 && tot == 0 ==> Ptr(st, i, Slot(bn)) != 0
  {
    if off % BSIZE != 0 && tot == 0 {
      assert bn * BSIZE < off;
    }
  }

  /** What a write has logged so far: the distinct blocks, after t rounds. */
  ghost predicate Paid(touched: set<nat>, t: nat, used: bool, off: nat, n: nat, ind0: nat, ind: nat, log0: seq<nat>,
                       log: seq<nat>) {
    && Logs(log0, log, touched) && Spent(touched, t, off % BSIZE != 0, ind0, ind, used)
    && t * BSIZE < n + off % BSIZE + BSIZE
  }

  lemma PaidBound(touched: set<nat>, t: nat, used: bool, off: nat, n: nat, ind0: nat, ind: nat, log0: seq<nat>,
                  log: seq<nat>)
    requires Paid(touched, t, used, off, n, ind0, ind, log0, log) && n <= MAX_WRITE
    ensures |touched| < Wal.MAXOPBLOCKS
  {
    assert t <= 3 + One(off % BSIZE != 0);
  }

  lemma PayRound(touched: set<nat>, t: nat, used: bool, off: nat, n: nat, tot: nat, ind0: nat, ind: nat, log0: seq<nat>,
                 log: seq<nat>, addr: nat, bn: nat, bm: set<nat>, ind': nat, empty: bool, log': seq<nat>, m: nat)
    requires Paid(touched, t, used, off, n, ind0, ind, log0, log) && (used ==> ind != 0)
    requires Round(off, n, tot, t) && tot < n && (off % BSIZE != 0 && tot == 0 ==> !empty)
    requires |bm| <= One(empty) + One(ind != ind') && (ind != 0 ==> ind' == ind)
    requires Logs(log, log', Touched(addr, bn, ind') + bm)
    requires m == Piece(off + tot, n - tot)
    ensures Paid(touched + (Touched(addr, bn, ind') + bm), t + 1, used || bn >= NDIRECT, off, n, ind0, ind', log0, log')
    ensures Round(off, n, tot + m, t + 1)
  {
    NextRound(off, n, tot, t);
    SpendMore(touched, t, off % BSIZE != 0, ind0, ind, used, addr, bn, bm, ind', empty);
    LogsMore(log0, log, log', touched, Touched(addr, bn, ind') + bm);
  }

  // A write at the level of file contents.

  function WroteTo(fs: seq<seq<Byte>>, i: nat, off: nat, src: seq<Byte>, k: nat, torn: nat): seq<seq<Byte>>
    requires i < |fs| && k + torn <= |src|
  {
    if off > |fs[i]| then fs else fs[i := Landed(fs[i], off, src, k, torn)]
  }

  lemma WriteNothing(fs: seq<seq<Byte>>, i: nat, off: nat, src: seq<Byte>)
    requires i < |fs|
    ensures WroteTo(fs, i, off, src, 0, 0) == fs
  {
    if off <= |fs[i]| {
      assert Landed(fs[i], off, src, 0, 0) == fs[i];
    }
  }

  lemma WriteMore(fs: seq<seq<Byte>>, i: nat, off: nat, src: seq<Byte>, k: nat, n: nat, w: nat, torn: nat)
    requires i < |fs| && w + torn <= n && k + n <= |src| && off <= |fs[i]|
    ensures |WroteTo(fs, i, off, src, k, 0)[i]| >= off + k
    ensures WroteTo(WroteTo(fs, i, off, src, k, 0), i, off + k, src[k..k + n], w, torn)
            == WroteTo(fs, i, off, src, k + w, torn)
  {
    LandedTwice(fs[i], off, src, k, n, w, torn);
  }

  lemma SpelledAfter(sb: Super, st: Store, st': Store, now: seq<seq<Byte>>, i: nat, off: nat, src: seq<Byte>, r: int,
                     torn: nat)
    returns (now': seq<seq<Byte>>)
    requires SpellsAll(sb, st, now) && i < |now| && Sized(sb, st') && (r == -1 ==> st' == st)
    requires r != -1 ==>
               0 <= r && r + torn <= |src| && Files(sb, st') == WroteTo(Files(sb, st), i, off, src, r, torn)
    ensures |now[i]| == st.inodes[i].size && SpellsAll(sb, st', now')
    ensures now' == if r == -1 then now else WroteTo(now, i, off, src, r, torn)
  {
    SpellsFiles(sb, st, now);
    FilesSpell(sb, st');
    now' := Files(sb, st');
  }

  /** The first k bytes of src have gone into file i; a failed copy stored `torn` more. */
  ghost predicate Written(fs: seq<seq<Byte>>, now: seq<seq<Byte>>, i: nat, off: nat, src: seq<Byte>, k: nat, torn: nat)
  {
    i < |fs| && k + torn <= |src| && now == WroteTo(fs, i, off, src, k, torn) && (off > |fs[i]| ==> k == torn == 0)
  }

  /** The reasons for a short write. */
  ghost predicate Excused(fs: seq<seq<Byte>>, i: nat, off: nat, src: seq<Byte>, readable: nat, full: bool) {
    i < |fs| && (off > |fs[i]| || off + |src| > MAXFILE * BSIZE || full || readable < |src|)
  }

  /** What a copy that failed left behind, when k bytes counted. */
  predicate TornOff(stored: nat, readable: nat, n: nat, k: int, torn: nat) {
    torn <= stored && (torn > 0 ==> 0 <= k && k + torn <= readable < n && (torn == stored || k + torn == readable))
  }

  lemma RoundStops(full: bool, size: nat, stored: nat, readable: nat, off: nat, n: nat, tot: nat, torn: nat, t: nat,
                   m: nat)
    requires tot < n && tot <= readable && Round(off, n, tot, t) && m == Piece(off + tot, n - tot) && tot + m <= n
    requires Halts(full && off + tot >= size, stored, readable, tot, m, torn)
    ensures Ends(full, size, stored, readable, off, n, tot, torn)
    ensures (full || readable < n) && TornOff(stored, readable, n, tot, torn)
    ensures tot + torn <= readable && tot + torn <= n
  {
    HaltsAtBoundary(full, size, stored, readable, off, n, tot, torn, t, m);
  }

  /** Between transactions: k bytes are done, or the write has stopped at off'. */
  ghost predicate InWrite(fs: seq<seq<Byte>>, now: seq<seq<Byte>>, i: nat, off: nat, src: seq<Byte>, stored: nat,
                          readable: nat, full: bool,
                          k: nat, ok: bool, off': nat, torn: nat)
  {
    && off <= off' && k <= off' - off <= |src| && Written(fs, now, i, off, src, off' - off, torn)
    && (if ok then k <= readable && off' == off + k && off' < UINT_LIMIT && torn == 0
        else k < |src| && off' < off + |src| && Excused(fs, i, off, src, readable, full)
             && TornOff(stored, readable, |src|, off' - off, torn))
  }

  /** A transaction at k of up to n1 bytes returned w. */
  lemma StillInWrite(fs: seq<seq<Byte>>, now: seq<seq<Byte>>, i: nat, off: nat, src: seq<Byte>, stored: nat,
                     readable: nat, full: bool,
                     k: nat, n1: nat, w: int, k': nat, ok: bool, off': nat, torn: nat)
    requires ok == (w == n1) && k' == (if ok then k + w else k) && off' == off + k + Max0(w)
    requires 0 < n1 && k + n1 <= |src| && -1 <= w <= n1 && k <= readable && off + k < UINT_LIMIT
    requires Written(fs, now, i, off, src, k + Max0(w), torn)
    requires (w > 0 ==> k + w <= readable && off + k + w < UINT_LIMIT)
             && (w != n1 ==> Excused(fs, i, off, src, readable, full))
    requires (ok ==> torn == 0) && TornOff(stored, readable, |src|, k + Max0(w), torn)
    ensures InWrite(fs, now, i, off, src, stored, readable, full, k', ok, off', torn)
  {
  }

  lemma WriteFiles(sb: Super, st: Store, st': Store, i: nat, off: nat, src: seq<Byte>, k: nat, torn: nat)
    requires Sized(sb, st) && Sized(sb, st') && i < |st.inodes| == |st'.inodes| && k + torn <= |src|
    requires off <= st.inodes[i].size && File(sb, st', i) == Landed(File(sb, st, i), off, src, k, torn)
    requires forall j :: 0 <= j < |st.inodes| && j != i ==> File(sb, st', j) == File(sb, st, j)
    ensures Files(sb, st') == WroteTo(Files(sb, st), i, off, src, k, torn)
  {
    FilesChange(sb, st, st', i);
  }

  lemma WriteEnds(fs: seq<seq<Byte>>, now: seq<seq<Byte>>, i: nat, off: nat, src: seq<Byte>, stored: nat,
                  readable: nat, full: bool,
                  k: nat, ok: bool, off': nat, torn: nat)
    requires InWrite(fs, now, i, off, src, stored, readable, full, k, ok, off', torn) && (ok ==> k == |src|)
    ensures off <= off' <= off + |src| && Written(fs, now, i, off, src, off' - off, torn)
    ensures ok <==> off' == off + |src|
    ensures ok <==> k == |src|
    ensures !ok ==> Excused(fs, i, off, src, readable, full)
    ensures (ok ==> torn == 0) && TornOff(stored, readable, |src|, off' - off, torn)
  {
  }

  function Max0(w: int): nat {
    if w > 0 then w else 0
  }

  /** The next n1 bytes after the first k: w of them were written, or nothing. */
  lemma WrittenNext(fs: seq<seq<Byte>>, now: seq<seq<Byte>>, now': seq<seq<Byte>>, i: nat, off: nat, src: seq<Byte>,
                    k: nat,
                    n1: nat, w: int, torn: nat)
    requires Written(fs, now, i, off, src, k, 0) && k + n1 <= |src| && -1 <= w && Max0(w) + torn <= n1
    requires if off + k > |now[i]| then w == -1 && torn == 0 && now' == now
             else if w == -1 then torn == 0 && now' == now
             else now' == WroteTo(now, i, off + k, src[k..k + n1], w, torn)
    ensures Written(fs, now', i, off, src, k + Max0(w), torn)
  {
    if off <= |fs[i]| {
      WriteMore(fs, i, off, src, k, n1, Max0(w), torn);
    }
  }

  /** The bytes of t rounds of full length. */
  function FullRounds(t: nat): nat {
    if t == 0 then 0 else FullRounds(t - 1) + MAX_WRITE
  }

  lemma {:induction false} FullRoundsAre(t: nat)
    ensures FullRounds(t) == t * MAX_WRITE
  {
    if t > 0 {
      FullRoundsAre(t - 1);
    }
  }

  /** filewrite's loop after t rounds: all but the last of full length. */
  predicate Rounds(n: nat, k: nat, ok: bool, done: int, t: nat) {
    if ok then k == Min(n, FullRounds(t)) && (t > 0 ==> FullRounds(t - 1) < n)
    else t > 0 && k == FullRounds(t - 1) <= done < FullRounds(t)
  }

  lemma RoundsAre(n: nat, k: nat, ok: bool, done: int, t: nat)
    requires Rounds(n, k, ok, done, t) && (ok ==> k == n)
    ensures t == if ok then (n + MAX_WRITE - 1) / MAX_WRITE else done / MAX_WRITE + 1
  {
    FullRoundsAre(t);
    if t > 0 {
      FullRoundsAre(t - 1);
    }
  }

  lemma NextRounds(n: nat, k: nat, t: nat, n1: nat, w: int, k': nat, ok: bool, done: nat)
    requires Rounds(n, k, true, k, t) && k < n && n1 == Min(n - k, MAX_WRITE) && -1 <= w <= n1
    requires ok == (w == n1) && k' == (if ok then k + w else k) && done == k + Max0(w)
    ensures Rounds(n, k', ok, done, t + 1)
  {
  }

  /** The logs of several transactions, one after the other. */
  function Concat(txns: seq<seq<nat>>): seq<nat> {
    if txns == [] then [] else Concat(txns[..|txns| - 1]) + txns[|txns| - 1]
  }

  /** The log grew by these transactions, all of which fit. */
  ghost predicate AllFit(log0: seq<nat>, log: seq<nat>, txns: seq<seq<nat>>) {
    log == log0 + Concat(txns) && forall t :: FitsAt(txns, t)
  }

  ghost predicate FitsAt(txns: seq<seq<nat>>, t: nat) {
    t < |txns| ==> Fits(txns[t])
  }

  lemma FitsMore(log0: seq<nat>, log: seq<nat>, log': seq<nat>, txns: seq<seq<nat>>, txn: seq<nat>, failed: bool)
    requires AllFit(log0, log, txns) && Adds(log, log', txn, failed)
    ensures AllFit(log0, log', txns + [txn])
  {
    var more := txns + [txn];
    assert more[..|txns|] == txns;
    assert log0 + Concat(txns) + txn == log0 + (Concat(txns) + txn);
    forall t: nat
      ensures FitsAt(more, t)
    {
      assert FitsAt(txns, t);
    }
  }

  /** filewrite's loop has logged whole transactions that fit, one for each round. */
  ghost predicate Booked(log0: seq<nat>, log: seq<nat>, n: nat, k: nat, ok: bool, done: int) {
    exists txns :: BookedAs(log0, log, n, k, ok, done, txns)
  }

  ghost predicate BookedAs(log0: seq<nat>, log: seq<nat>, n: nat, k: nat, ok: bool, done: int, txns: seq<seq<nat>>) {
    AllFit(log0, log, txns) && Rounds(n, k, ok, done, |txns|)
  }

  lemma NoneBooked(log: seq<nat>, n: nat)
    ensures Booked(log, log, n, 0, true, 0)
  {
    assert BookedAs(log, log, n, 0, true, 0, []);
  }

  lemma BookNext(log0: seq<nat>, log: seq<nat>, log': seq<nat>, n: nat, k: nat, n1: nat, w: int, k': nat, ok: bool,
                 done: nat)
    requires Booked(log0, log, n, k, true, k) && Added(log, log', w == -1) && k < n
    requires n1 == Min(n - k, MAX_WRITE) && -1 <= w <= n1
    requires ok == (w == n1) && k' == (if ok then k + w else k) && done == k + Max0(w)
    ensures Booked(log0, log', n, k', ok, done)
  {
    var txns :| BookedAs(log0, log, n, k, true, k, txns);
    var txn :| Adds(log, log', txn, w == -1);
    NextRounds(n, k, |txns|, n1, w, k', ok, done);
    FitsMore(log0, log, log', txns, txn, w == -1);
    assert BookedAs(log0, log', n, k', ok, done, txns + [txn]);
  }

  lemma AllBooked(log0: seq<nat>, log: seq<nat>, n: nat, k: nat, ok: bool, done: int) returns (txns: seq<seq<nat>>)
    requires Booked(log0, log, n, k, ok, done) && (ok ==> k == n)
    ensures AllFit(log0, log, txns)
    ensures |txns| == if ok then (n + MAX_WRITE - 1) / MAX_WRITE else done / MAX_WRITE + 1
  {
    txns :| BookedAs(log0, log, n, k, ok, done, txns);
    RoundsAre(n, k, ok, done, |txns|);
  }

  /** What bmap costs in log space: the blocks it logs, and how many bitmap blocks. */
  ghost predicate MapCost(i: nat, bn: nat, st: Store, log: seq<nat>, st': Store, log': seq<nat>, addr: nat,
                          bm: set<nat>)
  {
    && i < |st.inodes| == |st'.inodes| && |st.inodes[i].addrs| == |st'.inodes[i].addrs| == NDIRECT + 1 && bn < MAXFILE
    && var ind, ind' := st.inodes[i].addrs[INDIRECT], st'.inodes[i].addrs[INDIRECT];
    && Logs(log, log', Touched(addr, bn, ind') + bm)
    && |bm| <= One(Ptr(st, i, Slot(bn)) == 0) + One(ind != ind') && (ind != 0 ==> ind' == ind)
  }

  lemma MapCostData(i: nat, bn: nat, st: Store, log: seq<nat>, st1: Store, log1: seq<nat>, addr: nat, bm: set<nat>,
                    st2: Store, log2: seq<nat>)
    requires MapCost(i, bn, st, log, st1, log1, addr, bm) && st2.inodes == st1.inodes
    requires log2 == log1 || log2 == log1 + [addr]
    ensures MapCost(i, bn, st, log, st2, log2, addr, bm)
  {
  }

  lemma PayPart(i: nat, bn: nat, st: Store, log: seq<nat>, st': Store, log': seq<nat>, addr: nat, bm: set<nat>,
                touched: set<nat>,
                t: nat, used: bool, off: nat, n: nat, tot: nat, ind0: nat, log0: seq<nat>, m: nat)
    returns (touched': set<nat>, used': bool)
    requires MapCost(i, bn, st, log, st', log', addr, bm)
    requires Paid(touched, t, used, off, n, ind0, st.inodes[i].addrs[INDIRECT], log0, log)
    requires (used ==> st.inodes[i].addrs[INDIRECT] != 0) && Round(off, n, tot, t) && tot < n
             && m == Piece(off + tot, n - tot)
    requires off % BSIZE != 0 && tot == 0 ==> Ptr(st, i, Slot(bn)) != 0
    ensures Paid(touched', t + 1, used', off, n, ind0, st'.inodes[i].addrs[INDIRECT], log0, log')
    ensures Round(off, n, tot + m, t + 1) && used' == (used || bn >= NDIRECT)
    ensures used ==> st'.inodes[i].addrs[INDIRECT] != 0
  {
    var ind, ind' := st.inodes[i].addrs[INDIRECT], st'.inodes[i].addrs[INDIRECT];
    PayRound(touched, t, used, off, n, tot, ind0, ind, log0, log, addr, bn, bm, ind', Ptr(st, i, Slot(bn)) == 0, log',
             m);
    touched', used' := touched + (Touched(addr, bn, ind') + bm), used || bn >= NDIRECT;
  }

  lemma AllocateAddr(sb: Super, st: Store, owner: Owners, i: nat, k: nat, b: Uint)
    requires Ok(sb, st, owner, {}) && i < |st.inodes| && k <= INDIRECT && Ptr(st, i, k) == 0
    requires b < sb.size && !Bit(sb, st.blocks, b)
    ensures var st1 := Allocate(sb, st, b);
            var st' := SetAddr(st1, i, k, b);
            && st1.inodes == st.inodes && Ok(sb, st', owner[b := (i, k)], {}) && Extends(sb, st, st')
            && (k == INDIRECT ==> forall l :: INDIRECT < l < SLOTS ==> Ptr(st', i, l) == 0)
  {
    AllocateKeeps(sb, st, owner, {}, b);
    AllocateExtends(sb, st, owner, {}, b);
    var st1 := Allocate(sb, st, b);
    assert {} + {b as nat} - {b as nat} == {};
    if k < INDIRECT {
      AttachDirect(sb, st1, owner, {} + {b as nat}, i, k, b);
    } else {
      AttachIndirect(sb, st1, owner, {} + {b as nat}, i, b);
      FreshIndirect(SetAddr(st1, i, k, b), i);
    }
    ExtendsTransitive(sb, st, st1, SetAddr(st1, i, k, b));
  }

  lemma AllocateEntry(sb: Super, st: Store, owner: Owners, i: nat, k: nat, b: Uint)
    requires Ok(sb, st, owner, {}) && i < |st.inodes| && INDIRECT < k < SLOTS
    requires b < sb.size && !Bit(sb, st.blocks, b)
    requires Ptr(st, i, k) == 0 && Ptr(st, i, INDIRECT) != 0
    ensures Ptr(st, i, INDIRECT) < sb.size
    ensures var st' := SetEntry(Allocate(sb, st, b), Ptr(st, i, INDIRECT), k, b);
            Ok(sb, st', owner[b := (i, k)], {}) && Extends(sb, st, st') && Ptr(st', i, k) == b
  {
    AllocateKeeps(sb, st, owner, {}, b);
    AllocateExtends(sb, st, owner, {}, b);
    var st1 := Allocate(sb, st, b);
    assert Ptr(st1, i, INDIRECT) == Ptr(st, i, INDIRECT) && Ptr(st, i, INDIRECT) in owner;
    AttachEntry(sb, st1, owner, {} + {b as nat}, i, k, b);
    AttachEntryExtends(sb, st1, owner, {} + {b as nat}, i, k, b);
    EntryPointers(sb, st1, owner, i, k, b);
    assert {} + {b as nat} - {b} == {};
    ExtendsTransitive(sb, st, st1, SetEntry(st1, Ptr(st, i, INDIRECT), k, b));
  }

  lemma CutDone(sb: Super, st: Store, i: nat)
    requires Sized(sb, st) && i < |st.inodes|
    ensures Sized(sb, SetAddr(st, i, INDIRECT, 0)) && SetSize(SetAddr(st, i, INDIRECT, 0), i, 0) == Cut(st, i)
  {
  }

  lemma OtherFiles(sb: Super, st: Store, st': Store, owner: Owners, owner': Owners, i: nat)
    requires Ok(sb, st, owner, {}) && Ok(sb, st', owner', {}) && i < |st.inodes|
    requires forall j :: 0 <= j < |st.inodes| && j != i ==> st'.inodes[j] == st.inodes[j]
    requires forall b :: DataStart(sb) <= b < sb.size ==> st'.blocks[b] == st.blocks[b]
    ensures forall j :: 0 <= j < |st.inodes| && j != i ==> File(sb, st', j) == File(sb, st, j)
  {
    forall j | 0 <= j < |st.inodes| && j != i
      ensures File(sb, st', j) == File(sb, st, j)
    {
      OthersUntouched(sb, st, st', owner, owner', i, j);
    }
  }

  lemma EmptyNow(sb: Super, st: Store, i: nat)
    requires Sized(sb, st) && i < |st.inodes| && st.inodes[i].size == 0
    requires forall l :: 0 <= l <= NDIRECT ==> st.inodes[i].addrs[l] == 0
    ensures File(sb, st, i) == [] && forall k :: 0 <= k < SLOTS ==> Ptr(st, i, k) == 0
  {
  }

  lemma BitsNow(sb: Super, blocks: seq<Block>, blocks': seq<Block>, owner: Owners, owner': Owners, i: nat)
    requires SuperOk(sb) && |blocks| == |blocks'| == sb.size && owner' == Others(owner, i)
    requires BitsMatch(sb, blocks, owner, {}) && BitsMatch(sb, blocks', owner', {}) && forall b :: b in owner ==>
               DataStart(sb) <= b
    ensures forall b :: 0 <= b < sb.size ==> (Bit(sb, blocks', b) <==> Bit(sb, blocks, b) && b !in BlocksOf(owner, i))
  {
  }

  /** What is left to free after b, which may be no block. */
  function Left(left: set<nat>, b: nat): set<nat> {
    if b == 0 then left else left - {b}
  }

  lemma NextLeft(sb: Super, st: Store, owner: Owners, i: nat, j: nat, b: nat)
    requires Sized(sb, st) && PointersOwn(sb, st, owner) && OwnersPoint(sb, st, owner)
    requires i < |st.inodes| && j < NINDIRECT && b == Ptr(st, i, INDIRECT + 1 + j)
    ensures IndirectBlocks(owner, i, j + 1) == Left(IndirectBlocks(owner, i, j), b)
    ensures (b != 0 ==> b in IndirectBlocks(owner, i, j)) && IndirectBlocks(owner, i, j) <= IndirectBlocks(owner, i, 0)
  {
    NextIndirect(sb, st, owner, i, j);
  }

  lemma AllFreed(sb: Super, log0: seq<nat>, log1: seq<nat>, log: seq<nat>, owner: Owners, own1: Owners, i: nat,
                 bs: seq<nat>, cs: seq<nat>)
    requires own1 == Without(owner, i, NDIRECT) && forall b :: b in owner ==> owner[b].1 < SLOTS
    requires Frees(sb, log0, log1, bs, owner.Keys - own1.Keys) && Frees(sb, log1, log, cs, IndirectBlocks(own1, i, 0))
    ensures Frees(sb, log0, log, bs + cs, BlocksOf(owner, i))
  {
    FreesMore(sb, log0, log1, log, bs, cs, owner.Keys - own1.Keys, IndirectBlocks(own1, i, 0));
    assert owner.Keys - own1.Keys + IndirectBlocks(own1, i, 0) == BlocksOf(owner, i);
  }

  lemma AllGone(owner: Owners, own1: Owners, i: nat)
    requires own1 == Without(owner, i, NDIRECT)
    requires forall b :: b in owner ==> owner[b].1 < SLOTS
    ensures own1 - IndirectBlocks(own1, i, 0) == Others(owner, i)
  {
  }

  lemma FreshIndirect(st: Store, i: nat)
    requires i < |st.inodes| && |st.inodes[i].addrs| == NDIRECT + 1
    requires 0 < st.inodes[i].addrs[INDIRECT] < |st.blocks| && st.blocks[st.inodes[i].addrs[INDIRECT]] == ZeroBlock()
    ensures forall l :: INDIRECT < l < SLOTS ==> Ptr(st, i, l) == 0
  {
    forall l | INDIRECT < l < SLOTS
      ensures Ptr(st, i, l) == 0
    {
      WordOfZeroBlock(l - INDIRECT - 1);
    }
  }
}
