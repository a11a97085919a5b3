/** The file system as a value: block contents, inodes, the allocation bitmap, and
    which pointer of which inode owns each allocated block. */
module FsState {
  import opened Blocks

  const NDIRECT: nat := 12
  const NINDIRECT: nat := 256
  const MAXFILE: nat := 268   // NDIRECT + NINDIRECT
  const INDIRECT: nat := 12   // the slot that names the indirect block
  const SLOTS: nat := 269     // 12 direct, 1 indirect, 256 inside the indirect block
  const BPB: nat := 8192      // bitmap bits per block
  const IPB: nat := 16        // inodes per block

  datatype Super = Super(size: nat, nblocks: nat, ninodes: nat, inodestart: nat, bmapstart: nat)

  function DataStart(sb: Super): int {
    sb.size - sb.nblocks
  }

  function BBlock(sb: Super, b: nat): nat {
    b / BPB + sb.bmapstart
  }

  function IBlock(sb: Super, inum: nat): nat {
    inum / IPB + sb.inodestart
  }

  /** Boot, super and log blocks, then inodes, then the bitmap, then data. */
  predicate SuperOk(sb: Super) {
    && sb.size < UINT_LIMIT
    && 0 < sb.inodestart
    && sb.ninodes < (sb.bmapstart - sb.inodestart) * IPB
    && sb.size < (DataStart(sb) - sb.bmapstart) * BPB && DataStart(sb) <= sb.size
  }

  /** An inode: type and major, minor and nlink, two shorts to a word; size; addresses. */
  datatype Inode = Inode(kind: Uint, link: Uint, size: Uint, addrs: seq<Uint>)

  /** The fields that reading, writing and truncating a file leave alone. */
  predicate SameKind(n: Inode, n': Inode) {
    n'.kind == n.kind && n'.link == n.link
  }

  datatype Store = Store(blocks: seq<Block>, inodes: seq<Inode>)

  // Bits of a byte, least significant first.

  function BitOf(x: nat, k: nat): bool {
    if k == 0 then x % 2 == 1 else BitOf(x / 2, k - 1)
  }

  /** x | 1 << k, or x & ~(1 << k). */
  function PutBit(x: nat, k: nat, v: bool): nat {
    if k == 0 then x / 2 * 2 + (if v then 1 else 0) else PutBit(x / 2, k - 1, v) * 2 + x % 2
  }

  lemma {:induction false} BitOfPutBit(x: nat, k: nat, v: bool, j: nat)
    ensures BitOf(PutBit(x, k, v), j) == if j == k then v else BitOf(x, j)
    decreases k
  {
    var y := PutBit(x, k, v);
    if k == 0 {
      assert y / 2 == x / 2;
    } else {
      assert y / 2 == PutBit(x / 2, k - 1, v) && y % 2 == x % 2;
      if j > 0 {
        BitOfPutBit(x / 2, k - 1, v, j - 1);
      }
    }
  }

  lemma {:induction false} PutBitInRange(x: nat, k: nat, v: bool, n: nat)
    requires k < n && x < Pow2(n)
    ensures PutBit(x, k, v) < Pow2(n)
    decreases k
  {
    assert x / 2 < Pow2(n - 1);
    if k > 0 {
      PutBitInRange(x / 2, k - 1, v, n - 1);
    }
  }

  function Pow2(n: nat): nat {
    if n == 0 then 1 else 2 * Pow2(n - 1)
  }

  function PutByteBit(x: Byte, k: nat, v: bool): Byte
    requires k < 8
  {
    assert Pow2(8) == 256;
    PutBitInRange(x, k, v, 8);
    PutBit(x, k, v)
  }

  // The allocation bitmap.

  predicate Bit(sb: Super, blocks: seq<Block>, b: nat)
    requires SuperOk(sb) && |blocks| == sb.size && b < sb.size
  {
    BitmapBlockOk(sb, b);
    BitOf(blocks[BBlock(sb, b)].bytes[b % BPB / 8], b % 8)
  }

  lemma BitmapBlockOk(sb: Super, b: nat)
    requires SuperOk(sb) && b < sb.size
    ensures sb.bmapstart <= BBlock(sb, b) < DataStart(sb)
    ensures b % BPB / 8 < BSIZE
  {
  }

  function WithBit(sb: Super, blocks: seq<Block>, b: nat, v: bool): (r: seq<Block>)
    requires SuperOk(sb) && |blocks| == sb.size && b < sb.size
    ensures |r| == |blocks|
  {
    BitmapBlockOk(sb, b);
    var bm := blocks[BBlock(sb, b)];
    var i := b % BPB / 8;
    blocks[BBlock(sb, b) := Block(bm.bytes[i := PutByteBit(bm.bytes[i], b % 8, v)])]
  }

  lemma ByteCoordinate(q: nat, base: nat, bi: nat)
    requires base == q * BPB
    ensures (base + bi) % 8 == bi % 8
  {
    assert base + bi == 8 * (q * 1024 + bi / 8) + bi % 8;
  }

  lemma BitPlace(b: nat, c: nat)
    requires b / BPB == c / BPB && b % BPB / 8 == c % BPB / 8 && b % 8 == c % 8
    ensures b == c
  {
    var q := b / BPB;
    ByteCoordinate(q, q * BPB, b % BPB);
    ByteCoordinate(q, q * BPB, c % BPB);
    assert b == q * BPB + b % BPB && c == q * BPB + c % BPB;
  }

  /** Setting or clearing one bit leaves every other bit alone. */
  lemma BitOfWithBit(sb: Super, blocks: seq<Block>, b: nat, v: bool, c: nat)
    requires SuperOk(sb) && |blocks| == sb.size && b < sb.size && c < sb.size
    ensures Bit(sb, WithBit(sb, blocks, b, v), c) == if c == b then v else Bit(sb, blocks, c)
  {
    BitmapBlockOk(sb, b);
    BitmapBlockOk(sb, c);
    if BBlock(sb, b) == BBlock(sb, c) && b % BPB / 8 == c % BPB / 8 {
      BitOfPutBit(blocks[BBlock(sb, b)].bytes[b % BPB / 8], b % 8, v, c % 8);
      if b % 8 == c % 8 {
        BitPlace(b, c);
      }
    }
  }

  // Pointers.

  /** The slot that names file block bn. */
  function Slot(bn: nat): nat {
    if bn < NDIRECT then bn else bn + 1
  }

  /** The block number in slot k of inode i; 0 means none. */
  function Ptr(st: Store, i: nat, k: nat): Uint
    requires i < |st.inodes| && |st.inodes[i].addrs| == NDIRECT + 1 && k < SLOTS
  {
    var a := st.inodes[i].addrs;
    if k <= INDIRECT then a[k]
    else if a[INDIRECT] == 0 || a[INDIRECT] >= |st.blocks| then 0
    else Word(st.blocks[a[INDIRECT]], k - INDIRECT - 1)
  }

  predicate Sized(sb: Super, st: Store) {
    && SuperOk(sb) && |st.blocks| == sb.size && |st.inodes| == sb.ninodes
    && forall i :: 0 <= i < |st.inodes| ==>
         |st.inodes[i].addrs| == NDIRECT + 1 && st.inodes[i].size <= MAXFILE * BSIZE
  }

  type Owners = map<nat, (nat, nat)>

  /** Every nonzero pointer names a data block that records it as its owner. */
  ghost predicate PointersOwn(sb: Super, st: Store, owner: Owners)
    requires Sized(sb, st)
  {
    forall i, k :: 0 <= i < |st.inodes| && 0 <= k < SLOTS && Ptr(st, i, k) != 0 ==>
      Ptr(st, i, k) in owner && owner[Ptr(st, i, k)] == (i, k)
  }

  /** Every owned block is named by the pointer it records. */
  ghost predicate OwnersPoint(sb: Super, st: Store, owner: Owners)
    requires Sized(sb, st)
  {
    forall b :: b in owner ==>
      && DataStart(sb) <= b < sb.size
      && owner[b].0 < |st.inodes| && owner[b].1 < SLOTS
      && Ptr(st, owner[b].0, owner[b].1) == b
  }

  /** A bit is set exactly for metadata, owned blocks, and blocks in `extra`:
      allocated but not yet attached, or detached but not yet freed. */
  ghost predicate BitsMatch(sb: Super, blocks: seq<Block>, owner: Owners, extra: set<nat>)
    requires SuperOk(sb) && |blocks| == sb.size
  {
    && (forall b :: b in extra ==> DataStart(sb) <= b < sb.size && b !in owner)
    && forall b :: 0 <= b < sb.size ==> (Bit(sb, blocks, b) <==> b < DataStart(sb) || b in owner || b in extra)
  }

  /** Every bit of the block bitmap is set. */
  ghost predicate DiskFull(sb: Super, st: Store)
    requires Sized(sb, st)
  {
    forall b :: 0 <= b < sb.size ==> Bit(sb, st.blocks, b)
  }

  /** All blocks below the size are mapped. */
  ghost predicate NoHoles(sb: Super, st: Store)
    requires Sized(sb, st)
  {
    forall i, bn :: 0 <= i < |st.inodes| && 0 <= bn < MAXFILE && bn * BSIZE < st.inodes[i].size ==>
      Ptr(st, i, Slot(bn)) != 0
  }

  ghost predicate Ok(sb: Super, st: Store, owner: Owners, extra: set<nat>) {
    && Sized(sb, st) && PointersOwn(sb, st, owner) && OwnersPoint(sb, st, owner)
    && BitsMatch(sb, st.blocks, owner, extra) && NoHoles(sb, st)
  }

  // What stays the same when blocks are allocated.

  /** Mapped file blocks keep their number and contents; sizes and inode blocks are
      unchanged. */
  ghost predicate Extends(sb: Super, st: Store, st': Store)
    requires Sized(sb, st) && Sized(sb, st')
  {
    && (forall i :: 0 <= i < |st.inodes| ==>
          st'.inodes[i].size == st.inodes[i].size && SameKind(st.inodes[i], st'.inodes[i]))
    && (forall b :: 0 <= b < sb.bmapstart ==> st'.blocks[b] == st.blocks[b])
    && forall i, k :: 0 <= i < |st.inodes| && 0 <= k < SLOTS && k != INDIRECT && 0 < Ptr(st, i, k) < sb.size ==>
         Ptr(st', i, k) == Ptr(st, i, k) && st'.blocks[Ptr(st, i, k)] == st.blocks[Ptr(st, i, k)]
  }

  lemma ExtendsTransitive(sb: Super, a: Store, b: Store, c: Store)
    requires Sized(sb, a) && Sized(sb, b) && Sized(sb, c) && Extends(sb, a, b) && Extends(sb, b, c)
    ensures Extends(sb, a, c)
  {
  }

  /** Pointers depend only on the inodes and on the indirect blocks. */
  lemma SamePointers(sb: Super, st: Store, st': Store, owner: Owners)
    requires Sized(sb, st) && Sized(sb, st') && PointersOwn(sb, st, owner) && OwnersPoint(sb, st, owner)
    requires st'.inodes == st.inodes
    requires forall b :: b in owner && owner[b].1 == INDIRECT && b < sb.size ==> st'.blocks[b] == st.blocks[b]
    ensures forall i, k :: 0 <= i < |st.inodes| && 0 <= k < SLOTS ==> Ptr(st', i, k) == Ptr(st, i, k)
  {
    forall i, k | 0 <= i < |st.inodes| && 0 <= k < SLOTS
      ensures Ptr(st', i, k) == Ptr(st, i, k)
    {
      assert Ptr(st, i, INDIRECT) == st.inodes[i].addrs[INDIRECT];
    }
  }

  /** The same pointers: the same owners, and no new holes. */
  lemma SameTree(sb: Super, st: Store, st': Store, owner: Owners)
    requires Sized(sb, st) && Sized(sb, st') && PointersOwn(sb, st, owner) && OwnersPoint(sb, st, owner)
             && NoHoles(sb, st)
    requires st'.inodes == st.inodes
    requires forall i, k :: 0 <= i < |st.inodes| && 0 <= k < SLOTS ==> Ptr(st', i, k) == Ptr(st, i, k)
    ensures PointersOwn(sb, st', owner) && OwnersPoint(sb, st', owner) && NoHoles(sb, st')
  {
  }

  /** Setting a bit touches only the bitmap. */
  lemma WithBitElsewhere(sb: Super, blocks: seq<Block>, b: nat, v: bool)
    requires SuperOk(sb) && |blocks| == sb.size && b < sb.size
    ensures forall c :: 0 <= c < sb.size && (c < sb.bmapstart || DataStart(sb) <= c) ==>
              WithBit(sb, blocks, b, v)[c] == blocks[c]
  {
    BitmapBlockOk(sb, b);
  }

  function Allocate(sb: Super, st: Store, b: nat): Store
    requires Sized(sb, st) && b < sb.size
  {
    st.(blocks := WithBit(sb, st.blocks, b, true)[b := ZeroBlock()])
  }

  /** balloc: a free block becomes an allocated, zeroed, unattached one. */
  lemma AllocateKeeps(sb: Super, st: Store, owner: Owners, extra: set<nat>, b: nat)
    requires Ok(sb, st, owner, extra) && b < sb.size && !Bit(sb, st.blocks, b)
    ensures Ok(sb, Allocate(sb, st, b), owner, extra + {b})
    ensures b !in owner && b !in extra && DataStart(sb) <= b
    ensures forall i, k :: 0 <= i < |st.inodes| && 0 <= k < SLOTS ==>
              Ptr(Allocate(sb, st, b), i, k) == Ptr(st, i, k)
  {
    var st' := Allocate(sb, st, b);
    AllocateBits(sb, st.blocks, owner, extra, b);
    NewBlockKeeps(sb, st, st', owner, b);
    SameTree(sb, st, st', owner);
  }

  lemma AllocateExtends(sb: Super, st: Store, owner: Owners, extra: set<nat>, b: nat)
    requires Ok(sb, st, owner, extra) && b < sb.size && !Bit(sb, st.blocks, b)
    ensures Extends(sb, st, Allocate(sb, st, b))
  {
    assert b !in owner && DataStart(sb) <= b;
    NewBlockKeeps(sb, st, Allocate(sb, st, b), owner, b);
  }

  lemma NewBlockKeeps(sb: Super, st: Store, st': Store, owner: Owners, b: nat)
    requires Sized(sb, st) && PointersOwn(sb, st, owner) && OwnersPoint(sb, st, owner)
    requires DataStart(sb) <= b < sb.size && b !in owner && st' == Allocate(sb, st, b)
    ensures Sized(sb, st') && Extends(sb, st, st')
    ensures forall i, k :: 0 <= i < |st.inodes| && 0 <= k < SLOTS ==> Ptr(st', i, k) == Ptr(st, i, k)
  {
    WithBitElsewhere(sb, st.blocks, b, true);
    UnusedChanges(sb, st, st', owner, b);
  }

  /** Changing the bitmap and one block that no pointer names. */
  lemma UnusedChanges(sb: Super, st: Store, st': Store, owner: Owners, b: nat)
    requires Sized(sb, st) && PointersOwn(sb, st, owner) && OwnersPoint(sb, st, owner) && b !in owner
    requires st'.inodes == st.inodes && |st'.blocks| == |st.blocks|
    requires forall c :: 0 <= c < sb.size && c != b && (c < sb.bmapstart || DataStart(sb) <= c) ==>
               st'.blocks[c] == st.blocks[c]
    requires sb.bmapstart <= b
    ensures Sized(sb, st') && Extends(sb, st, st')
    ensures forall i, k :: 0 <= i < |st.inodes| && 0 <= k < SLOTS ==> Ptr(st', i, k) == Ptr(st, i, k)
  {
    SamePointers(sb, st, st', owner);
  }

  lemma BitElsewhere(sb: Super, blocks: seq<Block>, b: nat, data: Block, c: nat)
    requires SuperOk(sb) && |blocks| == sb.size && DataStart(sb) <= b < sb.size && c < sb.size
    ensures Bit(sb, blocks[b := data], c) == Bit(sb, blocks, c)
  {
    BitmapBlockOk(sb, c);
  }

  lemma AllocateBits(sb: Super, blocks: seq<Block>, owner: Owners, extra: set<nat>, b: nat)
    requires SuperOk(sb) && |blocks| == sb.size && b < sb.size
    requires BitsMatch(sb, blocks, owner, extra) && !Bit(sb, blocks, b)
    ensures BitsMatch(sb, WithBit(sb, blocks, b, true)[b := ZeroBlock()], owner, extra + {b})
  {
    var blocks1 := WithBit(sb, blocks, b, true);
    var blocks2 := blocks1[b := ZeroBlock()];
    assert b >= DataStart(sb) && b !in owner;
    forall c | 0 <= c < sb.size
      ensures Bit(sb, blocks2, c) <==> c == b || Bit(sb, blocks, c)
    {
      BitOfWithBit(sb, blocks, b, true, c);
      BitElsewhere(sb, blocks1, b, ZeroBlock(), c);
    }
    assert BitsMatch(sb, blocks2, owner, extra + {b});
  }

  function Free(sb: Super, st: Store, b: nat): Store
    requires Sized(sb, st) && b < sb.size
  {
    st.(blocks := WithBit(sb, st.blocks, b, false))
  }

  /** Only bitmap blocks differ. */
  predicate OnlyBitmap(sb: Super, blocks: seq<Block>, blocks': seq<Block>) {
    && |blocks'| == |blocks|
    && forall b :: 0 <= b < |blocks| && (b < sb.bmapstart || DataStart(sb) <= b) ==> blocks'[b] == blocks[b]
  }

  lemma FreeOnlyBitmap(sb: Super, st: Store, b: nat)
    requires Sized(sb, st) && b < sb.size
    ensures OnlyBitmap(sb, st.blocks, Free(sb, st, b).blocks)
  {
    WithBitElsewhere(sb, st.blocks, b, false);
  }

  /** bfree of a detached block. */
  lemma FreeKeeps(sb: Super, st: Store, owner: Owners, extra: set<nat>, b: nat)
    requires Ok(sb, st, owner, extra) && b in extra
    ensures Ok(sb, Free(sb, st, b), owner, extra - {b})
  {
    var st' := Free(sb, st, b);
    WithBitElsewhere(sb, st.blocks, b, false);
    SamePointers(sb, st, st', owner);
    SameTree(sb, st, st', owner);
    FreeBits(sb, st.blocks, owner, extra, b);
  }

  lemma FreeBits(sb: Super, blocks: seq<Block>, owner: Owners, extra: set<nat>, b: nat)
    requires SuperOk(sb) && |blocks| == sb.size && b in extra && BitsMatch(sb, blocks, owner, extra)
    ensures BitsMatch(sb, WithBit(sb, blocks, b, false), owner, extra - {b})
  {
    forall c | 0 <= c < sb.size
      ensures Bit(sb, WithBit(sb, blocks, b, false), c) <==> c != b && Bit(sb, blocks, c)
    {
      BitOfWithBit(sb, blocks, b, false, c);
    }
  }

  function SetAddr(st: Store, i: nat, k: nat, b: Uint): Store
    requires i < |st.inodes| && k < |st.inodes[i].addrs|
  {
    st.(inodes := st.inodes[i := st.inodes[i].(addrs := st.inodes[i].addrs[k := b])])
  }

  /** One empty pointer now names b; nothing else about pointers, sizes or bits changed. */
  ghost predicate PointsTo(sb: Super, st: Store, st': Store, i: nat, k: nat, b: Uint)
    requires Sized(sb, st)
  {
    && Sized(sb, st') && i < |st.inodes| && k < SLOTS && Ptr(st, i, k) == 0
    && (forall j :: 0 <= j < |st.inodes| ==> st'.inodes[j].size == st.inodes[j].size)
    && (forall j, l :: 0 <= j < |st.inodes| && 0 <= l < SLOTS ==>
          Ptr(st', j, l) == if j == i && l == k then b else Ptr(st, j, l))
    && forall c :: 0 <= c < sb.size ==> Bit(sb, st'.blocks, c) == Bit(sb, st.blocks, c)
  }

  lemma Attach(sb: Super, st: Store, st': Store, owner: Owners, extra: set<nat>, i: nat, k: nat, b: Uint)
    requires Ok(sb, st, owner, extra) && b in extra && PointsTo(sb, st, st', i, k, b)
    ensures Ok(sb, st', owner[b := (i, k)], extra - {b})
  {
    AttachBits(sb, st.blocks, st'.blocks, owner, extra, i, k, b);
    assert OwnersPoint(sb, st', owner[b := (i, k)]);
  }

  lemma AttachBits(sb: Super, blocks: seq<Block>, blocks': seq<Block>, owner: Owners, extra: set<nat>, i: nat, k: nat,
                   b: nat)
    requires SuperOk(sb) && |blocks| == |blocks'| == sb.size && BitsMatch(sb, blocks, owner, extra) && b in extra
    requires forall c :: 0 <= c < sb.size ==> Bit(sb, blocks', c) == Bit(sb, blocks, c)
    ensures BitsMatch(sb, blocks', owner[b := (i, k)], extra - {b})
  {
  }

  /** bmap records a fresh data block in ip->addrs. */
  lemma AttachDirect(sb: Super, st: Store, owner: Owners, extra: set<nat>, i: nat, k: nat, b: Uint)
    requires Ok(sb, st, owner, extra) && i < |st.inodes| && k < NDIRECT && Ptr(st, i, k) == 0 && b in extra
    ensures Ok(sb, SetAddr(st, i, k, b), owner[b := (i, k)], extra - {b})
    ensures Extends(sb, st, SetAddr(st, i, k, b))
  {
    var st' := SetAddr(st, i, k, b);
    assert forall j, l :: 0 <= j < |st.inodes| && 0 <= l < SLOTS ==>
        Ptr(st', j, l) == if j == i && l == k then b else Ptr(st, j, l);
    Attach(sb, st, st', owner, extra, i, k, b);
  }

  /** bmap records a fresh indirect block: being zeroed, it names nothing yet. */
  lemma AttachIndirect(sb: Super, st: Store, owner: Owners, extra: set<nat>, i: nat, b: Uint)
    requires Ok(sb, st, owner, extra) && i < |st.inodes| && Ptr(st, i, INDIRECT) == 0 && b in extra
    requires b < sb.size && st.blocks[b] == ZeroBlock()
    ensures Ok(sb, SetAddr(st, i, INDIRECT, b), owner[b := (i, INDIRECT)], extra - {b})
    ensures Extends(sb, st, SetAddr(st, i, INDIRECT, b))
  {
    var st' := SetAddr(st, i, INDIRECT, b);
    forall j, l | 0 <= j < |st.inodes| && 0 <= l < SLOTS
      ensures Ptr(st', j, l) == if j == i && l == INDIRECT then b else Ptr(st, j, l)
    {
      if j == i && l > INDIRECT {
        WordOfZeroBlock(l - INDIRECT - 1);
      }
    }
    Attach(sb, st, st', owner, extra, i, INDIRECT, b);
  }

  function SetEntry(st: Store, ind: nat, k: nat, b: Uint): Store
    requires ind < |st.blocks| && INDIRECT < k < SLOTS
  {
    st.(blocks := st.blocks[ind := SetWord(st.blocks[ind], k - INDIRECT - 1, b)])
  }

  lemma EntryPointers(sb: Super, st: Store, owner: Owners, i: nat, k: nat, b: Uint)
    requires Sized(sb, st) && PointersOwn(sb, st, owner) && i < |st.inodes| && INDIRECT < k < SLOTS
    requires 0 < Ptr(st, i, INDIRECT) < sb.size
    ensures var st' := SetEntry(st, Ptr(st, i, INDIRECT), k, b);
            forall j, l :: 0 <= j < |st.inodes| && 0 <= l < SLOTS ==>
              Ptr(st', j, l) == if j == i && l == k then b else Ptr(st, j, l)
  {
    var ind := Ptr(st, i, INDIRECT);
    var st' := SetEntry(st, ind, k, b);
    forall j, l | 0 <= j < |st.inodes| && 0 <= l < SLOTS
      ensures Ptr(st', j, l) == if j == i && l == k then b else Ptr(st, j, l)
    {
      if l > INDIRECT {
        assert Ptr(st, j, INDIRECT) == st.inodes[j].addrs[INDIRECT];
        WordOfSetWord(st.blocks[ind], k - INDIRECT - 1, b, l - INDIRECT - 1);
      }
    }
  }

  /** bmap records a fresh data block inside the indirect block. */
  lemma AttachEntry(sb: Super, st: Store, owner: Owners, extra: set<nat>, i: nat, k: nat, b: Uint)
    requires Ok(sb, st, owner, extra) && i < |st.inodes| && INDIRECT < k < SLOTS && b in extra
    requires Ptr(st, i, k) == 0 && 0 < Ptr(st, i, INDIRECT) < sb.size
    ensures Ok(sb, SetEntry(st, Ptr(st, i, INDIRECT), k, b), owner[b := (i, k)], extra - {b})
  {
    var ind := Ptr(st, i, INDIRECT);
    var st' := SetEntry(st, ind, k, b);
    EntryPointers(sb, st, owner, i, k, b);
    forall c | 0 <= c < sb.size
      ensures Bit(sb, st'.blocks, c) == Bit(sb, st.blocks, c)
    {
      BitElsewhere(sb, st.blocks, ind, st'.blocks[ind], c);
    }
    Attach(sb, st, st', owner, extra, i, k, b);
  }

  lemma AttachEntryExtends(sb: Super, st: Store, owner: Owners, extra: set<nat>, i: nat, k: nat, b: Uint)
    requires Ok(sb, st, owner, extra) && i < |st.inodes| && INDIRECT < k < SLOTS
    requires Ptr(st, i, k) == 0 && 0 < Ptr(st, i, INDIRECT) < sb.size
    ensures Extends(sb, st, SetEntry(st, Ptr(st, i, INDIRECT), k, b))
  {
    EntryPointers(sb, st, owner, i, k, b);
  }

  /** Overwriting the contents of a mapped file block. */
  lemma WriteDataKeeps(sb: Super, st: Store, owner: Owners, extra: set<nat>, i: nat, k: nat, data: Block)
    requires Ok(sb, st, owner, extra) && i < |st.inodes| && k < SLOTS && k != INDIRECT
    requires 0 < Ptr(st, i, k) < sb.size
    ensures var st' := st.(blocks := st.blocks[Ptr(st, i, k) := data]);
            && Ok(sb, st', owner, extra)
            && (forall j, l :: 0 <= j < |st.inodes| && 0 <= l < SLOTS ==> Ptr(st', j, l) == Ptr(st, j, l))
            && forall j, l ::
                 0 <= j < |st.inodes| && 0 <= l < SLOTS && (j != i || l != k) && 0 < Ptr(st, j, l) < sb.size ==>
                   st'.blocks[Ptr(st, j, l)] == st.blocks[Ptr(st, j, l)]
  {
    var b := Ptr(st, i, k);
    var st' := st.(blocks := st.blocks[b := data]);
    SamePointers(sb, st, st', owner);
    forall c | 0 <= c < sb.size
      ensures Bit(sb, st'.blocks, c) == Bit(sb, st.blocks, c)
    {
      BitElsewhere(sb, st.blocks, b, data, c);
    }
    SameTree(sb, st, st', owner);
  }

  // Truncation.

  function SetSize(st: Store, i: nat, size: Uint): Store
    requires i < |st.inodes|
  {
    st.(inodes := st.inodes[i := st.inodes[i].(size := size)])
  }

  lemma SetSizePointers(sb: Super, st: Store, i: nat, size: Uint)
    requires Sized(sb, st) && i < |st.inodes|
    ensures var st' := SetSize(st, i, size);
            forall j, k :: 0 <= j < |st.inodes| && 0 <= k < SLOTS ==>
              |st'.inodes[j].addrs| == NDIRECT + 1 && Ptr(st', j, k) == Ptr(st, j, k)
  {
  }

  /** Setting the size keeps the invariant when every block below it is mapped. */
  lemma SetSizeKeeps(sb: Super, st: Store, owner: Owners, extra: set<nat>, i: nat, size: Uint)
    requires Ok(sb, st, owner, extra) && i < |st.inodes| && size <= MAXFILE * BSIZE
    requires forall bn :: 0 <= bn < MAXFILE && bn * BSIZE < size ==> Ptr(st, i, Slot(bn)) != 0
    ensures Ok(sb, SetSize(st, i, size), owner, extra)
  {
    SetSizePointers(sb, st, i, size);
  }

  /** Clearing a direct pointer of an empty file detaches one block. */
  lemma DetachDirect(sb: Super, st: Store, owner: Owners, i: nat, k: nat)
    requires Ok(sb, st, owner, {}) && i < |st.inodes| && st.inodes[i].size == 0
    requires k < NDIRECT && Ptr(st, i, k) != 0
    ensures var b := Ptr(st, i, k);
            Ok(sb, SetAddr(st, i, k, 0), owner - {b}, {b}) && b < sb.size
  {
    var b := Ptr(st, i, k);
    var st' := SetAddr(st, i, k, 0);
    assert b in owner;
    assert forall j, l :: 0 <= j < |st.inodes| && 0 <= l < SLOTS ==>
        Ptr(st', j, l) == if j == i && l == k then 0 else Ptr(st, j, l);
  }

  /** The blocks reached through inode i's indirect block, from entry j on, and the
      indirect block itself. */
  ghost function IndirectBlocks(owner: Owners, i: nat, j: nat): set<nat> {
    set b | b in owner && owner[b].0 == i && (owner[b].1 == INDIRECT || INDIRECT + 1 + j <= owner[b].1)
  }

  /** Clearing the indirect pointer of an empty file detaches all of them at once. */
  lemma DetachIndirect(sb: Super, st: Store, owner: Owners, i: nat)
    requires Ok(sb, st, owner, {}) && i < |st.inodes| && st.inodes[i].size == 0
    ensures var e := IndirectBlocks(owner, i, 0);
            Ok(sb, SetAddr(st, i, INDIRECT, 0), owner - e, e)
  {
    var st' := SetAddr(st, i, INDIRECT, 0);
    var e := IndirectBlocks(owner, i, 0);
    assert forall j, l :: 0 <= j < |st.inodes| && 0 <= l < SLOTS ==>
        Ptr(st', j, l) == if j == i && l >= INDIRECT then 0 else Ptr(st, j, l);
    assert forall b :: b in owner <==> b in owner - e || b in e;
  }

  /** Entry j of the indirect block is the only block of slot j. */
  lemma NextIndirect(sb: Super, st: Store, owner: Owners, i: nat, j: nat)
    requires Sized(sb, st) && PointersOwn(sb, st, owner) && OwnersPoint(sb, st, owner)
    requires i < |st.inodes| && j < NINDIRECT
    ensures var b := Ptr(st, i, INDIRECT + 1 + j);
            if b == 0 then IndirectBlocks(owner, i, j + 1) == IndirectBlocks(owner, i, j)
            else b in IndirectBlocks(owner, i, j)
                 && IndirectBlocks(owner, i, j + 1) == IndirectBlocks(owner, i, j) - {b as nat}
  {
  }

  /** The owners left when inode i's slots below k are gone. */
  ghost function Without(owner: Owners, i: nat, k: nat): Owners {
    map b | b in owner && !(owner[b].0 == i && owner[b].1 < k) :: owner[b]
  }

  lemma WithoutNext(sb: Super, st: Store, owner: Owners, i: nat, k: nat)
    requires Sized(sb, st) && PointersOwn(sb, st, owner) && OwnersPoint(sb, st, owner)
    requires i < |st.inodes| && k < SLOTS
    ensures var b := Ptr(st, i, k);
            Without(owner, i, k + 1) == if b == 0 then Without(owner, i, k) else Without(owner, i, k) - {b as nat}
  {
    var b := Ptr(st, i, k);
    var more, less := Without(owner, i, k), Without(owner, i, k + 1);
    forall c: nat | c in owner
      ensures c in less <==> c in more && !(b != 0 && c == b)
    {
      assert owner[c] == (i, k) ==> c == b;
    }
    assert less == if b == 0 then more else more - {b as nat};
  }

  /** One round of itrunc's first loop: the block is allocated, so freeing it does not
      panic, and the pointer can then be cleared. */
  lemma TruncDirect(sb: Super, st: Store, owner: Owners, i: nat, k: nat)
    requires Sized(sb, st) && i < |st.inodes| && k < NDIRECT && Ptr(st, i, k) != 0
    requires Ok(sb, SetSize(st, i, 0), owner, {})
    ensures var b := Ptr(st, i, k);
            && b < sb.size && Bit(sb, st.blocks, b) && b in owner && owner[b] == (i, k)
            && Sized(sb, SetAddr(Free(sb, st, b), i, k, 0))
            && Ok(sb, SetSize(SetAddr(Free(sb, st, b), i, k, 0), i, 0), owner - {b}, {})
  {
    var b := Ptr(st, i, k);
    var st0 := SetSize(st, i, 0);
    SetSizePointers(sb, st, i, 0);
    assert Ptr(st0, i, k) == b;
    DetachDirect(sb, st0, owner, i, k);
    FreeKeeps(sb, SetAddr(st0, i, k, 0), owner - {b}, {b}, b);
    assert {b} - {b} == {};
    assert Free(sb, SetAddr(st0, i, k, 0), b) == SetSize(SetAddr(Free(sb, st, b), i, k, 0), i, 0);
  }

  lemma LastIndirect(sb: Super, st: Store, owner: Owners, i: nat)
    requires Sized(sb, st) && PointersOwn(sb, st, owner) && OwnersPoint(sb, st, owner) && i < |st.inodes|
    ensures Ptr(st, i, INDIRECT) != 0 ==> IndirectBlocks(owner, i, NINDIRECT) == {Ptr(st, i, INDIRECT) as nat}
    ensures Ptr(st, i, INDIRECT) == 0 ==> IndirectBlocks(owner, i, 0) == {}
  {
    var ind := Ptr(st, i, INDIRECT);
    if ind == 0 {
      assert forall b :: b in owner && owner[b].0 == i ==> owner[b].1 < INDIRECT;
    } else {
      forall b | b in IndirectBlocks(owner, i, NINDIRECT)
        ensures b == ind
      {
        assert Ptr(st, owner[b].0, owner[b].1) == b;
      }
    }
  }

  /** The store with inode i empty and its indirect pointer gone. */
  function Cut(st: Store, i: nat): Store
    requires i < |st.inodes| && |st.inodes[i].addrs| == NDIRECT + 1
  {
    SetAddr(SetSize(st, i, 0), i, INDIRECT, 0)
  }

  /** Freeing one of the blocks that the cut detached. */
  lemma FreeAfterCut(sb: Super, st: Store, owner: Owners, extra: set<nat>, i: nat, b: nat)
    requires Sized(sb, st) && i < |st.inodes| && Ok(sb, Cut(st, i), owner, extra) && b in extra
    ensures b < sb.size && Bit(sb, st.blocks, b)
    ensures Ok(sb, Cut(Free(sb, st, b), i), owner, extra - {b})
  {
    FreeKeeps(sb, Cut(st, i), owner, extra, b);
    assert Free(sb, Cut(st, i), b) == Cut(Free(sb, st, b), i);
  }

  // File contents.

  /** Byte w of file block bn. */
  function Cell(st: Store, i: nat, bn: nat, w: nat): Byte
    requires i < |st.inodes| && |st.inodes[i].addrs| == NDIRECT + 1 && bn < MAXFILE && w < BSIZE
  {
    var p := Ptr(st, i, Slot(bn));
    if p < |st.blocks| then st.blocks[p].bytes[w] else 0
  }

  function ByteAt(st: Store, i: nat, off: nat): Byte
    requires i < |st.inodes| && |st.inodes[i].addrs| == NDIRECT + 1 && off < MAXFILE * BSIZE
  {
    Cell(st, i, off / BSIZE, off % BSIZE)
  }

  /** The byte sequence that inode i represents. */
  function File(sb: Super, st: Store, i: nat): (f: seq<Byte>)
    requires Sized(sb, st) && i < |st.inodes|
    ensures |f| == st.inodes[i].size
  {
    seq(st.inodes[i].size, off requires 0 <= off < st.inodes[i].size => ByteAt(st, i, off))
  }

  /** The contents of all files, by inode number. */
  function Files(sb: Super, st: Store): (fs: seq<seq<Byte>>)
    requires Sized(sb, st)
    ensures |fs| == |st.inodes|
  {
    seq(|st.inodes|, i requires 0 <= i < |st.inodes| => File(sb, st, i))
  }

  lemma FilesChange(sb: Super, st: Store, st': Store, i: nat)
    requires Sized(sb, st) && Sized(sb, st') && i < |st.inodes|
    requires forall j :: 0 <= j < |st.inodes| && j != i ==> File(sb, st', j) == File(sb, st, j)
    ensures Files(sb, st') == Files(sb, st)[i := File(sb, st', i)]
  {
  }

  /** Allocation is invisible to every file. */
  lemma ExtendsFiles(sb: Super, st: Store, st': Store, owner: Owners, extra: set<nat>, i: nat)
    requires Ok(sb, st, owner, extra) && Sized(sb, st') && Extends(sb, st, st') && i < |st.inodes|
    ensures File(sb, st', i) == File(sb, st, i)
  {
    forall off | 0 <= off < st.inodes[i].size
      ensures ByteAt(st', i, off) == ByteAt(st, i, off)
    {
      var bn := off / BSIZE;
      assert bn * BSIZE <= off;
      assert Ptr(st, i, Slot(bn)) != 0;
    }
  }

  /** Truncating one inode: others keep their blocks, their contents and, on disk,
      their inodes. */
  lemma OthersUntouched(sb: Super, st: Store, st': Store, owner: Owners, owner': Owners, i: nat, j: nat)
    requires Ok(sb, st, owner, {}) && Ok(sb, st', owner', {}) && i < |st.inodes| && j < |st.inodes| && j != i
    requires st'.inodes[j] == st.inodes[j]
    requires forall b :: DataStart(sb) <= b < sb.size ==> st'.blocks[b] == st.blocks[b]
    ensures File(sb, st', j) == File(sb, st, j)
  {
    forall k | 0 <= k < SLOTS
      ensures Ptr(st', j, k) == Ptr(st, j, k)
    {
      assert Ptr(st, j, INDIRECT) == st.inodes[j].addrs[INDIRECT];
    }
    SameFiles(sb, st, st', owner, {}, j);
  }

  lemma SameInodeOnDisk(sb: Super, st: Store, st': Store, j: nat)
    requires Sized(sb, st) && Sized(sb, st') && j < |st.inodes| && OnDisk(sb, st, j)
    requires st'.inodes[j] == st.inodes[j]
    requires forall b :: 0 <= b < sb.bmapstart ==> st'.blocks[b] == st.blocks[b]
    ensures OnDisk(sb, st', j)
  {
    assert st'.blocks[IBlock(sb, j)] == st.blocks[IBlock(sb, j)];
  }

  // Inodes on disk.

  function InodeWords(n: Inode): seq<Uint> {
    [n.kind, n.link, n.size] + n.addrs
  }

  /** Where the inode starts inside its block, in words. */
  function InodeBase(inum: nat): nat {
    inum % IPB * 16
  }

  /** The on-disk inode agrees with the in-memory one. */
  predicate OnDisk(sb: Super, st: Store, i: nat)
    requires Sized(sb, st) && i < |st.inodes|
  {
    forall j :: 0 <= j < NDIRECT + 4 ==>
      Word(st.blocks[IBlock(sb, i)], InodeBase(i) + j) == InodeWords(st.inodes[i])[j]
  }

  function Iupdated(sb: Super, st: Store, i: nat): Store
    requires Sized(sb, st) && i < |st.inodes|
  {
    var ib := IBlock(sb, i);
    st.(blocks := st.blocks[ib := PutWords(st.blocks[ib], InodeBase(i), InodeWords(st.inodes[i]))])
  }

  lemma SameInodeBlock(i: nat, j: nat)
    requires i != j && i / IPB == j / IPB
    ensures i % IPB != j % IPB
  {
  }

  lemma IupdateOnDisk(sb: Super, st: Store, i: nat, j: nat)
    requires Sized(sb, st) && i < |st.inodes| && j < |st.inodes|
    requires j == i || OnDisk(sb, st, j)
    ensures OnDisk(sb, Iupdated(sb, st, i), j)
  {
    var ib := IBlock(sb, i);
    if j == i || IBlock(sb, j) == ib {
      forall w | 0 <= w < NDIRECT + 4
        ensures Word(Iupdated(sb, st, i).blocks[ib], InodeBase(j) + w) == InodeWords(st.inodes[j])[w]
      {
        if j != i {
          SameInodeBlock(i, j);
        }
        WordOfPutWords(st.blocks[ib], InodeBase(i), InodeWords(st.inodes[i]), InodeBase(j) + w);
      }
    }
  }

  lemma IupdatePointers(sb: Super, st: Store, owner: Owners, i: nat)
    requires Ok(sb, st, owner, {}) && i < |st.inodes|
    ensures Sized(sb, Iupdated(sb, st, i))
    ensures forall j, k :: 0 <= j < |st.inodes| && 0 <= k < SLOTS ==>
              Ptr(Iupdated(sb, st, i), j, k) == Ptr(st, j, k)
    ensures forall b :: sb.bmapstart <= b < sb.size ==> Iupdated(sb, st, i).blocks[b] == st.blocks[b]
  {
    SamePointers(sb, st, Iupdated(sb, st, i), owner);
  }

  lemma IupdateKeeps(sb: Super, st: Store, owner: Owners, i: nat)
    requires Ok(sb, st, owner, {}) && i < |st.inodes|
    ensures Ok(sb, Iupdated(sb, st, i), owner, {})
    ensures forall c :: 0 <= c < sb.size ==> Bit(sb, Iupdated(sb, st, i).blocks, c) == Bit(sb, st.blocks, c)
  {
    IupdatePointers(sb, st, owner, i);
    forall c | 0 <= c < sb.size
      ensures Bit(sb, Iupdated(sb, st, i).blocks, c) == Bit(sb, st.blocks, c)
    {
      BitmapBlockOk(sb, c);
    }
  }

  lemma IupdateFile(sb: Super, st: Store, owner: Owners, i: nat, j: nat)
    requires Ok(sb, st, owner, {}) && i < |st.inodes| && j < |st.inodes|
    ensures Sized(sb, Iupdated(sb, st, i)) && File(sb, Iupdated(sb, st, i), j) == File(sb, st, j)
  {
    IupdatePointers(sb, st, owner, i);
    SameFiles(sb, st, Iupdated(sb, st, i), owner, {}, j);
  }

  /** Same pointers and same data blocks: same files. */
  lemma SameFiles(sb: Super, st: Store, st': Store, owner: Owners, extra: set<nat>, i: nat)
    requires Ok(sb, st, owner, extra) && Sized(sb, st') && i < |st.inodes|
    requires st'.inodes[i].size == st.inodes[i].size
    requires forall k :: 0 <= k < SLOTS ==> Ptr(st', i, k) == Ptr(st, i, k)
    requires forall b :: b in owner && owner[b].0 == i && b < sb.size ==> st'.blocks[b] == st.blocks[b]
    ensures File(sb, st', i) == File(sb, st, i)
  {
    forall off | 0 <= off < st.inodes[i].size
      ensures ByteAt(st', i, off) == ByteAt(st, i, off)
    {
      var bn := off / BSIZE;
      assert bn * BSIZE <= off;
      assert Ptr(st, i, Slot(bn)) != 0;
    }
  }

  // A file system that satisfies all this: one inode block, one bitmap block, one free
  // data block and one empty file.

  function SmallSuper(): Super {
    Super(4, 1, 1, 1, 2)
  }

  function SmallImage(): Store {
    Store([ZeroBlock(), ZeroBlock(), Block(ZeroBlock().bytes[0 := 7]), ZeroBlock()],
          [Inode(0, 0, 0, seq(NDIRECT + 1, _ => 0))])
  }

  lemma SmallBits(b: nat)
    requires b < 4
    ensures Bit(SmallSuper(), SmallImage().blocks, b) <==> b < 3
  {
    var sb, blocks := SmallSuper(), SmallImage().blocks;
    assert BBlock(sb, b) == 2 && b % BPB / 8 == 0 && b % 8 == b;
    assert blocks[2].bytes[0] == 7;
    assert BitOf(7, 0) && BitOf(3, 0) && BitOf(1, 0) && !BitOf(0, 0);
    assert BitOf(7, 1) == BitOf(3, 0) && BitOf(3, 1) == BitOf(1, 0) && BitOf(1, 1) == BitOf(0, 0);
    assert BitOf(7, 2) == BitOf(3, 1) && BitOf(3, 2) == BitOf(1, 1) && BitOf(7, 3) == BitOf(3, 2);
  }

  lemma SmallImageOk()
    ensures Ok(SmallSuper(), SmallImage(), map[], {}) && OnDisk(SmallSuper(), SmallImage(), 0)
    ensures File(SmallSuper(), SmallImage(), 0) == []
  {
    var sb, st := SmallSuper(), SmallImage();
    forall b | 0 <= b < sb.size
      ensures Bit(sb, st.blocks, b) <==> b < DataStart(sb)
    {
      SmallBits(b);
    }
    forall j | 0 <= j < NDIRECT + 4
      ensures Word(st.blocks[IBlock(sb, 0)], InodeBase(0) + j) == InodeWords(st.inodes[0])[j]
    {
      WordOfZeroBlock(InodeBase(0) + j);
    }
  }
}
