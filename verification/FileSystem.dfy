/** fs.c: block allocation, block mapping, truncation, reading and writing, as the
    loops over buffers that the kernel runs. */
module FileSystem {
  import opened Blocks
  import opened FsState
  import opened FileIO
  import Wal
  import opened FileSpec

  class FileSystem {
    const sb: Super
    // The block contents as bread returns them, and the in-core inodes.
    var st: Store
    // The blocks passed to log_write, in order.
    var logged: seq<nat>
    ghost var owner: Owners

    /** Between operations: consistent, and every inode written back. */
    ghost predicate Valid()
      reads this
    {
      Ok(sb, st, owner, {}) && forall i :: 0 <= i < |st.inodes| ==> OnDisk(sb, st, i)
    }

    /** A disk image with the inodes that it holds. */
    constructor (sb: Super, st: Store, ghost owner: Owners)
      requires Ok(sb, st, owner, {}) && forall i :: 0 <= i < |st.inodes| ==> OnDisk(sb, st, i)
      ensures Valid() && this.sb == sb && this.st == st && this.owner == owner && logged == []
    {
      this.sb, this.st, this.owner, logged := sb, st, owner, [];
    }

    method LogWrite(b: nat, data: Block)
      requires b < |st.blocks|
      modifies this`st, this`logged
      ensures st == old(st).(blocks := old(st).blocks[b := data]) && logged == old(logged) + [b]
    {
      st, logged := st.(blocks := st.blocks[b := data]), logged + [b];
    }

    method Bzero(b: nat)
      requires b < |st.blocks|
      modifies this`st, this`logged
      ensures st == old(st).(blocks := old(st).blocks[b := ZeroBlock()]) && logged == old(logged) + [b]
    {
      LogWrite(b, ZeroBlock());
    }

    /** Take block b + bi if its bit is clear; b is the first block of its bitmap block. */
    method TryBit(b: nat, bi: nat, ghost q: nat) returns (found: bool)
      requires Sized(sb, st) && b == q * BPB && bi < BPB && b + bi < sb.size
      modifies this`st, this`logged
      ensures found <==> !Bit(sb, old(st).blocks, b + bi)
      ensures !found ==> st == old(st) && logged == old(logged)
      ensures found ==> st == Allocate(sb, old(st), b + bi) && logged == old(logged) + [BBlock(sb, b + bi), b + bi]
    {
      BitInBlock(sb, st.blocks, b, bi, q);
      var bp := st.blocks[BBlock(sb, b)];
      found := !BitOf(bp.bytes[bi / 8], bi % 8);
      if found {
        LogWrite(BBlock(sb, b), Block(bp.bytes[bi / 8 := PutByteBit(bp.bytes[bi / 8], bi % 8, true)]));
        assert st.blocks == WithBit(sb, old(st).blocks, b + bi, true);
        Bzero(b + bi);
      }
    }

    /** First fit over the bitmap; 0 means the disk is full. */
    method Balloc() returns (r: Uint)
      requires Sized(sb, st) && Bit(sb, st.blocks, 0)
      modifies this`st, this`logged
      ensures r == 0 ==> st == old(st) && logged == old(logged)
      ensures r == 0 ==> DiskFull(sb, st)
      ensures r != 0 ==> r < sb.size && !Bit(sb, old(st).blocks, r)
      ensures r != 0 ==> forall b :: 0 <= b < r ==> Bit(sb, old(st).blocks, b)
      ensures r != 0 ==> st == Allocate(sb, old(st), r) && logged == old(logged) + [BBlock(sb, r), r]
    {
      var b := 0;
      ghost var q: nat := 0;
      while b < sb.size
        invariant b == q * BPB
        invariant st == old(st) && logged == old(logged)
        invariant forall c :: 0 <= c < b && c < sb.size ==> Bit(sb, st.blocks, c)
      {
        var bi := 0;
        while bi < BPB && b + bi < sb.size
          invariant 0 <= bi <= BPB
          invariant st == old(st) && logged == old(logged)
          invariant forall c :: 0 <= c < b + bi && c < sb.size ==> Bit(sb, st.blocks, c)
        {
          var found := TryBit(b, bi, q);
          if found {
            return b + bi;
          }
          bi := bi + 1;
        }
        b, q := b + BPB, q + 1;
      }
      return 0;
    }

    /** Clear a block's bit; freeing a free block is a panic. */
    method Bfree(b: nat) returns (panic: bool)
      requires Sized(sb, st) && b < sb.size
      modifies this`st, this`logged
      ensures panic <==> !Bit(sb, old(st).blocks, b)
      ensures panic ==> st == old(st) && logged == old(logged)
      ensures !panic ==> st == Free(sb, old(st), b) && logged == old(logged) + [BBlock(sb, b)]
    {
      BitmapBlockOk(sb, b);
      var bp := st.blocks[BBlock(sb, b)];
      var bi := b % BPB;
      ByteCoordinate(b / BPB, b / BPB * BPB, bi);
      if !BitOf(bp.bytes[bi / 8], bi % 8) {
        return true;
      }
      LogWrite(BBlock(sb, b), Block(bp.bytes[bi / 8 := PutByteBit(bp.bytes[bi / 8], bi % 8, false)]));
      return false;
    }

    /** Copy the in-memory inode to its inode block. */
    method Iupdate(i: nat)
      requires Sized(sb, st) && i < |st.inodes|
      modifies this`st, this`logged
      ensures st == Iupdated(sb, old(st), i) && logged == old(logged) + [IBlock(sb, i)]
    {
      var ib := IBlock(sb, i);
      LogWrite(ib, PutWords(st.blocks[ib], InodeBase(i), InodeWords(st.inodes[i])));
    }

    /** balloc a block into ip->addrs[k], which is empty. */
    method AllocAddr(i: nat, k: nat) returns (addr: Uint)
      requires Ok(sb, st, owner, {}) && i < |st.inodes| && k <= INDIRECT && Ptr(st, i, k) == 0
      modifies this`st, this`logged, this`owner
      ensures Ok(sb, st, owner, {}) && Extends(sb, old(st), st)
      ensures |st.inodes| == |old(st).inodes| && forall j :: 0 <= j < |st.inodes| && j != i ==>
                st.inodes[j] == old(st).inodes[j]
      ensures addr == 0 ==> st == old(st) && owner == old(owner) && logged == old(logged) && DiskFull(sb, st)
      ensures addr != 0 ==> addr < sb.size && st.inodes[i].addrs == old(st).inodes[i].addrs[k := addr]
      ensures addr != 0 ==> logged == old(logged) + [BBlock(sb, addr), addr]
      ensures addr != 0 && k == INDIRECT ==> forall l :: INDIRECT < l < SLOTS ==> Ptr(st, i, l) == 0
    {
      ghost var st0 := st;
      addr := Balloc();
      if addr == 0 {
        return;
      }
      AllocateAddr(sb, st0, owner, i, k, addr);
      ghost var st1 := st;
      st := st.(inodes := st.inodes[i := st.inodes[i].(addrs := st.inodes[i].addrs[k := addr])]);
      assert st == SetAddr(st1, i, k, addr);
      owner := owner[addr := (i, k)];
    }

    /** balloc a block into an empty entry of the indirect block. */
    method AllocEntry(i: nat, k: nat) returns (addr: Uint)
      requires Ok(sb, st, owner, {}) && i < |st.inodes| && INDIRECT < k < SLOTS
      requires Ptr(st, i, k) == 0 && Ptr(st, i, INDIRECT) != 0
      modifies this`st, this`logged, this`owner
      ensures st.inodes == old(st).inodes
      ensures Ok(sb, st, owner, {}) && Extends(sb, old(st), st)
      ensures addr == 0 ==> st == old(st) && owner == old(owner) && logged == old(logged) && DiskFull(sb, st)
      ensures addr != 0 ==> addr < sb.size && addr == Ptr(st, i, k)
      ensures addr != 0 ==> logged == old(logged) + [BBlock(sb, addr), addr, Ptr(old(st), i, INDIRECT)]
    {
      ghost var st0 := st;
      addr := Balloc();
      if addr != 0 {
        var ind := st.inodes[i].addrs[INDIRECT];
        assert ind == Ptr(st0, i, INDIRECT);
        assert logged + [ind as nat] == old(logged) + [BBlock(sb, addr), addr, ind];
        AllocateEntry(sb, st0, owner, i, k, addr);
        LogWrite(ind, SetWord(st.blocks[ind], k - INDIRECT - 1, addr));
        assert st == SetEntry(Allocate(sb, st0, addr), ind, k, addr);
        owner := owner[addr := (i, k)];
      }
    }

    /** Direct blocks. */
    method MapDirect(i: nat, bn: nat) returns (addr: Uint, ghost bm: set<nat>)
      requires Ok(sb, st, owner, {}) && i < |st.inodes| && bn < NDIRECT
      modifies this`st, this`logged, this`owner
      ensures Ok(sb, st, owner, {}) && |st.inodes| == |old(st).inodes|
      ensures Grew(sb, i, old(st), old(logged), st, logged, {addr as nat}, bm, One(Ptr(old(st), i, bn) == 0))
      ensures addr == Ptr(st, i, bn) && addr < sb.size && (addr == 0 ==> DiskFull(sb, st))
      ensures st.inodes[i].addrs[INDIRECT] == old(st).inodes[i].addrs[INDIRECT]
      ensures Ptr(old(st), i, bn) != 0 ==> st == old(st) && owner == old(owner) && logged == old(logged)
    {
      bm := {};
      addr := st.inodes[i].addrs[bn];
      assert addr == Ptr(st, i, bn);
      if addr == 0 {
        addr := AllocAddr(i, bn);
        if addr != 0 {
          bm := {BBlock(sb, addr)};
        }
      }
    }

    /** The indirect block, allocated if necessary. */
    method MapIndirect(i: nat) returns (addr: Uint, ghost bm: set<nat>)
      requires Ok(sb, st, owner, {}) && i < |st.inodes|
      modifies this`st, this`logged, this`owner
      ensures Ok(sb, st, owner, {}) && |st.inodes| == |old(st).inodes|
      ensures Grew(sb, i, old(st), old(logged), st, logged, {addr as nat}, bm,
                   One(old(st).inodes[i].addrs[INDIRECT] != addr))
      ensures addr == st.inodes[i].addrs[INDIRECT] == Ptr(st, i, INDIRECT) && addr < sb.size
              && (addr == 0 ==> DiskFull(sb, st))
      ensures old(st).inodes[i].addrs[INDIRECT] != 0 || addr == 0 ==>
                st == old(st) && owner == old(owner) && logged == old(logged)
      ensures old(st).inodes[i].addrs[INDIRECT] == 0 ==> forall l :: INDIRECT < l < SLOTS ==> Ptr(st, i, l) == 0
    {
      bm := {};
      addr := st.inodes[i].addrs[INDIRECT];
      assert addr == Ptr(st, i, INDIRECT);
      if addr == 0 {
        addr := AllocAddr(i, INDIRECT);
        if addr != 0 {
          bm := {BBlock(sb, addr)};
        }
      }
    }

    /** Blocks named by the indirect block, which exists. */
    method MapEntry(i: nat, bn: nat) returns (addr: Uint, ghost bm: set<nat>)
      requires Ok(sb, st, owner, {}) && i < |st.inodes| && NDIRECT <= bn < MAXFILE && st.inodes[i].addrs[INDIRECT] != 0
      modifies this`st, this`logged, this`owner
      ensures st.inodes == old(st).inodes
      ensures Ok(sb, st, owner, {}) && |st.inodes| == |old(st).inodes|
      ensures Grew(sb, i, old(st), old(logged), st, logged, {addr as nat, st.inodes[i].addrs[INDIRECT] as nat}, bm,
                   One(Ptr(old(st), i, Slot(bn)) == 0))
      ensures addr == Ptr(st, i, Slot(bn)) && addr < sb.size && (addr == 0 ==> DiskFull(sb, st))
      ensures Ptr(old(st), i, Slot(bn)) != 0 ==> st == old(st) && owner == old(owner) && logged == old(logged)
    {
      bm := {};
      var ind := st.inodes[i].addrs[INDIRECT];
      assert ind == Ptr(st, i, INDIRECT);
      addr := Word(st.blocks[ind], bn - NDIRECT);
      assert addr == Ptr(st, i, Slot(bn));
      GrewNone(sb, i, st, logged, {addr as nat, ind as nat}, One(addr == 0));
      if addr == 0 {
        addr := AllocEntry(i, Slot(bn));
        if addr != 0 {
          bm := {BBlock(sb, addr)};
          GrewEntry(sb, i, old(st), old(logged), st, logged, BBlock(sb, addr), addr, ind);
        }
      }
    }

    /** The disk block of file block bn, allocating it (and the indirect block) if
        missing. addr == 0: the disk is full. */
    method Bmap(i: nat, bn: nat) returns (addr: Uint, panic: bool, ghost bm: set<nat>)
      requires Ok(sb, st, owner, {}) && i < |st.inodes|
      modifies this`st, this`logged, this`owner
      ensures Ok(sb, st, owner, {}) && |st.inodes| == |old(st).inodes|
      ensures panic <==> bn >= MAXFILE
      ensures panic ==> st == old(st) && owner == old(owner) && logged == old(logged)
      ensures !panic ==> addr == Ptr(st, i, Slot(bn)) && addr < sb.size && (addr == 0 ==> DiskFull(sb, st))
      ensures addr != 0 && bn >= NDIRECT ==> st.inodes[i].addrs[INDIRECT] != 0
      ensures Grew(sb, i, old(st), old(logged), st, logged, Touched(addr, bn, st.inodes[i].addrs[INDIRECT]), bm,
                   One(bn < MAXFILE && Ptr(old(st), i, Slot(bn)) == 0)
                   + One(old(st).inodes[i].addrs[INDIRECT] != st.inodes[i].addrs[INDIRECT]))
      ensures old(st).inodes[i].addrs[INDIRECT] != 0 ==>
                st.inodes[i].addrs[INDIRECT] == old(st).inodes[i].addrs[INDIRECT]
      ensures !panic && Ptr(old(st), i, Slot(bn)) != 0 ==> st == old(st) && owner == old(owner) && logged == old(logged)
    {
      panic, bm, addr := false, {}, 0;
      if bn < NDIRECT {
        addr, bm := MapDirect(i, bn);
      } else if bn - NDIRECT < NINDIRECT {
        ghost var bm1;
        addr, bm := MapIndirect(i);
        if addr != 0 {
          ghost var st1, log1, ind := st, logged, addr;
          addr, bm1 := MapEntry(i, bn);
          GrewTwice(sb, i, old(st), old(logged), st1, log1, st, logged, ind, addr, bm, bm1,
                    One(old(st).inodes[i].addrs[INDIRECT] != ind), One(Ptr(st1, i, Slot(bn)) == 0));
          bm := bm + bm1;
        }
      } else {
        panic := true;
      }
    }

    /** One round of itrunc's first loop. */
    method TruncOne(i: nat, k: nat) returns (panic: bool)
      requires Sized(sb, st) && i < |st.inodes| && Ok(sb, SetSize(st, i, 0), owner, {}) && k < NDIRECT
      modifies this`st, this`logged, this`owner
      ensures !panic && st.inodes == old(st).inodes[i := old(st).inodes[i].(addrs := old(st).inodes[i].addrs[k := 0])]
      ensures Sized(sb, st) && Ok(sb, SetSize(st, i, 0), owner, {})
      ensures OnlyBitmap(sb, old(st).blocks, st.blocks)
      ensures var b := old(st).inodes[i].addrs[k];
              if b == 0 then owner == old(owner) && logged == old(logged)
              else b in old(owner) && owner == old(owner) - {b as nat} && logged == old(logged) + [BBlock(sb, b)]
    {
      panic := false;
      var b := st.inodes[i].addrs[k];
      ghost var st0 := st;
      assert b == Ptr(st0, i, k);
      if b != 0 {
        TruncDirect(sb, st0, owner, i, k);
        FreeOnlyBitmap(sb, st0, b);
        panic := Bfree(b);
        st := st.(inodes := st.inodes[i := st.inodes[i].(addrs := st.inodes[i].addrs[k := 0])]);
        owner := owner - {b};
        assert st == SetAddr(Free(sb, st0, b), i, k, 0);
      } else {
        assert st.inodes[i].addrs[k := 0] == st.inodes[i].addrs;
        assert st.inodes[i := st.inodes[i]] == st.inodes;
      }
    }

    /** A round with its log; `all` and log0 are from before the loop. */
    method TruncNext(i: nat, k: nat, ghost all: set<nat>, ghost log0: seq<nat>, ghost bs: seq<nat>)
      returns (panic: bool, ghost bs': seq<nat>)
      requires Sized(sb, st) && i < |st.inodes| && Ok(sb, SetSize(st, i, 0), owner, {}) && k < NDIRECT
      requires owner.Keys <= all && Frees(sb, log0, logged, bs, all - owner.Keys)
      modifies this`st, this`logged, this`owner
      ensures !panic && st.inodes == old(st).inodes[i := old(st).inodes[i].(addrs := old(st).inodes[i].addrs[k := 0])]
      ensures Sized(sb, st) && Ok(sb, SetSize(st, i, 0), owner, {})
      ensures OnlyBitmap(sb, old(st).blocks, st.blocks)
      ensures var b := old(st).inodes[i].addrs[k]; owner == if b == 0 then old(owner) else old(owner) - {b as nat}
      ensures owner.Keys <= all && Frees(sb, log0, logged, bs', all - owner.Keys)
    {
      ghost var b: nat := st.inodes[i].addrs[k];
      panic := TruncOne(i, k);
      bs' := if b == 0 then bs else bs + [b];
      if b != 0 {
        FreesKey(sb, log0, old(logged), bs, all, old(owner), b);
      }
    }

    /** A round of itrunc's first loop, with what the rounds before it did. */
    method TruncRound(i: nat, k: nat, ghost st0: Store, ghost own0: Owners, ghost log0: seq<nat>) returns (panic: bool)
      requires k < NDIRECT && Truncated(sb, st0, own0, log0, st, owner, logged, i, k)
      modifies this`st, this`logged, this`owner
      ensures !panic && Truncated(sb, st0, own0, log0, st, owner, logged, i, k + 1)
    {
      ghost var bs :| TruncedTo(sb, st0, own0, log0, st, owner, logged, bs, i, k);
      ghost var st1, bs' := st, bs;
      WithoutNext(sb, st0, own0, i, k);
      panic, bs' := TruncNext(i, k, own0.Keys, log0, bs);
      CutNext(st0, st1, st, i, k);
      assert TruncedTo(sb, st0, own0, log0, st, owner, logged, bs', i, k + 1);
    }

    /** itrunc's first loop: free the direct blocks. */
    method TruncDirects(i: nat) returns (panic: bool)
      requires Ok(sb, st, owner, {}) && i < |st.inodes|
      modifies this`st, this`logged, this`owner
      ensures !panic && Truncated(sb, old(st), old(owner), old(logged), st, owner, logged, i, NDIRECT)
    {
      TruncStart(sb, st, owner, logged, i);
      panic := false;
      var k := 0;
      while k < NDIRECT
        invariant 0 <= k <= NDIRECT && !panic
        invariant Truncated(sb, old(st), old(owner), old(logged), st, owner, logged, i, k)
      {
        panic := TruncRound(i, k, old(st), old(owner), old(logged));
        k := k + 1;
      }
    }

    /** bfree of a block that no pointer will name once inode i is cut. */
    method FreeDetached(b: nat, ghost i: nat, ghost own: Owners, ghost extra: set<nat>) returns (panic: bool)
      requires Sized(sb, st) && i < |st.inodes| && Ok(sb, Cut(st, i), own, extra) && b in extra
      modifies this`st, this`logged
      ensures !panic && st.inodes == old(st).inodes && OnlyBitmap(sb, old(st).blocks, st.blocks)
      ensures Ok(sb, Cut(st, i), own, extra - {b}) && logged == old(logged) + [BBlock(sb, b)]
    {
      FreeAfterCut(sb, st, own, extra, i, b);
      FreeOnlyBitmap(sb, st, b);
      panic := Bfree(b);
    }

    /** A round of itrunc's second loop. */
    method FreeEntry(b: Uint, ghost i: nat, ghost all: set<nat>, ghost left: set<nat>, ghost log0: seq<nat>,
                     ghost bs: seq<nat>)
      returns (panic: bool, ghost bs': seq<nat>)
      requires Sized(sb, st) && i < |st.inodes| && Ok(sb, Cut(st, i), owner, left) && (b != 0 ==> b in left)
               && left <= all
      requires Frees(sb, log0, logged, bs, all - left)
      modifies this`st, this`logged
      ensures !panic && st.inodes == old(st).inodes && OnlyBitmap(sb, old(st).blocks, st.blocks)
      ensures Sized(sb, st) && Ok(sb, Cut(st, i), owner, Left(left, b))
              && Frees(sb, log0, logged, bs', all - Left(left, b))
    {
      panic, bs' := false, bs;
      if b != 0 {
        panic := FreeDetached(b, i, owner, left);
        bs' := bs + [b as nat];
        FreesOne(sb, log0, old(logged), bs, all - left, b);
        assert all - (left - {b as nat}) == all - left + {b as nat};
      }
    }

    /** itrunc's second loop: free every block that the indirect block bp names. */
    method FreeEntries(i: nat, bp: Block, ghost st0: Store, ghost own0: Owners)
      returns (panic: bool, ghost bs: seq<nat>)
      requires Sized(sb, st) && i < |st.inodes|
      requires Sized(sb, st0) && PointersOwn(sb, st0, own0) && OwnersPoint(sb, st0, own0) && i < |st0.inodes|
      requires forall j :: 0 <= j < NINDIRECT ==> Word(bp, j) == Ptr(st0, i, INDIRECT + 1 + j)
      requires Ok(sb, Cut(st, i), owner, IndirectBlocks(own0, i, 0))
      modifies this`st, this`logged
      ensures !panic && st.inodes == old(st).inodes && OnlyBitmap(sb, old(st).blocks, st.blocks)
      ensures Ok(sb, Cut(st, i), owner, IndirectBlocks(own0, i, NINDIRECT))
      ensures Frees(sb, old(logged), logged, bs, IndirectBlocks(own0, i, 0) - IndirectBlocks(own0, i, NINDIRECT))
    {
      bs := [];
      var j := 0;
      while j < NINDIRECT
        invariant 0 <= j <= NINDIRECT
        invariant st.inodes == old(st).inodes && OnlyBitmap(sb, old(st).blocks, st.blocks)
        invariant Sized(sb, st) && Ok(sb, Cut(st, i), owner, IndirectBlocks(own0, i, j))
        invariant Frees(sb, old(logged), logged, bs, IndirectBlocks(own0, i, 0) - IndirectBlocks(own0, i, j))
      {
        var b := Word(bp, j);
        NextLeft(sb, st0, own0, i, j, b);
        panic, bs := FreeEntry(b, i, IndirectBlocks(own0, i, 0), IndirectBlocks(own0, i, j), old(logged), bs);
        j := j + 1;
      }
      panic := false;
    }

    /** Free what the indirect block names, then the block, then clear its address. */
    method FreeIndirect(i: nat, ghost st0: Store, ghost own0: Owners) returns (panic: bool, ghost bs: seq<nat>)
      requires Sized(sb, st) && i < |st.inodes| && st0 == SetSize(st, i, 0) && Ok(sb, st0, own0, {})
      requires Ptr(st, i, INDIRECT) != 0 && owner == own0 - IndirectBlocks(own0, i, 0)
      modifies this`st, this`logged
      ensures !panic && OnlyBitmap(sb, old(st).blocks, st.blocks)
      ensures st.inodes == old(st).inodes[i := old(st).inodes[i].(addrs := old(st).inodes[i].addrs[INDIRECT := 0])]
      ensures Sized(sb, st) && Ok(sb, SetSize(st, i, 0), owner, {})
      ensures Frees(sb, old(logged), logged, bs, IndirectBlocks(own0, i, 0))
    {
      var ind := st.inodes[i].addrs[INDIRECT];
      assert ind == Ptr(st0, i, INDIRECT);
      LastIndirect(sb, st0, own0, i);
      DetachIndirect(sb, st0, own0, i);
      panic, bs := FreeEntries(i, st.blocks[ind], st0, own0);
      panic, bs := FreeEntry(ind, i, IndirectBlocks(own0, i, 0), {ind as nat}, old(logged), bs);
      assert {ind as nat} - {ind as nat} == {} && IndirectBlocks(own0, i, 0) - {} == IndirectBlocks(own0, i, 0);
      CutDone(sb, st, i);
      st := st.(inodes := st.inodes[i := st.inodes[i].(addrs := st.inodes[i].addrs[INDIRECT := 0])]);
    }

    /** itrunc's second part. */
    method TruncIndirect(i: nat) returns (panic: bool, ghost bs: seq<nat>)
      requires Sized(sb, st) && i < |st.inodes| && Ok(sb, SetSize(st, i, 0), owner, {})
      modifies this`st, this`logged, this`owner
      ensures !panic && OnlyBitmap(sb, old(st).blocks, st.blocks)
      ensures st.inodes == old(st).inodes[i := old(st).inodes[i].(addrs := old(st).inodes[i].addrs[INDIRECT := 0])]
      ensures Sized(sb, st) && Ok(sb, SetSize(st, i, 0), owner, {})
      ensures owner == old(owner) - IndirectBlocks(old(owner), i, 0)
      ensures Frees(sb, old(logged), logged, bs, IndirectBlocks(old(owner), i, 0))
    {
      panic, bs := false, [];
      ghost var st0, own0 := SetSize(st, i, 0), owner;
      owner := own0 - IndirectBlocks(own0, i, 0);
      if st.inodes[i].addrs[INDIRECT] != 0 {
        panic, bs := FreeIndirect(i, st0, own0);
      } else {
        assert Ptr(st0, i, INDIRECT) == 0;
        LastIndirect(sb, st0, own0, i);
        assert owner == own0;
        assert st.inodes[i].addrs[INDIRECT := 0] == st.inodes[i].addrs;
        assert st.inodes[i := st.inodes[i]] == st.inodes;
      }
    }

    /** Both loops of itrunc. */
    method FreeAll(i: nat) returns (panic: bool, ghost bs: seq<nat>)
      requires Ok(sb, st, owner, {}) && i < |st.inodes|
      modifies this`st, this`logged, this`owner
      ensures !panic && Sized(sb, st) && Ok(sb, SetSize(st, i, 0), owner, {}) && owner == Others(old(owner), i)
      ensures CutBelow(old(st), st, i, NDIRECT + 1) && OnlyBitmap(sb, old(st).blocks, st.blocks)
      ensures Frees(sb, old(logged), logged, bs, BlocksOf(old(owner), i))
    {
      ghost var cs;
      panic := TruncDirects(i);
      bs :| TruncedTo(sb, old(st), old(owner), old(logged), st, owner, logged, bs, i, NDIRECT);
      ghost var st1, own1, log1 := st, owner, logged;
      panic, cs := TruncIndirect(i);
      AllGone(old(owner), own1, i);
      CutNext(old(st), st1, st, i, NDIRECT);
      AllFreed(sb, old(logged), log1, logged, old(owner), own1, i, bs, cs);
      bs := bs + cs;
    }

    /** The end of itrunc: size 0, and the inode is written back. */
    method FinishTrunc(i: nat, ghost st0: Store)
      requires Sized(sb, st) && Sized(sb, st0) && i < |st.inodes| && Ok(sb, SetSize(st, i, 0), owner, {})
      requires forall j :: 0 <= j < |st0.inodes| ==> OnDisk(sb, st0, j)
      requires CutBelow(st0, st, i, NDIRECT + 1) && OnlyBitmap(sb, st0.blocks, st.blocks)
      modifies this`st, this`logged
      ensures Valid() && st.inodes == SetSize(old(st), i, 0).inodes
      ensures forall b :: DataStart(sb) <= b < sb.size ==> st.blocks[b] == st0.blocks[b]
      ensures logged == old(logged) + [IBlock(sb, i)]
    {
      st := st.(inodes := st.inodes[i := st.inodes[i].(size := 0)]);
      ghost var st1 := st;
      Iupdate(i);
      IupdateKeeps(sb, st1, owner, i);
      IupdateOnDisk(sb, st1, i, i);
      forall j | 0 <= j < |st.inodes| && j != i
        ensures OnDisk(sb, st, j)
      {
        SameInodeOnDisk(sb, st0, st1, j);
        IupdateOnDisk(sb, st1, i, j);
      }
    }

    /** Truncate inode i: it never panics, frees exactly the blocks the inode owned,
        and touches no other file. */
    method Itrunc(i: nat) returns (panic: bool, ghost txn: seq<nat>)
      requires Valid() && i < |st.inodes|
      modifies this`st, this`logged, this`owner
      ensures !panic && Valid() && |st.inodes| == |old(st).inodes| && SameKind(old(st).inodes[i], st.inodes[i])
      ensures File(sb, st, i) == [] && forall k :: 0 <= k < SLOTS ==> Ptr(st, i, k) == 0
      ensures forall j :: 0 <= j < |st.inodes| && j != i ==>
                st.inodes[j] == old(st).inodes[j] && File(sb, st, j) == File(sb, old(st), j)
      ensures owner == Others(old(owner), i)
      ensures forall b :: 0 <= b < sb.size ==>
                (Bit(sb, st.blocks, b) <==> Bit(sb, old(st).blocks, b) && b !in BlocksOf(old(owner), i))
      ensures logged == old(logged) + txn && TruncLog(sb, txn, BlocksOf(old(owner), i), IBlock(sb, i))
    {
      ghost var bs;
      panic, bs := FreeAll(i);
      TruncLogIs(sb, old(logged), logged, bs, BlocksOf(old(owner), i), IBlock(sb, i));
      txn := Bits(sb, bs) + [IBlock(sb, i)];
      FinishTrunc(i, old(st));
      EmptyNow(sb, st, i);
      BitsNow(sb, old(st).blocks, st.blocks, old(owner), owner, i);
      OtherFiles(sb, old(st), st, old(owner), owner, i);
    }

    /** One round of readi's loop: part of a block of the file, already mapped. */
    method ReadPiece(i: nat, cur: nat, n: nat, ghost f: seq<Byte>) returns (m: nat, addr: Uint, bytes: seq<Byte>)
      requires Ok(sb, st, owner, {}) && Spells(sb, st, i, f)
      requires 0 < n && cur + n <= |f|
      modifies this`st, this`logged, this`owner
      ensures st == old(st) && owner == old(owner) && logged == old(logged)
      ensures 0 < m <= n && addr != 0 && bytes == f[cur..cur + m]
    {
      PieceFits(cur, n);
      m := Piece(cur, n);
      var bn, lo := cur / BSIZE, cur % BSIZE;
      PieceIsSlice(sb, st, owner, i, f, bn, lo, m);
      addr := MappedBlock(i, bn);
      bytes := st.blocks[addr].bytes[lo..lo + m];
    }

    /** bmap of a block that is mapped changes nothing. */
    method MappedBlock(i: nat, bn: nat) returns (addr: Uint)
      requires Ok(sb, st, owner, {}) && i < |st.inodes| && bn < MAXFILE && Ptr(st, i, Slot(bn)) != 0
      modifies this`st, this`logged, this`owner
      ensures st == old(st) && owner == old(owner) && logged == old(logged) && addr == Ptr(st, i, Slot(bn))
    {
      var panic;
      ghost var bm;
      addr, panic, bm := Bmap(i, bn);
    }

    method ReadLoop(i: nat, off: nat, n: nat, writable: nat, ghost f: seq<Byte>) returns (tot: int, data: seq<Byte>)
      requires Ok(sb, st, owner, {}) && Spells(sb, st, i, f) && off + n <= |f|
      modifies this`st, this`logged, this`owner
      ensures st == old(st) && owner == old(owner) && logged == old(logged)
      ensures if n <= writable then tot == n && data == f[off..off + n] else tot == -1
    {
      tot, data := 0, [];
      while tot < n
        invariant 0 <= tot <= n && tot <= writable
        invariant st == old(st) && owner == old(owner) && logged == old(logged)
        invariant data == f[off..off + tot]
      {
        var m, addr, bytes := ReadPiece(i, off + tot, n - tot, f);
        if addr == 0 {
          break;
        }
        if tot + m > writable {
          return -1, data;
        }
        SliceMore(f, off, off + tot, off + tot + m);
        data, tot := data + bytes, tot + m;
      }
    }

    /** Read up to n bytes at off; nothing is allocated or changed. `writable` bytes of
        the destination can be written. */
    method Readi(i: nat, off: Uint, n: Uint, writable: nat) returns (tot: int, data: seq<Byte>)
      requires Ok(sb, st, owner, {}) && i < |st.inodes|
      modifies this`st, this`logged, this`owner
      ensures st == old(st) && owner == old(owner) && logged == old(logged)
      ensures off > st.inodes[i].size || off + n >= UINT_LIMIT ==> tot == 0 && data == []
      ensures off <= st.inodes[i].size && off + n < UINT_LIMIT ==>
                var m := Min(n, st.inodes[i].size - off);
                if m <= writable then tot == m && data == File(sb, st, i)[off..off + m] else tot == -1
    {
      if off > st.inodes[i].size || off + n >= UINT_LIMIT {
        return 0, [];
      }
      FileSpells(sb, st, i);
      tot, data := ReadLoop(i, off, Min(n, st.inodes[i].size - off), writable, File(sb, st, i));
    }

    /** bmap during a write: the data written so far stays. */
    method MapChunk(i: nat, bn: nat, ghost src: seq<Byte>, ghost off: nat, ghost tot: nat, ghost a: Store)
      returns (addr: Uint, ghost bm: set<nat>)
      requires Ok(sb, st, owner, {}) && i < |st.inodes| && Sized(sb, a) && bn < MAXFILE
      requires Framed(sb, a, st, i) && Progress(sb, a, st, i, off, src, tot)
      modifies this`st, this`logged, this`owner
      ensures Ok(sb, st, owner, {}) && Framed(sb, a, st, i) && Progress(sb, a, st, i, off, src, tot)
      ensures addr == Ptr(st, i, Slot(bn)) && addr < sb.size && (addr == 0 ==> DiskFull(sb, st))
      ensures addr != 0 && bn >= NDIRECT ==> st.inodes[i].addrs[INDIRECT] != 0
      ensures MapCost(i, bn, old(st), old(logged), st, logged, addr, bm)
    {
      var panic;
      addr, panic, bm := Bmap(i, bn);
      ExtendsFrame(sb, a, old(st), st, old(owner), i);
      ExtendsProgress(sb, a, old(st), st, old(owner), i, off, src, tot);
    }

    /** The copy into the mapped block p. */
    method PutChunk(ghost i: nat, src: seq<Byte>, ghost off: nat, tot: nat, ghost bn: nat, lo: nat, m: nat, p: nat,
                    ghost a: Store)
      requires Ok(sb, st, owner, {}) && i < |st.inodes| && Sized(sb, a) && Framed(sb, a, st, i)
               && Progress(sb, a, st, i, off, src, tot)
      requires 0 < m && tot + m <= |src| && off + tot == bn * BSIZE + lo && bn < MAXFILE && lo + m <= BSIZE
      requires p == Ptr(st, i, Slot(bn)) && 0 < p < sb.size
      modifies this`st, this`logged
      ensures Ok(sb, st, owner, {}) && Framed(sb, a, st, i) && Progress(sb, a, st, i, off, src, tot + m)
      ensures st.inodes == old(st).inodes && logged == old(logged) + [p]
    {
      WriteFrame(sb, a, st, owner, i, bn, lo, src[tot..tot + m]);
      WriteProgress(sb, a, st, owner, i, off, src, tot, bn, lo, m);
      LogWrite(p, Splice(st.blocks[p], lo, src[tot..tot + m]));
    }

    /** A copy into the mapped block p that fails after m bytes: no log_write. */
    method TearChunk(ghost i: nat, src: seq<Byte>, ghost off: nat, tot: nat, ghost bn: nat, lo: nat, m: nat, p: nat,
                     ghost a: Store)
      requires Ok(sb, st, owner, {}) && i < |st.inodes| && Sized(sb, a) && Framed(sb, a, st, i)
               && Progress(sb, a, st, i, off, src, tot)
      requires tot + m <= |src| && off + tot == bn * BSIZE + lo && bn < MAXFILE && lo + m <= BSIZE
      requires p == Ptr(st, i, Slot(bn)) && 0 < p < sb.size
      modifies this`st
      ensures Ok(sb, st, owner, {}) && Framed(sb, a, st, i) && Progress(sb, a, st, i, off, src, tot + m)
      ensures st.inodes == old(st).inodes
    {
      if m > 0 {
        WriteFrame(sb, a, st, owner, i, bn, lo, src[tot..tot + m]);
        WriteProgress(sb, a, st, owner, i, off, src, tot, bn, lo, m);
        st := WriteAt(st, p, lo, src[tot..tot + m]);
      }
    }

    /** The copy of m bytes into the mapped block p, or of what the source gives of them. */
    method CopyChunk(ghost i: nat, src: seq<Byte>, stored: nat, readable: nat, ghost off: nat, tot: nat, ghost bn: nat,
                     lo: nat, m: nat, p: nat, ghost a: Store)
      returns (ok: bool, ghost torn: nat)
      requires Ok(sb, st, owner, {}) && i < |st.inodes| && Sized(sb, a) && Framed(sb, a, st, i)
               && Progress(sb, a, st, i, off, src, tot)
      requires 0 < m && tot + m <= |src| && off + tot == bn * BSIZE + lo && bn < MAXFILE && lo + m <= BSIZE
      requires p == Ptr(st, i, Slot(bn)) && 0 < p < sb.size && tot <= readable
      modifies this`st, this`logged
      ensures Ok(sb, st, owner, {}) && Framed(sb, a, st, i)
      ensures Progress(sb, a, st, i, off, src, if ok then tot + m else tot + torn)
      ensures st.inodes == old(st).inodes && logged == if ok then old(logged) + [p] else old(logged)
      ensures if ok then tot + m <= readable else Halts(false, stored, readable, tot, m, torn)
    {
      torn := 0;
      ok := tot + m <= readable;
      if ok {
        PutChunk(i, src, off, tot, bn, lo, m, p, a);
      } else {
        torn := Min(stored, readable - tot);
        TearChunk(i, src, off, tot, bn, lo, Min(stored, readable - tot), p, a);
      }
    }

    /** One round of writei's loop: m bytes at position lo of file block bn. */
    method WriteChunk(i: nat, src: seq<Byte>, stored: nat, readable: nat, ghost off: nat, tot: nat, bn: nat, lo: nat,
                      m: nat, ghost a: Store)
      returns (ok: bool, ghost torn: nat, ghost addr: nat, ghost bm: set<nat>)
      requires Ok(sb, st, owner, {}) && i < |st.inodes| && Sized(sb, a) && tot <= readable
      requires Framed(sb, a, st, i) && Progress(sb, a, st, i, off, src, tot)
      requires 0 < m && tot + m <= |src| && off + tot == bn * BSIZE + lo && bn < MAXFILE && lo + m <= BSIZE
      modifies this`st, this`logged, this`owner
      ensures Ok(sb, st, owner, {}) && Framed(sb, a, st, i)
      ensures Progress(sb, a, st, i, off, src, if ok then tot + m else tot + torn)
      ensures if ok then tot + m <= readable && (bn >= NDIRECT ==> st.inodes[i].addrs[INDIRECT] != 0)
              else Halts(DiskFull(sb, st) && off + tot >= st.inodes[i].size, stored, readable, tot, m, torn)
      ensures MapCost(i, bn, old(st), old(logged), st, logged, addr, bm)
    {
      var p;
      p, bm := MapChunk(i, bn, src, off, tot, a);
      ghost var st1, log1 := st, logged;
      addr, ok, torn := p, false, 0;
      if p == 0 {
        UnmappedPast(sb, st, owner, i, bn);
      } else {
        ok, torn := CopyChunk(i, src, stored, readable, off, tot, bn, lo, m, p, a);
        MapCostData(i, bn, old(st), old(logged), st1, log1, addr, bm, st, logged);
      }
    }

    /** Write src at off. `readable` bytes of it can be read, and a copy that fails stores
        `stored` bytes before it does, if so many can be read: `torn` of them, past the bytes
        that count. The inode is written back even when nothing else was. */
    method Writei(i: nat, src: seq<Byte>, stored: nat, readable: nat, off: Uint)
      returns (r: int, ghost torn: nat, ghost touched: set<nat>)
      requires Valid() && i < |st.inodes| && |src| < UINT_LIMIT
      modifies this`st, this`logged, this`owner
      ensures r == -1 <==> off > old(st).inodes[i].size || off + |src| > MAXFILE * BSIZE
      ensures r == -1 ==> st == old(st) && owner == old(owner) && logged == old(logged)
      ensures Valid() && |st.inodes| == |old(st).inodes| && SameKind(old(st).inodes[i], st.inodes[i])
      ensures r != -1 ==> 0 <= r && r + torn <= |src| && r + torn <= readable
      ensures r != -1 ==> Files(sb, st) == WroteTo(Files(sb, old(st)), i, off, src, r, torn)
      ensures forall j :: 0 <= j < |st.inodes| && j != i ==> st.inodes[j] == old(st).inodes[j]
      ensures if 0 <= r < |src|
              then Ends(DiskFull(sb, st), old(st).inodes[i].size, stored, readable, off, |src|, r, torn)
              else torn == 0
      ensures r != -1 ==>
                (File(sb, st, i) == Overwrite(File(sb, old(st), i), off, src[..r]) <==>
                 Untorn(File(sb, old(st), i), off, src, stored, readable))
      ensures TornOff(stored, readable, |src|, r, torn) && (0 <= r < |src| ==> DiskFull(sb, st) || readable < |src|)
      ensures r != -1 ==>
                logged != [] && Logs(old(logged), logged[..|logged| - 1], touched)
                    && logged[|logged| - 1] == IBlock(sb, i)
      ensures |src| <= MAX_WRITE ==> |touched| < Wal.MAXOPBLOCKS
    {
      torn, touched := 0, {};
      if off > st.inodes[i].size || off + |src| >= UINT_LIMIT {
        return -1, torn, touched;
      }
      if off + |src| > MAXFILE * BSIZE {
        return -1, torn, touched;
      }
      r, torn, touched := WriteIn(i, src, stored, readable, off);
    }

    /** writei of a range that is allowed. */
    method WriteIn(i: nat, src: seq<Byte>, stored: nat, readable: nat, off: Uint)
      returns (tot: nat, ghost torn: nat, ghost touched: set<nat>)
      requires Valid() && i < |st.inodes| && off <= st.inodes[i].size && off + |src| <= MAXFILE * BSIZE
      modifies this`st, this`logged, this`owner
      ensures Valid() && |st.inodes| == |old(st).inodes| && SameKind(old(st).inodes[i], st.inodes[i])
      ensures tot + torn <= |src| && tot + torn <= readable
      ensures Files(sb, st) == WroteTo(Files(sb, old(st)), i, off, src, tot, torn)
      ensures forall j :: 0 <= j < |st.inodes| && j != i ==> st.inodes[j] == old(st).inodes[j]
      ensures if tot < |src|
              then Ends(DiskFull(sb, st), old(st).inodes[i].size, stored, readable, off, |src|, tot, torn)
              else torn == 0
      ensures File(sb, st, i) == Overwrite(File(sb, old(st), i), off, src[..tot]) <==>
              Untorn(File(sb, old(st), i), off, src, stored, readable)
      ensures TornOff(stored, readable, |src|, tot, torn) && (tot < |src| ==> DiskFull(sb, st) || readable < |src|)
      ensures logged != [] && Logs(old(logged), logged[..|logged| - 1], touched)
              && logged[|logged| - 1] == IBlock(sb, i)
      ensures |src| <= MAX_WRITE ==> |touched| < Wal.MAXOPBLOCKS
    {
      ghost var a := st;
      tot, torn, touched := WriteLoop(i, src, stored, readable, off);
      ghost var full := DiskFull(sb, st);
      FinishWrite(i, src, off, tot, torn, a);
      TornIff(File(sb, a, i), off, src, stored, readable, full, tot, torn);
      WriteFiles(sb, a, st, i, off, src, tot, torn);
    }

    /** One transaction of a file write: what it does to the contents, and what it logs. */
    method WriteTransaction(i: nat, src: seq<Byte>, stored: nat, readable: nat, off: Uint, ghost now: seq<seq<Byte>>)
      returns (r: int, ghost torn: nat, ghost now': seq<seq<Byte>>)
      requires Valid() && i < |st.inodes| && |src| <= MAX_WRITE && SpellsAll(sb, st, now)
      modifies this`st, this`logged, this`owner
      ensures Valid() && |st.inodes| == |old(st).inodes| && SpellsAll(sb, st, now')
      ensures Added(old(logged), logged, r == -1)
      ensures if off > |now[i]| || off + |src| > MAXFILE * BSIZE then r == -1 && torn == 0 && now' == now
              else 0 <= r && r + torn <= |src| && r + torn <= readable && now' == WroteTo(now, i, off, src, r, torn)
      ensures 0 <= r < |src| ==> DiskFull(sb, st) || readable < |src|
      ensures (r == |src| ==> torn == 0) && TornOff(stored, readable, |src|, r, torn)
    {
      ghost var touched;
      r, torn, touched := Writei(i, src, stored, readable, off);
      now' := SpelledAfter(sb, old(st), st, now, i, off, src, r, torn);
      WriteFits(old(logged), logged, touched, IBlock(sb, i), r == -1);
    }

    /** The next transaction of a write of src, k bytes of which are done. */
    method WriteNext(i: nat, src: seq<Byte>, stored: nat, readable: nat, off: Uint, k: nat, n1: nat,
                     ghost fs: seq<seq<Byte>>, ghost now: seq<seq<Byte>>)
      returns (w: int, ghost torn: nat, ghost now': seq<seq<Byte>>)
      requires Valid() && i < |st.inodes| && 0 < n1 <= MAX_WRITE && k + n1 <= |src| && k <= readable
               && off + k < UINT_LIMIT
      requires SpellsAll(sb, st, now) && Written(fs, now, i, off, src, k, 0)
      modifies this`st, this`logged, this`owner
      ensures Valid() && |st.inodes| == |old(st).inodes| && SpellsAll(sb, st, now')
      ensures Added(old(logged), logged, w == -1)
      ensures -1 <= w <= n1 && Written(fs, now', i, off, src, k + Max0(w), torn)
      ensures w > 0 ==> k + w <= readable && off + k + w < UINT_LIMIT
      ensures w != n1 ==> Excused(fs, i, off, src, readable, DiskFull(sb, st))
      ensures (w == n1 ==> torn == 0) && TornOff(stored, readable, |src|, k + Max0(w), torn)
    {
      w, torn, now' := WriteTransaction(i, src[k..k + n1], stored, readable - k, off + k, now);
      WrittenNext(fs, now, now', i, off, src, k, n1, w, torn);
    }

    /** A round of filewrite's loop: n1 bytes from the k-th on. */
    method WriteChunks(i: nat, src: seq<Byte>, stored: nat, readable: nat, off: Uint, k: nat, n1: nat,
                       ghost fs: seq<seq<Byte>>, ghost now: seq<seq<Byte>>)
      returns (k': nat, ok: bool, off': Uint, ghost w: int, ghost torn: nat, ghost now': seq<seq<Byte>>)
      requires Valid() && i < |st.inodes| && SpellsAll(sb, st, now) && 0 < n1 <= MAX_WRITE && k + n1 <= |src|
      requires InWrite(fs, now, i, off, src, stored, readable, DiskFull(sb, st), k, true, off + k, 0)
      modifies this`st, this`logged, this`owner
      ensures Valid() && |st.inodes| == |old(st).inodes| && SpellsAll(sb, st, now')
      ensures InWrite(fs, now', i, off, src, stored, readable, DiskFull(sb, st), k', ok, off', torn)
      ensures -1 <= w <= n1 && ok == (w == n1) && k' == (if ok then k + w else k) && off' == off + k + Max0(w)
      ensures Added(old(logged), logged, w == -1)
    {
      var r;
      r, torn, now' := WriteNext(i, src, stored, readable, off, k, n1, fs, now);
      off' := off + k;
      if r > 0 {
        off' := off' + r;
      }
      ok := r == n1;
      k' := if ok then k + r else k;
      w := r;
      StillInWrite(fs, now', i, off, src, stored, readable, DiskFull(sb, st), k, n1, w, k', ok, off', torn);
    }

    /** The same with the account of its transaction. */
    method WriteStep(i: nat, src: seq<Byte>, stored: nat, readable: nat, off: Uint, k: nat, ghost fs: seq<seq<Byte>>,
                     ghost now: seq<seq<Byte>>, ghost log0: seq<nat>)
      returns (k': nat, ok: bool, off': Uint, ghost torn: nat, ghost now': seq<seq<Byte>>)
      requires Valid() && i < |st.inodes| && SpellsAll(sb, st, now) && Booked(log0, logged, |src|, k, true, k)
      requires InWrite(fs, now, i, off, src, stored, readable, DiskFull(sb, st), k, true, off + k, 0) && k < |src|
      modifies this`st, this`logged, this`owner
      ensures Valid() && |st.inodes| == |old(st).inodes| && SpellsAll(sb, st, now')
      ensures InWrite(fs, now', i, off, src, stored, readable, DiskFull(sb, st), k', ok, off', torn)
      ensures k <= k' && (ok ==> k < k')
      ensures Booked(log0, logged, |src|, k', ok, off' - off)
    {
      var n1 := Min(|src| - k, MAX_WRITE);
      ghost var w;
      k', ok, off', w, torn, now' := WriteChunks(i, src, stored, readable, off, k, n1, fs, now);
      assert Booked(log0, logged, |src|, k', ok, off' - off) by {
        BookNext(log0, old(logged), logged, |src|, k, n1, w, k', ok, off' - off);
      }
    }

    /** file.c filewrite: a write of any length as a run of transactions, each of which
        fits in the log. The offset moves past what was written; the result is all or
        an error. */
    method Filewrite(i: nat, src: seq<Byte>, stored: nat, readable: nat, off: Uint)
      returns (r: int, off': Uint, ghost torn: nat, ghost txns: seq<seq<nat>>)
      requires Valid() && i < |st.inodes| && |src| < UINT_LIMIT
      modifies this`st, this`logged, this`owner
      ensures Valid() && |st.inodes| == |old(st).inodes|
      ensures off <= off' <= off + |src| && r == if off' == off + |src| then |src| else -1
      ensures Written(Files(sb, old(st)), Files(sb, st), i, off, src, off' - off, torn)
      ensures (r != -1 ==> torn == 0) && TornOff(stored, readable, |src|, off' - off, torn)
      ensures AllFit(old(logged), logged, txns)
      ensures |txns| == if r == -1 then (off' - off) / MAX_WRITE + 1 else (|src| + MAX_WRITE - 1) / MAX_WRITE
      ensures r == -1 ==> Excused(Files(sb, old(st)), i, off, src, readable, DiskFull(sb, st))
    {
      ghost var fs := Files(sb, st);
      FilesSpell(sb, st);
      var k, ok;
      ghost var now;
      k, ok, off', torn, now := WriteAll(i, src, stored, readable, off, fs);
      SpellsFiles(sb, st, now);
      txns := AllBooked(old(logged), logged, |src|, k, ok, off' - off);
      WriteEnds(fs, now, i, off, src, stored, readable, DiskFull(sb, st), k, ok, off', torn);
      r := if k == |src| then |src| else -1;
    }

    /** filewrite's loop. */
    method WriteAll(i: nat, src: seq<Byte>, stored: nat, readable: nat, off: Uint, ghost fs: seq<seq<Byte>>)
      returns (k: nat, ok: bool, off': Uint, ghost torn: nat, ghost now: seq<seq<Byte>>)
      requires Valid() && i < |st.inodes| && |src| < UINT_LIMIT && SpellsAll(sb, st, fs)
      modifies this`st, this`logged, this`owner
      ensures Valid() && |st.inodes| == |old(st).inodes| && SpellsAll(sb, st, now) && (ok ==> k == |src|)
      ensures InWrite(fs, now, i, off, src, stored, readable, DiskFull(sb, st), k, ok, off', torn)
      ensures Booked(old(logged), logged, |src|, k, ok, off' - off)
    {
      k, ok, off', torn, now := 0, true, off, 0, fs;
      WriteNothing(fs, i, off, src);
      NoneBooked(logged, |src|);
      while k < |src| && ok
        invariant Valid() && |st.inodes| == |old(st).inodes| && SpellsAll(sb, st, now)
        invariant InWrite(fs, now, i, off, src, stored, readable, DiskFull(sb, st), k, ok, off', torn)
        invariant Booked(old(logged), logged, |src|, k, ok, off' - off)
        decreases |src| - k, ok
      {
        k, ok, off', torn, now := WriteStep(i, src, stored, readable, off, k, fs, now, old(logged));
      }
    }

    /** The data part of writei. */
    method WriteLoop(i: nat, src: seq<Byte>, stored: nat, readable: nat, off: nat)
      returns (tot: nat, ghost torn: nat, ghost touched: set<nat>)
      requires Ok(sb, st, owner, {}) && i < |st.inodes| && off <= st.inodes[i].size && off + |src| <= MAXFILE * BSIZE
      modifies this`st, this`logged, this`owner
      ensures tot + torn <= |src| && tot + torn <= readable && TornOff(stored, readable, |src|, tot, torn)
      ensures Ok(sb, st, owner, {}) && |st.inodes| == |old(st).inodes|
      ensures tot < |src| ==> DiskFull(sb, st) || readable < |src|
      ensures Framed(sb, old(st), st, i) && Progress(sb, old(st), st, i, off, src, tot + torn)
      ensures if tot < |src|
              then Ends(DiskFull(sb, st), old(st).inodes[i].size, stored, readable, off, |src|, tot, torn)
              else torn == 0
      ensures Logs(old(logged), logged, touched)
      ensures |src| <= MAX_WRITE ==> |touched| < Wal.MAXOPBLOCKS
    {
      ghost var a, ind0, used, t := st, st.inodes[i].addrs[INDIRECT], false, 0;
      tot, torn, touched := 0, 0, {};
      while tot < |src|
        invariant 0 <= tot <= |src| && tot <= readable && torn == 0
        invariant Ok(sb, st, owner, {}) && Framed(sb, a, st, i) && Progress(sb, a, st, i, off, src, tot)
        invariant Paid(touched, t, used, off, |src|, ind0, st.inodes[i].addrs[INDIRECT], old(logged), logged)
        invariant (used ==> st.inodes[i].addrs[INDIRECT] != 0) && Round(off, |src|, tot, t)
      {
        var m;
        m, torn, touched, used :=
          WriteRound(i, src, stored, readable, off, tot, a, touched, t, used, ind0, old(logged));
        t := t + 1;
        if m == 0 {
          break;
        }
        tot := tot + m;
      }
      if |src| <= MAX_WRITE {
        PaidBound(touched, t, used, off, |src|, ind0, st.inodes[i].addrs[INDIRECT], old(logged), logged);
      }
    }

    /** A round with its account. */
    method WriteRound(i: nat, src: seq<Byte>, stored: nat, readable: nat, off: nat, tot: nat, ghost a: Store,
                      ghost touched: set<nat>, ghost t: nat, ghost used: bool, ghost ind0: nat, ghost log0: seq<nat>)
      returns (m: nat, ghost torn: nat, ghost touched': set<nat>, ghost used': bool)
      requires Ok(sb, st, owner, {}) && i < |st.inodes| && Sized(sb, a) && tot < |src| && off <= a.inodes[i].size
      requires Framed(sb, a, st, i) && Progress(sb, a, st, i, off, src, tot) && tot <= readable
      requires Paid(touched, t, used, off, |src|, ind0, st.inodes[i].addrs[INDIRECT], log0, logged)
      requires (used ==> st.inodes[i].addrs[INDIRECT] != 0) && Round(off, |src|, tot, t)
      modifies this`st, this`logged, this`owner
      ensures Ok(sb, st, owner, {}) && |st.inodes| == |old(st).inodes| && Framed(sb, a, st, i)
      ensures tot + m + torn <= |src| && Progress(sb, a, st, i, off, src, tot + m + torn)
      ensures if m == 0 then Ends(DiskFull(sb, st), a.inodes[i].size, stored, readable, off, |src|, tot, torn)
              else torn == 0
      ensures tot + m + torn <= readable && TornOff(stored, readable, |src|, tot, torn)
      ensures m == 0 ==> DiskFull(sb, st) || readable < |src|
      ensures Paid(touched', t + 1, used', off, |src|, ind0, st.inodes[i].addrs[INDIRECT], log0, logged)
      ensures m > 0 ==> tot + m <= readable && Round(off, |src|, tot + m, t + 1)
      ensures m > 0 ==> (used' ==> st.inodes[i].addrs[INDIRECT] != 0)
    {
      var ok;
      m, ok, torn, touched', used' := WritePaid(i, src, stored, readable, off, tot, a, touched, t, used, ind0, log0);
      if ok {
        torn := 0;
      } else {
        RoundStops(DiskFull(sb, st), a.inodes[i].size, stored, readable, off, |src|, tot, torn, t, m);
        m := 0;
      }
    }

    /** A round and what it costs. */
    method WritePaid(i: nat, src: seq<Byte>, stored: nat, readable: nat, off: nat, tot: nat, ghost a: Store,
                     ghost touched: set<nat>, ghost t: nat, ghost used: bool, ghost ind0: nat, ghost log0: seq<nat>)
      returns (m: nat, ok: bool, ghost torn: nat, ghost touched': set<nat>, ghost used': bool)
      requires Ok(sb, st, owner, {}) && i < |st.inodes| && Sized(sb, a) && tot < |src| && off <= a.inodes[i].size
      requires Framed(sb, a, st, i) && Progress(sb, a, st, i, off, src, tot) && tot <= readable
      requires Paid(touched, t, used, off, |src|, ind0, st.inodes[i].addrs[INDIRECT], log0, logged)
      requires (used ==> st.inodes[i].addrs[INDIRECT] != 0) && Round(off, |src|, tot, t)
      modifies this`st, this`logged, this`owner
      ensures Ok(sb, st, owner, {}) && |st.inodes| == |old(st).inodes| && Framed(sb, a, st, i)
      ensures m == Piece(off + tot, |src| - tot) && 0 < m && tot + m <= |src|
      ensures Progress(sb, a, st, i, off, src, if ok then tot + m else tot + torn)
      ensures if ok then tot + m <= readable && (used' ==> st.inodes[i].addrs[INDIRECT] != 0)
              else Halts(DiskFull(sb, st) && off + tot >= a.inodes[i].size, stored, readable, tot, m, torn)
      ensures Paid(touched', t + 1, used', off, |src|, ind0, st.inodes[i].addrs[INDIRECT], log0, logged)
      ensures Round(off, |src|, tot + m, t + 1)
    {
      ghost var st0, log1 := st, logged;
      ghost var bn, addr, bm;
      m, ok, torn, bn, addr, bm := WritePart(i, src, stored, readable, off, tot, a);
      touched', used' := PayPart(i, bn, st0, log1, st, logged, addr, bm, touched, t, used, off, |src|, tot, ind0, log0,
                                 m);
    }

    /** A round as the loop computes it: the part of src that fits in the next block. */
    method WritePart(i: nat, src: seq<Byte>, stored: nat, readable: nat, off: nat, tot: nat, ghost a: Store)
      returns (m: nat, ok: bool, ghost torn: nat, ghost bn: nat, ghost addr: nat, ghost bm: set<nat>)
      requires Ok(sb, st, owner, {}) && i < |st.inodes| && Sized(sb, a) && tot < |src| && off <= a.inodes[i].size
      requires Framed(sb, a, st, i) && Progress(sb, a, st, i, off, src, tot) && tot <= readable
      modifies this`st, this`logged, this`owner
      ensures Ok(sb, st, owner, {}) && Framed(sb, a, st, i)
      ensures m == Piece(off + tot, |src| - tot) && 0 < m && tot + m <= |src| && bn < MAXFILE
      ensures Progress(sb, a, st, i, off, src, if ok then tot + m else tot + torn)
      ensures if ok then tot + m <= readable && (bn >= NDIRECT ==> st.inodes[i].addrs[INDIRECT] != 0)
              else Halts(DiskFull(sb, st) && off + tot >= st.inodes[i].size, stored, readable, tot, m, torn)
      ensures MapCost(i, bn, old(st), old(logged), st, logged, addr, bm)
      ensures off % BSIZE != 0 && tot == 0 ==> Ptr(old(st), i, Slot(bn)) != 0
    {
      var cur := off + tot;
      var b := cur / BSIZE;
      PieceFits(cur, |src| - tot);
      m := Piece(cur, |src| - tot);
      InsideIsMapped(sb, st, owner, i, off, tot, b);
      bn := b;
      ok, torn, addr, bm := WriteChunk(i, src, stored, readable, off, tot, b, cur % BSIZE, m, a);
    }

    /** The end of writei: raise the size, write the inode back. */
    method FinishWrite(i: nat, ghost src: seq<Byte>, off: nat, tot: nat, ghost torn: nat, ghost a: Store)
      requires Ok(sb, st, owner, {}) && Sized(sb, a) && i < |st.inodes| && off <= a.inodes[i].size
      requires forall j :: 0 <= j < |a.inodes| ==> OnDisk(sb, a, j)
      requires Framed(sb, a, st, i) && Progress(sb, a, st, i, off, src, tot + torn)
      modifies this`st, this`logged
      ensures Valid() && |st.inodes| == |a.inodes| && SameKind(a.inodes[i], st.inodes[i])
      ensures File(sb, st, i) == Landed(File(sb, a, i), off, src, tot, torn)
      ensures forall j :: 0 <= j < |st.inodes| && j != i ==>
                st.inodes[j] == a.inodes[j] && File(sb, st, j) == File(sb, a, j)
      ensures logged == old(logged) + [IBlock(sb, i)]
      ensures DiskFull(sb, old(st)) ==> DiskFull(sb, st)
    {
      GrowKeeps(sb, a, st, owner, i, off, src, tot, torn);
      ghost var st1 := SetSize(st, i, NewSize(a.inodes[i].size, off + tot));
      WriteDone(sb, a, st, i, off, src, tot, torn, st1);
      IupdateKeeps(sb, st1, owner, i);
      IupdateFile(sb, st1, owner, i, i);
      IupdateOnDisk(sb, st1, i, i);
      forall j | 0 <= j < |st.inodes| && j != i
        ensures OnDisk(sb, Iupdated(sb, st1, i), j) && File(sb, Iupdated(sb, st1, i), j) == File(sb, a, j)
      {
        OtherWrittenBack(sb, a, st, owner, i, j, st1);
      }
      if off + tot > st.inodes[i].size {
        st := st.(inodes := st.inodes[i := st.inodes[i].(size := off + tot)]);
      } else {
        assert st.inodes[i := st.inodes[i]] == st.inodes;
      }
      assert st == st1;
      Iupdate(i);
    }
  }
}
