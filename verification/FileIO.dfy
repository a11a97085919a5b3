/** What a chunked write does to file contents. Bytes are addressed by file block and
    position in the block; offset bn * BSIZE + w is byte w of block bn. */
module FileIO {
  import opened Blocks
  import opened FsState

  /** The bytes of `data` written over f from `off` on, extending it if needed. */
  function Overwrite(f: seq<Byte>, off: nat, data: seq<Byte>): seq<Byte>
    requires off <= |f|
  {
    f[..off] + data + if off + |data| < |f| then f[off + |data|..] else []
  }

  function NewSize(size: nat, end: nat): nat {
    if end > size then end else size
  }

  /** A write of which r bytes count, when the copy that failed stored `torn` more: they show
      as far as the file goes, and do not lengthen it. */
  function Landed(f: seq<Byte>, off: nat, src: seq<Byte>, r: nat, torn: nat): seq<Byte>
    requires off <= |f| && r + torn <= |src|
  {
    seq(NewSize(|f|, off + r), o requires 0 <= o < NewSize(|f|, off + r) =>
      if off <= o < off + r + torn then src[o - off] else f[o])
  }

  /** The file has been overwritten with exactly the r bytes that count if and only if the
      other bytes stored are past its end or were there already. */
  lemma LandedIff(f: seq<Byte>, off: nat, src: seq<Byte>, r: nat, torn: nat)
    requires off <= |f| && r + torn <= |src|
    ensures Landed(f, off, src, r, torn) == Overwrite(f, off, src[..r]) <==>
            forall o :: off + r <= o < off + r + torn && o < |f| ==> f[o] == src[o - off]
  {
    var g, h := Landed(f, off, src, r, torn), Overwrite(f, off, src[..r]);
    assert |g| == |h|;
    forall o | 0 <= o < |h|
      ensures g[o] == h[o] <==> (off + r <= o < off + r + torn && o < |f| ==> f[o] == src[o - off])
    {
    }
    if forall o :: off + r <= o < off + r + torn && o < |f| ==> f[o] == src[o - off] {
      assert g == h;
    }
  }

  /** Writing twice in a row is writing once. */
  lemma LandedTwice(f: seq<Byte>, off: nat, src: seq<Byte>, k: nat, n: nat, w: nat, torn: nat)
    requires off <= |f| && w + torn <= n && k + n <= |src|
    ensures |Landed(f, off, src, k, 0)| >= off + k
    ensures Landed(Landed(f, off, src, k, 0), off + k, src[k..k + n], w, torn) == Landed(f, off, src, k + w, torn)
  {
    var g := Landed(f, off, src, k, 0);
    var x, y := Landed(g, off + k, src[k..k + n], w, torn), Landed(f, off, src, k + w, torn);
    assert |x| == |y|;
    forall o | 0 <= o < |y|
      ensures x[o] == y[o]
    {
    }
  }

  function Splice(b: Block, lo: nat, data: seq<Byte>): Block
    requires lo + |data| <= BSIZE
  {
    Block(b.bytes[..lo] + data + b.bytes[lo + |data|..])
  }

  predicate Within(bn: nat, w: nat) {
    bn < MAXFILE && w < BSIZE
  }

  /** Offset o lies in the `tot` bytes from `off` on. */
  predicate Inside(off: nat, tot: nat, o: nat) {
    off <= o < off + tot
  }

  lemma CellOfOffset(st: Store, i: nat, bn: nat, w: nat)
    requires i < |st.inodes| && |st.inodes[i].addrs| == NDIRECT + 1 && Within(bn, w)
    ensures ByteAt(st, i, bn * BSIZE + w) == Cell(st, i, bn, w)
  {
    var o := bn * BSIZE + w;
    assert o / BSIZE == bn && o % BSIZE == w;
  }

  lemma FileCell(sb: Super, st: Store, i: nat, bn: nat, w: nat)
    requires Sized(sb, st) && i < |st.inodes| && Within(bn, w) && bn * BSIZE + w < st.inodes[i].size
    ensures File(sb, st, i)[bn * BSIZE + w] == Cell(st, i, bn, w)
  {
    CellOfOffset(st, i, bn, w);
  }

  lemma SameSlices(s: seq<Byte>, lo: nat, f: seq<Byte>, base: nat, m: nat)
    requires lo + m <= |s| && base + lo + m <= |f|
    requires forall w :: lo <= w < lo + m ==> s[w] == f[base + w]
    ensures s[lo..lo + m] == f[base + lo..base + lo + m]
  {
    var x, y := s[lo..lo + m], f[base + lo..base + lo + m];
    forall t | 0 <= t < m
      ensures x[t] == y[t]
    {
      assert x[t] == s[lo + t] == f[base + (lo + t)];
    }
  }

  /** f is the file of inode i, said block by block. */
  ghost predicate Spells(sb: Super, st: Store, i: nat, f: seq<Byte>) {
    && Sized(sb, st) && i < |st.inodes| && |f| == st.inodes[i].size
    && forall bn: nat, w: nat :: Within(bn, w) && bn * BSIZE + w < |f| ==> Cell(st, i, bn, w) == f[bn * BSIZE + w]
  }

  lemma FileSpells(sb: Super, st: Store, i: nat)
    requires Sized(sb, st) && i < |st.inodes|
    ensures Spells(sb, st, i, File(sb, st, i))
  {
    forall bn: nat, w: nat | Within(bn, w) && bn * BSIZE + w < st.inodes[i].size
      ensures Cell(st, i, bn, w) == File(sb, st, i)[bn * BSIZE + w]
    {
      FileCell(sb, st, i, bn, w);
    }
  }

  /** A file is determined by its size and its cells. */
  lemma SpellsFile(sb: Super, st: Store, i: nat, f: seq<Byte>)
    requires Spells(sb, st, i, f)
    ensures File(sb, st, i) == f
  {
    forall o | 0 <= o < |f|
      ensures File(sb, st, i)[o] == f[o]
    {
      assert Within(o / BSIZE, o % BSIZE) && o / BSIZE * BSIZE + o % BSIZE == o;
      assert Cell(st, i, o / BSIZE, o % BSIZE) == f[o / BSIZE * BSIZE + o % BSIZE];
    }
  }

  ghost predicate SpellsAll(sb: Super, st: Store, fs: seq<seq<Byte>>) {
    Sized(sb, st) && |fs| == |st.inodes| && forall i :: 0 <= i < |fs| ==> Spells(sb, st, i, fs[i])
  }

  lemma SpellsFiles(sb: Super, st: Store, fs: seq<seq<Byte>>)
    requires SpellsAll(sb, st, fs)
    ensures Files(sb, st) == fs
  {
    forall i | 0 <= i < |fs|
      ensures Files(sb, st)[i] == fs[i]
    {
      SpellsFile(sb, st, i, fs[i]);
    }
  }

  lemma FilesSpell(sb: Super, st: Store)
    requires Sized(sb, st)
    ensures SpellsAll(sb, st, Files(sb, st))
  {
    forall i | 0 <= i < |st.inodes|
      ensures Spells(sb, st, i, Files(sb, st)[i])
    {
      FileSpells(sb, st, i);
    }
  }

  lemma MappedBelowSize(sb: Super, st: Store, owner: Owners, i: nat, bn: nat)
    requires Ok(sb, st, owner, {}) && i < |st.inodes| && bn < MAXFILE
    requires bn * BSIZE < st.inodes[i].size || Ptr(st, i, Slot(bn)) != 0
    ensures 0 < Ptr(st, i, Slot(bn)) < sb.size && Ptr(st, i, Slot(bn)) as nat in owner
  {
  }

  /** A piece of one mapped block is a slice of the file. */
  lemma PieceIsSlice(sb: Super, st: Store, owner: Owners, i: nat, f: seq<Byte>, bn: nat, lo: nat, m: nat)
    requires Ok(sb, st, owner, {}) && Spells(sb, st, i, f) && 0 < m
    requires bn < MAXFILE && lo + m <= BSIZE && bn * BSIZE + lo + m <= |f|
    ensures 0 < Ptr(st, i, Slot(bn)) < sb.size
    ensures st.blocks[Ptr(st, i, Slot(bn))].bytes[lo..lo + m] == f[bn * BSIZE + lo..bn * BSIZE + lo + m]
  {
    MappedBelowSize(sb, st, owner, i, bn);
    var s, base := st.blocks[Ptr(st, i, Slot(bn))].bytes, bn * BSIZE;
    forall w | lo <= w < lo + m
      ensures s[w] == f[base + w]
    {
      assert Within(bn, w) && Cell(st, i, bn, w) == s[w];
    }
    SameSlices(s, lo, f, base, m);
  }

  /** Only inode i may differ from store a, and its size does not. */
  ghost predicate Framed(sb: Super, a: Store, st: Store, i: nat)
    requires Sized(sb, a) && Sized(sb, st) && i < |st.inodes|
  {
    && st.inodes[i].size == a.inodes[i].size && SameKind(a.inodes[i], st.inodes[i])
    && (forall j :: 0 <= j < |st.inodes| && j != i ==> st.inodes[j] == a.inodes[j])
    && (forall b :: 0 <= b < sb.bmapstart ==> st.blocks[b] == a.blocks[b])
    && forall j: nat, bn: nat, w: nat ::
         0 <= j < |st.inodes| && j != i && Within(bn, w) && bn * BSIZE < a.inodes[j].size ==>
           Cell(st, j, bn, w) == Cell(a, j, bn, w)
  }

  /** The first `tot` bytes of src have gone to offset `off` of inode i. */
  ghost predicate Progress(sb: Super, a: Store, st: Store, i: nat, off: nat, src: seq<Byte>, tot: nat)
    requires Sized(sb, a) && Sized(sb, st) && i < |st.inodes|
  {
    && tot <= |src| && off + |src| <= MAXFILE * BSIZE
    && (forall bn: nat, w: nat :: Within(bn, w) && Inside(off, tot, bn * BSIZE + w) ==>
          Ptr(st, i, Slot(bn)) != 0 && Cell(st, i, bn, w) == src[bn * BSIZE + w - off])
    && forall bn: nat, w: nat ::
         Within(bn, w) && bn * BSIZE + w < a.inodes[i].size && !Inside(off, tot, bn * BSIZE + w) ==>
           Cell(st, i, bn, w) == Cell(a, i, bn, w)
  }

  lemma ExtendsCell(sb: Super, st: Store, st': Store, owner: Owners, j: nat, bn: nat, w: nat)
    requires Ok(sb, st, owner, {}) && Sized(sb, st') && Extends(sb, st, st') && j < |st.inodes| && Within(bn, w)
    requires bn * BSIZE < st.inodes[j].size || Ptr(st, j, Slot(bn)) != 0
    ensures Ptr(st', j, Slot(bn)) == Ptr(st, j, Slot(bn)) && Cell(st', j, bn, w) == Cell(st, j, bn, w)
  {
    MappedBelowSize(sb, st, owner, j, bn);
  }

  /** bmap does not disturb a write in progress. */
  lemma ExtendsProgress(sb: Super, a: Store, st: Store, st': Store, owner: Owners, i: nat, off: nat, src: seq<Byte>,
                        tot: nat)
    requires Sized(sb, a) && Ok(sb, st, owner, {}) && Sized(sb, st') && Extends(sb, st, st') && i < |st.inodes|
    requires Framed(sb, a, st, i) && Progress(sb, a, st, i, off, src, tot)
    ensures Progress(sb, a, st', i, off, src, tot)
  {
    forall bn: nat, w: nat | Within(bn, w) && (Inside(off, tot, bn * BSIZE + w) || bn * BSIZE + w < a.inodes[i].size)
      ensures Ptr(st', i, Slot(bn)) == Ptr(st, i, Slot(bn)) && Cell(st', i, bn, w) == Cell(st, i, bn, w)
    {
      ExtendsCell(sb, st, st', owner, i, bn, w);
    }
  }

  lemma ExtendsFrame(sb: Super, a: Store, st: Store, st': Store, owner: Owners, i: nat)
    requires Sized(sb, a) && Ok(sb, st, owner, {}) && Sized(sb, st') && Extends(sb, st, st') && i < |st.inodes|
    requires forall j :: 0 <= j < |st.inodes| && j != i ==> st'.inodes[j] == st.inodes[j]
    requires Framed(sb, a, st, i)
    ensures Framed(sb, a, st', i)
  {
    forall j: nat, bn: nat, w: nat | 0 <= j < |st.inodes| && j != i && Within(bn, w) && bn * BSIZE < a.inodes[j].size
      ensures Cell(st', j, bn, w) == Cell(a, j, bn, w)
    {
      ExtendsCell(sb, st, st', owner, j, bn, w);
    }
  }

  /** Block p with `data` put at position lo. */
  function WriteAt(st: Store, p: nat, lo: nat, data: seq<Byte>): Store
    requires p < |st.blocks| && lo + |data| <= BSIZE
  {
    st.(blocks := st.blocks[p := Splice(st.blocks[p], lo, data)])
  }

  /** Writing into a block of inode i changes those bytes of that block only. */
  lemma WriteCell(sb: Super, st: Store, owner: Owners, i: nat, bi: nat, lo: nat, data: seq<Byte>, j: nat, bn: nat,
                  w: nat)
    requires Ok(sb, st, owner, {}) && i < |st.inodes| && j < |st.inodes| && Within(bn, w)
    requires bi < MAXFILE && lo + |data| <= BSIZE && 0 < Ptr(st, i, Slot(bi)) < sb.size
    requires Ptr(st, j, Slot(bn)) != 0
    ensures var st' := WriteAt(st, Ptr(st, i, Slot(bi)), lo, data);
            && Ptr(st', j, Slot(bn)) == Ptr(st, j, Slot(bn))
            && Cell(st', j, bn, w) == if j == i && bn == bi
                && lo <= w < lo + |data| then data[w - lo] else Cell(st, j, bn, w)
  {
    var p, q := Ptr(st, i, Slot(bi)), Ptr(st, j, Slot(bn));
    var st' := WriteAt(st, p, lo, data);
    WritePointer(sb, st, owner, i, Slot(bi), j, Slot(bn), st'.blocks[p]);
    SpliceByte(st.blocks[p], lo, data, w);
    assert bn == bi <==> Slot(bn) == Slot(bi);
  }

  lemma SpliceByte(block: Block, lo: nat, data: seq<Byte>, w: nat)
    requires lo + |data| <= BSIZE && w < BSIZE
    ensures Splice(block, lo, data).bytes[w] == if lo <= w < lo + |data| then data[w - lo] else block.bytes[w]
  {
  }

  /** Pointers stay; two of them name the same block only if they are the same. */
  lemma WritePointer(sb: Super, st: Store, owner: Owners, i: nat, k: nat, j: nat, l: nat, data: Block)
    requires Ok(sb, st, owner, {}) && i < |st.inodes| && j < |st.inodes| && k < SLOTS && l < SLOTS && k != INDIRECT
    requires 0 < Ptr(st, i, k) < sb.size && Ptr(st, j, l) != 0
    ensures var st' := st.(blocks := st.blocks[Ptr(st, i, k) := data]);
            && Ptr(st', j, l) == Ptr(st, j, l) < sb.size
            && (Ptr(st, j, l) == Ptr(st, i, k) <==> j == i && l == k)
  {
    WriteDataKeeps(sb, st, owner, {}, i, k, data);
  }

  /** A byte in the range of the write lies in a block that is mapped: one already
      written, or the block bi being written. */
  lemma WriteMapped(sb: Super, a: Store, st: Store, i: nat, off: nat, src: seq<Byte>, tot: nat, bi: nat, lo: nat,
                    m: nat, bn: nat, w: nat)
    requires Sized(sb, a) && Sized(sb, st) && i < |st.inodes| && Progress(sb, a, st, i, off, src, tot)
    requires off + tot == bi * BSIZE + lo && bi < MAXFILE && lo + m <= BSIZE && Ptr(st, i, Slot(bi)) != 0
    requires Within(bn, w) && Inside(off, tot + m, bn * BSIZE + w)
    ensures Ptr(st, i, Slot(bn)) != 0
    ensures if Inside(off, tot, bn * BSIZE + w) then bn != bi || w < lo
            else bn == bi && lo <= w < lo + m && bn * BSIZE + w - off == tot + (w - lo)
  {
  }

  lemma WriteProgress(sb: Super, a: Store, st: Store, owner: Owners, i: nat, off: nat, src: seq<Byte>, tot: nat,
                      bi: nat, lo: nat, m: nat)
    requires Sized(sb, a) && Ok(sb, st, owner, {}) && i < |st.inodes|
    requires Framed(sb, a, st, i) && Progress(sb, a, st, i, off, src, tot)
    requires 0 < m && tot + m <= |src| && off + tot == bi * BSIZE + lo && bi < MAXFILE && lo + m <= BSIZE
    requires 0 < Ptr(st, i, Slot(bi)) < sb.size
    ensures var st' := WriteAt(st, Ptr(st, i, Slot(bi)), lo, src[tot..tot + m]);
            Sized(sb, st') && Progress(sb, a, st', i, off, src, tot + m)
  {
    var data := src[tot..tot + m];
    var st' := WriteAt(st, Ptr(st, i, Slot(bi)), lo, data);
    forall bn: nat, w: nat | Within(bn, w) && Inside(off, tot + m, bn * BSIZE + w)
      ensures Ptr(st', i, Slot(bn)) != 0 && Cell(st', i, bn, w) == src[bn * BSIZE + w - off]
    {
      CellInside(sb, a, st, owner, i, off, src, tot, bi, lo, m, data, bn, w);
    }
    forall bn: nat, w: nat | Within(bn, w) && bn * BSIZE + w < a.inodes[i].size && !Inside(off, tot + m, bn * BSIZE + w)
      ensures Cell(st', i, bn, w) == Cell(a, i, bn, w)
    {
      CellOutside(sb, a, st, owner, i, off, src, tot, bi, lo, m, data, bn, w);
    }
  }

  lemma CellInside(sb: Super, a: Store, st: Store, owner: Owners, i: nat, off: nat, src: seq<Byte>, tot: nat,
                   bi: nat, lo: nat, m: nat, data: seq<Byte>, bn: nat, w: nat)
    requires Sized(sb, a) && Ok(sb, st, owner, {}) && i < |st.inodes| && Progress(sb, a, st, i, off, src, tot)
    requires 0 < m && tot + m <= |src| && off + tot == bi * BSIZE + lo && bi < MAXFILE && lo + m <= BSIZE
    requires 0 < Ptr(st, i, Slot(bi)) < sb.size && data == src[tot..tot + m]
    requires Within(bn, w) && Inside(off, tot + m, bn * BSIZE + w)
    ensures var st' := WriteAt(st, Ptr(st, i, Slot(bi)), lo, data);
            Ptr(st', i, Slot(bn)) != 0 && Cell(st', i, bn, w) == src[bn * BSIZE + w - off]
  {
    WriteMapped(sb, a, st, i, off, src, tot, bi, lo, m, bn, w);
    WriteCell(sb, st, owner, i, bi, lo, data, i, bn, w);
  }

  lemma CellOutside(sb: Super, a: Store, st: Store, owner: Owners, i: nat, off: nat, src: seq<Byte>, tot: nat,
                    bi: nat, lo: nat, m: nat, data: seq<Byte>, bn: nat, w: nat)
    requires Sized(sb, a) && Ok(sb, st, owner, {}) && i < |st.inodes| && Progress(sb, a, st, i, off, src, tot)
    requires st.inodes[i].size == a.inodes[i].size
    requires 0 < m && tot + m <= |src| && off + tot == bi * BSIZE + lo && bi < MAXFILE && lo + m <= BSIZE
    requires 0 < Ptr(st, i, Slot(bi)) < sb.size && data == src[tot..tot + m]
    requires Within(bn, w) && bn * BSIZE + w < a.inodes[i].size && !Inside(off, tot + m, bn * BSIZE + w)
    ensures Cell(WriteAt(st, Ptr(st, i, Slot(bi)), lo, data), i, bn, w) == Cell(a, i, bn, w)
  {
    MappedBelowSize(sb, st, owner, i, bn);
    WriteCell(sb, st, owner, i, bi, lo, data, i, bn, w);
  }

  lemma WriteFrame(sb: Super, a: Store, st: Store, owner: Owners, i: nat, bi: nat, lo: nat, data: seq<Byte>)
    requires Sized(sb, a) && Ok(sb, st, owner, {}) && i < |st.inodes| && Framed(sb, a, st, i)
    requires bi < MAXFILE && lo + |data| <= BSIZE && 0 < Ptr(st, i, Slot(bi)) < sb.size
    ensures var st' := WriteAt(st, Ptr(st, i, Slot(bi)), lo, data);
            Ok(sb, st', owner, {}) && Framed(sb, a, st', i)
  {
    var p := Ptr(st, i, Slot(bi));
    var st' := WriteAt(st, p, lo, data);
    WriteDataKeeps(sb, st, owner, {}, i, Slot(bi), st'.blocks[p]);
    MappedBelowSize(sb, st, owner, i, bi);
    forall j: nat, bn: nat, w: nat | 0 <= j < |st.inodes| && j != i && Within(bn, w) && bn * BSIZE < a.inodes[j].size
      ensures Cell(st', j, bn, w) == Cell(a, j, bn, w)
    {
      MappedBelowSize(sb, st, owner, j, bn);
      WriteCell(sb, st, owner, i, bi, lo, data, j, bn, w);
    }
  }

  /** Raising the size over written blocks leaves no hole. */
  lemma GrowKeeps(sb: Super, a: Store, st: Store, owner: Owners, i: nat, off: nat, src: seq<Byte>, tot: nat, torn: nat)
    requires Sized(sb, a) && Ok(sb, st, owner, {}) && i < |st.inodes|
    requires Framed(sb, a, st, i) && Progress(sb, a, st, i, off, src, tot + torn) && off <= a.inodes[i].size
    ensures Ok(sb, SetSize(st, i, NewSize(a.inodes[i].size, off + tot)), owner, {})
  {
    var size := NewSize(a.inodes[i].size, off + tot);
    forall bn: nat | bn < MAXFILE && bn * BSIZE < size
      ensures Ptr(st, i, Slot(bn)) != 0
    {
      if bn * BSIZE >= a.inodes[i].size {
        assert Within(bn, 0) && Inside(off, tot + torn, bn * BSIZE + 0);
        assert Cell(st, i, bn, 0) == src[bn * BSIZE + 0 - off];
      }
    }
    SetSizeKeeps(sb, st, owner, {}, i, size);
  }

  /** When the loop ends and the size is raised, the file has been overwritten with
      exactly the bytes that were copied. */
  lemma WriteDone(sb: Super, a: Store, st: Store, i: nat, off: nat, src: seq<Byte>, tot: nat, torn: nat, st': Store)
    requires Sized(sb, a) && Sized(sb, st) && i < |st.inodes|
    requires Framed(sb, a, st, i) && Progress(sb, a, st, i, off, src, tot + torn) && off <= a.inodes[i].size
    requires st' == SetSize(st, i, NewSize(a.inodes[i].size, off + tot)) && Sized(sb, st')
    ensures File(sb, st', i) == Landed(File(sb, a, i), off, src, tot, torn)
  {
    SetSizePointers(sb, st, i, st'.inodes[i].size);
    var f := Landed(File(sb, a, i), off, src, tot, torn);
    forall bn: nat, w: nat | Within(bn, w) && bn * BSIZE + w < |f|
      ensures Cell(st', i, bn, w) == f[bn * BSIZE + w]
    {
      assert Cell(st', i, bn, w) == Cell(st, i, bn, w);
      if !Inside(off, tot + torn, bn * BSIZE + w) {
        FileCell(sb, a, i, bn, w);
      }
    }
    SpellsFile(sb, st', i, f);
  }

  lemma FramedFile(sb: Super, a: Store, st: Store, i: nat, j: nat)
    requires Sized(sb, a) && Sized(sb, st) && i < |st.inodes| && Framed(sb, a, st, i) && j < |st.inodes| && j != i
    ensures File(sb, st, j) == File(sb, a, j)
  {
    forall o | 0 <= o < a.inodes[j].size
      ensures ByteAt(st, j, o) == ByteAt(a, j, o)
    {
      assert Within(o / BSIZE, o % BSIZE) && o / BSIZE * BSIZE <= o;
    }
  }

  lemma OtherWrittenBack(sb: Super, a: Store, st: Store, owner: Owners, i: nat, j: nat, st1: Store)
    requires Sized(sb, a) && Sized(sb, st) && i < |st.inodes| && Framed(sb, a, st, i) && j < |st.inodes| && j != i
    requires |st1.inodes| == |st.inodes| && st1 == SetSize(st, i, st1.inodes[i].size) && Ok(sb, st1, owner, {})
             && OnDisk(sb, a, j)
    ensures OnDisk(sb, Iupdated(sb, st1, i), j)
    ensures Sized(sb, Iupdated(sb, st1, i)) && File(sb, Iupdated(sb, st1, i), j) == File(sb, a, j)
  {
    SameInodeOnDisk(sb, a, st1, j);
    IupdateOnDisk(sb, st1, i, j);
    IupdateFile(sb, st1, owner, i, j);
    FramedFile(sb, a, st, i, j);
    SetSizePointers(sb, st, i, st1.inodes[i].size);
    assert forall o :: 0 <= o < st.inodes[j].size ==> ByteAt(st1, j, o) == ByteAt(st, j, o);
  }
}
