/** umalloc.c: malloc, free and morecore. Addresses count header-sized units; what sbrk
    returns is a parameter. */
module Umalloc {
  import opened HeapSpec

  const HEADER := 16

  function Units(nbytes: nat): nat {
    (nbytes + HEADER - 1) / HEADER + 1
  }

  /** The least that morecore asks sbrk for, in units. */
  function Request(nu: nat): nat {
    if nu < 4096 then 4096 else nu
  }

  /** The value of an unsigned number as a C int. */
  function ToInt(n: nat): int {
    var m := n % 0x1_0000_0000;
    if m < 0x8000_0000 then m else m - 0x1_0000_0000
  }

  /** Where sbrk leaves the break, in units: moved by n bytes, unless that would be below
      address 0. */
  function SbrkEnd(brk: nat, n: int): nat {
    if brk * HEADER + n < 0 then brk else (brk * HEADER + n) / HEADER
  }

  /** sbrk takes an int. It moves the break past what morecore records exactly when that is
      fewer than 2^31 bytes; a bigger request reaches it as another number. */
  lemma SbrkCovers(brk: nat, nu: nat)
    ensures brk + Request(nu) <= SbrkEnd(brk, ToInt(Request(nu) * HEADER)) <==> Request(nu) * HEADER < 0x8000_0000
    ensures Request(nu) * HEADER < 0x8000_0000 ==> SbrkEnd(brk, ToInt(Request(nu) * HEADER)) == brk + Request(nu)
  {
    var n := Request(nu) * HEADER;
    assert ToInt(n) < 0x8000_0000;
  }

  /** Two requests that go wrong: the least one makes sbrk lower the break or do nothing, and
      the greatest one gets 16 bytes for 2^28 + 1 units. The heap records them all the same. */
  lemma HugeRequests(base: nat, brk: nat, nbytes: nat)
    requires base < brk && (nbytes == 0x8000_0000 - 31 || nbytes == 0xFFFF_FFFF)
    ensures var h := Heap(map[base := base], map[base := 0], {base}, map[], map[]);
            var n := Request(Units(nbytes));
            var top := SbrkEnd(brk, ToInt(n * HEADER));
            && Ok(base, Extended(h, brk, n)) && Extended(h, brk, n).live == map[brk := n]
            && (if nbytes == 0xFFFF_FFFF then n == 0x1000_0001 && top == brk + 1 else n == 0x800_0000 && top <= brk)
            && brk + n - 1 in Extended(h, brk, n).owner && top <= brk + n - 1
  {
    StartOk(base);
    var h := Heap(map[base := base], map[base := 0], {base}, map[], map[]);
    ExtendedOk(base, h, brk, Request(Units(nbytes)));
    GrowIs(h.owner, brk, Request(Units(nbytes)), brk + Request(Units(nbytes)) - 1);
  }

  /** The headers of p and bp rewritten: bp takes in the block above it if they touch, and
      p takes in bp, or else links to it. */
  predicate Rewritten(next: map<nat, nat>, size: map<nat, nat>, p: nat, bp: nat, next': map<nat, nat>, size': map<nat,
                      nat>)
    requires p in next && next[p] in next && p in size && bp in size && next[p] in size && p != bp
  {
    var q := next[p];
    var up, n := bp + size[bp] == q, size[bp];
    var s1 := if up then size[bp := n + size[q]] else size;
    var n1 := next[bp := if up then next[q] else q];
    if p + s1[p] == bp then size' == s1[p := s1[p] + s1[bp]] && next' == n1[p := n1[bp]]
    else size' == s1 && next' == n1[p := bp]
  }

  lemma SameNext(h: Heap, p: nat, bp: nat, next: map<nat, nat>, size: map<nat, nat>)
    requires p in h.next && h.next[p] in h.next && p in h.size && bp in h.size && h.next[p] in h.size && p != bp
    requires bp + h.size[bp] == h.next[p] ==> h.next[p] != p && h.next[p] != bp
    requires Rewritten(h.next, h.size, p, bp, next, size)
    ensures next == Freed(h, p, bp).next
  {
  }

  lemma SameSize(h: Heap, p: nat, bp: nat, next: map<nat, nat>, size: map<nat, nat>)
    requires p in h.next && h.next[p] in h.next && p in h.size && bp in h.size && h.next[p] in h.size && p != bp
    requires Rewritten(h.next, h.size, p, bp, next, size)
    ensures size == Freed(h, p, bp).size
  {
  }

  /** The assignments of free, in their order, make the heap that Freed describes. */
  lemma SameFields(h: Heap, p: nat, bp: nat, k: Heap)
    requires p in h.next && h.next[p] in h.next && p in h.size && bp in h.size && h.next[p] in h.size && p != bp
    requires bp + h.size[bp] == h.next[p] ==> h.next[p] != p && h.next[p] != bp
    requires k.free == Freed(h, p, bp).free && k.live == Freed(h, p, bp).live && k.owner == Freed(h, p, bp).owner
    requires Rewritten(h.next, h.size, p, bp, k.next, k.size)
    ensures k == Freed(h, p, bp)
  {
    SameNext(h, p, bp, k.next, k.size);
    SameSize(h, p, bp, k.next, k.size);
  }

  /** Some block on the list has at least n units. */
  ghost predicate HasBlock(h: Heap, n: nat) {
    exists b :: b in h.free && b in h.size && h.size[b] >= n
  }

  /** Memory was added at a, and is in node g; no other node changed. */
  ghost predicate MoreCame(h: Heap, k: Heap, a: nat, n: nat, g: nat) {
    k.owner.Keys == Grow(h.owner, a, n).Keys && Absorbed(h, k, g, a, n)
  }

  ghost predicate More(h: Heap, k: Heap, a: nat, n: nat) {
    exists g :: MoreCame(h, k, a, n, g)
  }

  /** Since the search of malloc began, the heap is as it was, or morecore has run once. */
  ghost predicate Since(h0: Heap, h: Heap, top0: nat, top: nat, brk: int, n: nat, grown: bool) {
    if grown then brk >= 0 && !HasBlock(h0, n) && More(h0, h, brk, Request(n))
                  && top == SbrkEnd(brk, ToInt(Request(n) * HEADER))
    else h == h0 && top == top0
  }

  /** The search is back where it began: it cannot have called morecore. */
  lemma NoneFound(h: Heap, p: nat, h0: Heap, top0: nat, top: nat, brk: int, n: nat, grown: bool)
    requires Since(h0, h, top0, top, brk, n, grown) && p in h.size && h.size[p] < n
    requires forall x :: x in h.free && x in h.size && x !in Ahead(h.free, p, p) ==> h.size[x] < n
    ensures !grown && !HasBlock(h0, n)
  {
  }

  lemma FoundEnds(base: nat, h0: Heap, h: Heap, top0: nat, top: nat, brk: int, n: nat, grown: bool, p: nat)
    requires Ok(base, h) && Since(h0, h, top0, top, brk, n, grown) && p in h.free && p in h.size && 0 < n <= h.size[p]
    requires (forall u :: u in h0.owner ==> u < top0) && (brk >= 0 ==> base < brk && top0 <= brk)
    ensures !grown <==> HasBlock(h0, n)
    ensures if grown then h.owner.Keys == Grow(h0.owner, brk, Request(n)).Keys else h.owner.Keys == h0.owner.Keys
    ensures p + h.size[p] <= top <==> !grown || Request(n) * HEADER < 0x8000_0000
    ensures (forall u :: u in h.owner.Keys ==> u < top) <==> !grown || Request(n) * HEADER < 0x8000_0000
  {
    if grown {
      var g :| MoreCame(h0, h, brk, Request(n), g);
      LastEnds(base, h0, h, brk, Request(n), g, p, n);
      SbrkCovers(brk, n);
      RecordedIsMemory(h0.owner, brk, n, h.owner.Keys, top0, top);
    } else {
      BlockEnds(base, h, p);
    }
  }

  lemma ExtendedThenFreed(base: nat, h: Heap, k: Heap, a: nat, n: nat, g: nat)
    requires Ok(base, h) && base < a && (forall u :: u in h.owner ==> u < a) && k.owner.Keys == Grow(h.owner, a, n).Keys
    requires Absorbed(Extended(h, a, n), k, g, a, n)
    ensures MoreCame(h, k, a, n, g)
  {
    assert Block(base, Blocks(base, h), h.size, h.owner, a) && (a in h.free ==> a in h.owner);
    forall x: nat
      ensures x == g || SameNode(h, k, x)
    {
      assert x == g || SameNode(Extended(h, a, n), k, x);
    }
  }

  /** If no node was large enough before memory was added, only the one that took it in is
      now, and it ends where the memory ends. */
  lemma LastEnds(base: nat, h: Heap, k: Heap, a: nat, n: nat, g: nat, p: nat, nunits: nat)
    requires Ok(base, k) && MoreCame(h, k, a, n, g) && n > 0 && base < a && (forall u :: u in h.owner ==> u < a)
    requires !HasBlock(h, nunits) && p in k.free && p in k.size && k.size[p] >= nunits
    ensures p + k.size[p] == a + n
  {
    assert p == g || SameNode(h, k, p);
    BlockEnds(base, k, g);
    GrowIs(h.owner, a, n, g + k.size[g] - 1);
  }

  /** The last unit of a node is recorded. */
  lemma BlockEnds(base: nat, h: Heap, p: nat)
    requires Ok(base, h) && p in h.free && p in h.size && h.size[p] > 0
    ensures p + h.size[p] - 1 in h.owner
  {
    assert Block(base, Blocks(base, h), h.size, h.owner, p);
  }

  lemma RecordedIsMemory(owner: map<nat, nat>, brk: nat, nunits: nat, keys: set<nat>, top: nat, top': nat)
    requires (forall u :: u in owner ==> u < top <= brk) && keys == Grow(owner, brk, Request(nunits)).Keys
    requires top' == SbrkEnd(brk, ToInt(Request(nunits) * HEADER))
    ensures (forall u :: u in keys ==> u < top') <==> Request(nunits) * HEADER < 0x8000_0000
  {
    SbrkCovers(brk, nunits);
    var last := brk + Request(nunits) - 1;
    GrowIs(owner, brk, Request(nunits), last);
    forall u | u in keys
      ensures u <= last
    {
      GrowIs(owner, brk, Request(nunits), u);
    }
  }

  class Allocator {
    // The list header, below everything that sbrk returns.
    const base: nat
    var next: map<nat, nat>
    var size: map<nat, nat>
    var freep: nat
    ghost var free: set<nat>
    ghost var live: map<nat, nat>
    // The recorded block that each unit lies in, and the break: units below it are memory.
    ghost var owner: map<nat, nat>
    ghost var top: nat

    ghost function H(): Heap
      reads this
    {
      Heap(next, size, free, live, owner)
    }

    ghost predicate Valid()
      reads this
    {
      0 < base && if freep == 0 then free == {} && live == map[] && owner == map[] else Ok(base, H()) && freep in free
    }

    /** Everything recorded is memory that sbrk gave. */
    ghost predicate Backed()
      reads this
    {
      forall u :: u in owner ==> u < top
    }

    /** The search loop of free: the node after which a block at bp belongs. */
    method FindGap(bp: nat) returns (p: nat)
      requires Ring(base, free, next) && freep in free && base < bp && bp !in free
      ensures base <= p && p in free && p in next && Gap(base, p, next[p], bp)
    {
      p := freep;
      assert Node(base, free, next, p);
      while !(bp > p && bp < next[p])
        invariant p in free && p in next && Node(base, free, next, p)
        decreases if p < bp then 0 else 1, |Above(free, p)|
      {
        if p >= next[p] && (bp > p || bp < next[p]) {
          break;
        }
        assert Node(base, free, next, next[p]);
        if p < next[p] {
          AboveNext(free, p, next[p]);
        }
        p := next[p];
      }
    }

    /** Give back a block that malloc returned. */
    method Free(ap: nat) returns (ghost g: nat)
      requires Valid() && ap > 0 && ap - 1 in live
      modifies this
      ensures Valid() && freep != 0 && live == old(live) - {ap - 1} && owner.Keys == old(owner).Keys && top == old(top)
      ensures Absorbed(old(H()), H(), g, ap - 1, old(live)[ap - 1])
    {
      var bp := ap - 1;
      ghost var h := H();
      assert Live(h, bp) && Block(base, Blocks(base, h), size, owner, bp);
      var p := FindGap(bp);
      FreedOk(base, h, p, bp);
      FreedAbsorbs(base, h, p, bp);
      g := FreedInto(h, p, bp);
      Join(p, bp);
      freep := p;
      ghost var k := Freed(h, p, bp);
      free, live, owner := k.free, k.live, k.owner;
      SameFields(h, p, bp, H());
    }

    /** The end of free: join bp with the blocks on both sides of the gap after p. */
    method Join(p: nat, bp: nat)
      requires p in next && next[p] in next && p in size && bp in size && next[p] in size && p != bp
      modifies this`next, this`size
      ensures Rewritten(old(next), old(size), p, bp, next, size)
    {
      var q := next[p];
      if bp + size[bp] == q {
        size := size[bp := size[bp] + size[q]];
        next := next[bp := next[q]];
      } else {
        next := next[bp := q];
      }
      if p + size[p] == bp {
        size := size[p := size[p] + size[bp]];
        next := next[p := next[bp]];
      } else {
        next := next[p := bp];
      }
    }

    /** Ask sbrk for memory and put it on the free list; brk is what sbrk returns, the old
        break, or negative for an error. What is recorded is memory exactly when the bytes
        asked for are fewer than 2^31. */
    method Morecore(nunits: nat, brk: int) returns (p: nat)
      requires Valid() && Backed() && freep != 0 && nunits > 0
      requires brk >= 0 ==> base < brk && top <= brk
      modifies this
      ensures Valid() && freep != 0 && live == old(live)
      ensures brk < 0 ==> p == 0 && H() == old(H()) && freep == old(freep) && top == old(top)
      ensures brk >= 0 ==> p == freep && More(old(H()), H(), brk, Request(nunits))
      ensures brk >= 0 ==> top == SbrkEnd(brk, ToInt(Request(nunits) * HEADER))
      ensures brk >= 0 ==> (Backed() <==> Request(nunits) * HEADER < 0x8000_0000)
    {
      var nu := nunits;
      if nu < 4096 {
        nu := 4096;
      }
      if brk < 0 {
        return 0;
      }
      top := SbrkEnd(brk, ToInt(nu * HEADER));
      ExtendedOk(base, H(), brk, nu);
      size := size[brk := nu];
      live, owner := live[brk := nu], Grow(owner, brk, nu);
      ghost var l := live;
      assert H() == Extended(old(H()), brk, nu);
      ghost var g := Free(brk + 1);
      assert l - {brk} == old(live);
      p := freep;
      ExtendedThenFreed(base, old(H()), H(), brk, nu, g);
      RecordedIsMemory(old(owner), brk, nunits, owner.Keys, old(top), top);
    }

    /** At least nbytes bytes, as the address after a header; 0 if there is no memory. The
        block is memory exactly when a block on the list was large enough, or the bytes that
        morecore asks for are fewer than 2^31. */
    method Malloc(nbytes: nat, brk: int) returns (r: nat)
      requires Valid() && Backed() && nbytes < 0x1_0000_0000 && (brk >= 0 ==> base < brk && top <= brk)
      modifies this
      ensures Valid() && freep != 0
      ensures r == 0 ==> brk < 0 && live == old(live) && owner == old(owner) && !HasBlock(old(H()), Units(nbytes))
      ensures r != 0 ==>
                r - 1 !in old(live) && live == old(live)[r - 1 := Units(nbytes)]
                    && (Units(nbytes) - 1) * HEADER >= nbytes
      ensures if HasBlock(old(H()), Units(nbytes)) || brk < 0 then owner.Keys == old(owner).Keys && top == old(top)
              else owner.Keys == Grow(old(owner), brk, Request(Units(nbytes))).Keys
      ensures r != 0 ==>
                (r - 1 + Units(nbytes) <= top
                 <==> HasBlock(old(H()), Units(nbytes)) || Request(Units(nbytes)) * HEADER < 0x8000_0000)
      ensures Backed() <==>
              HasBlock(old(H()), Units(nbytes)) || brk < 0 || Request(Units(nbytes)) * HEADER < 0x8000_0000
    {
      var nunits := Units(nbytes);
      if freep == 0 {
        StartOk(base);
        next, size, freep := map[base := base], map[base := 0], base;
        free := {base};
      }
      r := Search(nunits, brk);
    }

    /** malloc's loop, once there is a list. */
    method Search(nunits: nat, brk: int) returns (r: nat)
      requires Valid() && Backed() && freep != 0 && nunits > 0 && (brk >= 0 ==> base < brk && top <= brk)
      modifies this
      ensures Valid() && freep != 0
      ensures r == 0 ==> brk < 0 && live == old(live) && owner == old(owner) && !HasBlock(old(H()), nunits)
      ensures r != 0 ==> r - 1 !in old(live) && live == old(live)[r - 1 := nunits]
      ensures if HasBlock(old(H()), nunits) || brk < 0 then owner.Keys == old(owner).Keys && top == old(top)
              else owner.Keys == Grow(old(owner), brk, Request(nunits)).Keys
      ensures r != 0 ==>
                (r - 1 + nunits <= top <==> HasBlock(old(H()), nunits) || Request(nunits) * HEADER < 0x8000_0000)
      ensures Backed() <==> HasBlock(old(H()), nunits) || brk < 0 || Request(nunits) * HEADER < 0x8000_0000
    {
      ghost var grown := false;
      AheadAll(base, free, next, freep);
      InSize(base, H(), next[freep]);
      var prevp := freep;
      var p := next[prevp];
      while true
        invariant Valid() && freep != 0 && prevp in free && prevp in next && next[prevp] == p && p in free && p in size
        invariant live == old(live)
        invariant forall x :: x in free && x in size && x !in Ahead(free, p, freep) ==> size[x] < nunits
        invariant Since(old(H()), H(), old(top), top, brk, nunits, grown)
        decreases if grown then 0 else 1, |Ahead(free, p, freep)|
      {
        if size[p] >= nunits {
          r := TakeFound(prevp, p, nunits, brk, old(H()), old(top), grown);
          return;
        }
        if p == freep {
          NoneFound(H(), p, old(H()), old(top), top, brk, nunits, grown);
          p := Morecore(nunits, brk);
          if p == 0 {
            return 0;
          }
          AheadAll(base, free, next, freep);
          grown := true;
        } else {
          AheadNext(base, free, next, p, freep);
        }
        InSize(base, H(), next[p]);
        prevp := p;
        p := next[p];
      }
    }

    /** The search that began with the heap h0 has found node p large enough. */
    method TakeFound(prevp: nat, p: nat, nunits: nat, ghost brk: int, ghost h0: Heap, ghost top0: nat,
                     ghost grown: bool)
      returns (r: nat)
      requires Valid() && freep != 0 && prevp in free && prevp in next && next[prevp] == p && p in free && p in size
      requires 0 < nunits <= size[p] && Since(h0, H(), top0, top, brk, nunits, grown)
      requires (forall u :: u in h0.owner ==> u < top0) && (brk >= 0 ==> base < brk && top0 <= brk)
      modifies this
      ensures Valid() && freep != 0 && r != 0 && r - 1 !in old(live) && live == old(live)[r - 1 := nunits]
      ensures !grown <==> HasBlock(h0, nunits)
      ensures if grown then brk >= 0 && owner.Keys == Grow(h0.owner, brk, Request(nunits)).Keys
              else owner.Keys == h0.owner.Keys && top == top0
      ensures r - 1 + nunits <= top <==> !grown || Request(nunits) * HEADER < 0x8000_0000
      ensures Backed() <==> !grown || Request(nunits) * HEADER < 0x8000_0000
    {
      FoundEnds(base, h0, H(), top0, top, brk, nunits, grown, p);
      r := Take(prevp, p, nunits);
    }

    /** Take nunits from node p, whose predecessor is prevp: all of it, or its tail. */
    method Take(prevp: nat, p: nat, nunits: nat) returns (r: nat)
      requires Valid() && freep != 0 && prevp in free && prevp in next && next[prevp] == p && p in free && p in size
      requires 0 < nunits <= size[p]
      modifies this
      ensures Valid() && freep != 0 && r != 0 && r - 1 !in old(live) && live == old(live)[r - 1 := nunits]
      ensures owner.Keys == old(owner).Keys && top == old(top) && r - 1 + nunits == p + old(size)[p]
    {
      assert Node(base, free, next, prevp);
      var q := p;
      if size[p] == nunits {
        UnlinkedOk(base, H(), prevp, p);
        next := next[prevp := next[p]];
        free, live := free - {p}, live[p := size[p]];
      } else {
        CarvedOk(base, H(), p, nunits);
        ghost var k := Carved(H(), p, nunits);
        size := size[p := size[p] - nunits];
        q := p + size[p];
        size := size[q := nunits];
        live, owner := k.live, k.owner;
      }
      freep := prevp;
      return q + 1;
    }
  }
}
