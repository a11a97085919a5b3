/** The K&R allocator's heap (umalloc.c) in units of one header: the circular free list in
    address order, and which units belong to which block. */
module HeapSpec {
  // The ring of list nodes. `base` is the lowest node.

  /** No node lies strictly between b and c. */
  ghost predicate Between(free: set<nat>, b: nat, c: nat) {
    forall x :: x in free ==> x <= b || c <= x
  }

  ghost predicate Highest(free: set<nat>, b: nat) {
    forall x :: x in free ==> x <= b
  }

  /** c follows b: the next higher node, or base after the highest. */
  ghost predicate IsNext(free: set<nat>, base: nat, b: nat, c: nat) {
    c in free && if b < c then Between(free, b, c) else c == base && Highest(free, b)
  }

  ghost predicate Node(base: nat, free: set<nat>, next: map<nat, nat>, b: nat) {
    b in free ==> base <= b && b in next && IsNext(free, base, b, next[b])
  }

  ghost predicate Ring(base: nat, free: set<nat>, next: map<nat, nat>) {
    base in free && forall b :: Node(base, free, next, b)
  }

  /** A block at bp goes after node p. */
  predicate Gap(base: nat, p: nat, next: nat, bp: nat) {
    p < bp && (bp < next || next == base)
  }

  lemma InsertElsewhere(base: nat, free: set<nat>, p: nat, q: nat, bp: nat, b: nat, c: nat)
    requires p in free && IsNext(free, base, p, q) && Gap(base, p, q, bp) && base <= p
    requires b in free && b != p && IsNext(free, base, b, c)
    ensures IsNext(free + {bp}, base, b, c)
  {
  }

  lemma RingInsert(base: nat, free: set<nat>, next: map<nat, nat>, p: nat, bp: nat)
    requires Ring(base, free, next) && p in free && p in next && bp !in free && Gap(base, p, next[p], bp)
    ensures Ring(base, free + {bp}, next[bp := next[p]][p := bp])
  {
    var free', next' := free + {bp}, next[bp := next[p]][p := bp];
    assert Node(base, free, next, p);
    assert IsNext(free', base, p, bp) && IsNext(free', base, bp, next[p]);
    forall b
      ensures Node(base, free', next', b)
    {
      assert Node(base, free, next, b);
      if b in free && b != p {
        InsertElsewhere(base, free, p, next[p], bp, b, next[b]);
      }
    }
  }

  lemma RemoveElsewhere(base: nat, free: set<nat>, p: nat, q: nat, b: nat, c: nat)
    requires p in free && IsNext(free, base, p, q) && q != base && base <= p
    requires b in free && b != p && b != q && IsNext(free, base, b, c)
    ensures c != q && IsNext(free - {q}, base, b, c)
  {
  }

  lemma RemoveHere(base: nat, free: set<nat>, p: nat, q: nat, r: nat)
    requires p in free && IsNext(free, base, p, q) && q != base && IsNext(free, base, q, r) && base in free && base <= p
    ensures p != q && r != q && IsNext(free - {q}, base, p, r)
  {
  }

  lemma RingRemove(base: nat, free: set<nat>, next: map<nat, nat>, p: nat, q: nat)
    requires Ring(base, free, next) && p in free && p in next && q == next[p] && q != base
    ensures p != q && q in free && q in next && Ring(base, free - {q}, next[p := next[q]])
  {
    var free', next' := free - {q}, next[p := if q in next then next[q] else 0];
    assert Node(base, free, next, p) && Node(base, free, next, q);
    RemoveHere(base, free, p, q, next[q]);
    forall b
      ensures Node(base, free', next', b)
    {
      assert Node(base, free, next, b);
      if b in free && b != p && b != q {
        RemoveElsewhere(base, free, p, q, b, next[b]);
      }
    }
  }

  // Blocks of units.

  /** Units b .. b + n belong to block b. */
  ghost predicate Covers(owner: map<nat, nat>, b: nat, n: nat) {
    forall u :: b <= u < b + n ==> u in owner && owner[u] == b
  }

  ghost predicate Block(base: nat, blocks: set<nat>, size: map<nat, nat>, owner: map<nat, nat>, b: nat) {
    b in blocks ==> base < b && b in size && size[b] > 0 && Covers(owner, b, size[b])
  }

  ghost predicate Unit(blocks: set<nat>, size: map<nat, nat>, owner: map<nat, nat>, u: nat) {
    u in owner ==> owner[u] in blocks && owner[u] in size && owner[u] <= u < owner[u] + size[owner[u]]
  }

  /** The blocks partition the units, all above base. */
  ghost predicate Parts(base: nat, blocks: set<nat>, size: map<nat, nat>, owner: map<nat, nat>) {
    && (forall b :: Block(base, blocks, size, owner, b))
    && (forall u :: Unit(blocks, size, owner, u))
  }

  lemma Apart(base: nat, blocks: set<nat>, size: map<nat, nat>, owner: map<nat, nat>, a: nat, b: nat)
    requires Parts(base, blocks, size, owner) && a in blocks && b in blocks && a < b
    ensures a in size && a + size[a] <= b
  {
    assert Block(base, blocks, size, owner, b) && owner[b] == b;
    assert Block(base, blocks, size, owner, a);
  }

  function Reown(owner: map<nat, nat>, from: nat, to: nat): map<nat, nat> {
    map u | u in owner :: if owner[u] == from then to else owner[u]
  }

  /** Joining two adjacent blocks. */
  lemma PartsMerge(base: nat, blocks: set<nat>, size: map<nat, nat>, owner: map<nat, nat>, a: nat, b: nat)
    requires Parts(base, blocks, size, owner) && a in blocks && b in blocks && a in size && b in size
             && a + size[a] == b
    ensures Parts(base, blocks - {b}, size[a := size[a] + size[b]], Reown(owner, b, a))
  {
    var blocks', size', owner' := blocks - {b}, size[a := size[a] + size[b]], Reown(owner, b, a);
    assert Block(base, blocks, size, owner, a) && Block(base, blocks, size, owner, b);
    forall x
      ensures Block(base, blocks', size', owner', x)
    {
      assert Block(base, blocks, size, owner, x);
    }
    forall u
      ensures Unit(blocks', size', owner', u)
    {
      assert Unit(blocks, size, owner, u);
    }
  }

  function Cut(owner: map<nat, nat>, a: nat, c: nat): map<nat, nat> {
    map u | u in owner :: if owner[u] == a && c <= u then c else owner[u]
  }

  /** Cutting a block in two. */
  lemma PartsSplit(base: nat, blocks: set<nat>, size: map<nat, nat>, owner: map<nat, nat>, a: nat, n: nat)
    requires Parts(base, blocks, size, owner) && a in blocks && a in size && 0 < n < size[a]
    ensures var c := a + size[a] - n;
            c !in blocks && Parts(base, blocks + {c}, size[a := size[a] - n][c := n], Cut(owner, a, c))
  {
    var c := a + size[a] - n;
    var blocks', size', owner' := blocks + {c}, size[a := size[a] - n][c := n], Cut(owner, a, c);
    assert Block(base, blocks, size, owner, a) && owner[c] == a;
    assert Block(base, blocks, size, owner, c);
    forall x
      ensures Block(base, blocks', size', owner', x)
    {
      assert Block(base, blocks, size, owner, x);
    }
    forall u
      ensures Unit(blocks', size', owner', u)
    {
      assert Unit(blocks, size, owner, u);
    }
  }

  function Grow(owner: map<nat, nat>, a: nat, n: nat): map<nat, nat> {
    if n == 0 then owner else Grow(owner, a, n - 1)[a + n - 1 := a]
  }

  lemma {:induction false} GrowIs(owner: map<nat, nat>, a: nat, n: nat, u: nat)
    ensures u in Grow(owner, a, n) <==> u in owner || a <= u < a + n
    ensures u in Grow(owner, a, n) ==> Grow(owner, a, n)[u] == if a <= u < a + n then a else owner[u]
  {
    if n > 0 {
      GrowIs(owner, a, n - 1, u);
    }
  }

  /** New units from sbrk. */
  lemma PartsGrow(base: nat, blocks: set<nat>, size: map<nat, nat>, owner: map<nat, nat>, a: nat, n: nat)
    requires Parts(base, blocks, size, owner) && base < a && 0 < n
    requires forall u :: a <= u < a + n ==> u !in owner
    ensures a !in blocks && Parts(base, blocks + {a}, size[a := n], Grow(owner, a, n))
  {
    var blocks', size', owner' := blocks + {a}, size[a := n], Grow(owner, a, n);
    assert Block(base, blocks, size, owner, a) && a !in owner;
    forall x
      ensures Block(base, blocks', size', owner', x)
    {
      assert Block(base, blocks, size, owner, x);
      if x in blocks' {
        forall u | x <= u < x + size'[x]
          ensures u in owner' && owner'[u] == x
        {
          GrowIs(owner, a, n, u);
        }
      }
    }
    forall u
      ensures Unit(blocks', size', owner', u)
    {
      GrowIs(owner, a, n, u);
      assert Unit(blocks, size, owner, u);
    }
  }

  // The whole heap.

  /** next and size: the header fields in memory. free: the list nodes. live: the blocks
      handed out, with their sizes. owner: the block that each unit from sbrk lies in. */
  datatype Heap = Heap(next: map<nat, nat>, size: map<nat, nat>, free: set<nat>, live: map<nat, nat>, owner: map<nat,
                       nat>)

  function Blocks(base: nat, h: Heap): set<nat> {
    h.free - {base} + h.live.Keys
  }

  ghost predicate Live(h: Heap, b: nat) {
    b in h.live ==> b !in h.free && b in h.size && h.size[b] == h.live[b]
  }

  /** No free block starts where b ends. */
  ghost predicate Solid(base: nat, h: Heap, b: nat) {
    b in h.free && b != base ==> b in h.size && b + h.size[b] !in h.free
  }

  ghost predicate AllSolid(base: nat, h: Heap) {
    forall b :: Solid(base, h, b)
  }

  /** The list is circular, in address order and fully coalesced; live and free blocks
      partition the units. */
  ghost predicate Ok(base: nat, h: Heap) {
    && Ring(base, h.free, h.next) && base in h.size && h.size[base] == 0 && base !in h.live
    && Parts(base, Blocks(base, h), h.size, h.owner)
    && (forall b :: Live(h, b)) && AllSolid(base, h)
  }

  /** A live block becomes a list node after p, not yet joined to its neighbours. */
  function Inserted(h: Heap, p: nat, bp: nat): Heap
    requires p in h.next
  {
    h.(next := h.next[bp := h.next[p]][p := bp], free := h.free + {bp}, live := h.live - {bp})
  }

  /** Node b is joined to the node a before it. */
  function Joined(h: Heap, a: nat, b: nat): Heap
    requires b in h.next && a in h.size && b in h.size
  {
    Heap(h.next[a := h.next[b]], h.size[a := h.size[a] + h.size[b]], h.free - {b}, h.live, Reown(h.owner, b, a))
  }

  /** All but coalescing: every free block not in `loose` is solid. */
  ghost predicate OkBut(base: nat, h: Heap, loose: set<nat>) {
    && Ring(base, h.free, h.next) && base in h.size && h.size[base] == 0 && base !in h.live
    && Parts(base, Blocks(base, h), h.size, h.owner)
    && (forall b :: Live(h, b)) && forall b :: b in loose || Solid(base, h, b)
  }

  lemma InsertedOk(base: nat, h: Heap, p: nat, bp: nat)
    requires Ok(base, h) && bp in h.live && p in h.free && p in h.next && Gap(base, p, h.next[p], bp)
    ensures OkBut(base, Inserted(h, p, bp), {p, bp}) && Inserted(h, p, bp).next[p] == bp
  {
    var k := Inserted(h, p, bp);
    assert Live(h, bp) && Node(base, h.free, h.next, p);
    RingInsert(base, h.free, h.next, p, bp);
    assert Block(base, Blocks(base, h), h.size, h.owner, bp);
    assert Blocks(base, k) == Blocks(base, h);
    forall b
      ensures Live(k, b)
    {
      assert Live(h, b);
    }
    forall b: nat
      ensures b in {p, bp} || Solid(base, k, b)
    {
      assert Solid(base, h, b);
      if b in h.free && b != p && b != base && b < bp {
        NotTouching(base, h, p, bp, b);
      }
    }
  }

  /** Only the node just below bp can end at bp. */
  lemma NotTouching(base: nat, h: Heap, p: nat, bp: nat, b: nat)
    requires Ok(base, h) && bp in h.live && p in h.free && p in h.next && Gap(base, p, h.next[p], bp)
    requires b in h.free && b != base && b != p && b < bp
    ensures b in h.size && b + h.size[b] != bp
  {
    assert Node(base, h.free, h.next, p) && Node(base, h.free, h.next, b);
    assert b < p;
    Apart(base, Blocks(base, h), h.size, h.owner, b, p);
  }

  /** Joining keeps everything, and the joined block is solid if the upper one was. */
  lemma JoinedOk(base: nat, h: Heap, a: nat, b: nat, loose: set<nat>)
    requires OkBut(base, h, loose) && a in h.free && a != base && a in h.next && a in h.size && h.next[a] == b
             && b != base
    requires a + h.size[a] == b
    ensures b in h.next && b in h.size
            && OkBut(base, Joined(h, a, b), if b in loose then loose - {b} + {a} else loose - {a})
  {
    RingRemove(base, h.free, h.next, a, b);
    assert Block(base, Blocks(base, h), h.size, h.owner, b) && Block(base, Blocks(base, h), h.size, h.owner, a);
    var k := Joined(h, a, b);
    assert Live(h, b) && Live(h, a);
    PartsMerge(base, Blocks(base, h), h.size, h.owner, a, b);
    assert Blocks(base, k) == Blocks(base, h) - {b};
    forall x
      ensures Live(k, x)
    {
      assert Live(h, x);
    }
    forall x
      ensures x in (if b in loose then loose - {b} + {a} else loose - {a}) || Solid(base, k, x)
    {
      assert x in loose || Solid(base, h, x);
      assert b in loose || Solid(base, h, b);
    }
  }

  /** Nothing to join: the new node ends below the next one. */
  lemma UpperSolid(base: nat, h: Heap, bp: nat)
    requires Ring(base, h.free, h.next) && Parts(base, Blocks(base, h), h.size, h.owner)
    requires bp in h.free && bp != base && bp in h.next && bp in h.size && bp + h.size[bp] != h.next[bp]
    ensures Solid(base, h, bp)
  {
    assert Node(base, h.free, h.next, bp) && Block(base, Blocks(base, h), h.size, h.owner, bp);
    var q := h.next[bp];
    if q != base {
      Apart(base, Blocks(base, h), h.size, h.owner, bp, q);
    }
  }

  /** What free does with the live block bp, p being the node below it. */
  function Freed(h: Heap, p: nat, bp: nat): Heap
    requires p in h.next && h.next[p] in h.next && p in h.size && bp in h.size && h.next[p] in h.size
  {
    var k := Inserted(h, p, bp);
    var q := h.next[p];
    var k1 := if bp + h.size[bp] == q then Joined(k, bp, q) else k;
    if p + k1.size[p] == bp then Joined(k1, p, bp) else k1
  }

  ghost predicate SameNode(h: Heap, k: Heap, x: nat) {
    x in k.free ==> x in h.free && x in h.size && x in k.size && k.size[x] == h.size[x]
  }

  /** Node g takes in the n units at a; every other node is as it was. */
  ghost predicate Absorbed(h: Heap, k: Heap, g: nat, a: nat, n: nat) {
    && g in k.free && g in k.size && g <= a && a + n <= g + k.size[g]
    && forall x :: x == g || SameNode(h, k, x)
  }

  /** The node that holds the block once it is free. */
  function FreedInto(h: Heap, p: nat, bp: nat): nat
    requires p in h.size
  {
    if p + h.size[p] == bp then p else bp
  }

  lemma FreedOk(base: nat, h: Heap, p: nat, bp: nat)
    requires Ok(base, h) && bp in h.live && p in h.free && p in h.next && Gap(base, p, h.next[p], bp)
    ensures h.next[p] in h.next && p in h.size && bp in h.size && h.next[p] in h.size
    ensures Ok(base, Freed(h, p, bp)) && Freed(h, p, bp).live == h.live - {bp}
            && Freed(h, p, bp).owner.Keys == h.owner.Keys
    ensures p in Freed(h, p, bp).free
  {
    var q := h.next[p];
    assert Node(base, h.free, h.next, p) && Node(base, h.free, h.next, q) && Live(h, bp);
    assert Block(base, Blocks(base, h), h.size, h.owner, p) && Block(base, Blocks(base, h), h.size, h.owner, q);
    assert Block(base, Blocks(base, h), h.size, h.owner, bp);
    InsertedOk(base, h, p, bp);
    var k := Inserted(h, p, bp);
    var k1 := if bp + h.size[bp] == q then Joined(k, bp, q) else k;
    assert OkBut(base, k1, {p}) by {
      if bp + h.size[bp] == q {
        JoinedOk(base, k, bp, q, {p, bp});
        assert {p, bp} - {bp} == {p};
      } else {
        UpperSolid(base, k, bp);
      }
    }
    if p + k1.size[p] == bp {
      assert {p} - {p} == {};
      JoinedOk(base, k1, p, bp, {p});
    } else if p != base {
      UpperSolid(base, k1, p);
    }
  }

  lemma FreedAbsorbs(base: nat, h: Heap, p: nat, bp: nat)
    requires Ok(base, h) && bp in h.live && p in h.free && p in h.next && Gap(base, p, h.next[p], bp)
    requires h.next[p] in h.next && p in h.size && bp in h.size && h.next[p] in h.size
    ensures Absorbed(h, Freed(h, p, bp), FreedInto(h, p, bp), bp, h.size[bp])
  {
    var q, k, g := h.next[p], Freed(h, p, bp), FreedInto(h, p, bp);
    assert Node(base, h.free, h.next, p);
    assert g in k.free && g in k.size && bp + h.size[bp] <= g + k.size[g];
    forall x: nat
      ensures x == g || SameNode(h, k, x)
    {
      assert Block(base, Blocks(base, h), h.size, h.owner, x);
    }
  }

  // Handing out.

  function Unlinked(h: Heap, prev: nat, p: nat): Heap
    requires p in h.next && p in h.size
  {
    h.(next := h.next[prev := h.next[p]], free := h.free - {p}, live := h.live[p := h.size[p]])
  }

  lemma UnlinkedOk(base: nat, h: Heap, prev: nat, p: nat)
    requires Ok(base, h) && prev in h.free && prev in h.next && h.next[prev] == p && p != base
    ensures p in h.next && p in h.size && Ok(base, Unlinked(h, prev, p)) && prev in Unlinked(h, prev, p).free
            && p !in h.live
  {
    assert Node(base, h.free, h.next, prev) && Node(base, h.free, h.next, p) && Live(h, p);
    assert Block(base, Blocks(base, h), h.size, h.owner, p);
    RingRemove(base, h.free, h.next, prev, p);
    var k := Unlinked(h, prev, p);
    assert Blocks(base, k) == Blocks(base, h);
    forall b
      ensures Live(k, b) && Solid(base, k, b)
    {
      assert Live(h, b) && Solid(base, h, b);
    }
  }

  function Carved(h: Heap, p: nat, n: nat): Heap
    requires p in h.size && n < h.size[p]
  {
    var c := p + h.size[p] - n;
    h.(size := h.size[p := h.size[p] - n][c := n], live := h.live[c := n], owner := Cut(h.owner, p, c))
  }

  lemma CarvedOk(base: nat, h: Heap, p: nat, n: nat)
    requires Ok(base, h) && p in h.free && p != base && p in h.size && 0 < n < h.size[p]
    ensures Ok(base, Carved(h, p, n)) && p + h.size[p] - n !in Blocks(base, h)
  {
    var c := p + h.size[p] - n;
    assert Live(h, p) && Solid(base, h, p);
    PartsSplit(base, Blocks(base, h), h.size, h.owner, p, n);
    var k := Carved(h, p, n);
    assert Blocks(base, k) == Blocks(base, h) + {c};
    assert Node(base, h.free, h.next, p);
    forall b
      ensures Live(k, b) && Solid(base, k, b)
    {
      assert Live(h, b) && Solid(base, h, b);
    }
  }

  function Extended(h: Heap, a: nat, n: nat): Heap {
    h.(size := h.size[a := n], live := h.live[a := n], owner := Grow(h.owner, a, n))
  }

  lemma ExtendedOk(base: nat, h: Heap, a: nat, n: nat)
    requires Ok(base, h) && base < a && 0 < n && forall u :: a <= u < a + n ==> u !in h.owner
    ensures Ok(base, Extended(h, a, n)) && a !in Blocks(base, h)
  {
    PartsGrow(base, Blocks(base, h), h.size, h.owner, a, n);
    var k := Extended(h, a, n);
    assert Blocks(base, k) == Blocks(base, h) + {a};
    forall b
      ensures Live(k, b) && Solid(base, k, b)
    {
      assert Live(h, b) && Solid(base, h, b);
    }
  }

  // Going round the ring.

  /** The nodes from p up to stop, going round. */
  ghost function Ahead(free: set<nat>, p: nat, stop: nat): set<nat> {
    set x | x in free && if p <= stop then p <= x <= stop else x >= p || x <= stop
  }

  lemma AheadNext(base: nat, free: set<nat>, next: map<nat, nat>, p: nat, stop: nat)
    requires Ring(base, free, next) && p in free && stop in free && p != stop
    ensures p in next && next[p] in free && Ahead(free, next[p], stop) == Ahead(free, p, stop) - {p}
            && p in Ahead(free, p, stop)
  {
    assert Node(base, free, next, p);
    forall x | x in free
      ensures base <= x
    {
      assert Node(base, free, next, x);
    }
  }

  lemma AheadAll(base: nat, free: set<nat>, next: map<nat, nat>, stop: nat)
    requires Ring(base, free, next) && stop in free
    ensures stop in next && next[stop] in free && Ahead(free, next[stop], stop) == free
  {
    assert Node(base, free, next, stop);
    forall x | x in free
      ensures x in Ahead(free, next[stop], stop)
    {
      assert Node(base, free, next, x);
    }
  }

  ghost function Above(free: set<nat>, p: nat): set<nat> {
    set x | x in free && x > p
  }

  lemma AboveNext(free: set<nat>, p: nat, q: nat)
    requires p < q && q in free
    ensures |Above(free, q)| < |Above(free, p)|
  {
    assert Above(free, p) == Above(free, q) + (Above(free, p) - Above(free, q));
    assert q in Above(free, p) - Above(free, q);
  }

  /** malloc's first call: the list is the empty block `base` alone. */
  lemma StartOk(base: nat)
    ensures Ok(base, Heap(map[base := base], map[base := 0], {base}, map[], map[]))
  {
  }

  lemma InSize(base: nat, h: Heap, b: nat)
    requires Ok(base, h) && b in h.free
    ensures b in h.size && b in h.next && h.next[b] in h.free
  {
    assert Node(base, h.free, h.next, b) && Block(base, Blocks(base, h), h.size, h.owner, b);
  }

  // What the invariant says about blocks and the list.

  /** Two blocks, free or live, never overlap. */
  lemma BlocksDisjoint(base: nat, h: Heap, a: nat, b: nat)
    requires Ok(base, h) && a in Blocks(base, h) && b in Blocks(base, h) && a != b
    ensures a in h.size && b in h.size && (a + h.size[a] <= b || b + h.size[b] <= a)
  {
    assert Block(base, Blocks(base, h), h.size, h.owner, a) && Block(base, Blocks(base, h), h.size, h.owner, b);
    if a < b {
      Apart(base, Blocks(base, h), h.size, h.owner, a, b);
    } else {
      Apart(base, Blocks(base, h), h.size, h.owner, b, a);
    }
  }

  function Follow(next: map<nat, nat>, p: nat, k: nat): nat {
    if k == 0 then p
    else
      var q := Follow(next, p, k - 1);
      if q in next then next[q] else q
  }

  ghost function Below(free: set<nat>, b: nat): set<nat> {
    set x | x in free && x < b
  }

  lemma {:induction false} Largest(s: set<nat>) returns (m: nat)
    requires s != {}
    ensures m in s && forall x :: x in s ==> x <= m
  {
    var a :| a in s;
    m := a;
    if s != {a} {
      var n := Largest(s - {a});
      assert forall x :: x in s ==> x == a || x in s - {a};
      if n > a {
        m := n;
      }
    }
  }

  /** The list is one ring: following ptr from base comes to every node. */
  lemma {:induction false} ComesToAll(base: nat, free: set<nat>, next: map<nat, nat>, b: nat)
    requires Ring(base, free, next) && b in free
    ensures exists k :: Follow(next, base, k) == b
    decreases |Below(free, b)|
  {
    assert Node(base, free, next, b);
    if b == base {
      assert Follow(next, base, 0) == b;
    } else {
      assert base in Below(free, b);
      var a := Largest(Below(free, b));
      assert Node(base, free, next, a);
      var c := next[a];
      assert c in Below(free, b) || b <= c;
      assert Below(free, b) == Below(free, a) + (Below(free, b) - Below(free, a))
          && a in Below(free, b) - Below(free, a);
      ComesToAll(base, free, next, a);
      var k: nat :| Follow(next, base, k) == a;
      assert Follow(next, base, k + 1) == b;
    }
  }
}
