/** What the operations of kalloc.c and vm.c do to physical memory: the free list, and
    mapping and unmapping ranges of virtual pages. */
module VmSpec {
  import opened Blocks
  import opened PageTable

  datatype Mem = Mem(pages: seq<Page>, head: nat)

  lemma PageNumber(pn: nat, a: nat)
    requires a == pn * PGSIZE
    ensures a / PGSIZE == pn && a % PGSIZE == 0
  {
  }

  // The facts about the free list are wrapped one by one, to be used only where named.

  predicate Apart(chain: seq<nat>, j: nat, k: nat) {
    j < k < |chain| ==> chain[j] != chain[k]
  }

  predicate FreeAt(lo: nat, role: seq<Role>, chain: seq<nat>, k: nat) {
    k < |chain| ==> lo <= chain[k] < |role| && role[chain[k]].FreePage?
  }

  predicate Listed(role: seq<Role>, chain: seq<nat>, f: nat) {
    f < |role| && role[f].FreePage? ==> f in chain
  }

  predicate LinkAt(pages: seq<Page>, chain: seq<nat>, k: nat) {
    k < |chain| ==> chain[k] < |pages| && pages[chain[k]] == Unused(if k > 0 then chain[k - 1] else 0)
  }

  /** The pages of the chain are distinct and are exactly the free ones. */
  ghost predicate Lists(lo: nat, role: seq<Role>, chain: seq<nat>) {
    && (forall k :: FreeAt(lo, role, chain, k))
    && (forall j, k :: Apart(chain, j, k))
    && forall f :: Listed(role, chain, f)
  }

  ghost predicate Linked(m: Mem, chain: seq<nat>) {
    && m.head == (if chain == [] then 0 else chain[|chain| - 1])
    && forall k :: LinkAt(m.pages, chain, k)
  }

  /** The free list is the chain of unused pages that starts at head, given here from
      its last element to its first: every free page once. Pages below lo belong to the kernel image. */
  ghost predicate FreeOk(lo: nat, m: Mem, role: seq<Role>, chain: seq<nat>) {
    && 0 < lo && |role| == |m.pages|
    && (forall f :: 0 <= f < |role| && f < lo ==> role[f].Kernel?)
    && Lists(lo, role, chain) && Linked(m, chain)
  }

  lemma InPrefix(chain: seq<nat>, g: nat)
    requires g in chain && g != chain[|chain| - 1]
    ensures g in chain[..|chain| - 1]
  {
    var k :| 0 <= k < |chain| && chain[k] == g;
    assert chain[..|chain| - 1][k] == g;
  }

  lemma ListsPop(lo: nat, role: seq<Role>, chain: seq<nat>, f: nat)
    requires Lists(lo, role, chain) && chain != [] && f == chain[|chain| - 1]
    ensures lo <= f < |role| && role[f].FreePage? && Lists(lo, role[f := Held], chain[..|chain| - 1])
  {
    var rest := chain[..|chain| - 1];
    assert FreeAt(lo, role, chain, |rest|);
    var role' := role[f := Held];
    forall j: nat, k: nat
      ensures Apart(rest, j, k)
    {
      assert Apart(chain, j, k);
    }
    forall k: nat
      ensures FreeAt(lo, role', rest, k)
    {
      assert FreeAt(lo, role, chain, k) && Apart(chain, k, |rest|);
    }
    forall g: nat
      ensures Listed(role', rest, g)
    {
      assert Listed(role, chain, g);
      if g < |role| && g != f && role[g].FreePage? {
        InPrefix(chain, g);
      }
    }
  }

  lemma LinkedPop(m: Mem, chain: seq<nat>, page: Page)
    requires Linked(m, chain) && chain != [] && forall j, k :: Apart(chain, j, k)
    ensures m.head < |m.pages| && m.pages[m.head].Unused?
    ensures Linked(Mem(m.pages[m.head := page], m.pages[m.head].next), chain[..|chain| - 1])
  {
    var last := |chain| - 1;
    assert LinkAt(m.pages, chain, last);
    var pages, rest := m.pages[m.head := page], chain[..last];
    forall k: nat
      ensures LinkAt(pages, rest, k)
    {
      assert LinkAt(m.pages, chain, k) && Apart(chain, k, last);
    }
  }

  /** Taking the first page off the list. */
  lemma FreePop(lo: nat, m: Mem, role: seq<Role>, chain: seq<nat>, page: Page)
    requires FreeOk(lo, m, role, chain) && chain != []
    ensures m.head == chain[|chain| - 1] && lo <= m.head < |role| && role[m.head].FreePage? && m.pages[m.head].Unused?
    ensures FreeOk(lo, Mem(m.pages[m.head := page], m.pages[m.head].next), role[m.head := Held], chain[..|chain| - 1])
  {
    ListsPop(lo, role, chain, m.head);
    LinkedPop(m, chain, page);
  }

  lemma ListsPush(lo: nat, role: seq<Role>, chain: seq<nat>, f: nat)
    requires Lists(lo, role, chain) && lo <= f < |role| && !role[f].FreePage?
    ensures Lists(lo, role[f := FreePage], chain + [f]) && f !in chain
  {
    var more, role' := chain + [f], role[f := FreePage];
    forall k: nat
      ensures FreeAt(lo, role', more, k) && (k < |chain| ==> chain[k] != f)
    {
      assert FreeAt(lo, role, chain, k);
    }
    forall j: nat, k: nat
      ensures Apart(more, j, k)
    {
      assert Apart(chain, j, k) && FreeAt(lo, role, chain, j);
    }
    forall g: nat
      ensures Listed(role', more, g)
    {
      assert Listed(role, chain, g) && more[|chain|] == f;
    }
  }

  lemma LinkedPush(m: Mem, chain: seq<nat>, f: nat)
    requires Linked(m, chain) && f < |m.pages| && f !in chain
    ensures Linked(Mem(m.pages[f := Unused(m.head)], f), chain + [f])
  {
    var pages, more := m.pages[f := Unused(m.head)], chain + [f];
    forall k: nat
      ensures LinkAt(pages, more, k)
    {
      assert LinkAt(m.pages, chain, k);
      assert k < |chain| ==> chain[k] in chain;
    }
  }

  lemma FreePush(lo: nat, m: Mem, role: seq<Role>, chain: seq<nat>, f: nat)
    requires FreeOk(lo, m, role, chain) && lo <= f < |role| && !role[f].FreePage?
    ensures FreeOk(lo, Mem(m.pages[f := Unused(m.head)], f), role[f := FreePage], chain + [f])
  {
    ListsPush(lo, role, chain, f);
    LinkedPush(m, chain, f);
  }

  /** Pushing a page that is on the list already: from it on, the links go round. */
  lemma NextOnCycle(lo: nat, m: Mem, role: seq<Role>, chain: seq<nat>, j: nat, i: nat)
    requires FreeOk(lo, m, role, chain) && j <= i < |chain| && chain[j] < |m.pages|
    ensures var pages := m.pages[chain[j] := Unused(m.head)];
            chain[i] < |pages| && pages[chain[i]].Unused? && pages[chain[i]].next != 0
                && pages[chain[i]].next in chain[j..]
  {
    assert LinkAt(m.pages, chain, i) && LinkAt(m.pages, chain, j) && Apart(chain, j, i);
    var next := if i == j then |chain| - 1 else i - 1;
    assert FreeAt(lo, role, chain, next);
    assert chain[j..][next - j] == chain[next];
  }

  lemma {:induction false} StaysOnCycle(lo: nat, m: Mem, role: seq<Role>, chain: seq<nat>, j: nat, c: seq<nat>, k: nat)
    requires FreeOk(lo, m, role, chain) && j < |chain| && k < |c| && chain[j] < |m.pages|
    requires Linked(Mem(m.pages[chain[j] := Unused(m.head)], chain[j]), c)
    ensures c[k] in chain[j..]
    decreases |c| - k
  {
    if k + 1 == |c| {
      assert chain[j..][0] == chain[j];
    } else {
      StaysOnCycle(lo, m, role, chain, j, c, k + 1);
      var i :| 0 <= i < |chain[j..]| && chain[j..][i] == c[k + 1];
      NextOnCycle(lo, m, role, chain, j, j + i);
      assert LinkAt(m.pages[chain[j] := Unused(m.head)], c, k + 1);
    }
  }

  /** After a page has been freed twice nothing is the list of the free pages. */
  lemma FreedTwice(lo: nat, m: Mem, role: seq<Role>, chain: seq<nat>, f: nat, m': Mem)
    requires FreeOk(lo, m, role, chain) && f < |role| && role[f].FreePage?
             && m' == Mem(m.pages[f := Unused(m.head)], f)
    ensures forall c :: !Linked(m', c)
  {
    assert Listed(role, chain, f);
    var j :| 0 <= j < |chain| && chain[j] == f;
    assert FreeAt(lo, role, chain, j);
    forall c | Linked(m', c)
      ensures false
    {
      assert LinkAt(m'.pages, c, 0);
      StaysOnCycle(lo, m, role, chain, j, c, 0);
      var i :| 0 <= i < |chain[j..]| && chain[j..][i] == c[0];
      NextOnCycle(lo, m, role, chain, j, j + i);
    }
  }

  /** A change outside the free list. */
  lemma FreeElsewhere(lo: nat, m: Mem, role: seq<Role>, chain: seq<nat>, pages': seq<Page>, role': seq<Role>)
    requires FreeOk(lo, m, role, chain) && |pages'| == |role'| == |role|
    requires forall f :: 0 <= f < |role| ==> (role'[f].FreePage? <==> role[f].FreePage?)
                                             && (role[f].FreePage? ==> pages'[f] == m.pages[f])
                                             && (role[f].Kernel? ==> role'[f].Kernel?)
    ensures FreeOk(lo, m.(pages := pages'), role', chain)
  {
    forall k: nat
      ensures FreeAt(lo, role', chain, k) && LinkAt(pages', chain, k)
    {
      assert FreeAt(lo, role, chain, k) && LinkAt(m.pages, chain, k);
    }
    forall f: nat
      ensures Listed(role', chain, f)
    {
      assert Listed(role, chain, f);
    }
  }

  /** Pages that hold something: a walk leaves them alone. */
  predicate Holds(role: Role) {
    role.User? || role.Held? || role.Kernel?
  }

  predicate NewTableRole(x: Role, y: Role, root: nat) {
    x.FreePage? && (y.Mid? || y.Low?) && y.r == root
  }

  /** Growth of the tree of `root` alone: no mapping and no user page changes, and the
      only new roles are tables of that root made from free pages. */
  ghost predicate Quiet(pages: seq<Page>, role: seq<Role>, pages': seq<Page>, role': seq<Role>, root: nat) {
    && |pages| == |role| == |pages'| == |role'|
    && SameMaps(pages, pages', role)
    && forall f :: 0 <= f < |role| ==>
         && (role'[f] == role[f] || NewTableRole(role[f], role'[f], root))
         && (Holds(role[f]) ==> pages'[f] == pages[f])
  }

  lemma QuietSelf(pages: seq<Page>, role: seq<Role>, root: nat)
    requires |pages| == |role|
    ensures Quiet(pages, role, pages, role, root)
  {
  }

  lemma QuietTwice(p0: seq<Page>, r0: seq<Role>, p1: seq<Page>, r1: seq<Role>, p2: seq<Page>, r2: seq<Role>, root: nat)
    requires Quiet(p0, r0, p1, r1, root) && Quiet(p1, r1, p2, r2, root)
    ensures Quiet(p0, r0, p2, r2, root)
  {
    forall r, vp | 0 <= r < |r0| && r0[r].Root? && IsVp(vp)
      ensures Leaf(p2, r, vp) == Leaf(p0, r, vp)
    {
      assert SameMap(p0, p1, r) && SameMap(p1, p2, r);
    }
  }

  /** The role of the table that the walk of vp visits at a level. */
  function TableAt(level: nat, root: nat, vp: Vp): Role {
    if level == 2 then Root else if level == 1 then Mid(root, vp.i2) else Low(root, vp.i2, vp.i1)
  }

  lemma HangTable(pages: seq<Page>, role: seq<Role>, root: nat, vp: Vp, level: nat, t: nat, i: nat, f: nat)
    requires Inv(pages, role) && IsRoot(role, root) && 1 <= level <= 2 && t < |role|
             && role[t] == TableAt(level, root, vp)
    requires (level == 2 ==> t == root) && IsVp(vp) && i == (if level == 2 then vp.i2 else vp.i1)
    requires PteAt(pages, t, i) == NO_PTE && f < |role| && role[f] == Held
    ensures var pages' := SetPte(pages[f := Table(NoPtes())], t, i, Link(f));
            Inv(pages', role[f := TableAt(level - 1, root, vp)]) && SameMaps(pages, pages', role)
  {
    if level == 2 {
      AttachMid(pages, role, t, i, f);
    } else {
      AttachLow(pages, role, t, i, f);
    }
  }

  /** The same with a page that was free. */
  lemma HangNew(p0: seq<Page>, r0: seq<Role>, root: nat, vp: Vp, level: nat, t: nat, i: nat, f: nat, page: Page)
    requires Inv(p0, r0) && IsRoot(r0, root) && 1 <= level <= 2 && t < |r0| && r0[t] == TableAt(level, root, vp)
    requires (level == 2 ==> t == root) && IsVp(vp) && i == (if level == 2 then vp.i2 else vp.i1)
    requires PteAt(p0, t, i) == NO_PTE && f < |r0| && r0[f].FreePage?
    ensures var p2, r2 := SetPte(p0[f := page][f := Table(NoPtes())], t, i, Link(f)),
                          r0[f := Held][f := TableAt(level - 1, root, vp)];
            Inv(p2, r2) && Quiet(p0, r0, p2, r2, root)
  {
    LooseChange(p0, r0, f, page, Held);
    HangTable(p0[f := page], r0[f := Held], root, vp, level, t, i, f);
  }

  /** At each level of a walk the entry is empty, and the page unmapped, or it leads to
      the next table; at level 0 it is the leaf entry. */
  lemma Reached(pages: seq<Page>, role: seq<Role>, root: nat, vp: Vp, level: nat, t: nat)
    requires Inv(pages, role) && IsRoot(role, root) && IsVp(vp) && level <= 2
    requires t < |role| && role[t] == TableAt(level, root, vp) && (level == 2 ==> t == root)
    ensures level == 0 ==> PteAt(pages, t, vp.i0) == Leaf(pages, root, vp)
    ensures level > 0 ==>
              var pte := PteAt(pages, t, if level == 2 then vp.i2 else vp.i1);
              if V(pte) then pte.frame < |role| && role[pte.frame] == TableAt(level - 1, root, vp)
              else pte == NO_PTE && Leaf(pages, root, vp) == NO_PTE
  {
    Path(pages, role, root, vp);
    assert Earned(pages, role, t);
  }

  // Mappings of a range: pages a .. a + n of `root` go to frames frame .. frame + n.

  ghost predicate MapsTo(pages: seq<Page>, pages': seq<Page>, role: seq<Role>, root: nat, a: nat, n: nat, frame: nat,
                         perm: Flags) {
    forall q, vp :: 0 <= q < |role| && role[q].Root? && IsVp(vp) ==>
      Leaf(pages', q, vp) == if q == root
          && a <= Num(vp) < a + n then MakePte(frame + (Num(vp) - a), perm) else Leaf(pages, q, vp)
  }

  /** The pages handed over become user pages of the root; the rest as in a walk. */
  ghost predicate MapRoles(pages: seq<Page>, role: seq<Role>, pages': seq<Page>, role': seq<Role>,
                           root: nat, a: nat, n: nat, frame: nat)
  {
    && |pages| == |role| == |pages'| == |role'|
    && forall f :: 0 <= f < |role| ==>
         && (Holds(role[f]) ==> pages'[f] == pages[f])
         && if frame <= f < frame + n && role[f].Held? && a + (f - frame) < USER_PAGES
            then role'[f].User? && role'[f].r == root && IsUser(role'[f].vp) && Num(role'[f].vp) == a + (f - frame)
            else role'[f] == role[f] || NewTableRole(role[f], role'[f], root)
  }

  lemma WalkMaps(pages: seq<Page>, role: seq<Role>, pages': seq<Page>, role': seq<Role>, root: nat, a: nat, frame: nat,
                 perm: Flags)
    requires Quiet(pages, role, pages', role', root)
    ensures MapsTo(pages, pages', role, root, a, 0, frame, perm)
    ensures MapRoles(pages, role, pages', role', root, a, 0, frame)
  {
  }

  lemma MapLeaf(pages: seq<Page>, role: seq<Role>, root: nat, vp: Vp, t: nat, frame: nat, perm: Flags)
    requires Inv(pages, role) && IsRoot(role, root) && IsVp(vp) && t < |role| && role[t] == TableAt(0, root, vp)
    requires PteAt(pages, t, vp.i0) == NO_PTE
    requires IsUser(vp) ==> frame < |role| && role[frame].Held? && pages[frame].Data?
    ensures var pages' := SetPte(pages, t, vp.i0, MakePte(frame, perm));
            var role' := if IsUser(vp) then role[frame := User(root, vp)] else role;
            && Inv(pages', role') && MapsTo(pages, pages', role, root, Num(vp), 1, frame, perm)
            && MapRoles(pages, role, pages', role', root, Num(vp), 1, frame)
  {
    var pte := MakePte(frame, perm);
    if IsUser(vp) {
      AttachUser(pages, role, t, vp.i0, pte);
    } else {
      SetForeign(pages, role, t, vp.i0, pte);
    }
    forall q, v | 0 <= q < |role| && role[q].Root? && IsVp(v)
      ensures Leaf(SetPte(pages, t, vp.i0, pte), q, v) == if q == root
              && Num(v) == Num(vp) then pte else Leaf(pages, q, v)
    {
      SetLeaf(pages, role, t, vp.i0, pte, q, v);
      if Num(v) == Num(vp) {
        NumInjective(v, vp);
      }
    }
  }

  lemma MapMore(p0: seq<Page>, r0: seq<Role>, p1: seq<Page>, r1: seq<Role>, p2: seq<Page>, r2: seq<Role>,
                root: nat, a: nat, k: nat, frame: nat, perm: Flags, n: nat)
    requires MapsTo(p0, p1, r0, root, a, k, frame, perm) && MapRoles(p0, r0, p1, r1, root, a, k, frame)
    requires MapsTo(p1, p2, r1, root, a + k, n, frame + k, perm) && MapRoles(p1, r1, p2, r2, root, a + k, n, frame + k)
    ensures MapsTo(p0, p2, r0, root, a, k + n, frame, perm) && MapRoles(p0, r0, p2, r2, root, a, k + n, frame)
  {
    forall q, vp | 0 <= q < |r0| && r0[q].Root? && IsVp(vp)
      ensures Leaf(p2, q, vp) == if q == root
              && a <= Num(vp) < a + (k + n) then MakePte(frame + (Num(vp) - a), perm) else Leaf(p0, q, vp)
    {
      assert r1[q].Root?;
    }
  }

  predicate InRange(vp: Vp, a: nat, n: nat) {
    IsVp(vp) && a <= Num(vp) < a + n
  }

  /** Nothing is mapped in the range. */
  ghost predicate Fresh(pages: seq<Page>, root: nat, a: nat, n: nat) {
    forall vp :: InRange(vp, a, n) ==> Leaf(pages, root, vp) == NO_PTE
  }

  /** What makes mappages panic. */
  ghost predicate Misused(pages: seq<Page>, root: nat, va: nat, size: nat) {
    va % PGSIZE != 0 || size % PGSIZE != 0 || size == 0 || va + size > MAXVA
        || !Fresh(pages, root, va / PGSIZE, size / PGSIZE)
  }

  lemma FreshOne(pages: seq<Page>, root: nat, va: nat)
    requires va < MAXVA
    ensures Fresh(pages, root, va / PGSIZE, 1) <==> Leaf(pages, root, VpOf(va)) == NO_PTE
  {
    VpIsPage(va);
    assert InRange(VpOf(va), va / PGSIZE, 1);
    forall vp | InRange(vp, va / PGSIZE, 1)
      ensures vp == VpOf(va)
    {
      NumInjective(vp, VpOf(va));
    }
  }

  /** A page beyond the part mapped so far is fresh or it was mapped from the start. */
  lemma FreshNext(p0: seq<Page>, r0: seq<Role>, p1: seq<Page>, root: nat, a: nat, k: nat, frame: nat, perm: Flags,
                  n: nat, va: nat)
    requires MapsTo(p0, p1, r0, root, a, k, frame, perm) && IsRoot(r0, root) && k < n && Fresh(p0, root, a, k)
    requires va == (a + k) * PGSIZE
    ensures va >= MAXVA || Leaf(p1, root, VpOf(va)) != NO_PTE ==> (a + n) * PGSIZE > MAXVA || !Fresh(p0, root, a, n)
    ensures va < MAXVA && Leaf(p1, root, VpOf(va)) == NO_PTE ==> Fresh(p0, root, a, k + 1)
  {
    if va < MAXVA {
      var vp := VpOf(va);
      VpIsPage(va);
      assert InRange(vp, a, n);
      forall v | InRange(v, a, k + 1)
        ensures v == vp || InRange(v, a, k)
      {
        if Num(v) == Num(vp) {
          NumInjective(v, vp);
        }
      }
    }
  }

  /** A page that can be handed to a page table. */
  predicate Handed(pages: seq<Page>, role: seq<Role>, f: nat) {
    f < |role| == |pages| && role[f].Held? && pages[f].Data?
  }

  /** n pages from `frame` on that can be handed over for the user pages from a on. */
  ghost predicate HandedRange(pages: seq<Page>, role: seq<Role>, a: nat, frame: nat, n: nat) {
    forall f :: frame <= f < frame + n && a + (f - frame) < USER_PAGES ==> Handed(pages, role, f)
  }

  /** The page to map at address va after the first k of a range. */
  lemma NextHanded(p0: seq<Page>, r0: seq<Role>, p1: seq<Page>, r1: seq<Role>, root: nat, a: nat, k: nat, frame: nat,
                   n: nat, va: nat)
    requires HandedRange(p0, r0, a, frame, n) && MapRoles(p0, r0, p1, r1, root, a, k, frame) && k < n
    requires va == (a + k) * PGSIZE
    ensures va % PGSIZE == 0 && (va / PGSIZE < USER_PAGES ==> Handed(p1, r1, frame + k))
  {
    PageNumber(a + k, va);
    if a + k < USER_PAGES {
      assert Handed(p0, r0, frame + k);
    }
  }

  /** A round of mappages at address va, which maps k pages, after the first `done`. */
  lemma MappedNext(p0: seq<Page>, r0: seq<Role>, p1: seq<Page>, r1: seq<Role>, p2: seq<Page>, r2: seq<Role>, root: nat,
                   a: nat, done: nat, frame: nat, perm: Flags, va: nat, k: nat)
    requires IsRoot(r1, root) && va == (a + done) * PGSIZE
    requires MapsTo(p0, p1, r0, root, a, done, frame, perm) && MapRoles(p0, r0, p1, r1, root, a, done, frame)
    requires MapsTo(p1, p2, r1, root, va / PGSIZE, k, frame + done, perm)
             && MapRoles(p1, r1, p2, r2, root, va / PGSIZE, k, frame + done)
    ensures MapsTo(p0, p2, r0, root, a, done + k, frame, perm) && MapRoles(p0, r0, p2, r2, root, a, done + k, frame)
    ensures IsRoot(r2, root)
  {
    PageNumber(a + done, va);
    MapMore(p0, r0, p1, r1, p2, r2, root, a, done, frame, perm, k);
  }

  // Unmapping a range.

  ghost predicate Unmaps(pages: seq<Page>, pages': seq<Page>, role: seq<Role>, root: nat, a: nat, n: nat) {
    forall q, vp :: 0 <= q < |role| && role[q].Root? && IsVp(vp) ==>
      Leaf(pages', q, vp) == if q == root && a <= Num(vp) < a + n then NO_PTE else Leaf(pages, q, vp)
  }

  function UnmapRole(x: Role, root: nat, a: nat, n: nat, free: bool): Role {
    if x.User? && x.r == root && a <= Num(x.vp) < a + n then (if free then FreePage else Held) else x
  }

  /** The user pages of the range, and no others, are freed or given back to the caller. */
  ghost predicate UnmapRoles(pages: seq<Page>, role: seq<Role>, pages': seq<Page>, role': seq<Role>,
                             root: nat, a: nat, n: nat, free: bool)
  {
    && |pages| == |role| == |pages'| == |role'|
    && forall f :: 0 <= f < |role| ==>
         role'[f] == UnmapRole(role[f], root, a, n, free) && (Holds(role'[f]) ==> pages'[f] == pages[f])
  }

  lemma Unmapped(pages: seq<Page>, role: seq<Role>, root: nat, vp: Vp, t: nat)
    requires Inv(pages, role) && IsRoot(role, root) && IsVp(vp)
    requires t != 0 ==> t < |role| && role[t] == TableAt(0, root, vp) && !V(PteAt(pages, t, vp.i0))
    requires t == 0 ==> Leaf(pages, root, vp) == NO_PTE
    ensures Leaf(pages, root, vp) == NO_PTE
  {
    if t != 0 {
      Reached(pages, role, root, vp, 0, t);
      assert DownAt(pages, role, t, vp.i0);
    }
  }

  lemma AlreadyUnmapped(pages: seq<Page>, role: seq<Role>, root: nat, vp: Vp, free: bool)
    requires Inv(pages, role) && IsRoot(role, root) && IsVp(vp) && Leaf(pages, root, vp) == NO_PTE
    ensures Unmaps(pages, pages, role, root, Num(vp), 1)
    ensures UnmapRoles(pages, role, pages, role, root, Num(vp), 1, free)
  {
    forall v | IsVp(v) && Num(v) == Num(vp)
      ensures v == vp
    {
      NumInjective(v, vp);
    }
    forall f | 0 <= f < |role| && role[f].User? && role[f].r == root
      ensures Num(role[f].vp) != Num(vp)
    {
      assert Earned(pages, role, f);
    }
  }

  lemma UnmapsOne(pages: seq<Page>, role: seq<Role>, root: nat, vp: Vp, t: nat)
    requires Inv(pages, role) && IsRoot(role, root) && IsVp(vp) && t < |role| && role[t] == TableAt(0, root, vp)
    ensures Unmaps(pages, SetPte(pages, t, vp.i0, NO_PTE), role, root, Num(vp), 1)
  {
    forall q, v | 0 <= q < |role| && role[q].Root? && IsVp(v)
      ensures Leaf(SetPte(pages, t, vp.i0, NO_PTE), q, v) == if q == root
              && Num(v) == Num(vp) then NO_PTE else Leaf(pages, q, v)
    {
      SetLeaf(pages, role, t, vp.i0, NO_PTE, q, v);
      if Num(v) == Num(vp) {
        NumInjective(v, vp);
      }
    }
  }

  /** Taking back the user page at vp: its page is then free, or the caller's. */
  lemma UnmapUser(pages: seq<Page>, role: seq<Role>, root: nat, vp: Vp, t: nat, page: Page, free: bool)
    requires Inv(pages, role) && IsRoot(role, root) && IsUser(vp) && t < |role| && role[t] == TableAt(0, root, vp)
    requires PteAt(pages, t, vp.i0) != NO_PTE
    ensures var f := PteAt(pages, t, vp.i0).frame;
            && f < |role| && f != t && role[f] == User(root, vp)
            && (free || page == pages[f] ==>
                  var pages', role' := SetPte(pages[f := page], t, vp.i0,
                                              NO_PTE), role[f := if free then FreePage else Held];
                  && Inv(pages', role') && Unmaps(pages, pages', role, root, Num(vp), 1)
                  && UnmapRoles(pages, role, pages', role', root, Num(vp), 1, free))
  {
    var f := PteAt(pages, t, vp.i0).frame;
    var pages1 := SetPte(pages, t, vp.i0, NO_PTE);
    DetachUser(pages, role, t, vp.i0);
    UnmapsOne(pages, role, root, vp, t);
    LooseChange(pages1, role[f := Held], f, page, if free then FreePage else Held);
    assert pages1[f := page] == SetPte(pages[f := page], t, vp.i0, NO_PTE);
    assert role[f := Held][f := if free then FreePage else Held] == role[f := if free then FreePage else Held];
    forall g | 0 <= g < |role| && role[g].User? && role[g].r == root && Num(role[g].vp) == Num(vp)
      ensures g == f
    {
      assert Earned(pages, role, g);
      NumInjective(role[g].vp, vp);
      SameRole(pages, role, g, f);
    }
  }

  lemma UnmapForeign(pages: seq<Page>, role: seq<Role>, root: nat, vp: Vp, t: nat)
    requires Inv(pages, role) && IsRoot(role, root) && IsVp(vp) && !IsUser(vp) && t < |role|
             && role[t] == TableAt(0, root, vp)
    ensures var pages' := SetPte(pages, t, vp.i0, NO_PTE);
            && Inv(pages', role) && Unmaps(pages, pages', role, root, Num(vp), 1)
            && UnmapRoles(pages, role, pages', role, root, Num(vp), 1, false)
  {
    SetForeign(pages, role, t, vp.i0, NO_PTE);
    UnmapsOne(pages, role, root, vp, t);
    forall g | 0 <= g < |role| && role[g].User? && role[g].r == root
      ensures Num(role[g].vp) != Num(vp)
    {
      assert Earned(pages, role, g);
    }
  }

  lemma UnmapMore(p0: seq<Page>, r0: seq<Role>, p1: seq<Page>, r1: seq<Role>, p2: seq<Page>, r2: seq<Role>,
                  root: nat, a: nat, k: nat, free: bool)
    requires Unmaps(p0, p1, r0, root, a, k) && UnmapRoles(p0, r0, p1, r1, root, a, k, free)
    requires Unmaps(p1, p2, r1, root, a + k, 1) && UnmapRoles(p1, r1, p2, r2, root, a + k, 1, free)
    ensures Unmaps(p0, p2, r0, root, a, k + 1) && UnmapRoles(p0, r0, p2, r2, root, a, k + 1, free)
  {
    forall q, vp | 0 <= q < |r0| && r0[q].Root? && IsVp(vp)
      ensures Leaf(p2, q, vp) == if q == root && a <= Num(vp) < a + (k + 1) then NO_PTE else Leaf(p0, q, vp)
    {
      assert r1[q].Root?;
    }
  }

  function PagesUp(sz: nat): nat {
    (sz + PGSIZE - 1) / PGSIZE
  }

  function PgRoundUp(sz: nat): nat {
    PagesUp(sz) * PGSIZE
  }

  // A new page of a page table, made from a free page.

  /** A leaf entry with these flags whose page holds these bytes. */
  predicate Holding(pages: seq<Page>, pte: Pte, flags: Flags, bytes: PageBytes) {
    V(pte) && pte.flags == flags && pte.frame < |pages| && pages[pte.frame] == Data(bytes)
  }

  /** Pages a .. a + n of root become new pages made from free ones; nothing else of any
      mapping and no other user page changes. */
  ghost predicate NewRoles(pages: seq<Page>, role: seq<Role>, pages': seq<Page>, role': seq<Role>, root: nat, a: nat,
                           n: nat) {
    && |pages| == |role| == |pages'| == |role'|
    && (forall f :: 0 <= f < |role| && Holds(role[f]) ==> pages'[f] == pages[f])
    && forall f :: 0 <= f < |role| ==>
         role'[f] == role[f] || NewTableRole(role[f], role'[f], root)
         || (role[f].FreePage? && role'[f].User? && role'[f].r == root && InRange(role'[f].vp, a, n))
  }

  ghost predicate Adds(pages: seq<Page>, role: seq<Role>, pages': seq<Page>, role': seq<Role>, root: nat, a: nat,
                       flags: Flags, bytes: PageBytes)
  {
    && NewRoles(pages, role, pages', role', root, a, 1)
    && forall q, vp :: 0 <= q < |role| && role[q].Root? && IsVp(vp) ==>
         if q == root && Num(vp) == a then Holding(pages', Leaf(pages', q, vp), flags, bytes)
         else Leaf(pages', q, vp) == Leaf(pages, q, vp)
  }

  lemma AddsRoles(p0: seq<Page>, r0: seq<Role>, f: nat, page: Page, p2: seq<Page>, r2: seq<Role>, root: nat, a: nat)
    requires |p0| == |r0| && f < |r0| && r0[f].FreePage? && a < USER_PAGES
    requires MapRoles(p0[f := page], r0[f := Held], p2, r2, root, a, 1, f)
    ensures NewRoles(p0, r0, p2, r2, root, a, 1) && p2[f] == page
  {
    var p1, r1 := p0[f := page], r0[f := Held];
    assert r1[f].Held?;
  }

  /** kalloc, fill, mappages: the three steps put together. */
  lemma AddsPage(p0: seq<Page>, r0: seq<Role>, f: nat, bytes: PageBytes, p2: seq<Page>, r2: seq<Role>, root: nat,
                 a: nat, perm: Flags)
    requires Inv(p0, r0) && f < |r0| && r0[f].FreePage? && a < USER_PAGES
    requires MapsTo(p0[f := Data(bytes)], p2, r0[f := Held], root, a, 1, f, perm)
    requires MapRoles(p0[f := Data(bytes)], r0[f := Held], p2, r2, root, a, 1, f)
    ensures Adds(p0, r0, p2, r2, root, a, WithV(perm), bytes)
  {
    var p1, r1 := p0[f := Data(bytes)], r0[f := Held];
    AddsRoles(p0, r0, f, Data(bytes), p2, r2, root, a);
    assert Holding(p2, MakePte(f, perm), WithV(perm), bytes);
    AddsLeaf(p0, r0, f, Data(bytes), p2, root, a, perm);
  }

  lemma AddsLeaf(p0: seq<Page>, r0: seq<Role>, f: nat, page: Page, p2: seq<Page>, root: nat, a: nat, perm: Flags)
    requires Inv(p0, r0) && f < |r0| && r0[f].FreePage?
    requires MapsTo(p0[f := page], p2, r0[f := Held], root, a, 1, f, perm)
    ensures forall q, vp :: 0 <= q < |r0| && r0[q].Root? && IsVp(vp) ==>
              Leaf(p2, q, vp) == if q == root && Num(vp) == a then MakePte(f, perm) else Leaf(p0, q, vp)
  {
    LooseChange(p0, r0, f, page, Held);
    forall q, vp | 0 <= q < |r0| && r0[q].Root? && IsVp(vp)
      ensures Leaf(p2, q, vp) == if q == root && Num(vp) == a then MakePte(f, perm) else Leaf(p0, q, vp)
    {
      assert SameMap(p0, p0[f := page], q) && r0[f := Held][q].Root?;
    }
  }

  /** kalloc, a failed mappages, kfree. */
  lemma AddsNothing(p0: seq<Page>, r0: seq<Role>, f: nat, page: Page, p2: seq<Page>, r2: seq<Role>, root: nat, a: nat,
                    perm: Flags, page': Page)
    requires Inv(p0, r0) && f < |r0| && r0[f].FreePage?
    requires MapsTo(p0[f := page], p2, r0[f := Held], root, a, 0, f, perm) && Inv(p2, r2)
    requires MapRoles(p0[f := page], r0[f := Held], p2, r2, root, a, 0, f)
    ensures Quiet(p0, r0, p2[f := page'], r2[f := FreePage], root) && Inv(p2[f := page'], r2[f := FreePage])
  {
    var p1, r1 := p0[f := page], r0[f := Held];
    LooseChange(p0, r0, f, page, Held);
    LooseChange(p2, r2, f, page', FreePage);
    forall q, vp | 0 <= q < |r0| && r0[q].Root? && IsVp(vp)
      ensures Leaf(p2[f := page'], q, vp) == Leaf(p0, q, vp)
    {
      assert SameMap(p0, p1, q) && r1[q].Root? && r2[q].Root?;
      assert SameMap(p2, p2[f := page'], q);
    }
  }
}
