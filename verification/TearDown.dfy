/** freewalk: the subtree under a table, and what freeing it does to the roles. */
module TearDown {
  import opened PageTable
  import opened VmSpec
  import opened UserMem

  /** Role x belongs below a table of role `top`, at the given level, of root r. */
  predicate In(level: nat, top: Role, r: nat, x: Role) {
    if level == 2 then (x.Mid? || x.Low?) && x.r == r
    else level == 1 && top.Mid? && x.Low? && x.r == r && x.i2 == top.i2
  }

  /** The index, in that table, of the entry that leads to x. */
  function Idx(level: nat, x: Role): nat
    requires x.Mid? || x.Low?
  {
    if level == 1 && x.Low? then x.i1 else x.i2
  }

  function Child(level: nat, top: Role, r: nat, i: nat): Role {
    if level == 2 || !top.Mid? then Mid(r, i) else Low(r, top.i2, i)
  }

  predicate AtLevel(level: nat, x: Role, f: nat, r: nat) {
    if level == 2 then f == r && x.Dying? else if level == 1 then x.Mid? && x.r == r else x.Low? && x.r == r
  }

  /** A leaf entry that freewalk can tell from a link. */
  predicate Permits(pte: Pte) {
    V(pte) && (pte.flags.r || pte.flags.w || pte.flags.x)
  }

  /** The tables under f form a tree, and hold every page with a role below f. */
  ghost predicate TreeOk(pages: seq<Page>, role: seq<Role>, f: nat, level: nat, r: nat)
    decreases level
  {
    && f < |role| == |pages| && pages[f].Table? && AtLevel(level, role[f], f, r) && level <= 2
    && (forall i :: 0 <= i < PTES ==> EntryOk(pages, role, f, level, r, i))
    && forall g :: 0 <= g < |role| && In(level, role[f], r, role[g]) ==>
         && Idx(level, role[g]) < PTES && pages[f].ptes[Idx(level, role[g])] != NO_PTE
         && (role[g] == Child(level, role[f], r, Idx(level, role[g])) ==> pages[f].ptes[Idx(level, role[g])].frame == g)
  }

  ghost predicate EntryOk(pages: seq<Page>, role: seq<Role>, f: nat, level: nat, r: nat, i: nat)
    requires f < |role| == |pages| && pages[f].Table? && i < PTES
    decreases level, 0
  {
    var pte := pages[f].ptes[i];
    pte == NO_PTE || (level == 0 && Permits(pte))
    || (&& level > 0 && pte == Link(pte.frame) && pte.frame < |role|
        && role[pte.frame] == Child(level, role[f], r, i) && TreeOk(pages, role, pte.frame, level - 1, r))
  }

  /** Some entry of the tables from f down is a leaf. */
  ghost predicate HasLeaf(pages: seq<Page>, f: nat, level: nat)
    decreases level, 1
  {
    exists i :: LeafUnder(pages, f, level, i)
  }

  ghost predicate LeafUnder(pages: seq<Page>, f: nat, level: nat, i: nat)
    decreases level, 0
  {
    i < PTES && V(PteAt(pages, f, i)) && (level == 0 || HasLeaf(pages, PteAt(pages, f, i).frame, level - 1))
  }

  lemma LeafFound(pages: seq<Page>, root: nat) returns (vp: Vp)
    requires HasLeaf(pages, root, 2)
    ensures IsVp(vp) && V(Leaf(pages, root, vp))
  {
    var i2 :| LeafUnder(pages, root, 2, i2);
    var mid := PteAt(pages, root, i2).frame;
    var i1 :| LeafUnder(pages, mid, 1, i1);
    var low := PteAt(pages, mid, i1).frame;
    var i0 :| LeafUnder(pages, low, 0, i0);
    vp := Vp(i2, i1, i0);
  }

  lemma LeafReached(pages: seq<Page>, root: nat, vp: Vp)
    requires IsVp(vp) && V(Leaf(pages, root, vp))
    ensures HasLeaf(pages, root, 2)
  {
    var mid := PteAt(pages, root, vp.i2).frame;
    var low := PteAt(pages, mid, vp.i1).frame;
    assert LeafUnder(pages, low, 0, vp.i0) && HasLeaf(pages, low, 0);
    assert LeafUnder(pages, mid, 1, vp.i1) && HasLeaf(pages, mid, 1);
    assert LeafUnder(pages, root, 2, vp.i2);
  }

  lemma LeafIsReached(pages: seq<Page>, root: nat)
    ensures HasLeaf(pages, root, 2) <==> exists vp :: IsVp(vp) && V(Leaf(pages, root, vp))
  {
    if HasLeaf(pages, root, 2) {
      var vp := LeafFound(pages, root);
    }
    forall vp | IsVp(vp) && V(Leaf(pages, root, vp))
      ensures HasLeaf(pages, root, 2)
    {
      LeafReached(pages, root, vp);
    }
  }

  /** A subtree does not depend on pages outside it. */
  lemma {:induction false} TreeStays(pages: seq<Page>, role: seq<Role>, pages': seq<Page>, role': seq<Role>, f: nat,
                                     level: nat, r: nat)
    requires TreeOk(pages, role, f, level, r) && |pages'| == |pages| == |role'|
    requires forall g :: 0 <= g < |role| && (g == f || In(level, role[f], r, role[g])) ==>
               role'[g] == role[g] && pages'[g] == pages[g]
    requires forall g :: 0 <= g < |role| && In(level, role[f], r, role'[g]) ==> role[g] == role'[g]
    ensures TreeOk(pages', role', f, level, r) && (HasLeaf(pages', f, level) <==> HasLeaf(pages, f, level))
    decreases level
  {
    forall i: nat | i < PTES
      ensures EntryOk(pages', role', f, level, r, i)
      ensures LeafUnder(pages', f, level, i) <==> LeafUnder(pages, f, level, i)
    {
      assert EntryOk(pages, role, f, level, r, i);
      var pte := pages[f].ptes[i];
      if pte != NO_PTE && level > 0 {
        assert In(level, role[f], r, role[pte.frame]);
        TreeStays(pages, role, pages', role', pte.frame, level - 1, r);
      }
    }
  }

  /** Freed while the entries below i are done: what hangs from them. */
  predicate Done(level: nat, top: Role, r: nat, x: Role, i: nat) {
    In(level, top, r, x) && Idx(level, x) < i
  }

  ghost predicate Freed(level: nat, top: Role, r: nat, i: nat, pages: seq<Page>, role: seq<Role>, pages': seq<Page>,
                        role': seq<Role>, f: nat) {
    && |pages| == |role| == |pages'| == |role'| && f < |role|
    && forall g :: 0 <= g < |role| ==>
         && role'[g] == (if Done(level, top, r, role[g], i) then FreePage else role[g])
         && (g != f && !Done(level, top, r, role[g], i) && !role[g].FreePage? ==> pages'[g] == pages[g])
  }

  /** The whole subtree of f, f included, is free; nothing else has changed. */
  ghost predicate AllFreed(level: nat, top: Role, r: nat, pages: seq<Page>, role: seq<Role>, pages': seq<Page>,
                           role': seq<Role>, f: nat) {
    && |pages| == |role| == |pages'| == |role'| && f < |role|
    && forall g :: 0 <= g < |role| ==>
         && role'[g] == (if g == f || In(level, top, r, role[g]) then FreePage else role[g])
         && (g != f && !In(level, top, r, role[g]) && !role[g].FreePage? ==> pages'[g] == pages[g])
  }

  lemma NextChild(p0: seq<Page>, r0: seq<Role>, p1: seq<Page>, r1: seq<Role>, f: nat, level: nat, r: nat, i: nat)
    requires TreeOk(p0, r0, f, level, r) && Freed(level, r0[f], r, i, p0, r0, p1, r1, f) && i < PTES
    requires p0[f].ptes[i] != NO_PTE && level > 0
    ensures var c := p0[f].ptes[i].frame;
            c < |r1| && c != f && r1[c] == r0[c] == Child(level, r0[f], r, i)
                && TreeOk(p1, r1, c, level - 1, r) && (HasLeaf(p1, c, level - 1) <==> HasLeaf(p0, c, level - 1))
  {
    assert EntryOk(p0, r0, f, level, r, i);
    var c := p0[f].ptes[i].frame;
    TreeStays(p0, r0, p1, r1, c, level - 1, r);
  }

  /** What hangs from entry i of f is the child and what is below it. */
  lemma DoneNext(p0: seq<Page>, r0: seq<Role>, f: nat, level: nat, r: nat, i: nat, g: nat)
    requires TreeOk(p0, r0, f, level, r) && i < PTES && g < |r0|
    ensures var pte := p0[f].ptes[i];
            Done(level, r0[f], r, r0[g], i + 1) <==>
              Done(level, r0[f], r, r0[g], i)
                  || (pte != NO_PTE && level > 0
                      && (g == pte.frame || In(level - 1, Child(level, r0[f], r, i), r, r0[g])))
  {
    assert EntryOk(p0, r0, f, level, r, i);
  }

  lemma FreedChild(p0: seq<Page>, r0: seq<Role>, p1: seq<Page>, r1: seq<Role>, p2: seq<Page>, r2: seq<Role>, f: nat,
                   level: nat, r: nat,
                   i: nat, page: Page)
    requires TreeOk(p0, r0, f, level, r) && Freed(level, r0[f], r, i, p0, r0, p1, r1, f) && i < PTES
    requires p0[f].ptes[i] != NO_PTE && level > 0
    requires AllFreed(level - 1, Child(level, r0[f], r, i), r, p1, r1, p2, r2, p0[f].ptes[i].frame)
    ensures Freed(level, r0[f], r, i + 1, p0, r0, p2[f := page], r2, f)
  {
    forall g | 0 <= g < |r0|
      ensures r2[g] == (if Done(level, r0[f], r, r0[g], i + 1) then FreePage else r0[g])
      ensures g != f && !Done(level, r0[f], r, r0[g], i + 1) && !r0[g].FreePage? ==> p2[g] == p0[g]
    {
      DoneNext(p0, r0, f, level, r, i, g);
    }
  }

  lemma FreedNone(p0: seq<Page>, r0: seq<Role>, p1: seq<Page>, r1: seq<Role>, f: nat, level: nat, r: nat, i: nat)
    requires TreeOk(p0, r0, f, level, r) && Freed(level, r0[f], r, i, p0, r0, p1, r1, f) && i < PTES
    requires p0[f].ptes[i] == NO_PTE
    ensures Freed(level, r0[f], r, i + 1, p0, r0, p1, r1, f)
  {
    forall g | 0 <= g < |r0|
      ensures Done(level, r0[f], r, r0[g], i + 1) <==> Done(level, r0[f], r, r0[g], i)
    {
      DoneNext(p0, r0, f, level, r, i, g);
    }
  }

  lemma FreedAll(p0: seq<Page>, r0: seq<Role>, p1: seq<Page>, r1: seq<Role>, f: nat, level: nat, r: nat, page: Page)
    requires TreeOk(p0, r0, f, level, r) && Freed(level, r0[f], r, PTES, p0, r0, p1, r1, f)
    ensures AllFreed(level, r0[f], r, p0, r0, p1[f := page], r1[f := FreePage], f)
  {
  }

  ghost predicate NoUserPages(role: seq<Role>, r: nat) {
    forall g :: 0 <= g < |role| && role[g].User? ==> role[g].r != r
  }

  /** When all that hangs from a page table is free, no role names it. */
  lemma NoneLeft(p0: seq<Page>, r0: seq<Role>, p1: seq<Page>, r1: seq<Role>, f: nat, r: nat)
    requires TreeOk(p0, r0, f, 2, r) && Freed(2, r0[f], r, PTES, p0, r0, p1, r1, f) && NoUserPages(r0, r)
    ensures NoRefs(r1, r)
  {
    forall g | 0 <= g < |r1| && Refers(r1[g])
      ensures r1[g].r != r
    {
      assert r1[g] == if Done(2, r0[f], r, r0[g], PTES) then FreePage else r0[g];
    }
  }

  // A page table is such a tree.

  ghost predicate NoLeaves(pages: seq<Page>, root: nat) {
    forall vp :: IsVp(vp) ==> Leaf(pages, root, vp) == NO_PTE
  }

  ghost predicate AllPermit(pages: seq<Page>, root: nat) {
    forall vp :: IsVp(vp) && Leaf(pages, root, vp) != NO_PTE ==> Permits(Leaf(pages, root, vp))
  }

  lemma LowTree(pages: seq<Page>, role: seq<Role>, root: nat, f: nat)
    requires Inv(pages, role) && IsRoot(role, root) && AllPermit(pages, root) && f < |role| && role[f].Low?
             && role[f].r == root
    ensures TreeOk(pages, role[root := Dying], f, 0, root)
  {
    assert Earned(pages, role, f);
    var role' := role[root := Dying];
    forall i | 0 <= i < PTES
      ensures EntryOk(pages, role', f, 0, root, i)
    {
      Reached(pages, role, root, Vp(role[f].i2, role[f].i1, i), 0, f);
      assert Leaf(pages, root, Vp(role[f].i2, role[f].i1, i)) == pages[f].ptes[i];
    }
  }

  lemma MidTree(pages: seq<Page>, role: seq<Role>, root: nat, f: nat)
    requires Inv(pages, role) && IsRoot(role, root) && AllPermit(pages, root) && f < |role| && role[f].Mid?
             && role[f].r == root
    ensures TreeOk(pages, role[root := Dying], f, 1, root)
  {
    var role' := role[root := Dying];
    assert Earned(pages, role, f);
    forall i | 0 <= i < PTES
      ensures EntryOk(pages, role', f, 1, root, i)
    {
      var pte := pages[f].ptes[i];
      assert DownAt(pages, role, f, i);
      if pte != NO_PTE {
        LowTree(pages, role, root, pte.frame);
      }
    }
    forall g | 0 <= g < |role| && In(1, role[f], root, role'[g])
      ensures role[g].i1 < PTES && pages[f].ptes[role[g].i1] == Link(g)
    {
      assert Earned(pages, role, g);
    }
  }

  /** Without a leaf there is no user page. */
  lemma NoUserLeft(pages: seq<Page>, role: seq<Role>, root: nat)
    requires Inv(pages, role) && IsRoot(role, root)
    ensures NoUserPages(role, root) || HasLeaf(pages, root, 2)
  {
    LeafIsReached(pages, root);
    forall g | 0 <= g < |role| && role[g].User? && !HasLeaf(pages, root, 2)
      ensures role[g].r != root
    {
      assert Earned(pages, role, g);
    }
  }

  /** Something is mapped that uvmfree, told the size sz, does not unmap. */
  ghost predicate LeftOver(pages: seq<Page>, root: nat, sz: nat) {
    exists vp :: IsVp(vp) && Leaf(pages, root, vp) != NO_PTE && Num(vp) >= PagesUp(sz)
  }

  /** uvmfree after its uvmunmap: a leaf is found exactly when something was left over. */
  lemma LeftToFind(p0: seq<Page>, p1: seq<Page>, role: seq<Role>, root: nat, sz: nat)
    requires IsRoot(role, root) && Unmaps(p0, p1, role, root, 0, PagesUp(sz))
    requires forall vp :: IsVp(vp) && Leaf(p0, root, vp) != NO_PTE && Num(vp) >= PagesUp(sz) ==>
               Permits(Leaf(p0, root, vp))
    ensures AllPermit(p1, root) && (HasLeaf(p1, root, 2) <==> LeftOver(p0, root, sz))
  {
    LeafIsReached(p1, root);
    forall vp | IsVp(vp)
      ensures Leaf(p1, root, vp) == if Num(vp) < PagesUp(sz) then NO_PTE else Leaf(p0, root, vp)
    {
    }
  }

  lemma RootTree(pages: seq<Page>, role: seq<Role>, root: nat)
    requires Inv(pages, role) && IsRoot(role, root) && AllPermit(pages, root)
    ensures TreeOk(pages, role[root := Dying], root, 2, root)
  {
    var role' := role[root := Dying];
    forall i | 0 <= i < PTES
      ensures EntryOk(pages, role', root, 2, root, i)
    {
      var pte := pages[root].ptes[i];
      assert DownAt(pages, role, root, i);
      if pte != NO_PTE {
        MidTree(pages, role, root, pte.frame);
      }
    }
    forall g | 0 <= g < |role| && In(2, role'[root], root, role'[g])
      ensures role[g].i2 < PTES && V(pages[root].ptes[role[g].i2])
              && (role[g].Mid? ==> pages[root].ptes[role[g].i2] == Link(g))
    {
      assert Earned(pages, role, g);
    }
  }

  predicate Owned(x: Role, root: nat) {
    (x.Mid? || x.Low? || x.User?) && x.r == root
  }

  /** Every page of the page table is free again; nothing else has changed. */
  ghost predicate Returned(p0: seq<Page>, r0: seq<Role>, p: seq<Page>, r: seq<Role>, root: nat) {
    && |p0| == |r0| == |p| == |r|
    && (forall f :: 0 <= f < |r0| ==>
          && r[f] == (if f == root || Owned(r0[f], root) then FreePage else r0[f])
          && (Holds(r[f]) ==> p[f] == p0[f]))
    && forall q :: 0 <= q < |r0| && r0[q].Root? && q != root ==> SameMap(p0, p, q)
  }

  lemma ReturnedAll(p0: seq<Page>, r0: seq<Role>, p1: seq<Page>, r1: seq<Role>, p2: seq<Page>, r2: seq<Role>, root: nat,
                    sz: nat)
    requires Inv(p0, r0) && IsRoot(r0, root) && !LeftOver(p0, root, sz)
    requires Unmaps(p0, p1, r0, root, 0, PagesUp(sz)) && UnmapRoles(p0, r0, p1, r1, root, 0, PagesUp(sz), true)
    requires AllFreed(2, Dying, root, p1, r1[root := Dying], p2, r2, root) && SameMaps(p1, p2, r1[root := Dying])
    ensures Returned(p0, r0, p2, r2, root)
  {
    forall f | 0 <= f < |r0|
      ensures r2[f] == (if f == root || Owned(r0[f], root) then FreePage else r0[f])
      ensures Holds(r2[f]) ==> p2[f] == p0[f]
    {
      assert Earned(p0, r0, f);
    }
    forall q, vp | 0 <= q < |r0| && r0[q].Root? && q != root && IsVp(vp)
      ensures Leaf(p2, q, vp) == Leaf(p0, q, vp)
    {
      assert SameMap(p1, p2, q);
    }
  }

  /** Unmapping pages that the process does not own touches no page. */
  lemma ForeignOnly(p0: seq<Page>, r0: seq<Role>, p1: seq<Page>, r1: seq<Role>, root: nat, a: nat, n: nat)
    requires Inv(p0, r0) && IsRoot(r0, root) && a >= USER_PAGES
    requires Unmaps(p0, p1, r0, root, a, n) && UnmapRoles(p0, r0, p1, r1, root, a, n, false)
    ensures r1 == r0 && forall f :: 0 <= f < |r0| && Holds(r0[f]) ==> p1[f] == p0[f]
  {
    forall f | 0 <= f < |r0|
      ensures r1[f] == r0[f]
    {
      assert Earned(p0, r0, f);
    }
  }

  lemma AlreadyEmpty(pages: seq<Page>, role: seq<Role>, root: nat)
    requires Inv(pages, role) && IsRoot(role, root)
    ensures Unmaps(pages, pages, role, root, 0, PagesUp(0))
            && UnmapRoles(pages, role, pages, role, root, 0, PagesUp(0), true)
  {
  }

  lemma TopPages()
    ensures TRAPFRAME / PGSIZE == USER_PAGES && TRAMPOLINE / PGSIZE == USER_PAGES + 1
    ensures TRAPFRAME % PGSIZE == 0 && TRAMPOLINE % PGSIZE == 0 && TRAPFRAME + PGSIZE == TRAMPOLINE
            && TRAMPOLINE + PGSIZE == MAXVA
  {
  }

  // Making a page table.

  const TRAMPOLINE_PERM := NO_FLAGS.(r := true, x := true)
  const TRAPFRAME_PERM := NO_FLAGS.(r := true, w := true)

  /** The leaves of a new page table: nothing, then the trampoline, then the trapframe too. */
  function TopLeaf(vp: Vp, n: nat, trampoline: nat, trapframe: nat): Pte {
    if n >= 1 && Num(vp) == USER_PAGES + 1 then MakePte(trampoline, TRAMPOLINE_PERM)
    else if n >= 2 && Num(vp) == USER_PAGES then MakePte(trapframe, TRAPFRAME_PERM)
    else NO_PTE
  }

  predicate SameOrTable(r0: seq<Role>, r: seq<Role>, root: nat, f: nat) {
    f < |r0| == |r| ==> r[f] == r0[f] || NewTableRole(r0[f], r[f], root)
  }

  /** Since (p0, r0) a page table `root` with n leaves was made of free pages, and nothing
      else has changed. */
  ghost predicate Built(p0: seq<Page>, r0: seq<Role>, p: seq<Page>, r: seq<Role>, root: nat, n: nat, trampoline: nat,
                        trapframe: nat) {
    && |p0| == |r0| == |p| == |r| && root < |r0| && r0[root].FreePage? && r[root].Root?
    && (forall f :: f == root || SameOrTable(r0, r, root, f))
    && SameMaps(p0, p, r0)
    && forall vp :: IsVp(vp) ==> Leaf(p, root, vp) == TopLeaf(vp, n, trampoline, trapframe)
  }

  lemma BuiltMap(p0: seq<Page>, r0: seq<Role>, p1: seq<Page>, r1: seq<Role>, p2: seq<Page>, r2: seq<Role>, root: nat,
                 n: nat,
                 trampoline: nat, trapframe: nat, ok: bool)
    requires Built(p0, r0, p1, r1, root, n, trampoline, trapframe) && n < 2 && |p2| == |r2| == |r1| && r2[root].Root?
    requires var frame := if n == 0 then trampoline else trapframe;
             var perm := if n == 0 then TRAMPOLINE_PERM else TRAPFRAME_PERM;
             MapsTo(p1, p2, r1, root, USER_PAGES + 1 - n, if ok then 1 else 0, frame, perm)
    requires forall f :: SameOrTable(r1, r2, root, f)
    ensures Built(p0, r0, p2, r2, root, if ok then n + 1 else n, trampoline, trapframe)
  {
    forall f: nat
      ensures f == root || SameOrTable(r0, r2, root, f)
    {
      assert f == root || SameOrTable(r0, r1, root, f);
      assert SameOrTable(r1, r2, root, f);
    }
    forall q, vp | 0 <= q < |r0| && r0[q].Root? && IsVp(vp)
      ensures Leaf(p2, q, vp) == Leaf(p0, q, vp)
    {
      assert SameMap(p0, p1, q) && (q == root || SameOrTable(r0, r1, root, q));
    }
  }

  lemma BuiltUnmap(p0: seq<Page>, r0: seq<Role>, p1: seq<Page>, r1: seq<Role>, p2: seq<Page>, root: nat,
                   trampoline: nat, trapframe: nat)
    requires Built(p0, r0, p1, r1, root, 1, trampoline, trapframe) && |p2| == |p1|
             && Unmaps(p1, p2, r1, root, USER_PAGES + 1, 1)
    ensures Built(p0, r0, p2, r1, root, 0, trampoline, trapframe)
  {
    forall q, vp | 0 <= q < |r0| && r0[q].Root? && IsVp(vp)
      ensures Leaf(p2, q, vp) == Leaf(p0, q, vp)
    {
      assert SameMap(p0, p1, q) && (q == root || SameOrTable(r0, r1, root, q));
    }
  }

  /** Taking it down again gives every page back. */
  lemma BuiltFreed(p0: seq<Page>, r0: seq<Role>, p1: seq<Page>, r1: seq<Role>, p2: seq<Page>, r2: seq<Role>, root: nat,
                   n: nat,
                   trampoline: nat, trapframe: nat)
    requires Rooted(r0) && Built(p0, r0, p1, r1, root, n, trampoline, trapframe) && Returned(p1, r1, p2, r2, root)
    ensures r2 == r0 && SameMaps(p0, p2, r0)
  {
    forall f | 0 <= f < |r0|
      ensures r2[f] == r0[f]
    {
      assert Anchored(r0, f) && (f == root || SameOrTable(r0, r1, root, f));
    }
    forall q | 0 <= q < |r0| && r0[q].Root?
      ensures SameMap(p0, p2, q)
    {
      assert SameMap(p0, p1, q) && (q == root || SameOrTable(r0, r1, root, q)) && SameMap(p1, p2, q);
    }
  }

  lemma TablesAdded(p0: seq<Page>, r0: seq<Role>, p: seq<Page>, r: seq<Role>, root: nat, a: nat, n: nat, frame: nat)
    requires MapRoles(p0, r0, p, r, root, a, n, frame) && a >= USER_PAGES
    ensures forall f :: SameOrTable(r0, r, root, f)
  {
    forall f: nat
      ensures SameOrTable(r0, r, root, f)
    {
    }
  }

  lemma UnmapBoth(p0: seq<Page>, p1: seq<Page>, p2: seq<Page>, role: seq<Role>, root: nat)
    requires Unmaps(p0, p1, role, root, USER_PAGES + 1, 1) && Unmaps(p1, p2, role, root, USER_PAGES, 1)
    ensures Unmaps(p0, p2, role, root, USER_PAGES, 2)
  {
  }

  lemma OnlyUserLeft(p0: seq<Page>, p: seq<Page>, role: seq<Role>, root: nat, sz: nat)
    requires ProcOk(p0, role, root, sz) && Unmaps(p0, p, role, root, USER_PAGES, 2)
    ensures forall vp :: IsVp(vp) && Leaf(p, root, vp) != NO_PTE ==> Num(vp) < PagesUp(sz)
  {
  }

  lemma ReturnedAfter(p0: seq<Page>, p1: seq<Page>, r0: seq<Role>, p: seq<Page>, r: seq<Role>, root: nat)
    requires |p0| == |r0| && Unmaps(p0, p1, r0, root, USER_PAGES, 2) && Returned(p1, r0, p, r, root)
    requires forall f :: 0 <= f < |r0| && Holds(r0[f]) ==> p1[f] == p0[f]
    ensures Returned(p0, r0, p, r, root)
  {
    forall q | 0 <= q < |r0| && r0[q].Root? && q != root
      ensures SameMap(p0, p, q)
    {
      assert SameMap(p1, p, q);
    }
  }

  /** The tables under the entries of f below i are free pages; the rest of f is as it was. */
  ghost predicate FreeingOk(p0: seq<Page>, r0: seq<Role>, p: seq<Page>, r1: seq<Role>, f: nat, level: nat, r: nat,
                            i: nat) {
    && !IsRoot(r1, r) && f < |r0| == |p0| && p0[f].Table? && Freed(level, r0[f], r, i, p0, r0, p, r1, f)
        && SameMaps(p0, p, r0)
    && f < |p| && p[f].Table? && forall j :: i <= j < PTES ==> p[f].ptes[j] == p0[f].ptes[j]
  }
}
