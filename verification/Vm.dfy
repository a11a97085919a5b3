/** kalloc.c and vm.c: the free list, walking and editing page tables. Pages are named
    by frame number; frame 0 is the null pointer. */
module Vm {
  import opened Blocks
  import opened PageTable
  import opened VmSpec
  import opened UserMem
  import opened TearDown

  // PTE_W|PTE_U|PTE_R
  const LAZY_PERM := Flags(false, true, true, false, true, 0)

  class Vm {
    // First page after the kernel image.
    const lo: nat
    var m: Mem
    ghost var role: seq<Role>
    ghost var chain: seq<nat>

    ghost predicate Valid()
      reads this
    {
      FreeOk(lo, m, role, chain) && Inv(m.pages, role) && Rooted(role)
    }

    /** kinit: hand every page from lo to n to the allocator. */
    constructor (lo: nat, n: nat)
      requires 0 < lo <= n
      ensures Valid() && this.lo == lo && |m.pages| == |role| == n
      ensures forall f :: 0 <= f < n ==> role[f] == if f < lo then Kernel else FreePage
    {
      this.lo := lo;
      m := Mem(seq(n, _ => Data(Filled(0))), 0);
      role := seq(n, f => if f < lo then Kernel else Held);
      chain := [];
      new;
      var f := lo;
      while f < n
        invariant lo <= f <= n && |role| == n && FreeOk(lo, m, role, chain)
        invariant forall g :: 0 <= g < n ==> role[g] == if g < lo then Kernel else if g < f then FreePage else Held
      {
        var panic := Kfree(f);
        f := f + 1;
      }
    }

    method Kalloc() returns (f: nat)
      requires FreeOk(lo, m, role, chain)
      modifies this
      ensures FreeOk(lo, m, role, chain) && |role| == |old(role)|
      ensures f == 0 <==> old(chain) == []
      ensures f == 0 ==> m == old(m) && role == old(role) && chain == old(chain)
      ensures f != 0 ==> old(chain) == chain + [f] && f < |role| && old(role)[f].FreePage?
      ensures f != 0 ==> role == old(role)[f := Held] && m.pages == old(m).pages[f := Data(Filled(5))]
    {
      f := m.head;
      assert FreeAt(lo, role, chain, if chain == [] then 0 else |chain| - 1);
      if f != 0 {
        FreePop(lo, m, role, chain, Data(Filled(5)));
        m := Mem(m.pages[f := Data(Filled(5))], m.pages[f].next);
        role := role[f := Held];
        chain := chain[..|chain| - 1];
      }
    }

    /** Give a page back; a bad address is a panic. Giving it back twice is not noticed, and
        leaves links that never end. */
    method Kfree(f: nat) returns (panic: bool)
      requires FreeOk(lo, m, role, chain)
      modifies this
      ensures (panic <==> !(lo <= f < |old(m).pages|)) && |m.pages| == |old(m).pages| == |old(role)|
      ensures panic ==> m == old(m) && role == old(role) && chain == old(chain)
      ensures !panic ==> m == Mem(old(m).pages[f := Unused(old(m).head)], f) && role == old(role)[f := FreePage]
      ensures !panic && !old(role)[f].FreePage? ==> FreeOk(lo, m, role, chain) && chain == old(chain) + [f]
      ensures !panic && old(role)[f].FreePage? ==> forall c :: !Linked(m, c)
    {
      if !(lo <= f < |m.pages|) {
        return true;
      }
      if role[f].FreePage? {
        FreedTwice(lo, m, role, chain, f, Mem(m.pages[f := Unused(m.head)], f));
      } else {
        FreePush(lo, m, role, chain, f);
      }
      m := Mem(m.pages[f := Unused(m.head)], f);
      role, chain := role[f := FreePage], chain + [f];
      return false;
    }

    /** kalloc a zeroed table and link it from entry i of table t. */
    method NewTable(ghost root: nat, ghost vp: Vp, t: nat, i: nat, ghost level: nat) returns (f: nat)
      requires Valid() && IsRoot(role, root) && 1 <= level <= 2 && t < |role| && role[t] == TableAt(level, root, vp)
      requires (level == 2 ==> t == root) && IsVp(vp) && i == (if level == 2 then vp.i2 else vp.i1)
      requires PteAt(m.pages, t, i) == NO_PTE
      modifies this
      ensures Valid() && Quiet(old(m).pages, old(role), m.pages, role, root)
      ensures f == 0 ==> m == old(m) && role == old(role) && chain == old(chain) == []
      ensures f != 0 ==> f < |role| && role[f] == TableAt(level - 1, root, vp) && |chain| + 1 == |old(chain)|
    {
      ghost var p0, r0 := m.pages, role;
      f := Kalloc();
      if f == 0 {
        QuietSelf(p0, r0, root);
      } else {
        HangNew(p0, r0, root, vp, level, t, i, f, m.pages[f]);
        RootedSet(r0, f, TableAt(level - 1, root, vp));
        ghost var m1, r1 := m, role;
        m := m.(pages := m.pages[f := Table(NoPtes())]);
        m := m.(pages := SetPte(m.pages, t, i, Link(f)));
        role := role[f := TableAt(level - 1, root, vp)];
        assert role == r0[f := TableAt(level - 1, root, vp)];
        FreeElsewhere(lo, m1, r1, chain, m.pages, role);
      }
    }

    /** One level of the walk: the next table, or 0. */
    method WalkStep(ghost root: nat, va: nat, alloc: bool, tab: nat, level: nat) returns (next: nat)
      requires Valid() && IsRoot(role, root) && 1 <= level <= 2
      requires tab < |role| && role[tab] == TableAt(level, root, VpOf(va)) && (level == 2 ==> tab == root)
      modifies this
      ensures Valid() && Quiet(old(m).pages, old(role), m.pages, role, root)
      ensures !alloc ==> m == old(m) && role == old(role) && chain == old(chain)
      ensures if next == 0 then Leaf(m.pages, root, VpOf(va)) == NO_PTE && (alloc ==> chain == [])
              && chain == old(chain)
              else next < |role| && role[next] == TableAt(level - 1, root, VpOf(va)) && |chain| + 1 >= |old(chain)|
    {
      ghost var vp := VpOf(va);
      Reached(m.pages, role, root, vp, level, tab);
      var pte := m.pages[tab].ptes[Px(level, va)];
      if V(pte) {
        next := pte.frame;
      } else if !alloc {
        next := 0;
      } else {
        next := NewTable(root, vp, tab, Px(level, va), level);
      }
    }

    /** The address of the leaf entry for va: entry i of table t, or t == 0 for none.
        With `alloc` the missing tables are made; va >= MAXVA is a panic. */
    method Walk(root: nat, va: nat, alloc: bool) returns (panic: bool, t: nat, i: nat)
      requires Valid() && IsRoot(role, root)
      modifies this
      ensures panic <==> va >= MAXVA
      ensures Valid() && Quiet(old(m).pages, old(role), m.pages, role, root)
      ensures panic || !alloc ==> m == old(m) && role == old(role) && chain == old(chain)
      ensures !panic && t == 0 ==>
                Leaf(m.pages, root, VpOf(va)) == NO_PTE && (alloc ==> chain == [] && |old(chain)| <= 1)
      ensures !panic && t != 0 ==>
                t < |role| && role[t] == TableAt(0, root, VpOf(va)) && i == VpOf(va).i0 && |chain| + 2 >= |old(chain)|
      ensures !panic && t != 0 ==> PteAt(m.pages, t, i) == Leaf(m.pages, root, VpOf(va))
    {
      panic, t, i := false, 0, 0;
      if va >= MAXVA {
        return true, 0, 0;
      }
      var tab: nat := root;
      var level := 2;
      ghost var vp := VpOf(va);
      while level > 0
        invariant 0 <= level <= 2
        invariant Valid() && Quiet(old(m).pages, old(role), m.pages, role, root) && IsRoot(role, root)
        invariant !alloc ==> m == old(m) && role == old(role) && chain == old(chain)
        invariant tab < |role| && role[tab] == TableAt(level, root, vp) && (level == 2 ==> tab == root)
        invariant |chain| + (2 - level) >= |old(chain)|
      {
        ghost var p1, r1 := m.pages, role;
        tab := WalkStep(root, va, alloc, tab, level);
        QuietTwice(old(m).pages, old(role), p1, r1, m.pages, role, root);
        if tab == 0 {
          return;
        }
        level := level - 1;
      }
      Reached(m.pages, role, root, vp, 0, tab);
      return false, tab, Px(0, va);
    }

    /** The loop body of mappages: one page. */
    method MapPage(root: nat, va: nat, frame: nat, perm: Flags) returns (r: int, panic: bool)
      requires Valid() && IsRoot(role, root) && va % PGSIZE == 0
      requires va / PGSIZE < USER_PAGES ==> Handed(m.pages, role, frame)
      modifies this
      ensures panic <==> va >= MAXVA || Leaf(old(m).pages, root, VpOf(va)) != NO_PTE
      ensures !panic ==> Valid() && (r == 0 || (r == -1 && chain == []))
      ensures !panic ==> if r == 0 then |chain| + 2 >= |old(chain)| else |old(chain)| <= 1
      ensures !panic ==>
                MapsTo(old(m).pages, m.pages, old(role), root, va / PGSIZE, if r == 0 then 1 else 0, frame, perm)
      ensures !panic ==>
                MapRoles(old(m).pages, old(role), m.pages, role, root, va / PGSIZE, if r == 0 then 1 else 0, frame)
    {
      var t, i;
      panic, t, i := Walk(root, va, true);
      if panic {
        return -1, true;
      }
      VpIsPage(va);
      ghost var p1, r1 := m.pages, role;
      WalkMaps(old(m).pages, old(role), p1, r1, root, va / PGSIZE, frame, perm);
      assert SameMap(old(m).pages, p1, root);
      if t == 0 {
        return -1, false;
      }
      if V(m.pages[t].ptes[i]) {
        return -1, true;
      }
      Unmapped(m.pages, role, root, VpOf(va), t);
      SetEntry(root, VpOf(va), t, i, frame, perm);
      MapMore(old(m).pages, old(role), p1, r1, m.pages, role, root, va / PGSIZE, 0, frame, perm, 1);
      return 0, false;
    }

    /** Fill an empty leaf entry. */
    method SetEntry(ghost root: nat, ghost vp: Vp, t: nat, i: nat, frame: nat, perm: Flags)
      requires Valid() && IsRoot(role, root) && IsVp(vp) && t < |role| && role[t] == TableAt(0, root, vp) && i == vp.i0
      requires PteAt(m.pages, t, i) == NO_PTE
      requires IsUser(vp) ==> frame < |role| && role[frame].Held? && m.pages[frame].Data?
      modifies this
      ensures Valid() && chain == old(chain) && MapsTo(old(m).pages, m.pages, old(role), root, Num(vp), 1, frame, perm)
      ensures MapRoles(old(m).pages, old(role), m.pages, role, root, Num(vp), 1, frame)
    {
      MapLeaf(m.pages, role, root, vp, t, frame, perm);
      m := m.(pages := SetPte(m.pages, t, i, MakePte(frame, perm)));
      if IsUser(vp) {
        RootedSet(role, frame, User(root, vp));
        role := role[frame := User(root, vp)];
      }
      FreeElsewhere(lo, old(m), old(role), chain, m.pages, role);
    }

    /** Map size bytes at va to the pages from `frame` on. -1: no memory for a table; the
        first `done` pages are mapped then. Misuse and remapping are panics. */
    method Mappages(root: nat, va: nat, size: nat, frame: nat, perm: Flags)
      returns (r: int, panic: bool, ghost done: nat)
      requires Valid() && IsRoot(role, root)
      requires HandedRange(m.pages, role, va / PGSIZE, frame, size / PGSIZE)
      modifies this
      ensures panic ==> Misused(old(m).pages, root, va, size)
      ensures |old(chain)| >= 2 * (size / PGSIZE) ==> (panic <==> Misused(old(m).pages, root, va, size))
      ensures !panic ==> va % PGSIZE == 0 && size % PGSIZE == 0 && size > 0
      ensures !panic ==> Valid() && done <= size / PGSIZE
                         && Fresh(old(m).pages, root, va / PGSIZE, if r == 0 then done else done + 1)
      ensures !panic ==> MapsTo(old(m).pages, m.pages, old(role), root, va / PGSIZE, done, frame, perm)
      ensures !panic ==> MapRoles(old(m).pages, old(role), m.pages, role, root, va / PGSIZE, done, frame)
      ensures !panic ==> (r == 0 && done == size / PGSIZE) || (r == -1 && done < size / PGSIZE && chain == [])
      ensures !panic ==> if r == 0 then |chain| + 2 * done >= |old(chain)| else |old(chain)| < 2 * (size / PGSIZE)
    {
      r, panic, done := 0, true, 0;
      if va % PGSIZE != 0 || size % PGSIZE != 0 || size == 0 {
        return;
      }
      ghost var pn, n := va / PGSIZE, size / PGSIZE;
      var a, last, pa := va, va + size - PGSIZE, frame;
      WalkMaps(m.pages, role, m.pages, role, root, pn, frame, perm);
      while true
        invariant done < n && a == (pn + done) * PGSIZE && pa == frame + done
        invariant Valid() && IsRoot(role, root) && panic
        invariant MapsTo(old(m).pages, m.pages, old(role), root, pn, done, frame, perm)
        invariant MapRoles(old(m).pages, old(role), m.pages, role, root, pn, done, frame)
        invariant Fresh(old(m).pages, root, pn, done) && |chain| + 2 * done >= |old(chain)| && (done > 0 ==> a <= MAXVA)
        decreases n - done
      {
        var bad;
        r, bad := MapNext(root, a, pa, perm, pn, done, frame, n, old(m).pages, old(role));
        if bad {
          return;
        }
        if r != 0 {
          panic := false;
          return;
        }
        done := done + 1;
        if a == last {
          panic := false;
          return;
        }
        a, pa := a + PGSIZE, pa + 1;
      }
    }

    /** A round of mappages, with what the rounds before it did. */
    method MapNext(root: nat, a: nat, pa: nat, perm: Flags,
                   ghost pn: nat, ghost done: nat, ghost frame: nat, ghost n: nat,
                   ghost p0: seq<Page>, ghost r0: seq<Role>)
      returns (r: int, panic: bool)
      requires Valid() && IsRoot(role, root) && |p0| == |r0| == |role|
      requires HandedRange(p0, r0, pn, frame, n) && done < n && a == (pn + done) * PGSIZE && pa == frame + done
      requires MapsTo(p0, m.pages, r0, root, pn, done, frame, perm)
               && MapRoles(p0, r0, m.pages, role, root, pn, done, frame)
      requires Fresh(p0, root, pn, done) && IsRoot(r0, root)
      modifies this
      ensures panic ==> (pn + n) * PGSIZE > MAXVA || !Fresh(p0, root, pn, n)
      ensures !panic ==> a < MAXVA && Valid() && IsRoot(role, root) && (r == 0 || (r == -1 && chain == []))
      ensures !panic ==> if r == 0 then |chain| + 2 >= |old(chain)| else |old(chain)| <= 1
      ensures !panic ==> MapsTo(p0, m.pages, r0, root, pn, done + (if r == 0 then 1 else 0), frame, perm)
      ensures !panic ==> MapRoles(p0, r0, m.pages, role, root, pn, done + (if r == 0 then 1 else 0), frame)
      ensures !panic ==> Fresh(p0, root, pn, done + 1)
    {
      ghost var p1, r1 := m.pages, role;
      NextHanded(p0, r0, p1, r1, root, pn, done, frame, n, a);
      r, panic := MapPage(root, a, pa, perm);
      FreshNext(p0, r0, p1, root, pn, done, frame, perm, n, a);
      if !panic {
        MappedNext(p0, r0, p1, r1, m.pages, role, root, pn, done, frame, perm, a, if r == 0 then 1 else 0);
      }
    }

    /** The loop body of uvmunmap: one page. */
    method UnmapPage(root: nat, va: nat, doFree: bool) returns (panic: bool)
      requires Valid() && IsRoot(role, root) && va % PGSIZE == 0 && (doFree ==> va / PGSIZE < USER_PAGES)
      modifies this
      ensures panic <==> va >= MAXVA
      ensures !panic ==> Valid() && IsRoot(role, root) && Unmaps(old(m).pages, m.pages, old(role), root, va / PGSIZE, 1)
      ensures !panic ==> UnmapRoles(old(m).pages, old(role), m.pages, role, root, va / PGSIZE, 1, doFree)
    {
      var t, i;
      panic, t, i := Walk(root, va, false);
      if panic {
        return;
      }
      ghost var vp := VpOf(va);
      VpIsPage(va);
      if t == 0 || !V(m.pages[t].ptes[i]) {
        Unmapped(m.pages, role, root, vp, t);
        AlreadyUnmapped(m.pages, role, root, vp, doFree);
        return;
      }
      panic := UnmapEntry(root, va, t, i, doFree);
    }

    /** The entry that walk found is taken out, and its page freed if doFree. */
    method UnmapEntry(root: nat, ghost va: nat, t: nat, i: nat, doFree: bool) returns (panic: bool)
      requires Valid() && IsRoot(role, root) && va < MAXVA && (doFree ==> va / PGSIZE < USER_PAGES)
      requires t < |role| && role[t] == TableAt(0, root, VpOf(va)) && i == VpOf(va).i0 && V(PteAt(m.pages, t, i))
      modifies this
      ensures !panic && Valid() && IsRoot(role, root)
      ensures Unmaps(old(m).pages, m.pages, old(role), root, va / PGSIZE, 1)
      ensures UnmapRoles(old(m).pages, old(role), m.pages, role, root, va / PGSIZE, 1, doFree)
    {
      panic := false;
      ghost var vp := VpOf(va);
      VpIsPage(va);
      assert DownAt(m.pages, role, t, i);
      var pa := m.pages[t].ptes[i].frame;
      if IsUser(vp) {
        UnmapUser(m.pages, role, root, vp, t, if doFree then Unused(m.head) else m.pages[pa], doFree);
      } else {
        UnmapForeign(m.pages, role, root, vp, t);
      }
      if doFree {
        RootedSet(role, pa, FreePage);
        panic := Kfree(pa);
      } else if IsUser(vp) {
        RootedSet(role, pa, Held);
        assert m.pages[pa := m.pages[pa]] == m.pages;
        FreeElsewhere(lo, m, role, chain, m.pages, role[pa := Held]);
        role := role[pa := Held];
      }
      ClearEntry(t, i);
    }

    /** Clear an entry of a table. */
    method ClearEntry(t: nat, i: nat)
      requires FreeOk(lo, m, role, chain) && t < |role| && IsTable(role[t]) && m.pages[t].Table? && i < PTES
      modifies this`m
      ensures FreeOk(lo, m, role, chain) && m.pages == SetPte(old(m).pages, t, i, NO_PTE)
    {
      FreeElsewhere(lo, m, role, chain, SetPte(m.pages, t, i, NO_PTE), role);
      m := m.(pages := SetPte(m.pages, t, i, NO_PTE));
    }

    /** Remove n pages of mappings; freeing them is for user pages. */
    method Uvmunmap(root: nat, va: nat, npages: nat, doFree: bool) returns (panic: bool)
      requires Valid() && IsRoot(role, root) && (doFree ==> va / PGSIZE + npages <= USER_PAGES)
      modifies this
      ensures panic <==> va % PGSIZE != 0 || (npages > 0 && va + npages * PGSIZE > MAXVA)
      ensures !panic ==>
                Valid() && IsRoot(role, root) && Unmaps(old(m).pages, m.pages, old(role), root, va / PGSIZE, npages)
      ensures !panic ==> UnmapRoles(old(m).pages, old(role), m.pages, role, root, va / PGSIZE, npages, doFree)
    {
      if va % PGSIZE != 0 {
        return true;
      }
      ghost var pn := va / PGSIZE;
      ghost var k := 0;
      var a := va;
      while a < va + npages * PGSIZE
        invariant k <= npages && a == (pn + k) * PGSIZE && (k > 0 ==> a <= MAXVA)
        invariant Valid() && IsRoot(role, root) && Unmaps(old(m).pages, m.pages, old(role), root, pn, k)
        invariant UnmapRoles(old(m).pages, old(role), m.pages, role, root, pn, k, doFree)
        decreases npages - k
      {
        ghost var p1, r1 := m.pages, role;
        assert a / PGSIZE == pn + k && a % PGSIZE == 0;
        panic := UnmapPage(root, a, doFree);
        if panic {
          return;
        }
        UnmapMore(old(m).pages, old(role), p1, r1, m.pages, role, root, pn, k, doFree);
        a, k := a + PGSIZE, k + 1;
      }
      panic := false;
    }

    /** A page of memory holding `bytes`, mapped at va; 0 if there is no memory for it, and
        then nothing is lost. */
    method NewHeld(bytes: PageBytes) returns (mem: nat)
      requires Valid()
      modifies this
      ensures Valid()
      ensures mem == 0 ==> m == old(m) && role == old(role) && chain == old(chain) == []
      ensures mem != 0 ==> |chain| + 1 == |old(chain)|
      ensures mem != 0 ==> 0 < lo <= mem < |old(role)| && old(role)[mem].FreePage? && role == old(role)[mem := Held]
      ensures mem != 0 ==> m.pages == old(m).pages[mem := Data(bytes)] && SameMaps(old(m).pages, m.pages, old(role))
    {
      ghost var p0, r0 := m.pages, role;
      mem := Kalloc();
      if mem != 0 {
        LooseChange(p0, r0, mem, Data(bytes), Held);
        RootedSet(r0, mem, Held);
        FreeElsewhere(lo, m, role, chain, m.pages[mem := Data(bytes)], role);
        m := m.(pages := m.pages[mem := Data(bytes)]);
        assert m.pages == p0[mem := Data(bytes)];
      }
    }

    method NewPage(root: nat, va: nat, bytes: PageBytes, perm: Flags) returns (mem: nat, panic: bool)
      requires Valid() && IsRoot(role, root) && va % PGSIZE == 0 && va / PGSIZE < USER_PAGES
      modifies this
      ensures panic <==> old(chain) != [] && Leaf(old(m).pages, root, VpOf(va)) != NO_PTE
      ensures !panic ==> Valid() && IsRoot(role, root)
      ensures !panic && mem == 0 ==> Quiet(old(m).pages, old(role), m.pages, role, root) && |old(chain)| < 3
      ensures !panic && mem != 0 ==> |chain| + 3 >= |old(chain)|
      ensures !panic && mem != 0 ==>
                Leaf(old(m).pages, root, VpOf(va)) == NO_PTE && Leaf(m.pages, root, VpOf(va)) == MakePte(mem, perm)
                && Adds(old(m).pages, old(role), m.pages, role, root, va / PGSIZE, WithV(perm), bytes)
    {
      panic := false;
      mem := NewHeld(bytes);
      if mem == 0 {
        QuietSelf(m.pages, role, root);
        return;
      }
      mem, panic := MapHeld(root, va, mem, bytes, perm, old(m).pages, old(role));
    }

    /** Map a page just allocated, or give it back. */
    method MapHeld(root: nat, va: nat, f: nat, ghost bytes: PageBytes, perm: Flags, ghost p0: seq<Page>,
                   ghost r0: seq<Role>)
      returns (mem: nat, panic: bool)
      requires Valid() && IsRoot(role, root) && va % PGSIZE == 0 && va / PGSIZE < USER_PAGES && |p0| == |r0|
      requires 0 < lo <= f < |r0| && r0[f].FreePage? && role == r0[f := Held] && m.pages == p0[f := Data(bytes)]
               && SameMaps(p0, m.pages, r0)
      requires Inv(p0, r0) && IsRoot(r0, root)
      modifies this
      ensures panic <==> Leaf(p0, root, VpOf(va)) != NO_PTE
      ensures !panic ==> Valid() && IsRoot(role, root) && (mem == 0 || mem == f)
      ensures !panic && mem == 0 ==> Quiet(p0, r0, m.pages, role, root) && |old(chain)| < 2
      ensures !panic && mem != 0 ==> |chain| + 2 >= |old(chain)|
      ensures !panic && mem != 0 ==>
                Leaf(m.pages, root, VpOf(va)) == MakePte(mem, perm)
                && Adds(p0, r0, m.pages, role, root, va / PGSIZE, WithV(perm), bytes)
    {
      mem := f;
      FreshOne(m.pages, root, va);
      assert SameMap(p0, m.pages, root);
      var r;
      ghost var done;
      r, panic, done := Mappages(root, va, PGSIZE, f, perm);
      if panic {
        return;
      }
      if r != 0 {
        panic := GiveBack(root, va / PGSIZE, f, Data(bytes), perm, p0, r0);
        return 0, panic;
      }
      AddsPage(p0, r0, f, bytes, m.pages, role, root, va / PGSIZE, perm);
      VpIsPage(va);
    }

    /** Free the page again: only tables have been added. */
    method GiveBack(ghost root: nat, ghost a: nat, f: nat, ghost page: Page, ghost perm: Flags, ghost p0: seq<Page>,
                    ghost r0: seq<Role>)
      returns (panic: bool)
      requires Valid() && Inv(p0, r0) && IsRoot(r0, root) && IsRoot(role, root) && 0 < lo <= f < |r0| && r0[f].FreePage?
      requires SameMaps(p0, p0[f := page], r0)
      requires MapsTo(p0[f := page], m.pages, r0[f := Held], root, a, 0, f, perm)
      requires MapRoles(p0[f := page], r0[f := Held], m.pages, role, root, a, 0, f)
      modifies this
      ensures !panic && Valid() && IsRoot(role, root) && Quiet(p0, r0, m.pages, role, root)
    {
      AddsNothing(p0, r0, f, page, m.pages, role, root, a, perm, Unused(m.head));
      RootedSet(role, f, FreePage);
      panic := Kfree(f);
    }

    /** Shrink from oldsz to newsz; growing is a no-op. */
    method Uvmdealloc(root: nat, oldsz: nat, newsz: nat) returns (sz: nat, panic: bool)
      requires Valid() && IsRoot(role, root) && oldsz <= TRAPFRAME
      modifies this
      ensures !panic && sz == if newsz < oldsz then newsz else oldsz
      ensures Valid() && IsRoot(role, root)
      ensures var n := if newsz < oldsz then PagesUp(oldsz) - PagesUp(newsz) else 0;
              && Unmaps(old(m).pages, m.pages, old(role), root, PagesUp(newsz), n)
              && UnmapRoles(old(m).pages, old(role), m.pages, role, root, PagesUp(newsz), n, true)
    {
      panic, sz := false, oldsz;
      if newsz >= oldsz {
        return;
      }
      sz := newsz;
      PagesUpMonotone(newsz, oldsz);
      if PgRoundUp(newsz) < PgRoundUp(oldsz) {
        var npages := (PgRoundUp(oldsz) - PgRoundUp(newsz)) / PGSIZE;
        panic := Uvmunmap(root, PgRoundUp(newsz), npages, true);
      }
    }

    /** The loop body of uvmalloc. */
    method GrowOne(root: nat, a: nat, perm: Flags, ghost pn: nat, ghost k: nat, ghost n: nat, ghost p0: seq<Page>,
                   ghost r0: seq<Role>)
      returns (ok: bool, panic: bool)
      requires Valid() && IsRoot(role, root) && IsRoot(r0, root)
      requires a == (pn + k) * PGSIZE && a % PGSIZE == 0 && a / PGSIZE == pn + k < USER_PAGES && k < n
      requires Grown(p0, r0, m.pages, role, root, pn, k, WithV(perm))
      modifies this
      ensures panic ==> !Fresh(p0, root, pn, n)
      ensures !panic ==> Valid() && IsRoot(role, root)
      ensures !panic ==> Grown(p0, r0, m.pages, role, root, pn, if ok then k + 1 else k, WithV(perm))
      ensures !panic ==> if ok then |chain| + 3 >= |old(chain)| else |old(chain)| < 3
    {
      ghost var p1, r1 := m.pages, role;
      var mem;
      mem, panic := NewPage(root, a, Filled(0), perm);
      ok := mem != 0;
      GrowFresh(p0, r0, p1, r1, root, pn, k, n);
      if !panic {
        if ok {
          RangeAdds(p0, r0, p1, r1, m.pages, role, root, pn, k, WithV(perm), Filled(0));
          ZeroedMore(p1, r1, m.pages, role, root, pn, k, WithV(perm));
        } else {
          RangeQuiet(p0, r0, p1, r1, m.pages, role, root, pn, k);
          ZeroedQuiet(p1, r1, m.pages, role, root, pn, k, WithV(perm));
        }
      }
    }

    /** Grow from oldsz to newsz with zeroed pages; 0 on failure, with every mapping and
        user page as before. */
    method Uvmalloc(root: nat, oldsz: nat, newsz: nat, xperm: Flags) returns (sz: nat, panic: bool)
      requires Valid() && IsRoot(role, root) && newsz <= TRAPFRAME
      modifies this
      ensures panic ==> oldsz <= newsz && !Fresh(old(m).pages, root, PagesUp(oldsz), PagesUp(newsz) - PagesUp(oldsz))
      ensures !panic ==> Valid() && IsRoot(role, root)
      ensures !panic && newsz < oldsz ==> sz == oldsz && m == old(m) && role == old(role) && chain == old(chain)
      ensures !panic && newsz >= oldsz ==>
                || (sz == 0 && Quiet(old(m).pages, old(role), m.pages, role, root)
                    && |old(chain)| < 3 * (PagesUp(newsz) - PagesUp(oldsz)))
                || (&& sz == newsz
                    && var a, n := PagesUp(oldsz), PagesUp(newsz) - PagesUp(oldsz);
                    && Grown(old(m).pages, old(role), m.pages, role, root, a, n, WithV(xperm.(r := true, u := true))))
    {
      panic, sz := false, oldsz;
      if newsz < oldsz {
        return;
      }
      PagesUpMonotone(oldsz, newsz);
      var start := PgRoundUp(oldsz);
      ghost var pn, n, k := PagesUp(oldsz), PagesUp(newsz) - PagesUp(oldsz), 0;
      var a := start;
      RangeStart(m.pages, role, root, pn);
      while a < newsz
        invariant k <= n && a == (pn + k) * PGSIZE
        invariant Valid() && IsRoot(role, root) && !panic
        invariant Grown(old(m).pages, old(role), m.pages, role, root, pn, k, WithV(xperm.(r := true, u := true)))
        invariant |chain| + 3 * k >= |old(chain)|
        decreases n - k
      {
        PageBelow(pn + k, newsz);
        var ok;
        ok, panic := GrowOne(root, a, xperm.(r := true, u := true), pn, k, n, old(m).pages, old(role));
        if panic {
          return;
        }
        if !ok {
          ghost var p2, r2 := m.pages, role;
          sz, panic := Uvmdealloc(root, a, start);
          RangeUndo(old(m).pages, old(role), p2, r2, m.pages, role, root, pn, k);
          return 0, panic;
        }
        a, k := a + PGSIZE, k + 1;
      }
      sz := newsz;
    }

    /** The loop body of uvmcopy: copy one page of the parent, if it has one. */
    method CopyOne(parent: nat, child: nat, a: nat, ghost k: nat, ghost n: nat, ghost p0: seq<Page>,
                   ghost r0: seq<Role>)
      returns (ok: bool, panic: bool)
      requires Valid() && Inv(p0, r0) && IsRoot(r0, parent) && IsRoot(r0, child) && parent != child
      requires IsRoot(role, parent) && IsRoot(role, child)
      requires a == k * PGSIZE && a / PGSIZE == k < USER_PAGES && a % PGSIZE == 0 && k < n
      requires Forked(p0, r0, m.pages, role, parent, child, k) && Fresh(p0, child, 0, n)
      modifies this
      ensures !panic && Valid()
      ensures if ok then Forked(p0, r0, m.pages, role, parent, child, k + 1)
              else NewRange(p0, r0, m.pages, role, child, 0, k)
      ensures if ok then |chain| + 3 >= |old(chain)| else |old(chain)| < 3
    {
      ghost var vp := VpOf(a);
      VpIsPage(a);
      ghost var p1, r1 := m.pages, role;
      ParentPage(p0, r0, p1, r1, parent, child, k, vp);
      assert InRange(vp, 0, n) && Leaf(p1, child, vp) == NO_PTE;
      var t, i;
      panic, t, i := Walk(parent, a, false);
      if t == 0 || !V(m.pages[t].ptes[i]) {
        Unmapped(m.pages, role, parent, vp, t);
        ok := true;
        ForkSkip(p0, r0, m.pages, role, parent, child, k, vp);
        return;
      }
      var pte := m.pages[t].ptes[i];
      var mem;
      var bytes := m.pages[pte.frame].bytes;
      assert pte == Leaf(p0, parent, vp) && bytes == p0[pte.frame].bytes;
      mem, panic := NewPage(child, a, bytes, pte.flags);
      ok := mem != 0;
      if ok {
        ForkMore(p0, r0, p1, r1, m.pages, role, parent, child, k, vp);
      } else {
        RangeQuiet(p0, r0, p1, r1, m.pages, role, child, 0, k);
      }
    }

    /** Copy the parent's memory into the child. On failure the child has no user page
        left and only tables have been added. */
    method Uvmcopy(parent: nat, child: nat, sz: nat) returns (r: int, panic: bool)
      requires Valid() && IsRoot(role, parent) && IsRoot(role, child) && parent != child && sz <= TRAPFRAME
      requires Fresh(m.pages, child, 0, PagesUp(sz))
      modifies this
      ensures !panic && Valid() && (r == 0 || r == -1)
      ensures r == 0 ==> Forked(old(m).pages, old(role), m.pages, role, parent, child, PagesUp(sz))
      ensures r == -1 ==> Quiet(old(m).pages, old(role), m.pages, role, child) && |old(chain)| < 3 * PagesUp(sz)
    {
      ghost var k, n := 0, PagesUp(sz);
      var a := 0;
      RangeStart(m.pages, role, child, 0);
      PagesUpMonotone(0, sz);
      while a < sz
        invariant k <= n && a == k * PGSIZE && (k < n ==> a < sz)
        invariant Valid() && IsRoot(role, parent) && IsRoot(role, child)
        invariant Forked(old(m).pages, old(role), m.pages, role, parent, child, k) && |chain| + 3 * k >= |old(chain)|
        decreases n - k
      {
        PageBelow(k, sz);
        var ok;
        ok, panic := CopyOne(parent, child, a, k, n, old(m).pages, old(role));
        if !ok {
          ghost var p2, r2 := m.pages, role;
          panic := Uvmunmap(child, 0, a / PGSIZE, true);
          RangeUndo(old(m).pages, old(role), p2, r2, m.pages, role, child, 0, k);
          return -1, panic;
        }
        a, k := a + PGSIZE, k + 1;
      }
      return 0, false;
    }

    /** The page behind a user address, 0 if it is not mapped for the user. */
    method Walkaddr(root: nat, va: nat) returns (f: nat)
      requires Valid() && IsRoot(role, root)
      modifies this
      ensures m == old(m) && role == old(role) && chain == old(chain)
      ensures va < MAXVA && V(Leaf(m.pages, root, VpOf(va))) && Leaf(m.pages, root, VpOf(va)).flags.u ==>
                f == Leaf(m.pages, root, VpOf(va)).frame
      ensures va >= MAXVA || !V(Leaf(m.pages, root, VpOf(va))) || !Leaf(m.pages, root, VpOf(va)).flags.u ==> f == 0
    {
      if va >= MAXVA {
        return 0;
      }
      var panic, t, i := Walk(root, va, false);
      if t == 0 {
        return 0;
      }
      var pte := m.pages[t].ptes[i];
      if !V(pte) {
        return 0;
      }
      if !pte.flags.u {
        return 0;
      }
      return pte.frame;
    }

    method Ismapped(root: nat, va: nat) returns (panic: bool, mapped: bool)
      requires Valid() && IsRoot(role, root)
      modifies this
      ensures (panic <==> va >= MAXVA) && m == old(m) && role == old(role) && chain == old(chain)
      ensures !panic ==> (mapped <==> Leaf(m.pages, root, VpOf(va)) != NO_PTE)
    {
      var t, i;
      panic, t, i := Walk(root, va, false);
      if panic {
        return true, false;
      }
      if t == 0 || !V(m.pages[t].ptes[i]) {
        Unmapped(m.pages, role, root, VpOf(va), t);
        return false, false;
      }
      return false, true;
    }

    /** Give a lazily allocated page to the running process (root, sz), if `table` has none
        there. The new page, or 0; no byte of any process looks different. When `table` is
        another page table than the process's, the page may be there already: a panic. */
    method Vmfault(table: nat, root: nat, sz: nat, va: nat) returns (mem: nat, panic: bool)
      requires Valid() && ProcOk(m.pages, role, root, sz) && IsRoot(role, table)
      modifies this
      ensures panic <==> va < sz && Leaf(old(m).pages, table, VpOf(va)) == NO_PTE
                         && Leaf(old(m).pages, root, VpOf(va)) != NO_PTE && old(chain) != []
      ensures !panic ==> Valid() && ProcOk(m.pages, role, root, sz)
      ensures !panic ==> Lazily(old(m).pages, old(role), m.pages, role, root)
      ensures !panic && mem == 0 ==>
                SameMaps(old(m).pages, m.pages, old(role))
                && (va >= sz || Leaf(old(m).pages, table, VpOf(va)) != NO_PTE || |old(chain)| < 3)
      ensures !panic && mem != 0 ==> |chain| + 3 >= |old(chain)| && va < sz
                                     && Leaf(old(m).pages, table, VpOf(va)) == NO_PTE
      ensures !panic && mem != 0 ==>
                Leaf(old(m).pages, root, VpOf(va)) == NO_PTE && mem == Leaf(m.pages, root, VpOf(va)).frame
                && Holding(m.pages, Leaf(m.pages, root, VpOf(va)), WithV(LAZY_PERM), Filled(0))
    {
      mem, panic := 0, false;
      QuietSelf(m.pages, role, root);
      QuietLazily(m.pages, role, m.pages, role, root);
      if va >= sz {
        return;
      }
      var va0 := va / PGSIZE * PGSIZE;
      PageStart(va, va0);
      var mapped;
      panic, mapped := Ismapped(table, va0);
      if mapped {
        return;
      }
      mem, panic := FaultIn(root, sz, va0);
    }

    /** A zeroed page at address va of the process (root, sz). */
    method FaultIn(root: nat, ghost sz: nat, va: nat) returns (mem: nat, panic: bool)
      requires Valid() && ProcOk(m.pages, role, root, sz) && va < sz && va % PGSIZE == 0
      modifies this
      ensures panic <==> old(chain) != [] && Leaf(old(m).pages, root, VpOf(va)) != NO_PTE
      ensures !panic ==> Valid() && ProcOk(m.pages, role, root, sz)
      ensures !panic ==> Lazily(old(m).pages, old(role), m.pages, role, root)
      ensures !panic && mem == 0 ==> SameMaps(old(m).pages, m.pages, old(role)) && |old(chain)| < 3
      ensures !panic && mem != 0 ==> |chain| + 3 >= |old(chain)| && Leaf(old(m).pages, root, VpOf(va)) == NO_PTE
      ensures !panic && mem != 0 ==>
                mem == Leaf(m.pages, root, VpOf(va)).frame
                && Holding(m.pages, Leaf(m.pages, root, VpOf(va)), WithV(LAZY_PERM), Filled(0))
    {
      mem, panic := NewPage(root, va, Filled(0), LAZY_PERM);
      if panic {
        return;
      }
      if mem == 0 {
        QuietLazily(old(m).pages, old(role), m.pages, role, root);
        QuietProc(old(m).pages, old(role), m.pages, role, root, sz, root);
      } else {
        AddsLazily(old(m).pages, old(role), m.pages, role, root, va, WithV(LAZY_PERM));
        LazyProc(old(m).pages, old(role), m.pages, role, root, sz, va, WithV(LAZY_PERM));
      }
    }

    /** Page pn of the process, faulted in if need be. */
    method UserFrame(root: nat, sz: nat, va0: nat, ghost pn: nat) returns (f: nat)
      requires Valid() && ProcOk(m.pages, role, root, sz) && va0 == pn * PGSIZE
      modifies this
      ensures Valid() && ProcOk(m.pages, role, root, sz) && Lazily(old(m).pages, old(role), m.pages, role, root)
      ensures if f == 0 then Refuses(old(m).pages, root, sz, pn, false, |old(chain)| < 3)
              else Takes(old(m).pages, root, sz, pn, false) && Behind(m.pages, role, root, sz, pn, f)
      ensures f != 0 ==> |chain| + 3 >= |old(chain)|
    {
      QuietSelf(m.pages, role, root);
      QuietLazily(m.pages, role, m.pages, role, root);
      if va0 < MAXVA && Readable(m.pages, root, VpOf(va0)) {
        BelowSize(m.pages, role, root, sz, va0);
      }
      f := Walkaddr(root, va0);
      if f == 0 {
        var panic;
        f, panic := Vmfault(root, root, sz, va0);
      }
      if f != 0 {
        BelowSize(m.pages, role, root, sz, va0);
      }
    }

    /** How much of `max` bytes from va on lies in the page at va0. */
    method PieceSize(va: nat, va0: nat, max: nat, ghost pn: nat) returns (n: nat)
      requires va0 == pn * PGSIZE && va0 <= va < va0 + PGSIZE && max > 0
      ensures PieceOk(va, n, max, pn)
    {
      n := PGSIZE - (va - va0);
      if n > max {
        n := max;
      }
    }

    /** The loop body of copyin: the bytes of one page, or none. */
    method CopyinPiece(root: nat, sz: nat, va: nat, n: nat, ghost p0: seq<Page>, ghost r0: seq<Role>)
      returns (k: nat, bytes: seq<Byte>, ghost pn: nat)
      requires Valid() && ProcOk(m.pages, role, root, sz) && n > 0 && Lazily(p0, r0, m.pages, role, root)
               && IsRoot(r0, root)
      modifies this
      ensures Valid() && ProcOk(m.pages, role, root, sz) && Lazily(p0, r0, m.pages, role, root)
      ensures bytes == SeenBytes(p0, root, va, k) && pn * PGSIZE <= va < (pn + 1) * PGSIZE
      ensures if k == 0 then Refuses(p0, root, sz, pn, false, |old(chain)| < 3)
              else Takes(p0, root, sz, pn, false) && PieceOk(va, k, n, pn) && va + k <= PgRoundUp(sz)
      ensures k > 0 ==> |chain| + 3 >= |old(chain)|
    {
      var va0 := va / PGSIZE * PGSIZE;
      pn := va / PGSIZE;
      PageSplit(va, va0);
      var pa0 := FrameToRead(root, sz, va0, pn, p0, r0);
      if pa0 == 0 {
        return 0, [], pn;
      }
      k := PieceSize(va, va0, n, pn);
      PieceFromPage(p0, m.pages, role, root, sz, va, pn, k, pa0);
      bytes := m.pages[pa0].bytes[va - va0..va - va0 + k];
    }

    /** A round, after dst, with its account. */
    method CopyinRound(root: nat, sz: nat, ghost srcva: nat, ghost len: nat, va: nat, n: nat, ghost dst: seq<Byte>,
                       ghost p0: seq<Page>, ghost r0: seq<Role>, ghost free0: nat, ghost rounds: nat)
      returns (k: nat, bytes: seq<Byte>)
      requires Valid() && ProcOk(m.pages, role, root, sz) && Lazily(p0, r0, m.pages, role, root) && IsRoot(r0, root)
      requires 0 < n == len - |dst| && va == srcva + |dst| && len <= rounds * PGSIZE
      requires dst == SeenBytes(p0, root, srcva, |dst|)
      requires Copying(p0, root, sz, srcva, len, |dst|, false, free0, |chain|)
      modifies this
      ensures Valid() && ProcOk(m.pages, role, root, sz) && Lazily(p0, r0, m.pages, role, root)
      ensures k == |bytes| <= n && dst + bytes == SeenBytes(p0, root, srcva, |dst| + k)
      ensures if k == 0 then CopyFails(p0, root, sz, srcva, len, free0, rounds, false)
                             && AllTaken(p0, root, sz, srcva, |dst|, false)
              else va + k <= PgRoundUp(sz) && Copying(p0, root, sz, srcva, len, |dst| + k, false, free0, |chain|)
    {
      ghost var pn, free := 0, |chain|;
      k, bytes, pn := CopyinPiece(root, sz, va, n, p0, r0);
      if k == 0 {
        CopyRefused(p0, root, sz, srcva, len, |dst|, false, pn, free0, free, rounds);
      } else {
        CopiedNext(p0, root, sz, srcva, len, |dst|, false, k, pn, free0, free, |chain|);
      }
      assert dst + bytes == SeenBytes(p0, root, srcva, |dst| + k) by {
        SeenMore(p0, root, srcva, |dst|, k);
      }
    }

    /** The page to read next, in the course of a copyin. */
    method FrameToRead(root: nat, sz: nat, va0: nat, ghost pn: nat, ghost p0: seq<Page>, ghost r0: seq<Role>)
      returns (f: nat)
      requires Valid() && ProcOk(m.pages, role, root, sz) && Lazily(p0, r0, m.pages, role, root) && IsRoot(r0, root)
               && va0 == pn * PGSIZE
      modifies this
      ensures Valid() && ProcOk(m.pages, role, root, sz) && Lazily(p0, r0, m.pages, role, root)
      ensures if f == 0 then Refuses(p0, root, sz, pn, false, |old(chain)| < 3)
              else Takes(p0, root, sz, pn, false) && Behind(m.pages, role, root, sz, pn, f)
      ensures f != 0 ==> |chain| + 3 >= |old(chain)|
    {
      ghost var p1, r1 := m.pages, role;
      f := UserFrame(root, sz, va0, pn);
      LazilyTwice(p0, r0, p1, r1, m.pages, role, root);
      if f == 0 {
        KeptRefused(p0, p1, root, sz, pn, false, |old(chain)| < 3);
      } else {
        KeptTaken(p0, p1, root, sz, pn, false);
      }
    }

    /** Copy len bytes in from user address srcva of the process (root, sz): the bytes the
        user sees there. Every page read from is one that the user may read, or lies below the
        size and is to be allocated. With enough free pages it fails exactly when some page of
        the range is neither. */
    method Copyin(root: nat, sz: nat, srcva: nat, len: nat) returns (r: int, dst: seq<Byte>)
      requires Valid() && ProcOk(m.pages, role, root, sz)
      modifies this
      ensures Valid() && ProcOk(m.pages, role, root, sz) && Lazily(old(m).pages, old(role), m.pages, role, root)
      ensures r == 0 || r == -1
      ensures r == 0 && len > 0 ==> srcva + len <= PgRoundUp(sz)
      ensures r == 0 ==> dst == SeenBytes(old(m).pages, root, srcva, len)
      ensures AllReachable(old(m).pages, root, sz, srcva, |dst|) && (r == 0 ==> |dst| == len)
      ensures AllReadable(old(m).pages, root, srcva, len) ==> r == 0
      ensures |old(chain)| >= 3 * (len / PGSIZE + 2) ==> (r == 0 <==> AllReachable(old(m).pages, root, sz, srcva, len))
    {
      r, dst := CopyinAll(root, sz, srcva, len, len / PGSIZE + 1);
    }

    /** copyin's loop, of at most `rounds` rounds and one. */
    method CopyinAll(root: nat, sz: nat, srcva: nat, len: nat, ghost rounds: nat) returns (r: int, dst: seq<Byte>)
      requires Valid() && ProcOk(m.pages, role, root, sz) && len <= rounds * PGSIZE
      modifies this
      ensures Valid() && ProcOk(m.pages, role, root, sz) && Lazily(old(m).pages, old(role), m.pages, role, root)
      ensures r == 0 || r == -1
      ensures r == 0 && len > 0 ==> srcva + len <= PgRoundUp(sz)
      ensures dst == SeenBytes(old(m).pages, root, srcva, |dst|) && (r == 0 ==> |dst| == len)
      ensures AllTaken(old(m).pages, root, sz, srcva, |dst|, false)
      ensures r == -1 ==> CopyFails(old(m).pages, root, sz, srcva, len, |old(chain)|, rounds, false)
    {
      dst := [];
      var va, n := srcva, len;
      CopyStart(m.pages, root, sz, srcva, len, false, |chain|);
      QuietSelf(m.pages, role, root);
      QuietLazily(m.pages, role, m.pages, role, root);
      while n > 0
        invariant n == len - |dst| && n >= 0 && va == srcva + |dst|
        invariant |dst| > 0 ==> va <= PgRoundUp(sz)
        invariant Valid() && ProcOk(m.pages, role, root, sz) && Lazily(old(m).pages, old(role), m.pages, role, root)
        invariant dst == SeenBytes(old(m).pages, root, srcva, |dst|)
        invariant Copying(old(m).pages, root, sz, srcva, len, |dst|, false, |old(chain)|, |chain|)
        decreases n
      {
        var k, bytes := CopyinRound(root, sz, srcva, len, va, n, dst, old(m).pages, old(role), |old(chain)|, rounds);
        if k == 0 {
          return -1, dst;
        }
        dst := dst + bytes;
        n, va := n - k, va + k;
      }
      CopyDone(old(m).pages, root, sz, srcva, len, |dst|, false, |old(chain)|, |chain|);
      r := 0;
    }

    /** memmove into the user page f. */
    method Store(f: nat, lo: nat, data: seq<Byte>)
      requires Valid() && f < |m.pages| == |role| && role[f].User? && m.pages[f].Data? && lo + |data| <= PGSIZE
      modifies this`m
      ensures Valid() && m.pages == old(m).pages[f := Data(PutBytes(old(m).pages[f].bytes, lo, data))]
      ensures SameMaps(old(m).pages, m.pages, role)
    {
      WriteUser(m.pages, role, f, PutBytes(m.pages[f].bytes, lo, data));
      FreeElsewhere(this.lo, m, role, chain, m.pages[f := Data(PutBytes(m.pages[f].bytes, lo, data))], role);
      m := m.(pages := m.pages[f := Data(PutBytes(m.pages[f].bytes, lo, data))]);
    }

    /** The loop body of copyout: write part of one page at va, up to byte `end` of src; it fails
        if end == k. */
    method CopyoutPiece(root: nat, sz: nat, va: nat, src: seq<Byte>, k: nat, ghost p0: seq<Page>, ghost r0: seq<Role>,
                        ghost dst: nat)
      returns (end: nat, ghost pn: nat)
      requires Valid() && ProcOk(m.pages, role, root, sz) && k < |src| && va == dst + k && IsRoot(r0, root)
      requires Wrote(p0, r0, m.pages, role, root, dst, src[..k]) && Keeps(p0, m.pages, root)
      modifies this
      ensures Valid() && ProcOk(m.pages, role, root, sz) && k <= end <= |src| && pn * PGSIZE <= va < (pn + 1) * PGSIZE
      ensures Wrote(p0, r0, m.pages, role, root, dst, src[..end]) && (end > k ==> Keeps(p0, m.pages, root))
      ensures if end == k then Refuses(p0, root, sz, pn, true, |old(chain)| < 3)
              else Takes(p0, root, sz, pn, true) && PieceOk(va, end - k, |src| - k, pn) && dst + end <= PgRoundUp(sz)
      ensures end > k ==> |chain| + 3 >= |old(chain)|
    {
      var va0 := va / PGSIZE * PGSIZE;
      pn := va / PGSIZE;
      PageSplit(va, va0);
      var pa0 := FrameToWrite(root, sz, va0, pn, p0, r0, dst, src[..k]);
      if pa0 == 0 {
        return k, pn;
      }
      end := StoreAt(root, sz, va, va0, pn, pa0, src, k, p0, r0, dst);
    }

    /** The memmove of copyout, at address va of the page at va0. */
    method StoreAt(ghost root: nat, ghost sz: nat, va: nat, va0: nat, ghost pn: nat, f: nat, src: seq<Byte>, k: nat,
                   ghost p0: seq<Page>, ghost r0: seq<Role>, ghost dst: nat)
      returns (end: nat)
      requires Valid() && ProcOk(m.pages, role, root, sz) && IsRoot(r0, root)
      requires k < |src| && Wrote(p0, r0, m.pages, role, root, dst, src[..k]) && Keeps(p0, m.pages, root)
      requires va == dst + k && va0 == pn * PGSIZE && va0 <= va < va0 + PGSIZE && Behind(m.pages, role, root, sz, pn, f)
      modifies this`m
      ensures k < end <= |src| && PieceOk(va, end - k, |src| - k, pn) && dst + end <= PgRoundUp(sz)
      ensures Valid() && ProcOk(m.pages, role, root, sz)
      ensures Wrote(p0, r0, m.pages, role, root, dst, src[..end]) && Keeps(p0, m.pages, root)
    {
      var n := PieceSize(va, va0, |src| - k, pn);
      PieceOfPage(va, pn, sz, n);
      end := k + n;
      StorePiece(root, sz, VpOf(va0), f, va - va0, src, k, end, p0, r0, dst);
    }

    /** The page to write next, in the course of a copyout. */
    method FrameToWrite(root: nat, sz: nat, va0: nat, ghost pn: nat, ghost p0: seq<Page>, ghost r0: seq<Role>,
                        ghost dst: nat, ghost done: seq<Byte>)
      returns (f: nat)
      requires Valid() && ProcOk(m.pages, role, root, sz) && IsRoot(r0, root) && va0 == pn * PGSIZE
      requires Wrote(p0, r0, m.pages, role, root, dst, done) && Keeps(p0, m.pages, root)
      modifies this
      ensures Valid() && ProcOk(m.pages, role, root, sz) && Wrote(p0, r0, m.pages, role, root, dst, done)
      ensures if f == 0 then Refuses(p0, root, sz, pn, true, |old(chain)| < 3)
              else Takes(p0, root, sz, pn, true) && Behind(m.pages, role, root, sz, pn, f)
      ensures f != 0 ==> Keeps(p0, m.pages, root) && |chain| + 3 >= |old(chain)|
    {
      ghost var p1, r1 := m.pages, role;
      f := WritableFrame(root, sz, va0, pn);
      WroteLazily(p0, r0, p1, r1, m.pages, role, root, dst, done);
      if f == 0 {
        KeptRefused(p0, p1, root, sz, pn, true, |old(chain)| < 3);
      } else {
        KeptTwice(p0, p1, m.pages, m.pages, root);
        KeptTaken(p0, p1, root, sz, pn, true);
      }
    }

    /** memmove of src[k..end] into a user page, in the course of a copyout. */
    method StorePiece(ghost root: nat, ghost sz: nat, ghost vp: Vp, f: nat, lo: nat, src: seq<Byte>, k: nat, end: nat,
                      ghost p0: seq<Page>, ghost r0: seq<Role>, ghost dst: nat)
      requires Valid() && ProcOk(m.pages, role, root, sz) && IsRoot(r0, root)
      requires k <= end <= |src| && Wrote(p0, r0, m.pages, role, root, dst, src[..k]) && Keeps(p0, m.pages, root)
      requires IsUser(vp) && dst + k == Num(vp) * PGSIZE + lo && lo + (end - k) <= PGSIZE
      requires Leaf(m.pages, root, vp) != NO_PTE && f == Leaf(m.pages, root, vp).frame
      modifies this`m
      ensures Valid() && ProcOk(m.pages, role, root, sz)
      ensures Wrote(p0, r0, m.pages, role, root, dst, src[..end]) && Keeps(p0, m.pages, root)
    {
      WrotePiece(p0, r0, m.pages, role, root, dst, src, k, end, vp, lo, f);
      UserPage(m.pages, role, root, vp);
      ghost var p2 := m.pages;
      ghost var p3 := p2[f := Data(PutBytes(p2[f].bytes, lo, src[k..end]))];
      Store(f, lo, src[k..end]);
      assert m.pages == p3;
      KeptTwice(p0, p2, p2, m.pages, root);
      SameProc(p2, m.pages, role, root, sz);
    }

    /** Page pn of the process if the user may write it, else 0. */
    method WritableFrame(root: nat, sz: nat, va0: nat, ghost pn: nat) returns (f: nat)
      requires Valid() && ProcOk(m.pages, role, root, sz) && va0 == pn * PGSIZE
      modifies this
      ensures Valid() && ProcOk(m.pages, role, root, sz) && Lazily(old(m).pages, old(role), m.pages, role, root)
      ensures if f == 0 then Refuses(old(m).pages, root, sz, pn, true, |old(chain)| < 3)
              else Takes(old(m).pages, root, sz, pn, true) && Behind(m.pages, role, root, sz, pn, f)
      ensures f != 0 ==> |chain| + 3 >= |old(chain)|
    {
      QuietSelf(m.pages, role, root);
      QuietLazily(m.pages, role, m.pages, role, root);
      if va0 >= MAXVA {
        return 0;
      }
      f := UserFrame(root, sz, va0, pn);
      if f == 0 {
        return 0;
      }
      var panic, t, i := Walk(root, va0, false);
      if !m.pages[t].ptes[i].flags.w {
        return 0;
      }
    }

    /** Copy src out to user address dst of the process (root, sz). On success all of it
        is written and nothing else; on failure a prefix is. Every page written is one that
        the user may write, or is to be allocated; it fails as Copyin does. */
    method Copyout(root: nat, sz: nat, dst: nat, src: seq<Byte>) returns (r: int, ghost done: nat)
      requires Valid() && ProcOk(m.pages, role, root, sz)
      modifies this
      ensures Valid() && ProcOk(m.pages, role, root, sz)
      ensures done <= |src| && Wrote(old(m).pages, old(role), m.pages, role, root, dst, src[..done])
      ensures (r == 0 && done == |src|) || (r == -1 && done < |src|)
      ensures done > 0 ==> dst + done <= PgRoundUp(sz)
      ensures AllOpen(old(m).pages, root, sz, dst, done)
      ensures AllWritable(old(m).pages, root, dst, |src|) ==> r == 0
      ensures |old(chain)| >= 3 * (|src| / PGSIZE + 2) ==> (r == 0 <==> AllOpen(old(m).pages, root, sz, dst, |src|))
    {
      r, done := CopyoutAll(root, sz, dst, src, |src| / PGSIZE + 1);
    }

    /** copyout's loop, of at most `rounds` rounds and one. */
    method CopyoutAll(root: nat, sz: nat, dst: nat, src: seq<Byte>, ghost rounds: nat) returns (r: int, ghost done: nat)
      requires Valid() && ProcOk(m.pages, role, root, sz) && |src| <= rounds * PGSIZE
      modifies this
      ensures Valid() && ProcOk(m.pages, role, root, sz)
      ensures done <= |src| && Wrote(old(m).pages, old(role), m.pages, role, root, dst, src[..done])
      ensures (r == 0 && done == |src|) || (r == -1 && done < |src|)
      ensures done > 0 ==> dst + done <= PgRoundUp(sz)
      ensures AllTaken(old(m).pages, root, sz, dst, done, true)
      ensures r == -1 ==> CopyFails(old(m).pages, root, sz, dst, |src|, |old(chain)|, rounds, true)
    {
      var k := 0;
      WroteNothing(m.pages, role, root, dst);
      CopyStart(m.pages, root, sz, dst, |src|, true, |chain|);
      while k < |src|
        invariant 0 <= k <= |src| && (k > 0 ==> dst + k <= PgRoundUp(sz))
        invariant Valid() && ProcOk(m.pages, role, root, sz)
        invariant Wrote(old(m).pages, old(role), m.pages, role, root, dst, src[..k])
                  && Keeps(old(m).pages, m.pages, root)
        invariant Copying(old(m).pages, root, sz, dst, |src|, k, true, |old(chain)|, |chain|)
      {
        var end;
        ghost var pn, free := 0, |chain|;
        end, pn := CopyoutPiece(root, sz, dst + k, src, k, old(m).pages, old(role), dst);
        if end == k {
          CopyRefused(old(m).pages, root, sz, dst, |src|, k, true, pn, |old(chain)|, free, rounds);
          return -1, k;
        }
        CopiedNext(old(m).pages, root, sz, dst, |src|, k, true, end - k, pn, |old(chain)|, free, |chain|);
        k := end;
      }
      CopyDone(old(m).pages, root, sz, dst, |src|, k, true, |old(chain)|, |chain|);
      return 0, k;
    }

    /** Grow or shrink a process (root, sz) by n bytes. Sizes are 64-bit words: a shrink
        below zero wraps round and changes nothing. */
    method Growproc(root: nat, sz: nat, n: int) returns (r: int, sz': nat, panic: bool)
      requires Valid() && ProcOk(m.pages, role, root, sz) && -0x8000_0000 <= n < 0x8000_0000
      modifies this
      ensures !panic && Valid() && ProcOk(m.pages, role, root, sz') && (r == 0 || r == -1)
      ensures r == 0 ==> sz' == if sz + n < 0 then sz else sz + n
      ensures r == 0 ==> Resized(old(m).pages, m.pages, root, sz, sz')
      ensures r == -1 ==> n > 0 && sz' == sz && Quiet(old(m).pages, old(role), m.pages, role, root)
                          && (sz + n > TRAPFRAME || |old(chain)| < 3 * (PagesUp(sz + n) - PagesUp(sz)))
    {
      panic, sz', r := false, sz, 0;
      QuietSelf(m.pages, role, root);
      LazilyResized(m.pages, role, root, sz, sz);
      PagesUpMonotone(sz, TRAPFRAME);
      if n > 0 {
        if sz + n > TRAPFRAME {
          return -1, sz, false;
        }
        PagesUpMonotone(sz, sz + n);
        PagesUpMonotone(sz + n, TRAPFRAME);
        FreshBeyond(m.pages, role, root, sz, PagesUp(sz + n) - PagesUp(sz));
        var new' := 0;
        new', panic := Uvmalloc(root, sz, sz + n, NO_FLAGS.(w := true));
        if new' == 0 {
          QuietProc(old(m).pages, old(role), m.pages, role, root, sz, root);
          return -1, sz, panic;
        }
        GrownResized(old(m).pages, old(role), m.pages, role, root, sz, sz + n,
                     WithV(NO_FLAGS.(w := true, r := true, u := true)));
        sz' := new';
      } else if n < 0 {
        var newsz: nat := if sz + n < 0 then sz + n + 0x1_0000_0000_0000_0000 else sz + n;
        if newsz < sz {
          PagesUpMonotone(newsz, sz);
        }
        sz', panic := Uvmdealloc(root, sz, newsz);
        ShrunkResized(old(m).pages, old(role), m.pages, role, root, sz, sz');
      }
    }

    /** sys_sbrk: eager or lazy growth, with the same memory to see afterwards. */
    method Sbrk(root: nat, sz: nat, n: int, eager: bool) returns (r: int, sz': nat, panic: bool)
      requires Valid() && ProcOk(m.pages, role, root, sz) && -0x8000_0000 <= n < 0x8000_0000
      modifies this
      ensures !panic && Valid() && ProcOk(m.pages, role, root, sz') && (r == sz || r == -1)
      ensures r == -1 ==> n > 0 && sz' == sz && Quiet(old(m).pages, old(role), m.pages, role, root)
                          && (sz + n > TRAPFRAME || |old(chain)| < 3 * (PagesUp(sz + n) - PagesUp(sz)))
      ensures r != -1 ==> sz' == if sz + n < 0 then sz else sz + n
      ensures r != -1 ==> Resized(old(m).pages, m.pages, root, sz, sz')
      ensures !eager && n >= 0 ==> m == old(m) && role == old(role) && (r == -1 <==> sz + n > TRAPFRAME)
    {
      panic, sz' := false, sz;
      if eager || n < 0 {
        r, sz', panic := Growproc(root, sz, n);
        if r < 0 {
          return -1, sz', panic;
        }
      } else {
        QuietSelf(m.pages, role, root);
        if sz + n > TRAPFRAME {
          return -1, sz, false;
        }
        PagesUpMonotone(sz, sz + n);
        LazilyResized(m.pages, role, root, sz, sz + n);
        sz' := sz + n;
      }
      r := sz;
    }

    /** An empty page table, or 0 if there is no memory. */
    method Uvmcreate() returns (root: nat)
      requires Valid()
      modifies this
      ensures Valid() && (root == 0 <==> old(chain) == [])
      ensures root == 0 ==> m == old(m) && role == old(role) && chain == old(chain)
      ensures root != 0 ==>
                root < |old(role)| && old(role)[root].FreePage? && role == old(role)[root := Root]
                    && |chain| + 1 == |old(chain)|
      ensures root != 0 ==> NoLeaves(m.pages, root) && SameMaps(old(m).pages, m.pages, old(role))
      ensures root != 0 ==> m.pages == old(m).pages[root := Table(NoPtes())]
    {
      ghost var p0, r0 := m.pages, role;
      root := Kalloc();
      if root != 0 {
        NewRoot(p0, r0, root);
        FreeElsewhere(lo, m, role, chain, m.pages[root := Table(NoPtes())], role[root := Root]);
        m := m.(pages := m.pages[root := Table(NoPtes())]);
        role := role[root := Root];
        assert m.pages == p0[root := Table(NoPtes())] && role == r0[root := Root];
      }
    }

    /** Free the tables under f and f itself. A leaf among them is a panic. */
    method Freewalk(f: nat, ghost level: nat, ghost r: nat) returns (panic: bool)
      requires Valid() && TreeOk(m.pages, role, f, level, r) && !IsRoot(role, r)
               && (level == 2 ==> NoUserPages(role, r) || HasLeaf(m.pages, f, 2))
      modifies this
      ensures panic <==> HasLeaf(old(m).pages, f, level)
      ensures !panic ==> Valid() && AllFreed(level, old(role)[f], r, old(m).pages, old(role), m.pages, role, f)
      ensures !panic ==> SameMaps(old(m).pages, m.pages, old(role))
      decreases level, 1
    {
      ghost var p0, r0 := m.pages, role;
      panic := false;
      var i := 0;
      while i < PTES
        invariant 0 <= i <= PTES && Valid() && !panic && FreeingOk(p0, r0, m.pages, role, f, level, r, i)
        invariant forall j :: 0 <= j < i ==> !LeafUnder(p0, f, level, j)
      {
        panic := FreeEntry(f, i, level, r, p0, r0);
        if panic {
          return;
        }
        i := i + 1;
      }
      assert !HasLeaf(p0, f, level);
      if level == 2 {
        NoneLeft(p0, r0, m.pages, role, f, r);
      }
      RootedSet(role, f, FreePage);
      FreedAll(p0, r0, m.pages, role, f, level, r, Unused(m.head));
      DeadChange(m.pages, role, f, Unused(m.head), FreePage);
      panic := Kfree(f);
    }

    /** Entry i of the table f, from which the tables under earlier entries are gone. */
    method FreeEntry(f: nat, i: nat, ghost level: nat, ghost r: nat, ghost p0: seq<Page>, ghost r0: seq<Role>)
      returns (panic: bool)
      requires Valid() && TreeOk(p0, r0, f, level, r) && i < PTES && FreeingOk(p0, r0, m.pages, role, f, level, r, i)
      modifies this
      ensures panic <==> LeafUnder(p0, f, level, i)
      ensures !panic ==> Valid() && FreeingOk(p0, r0, m.pages, role, f, level, r, i + 1)
      decreases level, 0
    {
      assert EntryOk(p0, r0, f, level, r, i);
      panic := false;
      var pte := m.pages[f].ptes[i];
      if V(pte) && !pte.flags.r && !pte.flags.w && !pte.flags.x {
        ghost var p1, r1 := m.pages, role;
        NextChild(p0, r0, p1, r1, f, level, r, i);
        panic := Freewalk(pte.frame, level - 1, r);
        if panic {
          return;
        }
        FreedChild(p0, r0, p1, r1, m.pages, role, f, level, r, i, Table(m.pages[f].ptes[i := NO_PTE]));
        ClearDead(f, i);
      } else if V(pte) {
        return true;
      } else {
        FreedNone(p0, r0, m.pages, role, f, level, r, i);
      }
    }

    /** Clear an entry of a table that is being taken down. */
    method ClearDead(f: nat, i: nat)
      requires Valid() && (Dead(role, f) || (f < |role| && role[f].Dying?)) && m.pages[f].Table? && i < PTES
      modifies this`m
      ensures Valid() && m.pages == SetPte(old(m).pages, f, i, NO_PTE) && SameMaps(old(m).pages, m.pages, role)
    {
      DeadChange(m.pages, role, f, Table(m.pages[f].ptes[i := NO_PTE]), role[f]);
      assert role[f := role[f]] == role;
      FreeElsewhere(lo, m, role, chain, SetPte(m.pages, f, i, NO_PTE), role);
      m := m.(pages := SetPte(m.pages, f, i, NO_PTE));
    }

    /** Free the user pages below sz and then every table. A mapping that the caller has not
        removed is a panic. */
    method Uvmfree(root: nat, sz: nat) returns (panic: bool)
      requires Valid() && IsRoot(role, root) && sz <= TRAPFRAME
      requires forall vp :: IsVp(vp) && Leaf(m.pages, root, vp) != NO_PTE && Num(vp) >= PagesUp(sz) ==>
                 Permits(Leaf(m.pages, root, vp))
      modifies this
      ensures panic <==> LeftOver(old(m).pages, root, sz)
      ensures !panic ==> Valid() && Returned(old(m).pages, old(role), m.pages, role, root)
    {
      PagesUpMonotone(sz, TRAPFRAME);
      ghost var p0, r0 := m.pages, role;
      if sz > 0 {
        panic := Uvmunmap(root, 0, PgRoundUp(sz) / PGSIZE, true);
      } else {
        AlreadyEmpty(m.pages, role, root);
      }
      ghost var p1, r1 := m.pages, role;
      LeftToFind(p0, p1, r0, root, sz);
      RootTree(m.pages, role, root);
      NoUserLeft(m.pages, role, root);
      RootedSet(role, root, Dying);
      Kill(m.pages, role, root);
      FreeElsewhere(lo, m, role, chain, m.pages, role[root := Dying]);
      role := role[root := Dying];
      panic := Freewalk(root, 2, root);
      if !panic {
        ReturnedAll(p0, r0, p1, r1, m.pages, role, root, sz);
      }
    }

    /** mappages of one page above user memory. */
    method MapTop(root: nat, va: nat, frame: nat, perm: Flags) returns (ok: bool)
      requires Valid() && IsRoot(role, root) && va % PGSIZE == 0 && TRAPFRAME <= va < MAXVA
               && Leaf(m.pages, root, VpOf(va)) == NO_PTE
      modifies this
      ensures Valid() && IsRoot(role, root) && |role| == |old(role)|
              && forall f :: SameOrTable(old(role), role, root, f)
      ensures MapsTo(old(m).pages, m.pages, old(role), root, va / PGSIZE, if ok then 1 else 0, frame, perm)
      ensures if ok then |chain| + 2 >= |old(chain)| else |old(chain)| < 2
    {
      TopPages();
      FreshOne(m.pages, root, va);
      var r, panic;
      ghost var done;
      r, panic, done := Mappages(root, va, PGSIZE, frame, perm);
      ok := r == 0;
      TablesAdded(old(m).pages, old(role), m.pages, role, root, va / PGSIZE, done, frame);
      assert SameOrTable(old(role), role, root, root);
    }

    /** proc_pagetable: a page table with the trampoline and the trapframe and no user page;
        0 if there is no memory, and then every page is as it was. */
    method ProcPagetable(trampoline: nat, trapframe: nat) returns (root: nat)
      requires Valid()
      modifies this
      ensures Valid() && SameMaps(old(m).pages, m.pages, old(role))
      ensures root == 0 ==> role == old(role) && |old(chain)| < 5
      ensures root != 0 ==>
                ProcOk(m.pages, role, root, 0)
                    && Built(old(m).pages, old(role), m.pages, role, root, 2, trampoline, trapframe)
    {
      ghost var p0, r0 := m.pages, role;
      root := Uvmcreate();
      if root == 0 {
        return;
      }
      assert Built(p0, r0, m.pages, role, root, 0, trampoline, trapframe);
      var ok := BuildNext(root, p0, r0, 0, TRAMPOLINE, trampoline, TRAMPOLINE_PERM, trampoline, trapframe);
      if !ok {
        root := Abandon(root, p0, r0, 0, trampoline, trapframe);
        return;
      }
      ok := BuildNext(root, p0, r0, 1, TRAPFRAME, trapframe, TRAPFRAME_PERM, trampoline, trapframe);
      if !ok {
        root := Abandon(root, p0, r0, 1, trampoline, trapframe);
      }
    }

    /** The trampoline, n == 0, or the trapframe, n == 1. */
    method BuildNext(root: nat, ghost p0: seq<Page>, ghost r0: seq<Role>, ghost n: nat, va: nat, frame: nat,
                     perm: Flags,
                     ghost trampoline: nat, ghost trapframe: nat)
      returns (ok: bool)
      requires Valid() && n < 2 && Built(p0, r0, m.pages, role, root, n, trampoline, trapframe)
      requires if n == 0 then va == TRAMPOLINE && frame == trampoline && perm == TRAMPOLINE_PERM
               else va == TRAPFRAME && frame == trapframe && perm == TRAPFRAME_PERM
      modifies this
      ensures Valid() && Built(p0, r0, m.pages, role, root, if ok then n + 1 else n, trampoline, trapframe)
      ensures if ok then |chain| + 2 >= |old(chain)| else |old(chain)| < 2
    {
      TopPages();
      VpIsPage(va);
      ok := MapTop(root, va, frame, perm);
      BuiltMap(p0, r0, old(m).pages, old(role), m.pages, role, root, n, trampoline, trapframe, ok);
    }

    /** proc_pagetable without memory: unmap the n pages mapped so far and free the tables. */
    method Abandon(root: nat, ghost p0: seq<Page>, ghost r0: seq<Role>, n: nat, ghost trampoline: nat,
                   ghost trapframe: nat)
      returns (zero: nat)
      requires Valid() && Rooted(r0) && n < 2 && Built(p0, r0, m.pages, role, root, n, trampoline, trapframe)
      modifies this
      ensures Valid() && zero == 0 && role == r0 && SameMaps(p0, m.pages, r0)
    {
      var panic;
      if n == 1 {
        ghost var p1, r1 := m.pages, role;
        TopPages();
        panic := Uvmunmap(root, TRAMPOLINE, 1, false);
        ForeignOnly(p1, r1, m.pages, role, root, USER_PAGES + 1, 1);
        BuiltUnmap(p0, r0, p1, r1, m.pages, root, trampoline, trapframe);
      }
      ghost var p2, r2 := m.pages, role;
      panic := Uvmfree(root, 0);
      BuiltFreed(p0, r0, p2, r2, m.pages, role, root, 0, trampoline, trapframe);
      return 0;
    }

    /** proc_freepagetable: drop the trampoline and the trapframe, then free the rest. */
    method ProcFreepagetable(root: nat, sz: nat) returns (panic: bool)
      requires Valid() && ProcOk(m.pages, role, root, sz)
      modifies this
      ensures !panic && Valid() && Returned(old(m).pages, old(role), m.pages, role, root)
    {
      ghost var p0, r0 := m.pages, role;
      DropForeign(root, sz);
      ghost var p1 := m.pages;
      panic := Uvmfree(root, sz);
      ReturnedAfter(p0, p1, r0, m.pages, role, root);
    }

    /** Unmap the two pages above user memory. */
    method DropForeign(root: nat, ghost sz: nat)
      requires Valid() && ProcOk(m.pages, role, root, sz)
      modifies this
      ensures Valid() && role == old(role) && Unmaps(old(m).pages, m.pages, role, root, USER_PAGES, 2)
      ensures forall f :: 0 <= f < |role| && Holds(role[f]) ==> m.pages[f] == old(m).pages[f]
      ensures forall vp :: IsVp(vp) && Leaf(m.pages, root, vp) != NO_PTE ==> Num(vp) < PagesUp(sz)
    {
      ghost var p0 := m.pages;
      TopPages();
      var panic := Uvmunmap(root, TRAMPOLINE, 1, false);
      ghost var p1, r1 := m.pages, role;
      ForeignOnly(p0, old(role), p1, r1, root, USER_PAGES + 1, 1);
      panic := Uvmunmap(root, TRAPFRAME, 1, false);
      ForeignOnly(p1, r1, m.pages, role, root, USER_PAGES, 1);
      UnmapBoth(p0, p1, m.pages, role, root);
      OnlyUserLeft(p0, m.pages, role, root, sz);
    }
  }
}
