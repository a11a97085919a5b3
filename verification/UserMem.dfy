/** User memory as bytes, and what growing, copying and touching it preserve. */
module UserMem {
  import opened Blocks
  import opened PageTable
  import opened VmSpec

  // Growth by a range of pages.

  /** Only pages a .. a + n of root may be mapped differently, and they only gained pages
      that were free. */
  ghost predicate NewRange(p0: seq<Page>, r0: seq<Role>, p: seq<Page>, r: seq<Role>, root: nat, a: nat, n: nat) {
    && NewRoles(p0, r0, p, r, root, a, n)
    && forall q, vp :: 0 <= q < |r0| && r0[q].Root? && IsVp(vp) && !(q == root && InRange(vp, a, n)) ==>
         Leaf(p, q, vp) == Leaf(p0, q, vp)
  }

  lemma RangeStart(p: seq<Page>, r: seq<Role>, root: nat, a: nat)
    requires |p| == |r|
    ensures NewRange(p, r, p, r, root, a, 0)
  {
  }

  lemma RangeQuiet(p0: seq<Page>, r0: seq<Role>, p1: seq<Page>, r1: seq<Role>, p2: seq<Page>, r2: seq<Role>, root: nat,
                   a: nat, k: nat)
    requires NewRange(p0, r0, p1, r1, root, a, k) && Quiet(p1, r1, p2, r2, root)
    ensures NewRange(p0, r0, p2, r2, root, a, k)
  {
    forall q, vp | 0 <= q < |r0| && r0[q].Root? && IsVp(vp) && !(q == root && InRange(vp, a, k))
      ensures Leaf(p2, q, vp) == Leaf(p0, q, vp)
    {
      assert r1[q].Root? && SameMap(p1, p2, q);
    }
  }

  lemma RangeAdds(p0: seq<Page>, r0: seq<Role>, p1: seq<Page>, r1: seq<Role>, p2: seq<Page>, r2: seq<Role>, root: nat,
                  a: nat, k: nat,
                  flags: Flags, bytes: PageBytes)
    requires NewRange(p0, r0, p1, r1, root, a, k) && Adds(p1, r1, p2, r2, root, a + k, flags, bytes)
    ensures NewRange(p0, r0, p2, r2, root, a, k + 1)
  {
    forall q, vp | 0 <= q < |r0| && r0[q].Root? && IsVp(vp) && !(q == root && InRange(vp, a, k + 1))
      ensures Leaf(p2, q, vp) == Leaf(p0, q, vp)
    {
      assert r1[q].Root?;
    }
  }

  /** No page of a fresh range has an owner there. */
  lemma NoUsers(pages: seq<Page>, role: seq<Role>, root: nat, a: nat, n: nat, f: nat)
    requires Inv(pages, role) && IsRoot(role, root) && Fresh(pages, root, a, n) && f < |role|
    ensures !(role[f].User? && role[f].r == root && InRange(role[f].vp, a, n))
  {
    assert Earned(pages, role, f);
  }

  /** Growth by n pages undone by unmapping them: only tables remain, no page is lost. */
  lemma RangeUndo(p0: seq<Page>, r0: seq<Role>, p1: seq<Page>, r1: seq<Role>, p2: seq<Page>, r2: seq<Role>, root: nat,
                  a: nat, n: nat)
    requires Inv(p0, r0) && IsRoot(r0, root) && Fresh(p0, root, a, n)
    requires NewRange(p0, r0, p1, r1, root, a, n)
    requires Unmaps(p1, p2, r1, root, a, n) && UnmapRoles(p1, r1, p2, r2, root, a, n, true)
    ensures Quiet(p0, r0, p2, r2, root)
  {
    forall q, vp | 0 <= q < |r0| && r0[q].Root? && IsVp(vp)
      ensures Leaf(p2, q, vp) == Leaf(p0, q, vp)
    {
      assert r1[q].Root?;
    }
    forall f | 0 <= f < |r0|
      ensures r2[f] == r0[f] || NewTableRole(r0[f], r2[f], root)
      ensures Holds(r0[f]) ==> p2[f] == p0[f]
    {
      NoUsers(p0, r0, root, a, n, f);
      if r0[f].User? {
        assert Earned(p0, r0, f);
      }
    }
  }

  lemma PagesUpMonotone(a: nat, b: nat)
    requires a <= b
    ensures PagesUp(a) <= PagesUp(b) && PgRoundUp(a) <= PgRoundUp(b)
    ensures PgRoundUp(a) % PGSIZE == 0 && PgRoundUp(a) / PGSIZE == PagesUp(a) == PagesUp(PgRoundUp(a))
    ensures b <= TRAPFRAME ==> PagesUp(b) <= USER_PAGES
  {
  }

  lemma PageBelow(k: nat, sz: nat)
    requires k * PGSIZE < sz <= TRAPFRAME
    ensures k < PagesUp(sz) && k < USER_PAGES && k * PGSIZE / PGSIZE == k == PagesUp(k * PGSIZE)
            && k * PGSIZE % PGSIZE == 0
  {
  }

  lemma GrowFresh(p0: seq<Page>, r0: seq<Role>, p1: seq<Page>, r1: seq<Role>, root: nat, a: nat, k: nat, n: nat)
    requires NewRange(p0, r0, p1, r1, root, a, k) && IsRoot(r0, root) && Fresh(p0, root, a, k) && k < n
             && a + k < USER_PAGES
    ensures Leaf(p1, root, VpOf((a + k) * PGSIZE)) != NO_PTE ==> !Fresh(p0, root, a, n)
    ensures Leaf(p1, root, VpOf((a + k) * PGSIZE)) == NO_PTE ==> Fresh(p0, root, a, k + 1)
  {
    var vp := VpOf((a + k) * PGSIZE);
    VpIsPage((a + k) * PGSIZE);
    assert InRange(vp, a, n);
    forall v | InRange(v, a, k + 1)
      ensures v == vp || InRange(v, a, k)
    {
      if Num(v) == Num(vp) {
        NumInjective(v, vp);
      }
    }
  }

  // Bytes.

  /** Byte w of a page as the user of `root` sees it; unmapped pages read as zero. */
  function Seen(pages: seq<Page>, root: nat, vp: Vp, w: nat): Byte
    requires IsVp(vp) && w < PGSIZE
  {
    var pte := Leaf(pages, root, vp);
    if V(pte) && pte.frame < |pages| && pages[pte.frame].Data? then pages[pte.frame].bytes[w] else 0
  }

  /** All user bytes of root look the same. */
  ghost predicate SameSeen(pages: seq<Page>, pages': seq<Page>, root: nat) {
    forall vp, w :: IsUser(vp) && 0 <= w < PGSIZE ==> Seen(pages', root, vp, w) == Seen(pages, root, vp, w)
  }

  /** The page behind a user mapping. */
  lemma UserPage(pages: seq<Page>, role: seq<Role>, root: nat, vp: Vp)
    requires Inv(pages, role) && IsRoot(role, root) && IsUser(vp) && Leaf(pages, root, vp) != NO_PTE
    ensures var pte := Leaf(pages, root, vp);
            V(pte) && pte.frame < |pages| == |role| && role[pte.frame] == User(root, vp) && pages[pte.frame].Data?
  {
    Path(pages, role, root, vp);
    var t := PteAt(pages, PteAt(pages, root, vp.i2).frame, vp.i1).frame;
    assert DownAt(pages, role, t, vp.i0);
  }

  lemma QuietSeen(p0: seq<Page>, r0: seq<Role>, p: seq<Page>, r: seq<Role>, root: nat, q: nat)
    requires Inv(p0, r0) && IsRoot(r0, q) && Quiet(p0, r0, p, r, root)
    ensures SameSeen(p0, p, q)
  {
    forall vp, w | IsUser(vp) && 0 <= w < PGSIZE
      ensures Seen(p, q, vp, w) == Seen(p0, q, vp, w)
    {
      assert SameMap(p0, p, q);
      if Leaf(p0, q, vp) != NO_PTE {
        UserPage(p0, r0, q, vp);
      }
    }
  }

  /** Pages that keep their mapping keep their bytes. */
  lemma RangeSeen(p0: seq<Page>, r0: seq<Role>, p: seq<Page>, r: seq<Role>, root: nat, a: nat, n: nat, q: nat, vp: Vp)
    requires Inv(p0, r0) && IsRoot(r0, q) && IsUser(vp) && NewRange(p0, r0, p, r, root, a, n)
             && !(q == root && InRange(vp, a, n))
    ensures Leaf(p, q, vp) == Leaf(p0, q, vp)
    ensures forall w :: 0 <= w < PGSIZE ==> Seen(p, q, vp, w) == Seen(p0, q, vp, w)
  {
    if Leaf(p0, q, vp) != NO_PTE {
      UserPage(p0, r0, q, vp);
    }
  }

  /** The range holds zeroed pages with the given flags. */
  ghost predicate Zeroed(p: seq<Page>, root: nat, a: nat, n: nat, flags: Flags) {
    forall vp :: InRange(vp, a, n) ==> Holding(p, Leaf(p, root, vp), flags, Filled(0))
  }

  lemma ZeroedMore(p1: seq<Page>, r1: seq<Role>, p2: seq<Page>, r2: seq<Role>, root: nat, a: nat, k: nat, flags: Flags)
    requires Inv(p1, r1) && IsRoot(r1, root) && Zeroed(p1, root, a, k, flags) && a + k < USER_PAGES
    requires Adds(p1, r1, p2, r2, root, a + k, flags, Filled(0))
    ensures Zeroed(p2, root, a, k + 1, flags)
  {
    forall vp | InRange(vp, a, k + 1)
      ensures Holding(p2, Leaf(p2, root, vp), flags, Filled(0))
    {
      if Num(vp) < a + k {
        UserPage(p1, r1, root, vp);
      }
    }
  }

  lemma ZeroedQuiet(p1: seq<Page>, r1: seq<Role>, p2: seq<Page>, r2: seq<Role>, root: nat, a: nat, k: nat, flags: Flags)
    requires Inv(p1, r1) && IsRoot(r1, root) && Zeroed(p1, root, a, k, flags) && a + k <= USER_PAGES
    requires Quiet(p1, r1, p2, r2, root)
    ensures Zeroed(p2, root, a, k, flags)
  {
    forall vp | InRange(vp, a, k)
      ensures Holding(p2, Leaf(p2, root, vp), flags, Filled(0))
    {
      assert SameMap(p1, p2, root);
      UserPage(p1, r1, root, vp);
    }
  }

  /** n zeroed pages added from page a on, where nothing was mapped. */
  ghost predicate Grown(p0: seq<Page>, r0: seq<Role>, p: seq<Page>, r: seq<Role>, root: nat, a: nat, n: nat,
                        flags: Flags) {
    Fresh(p0, root, a, n) && NewRange(p0, r0, p, r, root, a, n) && Zeroed(p, root, a, n, flags)
  }

  /** What fork gives the child for a page: nothing for an unmapped page, else a page of
      its own with the same flags and bytes. */
  predicate Copied(p0: seq<Page>, parent: nat, p: seq<Page>, child: nat, vp: Vp)
    requires IsVp(vp)
  {
    var pte := Leaf(p0, parent, vp);
    if pte == NO_PTE then Leaf(p, child, vp) == NO_PTE
    else pte.frame < |p0| && p0[pte.frame].Data? && Holding(p, Leaf(p, child, vp), pte.flags, p0[pte.frame].bytes)
  }

  ghost predicate Copies(p0: seq<Page>, parent: nat, p: seq<Page>, child: nat, n: nat) {
    forall vp :: InRange(vp, 0, n) ==> Copied(p0, parent, p, child, vp)
  }

  lemma CopiedStays(p0: seq<Page>, parent: nat, p1: seq<Page>, r1: seq<Role>, p2: seq<Page>, r2: seq<Role>, child: nat,
                    a: nat,
                    flags: Flags, bytes: PageBytes, vp: Vp)
    requires Inv(p1, r1) && IsRoot(r1, child) && IsUser(vp) && Num(vp) != a && Copied(p0, parent, p1, child, vp)
    requires Adds(p1, r1, p2, r2, child, a, flags, bytes)
    ensures Copied(p0, parent, p2, child, vp)
  {
    if Leaf(p1, child, vp) != NO_PTE {
      UserPage(p1, r1, child, vp);
    }
  }

  /** A fork in progress: the first k pages are copied, the parent is as it was. */
  ghost predicate Forked(p0: seq<Page>, r0: seq<Role>, p: seq<Page>, r: seq<Role>, parent: nat, child: nat, k: nat) {
    NewRange(p0, r0, p, r, child, 0, k) && Copies(p0, parent, p, child, k)
  }

  /** The parent's page, unchanged since the fork began. */
  lemma ParentPage(p0: seq<Page>, r0: seq<Role>, p1: seq<Page>, r1: seq<Role>, parent: nat, child: nat, k: nat, vp: Vp)
    requires Inv(p0, r0) && IsRoot(r0, parent) && parent != child && IsUser(vp) && NewRange(p0, r0, p1, r1, child, 0, k)
    ensures Leaf(p1, parent, vp) == Leaf(p0, parent, vp)
    ensures var pte := Leaf(p0, parent, vp);
            pte != NO_PTE ==>
                  V(pte) && pte.frame < |p0| == |p1| && p0[pte.frame].Data? && p1[pte.frame] == p0[pte.frame]
  {
    if Leaf(p0, parent, vp) != NO_PTE {
      UserPage(p0, r0, parent, vp);
    }
  }

  lemma ForkSkip(p0: seq<Page>, r0: seq<Role>, p: seq<Page>, r: seq<Role>, parent: nat, child: nat, k: nat, vp: Vp)
    requires Forked(p0, r0, p, r, parent, child, k) && IsVp(vp) && Num(vp) == k && IsRoot(r0, child)
    requires Leaf(p0, parent, vp) == NO_PTE && Leaf(p0, child, vp) == NO_PTE
    ensures Forked(p0, r0, p, r, parent, child, k + 1)
  {
    forall v | InRange(v, 0, k + 1)
      ensures Copied(p0, parent, p, child, v)
    {
      if Num(v) == k {
        NumInjective(v, vp);
      }
    }
  }

  lemma ForkMore(p0: seq<Page>, r0: seq<Role>, p1: seq<Page>, r1: seq<Role>, p2: seq<Page>, r2: seq<Role>, parent: nat,
                 child: nat,
                 k: nat, vp: Vp)
    requires Forked(p0, r0, p1, r1, parent, child, k) && Inv(p1, r1) && IsRoot(r1, child) && IsUser(vp) && Num(vp) == k
    requires var pte := Leaf(p0, parent, vp);
             && pte != NO_PTE && pte.frame < |p0| && p0[pte.frame].Data?
             && Adds(p1, r1, p2, r2, child, k, pte.flags, p0[pte.frame].bytes)
    ensures Forked(p0, r0, p2, r2, parent, child, k + 1)
  {
    var pte := Leaf(p0, parent, vp);
    RangeAdds(p0, r0, p1, r1, p2, r2, child, 0, k, pte.flags, p0[pte.frame].bytes);
    forall v | InRange(v, 0, k + 1)
      ensures Copied(p0, parent, p2, child, v)
    {
      if Num(v) == k {
        NumInjective(v, vp);
      } else {
        CopiedStays(p0, parent, p1, r1, p2, r2, child, k, pte.flags, p0[pte.frame].bytes, v);
      }
    }
  }

  /** The child sees what the parent sees. */
  lemma ForkSees(p0: seq<Page>, r0: seq<Role>, p: seq<Page>, r: seq<Role>, parent: nat, child: nat, n: nat, vp: Vp,
                 w: nat)
    requires Inv(p0, r0) && Inv(p, r) && IsRoot(r0, parent) && IsRoot(r0, child) && parent != child
             && Forked(p0, r0, p, r, parent, child, n)
    requires IsUser(vp) && Num(vp) < n && w < PGSIZE
    ensures Seen(p, child, vp, w) == Seen(p, parent, vp, w) == Seen(p0, parent, vp, w)
  {
    RangeSeen(p0, r0, p, r, child, 0, n, parent, vp);
    assert Copied(p0, parent, p, child, vp);
    if Leaf(p0, parent, vp) != NO_PTE {
      UserPage(p0, r0, parent, vp);
    }
  }

  // Faulting pages in.

  /** A process of size sz: its user pages lie below the rounded size, and the pages from
      TRAPFRAME up are not the user's. */
  ghost predicate ProcOk(pages: seq<Page>, role: seq<Role>, root: nat, sz: nat) {
    && IsRoot(role, root) && sz <= TRAPFRAME
    && forall vp :: IsVp(vp) && Leaf(pages, root, vp) != NO_PTE ==>
         if IsUser(vp) then Num(vp) < PagesUp(sz) else Num(vp) * PGSIZE < MAXVA && !Leaf(pages, root, vp).flags.u
  }

  /** Lazy allocation for root: all bytes of all processes look the same, existing
      mappings stay, and new pages come from free ones. */
  ghost predicate Lazily(p0: seq<Page>, r0: seq<Role>, p: seq<Page>, r: seq<Role>, root: nat) {
    && NewRange(p0, r0, p, r, root, 0, USER_PAGES)
    && (forall q :: 0 <= q < |r0| && r0[q].Root? ==> SameSeen(p0, p, q))
    && Keeps(p0, p, root)
  }

  lemma QuietLazily(p0: seq<Page>, r0: seq<Role>, p: seq<Page>, r: seq<Role>, root: nat)
    requires Inv(p0, r0) && IsRoot(r0, root) && Quiet(p0, r0, p, r, root)
    ensures Lazily(p0, r0, p, r, root)
  {
    forall q | 0 <= q < |r0| && r0[q].Root?
      ensures SameMap(p0, p, q) && SameSeen(p0, p, q)
    {
      QuietSeen(p0, r0, p, r, root, q);
    }
  }

  lemma AddsSeen(p0: seq<Page>, r0: seq<Role>, p: seq<Page>, r: seq<Role>, root: nat, va: nat, flags: Flags, q: nat,
                 vp: Vp, w: nat)
    requires Inv(p0, r0) && IsRoot(r0, root) && va < TRAPFRAME && Leaf(p0, root, VpOf(va)) == NO_PTE
    requires Adds(p0, r0, p, r, root, va / PGSIZE, flags, Filled(0)) && IsRoot(r0, q) && IsUser(vp) && w < PGSIZE
    ensures Seen(p, q, vp, w) == Seen(p0, q, vp, w)
  {
    VpIsPage(va);
    if q == root && Num(vp) == va / PGSIZE {
      NumInjective(vp, VpOf(va));
    } else if Leaf(p0, q, vp) != NO_PTE {
      UserPage(p0, r0, q, vp);
    }
  }

  lemma AddsKeeps(p0: seq<Page>, r0: seq<Role>, p: seq<Page>, r: seq<Role>, root: nat, va: nat, flags: Flags)
    requires IsRoot(r0, root) && va < TRAPFRAME && Leaf(p0, root, VpOf(va)) == NO_PTE
    requires Adds(p0, r0, p, r, root, va / PGSIZE, flags, Filled(0)) && flags.v && flags.u && flags.w
    ensures Keeps(p0, p, root)
  {
    VpIsPage(va);
    forall vp | IsVp(vp)
      ensures Leaf(p, root, vp) == Leaf(p0, root, vp) || (Leaf(p0, root, vp) == NO_PTE && ForUser(Leaf(p, root, vp)))
    {
      if Num(vp) == va / PGSIZE {
        NumInjective(vp, VpOf(va));
      }
    }
  }

  lemma AddsSame(p0: seq<Page>, r0: seq<Role>, p: seq<Page>, r: seq<Role>, root: nat, va: nat, flags: Flags, q: nat)
    requires Inv(p0, r0) && IsRoot(r0, root) && va < TRAPFRAME && Leaf(p0, root, VpOf(va)) == NO_PTE
    requires Adds(p0, r0, p, r, root, va / PGSIZE, flags, Filled(0)) && IsRoot(r0, q)
    ensures SameSeen(p0, p, q)
  {
    forall vp, w | IsUser(vp) && 0 <= w < PGSIZE
      ensures Seen(p, q, vp, w) == Seen(p0, q, vp, w)
    {
      AddsSeen(p0, r0, p, r, root, va, flags, q, vp, w);
    }
  }

  lemma AddsRange(p0: seq<Page>, r0: seq<Role>, p: seq<Page>, r: seq<Role>, root: nat, va: nat, flags: Flags)
    requires Adds(p0, r0, p, r, root, va / PGSIZE, flags, Filled(0)) && va < TRAPFRAME
    ensures NewRange(p0, r0, p, r, root, 0, USER_PAGES)
  {
    VpIsPage(va);
  }

  /** A zeroed page in an unmapped place changes no byte that anyone sees. */
  lemma AddsLazily(p0: seq<Page>, r0: seq<Role>, p: seq<Page>, r: seq<Role>, root: nat, va: nat, flags: Flags)
    requires Inv(p0, r0) && IsRoot(r0, root) && va < TRAPFRAME && Leaf(p0, root, VpOf(va)) == NO_PTE
    requires Adds(p0, r0, p, r, root, va / PGSIZE, flags, Filled(0)) && flags.v && flags.u && flags.w
    ensures Lazily(p0, r0, p, r, root)
  {
    forall q | 0 <= q < |r0| && r0[q].Root?
      ensures SameSeen(p0, p, q)
    {
      AddsSame(p0, r0, p, r, root, va, flags, q);
    }
    AddsKeeps(p0, r0, p, r, root, va, flags);
    AddsRange(p0, r0, p, r, root, va, flags);
  }

  lemma LazilyTwice(p0: seq<Page>, r0: seq<Role>, p1: seq<Page>, r1: seq<Role>, p2: seq<Page>, r2: seq<Role>, root: nat)
    requires Lazily(p0, r0, p1, r1, root) && Lazily(p1, r1, p2, r2, root)
    ensures Lazily(p0, r0, p2, r2, root)
  {
    forall q | 0 <= q < |r0| && r0[q].Root?
      ensures SameSeen(p0, p2, q)
    {
      assert r1[q].Root? && SameSeen(p0, p1, q) && SameSeen(p1, p2, q);
    }
    forall q, vp | 0 <= q < |r0| && r0[q].Root? && IsVp(vp) && !(q == root && InRange(vp, 0, USER_PAGES))
      ensures Leaf(p2, q, vp) == Leaf(p0, q, vp)
    {
      assert r1[q].Root?;
    }
  }

  /** Growth below the size keeps the process well-formed. */
  lemma LazyProc(p0: seq<Page>, r0: seq<Role>, p: seq<Page>, r: seq<Role>, root: nat, sz: nat, va: nat, flags: Flags)
    requires ProcOk(p0, r0, root, sz) && va < sz && Adds(p0, r0, p, r, root, va / PGSIZE, flags, Filled(0))
    ensures ProcOk(p, r, root, sz)
  {
  }

  lemma QuietProc(p0: seq<Page>, r0: seq<Role>, p: seq<Page>, r: seq<Role>, root: nat, sz: nat, q: nat)
    requires ProcOk(p0, r0, q, sz) && Quiet(p0, r0, p, r, root)
    ensures ProcOk(p, r, q, sz)
  {
    assert SameMap(p0, p, q);
  }

  // Runs of bytes.

  function SeenAt(pages: seq<Page>, root: nat, a: nat): Byte {
    Seen(pages, root, VpOf(a), a % PGSIZE)
  }

  /** n bytes of user memory from address a on. */
  function SeenBytes(pages: seq<Page>, root: nat, a: nat, n: nat): (s: seq<Byte>)
    ensures |s| == n
  {
    seq<Byte>(n, j requires 0 <= j < n => SeenAt(pages, root, a + j))
  }

  lemma SeenMore(pages: seq<Page>, root: nat, a: nat, k: nat, n: nat)
    ensures SeenBytes(pages, root, a, k) + SeenBytes(pages, root, a + k, n) == SeenBytes(pages, root, a, k + n)
  {
  }

  lemma SamePage(va: nat, j: nat)
    requires va % PGSIZE + j < PGSIZE && va < MAXVA
    ensures VpOf(va + j) == VpOf(va) && (va + j) % PGSIZE == va % PGSIZE + j
  {
    var q := va / PGSIZE;
    assert va + j == q * PGSIZE + (va % PGSIZE + j);
    assert (va + j) / PGSIZE == q;
    VpIsPage(va);
    VpIsPage(va + j);
    NumInjective(VpOf(va), VpOf(va + j));
  }

  /** What memmove reads from a mapped page is what the user sees there. */
  lemma PieceSeen(pages: seq<Page>, root: nat, va: nat, n: nat)
    requires va < MAXVA && va % PGSIZE + n <= PGSIZE
    requires var pte := Leaf(pages, root, VpOf(va)); V(pte) && pte.frame < |pages| && pages[pte.frame].Data?
    ensures pages[Leaf(pages, root, VpOf(va)).frame].bytes[va % PGSIZE..va % PGSIZE + n]
            == SeenBytes(pages, root, va, n)
  {
    var s := SeenBytes(pages, root, va, n);
    var bytes := pages[Leaf(pages, root, VpOf(va)).frame].bytes[va % PGSIZE..va % PGSIZE + n];
    forall j | 0 <= j < n
      ensures bytes[j] == s[j]
    {
      SamePage(va, j);
      assert s[j] == SeenAt(pages, root, va + j);
    }
  }

  lemma SameSeenAt(p0: seq<Page>, p: seq<Page>, root: nat, a: nat)
    requires SameSeen(p0, p, root) && a < TRAPFRAME
    ensures SeenAt(p, root, a) == SeenAt(p0, root, a)
  {
    VpIsPage(a);
    assert IsUser(VpOf(a)) && a % PGSIZE < PGSIZE;
  }

  lemma SameSeenBytes(p0: seq<Page>, p: seq<Page>, root: nat, a: nat, n: nat)
    requires SameSeen(p0, p, root) && a + n <= TRAPFRAME
    ensures SeenBytes(p, root, a, n) == SeenBytes(p0, root, a, n)
  {
    var s, t := SeenBytes(p, root, a, n), SeenBytes(p0, root, a, n);
    forall j | 0 <= j < n
      ensures s[j] == t[j]
    {
      SameSeenAt(p0, p, root, a + j);
    }
  }

  /** Mapped, and for the user. */
  predicate Readable(pages: seq<Page>, root: nat, vp: Vp)
    requires IsVp(vp)
  {
    V(Leaf(pages, root, vp)) && Leaf(pages, root, vp).flags.u
  }

  predicate ReadablePage(pages: seq<Page>, root: nat, pn: nat) {
    pn * PGSIZE < MAXVA && Readable(pages, root, VpOf(pn * PGSIZE))
  }

  /** A user-accessible page of a process lies below its rounded size. */
  lemma BelowSize(pages: seq<Page>, role: seq<Role>, root: nat, sz: nat, va: nat)
    requires Inv(pages, role) && ProcOk(pages, role, root, sz) && va < MAXVA && Readable(pages, root, VpOf(va))
    ensures va < PgRoundUp(sz) <= TRAPFRAME
    ensures var f := Leaf(pages, root, VpOf(va)).frame;
            f < |role| == |pages| && role[f] == User(root, VpOf(va)) && pages[f].Data?
  {
    VpIsPage(va);
    PagesUpMonotone(sz, TRAPFRAME);
    assert IsUser(VpOf(va));
    UserPage(pages, role, root, VpOf(va));
  }

  /** Page pn holds one of the n bytes from a on. */
  predicate HasByte(a: nat, n: nat, pn: nat) {
    n > 0 && a < (pn + 1) * PGSIZE && pn * PGSIZE < a + n
  }

  ghost predicate AllReadable(pages: seq<Page>, root: nat, a: nat, n: nat) {
    forall pn :: HasByte(a, n, pn) ==> ReadablePage(pages, root, pn)
  }

  /** A copy has k more bytes to go from va on, in page pn; it does n of them, all or up to
      the end of the page. */
  predicate PieceOk(va: nat, n: nat, k: nat, pn: nat) {
    0 < n <= k && pn * PGSIZE <= va && va + n <= (pn + 1) * PGSIZE && (n < k ==> va + n == (pn + 1) * PGSIZE)
  }

  lemma PageSplit(va: nat, va0: nat)
    requires va0 == va / PGSIZE * PGSIZE
    ensures va0 <= va < va0 + PGSIZE && va0 % PGSIZE == 0 && va0 / PGSIZE == va / PGSIZE && va % PGSIZE == va - va0
  {
  }

  /** An address and the start of its page have the same entry. */
  lemma PageStart(va: nat, va0: nat)
    requires va < MAXVA && va0 == va / PGSIZE * PGSIZE
    ensures va0 <= va && va0 % PGSIZE == 0 && VpOf(va0) == VpOf(va)
  {
    PageSplit(va, va0);
    SamePage(va0, va - va0);
  }

  lemma BelowRoundUp(va0: nat, sz: nat)
    requires va0 % PGSIZE == 0 && va0 < PgRoundUp(sz)
    ensures va0 + PGSIZE <= PgRoundUp(sz)
  {
    var q := va0 / PGSIZE;
    assert va0 == q * PGSIZE;
    assert q < PagesUp(sz);
  }

  lemma PieceOfPage(va: nat, pn: nat, sz: nat, n: nat)
    requires pn * PGSIZE <= va && va + n <= (pn + 1) * PGSIZE && pn * PGSIZE < PgRoundUp(sz) <= TRAPFRAME
    ensures va + n <= PgRoundUp(sz)
    ensures IsUser(VpOf(pn * PGSIZE)) && va == Num(VpOf(pn * PGSIZE)) * PGSIZE + (va - pn * PGSIZE)
  {
    BelowRoundUp(pn * PGSIZE, sz);
    VpIsPage(pn * PGSIZE);
  }

  /** Page pn of the process (root, sz) is in frame f. */
  ghost predicate Behind(pages: seq<Page>, role: seq<Role>, root: nat, sz: nat, pn: nat, f: nat) {
    && pn * PGSIZE < PgRoundUp(sz) <= TRAPFRAME && f < |pages| == |role|
    && var vp := VpOf(pn * PGSIZE);
    && V(Leaf(pages, root, vp)) && f == Leaf(pages, root, vp).frame && role[f] == User(root, vp) && pages[f].Data?
  }

  lemma PieceFromPage(p0: seq<Page>, p: seq<Page>, role: seq<Role>, root: nat, sz: nat, va: nat, pn: nat, n: nat,
                      f: nat)
    requires SameSeen(p0, p, root) && 0 < n && pn * PGSIZE <= va && va + n <= (pn + 1) * PGSIZE
    requires Behind(p, role, root, sz, pn, f)
    ensures va + n <= PgRoundUp(sz)
    ensures p[f].bytes[va - pn * PGSIZE..va - pn * PGSIZE + n] == SeenBytes(p0, root, va, n)
  {
    PieceBelow(va, pn, sz, n);
    PieceInPage(va, pn);
    PieceSeen(p, root, va, n);
    SameSeenBytes(p0, p, root, va, n);
  }

  lemma PieceBelow(va: nat, pn: nat, sz: nat, n: nat)
    requires va + n <= (pn + 1) * PGSIZE && pn * PGSIZE < PgRoundUp(sz)
    ensures va + n <= PgRoundUp(sz)
  {
    BelowRoundUp(pn * PGSIZE, sz);
  }

  lemma PieceInPage(va: nat, pn: nat)
    requires pn * PGSIZE <= va < (pn + 1) * PGSIZE && pn * PGSIZE < MAXVA
    ensures va % PGSIZE == va - pn * PGSIZE && VpOf(va) == VpOf(pn * PGSIZE)
  {
    SamePage(pn * PGSIZE, va - pn * PGSIZE);
  }

  // Writing user memory.

  function PutBytes(b: PageBytes, lo: nat, data: seq<Byte>): PageBytes
    requires lo + |data| <= PGSIZE
  {
    b[..lo] + data + b[lo + |data|..]
  }

  /** src has been written at address dst of root; nothing else looks different. */
  ghost predicate Wrote(p0: seq<Page>, r0: seq<Role>, p: seq<Page>, r: seq<Role>, root: nat, dst: nat, src: seq<Byte>) {
    && |p0| == |r0| == |p| == |r|
    && (forall q :: OthersSee(p0, r0, p, r, root, q))
    && forall vp, w :: WroteAt(p0, p, root, dst, src, vp, w)
  }

  ghost predicate OthersSee(p0: seq<Page>, r0: seq<Role>, p: seq<Page>, r: seq<Role>, root: nat, q: nat) {
    IsRoot(r0, q) ==> IsRoot(r, q) && (q != root ==> SameSeen(p0, p, q))
  }

  predicate WroteAt(p0: seq<Page>, p: seq<Page>, root: nat, dst: nat, src: seq<Byte>, vp: Vp, w: nat) {
    IsUser(vp) && w < PGSIZE ==> Seen(p, root, vp, w) == SeenAfter(p0, root, dst, src, vp, w)
  }

  function SeenAfter(p0: seq<Page>, root: nat, dst: nat, src: seq<Byte>, vp: Vp, w: nat): Byte
    requires IsVp(vp) && w < PGSIZE
  {
    var a := Num(vp) * PGSIZE + w;
    if dst <= a < dst + |src| then src[a - dst] else Seen(p0, root, vp, w)
  }

  lemma WroteNothing(p: seq<Page>, r: seq<Role>, root: nat, dst: nat)
    requires |p| == |r|
    ensures Wrote(p, r, p, r, root, dst, [])
  {
    assert forall vp, w :: WroteAt(p, p, root, dst, [], vp, w);
  }

  lemma WroteLazily(p0: seq<Page>, r0: seq<Role>, p1: seq<Page>, r1: seq<Role>, p2: seq<Page>, r2: seq<Role>, root: nat,
                    dst: nat, src: seq<Byte>)
    requires Wrote(p0, r0, p1, r1, root, dst, src) && Lazily(p1, r1, p2, r2, root) && IsRoot(r0, root)
    ensures Wrote(p0, r0, p2, r2, root, dst, src)
  {
    forall q: nat
      ensures OthersSee(p0, r0, p2, r2, root, q)
    {
      assert OthersSee(p0, r0, p1, r1, root, q);
      if IsRoot(r0, q) {
        assert r1[q].Root? && SameSeen(p1, p2, q);
      }
    }
    assert OthersSee(p0, r0, p1, r1, root, root) && SameSeen(p1, p2, root);
    forall vp: Vp, w: nat
      ensures WroteAt(p0, p2, root, dst, src, vp, w)
    {
      assert WroteAt(p0, p1, root, dst, src, vp, w);
    }
  }

  /** A store into the page at vp is seen there and nowhere else. */
  lemma StoreSeen(p: seq<Page>, r: seq<Role>, root: nat, vp: Vp, lo: nat, data: seq<Byte>, q: nat, v: Vp, w: nat)
    requires Inv(p, r) && IsRoot(r, root) && IsRoot(r, q) && IsUser(vp) && IsUser(v) && w < PGSIZE
             && lo + |data| <= PGSIZE
    requires Leaf(p, root, vp) != NO_PTE
    ensures var f := Leaf(p, root, vp).frame;
            && f < |p| && p[f].Data?
            && Seen(p[f := Data(PutBytes(p[f].bytes, lo, data))], q, v, w)
               == if q == root && v == vp && lo <= w < lo + |data| then data[w - lo] else Seen(p, q, v, w)
  {
    UserPage(p, r, root, vp);
    var f := Leaf(p, root, vp).frame;
    WriteUser(p, r, f, PutBytes(p[f].bytes, lo, data));
    assert SameMap(p, p[f := Data(PutBytes(p[f].bytes, lo, data))], q);
    if Leaf(p, q, v) != NO_PTE {
      UserPage(p, r, q, v);
    }
  }

  lemma WrotePiece(p0: seq<Page>, r0: seq<Role>, p: seq<Page>, r: seq<Role>, root: nat, dst: nat, src: seq<Byte>,
                   k: nat, end: nat, vp: Vp, lo: nat, f: nat)
    requires Inv(p, r) && IsRoot(r, root) && IsRoot(r0, root) && k <= end <= |src|
             && Wrote(p0, r0, p, r, root, dst, src[..k])
    requires IsUser(vp) && dst + k == Num(vp) * PGSIZE + lo && lo + (end - k) <= PGSIZE
    requires Leaf(p, root, vp) != NO_PTE && f == Leaf(p, root, vp).frame
    ensures f < |p| && p[f].Data?
            && Wrote(p0, r0, p[f := Data(PutBytes(p[f].bytes, lo, src[k..end]))], r, root, dst, src[..end])
  {
    UserPage(p, r, root, vp);
    var data := src[k..end];
    var p2 := p[f := Data(PutBytes(p[f].bytes, lo, data))];
    var some := src[..end];
    forall v: Vp, w: nat
      ensures WroteAt(p0, p2, root, dst, some, v, w)
    {
      if IsUser(v) && w < PGSIZE {
        assert WroteAt(p0, p, root, dst, src[..k], v, w);
        StoreSeen(p, r, root, vp, lo, data, root, v, w);
        if dst + k <= Num(v) * PGSIZE + w < dst + end {
          NumInjective(v, vp);
        }
      }
    }
    forall q: nat
      ensures OthersSee(p0, r0, p2, r, root, q)
    {
      assert OthersSee(p0, r0, p, r, root, q);
      if IsRoot(r0, q) && q != root {
        forall v, w | IsUser(v) && 0 <= w < PGSIZE
          ensures Seen(p2, q, v, w) == Seen(p0, q, v, w)
        {
          StoreSeen(p, r, root, vp, lo, data, q, v, w);
        }
      }
    }
  }

  predicate WritablePage(pages: seq<Page>, root: nat, pn: nat) {
    ReadablePage(pages, root, pn) && Leaf(pages, root, VpOf(pn * PGSIZE)).flags.w
  }

  ghost predicate AllWritable(pages: seq<Page>, root: nat, a: nat, n: nat) {
    forall pn :: HasByte(a, n, pn) ==> WritablePage(pages, root, pn)
  }

  predicate ForUser(pte: Pte) {
    V(pte) && pte.flags.u && pte.flags.w
  }

  /** Mappings that exist stay as they are; new ones are for the user to read and write. */
  ghost predicate Keeps(p0: seq<Page>, p: seq<Page>, root: nat) {
    forall vp :: IsVp(vp) ==>
      Leaf(p, root, vp) == Leaf(p0, root, vp) || (Leaf(p0, root, vp) == NO_PTE && ForUser(Leaf(p, root, vp)))
  }

  /** Below the size but not allocated yet. */
  predicate LazyPage(pages: seq<Page>, root: nat, sz: nat, pn: nat) {
    pn * PGSIZE < MAXVA && pn * PGSIZE < sz && Leaf(pages, root, VpOf(pn * PGSIZE)) == NO_PTE
  }

  /** What copyin or, with `write`, copyout takes: a page the user may access so, or one that
      is to be allocated. */
  predicate Takes(pages: seq<Page>, root: nat, sz: nat, pn: nat, write: bool) {
    (if write then WritablePage(pages, root, pn) else ReadablePage(pages, root, pn)) || LazyPage(pages, root, sz, pn)
  }

  ghost predicate AllTaken(pages: seq<Page>, root: nat, sz: nat, a: nat, n: nat, write: bool) {
    forall pn :: HasByte(a, n, pn) ==> Takes(pages, root, sz, pn, write)
  }

  ghost predicate AllReachable(pages: seq<Page>, root: nat, sz: nat, a: nat, n: nat) {
    AllTaken(pages, root, sz, a, n, false)
  }

  ghost predicate AllOpen(pages: seq<Page>, root: nat, sz: nat, a: nat, n: nat) {
    AllTaken(pages, root, sz, a, n, true)
  }

  lemma TakenMore(pages: seq<Page>, root: nat, sz: nat, a: nat, k: nat, n: nat, pn: nat, write: bool)
    requires AllTaken(pages, root, sz, a, k, write) && Takes(pages, root, sz, pn, write)
    requires pn * PGSIZE <= a + k && a + k + n <= (pn + 1) * PGSIZE
    ensures AllTaken(pages, root, sz, a, k + n, write)
  {
    forall p: nat | HasByte(a, k + n, p)
      ensures Takes(pages, root, sz, p, write)
    {
      assert p == pn || HasByte(a, k, p);
    }
  }

  /** What makes a copy fail at page pn; a page that is to be allocated only if memory is short. */
  predicate Refuses(pages: seq<Page>, root: nat, sz: nat, pn: nat, write: bool, short: bool) {
    && (if write then !WritablePage(pages, root, pn) else !ReadablePage(pages, root, pn))
    && (LazyPage(pages, root, sz, pn) ==> short)
  }

  /** A page taken now was one to take before, since new pages lie below the size; a page
      refused now was no better before. */
  lemma KeptTaken(p0: seq<Page>, p: seq<Page>, root: nat, sz: nat, pn: nat, write: bool)
    requires Keeps(p0, p, root) && pn * PGSIZE < PgRoundUp(sz) <= TRAPFRAME && Takes(p, root, sz, pn, write)
    ensures Takes(p0, root, sz, pn, write)
  {
    WholePages(pn, sz);
    assert Leaf(p, root, VpOf(pn * PGSIZE)) == Leaf(p0, root, VpOf(pn * PGSIZE))
           || Leaf(p0, root, VpOf(pn * PGSIZE)) == NO_PTE;
  }

  lemma WholePages(pn: nat, sz: nat)
    requires pn * PGSIZE < PgRoundUp(sz)
    ensures pn * PGSIZE < sz
  {
  }

  lemma KeptRefused(p0: seq<Page>, p: seq<Page>, root: nat, sz: nat, pn: nat, write: bool, short: bool)
    requires Keeps(p0, p, root) && Refuses(p, root, sz, pn, write, short)
    ensures Refuses(p0, root, sz, pn, write, short)
  {
  }

  /** A copy of len bytes at va has done `done` of them in t rounds, all in pages that it
      takes: all rounds but the first start at a page boundary, pn, and all but the last end
      at one. */
  ghost predicate CopyOk(pages: seq<Page>, root: nat, sz: nat, va: nat, len: nat, done: nat, t: nat, pn: nat,
                         write: bool)
  {
    && AllTaken(pages, root, sz, va, done, write)
    && (t == 0 ==> done == 0) && (t > 0 && done < len ==> (t - 1) * PGSIZE < done && va + done == pn * PGSIZE)
  }

  /** Each of the t rounds has used three of the free0 free pages at most. */
  ghost predicate CopyAfter(pages: seq<Page>, root: nat, sz: nat, va: nat, len: nat, done: nat, write: bool, free0: nat,
                            free: nat, t: nat, pn: nat)
  {
    CopyOk(pages, root, sz, va, len, done, t, pn, write) && free + 3 * t >= free0
  }

  ghost predicate Copying(pages: seq<Page>, root: nat, sz: nat, va: nat, len: nat, done: nat, write: bool, free0: nat,
                          free: nat)
  {
    exists t: nat, pn: nat :: CopyAfter(pages, root, sz, va, len, done, write, free0, free, t, pn)
  }

  lemma CopyStart(pages: seq<Page>, root: nat, sz: nat, va: nat, len: nat, write: bool, free: nat)
    ensures Copying(pages, root, sz, va, len, 0, write, free, free)
  {
    assert CopyAfter(pages, root, sz, va, len, 0, write, free, free, 0, 0);
  }

  lemma CopiedNext(pages: seq<Page>, root: nat, sz: nat, va: nat, len: nat, done: nat, write: bool, n: nat, pn: nat,
                   free0: nat, free: nat, free': nat)
    requires Copying(pages, root, sz, va, len, done, write, free0, free) && done < len && free' + 3 >= free
    requires PieceOk(va + done, n, len - done, pn) && Takes(pages, root, sz, pn, write)
    ensures Copying(pages, root, sz, va, len, done + n, write, free0, free')
  {
    var t: nat, last: nat :| CopyAfter(pages, root, sz, va, len, done, write, free0, free, t, last);
    TakenMore(pages, root, sz, va, done, n, pn, write);
    assert CopyAfter(pages, root, sz, va, len, done + n, write, free0, free', t + 1, pn + 1);
  }

  /** Some page is not for the user; with three free pages for each of the rounds, and three
      more, some page cannot be taken. */
  ghost predicate CopyFails(pages: seq<Page>, root: nat, sz: nat, va: nat, len: nat, free0: nat, rounds: nat,
                            write: bool)
  {
    && (if write then !AllWritable(pages, root, va, len) else !AllReadable(pages, root, va, len))
    && (free0 >= 3 * (rounds + 1) ==> !AllTaken(pages, root, sz, va, len, write))
  }

  /** A copy that is refused a page, when each round has used three free pages at most. */
  lemma CopyRefused(pages: seq<Page>, root: nat, sz: nat, va: nat, len: nat, done: nat, write: bool, pn: nat,
                    free0: nat, free: nat, rounds: nat)
    requires Copying(pages, root, sz, va, len, done, write, free0, free) && done < len && len <= rounds * PGSIZE
    requires pn * PGSIZE <= va + done < (pn + 1) * PGSIZE && Refuses(pages, root, sz, pn, write, free < 3)
    ensures CopyFails(pages, root, sz, va, len, free0, rounds, write) && AllTaken(pages, root, sz, va, done, write)
  {
    var t: nat, last: nat :| CopyAfter(pages, root, sz, va, len, done, write, free0, free, t, last);
    FewRounds(t, rounds);
    assert HasByte(va, len, pn);
  }

  lemma FewRounds(t: nat, rounds: nat)
    requires (t - 1) * PGSIZE < rounds * PGSIZE
    ensures t <= rounds
  {
  }

  lemma CopyDone(pages: seq<Page>, root: nat, sz: nat, va: nat, len: nat, done: nat, write: bool, free0: nat,
                 free: nat)
    requires Copying(pages, root, sz, va, len, done, write, free0, free)
    ensures AllTaken(pages, root, sz, va, done, write)
  {
    var t: nat, last: nat :| CopyAfter(pages, root, sz, va, len, done, write, free0, free, t, last);
  }

  lemma KeptTwice(p0: seq<Page>, p1: seq<Page>, p2: seq<Page>, p3: seq<Page>, root: nat)
    requires Keeps(p0, p1, root) && Keeps(p1, p2, root) && SameMap(p2, p3, root)
    ensures Keeps(p0, p3, root)
  {
  }

  lemma SameProc(p: seq<Page>, p': seq<Page>, r: seq<Role>, root: nat, sz: nat)
    requires ProcOk(p, r, root, sz) && SameMap(p, p', root)
    ensures ProcOk(p', r, root, sz)
  {
  }

  // Resizing.

  /** Memory resized from sz to sz': kept bytes stay, new bytes are zero. */
  ghost predicate Resized(p0: seq<Page>, p: seq<Page>, root: nat, sz: nat, sz': nat) {
    forall vp, w {:trigger Seen(p, root, vp, w)} :: IsUser(vp) && 0 <= w < PGSIZE && Num(vp) < PagesUp(sz') ==>
      Seen(p, root, vp, w) == if Num(vp) < PagesUp(sz) then Seen(p0, root, vp, w) else 0
  }

  /** Beyond its size a process has nothing mapped. */
  lemma FreshBeyond(pages: seq<Page>, role: seq<Role>, root: nat, sz: nat, n: nat)
    requires ProcOk(pages, role, root, sz) && PagesUp(sz) + n <= USER_PAGES
    ensures Fresh(pages, root, PagesUp(sz), n)
  {
  }

  lemma GrownResized(p0: seq<Page>, r0: seq<Role>, p: seq<Page>, r: seq<Role>, root: nat, sz: nat, sz': nat,
                     flags: Flags)
    requires Inv(p0, r0) && ProcOk(p0, r0, root, sz) && sz <= sz' <= TRAPFRAME
             && PagesUp(sz) <= PagesUp(sz') <= USER_PAGES
    requires Grown(p0, r0, p, r, root, PagesUp(sz), PagesUp(sz') - PagesUp(sz), flags)
    ensures Resized(p0, p, root, sz, sz') && ProcOk(p, r, root, sz')
  {
    var a, n := PagesUp(sz), PagesUp(sz') - PagesUp(sz);
    forall vp, w | IsUser(vp) && 0 <= w < PGSIZE && Num(vp) < PagesUp(sz')
      ensures Seen(p, root, vp, w) == if Num(vp) < PagesUp(sz) then Seen(p0, root, vp, w) else 0
    {
      if Num(vp) < a {
        RangeSeen(p0, r0, p, r, root, a, n, root, vp);
      } else {
        assert InRange(vp, a, n);
      }
    }
    forall vp | IsVp(vp) && Leaf(p, root, vp) != NO_PTE
      ensures if IsUser(vp) then Num(vp) < PagesUp(sz') else Num(vp) * PGSIZE < MAXVA && !Leaf(p, root, vp).flags.u
    {
      if !InRange(vp, a, n) {
        assert Leaf(p, root, vp) == Leaf(p0, root, vp);
      }
    }
  }

  lemma ShrunkResized(p0: seq<Page>, r0: seq<Role>, p: seq<Page>, r: seq<Role>, root: nat, sz: nat, sz': nat)
    requires Inv(p0, r0) && ProcOk(p0, r0, root, sz) && sz' <= sz && PagesUp(sz') <= PagesUp(sz) <= USER_PAGES
    requires Unmaps(p0, p, r0, root, PagesUp(sz'), PagesUp(sz) - PagesUp(sz'))
    requires UnmapRoles(p0, r0, p, r, root, PagesUp(sz'), PagesUp(sz) - PagesUp(sz'), true)
    ensures Resized(p0, p, root, sz, sz') && ProcOk(p, r, root, sz')
  {
    forall vp, w | IsUser(vp) && 0 <= w < PGSIZE && Num(vp) < PagesUp(sz')
      ensures Seen(p, root, vp, w) == Seen(p0, root, vp, w)
    {
      if Leaf(p0, root, vp) != NO_PTE {
        UserPage(p0, r0, root, vp);
      }
    }
    forall vp | IsVp(vp) && Leaf(p, root, vp) != NO_PTE
      ensures if IsUser(vp) then Num(vp) < PagesUp(sz') else Num(vp) * PGSIZE < MAXVA && !Leaf(p, root, vp).flags.u
    {
      assert Leaf(p, root, vp) == Leaf(p0, root, vp);
    }
  }

  /** Raising the size alone: the new bytes are the unmapped ones, which read as zero. */
  lemma LazilyResized(p: seq<Page>, r: seq<Role>, root: nat, sz: nat, sz': nat)
    requires ProcOk(p, r, root, sz) && sz <= sz' <= TRAPFRAME && PagesUp(sz) <= PagesUp(sz')
    ensures Resized(p, p, root, sz, sz') && ProcOk(p, r, root, sz')
  {
  }
}
