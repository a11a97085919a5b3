/** Sv39 page tables in physical memory (vm.c, kalloc.c, riscv.h), as a value: which
    page plays which role, and what a change to one entry does to the mapping. */
module PageTable {
  import opened Blocks

  const PGSIZE := 4096
  const PTES := 512
  const MAXVA := 0x40_0000_0000
  const TRAMPOLINE := MAXVA - PGSIZE
  const TRAPFRAME := TRAMPOLINE - PGSIZE
  // Pages below TRAPFRAME hold user memory.
  const USER_PAGES := TRAPFRAME / PGSIZE

  // Page table entries: a frame number and flags.

  datatype Flags = Flags(v: bool, r: bool, w: bool, x: bool, u: bool, rest: nat)

  datatype Pte = Pte(frame: nat, flags: Flags)

  const NO_FLAGS := Flags(false, false, false, false, false, 0)
  const NO_PTE := Pte(0, NO_FLAGS)

  predicate V(pte: Pte) {
    pte.flags.v
  }

  /** perm | PTE_V */
  function WithV(perm: Flags): Flags {
    perm.(v := true)
  }

  /** PA2PTE(pa) | perm | PTE_V for the page with this frame number. */
  function MakePte(frame: nat, perm: Flags): Pte {
    Pte(frame, WithV(perm))
  }

  /** An interior entry: the child's frame and PTE_V alone. */
  function Link(frame: nat): Pte {
    MakePte(frame, NO_FLAGS)
  }

  // The 64-bit words that stand for entries.

  function Bit(b: bool): nat {
    if b then 1 else 0
  }

  function FlagBits(f: Flags): nat {
    Bit(f.v) + 2 * Bit(f.r) + 4 * Bit(f.w) + 8 * Bit(f.x) + 16 * Bit(f.u) + 32 * f.rest
  }

  function PteWord(pte: Pte): nat {
    pte.frame * 1024 + FlagBits(pte.flags)
  }

  function FlagsOf(bits: nat): Flags {
    Flags(bits % 2 == 1, bits / 2 % 2 == 1, bits / 4 % 2 == 1, bits / 8 % 2 == 1, bits / 16 % 2 == 1, bits / 32)
  }

  function Pa2Pte(pa: nat): nat {
    pa / 4096 * 1024
  }

  function Pte2Pa(word: nat): nat {
    word / 1024 * 4096
  }

  function PteFlags(word: nat): nat {
    word % 1024
  }

  lemma LowBit(b: bool, n: nat)
    ensures (Bit(b) + 2 * n) / 2 == n && ((Bit(b) + 2 * n) % 2 == 1 <==> b)
  {
  }

  lemma Halves(n: nat, n1: nat, n2: nat, n3: nat, n4: nat, n5: nat)
    requires n1 == n / 2 && n2 == n1 / 2 && n3 == n2 / 2 && n4 == n3 / 2 && n5 == n4 / 2
    ensures n / 4 == n2 && n / 8 == n3 && n / 16 == n4 && n / 32 == n5
  {
  }

  lemma FlagsRoundTrip(f: Flags)
    requires f.rest < 32
    ensures FlagBits(f) < 1024 && FlagsOf(FlagBits(f)) == f
  {
    var n4 := Bit(f.u) + 2 * f.rest;
    var n3 := Bit(f.x) + 2 * n4;
    var n2 := Bit(f.w) + 2 * n3;
    var n1 := Bit(f.r) + 2 * n2;
    var n := Bit(f.v) + 2 * n1;
    LowBit(f.u, f.rest);
    LowBit(f.x, n4);
    LowBit(f.w, n3);
    LowBit(f.r, n2);
    LowBit(f.v, n1);
    Halves(n, n1, n2, n3, n4, f.rest);
    assert FlagBits(f) == n;
  }

  /** PTE2PA inverts PA2PTE whatever the flags, and the flags survive: entries and words
      are the same thing. */
  lemma PteRoundTrip(pa: nat, perm: Flags)
    requires pa % PGSIZE == 0 && perm.rest < 32
    ensures var word := PteWord(MakePte(pa / PGSIZE, perm));
            && word == Pa2Pte(pa) + FlagBits(WithV(perm))
            && Pte2Pa(word) == pa && FlagsOf(PteFlags(word)) == WithV(perm)
  {
    FlagsRoundTrip(WithV(perm));
    var word := PteWord(MakePte(pa / PGSIZE, perm));
    assert word / 1024 == pa / PGSIZE && word % 1024 == FlagBits(WithV(perm));
  }

  // Virtual pages by their three indices.

  datatype Vp = Vp(i2: nat, i1: nat, i0: nat)

  predicate IsVp(vp: Vp) {
    vp.i2 < PTES && vp.i1 < PTES && vp.i0 < PTES
  }

  function Num(vp: Vp): nat {
    (vp.i2 * PTES + vp.i1) * PTES + vp.i0
  }

  function PxShift(level: nat): (s: nat)
    ensures s > 0
  {
    if level == 0 then 0x1000 else if level == 1 then 0x20_0000 else 0x4000_0000
  }

  /** The index bits of one level. */
  function Px(level: nat, va: nat): nat {
    va / PxShift(level) % PTES
  }

  function VpOf(va: nat): (vp: Vp)
    ensures IsVp(vp)
  {
    Vp(Px(2, va), Px(1, va), Px(0, va))
  }

  /** Below MAXVA the three indices spell the page number, so distinct pages differ in
      some index. */
  lemma VpIsPage(va: nat)
    requires va < MAXVA
    ensures Num(VpOf(va)) == va / PGSIZE
  {
    var n := va / PGSIZE;
    assert va / 0x20_0000 == n / 512;
    assert va / 0x4000_0000 == n / 512 / 512;
    assert n / 512 / 512 < 512;
  }

  lemma NumInjective(a: Vp, b: Vp)
    requires IsVp(a) && IsVp(b) && Num(a) == Num(b)
    ensures a == b
  {
  }

  lemma PageIsVp(vp: Vp, w: nat)
    requires IsVp(vp) && w < PGSIZE && Num(vp) * PGSIZE < MAXVA
    ensures VpOf(Num(vp) * PGSIZE + w) == vp
  {
    VpIsPage(Num(vp) * PGSIZE + w);
    NumInjective(vp, VpOf(Num(vp) * PGSIZE + w));
  }

  // Physical pages.

  type PageBytes = s: seq<Byte> | |s| == PGSIZE witness seq(PGSIZE, _ => 0)
  type Ptes = s: seq<Pte> | |s| == PTES witness seq(PTES, _ => NO_PTE)

  datatype Page = Unused(next: nat) | Table(ptes: Ptes) | Data(bytes: PageBytes)

  function Filled(b: Byte): PageBytes {
    seq(PGSIZE, _ => b)
  }

  function NoPtes(): Ptes {
    seq(PTES, _ => NO_PTE)
  }

  /** Entry i of the table in frame f. */
  function PteAt(pages: seq<Page>, f: nat, i: nat): Pte
    requires i < PTES
  {
    if f < |pages| && pages[f].Table? then pages[f].ptes[i] else NO_PTE
  }

  /** The leaf entry that root r gives a page, 0 if an interior table is missing. */
  function Leaf(pages: seq<Page>, r: nat, vp: Vp): Pte
    requires IsVp(vp)
  {
    var mid := PteAt(pages, r, vp.i2);
    if !V(mid) then NO_PTE
    else
      var low := PteAt(pages, mid.frame, vp.i1);
      if !V(low) then NO_PTE else PteAt(pages, low.frame, vp.i0)
  }

  /** What a page is used for. Tables and user pages know their place in the tree of
      their root. */
  datatype Role = Kernel | FreePage | Held | Dying | Root
                | Mid(r: nat, i2: nat) | Low(r: nat, i2: nat, i1: nat) | User(r: nat, vp: Vp)

  predicate IsTable(role: Role) {
    role.Root? || role.Mid? || role.Low?
  }

  predicate IsRoot(role: seq<Role>, r: nat) {
    r < |role| && role[r].Root?
  }

  predicate IsUser(vp: Vp) {
    IsVp(vp) && Num(vp) < USER_PAGES
  }

  /** An interior entry: empty, or linking to the page whose role is `child`. */
  predicate Links(role: seq<Role>, pte: Pte, child: Role) {
    pte == NO_PTE || (pte == Link(pte.frame) && pte.frame < |role| && role[pte.frame] == child)
  }

  /** A leaf entry: empty, or valid; for user pages it names the page with that role. */
  predicate Maps(role: seq<Role>, pte: Pte, r: nat, vp: Vp) {
    pte == NO_PTE || (V(pte) && (IsUser(vp) ==> pte.frame < |role| && role[pte.frame] == User(r, vp)))
  }

  ghost predicate Kinds(pages: seq<Page>, role: seq<Role>) {
    && |role| == |pages|
    && forall f :: 0 <= f < |role| ==> (IsTable(role[f]) ==> pages[f].Table?) && (role[f].User? ==> pages[f].Data?)
  }

  /** Entry i of table f points down to a page of the right role. */
  predicate DownAt(pages: seq<Page>, role: seq<Role>, f: nat, i: nat) {
    f < |role| && i < PTES ==>
      match role[f]
      case Root => Links(role, PteAt(pages, f, i), Mid(f, i))
      case Mid(r, i2) => IsRoot(role, r) ==> Links(role, PteAt(pages, f, i), Low(r, i2, i))
      case Low(r, i2, i1) => IsRoot(role, r) ==> Maps(role, PteAt(pages, f, i), r, Vp(i2, i1, i))
      case _ => true
  }

  ghost predicate Down(pages: seq<Page>, role: seq<Role>) {
    forall f, i :: DownAt(pages, role, f, i)
  }

  /** A role is earned: the page is where its role says. */
  ghost predicate Up(pages: seq<Page>, role: seq<Role>) {
    forall f :: 0 <= f < |role| ==> Earned(pages, role, f)
  }

  predicate Earned(pages: seq<Page>, role: seq<Role>, f: nat)
    requires f < |role|
  {
    match role[f]
    case Mid(r, i2) => IsRoot(role, r) ==> i2 < PTES && PteAt(pages, r, i2) == Link(f)
    case Low(r, i2, i1) => IsRoot(role, r) ==>
      i2 < PTES && i1 < PTES && V(PteAt(pages, r, i2)) && PteAt(pages, PteAt(pages, r, i2).frame, i1) == Link(f)
    case User(r, vp) => IsRoot(role, r) ==> IsUser(vp) && V(Leaf(pages, r, vp)) && Leaf(pages, r, vp).frame == f
    case _ => true
  }

  ghost predicate Inv(pages: seq<Page>, role: seq<Role>) {
    Kinds(pages, role) && Down(pages, role) && Up(pages, role)
  }

  // Roles name page tables that exist.

  predicate Refers(x: Role) {
    x.Mid? || x.Low? || x.User?
  }

  predicate Top(x: Role) {
    x.Root? || x.Dying?
  }

  predicate Anchored(role: seq<Role>, g: nat) {
    g < |role| && Refers(role[g]) ==> role[g].r < |role| && Top(role[role[g].r])
  }

  ghost predicate Rooted(role: seq<Role>) {
    forall g :: Anchored(role, g)
  }

  ghost predicate NoRefs(role: seq<Role>, f: nat) {
    forall g :: 0 <= g < |role| && Refers(role[g]) ==> role[g].r != f
  }

  lemma RootedSet(role: seq<Role>, f: nat, x: Role)
    requires Rooted(role) && f < |role| && (Top(role[f]) && !Top(x) ==> NoRefs(role, f))
    requires Refers(x) ==> x.r < |role| && x.r != f && Top(role[x.r])
    ensures Rooted(role[f := x])
  {
    var role' := role[f := x];
    forall g: nat
      ensures Anchored(role', g)
    {
      assert Anchored(role, g);
    }
  }

  // The path from a root to a page.

  /** Where the walk of an address goes, in a well-formed tree. */
  lemma Path(pages: seq<Page>, role: seq<Role>, r: nat, vp: Vp)
    requires Inv(pages, role) && IsRoot(role, r) && IsVp(vp)
    ensures var mid := PteAt(pages, r, vp.i2);
            if mid == NO_PTE then Leaf(pages, r, vp) == NO_PTE
            else
              && V(mid) && mid.frame < |role| && role[mid.frame] == Mid(r, vp.i2)
              && var low := PteAt(pages, mid.frame, vp.i1);
              if low == NO_PTE then Leaf(pages, r, vp) == NO_PTE
              else
                && V(low) && low.frame < |role| && role[low.frame] == Low(r, vp.i2, vp.i1)
                && Leaf(pages, r, vp) == PteAt(pages, low.frame, vp.i0)
  {
    var mid := PteAt(pages, r, vp.i2);
    assert DownAt(pages, role, r, vp.i2);
    if mid != NO_PTE {
      assert DownAt(pages, role, mid.frame, vp.i1);
    }
  }

  /** A place in a tree is taken once. */
  lemma SameRole(pages: seq<Page>, role: seq<Role>, u: nat, t: nat)
    requires Inv(pages, role) && u < |role| && t < |role| && role[u] == role[t]
    requires (role[u].Mid? || role[u].Low? || role[u].User?) && IsRoot(role, role[u].r)
    ensures u == t
  {
    assert Earned(pages, role, u) && Earned(pages, role, t);
  }

  function SetPte(pages: seq<Page>, f: nat, i: nat, pte: Pte): seq<Page>
    requires f < |pages| && pages[f].Table? && i < PTES
  {
    pages[f := Table(pages[f].ptes[i := pte])]
  }

  /** Two memories give root r the same mapping. */
  ghost predicate SameMap(pages: seq<Page>, pages': seq<Page>, r: nat) {
    forall vp :: IsVp(vp) ==> Leaf(pages', r, vp) == Leaf(pages, r, vp)
  }

  /** Every page table keeps its mapping. */
  ghost predicate SameMaps(pages: seq<Page>, pages': seq<Page>, role: seq<Role>) {
    forall r :: 0 <= r < |role| && role[r].Root? ==> SameMap(pages, pages', r)
  }

  // Changes to one page.

  predicate Loose(role: Role) {
    role.Kernel? || role.FreePage? || role.Held? || role.Dying?
  }

  /** Pages outside every tree can change freely. */
  lemma LooseChange(pages: seq<Page>, role: seq<Role>, f: nat, page: Page, to: Role)
    requires Inv(pages, role) && f < |role| && Loose(role[f]) && Loose(to)
    ensures Inv(pages[f := page], role[f := to]) && SameMaps(pages, pages[f := page], role)
  {
    var pages', role' := pages[f := page], role[f := to];
    forall r, vp | 0 <= r < |role| && role[r].Root? && IsVp(vp)
      ensures Leaf(pages', r, vp) == Leaf(pages, r, vp)
    {
      Path(pages, role, r, vp);
    }
    forall g: nat, i: nat
      ensures DownAt(pages', role', g, i)
    {
      assert DownAt(pages, role, g, i);
    }
    StillEarned(pages, role, pages', role', f);
  }

  /** Tables keep their links and mappings keep their pages: only `except` has a new
      role to earn. */
  lemma StillEarned(pages: seq<Page>, role: seq<Role>, pages': seq<Page>, role': seq<Role>, except: nat)
    requires Inv(pages, role) && |role'| == |role| && |pages'| == |pages|
    requires forall f :: 0 <= f < |role| && f != except ==> role'[f] == role[f]
    requires forall f :: 0 <= f < |role| && f != except && IsTable(role[f]) ==> pages'[f].Table?
    requires forall f, i :: 0 <= f < |role| && f != except && IsTable(role[f]) && 0 <= i < PTES && !role[f].Low? ==>
               pages'[f].ptes[i] == pages[f].ptes[i] || pages[f].ptes[i] == NO_PTE
    requires except < |role| ==> !IsTable(role[except]) && !role'[except].Root?
    requires forall r, vp :: 0 <= r < |role| && role[r].Root? && IsUser(vp) && V(Leaf(pages, r, vp)) ==>
               Leaf(pages', r, vp) == Leaf(pages, r, vp) || Leaf(pages, r, vp).frame == except
    ensures forall f :: 0 <= f < |role| && f != except ==> Earned(pages', role', f)
  {
    forall f | 0 <= f < |role| && f != except
      ensures Earned(pages', role', f)
    {
      assert Earned(pages, role, f);
      if role[f].Low? && IsRoot(role, role[f].r) {
        assert DownAt(pages, role, role[f].r, role[f].i2);
      }
    }
  }

  /** A new page table, empty, in a page that no role names. */
  lemma NewRoot(pages: seq<Page>, role: seq<Role>, f: nat)
    requires Inv(pages, role) && Rooted(role) && f < |role| && Loose(role[f]) && !role[f].Dying?
    ensures var pages', role' := pages[f := Table(NoPtes())], role[f := Root];
            && Inv(pages', role') && Rooted(role') && SameMaps(pages, pages', role)
            && forall vp :: IsVp(vp) ==> Leaf(pages', f, vp) == NO_PTE
  {
    var page := Table(NoPtes());
    LooseChange(pages, role, f, page, role[f]);
    assert role[f := role[f]] == role;
    RootedSet(role, f, Root);
    var pages', role' := pages[f := page], role[f := Root];
    forall g: nat, i: nat
      ensures DownAt(pages', role', g, i)
    {
      assert DownAt(pages', role, g, i) && Anchored(role, g);
    }
    forall g | 0 <= g < |role|
      ensures Earned(pages', role', g)
    {
      assert Earned(pages', role, g) && Anchored(role, g);
    }
  }

  /** A new level-1 table, empty, hung under root r. */
  lemma AttachMid(pages: seq<Page>, role: seq<Role>, r: nat, i2: nat, f: nat)
    requires Inv(pages, role) && IsRoot(role, r) && i2 < PTES && PteAt(pages, r, i2) == NO_PTE
    requires f < |role| && role[f] == Held
    ensures var pages' := SetPte(pages[f := Table(NoPtes())], r, i2, Link(f));
            Inv(pages', role[f := Mid(r, i2)]) && SameMaps(pages, pages', role)
  {
    var pages', role' := SetPte(pages[f := Table(NoPtes())], r, i2, Link(f)), role[f := Mid(r, i2)];
    forall q, vp | 0 <= q < |role| && role[q].Root? && IsVp(vp)
      ensures Leaf(pages', q, vp) == Leaf(pages, q, vp)
    {
      Path(pages, role, q, vp);
    }
    forall g: nat, i: nat
      ensures DownAt(pages', role', g, i)
    {
      assert DownAt(pages, role, g, i);
    }
    StillEarned(pages, role, pages', role', f);
  }

  /** A new level-0 table, empty, hung under the level-1 table t. */
  lemma AttachLow(pages: seq<Page>, role: seq<Role>, t: nat, i1: nat, f: nat)
    requires Inv(pages, role) && t < |role| && role[t].Mid? && IsRoot(role, role[t].r) && i1 < PTES
             && PteAt(pages, t, i1) == NO_PTE
    requires f < |role| && role[f] == Held
    ensures var pages' := SetPte(pages[f := Table(NoPtes())], t, i1, Link(f));
            Inv(pages', role[f := Low(role[t].r, role[t].i2, i1)]) && SameMaps(pages, pages', role)
  {
    var pages', role' := SetPte(pages[f := Table(NoPtes())], t, i1, Link(f)), role[f := Low(role[t].r, role[t].i2, i1)];
    assert Earned(pages, role, t);
    forall q, vp | 0 <= q < |role| && role[q].Root? && IsVp(vp)
      ensures Leaf(pages', q, vp) == Leaf(pages, q, vp)
    {
      Path(pages, role, q, vp);
    }
    forall g: nat, i: nat
      ensures DownAt(pages', role', g, i)
    {
      assert DownAt(pages, role, g, i);
    }
    StillEarned(pages, role, pages', role', f);
  }

  /** Writing a leaf entry changes the mapping of that page of that root, alone. */
  lemma SetLeaf(pages: seq<Page>, role: seq<Role>, t: nat, i0: nat, pte: Pte, q: nat, vp: Vp)
    requires Inv(pages, role) && t < |role| && role[t].Low? && IsRoot(role, role[t].r) && i0 < PTES
    requires IsRoot(role, q) && IsVp(vp)
    ensures Leaf(SetPte(pages, t, i0, pte), q, vp)
            == if q == role[t].r && vp == Vp(role[t].i2, role[t].i1, i0) then pte else Leaf(pages, q, vp)
  {
    Path(pages, role, q, vp);
    assert Earned(pages, role, t);
  }

  /** A page handed to a page table. */
  lemma AttachUser(pages: seq<Page>, role: seq<Role>, t: nat, i0: nat, pte: Pte)
    requires Inv(pages, role) && t < |role| && role[t].Low? && IsRoot(role, role[t].r) && i0 < PTES
             && PteAt(pages, t, i0) == NO_PTE
    requires IsUser(Vp(role[t].i2, role[t].i1, i0)) && V(pte)
    requires pte.frame < |role| && role[pte.frame] == Held && pages[pte.frame].Data?
    ensures Inv(SetPte(pages, t, i0, pte), role[pte.frame := User(role[t].r, Vp(role[t].i2, role[t].i1, i0))])
  {
    var r, mine, f := role[t].r, Vp(role[t].i2, role[t].i1, i0), pte.frame;
    var pages', role' := SetPte(pages, t, i0, pte), role[f := User(r, mine)];
    SetLeaf(pages, role, t, i0, pte, r, mine);
    SetLeaf(pages, role, t, i0, NO_PTE, r, mine);
    forall q, vp | 0 <= q < |role| && role[q].Root? && IsUser(vp) && V(Leaf(pages, q, vp))
      ensures Leaf(pages', q, vp) == Leaf(pages, q, vp)
    {
      SetLeaf(pages, role, t, i0, pte, q, vp);
      Path(pages, role, q, vp);
    }
    forall g: nat, i: nat
      ensures DownAt(pages', role', g, i)
    {
      assert DownAt(pages, role, g, i);
    }
    StillEarned(pages, role, pages', role', f);
  }

  /** A page taken back from a page table. */
  lemma DetachUser(pages: seq<Page>, role: seq<Role>, t: nat, i0: nat)
    requires Inv(pages, role) && t < |role| && role[t].Low? && IsRoot(role, role[t].r) && i0 < PTES
    requires IsUser(Vp(role[t].i2, role[t].i1, i0)) && PteAt(pages, t, i0) != NO_PTE
    ensures var f := PteAt(pages, t, i0).frame;
            && f < |role| && f != t && role[f] == User(role[t].r, Vp(role[t].i2, role[t].i1, i0))
            && Inv(SetPte(pages, t, i0, NO_PTE), role[f := Held])
  {
    var f := PteAt(pages, t, i0).frame;
    var mine := Vp(role[t].i2, role[t].i1, i0);
    assert DownAt(pages, role, t, i0);
    var pages', role' := SetPte(pages, t, i0, NO_PTE), role[f := Held];
    SetLeaf(pages, role, t, i0, NO_PTE, role[t].r, mine);
    assert Leaf(pages, role[t].r, mine) == PteAt(pages, t, i0) by {
      SetLeaf(pages, role, t, i0, PteAt(pages, t, i0), role[t].r, mine);
      assert pages[t].ptes[i0 := pages[t].ptes[i0]] == pages[t].ptes;
      assert SetPte(pages, t, i0, PteAt(pages, t, i0)) == pages;
    }
    forall q, vp | 0 <= q < |role| && role[q].Root? && IsUser(vp) && V(Leaf(pages, q, vp))
      ensures Leaf(SetPte(pages, t, i0, NO_PTE), q, vp) == Leaf(pages, q, vp) || Leaf(pages, q, vp).frame == f
    {
      SetLeaf(pages, role, t, i0, NO_PTE, q, vp);
    }
    StillEarned(pages, role, pages', role', f);
    forall g: nat, i: nat
      ensures DownAt(pages', role', g, i)
    {
      assert DownAt(pages, role, g, i);
      if g < |role| && role[g] == role[t] {
        SameRole(pages, role, g, t);
      }
    }
  }

  /** Entries at and above TRAPFRAME own nothing. */
  lemma SetForeign(pages: seq<Page>, role: seq<Role>, t: nat, i0: nat, pte: Pte)
    requires Inv(pages, role) && t < |role| && role[t].Low? && IsRoot(role, role[t].r) && i0 < PTES
    requires !IsUser(Vp(role[t].i2, role[t].i1, i0)) && (pte == NO_PTE || V(pte))
    ensures Inv(SetPte(pages, t, i0, pte), role)
  {
    forall q, vp | 0 <= q < |role| && role[q].Root? && IsUser(vp) && V(Leaf(pages, q, vp))
      ensures Leaf(SetPte(pages, t, i0, pte), q, vp) == Leaf(pages, q, vp)
    {
      SetLeaf(pages, role, t, i0, pte, q, vp);
    }
    var pages' := SetPte(pages, t, i0, pte);
    forall g: nat, i: nat
      ensures DownAt(pages', role, g, i)
    {
      assert DownAt(pages, role, g, i);
    }
    StillEarned(pages, role, pages', role, |role|);
  }

  /** Storing into a user page. */
  lemma WriteUser(pages: seq<Page>, role: seq<Role>, f: nat, bytes: PageBytes)
    requires Inv(pages, role) && f < |role| && role[f].User?
    ensures Inv(pages[f := Data(bytes)], role) && SameMaps(pages, pages[f := Data(bytes)], role)
  {
    var pages' := pages[f := Data(bytes)];
    forall r, vp | 0 <= r < |role| && role[r].Root? && IsVp(vp)
      ensures Leaf(pages', r, vp) == Leaf(pages, r, vp)
    {
      Path(pages, role, r, vp);
    }
    forall g: nat, i: nat
      ensures DownAt(pages', role, g, i)
    {
      assert DownAt(pages, role, g, i);
    }
    StillEarned(pages, role, pages', role, |role|);
  }

  // Taking a tree down.

  /** A table of a root that is no longer one. */
  predicate Dead(role: seq<Role>, f: nat) {
    f < |role| && (role[f].Mid? || role[f].Low?) && !IsRoot(role, role[f].r)
  }

  /** A root stops being one. */
  lemma Kill(pages: seq<Page>, role: seq<Role>, r: nat)
    requires Inv(pages, role) && IsRoot(role, r)
    ensures Inv(pages, role[r := Dying])
  {
    var role' := role[r := Dying];
    forall g: nat, i: nat
      ensures DownAt(pages, role', g, i)
    {
      assert DownAt(pages, role, g, i);
    }
    forall f | 0 <= f < |role|
      ensures Earned(pages, role', f)
    {
      assert Earned(pages, role, f);
    }
  }

  /** The pages of a dying tree can change and be freed without harm to the others. */
  lemma DeadChange(pages: seq<Page>, role: seq<Role>, f: nat, page: Page, to: Role)
    requires Inv(pages, role) && (Dead(role, f) || (f < |role| && role[f].Dying?))
    requires to.FreePage? || (to == role[f] && page.Table?)
    ensures Inv(pages[f := page], role[f := to]) && SameMaps(pages, pages[f := page], role)
  {
    var pages', role' := pages[f := page], role[f := to];
    forall r, vp | 0 <= r < |role| && role[r].Root? && IsVp(vp)
      ensures Leaf(pages', r, vp) == Leaf(pages, r, vp)
    {
      Path(pages, role, r, vp);
    }
    forall g: nat, i: nat
      ensures DownAt(pages', role', g, i)
    {
      assert DownAt(pages, role, g, i);
    }
    forall g | 0 <= g < |role|
      ensures Earned(pages', role', g)
    {
      assert Earned(pages, role, g);
      if role[g].Low? && IsRoot(role, role[g].r) {
        assert DownAt(pages, role, role[g].r, role[g].i2);
      }
    }
  }
}
