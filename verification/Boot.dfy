/**
 memory_init: the kernel's identity-mapped tables, and the free list it chains up.
 */
module Boot {
  import opened Sv39
  import opened Spaces
  import Memory

  const RAM_START := 0x8000_0000
  const MEGA_SIZE := 0x20_0000
  const GIGA_SIZE := 0x4000_0000
  const RAM_PAGE := 0x8_0000     // RAM_START as a page number

  /** Bounds of the kernel image sections, as the linker script lays them out, and the RAM size. */
  datatype Layout = Layout(textEnd: nat, rodataStart: nat, rodataEnd: nat, dataStart: nat, ramSize: nat)

  function RoundUp(addr: nat): nat { (addr + PAGE_SIZE - 1) / PAGE_SIZE * PAGE_SIZE }

  predicate Fits(l: Layout) {
    && RAM_START <= l.textEnd && l.rodataStart == RoundUp(l.textEnd)
    && l.rodataStart <= l.rodataEnd && l.dataStart == RoundUp(l.rodataEnd) && l.dataStart <= RAM_START + MEGA_SIZE
    && MEGA_SIZE <= l.ramSize <= GIGA_SIZE && l.ramSize % MEGA_SIZE == 0
  }

  const RX := Flags(false, true, false, true, false, true, false, false)
  const RO := Flags(false, true, false, false, false, true, false, false)
  const RW := Flags(false, true, true, false, false, true, false, false)

  /** Permissions of page `j` of the first RAM megapage: text, then read-only data, then the rest. */
  function SectionFlags(l: Layout, j: nat): Flags {
    var addr := RAM_START + j * PAGE_SIZE;
    if addr < l.textEnd then RX else if l.rodataStart <= addr < l.rodataEnd then RO else RW
  }

  /** Root entry `j` when the first `n` gigaranges are mapped as gigapages and the third by a table. */
  function GigaEntry(n: nat, p1: Ppn, j: nat): Pte {
    if j < n then LeafPte(j * GIGA_PAGES, RW) else if j == 2 && n == 2 then PtabPte(p1, true) else NULL_PTE
  }

  /** Second-level entry `j` when RAM megapages below `n` are mapped, the first by a table. */
  function MegaEntry(n: nat, p0: Ppn, j: nat): Pte {
    if j == 0 then PtabPte(p0, true) else if j < n then LeafPte(RAM_PAGE + j * MEGA_PAGES, RW) else NULL_PTE
  }

  /** The three tables memory_init builds, at pages `p1` and `p0` below the root. */
  ghost predicate KernelTables(l: Layout, pt2: Table, pt1: Table, pt0: Table, p1: Ppn, p0: Ppn) {
    && (forall j :: 0 <= j < PTE_CNT ==> pt2[j] == GigaEntry(2, p1, j))
    && (forall j :: 0 <= j < PTE_CNT ==> pt1[j] == MegaEntry(l.ramSize / MEGA_SIZE, p0, j))
    && (forall j :: 0 <= j < PTE_CNT ==> pt0[j] == LeafPte(RAM_PAGE + j, SectionFlags(l, j)))
  }

  /** The mapping loops of memory_init. */
  method InitTables(l: Layout, p1: Ppn, p0: Ppn) returns (pt2: Table, pt1: Table, pt0: Table)
    requires Fits(l)
    ensures KernelTables(l, pt2, pt1, pt0, p1, p0)
  {
    pt2 := MapGigas(ZERO_TABLE);
    pt2 := pt2[VPN2(RAM_START) := PtabPte(p1, true)];
    pt1 := ZERO_TABLE[VPN1(RAM_START) := PtabPte(p0, true)];
    pt0 := MapSections(l);
    pt1 := MapMegas(l, pt1, p0);
  }

  /** The first two gigaranges, as gigapages. */
  method MapGigas(pt: Table) returns (pt2: Table)
    requires pt == ZERO_TABLE
    ensures forall j :: 0 <= j < PTE_CNT ==> pt2[j] == if j < 2 then LeafPte(j * GIGA_PAGES, RW) else NULL_PTE
  {
    pt2 := pt;
    var pma := 0;
    ghost var k := 0;
    while pma < RAM_START
      invariant pma == k * GIGA_SIZE && 0 <= k <= 2
      invariant forall j :: 0 <= j < PTE_CNT ==> pt2[j] == if j < k then LeafPte(j * GIGA_PAGES, RW) else NULL_PTE
    {
      assert pma / PAGE_SIZE == k * GIGA_PAGES && VPN2(pma) == k;
      pt2 := pt2[VPN2(pma) := LeafPte(pma / PAGE_SIZE, RW)];
      pma := pma + GIGA_SIZE;
      k := k + 1;
    }
  }

  /** The sections of the first RAM megapage, page by page. */
  method MapSections(l: Layout) returns (pt0: Table)
    requires Fits(l)
    ensures forall j :: 0 <= j < PTE_CNT ==> pt0[j] == LeafPte(RAM_PAGE + j, SectionFlags(l, j))
  {
    pt0 := MapPages(ZERO_TABLE, RAM_START, l.textEnd, RX);
    pt0 := MapPages(pt0, l.rodataStart, l.rodataEnd, RO);
    pt0 := MapPages(pt0, l.dataStart, RAM_START + MEGA_SIZE, RW);
    forall j | 0 <= j < PTE_CNT ensures pt0[j] == LeafPte(RAM_PAGE + j, SectionFlags(l, j)) { SectionsMeet(l, j); }
  }

  /** The rest of RAM, as megapages. */
  method MapMegas(l: Layout, pt: Table, p0: Ppn) returns (pt1: Table)
    requires Fits(l) && forall j :: 0 <= j < PTE_CNT ==> pt[j] == MegaEntry(1, p0, j)
    ensures forall j :: 0 <= j < PTE_CNT ==> pt1[j] == MegaEntry(l.ramSize / MEGA_SIZE, p0, j)
  {
    pt1 := pt;
    var pp := RAM_START + MEGA_SIZE;
    ghost var k, n := 1, l.ramSize / MEGA_SIZE;
    assert l.ramSize == n * MEGA_SIZE;
    while pp < RAM_START + l.ramSize
      invariant pp == RAM_START + k * MEGA_SIZE && 1 <= k <= n
      invariant forall j :: 0 <= j < PTE_CNT ==> pt1[j] == MegaEntry(k, p0, j)
    {
      MegaIndex(k);
      pt1 := pt1[VPN1(pp) := LeafPte(pp / PAGE_SIZE, RW)];
      pp := pp + MEGA_SIZE;
      k := k + 1;
    }
  }

  lemma MegaIndex(k: nat)
    requires k < PTE_CNT
    ensures var pp := RAM_START + k * MEGA_SIZE; pp / PAGE_SIZE == RAM_PAGE + k * MEGA_PAGES && VPN1(pp) == k
  {
    assert (0x8000_0000 + k * 0x20_0000) / 0x1000 == 0x8_0000 + k * 512;
    assert (0x8000_0000 + k * 0x20_0000) / 0x20_0000 == 0x400 + k;
  }

  /** One of the loops over the pages of a section. */
  method MapPages(pt: Table, start: nat, end: nat, f: Flags) returns (pt0: Table)
    requires RAM_START <= start && start % PAGE_SIZE == 0 && end <= RAM_START + MEGA_SIZE
    ensures forall j :: 0 <= j < PTE_CNT ==>
              pt0[j] == if start <= RAM_START + j * PAGE_SIZE < end then LeafPte(RAM_PAGE + j, f) else pt[j]
  {
    pt0 := pt;
    var pp := start;
    while pp < end
      invariant start <= pp && pp % PAGE_SIZE == 0
      invariant forall j :: 0 <= j < PTE_CNT ==>
                  var a := RAM_START + j * PAGE_SIZE;
                  pt0[j] == if start <= a < end && a < pp then LeafPte(RAM_PAGE + j, f) else pt[j]
    {
      var k := (pp - RAM_START) / PAGE_SIZE;
      assert pp == RAM_START + k * PAGE_SIZE;
      assert pp / PAGE_SIZE == RAM_PAGE + k && VPN0(pp) == k;
      pt0 := pt0[VPN0(pp) := LeafPte(pp / PAGE_SIZE, f)];
      pp := pp + PAGE_SIZE;
    }
  }

  /** A page of the first megapage is in exactly one of the three loops. */
  lemma SectionsMeet(l: Layout, j: nat)
    requires Fits(l) && j < PTE_CNT
    ensures var a := RAM_START + j * PAGE_SIZE;
            (a < l.textEnd) != (a >= l.rodataStart) && (l.rodataStart <= a ==> (a < l.rodataEnd) != (a >= l.dataStart))
  {
  }

  /** Every address of [0, RAM_END) translates to itself, and no page is writable and executable. */
  lemma IdentityMap(l: Layout, m: Frames, p2: Ppn, p1: Ppn, p0: Ppn, pt2: Table, pt1: Table, pt0: Table, vpn: nat)
    requires Fits(l) && KernelTables(l, pt2, pt1, pt0, p1, p0)
    requires p2 in m && p1 in m && p0 in m && m[p2] == Words(pt2) && m[p1] == Words(pt1) && m[p0] == Words(pt0)
    requires vpn < (RAM_START + l.ramSize) / PAGE_SIZE
    ensures var x := HwWalk(m, p2, vpn, 2);
            && x.Hit? && PhysPage(x, vpn) == vpn && x.pte.flags.g && !x.pte.flags.u
            && !(x.pte.flags.w && x.pte.flags.x)
            && (RAM_PAGE <= vpn < RAM_PAGE + MEGA_PAGES ==>
                  x.level == 0 && x.pte.flags == SectionFlags(l, vpn - RAM_PAGE).(v := true, a := true, d := true))
    ensures var f, a := HwWalk(m, p2, vpn, 2).pte.flags, vpn * PAGE_SIZE;
            if 0x8000_0000 <= a < l.textEnd then f.r && !f.w && f.x
            else if l.rodataStart <= a < l.rodataEnd then f.r && !f.w && !f.x
            else f.r && f.w && !f.x
  {
    hide HwWalk, KernelTables, PhysPage, Idx;
    RamParts(l, vpn);
    var i2, i1, i0 := Idx(vpn, 2), Idx(vpn, 1), Idx(vpn, 0);
    if i2 < 2 {
      GigaWalk(l, m, p2, p1, p0, pt2, pt1, pt0, vpn);
      SamePage(LeafPte(i2 * GIGA_PAGES, RW), 2, i2, vpn);
    } else if i1 == 0 {
      PageWalk(l, m, p2, p1, p0, pt2, pt1, pt0, vpn);
      SamePage(LeafPte(RAM_PAGE + i0, SectionFlags(l, i0)), 0, vpn, vpn);
    } else {
      MegaWalk(l, m, p2, p1, p0, pt2, pt1, pt0, vpn);
      SamePage(LeafPte(RAM_PAGE + i1 * MEGA_PAGES, RW), 1, 0x400 + i1, vpn);
    }
  }

  /** A leaf for the `q`-th stretch of its size reaches the same page in it. */
  lemma SamePage(e: Pte, level: nat, q: nat, vpn: nat)
    requires level <= 2 && e.ppn == q * PagesAt(level) && vpn == e.ppn + vpn % PagesAt(level)
    ensures PhysPage(Hit(e, level), vpn) == vpn
  {
    if level == 2 {
      assert q * 0x4_0000 / 0x4_0000 == q;
    } else if level == 1 {
      assert q * 512 / 512 == q;
    }
  }

  /** The indices of a page below the end of RAM. */
  lemma RamParts(l: Layout, vpn: nat)
    requires Fits(l) && vpn < (RAM_START + l.ramSize) / PAGE_SIZE
    ensures var i2, i1, i0 := Idx(vpn, 2), Idx(vpn, 1), Idx(vpn, 0);
            && i2 <= 2 && (i2 < 2 ==> vpn == i2 * GIGA_PAGES + vpn % GIGA_PAGES && vpn < RAM_PAGE)
            && (i2 == 2 ==>
                  vpn == RAM_PAGE + i1 * MEGA_PAGES + i0 && i0 == vpn % MEGA_PAGES && i1 < l.ramSize / MEGA_SIZE)
  {
    var q := vpn / 0x200;
    assert vpn == q * 0x200 + vpn % 0x200 && vpn / 0x4_0000 == q / 0x200;
    assert q == q / 0x200 * 0x200 + q % 0x200;
  }

  lemma WalkHit(m: Frames, t: Ppn, vpn: nat, level: nat)
    requires vpn < VPN_CNT && level <= 2 && t in m && m[t].Words?
    requires var e := m[t].ws[Idx(vpn, level)]; e.flags.v && e.flags.r && e.hi == 0 && e.ppn % PagesAt(level) == 0
    ensures HwWalk(m, t, vpn, level) == Hit(m[t].ws[Idx(vpn, level)], level)
  {
  }

  lemma WalkDown(m: Frames, t: Ppn, vpn: nat, level: nat)
    requires vpn < VPN_CNT && 0 < level <= 2 && t in m && m[t].Words?
    requires var e := m[t].ws[Idx(vpn, level)]; e.flags.v && !e.flags.Rwx() && e.hi == 0
    ensures HwWalk(m, t, vpn, level) == HwWalk(m, m[t].ws[Idx(vpn, level)].ppn, vpn, level - 1)
  {
  }

  lemma GigaWalk(l: Layout, m: Frames, p2: Ppn, p1: Ppn, p0: Ppn, pt2: Table, pt1: Table, pt0: Table, vpn: nat)
    requires KernelTables(l, pt2, pt1, pt0, p1, p0) && p2 in m && m[p2] == Words(pt2)
    requires vpn < VPN_CNT && Idx(vpn, 2) < 2
    ensures HwWalk(m, p2, vpn, 2) == Hit(LeafPte(Idx(vpn, 2) * GIGA_PAGES, RW), 2)
  {
    hide HwWalk;
    assert pt2[Idx(vpn, 2)] == GigaEntry(2, p1, Idx(vpn, 2));
    WalkHit(m, p2, vpn, 2);
  }

  lemma MegaWalk(l: Layout, m: Frames, p2: Ppn, p1: Ppn, p0: Ppn, pt2: Table, pt1: Table, pt0: Table, vpn: nat)
    requires KernelTables(l, pt2, pt1, pt0, p1, p0) && p2 in m && p1 in m && m[p2] == Words(pt2) && m[p1] == Words(pt1)
    requires vpn < VPN_CNT && Idx(vpn, 2) == 2 && 0 < Idx(vpn, 1) < l.ramSize / MEGA_SIZE
    ensures HwWalk(m, p2, vpn, 2) == Hit(LeafPte(RAM_PAGE + Idx(vpn, 1) * MEGA_PAGES, RW), 1)
  {
    hide HwWalk;
    var i1 := Idx(vpn, 1);
    assert pt2[2] == GigaEntry(2, p1, 2) && pt1[i1] == MegaEntry(l.ramSize / MEGA_SIZE, p0, i1);
    WalkDown(m, p2, vpn, 2);
    assert (0x8_0000 + i1 * 512) % 512 == 0;
    WalkHit(m, p1, vpn, 1);
  }

  lemma PageWalk(l: Layout, m: Frames, p2: Ppn, p1: Ppn, p0: Ppn, pt2: Table, pt1: Table, pt0: Table, vpn: nat)
    requires KernelTables(l, pt2, pt1, pt0, p1, p0) && p2 in m && p1 in m && p0 in m
    requires m[p2] == Words(pt2) && m[p1] == Words(pt1) && m[p0] == Words(pt0)
    requires vpn < VPN_CNT && Idx(vpn, 2) == 2 && Idx(vpn, 1) == 0
    ensures HwWalk(m, p2, vpn, 2) == Hit(LeafPte(RAM_PAGE + Idx(vpn, 0), SectionFlags(l, Idx(vpn, 0))), 0)
  {
    hide HwWalk;
    var i0 := Idx(vpn, 0);
    assert pt2[2] == GigaEntry(2, p1, 2) && pt1[0] == MegaEntry(l.ramSize / MEGA_SIZE, p0, 0);
    assert pt0[i0] == LeafPte(RAM_PAGE + i0, SectionFlags(l, i0));
    WalkDown(m, p2, vpn, 2);
    WalkDown(m, p1, vpn, 1);
    WalkHit(m, p0, vpn, 0);
  }

  /** A memory holding these tables, with a null-terminated list of the other free pages, is well formed. */
  lemma BootIsWellFormed(l: Layout, m: Frames, roles: Roles, p2: Ppn, p1: Ppn, p0: Ppn, pt2: Table, pt1: Table,
      pt0: Table)
    requires KernelTables(l, pt2, pt1, pt0, p1, p0) && m.Keys == roles.Keys && 0 !in m
    requires p2 in m && p1 in m && p0 in m && m[p2] == Words(pt2) && m[p1] == Words(pt1) && m[p0] == Words(pt0)
    requires roles[p2] == Node(p2, 2, 0, p2) && roles[p1].KernelTable? && roles[p0].KernelTable?
    requires forall p :: p in roles && p != p2 && p != p1 && p != p0 ==> roles[p].Free? || roles[p].Kernel?
    ensures Trees(m, roles, p2) && Memory.Scope(m, p2)
  {
    forall p | p in roles ensures PageOk(m, roles, p2, p) {
      if p == p2 {
        forall i | 0 <= i < PTE_CNT ensures EntryOk(m, roles, p2, i) && KernelEntryOk(m, p2, p2, i) {}
      }
    }
  }

  // ----- The free list

  /** The loop of memory_init that links pages [start, end) in front of a head preset to `start`. */
  method ChainPages(m: Frames, start: Ppn, end: Ppn) returns (m': Frames, head: Ppn)
    requires 0 < start <= end
    ensures head == if start == end then start else end - 1
    ensures forall p :: start < p < end ==> p in m' && m'[p] == Linked(p - 1)
    ensures start < end ==> start in m' && m'[start] == Linked(start)
    ensures forall p :: !(start <= p < end) ==> (p in m' <==> p in m) && (p in m ==> m'[p] == m[p])
  {
    m', head := m, start;
    var pp := start;
    while pp < end
      invariant start <= pp <= end && head == if pp == start then start else pp - 1
      invariant forall p :: start < p < pp ==> p in m' && m'[p] == Linked(p - 1)
      invariant start < pp ==> start in m' && m'[start] == Linked(start)
      invariant forall p :: !(start <= p < pp) ==> (p in m' <==> p in m) && (p in m ==> m'[p] == m[p])
    {
      m' := m'[pp := Linked(head)];
      head := pp;
      pp := pp + 1;
    }
  }

  /** The links of a memory's free pages. */
  function Links(m: Frames): map<Ppn, Ppn> { map p | p in m && m[p].Linked? :: m[p].next }

  /** The page at the head of the raw list after `k` times memory_alloc_page, which zeroes what it hands out. */
  function HeadAfter(next: map<Ppn, Ppn>, head: Ppn, k: nat): Ppn
    decreases k
  {
    if k == 0 || head !in next then head else HeadAfter(next[head := 0], next[head], k - 1)
  }

  /**
   Pages handed out from the list memory_init builds, as long as nobody writes to a page that is still
   on it: each once from the top down, the bottom page once more, and then the list is empty.
   */
  lemma {:induction false} BottomPageComesTwice(next: map<Ppn, Ppn>, start: Ppn, head: Ppn, k: nat)
    requires 0 < start <= head && 0 !in next
    requires forall p :: start < p <= head ==> p in next && next[p] == p - 1
    requires start in next && next[start] == start
    ensures HeadAfter(next, head, k) ==
            if k <= head - start then head - k else if k == head - start + 1 then start else 0
    decreases k
  {
    if k > 0 && head > start {
      BottomPageComesTwice(next[head := 0], start, head - 1, k - 1);
    } else if k > 1 {
      var next' := next[start := 0];
      assert HeadAfter(next, start, k) == HeadAfter(next', start, k - 1) == HeadAfter(next'[start := 0], 0, k - 2);
    }
  }

  /**
   Both holders have the bottom page. If the first one writes `w` to its first word before it is handed
   out again, `w` becomes the head of the list.
   */
  lemma WrittenBottomPage(next: map<Ppn, Ppn>, start: Ppn, w: Ppn)
    requires start in next && next[start] == start
    ensures HeadAfter(next, start, 1) == start && HeadAfter(next[start := w], start, 1) == w
  {
    assert next[start := w][start] == w;
  }

  /** The same from the memory ChainPages leaves. */
  lemma BottomPageTwice(m: Frames, start: Ppn, head: Ppn, k: nat)
    requires 0 < start <= head && 0 !in m && forall p :: start < p <= head ==> p in m && m[p] == Linked(p - 1)
    requires start in m && m[start] == Linked(start)
    ensures HeadAfter(Links(m), head, k) ==
            if k <= head - start then head - k else if k == head - start + 1 then start else 0
  {
    BottomPageComesTwice(Links(m), start, head, k);
  }

  /** So no list of free pages describes it, unlike a list whose bottom page links to NULL. */
  lemma InitListIsNoFreeList(m: Frames, roles: Roles, start: Ppn, head: Ppn, free: seq<Ppn>)
    requires 0 < start <= head && 0 !in m
    requires forall p :: start < p <= head ==> p in m && m[p] == Linked(p - 1)
    requires start in m && m[start] == Linked(start)
    ensures !FreeList(m, roles, head, free)
  {
    if FreeList(m, roles, head, free) {
      ChainFollows(m, roles, start, head, free, head - start);
      NoSelfLink(m, roles, head, free, head - start);
    }
  }

  lemma NoSelfLink(m: Frames, roles: Roles, head: Ppn, free: seq<Ppn>, k: nat)
    requires FreeList(m, roles, head, free) && k < |free| && 0 !in m
    ensures free[k] in m && m[free[k]] != Linked(free[k])
  {
    assert LinkedAt(m, free, k);
  }

  lemma {:induction false} ChainFollows(m: Frames, roles: Roles, start: Ppn, head: Ppn, free: seq<Ppn>, k: nat)
    requires FreeList(m, roles, head, free) && 0 < start <= head && k <= head - start
    requires forall p :: start < p <= head ==> p in m && m[p] == Linked(p - 1)
    ensures k < |free| && free[k] == head - k
  {
    if k > 0 {
      ChainFollows(m, roles, start, head, free, k - 1);
      assert LinkedAt(m, free, k - 1);
      assert Link(free, k) == head - k;
    }
  }

  function Descending(head: Ppn, n: nat): (s: seq<Ppn>)
    ensures |s| == n && forall i :: 0 <= i < n ==> s[i] == head - i
  {
    if n == 0 then [] else Descending(head, n - 1) + [head - n + 1]
  }

  /** Linked to NULL at the bottom, the same chain is the free list of exactly its pages. */
  lemma NullTerminatedIsFreeList(m: Frames, roles: Roles, start: Ppn, head: Ppn)
    requires 0 < start <= head
    requires forall p :: start <= p <= head ==> p in m && m[p] == Linked(if p == start then 0 else p - 1)
    requires forall p :: p in roles && roles[p].Free? <==> start <= p <= head
    ensures FreeList(m, roles, head, Descending(head, head - start + 1))
  {
    var free := Descending(head, head - start + 1);
    forall i | 0 <= i < |free| ensures LinkedAt(m, free, i) { assert free[i] == head - i; }
    forall p ensures OnList(free, p) <==> p in roles && roles[p].Free? {
      if start <= p <= head { assert free[head - p] == p; }
    }
  }

  /** The linking loop with an empty list to begin with. */
  method ChainUp(m: Frames, start: Ppn, head: Ppn) returns (m': Frames, list: Ppn)
    requires 0 < start <= head
    ensures list == head
    ensures forall p :: start <= p <= head ==> p in m' && m'[p] == Linked(if p == start then 0 else p - 1)
    ensures forall p :: !(start <= p <= head) ==> (p in m' <==> p in m) && (p in m ==> m'[p] == m[p])
  {
    m', list := m, 0;
    var pp := start;
    while pp <= head
      invariant start <= pp <= head + 1 && list == (if pp == start then 0 else pp - 1)
      invariant forall p :: start <= p < pp ==> p in m' && m'[p] == Linked(if p == start then 0 else p - 1)
      invariant forall p :: !(start <= p < pp) ==> (p in m' <==> p in m) && (p in m ==> m'[p] == m[p])
    {
      m' := m'[pp := Linked(list)];
      list := pp;
      pp := pp + 1;
    }
  }

  /**
   The start all memory results go by exists, for every layout and every pool of free pages: the tables
   memory_init builds in the image pages `p2`, `p1` and `p0`, and the pages `start` to `head` on a list
   that ends in NULL.
   */
  method StartManager(l: Layout, p2: Ppn, p1: Ppn, p0: Ppn, start: Ppn, head: Ppn) returns (mgr: Memory.Manager)
    requires Fits(l) && 0 < p2 && 0 < p1 && 0 < p0 && p2 != p1 && p2 != p0 && p1 != p0
    requires p2 < start && p1 < start && p0 < start <= head
    ensures fresh(mgr) && mgr.Valid() && mgr.main == mgr.active == p2 && mgr.free == Descending(head, head - start + 1)
    ensures forall vpn :: 0 <= vpn < (RAM_START + l.ramSize) / PAGE_SIZE ==> IdentityAt(mgr.page, p2, vpn)
  {
    hide KernelTables, Trees, FreeList, Fits, IdentityAt;
    var pt2, pt1, pt0 := InitTables(l, p1, p0);
    var m: Frames := map[p2 := Words(pt2), p1 := Words(pt1), p0 := Words(pt0)];
    var list;
    m, list := ChainUp(m, start, head);
    ghost var roles := StartRoles(m, p2, start);
    StartOk(l, m, p2, p1, p0, pt2, pt1, pt0, start, head);
    mgr := new Memory.Manager(m, list, p2, Descending(head, head - start + 1), roles);
  }

  /** The main table, the kernel's other tables below the pool, and the pool of free pages. */
  ghost function StartRoles(m: Frames, p2: Ppn, start: Ppn): Roles {
    map p | p in m :: if p == p2 then Node(p2, 2, 0, p2) else if p < start then KernelTable else Free
  }

  lemma StartOk(l: Layout, m: Frames, p2: Ppn, p1: Ppn, p0: Ppn, pt2: Table, pt1: Table, pt0: Table, start: Ppn,
      head: Ppn)
    requires Fits(l) && KernelTables(l, pt2, pt1, pt0, p1, p0) && p2 != p1 && p2 != p0 && p1 != p0
    requires 0 < p2 < start && 0 < p1 < start && 0 < p0 < start <= head
    requires p2 in m && p1 in m && p0 in m && m[p2] == Words(pt2) && m[p1] == Words(pt1) && m[p0] == Words(pt0)
    requires forall p :: p in m <==> p == p2 || p == p1 || p == p0 || start <= p <= head
    requires forall p :: start <= p <= head ==> p in m && m[p] == Linked(if p == start then 0 else p - 1)
    ensures var roles := StartRoles(m, p2, start);
            && Trees(m, roles, p2) && Memory.Scope(m, p2)
            && FreeList(m, roles, head, Descending(head, head - start + 1))
    ensures forall vpn :: 0 <= vpn < (RAM_START + l.ramSize) / PAGE_SIZE ==> IdentityAt(m, p2, vpn)
  {
    hide KernelTables, Trees, FreeList, HwWalk, PhysPage;
    var roles := StartRoles(m, p2, start);
    BootIsWellFormed(l, m, roles, p2, p1, p0, pt2, pt1, pt0);
    NullTerminatedIsFreeList(m, roles, start, head);
    forall vpn | 0 <= vpn < (RAM_START + l.ramSize) / PAGE_SIZE ensures IdentityAt(m, p2, vpn) {
      IdentityMap(l, m, p2, p1, p0, pt2, pt1, pt0, vpn);
    }
  }

  /** The page translates to itself. */
  ghost predicate IdentityAt(m: Frames, root: Ppn, vpn: int) {
    0 <= vpn < VPN_CNT && HwWalk(m, root, vpn, 2).Hit? && PhysPage(HwWalk(m, root, vpn, 2), vpn) == vpn
  }
}
