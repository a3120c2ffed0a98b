/**
 The page allocator and address-space operations of the kernel's memory manager.
 A page is handed out, mapped, cloned and freed in place; every operation keeps the page-table
 trees and the free list intact (`Valid`), so that the pool stays partitioned.
 */
module Memory {
  import opened Sv39
  import opened Spaces

  /** `Panic`: the kernel stopped because no free page was left. */
  datatype Outcome<T> = Done(value: T) | Panic

  const USER_START := 0xC_0000   // USER_START_VMA as a virtual page number
  const USER_END := 0xD_0000     // USER_END_VMA as a virtual page number

  predicate UserRegion(vpn: nat) { USER_START <= vpn < USER_END }

  /** Address bits 63:38 are all 0 or all 1. */
  predicate WellformedVma(vma: nat) { vma < 0x40_0000_0000 || 0xFFFF_FFC0_0000_0000 <= vma < 0x1_0000_0000_0000_0000 }

  /** The leaves memory_space_reclaim gives back: valid, not global, and readable, writable or executable. */
  predicate Reclaimable(e: Pte) { e.flags.v && !e.flags.g && e.flags.Rwx() }

  /** The leaves memory_unmap_and_free_user gives back. */
  predicate UserLeaf(e: Pte) { e.flags.v && e.flags.u && e.flags.Rwx() }

  /** `e'` is the entry of a private copy of the page that `e` maps. */
  predicate CopyOf(m: Frames, e: Pte, m': Frames, e': Pte) {
    && e'.flags.v == e.flags.v
    && (e.flags.v ==> e'.flags == e.flags && e.ppn in m && e'.ppn in m' && m'[e'.ppn] == m[e.ppn])
  }

  /** The user region lies outside the kernel's gigaranges. */
  predicate Scope(m: Frames, main: Ppn) {
    main in m && m[main].Words? && !m[main].ws[3].flags.g
  }

  /** walk_pt sets only the page number and the flags of an entry it fills. */
  function TablePte(e: Pte, n: Ppn): Pte { e.(ppn := n, flags := NO_FLAGS.(v := true)) }

  /** `pt` is the table that the walk for `vpn` stands at when it is about to look at `level`. */
  ghost predicate OnPath(m: Frames, roles: Roles, main: Ppn, root: Ppn, vpn: nat, level: nat, pt: Ppn)
    requires vpn < VPN_CNT
  {
    && pt in roles
    && (if UserVpn(m, main, vpn) then roles[pt].Node? && roles[pt].level == level && roles[pt].root == root
        else IsTable(roles[pt]) && (roles[pt].KernelTable? || pt == root))
    && (level == 2 ==> pt == root)
    && (level == 1 ==> pt == Next(m, root, Idx(vpn, 2)) && (!UserVpn(m, main, vpn) ==> roles[pt].KernelTable?))
    && (level == 0 ==> pt == SoftWalk(m, root, vpn))
  }

  lemma PathStep(m: Frames, roles: Roles, main: Ppn, root: Ppn, vpn: nat, level: nat, pt: Ppn)
    requires Trees(m, roles, main) && IsRoot(roles, root) && vpn < VPN_CNT && 0 < level <= 2
    requires OnPath(m, roles, main, root, vpn, level, pt)
    ensures pt in m && m[pt].Words?
    ensures var e := m[pt].ws[Idx(vpn, level)];
            && (e.flags.v && !e.flags.Rwx() ==> e.ppn != 0 && OnPath(m, roles, main, root, vpn, level - 1, e.ppn))
            && (!e.flags.v || e.flags.Rwx() ==> SoftWalk(m, root, vpn) == 0)
            && (e.flags.v && UserVpn(m, main, vpn) ==> !e.flags.Rwx())
            && (level == 2 && !UserVpn(m, main, vpn) ==> e == m[main].ws[Idx(vpn, 2)])
  {
    assert PageOk(m, roles, main, pt);
    assert PageOk(m, roles, main, root);
    assert PageOk(m, roles, main, main);
    var i := Idx(vpn, level);
    if roles[pt].Node? { assert EntryOk(m, roles, pt, i); }
    if level == 2 { assert KernelEntryOk(m, main, pt, i); }
  }

  lemma PathCreate(m: Frames, roles: Roles, main: Ppn, root: Ppn, vpn: nat, level: nat, pt: Ppn, n: Ppn)
    requires Trees(m, roles, main) && IsRoot(roles, root) && UserVpn(m, main, vpn) && 0 < level <= 2
    requires OnPath(m, roles, main, root, vpn, level, pt) && n in roles && roles[n].Free? && pt in m && m[pt].Words?
    ensures var i := Idx(vpn, level);
            var m' := SetEntry(m[n := Words(ZERO_TABLE)], pt, i, TablePte(m[pt].ws[i], n));
            var roles' := roles[n := Node(root, level - 1, roles[pt].key * PTE_CNT + i, pt)];
            OnPath(m', roles', main, root, vpn, level - 1, n)
  {
    assert PageOk(m, roles, main, root);
    assert PageOk(m, roles, main, main);
    assert PageOk(m, roles, main, pt);
  }

  /** Addresses memory_alloc_and_map_page maps: well-formed, page-aligned and not the kernel's. */
  predicate MapsAt(m: Frames, main: Ppn, vma: nat) {
    WellformedVma(vma) && vma % PAGE_SIZE == 0 && UserVpn(m, main, Vpn(vma))
  }

  /** Kernel pages and page tables keep their roles. */
  ghost predicate KeepsHeld(roles: Roles, roles': Roles) {
    && roles'.Keys == roles.Keys
    && forall p :: p in roles && (roles[p].Kernel? || IsTable(roles[p])) ==> roles'[p] == roles[p]
  }

  lemma SameLost(roles: Roles, roles': Roles)
    requires roles'.Keys == roles.Keys && forall p :: p in roles ==> (roles'[p].Lost? <==> roles[p].Lost?)
    ensures LostPages(roles') == LostPages(roles)
  {
    forall p ensures p in LostPages(roles') <==> p in LostPages(roles) {}
  }

  datatype Op =
    | Take
    | Give(p: Ppn)
    | MapAt(vpn: nat, f: Flags)
    | SetFlags(vpn: nat, f: Flags)
    | PageFault(va: nat)
    | CloneActive
    | SwitchTo(i: nat)
    | ExecUnmap
    | ExitReclaim

  /** The user page an operation maps, if it maps one. */
  predicate Maps(op: Op, vpn: nat) {
    UserRegion(vpn) && ((op.MapAt? && op.vpn == vpn) || (op.PageFault? && op.va / PAGE_SIZE == vpn))
  }

  /** The two agree on PTE_R, PTE_W, PTE_X, PTE_U and PTE_G. */
  predicate SameRights(f: Flags, g: Flags) { f.r == g.r && f.w == g.w && f.x == g.x && f.u == g.u && f.g == g.g }

  /** PTE_FLAGS_MASK cleared, then the given flags set. */
  function Reflagged(e: Flags, f: Flags): Flags { e.(r := false, w := false, x := false, u := false, g := false).Or(f) }

  /** PTE_R | PTE_W | PTE_U */
  const USER_RW := NO_FLAGS.(r := true, w := true, u := true)

  /** The held pages are the kernel's and the spaces are roots. */
  ghost predicate Known(roles: Roles, held: set<Ppn>, spaces: seq<Ppn>) {
    && |spaces| > 0
    && (forall p :: p in held ==> p in roles && roles[p].Kernel?)
    && (forall r :: r in spaces ==> IsRoot(roles, r))
  }

  /** `p` was free and is the kernel's now; otherwise pages went from free to tables only. */
  ghost predicate Prepared(roles: Roles, roles': Roles, p: Ppn) {
    && p in roles && roles[p].Free? && roles'.Keys == roles.Keys && roles'[p].Kernel?
    && (forall q :: q in roles && !roles[q].Free? ==> roles'[q] == roles[q])
    && (forall q :: q in roles && roles[q].Free? && q != p ==> roles'[q].Free? || IsTable(roles'[q]))
  }

  lemma LostByMapping(roles: Roles, m': Frames, roles': Roles, r: Ppn, vpn: nat, p: Ppn, t: Ppn)
    requires vpn < VPN_CNT && Prepared(roles, roles', p)
    requires Entry0(m', r, vpn).flags.v ==>
               Entry0(m', r, vpn).ppn in roles' && roles'[Entry0(m', r, vpn).ppn] == Node(r, -1, vpn, t)
    ensures var e, lost := Entry0(m', r, vpn), LostPages(Evict(m', roles', r, vpn, Lost)[p := Node(r, -1, vpn, t)]);
            && (!e.flags.v ==> lost == LostPages(roles))
            && (e.flags.v ==> lost == LostPages(roles) + {e.ppn} && e.ppn !in LostPages(roles))
    ensures KeepsHeld(roles, Evict(m', roles', r, vpn, Lost)[p := Node(r, -1, vpn, t)])
  {
    var e := Entry0(m', r, vpn);
    forall q ensures q in LostPages(roles') <==> q in LostPages(roles) {}
    var roles3 := Evict(m', roles', r, vpn, Lost)[p := Node(r, -1, vpn, t)];
    if e.flags.v {
      assert e.ppn != p;
      assert LostPages(roles3) == LostPages(roles') + {e.ppn};
    } else {
      assert LostPages(roles3) == LostPages(roles');
    }
  }

  /** The child's entry for `vpn` once the pages below `n` are cloned. */
  ghost predicate ClonedEntry(m: Frames, roles: Roles, m': Frames, parent: Ppn, child: Ppn, n: nat, vpn: nat)
    requires vpn < VPN_CNT
  {
    var e, e' := Entry0(m, parent, vpn), Entry0(m', child, vpn);
    if USER_START <= vpn < n
    then CopyOf(m, e, m', e') && (e.flags.v ==> e'.ppn in roles && roles[e'.ppn].Free?)
    else e' == NULL_PTE
  }

  /**
   `child` is a new space holding private copies of the parent's user pages below `n`; every page
   in use before keeps its role and contents, and every other space its translations.
   */
  ghost predicate ClonedUpto(m: Frames, roles: Roles, main: Ppn, m': Frames, roles': Roles, parent: Ppn, child: Ppn,
      n: nat) {
    && child in roles && roles[child].Free? && IsRoot(roles', child) && IsRoot(roles', parent)
    && roles'.Keys == roles.Keys == m.Keys == m'.Keys
    && (forall p :: p in roles && !roles[p].Free? ==> roles'[p] == roles[p] && m'[p] == m[p])
    && (forall p :: p in roles && roles[p].Free? ==> roles'[p].Free? || (roles'[p].Node? && roles'[p].root == child))
    && SameEntries(m, roles, main, m') && SameKernel(m, roles, main, m')
    && (forall vpn {:trigger Entry0(m', child, vpn)} :: UserVpn(m, main, vpn) ==>
         ClonedEntry(m, roles, m', parent, child, n, vpn))
  }

  lemma CloneStart(m: Frames, roles: Roles, main: Ppn, parent: Ppn, child: Ppn, ws: Table)
    requires Trees(m, roles, main) && IsRoot(roles, parent) && child in roles && roles[child].Free?
    requires forall i :: 0 <= i < PTE_CNT ==>
               main in m && m[main].Words? && ws[i] == if m[main].ws[i].flags.g then m[main].ws[i] else NULL_PTE
    ensures var m', roles' := m[child := Words(ws)], roles[child := Node(child, 2, 0, child)];
            Trees(m', roles', main) && ClonedUpto(m, roles, main, m', roles', parent, child, USER_START)
  {
    ReuseSpare(m, roles, main, child, Words(ZERO_TABLE), Kernel);
    var m1, roles1 := m[child := Words(ZERO_TABLE)], roles[child := Kernel];
    NewRoot(m1, roles1, main, child, ws);
    var m', roles' := m[child := Words(ws)], roles[child := Node(child, 2, 0, child)];
    assert m' == m1[child := Words(ws)] && roles' == roles1[child := Node(child, 2, 0, child)];
    SameTrans(m, roles, main, m1, roles1, m');
    forall vpn: nat | UserVpn(m, main, vpn) ensures ClonedEntry(m, roles, m', parent, child, USER_START, vpn) {
      assert UserVpn(m1, main, vpn);
    }
  }

  lemma CloneStep(m: Frames, roles: Roles, main: Ppn, m1: Frames, roles1: Roles, m2: Frames, roles2: Roles,
      parent: Ppn, child: Ppn, n: nat)
    requires Trees(m, roles, main) && Trees(m1, roles1, main) && IsRoot(roles, parent) && UserRegion(n)
    requires UserVpn(m, main, n)
    requires ClonedUpto(m, roles, main, m1, roles1, parent, child, n)
    requires Grown(m1, roles1, m2, roles2, child, FRAMES)
    requires SameEntriesBut(m1, roles1, main, m2, child, n) && SameKernel(m1, roles1, main, m2)
    requires var e, e' := Entry0(m1, parent, n), Entry0(m2, child, n);
             CopyOf(m1, e, m2, e') && (e.flags.v ==> e'.ppn in roles1 && roles1[e'.ppn].Free?)
    ensures ClonedUpto(m, roles, main, m2, roles2, parent, child, n + 1)
  {
    forall p | p in roles && !roles[p].Free? ensures roles2[p] == roles[p] && m2[p] == m[p] {
      assert PageOk(m, roles, main, p);
    }
    forall r, vpn | IsRoot(roles, r) && UserVpn(m, main, vpn) ensures Entry0(m2, r, vpn) == Entry0(m, r, vpn) {
      assert Entry0(m1, r, vpn) == Entry0(m, r, vpn);
    }
    if Entry0(m, parent, n).flags.v { EntryRoles(m, roles, main, parent, n); }
    forall vpn: nat | UserVpn(m, main, vpn) ensures ClonedEntry(m, roles, m2, parent, child, n + 1, vpn) {
      assert Entry0(m1, parent, vpn) == Entry0(m, parent, vpn);
      assert ClonedEntry(m, roles, m1, parent, child, n, vpn) by { var _ := Entry0(m1, child, vpn); }
      if vpn != n {
        assert Entry0(m2, child, vpn) == Entry0(m1, child, vpn);
        if Entry0(m1, child, vpn).flags.v { EntryRoles(m1, roles1, main, child, vpn); }
      }
    }
  }

  /** Which of the two sweeps over the user region is meant. */
  datatype Sweep = Reclaim | UnmapUser

  predicate Takes(w: Sweep, e: Pte) { if w.Reclaim? then Reclaimable(e) else UserLeaf(e) }

  /** Page `p` is a frame of space `r` that the sweep has taken once it is past the pages below `n`. */
  predicate Released(m: Frames, roles: Roles, r: Ppn, w: Sweep, n: nat, p: Ppn) {
    && p in roles && roles[p].Node? && roles[p].level == -1 && roles[p].root == r
    && USER_START <= roles[p].key < n && roles[p].key < VPN_CNT && Takes(w, Entry0(m, r, roles[p].key))
  }

  /** What the sweep has done to the entry of `vpn` in space `r'`. */
  predicate SweptEntry(m: Frames, m': Frames, r: Ppn, w: Sweep, n: nat, r': Ppn, vpn: nat)
    requires vpn < VPN_CNT
  {
    if r' == r && USER_START <= vpn < n && Takes(w, Entry0(m, r, vpn))
    then Entry0(m', r, vpn).flags == NO_FLAGS else Entry0(m', r', vpn) == Entry0(m, r', vpn)
  }

  /**
   Exactly the released frames went from space `r` to the free list; every other page keeps its
   role, every other user page of every space its entry, and pages other than the tables of `r`
   their contents.
   */
  ghost predicate SweptUpto(m: Frames, roles: Roles, main: Ppn, m': Frames, roles': Roles, r: Ppn, w: Sweep, n: nat) {
    && roles'.Keys == roles.Keys == m.Keys == m'.Keys && IsRoot(roles', r)
    && (forall p {:trigger roles'[p]} :: p in roles ==>
         roles'[p] == if Released(m, roles, r, w, n, p) then Free else roles[p])
    && (forall p :: p in roles && !roles'[p].Free? && !TableOf(roles[p], r) ==> m'[p] == m[p])
    && SameKernel(m, roles, main, m')
    && (forall r', vpn: nat {:trigger Entry0(m', r', vpn)} :: IsRoot(roles, r') && UserVpn(m, main, vpn) ==>
         SweptEntry(m, m', r, w, n, r', vpn))
  }

  lemma SweepStart(m: Frames, roles: Roles, main: Ppn, r: Ppn, w: Sweep)
    requires Trees(m, roles, main) && IsRoot(roles, r)
    ensures SweptUpto(m, roles, main, m, roles, r, w, USER_START)
  {
    TablesDecide(m, roles, main, m);
    forall r', vpn: nat | IsRoot(roles, r') && UserVpn(m, main, vpn)
      ensures SweptEntry(m, m, r, w, USER_START, r', vpn)
    {
    }
  }

  /** The sweep passes over an entry it does not take. */
  lemma SweepSkip(m: Frames, roles: Roles, main: Ppn, m1: Frames, roles1: Roles, r: Ppn, w: Sweep, n: nat)
    requires Trees(m, roles, main) && SweptUpto(m, roles, main, m1, roles1, r, w, n) && UserRegion(n)
    requires UserVpn(m, main, n)
    requires IsRoot(roles, r) && !Takes(w, Entry0(m, r, n))
    ensures SweptUpto(m, roles, main, m1, roles1, r, w, n + 1)
  {
    forall p | p in roles ensures roles1[p] == if Released(m, roles, r, w, n + 1, p) then Free else roles[p] {
      assert roles1[p] == if Released(m, roles, r, w, n, p) then Free else roles[p];
    }
    forall r', vpn: nat | IsRoot(roles, r') && UserVpn(m, main, vpn) ensures SweptEntry(m, m1, r, w, n + 1, r', vpn) {
      assert SweptEntry(m, m1, r, w, n, r', vpn) by { var _ := Entry0(m1, r', vpn); }
    }
  }

  lemma SweepTake(m: Frames, roles: Roles, main: Ppn, m1: Frames, roles1: Roles, m2: Frames, r: Ppn, w: Sweep, n: nat)
    requires Trees(m, roles, main) && IsRoot(roles, r) && SweptUpto(m, roles, main, m1, roles1, r, w, n)
    requires UserRegion(n) && UserVpn(m, main, n)
    requires var e := Entry0(m, r, n); Takes(w, e) && e.ppn in roles1
    requires m2.Keys == m1.Keys && SameEntriesBut(m1, roles1, main, m2, r, n) && SameKernel(m1, roles1, main, m2)
    requires Entry0(m2, r, n).flags == NO_FLAGS
    requires forall p :: p in m1 && p != Entry0(m, r, n).ppn && !TableOf(roles[p], r) ==> m2[p] == m1[p]
    ensures SweptUpto(m, roles, main, m2, roles1[Entry0(m, r, n).ppn := Free], r, w, n + 1)
  {
    hide SweptEntry, SoftWalk, SameEntriesBut;
    EntryRoles(m, roles, main, r, n);
    var roles2 := roles1[Entry0(m, r, n).ppn := Free];
    forall p | p in roles ensures roles2[p] == if Released(m, roles, r, w, n + 1, p) then Free else roles[p] {
      ReleasedNext(m, roles, main, r, w, n, p);
      assert roles1[p] == if Released(m, roles, r, w, n, p) then Free else roles[p];
    }
    forall r', vpn: nat | IsRoot(roles, r') && UserVpn(m, main, vpn) ensures SweptEntry(m, m2, r, w, n + 1, r', vpn) {
      SweepTakeEntry(m, roles, main, m1, roles1, m2, r, w, n, r', vpn);
    }
    forall p | p in roles && !roles2[p].Free? && !TableOf(roles[p], r) ensures m2[p] == m[p] {
      assert m1[p] == m[p];
    }
    forall p | p in roles && roles[p].KernelTable? ensures roles1[p].KernelTable? {}
    KernelTrans(m, roles, main, m1, roles1, m2);
  }

  lemma SweepTakeEntry(m: Frames, roles: Roles, main: Ppn, m1: Frames, roles1: Roles, m2: Frames, r: Ppn, w: Sweep,
      n: nat, r': Ppn, vpn: nat)
    requires SweptUpto(m, roles, main, m1, roles1, r, w, n) && UserRegion(n)
    requires SameEntriesBut(m1, roles1, main, m2, r, n) && Entry0(m2, r, n).flags == NO_FLAGS
    requires Takes(w, Entry0(m, r, n))
    requires IsRoot(roles, r') && UserVpn(m, main, vpn)
    ensures SweptEntry(m, m2, r, w, n + 1, r', vpn)
  {
    assert IsRoot(roles1, r') by { assert roles1[r'] == if Released(m, roles, r, w, n, r') then Free else roles[r']; }
    assert SweptEntry(m, m1, r, w, n, r', vpn) by { var _ := Entry0(m1, r', vpn); }
    if r' != r || vpn != n { assert Entry0(m2, r', vpn) == Entry0(m1, r', vpn); }
  }

  /** Passing page `n` adds exactly the frame mapped there to the released ones. */
  lemma ReleasedNext(m: Frames, roles: Roles, main: Ppn, r: Ppn, w: Sweep, n: nat, p: Ppn)
    requires Trees(m, roles, main) && IsRoot(roles, r) && UserRegion(n) && UserVpn(m, main, n) && p in roles
    requires Takes(w, Entry0(m, r, n))
    ensures Released(m, roles, r, w, n + 1, p) <==> Released(m, roles, r, w, n, p) || p == Entry0(m, r, n).ppn
  {
    EntryRoles(m, roles, main, r, n);
    if roles[p].Node? && roles[p].level == -1 && roles[p].root == r && roles[p].key == n {
      FramesAreMapped(m, roles, main, p);
    }
  }

  // ----- What the contracts below say about hardware translation

  /** Where no level-0 entry and no kernel mapping changed, hardware translates as before. */
  lemma TranslationSame(m: Frames, roles: Roles, main: Ppn, m': Frames, roles': Roles, r: Ppn, vpn: nat)
    requires Trees(m, roles, main) && Trees(m', roles', main) && IsRoot(roles, r) && IsRoot(roles', r) && vpn < VPN_CNT
    requires SameKernel(m, roles, main, m') && (UserVpn(m, main, vpn) ==> Entry0(m', r, vpn) == Entry0(m, r, vpn))
    ensures HwWalk(m', r, vpn, 2) == HwWalk(m, r, vpn, 2)
  {
    Translation(m, roles, main, r, vpn);
    Translation(m', roles', main, r, vpn);
    if !UserVpn(m, main, vpn) { KernelTranslationSame(m, roles, main, m', vpn); }
  }

  /**
   In hardware terms, changing the level-0 entry of one user page of space `a` (mapping it, unmapping
   it, or setting its flags): that page translates by the new entry, and every other page of every
   space as before.
   */
  lemma MapTranslates(m: Frames, roles: Roles, main: Ppn, m': Frames, roles': Roles, a: Ppn, vpn0: nat, r: Ppn,
      vpn: nat)
    requires Trees(m, roles, main) && Trees(m', roles', main) && IsRoot(roles, a) && UserVpn(m, main, vpn0)
    requires IsRoot(roles, r) && IsRoot(roles', r) && vpn < VPN_CNT
    requires SameEntriesBut(m, roles, main, m', a, vpn0) && SameKernel(m, roles, main, m')
    ensures HwWalk(m', r, vpn, 2) ==
            if r == a && vpn == vpn0 then LeafXlat(Entry0(m', a, vpn0)) else HwWalk(m, r, vpn, 2)
  {
    if r == a && vpn == vpn0 {
      Translation(m', roles', main, r, vpn);
    } else {
      TranslationSame(m, roles, main, m', roles', r, vpn);
    }
  }

  /**
   A clone is a deep copy that preserves meaning. Every existing space translates as before. In the
   child, kernel addresses translate as in the main table; a page of the user region is mapped
   exactly when it is in the parent, with equal flags, to another frame with equal contents; and
   everything else faults.
   */
  lemma CloneIsDeepCopy(m: Frames, roles: Roles, main: Ppn, m': Frames, roles': Roles, parent: Ppn, child: Ppn,
      vpn: nat)
    requires Trees(m, roles, main) && Trees(m', roles', main) && IsRoot(roles, parent) && vpn < VPN_CNT
    requires ClonedUpto(m, roles, main, m', roles', parent, child, USER_END)
    ensures forall r :: IsRoot(roles, r) ==> HwWalk(m', r, vpn, 2) == HwWalk(m, r, vpn, 2)
    ensures var x, x' := HwWalk(m, parent, vpn, 2), HwWalk(m', child, vpn, 2);
            if !UserVpn(m, main, vpn) then x' == HwWalk(m, main, vpn, 2)
            else if UserRegion(vpn) then
              && (x'.Hit? <==> x.Hit?)
              && (x.Hit? ==>
                && x'.level == x.level == 0 && x'.pte.flags == x.pte.flags && x'.pte.ppn != x.pte.ppn
                && x'.pte.ppn in m' && x.pte.ppn in m && m'[x'.pte.ppn] == m[x.pte.ppn] == m'[x.pte.ppn])
            else x'.Fault?
  {
    forall r | IsRoot(roles, r) ensures HwWalk(m', r, vpn, 2) == HwWalk(m, r, vpn, 2) {
      if UserVpn(m, main, vpn) { assert Entry0(m', r, vpn) == Entry0(m, r, vpn); }
      TranslationSame(m, roles, main, m', roles', r, vpn);
    }
    Translation(m, roles, main, parent, vpn);
    Translation(m', roles', main, child, vpn);
    if UserVpn(m, main, vpn) {
      assert ClonedEntry(m, roles, m', parent, child, USER_END, vpn) by { var _ := Entry0(m', child, vpn); }
      var e, e' := Entry0(m, parent, vpn), Entry0(m', child, vpn);
      if e.flags.v && UserRegion(vpn) {
        EntryRoles(m, roles, main, parent, vpn);
        EntryRoles(m', roles', main, child, vpn);
      }
    } else {
      KernelTranslationSame(m, roles, main, m', vpn);
    }
  }

  /**
   After a sweep of the user region, hardware faults on exactly the pages taken and translates
   everything else, in every space, as before; the frames taken are the pages newly free.
   */
  lemma SweepTranslates(m: Frames, roles: Roles, main: Ppn, m': Frames, roles': Roles, r: Ppn, w: Sweep, r': Ppn,
      vpn: nat)
    requires Trees(m, roles, main) && Trees(m', roles', main) && IsRoot(roles, r) && IsRoot(roles, r') && vpn < VPN_CNT
    requires SweptUpto(m, roles, main, m', roles', r, w, USER_END)
    ensures var taken := r' == r && UserVpn(m, main, vpn) && UserRegion(vpn) && Takes(w, Entry0(m, r, vpn));
            && HwWalk(m', r', vpn, 2) == (if taken then Fault else HwWalk(m, r', vpn, 2))
            && (taken ==> Entry0(m, r, vpn).ppn in roles' && roles'[Entry0(m, r, vpn).ppn].Free?)
  {
    assert IsRoot(roles', r') by { var _ := roles'[r']; }
    if UserVpn(m, main, vpn) {
      assert SweptEntry(m, m', r, w, USER_END, r', vpn) by { var _ := Entry0(m', r', vpn); }
      if r' == r && UserRegion(vpn) && Takes(w, Entry0(m, r, vpn)) {
        EntryRoles(m, roles, main, r, vpn);
        Translation(m', roles', main, r, vpn);
        var p := Entry0(m, r, vpn).ppn;
        assert Released(m, roles, r, w, USER_END, p);
        assert roles'[p].Free?;
      } else {
        TranslationSame(m, roles, main, m', roles', r', vpn);
      }
    } else {
      TranslationSame(m, roles, main, m', roles', r', vpn);
    }
  }

  // ----- The sweeps, page by page and bit by bit

  /** What a sweep does to one page of space `r`: if it `goes`, its frame is free and it faults; else it stays. */
  ghost predicate PageSwept(m: Frames, roles: Roles, m': Frames, roles': Roles, r: Ppn, vpn: int, goes: bool) {
    && 0 <= vpn < VPN_CNT
    && var e := Entry0(m, r, vpn);
       if goes then e.ppn in roles' && roles'[e.ppn].Free? && HwWalk(m', r, vpn, 2).Fault?
       else
         && Entry0(m', r, vpn) == e && HwWalk(m', r, vpn, 2) == HwWalk(m, r, vpn, 2)
         && (e.flags.v ==> e.ppn in roles && e.ppn in roles' && roles'[e.ppn] == roles[e.ppn])
  }

  /** PTE_V is set, PTE_G is not, and one of PTE_R, PTE_W and PTE_X is. */
  predicate PrivateLeaf(f: Flags) { f.v && !f.g && (f.r || f.w || f.x) }

  /** PTE_V, PTE_U and one of PTE_R, PTE_W and PTE_X are set. */
  predicate UserAccessible(f: Flags) { f.v && f.u && (f.r || f.w || f.x) }

  /** Page `p` was the frame of a page of the user region of space `r` that goes. */
  ghost predicate WasFrame(m: Frames, r: Ppn, p: Ppn, goes: Flags -> bool) {
    exists vpn :: 0xC_0000 <= vpn < 0xD_0000 && goes(Entry0(m, r, vpn).flags) && Entry0(m, r, vpn).ppn == p
  }

  lemma SweptPage(m: Frames, roles: Roles, main: Ppn, m': Frames, roles': Roles, r: Ppn, w: Sweep, vpn: nat)
    requires Trees(m, roles, main) && Trees(m', roles', main) && IsRoot(roles, r) && Scope(m, main)
    requires SweptUpto(m, roles, main, m', roles', r, w, USER_END) && 0xC_0000 <= vpn < 0xD_0000
    ensures PageSwept(m, roles, m', roles', r, vpn, Takes(w, Entry0(m, r, vpn)))
  {
    assert Idx(vpn, 2) == 3 && UserVpn(m, main, vpn);
    SweepTranslates(m, roles, main, m', roles', r, w, r, vpn);
    assert SweptEntry(m, m', r, w, USER_END, r, vpn) by { var _ := Entry0(m', r, vpn); }
    var e := Entry0(m, r, vpn);
    if e.flags.v && !Takes(w, e) {
      EntryRoles(m, roles, main, r, vpn);
      assert roles'[e.ppn] == roles[e.ppn];
    }
  }

  /** Only frames of pages that go become free, and no page changes its role otherwise. */
  lemma SweptRoles(m: Frames, roles: Roles, main: Ppn, m': Frames, roles': Roles, r: Ppn, w: Sweep, p: Ppn,
      goes: Flags -> bool)
    requires Trees(m, roles, main) && SweptUpto(m, roles, main, m', roles', r, w, USER_END) && p in roles
    requires forall e: Pte {:trigger Takes(w, e)} :: Takes(w, e) <==> goes(e.flags)
    ensures p in roles' && (roles'[p] == roles[p] || (roles'[p].Free? && WasFrame(m, r, p, goes)))
  {
    var o := roles'[p];
    if Released(m, roles, r, w, USER_END, p) {
      FramesAreMapped(m, roles, main, p);
      var vpn := roles[p].key;
      assert Takes(w, Entry0(m, r, vpn)) && Entry0(m, r, vpn).ppn == p;
    }
  }

  /** Well-formed 64-bit addresses are those whose bits 63 to 38 agree. */
  lemma WellformedIs(vma: nat)
    requires vma < 0x1_0000_0000_0000_0000
    ensures WellformedVma(vma) <==> vma / 0x40_0000_0000 == 0 || vma / 0x40_0000_0000 == 0x3FF_FFFF
  {
  }

  class Manager {
    var page: Frames              // contents of every page of RAM
    var freeHead: Ppn             // free_list
    var active: Ppn               // root table named by satp
    const main: Ppn               // main_pt2
    ghost var free: seq<Ppn>
    ghost var roles: Roles

    ghost predicate Valid()
      reads this
    {
      && FreeList(page, roles, freeHead, free) && Trees(page, roles, main)
      && Scope(page, main) && IsRoot(roles, active)
    }

    /** A memory with a null-terminated free list of the free pages and a main table. */
    constructor (page: Frames, freeHead: Ppn, main: Ppn, ghost free: seq<Ppn>, ghost roles: Roles)
      requires FreeList(page, roles, freeHead, free) && Trees(page, roles, main)
      requires Scope(page, main)
      ensures Valid() && this.page == page && this.roles == roles && this.free == free && this.active == main
      ensures this.main == main
    {
      this.page, this.freeHead, this.main, this.active := page, freeHead, main, main;
      this.free, this.roles := free, roles;
    }

    /** memory_alloc_page: takes the first free page and zeroes it. */
    method AllocPage() returns (o: Outcome<Ppn>)
      requires FreeList(page, roles, freeHead, free) && 0 !in page
      modifies this`page, this`freeHead, this`free, this`roles
      ensures FreeList(page, roles, freeHead, free)
      ensures o.Panic? <==> old(free) == []
      ensures o.Panic? ==> page == old(page) && freeHead == old(freeHead) && free == old(free) && roles == old(roles)
      ensures o.Done? ==>
        && o.value == old(freeHead) == old(free)[0] && free == old(free)[1..]
        && o.value in old(page) && old(page)[o.value].Linked? && freeHead == old(page)[o.value].next
        && o.value in old(roles) && old(roles)[o.value].Free?
        && page == old(page)[o.value := Words(ZERO_TABLE)] && roles == old(roles)[o.value := Kernel]
    {
      if free != [] { FreeListPop(page, roles, freeHead, free, Words(ZERO_TABLE), Kernel); }
      if freeHead == 0 { return Panic; }
      var p := freeHead;
      freeHead := page[p].next;
      page := page[p := Words(ZERO_TABLE)];
      free, roles := free[1..], roles[p := Kernel];
      return Done(p);
    }

    /** A page for the kernel's own use: no space's translations change. */
    method AllocKernelPage() returns (o: Outcome<Ppn>)
      requires Valid()
      modifies this`page, this`freeHead, this`free, this`roles
      ensures Valid()
      ensures o.Panic? <==> old(free) == []
      ensures o.Panic? ==> page == old(page) && free == old(free) && roles == old(roles)
      ensures o.Done? ==> o.value in old(roles) && old(roles)[o.value].Free? && roles == old(roles)[o.value := Kernel]
                          && page == old(page)[o.value := Words(ZERO_TABLE)] && old(free) == [o.value] + free
      ensures SameEntries(old(page), old(roles), main, page) && SameKernel(old(page), old(roles), main, page)
    {
      o := AllocPage();
      if o.Done? {
        ReuseSpare(old(page), old(roles), main, o.value, Words(ZERO_TABLE), Kernel);
      } else {
        TablesDecide(page, roles, main, page);
      }
    }

    /** memory_free_page: zeroes the page and links it in front of the free list. */
    method FreePage(p: Ppn)
      requires FreeList(page, roles, freeHead, free) && p in page && p in roles && !roles[p].Free? && p != 0
      modifies this`page, this`freeHead, this`free, this`roles
      ensures FreeList(page, roles, freeHead, free)
      ensures free == [p] + old(free) && page == old(page)[p := Linked(old(freeHead))] && roles == old(roles)[p := Free]
    {
      FreeListPush(page, roles, freeHead, free, p);
      page := page[p := Linked(freeHead)];
      freeHead := p;
      free, roles := [p] + free, roles[p := Free];
    }

    /** Freeing a page the kernel held: the inverse of AllocPage on roles. */
    method FreeKernelPage(p: Ppn)
      requires Valid() && p in roles && roles[p].Kernel?
      modifies this`page, this`freeHead, this`free, this`roles
      ensures Valid() && free == [p] + old(free) && roles == old(roles)[p := Free]
      ensures forall q :: q in page && q != p ==> page[q] == old(page)[q]
      ensures SameEntries(old(page), old(roles), main, page) && SameKernel(old(page), old(roles), main, page)
    {
      ReuseSpare(page, roles, main, p, Linked(freeHead), Free);
      FreePage(p);
    }

    /** Where walk_pt with create is used: not inside the gigarange of the kernel's own tables. */
    ghost predicate Creatable(vpn: nat)
      reads this
    {
      vpn < VPN_CNT && main in page && page[main].Words? &&
      (UserVpn(page, main, vpn) || (page[main].ws[Idx(vpn, 2)].flags.v && page[main].ws[Idx(vpn, 2)].flags.Rwx()))
    }

    /**
     walk_pt. The result is the level-0 table whose entry for `vpn` is meant, 0 for NULL.
     With `create` only zeroed tables are added, so no translation changes in any space.
     */
    method WalkPt(root: Ppn, vpn: nat, create: bool) returns (o: Outcome<Ppn>)
      requires Valid() && IsRoot(roles, root) && vpn < VPN_CNT && (create ==> Creatable(vpn))
      modifies this`page, this`freeHead, this`free, this`roles
      ensures Valid()
      ensures !create ==> o.Done? && page == old(page) && roles == old(roles) && free == old(free)
      ensures o.Panic? ==> free == []
      ensures o.Done? ==> o.value == SoftWalk(page, root, vpn)
      ensures o.Done? && create ==> (o.value != 0 <==> UserVpn(page, main, vpn))
      ensures o == Done(0) ==> page == old(page) && roles == old(roles) && free == old(free)
      ensures Grown(old(page), old(roles), page, roles, root, TABLES)
      ensures SameEntries(old(page), old(roles), main, page) && SameKernel(old(page), old(roles), main, page)
    {
      var pt, level := root, 2;
      TablesDecide(page, roles, main, page);
      while level > 0
        invariant 0 <= level <= 2 && Valid() && IsRoot(roles, root)
        invariant !create ==> page == old(page) && roles == old(roles) && free == old(free)
        invariant create ==> Creatable(vpn)
        invariant level == 2 ==> page == old(page) && roles == old(roles) && free == old(free)
        invariant level < 2 ==> pt != 0
        invariant Grown(old(page), old(roles), page, roles, root, TABLES)
        invariant SameEntries(old(page), old(roles), main, page) && SameKernel(old(page), old(roles), main, page)
        invariant OnPath(page, roles, main, root, vpn, level, pt) && (create && level < 2 ==> UserVpn(page, main, vpn))
      {
        label L:
        ghost var m1, roles1 := page, roles;
        var n := WalkLevel(root, vpn, level, pt, create);
        GrownTrans(old(page), old(roles), m1, roles1, page, roles, root, TABLES);
        SameTrans(old(page), old(roles), main, m1, roles1, page);
        if n.Panic? { return Panic; }
        if n.value == 0 { return Done(0); }
        pt, level := n.value, level - 1;
      }
      return Done(pt);
    }

    /** One iteration of walk_pt's loop: the next table, created where asked for; 0 to give up. */
    method WalkLevel(root: Ppn, vpn: nat, level: nat, pt: Ppn, create: bool) returns (o: Outcome<Ppn>)
      requires Valid() && IsRoot(roles, root) && vpn < VPN_CNT && (create ==> Creatable(vpn))
      requires 0 < level <= 2 && OnPath(page, roles, main, root, vpn, level, pt)
      requires (create && level < 2 ==> UserVpn(page, main, vpn))
      modifies this`page, this`freeHead, this`free, this`roles
      ensures Valid()
      ensures !create ==> o.Done? && page == old(page) && roles == old(roles) && free == old(free)
      ensures o.Panic? ==> free == []
      ensures o.Done? && o.value != 0 ==> OnPath(page, roles, main, root, vpn, level - 1, o.value)
      ensures o == Done(0) ==>
                SoftWalk(page, root, vpn) == 0 && page == old(page) && roles == old(roles) && free == old(free)
      ensures o.Done? && create ==> (o.value != 0 <==> UserVpn(page, main, vpn))
      ensures Grown(old(page), old(roles), page, roles, root, TABLES)
      ensures SameEntries(old(page), old(roles), main, page) && SameKernel(old(page), old(roles), main, page)
    {
      PathStep(page, roles, main, root, vpn, level, pt);
      var i := Idx(vpn, level);
      var e := page[pt].ws[i];
      if e.flags.v {
        TablesDecide(page, roles, main, page);
        return Done(if e.flags.Rwx() then 0 else e.ppn);
      } else if create {
        o := CreateTable(root, pt, i);
        if o.Done? { PathCreate(old(page), old(roles), main, root, vpn, level, pt, o.value); }
      } else {
        TablesDecide(page, roles, main, page);
        return Done(0);
      }
    }

    /** The create branch of walk_pt: a fresh table behind an invalid entry. */
    method CreateTable(ghost root: Ppn, pt: Ppn, i: nat) returns (o: Outcome<Ppn>)
      requires Valid() && pt in roles && roles[pt].Node? && 1 <= roles[pt].level <= 2 && roles[pt].root == root
      requires i < PTE_CNT && page[pt].Words? && !page[pt].ws[i].flags.v
      requires roles[pt].level == 2 ==> !page[main].ws[i].flags.g
      modifies this`page, this`freeHead, this`free, this`roles
      ensures Valid()
      ensures o.Panic? ==> free == [] && page == old(page) && roles == old(roles)
      ensures o.Done? ==>
        && o.value in old(roles) && old(roles)[o.value].Free?
        && page == SetEntry(old(page)[o.value := Words(ZERO_TABLE)], pt, i, TablePte(old(page)[pt].ws[i], o.value))
        && roles == old(roles)[o.value := Node(root, old(roles)[pt].level - 1, old(roles)[pt].key * PTE_CNT + i, pt)]
      ensures Grown(old(page), old(roles), page, roles, root, TABLES)
      ensures SameEntries(old(page), old(roles), main, page) && SameKernel(old(page), old(roles), main, page)
    {
      assert PageOk(page, roles, main, pt);
      assert EntryOk(page, roles, pt, i);
      if roles[pt].level == 2 { assert KernelEntryOk(page, main, pt, i); }
      ghost var m0, roles0, head0, free0 := page, roles, freeHead, free;
      var e := page[pt].ws[i];
      o := AllocPage();
      if o.Panic? {
        TablesDecide(page, roles, main, page);
        return;
      }
      CreateEffect(m0, roles0, main, head0, free0, pt, i, o.value, TablePte(e, o.value));
      page := SetEntry(page, pt, i, TablePte(e, o.value));
      roles := roles0[o.value := Node(root, roles0[pt].level - 1, roles0[pt].key * PTE_CNT + i, pt)];
    }

    /** `*pte = leaf_pte(...)`: the level-0 entry comes to name a page the kernel just took. */
    method MapFresh(r: Ppn, vpn: nat, t: Ppn, e: Pte)
      requires Valid() && IsRoot(roles, r) && UserVpn(page, main, vpn) && t == SoftWalk(page, r, vpn) != 0
      requires e.flags.v && e.hi == 0 && e.ppn in roles && roles[e.ppn].Kernel? && page[e.ppn].Words?
      modifies this`page, this`roles
      ensures Valid() && t in old(page) && old(page)[t].Words? && page == SetEntry(old(page), t, Idx(vpn, 0), e)
      ensures roles == Evict(old(page), old(roles), r, vpn, Lost)[e.ppn := Node(r, -1, vpn, t)]
      ensures t in roles && roles[t].Node? && roles[t].root == r && roles[t].level == 0
      ensures SameEntriesBut(old(page), old(roles), main, page, r, vpn) && SameKernel(old(page), old(roles), main, page)
      ensures Entry0(page, r, vpn) == e
      ensures Entry0(old(page), r, vpn).flags.v ==>
        Entry0(old(page), r, vpn).ppn in old(roles) && old(roles)[Entry0(old(page), r, vpn).ppn] == Node(r, -1, vpn, t)
    {
      ghost var m2, roles2 := page, roles;
      MapEffect(page, roles, main, r, vpn, e);
      page := SetEntry(page, t, Idx(vpn, 0), e);
      roles := Evict(m2, roles2, r, vpn, Lost)[e.ppn := Node(r, -1, vpn, t)];
      FreeListKept(m2, roles2, freeHead, free, page, roles);
    }

    /**
     The first half of memory_alloc_and_map_page: a page `p` and the level-0 table `t`, or t = 0 with
     `p` given back.
     */
    method AllocAndWalk(vpn: nat) returns (o: Outcome<(Ppn, Ppn)>)
      requires Valid() && Creatable(vpn)
      modifies this`page, this`freeHead, this`free, this`roles
      ensures Valid() && (o.Panic? ==> free == [])
      ensures SameEntries(old(page), old(roles), main, page) && SameKernel(old(page), old(roles), main, page)
      ensures o.Done? ==> var (p, t) := o.value;
        && (t != 0 <==> UserVpn(page, main, vpn))
        && (t == 0 ==> free == old(free) && roles == old(roles))
        && (t != 0 ==> t == SoftWalk(page, active, vpn) && Prepared(old(roles), roles, p))
        && (t != 0 ==> p in page && page[p] == Words(ZERO_TABLE))
    {
      hide FreeList, SameEntries, SameKernel, SoftWalk;
      ghost var m0, roles0 := page, roles;
      var a := AllocKernelPage();
      if a.Panic? { return Panic; }
      ghost var m1, roles1 := page, roles;
      var w := WalkPt(active, vpn, true);
      SameTrans(m0, roles0, main, m1, roles1, page);
      if w.Panic? { return Panic; }
      if w.value == 0 {
        ghost var m2 := page;
        FreeKernelPage(a.value);
        SameTrans(m0, roles0, main, m2, roles1, page);
        assert roles == roles0;
      }
      return Done((a.value, w.value));
    }

    /**
     memory_alloc_and_map_page: a fresh zeroed page behind the entry of `vma` in the active space.
     Only that page's translation changes; a frame mapped there before is lost.
     */
    method AllocAndMapPage(vma: nat, f: Flags) returns (o: Outcome<nat>)
      requires Valid() && (WellformedVma(vma) && vma % PAGE_SIZE == 0 ==> Creatable(Vpn(vma)))
      modifies this`page, this`freeHead, this`free, this`roles
      ensures Valid()
      ensures o.Panic? ==> free == []
      ensures o.Done? ==> o.value == if MapsAt(old(page), main, vma) then vma else 0
      ensures o.Done? && !MapsAt(old(page), main, vma) ==> free == old(free) && roles == old(roles)
      ensures o.Done? && !MapsAt(old(page), main, vma) ==> SameEntries(old(page), old(roles), main, page)
      ensures o.Done? && MapsAt(old(page), main, vma) ==>
        var vpn := Vpn(vma); var e := Entry0(page, active, vpn); var e0 := Entry0(old(page), active, vpn);
        && e == LeafPte(e.ppn, f) && e.ppn in page && page[e.ppn] == Words(ZERO_TABLE)
        && e.flags.v && e.flags.a && e.flags.d && e.hi == 0 && SameRights(e.flags, f)
        && e.ppn in old(roles) && old(roles)[e.ppn].Free?
        && SameEntriesBut(old(page), old(roles), main, page, active, vpn)
        && (!e0.flags.v ==> LostPages(roles) == LostPages(old(roles)))
        && (e0.flags.v ==> LostPages(roles) == LostPages(old(roles)) + {e0.ppn} && e0.ppn !in LostPages(old(roles)))
      ensures o.Done? ==> KeepsHeld(old(roles), roles)
      ensures SameKernel(old(page), old(roles), main, page)
    {
      if !WellformedVma(vma) || vma % PAGE_SIZE != 0 {
        TablesDecide(page, roles, main, page);
        return Done(0);
      }
      var vpn := Vpn(vma);
      var a := AllocAndWalk(vpn);
      if a.Panic? { return Panic; }
      var (p, t) := a.value;
      if t == 0 { return Done(0); }
      LostByMapping(old(roles), page, roles, active, vpn, p, t) by {
        if Entry0(page, active, vpn).flags.v { EntryRoles(page, roles, main, active, vpn); }
      }
      assert Entry0(page, active, vpn) == Entry0(old(page), active, vpn);
      ghost var m1, roles1 := page, roles;
      MapFresh(active, vpn, t, LeafPte(p, f));
      SameThenBut(old(page), old(roles), main, m1, roles1, page, active, vpn);
      return Done(vma);
    }

    /** The second half of that loop body: a new page behind the child's entry, filled from the parent's frame. */
    method FillCopy(child: Ppn, vpn: nat, t: Ppn, pe: Pte) returns (o: Outcome<()>)
      requires Valid() && IsRoot(roles, child) && UserVpn(page, main, vpn)
      requires t == SoftWalk(page, child, vpn) != 0 && Entry0(page, child, vpn) == NULL_PTE
      requires pe.flags.v && pe.ppn in roles && roles[pe.ppn].Node? && roles[pe.ppn].level == -1
      modifies this`page, this`freeHead, this`free, this`roles
      ensures Valid() && (o.Panic? ==> free == [])
      ensures o.Done? ==> Grown(old(page), old(roles), page, roles, child, FRAMES)
      ensures o.Done? ==> SameEntriesBut(old(page), old(roles), main, page, child, vpn)
      ensures o.Done? ==> SameKernel(old(page), old(roles), main, page)
      ensures o.Done? ==> var e := Entry0(page, child, vpn);
        && e.flags == pe.flags && e.ppn in old(roles) && old(roles)[e.ppn].Free? && pe.ppn in old(page)
        && e.ppn in page && page[e.ppn] == old(page)[pe.ppn]
    {
      hide SameEntriesBut, SameKernel;
      ghost var m1, roles1, head1, free1 := page, roles, freeHead, free;
      assert PageOk(page, roles, main, pe.ppn);
      WalkRoles(page, roles, main, child, vpn);
      var a := AllocPage();
      if a.Panic? { return Panic; }
      var p := a.value;
      var ce := page[t].ws[Idx(vpn, 0)];
      var e := ce.(ppn := p, flags := ce.flags.Or(pe.flags));
      CopyEffect(m1, roles1, main, child, vpn, p, e, pe.ppn);
      CopyBooks(m1, roles1, head1, free1, child, vpn, t, e, m1[pe.ppn]);
      page := SetEntry(page, t, Idx(vpn, 0), e);
      var data := page[pe.ppn];
      assert data == m1[pe.ppn];
      page := page[p := data];
      roles := roles1[p := Node(child, -1, vpn, t)];
      return Done(());
    }

    /** The body of memory_space_clone's loop: a private copy of one page of the parent. */
    method ClonePage(parent: Ppn, child: Ppn, vpn: nat) returns (o: Outcome<()>)
      requires Valid() && IsRoot(roles, parent) && IsRoot(roles, child) && parent != child && UserVpn(page, main, vpn)
      requires Entry0(page, child, vpn) == NULL_PTE
      modifies this`page, this`freeHead, this`free, this`roles
      ensures Valid() && (o.Panic? ==> free == [])
      ensures o.Done? ==> Grown(old(page), old(roles), page, roles, child, FRAMES)
      ensures o.Done? ==> SameEntriesBut(old(page), old(roles), main, page, child, vpn)
      ensures o.Done? ==> SameKernel(old(page), old(roles), main, page)
      ensures o.Done? ==> CopyOf(old(page), Entry0(old(page), parent, vpn), page, Entry0(page, child, vpn))
      ensures o.Done? && !Entry0(old(page), parent, vpn).flags.v ==> Entry0(page, child, vpn) == NULL_PTE
      ensures o.Done? && Entry0(old(page), parent, vpn).flags.v ==>
        Entry0(page, child, vpn).ppn in old(roles) && old(roles)[Entry0(page, child, vpn).ppn].Free?
    {
      hide FreeList;
      ghost var m0, roles0 := page, roles;
      var t := WalkPt(parent, vpn, false);
      WalkRoles(page, roles, main, parent, vpn);
      if t.value == 0 || !page[t.value].ws[Idx(vpn, 0)].flags.v { return Done(()); }
      var pe := page[t.value].ws[Idx(vpn, 0)];
      EntryRoles(page, roles, main, parent, vpn);
      var c := WalkPt(child, vpn, true);
      if c.Panic? { return Panic; }
      ghost var m1, roles1 := page, roles;
      o := FillCopy(child, vpn, c.value, pe);
      if o.Done? {
        GrownTrans(m0, roles0, m1, roles1, page, roles, child, FRAMES);
        SameThenBut(m0, roles0, main, m1, roles1, page, child, vpn);
      }
    }

    /** The first half of memory_space_clone: a root table holding the kernel's global entries. */
    method NewSpace(ghost parent: Ppn) returns (o: Outcome<Ppn>)
      requires Valid() && IsRoot(roles, parent)
      modifies this`page, this`freeHead, this`free, this`roles
      ensures Valid() && (o.Panic? ==> free == [])
      ensures o.Done? ==> ClonedUpto(old(page), old(roles), main, page, roles, parent, o.value, USER_START)
    {
      ghost var m0, roles0, head0, free0 := page, roles, freeHead, free;
      var a := AllocPage();
      if a.Panic? { return Panic; }
      var child := a.value;
      var ws := page[child].ws;
      for i := 0 to PTE_CNT
        invariant forall j :: 0 <= j < i ==> ws[j] == if page[main].ws[j].flags.g then page[main].ws[j] else NULL_PTE
        invariant forall j :: i <= j < PTE_CNT ==> ws[j] == NULL_PTE
      {
        if page[main].ws[i].flags.g { ws := ws[i := page[main].ws[i]]; }
      }
      CloneStart(m0, roles0, main, parent, child, ws);
      FreeListPop(m0, roles0, head0, free0, Words(ws), Node(child, 2, 0, child));
      page := page[child := Words(ws)];
      roles := roles0[child := Node(child, 2, 0, child)];
      assert page == m0[child := Words(ws)];
      return Done(child);
    }

    /**
     memory_space_clone: the child maps exactly the parent's user pages, with equal flags and
     contents, in frames that were free; kernel gigaranges are shared; nothing else changes.
     */
    method SpaceClone(parent: Ppn) returns (o: Outcome<Ppn>)
      requires Valid() && IsRoot(roles, parent)
      modifies this`page, this`freeHead, this`free, this`roles
      ensures Valid() && (o.Panic? ==> free == [])
      ensures o.Done? ==> ClonedUpto(old(page), old(roles), main, page, roles, parent, o.value, USER_END)
    {
      ghost var m0, roles0 := page, roles;
      var a := NewSpace(parent);
      if a.Panic? { return Panic; }
      var child := a.value;
      for vpn := USER_START to USER_END
        invariant Valid() && ClonedUpto(m0, roles0, main, page, roles, parent, child, vpn)
      {
        assert Idx(vpn, 2) == 3;
        assert UserVpn(page, main, vpn) && UserVpn(m0, main, vpn);
        ghost var m1, roles1 := page, roles;
        assert Entry0(page, child, vpn) == NULL_PTE by {
          assert ClonedEntry(m0, roles0, page, parent, child, vpn, vpn);
        }
        var c := ClonePage(parent, child, vpn);
        if c.Panic? { return Panic; }
        CloneStep(m0, roles0, main, m1, roles1, page, roles, parent, child, vpn);
      }
      return Done(child);
    }

    /** The sweep's step on a page it takes: the two functions clear the entry and free the frame in opposite orders. */
    method ReleasePage(r: Ppn, vpn: nat, t: Ppn, w: Sweep)
      requires Valid() && IsRoot(roles, r) && UserVpn(page, main, vpn) && t == SoftWalk(page, r, vpn)
      requires Entry0(page, r, vpn).flags.v
      modifies this`page, this`freeHead, this`free, this`roles
      ensures Valid() && page.Keys == old(page).Keys
      ensures Entry0(old(page), r, vpn).ppn in old(roles) && roles == old(roles)[Entry0(old(page), r, vpn).ppn := Free]
      ensures free == [Entry0(old(page), r, vpn).ppn] + old(free)
      ensures SameEntriesBut(old(page), old(roles), main, page, r, vpn) && SameKernel(old(page), old(roles), main, page)
      ensures Entry0(page, r, vpn).flags == NO_FLAGS
      ensures forall p :: p in page && p != Entry0(old(page), r, vpn).ppn && p != t ==> page[p] == old(page)[p]
      ensures t in roles && IsTable(roles[t]) && roles[t].Node? && roles[t].root == r
    {
      hide Trees, SameEntriesBut, SameKernel, LinkedAt;
      ghost var m, roles0 := page, roles;
      WalkRoles(page, roles, main, r, vpn);
      EntryRoles(page, roles, main, r, vpn);
      var e := page[t].ws[Idx(vpn, 0)];
      var cleared := if w.Reclaim? then NULL_PTE else e.(flags := NO_FLAGS);
      ReleaseEffect(page, roles, main, r, vpn, cleared, Linked(freeHead));
      if w.Reclaim? {
        FreePage(e.ppn);
        ghost var m1 := page;
        page := SetEntry(page, t, Idx(vpn, 0), cleared);
        FreeListKept(m1, roles, freeHead, free, page, roles);
      } else {
        page := SetEntry(page, t, Idx(vpn, 0), cleared);
        FreeListKept(m, roles, freeHead, free, page, roles);
        FreePage(e.ppn);
      }
    }

    /** The loop shared by memory_space_reclaim and memory_unmap_and_free_user. */
    method SweepUser(r: Ppn, w: Sweep)
      requires Valid() && IsRoot(roles, r)
      modifies this`page, this`freeHead, this`free, this`roles
      ensures Valid() && SweptUpto(old(page), old(roles), main, page, roles, r, w, USER_END)
    {
      hide FreeList, SameEntries, SameEntriesBut, SameKernel, Grown;
      ghost var m, roles0 := page, roles;
      SweepStart(page, roles, main, r, w);
      for vpn := USER_START to USER_END
        invariant Valid() && SweptUpto(m, roles0, main, page, roles, r, w, vpn)
      {
        assert Idx(vpn, 2) == 3;
        assert UserVpn(page, main, vpn) && UserVpn(m, main, vpn);
        assert Entry0(page, r, vpn) == Entry0(m, r, vpn);
        var t := WalkPt(r, vpn, false);
        WalkRoles(page, roles, main, r, vpn);
        if t.value == 0 || !Takes(w, page[t.value].ws[Idx(vpn, 0)]) {
          SweepSkip(m, roles0, main, page, roles, r, w, vpn);
        } else {
          ghost var m1, roles1 := page, roles;
          ReleasePage(r, vpn, t.value, w);
          SweepTake(m, roles0, main, m1, roles1, page, r, w, vpn);
        }
      }
    }

    /** memory_space_reclaim: back to the main space, and every non-global user leaf of the old one is freed. */
    method SpaceReclaim()
      requires Valid()
      modifies this
      ensures Valid() && active == main
      ensures SweptUpto(old(page), old(roles), main, page, roles, old(active), Reclaim, USER_END)
      ensures forall vpn :: 0xC_0000 <= vpn < 0xD_0000 ==>
                PageSwept(old(page), old(roles), page, roles, old(active), vpn,
                          PrivateLeaf(Entry0(old(page), old(active), vpn).flags))
      ensures forall p {:trigger roles[p]} :: p in old(roles) ==>
                p in roles && (roles[p] == old(roles)[p] || WasFrame(old(page), old(active), p, PrivateLeaf))
    {
      hide SweptUpto, FreeList, PageSwept, Entry0;
      var root := active;
      active := main;
      ghost var m, roles0 := page, roles;
      SweepUser(root, Reclaim);
      forall vpn | 0xC_0000 <= vpn < 0xD_0000
        ensures PageSwept(m, roles0, page, roles, root, vpn, PrivateLeaf(Entry0(m, root, vpn).flags))
      {
        SweptPage(m, roles0, main, page, roles, root, Reclaim, vpn);
      }
      forall p | p in roles0 ensures p in roles && (roles[p] == roles0[p] || WasFrame(m, root, p, PrivateLeaf)) {
        SweptRoles(m, roles0, main, page, roles, root, Reclaim, p, PrivateLeaf);
      }
    }

    /** memory_unmap_and_free_user: every user leaf of the active space is unmapped and freed. */
    method UnmapAndFreeUser()
      requires Valid()
      modifies this`page, this`freeHead, this`free, this`roles
      ensures Valid() && SweptUpto(old(page), old(roles), main, page, roles, active, UnmapUser, USER_END)
      ensures forall vpn :: 0xC_0000 <= vpn < 0xD_0000 ==>
                PageSwept(old(page), old(roles), page, roles, active, vpn,
                          UserAccessible(Entry0(old(page), active, vpn).flags))
      ensures forall p {:trigger roles[p]} :: p in old(roles) ==>
                p in roles && (roles[p] == old(roles)[p] || WasFrame(old(page), active, p, UserAccessible))
    {
      hide Trees, SweptUpto, FreeList, PageSwept, Entry0;
      ghost var m, roles0 := page, roles;
      SweepUser(active, UnmapUser);
      forall vpn | 0xC_0000 <= vpn < 0xD_0000
        ensures PageSwept(m, roles0, page, roles, active, vpn, UserAccessible(Entry0(m, active, vpn).flags))
      {
        SweptPage(m, roles0, main, page, roles, active, UnmapUser, vpn);
      }
      forall p | p in roles0 ensures p in roles && (roles[p] == roles0[p] || WasFrame(m, active, p, UserAccessible)) {
        SweptRoles(m, roles0, main, page, roles, active, UnmapUser, p, UserAccessible);
      }
    }

    /**
     memory_set_page_flags, on a page that is not the kernel's: only the flags of that one entry of the
     active space change, and only if it is valid.
     */
    method SetPageFlags(vma: nat, f: Flags)
      requires Valid() && (vma % PAGE_SIZE == 0 ==> UserVpn(page, main, Vpn(vma)))
      modifies this`page, this`freeHead, this`free, this`roles
      ensures Valid() && page.Keys == old(page).Keys && roles == old(roles) && free == old(free)
      ensures var vpn := Vpn(vma);
              var e := Entry0(old(page), active, vpn);
              if vma % PAGE_SIZE != 0 || !e.flags.v then page == old(page)
              else Entry0(page, active, vpn) == e.(flags := Reflagged(e.flags, f))
                   && SameRights(Entry0(page, active, vpn).flags, f) && Entry0(page, active, vpn).flags.v
                   && Entry0(page, active, vpn).flags.a == (e.flags.a || f.a)
                   && Entry0(page, active, vpn).flags.d == (e.flags.d || f.d)
                   && SameEntriesBut(old(page), roles, main, page, active, vpn)
                   && SameKernel(old(page), roles, main, page)
                   && forall p :: p in page && !TableOf(roles[p], active) ==> page[p] == old(page)[p]
    {
      hide FreeList, SameEntriesBut, SameKernel;
      if vma % PAGE_SIZE != 0 { return; }
      var vpn := Vpn(vma);
      var o := WalkPt(active, vpn, false);
      var w := o.value;
      WalkRoles(page, roles, main, active, vpn);
      if w == 0 || !page[w].ws[Idx(vpn, 0)].flags.v { return; }
      var e := page[w].ws[Idx(vpn, 0)];
      var e' := e.(flags := Reflagged(e.flags, f));
      FlagLeaf(page, roles, main, active, vpn, e'.flags);
      LeafChange(page, roles, main, active, vpn, e');
      FreeListKept(page, roles, freeHead, free, SetEntry(page, w, Idx(vpn, 0), e'), roles);
      page := SetEntry(page, w, Idx(vpn, 0), e');
    }

    /**
     memory_handle_page_fault: an address outside the user region is refused (the source panics); any
     other comes to be mapped to a zeroed page, and what was mapped there is lost.
     */
    method HandlePageFault(va: nat) returns (o: Outcome<bool>, over: nat)
      requires Valid()
      modifies this`page, this`freeHead, this`free, this`roles
      ensures Valid() && (o.Panic? ==> free == [])
      ensures o == Done(false) <==> !(0xC000_0000 <= va < 0xD000_0000)
      ensures o == Done(false) ==> page == old(page) && roles == old(roles) && free == old(free)
      ensures o == Done(true) ==>
                var vpn := va / PAGE_SIZE;
                var e := Entry0(page, active, vpn);
                && e == LeafPte(e.ppn, USER_RW) && e.ppn in page && page[e.ppn] == Words(ZERO_TABLE)
                && e.flags.v && e.flags.r && e.flags.w && e.flags.u && !e.flags.x && !e.flags.g
                && SameEntriesBut(old(page), old(roles), main, page, active, vpn)
                && SameKernel(old(page), old(roles), main, page) && KeepsHeld(old(roles), roles)
                && over == (if Entry0(old(page), active, vpn).flags.v then 1 else 0)
                && |LostPages(roles)| == |LostPages(old(roles))| + over
    {
      hide FreeList, SoftWalk, LostPages;
      var vpn := va / PAGE_SIZE;
      over := 0;
      if !UserRegion(vpn) { return Done(false), 0; }
      assert Idx(vpn, 2) == 3 && Vpn(vpn * PAGE_SIZE) == vpn;
      ghost var m0, roles0 := page, roles;
      var w := WalkPt(active, vpn, true);
      if w.Panic? { return Panic, 0; }
      ghost var m1, roles1 := page, roles;
      SameLost(roles0, roles1);
      assert Entry0(m1, active, vpn) == Entry0(m0, active, vpn);
      over := if Entry0(page, active, vpn).flags.v then 1 else 0;
      var a := AllocAndMapPage(vpn * PAGE_SIZE, USER_RW);
      if a.Panic? { return Panic, 0; }
      SameThenBut(m0, roles0, main, m1, roles1, page, active, vpn);
      o := Done(true);
    }

    /** One operation on a user page of the active space. */
    method StepUser(op: Op, held: set<Ppn>, spaces: seq<Ppn>) returns (o: Outcome<(set<Ppn>, seq<Ppn>)>, over: nat)
      requires Valid() && Known(roles, held, spaces) && (op.MapAt? || op.SetFlags? || op.PageFault?)
      modifies this`page, this`freeHead, this`free, this`roles
      ensures Valid()
      ensures o.Done? ==> page.Keys == old(page).Keys && Known(roles, o.value.0, o.value.1)
      ensures o.Done? ==> |LostPages(roles)| == |LostPages(old(roles))| + over
      ensures o.Done? ==> over == if exists vpn :: Maps(op, vpn) && Entry0(old(page), active, vpn).flags.v then 1 else 0
    {
      hide FreeList, SameEntries, SameEntriesBut, SameKernel, SoftWalk, Entry0, LostPages;
      over := 0;
      o := Done((held, spaces));
      match op {
        case MapAt(vpn, f) =>
          if UserRegion(vpn) {
            assert Maps(op, vpn);
            var m := MapUser(vpn, f);
            if m.Panic? { return Panic, 0; }
            over := m.value;
          }
        case SetFlags(vpn, f) =>
          if UserRegion(vpn) {
            assert Idx(vpn, 2) == 3 && Vpn(vpn * PAGE_SIZE) == vpn;
            SetPageFlags(vpn * PAGE_SIZE, f);
          }
        case PageFault(va) =>
          var m, n := HandlePageFault(va);
          if m.Panic? { return Panic, 0; }
          if m.value {
            assert Maps(op, va / PAGE_SIZE);
            over := n;
          }
      }
    }

    /** One operation on whole spaces, none of which loses a page. */
    method StepSpace(op: Op, held: set<Ppn>, spaces: seq<Ppn>) returns (o: Outcome<(set<Ppn>, seq<Ppn>)>)
      requires Valid() && Known(roles, held, spaces)
      requires op.CloneActive? || op.SwitchTo? || op.ExecUnmap? || op.ExitReclaim?
      modifies this
      ensures Valid()
      ensures o.Done? ==> page.Keys == old(page).Keys && Known(roles, o.value.0, o.value.1)
      ensures o.Done? ==> LostPages(roles) == LostPages(old(roles))
    {
      hide FreeList, SameEntries, SameKernel, SoftWalk, Entry0, LostPages, PageSwept, WasFrame, SweptEntry, ClonedEntry;
      ghost var roles0 := roles;
      o := Done((held, spaces));
      match op {
        case CloneActive =>
          var c := SpaceClone(active);
          if c.Panic? { return Panic; }
          SameLost(roles0, roles);
          o := Done((held, spaces + [c.value]));
        case SwitchTo(i) => active := spaces[i % |spaces|];
        case ExecUnmap =>
          UnmapAndFreeUser();
          SameLost(roles0, roles);
        case ExitReclaim =>
          SpaceReclaim();
          SameLost(roles0, roles);
      }
    }

    /** One operation of a run; `held` and `spaces` are the pages and spaces the run's clients know of. */
    method Step(op: Op, held: set<Ppn>, spaces: seq<Ppn>) returns (o: Outcome<(set<Ppn>, seq<Ppn>)>, over: nat)
      requires Valid() && Known(roles, held, spaces)
      modifies this
      ensures Valid()
      ensures o.Done? ==> page.Keys == old(page).Keys && Known(roles, o.value.0, o.value.1)
      ensures o.Done? ==> |LostPages(roles)| == |LostPages(old(roles))| + over
      ensures o.Done? ==>
                over == if exists vpn :: Maps(op, vpn) && Entry0(old(page), old(active), vpn).flags.v then 1 else 0
    {
      hide FreeList, SameEntries, SameKernel, SoftWalk, Entry0, LostPages, PageSwept, WasFrame, SweptEntry, ClonedEntry;
      ghost var roles0 := roles;
      over := 0;
      match op {
        case Take =>
          var a := AllocKernelPage();
          SameLost(roles0, roles);
          o := if a.Panic? then Panic else Done((held + {a.value}, spaces));
        case Give(p) =>
          if p in held {
            FreeKernelPage(p);
            SameLost(roles0, roles);
          }
          o := Done((held - {p}, spaces));
        case MapAt(_, _) => o, over := StepUser(op, held, spaces);
        case SetFlags(_, _) => o, over := StepUser(op, held, spaces);
        case PageFault(_) => o, over := StepUser(op, held, spaces);
        case CloneActive => o := StepSpace(op, held, spaces);
        case SwitchTo(_) => o := StepSpace(op, held, spaces);
        case ExecUnmap => o := StepSpace(op, held, spaces);
        case ExitReclaim => o := StepSpace(op, held, spaces);
      }
    }

    /**
     Any run of allocations, frees, mappings, clones, switches, unmaps and reclaims keeps the pool
     partitioned; a page is lost exactly when a user address is mapped over.
     */
    method Run(ops: seq<Op>) returns (o: Outcome<()>, mappedOver: nat)
      requires Valid()
      modifies this
      ensures Valid()
      ensures |free| + |PagesUsed(roles, 1)| + |PagesUsed(roles, 2)| + |PagesUsed(roles, 3)| + |LostPages(roles)| ==
              |page|
      ensures o.Done? ==> page.Keys == old(page).Keys && |LostPages(roles)| == |LostPages(old(roles))| + mappedOver
    {
      var held: set<Ppn>, spaces: seq<Ppn> := {}, [active];
      mappedOver, o := 0, Done(());
      for k := 0 to |ops|
        invariant Valid() && o.Done? && Known(roles, held, spaces)
        invariant page.Keys == old(page).Keys && |LostPages(roles)| == |LostPages(old(roles))| + mappedOver
      {
        var s, over := Step(ops[k], held, spaces);
        if s.Panic? {
          o := Panic;
          break;
        }
        held, spaces := s.value.0, s.value.1;
        mappedOver := mappedOver + over;
      }
      PoolIsPartitioned(page, roles, main, freeHead, free);
    }

    /** A user mapping, reporting 1 when it lost the frame mapped there before. */
    method MapUser(vpn: nat, f: Flags) returns (over: Outcome<nat>)
      requires Valid() && UserRegion(vpn)
      modifies this`page, this`freeHead, this`free, this`roles
      ensures Valid()
      ensures over.Done? ==> KeepsHeld(old(roles), roles)
      ensures over.Done? ==> over.value == (if Entry0(old(page), active, vpn).flags.v then 1 else 0)
      ensures over.Done? ==> |LostPages(roles)| == |LostPages(old(roles))| + over.value
    {
      assert Idx(vpn, 2) == 3;
      assert Vpn(vpn * PAGE_SIZE) == vpn;
      var e := Entry0(page, active, vpn);
      var o := AllocAndMapPage(vpn * PAGE_SIZE, f);
      over := if o.Panic? then Panic else Done(if e.flags.v then 1 else 0);
    }
  }
}
