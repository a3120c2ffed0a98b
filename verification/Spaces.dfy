/**
 The ownership discipline of physical pages: every page has exactly one role, tables form one
 tree per address space, and free pages are chained through their own contents.
 The lemmas say what each elementary change of memory does to every translation.
 */
module Spaces {
  import opened Sv39
  import opened Chains

  /**
   `Node(root, level, key, parent)`: the page is part of the tree of address space `root`.
   Levels 2, 1 and 0 are tables; level -1 is a user frame. `key` is the number of the region it
   covers (for a frame, its virtual page number), `parent` the table holding its entry.
   */
  datatype Role =
    | Free                       // on the free list
    | Kernel                     // handed out by memory_alloc_page and held by the kernel
    | KernelTable                // page tables of the kernel image, shared by all spaces
    | Lost                       // unmapped by overwriting its entry: held by nobody
    | Node(root: Ppn, level: int, key: nat, parent: Ppn)

  type Roles = map<Ppn, Role>

  predicate IsTable(o: Role) { o.KernelTable? || (o.Node? && 0 <= o.level <= 2) }

  predicate IsRoot(roles: Roles, r: Ppn) { r in roles && roles[r] == Node(r, 2, 0, r) }

  function Link(free: seq<Ppn>, i: nat): Ppn { if i < |free| then free[i] else 0 }

  /** The free list: a null-terminated, duplicate-free chain of exactly the free pages. */
  ghost predicate FreeList(m: Frames, roles: Roles, head: Ppn, free: seq<Ppn>) {
    && head == Link(free, 0)
    && (forall i {:trigger LinkedAt(m, free, i)} :: 0 <= i < |free| ==> LinkedAt(m, free, i))
    && NoDup(free)
    && (forall p {:trigger OnList(free, p)} :: OnList(free, p) <==> p in roles && roles[p].Free?)
  }

  predicate LinkedAt(m: Frames, free: seq<Ppn>, i: nat)
    requires i < |free|
  {
    free[i] in m && m[free[i]] == Linked(Link(free, i + 1))
  }

  predicate OnList(free: seq<Ppn>, p: Ppn) { p in free }

  /** Entry `i` of the table in page `p` of an address space, when not kernel-shared. */
  ghost predicate EntryOk(m: Frames, roles: Roles, p: Ppn, i: nat)
    requires p in m && m[p].Words? && p in roles && roles[p].Node? && i < PTE_CNT
  {
    var e, o := m[p].ws[i], roles[p];
    !(o.level == 2 && e.flags.g) ==>
      && e.hi == 0
      && (e.flags.v ==>
        && e.ppn in roles && roles[e.ppn] == Node(o.root, o.level - 1, o.key * PTE_CNT + i, p)
        && (o.level > 0 ==> !e.flags.Rwx()))
  }

  /** Kernel gigaranges: every root holds the main table's global entries, and no others. */
  predicate KernelEntryOk(m: Frames, main: Ppn, r: Ppn, i: nat)
    requires main in m && m[main].Words? && r in m && m[r].Words? && i < PTE_CNT
  {
    var e, k := m[r].ws[i], m[main].ws[i];
    if k.flags.g then e == k else !e.flags.g
  }

  ghost predicate KernelPointerOk(m: Frames, roles: Roles, e: Pte) {
    e.flags.v ==> e.hi == 0 && (!e.flags.Rwx() ==> e.ppn in roles && roles[e.ppn].KernelTable?)
  }

  ghost predicate PageOk(m: Frames, roles: Roles, main: Ppn, p: Ppn)
    requires main in m && m[main].Words? && p in m && p in roles
  {
    match roles[p]
    case Node(r, l, k, q) =>
      && m[p].Words? && -1 <= l <= 2 && IsRoot(roles, r)
      && (l == 2 ==> p == r && k == 0)
      && (l >= 0 ==> forall i :: 0 <= i < PTE_CNT ==> EntryOk(m, roles, p, i))
      && (l == 2 ==> forall i :: 0 <= i < PTE_CNT ==> KernelEntryOk(m, main, p, i))
      && (l == 2 ==> forall i :: 0 <= i < PTE_CNT && m[p].ws[i].flags.g ==> KernelPointerOk(m, roles, m[p].ws[i]))
      && (l < 2 ==> HeldBy(m, roles, p))
    case KernelTable =>
      m[p].Words? && forall i :: 0 <= i < PTE_CNT ==> KernelPointerOk(m, roles, m[p].ws[i])
    case _ => true
  }

  /** The page's entry in its parent is valid and names it, so it is mapped exactly once. */
  ghost predicate HeldBy(m: Frames, roles: Roles, p: Ppn)
    requires p in roles && roles[p].Node?
  {
    var o := roles[p];
    && o.parent in m && m[o.parent].Words? && o.parent in roles
    && roles[o.parent].Node? && roles[o.parent].root == o.root && roles[o.parent].level == o.level + 1
    && roles[o.parent].key == o.key / PTE_CNT
    && var e := m[o.parent].ws[o.key % PTE_CNT];
       e.flags.v && e.ppn == p && !(o.level == 1 && e.flags.g)
  }

  /** Page tables of all address spaces are trees that share only the kernel's tables. */
  ghost predicate Trees(m: Frames, roles: Roles, main: Ppn) {
    && m.Keys == roles.Keys && 0 !in m
    && IsRoot(roles, main) && m[main].Words?
    && forall p {:trigger PageOk(m, roles, main, p)} :: p in roles ==> PageOk(m, roles, main, p)
  }

  /** Gigaranges that are not the kernel's. */
  predicate UserVpn(m: Frames, main: Ppn, vpn: nat) {
    vpn < VPN_CNT && main in m && m[main].Words? && !m[main].ws[Idx(vpn, 2)].flags.g
  }

  // ----- What the walk meets

  lemma WalkRoles(m: Frames, roles: Roles, main: Ppn, r: Ppn, vpn: nat)
    requires Trees(m, roles, main) && IsRoot(roles, r) && UserVpn(m, main, vpn)
    ensures r in m && m[r].Words?
    ensures var t1 := Next(m, r, Idx(vpn, 2));
            && (t1 != 0 ==>
                  && t1 in m && m[t1].Words? && roles[t1] == Node(r, 1, Idx(vpn, 2), r)
                  && m[r].ws[Idx(vpn, 2)].flags.v)
            && (t1 == 0 ==> !m[r].ws[Idx(vpn, 2)].flags.v)
            && var t0 := SoftWalk(m, r, vpn);
               && (t0 != 0 ==> t1 != 0 && t0 in m && m[t0].Words? && roles[t0] == Node(r, 0, vpn / PTE_CNT, t1))
               && (t0 == 0 && t1 != 0 ==> !m[t1].ws[Idx(vpn, 1)].flags.v)
  {
    assert PageOk(m, roles, main, r);
    assert EntryOk(m, roles, r, Idx(vpn, 2));
    assert KernelEntryOk(m, main, r, Idx(vpn, 2));
    var t1 := Next(m, r, Idx(vpn, 2));
    if t1 != 0 {
      assert PageOk(m, roles, main, t1);
      assert EntryOk(m, roles, t1, Idx(vpn, 1));
      var t0 := Next(m, t1, Idx(vpn, 1));
      if t0 != 0 {
        assert PageOk(m, roles, main, t0);
        assert Idx(vpn, 2) * PTE_CNT + Idx(vpn, 1) == vpn / PTE_CNT;
      }
    }
  }

  /** A valid level-0 entry of a user page names a frame that is that page's and nobody else's. */
  lemma EntryRoles(m: Frames, roles: Roles, main: Ppn, r: Ppn, vpn: nat)
    requires Trees(m, roles, main) && IsRoot(roles, r) && UserVpn(m, main, vpn)
    requires Entry0(m, r, vpn).flags.v
    ensures var e, t0 := Entry0(m, r, vpn), SoftWalk(m, r, vpn);
            && t0 in m && e.hi == 0 && e.ppn in roles && e.ppn in m && m[e.ppn].Words?
            && roles[e.ppn] == Node(r, -1, vpn, t0)
  {
    WalkRoles(m, roles, main, r, vpn);
    var t0 := SoftWalk(m, r, vpn);
    assert PageOk(m, roles, main, t0);
    assert EntryOk(m, roles, t0, Idx(vpn, 0));
    var e := Entry0(m, r, vpn);
    assert vpn / PTE_CNT * PTE_CNT + Idx(vpn, 0) == vpn;
    assert PageOk(m, roles, main, e.ppn);
  }

  /** Isolation: no frame is mapped at two user pages, of one space or of two. */
  lemma FramesAreDisjoint(m: Frames, roles: Roles, main: Ppn, r: Ppn, vpn: nat, r': Ppn, vpn': nat)
    requires Trees(m, roles, main) && IsRoot(roles, r) && IsRoot(roles, r')
    requires UserVpn(m, main, vpn) && UserVpn(m, main, vpn')
    requires Entry0(m, r, vpn).flags.v && Entry0(m, r', vpn').flags.v
    ensures Entry0(m, r, vpn).ppn == Entry0(m, r', vpn').ppn <==> r == r' && vpn == vpn'
  {
    EntryRoles(m, roles, main, r, vpn);
    EntryRoles(m, roles, main, r', vpn');
  }

  /** Conversely every user frame is the one its virtual page maps. */
  lemma FramesAreMapped(m: Frames, roles: Roles, main: Ppn, p: Ppn)
    requires Trees(m, roles, main) && p in roles && roles[p].Node? && roles[p].level == -1
    ensures var o := roles[p];
            && IsRoot(roles, o.root) && UserVpn(m, main, o.key)
            && Entry0(m, o.root, o.key).flags.v && Entry0(m, o.root, o.key).ppn == p
  {
    var o := roles[p];
    assert PageOk(m, roles, main, p);
    var t0 := o.parent;
    assert PageOk(m, roles, main, t0);
    var t1 := roles[t0].parent;
    assert PageOk(m, roles, main, t1);
    var t2 := roles[t1].parent;
    assert PageOk(m, roles, main, t2);
    assert t2 == o.root;
    assert roles[t1].key / PTE_CNT == 0;
    assert o.key / PTE_CNT == roles[t0].key && roles[t0].key / PTE_CNT == roles[t1].key;
    assert o.key < VPN_CNT;
    assert Idx(o.key, 2) == roles[t1].key % PTE_CNT;
    assert Idx(o.key, 1) == roles[t0].key % PTE_CNT;
    assert EntryOk(m, roles, t2, Idx(o.key, 2));
    assert EntryOk(m, roles, t1, Idx(o.key, 1));
    assert KernelEntryOk(m, main, t2, Idx(o.key, 2));
  }

  // ----- Translation in a well-formed memory

  /** User pages translate by their level-0 entry; kernel pages as in the main table. */
  lemma Translation(m: Frames, roles: Roles, main: Ppn, r: Ppn, vpn: nat)
    requires Trees(m, roles, main) && IsRoot(roles, r) && vpn < VPN_CNT
    ensures HwWalk(m, r, vpn, 2) ==
            if UserVpn(m, main, vpn) then LeafXlat(Entry0(m, r, vpn)) else HwWalk(m, main, vpn, 2)
  {
    assert PageOk(m, roles, main, r);
    assert KernelEntryOk(m, main, r, Idx(vpn, 2));
    if UserVpn(m, main, vpn) {
      WalkRoles(m, roles, main, r, vpn);
      var t1 := Next(m, r, Idx(vpn, 2));
      if t1 != 0 {
        assert EntryOk(m, roles, r, Idx(vpn, 2));
        assert HwWalk(m, r, vpn, 2) == HwWalk(m, t1, vpn, 1);
        assert PageOk(m, roles, main, t1);
        assert EntryOk(m, roles, t1, Idx(vpn, 1));
        var t0 := Next(m, t1, Idx(vpn, 1));
        if t0 != 0 {
          assert HwWalk(m, t1, vpn, 1) == HwWalk(m, t0, vpn, 0);
        }
      }
    } else {
      assert m[r].ws[Idx(vpn, 2)] == m[main].ws[Idx(vpn, 2)];
    }
  }

  /** Memory changes that leave the kernel's tables and the main table's global entries alone. */
  ghost predicate SameKernel(m: Frames, roles: Roles, main: Ppn, m': Frames) {
    && main in m && main in m' && m[main].Words? && m'[main].Words?
    && (forall i :: 0 <= i < PTE_CNT && m[main].ws[i].flags.g ==> m'[main].ws[i] == m[main].ws[i])
    && (forall i :: 0 <= i < PTE_CNT ==> m'[main].ws[i].flags.g == m[main].ws[i].flags.g)
    && (forall p :: p in roles && roles[p].KernelTable? && p in m ==> p in m' && m'[p] == m[p])
  }

  lemma KernelWalkSame(m: Frames, roles: Roles, main: Ppn, m': Frames, t: Ppn, vpn: nat, level: nat)
    requires Trees(m, roles, main) && SameKernel(m, roles, main, m')
    requires t in roles && roles[t].KernelTable? && vpn < VPN_CNT && level <= 1
    ensures HwWalk(m', t, vpn, level) == HwWalk(m, t, vpn, level)
    decreases level
  {
    assert PageOk(m, roles, main, t);
    var e := m[t].ws[Idx(vpn, level)];
    assert KernelPointerOk(m, roles, e);
    if level > 0 && e.flags.v && !e.flags.Rwx() {
      KernelWalkSame(m, roles, main, m', e.ppn, vpn, level - 1);
    }
  }

  /** Kernel addresses keep their translation in every space. */
  lemma KernelTranslationSame(m: Frames, roles: Roles, main: Ppn, m': Frames, vpn: nat)
    requires Trees(m, roles, main) && SameKernel(m, roles, main, m')
    requires vpn < VPN_CNT && !UserVpn(m, main, vpn)
    ensures HwWalk(m', main, vpn, 2) == HwWalk(m, main, vpn, 2)
  {
    assert PageOk(m, roles, main, main);
    var e := m[main].ws[Idx(vpn, 2)];
    assert KernelPointerOk(m, roles, e);
    if e.flags.v && !e.flags.Rwx() {
      KernelWalkSame(m, roles, main, m', e.ppn, vpn, 1);
    }
  }

  // ----- Elementary changes

  /** Every user page of every space keeps its level-0 entry. */
  ghost predicate SameEntries(m: Frames, roles: Roles, main: Ppn, m': Frames) {
    forall r, vpn {:trigger Entry0(m', r, vpn)} ::
      IsRoot(roles, r) && UserVpn(m, main, vpn) ==> Entry0(m', r, vpn) == Entry0(m, r, vpn)
  }

  lemma TablesDecide(m: Frames, roles: Roles, main: Ppn, m': Frames)
    requires Trees(m, roles, main)
    requires 0 !in m' && forall p :: p in roles && IsTable(roles[p]) ==> p in m' && m'[p] == m[p]
    ensures SameEntries(m, roles, main, m') && SameKernel(m, roles, main, m')
  {
    assert PageOk(m, roles, main, main);
    forall r, vpn | IsRoot(roles, r) && UserVpn(m, main, vpn) ensures Entry0(m', r, vpn) == Entry0(m, r, vpn) {
      WalkRoles(m, roles, main, r, vpn);
      assert PageOk(m, roles, main, r);
      var t1 := Next(m, r, Idx(vpn, 2));
      if t1 == 0 { assert SoftWalk(m', r, vpn) == 0; }
    }
  }

  /** A table keeps its place when it, the main table and the roles in the trees are unchanged. */
  lemma TableKept(m: Frames, roles: Roles, main: Ppn, m': Frames, roles': Roles, q: Ppn)
    requires Trees(m, roles, main) && main in m' && m'[main] == m[main]
    requires forall p :: p in roles && !Spare(roles[p]) ==> p in roles' && roles'[p] == roles[p]
    requires q in roles && IsTable(roles[q]) && q in m' && m'[q] == m[q] && q in roles' && roles'[q] == roles[q]
    requires roles[q].Node? && roles[q].level < 2 ==> HeldBy(m', roles', q)
    ensures PageOk(m', roles', main, q)
  {
    assert PageOk(m, roles, main, q);
    if roles[q].Node? {
      forall i | 0 <= i < PTE_CNT ensures EntryOk(m', roles', q, i) { assert EntryOk(m, roles, q, i); }
      if roles[q].level == 2 {
        forall i | 0 <= i < PTE_CNT ensures KernelEntryOk(m', main, q, i) { assert KernelEntryOk(m, main, q, i); }
      }
    }
  }

  predicate Spare(o: Role) { o.Free? || o.Kernel? || o.Lost? }

  /** Pages outside the trees may change hands and contents freely. */
  lemma ReuseSpare(m: Frames, roles: Roles, main: Ppn, p: Ppn, c: Page, o: Role)
    requires Trees(m, roles, main) && p in roles && Spare(roles[p]) && Spare(o)
    ensures Trees(m[p := c], roles[p := o], main)
    ensures SameEntries(m, roles, main, m[p := c]) && SameKernel(m, roles, main, m[p := c])
  {
    var m', roles' := m[p := c], roles[p := o];
    forall q | q in roles' ensures PageOk(m', roles', main, q) {
      assert PageOk(m, roles, main, q);
      if IsTable(roles[q]) {
        assert PageOk(m, roles, main, main);
        TableKept(m, roles, main, m', roles', q);
      }
    }
    TablesDecide(m, roles, main, m');
  }

  /** Storing into a user frame changes no table. */
  lemma StoreFrame(m: Frames, roles: Roles, main: Ppn, p: Ppn, ws: Table)
    requires Trees(m, roles, main) && p in roles && roles[p].Node? && roles[p].level == -1
    ensures Trees(m[p := Words(ws)], roles, main)
    ensures SameEntries(m, roles, main, m[p := Words(ws)]) && SameKernel(m, roles, main, m[p := Words(ws)])
  {
    var m' := m[p := Words(ws)];
    forall q | q in roles ensures PageOk(m', roles, main, q) {
      assert PageOk(m, roles, main, q);
      if IsTable(roles[q]) {
        assert PageOk(m, roles, main, main);
        TableKept(m, roles, main, m', roles, q);
      }
    }
    TablesDecide(m, roles, main, m');
  }

  function SetEntry(m: Frames, t: Ppn, i: nat, e: Pte): (m': Frames)
    requires t in m && m[t].Words? && i < PTE_CNT
    ensures m'.Keys == m.Keys && m'[t].Words? && m'[t].ws[i] == e
    ensures forall j :: 0 <= j < PTE_CNT && j != i ==> m'[t].ws[j] == m[t].ws[j]
    ensures forall p :: p in m && p != t ==> m'[p] == m[p]
  {
    m[t := Words(m[t].ws[i := e])]
  }

  /**
   A tree page other than `x` keeps its place when entry `i` of table `t` is rewritten and only
   `x`, which no other entry names, changes its role.
   */
  lemma PageKept(m: Frames, roles: Roles, main: Ppn, t: Ppn, i: nat, e: Pte, x: Ppn, o: Role, p: Ppn)
    requires Trees(m, roles, main) && t in m && m[t].Words? && t in roles && roles[t].Node? && i < PTE_CNT
    requires roles[t].level == 2 ==> !m[main].ws[i].flags.g && !e.flags.g
    requires p in roles && p != x && t != x
    requires x in roles && (Spare(roles[x]) || roles[x] == Node(roles[t].root, -1, roles[t].key * PTE_CNT + i, t))
    requires !m[t].ws[i].flags.v || m[t].ws[i].ppn == x
    requires EntryOk(SetEntry(m, t, i, e), roles[x := o], t, i)
    ensures PageOk(SetEntry(m, t, i, e), roles[x := o], main, p)
  {
    var m', roles' := SetEntry(m, t, i, e), roles[x := o];
    assert PageOk(m, roles, main, p);
    if roles[p].Node? {
      NodeEntriesKept(m, roles, main, t, i, e, x, o, p);
      var o' := roles[p];
      assert IsRoot(roles', o'.root) by { assert PageOk(m, roles, main, o'.root); }
      if o'.level < 2 {
        assert HeldBy(m, roles, p);
        assert PageOk(m, roles, main, o'.parent);
        assert HeldBy(m', roles', p);
      }
    }
  }

  lemma NodeEntriesKept(m: Frames, roles: Roles, main: Ppn, t: Ppn, i: nat, e: Pte, x: Ppn, o: Role, p: Ppn)
    requires Trees(m, roles, main) && t in m && m[t].Words? && t in roles && roles[t].Node? && i < PTE_CNT
    requires roles[t].level == 2 ==> !m[main].ws[i].flags.g && !e.flags.g
    requires p in roles && p != x && t != x && roles[p].Node?
    requires x in roles && (Spare(roles[x]) || roles[x] == Node(roles[t].root, -1, roles[t].key * PTE_CNT + i, t))
    requires !m[t].ws[i].flags.v || m[t].ws[i].ppn == x
    requires EntryOk(SetEntry(m, t, i, e), roles[x := o], t, i)
    ensures var m', roles' := SetEntry(m, t, i, e), roles[x := o];
            && p in m' && m'[p].Words? && main in m' && m'[main].Words?
            && (roles[p].level >= 0 ==> forall j :: 0 <= j < PTE_CNT ==> EntryOk(m', roles', p, j))
            && (roles[p].level == 2 ==> forall j :: 0 <= j < PTE_CNT ==> KernelEntryOk(m', main, p, j))
  {
    var m', roles' := SetEntry(m, t, i, e), roles[x := o];
    assert PageOk(m, roles, main, p);
    assert PageOk(m, roles, main, main);
    if roles[p].level >= 0 {
      forall j | 0 <= j < PTE_CNT ensures EntryOk(m', roles', p, j) { assert EntryOk(m, roles, p, j); }
    }
    if roles[p].level == 2 {
      forall j | 0 <= j < PTE_CNT ensures KernelEntryOk(m', main, p, j) { assert KernelEntryOk(m, main, p, j); }
    }
  }

  /**
   walk_pt's create step: an invalid entry of an upper table comes to point at a zeroed page.
   No user entry of any space changes, and nor do the kernel's translations.
   */
  lemma InstallTable(m: Frames, roles: Roles, main: Ppn, q: Ppn, i: nat, n: Ppn, e: Pte)
    requires Trees(m, roles, main) && q in roles && i < PTE_CNT
    requires roles[q].Node? && 1 <= roles[q].level <= 2 && m[q].Words? && !m[q].ws[i].flags.v
    requires roles[q].level == 2 ==> !m[main].ws[i].flags.g
    requires n in roles && roles[n].Kernel? && m[n] == Words(ZERO_TABLE)
    requires e.flags == NO_FLAGS.(v := true) && e.ppn == n && e.hi == 0
    ensures var roles' := roles[n := Node(roles[q].root, roles[q].level - 1, roles[q].key * PTE_CNT + i, q)];
            Trees(SetEntry(m, q, i, e), roles', main)
    ensures SameEntries(m, roles, main, SetEntry(m, q, i, e)) && SameKernel(m, roles, main, SetEntry(m, q, i, e))
  {
    InstallTrees(m, roles, main, q, i, n, e);
    assert PageOk(m, roles, main, main);
    forall r, vpn | IsRoot(roles, r) && UserVpn(m, main, vpn)
      ensures Entry0(SetEntry(m, q, i, e), r, vpn) == Entry0(m, r, vpn)
    {
      InstallKeepsEntry(m, roles, main, q, i, n, e, r, vpn);
    }
  }

  lemma FreshTableOk(m: Frames, roles: Roles, main: Ppn, n: Ppn)
    requires n in m && n in roles && roles[n].Node? && 0 <= roles[n].level < 2 && m[n] == Words(ZERO_TABLE)
    requires IsRoot(roles, roles[n].root) && HeldBy(m, roles, n) && main in m && m[main].Words?
    ensures PageOk(m, roles, main, n)
  {
    forall i | 0 <= i < PTE_CNT ensures EntryOk(m, roles, n, i) { assert m[n].ws[i] == NULL_PTE; }
  }

  lemma InstallTrees(m: Frames, roles: Roles, main: Ppn, q: Ppn, i: nat, n: Ppn, e: Pte)
    requires Trees(m, roles, main) && q in roles && i < PTE_CNT
    requires roles[q].Node? && 1 <= roles[q].level <= 2 && m[q].Words? && !m[q].ws[i].flags.v
    requires roles[q].level == 2 ==> !m[main].ws[i].flags.g
    requires n in roles && roles[n].Kernel? && m[n] == Words(ZERO_TABLE)
    requires e.flags == NO_FLAGS.(v := true) && e.ppn == n && e.hi == 0
    ensures var roles' := roles[n := Node(roles[q].root, roles[q].level - 1, roles[q].key * PTE_CNT + i, q)];
            Trees(SetEntry(m, q, i, e), roles', main)
  {
    var o := roles[q];
    var m', roles' := SetEntry(m, q, i, e), roles[n := Node(o.root, o.level - 1, o.key * PTE_CNT + i, q)];
    assert PageOk(m, roles, main, q);
    assert EntryOk(m', roles', q, i);
    assert IsRoot(roles', o.root);
    assert (o.key * PTE_CNT + i) / PTE_CNT == o.key && (o.key * PTE_CNT + i) % PTE_CNT == i;
    assert HeldBy(m', roles', n);
    assert main in m' && m'[main].Words?;
    forall p | p in roles' ensures PageOk(m', roles', main, p) {
      if p == n {
        FreshTableOk(m', roles', main, n);
      } else {
        PageKept(m, roles, main, q, i, e, n, roles'[n], p);
      }
    }
  }

  lemma InstallKeepsEntry(m: Frames, roles: Roles, main: Ppn, q: Ppn, i: nat, n: Ppn, e: Pte, r: Ppn, vpn: nat)
    requires Trees(m, roles, main) && q in roles && i < PTE_CNT
    requires roles[q].Node? && 1 <= roles[q].level <= 2 && m[q].Words? && !m[q].ws[i].flags.v
    requires n in roles && roles[n].Kernel? && m[n] == Words(ZERO_TABLE)
    requires e.flags == NO_FLAGS.(v := true) && e.ppn == n && e.hi == 0
    requires IsRoot(roles, r) && UserVpn(m, main, vpn)
    ensures Entry0(SetEntry(m, q, i, e), r, vpn) == Entry0(m, r, vpn)
  {
    var m' := SetEntry(m, q, i, e);
    WalkRoles(m, roles, main, r, vpn);
    assert PageOk(m, roles, main, r);
    var t1 := Next(m, r, Idx(vpn, 2));
    if t1 == 0 {
      assert Entry0(m, r, vpn) == NULL_PTE;
      var u1 := Next(m', r, Idx(vpn, 2));
      if u1 != 0 {
        assert u1 == n;
        assert Next(m', n, Idx(vpn, 1)) == 0;
      }
    } else {
      assert Next(m', r, Idx(vpn, 2)) == t1;
      var t0 := Next(m, t1, Idx(vpn, 1));
      if t0 == 0 {
        var u0 := Next(m', t1, Idx(vpn, 1));
        if u0 != 0 {
          assert u0 == n;
          assert m'[n].ws[Idx(vpn, 0)] == NULL_PTE;
        }
      } else {
        assert Next(m', t1, Idx(vpn, 1)) == t0;
      }
    }
  }

  /** Every user page of every space keeps its level-0 entry, but for the one page named. */
  ghost predicate SameEntriesBut(m: Frames, roles: Roles, main: Ppn, m': Frames, r0: Ppn, vpn0: nat) {
    forall r, vpn {:trigger Entry0(m', r, vpn)} ::
      IsRoot(roles, r) && UserVpn(m, main, vpn) && (r != r0 || vpn != vpn0) ==> Entry0(m', r, vpn) == Entry0(m, r, vpn)
  }

  lemma LeafChange(m: Frames, roles: Roles, main: Ppn, r0: Ppn, vpn0: nat, e: Pte)
    requires Trees(m, roles, main) && IsRoot(roles, r0) && UserVpn(m, main, vpn0) && SoftWalk(m, r0, vpn0) != 0
    ensures var t := SoftWalk(m, r0, vpn0);
            && t in m && m[t].Words? && roles[t].Node? && roles[t].level == 0 && roles[t].root == r0
            && var m' := SetEntry(m, t, Idx(vpn0, 0), e);
               && SameEntriesBut(m, roles, main, m', r0, vpn0) && SameKernel(m, roles, main, m')
               && SoftWalk(m', r0, vpn0) == t && Entry0(m', r0, vpn0) == e
  {
    WalkRoles(m, roles, main, r0, vpn0);
    var t := SoftWalk(m, r0, vpn0);
    var m' := SetEntry(m, t, Idx(vpn0, 0), e);
    assert PageOk(m, roles, main, main);
    forall r: Ppn, vpn: nat | IsRoot(roles, r) && UserVpn(m, main, vpn)
      ensures SoftWalk(m', r, vpn) == SoftWalk(m, r, vpn)
      ensures (r != r0 || vpn != vpn0) ==> Entry0(m', r, vpn) == Entry0(m, r, vpn)
    {
      WalkRoles(m, roles, main, r, vpn);
      assert PageOk(m, roles, main, r);
      var t1 := Next(m, r, Idx(vpn, 2));
      assert Next(m', r, Idx(vpn, 2)) == t1;
      var t0 := Next(m, t1, Idx(vpn, 1));
      assert Next(m', t1, Idx(vpn, 1)) == t0;
      if t0 == t && Idx(vpn, 0) == Idx(vpn0, 0) {
        assert vpn == vpn / PTE_CNT * PTE_CNT + Idx(vpn, 0);
        assert vpn0 == vpn0 / PTE_CNT * PTE_CNT + Idx(vpn0, 0);
      }
    }
    assert SoftWalk(m', r0, vpn0) == t;
  }

  /** Roles after the entry of (r, vpn) is overwritten: the frame it named changes hands. */
  function Evict(m: Frames, roles: Roles, r: Ppn, vpn: nat, o: Role): Roles
    requires vpn < VPN_CNT
  {
    var e := Entry0(m, r, vpn);
    if e.flags.v then roles[e.ppn := o] else roles
  }

  /** Rewriting an invalid entry by another changes nothing. */
  lemma PageKeptSame(m: Frames, roles: Roles, main: Ppn, t: Ppn, i: nat, e: Pte, p: Ppn)
    requires Trees(m, roles, main) && t in m && m[t].Words? && t in roles && roles[t].Node? && roles[t].level == 0
    requires i < PTE_CNT
    requires !m[t].ws[i].flags.v && !e.flags.v && e.hi == 0 && p in roles
    ensures PageOk(SetEntry(m, t, i, e), roles, main, p)
  {
    var m' := SetEntry(m, t, i, e);
    assert PageOk(m, roles, main, p);
    if roles[p].Node? {
      var o := roles[p];
      if o.level >= 0 {
        forall j | 0 <= j < PTE_CNT ensures EntryOk(m', roles, p, j) { assert EntryOk(m, roles, p, j); }
      }
      if o.level == 2 {
        forall j | 0 <= j < PTE_CNT ensures KernelEntryOk(m', main, p, j) { assert KernelEntryOk(m, main, p, j); }
      }
    }
  }

  /** Clearing a level-0 entry releases exactly the frame it named. */
  lemma UnmapLeaf(m: Frames, roles: Roles, main: Ppn, r: Ppn, vpn: nat, e: Pte, o: Role)
    requires Trees(m, roles, main) && IsRoot(roles, r) && UserVpn(m, main, vpn) && SoftWalk(m, r, vpn) != 0
    requires !e.flags.v && e.hi == 0 && Spare(o)
    ensures var t := SoftWalk(m, r, vpn);
            && t in m && m[t].Words?
            && Trees(SetEntry(m, t, Idx(vpn, 0), e), Evict(m, roles, r, vpn, o), main)
  {
    LeafChange(m, roles, main, r, vpn, e);
    WalkRoles(m, roles, main, r, vpn);
    var t, old0 := SoftWalk(m, r, vpn), Entry0(m, r, vpn);
    var m', roles' := SetEntry(m, t, Idx(vpn, 0), e), Evict(m, roles, r, vpn, o);
    if old0.flags.v { EntryRoles(m, roles, main, r, vpn); }
    assert PageOk(m, roles, main, main);
    assert vpn / PTE_CNT * PTE_CNT + Idx(vpn, 0) == vpn;
    forall p | p in roles' ensures PageOk(m', roles', main, p) {
      if !old0.flags.v { PageKeptSame(m, roles, main, t, Idx(vpn, 0), e, p); }
      else if p != old0.ppn { PageKept(m, roles, main, t, Idx(vpn, 0), e, old0.ppn, o, p); }
    }
  }

  /** Pointing an invalid level-0 entry at a kernel-held page makes it that page's frame. */
  lemma MapLeaf(m: Frames, roles: Roles, main: Ppn, r: Ppn, vpn: nat, e: Pte)
    requires Trees(m, roles, main) && IsRoot(roles, r) && UserVpn(m, main, vpn) && SoftWalk(m, r, vpn) != 0
    requires !Entry0(m, r, vpn).flags.v
    requires e.flags.v && e.hi == 0 && e.ppn in roles && roles[e.ppn].Kernel? && m[e.ppn].Words?
    ensures var t := SoftWalk(m, r, vpn);
            && t in m && m[t].Words?
            && Trees(SetEntry(m, t, Idx(vpn, 0), e), roles[e.ppn := Node(r, -1, vpn, t)], main)
  {
    LeafChange(m, roles, main, r, vpn, e);
    WalkRoles(m, roles, main, r, vpn);
    var t := SoftWalk(m, r, vpn);
    var m', roles' := SetEntry(m, t, Idx(vpn, 0), e), roles[e.ppn := Node(r, -1, vpn, t)];
    assert PageOk(m, roles, main, main);
    assert vpn / PTE_CNT * PTE_CNT + Idx(vpn, 0) == vpn;
    forall p | p in roles' ensures PageOk(m', roles', main, p) {
      if p != e.ppn { PageKept(m, roles, main, t, Idx(vpn, 0), e, e.ppn, Node(r, -1, vpn, t), p); }
    }
  }

  /** Rewriting the flags of a valid level-0 entry, still valid, leaves every page its role. */
  lemma FlagLeaf(m: Frames, roles: Roles, main: Ppn, r: Ppn, vpn: nat, f: Flags)
    requires Trees(m, roles, main) && IsRoot(roles, r) && UserVpn(m, main, vpn) && Entry0(m, r, vpn).flags.v && f.v
    ensures var t, e := SoftWalk(m, r, vpn), Entry0(m, r, vpn).(flags := f);
            && t in m && m[t].Words? && Trees(SetEntry(m, t, Idx(vpn, 0), e), roles, main)
  {
    WalkRoles(m, roles, main, r, vpn);
    EntryRoles(m, roles, main, r, vpn);
    var t, e0 := SoftWalk(m, r, vpn), Entry0(m, r, vpn);
    var e := e0.(flags := f);
    var m' := SetEntry(m, t, Idx(vpn, 0), e);
    assert PageOk(m, roles, main, main) && PageOk(m, roles, main, t);
    assert EntryOk(m, roles, t, Idx(vpn, 0));
    assert vpn / PTE_CNT * PTE_CNT + Idx(vpn, 0) == vpn;
    assert roles[e.ppn := roles[e.ppn]] == roles;
    forall p | p in roles ensures PageOk(m', roles, main, p) {
      assert PageOk(m, roles, main, p);
      if p != e.ppn { PageKept(m, roles, main, t, Idx(vpn, 0), e, e.ppn, roles[e.ppn], p); }
    }
  }

  /** A kernel-held page filled with the main table's global entries is an empty address space. */
  lemma NewRoot(m: Frames, roles: Roles, main: Ppn, n: Ppn, ws: Table)
    requires Trees(m, roles, main) && n in roles && roles[n].Kernel?
    requires forall i :: 0 <= i < PTE_CNT ==>
               ws[i] == if m[main].ws[i].flags.g then m[main].ws[i] else NULL_PTE
    ensures var m', roles' := m[n := Words(ws)], roles[n := Node(n, 2, 0, n)];
            && Trees(m', roles', main)
            && SameEntries(m, roles, main, m') && SameKernel(m, roles, main, m')
            && IsRoot(roles', n) && forall vpn :: UserVpn(m, main, vpn) ==> Entry0(m', n, vpn) == NULL_PTE
  {
    var m', roles' := m[n := Words(ws)], roles[n := Node(n, 2, 0, n)];
    assert PageOk(m, roles, main, main);
    forall p | p in roles' ensures PageOk(m', roles', main, p) {
      assert PageOk(m, roles, main, p);
      if p == n {
        forall j | 0 <= j < PTE_CNT ensures KernelEntryOk(m', main, n, j) && EntryOk(m', roles', n, j) {
          assert KernelEntryOk(m, main, main, j);
        }
      } else if roles'[p].Node? {
        if roles[p].level >= 0 {
          forall j | 0 <= j < PTE_CNT ensures EntryOk(m', roles', p, j) { assert EntryOk(m, roles, p, j); }
        }
        if roles[p].level == 2 {
          forall j | 0 <= j < PTE_CNT ensures KernelEntryOk(m', main, p, j) { assert KernelEntryOk(m, main, p, j); }
        }
      }
    }
    TablesDecide(m, roles, main, m');
    forall vpn | UserVpn(m, main, vpn) ensures Entry0(m', n, vpn) == NULL_PTE {
      assert Next(m', n, Idx(vpn, 2)) == 0;
    }
  }

  // ----- Growth of one space

  /** Lowest level of what is added: tables only, or frames too. */
  const TABLES := 0
  const FRAMES := -1

  /**
   Between two states only space `r` grew: pages in use keep their roles, and all of them but the
   tables of `r` their contents; pages newly in use belong to `r`, at levels from `low` up.
   */
  ghost predicate Grown(m: Frames, roles: Roles, m': Frames, roles': Roles, r: Ppn, low: int) {
    && m'.Keys == m.Keys == roles.Keys == roles'.Keys
    && (forall p :: p in roles && !roles[p].Free? ==> roles'[p] == roles[p])
    && (forall p :: p in roles && !roles[p].Free? && !TableOf(roles[p], r) ==> m'[p] == m[p])
    && (forall p :: p in roles && roles[p].Free? ==>
          roles'[p].Free? || (roles'[p].Node? && roles'[p].root == r && low <= roles'[p].level < 2))
  }

  predicate TableOf(o: Role, r: Ppn) { IsTable(o) && o.Node? && o.root == r }

  lemma GrownTrans(m: Frames, roles: Roles, m1: Frames, roles1: Roles, m2: Frames, roles2: Roles, r: Ppn, low: int)
    requires Grown(m, roles, m1, roles1, r, low) && Grown(m1, roles1, m2, roles2, r, low)
    ensures Grown(m, roles, m2, roles2, r, low)
  {
  }

  lemma SameTrans(m: Frames, roles: Roles, main: Ppn, m1: Frames, roles1: Roles, m2: Frames)
    requires SameEntries(m, roles, main, m1) && SameKernel(m, roles, main, m1)
    requires SameEntries(m1, roles1, main, m2) && SameKernel(m1, roles1, main, m2)
    requires forall p :: p in roles && !roles[p].Free? ==> p in roles1 && roles1[p] == roles[p]
    ensures SameEntries(m, roles, main, m2) && SameKernel(m, roles, main, m2)
  {
    forall r, vpn | IsRoot(roles, r) && UserVpn(m, main, vpn) ensures Entry0(m2, r, vpn) == Entry0(m, r, vpn) {
      assert Entry0(m1, r, vpn) == Entry0(m, r, vpn);
    }
  }

  /** The free list survives changes to pages in use. */
  lemma FreeListKept(m: Frames, roles: Roles, head: Ppn, free: seq<Ppn>, m': Frames, roles': Roles)
    requires FreeList(m, roles, head, free) && roles'.Keys == roles.Keys && m'.Keys == m.Keys
    requires forall p :: p in roles ==> (roles[p].Free? <==> roles'[p].Free?)
    requires forall p :: p in m && p in roles && roles[p].Free? ==> m'[p] == m[p]
    ensures FreeList(m', roles', head, free)
  {
    forall i | 0 <= i < |free| ensures LinkedAt(m', free, i) {
      assert LinkedAt(m, free, i);
      assert OnList(free, free[i]);
    }
    forall p
      ensures OnList(free, p) <==> p in roles' && roles'[p].Free?
    {
      assert OnList(free, p) <==> p in roles && roles[p].Free?;
    }
  }

  /** Allocating page `n` and installing it as a table behind entry `i` of `q`. */
  lemma CreateEffect(m: Frames, roles: Roles, main: Ppn, head: Ppn, free: seq<Ppn>, q: Ppn, i: nat, n: Ppn, e: Pte)
    requires FreeList(m, roles, head, free) && free != [] && free[0] == n
    requires Trees(m, roles, main) && q in roles && i < PTE_CNT
    requires roles[q].Node? && 1 <= roles[q].level <= 2 && m[q].Words? && !m[q].ws[i].flags.v
    requires roles[q].level == 2 ==> !m[main].ws[i].flags.g
    requires n in roles && n in m && roles[n].Free? && m[n].Linked?
    requires e.flags == NO_FLAGS.(v := true) && e.ppn == n && e.hi == 0
    ensures var m1 := m[n := Words(ZERO_TABLE)];
            var m2 := SetEntry(m1, q, i, e);
            var roles2 := roles[n := Node(roles[q].root, roles[q].level - 1, roles[q].key * PTE_CNT + i, q)];
            && FreeList(m2, roles2, m[n].next, free[1..])
            && Trees(m2, roles2, main) && Grown(m, roles, m2, roles2, roles[q].root, TABLES)
            && SameEntries(m, roles, main, m2) && SameKernel(m, roles, main, m2)
  {
    var m1, roles1 := m[n := Words(ZERO_TABLE)], roles[n := Kernel];
    ReuseSpare(m, roles, main, n, Words(ZERO_TABLE), Kernel);
    InstallTable(m1, roles1, main, q, i, n, e);
    var m2 := SetEntry(m1, q, i, e);
    SameTrans(m, roles, main, m1, roles1, m2);
    var roles2 := roles[n := Node(roles[q].root, roles[q].level - 1, roles[q].key * PTE_CNT + i, q)];
    assert roles2 == roles1[n := Node(roles[q].root, roles[q].level - 1, roles[q].key * PTE_CNT + i, q)];
    FreeListPop(m, roles, head, free, Words(ZERO_TABLE), Kernel);
    FreeListKept(m1, roles1, m[n].next, free[1..], m2, roles2);
  }

  lemma FreeListPop(m: Frames, roles: Roles, head: Ppn, free: seq<Ppn>, c: Page, o: Role)
    requires FreeList(m, roles, head, free) && free != [] && !o.Free?
    ensures head == free[0] && head in m && head in roles && roles[head].Free? && m[head].Linked?
    ensures FreeList(m[head := c], roles[head := o], m[head].next, free[1..])
  {
    assert OnList(free, free[0]) && LinkedAt(m, free, 0);
    var rest, m', roles' := free[1..], m[head := c], roles[head := o];
    forall i | 0 <= i < |rest| ensures LinkedAt(m', rest, i) {
      assert LinkedAt(m, free, i + 1);
      assert rest[i] == free[i + 1] && free[0] != free[i + 1];
    }
    forall p ensures OnList(rest, p) <==> p in roles' && roles'[p].Free? {
      assert OnList(free, p) <==> p in roles && roles[p].Free?;
      if OnList(free, p) && p != head {
        var i :| 0 <= i < |free| && free[i] == p;
        assert rest[i - 1] == p;
      }
    }
  }

  lemma FreeListPush(m: Frames, roles: Roles, head: Ppn, free: seq<Ppn>, p: Ppn)
    requires FreeList(m, roles, head, free) && p in m && p in roles && !roles[p].Free? && p != 0
    ensures FreeList(m[p := Linked(head)], roles[p := Free], p, [p] + free)
  {
    var more, m', roles' := [p] + free, m[p := Linked(head)], roles[p := Free];
    assert !OnList(free, p);
    forall i | 0 <= i < |more| ensures LinkedAt(m', more, i) {
      if i > 0 {
        assert LinkedAt(m, free, i - 1);
        assert more[i] == free[i - 1] && OnList(free, free[i - 1]);
      }
    }
    forall q ensures OnList(more, q) <==> q in roles' && roles'[q].Free? {
      assert OnList(free, q) <==> q in roles && roles[q].Free?;
    }
  }

  /** Filling the level-0 entry of (r, vpn); a frame it named before is lost. */
  lemma MapEffect(m: Frames, roles: Roles, main: Ppn, r: Ppn, vpn: nat, e: Pte)
    requires Trees(m, roles, main) && IsRoot(roles, r) && UserVpn(m, main, vpn) && SoftWalk(m, r, vpn) != 0
    requires e.flags.v && e.hi == 0 && e.ppn in roles && roles[e.ppn].Kernel? && m[e.ppn].Words?
    ensures var t := SoftWalk(m, r, vpn);
            && t in m && m[t].Words? && t in roles && roles[t].Node? && roles[t].root == r && roles[t].level == 0
            && var m' := SetEntry(m, t, Idx(vpn, 0), e);
               && Trees(m', Evict(m, roles, r, vpn, Lost)[e.ppn := Node(r, -1, vpn, t)], main)
               && SameEntriesBut(m, roles, main, m', r, vpn) && SameKernel(m, roles, main, m')
               && Entry0(m', r, vpn) == e
    ensures Entry0(m, r, vpn).flags.v ==>
              Entry0(m, r, vpn).ppn in roles && roles[Entry0(m, r, vpn).ppn] == Node(r, -1, vpn, SoftWalk(m, r, vpn))
  {
    var t := SoftWalk(m, r, vpn);
    LeafChange(m, roles, main, r, vpn, e);
    if Entry0(m, r, vpn).flags.v {
      EntryRoles(m, roles, main, r, vpn);
      UnmapLeaf(m, roles, main, r, vpn, NULL_PTE, Lost);
      LeafChange(m, roles, main, r, vpn, NULL_PTE);
      var m1, roles1 := SetEntry(m, t, Idx(vpn, 0), NULL_PTE), Evict(m, roles, r, vpn, Lost);
      assert IsRoot(roles1, r);
      assert m1[e.ppn] == m[e.ppn];
      MapLeaf(m1, roles1, main, r, vpn, e);
      assert SetEntry(m1, t, Idx(vpn, 0), e) == SetEntry(m, t, Idx(vpn, 0), e) by {
        assert m1[t].ws[Idx(vpn, 0) := e] == m[t].ws[Idx(vpn, 0) := e];
      }
    } else {
      MapLeaf(m, roles, main, r, vpn, e);
    }
  }

  /** A store through one user page is invisible through every other user page of any space. */
  lemma StoreIsPrivate(m: Frames, roles: Roles, main: Ppn, r: Ppn, vpn: nat, ws: Table, r': Ppn, vpn': nat)
    requires Trees(m, roles, main) && IsRoot(roles, r) && IsRoot(roles, r')
    requires UserVpn(m, main, vpn) && UserVpn(m, main, vpn') && Entry0(m, r, vpn).flags.v && Entry0(m, r', vpn').flags.v
    requires r != r' || vpn != vpn'
    ensures var m' := m[Entry0(m, r, vpn).ppn := Words(ws)];
            && Trees(m', roles, main) && Entry0(m', r', vpn') == Entry0(m, r', vpn')
            && Entry0(m, r', vpn').ppn in m && m'[Entry0(m', r', vpn').ppn] == m[Entry0(m, r', vpn').ppn]
  {
    FramesAreDisjoint(m, roles, main, r, vpn, r', vpn');
    EntryRoles(m, roles, main, r, vpn);
    EntryRoles(m, roles, main, r', vpn');
    StoreFrame(m, roles, main, Entry0(m, r, vpn).ppn, ws);
  }

  /** What a page is used for: 0 free, 1 kernel, 2 page table, 3 user frame, 4 lost. */
  function Use(o: Role): nat {
    if o.Free? then 0 else if o.Kernel? then 1 else if IsTable(o) then 2 else if o.Node? then 3 else 4
  }

  function PagesUsed(roles: Roles, use: nat): set<Ppn> { set p | p in roles && Use(roles[p]) == use }

  function LostPages(roles: Roles): set<Ppn> { PagesUsed(roles, 4) }

  /** Free pages, kernel pages, page tables, user frames and lost pages partition the pool. */
  lemma PoolIsPartitioned(m: Frames, roles: Roles, main: Ppn, head: Ppn, free: seq<Ppn>)
    requires Trees(m, roles, main) && FreeList(m, roles, head, free)
    ensures |free| + |PagesUsed(roles, 1)| + |PagesUsed(roles, 2)| + |PagesUsed(roles, 3)| + |LostPages(roles)| == |m|
    ensures PagesUsed(roles, 0) == set p | p in free
  {
    forall p
      ensures p in free <==> p in PagesUsed(roles, 0)
    {
      assert OnList(free, p) <==> p in roles && roles[p].Free?;
    }
    assert PagesUsed(roles, 0) == set p | p in free;
    DistinctCount(free);
    assert |m| == |m.Keys| == |roles.Keys|;
    UsedBelow(roles, 0);
    UsedBelow(roles, 1);
    UsedBelow(roles, 2);
    UsedBelow(roles, 3);
    UsedBelow(roles, 4);
    assert (set p | p in roles && Use(roles[p]) < 0) == {};
    assert (set p | p in roles && Use(roles[p]) < 5) == roles.Keys;
  }

  lemma UsedBelow(roles: Roles, n: nat)
    ensures |set p | p in roles && Use(roles[p]) < n + 1| ==
            |set p | p in roles && Use(roles[p]) < n| + |PagesUsed(roles, n)|
  {
    var below := set p | p in roles && Use(roles[p]) < n;
    assert (set p | p in roles && Use(roles[p]) < n + 1) == below + PagesUsed(roles, n);
    assert below !! PagesUsed(roles, n);
  }

  lemma DistinctCount(s: seq<Ppn>)
    requires NoDup(s)
    ensures |set p | p in s| == |s|
  {
    if s != [] {
      var rest := s[1..];
      DistinctCount(rest);
      assert (set p | p in s) == (set p | p in rest) + {s[0]};
    }
  }

  lemma SameThenBut(m: Frames, roles: Roles, main: Ppn, m1: Frames, roles1: Roles, m2: Frames, r0: Ppn, vpn0: nat)
    requires SameEntries(m, roles, main, m1) && SameKernel(m, roles, main, m1)
    requires SameEntriesBut(m1, roles1, main, m2, r0, vpn0) && SameKernel(m1, roles1, main, m2)
    requires forall p :: p in roles && !roles[p].Free? ==> p in roles1 && roles1[p] == roles[p]
    ensures SameEntriesBut(m, roles, main, m2, r0, vpn0) && SameKernel(m, roles, main, m2)
  {
    forall r, vpn | IsRoot(roles, r) && UserVpn(m, main, vpn) && (r != r0 || vpn != vpn0)
      ensures Entry0(m2, r, vpn) == Entry0(m, r, vpn)
    {
      assert Entry0(m1, r, vpn) == Entry0(m, r, vpn);
    }
  }

  /** A free page `n` becomes the frame of (r, vpn), filled with a copy of the user frame `src`. */
  lemma CopyEffect(m: Frames, roles: Roles, main: Ppn, r: Ppn, vpn: nat, n: Ppn, e: Pte, src: Ppn)
    requires Trees(m, roles, main) && IsRoot(roles, r) && UserVpn(m, main, vpn) && SoftWalk(m, r, vpn) != 0
    requires !Entry0(m, r, vpn).flags.v && n in roles && roles[n].Free? && e.flags.v && e.hi == 0 && e.ppn == n
    requires src in roles && roles[src].Node? && roles[src].level == -1
    ensures var t := SoftWalk(m, r, vpn);
            && t in m && m[t].Words? && t in roles && roles[t].Node? && roles[t].root == r && roles[t].level == 0
            && src in m && n != t && n != src
            && var m' := SetEntry(m[n := Words(ZERO_TABLE)], t, Idx(vpn, 0), e)[n := m[src]];
               var roles' := roles[n := Node(r, -1, vpn, t)];
               && Trees(m', roles', main)
               && SameEntriesBut(m, roles, main, m', r, vpn) && SameKernel(m, roles, main, m')
               && Entry0(m', r, vpn) == e
  {
    var t := SoftWalk(m, r, vpn);
    WalkRoles(m, roles, main, r, vpn);
    assert PageOk(m, roles, main, src);
    var m1, roles1 := m[n := Words(ZERO_TABLE)], roles[n := Kernel];
    ReuseSpare(m, roles, main, n, Words(ZERO_TABLE), Kernel);
    assert SoftWalk(m1, r, vpn) == t by {
      var t1 := Next(m, r, Idx(vpn, 2));
      assert Next(m1, r, Idx(vpn, 2)) == t1 && Next(m1, t1, Idx(vpn, 1)) == t;
    }
    MapEffect(m1, roles1, main, r, vpn, e);
    var m2, roles2 := SetEntry(m1, t, Idx(vpn, 0), e), roles1[n := Node(r, -1, vpn, t)];
    SameThenBut(m, roles, main, m1, roles1, m2, r, vpn);
    StoreFrame(m2, roles2, main, n, m[src].ws);
    assert roles2 == roles[n := Node(r, -1, vpn, t)];
    var m3 := m2[n := m[src]];
    forall r', vpn' | IsRoot(roles, r') && UserVpn(m, main, vpn') && (r' != r || vpn' != vpn)
      ensures Entry0(m3, r', vpn') == Entry0(m, r', vpn')
    {
      assert Entry0(m2, r', vpn') == Entry0(m, r', vpn');
      assert IsRoot(roles2, r');
    }
    assert Entry0(m3, r, vpn) == Entry0(m2, r, vpn);
  }

  /** The books kept over the same change: the free list is popped, and only space `r` grows. */
  lemma CopyBooks(m: Frames, roles: Roles, head: Ppn, free: seq<Ppn>, r: Ppn, vpn: nat, t: Ppn, e: Pte, c: Page)
    requires FreeList(m, roles, head, free) && free != [] && vpn < VPN_CNT && m.Keys == roles.Keys
    requires t in m && m[t].Words? && t in roles && roles[t].Node? && roles[t].root == r && roles[t].level == 0
    ensures var n := free[0];
            && n in m && m[n].Linked? && n != t
            && var m' := SetEntry(m[n := Words(ZERO_TABLE)], t, Idx(vpn, 0), e)[n := c];
               var roles' := roles[n := Node(r, -1, vpn, t)];
               && FreeList(m', roles', m[n].next, free[1..]) && Grown(m, roles, m', roles', r, FRAMES)
  {
    var n := free[0];
    FreeListPop(m, roles, head, free, c, Node(r, -1, vpn, t));
    var m', roles' := SetEntry(m[n := Words(ZERO_TABLE)], t, Idx(vpn, 0), e)[n := c], roles[n := Node(r, -1, vpn, t)];
    FreeListKept(m[n := c], roles', m[n].next, free[1..], m', roles');
  }

  /** Clearing the entry of (r, vpn) and freeing the frame it named, in either order. */
  lemma ReleaseEffect(m: Frames, roles: Roles, main: Ppn, r: Ppn, vpn: nat, e: Pte, c: Page)
    requires Trees(m, roles, main) && IsRoot(roles, r) && UserVpn(m, main, vpn) && Entry0(m, r, vpn).flags.v
    requires !e.flags.v && e.hi == 0
    ensures var t, p := SoftWalk(m, r, vpn), Entry0(m, r, vpn).ppn;
            && t in m && m[t].Words? && t in roles && roles[t].Node? && roles[t].level == 0 && roles[t].root == r
            && p in m && p in roles && p != t && p != 0 && roles[p] == Node(r, -1, vpn, t)
            && var m' := SetEntry(m, t, Idx(vpn, 0), e)[p := c];
               && m' == SetEntry(m[p := c], t, Idx(vpn, 0), e)
               && Trees(m', roles[p := Free], main)
               && SameEntriesBut(m, roles, main, m', r, vpn) && SameKernel(m, roles, main, m')
               && Entry0(m', r, vpn) == e
  {
    EntryRoles(m, roles, main, r, vpn);
    WalkRoles(m, roles, main, r, vpn);
    UnmapLeaf(m, roles, main, r, vpn, e, Free);
    LeafChange(m, roles, main, r, vpn, e);
    var t, p := SoftWalk(m, r, vpn), Entry0(m, r, vpn).ppn;
    var m1, roles1 := SetEntry(m, t, Idx(vpn, 0), e), roles[p := Free];
    ReuseSpare(m1, roles1, main, p, c, Free);
    assert roles1[p := Free] == roles1;
    var m' := m1[p := c];
    assert m' == SetEntry(m[p := c], t, Idx(vpn, 0), e);
    forall r', vpn' | IsRoot(roles, r') && UserVpn(m, main, vpn') && (r' != r || vpn' != vpn)
      ensures Entry0(m', r', vpn') == Entry0(m, r', vpn')
    {
      assert Entry0(m1, r', vpn') == Entry0(m, r', vpn') && IsRoot(roles1, r');
    }
    assert Entry0(m', r, vpn) == Entry0(m1, r, vpn);
  }

  lemma KernelTrans(m: Frames, roles: Roles, main: Ppn, m1: Frames, roles1: Roles, m2: Frames)
    requires SameKernel(m, roles, main, m1) && SameKernel(m1, roles1, main, m2)
    requires forall p :: p in roles && roles[p].KernelTable? ==> p in roles1 && roles1[p].KernelTable?
    ensures SameKernel(m, roles, main, m2)
  {
  }
}
