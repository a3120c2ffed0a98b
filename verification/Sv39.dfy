/**
 Physical pages, page-table entries and the Sv39 address translation of the RISC-V
 Privileged Architecture (version 20211203, sections 4.3.2 and 4.4), which is the reference
 against which the kernel's own page-table walk is compared.

 Physical pages are named by physical page number (ppn); 0 stands for the NULL pointer.
 Virtual pages are named by their 27-bit virtual page number.
 */
module Sv39 {
  const PTE_CNT := 512
  const MEGA_PAGES := 512          // 4 KB pages in a megapage
  const GIGA_PAGES := 0x4_0000     // 4 KB pages in a gigapage
  const VPN_CNT := 0x800_0000      // 27-bit virtual page numbers
  const PAGE_SIZE := 4096

  /** A physical page number; 0 is the NULL pointer. */
  type Ppn = int

  datatype Flags = Flags(v: bool, r: bool, w: bool, x: bool, u: bool, g: bool, a: bool, d: bool)
  {
    predicate Rwx() { r || w || x }

    function Or(that: Flags): Flags {
      Flags(v || that.v, r || that.r, w || that.w, x || that.x, u || that.u, g || that.g, a || that.a, d || that.d)
    }
  }

  const NO_FLAGS := Flags(false, false, false, false, false, false, false, false)

  /** One 64-bit page-table entry. `hi` stands for the reserved, pbmt and n bits. */
  datatype Pte = Pte(flags: Flags, rsw: nat, ppn: Ppn, hi: nat)

  const NULL_PTE := Pte(NO_FLAGS, 0, 0, 0)

  type Table = s: seq<Pte> | |s| == PTE_CNT witness seq(PTE_CNT, _ => NULL_PTE)

  /** The contents of a page: a link of the free list, or 512 words that tables and data share. */
  datatype Page = Linked(next: Ppn) | Words(ws: Table)

  type Frames = map<Ppn, Page>

  const ZERO_TABLE: Table := seq(PTE_CNT, _ => NULL_PTE)

  function LeafPte(ppn: Ppn, f: Flags): Pte {
    Pte(f.(v := true, a := true, d := true), 0, ppn, 0)
  }

  function PtabPte(ppn: Ppn, g: bool): Pte {
    Pte(NO_FLAGS.(v := true, g := g), 0, ppn, 0)
  }

  /** Index used at a given level of the table tree: bits of the virtual page number. */
  function Idx(vpn: nat, level: nat): (i: nat)
    requires level <= 2 && vpn < VPN_CNT
    ensures i < PTE_CNT
  {
    if level == 2 then vpn / GIGA_PAGES else if level == 1 then vpn / MEGA_PAGES % PTE_CNT else vpn % PTE_CNT
  }

  // The kernel's macros on 64-bit addresses.
  function VPN2(vma: nat): nat { vma / 0x4000_0000 % 0x200 }
  function VPN1(vma: nat): nat { vma / 0x20_0000 % 0x200 }
  function VPN0(vma: nat): nat { vma / 0x1000 % 0x200 }

  function Vpn(vma: nat): (n: nat)
    ensures n < VPN_CNT
  {
    vma / PAGE_SIZE % VPN_CNT
  }

  lemma MacrosAreIndices(vma: nat)
    ensures VPN2(vma) == Idx(Vpn(vma), 2) && VPN1(vma) == Idx(Vpn(vma), 1) && VPN0(vma) == Idx(Vpn(vma), 0)
  {
    var p := vma / 0x1000;
    Shifted(vma);
    Fields(p / 0x800_0000, p / 0x4_0000 % 0x200, p / 0x200 % 0x200, p % 0x200, p);
  }

  lemma Shifted(vma: nat)
    ensures vma / 0x20_0000 == vma / 0x1000 / 0x200 && vma / 0x4000_0000 == vma / 0x1000 / 0x4_0000
  {
  }

  /** The three 9-bit fields of a page number, by their place values. */
  lemma Fields(q: nat, a: nat, b: nat, c: nat, p: nat)
    requires q == p / 0x800_0000 && a == p / 0x4_0000 % 0x200 && b == p / 0x200 % 0x200 && c == p % 0x200
    ensures var v := p % 0x800_0000; v / 0x4_0000 == a && v / 0x200 % 0x200 == b && v % 0x200 == c
  {
    assert p / 0x4_0000 == q * 0x200 + a;
    assert p / 0x200 == p / 0x4_0000 * 0x200 + b;
    assert p == p / 0x200 * 0x200 + c;
    var v := p - q * 0x800_0000;
    assert v == a * 0x4_0000 + b * 0x200 + c;
    assert p % 0x800_0000 == v;
    assert v / 0x200 == a * 0x200 + b;
  }

  function PagesAt(level: nat): nat
    requires level <= 2
  {
    if level == 2 then GIGA_PAGES else if level == 1 then MEGA_PAGES else 1
  }

  datatype Xlat = Fault | Hit(pte: Pte, level: nat)

  /** Steps 2 to 6 of the translation algorithm, from the table in page `t` at `level`. */
  function HwWalk(m: Frames, t: Ppn, vpn: nat, level: nat): (x: Xlat)
    requires level <= 2 && vpn < VPN_CNT
    ensures x.Hit? ==> x.level <= level
    decreases level
  {
    if t !in m || !m[t].Words? then Fault else
    var e := m[t].ws[Idx(vpn, level)];
    if !e.flags.v || (!e.flags.r && e.flags.w) || e.hi != 0 then Fault
    else if e.flags.r || e.flags.x then
      if e.ppn % PagesAt(level) != 0 then Fault else Hit(e, level)
    else if level == 0 then Fault
    else HwWalk(m, e.ppn, vpn, level - 1)
  }

  /** Physical page an access to virtual page `vpn` reaches (step 8). */
  function PhysPage(x: Xlat, vpn: nat): Ppn
    requires x.Hit? && x.level <= 2
  {
    x.pte.ppn / PagesAt(x.level) * PagesAt(x.level) + vpn % PagesAt(x.level)
  }

  /** One level of the kernel's walk: the next table, or none where the walk gives up. */
  function Next(m: Frames, t: Ppn, i: nat): (n: Ppn)
    requires i < PTE_CNT
  {
    if t !in m || !m[t].Words? then 0 else
    var e := m[t].ws[i];
    if !e.flags.v || e.flags.Rwx() then 0 else e.ppn
  }

  /** The level-0 table that walk_pt without create reaches; 0 when it returns NULL. */
  function SoftWalk(m: Frames, root: Ppn, vpn: nat): Ppn
    requires vpn < VPN_CNT
  {
    Next(m, Next(m, root, Idx(vpn, 2)), Idx(vpn, 1))
  }

  /** The level-0 entry walk_pt points at; the null entry when it returns NULL. */
  function Entry0(m: Frames, root: Ppn, vpn: nat): Pte
    requires vpn < VPN_CNT
  {
    var t := SoftWalk(m, root, vpn);
    if t in m && m[t].Words? then m[t].ws[Idx(vpn, 0)] else NULL_PTE
  }

  /** What hardware makes of a level-0 entry. */
  function LeafXlat(e: Pte): Xlat {
    if !e.flags.v || (!e.flags.r && e.flags.w) || e.hi != 0 || !(e.flags.r || e.flags.x) then Fault else Hit(e, 0)
  }

  /** Valid entries of the page carry no reserved bits. */
  ghost predicate Clean(m: Frames, t: Ppn) {
    t in m && m[t].Words? ==> forall i :: 0 <= i < PTE_CNT && m[t].ws[i].flags.v ==> m[t].ws[i].hi == 0
  }

  /**
   walk_pt without create agrees with the hardware: where it reaches an entry, that entry alone
   decides the translation; where it returns NULL, hardware faults or uses a superpage.
   */
  lemma WalkAgreesWithHardware(m: Frames, root: Ppn, vpn: nat)
    requires vpn < VPN_CNT && 0 !in m
    requires Clean(m, root) && Clean(m, Next(m, root, Idx(vpn, 2)))
    ensures var t := SoftWalk(m, root, vpn); var hw := HwWalk(m, root, vpn, 2);
            && (t in m ==> hw == LeafXlat(Entry0(m, root, vpn)))
            && (t !in m ==> hw.Fault? || hw.level > 0)
            && (hw.Hit? && hw.level == 0 ==> t in m && m[t].Words? && hw.pte == m[t].ws[Idx(vpn, 0)])
  {
    var t1 := Next(m, root, Idx(vpn, 2));
    if t1 in m && m[root].ws[Idx(vpn, 2)].flags.v {
      assert HwWalk(m, root, vpn, 2) == HwWalk(m, t1, vpn, 1);
      var t0 := Next(m, t1, Idx(vpn, 1));
      if t0 in m {
        assert HwWalk(m, t1, vpn, 1) == HwWalk(m, t0, vpn, 0);
      }
    }
  }
}
