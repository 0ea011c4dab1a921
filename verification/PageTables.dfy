/** The PAE page tables that `vga.c` builds (section 4.4 of the Intel SDM, Volume
  3A), and the walk that the processor makes through them. Addresses and entries
  are plain numbers; of an entry only the Present bit and the address bits count. */
module PageTables {
  import opened Common

  const PAGE := 0x1000
  const LARGE := 0x20_0000
  const GIB := 0x4000_0000
  const MIB_64 := 0x400_0000
  const FB_VIRT_BASE := 0xE000_0000
  const FB_MAX_MAP_SIZE := MIB_64
  const LOW_PAGES := 32 * 512
  const FB_PAGES := 32 * 512
  const MMIO_PAGES := 8 * 512
  const PHYS_LIMIT := 0x10_0000_0000_0000
  const WORD := 0x1_0000_0000

  // ----- Entries -----

  /** A present, writable entry for a page-aligned address. */
  function Entry(base: nat): nat {
    base + 3
  }

  predicate Present(entry: nat) {
    entry % 2 == 1
  }

  function Address(entry: nat): nat {
    entry / PAGE * PAGE % PHYS_LIMIT
  }

  predicate Aligned(base: nat) {
    base % PAGE == 0 && base < PHYS_LIMIT
  }

  lemma EntryRoundTrip(base: nat)
    requires Aligned(base)
    ensures Present(Entry(base)) && Address(Entry(base)) == base
  {
    QuotientIs(base, PAGE, base / PAGE, 0);
    QuotientIs(Entry(base), PAGE, base / PAGE, 3);
    QuotientIs(Entry(base), 2, base / PAGE * (PAGE / 2) + 1, 1);
  }

  // ----- Tables and the walk -----

  /** Where the linker put the tables below the top one: page directories one page
      each, page tables one behind the other. */
  datatype Layout = Layout(lowPd: nat, fbPd: nat, lowPts: nat, fbPts: nat, mmioPts: nat)

  predicate Disjoint(a: nat, aPages: nat, b: nat, bPages: nat) {
    a + aPages * PAGE <= b || b + bPages * PAGE <= a
  }

  predicate GoodLayout(l: Layout) {
    && Aligned(l.lowPd) && Aligned(l.fbPd) && Aligned(l.lowPts) && Aligned(l.fbPts) && Aligned(l.mmioPts)
    && l.lowPd + PAGE <= WORD && l.fbPd + PAGE <= WORD
    && l.lowPts + 32 * PAGE <= WORD && l.fbPts + 32 * PAGE <= WORD && l.mmioPts + 8 * PAGE <= WORD
    && l.lowPd != l.fbPd
    && Disjoint(l.lowPts, 32, l.fbPts, 32) && Disjoint(l.lowPts, 32, l.mmioPts, 8)
       && Disjoint(l.fbPts, 32, l.mmioPts, 8)
  }

  /** The tables in memory; the page tables are rows of 512 entries. */
  datatype Tables = Tables(pdpt: seq<nat>, lowPd: seq<nat>, fbPd: seq<nat>,
                           lowPts: seq<nat>, fbPts: seq<nat>, mmioPts: seq<nat>)

  predicate Sized(t: Tables) {
    && |t.pdpt| == 4 && |t.lowPd| == 512 && |t.fbPd| == 512
    && |t.lowPts| == LOW_PAGES && |t.fbPts| == FB_PAGES && |t.mmioPts| == MMIO_PAGES
  }

  /** The page directory at a physical address, if one of the two is there. */
  function DirectoryAt(l: Layout, t: Tables, at: nat): Option<seq<nat>> {
    if at == l.lowPd then Some(t.lowPd)
    else if at == l.fbPd then Some(t.fbPd)
    else None
  }

  /** Entry `i` of the page table at a physical address, if one of the tables is there. */
  function TableEntryAt(l: Layout, t: Tables, at: nat, i: nat): Option<nat>
    requires Sized(t) && i < 512
  {
    if l.lowPts <= at < l.lowPts + 32 * PAGE then Some(t.lowPts[(at - l.lowPts) / PAGE * 512 + i])
    else if l.fbPts <= at < l.fbPts + 32 * PAGE then Some(t.fbPts[(at - l.fbPts) / PAGE * 512 + i])
    else if l.mmioPts <= at < l.mmioPts + 8 * PAGE then Some(t.mmioPts[(at - l.mmioPts) / PAGE * 512 + i])
    else None
  }

  /** The processor's walk for a 32-bit address; `None` is a page fault. */
  function Walk(l: Layout, t: Tables, va: nat): Option<nat>
    requires Sized(t) && va < WORD
  {
    var pdpte := t.pdpt[va / GIB];
    if !Present(pdpte) then None
    else match DirectoryAt(l, t, Address(pdpte))
      case None => None
      case Some(pd) =>
        if |pd| != 512 then None
        else
          var pde := pd[va / LARGE % 512];
          if !Present(pde) then None
          else match TableEntryAt(l, t, Address(pde), va / PAGE % 512)
            case None => None
            case Some(pte) => if !Present(pte) then None else Some(Address(pte) + va % PAGE)
  }

  // ----- The framebuffer mapping -----

  function PagesFor(size: nat, offset: nat): nat {
    var pages := (size + offset + 0xFFF) / PAGE;
    if pages > FB_PAGES then FB_PAGES else pages
  }

  /** What `map_framebuffer` leaves in the tables. */
  ghost predicate FbMapped(l: Layout, t: Tables, base: nat, pages: nat) {
    && Sized(t) && pages <= FB_PAGES && Aligned(base) && base + pages * PAGE <= PHYS_LIMIT
    && t.pdpt == [Entry(l.lowPd), 0, 0, Entry(l.fbPd)]
    && (forall i :: 0 <= i < 512 ==> t.lowPd[i] == if i < 32 then Entry(l.lowPts + i * PAGE) else 0)
    && (forall i :: 0 <= i < 512 ==> t.fbPd[i] == if 256 <= i < 288 then Entry(l.fbPts + (i - 256) * PAGE) else 0)
    && (forall p :: 0 <= p < LOW_PAGES ==> t.lowPts[p] == Entry(p * PAGE))
    && (forall p :: 0 <= p < FB_PAGES ==> t.fbPts[p] == if p < pages then Entry(base + p * PAGE) else 0)
    && (forall p :: 0 <= p < MMIO_PAGES ==> t.mmioPts[p] == 0)
  }

  /** The simple picture: identity below 64 MiB, the framebuffer's pages at its
      virtual base, and nothing else. */
  function FbPicture(base: nat, pages: nat, va: nat): Option<nat> {
    if va < MIB_64 then Some(va)
    else if FB_VIRT_BASE <= va < FB_VIRT_BASE + pages * PAGE then Some(base + (va - FB_VIRT_BASE))
    else None
  }

  lemma LowArithmetic(va: nat)
    requires va < GIB
    ensures va / GIB == 0 && va / LARGE < 512 && va / LARGE % 512 == va / LARGE
    ensures va / LARGE < 32 <==> va < MIB_64
    ensures (va / LARGE * 512 + va / PAGE % 512) * PAGE + va % PAGE == va
    ensures va < MIB_64 ==> va / LARGE * 512 + va / PAGE % 512 < LOW_PAGES
  {
  }

  lemma HighArithmetic(va: nat)
    requires 3 * GIB <= va < WORD
    ensures va / GIB == 3
    ensures 256 <= va / LARGE % 512 < 288 <==> FB_VIRT_BASE <= va < FB_VIRT_BASE + MIB_64
    ensures 256 <= va / LARGE % 512 < 288 ==>
              var p := (va / LARGE % 512 - 256) * 512 + va / PAGE % 512;
              p < FB_PAGES && va == FB_VIRT_BASE + p * PAGE + va % PAGE
  {
  }

  lemma WalkLow(l: Layout, t: Tables, base: nat, pages: nat, va: nat)
    requires GoodLayout(l) && FbMapped(l, t, base, pages) && va < GIB
    ensures Walk(l, t, va) == if va < MIB_64 then Some(va) else None
  {
    LowArithmetic(va);
    EntryRoundTrip(l.lowPd);
    var d := va / LARGE;
    if d < 32 {
      EntryRoundTrip(l.lowPts + d * PAGE);
      EntryRoundTrip((d * 512 + va / PAGE % 512) * PAGE);
    }
  }

  lemma WalkHigh(l: Layout, t: Tables, base: nat, pages: nat, va: nat)
    requires GoodLayout(l) && FbMapped(l, t, base, pages) && 3 * GIB <= va < WORD
    ensures Walk(l, t, va) == FbPicture(base, pages, va)
  {
    HighArithmetic(va);
    HighEntry(l, t, base, pages, va);
    var d := va / LARGE % 512;
    if 256 <= d < 288 {
      var p := (d - 256) * 512 + va / PAGE % 512;
      if p < pages { EntryRoundTrip(base + p * PAGE); }
    }
  }

  /** The last step of the walk of a high address. */
  lemma HighEntry(l: Layout, t: Tables, base: nat, pages: nat, va: nat)
    requires GoodLayout(l) && FbMapped(l, t, base, pages) && va < WORD && va / GIB == 3
    ensures var d := va / LARGE % 512;
            if 256 <= d < 288 then
              var p := (d - 256) * 512 + va / PAGE % 512;
              && p < FB_PAGES
              && Walk(l, t, va) == if Present(t.fbPts[p]) then Some(Address(t.fbPts[p]) + va % PAGE) else None
            else Walk(l, t, va) == None
  {
    EntryRoundTrip(l.fbPd);
    var d := va / LARGE % 512;
    if 256 <= d < 288 { EntryRoundTrip(l.fbPts + (d - 256) * PAGE); }
  }

  /** The walk through the built tables is the simple picture, for every address. */
  lemma WalkIsPicture(l: Layout, t: Tables, base: nat, pages: nat, va: nat)
    requires GoodLayout(l) && FbMapped(l, t, base, pages) && va < WORD
    ensures Walk(l, t, va) == FbPicture(base, pages, va)
  {
    if va < GIB { WalkLow(l, t, base, pages, va); }
    else if 3 * GIB <= va { WalkHigh(l, t, base, pages, va); }
  }

  /** Byte `k` of a region is reached at `virt + k`. */
  predicate ByteMapped(l: Layout, t: Tables, virt: nat, phys: nat, k: nat)
    requires Sized(t)
  {
    virt + k < WORD && Walk(l, t, virt + k) == Some(phys + k)
  }

  ghost predicate RegionMapped(l: Layout, t: Tables, virt: nat, phys: nat, size: nat)
    requires Sized(t)
  {
    forall k :: 0 <= k < size ==> ByteMapped(l, t, virt, phys, k)
  }

  lemma FramebufferByte(l: Layout, t: Tables, phys: nat, size: nat, k: nat)
    requires GoodLayout(l) && k < size <= FB_MAX_MAP_SIZE
    requires FbMapped(l, t, phys / PAGE * PAGE, PagesFor(size, phys % PAGE))
    ensures ByteMapped(l, t, FB_VIRT_BASE + phys % PAGE, phys, k) <==> phys % PAGE + k < MIB_64
  {
    WalkIsPicture(l, t, phys / PAGE * PAGE, PagesFor(size, phys % PAGE), FB_VIRT_BASE + phys % PAGE + k);
  }

  /** Every byte of the framebuffer is reached at `fb_addr`, exactly when its size
      and its offset in the first page fit in 64 MiB together. */
  lemma FramebufferIsReached(l: Layout, t: Tables, phys: nat, size: nat)
    requires GoodLayout(l) && size <= FB_MAX_MAP_SIZE
    requires FbMapped(l, t, phys / PAGE * PAGE, PagesFor(size, phys % PAGE))
    ensures RegionMapped(l, t, FB_VIRT_BASE + phys % PAGE, phys, size) <==> size + phys % PAGE <= MIB_64
  {
    var virt := FB_VIRT_BASE + phys % PAGE;
    if size + phys % PAGE > MIB_64 {
      FramebufferByte(l, t, phys, size, size - 1);
    } else {
      forall k | 0 <= k < size ensures ByteMapped(l, t, virt, phys, k) {
        FramebufferByte(l, t, phys, size, k);
      }
    }
  }

  // ----- The MMIO mapping -----

  /** `vga_map_mmio_region` with paging on; sizes and addresses are 32-bit words. */
  function MmioPages(size: nat, virt: nat): nat {
    (size + virt % PAGE + 0xFFF) % WORD / PAGE
  }

  predicate MmioAccepted(size: nat, virt: nat) {
    && virt / GIB == 3 && MmioPages(size, virt) <= MMIO_PAGES
    && virt / LARGE % 512 + (MmioPages(size, virt) + 511) / 512 <= 512
  }

  /** What an accepted call leaves in the tables. */
  ghost predicate MmioMapped(l: Layout, t: Tables, t': Tables, phys: nat, size: nat, virt: nat) {
    var pages, d := MmioPages(size, virt), virt / LARGE % 512;
    var base, tables := phys / PAGE * PAGE, (pages + 511) / 512;
    && Sized(t) && Sized(t') && MmioAccepted(size, virt)
    && t'.pdpt == t.pdpt[3 := Entry(l.fbPd)] && t'.lowPd == t.lowPd && t'.lowPts == t.lowPts && t'.fbPts == t.fbPts
    && (forall i :: 0 <= i < 512 ==>
          t'.fbPd[i] == if d <= i < d + tables then Entry(l.mmioPts + (i - d) * PAGE) else t.fbPd[i])
    && (forall p :: 0 <= p < MMIO_PAGES ==>
          t'.mmioPts[p] == if p < pages then Entry(base + p * PAGE) else t.mmioPts[p])
  }

  /** The first address that the rewritten directory entries cover. */
  function WindowStart(virt: nat): nat {
    virt / LARGE * LARGE
  }

  /** Where an address of the window stands in the directory and in the tables. */
  lemma WindowArithmetic(virt: nat, va: nat, tables: nat)
    requires virt / GIB == 3 && virt / LARGE % 512 + tables <= 512
    requires WindowStart(virt) <= va < WindowStart(virt) + tables * LARGE
    ensures va < WORD && va / GIB == 3
    ensures virt / LARGE % 512 <= va / LARGE % 512 < virt / LARGE % 512 + tables
    ensures (va / LARGE % 512 - virt / LARGE % 512) * 512 + va / PAGE % 512 == (va - WindowStart(virt)) / PAGE
    ensures (va - WindowStart(virt)) / PAGE * PAGE + va % PAGE == va - WindowStart(virt)
  {
    var d, off := virt / LARGE % 512, va - WindowStart(virt);
    assert WindowStart(virt) == 3 * GIB + d * LARGE;
    AddressParts(3, d + off / LARGE, off % LARGE);
  }

  lemma AddressParts(g: nat, d: nat, o: nat)
    requires d < 512 && o < LARGE
    ensures var va := g * GIB + d * LARGE + o;
            va / GIB == g && va / LARGE % 512 == d && va / PAGE % 512 == o / PAGE && va % PAGE == o % PAGE
  {
    var va := g * GIB + d * LARGE + o;
    QuotientIs(va, GIB, g, d * LARGE + o);
    QuotientIs(va, LARGE, g * 512 + d, o);
    QuotientIs(g * 512 + d, 512, g, d);
    QuotientIs(va, PAGE, (g * 512 + d) * 512 + o / PAGE, o % PAGE);
    QuotientIs((g * 512 + d) * 512 + o / PAGE, 512, g * 512 + d, o / PAGE);
  }

  /** Inside the window, page `p` of the window goes to page `p` of the region: the
      tables are filled from their first entry, wherever in its 2 MiB the region begins. */
  lemma WalkWindow(l: Layout, t: Tables, t': Tables, phys: nat, size: nat, virt: nat, va: nat)
    requires GoodLayout(l) && MmioMapped(l, t, t', phys, size, virt) && phys + MMIO_PAGES * PAGE <= PHYS_LIMIT
    requires WindowStart(virt) <= va < WindowStart(virt) + (MmioPages(size, virt) + 511) / 512 * LARGE
    ensures va < WORD
    ensures var p := (va - WindowStart(virt)) / PAGE;
            Walk(l, t', va) == if p < MmioPages(size, virt) then Some(phys / PAGE * PAGE + (va - WindowStart(virt)))
                               else if Present(t.mmioPts[p]) then Some(Address(t.mmioPts[p]) + va % PAGE)
                               else None
  {
    WindowArithmetic(virt, va, (MmioPages(size, virt) + 511) / 512);
    WindowEntry(l, t, t', phys, size, virt, va);
    var p := (va - WindowStart(virt)) / PAGE;
    if p < MmioPages(size, virt) { PageEntry(phys, p); }
  }

  lemma PageEntry(phys: nat, p: nat)
    requires p < MMIO_PAGES && phys + MMIO_PAGES * PAGE <= PHYS_LIMIT
    ensures var e := Entry(phys / PAGE * PAGE + p * PAGE); Present(e) && Address(e) == phys / PAGE * PAGE + p * PAGE
  {
    QuotientIs(phys / PAGE * PAGE + p * PAGE, PAGE, phys / PAGE + p, 0);
    EntryRoundTrip(phys / PAGE * PAGE + p * PAGE);
  }

  /** The last step of the walk inside the window. */
  lemma WindowEntry(l: Layout, t: Tables, t': Tables, phys: nat, size: nat, virt: nat, va: nat)
    requires GoodLayout(l) && MmioMapped(l, t, t', phys, size, virt)
    requires va < WORD && va / GIB == 3
    requires 0 <= va / LARGE % 512 - virt / LARGE % 512 < (MmioPages(size, virt) + 511) / 512
    ensures var p := (va / LARGE % 512 - virt / LARGE % 512) * 512 + va / PAGE % 512;
            && p < MMIO_PAGES
            && Walk(l, t', va) == if Present(t'.mmioPts[p]) then Some(Address(t'.mmioPts[p]) + va % PAGE) else None
  {
    EntryRoundTrip(l.fbPd);
    EntryRoundTrip(l.mmioPts + (va / LARGE % 512 - virt / LARGE % 512) * PAGE);
  }

  /** The two mappings of the framebuffer's own tables are untouched by a window elsewhere. */
  lemma OutsideLow(l: Layout, t: Tables, t': Tables, phys: nat, size: nat, virt: nat, base: nat, pages: nat, va: nat)
    requires GoodLayout(l) && FbMapped(l, t, base, pages) && MmioMapped(l, t, t', phys, size, virt) && va < GIB
    ensures Walk(l, t', va) == Walk(l, t, va)
  {
    EntryRoundTrip(l.lowPd);
    if va / LARGE % 512 < 32 { EntryRoundTrip(l.lowPts + va / LARGE % 512 * PAGE); }
  }

  lemma OutsideHigh(l: Layout, t: Tables, t': Tables, phys: nat, size: nat, virt: nat, base: nat, pages: nat, va: nat)
    requires GoodLayout(l) && FbMapped(l, t, base, pages) && MmioMapped(l, t, t', phys, size, virt)
    requires 3 * GIB <= va < WORD
    requires var d, i := virt / LARGE % 512, va / LARGE % 512; !(d <= i < d + (MmioPages(size, virt) + 511) / 512)
    ensures Walk(l, t', va) == Walk(l, t, va)
  {
    EntryRoundTrip(l.fbPd);
    var i := va / LARGE % 512;
    if 256 <= i < 288 { EntryRoundTrip(l.fbPts + (i - 256) * PAGE); }
  }

  lemma OutsideArithmetic(virt: nat, va: nat, tables: nat)
    requires virt / GIB == 3 && 3 * GIB <= va < WORD
    requires va < WindowStart(virt) || va >= WindowStart(virt) + tables * LARGE
    ensures !(virt / LARGE % 512 <= va / LARGE % 512 < virt / LARGE % 512 + tables)
  {
  }

  /** Outside the window no translation changes. */
  lemma WalkOutside(l: Layout, t: Tables, t': Tables, phys: nat, size: nat, virt: nat, base: nat, pages: nat, va: nat)
    requires GoodLayout(l) && FbMapped(l, t, base, pages) && MmioMapped(l, t, t', phys, size, virt) && va < WORD
    requires va < WindowStart(virt) || va >= WindowStart(virt) + (MmioPages(size, virt) + 511) / 512 * LARGE
    ensures Walk(l, t', va) == Walk(l, t, va)
  {
    if va < GIB {
      OutsideLow(l, t, t', phys, size, virt, base, pages, va);
    } else if 3 * GIB <= va {
      OutsideArithmetic(virt, va, (MmioPages(size, virt) + 511) / 512);
      OutsideHigh(l, t, t', phys, size, virt, base, pages, va);
    }
  }

  /** The first call maps every byte of its region, exactly when the region begins on a 2 MiB boundary. */
  lemma MmioIsRight(l: Layout, t: Tables, t': Tables, phys: nat, size: nat, virt: nat, base: nat, pages: nat)
    requires GoodLayout(l) && FbMapped(l, t, base, pages) && MmioMapped(l, t, t', phys, size, virt)
    requires 0 < size && virt + size <= WORD && phys % PAGE == virt % PAGE && phys + MMIO_PAGES * PAGE <= PHYS_LIMIT
    ensures RegionMapped(l, t', virt, phys, size) <==> virt / PAGE * PAGE % LARGE == 0
  {
    if virt / PAGE * PAGE % LARGE == 0 {
      forall k | 0 <= k < size ensures ByteMapped(l, t', virt, phys, k) {
        MmioByte(l, t, t', phys, size, virt, k);
      }
    } else {
      MmioMisses(l, t, t', phys, size, virt);
      assert !ByteMapped(l, t', virt, phys, 0);
    }
  }

  /** Elsewhere in its 2 MiB, not even the first byte is right. */
  lemma MmioMisses(l: Layout, t: Tables, t': Tables, phys: nat, size: nat, virt: nat)
    requires GoodLayout(l) && MmioMapped(l, t, t', phys, size, virt)
    requires forall p :: 0 <= p < MMIO_PAGES ==> t.mmioPts[p] == 0
    requires 0 < size && virt + size <= WORD && phys % PAGE == virt % PAGE && phys + MMIO_PAGES * PAGE <= PHYS_LIMIT
    requires virt / PAGE * PAGE % LARGE != 0
    ensures !ByteMapped(l, t', virt, phys, 0)
  {
    WindowStartsBefore(virt);
    WalkWindow(l, t, t', phys, size, virt, virt);
  }

  lemma WindowStartsBefore(virt: nat)
    requires virt / PAGE * PAGE % LARGE != 0
    ensures virt - WindowStart(virt) >= PAGE && virt < WindowStart(virt) + LARGE
  {
    QuotientIs(virt / PAGE, 512, virt / LARGE, virt / PAGE % 512);
  }

  lemma MmioByte(l: Layout, t: Tables, t': Tables, phys: nat, size: nat, virt: nat, k: nat)
    requires GoodLayout(l) && MmioMapped(l, t, t', phys, size, virt)
    requires k < size && virt + size <= WORD && phys % PAGE == virt % PAGE && phys + MMIO_PAGES * PAGE <= PHYS_LIMIT
    requires virt / PAGE * PAGE % LARGE == 0
    ensures ByteMapped(l, t', virt, phys, k)
  {
    assert WindowStart(virt) == virt / PAGE * PAGE;
    assert virt % PAGE + k < MmioPages(size, virt) * PAGE;
    WalkWindow(l, t, t', phys, size, virt, virt + k);
  }

  // ----- Relocated BARs -----

  const XHCI_LOW_MMIO_BASE: bv32 := 0xF000_0000
  const XHCI_LOW_MMIO_LIMIT: bv32 := 0xF100_0000
  const XHCI_LOW_MMIO_MIN: bv32 := 0x8000_0000

  function AlignDown(value: bv32, alignment: bv32): bv32 {
    if alignment == 0 then value else value & !(alignment - 1)
  }

  /** The address that `relocate_bar_below_4g` chooses for a BAR of a detected size, if it accepts it. */
  function Relocated(size: bv32): Option<bv32> {
    if size == 0 then None
    else
      var base := AlignDown(XHCI_LOW_MMIO_BASE, size);
      if base < XHCI_LOW_MMIO_MIN || base + size > XHCI_LOW_MMIO_LIMIT || base + size < base then None
      else Some(base)
  }

  /** A BAR has a power-of-two size; the sizing code answers at most 256 MiB. */
  predicate BarSize(size: bv32) {
    size != 0 && size & (size - 1) == 0 && size <= 0x1000_0000
  }

  /** Accepted sizes are those up to 16 MiB, and all go to the same place. */
  lemma RelocatedIsFixed(size: bv32)
    requires BarSize(size)
    ensures Relocated(size) == if size <= 0x100_0000 then Some(XHCI_LOW_MMIO_BASE) else None
  {
  }

  const BAR: nat := 0xF000_0000

  /** For every size that relocation accepts, mapping the BAR succeeds, maps each of
      its bytes to itself and leaves every earlier translation as it was. */
  lemma RelocatedBarIsMapped(l: Layout, t: Tables, t': Tables, size: nat, base: nat, pages: nat)
    requires GoodLayout(l) && FbMapped(l, t, base, pages) && 0 < size <= 0x100_0000
    ensures MmioAccepted(size, BAR)
    ensures MmioMapped(l, t, t', BAR, size, BAR) ==>
              && RegionMapped(l, t', BAR, BAR, size)
              && forall va :: 0 <= va < WORD && Walk(l, t, va).Some? ==> Walk(l, t', va) == Walk(l, t, va)
  {
    if MmioMapped(l, t, t', BAR, size, BAR) {
      MmioIsRight(l, t, t', BAR, size, BAR, base, pages);
      forall va | 0 <= va < WORD && Walk(l, t, va).Some? ensures Walk(l, t', va) == Walk(l, t, va) {
        WalkIsPicture(l, t, base, pages, va);
        WalkOutside(l, t, t', BAR, size, BAR, base, pages, va);
      }
    }
  }

  // ----- The code that builds the tables -----

  class Pae {
    const layout: Layout
    const pdpt: array<nat>
    const lowPd: array<nat>
    const fbPd: array<nat>
    const lowPts: array<nat>
    const fbPts: array<nat>
    const mmioPts: array<nat>
    var enabled: bool
    var fbAddr: nat

    ghost predicate Valid()
      reads this
    {
      && GoodLayout(layout)
      && pdpt.Length == 4 && lowPd.Length == 512 && fbPd.Length == 512
      && lowPts.Length == LOW_PAGES && fbPts.Length == FB_PAGES && mmioPts.Length == MMIO_PAGES
      && lowPd != fbPd && lowPts != fbPts
    }

    ghost function Abs(): (t: Tables)
      requires Valid()
      reads this, pdpt, lowPd, fbPd, lowPts, fbPts, mmioPts
      ensures Sized(t)
    {
      Tables(pdpt[..], lowPd[..], fbPd[..], lowPts[..], fbPts[..], mmioPts[..])
    }

    constructor (layout: Layout)
      requires GoodLayout(layout)
      ensures Valid() && !enabled && this.layout == layout
    {
      this.layout := layout;
      pdpt := new nat[4](_ => 0);
      lowPd := new nat[512](_ => 0);
      fbPd := new nat[512](_ => 0);
      lowPts := new nat[LOW_PAGES](_ => 0);
      fbPts := new nat[FB_PAGES](_ => 0);
      mmioPts := new nat[MMIO_PAGES](_ => 0);
      enabled, fbAddr := false, 0;
    }

    static method Clear(table: array<nat>)
      modifies table
      ensures forall i :: 0 <= i < table.Length ==> table[i] == 0
    {
      for i := 0 to table.Length
        invariant forall k :: 0 <= k < i ==> table[k] == 0
      {
        table[i] := 0;
      }
    }

    /** Points `count` directory entries, from `first` on, at consecutive page tables. */
    static method Link(directory: array<nat>, first: nat, count: nat, tables: nat)
      requires first + count <= directory.Length
      modifies directory
      ensures forall i :: 0 <= i < directory.Length ==>
                directory[i] == if first <= i < first + count then Entry(tables + (i - first) * PAGE)
                                else old(directory[i])
    {
      for k := 0 to count
        invariant forall i :: 0 <= i < directory.Length ==>
                    directory[i] == if first <= i < first + k then Entry(tables + (i - first) * PAGE)
                                    else old(directory[i])
      {
        directory[first + k] := Entry(tables + k * PAGE);
      }
    }

    /** Points the first `pages` table entries at consecutive physical pages. */
    static method Fill(tables: array<nat>, pages: nat, base: nat)
      requires pages <= tables.Length && tables.Length % 512 == 0
      modifies tables
      ensures forall p :: 0 <= p < tables.Length ==>
                tables[p] == if p < pages then Entry(base + p * PAGE) else old(tables[p])
    {
      for page := 0 to pages
        invariant forall p :: 0 <= p < tables.Length ==>
                    tables[p] == if p < page then Entry(base + p * PAGE) else old(tables[p])
      {
        var pt, index := page / 512, page % 512;
        tables[pt * 512 + index] := Entry(base + page * PAGE);
      }
    }

    method MapFramebuffer(phys: nat, size: nat)
      requires Valid() && size <= FB_MAX_MAP_SIZE && phys + MIB_64 + PAGE <= PHYS_LIMIT
      modifies this, pdpt, lowPd, fbPd, lowPts, fbPts, mmioPts
      ensures Valid() && enabled && fbAddr == FB_VIRT_BASE + phys % PAGE
      ensures FbMapped(layout, Abs(), phys / PAGE * PAGE, PagesFor(size, phys % PAGE))
    {
      var base, offset := phys / PAGE * PAGE, phys % PAGE;
      var pages := (size + offset + 0xFFF) / PAGE;
      if pages > FB_PAGES { pages := FB_PAGES; }
      ClearAll();
      BuildLow();
      BuildFramebuffer(base, pages);
      enabled := true;
      fbAddr := FB_VIRT_BASE + offset;
    }

    method ClearAll()
      requires Valid()
      modifies pdpt, lowPd, fbPd, lowPts, fbPts, mmioPts
      ensures forall i :: 0 <= i < 4 ==> pdpt[i] == 0
      ensures forall i :: 0 <= i < 512 ==> lowPd[i] == 0 && fbPd[i] == 0
      ensures forall p :: 0 <= p < FB_PAGES ==> fbPts[p] == 0
      ensures forall p :: 0 <= p < MMIO_PAGES ==> mmioPts[p] == 0
    {
      Clear(pdpt);
      Clear(lowPd);
      Clear(fbPd);
      Clear(lowPts);
      Clear(fbPts);
      Clear(mmioPts);
    }

    method BuildLow()
      requires Valid()
      requires forall i :: 0 <= i < 512 ==> lowPd[i] == 0
      modifies pdpt, lowPd, lowPts
      ensures pdpt[..] == old(pdpt[..])[0 := Entry(layout.lowPd)]
      ensures forall i :: 0 <= i < 512 ==> lowPd[i] == if i < 32 then Entry(layout.lowPts + i * PAGE) else 0
      ensures forall p :: 0 <= p < LOW_PAGES ==> lowPts[p] == Entry(p * PAGE)
    {
      pdpt[0] := Entry(layout.lowPd);
      Link(lowPd, 0, 32, layout.lowPts);
      Fill(lowPts, LOW_PAGES, 0);
    }

    method BuildFramebuffer(base: nat, pages: nat)
      requires Valid() && pages <= FB_PAGES
      requires forall i :: 0 <= i < 512 ==> fbPd[i] == 0
      requires forall p :: 0 <= p < FB_PAGES ==> fbPts[p] == 0
      modifies pdpt, fbPd, fbPts
      ensures pdpt[..] == old(pdpt[..])[3 := Entry(layout.fbPd)]
      ensures forall i :: 0 <= i < 512 ==>
              fbPd[i] == if 256 <= i < 288 then Entry(layout.fbPts + (i - 256) * PAGE) else 0
      ensures forall p :: 0 <= p < FB_PAGES ==> fbPts[p] == if p < pages then Entry(base + p * PAGE) else 0
    {
      pdpt[3] := Entry(layout.fbPd);
      Link(fbPd, 256, 32, layout.fbPts);
      Fill(fbPts, pages, base);
    }

    /** Returns the virtual address, or `None` for the null pointer. */
    method MapMmioRegion(phys: nat, size: nat, virt: nat) returns (r: Option<nat>)
      requires Valid() && size < WORD && virt < WORD && phys + MMIO_PAGES * PAGE <= PHYS_LIMIT
      modifies pdpt, fbPd, mmioPts
      ensures r == if !enabled || MmioAccepted(size, virt) then Some(virt) else None
      ensures if enabled && MmioAccepted(size, virt) then MmioMapped(layout, old(Abs()), Abs(), phys, size, virt)
              else Abs() == old(Abs())
    {
      var pages := (size + virt % PAGE + 0xFFF) % WORD / PAGE;
      var pdptIndex, pdIndex := virt / GIB, virt / LARGE % 512;
      if !enabled { return Some(virt); }
      if pdptIndex != 3 || pages > MMIO_PAGES || pdIndex + (pages + 511) / 512 > 512 { return None; }
      pdpt[3] := Entry(layout.fbPd);
      Link(fbPd, pdIndex, (pages + 511) / 512, layout.mmioPts);
      Fill(mmioPts, pages, phys / PAGE * PAGE);
      r := Some(virt);
    }

    /** Booting with a high framebuffer and a relocated controller: both regions are
        reachable, and low memory is where it was. */
    method MapBoth(phys: nat, fbSize: nat, barSize: bv32) returns (r: Option<nat>)
      requires Valid() && fbSize <= FB_MAX_MAP_SIZE && phys + MIB_64 + PAGE <= PHYS_LIMIT
      requires BarSize(barSize) && Relocated(barSize).Some?
      modifies this, pdpt, lowPd, fbPd, lowPts, fbPts, mmioPts
      ensures Valid() && r == Some(BAR)
      ensures RegionMapped(layout, Abs(), BAR, BAR, barSize as nat)
      ensures fbSize + phys % PAGE <= MIB_64 ==> RegionMapped(layout, Abs(), fbAddr, phys, fbSize)
      ensures forall va :: 0 <= va < MIB_64 ==> Walk(layout, Abs(), va) == Some(va)
    {
      MapFramebuffer(phys, fbSize);
      ghost var t, base, pages := Abs(), phys / PAGE * PAGE, PagesFor(fbSize, phys % PAGE);
      RelocatedIsFixed(barSize);
      var size := barSize as nat;
      RelocatedBarIsMapped(layout, t, t, size, base, pages);
      r := MapMmioRegion(BAR, size, BAR);
      RelocatedBarIsMapped(layout, t, Abs(), size, base, pages);
      FramebufferIsReached(layout, t, phys, fbSize);
      forall va | 0 <= va < MIB_64 ensures Walk(layout, Abs(), va) == Some(va) {
        WalkIsPicture(layout, t, base, pages, va);
      }
      if fbSize + phys % PAGE <= MIB_64 {
        forall k | 0 <= k < fbSize ensures ByteMapped(layout, Abs(), fbAddr, phys, k) {
          assert ByteMapped(layout, t, fbAddr, phys, k);
        }
      }
    }
  }
}
