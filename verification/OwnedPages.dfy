// The allocator as a set of pages, the pages a process owns
// (kernel/kernel/src/memory/types.rs:79-116), and how the free set is set up
// (kernel/kernel/src/memory/kernel.rs:134-172).
module PageOwnership {
  import opened Prelude
  import opened Allocators

  const MAX_OWNED_PAGES: nat := 176
  const PHYS_WINDOW_START: nat := 0x100_0000
  const HUGE_PAGE: nat := 0x20_0000

  ghost predicate IsPage(p: nat) {
    0 < p <= U64_MAX - PAGE_SIZE && PageAligned(p)
  }

  /** The pages whose first byte is free; in an aligned table their other bytes are free too. */
  ghost function FreePages(t: Table): set<nat> {
    set p | 0 <= p <= U64_MAX && PageAligned(p) && Covered(t, p)
  }

  lemma WholePageIsFree(t: Table, p: nat, a: nat)
    requires Aligned(t) && PageAligned(p) && p <= a < p + PAGE_SIZE
    ensures Covered(t, p) <==> Covered(t, a)
  {
    hide PageAligned;
    forall i | 0 <= i < |t| ensures t[i].Contains(p) <==> t[i].Contains(a) {
      WholePageInRegion(t[i].start, t[i].end, p, a);
    }
  }

  lemma WholePageInRegion(start: nat, end: nat, p: nat, a: nat)
    requires PageAligned(start) && PageAligned(end) && PageAligned(p) && p <= a < p + PAGE_SIZE
    ensures start <= p < end <==> start <= a < end
  {
    hide PageAligned;
    if p < start { PagesApart(p, start); }
    if p < end { PagesApart(p, end); }
  }

  lemma CoveredIsBounded(t: Table, a: nat)
    requires Canonical(t) && Covered(t, a)
    ensures 0 < a < U64_MAX
  {
  }

  /** A run of `n` pages is free when each of its pages is. */
  lemma RunIsPages(t: Table, from: nat, n: nat)
    requires Canonical(t) && Aligned(t) && PageAligned(from)
    ensures FreeRun(t, from, n) <==> forall k: nat :: k < n ==> from + k * PAGE_SIZE in FreePages(t)
  {
    hide Covered, Canonical, Aligned;
    if FreeRun(t, from, n) {
      forall k: nat | k < n ensures from + k * PAGE_SIZE in FreePages(t) {
        assert Covered(t, from + k * PAGE_SIZE);
        CoveredIsBounded(t, from + k * PAGE_SIZE);
      }
    }
    if forall k: nat :: k < n ==> from + k * PAGE_SIZE in FreePages(t) {
      forall a | from <= a < from + n * PAGE_SIZE ensures Covered(t, a) {
        var k := (a - from) / PAGE_SIZE;
        assert from + k * PAGE_SIZE in FreePages(t);
        WholePageIsFree(t, from + k * PAGE_SIZE, a);
      }
    }
  }

  /** One page allocated: it was the lowest free page, and it alone left the set. */
  lemma PageAllocated(before: Table, after: Table, page: nat)
    requires Canonical(before) && Aligned(before) && Canonical(after) && Aligned(after) && PageAligned(page)
    requires FreeRun(before, page, 1) && forall s: nat :: s < page ==> !FreeRun(before, s, 1)
    requires forall a: nat :: Covered(after, a) <==> Covered(before, a) && !(page <= a < page + PAGE_SIZE)
    ensures page in FreePages(before) && FreePages(after) == FreePages(before) - {page}
    ensures forall p :: p in FreePages(before) ==> page <= p
    ensures IsPage(page)
  {
    hide Canonical, Aligned, FreeRun, PageAligned;
    RunIsPages(before, page, 1);
    assert page + 0 * PAGE_SIZE in FreePages(before);
    forall p | p in FreePages(before) ensures page <= p {
      RunIsPages(before, p, 1);
    }
    assert Covered(before, page + PAGE_SIZE - 1) by { WholePageIsFree(before, page, page + PAGE_SIZE - 1); }
    CoveredIsBounded(before, page + PAGE_SIZE - 1);
    CoveredIsBounded(before, page);
    hide Covered;
    forall p: nat ensures p in FreePages(after) <==> p in FreePages(before) && p != page {
      if page < p && PageAligned(p) { PagesApart(page, p); }
    }
  }

  /** One page given back. */
  lemma PageFreed(before: Table, after: Table, page: nat)
    requires IsPage(page)
    requires forall a: nat :: Covered(after, a) <==> Covered(before, a) || page <= a < page + PAGE_SIZE
    ensures FreePages(after) == FreePages(before) + {page}
  {
    hide Covered, PageAligned;
    forall p: nat ensures p in FreePages(after) <==> p in FreePages(before) || p == page {
      if page < p && PageAligned(p) { PagesApart(page, p); }
    }
  }

  lemma ElementsUpTo(pages: seq<nat>, k: nat)
    requires k <= |pages|
    ensures k == 0 ==> Elements(pages[..k]) == {}
    ensures k < |pages| ==> Elements(pages[..k + 1]) == Elements(pages[..k]) + {pages[k]}
    ensures pages[..|pages|] == pages
  {
  }

  // ---------------------------------------------------------------------------
  // How many intervals a set of pages takes.

  /** `p` is free and the page below it is not. */
  ghost predicate StartsRange(free: set<nat>, p: nat) {
    p in free && (p >= PAGE_SIZE ==> p - PAGE_SIZE !in free)
  }

  ghost function RangeStarts(free: set<nat>): set<nat> {
    set p | p in free && StartsRange(free, p)
  }

  /** The table entries that a set of free pages takes, whatever led to it. */
  ghost function Ranges(free: set<nat>): nat {
    |RangeStarts(free)|
  }

  ghost function Starts(t: Table): set<nat> {
    set i | 0 <= i < |t| :: t[i].start
  }

  lemma {:induction false} StartsAreMany(t: Table)
    requires Canonical(t)
    ensures |Starts(t)| == |t|
    decreases |t|
  {
    hide Canonical;
    if t != [] {
      LastStartIsNew(t);
      StartsAreMany(t[..|t| - 1]);
      StartsWithLast(t);
    }
  }

  lemma LastStartIsNew(t: Table)
    requires Canonical(t) && t != []
    ensures Canonical(t[..|t| - 1]) && t[|t| - 1].start !in Starts(t[..|t| - 1])
  {
    var n := |t| - 1;
    forall i | 0 <= i < n ensures t[..n][i].start < t[n].start {
      assert t[i].end < t[n].start;
    }
  }

  lemma StartsWithLast(t: Table)
    requires t != []
    ensures Starts(t) == Starts(t[..|t| - 1]) + {t[|t| - 1].start}
  {
    var n := |t| - 1;
    var front := t[..n];
    forall p | p in Starts(t) ensures p in Starts(front) + {t[n].start} {
      var i :| 0 <= i < |t| && t[i].start == p;
      assert i < n ==> front[i].start == p;
    }
    forall p | p in Starts(front) ensures p in Starts(t) {
      var i :| 0 <= i < |front| && front[i].start == p;
      assert t[i].start == p;
    }
  }

  lemma RegionStartsRange(t: Table, i: nat)
    requires Canonical(t) && Aligned(t) && i < |t|
    ensures StartsRange(FreePages(t), t[i].start)
  {
    hide PageAligned;
    var p := t[i].start;
    assert t[i].Contains(p);
    if p >= PAGE_SIZE && p - PAGE_SIZE in FreePages(t) {
      var j :| 0 <= j < |t| && t[j].Contains(p - PAGE_SIZE);
      if j < i { PagesApart(t[j].end, p); }
    }
  }

  lemma RangeStartsRegion(t: Table, p: nat)
    requires Canonical(t) && Aligned(t) && StartsRange(FreePages(t), p)
    ensures p in Starts(t)
  {
    hide PageAligned;
    var i :| 0 <= i < |t| && t[i].Contains(p);
    if t[i].start < p {
      InsideStartsNothing(t, i, p);
    }
  }

  lemma InsideStartsNothing(t: Table, i: nat, p: nat)
    requires Canonical(t) && Aligned(t) && i < |t| && t[i].start < p < t[i].end && PageAligned(p)
    ensures !StartsRange(FreePages(t), p)
  {
    hide PageAligned;
    PagesApart(t[i].start, p);
    ContainedIsFree(t, i, p - PAGE_SIZE);
  }

  lemma ContainedIsFree(t: Table, i: nat, p: nat)
    requires Canonical(t) && i < |t| && t[i].Contains(p) && PageAligned(p)
    ensures p in FreePages(t)
  {
    hide PageAligned;
  }

  /** A canonical table has exactly one entry for each maximal run of free pages. */
  lemma TableHasRanges(t: Table)
    requires Canonical(t) && Aligned(t)
    ensures |t| == Ranges(FreePages(t))
  {
    hide Canonical, Aligned, FreePages, StartsRange, PageAligned;
    StartsAreMany(t);
    forall p: nat ensures p in Starts(t) <==> p in RangeStarts(FreePages(t)) {
      if p in Starts(t) {
        var i :| 0 <= i < |t| && t[i].start == p;
        RegionStartsRange(t, i);
        StartsAreFree(FreePages(t), p);
      }
      if p in RangeStarts(FreePages(t)) {
        RangeStartsRegion(t, p);
      }
    }
    assert Starts(t) == RangeStarts(FreePages(t));
  }

  lemma StartsAreFree(free: set<nat>, p: nat)
    ensures StartsRange(free, p) ==> p in free
  {
  }

  ghost function PagesOf(start: nat, end: nat): set<nat> {
    set p | start <= p < end && PageAligned(p)
  }

  lemma OneMoreStart(free: set<nat>, free': set<nat>, x: nat)
    requires StartsRange(free', x) && !StartsRange(free, x)
    requires forall p: nat :: StartsRange(free, p) ==> StartsRange(free', p)
    ensures Ranges(free') > Ranges(free)
  {
    forall p | p in RangeStarts(free) ensures p in RangeStarts(free') && p != x {
      StartsAreFree(free', p);
    }
    StartsAreFree(free', x);
    SubsetSize(RangeStarts(free) + {x}, RangeStarts(free'));
  }

  /** A range that adjoins nothing takes an entry of its own. */
  lemma ApartTakesOneMore(t: Table, start: nat, end: nat)
    requires Canonical(t) && Aligned(t) && 0 < start < end <= U64_MAX && PageAligned(start) && PageAligned(end)
    requires forall i :: 0 <= i < |t| ==> !t[i].Touches(start, end)
    ensures Ranges(FreePages(t) + PagesOf(start, end)) > |t|
  {
    hide PageAligned;
    TableHasRanges(t);
    var free := FreePages(t);
    forall p | p in free ensures !(start <= p + PAGE_SIZE && p <= end) {
      var i :| 0 <= i < |t| && t[i].Contains(p);
      PagesApart(p, t[i].end);
    }
    hide FreePages, Canonical, Aligned;
    PagesApart(0, start);
    forall p: nat | StartsRange(free, p) ensures StartsRange(free + PagesOf(start, end), p) {
      if p >= PAGE_SIZE && p - PAGE_SIZE in PagesOf(start, end) { PagesApart(p - PAGE_SIZE, end); }
    }
    OneMoreStart(free, free + PagesOf(start, end), start);
  }

  /** Cutting a range out of the middle of a region takes one entry more. */
  lemma SplitTakesOneMore(t: Table, start: nat, end: nat)
    requires Canonical(t) && Aligned(t) && start < end && PageAligned(start) && PageAligned(end)
    requires HasSplit(t, start, end)
    ensures Ranges(FreePages(t) - PagesOf(start, end)) > |t|
  {
    hide PageAligned;
    TableHasRanges(t);
    var i :| 0 <= i < |t| && Splits(t[i], start, end);
    PagesApart(start, end);
    ContainedIsFree(t, i, end);
    ContainedIsFree(t, i, end - PAGE_SIZE);
    var free := FreePages(t);
    var after := free - PagesOf(start, end);
    forall p: nat | StartsRange(free, p) ensures StartsRange(after, p) {
      RangeStartsRegion(t, p);
      var j :| 0 <= j < |t| && t[j].start == p;
      StartsOutside(t, i, j, start, end);
      hide FreePages, Canonical, Aligned;
    }
    hide FreePages, Canonical, Aligned;
    OneMoreStart(free, after, end);
  }

  lemma StartsOutside(t: Table, i: nat, j: nat, start: nat, end: nat)
    requires Canonical(t) && i < |t| && j < |t| && Splits(t[i], start, end)
    ensures !(start <= t[j].start < end)
  {
  }

  // ---------------------------------------------------------------------------

  /** `free_contiguous_pages(page, 1)`, on the set of pages: the capacity assertion fails exactly
      when the pages would take more intervals than the table has. */
  method FreePage(allocator: PhysicalAllocator, page: nat) returns (ok: bool)
    requires allocator.Valid() && Aligned(allocator.View()) && IsPage(page)
    modifies allocator, allocator.regions
    ensures ok <==> Ranges(FreePages(old(allocator.View())) + {page}) <= MAX_FREE_RANGES
    ensures ok ==> allocator.Valid() && Aligned(allocator.View())
    ensures ok ==> FreePages(allocator.View()) == FreePages(old(allocator.View())) + {page}
  {
    hide Canonical, Aligned, FreePages, Ranges, PageAligned;
    ok := allocator.FreeContiguousPages(page, 1);
    if ok {
      PageFreed(old(allocator.View()), allocator.View(), page);
      TableHasRanges(allocator.View());
    } else {
      NextPage(page);
      ApartTakesOneMore(old(allocator.View()), page, page + PAGE_SIZE);
      OnePage(page);
    }
  }

  lemma OnePage(page: nat)
    requires IsPage(page)
    ensures PagesOf(page, page + PAGE_SIZE) == {page}
  {
    hide PageAligned;
    var pages := PagesOf(page, page + PAGE_SIZE);
    forall p | p in pages ensures p == page {
      if page < p { PagesApart(page, p); }
    }
  }

  /** Giving back one page after another never takes more intervals than the table has. */
  ghost predicate Releasable(free: set<nat>, owned: seq<nat>) {
    forall k :: 0 <= k <= |owned| ==> Ranges(free + Elements(owned[..k])) <= MAX_FREE_RANGES
  }

  /** A valid table is within its own capacity. */
  lemma ValidIsReleasable(allocator: PhysicalAllocator)
    requires allocator.Valid() && Aligned(allocator.View())
    ensures Releasable(FreePages(allocator.View()), [])
  {
    hide Canonical, Aligned, FreePages, Ranges, PageAligned;
    TableHasRanges(allocator.View());
    var free := FreePages(allocator.View());
    var none: seq<nat> := [];
    assert free + Elements(none[..0]) == free;
  }

  method ReleaseAll(allocator: PhysicalAllocator, owned: seq<nat>) returns (ok: bool)
    requires allocator.Valid() && Aligned(allocator.View())
    requires forall p :: p in owned ==> IsPage(p)
    modifies allocator, allocator.regions
    ensures ok <==> Releasable(FreePages(old(allocator.View())), owned)
    ensures ok ==> allocator.Valid() && Aligned(allocator.View())
    ensures ok ==> FreePages(allocator.View()) == FreePages(old(allocator.View())) + Elements(owned)
  {
    hide FreePages, Aligned, IsPage, Elements, Canonical, Ranges, PageAligned;
    var index := 0;
    ghost var before := FreePages(allocator.View());
    ElementsUpTo(owned, 0);
    TableHasRanges(allocator.View());
    while index < |owned|
      invariant index <= |owned|
      invariant allocator.Valid() && Aligned(allocator.View())
      invariant FreePages(allocator.View()) == before + Elements(owned[..index])
      invariant forall k :: 0 <= k <= index ==> Ranges(before + Elements(owned[..k])) <= MAX_FREE_RANGES
    {
      ElementsUpTo(owned, index);
      assert before + Elements(owned[..index]) + {owned[index]} == before + Elements(owned[..index + 1]);
      var freed := FreePage(allocator, owned[index]);
      if !freed { return false; }
      index := index + 1;
    }
    return true;
  }

  // ---------------------------------------------------------------------------

  class OwnedPages {
    const pages: array<nat>
    var len: nat

    ghost predicate Valid()
      reads this
    {
      pages.Length == MAX_OWNED_PAGES && len <= pages.Length
    }

    ghost function View(): seq<nat>
      requires Valid()
      reads this, pages
    {
      pages[..len]
    }

    constructor ()
      ensures Valid() && fresh(pages) && View() == []
    {
      pages := new nat[MAX_OWNED_PAGES](_ => 0);
      len := 0;
    }

    method Push(page: nat) returns (ok: bool)
      requires Valid()
      modifies this, pages
      ensures Valid() && ok == (|old(View())| < MAX_OWNED_PAGES)
      ensures View() == if ok then old(View()) + [page] else old(View())
    {
      if len >= pages.Length { return false; }
      pages[len] := page;
      len := len + 1;
      return true;
    }

    /** Every page goes back to the free set, unless on the way the free pages would take more
        intervals than the table has: then, and only then, the capacity assertion fails. */
    method Release(allocator: PhysicalAllocator) returns (ok: bool)
      requires Valid() && allocator.Valid() && Aligned(allocator.View())
      requires forall p :: p in View() ==> IsPage(p)
      requires pages as object != allocator.regions as object && this as object != allocator as object
      modifies allocator, allocator.regions
      ensures ok <==> Releasable(FreePages(old(allocator.View())), View())
      ensures ok ==> allocator.Valid() && Aligned(allocator.View())
      ensures ok ==> FreePages(allocator.View()) == FreePages(old(allocator.View())) + Elements(View())
    {
      ok := ReleaseAll(allocator, pages[..len]);
    }

    /** `core::mem::replace(&mut owned_pages, OwnedPages::empty())`: the list leaves its owner. */
    method Drain() returns (taken: seq<nat>)
      requires Valid()
      modifies this
      ensures Valid() && taken == old(View()) && View() == []
    {
      taken := pages[..len];
      len := 0;
    }
  }

  // ---------------------------------------------------------------------------
  // Setting up the free set.

  datatype MemoryRegion = MemoryRegion(start: nat, pageCount: nat, usable: bool)
  {
    /** `saturating_mul`, then the sum. */
    function RawEnd(): nat { start + Min(pageCount * PAGE_SIZE, U64_MAX) }

    /** The sum wraps around where overflow is not checked. */
    function End(): nat { AlignDown(RawEnd() % (U64_MAX + 1), PAGE_SIZE) }

    predicate Wraps() { usable && RawEnd() > U64_MAX }
  }

  ghost predicate SoundMap(regions: seq<MemoryRegion>) {
    forall i :: 0 <= i < |regions| ==> PageAligned(regions[i].start) && regions[i].start <= U64_MAX
  }

  /** `a` is in a usable region, from the start of the physical window on. */
  ghost predicate UsableAt(regions: seq<MemoryRegion>, a: nat) {
    && PHYS_WINDOW_START <= a
    && exists i :: 0 <= i < |regions| && regions[i].usable && regions[i].start <= a < regions[i].End()
  }

  /** Where no region runs past the 64-bit range, usable memory is what the map says, from 16 MiB on. */
  lemma UsableIsWhatTheMapSays(regions: seq<MemoryRegion>, a: nat)
    requires SoundMap(regions)
    requires forall i :: 0 <= i < |regions| ==> regions[i].start + 4096 * regions[i].pageCount <= U64_MAX
    ensures UsableAt(regions, a) <==>
              && 0x100_0000 <= a
              && exists i :: 0 <= i < |regions| && regions[i].usable
                             && regions[i].start <= a < regions[i].start + 4096 * regions[i].pageCount
  {
    hide MemoryRegion.End;
    forall i | 0 <= i < |regions| ensures regions[i].End() == regions[i].start + 4096 * regions[i].pageCount {
      EndIsSize(regions[i]);
    }
  }

  lemma EndIsSize(region: MemoryRegion)
    requires PageAligned(region.start) && region.start + 4096 * region.pageCount <= U64_MAX
    ensures region.End() == region.start + 4096 * region.pageCount && !region.Wraps()
  {
  }

  datatype Setup = ArithmeticOverflow | CapacityExhausted | NoUsableMemory | Initialized(windowEnd: nat)

  /** How many regions the loop gets to look at: with overflow checks, those before the first whose
      end does not fit into 64 bits. */
  function Examined(regions: seq<MemoryRegion>, checked: bool): (n: nat)
    ensures n <= |regions| && (n < |regions| ==> checked && regions[n].Wraps())
    ensures forall i :: 0 <= i < n ==> !(checked && regions[i].Wraps())
    decreases |regions|
  {
    if regions == [] || (checked && regions[0].Wraps()) then 0 else 1 + Examined(regions[1..], checked)
  }

  lemma UsableWithNext(regions: seq<MemoryRegion>, i: nat, a: nat)
    requires i < |regions|
    ensures UsableAt(regions[..i + 1], a) <==>
              UsableAt(regions[..i], a)
              || (regions[i].usable && PHYS_WINDOW_START <= a && regions[i].start <= a < regions[i].End())
  {
    var front, longer := regions[..i], regions[..i + 1];
    assert longer[i] == regions[i];
    if UsableAt(front, a) {
      var k :| 0 <= k < |front| && front[k].usable && front[k].start <= a < front[k].End();
      assert longer[k] == front[k];
    }
    if UsableAt(longer, a) {
      var k :| 0 <= k < |longer| && longer[k].usable && longer[k].start <= a < longer[k].End();
      assert k < i ==> front[k] == longer[k];
    }
  }

  /** The pages of usable memory. */
  ghost function UsablePages(regions: seq<MemoryRegion>): set<nat> {
    set p | 0 <= p <= U64_MAX && PageAligned(p) && UsableAt(regions, p)
  }

  /** Some beginning of the first `n` regions, or the whole map without the kernel image, takes more
      intervals than the table has. */
  ghost predicate Overflows(regions: seq<MemoryRegion>, n: nat, kernelStart: nat, kernelEnd: nat)
    requires n <= |regions|
  {
    || (exists i :: 0 <= i <= n && Ranges(UsablePages(regions[..i])) > MAX_FREE_RANGES)
    || (n == |regions| && Ranges(UsablePages(regions) - PagesOf(kernelStart, kernelEnd)) > MAX_FREE_RANGES)
  }

  /** The free set becomes the usable memory above 16 MiB without the kernel image, and the
      identity-mapped window covers all of it; the capacity assertion fails exactly when the map
      is too fragmented. */
  method InitializeAllocator(allocator: PhysicalAllocator, regions: seq<MemoryRegion>, kernelStart: nat, kernelEnd: nat,
                             checked: bool)
    returns (r: Setup)
    requires allocator.Valid() && allocator.View() == [] && SoundMap(regions)
    requires PageAligned(kernelStart) && PageAligned(kernelEnd)
    modifies allocator, allocator.regions
    ensures var n := Examined(regions, checked);
            && (r.CapacityExhausted? <==> Overflows(regions, n, kernelStart, kernelEnd))
            && (r.ArithmeticOverflow? <==> n < |regions| && !Overflows(regions, n, kernelStart, kernelEnd))
    ensures r.NoUsableMemory? ==> forall a: nat :: !UsableAt(regions, a)
    ensures r.Initialized? ==>
              && (exists a: nat :: UsableAt(regions, a))
              && allocator.Valid() && Aligned(allocator.View())
              && (forall a: nat :: Covered(allocator.View(), a) <==>
                   UsableAt(regions, a) && !(kernelStart <= a < kernelEnd))
              && r.windowEnd % HUGE_PAGE == 0
              && (forall a: nat :: UsableAt(regions, a) ==> PHYS_WINDOW_START <= a < r.windowEnd)
              && (exists a: nat :: UsableAt(regions, a) && r.windowEnd <= a + HUGE_PAGE)
  {
    hide Covered, Canonical, Aligned, UsableAt, UsablePages, Ranges, FreePages, PagesOf, SoundMap, PageAligned;
    var highest: nat, index: nat := 0, 0;
    NothingUsable(regions, allocator.View());
    TableIsUsable(allocator.View(), regions[..0]);
    ghost var n := Examined(regions, checked);
    while index < |regions|
      invariant index <= n <= |regions| && allocator.Valid() && Aligned(allocator.View())
      invariant forall a: nat :: Covered(allocator.View(), a) <==> UsableAt(regions[..index], a)
      invariant forall i :: 0 <= i <= index ==> Ranges(UsablePages(regions[..i])) <= MAX_FREE_RANGES
      invariant forall a: nat :: UsableAt(regions[..index], a) ==> PHYS_WINDOW_START <= a < highest
      invariant highest > 0 ==> UsableAt(regions[..index], highest - 1)
    {
      if checked && regions[index].Wraps() { return ArithmeticOverflow; }
      var added;
      added, highest := AddUsable(allocator, regions, index, highest);
      if !added { return CapacityExhausted; }
      index := index + 1;
    }
    assert regions[..|regions|] == regions;
    if highest <= PHYS_WINDOW_START {
      NothingTaken(regions, kernelStart, kernelEnd);
      return NoUsableMemory;
    }
    ghost var before := allocator.View();
    TableIsUsable(before, regions);
    var reserved := allocator.ReserveRange(kernelStart, kernelEnd);
    if !reserved {
      SplitTakesOneMore(before, kernelStart, kernelEnd);
      return CapacityExhausted;
    }
    TableHasRanges(allocator.View());
    Reserved(before, allocator.View(), kernelStart, kernelEnd);
    return Initialized(AlignUp(highest, HUGE_PAGE));
  }

  lemma NothingTaken(regions: seq<MemoryRegion>, start: nat, end: nat)
    requires forall a: nat :: !UsableAt(regions, a)
    ensures Ranges(UsablePages(regions) - PagesOf(start, end)) == 0
  {
    hide UsableAt;
    assert RangeStarts(UsablePages(regions) - PagesOf(start, end)) == {};
  }

  lemma Reserved(before: Table, after: Table, start: nat, end: nat)
    requires forall a: nat :: Covered(after, a) <==> Covered(before, a) && !(start <= a < end)
    ensures FreePages(after) == FreePages(before) - PagesOf(start, end)
  {
    hide Covered, PageAligned;
  }

  /** A table of usable memory has an entry for each of its runs. */
  lemma TableIsUsable(t: Table, regions: seq<MemoryRegion>)
    requires Canonical(t) && Aligned(t) && forall a: nat :: Covered(t, a) <==> UsableAt(regions, a)
    ensures FreePages(t) == UsablePages(regions) && |t| == Ranges(UsablePages(regions))
  {
    hide PageAligned;
    TableHasRanges(t);
    hide Canonical, Aligned, Covered, UsableAt, Ranges;
  }

  /** One turn of the loop over the memory map. */
  method AddUsable(allocator: PhysicalAllocator, regions: seq<MemoryRegion>, index: nat, highest0: nat)
    returns (added: bool, highest: nat)
    requires index < |regions| && allocator.Valid() && Aligned(allocator.View()) && SoundMap(regions)
    requires forall a: nat :: Covered(allocator.View(), a) <==> UsableAt(regions[..index], a)
    requires forall a: nat :: UsableAt(regions[..index], a) ==> PHYS_WINDOW_START <= a < highest0
    requires highest0 > 0 ==> UsableAt(regions[..index], highest0 - 1)
    modifies allocator, allocator.regions
    ensures added <==> Ranges(UsablePages(regions[..index + 1])) <= MAX_FREE_RANGES
    ensures added ==>
              var known := regions[..index + 1];
              && allocator.Valid() && Aligned(allocator.View())
              && (forall a: nat :: Covered(allocator.View(), a) <==> UsableAt(known, a))
              && (forall a: nat :: UsableAt(known, a) ==> PHYS_WINDOW_START <= a < highest)
              && (highest > 0 ==> UsableAt(known, highest - 1))
  {
    hide Covered, Canonical, Aligned, UsableAt, UsablePages, Ranges, FreePages, PagesOf, PageAligned;
    ghost var known := regions[..index + 1];
    forall a: nat
      ensures UsableAt(known, a) <==>
                UsableAt(regions[..index], a)
                || (regions[index].usable && PHYS_WINDOW_START <= a && regions[index].start <= a < regions[index].End())
    {
      UsableWithNext(regions, index, a);
    }
    ghost var before := allocator.View();
    highest := highest0;
    var region := regions[index];
    RegionIsAligned(region);
    if region.usable {
      var start, end := Max(region.start, PHYS_WINDOW_START), region.End();
      if end > start {
        added := allocator.InsertRange(start, end);
        if !added {
          ApartTakesOneMore(before, start, end);
          UsableGrows(before, regions, index, start, end);
          return;
        }
        if end > highest { highest := end; }
      }
    }
    if highest > 0 { UsableWithNext(regions, index, highest - 1); }
    TableIsUsable(allocator.View(), known);
    added := true;
  }

  lemma RegionIsAligned(region: MemoryRegion)
    requires PageAligned(region.start)
    ensures PageAligned(region.End()) && region.End() <= U64_MAX && PageAligned(PHYS_WINDOW_START)
  {
  }

  lemma UsableGrows(t: Table, regions: seq<MemoryRegion>, index: nat, start: nat, end: nat)
    requires index < |regions|
    requires forall a: nat :: Covered(t, a) <==> UsableAt(regions[..index], a)
    requires regions[index].usable && end <= U64_MAX
    requires start == Max(regions[index].start, PHYS_WINDOW_START) && end == regions[index].End()
    ensures UsablePages(regions[..index + 1]) == FreePages(t) + PagesOf(start, end)
  {
    hide Covered, UsableAt, PageAligned;
    var known := regions[..index + 1];
    forall a: nat
      ensures UsableAt(known, a) <==> Covered(t, a) || start <= a < end
    {
      UsableWithNext(regions, index, a);
    }
  }

  lemma NothingUsable(regions: seq<MemoryRegion>, t: Table)
    requires t == []
    ensures Aligned(t) && forall a: nat :: !Covered(t, a) && !UsableAt(regions[..0], a)
  {
  }
}
