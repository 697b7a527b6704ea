// The page-table builder in place: physical memory, the allocator and the
// list of owned pages are updated through references
// (kernel/kernel/src/memory/paging.rs:11-115).
module PagingStates {
  import opened Prelude
  import opened Words
  import opened Allocators
  import opened PageOwnership
  import opened Paging

  class PhysicalMemory {
    const allocator: PhysicalAllocator
    var frames: map<nat, Bytes>

    constructor (allocator: PhysicalAllocator)
      ensures this.allocator == allocator && frames == map[]
    {
      this.allocator := allocator;
      frames := map[];
    }

    ghost predicate Valid()
      reads this, allocator, allocator.regions
    {
      allocator.Valid() && Aligned(allocator.View())
    }

    ghost function Free(): set<nat>
      reads this, allocator, allocator.regions
    {
      FreePages(allocator.View())
    }

    /** `state.allocator.allocate_page()`: the lowest free page, zeroed. */
    method AllocatePage() returns (page: Option<nat>)
      requires Valid()
      modifies this, allocator, allocator.regions
      ensures Valid()
      ensures page.None? <==> old(Free()) == {}
      ensures page.None? ==> Free() == old(Free()) && frames == old(frames)
      ensures page.Some? ==>
                && page.value == Lowest(old(Free())) && Free() == old(Free()) - {page.value}
                && frames == old(frames)[page.value := ZeroPage()]
    {
      page := allocator.AllocatePage();
      if page.None? {
        NothingFree(old(allocator.View()));
        return;
      }
      PageAllocated(old(allocator.View()), allocator.View(), page.value);
      hide Covered, Canonical, Aligned, FreePages, ZeroPage;
      frames := frames[page.value := ZeroPage()];
    }

    method WriteWord(table: nat, index: nat, w: nat)
      requires index < WORDS_PER_PAGE
      modifies this`frames
      ensures frames == WithEntry(old(frames), table, index, w)
    {
      frames := frames[table := SetWord(Frame(frames, table), index, w)];
    }
  }

  lemma NothingFree(t: Table)
    requires Canonical(t) && Aligned(t)
    ensures FreePages(t) == {} <==> forall s: nat :: !FreeRun(t, s, 1)
  {
    if p: nat :| p in FreePages(t) {
      RunIsPages(t, p, 1);
      assert FreeRun(t, p, 1) by { assert p + 0 * PAGE_SIZE in FreePages(t); }
    }
    if s: nat :| FreeRun(t, s, 1) {
      assert Covered(t, s);
      CoveredIsBounded(t, s);
      var p := s / PAGE_SIZE * PAGE_SIZE;
      WholePageIsFree(t, p, s);
      assert p in FreePages(t);
    }
  }

  class AddressSpaceBuilder {
    const memory: PhysicalMemory
    const root: nat
    const owned: OwnedPages?

    constructor (memory: PhysicalMemory, root: nat, owned: OwnedPages?)
      ensures this.memory == memory && this.root == root && this.owned == owned
    {
      this.memory, this.root, this.owned := memory, root, owned;
    }

    ghost function Footprint(): set<object> {
      {memory, memory.allocator, memory.allocator.regions} + if owned == null then {} else {owned, owned.pages}
    }

    ghost predicate Valid()
      reads Footprint()
    {
      memory.Valid() && (owned != null ==> owned.Valid())
    }

    /** Memory, free pages and owned pages as one value. */
    ghost function View(): Space
      requires Valid()
      reads Footprint()
    {
      Space(memory.frames, memory.Free(), if owned == null then [] else owned.View(), owned != null)
    }

    method EnsureTable(table: nat, index: nat, user: bool) returns (r: Result<nat, MemoryError>)
      requires Valid() && index < WORDS_PER_PAGE
      modifies Footprint()
      ensures Valid()
      ensures (View(), r) == Paging.EnsureTable(old(View()), table, index, user)
    {
      var entry := Entry(memory.frames, table, index);
      if Present(entry) {
        if user && !User(entry) {
          memory.WriteWord(table, index, WithUser(entry));
        }
        return Ok(AddressOf(entry));
      }
      var child := memory.AllocatePage();
      if child.None? { return Err(AllocatorExhausted); }
      if owned != null {
        var pushed := owned.Push(child.value);
        if !pushed { return Err(OwnedPageCapacityExceeded); }
      }
      memory.WriteWord(table, index, TableWord(child.value, user));
      return Ok(child.value);
    }

    method EnsurePageDirectory(virt: nat, user: bool) returns (r: Result<nat, MemoryError>)
      requires Valid()
      modifies Footprint()
      ensures Valid()
      ensures (View(), r) == EnsureDirectory(old(View()), root, virt, user)
    {
      hide Paging.EnsureTable;
      var pdpt := EnsureTable(root, Pml4Index(virt), user);
      if pdpt.Err? { return pdpt; }
      r := EnsureTable(pdpt.value, PdptIndex(virt), user);
    }

    method EnsurePageTable(virt: nat, user: bool) returns (r: Result<nat, MemoryError>)
      requires Valid()
      modifies Footprint()
      ensures Valid()
      ensures (View(), r) == Paging.EnsurePageTable(old(View()), root, virt, user)
    {
      hide Paging.EnsureTable, EnsureDirectory;
      var pd := EnsurePageDirectory(virt, user);
      if pd.Err? { return pd; }
      r := EnsureTable(pd.value, PdIndex(virt), user);
    }

    method Map2m(virt: nat, phys: nat, flags: nat) returns (r: Result<(), MemoryError>)
      requires Valid()
      modifies Footprint()
      ensures Valid()
      ensures (View(), r) == Paging.Map2m(old(View()), root, virt, phys, flags)
    {
      hide EnsureDirectory;
      var pd := EnsurePageDirectory(virt, User(flags));
      if pd.Err? { return Err(pd.error); }
      memory.WriteWord(pd.value, PdIndex(virt), phys + flags + PAGE_HUGE);
      return Ok(());
    }

    method Map4k(virt: nat, phys: nat, flags: nat) returns (r: Result<(), MemoryError>)
      requires Valid()
      modifies Footprint()
      ensures Valid()
      ensures (View(), r) == Paging.Map4k(old(View()), root, virt, phys, flags)
    {
      hide Paging.EnsurePageTable;
      var pt := EnsurePageTable(virt, User(flags));
      if pt.Err? { return Err(pt.error); }
      memory.WriteWord(pt.value, PtIndex(virt), phys + flags);
      return Ok(());
    }

    method MapIdentity4kRange(start: nat, end: nat, flags: nat) returns (r: Result<(), MemoryError>)
      requires Valid()
      modifies Footprint()
      ensures Valid()
      ensures (View(), r) == Paging.MapIdentity4kRange(old(View()), root, start, end, flags)
    {
      hide Paging.Map4k, AlignDown, AlignUp;
      var address := AlignDown(start, SPAN_4K);
      var limit := if end == 0 then 0 else AlignUp(end, SPAN_4K);
      ghost var whole := MapPages(View(), root, address, limit, flags);
      assert whole == Paging.MapIdentity4kRange(View(), root, start, end, flags);
      while address < limit
        invariant Valid()
        invariant MapPages(View(), root, address, limit, flags) == whole
        decreases limit - address
      {
        var mapped := Map4k(address, address, flags);
        if mapped.Err? { return mapped; }
        address := address + SPAN_4K;
      }
      return Ok(());
    }

    method MapIdentity2mRange(start: nat, end: nat, flags: nat) returns (r: Result<(), MemoryError>)
      requires Valid()
      modifies Footprint()
      ensures Valid()
      ensures (View(), r) == Paging.MapIdentity2mRange(old(View()), root, start, end, flags)
    {
      hide Paging.Map2m, AlignDown, AlignUp;
      var address := AlignDown(start, SPAN_2M);
      var limit := if end == 0 then 0 else AlignUp(end, SPAN_2M);
      ghost var whole := MapHuges(View(), root, address, limit, flags);
      assert whole == Paging.MapIdentity2mRange(View(), root, start, end, flags);
      while address < limit
        invariant Valid()
        invariant MapHuges(View(), root, address, limit, flags) == whole
        decreases limit - address
      {
        var mapped := Map2m(address, address, flags);
        if mapped.Err? { return mapped; }
        address := address + SPAN_2M;
      }
      return Ok(());
    }
  }
}
