// kernel/kernel/src/memory/kernel.rs: the mappings every address space shares
// with the kernel, and the bounded list of ranges recorded for replay.
module KernelMaps {
  import opened Prelude
  import opened Words
  import opened PageOwnership
  import opened Paging
  import opened PagingStates

  const MAX_SHARED_KERNEL_MAPPINGS: nat := 16

  datatype SharedMapping = SharedMapping(start: nat, end: nat, writable: bool)

  datatype Layout = Layout(windowEnd: nat, framebufferStart: nat, framebufferEnd: nat, mappings: seq<SharedMapping>)

  function RangeStart(start: nat): nat { AlignDown(start, SPAN_4K) }

  function RangeEnd(end: nat): nat { if end == 0 then 0 else AlignUp(end, SPAN_4K) }

  function FlagsOf(writable: bool): nat {
    if writable then PAGE_PRESENT + PAGE_WRITABLE else PAGE_PRESENT
  }

  function MapsFramebuffer(k: Layout): bool {
    k.framebufferStart != 0 && (k.framebufferStart < PHYS_WINDOW_START || k.framebufferEnd > k.windowEnd)
  }

  /** `map_identity_4k_range` for each recorded mapping in turn. */
  ghost function Replay(s: Space, root: nat, mappings: seq<SharedMapping>): (Space, Result<(), MemoryError>)
    decreases |mappings|
  {
    if mappings == [] then (s, Ok(()))
    else
      var (s1, r) := MapIdentity4kRange(s, root, mappings[0].start, mappings[0].end, FlagsOf(mappings[0].writable));
      if r.Err? then (s1, r) else Replay(s1, root, mappings[1..])
  }

  ghost function MapShared(s: Space, root: nat, k: Layout): (Space, Result<(), MemoryError>) {
    var (s1, window) := MapIdentity2mRange(s, root, PHYS_WINDOW_START, k.windowEnd, FlagsOf(true));
    if window.Err? then (s1, window)
    else
      var (s2, screen) :=
        if MapsFramebuffer(k) then MapIdentity4kRange(s1, root, k.framebufferStart, k.framebufferEnd, FlagsOf(true))
            else (s1, Ok(()));
      if screen.Err? then (s2, screen) else Replay(s2, root, k.mappings)
  }

  method MapSharedKernelContext(builder: AddressSpaceBuilder, k: Layout) returns (r: Result<(), MemoryError>)
    requires builder.Valid()
    modifies builder.Footprint()
    ensures builder.Valid()
    ensures (builder.View(), r) == MapShared(old(builder.View()), builder.root, k)
  {
    hide MapIdentity2mRange, MapIdentity4kRange;
    r := builder.MapIdentity2mRange(PHYS_WINDOW_START, k.windowEnd, FlagsOf(true));
    if r.Err? { return; }
    if MapsFramebuffer(k) {
      r := builder.MapIdentity4kRange(k.framebufferStart, k.framebufferEnd, FlagsOf(true));
      if r.Err? { return; }
    }
    r := ReplaySharedKernelMappings(builder, k.mappings);
  }

  method ReplaySharedKernelMappings(builder: AddressSpaceBuilder, mappings: seq<SharedMapping>)
    returns (r: Result<(), MemoryError>)
    requires builder.Valid()
    modifies builder.Footprint()
    ensures builder.Valid()
    ensures (builder.View(), r) == Replay(old(builder.View()), builder.root, mappings)
  {
    var index := 0;
    hide MapIdentity4kRange;
    assert mappings[0..] == mappings;
    while index < |mappings|
      invariant index <= |mappings| && builder.Valid()
      invariant Replay(builder.View(), builder.root, mappings[index..]) ==
                  Replay(old(builder.View()), builder.root, mappings)
    {
      assert mappings[index..][1..] == mappings[index + 1..];
      r := builder.MapIdentity4kRange(mappings[index].start, mappings[index].end, FlagsOf(mappings[index].writable));
      if r.Err? { return; }
      index := index + 1;
    }
    return Ok(());
  }

  /** The requested pages lie inside one recorded range of the same writability. */
  ghost predicate Recorded(mappings: seq<SharedMapping>, start: nat, end: nat, writable: bool) {
    RangeStart(start) < RangeEnd(end) ==>
      exists i :: 0 <= i < |mappings| && mappings[i].start <= RangeStart(start) && RangeEnd(end) <= mappings[i].end
                  && mappings[i].writable == writable
  }

  class SharedMappings {
    const mappings: array<SharedMapping>
    var count: nat

    ghost predicate Valid()
      reads this
    {
      mappings.Length == MAX_SHARED_KERNEL_MAPPINGS && count <= mappings.Length
    }

    ghost function View(): seq<SharedMapping>
      requires Valid()
      reads this, mappings
    {
      mappings[..count]
    }

    constructor ()
      ensures Valid() && fresh(mappings) && View() == []
    {
      mappings := new SharedMapping[MAX_SHARED_KERNEL_MAPPINGS](_ => SharedMapping(0, 0, false));
      count := 0;
    }

    /** `record_shared_kernel_mapping`: the request is covered afterwards; it is refused if and
        only if it is not covered yet and the list is full. */
    method Record(start: nat, end: nat, writable: bool) returns (ok: bool)
      requires Valid()
      modifies this, mappings
      ensures Valid()
      ensures ok ==> Recorded(View(), start, end, writable)
      ensures ok <==> Recorded(old(View()), start, end, writable) || old(count) < MAX_SHARED_KERNEL_MAPPINGS
      ensures View() == if Recorded(old(View()), start, end, writable) || !ok then old(View())
                        else old(View()) + [SharedMapping(RangeStart(start), RangeEnd(end), writable)]
    {
      var from, to := RangeStart(start), RangeEnd(end);
      if from >= to { return true; }
      var index := 0;
      while index < count
        invariant index <= count
        invariant forall i :: 0 <= i < index ==>
                    !(mappings[i].start <= from && to <= mappings[i].end && mappings[i].writable == writable)
      {
        var mapping := mappings[index];
        if mapping.start <= from && mapping.end >= to && mapping.writable == writable {
          assert View()[index] == mapping;
          return true;
        }
        index := index + 1;
      }
      assert !Recorded(View(), start, end, writable);
      if count >= mappings.Length { return false; }
      mappings[count] := SharedMapping(from, to, writable);
      count := count + 1;
      assert View()[count - 1] == SharedMapping(from, to, writable);
      return true;
    }
  }

  // ---------------------------------------------------------------------------

  /** A 4 KiB range may be shared when it keeps clear of the 2 MiB window. */
  ghost predicate ClearOfWindow(k: Layout, start: nat, end: nat) {
    RangeEnd(end) <= VIRT_LIMIT && (RangeEnd(end) <= PHYS_WINDOW_START || k.windowEnd <= RangeStart(start))
  }

  ghost predicate SoundLayout(k: Layout) {
    && PHYS_WINDOW_START <= k.windowEnd <= VIRT_LIMIT && k.windowEnd % SPAN_2M == 0
    && (MapsFramebuffer(k) ==> ClearOfWindow(k, k.framebufferStart, k.framebufferEnd))
    && (forall i :: 0 <= i < |k.mappings| ==> ClearOfWindow(k, k.mappings[i].start, k.mappings[i].end))
  }

  /** Every address goes nowhere or to itself, never for user code; the physical window is
      mapped, writable, and the only place with huge mappings. */
  ghost predicate KernelOnly(s: Space, root: nat, k: Layout) {
    && (forall v: nat :: v < VIRT_LIMIT && Walk(s.frames, root, v).Some? ==>
          Walk(s.frames, root, v).value.phys == v && !Walk(s.frames, root, v).value.user)
    && (forall v: nat :: PHYS_WINDOW_START <= v < k.windowEnd ==>
         Walk(s.frames, root, v) == Some(Translation(v, false, true)))
    && (forall d: nat, p: nat :: d < 3 && HugeAt(s.frames, root, d, p) ==>
         d == 2 && PHYS_WINDOW_START <= p * SPAN_2M < k.windowEnd)
  }

  /** What was mapped stays mapped. */
  ghost predicate KeepsMapped(s: Space, s': Space, root: nat) {
    forall v: nat :: v < VIRT_LIMIT && Walk(s.frames, root, v).Some? ==> Walk(s'.frames, root, v).Some?
  }

  ghost predicate RangeIsMapped(s: Space, root: nat, start: nat, end: nat) {
    forall v: nat :: RangeStart(start) <= v < RangeEnd(end) ==> Walk(s.frames, root, v).Some?
  }

  /** A range of pages now leads to itself with this right, and nothing else moved. */
  ghost predicate RangeSet(s: Space, s': Space, root: nat, start: nat, end: nat, writable: bool) {
    forall v: nat :: v < VIRT_LIMIT ==>
      Walk(s'.frames, root, v) ==
      if RangeStart(start) <= v < RangeEnd(end) then Some(Translation(v, false, writable)) else Walk(s.frames, root, v)
  }

  /** The right that a sequence of ranges gives an address: that of the last range whose pages have it. */
  function RightOf(mappings: seq<SharedMapping>, v: nat): Option<bool> {
    if mappings == [] then None
    else
      var m, later := mappings[0], RightOf(mappings[1..], v);
      if later.Some? then later
      else if RangeStart(m.start) <= v < RangeEnd(m.end) then Some(m.writable) else None
  }

  ghost predicate RangesSet(s: Space, s': Space, root: nat, mappings: seq<SharedMapping>) {
    forall v: nat :: v < VIRT_LIMIT ==>
      Walk(s'.frames, root, v) ==
      if RightOf(mappings, v).Some? then Some(Translation(v, false, RightOf(mappings, v).value))
      else Walk(s.frames, root, v)
  }

  /** Where an address leads in the shared context: the window first, then the last recorded range that
      has its page, then the framebuffer. */
  function SharedAt(k: Layout, v: nat): Option<Translation> {
    if PHYS_WINDOW_START <= v < k.windowEnd then Some(Translation(v, false, true))
    else if RightOf(k.mappings, v).Some? then Some(Translation(v, false, RightOf(k.mappings, v).value))
    else if MapsFramebuffer(k) && RangeStart(k.framebufferStart) <= v < RangeEnd(k.framebufferEnd)
    then Some(Translation(v, false, true)) else None
  }

  ghost predicate SharedExactly(s: Space, root: nat, k: Layout) {
    forall v: nat :: v < VIRT_LIMIT ==> Walk(s.frames, root, v) == SharedAt(k, v)
  }

  /** A framebuffer is mapped writable wherever it lies, in the window or beside it, but for pages that a
      recorded range has. */
  lemma FramebufferIsShared(s: Space, root: nat, k: Layout, v: nat)
    requires SharedExactly(s, root, k) && SoundLayout(k) && k.framebufferStart != 0 && v < VIRT_LIMIT
    requires RangeStart(k.framebufferStart) <= v < RangeEnd(k.framebufferEnd) && RightOf(k.mappings, v).None?
    ensures Walk(s.frames, root, v) == Some(Translation(v, false, true))
  {
    hide Walk, RightOf, RangeStart, RangeEnd;
    if !MapsFramebuffer(k) { RangeStaysInside(k.framebufferStart, k.framebufferEnd, k.windowEnd, v); }
  }

  /** A range that lies in the window has its pages there. */
  lemma RangeStaysInside(start: nat, end: nat, windowEnd: nat, v: nat)
    requires PHYS_WINDOW_START <= start && end <= windowEnd && windowEnd % SPAN_2M == 0
    requires RangeStart(start) <= v < RangeEnd(end)
    ensures PHYS_WINDOW_START <= v < windowEnd
  {
    hide RangeStart, RangeEnd;
    RoundsInside(start, end, 0x1000, windowEnd / SPAN_2M * 512);
  }

  /** Rounding to pages stays between pages. */
  lemma RoundsInside(start: nat, end: nat, below: nat, n: nat)
    requires below * SPAN_4K <= start && end <= n * SPAN_4K
    ensures below * SPAN_4K <= RangeStart(start) && RangeEnd(end) <= n * SPAN_4K
  {
  }

  /** How a sequence of shared mappings ends. */
  ghost predicate Shares(s: Space, s': Space, root: nat, k: Layout, ok: bool, leak: set<nat>) {
    && Good(s', root) && Contained(s, s', root) && Conserved(s, s', leak) && |leak| <= 1
    && (ok ==> leak == {} && KernelOnly(s', root, k) && KeepsMapped(s, s', root))
  }

  lemma ClearRangeHasNoHuge(s: Space, root: nat, k: Layout, start: nat, end: nat)
    requires KernelOnly(s, root, k) && ClearOfWindow(k, start, end) && k.windowEnd % SPAN_2M == 0
    ensures NoHugeIn(s.frames, root, RangeStart(start), RangeEnd(end), 3)
  {
    hide Walk, HugeAt;
    forall v: nat | RangeStart(start) <= v < RangeEnd(end) ensures NoHugeOnPath(s.frames, root, v, 3) {
      assert Region(2, v) * SPAN_2M <= v < Region(2, v) * SPAN_2M + SPAN_2M;
    }
  }

  lemma ShareRange(s: Space, root: nat, k: Layout, start: nat, end: nat, writable: bool) returns (leak: set<nat>)
    requires Good(s, root) && KernelOnly(s, root, k) && ClearOfWindow(k, start, end)
    requires k.windowEnd % SPAN_2M == 0 && k.windowEnd <= VIRT_LIMIT
    ensures var (s', r) := MapIdentity4kRange(s, root, start, end, FlagsOf(writable));
            && Shares(s, s', root, k, r.Ok?, leak)
            && (r.Ok? ==> RangeIsMapped(s', root, start, end) && RangeSet(s, s', root, start, end, writable))
  {
    hide Walk, HugeAt, Sound, Contained, Conserved, KernelOnly, ClearOfWindow, MapPages, NoHugeIn, RangeSet;
    ClearRangeHasNoHuge(s, root, k, start, end);
    assert RangeEnd(end) <= VIRT_LIMIT by { ClearRangeIsLow(k, start, end); }
    leak := MapPagesWorks(s, root, RangeStart(start), RangeEnd(end), FlagsOf(writable));
    var (s', r) := MapIdentity4kRange(s, root, start, end, FlagsOf(writable));
    if r.Ok? {
      hide RangeMapped;
      RangeIsShared(s, s', root, k, start, end, writable, leak);
    } else {
      StoppedRangeShares(s, s', root, k, RangeStart(start), RangeEnd(end), writable, leak);
    }
  }

  lemma ClearRangeIsLow(k: Layout, start: nat, end: nat)
    requires ClearOfWindow(k, start, end)
    ensures RangeEnd(end) <= VIRT_LIMIT
  {
  }

  lemma StoppedRangeShares(s: Space, s': Space, root: nat, k: Layout, from: nat, to: nat, writable: bool,
                           leak: set<nat>)
    requires RangeMapped(s, s', root, from, to, false, writable, false, leak)
    ensures Shares(s, s', root, k, false, leak)
  {
    hide Walk, HugeAt, Sound, Contained, Conserved, KernelOnly;
  }

  lemma RangeIsShared(s: Space, s': Space, root: nat, k: Layout, start: nat, end: nat, writable: bool, leak: set<nat>)
    requires KernelOnly(s, root, k) && ClearOfWindow(k, start, end) && k.windowEnd <= VIRT_LIMIT
    requires RangeMapped(s, s', root, RangeStart(start), RangeEnd(end), false, writable, true, leak)
    ensures Shares(s, s', root, k, true, leak) && RangeIsMapped(s', root, start, end)
    ensures RangeSet(s, s', root, start, end, writable)
  {
    hide Walk, HugeAt, Sound, Contained, Conserved;
    forall v: nat | v < VIRT_LIMIT
      ensures Walk(s'.frames, root, v) == if RangeStart(start) <= v < RangeEnd(end)
                then Some(Translation(v, false, writable))
                                          else Walk(s.frames, root, v)
    {
      assert MapsAt(s, s', root, RangeStart(start), RangeEnd(end), false, writable, true, v);
    }
  }

  lemma SharesTwice(s: Space, s': Space, s'': Space, root: nat, k: Layout, ok: bool, leak: set<nat>)
    requires Shares(s, s', root, k, true, {}) && Shares(s', s'', root, k, ok, leak)
    ensures Shares(s, s'', root, k, ok, leak)
  {
    hide Walk, Sound, IsTable, Frame, Conserved, KernelOnly;
    assert s'.tracked == s.tracked;
    ContainedTwice(s, s', s'', root);
    hide Contained;
    ConservedTwice(s, s', s'', leak);
  }

  lemma MappedStaysMapped(s: Space, s': Space, root: nat, start: nat, end: nat)
    requires RangeIsMapped(s, root, start, end) && KeepsMapped(s, s', root) && RangeEnd(end) <= VIRT_LIMIT
    ensures RangeIsMapped(s', root, start, end)
  {
    hide Walk;
  }

  ghost predicate AllMapped(s: Space, root: nat, mappings: seq<SharedMapping>) {
    forall i :: 0 <= i < |mappings| ==> RangeIsMapped(s, root, mappings[i].start, mappings[i].end)
  }

  ghost predicate AllClear(k: Layout, mappings: seq<SharedMapping>) {
    forall i :: 0 <= i < |mappings| ==> ClearOfWindow(k, mappings[i].start, mappings[i].end)
  }

  /** Replaying keeps what is mapped, maps every recorded range, and adds nothing for user code. */
  lemma {:induction false} ReplayWorks(s: Space, root: nat, k: Layout, mappings: seq<SharedMapping>)
    returns (leak: set<nat>)
    requires Good(s, root) && KernelOnly(s, root, k) && AllClear(k, mappings)
    requires k.windowEnd % SPAN_2M == 0 && k.windowEnd <= VIRT_LIMIT
    ensures var (s', r) := Replay(s, root, mappings);
            && Shares(s, s', root, k, r.Ok?, leak)
            && (r.Ok? ==> AllMapped(s', root, mappings) && RangesSet(s, s', root, mappings))
    decreases |mappings|
  {
    hide Walk, Sound, Contained, Conserved, KernelOnly, ClearOfWindow, MapIdentity4kRange, RangeIsMapped, KeepsMapped,
         RangeSet, RangesSet;
    leak := {};
    if mappings == [] {
      SharesNothing(s, root, k);
      NothingSet(s, root);
    } else {
      var m := mappings[0];
      leak := ShareRange(s, root, k, m.start, m.end, m.writable);
      var (s1, r) := MapIdentity4kRange(s, root, m.start, m.end, FlagsOf(m.writable));
      if r.Ok? {
        assert Good(s1, root) && KernelOnly(s1, root, k);
        leak := ReplayWorks(s1, root, k, mappings[1..]);
        var (s2, r2) := Replay(s1, root, mappings[1..]);
        SharesTwice(s, s1, s2, root, k, r2.Ok?, leak);
        if r2.Ok? {
          AllMappedWithFirst(s1, s2, root, k, mappings);
          SetWithFirst(s, s1, s2, root, mappings);
        }
      }
    }
  }

  lemma AllMappedWithFirst(s: Space, s': Space, root: nat, k: Layout, mappings: seq<SharedMapping>)
    requires mappings != [] && RangeIsMapped(s, root, mappings[0].start, mappings[0].end) && KeepsMapped(s, s', root)
    requires AllClear(k, mappings) && AllMapped(s', root, mappings[1..])
    ensures AllMapped(s', root, mappings)
  {
    ClearRangeIsLow(k, mappings[0].start, mappings[0].end);
    MappedStaysMapped(s, s', root, mappings[0].start, mappings[0].end);
    hide RangeIsMapped, KeepsMapped, ClearOfWindow;
    forall i | 0 <= i < |mappings| ensures RangeIsMapped(s', root, mappings[i].start, mappings[i].end) {
      if i > 0 { assert mappings[i] == mappings[1..][i - 1]; }
    }
  }

  lemma NothingSet(s: Space, root: nat)
    ensures RangesSet(s, s, root, [])
  {
    hide Walk;
  }

  lemma SetWithFirst(s: Space, s1: Space, s2: Space, root: nat, mappings: seq<SharedMapping>)
    requires mappings != [] && RangesSet(s1, s2, root, mappings[1..])
    requires RangeSet(s, s1, root, mappings[0].start, mappings[0].end, mappings[0].writable)
    ensures RangesSet(s, s2, root, mappings)
  {
    hide Walk, RangeStart, RangeEnd;
  }

  lemma SharesNothing(s: Space, root: nat, k: Layout)
    requires Good(s, root) && KernelOnly(s, root, k)
    ensures Shares(s, s, root, k, true, {})
  {
    hide Walk, Sound, IsTable, Frame, KernelOnly;
  }

  /** Nothing but the window. */
  ghost predicate WindowSet(s: Space, root: nat, k: Layout) {
    forall v: nat :: v < VIRT_LIMIT ==>
      Walk(s.frames, root, v) ==
      if PHYS_WINDOW_START <= v < k.windowEnd then Some(Translation(v, false, true)) else None
  }

  /** Mapping the physical window into a tree that translates nothing. */
  lemma WindowWorks(s: Space, root: nat, k: Layout) returns (leak: set<nat>)
    requires Good(s, root) && SoundLayout(k)
    requires forall v: nat :: v < VIRT_LIMIT ==> Walk(s.frames, root, v) == None
    requires forall d: nat, q: nat :: !HugeAt(s.frames, root, d, q)
    requires forall q: nat :: TableAt(s.frames, root, 3, q).None?
    ensures var (s', r) := MapIdentity2mRange(s, root, PHYS_WINDOW_START, k.windowEnd, FlagsOf(true));
            Shares(s, s', root, k, r.Ok?, leak) && (r.Ok? ==> WindowSet(s', root, k))
  {
    hide Walk, Sound, HugeAt, TableAt, Contained, Conserved, ClearOfWindow, MapHuges, WindowSet;
    assert NoHugeIn(s.frames, root, PHYS_WINDOW_START, k.windowEnd, 2);
    assert NoPageTableIn(s.frames, root, PHYS_WINDOW_START, k.windowEnd);
    assert AlignDown(PHYS_WINDOW_START, SPAN_2M) == PHYS_WINDOW_START && AlignUp(k.windowEnd, SPAN_2M) == k.windowEnd;
    leak := MapHugesWorks(s, root, PHYS_WINDOW_START, k.windowEnd, FlagsOf(true));
    var (s', r) := MapHuges(s, root, PHYS_WINDOW_START, k.windowEnd, FlagsOf(true));
    WindowIsShared(s, s', root, k, r.Ok?, leak);
  }

  lemma WindowIsShared(s: Space, s': Space, root: nat, k: Layout, ok: bool, leak: set<nat>)
    requires PHYS_WINDOW_START <= k.windowEnd <= VIRT_LIMIT
    requires forall v: nat :: v < VIRT_LIMIT ==> Walk(s.frames, root, v) == None
    requires forall d: nat, q: nat :: !HugeAt(s.frames, root, d, q)
    requires HugesMapped(s, s', root, PHYS_WINDOW_START, k.windowEnd, false, true, ok, leak)
    ensures Shares(s, s', root, k, ok, leak) && (ok ==> WindowSet(s', root, k))
  {
    hide Walk, Sound, HugeAt, Contained, Conserved;
    if ok {
      forall v: nat | v < VIRT_LIMIT
        ensures Walk(s'.frames, root, v) == if PHYS_WINDOW_START <= v < k.windowEnd
                  then Some(Translation(v, false, true)) else None
      {
        assert MapsAt(s, s', root, PHYS_WINDOW_START, k.windowEnd, false, true, ok, v);
      }
    }
  }

  /** The shared kernel context in a fresh root: identity mappings only, none for user code,
      with the window, the framebuffer and every recorded range present. */
  lemma MapSharedWorks(s: Space, root: nat, k: Layout) returns (leak: set<nat>)
    requires Good(s, root) && SoundLayout(k)
    requires forall v: nat :: v < VIRT_LIMIT ==> Walk(s.frames, root, v) == None
    requires forall d: nat, q: nat :: !HugeAt(s.frames, root, d, q)
    requires forall q: nat :: TableAt(s.frames, root, 3, q).None?
    ensures var (s', r) := MapShared(s, root, k);
            && Shares(s, s', root, k, r.Ok?, leak)
            && (r.Ok? ==> AllMapped(s', root, k.mappings) && SharedExactly(s', root, k)
                          && (MapsFramebuffer(k) ==> RangeIsMapped(s', root, k.framebufferStart, k.framebufferEnd)))
  {
    hide Walk, Sound, HugeAt, TableAt, Contained, Conserved, ClearOfWindow, KernelOnly, RangeIsMapped, KeepsMapped,
         AllMapped, SharedExactly, WindowSet;
    hide MapIdentity2mRange, MapIdentity4kRange, Replay;
    leak := WindowWorks(s, root, k);
    var (s1, window) := MapIdentity2mRange(s, root, PHYS_WINDOW_START, k.windowEnd, FlagsOf(true));
    if window.Ok? {
      leak := ScreenAndReplay(s1, root, k);
      SharesTwice(s, s1, MapShared(s, root, k).0, root, k, MapShared(s, root, k).1.Ok?, leak);
    }
  }

  lemma ScreenAndReplay(s: Space, root: nat, k: Layout) returns (leak: set<nat>)
    requires Good(s, root) && SoundLayout(k) && KernelOnly(s, root, k) && WindowSet(s, root, k)
    ensures var (s1, screen) :=
              if MapsFramebuffer(k) then MapIdentity4kRange(s, root, k.framebufferStart, k.framebufferEnd,
                  FlagsOf(true)) else (s, Ok(()));
            var (s', r) := if screen.Err? then (s1, screen) else Replay(s1, root, k.mappings);
            && Shares(s, s', root, k, r.Ok?, leak)
            && (r.Ok? ==> AllMapped(s', root, k.mappings) && SharedExactly(s', root, k)
                          && (MapsFramebuffer(k) ==> RangeIsMapped(s', root, k.framebufferStart, k.framebufferEnd)))
  {
    assert AllClear(k, k.mappings);
    assert KeepClear(k, k.mappings) by { ClearRangesKeepClear(k, k.mappings); }
    hide Walk, Sound, Contained, Conserved, ClearOfWindow, KernelOnly, RangeIsMapped, KeepsMapped, AllMapped, AllClear,
         RangeSet, RangesSet, SharedExactly, WindowSet, KeepClear;
    hide MapIdentity4kRange, Replay;
    if MapsFramebuffer(k) {
      leak := ShareRange(s, root, k, k.framebufferStart, k.framebufferEnd, true);
      var (s1, screen) := MapIdentity4kRange(s, root, k.framebufferStart, k.framebufferEnd, FlagsOf(true));
      if screen.Ok? {
        leak := ReplayWorks(s1, root, k, k.mappings);
        var (s2, r) := Replay(s1, root, k.mappings);
        if r.Ok? {
          ClearRangeIsLow(k, k.framebufferStart, k.framebufferEnd);
          MappedStaysMapped(s1, s2, root, k.framebufferStart, k.framebufferEnd);
          SetWithScreen(s, s1, s2, root, k);
        }
        SharesTwice(s, s1, s2, root, k, r.Ok?, leak);
      }
    } else {
      leak := ReplayWorks(s, root, k, k.mappings);
      if Replay(s, root, k.mappings).1.Ok? { SetWithoutScreen(s, Replay(s, root, k.mappings).0, root, k); }
    }
  }

  /** No recorded range has an address of the window. */
  ghost predicate KeepClear(k: Layout, mappings: seq<SharedMapping>) {
    forall v: nat :: PHYS_WINDOW_START <= v < k.windowEnd ==> RightOf(mappings, v).None?
  }

  lemma {:induction false} ClearRangesKeepClear(k: Layout, mappings: seq<SharedMapping>)
    requires AllClear(k, mappings)
    ensures KeepClear(k, mappings)
    decreases |mappings|
  {
    hide RangeStart, RangeEnd;
    if mappings != [] {
      assert forall i :: 0 <= i < |mappings| - 1 ==> mappings[1..][i] == mappings[i + 1];
      ClearRangesKeepClear(k, mappings[1..]);
      assert ClearOfWindow(k, mappings[0].start, mappings[0].end);
      forall v: nat | PHYS_WINDOW_START <= v < k.windowEnd ensures RightOf(mappings, v).None? {
        assert RightOf(mappings[1..], v).None?;
      }
    }
  }

  lemma SetWithScreen(s: Space, s1: Space, s2: Space, root: nat, k: Layout)
    requires WindowSet(s, root, k) && MapsFramebuffer(k) && KeepClear(k, k.mappings)
    requires ClearOfWindow(k, k.framebufferStart, k.framebufferEnd)
    requires RangeSet(s, s1, root, k.framebufferStart, k.framebufferEnd, true) && RangesSet(s1, s2, root, k.mappings)
    ensures SharedExactly(s2, root, k)
  {
    hide Walk, RangeStart, RangeEnd, RightOf;
  }

  lemma SetWithoutScreen(s: Space, s': Space, root: nat, k: Layout)
    requires WindowSet(s, root, k) && !MapsFramebuffer(k) && KeepClear(k, k.mappings)
    requires RangesSet(s, s', root, k.mappings)
    ensures SharedExactly(s', root, k)
  {
    hide Walk, RangeStart, RangeEnd, RightOf;
  }
}
