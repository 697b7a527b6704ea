// In which order a load takes and records pages: always the lowest free page,
// and recorded at once but for the one user page that is being mapped. What a
// failed load or an exit gives back therefore leaves few gaps on the way
// (kernel/kernel/src/memory/allocator.rs:27-44, loader.rs:30-108, types.rs:98-116).
module LoadOrder {
  import opened Prelude
  import opened Words
  import opened PageOwnership
  import opened Paging
  import opened KernelMaps
  import opened Elf
  import opened UserImages
  import opened Segments
  import opened Startup
  import opened Loader
  import opened Programs

  function Below(before: set<nat>, c: nat): set<nat> {
    set p | p in before && p < c
  }

  function Hole(h: Option<nat>): set<nat> {
    if h.Some? then {h.value} else {}
  }

  /** The pages below `c` have left the free set. */
  ghost predicate Taken(before: set<nat>, free: set<nat>, c: nat) {
    free == before - Below(before, c)
  }

  /** The recorded pages are the lowest ones, but for one. */
  ghost predicate NearlyLowest(before: set<nat>, recorded: set<nat>) {
    exists c: nat, h: Option<nat> :: recorded == Below(before, c) - Hole(h)
  }

  /** However far the list is given back. */
  ghost predicate PrefixesAreLow(before: set<nat>, owned: seq<nat>) {
    forall k :: 0 <= k <= |owned| ==> NearlyLowest(before, Elements(owned[..k]))
  }

  /** What holds while a load goes on; the page `hole` is being mapped. */
  ghost predicate Ordered(before: set<nat>, s: Space, hole: Option<nat>) {
    && s.tracked && PrefixesAreLow(before, s.owned)
    && exists c: nat :: OrderedAt(before, s, hole, c)
  }

  ghost predicate OrderedAt(before: set<nat>, s: Space, hole: Option<nat>, c: nat) {
    Taken(before, s.free, c) && Hole(hole) <= Below(before, c) && Elements(s.owned) == Below(before, c) - Hole(hole)
  }

  /** What holds when it has stopped. */
  ghost predicate Stopped(before: set<nat>, s: Space) {
    s.tracked && PrefixesAreLow(before, s.owned) && exists c: nat :: Taken(before, s.free, c)
  }

  ghost predicate Continues(before: set<nat>, s: Space, hole: Option<nat>, ok: bool) {
    if ok then Ordered(before, s, hole) else Stopped(before, s)
  }

  lemma OrderedMayStop(before: set<nat>, s: Space, hole: Option<nat>)
    requires Ordered(before, s, hole)
    ensures Stopped(before, s)
  {
    hide PrefixesAreLow;
    var c: nat :| OrderedAt(before, s, hole, c);
  }

  /** Only the free and the recorded pages matter. */
  lemma SameBooks(before: set<nat>, s: Space, s': Space, hole: Option<nat>)
    requires Ordered(before, s, hole) && s' == s.(frames := s'.frames)
    ensures Ordered(before, s', hole)
  {
    hide PrefixesAreLow;
    var c: nat :| OrderedAt(before, s, hole, c);
    assert OrderedAt(before, s', hole, c);
  }

  lemma LowestJoins(before: set<nat>, free: set<nat>, c: nat)
    requires Taken(before, free, c) && free != {}
    ensures var x := Lowest(free);
            Taken(before, free - {x}, x + 1) && x !in Below(before, c) && Below(before, x + 1) == Below(before, c) + {x}
  {
  }

  lemma LongerPrefix(before: set<nat>, owned: seq<nat>, x: nat)
    requires PrefixesAreLow(before, owned) && NearlyLowest(before, Elements(owned + [x]))
    ensures PrefixesAreLow(before, owned + [x])
  {
    hide NearlyLowest, Elements;
    var longer := owned + [x];
    forall k | 0 <= k <= |longer| ensures NearlyLowest(before, Elements(longer[..k])) {
      if k <= |owned| { assert longer[..k] == owned[..k]; } else { assert longer[..k] == longer; }
    }
  }

  lemma ElementsPush(owned: seq<nat>, x: nat)
    ensures Elements(owned + [x]) == Elements(owned) + {x}
  {
  }

  /** A page taken for the page being mapped. */
  lemma TakeForLeaf(before: set<nat>, s: Space)
    requires Ordered(before, s, None) && s.free != {}
    ensures Ordered(before, Allocated(s), Some(Lowest(s.free)))
  {
    hide PrefixesAreLow;
    var c: nat :| OrderedAt(before, s, None, c);
    LowestJoins(before, s.free, c);
    assert OrderedAt(before, Allocated(s), Some(Lowest(s.free)), Lowest(s.free) + 1);
  }

  /** A page taken for a table and recorded at once, or not recorded any more. */
  lemma TakeForTable(before: set<nat>, s: Space, s': Space, hole: Option<nat>, ok: bool)
    requires Ordered(before, s, hole) && s.free != {}
    requires s' == Allocated(s).(frames := s'.frames, owned := if ok then s.owned + [Lowest(s.free)] else s.owned)
    ensures Continues(before, s', hole, ok)
  {
    hide PrefixesAreLow;
    var x := Lowest(s.free);
    var c: nat :| OrderedAt(before, s, hole, c);
    LowestJoins(before, s.free, c);
    assert Taken(before, s'.free, x + 1);
    if ok {
      ElementsPush(s.owned, x);
      assert Elements(s'.owned) == Below(before, x + 1) - Hole(hole);
      LongerPrefix(before, s.owned, x);
      assert OrderedAt(before, s', hole, x + 1);
    }
  }

  /** The page that was being mapped is recorded. */
  lemma RecordLeaf(before: set<nat>, s: Space, phys: nat)
    requires Ordered(before, s, Some(phys))
    ensures Ordered(before, s.(owned := s.owned + [phys]), None)
  {
    hide PrefixesAreLow;
    var c: nat :| OrderedAt(before, s, Some(phys), c);
    ElementsPush(s.owned, phys);
    assert Elements(s.owned + [phys]) == Below(before, c) - Hole(None);
    LongerPrefix(before, s.owned, phys);
    assert OrderedAt(before, s.(owned := s.owned + [phys]), None, c);
  }

  // ---------------------------------------------------------------------------
  // Page tables.

  lemma EnsureTableOrdered(before: set<nat>, s: Space, hole: Option<nat>, table: nat, index: nat, user: bool)
    requires Ordered(before, s, hole) && index < WORDS_PER_PAGE
    ensures var (s', r) := EnsureTable(s, table, index, user); Continues(before, s', hole, r.Ok?)
  {
    hide Ordered, Stopped, Words.Present, User, WithEntry, AddressOf, TableWord;
    var (s', r) := EnsureTable(s, table, index, user);
    assert s.tracked by { OrderedIsTracked(before, s, hole); }
    if Words.Present(Entry(s.frames, table, index)) {
      SameBooks(before, s, s', hole);
    } else if s.free == {} {
      OrderedMayStop(before, s, hole);
    } else {
      TakeForTable(before, s, s', hole, r.Ok?);
    }
  }

  lemma OrderedIsTracked(before: set<nat>, s: Space, hole: Option<nat>)
    requires Ordered(before, s, hole)
    ensures s.tracked
  {
  }

  lemma EnsureDirectoryOrdered(before: set<nat>, s: Space, hole: Option<nat>, root: nat, virt: nat, user: bool)
    requires Ordered(before, s, hole)
    ensures var (s', r) := EnsureDirectory(s, root, virt, user); Continues(before, s', hole, r.Ok?)
  {
    hide Ordered, Stopped, EnsureTable;
    EnsureTableOrdered(before, s, hole, root, Pml4Index(virt), user);
    var (s1, pdpt) := EnsureTable(s, root, Pml4Index(virt), user);
    if pdpt.Ok? { EnsureTableOrdered(before, s1, hole, pdpt.value, PdptIndex(virt), user); }
  }

  lemma Map4kOrdered(before: set<nat>, s: Space, hole: Option<nat>, root: nat, virt: nat, phys: nat, flags: nat)
    requires Ordered(before, s, hole)
    ensures var (s', r) := Map4k(s, root, virt, phys, flags); Continues(before, s', hole, r.Ok?)
  {
    hide Ordered, Stopped, EnsureTable, EnsureDirectory, WithEntry, User;
    EnsureDirectoryOrdered(before, s, hole, root, virt, User(flags));
    var (s1, pd) := EnsureDirectory(s, root, virt, User(flags));
    if pd.Ok? {
      EnsureTableOrdered(before, s1, hole, pd.value, PdIndex(virt), User(flags));
      var (s2, pt) := EnsureTable(s1, pd.value, PdIndex(virt), User(flags));
      if pt.Ok? { SameBooks(before, s2, Map4k(s, root, virt, phys, flags).0, hole); }
    }
  }

  lemma Map2mOrdered(before: set<nat>, s: Space, root: nat, virt: nat, phys: nat, flags: nat)
    requires Ordered(before, s, None)
    ensures var (s', r) := Map2m(s, root, virt, phys, flags); Continues(before, s', None, r.Ok?)
  {
    hide Ordered, Stopped, EnsureDirectory, WithEntry, User;
    EnsureDirectoryOrdered(before, s, None, root, virt, User(flags));
    var (s1, pd) := EnsureDirectory(s, root, virt, User(flags));
    if pd.Ok? { SameBooks(before, s1, Map2m(s, root, virt, phys, flags).0, None); }
  }

  lemma {:induction false} MapPagesOrdered(before: set<nat>, s: Space, root: nat, address: nat, limit: nat, flags: nat)
    requires Ordered(before, s, None)
    ensures var (s', r) := MapPages(s, root, address, limit, flags); Continues(before, s', None, r.Ok?)
    decreases limit - address
  {
    hide Ordered, Stopped, Map4k;
    if address < limit {
      Map4kOrdered(before, s, None, root, address, address, flags);
      var (s1, r) := Map4k(s, root, address, address, flags);
      if r.Ok? { MapPagesOrdered(before, s1, root, address + SPAN_4K, limit, flags); }
    }
  }

  lemma {:induction false} MapHugesOrdered(before: set<nat>, s: Space, root: nat, address: nat, limit: nat, flags: nat)
    requires Ordered(before, s, None)
    ensures var (s', r) := MapHuges(s, root, address, limit, flags); Continues(before, s', None, r.Ok?)
    decreases limit - address
  {
    hide Ordered, Stopped, Map2m;
    if address < limit {
      Map2mOrdered(before, s, root, address, address, flags);
      var (s1, r) := Map2m(s, root, address, address, flags);
      if r.Ok? { MapHugesOrdered(before, s1, root, address + SPAN_2M, limit, flags); }
    }
  }

  lemma Map4kRangeOrdered(before: set<nat>, s: Space, root: nat, start: nat, end: nat, flags: nat)
    requires Ordered(before, s, None)
    ensures var (s', r) := MapIdentity4kRange(s, root, start, end, flags); Continues(before, s', None, r.Ok?)
  {
    MapPagesOrdered(before, s, root, AlignDown(start, SPAN_4K), if end == 0 then 0 else AlignUp(end, SPAN_4K), flags);
  }

  lemma {:induction false} ReplayOrdered(before: set<nat>, s: Space, root: nat, mappings: seq<SharedMapping>)
    requires Ordered(before, s, None)
    ensures var (s', r) := Replay(s, root, mappings); Continues(before, s', None, r.Ok?)
    decreases |mappings|
  {
    hide Ordered, Stopped, MapIdentity4kRange;
    if mappings != [] {
      var m := mappings[0];
      Map4kRangeOrdered(before, s, root, m.start, m.end, FlagsOf(m.writable));
      var (s1, r) := MapIdentity4kRange(s, root, m.start, m.end, FlagsOf(m.writable));
      if r.Ok? { ReplayOrdered(before, s1, root, mappings[1..]); }
    }
  }

  lemma MapSharedOrdered(before: set<nat>, s: Space, root: nat, k: Kernel)
    requires Ordered(before, s, None)
    ensures var (s', r) := MapShared(s, root, k); Continues(before, s', None, r.Ok?)
  {
    hide Ordered, Stopped, MapIdentity4kRange, MapHuges, Replay;
    MapHugesOrdered(before, s, root, AlignDown(PHYS_WINDOW_START, SPAN_2M), if k.windowEnd == 0 then 0
        else AlignUp(k.windowEnd, SPAN_2M), FlagsOf(true));
    var (s1, window) := MapIdentity2mRange(s, root, PHYS_WINDOW_START, k.windowEnd, FlagsOf(true));
    if window.Ok? {
      if MapsFramebuffer(k) {
        Map4kRangeOrdered(before, s1, root, k.framebufferStart, k.framebufferEnd, FlagsOf(true));
      }
      var (s2, screen) :=
        if MapsFramebuffer(k) then MapIdentity4kRange(s1, root, k.framebufferStart, k.framebufferEnd, FlagsOf(true))
            else (s1, Ok(()));
      if screen.Ok? { ReplayOrdered(before, s2, root, k.mappings); }
    }
  }

  // ---------------------------------------------------------------------------
  // The user image.

  lemma MapFreshOrdered(before: set<nat>, b: Build, root: nat, virt: nat, writable: bool)
    requires Ordered(before, b.space, None)
    ensures var (b', r) := MapFresh(b, root, virt, writable); Continues(before, b'.space, None, r.Ok?)
  {
    hide Ordered, Stopped, Map4k, Allocated;
    if b.space.free == {} {
      OrderedMayStop(before, b.space, None);
    } else {
      var phys := Lowest(b.space.free);
      TakeForLeaf(before, b.space);
      Map4kOrdered(before, Allocated(b.space), Some(phys), root, virt, phys, UserFlags(writable));
      var (s2, r) := Map4k(Allocated(b.space), root, virt, phys, UserFlags(writable));
      if r.Ok? {
        OrderedMayStop(before, s2, Some(phys));
        RecordLeaf(before, s2, phys);
      }
    }
  }

  lemma {:induction false} MapPagesFromOrdered(before: set<nat>, b: Build, root: nat, virt: nat, end: nat,
                                               writable: bool)
    requires Ordered(before, b.space, None)
    ensures var (b', r) := MapPagesFrom(b, root, virt, end, writable); Continues(before, b'.space, None, r.Ok?)
    decreases end - virt
  {
    hide Ordered, Stopped, MapFresh, FindPage;
    if virt < end {
      if FindPage(b.pages, virt).Some? {
        MapPagesFromOrdered(before, b, root, virt + PAGE_SIZE, end, writable);
      } else {
        MapFreshOrdered(before, b, root, virt, writable);
        var (b1, r) := MapFresh(b, root, virt, writable);
        if r.Ok? { MapPagesFromOrdered(before, b1, root, virt + PAGE_SIZE, end, writable); }
      }
    }
  }

  lemma LoadSegmentOrdered(before: set<nat>, b: Build, root: nat, file: Bytes, h: ProgramHeader)
    requires Ordered(before, b.space, None)
    ensures var (b', r) := LoadSegment(b, root, file, h); Continues(before, b'.space, None, r.Ok?)
  {
    hide Ordered, Stopped, MapPagesFrom, CopyPages, PageStart, PageEnd, ProgramHeader.IsWritable;
    OrderedMayStop(before, b.space, None);
    if !OutOfBounds(h) {
      MapPagesFromOrdered(before, b, root, PageStart(h), PageEnd(h), h.IsWritable());
      var (b1, r) := MapPagesFrom(b, root, PageStart(h), PageEnd(h), h.IsWritable());
      if r.Ok? {
        var b2 := FillSegment(b1, file, h).0;
        SameBooks(before, b1.space, b2.space, None);
        OrderedMayStop(before, b2.space, None);
      }
    }
  }

  lemma {:induction false} LoadSegmentsOrdered(before: set<nat>, b: Build, root: nat, file: Bytes,
                                               headers: seq<Result<ProgramHeader, ElfError>>)
    requires Ordered(before, b.space, None)
    ensures var (b', r) := LoadSegments(b, root, file, headers); Continues(before, b'.space, None, r.Ok?)
    decreases |headers|
  {
    hide Ordered, Stopped, LoadSegment;
    if headers != [] {
      OrderedMayStop(before, b.space, None);
      if headers[0].Ok? {
        if headers[0].value.kind == PT_LOAD {
          LoadSegmentOrdered(before, b, root, file, headers[0].value);
          var (b1, r) := LoadSegment(b, root, file, headers[0].value);
          if r.Ok? { LoadSegmentsOrdered(before, b1, root, file, headers[1..]); }
        } else {
          LoadSegmentsOrdered(before, b, root, file, headers[1..]);
        }
      }
    }
  }

  lemma {:induction false} StringsKeepBooks(b: Build, cursor: nat, args: seq<Bytes>)
    ensures var b' := WriteStrings(b, cursor, args).0; b'.space == b.space.(frames := b'.space.frames)
    decreases |args|
  {
    hide CopyPages;
    if args != [] {
      var (b1, ok) := WriteString(b, cursor, args[0]);
      if ok { StringsKeepBooks(b1, cursor + |args[0]| + 1, args[1..]); }
    }
  }

  lemma BlockKeepsBooks(b: Build, l: ArgLayout)
    ensures var b' := WriteBlock(b, l).0; b'.space == b.space.(frames := b'.space.frames)
  {
    hide CopyPages, WriteStrings, PointerBytes, ToLe;
    StringsKeepBooks(b, l.stringsStart, l.args);
  }

  lemma FinishOrdered(before: set<nat>, b: Build, root: nat, q: Request, utf8: Utf8)
    requires Ordered(before, b.space, None)
    ensures var (b', r) := FinishProgram(b, root, q, utf8); Continues(before, b'.space, None, r.Ok?)
  {
    hide Ordered, Stopped, MapPagesFrom, StartupArgs, PrepareLayout, WriteBlock;
    MapPagesFromOrdered(before, b, root, USER_STACK_BASE, USER_STACK_TOP, true);
    var (b1, r) := MapPagesFrom(b, root, USER_STACK_BASE, USER_STACK_TOP, true);
    var args := StartupArgs(q.argv0, q.tail, utf8);
    if r.Ok? {
      OrderedMayStop(before, b1.space, None);
      if args.Ok? && PrepareLayout(args.value).Ok? {
        var l := PrepareLayout(args.value).value;
        BlockKeepsBooks(b1, l);
        SameBooks(before, b1.space, WriteBlock(b1, l).0.space, None);
        OrderedMayStop(before, WriteBlock(b1, l).0.space, None);
      }
    }
  }

  /** A load takes the lowest free pages, and records them in this order but for one at a time. */
  lemma WholeLoadOrdered(frames: map<nat, Bytes>, free: set<nat>, k: Kernel, h: ElfHeader, q: Request, utf8: Utf8)
    requires TableFits(q.file, h)
    ensures var (s, r) := WholeLoad(frames, free, k, h, q, utf8); Continues(free, s, None, r.Ok?)
  {
    hide Ordered, Stopped, MapShared, LoadSegments, FinishProgram, RootTaken, TableFits;
    if free == {} {
      NothingIsOrdered(frames, free);
      OrderedMayStop(free, Space(frames, free, [], true), None);
    } else {
      var s, root := RootTaken(frames, free), Lowest(free);
      RootIsOrdered(frames, free);
      MapSharedOrdered(free, s, root, k);
      var (s1, r0) := MapShared(s, root, k);
      if r0.Ok? {
        LoadSegmentsOrdered(free, Build(s1, []), root, q.file, HeaderList(q.file, h, 0));
        var (b1, r1) := LoadSegments(Build(s1, []), root, q.file, HeaderList(q.file, h, 0));
        if r1.Ok? { FinishOrdered(free, b1, root, q, utf8); }
        assert BuildProgram(s, root, k, h, q, utf8) == if r1.Err? then (b1, Err(r1.error))
                 else FinishProgram(b1, root, q, utf8);
      }
    }
  }

  lemma NothingIsOrdered(frames: map<nat, Bytes>, free: set<nat>)
    ensures Ordered(free, Space(frames, free, [], true), None)
  {
    var s := Space(frames, free, [], true);
    var none: seq<nat> := [];
    assert Elements(none) == Below(free, 0) - Hole(None);
    assert OrderedAt(free, s, None, 0);
    forall k | 0 <= k <= |none| ensures NearlyLowest(free, Elements(none[..k])) {
      assert none[..k] == none;
    }
  }

  lemma RootIsOrdered(frames: map<nat, Bytes>, free: set<nat>)
    requires free != {}
    ensures Ordered(free, RootTaken(frames, free), None)
  {
    hide Ordered;
    var s := Space(frames, free, [], true);
    NothingIsOrdered(frames, free);
    assert [] + [Lowest(free)] == [Lowest(free)];
    TakeForTable(free, s, RootTaken(frames, free), None, true);
  }
}
