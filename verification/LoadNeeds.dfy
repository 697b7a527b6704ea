// What a load needs, counted from the file and the kernel's mappings alone, and
// that it completes exactly when this much is there
// (kernel/kernel/src/memory/loader.rs:21-112, paging.rs:24-115, types.rs:98-106).
module LoadNeeds {
  import opened Prelude
  import opened Words
  import opened PageOwnership
  import opened Paging
  import opened KernelMaps
  import opened Elf
  import opened UserImages
  import opened Segments
  import opened Startup
  import opened Loader
  import opened Programs
  import LoadAndRun

  /** A place for a table below the root: its depth, and its region of the span of the table above. */
  type Place = (nat, nat)

  /** The tree has tables below the root at exactly these places. */
  ghost predicate TreeIs(frames: map<nat, Bytes>, root: nat, t: set<Place>) {
    forall d: nat, p: nat :: 1 <= d <= 3 ==> (TableAt(frames, root, d, p).Some? <==> (d, p) in t)
  }

  /** `n` more pages can be taken and recorded. */
  ghost predicate Has(s: Space, n: nat) {
    |s.owned| + n <= MAX_OWNED_PAGES && n <= |s.free|
  }

  /** `n` pages were taken and recorded. */
  ghost predicate Used(s: Space, s': Space, n: nat) {
    |s'.owned| == |s.owned| + n && |s'.free| + n == |s.free| && s'.tracked == s.tracked
  }

  /** The error says what there is too little of. */
  ghost predicate Short(s: Space, e: MemoryError, n: nat) {
    match e
    case AllocatorExhausted => |s.free| < n
    case OwnedPageCapacityExceeded => |s.owned| + n > MAX_OWNED_PAGES
  }

  function ErrorOf<T>(r: Result<T, MemoryError>): Option<MemoryError> {
    if r.Err? then Some(r.error) else None
  }

  /** The step needs the tables at `more` that are not there yet: there are as many pages, and then
      these tables are there, or it fails and says why. */
  ghost predicate Needs(s: Space, s': Space, root: nat, e: Option<MemoryError>, t: set<Place>, more: set<Place>) {
    if e.None? then Has(s, |more - t|) && Used(s, s', |more - t|) && TreeIs(s'.frames, root, t + more)
    else Short(s, e.value, |more - t|)
  }

  lemma TwoSteps(t: set<Place>, a: set<Place>, b: set<Place>)
    ensures |(a + b) - t| == |a - t| + |b - (t + a)|
    ensures t + (a + b) == (t + a) + b
  {
    assert (a + b) - t == (a - t) + (b - (t + a));
  }

  lemma NeedsTwice(s: Space, s': Space, s'': Space, root: nat, e: Option<MemoryError>, t: set<Place>, a: set<Place>,
                   b: set<Place>)
    requires Needs(s, s', root, None, t, a) && Needs(s', s'', root, e, t + a, b)
    ensures Needs(s, s'', root, e, t, a + b)
  {
    hide TreeIs;
    TwoSteps(t, a, b);
  }

  lemma NeedsStop(s: Space, s': Space, root: nat, e: MemoryError, t: set<Place>, a: set<Place>, b: set<Place>)
    requires Needs(s, s', root, Some(e), t, a)
    ensures Needs(s, s', root, Some(e), t, a + b)
  {
    hide TreeIs;
    TwoSteps(t, a, b);
  }

  lemma NeedsNothing(s: Space, root: nat, t: set<Place>)
    requires |s.owned| <= MAX_OWNED_PAGES && TreeIs(s.frames, root, t)
    ensures Needs(s, s, root, None, t, {})
  {
    hide TreeIs;
    assert {} - t == {} && t + {} == t;
  }

  // ---------------------------------------------------------------------------
  // Which writes keep the tree.

  lemma SameTablesSamePlaces(frames: map<nat, Bytes>, frames': map<nat, Bytes>, root: nat, t: set<Place>)
    requires TreeIs(frames, root, t)
    requires forall d: nat, p: nat :: d <= 3 ==> TableAt(frames', root, d, p) == TableAt(frames, root, d, p)
    ensures TreeIs(frames', root, t)
  {
    hide TableAt;
  }

  lemma UserBitKeepsTree(s: Space, root: nat, d0: nat, q0: nat, t: set<Place>)
    requires Good(s, root) && d0 < 3 && TableAt(s.frames, root, d0, q0 / WORDS_PER_PAGE).Some?
    requires TreeIs(s.frames, root, t)
    requires EntryAt(s.frames, root, d0, q0).Some? && PointsToTable(EntryAt(s.frames, root, d0, q0).value)
    ensures var f, was := TableAt(s.frames, root, d0, q0 / WORDS_PER_PAGE).value, EntryAt(s.frames, root, d0, q0).value;
            TreeIs(WithEntry(s.frames, f, q0 % WORDS_PER_PAGE, WithUser(was)), root, t)
  {
    hide TableAt, EntryAt, AddressOf, Huge, Writable, User, WithUser, GetWord, SetWord, WithEntry, Frame, TreeIs,
         Present;
    var f, was := TableAt(s.frames, root, d0, q0 / WORDS_PER_PAGE).value, EntryAt(s.frames, root, d0, q0).value;
    GetWordIsBounded(Frame(s.frames, f), q0 % WORDS_PER_PAGE);
    EntryOf(s.frames, root, d0, q0);
    WithUserParts(was);
    SoundParts(s.frames, s.free, root);
    WriteEntry(s.frames, root, d0, q0, WithUser(was));
    SameTablesSamePlaces(s.frames, WithEntry(s.frames, f, q0 % WORDS_PER_PAGE, WithUser(was)), root, t);
  }

  /** A leaf entry is no pointer to a table, before and after. */
  lemma LeafKeepsTree(s: Space, root: nat, d0: nat, q0: nat, w: nat, t: set<Place>)
    requires Good(s, root) && 2 <= d0 <= 3 && w < WORD_LIMIT && TreeIs(s.frames, root, t)
    requires TableAt(s.frames, root, d0, q0 / WORDS_PER_PAGE).Some?
    requires d0 == 2 ==> Huge(w) && TableAt(s.frames, root, 3, q0).None?
    ensures TreeIs(WithEntry(s.frames, TableAt(s.frames, root, d0, q0 / WORDS_PER_PAGE).value, q0 % WORDS_PER_PAGE, w),
              root, t)
  {
    hide TableAt, EntryAt, AddressOf, Huge, Present, WithEntry, Frame, TreeIs, Separate, Permissive, Placed;
    SoundParts(s.frames, s.free, root);
    EntryOfTable(s.frames, root, d0, q0);
    TableBelow(s.frames, root, d0, q0);
    WriteEntry(s.frames, root, d0, q0, w);
    SameTablesSamePlaces(s.frames, WithEntry(s.frames, TableAt(s.frames, root, d0, q0 / WORDS_PER_PAGE).value,
        q0 % WORDS_PER_PAGE, w), root, t);
  }

  lemma AddingPutsTable(s: Space, root: nat, d0: nat, q0: nat, child: nat, user: bool, t: set<Place>)
    requires Good(s, root) && d0 < 3 && EntryAt(s.frames, root, d0, q0).Some? && TreeIs(s.frames, root, t)
    requires TableAt(s.frames, root, d0, q0 / WORDS_PER_PAGE).Some?
    requires !Present(EntryAt(s.frames, root, d0, q0).value)
    requires !IsTable(s.frames, root, child) && Frame(s.frames, child) == ZeroPage() && IsFrame(child)
    ensures var f := TableAt(s.frames, root, d0, q0 / WORDS_PER_PAGE).value;
            TreeIs(WithEntry(s.frames, f, q0 % WORDS_PER_PAGE, TableWord(child, user)), root, t + {(d0 + 1, q0)})
  {
    hide WithEntry, ZeroPage, TableAt, EntryAt, AddressOf, Huge, Writable, User, Present, TableWord, IsTable, Frame,
         AddsTable, Sound;
    var f, w := TableAt(s.frames, root, d0, q0 / WORDS_PER_PAGE).value, TableWord(child, user);
    TableWordParts(child, user);
    NewTable(s.frames, root, d0, q0, w, child);
    SoundParts(s.frames, s.free, root);
    WriteTable(s.frames, root, d0, q0, w, child);
    hide Separate, Permissive, Placed;
  }

  // ---------------------------------------------------------------------------
  // One table, one page.

  lemma EnsureTableNeeds(s: Space, root: nat, d0: nat, q0: nat, user: bool, t: set<Place>)
    requires Good(s, root) && d0 < 3 && TableAt(s.frames, root, d0, q0 / WORDS_PER_PAGE).Some?
    requires !HugeAt(s.frames, root, d0, q0)
    requires s.tracked && |s.owned| <= MAX_OWNED_PAGES && TreeIs(s.frames, root, t)
    ensures var (s', r) := EnsureTable(s, TableAt(s.frames, root, d0, q0 / WORDS_PER_PAGE).value, q0 % WORDS_PER_PAGE,
              user);
            Needs(s, s', root, ErrorOf(r), t, {(d0 + 1, q0)})
  {
    hide TreeIs, Sound, Walk, WithEntry, AddressOf, Huge, Writable, User, TableWord, ZeroPage, Entry, GetWord, Present,
         TableAt, EntryAt;
    var f := TableAt(s.frames, root, d0, q0 / WORDS_PER_PAGE).value;
    var entry := Entry(s.frames, f, q0 % WORDS_PER_PAGE);
    EntryOf(s.frames, root, d0, q0);
    PlaceOf(s.frames, root, d0, q0, t);
    if Present(entry) {
      assert {(d0 + 1, q0)} - t == {} && t + {(d0 + 1, q0)} == t;
      if user && !User(entry) { UserBitKeepsTree(s, root, d0, q0, t); }
    } else {
      assert {(d0 + 1, q0)} - t == {(d0 + 1, q0)};
      if s.free != {} { TakenNeeds(s, root, d0, q0, user, t); }
    }
  }

  lemma PlaceOf(frames: map<nat, Bytes>, root: nat, d0: nat, q0: nat, t: set<Place>)
    requires TreeIs(frames, root, t) && d0 < 3 && EntryAt(frames, root, d0, q0).Some? && !HugeAt(frames, root, d0, q0)
    ensures Present(EntryAt(frames, root, d0, q0).value) <==> (d0 + 1, q0) in t
    ensures Present(EntryAt(frames, root, d0, q0).value) ==> PointsToTable(EntryAt(frames, root, d0, q0).value)
  {
    hide TableAt, EntryAt, Present, Huge, AddressOf;
    TableBelow(frames, root, d0, q0);
  }

  lemma TakenNeeds(s: Space, root: nat, d0: nat, q0: nat, user: bool, t: set<Place>)
    requires Good(s, root) && d0 < 3 && TableAt(s.frames, root, d0, q0 / WORDS_PER_PAGE).Some? && s.free != {}
    requires EntryAt(s.frames, root, d0, q0).Some? && !Present(EntryAt(s.frames, root, d0, q0).value)
    requires s.tracked && |s.owned| <= MAX_OWNED_PAGES && TreeIs(s.frames, root, t) && (d0 + 1, q0) !in t
    ensures var (s', r) := EnsureTable(s, TableAt(s.frames, root, d0, q0 / WORDS_PER_PAGE).value, q0 % WORDS_PER_PAGE,
              user);
            if r.Ok? then Has(s, 1) && Used(s, s', 1) && TreeIs(s'.frames, root, t + {(d0 + 1, q0)})
            else Short(s, r.error, 1)
  {
    hide TreeIs, Sound, Walk, WithEntry, AddressOf, Huge, Writable, User, TableWord, ZeroPage, Entry, Present, TableAt,
         EntryAt, Frame, IsTable, IsFrame;
    EntryOf(s.frames, root, d0, q0);
    TakeStep(s, root);
    var taken := Allocated(s);
    assert TreeIs(taken.frames, root, t) by { SameTreeSamePlaces(s.frames, taken.frames, root, t); }
    TakenHere(s, taken, root, d0, q0);
    AddingPutsTable(taken, root, d0, q0, Lowest(s.free), user, t);
  }

  lemma SameTreeSamePlaces(frames: map<nat, Bytes>, frames': map<nat, Bytes>, root: nat, t: set<Place>)
    requires TreeIs(frames, root, t) && SameTree(frames, frames', root)
    ensures TreeIs(frames', root, t)
  {
    hide TableAt, EntryAt;
  }

  lemma TakenHere(s: Space, taken: Space, root: nat, d0: nat, q0: nat)
    requires SameTree(s.frames, taken.frames, root) && d0 <= 3
    ensures EntryAt(taken.frames, root, d0, q0) == EntryAt(s.frames, root, d0, q0)
    ensures TableAt(taken.frames, root, d0, q0 / WORDS_PER_PAGE) == TableAt(s.frames, root, d0, q0 / WORDS_PER_PAGE)
  {
    hide TableAt, EntryAt;
  }

  ghost function DirectoryPath(v: nat): set<Place> {
    {(1, Region(0, v)), (2, Region(1, v))}
  }

  /** The tables on the way to a 4 KiB page. */
  ghost function PagePath(v: nat): set<Place> {
    {(1, Region(0, v)), (2, Region(1, v)), (3, Region(2, v))}
  }

  lemma EnsureDirectoryNeeds(s: Space, root: nat, virt: nat, user: bool, t: set<Place>)
    requires Good(s, root) && virt < VIRT_LIMIT && NoHugeOnPath(s.frames, root, virt, 2)
    requires s.tracked && |s.owned| <= MAX_OWNED_PAGES && TreeIs(s.frames, root, t)
    ensures var (s', r) := EnsureDirectory(s, root, virt, user); Needs(s, s', root, ErrorOf(r), t, DirectoryPath(virt))
  {
    hide TableAt, EntryAt, HugeAt, Sound, Conserved, EnsureTable, Region, User, TreeIs, Needs, Quiet, SameLastLevel,
         NoHugeOnPath;
    RegionsOf(virt);
    RootTable(s.frames, root, 0);
    NoHugeAbove(s, root, virt, 2);
    var a, b := (1, Region(0, virt)), (2, Region(1, virt));
    EnsureTableNeeds(s, root, 0, Region(0, virt), user, t);
    var leak := EnsureTableWorks(s, root, 0, Region(0, virt), user);
    var (s1, pdpt) := EnsureTable(s, root, Pml4Index(virt), user);
    if pdpt.Ok? {
      QuietAddsNoHuge(s, s1, root, 1, Region(1, virt));
      NeedsBounds(s, s1, root, t, {a});
      EnsureTableNeeds(s1, root, 1, Region(1, virt), user, t + {a});
      var (s2, pd) := EnsureTable(s1, pdpt.value, PdptIndex(virt), user);
      NeedsTwice(s, s1, s2, root, ErrorOf(pd), t, {a}, {b});
    } else {
      NeedsStop(s, s1, root, pdpt.error, t, {a}, {b});
    }
    assert {a} + {b} == DirectoryPath(virt);
  }

  lemma NoHugeAbove(s: Space, root: nat, virt: nat, depth: nat)
    requires 2 <= depth <= 3 && NoHugeOnPath(s.frames, root, virt, depth)
    ensures !HugeAt(s.frames, root, 0, Region(0, virt)) && !HugeAt(s.frames, root, 1, Region(1, virt))
    ensures depth == 3 ==> !HugeAt(s.frames, root, 2, Region(2, virt))
    ensures NoHugeOnPath(s.frames, root, virt, 2)
  {
    hide HugeAt, Region;
  }

  lemma QuietAddsNoHuge(s: Space, s': Space, root: nat, d: nat, q: nat)
    requires Quiet(s, s', root)
    ensures !HugeAt(s.frames, root, d, q) ==> !HugeAt(s'.frames, root, d, q)
  {
    hide HugeAt, TableAt, Walk, IsTable, Frame;
  }

  lemma NeedsBounds(s: Space, s': Space, root: nat, t: set<Place>, a: set<Place>)
    requires Needs(s, s', root, None, t, a)
    ensures |s'.owned| <= MAX_OWNED_PAGES && s'.tracked == s.tracked && TreeIs(s'.frames, root, t + a)
  {
    hide TreeIs;
  }

  lemma Map4kNeeds(s: Space, root: nat, virt: nat, phys: nat, flags: nat, t: set<Place>)
    requires Good(s, root) && virt < VIRT_LIMIT && NoHugeOnPath(s.frames, root, virt, 3)
    requires IsFrame(phys) && flags < PAGE_SIZE && Present(flags)
    requires s.tracked && |s.owned| <= MAX_OWNED_PAGES && TreeIs(s.frames, root, t)
    ensures var (s', r) := Map4k(s, root, virt, phys, flags); Needs(s, s', root, ErrorOf(r), t, PagePath(virt))
  {
    hide TableAt, EntryAt, HugeAt, Sound, Conserved, EnsureTable, EnsureDirectory, Region, User, TreeIs, Needs, Quiet,
         SameLastLevel, NoHugeOnPath,
         Present, IsFrame, AddressOf, WithEntry;
    RegionsOf(virt);
    NoHugeAbove(s, root, virt, 3);
    EnsureDirectoryNeeds(s, root, virt, User(flags), t);
    var leak := EnsureDirectoryWorks(s, root, virt, User(flags));
    var (s1, pd) := EnsureDirectory(s, root, virt, User(flags));
    var front, last := DirectoryPath(virt), {(3, Region(2, virt))};
    assert front + last == PagePath(virt);
    if pd.Ok? {
      QuietAddsNoHuge(s, s1, root, 2, Region(2, virt));
      NeedsBounds(s, s1, root, t, front);
      EnsureTableNeeds(s1, root, 2, Region(2, virt), User(flags), t + front);
      leak := EnsureTableWorks(s1, root, 2, Region(2, virt), User(flags));
      var (s2, pt) := EnsureTable(s1, pd.value, PdIndex(virt), User(flags));
      if pt.Ok? {
        EntryParts(phys, flags);
        NeedsLeaf(s1, s2, root, 3, Region(3, virt), phys + flags, t + front, last);
      }
      NeedsTwice(s, s1, Map4k(s, root, virt, phys, flags).0, root, ErrorOf(pt), t, front, last);
    } else {
      NeedsStop(s, s1, root, pd.error, t, front, last);
    }
  }

  /** The leaf entry needs no page. */
  lemma NeedsLeaf(s: Space, s': Space, root: nat, d0: nat, q0: nat, w: nat, t: set<Place>, a: set<Place>)
    requires Needs(s, s', root, None, t, a) && Good(s', root) && 2 <= d0 <= 3 && w < WORD_LIMIT
    requires TableAt(s'.frames, root, d0, q0 / WORDS_PER_PAGE).Some?
    requires d0 == 2 ==> Huge(w) && TableAt(s'.frames, root, 3, q0).None?
    ensures var f := TableAt(s'.frames, root, d0, q0 / WORDS_PER_PAGE).value;
            Needs(s, s'.(frames := WithEntry(s'.frames, f, q0 % WORDS_PER_PAGE, w)), root, None, t, a)
  {
    hide TableAt, Sound, WithEntry, Huge, TreeIs;
    LeafKeepsTree(s', root, d0, q0, w, t + a);
  }

  lemma Map2mNeeds(s: Space, root: nat, virt: nat, phys: nat, flags: nat, t: set<Place>)
    requires Good(s, root) && virt < VIRT_LIMIT && NoHugeOnPath(s.frames, root, virt, 2)
    requires TableAt(s.frames, root, 3, virt / SPAN_2M).None?
    requires IsFrame(phys) && flags < PAGE_HUGE && Present(flags)
    requires s.tracked && |s.owned| <= MAX_OWNED_PAGES && TreeIs(s.frames, root, t)
    ensures var (s', r) := Map2m(s, root, virt, phys, flags); Needs(s, s', root, ErrorOf(r), t, DirectoryPath(virt))
  {
    hide TableAt, EntryAt, HugeAt, Sound, Conserved, EnsureDirectory, User, TreeIs, Needs, Quiet, NoHugeOnPath,
         Present, IsFrame, AddressOf, WithEntry, Huge;
    RegionsOf(virt);
    EnsureDirectoryNeeds(s, root, virt, User(flags), t);
    var leak := EnsureDirectoryWorks(s, root, virt, User(flags));
    var (s1, pd) := EnsureDirectory(s, root, virt, User(flags));
    if pd.Ok? {
      EntryParts(phys, flags + PAGE_HUGE);
      HugeFlag(flags);
      NeedsLeaf(s, s1, root, 2, Region(2, virt), phys + flags + PAGE_HUGE, t, DirectoryPath(virt));
    }
  }

  // ---------------------------------------------------------------------------
  // Ranges.

  /** The aligned addresses of a range. */
  function Steps(from: nat, to: nat, span: nat): set<nat>
    requires span > 0
  {
    set v | from <= v < to && v % span == 0
  }

  /** The tables that 4 KiB pages need, and those that 2 MiB regions need. */
  ghost function PagePaths(pages: set<nat>): set<Place> {
    set v, p | v in pages && p in PagePath(v) :: p
  }

  ghost function DirectoryPaths(regions: set<nat>): set<Place> {
    set v, p | v in regions && p in DirectoryPath(v) :: p
  }

  lemma FirstStep(from: nat, to: nat, span: nat)
    requires (span == SPAN_4K || span == SPAN_2M) && from % span == 0 && from < to
    ensures Steps(from, to, span) == {from} + Steps(from + span, to, span)
  {
    forall v | v in Steps(from, to, span) && v != from ensures from + span <= v {
      StepsApart(from, v, span);
    }
  }

  lemma StepsApart(a: nat, b: nat, span: nat)
    requires span == SPAN_4K || span == SPAN_2M
    requires a % span == 0 && b % span == 0 && a < b
    ensures a + span <= b
  {
    if span == SPAN_4K { assert a / SPAN_4K < b / SPAN_4K; } else { assert a / SPAN_2M < b / SPAN_2M; }
  }

  lemma PathsOfFirst(v: nat, rest: set<nat>)
    ensures PagePaths({v} + rest) == PagePath(v) + PagePaths(rest)
    ensures DirectoryPaths({v} + rest) == DirectoryPath(v) + DirectoryPaths(rest)
    ensures PagePaths({}) == {} && DirectoryPaths({}) == {}
  {
    hide PagePath, DirectoryPath;
  }

  lemma {:induction false} MapPagesNeeds(s: Space, root: nat, address: nat, limit: nat, flags: nat, t: set<Place>)
    requires Good(s, root) && address % SPAN_4K == 0 && limit % SPAN_4K == 0 && limit <= VIRT_LIMIT
    requires NoHugeIn(s.frames, root, address, limit, 3) && flags < PAGE_SIZE && Present(flags)
    requires s.tracked && |s.owned| <= MAX_OWNED_PAGES && TreeIs(s.frames, root, t)
    ensures var (s', r) := MapPages(s, root, address, limit, flags);
            Needs(s, s', root, ErrorOf(r), t, PagePaths(Steps(address, limit, SPAN_4K)))
    decreases limit - address
  {
    hide Sound, Conserved, User, Writable, Present, NoHugeIn, Contained, MapsPage, Unmoved, Map4k, HugeAt, TreeIs,
         Needs, PagePath, PagePaths, Steps,
         NoHugeOnPath, IsFrame;
    if address >= limit {
      assert Steps(address, limit, SPAN_4K) == {} by { NoSteps(address, limit, SPAN_4K); }
      PathsOfFirst(0, {});
      NeedsNothing(s, root, t);
    } else {
      NoHugeStays(s, s, root, address, address, limit);
      FrameStep(address);
      FirstStep(address, limit, SPAN_4K);
      var rest := Steps(address + SPAN_4K, limit, SPAN_4K);
      PathsOfFirst(address, rest);
      Map4kNeeds(s, root, address, address, flags, t);
      var leak := Map4kWorks(s, root, address, address, flags);
      var (s1, r) := Map4k(s, root, address, address, flags);
      if r.Ok? {
        MapsPageHuge(s, s1, root, address / SPAN_4K, address, User(flags), Writable(flags), true);
        NoHugeStays(s, s1, root, address, address + SPAN_4K, limit);
        NeedsBounds(s, s1, root, t, PagePath(address));
        MapPagesNeeds(s1, root, address + SPAN_4K, limit, flags, t + PagePath(address));
        var (s2, r2) := MapPages(s1, root, address + SPAN_4K, limit, flags);
        NeedsTwice(s, s1, s2, root, ErrorOf(r2), t, PagePath(address), PagePaths(rest));
      } else {
        NeedsStop(s, s1, root, r.error, t, PagePath(address), PagePaths(rest));
      }
    }
  }

  lemma NoSteps(from: nat, to: nat, span: nat)
    requires span > 0 && from >= to
    ensures Steps(from, to, span) == {}
  {
  }

  lemma FrameStep(address: nat)
    requires address % SPAN_4K == 0 && address < VIRT_LIMIT
    ensures IsFrame(address)
  {
  }

  lemma {:induction false} MapHugesNeeds(s: Space, root: nat, address: nat, limit: nat, flags: nat, t: set<Place>)
    requires Good(s, root) && address % SPAN_2M == 0 && limit % SPAN_2M == 0 && limit <= VIRT_LIMIT
    requires NoHugeIn(s.frames, root, address, limit, 2) && NoPageTableIn(s.frames, root, address, limit)
    requires flags < PAGE_HUGE && Present(flags)
    requires s.tracked && |s.owned| <= MAX_OWNED_PAGES && TreeIs(s.frames, root, t)
    ensures var (s', r) := MapHuges(s, root, address, limit, flags);
            Needs(s, s', root, ErrorOf(r), t, DirectoryPaths(Steps(address, limit, SPAN_2M)))
    decreases limit - address
  {
    hide Sound, Conserved, User, Writable, Present, NoHugeIn, NoPageTableIn, Contained, MapsHuge, Unmoved, Map2m,
         HugeAt, TreeIs, Needs, DirectoryPath,
         DirectoryPaths, Steps, NoHugeOnPath, IsFrame, TableAt, SameLastLevel;
    if address >= limit {
      assert Steps(address, limit, SPAN_2M) == {} by { NoSteps(address, limit, SPAN_2M); }
      PathsOfFirst(0, {});
      NeedsNothing(s, root, t);
    } else {
      HugeRangeStart(s, root, address, limit);
      FrameStep(address);
      FirstStep(address, limit, SPAN_2M);
      var rest := Steps(address + SPAN_2M, limit, SPAN_2M);
      PathsOfFirst(address, rest);
      Map2mNeeds(s, root, address, address, flags, t);
      var leak := Map2mWorks(s, root, address, address, flags);
      var (s1, r) := Map2m(s, root, address, address, flags);
      if r.Ok? {
        HugeRangeStays(s, s1, root, address, limit, address / SPAN_2M, address, User(flags), Writable(flags));
        NeedsBounds(s, s1, root, t, DirectoryPath(address));
        MapHugesNeeds(s1, root, address + SPAN_2M, limit, flags, t + DirectoryPath(address));
        var (s2, r2) := MapHuges(s1, root, address + SPAN_2M, limit, flags);
        NeedsTwice(s, s1, s2, root, ErrorOf(r2), t, DirectoryPath(address), DirectoryPaths(rest));
      } else {
        NeedsStop(s, s1, root, r.error, t, DirectoryPath(address), DirectoryPaths(rest));
      }
    }
  }

  // ---------------------------------------------------------------------------
  // What every address space shares.

  function RangePages(start: nat, end: nat): set<nat> {
    Steps(RangeStart(start), RangeEnd(end), SPAN_4K)
  }

  function MappedPages(mappings: seq<SharedMapping>): set<nat> {
    if mappings == [] then {} else RangePages(mappings[0].start, mappings[0].end) + MappedPages(mappings[1..])
  }

  /** The 4 KiB pages of the framebuffer and of the recorded ranges. */
  function KernelPages(k: Kernel): set<nat> {
    (if MapsFramebuffer(k) then RangePages(k.framebufferStart, k.framebufferEnd) else {}) + MappedPages(k.mappings)
  }

  ghost function SharedPlaces(k: Kernel): set<Place> {
    DirectoryPaths(Steps(PHYS_WINDOW_START, k.windowEnd, SPAN_2M)) + PagePaths(KernelPages(k))
  }

  lemma PathsOfUnion(a: set<nat>, b: set<nat>)
    ensures PagePaths(a + b) == PagePaths(a) + PagePaths(b)
  {
    hide PagePath;
  }

  lemma RangeNeeds(s: Space, root: nat, k: Kernel, start: nat, end: nat, writable: bool, t: set<Place>)
    requires Good(s, root) && KernelOnly(s, root, k) && ClearOfWindow(k, start, end)
    requires k.windowEnd % SPAN_2M == 0 && k.windowEnd <= VIRT_LIMIT
    requires s.tracked && |s.owned| <= MAX_OWNED_PAGES && TreeIs(s.frames, root, t)
    ensures var (s', r) := MapIdentity4kRange(s, root, start, end, FlagsOf(writable));
            Needs(s, s', root, ErrorOf(r), t, PagePaths(RangePages(start, end)))
  {
    hide HugeAt, Sound, KernelOnly, ClearOfWindow, MapPages, NoHugeIn, TreeIs, Needs, PagePaths, Steps;
    ClearRangeHasNoHuge(s, root, k, start, end);
    ClearRangeIsLow(k, start, end);
    FlagsAreSmall(writable);
    MapPagesNeeds(s, root, RangeStart(start), RangeEnd(end), FlagsOf(writable), t);
  }

  lemma FlagsAreSmall(writable: bool)
    ensures FlagsOf(writable) < PAGE_HUGE && Present(FlagsOf(writable))
  {
  }

  lemma {:induction false} ReplayNeeds(s: Space, root: nat, k: Kernel, mappings: seq<SharedMapping>, t: set<Place>)
    requires Good(s, root) && KernelOnly(s, root, k) && AllClear(k, mappings)
    requires k.windowEnd % SPAN_2M == 0 && k.windowEnd <= VIRT_LIMIT
    requires s.tracked && |s.owned| <= MAX_OWNED_PAGES && TreeIs(s.frames, root, t)
    ensures var (s', r) := Replay(s, root, mappings);
              Needs(s, s', root, ErrorOf(r), t, PagePaths(MappedPages(mappings)))
    decreases |mappings|
  {
    hide Walk, Sound, Contained, Conserved, KernelOnly, ClearOfWindow, MapIdentity4kRange, KeepsMapped, TreeIs, Needs,
         PagePaths, RangePages;
    if mappings == [] {
      hide PagePath;
      assert PagePaths({}) == {} by { PathsOfFirst(0, {}); }
      NeedsNothing(s, root, t);
    } else {
      var m := mappings[0];
      var first, rest := PagePaths(RangePages(m.start, m.end)), PagePaths(MappedPages(mappings[1..]));
      PathsOfUnion(RangePages(m.start, m.end), MappedPages(mappings[1..]));
      RangeNeeds(s, root, k, m.start, m.end, m.writable, t);
      var leak := ShareRange(s, root, k, m.start, m.end, m.writable);
      var (s1, r) := MapIdentity4kRange(s, root, m.start, m.end, FlagsOf(m.writable));
      if r.Ok? {
        NeedsBounds(s, s1, root, t, first);
        ReplayNeeds(s1, root, k, mappings[1..], t + first);
        var (s2, r2) := Replay(s1, root, mappings[1..]);
        NeedsTwice(s, s1, s2, root, ErrorOf(r2), t, first, rest);
      } else {
        NeedsStop(s, s1, root, r.error, t, first, rest);
      }
    }
  }

  /** The shared kernel context in a fresh tree. */
  lemma MapSharedNeeds(s: Space, root: nat, k: Kernel)
    requires FreshTree(s, root) && SoundLayout(k) && |s.owned| <= MAX_OWNED_PAGES && TreeIs(s.frames, root, {})
    ensures var (s', r) := MapShared(s, root, k); Needs(s, s', root, ErrorOf(r), {}, SharedPlaces(k))
  {
    hide Walk, Sound, HugeAt, TableAt, ClearOfWindow, KernelOnly, MapIdentity2mRange, MapIdentity4kRange, Replay,
         TreeIs, Needs, PagePaths,
         DirectoryPaths, Steps, KernelPages, TablesOwned, Contained, Conserved, KeepsMapped;
    var window, pages := DirectoryPaths(Steps(PHYS_WINDOW_START, k.windowEnd, SPAN_2M)), PagePaths(KernelPages(k));
    WindowNeeds(s, root, k);
    var leak := WindowWorks(s, root, k);
    var (s1, r) := MapIdentity2mRange(s, root, PHYS_WINDOW_START, k.windowEnd, FlagsOf(true));
    if r.Ok? {
      NeedsBounds(s, s1, root, {}, window);
      ScreenAndReplayNeeds(s1, root, k, {} + window);
      NeedsTwice(s, s1, MapShared(s, root, k).0, root, ErrorOf(MapShared(s, root, k).1), {}, window, pages);
    } else {
      NeedsStop(s, s1, root, r.error, {}, window, pages);
    }
  }

  lemma WindowNeeds(s: Space, root: nat, k: Kernel)
    requires FreshTree(s, root) && SoundLayout(k) && |s.owned| <= MAX_OWNED_PAGES && TreeIs(s.frames, root, {})
    ensures var (s', r) := MapIdentity2mRange(s, root, PHYS_WINDOW_START, k.windowEnd, FlagsOf(true));
            Needs(s, s', root, ErrorOf(r), {}, DirectoryPaths(Steps(PHYS_WINDOW_START, k.windowEnd, SPAN_2M)))
  {
    hide Walk, Sound, HugeAt, TableAt, ClearOfWindow, MapHuges, TreeIs, Needs, DirectoryPaths, Steps, TablesOwned;
    assert NoHugeIn(s.frames, root, PHYS_WINDOW_START, k.windowEnd, 2);
    assert NoPageTableIn(s.frames, root, PHYS_WINDOW_START, k.windowEnd);
    assert AlignDown(PHYS_WINDOW_START, SPAN_2M) == PHYS_WINDOW_START && AlignUp(k.windowEnd, SPAN_2M) == k.windowEnd;
    FlagsAreSmall(true);
    MapHugesNeeds(s, root, PHYS_WINDOW_START, k.windowEnd, FlagsOf(true), {});
  }

  lemma ScreenAndReplayNeeds(s: Space, root: nat, k: Kernel, t: set<Place>)
    requires Good(s, root) && KernelOnly(s, root, k) && SoundLayout(k)
    requires s.tracked && |s.owned| <= MAX_OWNED_PAGES && TreeIs(s.frames, root, t)
    ensures var (s1, screen) :=
              if MapsFramebuffer(k) then MapIdentity4kRange(s, root, k.framebufferStart, k.framebufferEnd,
                  FlagsOf(true)) else (s, Ok(()));
            var (s', r) := if screen.Err? then (s1, screen) else Replay(s1, root, k.mappings);
            Needs(s, s', root, ErrorOf(r), t, PagePaths(KernelPages(k)))
  {
    hide Walk, Sound, HugeAt, ClearOfWindow, KernelOnly, MapIdentity4kRange, Replay, TreeIs, Needs, PagePaths,
         RangePages, MappedPages, Contained,
         Conserved, KeepsMapped;
    var screenPages := if MapsFramebuffer(k) then RangePages(k.framebufferStart, k.framebufferEnd) else {};
    var first, rest := PagePaths(screenPages), PagePaths(MappedPages(k.mappings));
    PathsOfUnion(screenPages, MappedPages(k.mappings));
    PathsOfFirst(0, {});
    var s1: Space, failed: Option<MemoryError> := s, None;
    if MapsFramebuffer(k) {
      RangeNeeds(s, root, k, k.framebufferStart, k.framebufferEnd, true, t);
      var leak := ShareRange(s, root, k, k.framebufferStart, k.framebufferEnd, true);
      var (s2, r) := MapIdentity4kRange(s, root, k.framebufferStart, k.framebufferEnd, FlagsOf(true));
      s1, failed := s2, ErrorOf(r);
    } else {
      NeedsNothing(s, root, t);
    }
    if failed.None? {
      NeedsBounds(s, s1, root, t, first);
      ReplayNeeds(s1, root, k, k.mappings, t + first);
      var (s3, r3) := Replay(s1, root, k.mappings);
      NeedsTwice(s, s1, s3, root, ErrorOf(r3), t, first, rest);
    } else {
      NeedsStop(s, s1, root, failed.value, t, first, rest);
    }
  }

  // ---------------------------------------------------------------------------
  // The user image.

  /** What a step that records `pages`, none of them recorded yet, takes: the pages and the tables
      for them that are not there yet. */
  ghost function Cost(t: set<Place>, pages: set<nat>): nat {
    |PagePaths(pages) - t| + |pages|
  }

  /** The error says what there is too little of. */
  ghost predicate Blames(b: Build, e: LoadError, t: set<Place>, pages: set<nat>) {
    match e
    case NoMemory(m) => Short(b.space, m, Cost(t, pages))
    case SegmentOverlapCapacityExceeded => |b.pages| + |pages| > MAX_SEGMENT_PAGES
    case _ => false
  }

  function FaultOf<T>(r: Result<T, LoadError>): Option<LoadError> {
    if r.Err? then Some(r.error) else None
  }

  /** There are enough pages, and enough records, and then the pages are recorded and mapped; or the
      step fails and says why. */
  ghost predicate Fills(b: Build, b': Build, root: nat, e: Option<LoadError>, t: set<Place>, pages: set<nat>) {
    if e.None? then
      && Has(b.space, Cost(t, pages)) && |b.pages| + |pages| <= MAX_SEGMENT_PAGES
      && Used(b.space, b'.space, Cost(t, pages)) && |b'.pages| == |b.pages| + |pages|
      && TreeIs(b'.space.frames, root, t + PagePaths(pages))
    else Blames(b, e.value, t, pages)
  }

  lemma FillsError(b: Build, b': Build, root: nat, e: LoadError, t: set<Place>, pages: set<nat>)
    ensures Fills(b, b', root, Some(e), t, pages) <==> Blames(b, e, t, pages)
  {
  }

  ghost predicate Bounded(b: Build, root: nat, t: set<Place>) {
    |b.space.owned| <= MAX_OWNED_PAGES && |b.pages| <= MAX_SEGMENT_PAGES && TreeIs(b.space.frames, root, t)
  }

  lemma FillsBounds(b: Build, b': Build, root: nat, t: set<Place>, pages: set<nat>)
    requires Fills(b, b', root, None, t, pages)
    ensures Bounded(b', root, t + PagePaths(pages))
  {
    hide TreeIs, PagePaths;
  }

  lemma FillsTwice(b: Build, b': Build, b'': Build, root: nat, e: Option<LoadError>, t: set<Place>, first: set<nat>,
                   rest: set<nat>)
    requires Fills(b, b', root, None, t, first) && Fills(b', b'', root, e, t + PagePaths(first), rest) && first !! rest
    ensures Fills(b, b'', root, e, t, first + rest)
  {
    hide TreeIs, PagePaths;
    PathsOfUnion(first, rest);
    TwoSteps(t, PagePaths(first), PagePaths(rest));
  }

  lemma BlamesMore(b: Build, e: LoadError, t: set<Place>, first: set<nat>, rest: set<nat>)
    requires Blames(b, e, t, first) && first !! rest
    ensures Blames(b, e, t, first + rest)
  {
    hide TreeIs, PagePaths;
    PathsOfUnion(first, rest);
    TwoSteps(t, PagePaths(first), PagePaths(rest));
  }

  lemma FillsNothing(b: Build, root: nat, t: set<Place>)
    requires Bounded(b, root, t)
    ensures Fills(b, b, root, None, t, {})
  {
    hide TreeIs;
    assert PagePaths({}) == {} by { PathsOfFirst(0, {}); }
    hide PagePaths;
    assert {} - t == {} && t + {} == t;
  }

  lemma MapFreshFills(b: Build, root: nat, rights: map<nat, bool>, base: map<nat, Bytes>, virt: nat, writable: bool,
                      t: set<Place>)
    requires Image(b, root, rights, base) && FindPage(b.pages, virt).None? && Bounded(b, root, t)
    requires virt % PAGE_SIZE == 0 && USER_IMAGE_BASE <= virt < USER_STACK_TOP
    ensures var (b', r) := MapFresh(b, root, virt, writable); Fills(b, b', root, FaultOf(r), t, {virt})
  {
    hide Image, Peek, Walk, Sound, Frame, IsTable, HugeAt, Map4k, Allocated, TreeIs, PagePath, PagePaths, FindPage;
    OnePath(virt);
    if b.space.free != {} {
      var phys, s1 := Lowest(b.space.free), Allocated(b.space);
      TakenForPage(b, root, rights, base, virt, t);
      UserFlagsParts(writable);
      Map4kNeeds(s1, root, virt, phys, UserFlags(writable), t);
      FillsAfterMapping(b, s1, root, virt, writable, t);
    }
  }

  /** The three checks after the mapping, in their order. */
  lemma FillsAfterMapping(b: Build, s1: Space, root: nat, virt: nat, writable: bool, t: set<Place>)
    requires b.space.free != {} && s1 == Allocated(b.space) && s1.owned == b.space.owned
    requires |s1.free| + 1 == |b.space.free|
    requires var (s2, r) := Map4k(s1, root, virt, Lowest(b.space.free), UserFlags(writable));
             Needs(s1, s2, root, ErrorOf(r), t, PagePaths({virt}))
    ensures var (b', r) := MapFresh(b, root, virt, writable); Fills(b, b', root, FaultOf(r), t, {virt})
  {
    hide Map4k, Allocated, TreeIs, PagePaths;
    var (s2, r) := Map4k(s1, root, virt, Lowest(b.space.free), UserFlags(writable));
    assert |{virt}| == 1;
    assert s1.tracked == b.space.tracked by { AllocatedTracks(b.space); }
  }

  lemma AllocatedTracks(s: Space)
    requires s.free != {}
    ensures Allocated(s).tracked == s.tracked
  {
  }

  lemma OnePath(virt: nat)
    ensures PagePaths({virt}) == PagePath(virt) && |{virt}| == 1
  {
    hide PagePath;
  }

  lemma TakenForPage(b: Build, root: nat, rights: map<nat, bool>, base: map<nat, Bytes>, virt: nat, t: set<Place>)
    requires Image(b, root, rights, base) && b.space.free != {} && virt < USER_STACK_TOP
    requires TreeIs(b.space.frames, root, t)
    ensures var s1 := Allocated(b.space);
            && Good(s1, root) && NoHugeOnPath(s1.frames, root, virt, 3) && s1.tracked && TreeIs(s1.frames, root, t)
            && IsFrame(Lowest(b.space.free)) && s1.owned == b.space.owned && |s1.free| + 1 == |b.space.free|
  {
    hide Walk, Sound, Frame, IsTable, HugeAt, TreeIs, NoHugeOnPath;
    UserPathHasNoHuge(b, root, rights, base, virt);
    TrackedImage(b, root, rights, base);
    hide Image;
    TakeStep(b.space, root);
    NoHugeAfterTake(b.space, Allocated(b.space), root, virt);
    SameTreeSamePlaces(b.space.frames, Allocated(b.space).frames, root, t);
    assert b.space.free == (b.space.free - {Lowest(b.space.free)}) + {Lowest(b.space.free)};
  }

  /** The pages of a range that are not recorded yet. */
  function NewPages(pages: seq<UserPage>, virt: nat, end: nat): set<nat> {
    set x | x in Steps(virt, end, PAGE_SIZE) && FindPage(pages, x).None?
  }

  lemma FirstNewPage(pages: seq<UserPage>, virt: nat, end: nat)
    requires virt % PAGE_SIZE == 0 && virt < end
    ensures NewPages(pages, virt, end) ==
            (if FindPage(pages, virt).None? then {virt} else {}) + NewPages(pages, virt + PAGE_SIZE, end)
    ensures virt !in NewPages(pages, virt + PAGE_SIZE, end)
  {
    hide FindPage;
    FirstStep(virt, end, PAGE_SIZE);
  }

  lemma NewPagesAfter(b: Build, b': Build, virt: nat, end: nat)
    requires AddsZeroPage(b, b', virt)
    ensures NewPages(b'.pages, virt + PAGE_SIZE, end) == NewPages(b.pages, virt + PAGE_SIZE, end)
  {
    hide FindPage, Peek;
  }

  lemma {:induction false} MapPagesFromFills(b: Build, root: nat, rights: map<nat, bool>, base: map<nat, Bytes>,
                                             virt: nat, end: nat, writable: bool, t: set<Place>)
    requires Image(b, root, rights, base) && virt % PAGE_SIZE == 0 && end % PAGE_SIZE == 0 && Bounded(b, root, t)
    requires USER_IMAGE_BASE <= virt && end <= USER_STACK_TOP
    ensures var (b', r) := MapPagesFrom(b, root, virt, end, writable);
              Fills(b, b', root, FaultOf(r), t, NewPages(b.pages, virt, end))
    decreases end - virt
  {
    hide Image, Keeps, FindPage, AddsZeroPage, MapFresh, Fills, Bounded, NewPages, PagePaths;
    if virt >= end {
      assert NewPages(b.pages, virt, end) == {} by { NoNewPages(b.pages, virt, end); }
      FillsNothing(b, root, t);
    } else {
      FirstNewPage(b.pages, virt, end);
      var rest := NewPages(b.pages, virt + PAGE_SIZE, end);
      if FindPage(b.pages, virt).Some? {
        assert {} + rest == rest;
        MapPagesFromFills(b, root, rights, base, virt + PAGE_SIZE, end, writable, t);
      } else {
        MapFreshFills(b, root, rights, base, virt, writable, t);
        var leak := MapFreshWorks(b, root, rights, base, virt, writable);
        var (b1, r1) := MapFresh(b, root, virt, writable);
        if r1.Ok? {
          FillsBounds(b, b1, root, t, {virt});
          NewPagesAfter(b, b1, virt, end);
          MapPagesFromFills(b1, root, rights[virt := writable], base, virt + PAGE_SIZE, end, writable,
              t + PagePaths({virt}));
          var (b2, r2) := MapPagesFrom(b1, root, virt + PAGE_SIZE, end, writable);
          FillsTwice(b, b1, b2, root, FaultOf(r2), t, {virt}, rest);
        } else {
          FillsError(b, b1, root, r1.error, t, {virt});
          BlamesMore(b, r1.error, t, {virt}, rest);
          FillsError(b, b1, root, r1.error, t, {virt} + rest);
        }
      }
    }
  }

  lemma NoNewPages(pages: seq<UserPage>, virt: nat, end: nat)
    requires virt >= end
    ensures NewPages(pages, virt, end) == {}
  {
  }

  // ---------------------------------------------------------------------------
  // The segments.

  /** The pages that segments cover. */
  function CoveredPages(segments: seq<ProgramHeader>): set<nat> {
    set x | 0 <= x < USER_STACK_TOP && FirstRight(segments, x).Some?
  }

  /** A segment within the user image range, with its file part in the file. */
  predicate Acceptable(file: Bytes, h: ProgramHeader) {
    !OutOfBounds(h) && h.FileRange(|file|).Ok?
  }

  /** The error is the segment's own. */
  predicate IsFault(file: Bytes, h: ProgramHeader, e: LoadError) {
    || (e == UserImageOutOfRange && OutOfBounds(h))
    || (e.BadElf? && h.FileRange(|file|) == Err(e.fault))
  }

  /** The error is that of some header or segment. */
  predicate IsFileFault(file: Bytes, headers: seq<Result<ProgramHeader, ElfError>>, e: LoadError) {
    || (e.BadElf? && exists i :: 0 <= i < |headers| && headers[i] == Err(e.fault))
    || (exists i :: 0 <= i < |Loadable(headers)| && IsFault(file, Loadable(headers)[i], e))
  }

  predicate AllAcceptable(file: Bytes, headers: seq<Result<ProgramHeader, ElfError>>) {
    && (forall i :: 0 <= i < |headers| ==> headers[i].Ok?)
    && (forall i :: 0 <= i < |Loadable(headers)| ==> Acceptable(file, Loadable(headers)[i]))
  }

  lemma MoreCovered(b: Build, rights: map<nat, bool>, file: Bytes, segments: seq<ProgramHeader>, h: ProgramHeader)
    requires Filled(b, rights, file, segments) && USER_IMAGE_BASE <= h.virtualAddress
    requires PageEnd(h) <= USER_STACK_TOP
    ensures CoveredPages(segments + [h]) == CoveredPages(segments) + NewPages(b.pages, PageStart(h), PageEnd(h))
    ensures CoveredPages(segments) !! NewPages(b.pages, PageStart(h), PageEnd(h))
  {
    hide FindPage, Peek, FirstRight, Content, PageStart, PageEnd, Right;
    forall x: nat
      ensures x in CoveredPages(segments + [h]) <==>
                x in CoveredPages(segments) || x in NewPages(b.pages, PageStart(h), PageEnd(h))
      ensures x in CoveredPages(segments) ==> x !in NewPages(b.pages, PageStart(h), PageEnd(h))
    {
      PushRight(segments, h, x);
    }
  }

  lemma LoadSegmentFills(b: Build, root: nat, rights: map<nat, bool>, base: map<nat, Bytes>, file: Bytes,
                         segments: seq<ProgramHeader>, h: ProgramHeader, t: set<Place>)
    requires Image(b, root, rights, base) && Filled(b, rights, file, segments) && SoundSegments(segments)
    requires Bounded(b, root, t)
    ensures var (b', r) := LoadSegment(b, root, file, h);
            var pages := CoveredPages(segments + [h]) - CoveredPages(segments);
            && (r.Ok? ==> Acceptable(file, h) && Fills(b, b', root, None, t, pages))
            && (r.Err? ==> IsFault(file, h, r.error) || Blames(b, r.error, t, pages))
  {
    hide Image, Filled, Keeps, AddsPages, PageStart, PageEnd, MapPagesFrom, ProgramHeader.IsWritable, Fills, Bounded,
         NewPages, CoveredPages, CopyPages;
    if !OutOfBounds(h) {
      SegmentBounds(h);
      MapPagesFromFills(b, root, rights, base, PageStart(h), PageEnd(h), h.IsWritable(), t);
      MoreCovered(b, rights, file, segments, h);
      var added := NewPages(b.pages, PageStart(h), PageEnd(h));
      assert CoveredPages(segments + [h]) - CoveredPages(segments) == added;
      var rights', leak := MapPagesFromWorks(b, root, rights, base, PageStart(h), PageEnd(h), h.IsWritable());
      var (b1, r) := MapPagesFrom(b, root, PageStart(h), PageEnd(h), h.IsWritable());
      if r.Err? {
        FillsError(b, b1, root, r.error, t, added);
      } else {
        assert SoundSegments([h]);
        SegmentFilled(b, b1, root, rights, rights', base, file, segments, h);
        if Acceptable(file, h) {
          var part := file[h.FileRange(|file|).value.0..h.FileRange(|file|).value.1];
          CopyKeepsTree(b1, root, rights', base, h.virtualAddress, part, t + PagePaths(added));
          FillsAfterCopy(b, b1, FillSegment(b1, file, h).0, root, t, added);
        }
      }
    }
  }

  lemma FillsAfterCopy(b: Build, b1: Build, b2: Build, root: nat, t: set<Place>, pages: set<nat>)
    requires Fills(b, b1, root, None, t, pages) && b2 == b1.(space := b1.space.(frames := b2.space.frames))
    requires TreeIs(b1.space.frames, root, t + PagePaths(pages)) ==> TreeIs(b2.space.frames, root, t + PagePaths(pages))
    ensures Fills(b, b2, root, None, t, pages)
  {
    hide TreeIs, PagePaths;
  }

  /** A copy writes recorded frames, which are no tables. */
  lemma CopyKeepsTree(b: Build, root: nat, rights: map<nat, bool>, base: map<nat, Bytes>, address: nat, bytes: Bytes,
                      t: set<Place>)
    requires Image(b, root, rights, base)
    ensures TreeIs(b.space.frames, root, t) ==> TreeIs(CopyPages(b.space.frames, b.pages, address, bytes).0, root, t)
  {
    hide CopyPages, Frame, IsTable, TreeIs;
    var frames' := CopyPages(b.space.frames, b.pages, address, bytes).0;
    forall f: nat | forall i :: 0 <= i < |b.pages| ==> b.pages[i].phys != f
      ensures Frame(frames', f) == Frame(b.space.frames, f)
    {
      CopyStaysInside(b.space.frames, b.pages, address, bytes, f);
    }
    assert FramesAside(b, root) by { ImageFrames(b, root, rights, base); }
    TablesUntouched(b, frames', root);
    TreesAgree(b.space.frames, frames', root);
    if TreeIs(b.space.frames, root, t) { SameTreeSamePlaces(b.space.frames, frames', root, t); }
  }

  lemma ImageFrames(b: Build, root: nat, rights: map<nat, bool>, base: map<nat, Bytes>)
    requires Image(b, root, rights, base)
    ensures FramesAside(b, root)
  {
    hide Good, Apart, FramesAside, TablesOwned, Leads, HugeAt;
  }

  lemma {:induction false} FirstRightGrows(segments: seq<ProgramHeader>, more: seq<ProgramHeader>, x: nat)
    ensures FirstRight(segments, x).Some? ==> FirstRight(segments + more, x).Some?
    decreases |more|
  {
    hide Covers;
    if more == [] {
      assert segments + more == segments;
    } else {
      var n := |more| - 1;
      FirstRightGrows(segments, more[..n], x);
      assert segments + more == (segments + more[..n]) + [more[n]];
      PushRight(segments + more[..n], more[n], x);
    }
  }

  lemma CoveredGrows(segments: seq<ProgramHeader>, more: seq<ProgramHeader>)
    ensures CoveredPages(segments) <= CoveredPages(segments + more)
  {
    hide FirstRight;
    forall x | x in CoveredPages(segments) ensures x in CoveredPages(segments + more) {
      FirstRightGrows(segments, more, x);
    }
  }

  /** The pages of the remaining headers. */
  function PagesToCome(segments: seq<ProgramHeader>, headers: seq<Result<ProgramHeader, ElfError>>): set<nat> {
    CoveredPages(segments + Loadable(headers)) - CoveredPages(segments)
  }

  lemma {:induction false} LoadSegmentsFills(b: Build, root: nat, rights: map<nat, bool>, base: map<nat, Bytes>,
                                             file: Bytes,
                                             segments: seq<ProgramHeader>, headers: seq<Result<ProgramHeader,
                                                 ElfError>>, t: set<Place>)
    requires Image(b, root, rights, base) && Filled(b, rights, file, segments) && SoundSegments(segments)
    requires Bounded(b, root, t)
    ensures var (b', r) := LoadSegments(b, root, file, headers);
            && (r.Ok? ==> AllAcceptable(file, headers) && Fills(b, b', root, None, t, PagesToCome(segments, headers)))
            && (r.Err? ==> IsFileFault(file, headers, r.error) || Blames(b, r.error, t, PagesToCome(segments, headers)))
    decreases |headers|
  {
    hide Image, Filled, SoundSegments, LoadSegment, Fills, Blames, Bounded, CoveredPages, Acceptable, IsFault,
         PagePaths;
    if headers == [] {
      assert segments + Loadable(headers) == segments && PagesToCome(segments, headers) == {};
      FillsNothing(b, root, t);
    } else if headers[0].Ok? {
      var rest := headers[1..];
      RestAcceptable(file, headers);
      if headers[0].value.kind != PT_LOAD {
        LoadSegmentsFills(b, root, rights, base, file, segments, rest, t);
        RestFault(file, headers, LoadSegments(b, root, file, rest).1);
      } else {
        var h := headers[0].value;
        LoadSegmentFills(b, root, rights, base, file, segments, h, t);
        var rights', leak := LoadSegmentWorks(b, root, rights, base, file, segments, h);
        var (b1, r) := LoadSegment(b, root, file, h);
        assert segments + Loadable(headers) == (segments + [h]) + Loadable(rest);
        var first := CoveredPages(segments + [h]) - CoveredPages(segments);
        PagesInTwo(segments, h, rest);
        if r.Ok? {
          assert Progress(b, b1, root, rights', base, file, segments + [h], true, leak);
          FillsBounds(b, b1, root, t, first);
          LoadSegmentsFills(b1, root, rights', base, file, segments + [h], rest, t + PagePaths(first));
          var (b2, r2) := LoadSegments(b1, root, file, rest);
          RestFault(file, headers, r2);
          FillsInTwo(b, b1, b2, root, FaultOf(r2), t, first, PagesToCome(segments + [h], rest));
        } else {
          FirstFault(file, headers, r.error);
          if Blames(b, r.error, t, first) { BlamesMore(b, r.error, t, first, PagesToCome(segments + [h], rest)); }
        }
      }
    } else {
      assert headers[0] == Err(headers[0].error);
    }
  }

  lemma FillsInTwo(b: Build, b1: Build, b2: Build, root: nat, e: Option<LoadError>, t: set<Place>, first: set<nat>,
                   rest: set<nat>)
    requires Fills(b, b1, root, None, t, first) && first !! rest
    ensures Fills(b1, b2, root, e, t + PagePaths(first), rest) ==> Fills(b, b2, root, e, t, first + rest)
    ensures e.Some? && Blames(b1, e.value, t + PagePaths(first), rest) ==> Blames(b, e.value, t, first + rest)
  {
    hide Blames, TreeIs, PagePaths;
    if Fills(b1, b2, root, e, t + PagePaths(first), rest) {
      FillsTwice(b, b1, b2, root, e, t, first, rest);
    }
  }

  lemma RestFault(file: Bytes, headers: seq<Result<ProgramHeader, ElfError>>, r: Result<(), LoadError>)
    requires headers != [] && headers[0].Ok?
    ensures r.Err? && IsFileFault(file, headers[1..], r.error) ==> IsFileFault(file, headers, r.error)
  {
    hide IsFault;
    if r.Err? && IsFileFault(file, headers[1..], r.error) {
      var rest := headers[1..];
      assert Loadable(headers) == if headers[0].value.kind == PT_LOAD then [headers[0].value] + Loadable(rest)
               else Loadable(rest);
      if i :| 0 <= i < |Loadable(rest)| && IsFault(file, Loadable(rest)[i], r.error) {
        assert Loadable(headers)[if headers[0].value.kind == PT_LOAD then i + 1 else i] == Loadable(rest)[i];
      } else {
        var i :| 0 <= i < |rest| && rest[i] == Err(r.error.fault);
        assert headers[i + 1] == rest[i];
      }
    }
  }

  lemma FirstFault(file: Bytes, headers: seq<Result<ProgramHeader, ElfError>>, e: LoadError)
    requires headers != [] && headers[0].Ok? && headers[0].value.kind == PT_LOAD
    ensures IsFault(file, headers[0].value, e) ==> IsFileFault(file, headers, e)
  {
    hide IsFault;
    assert Loadable(headers)[0] == headers[0].value;
  }

  lemma RestAcceptable(file: Bytes, headers: seq<Result<ProgramHeader, ElfError>>)
    requires headers != [] && headers[0].Ok?
    ensures AllAcceptable(file, headers) <==>
              AllAcceptable(file, headers[1..]) &&
                  (headers[0].value.kind == PT_LOAD ==> Acceptable(file, headers[0].value))
  {
    hide Acceptable;
    var rest, h := headers[1..], headers[0].value;
    assert Loadable(headers) == if h.kind == PT_LOAD then [h] + Loadable(rest) else Loadable(rest);
    hide Loadable;
    forall i | 0 <= i < |rest| ensures headers[i + 1] == rest[i] {
    }
    if AllAcceptable(file, headers) {
      RestIsAcceptable(file, headers);
    } else if AllAcceptable(file, rest) && (h.kind == PT_LOAD ==> Acceptable(file, h)) {
      forall i | 0 <= i < |headers| ensures headers[i].Ok? {
        if i > 0 { assert headers[i] == rest[i - 1]; }
      }
      forall i | 0 <= i < |Loadable(headers)| ensures Acceptable(file, Loadable(headers)[i]) {
        if h.kind == PT_LOAD && i > 0 { assert Loadable(headers)[i] == Loadable(rest)[i - 1]; }
      }
    }
  }

  lemma RestIsAcceptable(file: Bytes, headers: seq<Result<ProgramHeader, ElfError>>)
    requires headers != [] && AllAcceptable(file, headers)
    ensures AllAcceptable(file, headers[1..])
    ensures headers[0].value.kind == PT_LOAD ==> Acceptable(file, headers[0].value)
  {
    hide Acceptable;
    var rest, h := headers[1..], headers[0].value;
    assert Loadable(headers) == if h.kind == PT_LOAD then [h] + Loadable(rest) else Loadable(rest);
    hide Loadable;
    forall i | 0 <= i < |Loadable(rest)| ensures Acceptable(file, Loadable(rest)[i]) {
      if h.kind == PT_LOAD { assert Loadable(headers)[i + 1] == Loadable(rest)[i]; }
    }
    assert h.kind == PT_LOAD ==> Loadable(headers)[0] == h;
  }

  lemma PagesInTwo(segments: seq<ProgramHeader>, h: ProgramHeader, rest: seq<Result<ProgramHeader, ElfError>>)
    ensures var first := CoveredPages(segments + [h]) - CoveredPages(segments);
            && first !! PagesToCome(segments + [h], rest)
            && CoveredPages((segments + [h]) + Loadable(rest)) - CoveredPages(segments) == first +
                 PagesToCome(segments + [h], rest)
  {
    hide CoveredPages;
    CoveredGrows(segments, [h]);
    CoveredGrows(segments + [h], Loadable(rest));
  }

  // ---------------------------------------------------------------------------
  // The whole load.

  /** The arguments are accepted and have a layout on the stack. */
  predicate ArgumentsFit(q: Request, utf8: Utf8) {
    var args := StartupArgs(q.argv0, q.tail, utf8);
    args.Ok? && PrepareLayout(args.value).Ok?
  }

  lemma {:induction false} SplitErrors(tail: Bytes, cursor: nat, args: seq<Bytes>, utf8: Utf8)
    requires cursor <= |tail|
    ensures var r := SplitTail(tail, cursor, args, utf8);
            r.Err? ==> r.error == InvalidStartupArguments || r.error == LoadError.StartupArgumentsTooLarge
    decreases |tail| - cursor
  {
    if cursor < |tail| {
      var end := FirstNul(tail, cursor);
      if end < |tail| { SplitErrors(tail, end + 1, args + [tail[cursor..end]], utf8); }
    }
  }

  lemma ArgumentErrors(q: Request, utf8: Utf8)
    ensures var args := StartupArgs(q.argv0, q.tail, utf8);
            && (args.Err? ==> IsArgumentFault(q, utf8, args.error))
            && (args.Ok? && PrepareLayout(args.value).Err? ==>
                 IsArgumentFault(q, utf8, PrepareLayout(args.value).error))
  {
    hide SplitTail;
    SplitErrors(q.tail, 0, [q.argv0], utf8);
  }

  predicate IsArgumentFault(q: Request, utf8: Utf8, e: LoadError) {
    !ArgumentsFit(q, utf8) && (e == InvalidStartupArguments || e == LoadError.StartupArgumentsTooLarge)
  }

  lemma FinishFills(b: Build, root: nat, rights: map<nat, bool>, base: map<nat, Bytes>, q: Request, utf8: Utf8,
                    segments: seq<ProgramHeader>, t: set<Place>)
    requires Image(b, root, rights, base) && Filled(b, rights, q.file, segments) && SoundSegments(segments)
    requires Bounded(b, root, t)
    ensures var (b', r) := FinishProgram(b, root, q, utf8);
            var pages := CoveredPages(segments + [STACK]) - CoveredPages(segments);
            && (r.Ok? ==>
                 ArgumentsFit(q, utf8) && Has(b.space, Cost(t, pages)) && |b.pages| + |pages| <= MAX_SEGMENT_PAGES)
            && (r.Err? ==> IsArgumentFault(q, utf8, r.error) || Blames(b, r.error, t, pages))
  {
    hide Image, Filled, Keeps, MapPagesFrom, StartupArgs, PrepareLayout, WriteBlock, BlockWritten, SoundSegments,
         FindPage, TreeIs, PagePaths,
         CoveredPages, NewPages, Bounded;
    StackPages();
    var rights', leak := StackWorks(b, root, rights, base, q.file, segments);
    MoreCovered(b, rights, q.file, segments, STACK);
    assert CoveredPages(segments + [STACK]) - CoveredPages(segments) ==
             NewPages(b.pages, USER_STACK_BASE, USER_STACK_TOP);
    MapPagesFromFills(b, root, rights, base, USER_STACK_BASE, USER_STACK_TOP, true, t);
    var (b1, r) := MapPagesFrom(b, root, USER_STACK_BASE, USER_STACK_TOP, true);
    var args := StartupArgs(q.argv0, q.tail, utf8);
    ArgumentErrors(q, utf8);
    if r.Ok? && ArgumentsFit(q, utf8) {
      LayoutNamesArgs(args.value);
      StackIsPresent(b1, rights', q.file, segments);
      WriteBlockWorks(b1, root, rights', base, PrepareLayout(args.value).value);
    }
  }

  /** The pages user code gets: those that a segment covers, and the stack. */
  function UserPages(segments: seq<ProgramHeader>): set<nat> {
    CoveredPages(segments + [STACK])
  }

  /** All pages of the address space: the root, the tables for everything mapped, the user pages. */
  ghost function PagesNeeded(k: Kernel, segments: seq<ProgramHeader>): nat {
    1 + |SharedPlaces(k) + PagePaths(UserPages(segments))| + |UserPages(segments)|
  }

  /** What a caller can check before the load. */
  ghost predicate LoadFits(pages: nat, k: Kernel, h: ElfHeader, q: Request, utf8: Utf8)
    requires TableFits(q.file, h)
  {
    var segments := SegmentsOf(q.file, h);
    && AllAcceptable(q.file, HeaderList(q.file, h, 0)) && ArgumentsFit(q, utf8)
    && |UserPages(segments)| <= MAX_SEGMENT_PAGES
    && PagesNeeded(k, segments) <= MAX_OWNED_PAGES && PagesNeeded(k, segments) <= pages
  }

  lemma ZeroRootTree(s: Space, root: nat)
    requires Frame(s.frames, root) == ZeroPage()
    ensures TreeIs(s.frames, root, {})
  {
    hide ZeroPage, GetWord;
    forall i: nat | i < WORDS_PER_PAGE ensures Entry(s.frames, root, i) == 0 {
      ZeroPageWords(i);
    }
    hide Entry, TableAt;
    forall d: nat, p: nat | 1 <= d <= 3 ensures TableAt(s.frames, root, d, p).None? {
      OnlyRoot(s, root, d, p);
    }
  }

  lemma SharedImage(s: Space, root: nat, k: Kernel, q: Request)
    requires FreshTree(s, root) && SoundLayout(k) && MapShared(s, root, k).1.Ok?
    ensures var b := Build(MapShared(s, root, k).0, []);
            && Image(b, root, map[], b.space.frames) && Filled(b, map[], q.file, []) && SoundSegments([])
  {
    hide Sound, Walk, HugeAt, TableAt, Keeps, KernelOnly, MapShared, Image, Filled, SoundSegments, SoundLayout;
    var shared := MapSharedWorks(s, root, k);
    var s1 := MapShared(s, root, k).0;
    var _ := SharedKeeps(s, s1, root, k, true, shared);
    StartsAsImage(s1, root, k, q.file);
  }

  /** The error says which of the conditions fails. */
  ghost predicate IsLoadFault(pages: nat, k: Kernel, h: ElfHeader, q: Request, utf8: Utf8, e: LoadError)
    requires TableFits(q.file, h)
  {
    var segments := SegmentsOf(q.file, h);
    match e
    case NoMemory(AllocatorExhausted) => pages < PagesNeeded(k, segments)
    case NoMemory(OwnedPageCapacityExceeded) => MAX_OWNED_PAGES < PagesNeeded(k, segments)
    case SegmentOverlapCapacityExceeded => |UserPages(segments)| > MAX_SEGMENT_PAGES
    case BadElf(_) => IsFileFault(q.file, HeaderList(q.file, h, 0), e)
    case UserImageOutOfRange => IsFileFault(q.file, HeaderList(q.file, h, 0), e)
    case InvalidStartupArguments => IsArgumentFault(q, utf8, e)
    case StartupArgumentsTooLarge => IsArgumentFault(q, utf8, e)
  }

  lemma FaultMeansNoFit(pages: nat, k: Kernel, h: ElfHeader, q: Request, utf8: Utf8, e: LoadError)
    requires TableFits(q.file, h) && IsLoadFault(pages, k, h, q, utf8, e)
    ensures !LoadFits(pages, k, h, q, utf8)
  {
    hide TableFits, SharedPlaces, UserPages, PagesNeeded, HeaderList, Loadable, ArgumentsFit, AllAcceptable,
         IsFileFault;
    FileFaultIsRefused(q.file, HeaderList(q.file, h, 0), e);
  }

  lemma FileFaultIsRefused(file: Bytes, headers: seq<Result<ProgramHeader, ElfError>>, e: LoadError)
    ensures IsFileFault(file, headers, e) ==> !AllAcceptable(file, headers)
  {
    hide Loadable, OutOfBounds;
    if i :| 0 <= i < |Loadable(headers)| && IsFault(file, Loadable(headers)[i], e) {
      assert !Acceptable(file, Loadable(headers)[i]);
    }
  }

  /** A load from the free pages `free` completes if and only if it fits, and otherwise its error names
      a condition that fails. */
  lemma WholeLoadFits(frames: map<nat, Bytes>, free: set<nat>, k: Kernel, h: ElfHeader, q: Request, utf8: Utf8)
    requires SoundLayout(k) && TableFits(q.file, h) && forall p :: p in free ==> IsFrame(p)
    ensures var r := WholeLoad(frames, free, k, h, q, utf8).1;
            && (r.Ok? <==> LoadFits(|free|, k, h, q, utf8))
            && (r.Err? ==> IsLoadFault(|free|, k, h, q, utf8, r.error))
  {
    hide SoundLayout, TableFits, FreshTree, BuildProgram, RootTaken, AllAcceptable, ArgumentsFit, UserPages,
         PagesNeeded, SegmentsOf, TreeIs,
         LoadFits, IsFileFault, IsArgumentFault;
    var r := WholeLoad(frames, free, k, h, q, utf8).1;
    if free == {} {
      NeedsOne(k, SegmentsOf(q.file, h));
    } else {
      var s, root := RootTaken(frames, free), Lowest(free);
      RootTakenParts(frames, free);
      RootIsZero(frames, free);
      TakenRoot(s, free, root);
      ZeroRootTree(s, root);
      assert |free| == |s.free| + 1 by { assert free == s.free + {root}; }
      hide IsLoadFault;
      BuildFits(s, root, k, h, q, utf8);
    }
    if r.Err? { FaultMeansNoFit(|free|, k, h, q, utf8, r.error); }
  }

  /** A file loads if and only if its header is accepted and what it asks for is there. */
  lemma AttemptFits(frames: map<nat, Bytes>, free: set<nat>, k: Kernel, q: Request, utf8: Utf8)
    requires SoundLayout(k) && forall p :: p in free ==> IsFrame(p)
    ensures var h := ParseHeader(q.file);
            h.Ok? ==> TableFits(q.file, h.value)
    ensures var h := ParseHeader(q.file);
            LoadAndRun.Attempted(frames, free, k, q, utf8).program.Some? <==>
              h.Ok? && ContainsUserAddress(h.value.entry) && LoadFits(|free|, k, h.value, q, utf8)
  {
    hide ParseHeader, TableFits, WholeLoad, LoadFits, SoundLayout, IsFrame;
    ParsedTableFits(q.file);
    var h := ParseHeader(q.file);
    if h.Ok? && ContainsUserAddress(h.value.entry) {
      WholeLoadFits(frames, free, k, h.value, q, utf8);
    }
  }

  lemma NeedsOne(k: Kernel, segments: seq<ProgramHeader>)
    ensures PagesNeeded(k, segments) >= 1
  {
    hide SharedPlaces, UserPages, PagePaths;
  }

  lemma BuildFits(s: Space, root: nat, k: Kernel, h: ElfHeader, q: Request, utf8: Utf8)
    requires FreshTree(s, root) && SoundLayout(k) && TableFits(q.file, h) && s.owned == [root]
    requires TreeIs(s.frames, root, {})
    ensures var r := BuildProgram(s, root, k, h, q, utf8).1;
            && (r.Ok? ==> LoadFits(|s.free| + 1, k, h, q, utf8))
            && (r.Err? ==> IsLoadFault(|s.free| + 1, k, h, q, utf8, r.error))
  {
    hide SoundLayout, TableFits, FreshTree, MapShared, LoadSegments, FinishProgram, AllAcceptable, ArgumentsFit,
         TreeIs, Image, Filled,
         SoundSegments, SharedPlaces, PagePaths, UserPages, CoveredPages, HeaderList, Loadable, IsFileFault,
             IsArgumentFault, Blames, Cost,
         PagesNeeded, IsLoadFault, LoadFits, SegmentsOf, PagesToCome;
    var segments, headers := SegmentsOf(q.file, h), HeaderList(q.file, h, 0);
    var t, image, stack := SharedPlaces(k), CoveredPages(segments),
        CoveredPages(segments + [STACK]) - CoveredPages(segments);
    var pages := |s.free| + 1;
    MapSharedNeeds(s, root, k);
    Sums(k, segments);
    FromNothing(q.file, h, t);
    var (s1, r0) := MapShared(s, root, k);
    if r0.Err? {
      ShortIsFault(pages, k, h, q, utf8, r0.error, s, 0, |t|);
    } else {
      var b := Build(s1, []);
      SharedImage(s, root, k, q);
      LoadSegmentsFills(b, root, map[], s1.frames, q.file, [], headers, t);
      var rights, leak := LoadSegmentsWorks(b, root, map[], s1.frames, q.file, [], headers);
      var (b1, r1) := LoadSegments(b, root, q.file, headers);
      if r1.Err? {
        PhaseFault(pages, k, h, q, utf8, r1.error, b, |t|, t, image);
      } else {
        FinishFills(b1, root, rights, s1.frames, q, utf8, segments, t + PagePaths(image));
        var r2 := FinishProgram(b1, root, q, utf8).1;
        if r2.Err? {
          PhaseFault(pages, k, h, q, utf8, r2.error, b1, |t| + Cost(t, image), t + PagePaths(image), stack);
        } else {
          FitsAtLast(pages, k, h, q, utf8, b1, |t| + Cost(t, image), t + PagePaths(image), stack);
        }
      }
    }
  }

  lemma FromNothing(file: Bytes, h: ElfHeader, t: set<Place>)
    requires TableFits(file, h)
    ensures [] + Loadable(HeaderList(file, h, 0)) == SegmentsOf(file, h)
    ensures PagesToCome([], HeaderList(file, h, 0)) == CoveredPages(SegmentsOf(file, h)) && CoveredPages([]) == {}
    ensures {} + t == t && t - {} == t
  {
    hide TableFits, HeaderList, Loadable;
    NothingCovered();
    hide CoveredPages;
    assert [] + Loadable(HeaderList(file, h, 0)) == SegmentsOf(file, h);
  }

  lemma ShortIsFault(pages: nat, k: Kernel, h: ElfHeader, q: Request, utf8: Utf8, e: MemoryError, s: Space, used: nat,
                     cost: nat)
    requires TableFits(q.file, h) && Short(s, e, cost) && |s.owned| == 1 + used && |s.free| + used + 1 == pages
    requires 1 + used + cost <= PagesNeeded(k, SegmentsOf(q.file, h))
    ensures IsLoadFault(pages, k, h, q, utf8, NoMemory(e))
  {
    hide TableFits, PagesNeeded, SegmentsOf, HeaderList, UserPages;
  }

  /** A phase of the load fails, for want of something or for a fault of the file or the arguments. */
  lemma PhaseFault(pages: nat, k: Kernel, h: ElfHeader, q: Request, utf8: Utf8, e: LoadError, b: Build, used: nat,
                   t: set<Place>, more: set<nat>)
    requires TableFits(q.file, h) && |b.space.owned| == 1 + used && |b.space.free| + used + 1 == pages
    requires 1 + used + Cost(t, more) <= PagesNeeded(k, SegmentsOf(q.file, h))
    requires |b.pages| + |more| <= |UserPages(SegmentsOf(q.file, h))|
    requires Blames(b, e, t, more) || IsFileFault(q.file, HeaderList(q.file, h, 0), e) || IsArgumentFault(q, utf8, e)
    ensures IsLoadFault(pages, k, h, q, utf8, e)
  {
    hide TableFits, PagesNeeded, SegmentsOf, HeaderList, UserPages, Cost, IsFileFault, IsArgumentFault, Short;
    FileFaultKinds(q.file, HeaderList(q.file, h, 0));
    ArgumentFaultKinds(q, utf8);
    if Blames(b, e, t, more) && e.NoMemory? {
      ShortIsFault(pages, k, h, q, utf8, e.error, b.space, used, Cost(t, more));
    }
  }

  lemma FitsAtLast(pages: nat, k: Kernel, h: ElfHeader, q: Request, utf8: Utf8, b: Build, used: nat, t: set<Place>,
                   more: set<nat>)
    requires TableFits(q.file, h) && |b.space.owned| == 1 + used && |b.space.free| + used + 1 == pages
    requires 1 + used + Cost(t, more) == PagesNeeded(k, SegmentsOf(q.file, h))
    requires |b.pages| + |more| == |UserPages(SegmentsOf(q.file, h))|
    requires Has(b.space, Cost(t, more)) && |b.pages| + |more| <= MAX_SEGMENT_PAGES
    requires AllAcceptable(q.file, HeaderList(q.file, h, 0)) && ArgumentsFit(q, utf8)
    ensures LoadFits(pages, k, h, q, utf8)
  {
    hide TableFits, PagesNeeded, SegmentsOf, HeaderList, UserPages, Cost, AllAcceptable, ArgumentsFit;
  }

  lemma FileFaultKinds(file: Bytes, headers: seq<Result<ProgramHeader, ElfError>>)
    ensures forall e :: IsFileFault(file, headers, e) ==> e.BadElf? || e == UserImageOutOfRange
  {
    hide OutOfBounds, Loadable;
  }

  lemma ArgumentFaultKinds(q: Request, utf8: Utf8)
    ensures forall e :: IsArgumentFault(q, utf8, e) ==>
              e == InvalidStartupArguments || e == LoadError.StartupArgumentsTooLarge
  {
    hide ArgumentsFit;
  }

  lemma NothingCovered()
    ensures CoveredPages([]) == {}
  {
  }

  /** What the three phases need, added up. */
  lemma Sums(k: Kernel, segments: seq<ProgramHeader>)
    ensures var t, image, stack := SharedPlaces(k), CoveredPages(segments),
              CoveredPages(segments + [STACK]) - CoveredPages(segments);
            && |UserPages(segments)| == |image| + |stack|
            && PagesNeeded(k, segments) == 1 + |t| + Cost(t, image) + Cost(t + PagePaths(image), stack)
  {
    hide CoveredPages, PagePaths, SharedPlaces;
    var t, image, stack := SharedPlaces(k), CoveredPages(segments),
        CoveredPages(segments + [STACK]) - CoveredPages(segments);
    CoveredGrows(segments, [STACK]);
    assert UserPages(segments) == image + stack;
    PathsOfUnion(image, stack);
    TwoSteps(t, PagePaths(image), PagePaths(stack));
    assert t + PagePaths(image + stack) == t + (PagePaths(image + stack) - t);
  }
}
