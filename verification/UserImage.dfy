// The image of a user program as a value: the pages recorded while loading
// (`UserPageMap` in kernel/kernel/src/memory/loader.rs:228-315), what user
// code reads through the page tables, and how each loading step changes it.
module UserImages {
  import opened Prelude
  import opened Words
  import opened PageOwnership
  import opened Paging
  import opened Elf

  const USER_IMAGE_BASE: nat := 0x40_0000
  const USER_STACK_TOP: nat := 0x80_0000
  const USER_STACK_PAGES: nat := 16
  const USER_STACK_BASE: nat := USER_STACK_TOP - USER_STACK_PAGES * PAGE_SIZE
  const MAX_SEGMENT_PAGES: nat := 128

  datatype UserPage = UserPage(virt: nat, phys: nat)

  /** The first record for a page. */
  function FindPage(pages: seq<UserPage>, virt: nat): Option<UserPage> {
    if pages == [] then None
    else if pages[0].virt == virt then Some(pages[0])
    else FindPage(pages[1..], virt)
  }

  function PageBase(v: nat): nat { AlignDown(v, PAGE_SIZE) }

  lemma {:induction false} FoundPage(pages: seq<UserPage>, virt: nat)
    ensures var r := FindPage(pages, virt);
            && (r.Some? ==> r.value in pages && r.value.virt == virt)
            && (r.None? ==> forall p :: p in pages ==> p.virt != virt)
  {
    if pages != [] && pages[0].virt != virt {
      FoundPage(pages[1..], virt);
      assert forall p :: p in pages ==> p == pages[0] || p in pages[1..];
    }
  }

  lemma {:induction false} FindInLonger(pages: seq<UserPage>, page: UserPage, virt: nat)
    ensures FindPage(pages + [page], virt) ==
            if FindPage(pages, virt).Some? then FindPage(pages, virt)
            else if page.virt == virt then Some(page) else None
  {
    if pages != [] {
      assert (pages + [page])[1..] == pages[1..] + [page];
      FindInLonger(pages[1..], page, virt);
    }
  }

  /** Records lie in the user range on page boundaries; no two share a page or a frame. */
  ghost predicate Apart(pages: seq<UserPage>) {
    && (forall i :: 0 <= i < |pages| ==>
          pages[i].virt % PAGE_SIZE == 0 && USER_IMAGE_BASE <= pages[i].virt < USER_STACK_TOP && IsFrame(pages[i].phys))
    && (forall i, j :: 0 <= i < j < |pages| ==> pages[i].virt != pages[j].virt && pages[i].phys != pages[j].phys)
  }

  /** The byte user code finds at `v`. */
  function Peek(frames: map<nat, Bytes>, pages: seq<UserPage>, v: nat): Option<Byte> {
    var page := FindPage(pages, PageBase(v));
    if page.Some? then Some(Frame(frames, page.value.phys)[v % PAGE_SIZE]) else None
  }

  // ---------------------------------------------------------------------------
  // `copy_into`.

  function Patch(page: Bytes, offset: nat, bytes: Bytes): (r: Bytes)
    requires |page| == PAGE_SIZE && offset + |bytes| <= PAGE_SIZE
    ensures |r| == PAGE_SIZE
  {
    page[..offset] + bytes + page[offset + |bytes|..]
  }

  function Room(address: nat): nat { PAGE_SIZE - address % PAGE_SIZE }

  function ChunkLength(address: nat, bytes: Bytes): nat {
    if |bytes| < Room(address) then |bytes| else Room(address)
  }

  /** One copy after another, page by page; false when a page is missing. */
  function CopyPages(frames: map<nat, Bytes>, pages: seq<UserPage>, address: nat, bytes: Bytes): (map<nat, Bytes>, bool)
    decreases |bytes|
  {
    if bytes == [] then (frames, true)
    else
      var page := FindPage(pages, PageBase(address));
      if page.None? then (frames, false)
      else
        var n, f := ChunkLength(address, bytes), page.value.phys;
        CopyPages(frames[f := Patch(Frame(frames, f), address % PAGE_SIZE, bytes[..n])], pages, address + n, bytes[n..])
  }

  ghost predicate AllPresent(pages: seq<UserPage>, from: nat, to: nat) {
    forall v: nat :: from <= v < to ==> FindPage(pages, PageBase(v)).Some?
  }

  /** Every byte of `[address, address + |bytes|)` reads as copied, all others as before. */
  ghost predicate Copied(frames: map<nat, Bytes>, frames': map<nat, Bytes>, pages: seq<UserPage>, address: nat,
                         bytes: Bytes) {
    && (forall v: nat :: Peek(frames', pages, v) ==
          if address <= v < address + |bytes| then Some(bytes[v - address]) else Peek(frames, pages, v))
    && (forall f: nat :: (forall i :: 0 <= i < |pages| ==> pages[i].phys != f) ==>
         Frame(frames', f) == Frame(frames, f))
  }

  lemma ChunkInPage(address: nat, bytes: Bytes, v: nat)
    requires bytes != []
    ensures var n := ChunkLength(address, bytes);
            && 0 < n <= |bytes| && address % PAGE_SIZE + n <= PAGE_SIZE
            && (address <= v < address + n ==>
                 PageBase(v) == PageBase(address) && v % PAGE_SIZE == address % PAGE_SIZE + (v - address))
            && (PageBase(v) == PageBase(address) && address % PAGE_SIZE <= v % PAGE_SIZE < address % PAGE_SIZE + n ==>
                 address <= v < address + n)
  {
    if address <= v < address + ChunkLength(address, bytes) {
      assert v / PAGE_SIZE == address / PAGE_SIZE;
    }
  }

  /** Copying within one page. */
  lemma ChunkCopied(frames: map<nat, Bytes>, pages: seq<UserPage>, address: nat, bytes: Bytes, page: UserPage)
    requires Apart(pages) && bytes != [] && FindPage(pages, PageBase(address)) == Some(page)
    ensures ChunkLength(address, bytes) <= |bytes| && address % PAGE_SIZE + ChunkLength(address, bytes) <= PAGE_SIZE
    ensures var n := ChunkLength(address, bytes);
            Copied(frames, ChunkWritten(frames, page, address, bytes), pages, address, bytes[..n])
  {
    var n := ChunkLength(address, bytes);
    ChunkInPage(address, bytes, 0);
    var frames' := frames[page.phys := Patch(Frame(frames, page.phys), address % PAGE_SIZE, bytes[..n])];
    FoundPage(pages, PageBase(address));
    forall v: nat
      ensures Peek(frames', pages, v) ==
              if address <= v < address + |bytes[..n]| then Some(bytes[..n][v - address]) else Peek(frames, pages, v)
    {
      ChunkAt(frames, pages, address, bytes, page, v);
    }
  }

  lemma ChunkAt(frames: map<nat, Bytes>, pages: seq<UserPage>, address: nat, bytes: Bytes, page: UserPage, v: nat)
    requires Apart(pages) && bytes != [] && FindPage(pages, PageBase(address)) == Some(page)
    requires ChunkLength(address, bytes) <= |bytes| && address % PAGE_SIZE + ChunkLength(address, bytes) <= PAGE_SIZE
    ensures var n := ChunkLength(address, bytes);
            Peek(frames[page.phys := Patch(Frame(frames, page.phys), address % PAGE_SIZE, bytes[..n])], pages, v) ==
            if address <= v < address + n then Some(bytes[v - address]) else Peek(frames, pages, v)
  {
    ChunkInPage(address, bytes, v);
    FoundPage(pages, PageBase(address));
    FoundPage(pages, PageBase(v));
    var found := FindPage(pages, PageBase(v));
    if found.Some? && PageBase(v) != PageBase(address) {
      SamePhysSamePage(pages, found.value, page);
    }
    hide PageBase, FindPage, Apart, ChunkLength;
  }

  lemma SamePhysSamePage(pages: seq<UserPage>, a: UserPage, b: UserPage)
    requires Apart(pages) && a in pages && b in pages
    ensures a.phys == b.phys ==> a == b
  {
  }

  /** Memory after the first chunk. */
  function ChunkWritten(frames: map<nat, Bytes>, page: UserPage, address: nat, bytes: Bytes): map<nat, Bytes>
    requires bytes != []
  {
    ChunkInPage(address, bytes, 0);
    frames[page.phys := Patch(Frame(frames, page.phys), address % PAGE_SIZE, bytes[..ChunkLength(address, bytes)])]
  }

  lemma ChunkElsewhere(frames: map<nat, Bytes>, page: UserPage, address: nat, bytes: Bytes, f: nat)
    requires bytes != [] && f != page.phys
    ensures Frame(ChunkWritten(frames, page, address, bytes), f) == Frame(frames, f)
  {
  }

  lemma CopyUnfolds(frames: map<nat, Bytes>, pages: seq<UserPage>, address: nat, bytes: Bytes)
    requires bytes != []
    ensures var page, n := FindPage(pages, PageBase(address)), ChunkLength(address, bytes);
            && 0 < n <= |bytes|
            && (page.None? ==>
                  && CopyPages(frames, pages, address, bytes) == (frames, false)
                  && !AllPresent(pages, address, address + |bytes|))
            && (page.Some? ==>
                  && page.value in pages
                  && CopyPages(frames, pages, address, bytes)
                     == CopyPages(ChunkWritten(frames, page.value, address, bytes), pages, address + n, bytes[n..]))
  {
    ChunkInPage(address, bytes, 0);
    FoundPage(pages, PageBase(address));
    hide FindPage, PageBase, Room, Patch, Frame;
  }

  /** Copying writes recorded frames only, whether or not it succeeds. */
  lemma {:induction false} CopyStaysInside(frames: map<nat, Bytes>, pages: seq<UserPage>, address: nat, bytes: Bytes,
                                           f: nat)
    requires forall i :: 0 <= i < |pages| ==> pages[i].phys != f
    ensures Frame(CopyPages(frames, pages, address, bytes).0, f) == Frame(frames, f)
    decreases |bytes|
  {
    hide CopyPages, FindPage, PageBase, ChunkLength, AllPresent, ChunkWritten, Frame;
    if bytes == [] {
      CopyOfNothing(frames, pages, address);
    } else {
      var page, n := FindPage(pages, PageBase(address)), ChunkLength(address, bytes);
      CopyUnfolds(frames, pages, address, bytes);
      if page.Some? {
        ChunkElsewhere(frames, page.value, address, bytes, f);
        CopyStaysInside(ChunkWritten(frames, page.value, address, bytes), pages, address + n, bytes[n..], f);
      }
    }
  }

  lemma CopyOfNothing(frames: map<nat, Bytes>, pages: seq<UserPage>, address: nat)
    ensures CopyPages(frames, pages, address, []) == (frames, true)
  {
  }

  lemma CopiedNothing(frames: map<nat, Bytes>, pages: seq<UserPage>, address: nat)
    ensures Copied(frames, frames, pages, address, []) && AllPresent(pages, address, address)
  {
    hide Peek, Frame;
  }

  /** `copy_into` succeeds if and only if every page of the range is recorded, and then the
      range reads as copied. */
  lemma {:induction false} CopyWorks(frames: map<nat, Bytes>, pages: seq<UserPage>, address: nat, bytes: Bytes)
    requires Apart(pages)
    ensures CopyPages(frames, pages, address, bytes).1 <==> AllPresent(pages, address, address + |bytes|)
    ensures CopyPages(frames, pages, address, bytes).1 ==>
              Copied(frames, CopyPages(frames, pages, address, bytes).0, pages, address, bytes)
    decreases |bytes|
  {
    hide FindPage, PageBase, Frame, ChunkLength, AllPresent, Copied, Patch, ChunkWritten, Apart;
    if bytes == [] {
      CopiedNothing(frames, pages, address);
    } else {
      var page, n := FindPage(pages, PageBase(address)), ChunkLength(address, bytes);
      CopyUnfolds(frames, pages, address, bytes);
      if page.Some? {
        ChunkCopied(frames, pages, address, bytes, page.value);
        PresentFromChunk(pages, address, bytes);
        hide CopyPages;
        var frames1 := ChunkWritten(frames, page.value, address, bytes);
        CopyWorks(frames1, pages, address + n, bytes[n..]);
        var rest := CopyPages(frames1, pages, address + n, bytes[n..]);
        CopyFromRest(frames, frames1, rest, pages, address, bytes, n);
        assert CopyPages(frames, pages, address, bytes) == rest;
      }
    }
  }

  lemma PresentFromChunk(pages: seq<UserPage>, address: nat, bytes: Bytes)
    requires bytes != [] && FindPage(pages, PageBase(address)).Some?
    ensures var n := ChunkLength(address, bytes);
            AllPresent(pages, address, address + |bytes|) <==> AllPresent(pages, address + n, address + |bytes|)
  {
    var n := ChunkLength(address, bytes);
    forall v: nat | address <= v < address + n ensures PageBase(v) == PageBase(address) {
      ChunkInPage(address, bytes, v);
    }
    hide PageBase, FindPage, ChunkLength;
  }

  lemma CopyFromRest(frames: map<nat, Bytes>, frames': map<nat, Bytes>, rest: (map<nat, Bytes>, bool),
                     pages: seq<UserPage>,
                     address: nat, bytes: Bytes, n: nat)
    requires n <= |bytes| && Copied(frames, frames', pages, address, bytes[..n])
    requires rest.1 <==> AllPresent(pages, address + n, address + n + |bytes[n..]|)
    requires rest.1 ==> Copied(frames', rest.0, pages, address + n, bytes[n..])
    requires AllPresent(pages, address, address + |bytes|) <==> AllPresent(pages, address + n, address + |bytes|)
    ensures rest.1 <==> AllPresent(pages, address, address + |bytes|)
    ensures rest.1 ==> Copied(frames, rest.0, pages, address, bytes)
  {
    hide Copied, AllPresent;
    assert address + n + |bytes[n..]| == address + |bytes|;
    if rest.1 {
      CopiedTwice(frames, frames', rest.0, pages, address, bytes, n);
    }
  }

  lemma CopiedTwice(frames: map<nat, Bytes>, frames': map<nat, Bytes>, frames'': map<nat, Bytes>, pages: seq<UserPage>,
                    address: nat, bytes: Bytes, n: nat)
    requires n <= |bytes| && Copied(frames, frames', pages, address, bytes[..n])
    requires Copied(frames', frames'', pages, address + n, bytes[n..])
    ensures Copied(frames, frames'', pages, address, bytes)
  {
    hide Peek, Frame;
  }

  // ---------------------------------------------------------------------------
  // One page more.

  datatype LoadError =
    | NoMemory(error: MemoryError)
    | BadElf(fault: ElfError)
    | UserImageOutOfRange
    | SegmentOverlapCapacityExceeded
    | InvalidStartupArguments
    | StartupArgumentsTooLarge

  /** The image while it is built: memory, and the pages recorded so far. */
  datatype Build = Build(space: Space, pages: seq<UserPage>)

  function UserFlags(writable: bool): nat {
    PAGE_PRESENT + PAGE_USER + if writable then PAGE_WRITABLE else 0
  }

  /** Allocate a page, map it at `virt`, record it, own it. */
  ghost function MapFresh(b: Build, root: nat, virt: nat, writable: bool): (Build, Result<(), LoadError>) {
    if b.space.free == {} then (b, Err(NoMemory(AllocatorExhausted)))
    else
      var phys := Lowest(b.space.free);
      var (s2, r) := Map4k(Allocated(b.space), root, virt, phys, UserFlags(writable));
      if r.Err? then (b.(space := s2), Err(NoMemory(r.error)))
      else if |b.pages| >= MAX_SEGMENT_PAGES then (b.(space := s2), Err(SegmentOverlapCapacityExceeded))
      else
        var pages := b.pages + [UserPage(virt, phys)];
        if |s2.owned| >= MAX_OWNED_PAGES then (Build(s2, pages), Err(NoMemory(OwnedPageCapacityExceeded)))
        else (Build(s2.(owned := s2.owned + [phys]), pages), Ok(()))
  }

  /** What leaves the free set is owned or leaked, and only pages that were free or owned are written. */
  ghost predicate Keeps(s: Space, s': Space, leak: multiset<nat>) {
    && multiset(s.free) + multiset(s.owned) == multiset(s'.free) + multiset(s'.owned) + leak
    && forall f: nat :: f !in s.free && f !in s.owned ==> Frame(s'.frames, f) == Frame(s.frames, f)
  }

  /** Every page table is a page the program owns. */
  ghost predicate TablesOwned(s: Space, root: nat) {
    forall f: nat :: IsTable(s.frames, root, f) ==> f in s.owned
  }

  lemma NotMade(s: Space, s': Space, leak: multiset<nat>, f: nat)
    requires multiset(s.free) + multiset(s.owned) == multiset(s'.free) + multiset(s'.owned) + leak
    ensures f !in s.free && f !in s.owned ==> f !in s'.free && f !in s'.owned
    ensures f in s.free || f in s.owned ==> f in s'.free || f in s'.owned || f in leak
  {
    var before, after := multiset(s.free) + multiset(s.owned), multiset(s'.free) + multiset(s'.owned) + leak;
    assert f in before <==> f in s.free || f in s.owned;
    assert f in after <==> f in s'.free || f in s'.owned || f in leak;
  }

  /** New tables were free pages, and are owned unless they leaked. */
  lemma TablesStayOwned(s: Space, s': Space, root: nat, leak: multiset<nat>)
    requires TablesOwned(s, root) && Keeps(s, s', leak) && Good(s', root)
    requires forall f: nat :: IsTable(s'.frames, root, f) ==> (f in s.free || IsTable(s.frames, root, f)) && f !in leak
    ensures TablesOwned(s', root)
  {
    hide IsTable, Frame, Sound;
    forall f: nat | IsTable(s'.frames, root, f) ensures f in s'.owned {
      NotMade(s, s', leak, f);
      TableIsNotFree(s', root, f);
    }
  }

  lemma TableIsNotFree(s: Space, root: nat, f: nat)
    requires Good(s, root) && IsTable(s.frames, root, f)
    ensures f !in s.free
  {
    hide TableAt, Separate, Permissive;
  }

  /** The tables and pages of an image. A recorded page leads to its frame, for user code, with
      the rights noted; everything else translates as in `base`. */
  ghost predicate Image(b: Build, root: nat, rights: map<nat, bool>, base: map<nat, Bytes>) {
    && Good(b.space, root) && b.space.tracked && Apart(b.pages)
    && FramesAside(b, root) && TablesOwned(b.space, root)
    && (forall v: nat :: v < VIRT_LIMIT ==> Leads(b, root, rights, base, v))
    && (forall d: nat, p: nat :: d < 3 && HugeAt(b.space.frames, root, d, p) ==>
         d == 2 && PHYS_WINDOW_START <= p * SPAN_2M)
  }

  ghost predicate FramesAside(b: Build, root: nat) {
    forall i :: 0 <= i < |b.pages| ==>
      && b.pages[i].phys !in b.space.free && b.pages[i].phys in b.space.owned
      && !IsTable(b.space.frames, root, b.pages[i].phys)
  }

  /** The page may be written by user code. */
  ghost predicate Right(rights: map<nat, bool>, x: nat) {
    x in rights && rights[x]
  }

  ghost predicate Leads(b: Build, root: nat, rights: map<nat, bool>, base: map<nat, Bytes>, v: nat) {
    var page := FindPage(b.pages, PageBase(v));
    if page.Some? then
      Walk(b.space.frames, root, v) ==
        Some(Translation(page.value.phys + v % PAGE_SIZE, true, Right(rights, page.value.virt)))
    else Walk(b.space.frames, root, v) == Walk(base, root, v)
  }

  /** The new page reads as zero, all others as before. */
  ghost predicate AddsZeroPage(b: Build, b': Build, virt: nat) {
    && (forall x: nat :: FindPage(b'.pages, x).Some? <==> FindPage(b.pages, x).Some? || x == virt)
    && (forall v: nat :: Peek(b'.space.frames, b'.pages, v) ==
                         if PageBase(v) == virt then Some(0) else Peek(b.space.frames, b.pages, v))
  }

  lemma UserFlagsParts(writable: bool)
    ensures var f := UserFlags(writable);
            f < PAGE_SIZE && Words.Present(f) && User(f) && Writable(f) == writable
  {
  }

  lemma KeepsTwice(s: Space, s': Space, s'': Space, leak: multiset<nat>)
    requires Keeps(s, s', multiset{}) && Keeps(s', s'', leak)
    ensures Keeps(s, s'', leak)
  {
    hide Frame;
    forall f: nat | f !in s.free && f !in s.owned ensures Frame(s''.frames, f) == Frame(s.frames, f) {
      NotMade(s, s', multiset{}, f);
    }
  }

  lemma TakingKeeps(s: Space)
    requires s.free != {}
    ensures Keeps(s, Allocated(s), multiset{Lowest(s.free)})
  {
    var p := Lowest(s.free);
    assert s.free == (s.free - {p}) + {p};
  }

  lemma UserPathHasNoHuge(b: Build, root: nat, rights: map<nat, bool>, base: map<nat, Bytes>, virt: nat)
    requires Image(b, root, rights, base) && virt < USER_STACK_TOP
    ensures NoHugeOnPath(b.space.frames, root, virt, 3)
  {
    assert Region(2, virt) * SPAN_2M <= virt;
    hide Good, Apart, FramesAside, Leads, HugeAt;
  }

  /** The two steps behind a fresh page: the page is taken and zeroed, then mapped. */
  ghost predicate FreshlyMapped(s: Space, s1: Space, s2: Space, root: nat, virt: nat, phys: nat, writable: bool) {
    && Quiet(s, s1, root) && Contained(s1, s2, root) && Good(s2, root) && s2.tracked == s.tracked
    && phys in s.free && phys !in s1.free && IsFrame(phys) && !IsTable(s1.frames, root, phys)
    && Frame(s1.frames, phys) == ZeroPage()
    && MapsPage(s1, s2, root, virt / SPAN_4K, phys, true, writable)
  }

  lemma FreshMapping(b: Build, root: nat, rights: map<nat, bool>, base: map<nat, Bytes>, virt: nat, writable: bool)
    returns (leak: multiset<nat>)
    requires Image(b, root, rights, base) && b.space.free != {} && virt < USER_STACK_TOP
    ensures var s1, phys := Allocated(b.space), Lowest(b.space.free);
            var (s2, r) := Map4k(s1, root, virt, phys, UserFlags(writable));
            && Keeps(b.space, s2, leak) && |leak| <= 2
            && (r.Ok? ==> leak == multiset{phys} && FreshlyMapped(b.space, s1, s2, root, virt, phys, writable))
  {
    var s1, phys := Allocated(b.space), Lowest(b.space.free);
    UserPathHasNoHuge(b, root, rights, base, virt);
    TrackedImage(b, root, rights, base);
    hide Image, Walk, Sound, Frame, IsTable, HugeAt, Map4k, Conserved, SameTree, SameLastLevel;
    TakeStep(b.space, root);
    TakingKeeps(b.space);
    NoHugeAfterTake(b.space, s1, root, virt);
    UserFlagsParts(writable);
    hide Allocated, Quiet, Keeps;
    var more := Map4kWorks(s1, root, virt, phys, UserFlags(writable));
    var (s2, r) := Map4k(s1, root, virt, phys, UserFlags(writable));
    hide NoHugeOnPath, Words.Present, User, Writable, MapsPage, Unmoved;
    ContainedTracks(s1, s2, root);
    hide Contained;
    MappingStaysInside(b.space, s1, s2, root);
    leak := TakenAndMapped(b.space, s1, s2, phys, more);
  }

  lemma TrackedImage(b: Build, root: nat, rights: map<nat, bool>, base: map<nat, Bytes>)
    requires Image(b, root, rights, base)
    ensures Good(b.space, root) && b.space.tracked
  {
    hide Good, Apart, FramesAside, Leads, HugeAt;
  }

  /** Taking a page and mapping it writes free pages and tables only. */
  lemma MappingStaysInside(s: Space, s1: Space, s2: Space, root: nat)
    requires TablesOwned(s, root) && Quiet(s, s1, root) && Contained(s1, s2, root)
    ensures forall f: nat :: f !in s.free && f !in s.owned ==> Frame(s2.frames, f) == Frame(s.frames, f)
  {
    hide Walk, TableAt, HugeAt, IsTable, Frame;
  }

  lemma ContainedTracks(s: Space, s': Space, root: nat)
    requires Contained(s, s', root)
    ensures s'.tracked == s.tracked && s'.free <= s.free
  {
    hide IsTable, Frame;
  }

  lemma NoHugeAfterTake(s: Space, s': Space, root: nat, v: nat)
    requires Quiet(s, s', root) && NoHugeOnPath(s.frames, root, v, 3)
    ensures NoHugeOnPath(s'.frames, root, v, 3) && s'.tracked == s.tracked
  {
    hide HugeAt, Walk, TableAt, IsTable, Frame;
  }

  lemma TakenAndMapped(s: Space, s1: Space, s2: Space, phys: nat, more: set<nat>) returns (leak: multiset<nat>)
    requires Keeps(s, s1, multiset{phys}) && Conserved(s1, s2, more) && s1.tracked && |more| <= 1
    requires forall f: nat :: f !in s.free && f !in s.owned ==> Frame(s2.frames, f) == Frame(s.frames, f)
    ensures Keeps(s, s2, leak) && |leak| <= 2 && leak == multiset{phys} + multiset(more)
  {
    leak := multiset{phys} + multiset(more);
  }

  lemma FreshIsImage(b: Build, s2: Space, root: nat, rights: map<nat, bool>, base: map<nat, Bytes>, virt: nat,
                     writable: bool)
    requires Image(b, root, rights, base) && FindPage(b.pages, virt).None? && b.space.free != {}
    requires virt % PAGE_SIZE == 0 && USER_IMAGE_BASE <= virt < USER_STACK_TOP
    requires FreshlyMapped(b.space, Allocated(b.space), s2, root, virt, Lowest(b.space.free), writable)
    requires Keeps(b.space, s2, multiset{Lowest(b.space.free)})
    ensures var phys := Lowest(b.space.free);
            var b' := Build(s2.(owned := s2.owned + [phys]), b.pages + [UserPage(virt, phys)]);
            && Keeps(b.space, b'.space, multiset{}) && Image(b', root, rights[virt := writable], base) &&
                 AddsZeroPage(b, b', virt)
  {
    var phys, s1 := Lowest(b.space.free), Allocated(b.space);
    var b' := Build(s2.(owned := s2.owned + [phys]), b.pages + [UserPage(virt, phys)]);
    OwningKeeps(b.space, s2, phys);
    FreshIsTaken(b.space, s1, s2, root, virt, phys, writable);
    FreshTablesOwned(b.space, s1, s2, root, virt, phys, writable);
    hide Allocated, Keeps;
    forall x | x in b.space.owned && x !in b.space.free ensures x in s2.owned {
      OwnedStays(b.space, s2, phys, x);
    }
    FreshAside(b, b', s1, s2, root, virt, phys, writable);
    FreshLeads(b, b', s1, s2, root, rights, rights[virt := writable], base, virt, phys, writable);
    FreshPeek(b, b', s1, s2, root, virt, phys, writable);
    assert TablesOwned(b'.space, root);
    hide Apart, FramesAside, TablesOwned, Leads, Sound, Walk, FindPage, AddsZeroPage, IsTable, Frame;
  }

  lemma FreshTablesOwned(s: Space, s1: Space, s2: Space, root: nat, virt: nat, phys: nat, writable: bool)
    requires TablesOwned(s, root) && FreshlyMapped(s, s1, s2, root, virt, phys, writable)
    requires Keeps(s, s2, multiset{phys})
    ensures TablesOwned(s2, root)
  {
    hide Walk, TableAt, HugeAt, IsTable, Frame, ZeroPage, Sound, MapsPage, Keeps, TablesOwned;
    forall f: nat | IsTable(s2.frames, root, f)
      ensures (f in s.free || IsTable(s.frames, root, f)) && f !in multiset{phys}
    {
      assert f in s1.free || IsTable(s1.frames, root, f);
    }
    TablesStayOwned(s, s2, root, multiset{phys});
  }

  lemma FreshIsTaken(s: Space, s1: Space, s2: Space, root: nat, virt: nat, phys: nat, writable: bool)
    requires FreshlyMapped(s, s1, s2, root, virt, phys, writable)
    ensures phys in s.free && s2.free <= s.free
  {
    hide Walk, TableAt, HugeAt, IsTable, Frame, ZeroPage, Sound, MapsPage;
  }

  lemma OwnedStays(s: Space, s': Space, phys: nat, x: nat)
    requires Keeps(s, s', multiset{phys}) && phys in s.free && s'.free <= s.free
    requires x in s.owned && x !in s.free
    ensures x in s'.owned
  {
    assert x in multiset(s.free) + multiset(s.owned);
    assert x !in multiset{phys} && x !in multiset(s'.free);
  }

  lemma OwningKeeps(s: Space, s': Space, phys: nat)
    requires Keeps(s, s', multiset{phys})
    ensures Keeps(s, s'.(owned := s'.owned + [phys]), multiset{})
  {
  }

  lemma FreshAside(b: Build, b': Build, s1: Space, s2: Space, root: nat, virt: nat, phys: nat, writable: bool)
    requires Apart(b.pages) && FramesAside(b, root) && FindPage(b.pages, virt).None?
    requires forall x :: x in b.space.owned && x !in b.space.free ==> x in s2.owned
    requires virt % PAGE_SIZE == 0 && USER_IMAGE_BASE <= virt < USER_STACK_TOP
    requires FreshlyMapped(b.space, s1, s2, root, virt, phys, writable)
    requires b' == Build(s2.(owned := s2.owned + [phys]), b.pages + [UserPage(virt, phys)])
    ensures Apart(b'.pages) && FramesAside(b', root)
    ensures forall i :: 0 <= i < |b.pages| ==>
              Frame(b'.space.frames, b.pages[i].phys) == Frame(b.space.frames, b.pages[i].phys)
    ensures Frame(b'.space.frames, phys) == ZeroPage()
  {
    FoundPage(b.pages, virt);
    hide Walk, TableAt, HugeAt, IsTable, Frame, ZeroPage, Sound, FindPage, MapsPage;
    forall i | 0 <= i < |b.pages|
      ensures b.pages[i].phys !in s2.free && !IsTable(s2.frames, root, b.pages[i].phys)
      ensures Frame(s2.frames, b.pages[i].phys) == Frame(b.space.frames, b.pages[i].phys)
      ensures b.pages[i].phys != phys && b.pages[i].virt != virt
    {
      assert b.pages[i] in b.pages;
      assert b.pages[i].phys !in s1.free;
    }
  }

  lemma FreshLeads(b: Build, b': Build, s1: Space, s2: Space, root: nat, rights: map<nat, bool>,
                   rights': map<nat, bool>, base: map<nat, Bytes>,
                   virt: nat, phys: nat, writable: bool)
    requires forall v: nat :: v < VIRT_LIMIT ==> Leads(b, root, rights, base, v)
    requires rights' == rights[virt := writable] && FindPage(b.pages, virt).None? && virt % PAGE_SIZE == 0
    requires FreshlyMapped(b.space, s1, s2, root, virt, phys, writable)
    requires b' == Build(s2.(owned := s2.owned + [phys]), b.pages + [UserPage(virt, phys)])
    requires forall d: nat, p: nat :: d < 3 && HugeAt(b.space.frames, root, d, p) ==>
               d == 2 && PHYS_WINDOW_START <= p * SPAN_2M
    ensures forall v: nat :: v < VIRT_LIMIT ==> Leads(b', root, rights', base, v)
    ensures forall d: nat, p: nat :: d < 3 && HugeAt(b'.space.frames, root, d, p) ==>
              d == 2 && PHYS_WINDOW_START <= p * SPAN_2M
  {
    hide Walk, TableAt, HugeAt, IsTable, Frame, ZeroPage, Sound, FindPage, Contained;
    forall v: nat | v < VIRT_LIMIT ensures Leads(b', root, rights', base, v) {
      FindInLonger(b.pages, UserPage(virt, phys), PageBase(v));
      FoundPage(b.pages, PageBase(v));
      assert Leads(b, root, rights, base, v);
      assert v / SPAN_4K == virt / SPAN_4K <==> PageBase(v) == virt;
    }
  }

  lemma FreshPeek(b: Build, b': Build, s1: Space, s2: Space, root: nat, virt: nat, phys: nat, writable: bool)
    requires FindPage(b.pages, virt).None? && virt % PAGE_SIZE == 0
    requires b' == Build(s2.(owned := s2.owned + [phys]), b.pages + [UserPage(virt, phys)])
    requires forall i :: 0 <= i < |b.pages| ==>
               Frame(b'.space.frames, b.pages[i].phys) == Frame(b.space.frames, b.pages[i].phys)
    requires Frame(b'.space.frames, phys) == ZeroPage()
    ensures AddsZeroPage(b, b', virt)
  {
    forall x: nat ensures FindPage(b'.pages, x).Some? <==> FindPage(b.pages, x).Some? || x == virt {
      FindInLonger(b.pages, UserPage(virt, phys), x);
    }
    forall v: nat ensures Peek(b'.space.frames, b'.pages, v) ==
                          if PageBase(v) == virt then Some(0) else Peek(b.space.frames, b.pages, v)
    {
      FindInLonger(b.pages, UserPage(virt, phys), PageBase(v));
      FoundPage(b.pages, PageBase(v));
      hide FindPage, Frame;
    }
  }

  lemma MapFreshWorks(b: Build, root: nat, rights: map<nat, bool>, base: map<nat, Bytes>, virt: nat, writable: bool)
    returns (leak: multiset<nat>)
    requires Image(b, root, rights, base) && FindPage(b.pages, virt).None?
    requires virt % PAGE_SIZE == 0 && USER_IMAGE_BASE <= virt < USER_STACK_TOP
    ensures var (b', r) := MapFresh(b, root, virt, writable);
            && Keeps(b.space, b'.space, leak) && |leak| <= 2
            && (r.Ok? ==>
                  leak == multiset{} && Image(b', root, rights[virt := writable], base) && AddsZeroPage(b, b', virt))
  {
    leak := multiset{};
    hide Image, Peek, Walk, Sound, Frame, IsTable, HugeAt, Map4k, Allocated;
    if b.space.free != {} {
      leak := FreshMapping(b, root, rights, base, virt, writable);
      var phys := Lowest(b.space.free);
      var (s2, r) := Map4k(Allocated(b.space), root, virt, phys, UserFlags(writable));
      if r.Ok? && |b.pages| < MAX_SEGMENT_PAGES && |s2.owned| < MAX_OWNED_PAGES {
        leak := multiset{};
        FreshIsImage(b, s2, root, rights, base, virt, writable);
      }
    }
  }

  // ---------------------------------------------------------------------------
  // The pages of one segment.

  /** Maps the pages of `[virt, end)` that are not recorded yet, one after another. */
  ghost function MapPagesFrom(b: Build, root: nat, virt: nat, end: nat, writable: bool): (Build, Result<(), LoadError>)
    decreases end - virt
  {
    if virt >= end then (b, Ok(()))
    else if FindPage(b.pages, virt).Some? then MapPagesFrom(b, root, virt + PAGE_SIZE, end, writable)
    else
      var (b1, r) := MapFresh(b, root, virt, writable);
      if r.Err? then (b1, r) else MapPagesFrom(b1, root, virt + PAGE_SIZE, end, writable)
  }

  ghost predicate InPages(x: nat, from: nat, to: nat) {
    x % PAGE_SIZE == 0 && from <= x < to
  }

  /** `[from, to)` is recorded now; new pages read as zero and have the given right. */
  ghost predicate AddsPages(b: Build, b': Build, rights: map<nat, bool>, rights': map<nat, bool>, from: nat, to: nat,
                            writable: bool) {
    && (forall x: nat :: FindPage(b'.pages, x).Some? <==> FindPage(b.pages, x).Some? || InPages(x, from, to))
    && (forall x: nat :: Right(rights', x) ==
                         if FindPage(b.pages, x).None? && InPages(x, from, to) then writable else Right(rights, x))
    && (forall v: nat :: Peek(b'.space.frames, b'.pages, v) ==
                         if FindPage(b.pages, PageBase(v)).None? && InPages(PageBase(v), from, to) then Some(0)
                         else Peek(b.space.frames, b.pages, v))
  }

  lemma AddsNothing(b: Build, rights: map<nat, bool>, from: nat, to: nat, writable: bool)
    requires from >= to
    ensures AddsPages(b, b, rights, rights, from, to, writable)
  {
    hide Peek, FindPage;
  }

  lemma AddsAfterSkip(b: Build, b': Build, rights: map<nat, bool>, rights': map<nat, bool>, from: nat, to: nat,
                      writable: bool)
    requires from % PAGE_SIZE == 0 && from < to && FindPage(b.pages, from).Some?
    requires AddsPages(b, b', rights, rights', from + PAGE_SIZE, to, writable)
    ensures AddsPages(b, b', rights, rights', from, to, writable)
  {
    hide Peek, FindPage, Right;
    forall x: nat | x != from ensures InPages(x, from, to) <==> InPages(x, from + PAGE_SIZE, to) {
    }
    assert InPages(from, from, to);
    hide InPages;
    forall v: nat ensures PageBase(v) == from ==> FindPage(b.pages, PageBase(v)).Some? {
    }
  }

  lemma AddsAfterFresh(b: Build, b': Build, b'': Build, rights: map<nat, bool>, rights': map<nat, bool>,
                       rights'': map<nat, bool>,
                       from: nat, to: nat, writable: bool)
    requires from % PAGE_SIZE == 0 && from < to && FindPage(b.pages, from).None?
    requires rights' == rights[from := writable] && AddsZeroPage(b, b', from)
    requires AddsPages(b', b'', rights', rights'', from + PAGE_SIZE, to, writable)
    ensures AddsPages(b, b'', rights, rights'', from, to, writable)
  {
    hide Peek, FindPage;
    forall x: nat | x != from
      ensures InPages(x, from, to) <==> InPages(x, from + PAGE_SIZE, to)
      ensures Right(rights', x) == Right(rights, x)
    {
    }
    assert InPages(from, from, to) && Right(rights', from) == writable && !InPages(from, from + PAGE_SIZE, to);
    hide InPages, Right;
  }

  /** Mapping a range of pages: on success they are all recorded, on failure at most the two
      pages in flight are neither free nor owned. */
  lemma {:induction false} MapPagesFromWorks(b: Build, root: nat, rights: map<nat, bool>, base: map<nat, Bytes>,
                                             virt: nat, end: nat, writable: bool)
    returns (rights': map<nat, bool>, leak: multiset<nat>)
    requires Image(b, root, rights, base) && virt % PAGE_SIZE == 0 && end % PAGE_SIZE == 0
    requires USER_IMAGE_BASE <= virt && end <= USER_STACK_TOP
    ensures var (b', r) := MapPagesFrom(b, root, virt, end, writable);
            && Keeps(b.space, b'.space, leak) && |leak| <= 2
            && (r.Ok? ==>
                  && leak == multiset{} && Image(b', root, rights', base)
                  && AddsPages(b, b', rights, rights', virt, end, writable))
    decreases end - virt
  {
    hide Image, Keeps, FindPage, AddsPages, AddsZeroPage, MapFresh;
    rights', leak := rights, multiset{};
    if virt >= end {
      AddsNothing(b, rights, virt, end, writable);
      KeepsSelf(b.space);
    } else if FindPage(b.pages, virt).Some? {
      rights', leak := MapPagesFromWorks(b, root, rights, base, virt + PAGE_SIZE, end, writable);
      var (b', r) := MapPagesFrom(b, root, virt + PAGE_SIZE, end, writable);
      if r.Ok? {
        AddsAfterSkip(b, b', rights, rights', virt, end, writable);
      }
    } else {
      leak := MapFreshWorks(b, root, rights, base, virt, writable);
      var (b1, r1) := MapFresh(b, root, virt, writable);
      if r1.Ok? {
        rights', leak := MapPagesFromWorks(b1, root, rights[virt := writable], base, virt + PAGE_SIZE, end, writable);
        var (b', r) := MapPagesFrom(b1, root, virt + PAGE_SIZE, end, writable);
        KeepsTwice(b.space, b1.space, b'.space, leak);
        if r.Ok? {
          AddsAfterFresh(b, b1, b', rights, rights[virt := writable], rights', virt, end, writable);
        }
      }
    }
  }

  lemma KeepsSelf(s: Space)
    ensures Keeps(s, s, multiset{})
  {
  }

  /** Copying file bytes into recorded pages touches neither the tables nor the rights. */
  lemma CopyKeepsImage(b: Build, root: nat, rights: map<nat, bool>, base: map<nat, Bytes>, address: nat, bytes: Bytes)
    requires Image(b, root, rights, base)
    ensures var frames' := CopyPages(b.space.frames, b.pages, address, bytes).0;
            Image(b.(space := b.space.(frames := frames')), root, rights, base)
  {
    var frames' := CopyPages(b.space.frames, b.pages, address, bytes).0;
    var b' := b.(space := b.space.(frames := frames'));
    forall f: nat | forall i :: 0 <= i < |b.pages| ==> b.pages[i].phys != f
      ensures Frame(frames', f) == Frame(b.space.frames, f)
    {
      CopyStaysInside(b.space.frames, b.pages, address, bytes, f);
    }
    hide CopyPages, Apart, Copied, AllPresent, Sound, Walk, Leads, HugeAt, TableAt, EntryAt, Frame;
    TablesUntouched(b, frames', root);
    TreesAgree(b.space.frames, frames', root);
    SameTreeIsSound(b.space.frames, frames', b.space.free, b.space.free, root);
    forall v: nat | v < VIRT_LIMIT ensures Leads(b', root, rights, base, v) {
      SameTreeSameWalk(b.space.frames, frames', root, v);
      LeadsAgain(b, b', root, rights, base, v);
    }
    SameTreeSameShape(b.space.frames, frames', root);
    assert TablesOwned(b'.space, root);
    hide SameTree, IsTable, TablesOwned;
  }

  /** A copy writes owned pages only, also when it fails halfway. */
  lemma CopyKeeps(b: Build, root: nat, rights: map<nat, bool>, base: map<nat, Bytes>, address: nat, bytes: Bytes)
    requires Image(b, root, rights, base)
    ensures var frames' := CopyPages(b.space.frames, b.pages, address, bytes).0;
            Keeps(b.space, b.space.(frames := frames'), multiset{})
  {
    var frames' := CopyPages(b.space.frames, b.pages, address, bytes).0;
    FramesOwned(b, root, rights, base);
    forall f: nat | f !in b.space.owned ensures Frame(frames', f) == Frame(b.space.frames, f) {
      CopyStaysInside(b.space.frames, b.pages, address, bytes, f);
    }
  }

  lemma FramesOwned(b: Build, root: nat, rights: map<nat, bool>, base: map<nat, Bytes>)
    requires Image(b, root, rights, base)
    ensures forall i :: 0 <= i < |b.pages| ==> b.pages[i].phys in b.space.owned
  {
    hide Good, Apart, Leads, HugeAt, TablesOwned, IsTable;
  }

  lemma LeadsAgain(b: Build, b': Build, root: nat, rights: map<nat, bool>, base: map<nat, Bytes>, v: nat)
    requires Leads(b, root, rights, base, v) && b'.pages == b.pages
    requires Walk(b'.space.frames, root, v) == Walk(b.space.frames, root, v)
    ensures Leads(b', root, rights, base, v)
  {
    hide Walk, FindPage;
  }

  lemma TablesUntouched(b: Build, frames': map<nat, Bytes>, root: nat)
    requires FramesAside(b, root)
    requires forall f: nat :: (forall i :: 0 <= i < |b.pages| ==> b.pages[i].phys != f) ==>
               Frame(frames', f) == Frame(b.space.frames, f)
    ensures forall f: nat :: IsTable(b.space.frames, root, f) ==> Frame(frames', f) == Frame(b.space.frames, f)
  {
    hide IsTable, Frame;
  }

  lemma TreesAgree(frames: map<nat, Bytes>, frames': map<nat, Bytes>, root: nat)
    requires forall f: nat :: IsTable(frames, root, f) ==> Frame(frames', f) == Frame(frames, f)
    ensures SameTree(frames, frames', root)
  {
    forall d: nat, p: nat | d <= 3 ensures TableAt(frames', root, d, p) == TableAt(frames, root, d, p) {
      TableElsewhere(frames, frames', root, d, p);
    }
    forall d: nat, q: nat | d <= 3 ensures EntryAt(frames', root, d, q) == EntryAt(frames, root, d, q) {
      EntryElsewhere(frames, frames', root, d, q);
    }
  }

  lemma SameTreeSameShape(frames: map<nat, Bytes>, frames': map<nat, Bytes>, root: nat)
    requires SameTree(frames, frames', root)
    ensures forall f: nat :: IsTable(frames', root, f) <==> IsTable(frames, root, f)
    ensures forall d: nat, q: nat :: HugeAt(frames', root, d, q) <==> HugeAt(frames, root, d, q)
  {
    hide TableAt, EntryAt, Words.Present, Huge;
  }
}
