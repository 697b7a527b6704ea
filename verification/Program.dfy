// A whole program load (kernel/kernel/src/memory/loader.rs:24-112): the shared
// kernel context, the segments, the stack and the startup block in one address
// space, what user code then sees, and what happens to the pages on failure.
module Programs {
  import opened Prelude
  import opened Words
  import opened Allocators
  import opened PageOwnership
  import opened Paging
  import opened PagingStates
  import opened KernelMaps
  import opened Elf
  import opened UserImages
  import opened Segments
  import opened Sealing
  import opened Startup
  import opened Loader

  type Kernel = KernelMaps.Layout

  type ArgLayout = Startup.Layout

  datatype Request = Request(file: Bytes, argv0: Bytes, tail: Bytes)

  /** Everything after the root page has been taken. */
  ghost function BuildProgram(s: Space, root: nat, k: Kernel, h: ElfHeader, q: Request,
                              utf8: Utf8): (Build, Result<nat, LoadError>)
    requires TableFits(q.file, h)
  {
    var (s1, r0) := MapShared(s, root, k);
    if r0.Err? then (Build(s1, []), Err(NoMemory(r0.error)))
    else
      var (b1, r1) := LoadSegments(Build(s1, []), root, q.file, HeaderList(q.file, h, 0));
      if r1.Err? then (b1, Err(r1.error)) else FinishProgram(b1, root, q, utf8)
  }

  ghost function FinishProgram(b: Build, root: nat, q: Request, utf8: Utf8): (Build, Result<nat, LoadError>) {
    var (b1, r) := MapPagesFrom(b, root, USER_STACK_BASE, USER_STACK_TOP, true);
    if r.Err? then (b1, Err(r.error))
    else
      var args := StartupArgs(q.argv0, q.tail, utf8);
      if args.Err? then (b1, Err(args.error))
      else
        var layout := PrepareLayout(args.value);
        if layout.Err? then (b1, Err(layout.error)) else WriteBlock(b1, layout.value)
  }

  /** What a loaded program's address space is, seen through the page tables only. */
  ghost predicate LoadedSpace(s: Space, root: nat, k: Kernel, file: Bytes, segments: seq<ProgramHeader>) {
    && Good(s, root)
    && (forall v: nat :: v < VIRT_LIMIT ==> UserRights(s, root, segments, v) && SharedRights(s, root, k, segments, v))
    && (forall v: nat :: v < USER_STACK_BASE && FirstRight(segments, PageBase(v)).Some? ==>
          ReadUser(s.frames, root, v) == Some(Content(file, segments, v)))
  }

  /** User code reaches `v` if and only if a segment or the stack covers it; it may write there
      if and only if it is the stack or the first covering segment is writable; and what it
      reaches is a page the program owns. */
  ghost predicate UserRights(s: Space, root: nat, segments: seq<ProgramHeader>, v: nat) {
    var t, right := Walk(s.frames, root, v), FirstRight(segments + [STACK], PageBase(v));
    && (t.Some? && t.value.user <==> right.Some?)
    && (right.Some? ==> t.value.writable == right.value && PageBase(t.value.phys) in s.owned)
  }

  /** Everything else leads where the shared context says, for the kernel only, and the physical window is there. */
  ghost predicate SharedRights(s: Space, root: nat, k: Kernel, segments: seq<ProgramHeader>, v: nat) {
    var t := Walk(s.frames, root, v);
    && (t.Some? && !t.value.user ==> t.value.phys == v)
    && (FirstRight(segments + [STACK], PageBase(v)).None? ==> t == SharedAt(k, v))
    && (PHYS_WINDOW_START <= v < k.windowEnd ==> t == Some(Translation(v, false, true)))
  }

  // ---------------------------------------------------------------------------

  /** The image before any page is recorded is the shared kernel context. */
  lemma StartsAsImage(s: Space, root: nat, k: Kernel, file: Bytes)
    requires Good(s, root) && KernelOnly(s, root, k) && s.tracked && TablesOwned(s, root)
    ensures Image(Build(s, []), root, map[], s.frames) && Filled(Build(s, []), map[], file, []) && SoundSegments([])
  {
    hide Walk, HugeAt, Sound;
  }

  /** The rest of the load, from the shared context on. */
  ghost predicate Finished(b: Build, b': Build, root: nat, rights: map<nat, bool>, base: map<nat, Bytes>, file: Bytes,
                           segments: seq<ProgramHeader>, l: ArgLayout) {
    && Image(b', root, rights, base)
    && Filled(b, rights, file, segments + [STACK])
    && BlockWritten(b, b', root, rights, base, l) && PrepareLayout(l.args) == Ok(l)
  }

  lemma StackIsPresent(b: Build, rights: map<nat, bool>, file: Bytes, segments: seq<ProgramHeader>)
    requires Filled(b, rights, file, segments + [STACK])
    ensures AllPresent(b.pages, USER_STACK_BASE, USER_STACK_TOP)
  {
    hide Peek, FirstRight, Content, Right, Covers, PageBase, FindPage;
    forall v: nat | USER_STACK_BASE <= v < USER_STACK_TOP ensures FindPage(b.pages, PageBase(v)).Some? {
      ByteIsCovered(STACK, v);
      PushRight(segments, STACK, PageBase(v));
    }
  }

  lemma FinishWorks(b: Build, root: nat, rights: map<nat, bool>, base: map<nat, Bytes>, q: Request, utf8: Utf8,
                    segments: seq<ProgramHeader>)
    returns (b1: Build, rights': map<nat, bool>, leak: multiset<nat>, l: ArgLayout)
    requires Image(b, root, rights, base) && Filled(b, rights, q.file, segments) && SoundSegments(segments)
    ensures var (b', r) := FinishProgram(b, root, q, utf8);
            && Keeps(b.space, b'.space, leak) && |leak| <= 2
            && (r.Ok? ==>
                  && leak == multiset{} && StartupArgs(q.argv0, q.tail, utf8) == Ok(l.args) && r.value == l.stackStart
                  && Finished(b1, b', root, rights', base, q.file, segments, l))
  {
    hide Image, Filled, Keeps, MapPagesFrom, StartupArgs, PrepareLayout, WriteBlock, BlockWritten, SoundSegments,
         FindPage;
    l := Startup.Layout([], 0, 0);
    rights', leak := StackWorks(b, root, rights, base, q.file, segments);
    var (b2, r) := MapPagesFrom(b, root, USER_STACK_BASE, USER_STACK_TOP, true);
    b1 := b2;
    var args := StartupArgs(q.argv0, q.tail, utf8);
    if r.Ok? && args.Ok? && PrepareLayout(args.value).Ok? {
      l := PrepareLayout(args.value).value;
      LayoutNamesArgs(args.value);
      StackIsPresent(b1, rights', q.file, segments);
      WriteBlockWorks(b1, root, rights', base, l);
      BlockKeeps(b, b1, WriteBlock(b1, l).0, root, rights', base, l);
    }
  }

  lemma LayoutNamesArgs(args: seq<Bytes>)
    ensures PrepareLayout(args).Ok? ==> PrepareLayout(args).value.args == args
  {
  }

  lemma BlockKeeps(b: Build, b1: Build, b2: Build, root: nat, rights: map<nat, bool>, base: map<nat, Bytes>,
                   l: ArgLayout)
    requires Keeps(b.space, b1.space, multiset{}) && BlockWritten(b1, b2, root, rights, base, l)
    ensures Keeps(b.space, b2.space, multiset{}) && Image(b2, root, rights, base)
  {
    hide Image, Contains, Peek, Frame, PointerBytes, Serialized, ToLe;
    FramesOwned(b2, root, rights, base);
    assert Keeps(b1.space, b2.space, multiset{});
    hide Keeps;
    KeepsTwice(b.space, b1.space, b2.space, multiset{});
  }

  // ---------------------------------------------------------------------------
  // From the image to what the processor sees.

  lemma FinishedRights(b: Build, b': Build, root: nat, rights: map<nat, bool>, s: Space, k: Kernel, file: Bytes,
                       segments: seq<ProgramHeader>, l: ArgLayout, v: nat)
    requires Finished(b, b', root, rights, s.frames, file, segments, l) && KernelOnly(s, root, k) && v < VIRT_LIMIT
    requires k.windowEnd <= VIRT_LIMIT && Walk(s.frames, root, v) == SharedAt(k, v)
    ensures UserRights(b'.space, root, segments, v) && SharedRights(b'.space, root, k, segments, v)
  {
    hide Walk, FirstRight, FindPage, Content, Contains, Peek, Right, HugeAt, PageBase, Sound, IsTable, Serialized,
         PointerBytes, ToLe, UserImages.Apart, SharedAt,
         PrepareLayout, ReadUser;
    assert Leads(b', root, rights, s.frames, v);
    FoundPage(b'.pages, PageBase(v));
    if FindPage(b'.pages, PageBase(v)).Some? {
      var page := FindPage(b'.pages, PageBase(v)).value;
      FrameIsAligned(b'.pages, page, v);
      var i :| 0 <= i < |b'.pages| && b'.pages[i] == page;
      UserPageIsLow(b'.pages, i, v);
    }
  }

  lemma UserPageIsLow(pages: seq<UserPage>, i: nat, v: nat)
    requires UserImages.Apart(pages) && i < |pages| && pages[i].virt == PageBase(v)
    ensures v < USER_STACK_TOP
  {
  }

  lemma FinishedContent(b: Build, b': Build, root: nat, rights: map<nat, bool>, base: map<nat, Bytes>, file: Bytes,
                        segments: seq<ProgramHeader>, l: ArgLayout, v: nat)
    requires Finished(b, b', root, rights, base, file, segments, l)
    requires v < USER_STACK_BASE && FirstRight(segments, PageBase(v)).Some?
    ensures ReadUser(b'.space.frames, root, v) == Some(Content(file, segments, v))
  {
    PushRight(segments, STACK, PageBase(v));
    PushContent(file, segments, STACK, v);
    hide Image, FirstRight, FindPage, Content, Contains, Peek, Right, PageBase, ReadUser;
    PeekFinds(b.space.frames, b.pages, v);
    PeekIsRead(b', root, rights, base, v);
  }

  /** A finished load, in the processor's terms. */
  lemma FinishedIsLoaded(b: Build, b': Build, root: nat, rights: map<nat, bool>, s: Space, k: Kernel, file: Bytes,
                         segments: seq<ProgramHeader>, l: ArgLayout)
    requires Finished(b, b', root, rights, s.frames, file, segments, l) && KernelOnly(s, root, k)
    requires k.windowEnd <= VIRT_LIMIT && SharedExactly(s, root, k)
    ensures LoadedSpace(b'.space, root, k, file, segments) && Sealed(b'.space.frames, root, b'.space.owned)
    ensures Block(UserMemory(b'.space.frames, root), l.stackStart, l.stringsStart, l.args)
  {
    TrackedImage(b', root, rights, s.frames);
    BlockIsReadable(b, b', root, rights, s.frames, l);
    KernelIsOutOfReach(s, root, k);
    ImageIsSealed(b', root, rights, s.frames);
    hide Finished, KernelOnly, Sealed, UserRights, SharedRights, ReadUser, Content, FirstRight, Good, SharedExactly;
    forall v: nat | v < VIRT_LIMIT
      ensures UserRights(b'.space, root, segments, v) && SharedRights(b'.space, root, k, segments, v)
    {
      SharedExactlyAt(s, root, k, v);
      FinishedRights(b, b', root, rights, s, k, file, segments, l, v);
    }
    forall v: nat | v < USER_STACK_BASE && FirstRight(segments, PageBase(v)).Some?
      ensures ReadUser(b'.space.frames, root, v) == Some(Content(file, segments, v))
    {
      FinishedContent(b, b', root, rights, s.frames, file, segments, l, v);
    }
  }

  lemma SharedExactlyAt(s: Space, root: nat, k: Kernel, v: nat)
    requires SharedExactly(s, root, k) && v < VIRT_LIMIT
    ensures Walk(s.frames, root, v) == SharedAt(k, v)
  {
    hide Walk, SharedAt;
  }

  lemma KernelIsOutOfReach(s: Space, root: nat, k: Kernel)
    requires KernelOnly(s, root, k)
    ensures forall v: nat :: v < VIRT_LIMIT ==> !UserReaches(s.frames, root, v)
  {
    hide Walk, HugeAt;
  }

  /** The loadable segments of a file, in table order. */
  function SegmentsOf(file: Bytes, h: ElfHeader): seq<ProgramHeader>
    requires TableFits(file, h)
  {
    Loadable(HeaderList(file, h, 0))
  }

  /** A fresh tree: nothing translates, nothing hangs below the root. */
  ghost predicate FreshTree(s: Space, root: nat) {
    && Good(s, root) && s.tracked
    && (forall v: nat :: v < VIRT_LIMIT ==> Walk(s.frames, root, v) == None)
    && (forall d: nat, q: nat :: !HugeAt(s.frames, root, d, q))
    && (forall q: nat :: TableAt(s.frames, root, 3, q).None?)
    && TablesOwned(s, root)
  }

  /** The whole load after the root page: on success the address space is as `LoadedSpace`
      says and the startup block is readable; on failure at most two pages are in flight. */
  lemma BuildProgramWorks(s: Space, root: nat, k: Kernel, h: ElfHeader, q: Request, utf8: Utf8)
    returns (leak: multiset<nat>, l: ArgLayout)
    requires FreshTree(s, root) && SoundLayout(k) && TableFits(q.file, h)
    ensures var (b', r) := BuildProgram(s, root, k, h, q, utf8);
            && Keeps(s, b'.space, leak) && |leak| <= 2
            && (r.Ok? ==>
                  && leak == multiset{} && StartupArgs(q.argv0, q.tail, utf8) == Ok(l.args) && r.value == l.stackStart
                  && SegmentsFit(q.file, SegmentsOf(q.file, h))
                  && LoadedSpace(b'.space, root, k, q.file, SegmentsOf(q.file, h)) &&
                       Sealed(b'.space.frames, root, b'.space.owned)
                  && Block(UserMemory(b'.space.frames, root), l.stackStart, l.stringsStart, l.args))
  {
    hide Sound, Sealed, Walk, HugeAt, TableAt, Keeps, StartupArgs, LoadedSpace, Block, TableFits, Contained,
         KernelOnly, MapShared, SharedExactly;
    hide LoadSegments, FinishProgram, Image, Filled, SoundSegments, SegmentsFit;
    l := Startup.Layout([], 0, 0);
    var shared := MapSharedWorks(s, root, k);
    var (s1, r0) := MapShared(s, root, k);
    leak := SharedKeeps(s, s1, root, k, r0.Ok?, shared);
    if r0.Ok? {
      StartsAsImage(s1, root, k, q.file);
      var rights, leak1 := LoadSegmentsWorks(Build(s1, []), root, map[], s1.frames, q.file, [],
          HeaderList(q.file, h, 0));
      var (b1, r1) := LoadSegments(Build(s1, []), root, q.file, HeaderList(q.file, h, 0));
      assert [] + SegmentsOf(q.file, h) == SegmentsOf(q.file, h);
      KeepsTwice(s, s1, b1.space, leak1);
      leak := leak1;
      if r1.Ok? {
        LoadedSegmentsFit(Build(s1, []), root, q.file, HeaderList(q.file, h, 0));
        leak, l := FinishBuild(s, s1, b1, root, rights, k, h, q, utf8);
      }
    }
  }

  lemma SharedKeeps(s: Space, s1: Space, root: nat, k: Kernel, ok: bool, shared: set<nat>) returns (leak: multiset<nat>)
    requires Shares(s, s1, root, k, ok, shared) && s.tracked && TablesOwned(s, root)
    ensures Keeps(s, s1, leak) && |leak| <= 2 && s1.tracked
    ensures ok ==> leak == multiset{} && Good(s1, root) && KernelOnly(s1, root, k) && TablesOwned(s1, root)
  {
    hide Sound, KernelOnly, KeepsMapped, IsTable, Frame;
    leak := multiset(shared);
    if ok {
      TablesStayOwned(s, s1, root, leak);
    }
  }

  lemma FinishBuild(s: Space, s1: Space, b: Build, root: nat, rights: map<nat, bool>, k: Kernel, h: ElfHeader,
                    q: Request, utf8: Utf8)
    returns (leak: multiset<nat>, l: ArgLayout)
    requires TableFits(q.file, h) && KernelOnly(s1, root, k) && SharedExactly(s1, root, k) && k.windowEnd <= VIRT_LIMIT
    requires Image(b, root, rights, s1.frames) && Filled(b, rights, q.file, SegmentsOf(q.file, h))
    requires SoundSegments(SegmentsOf(q.file, h))
    requires Keeps(s, b.space, multiset{})
    ensures var (b', r) := FinishProgram(b, root, q, utf8);
            && Keeps(s, b'.space, leak) && |leak| <= 2
            && (r.Ok? ==>
                  && leak == multiset{} && StartupArgs(q.argv0, q.tail, utf8) == Ok(l.args) && r.value == l.stackStart
                  && LoadedSpace(b'.space, root, k, q.file, SegmentsOf(q.file, h)) &&
                       Sealed(b'.space.frames, root, b'.space.owned)
                  && Block(UserMemory(b'.space.frames, root), l.stackStart, l.stringsStart, l.args))
  {
    hide Sealed, Keeps, StartupArgs, LoadedSpace, Block, TableFits, KernelOnly, SharedExactly, FinishProgram, Image,
         Filled, SoundSegments, Finished;
    var segments := SegmentsOf(q.file, h);
    hide SegmentsOf;
    var b1, rights1, leak1, l1 := FinishWorks(b, root, rights, s1.frames, q, utf8, segments);
    leak, l := leak1, l1;
    var (b', r) := FinishProgram(b, root, q, utf8);
    KeepsTwice(s, b.space, b'.space, leak);
    if r.Ok? {
      FinishedIsLoaded(b1, b', root, rights1, s1, k, q.file, segments, l);
    }
  }

  // ---------------------------------------------------------------------------
  // In place.

  /** The closure of `load_user_program`, after the root page. */
  method BuildImage(builder: AddressSpaceBuilder, pages: UserPageMap, k: Kernel, h: ElfHeader, q: Request, utf8: Utf8)
    returns (r: Result<nat, LoadError>)
    requires Ready(builder, pages) && pages.View() == [] && TableFits(q.file, h) && |q.file| <= U64_MAX
    requires FreshTree(builder.View(), builder.root) && SoundLayout(k)
    modifies builder.Footprint(), pages, pages.slots
    ensures Ready(builder, pages)
    ensures (ViewOf(builder, pages), r) == BuildProgram(old(builder.View()), builder.root, k, h, q, utf8)
  {
    hide FreshTree, SoundLayout, MapShared, LoadSegments, FinishProgram, TableFits;
    ghost var s := builder.View();
    var shared := MapSharedKernelContext(builder, k);
    if shared.Err? { return Err(NoMemory(shared.error)); }
    ghost var s1 := builder.View();
    var loaded := LoadAllSegments(builder, pages, q.file, h);
    if loaded.Err? { return Err(loaded.error); }
    NoSegmentOnStack(s, s1, builder.root, k, h, q);
    r := FinishImage(builder, pages, q, utf8);
  }

  /** After the loading loop the stack pages are still unrecorded. */
  lemma NoSegmentOnStack(s: Space, s1: Space, root: nat, k: Kernel, h: ElfHeader, q: Request)
    requires FreshTree(s, root) && SoundLayout(k) && TableFits(q.file, h)
    requires MapShared(s, root, k).0 == s1 && MapShared(s, root, k).1.Ok?
    ensures var (b, r) := LoadSegments(Build(s1, []), root, q.file, HeaderList(q.file, h, 0));
            r.Ok? ==> forall x: nat :: USER_STACK_BASE <= x ==> FindPage(b.pages, x).None?
  {
    hide Sound, Walk, HugeAt, TableAt, Keeps, TableFits, Contained, KernelOnly, MapShared, LoadSegments, Image, Filled,
         SoundSegments;
    var shared := MapSharedWorks(s, root, k);
    var _ := SharedKeeps(s, s1, root, k, true, shared);
    StartsAsImage(s1, root, k, q.file);
    var rights, _ := LoadSegmentsWorks(Build(s1, []), root, map[], s1.frames, q.file, [], HeaderList(q.file, h, 0));
    var (b, r) := LoadSegments(Build(s1, []), root, q.file, HeaderList(q.file, h, 0));
    if r.Ok? {
      var _, _ := StackWorks(b, root, rights, s1.frames, q.file, [] + SegmentsOf(q.file, h));
    }
  }

  method FinishImage(builder: AddressSpaceBuilder, pages: UserPageMap, q: Request, utf8: Utf8)
    returns (r: Result<nat, LoadError>)
    requires Ready(builder, pages) && forall x: nat :: USER_STACK_BASE <= x ==> FindPage(pages.View(), x).None?
    modifies builder.Footprint(), pages, pages.slots
    ensures Ready(builder, pages)
    ensures (ViewOf(builder, pages), r) == FinishProgram(old(ViewOf(builder, pages)), builder.root, q, utf8)
  {
    hide MapPagesFrom, StartupArgs, PrepareLayout, WriteBlock;
    var mapped := MapStack(builder, pages);
    if mapped.Err? { return Err(mapped.error); }
    var args := SplitArguments(q.argv0, q.tail, utf8);
    if args.Err? { return Err(args.error); }
    var layout := PrepareStartupLayout(args.value);
    if layout.Err? { return Err(layout.error); }
    LayoutNamesArgs(args.value);
    r := WriteStartupArguments(builder, pages, layout.value);
  }

  datatype Outcome =
    | Loaded(root: nat, entry: nat, stackTop: nat, owned: OwnedPages)
    | Failed(error: LoadError)
    | Panicked

  predicate ContainsUserAddress(address: nat) {
    USER_IMAGE_BASE <= address < USER_STACK_TOP
  }

  /** Pages that left the free set are owned, but for at most `n` in flight. */
  ghost predicate Accounted(before: set<nat>, free: set<nat>, owned: seq<nat>, n: nat) {
    exists leak: multiset<nat> :: |leak| <= n && multiset(before) == multiset(free) + multiset(owned) + leak
  }

  /** What a completed load hands over. */
  ghost predicate Complete(s: Space, before: set<nat>, root: nat, stackTop: nat, k: Kernel, h: ElfHeader, q: Request,
                           utf8: Utf8) {
    && TableFits(q.file, h) && SegmentsFit(q.file, SegmentsOf(q.file, h))
    && LoadedSpace(s, root, k, q.file, SegmentsOf(q.file, h)) && Sealed(s.frames, root, s.owned) && root in s.owned
    && multiset(before) == multiset(s.free) + multiset(s.owned)
    && exists l: ArgLayout :: StartupArgs(q.argv0, q.tail, utf8) == Ok(l.args) && stackTop == l.stackStart
                              && Block(UserMemory(s.frames, root), l.stackStart, l.stringsStart, l.args)
  }

  /** Pages outside `pages` are not written. */
  ghost predicate SameOutside(frames: map<nat, Bytes>, frames': map<nat, Bytes>, pages: set<nat>) {
    forall f: nat :: f !in pages ==> Frame(frames', f) == Frame(frames, f)
  }

  /** The image is complete, or at most two pages are in flight; only pages that were free are written. */
  lemma BuildAccounts(before: set<nat>, s: Space, root: nat, k: Kernel, h: ElfHeader, q: Request, utf8: Utf8)
    requires FreshTree(s, root) && SoundLayout(k) && TableFits(q.file, h)
    requires root in before && s.owned == [root] && s.free == before - {root}
    ensures var (b', r) := BuildProgram(s, root, k, h, q, utf8);
            && Accounted(before, b'.space.free, b'.space.owned, 2) && SameOutside(s.frames, b'.space.frames, before)
            && (r.Ok? ==> Complete(b'.space, before, root, r.value, k, h, q, utf8))
  {
    hide FreshTree, SoundLayout, BuildProgram, LoadedSpace, Sealed, StartupArgs, Block, TableFits, SegmentsOf,
         SegmentsFit, UserMemory;
    var leak, l := BuildProgramWorks(s, root, k, h, q, utf8);
    var (b', r) := BuildProgram(s, root, k, h, q, utf8);
    assert before == (before - {root}) + {root};
    assert multiset(before) == multiset(s.free) + multiset(s.owned);
    assert multiset(before) == multiset(b'.space.free) + multiset(b'.space.owned) + leak;
    if r.Ok? {
      RootIsNotFree(b'.space, root, k, q.file, SegmentsOf(q.file, h));
      RootIsOwned(before, b'.space, root);
    }
  }

  lemma RootIsNotFree(s: Space, root: nat, k: Kernel, file: Bytes, segments: seq<ProgramHeader>)
    requires LoadedSpace(s, root, k, file, segments)
    ensures root !in s.free
  {
    assert TableAt(s.frames, root, 0, 0) == Some(root);
    hide TableAt, UserRights, SharedRights, ReadUser, Permissive, Separate;
  }

  lemma RootIsOwned(before: set<nat>, s: Space, root: nat)
    requires root in before && root !in s.free && multiset(before) == multiset(s.free) + multiset(s.owned)
    ensures root in s.owned
  {
    assert root in multiset(before);
  }

  /** A zeroed page just taken is a fresh tree. */
  lemma TakenRoot(s: Space, before: set<nat>, root: nat)
    requires root in before && s.free == before - {root} && forall p :: p in before ==> IsFrame(p)
    requires Frame(s.frames, root) == ZeroPage() && s.tracked && root in s.owned
    ensures FreshTree(s, root)
  {
    hide Walk, HugeAt, TableAt, Sound, ZeroPage, IsTable;
    EmptyRoot(s, root);
  }

  /** The root page, owned first. */
  method TakeRoot(memory: PhysicalMemory, owned: OwnedPages) returns (root: Option<nat>)
    requires memory.Valid() && owned.Valid() && owned.View() == []
    requires forall p :: p in memory.Free() ==> IsFrame(p)
    modifies memory, memory.allocator, memory.allocator.regions, owned, owned.pages
    ensures memory.Valid() && owned.Valid()
    ensures root.None? <==> old(memory.Free()) == {}
    ensures root.None? ==> memory.frames == old(memory.frames) && memory.Free() == {} && owned.View() == []
    ensures root.Some? ==>
              && root.value == Lowest(old(memory.Free()))
              && Space(memory.frames, memory.Free(), owned.View(), true) ==
                   RootTaken(old(memory.frames), old(memory.Free()))
              && FreshTree(RootTaken(old(memory.frames), old(memory.Free())), root.value)
  {
    hide FreshTree, ZeroPage;
    ghost var before := memory.Free();
    root := memory.AllocatePage();
    if root.Some? {
      var pushed := owned.Push(root.value);
      TakenRoot(Space(memory.frames, memory.Free(), owned.View(), true), before, root.value);
    }
  }

  /** Memory when the zeroed root is all that has been taken. */
  ghost function RootTaken(frames: map<nat, Bytes>, free: set<nat>): Space
    requires free != {}
  {
    Space(frames[Lowest(free) := ZeroPage()], free - {Lowest(free)}, [Lowest(free)], true)
  }

  /** The load as a function of memory: what is left of it, and the root and the stack top. */
  ghost function WholeLoad(frames: map<nat, Bytes>, free: set<nat>, k: Kernel, h: ElfHeader, q: Request, utf8: Utf8)
    : (Space, Result<(nat, nat), LoadError>)
    requires TableFits(q.file, h)
  {
    if free == {} then (Space(frames, free, [], true), Err(NoMemory(AllocatorExhausted)))
    else
      var (b, r) := BuildProgram(RootTaken(frames, free), Lowest(free), k, h, q, utf8);
      (b.space, if r.Err? then Err(r.error) else Ok((Lowest(free), r.value)))
  }

  /** A load from any free pages: the program is complete, or at most two pages are in flight. */
  lemma WholeLoadWorks(frames: map<nat, Bytes>, free: set<nat>, k: Kernel, h: ElfHeader, q: Request, utf8: Utf8)
    requires SoundLayout(k) && TableFits(q.file, h) && forall p :: p in free ==> IsFrame(p)
    ensures var (s, r) := WholeLoad(frames, free, k, h, q, utf8);
            && Accounted(free, s.free, s.owned, 2) && SameOutside(frames, s.frames, free)
            && (r.Ok? ==> Complete(s, free, r.value.0, r.value.1, k, h, q, utf8))
  {
    hide SoundLayout, TableFits, Complete, FreshTree, LoadedSpace, Accounted, BuildProgram, RootTaken;
    if free == {} {
      NothingTaken(free);
    } else {
      RootTakenParts(frames, free);
      RootIsZero(frames, free);
      TakenRoot(RootTaken(frames, free), free, Lowest(free));
      BuildAccounts(free, RootTaken(frames, free), Lowest(free), k, h, q, utf8);
      RootIsTaken(frames, free);
      var (b, r) := BuildProgram(RootTaken(frames, free), Lowest(free), k, h, q, utf8);
      assert WholeLoad(frames, free, k, h, q, utf8) ==
               (b.space, if r.Err? then Err(r.error) else Ok((Lowest(free), r.value)));
    }
  }

  lemma RootIsTaken(frames: map<nat, Bytes>, free: set<nat>)
    requires free != {}
    ensures SameOutside(frames, RootTaken(frames, free).frames, free)
  {
    hide ZeroPage;
  }

  lemma RootIsZero(frames: map<nat, Bytes>, free: set<nat>)
    requires free != {}
    ensures Frame(RootTaken(frames, free).frames, Lowest(free)) == ZeroPage()
  {
    assert |ZeroPage()| == PAGE_SIZE;
  }

  /** Everything that records pages in `owned`. */
  method LoadInto(memory: PhysicalMemory, k: Kernel, h: ElfHeader, q: Request, utf8: Utf8, owned: OwnedPages)
    returns (r: Result<(nat, nat), LoadError>)
    requires memory.Valid() && owned.Valid() && owned.View() == [] && |q.file| <= U64_MAX && SoundLayout(k)
    requires TableFits(q.file, h)
    requires forall p :: p in memory.Free() ==> IsFrame(p)
    modifies memory, memory.allocator, memory.allocator.regions, owned, owned.pages
    ensures memory.Valid() && owned.Valid()
    ensures (Space(memory.frames, memory.Free(), owned.View(), true), r)
            == WholeLoad(old(memory.frames), old(memory.Free()), k, h, q, utf8)
    ensures Accounted(old(memory.Free()), memory.Free(), owned.View(), 2)
    ensures r.Ok? ==> Complete(Space(memory.frames, memory.Free(), owned.View(), true), old(memory.Free()),
                               r.value.0, r.value.1, k, h, q, utf8)
  {
    hide SoundLayout, TableFits, Complete, FreshTree, LoadedSpace, Accounted, BuildProgram, RootTaken;
    ghost var before := memory.Free();
    var root := TakeRoot(memory, owned);
    if root.None? {
      NothingTaken(before);
      return Err(NoMemory(AllocatorExhausted));
    }
    RootTakenParts(old(memory.frames), before);
    var builder := new AddressSpaceBuilder(memory, root.value, owned);
    var pages := new UserPageMap();
    BuildAccounts(before, builder.View(), root.value, k, h, q, utf8);
    var built := BuildImage(builder, pages, k, h, q, utf8);
    return if built.Ok? then Ok((root.value, built.value)) else Err(built.error);
  }

  lemma RootTakenParts(frames: map<nat, Bytes>, free: set<nat>)
    requires free != {}
    ensures var s := RootTaken(frames, free);
            Lowest(free) in free && s.owned == [Lowest(free)] && s.free == free - {Lowest(free)} && s.tracked
  {
  }

  lemma NothingTaken(before: set<nat>)
    ensures Accounted(before, before, [], 2)
  {
    assert multiset(before) == multiset(before) + multiset{} + multiset{};
  }

  /** Releasing what is owned leaves only the pages in flight outside the free set. */
  lemma ReleaseAccounts(before: set<nat>, mid: set<nat>, owned: seq<nat>)
    requires Accounted(before, mid, owned, 2)
    ensures Accounted(before, mid + Elements(owned), [], 2)
    ensures forall p :: p in owned ==> p in before
  {
    var leak: multiset<nat> :| |leak| <= 2 && multiset(before) == multiset(mid) + multiset(owned) + leak;
    forall p | p in owned ensures p in before && p !in mid && multiset(owned)[p] == 1 {
      assert p in multiset(owned) && multiset(before)[p] <= 1;
    }
    var free := mid + Elements(owned);
    forall p ensures multiset(free)[p] == multiset(mid)[p] + multiset(owned)[p] {
      if p in owned { assert p in free; } else { assert p !in multiset(owned); }
    }
    assert multiset(free) == multiset(mid) + multiset(owned);
    assert multiset(before) == multiset(free) + multiset([]) + leak;
  }

  /** A load: the file is parsed, everything is built, and on any failure whatever was
      recorded as owned goes back to the allocator, unless giving it back would take more
      intervals than the allocator's table has. */
  method LoadUserProgram(memory: PhysicalMemory, k: Kernel, q: Request, utf8: Utf8) returns (r: Outcome)
    requires memory.Valid() && |q.file| <= U64_MAX && SoundLayout(k)
    requires forall p :: p in memory.Free() ==> IsFrame(p)
    modifies memory, memory.allocator, memory.allocator.regions
    ensures var h := ParseHeader(q.file);
            if h.Err? then
              && r == Failed(BadElf(h.error))
              && memory.Free() == old(memory.Free()) && memory.frames == old(memory.frames)
            else if !ContainsUserAddress(h.value.entry) then
              r == Failed(UserImageOutOfRange) && memory.Free() == old(memory.Free()) &&
                  memory.frames == old(memory.frames)
            else LoadEnds(memory, r, h.value.entry, old(memory.Free()), k, h.value, q, utf8,
                          WholeLoad(old(memory.frames), old(memory.Free()), k, h.value, q, utf8))
    ensures !r.Panicked? ==> memory.Valid()
    ensures r.Loaded? ==> fresh(r.owned) && fresh(r.owned.pages)
    ensures r.Failed? ==> Accounted(old(memory.Free()), memory.Free(), [], 2)
  {
    hide ParseHeader, TableFits, Complete, SoundLayout, WholeLoad, Accounted, FreePages, IsPage;
    ghost var before := memory.Free();
    NothingTaken(before);
    ParsedTableFits(q.file);
    var header := ParseHeader(q.file);
    if header.Err? { return Failed(BadElf(header.error)); }
    var h := header.value;
    if !ContainsUserAddress(h.entry) { return Failed(UserImageOutOfRange); }
    var owned := new OwnedPages();
    var loaded := LoadInto(memory, k, h, q, utf8, owned);
    if loaded.Ok? { return Loaded(loaded.value.0, h.entry, loaded.value.1, owned); }
    ReleaseAccounts(before, memory.Free(), owned.View());
    FreeArePages(old(memory.allocator.View()));
    var released := owned.Release(memory.allocator);
    if !released { return Panicked; }
    return Failed(loaded.error);
  }

  /** How a load ends, given what `WholeLoad` says: the program is complete, or its error is
      reported with every recorded page back in the free set, if the table can hold it. */
  ghost predicate LoadEnds(memory: PhysicalMemory, r: Outcome, entry: nat, before: set<nat>, k: Kernel, h: ElfHeader,
                           q: Request, utf8: Utf8, load: (Space, Result<(nat, nat), LoadError>))
    reads memory, memory.allocator, memory.allocator.regions, if r.Loaded? then {r.owned, r.owned.pages} else {}
  {
    match load.1
    case Ok((root, stackTop)) =>
      && r.Loaded? && r.root == root && r.entry == entry && r.stackTop == stackTop && r.owned.Valid()
      && load.0 == Space(memory.frames, memory.Free(), r.owned.View(), true)
      && Complete(load.0, before, root, stackTop, k, h, q, utf8)
    case Err(e) =>
      if Releasable(load.0.free, load.0.owned) then
        r == Failed(e) && memory.Free() == load.0.free + Elements(load.0.owned) && memory.frames == load.0.frames
      else r == Panicked
  }

  lemma FreeArePages(t: Table)
    requires Canonical(t) && Aligned(t)
    ensures forall p :: p in FreePages(t) ==> IsPage(p)
  {
    forall p | p in FreePages(t) ensures IsPage(p) {
      WholePageIsFree(t, p, p + PAGE_SIZE - 1);
      CoveredIsBounded(t, p);
      CoveredIsBounded(t, p + PAGE_SIZE - 1);
    }
  }

  // ---------------------------------------------------------------------------
  // Consequences.

  ghost predicate Within(h: ProgramHeader, v: nat) {
    h.virtualAddress <= v < h.virtualAddress + h.memorySize
  }

  /** No byte belongs to two segments. */
  ghost predicate ByteDisjoint(segments: seq<ProgramHeader>) {
    forall i, j, v: nat :: 0 <= i < j < |segments| && Within(segments[i], v) ==> !Within(segments[j], v)
  }

  /** With byte-disjoint segments, whether or not they share pages, a segment's byte is the
      file's byte below `fileSize` and zero from there to `memorySize`. */
  lemma {:induction false} DisjointContent(file: Bytes, segments: seq<ProgramHeader>, i: nat, v: nat)
    requires ByteDisjoint(segments) && SoundSegments(segments) && i < |segments| && Within(segments[i], v)
    requires segments[i].offset + segments[i].fileSize <= |file|
    ensures var h := segments[i];
            Content(file, segments, v) ==
            if v - h.virtualAddress < h.fileSize then file[h.offset + (v - h.virtualAddress)] else 0
    decreases |segments|
  {
    var n := |segments| - 1;
    if i == n {
      forall j | 0 <= j < n ensures !FileCovers(segments[j], file, v) {
        assert !Within(segments[j], v);
      }
      NothingBefore(file, segments[..n], v);
    } else {
      assert Within(segments[i], v) ==> !Within(segments[n], v);
      assert forall a, b, x: nat :: 0 <= a < b < n && Within(segments[..n][a], x) ==> !Within(segments[..n][b], x) by {
        forall a, b, x: nat | 0 <= a < b < n && Within(segments[..n][a], x) ensures !Within(segments[..n][b], x) {
          assert segments[..n][a] == segments[a] && segments[..n][b] == segments[b];
        }
      }
      DisjointContent(file, segments[..n], i, v);
    }
  }

  lemma {:induction false} NothingBefore(file: Bytes, segments: seq<ProgramHeader>, v: nat)
    requires forall j :: 0 <= j < |segments| ==> !FileCovers(segments[j], file, v)
    ensures Content(file, segments, v) == 0
  {
    if segments != [] {
      NothingBefore(file, segments[..|segments| - 1], v);
    }
  }

  /** After a load whose segments share no byte, each byte of a segment, read by user code through
      the page tables, is the file's byte below `fileSize` and zero from there to `memorySize`. */
  lemma SegmentBytesArrive(s: Space, before: set<nat>, root: nat, stackTop: nat, k: Kernel, h: ElfHeader, q: Request,
                           utf8: Utf8,
                           i: nat, v: nat)
    requires Complete(s, before, root, stackTop, k, h, q, utf8) && ByteDisjoint(SegmentsOf(q.file, h))
    requires i < |SegmentsOf(q.file, h)| && Within(SegmentsOf(q.file, h)[i], v)
    ensures var p := SegmentsOf(q.file, h)[i];
            && p.offset + p.fileSize <= |q.file|
            && ReadUser(s.frames, root, v) ==
               Some(if v - p.virtualAddress < p.fileSize then q.file[p.offset + (v - p.virtualAddress)] else 0)
  {
    hide TableFits, SegmentsOf, ByteDisjoint, UserRights, SharedRights, Good, ReadUser, StartupArgs, Block, FirstRight,
         Content, PageBase, Covers;
    var segments := SegmentsOf(q.file, h);
    DisjointContent(q.file, segments, i, v);
    ByteIsCovered(segments[i], v);
    CoveredHasRight(segments, i, PageBase(v));
  }

  lemma {:induction false} CoveredHasRight(segments: seq<ProgramHeader>, i: nat, x: nat)
    requires i < |segments| && Covers(segments[i], x)
    ensures FirstRight(segments, x).Some?
    decreases |segments|
  {
    hide Covers;
    var n := |segments| - 1;
    if i < n {
      CoveredHasRight(segments[..n], i, x);
    }
  }

  /** All arguments, as a program that iterates to the end sees them. */
  method CollectArguments(m: Memory, utf8: Utf8, stack: nat, ghost strings: nat, ghost args: seq<Bytes>)
    returns (found: seq<Bytes>)
    requires Block(m, stack, strings, args) && NoNul(args) && forall i :: 0 <= i < |args| ==> utf8(args[i])
    ensures found == args
  {
    var reader := new Args(m, utf8, stack, strings, args);
    found := [];
    hide Block;
    while true
      invariant fresh(reader) && reader.Valid() && reader.args == args && reader.utf8 == utf8
      invariant reader.index == |found| <= |args| && found == args[..|found|]
      decreases |args| - |found|
    {
      var item := reader.Next();
      if item.None? { break; }
      found := found + [item.value];
    }
  }

  /** From the parent's spawn call to the child: when a load with the serialized arguments
      completes, the child's argument block holds argv0 followed by exactly those arguments. */
  lemma ArgumentsArrive(s: Space, before: set<nat>, root: nat, stackTop: nat, k: Kernel, h: ElfHeader, q: Request,
                        utf8: Utf8,
                        args: seq<Bytes>)
    returns (strings: nat)
    requires Complete(s, before, root, stackTop, k, h, q, utf8) && q.tail == Serialized(args) && NoNul(args)
    ensures Block(UserMemory(s.frames, root), stackTop, strings, [q.argv0] + args)
    ensures NoNul([q.argv0] + args) && |args| < MAX_STARTUP_ARGS
    ensures forall i :: 0 <= i < |[q.argv0] + args| ==> utf8(([q.argv0] + args)[i])
    ensures forall i :: 0 <= i < |args| ==> args[i] != []
  {
    hide Block, LoadedSpace, TableFits, UserMemory, SplitTail;
    var l: ArgLayout :| StartupArgs(q.argv0, q.tail, utf8) == Ok(l.args) && stackTop == l.stackStart
                        && Block(UserMemory(s.frames, root), l.stackStart, l.stringsStart, l.args);
    TailRoundTrip(q.argv0, args, utf8);
    assert forall i :: 0 <= i < |args| ==> Accepted(args[i], utf8);
    strings := l.stringsStart;
  }

  /** Arguments the library can serialize, and a path the kernel can resolve, always fit. */
  lemma AcceptedArgumentsFit(argv0: Bytes, args: seq<Bytes>, utf8: Utf8)
    requires utf8(argv0) && NUL !in argv0 && |argv0| <= 256 && NoNul(args) && |Serialized(args)| <= 512
    requires |args| < MAX_STARTUP_ARGS && forall i :: 0 <= i < |args| ==> Accepted(args[i], utf8)
    ensures StartupArgs(argv0, Serialized(args), utf8) == Ok([argv0] + args) && PrepareLayout([argv0] + args).Ok?
  {
    TailRoundTrip(argv0, args, utf8);
    SerializedFirst([argv0] + args);
    assert ([argv0] + args)[1..] == args;
    SmallArgumentsFit([argv0] + args);
  }
}
