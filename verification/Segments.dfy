// Loading the segments of an ELF file into a user image
// (kernel/kernel/src/memory/loader.rs:39-106; System V gABI, chapter 5,
// Program Header): what every mapped byte holds and who may write it.
module Segments {
  import opened Prelude
  import opened Words
  import opened PageOwnership
  import opened Paging
  import opened Elf
  import opened UserImages

  function PageStart(h: ProgramHeader): nat { AlignDown(h.virtualAddress, PAGE_SIZE) }

  function PageEnd(h: ProgramHeader): nat { AlignUp(h.virtualAddress + h.memorySize, PAGE_SIZE) }

  /** The segment's end overflows, it leaves the user image range, or its memory is smaller than
      its file part. */
  predicate OutOfBounds(h: ProgramHeader) {
    || h.virtualAddress + h.memorySize > U64_MAX
    || h.virtualAddress < USER_IMAGE_BASE || h.virtualAddress + h.memorySize > USER_STACK_BASE ||
         h.memorySize < h.fileSize
  }

  /** One PT_LOAD header: its pages are mapped first, its file bytes copied after. */
  ghost function LoadSegment(b: Build, root: nat, file: Bytes, h: ProgramHeader): (Build, Result<(), LoadError>) {
    if OutOfBounds(h) then (b, Err(UserImageOutOfRange))
    else
      var (b1, r) := MapPagesFrom(b, root, PageStart(h), PageEnd(h), h.IsWritable());
      if r.Err? then (b1, r) else FillSegment(b1, file, h)
  }

  ghost function FillSegment(b: Build, file: Bytes, h: ProgramHeader): (Build, Result<(), LoadError>) {
    var range := h.FileRange(|file|);
    if range.Err? then (b, Err(BadElf(range.error)))
    else
      var (frames', ok) := CopyPages(b.space.frames, b.pages, h.virtualAddress, file[range.value.0..range.value.1]);
      (b.(space := b.space.(frames := frames')), if ok then Ok(()) else Err(UserImageOutOfRange))
  }

  ghost function LoadSegments(b: Build, root: nat, file: Bytes, headers: seq<Result<ProgramHeader, ElfError>>)
    : (Build, Result<(), LoadError>)
    decreases |headers|
  {
    if headers == [] then (b, Ok(()))
    else if headers[0].Err? then (b, Err(BadElf(headers[0].error)))
    else if headers[0].value.kind != PT_LOAD then LoadSegments(b, root, file, headers[1..])
    else
      var (b1, r) := LoadSegment(b, root, file, headers[0].value);
      if r.Err? then (b1, r) else LoadSegments(b1, root, file, headers[1..])
  }

  // ---------------------------------------------------------------------------
  // What the image should be.

  predicate Covers(h: ProgramHeader, x: nat) {
    x % PAGE_SIZE == 0 && PageStart(h) <= x < PageEnd(h)
  }

  /** Whether page `x` is covered, and whether the first segment covering it is writable. */
  function FirstRight(segments: seq<ProgramHeader>, x: nat): Option<bool> {
    if segments == [] then None
    else
      var n := |segments| - 1;
      var before := FirstRight(segments[..n], x);
      if before.Some? then before
      else if Covers(segments[n], x) then Some(segments[n].IsWritable())
      else None
  }

  predicate FileCovers(h: ProgramHeader, file: Bytes, v: nat) {
    h.virtualAddress <= v < h.virtualAddress + h.fileSize && h.offset + (v - h.virtualAddress) < |file|
  }

  /** The byte at `v`: from the last segment whose file part covers it, else zero. */
  function Content(file: Bytes, segments: seq<ProgramHeader>, v: nat): Byte {
    if segments == [] then 0
    else
      var last := segments[|segments| - 1];
      if FileCovers(last, file, v) then file[last.offset + (v - last.virtualAddress)]
      else Content(file, segments[..|segments| - 1], v)
  }

  /** The recorded pages are those the segments cover, with the first segment's right, and
      every byte of them is as `Content` says. */
  ghost predicate Filled(b: Build, rights: map<nat, bool>, file: Bytes, segments: seq<ProgramHeader>) {
    && (forall x: nat :: FindPage(b.pages, x).Some? <==> FirstRight(segments, x).Some?)
    && (forall x: nat :: FirstRight(segments, x).Some? ==> Right(rights, x) == FirstRight(segments, x).value)
    && (forall v: nat :: Peek(b.space.frames, b.pages, v).Some? ==>
          Peek(b.space.frames, b.pages, v) == Some(Content(file, segments, v)))
  }

  ghost predicate SoundSegments(segments: seq<ProgramHeader>) {
    forall i :: 0 <= i < |segments| ==>
      && segments[i].fileSize <= segments[i].memorySize
      && USER_IMAGE_BASE <= segments[i].virtualAddress
      && segments[i].virtualAddress + segments[i].memorySize <= USER_STACK_BASE
  }

  /** Sound segments whose file parts lie in the file. */
  ghost predicate SegmentsFit(file: Bytes, segments: seq<ProgramHeader>) {
    SoundSegments(segments) && forall i :: 0 <= i < |segments| ==> segments[i].offset + segments[i].fileSize <= |file|
  }

  /** What loads successfully was checked: every segment is sound and in the file. */
  lemma {:induction false} LoadedSegmentsFit(b: Build, root: nat, file: Bytes,
                                             headers: seq<Result<ProgramHeader, ElfError>>)
    requires LoadSegments(b, root, file, headers).1.Ok?
    ensures SegmentsFit(file, Loadable(headers))
    decreases |headers|
  {
    hide MapPagesFrom, CopyPages;
    if headers != [] {
      var first := headers[0].value;
      if first.kind == PT_LOAD {
        LoadedSegmentsFit(LoadSegment(b, root, file, first).0, root, file, headers[1..]);
      } else {
        LoadedSegmentsFit(b, root, file, headers[1..]);
      }
    }
  }

  lemma PushRight(segments: seq<ProgramHeader>, h: ProgramHeader, x: nat)
    ensures FirstRight(segments + [h], x) ==
            if FirstRight(segments, x).Some? then FirstRight(segments, x)
            else if Covers(h, x) then Some(h.IsWritable()) else None
  {
    assert (segments + [h])[..|segments|] == segments;
  }

  lemma PushContent(file: Bytes, segments: seq<ProgramHeader>, h: ProgramHeader, v: nat)
    ensures Content(file, segments + [h], v) ==
            if FileCovers(h, file, v) then file[h.offset + (v - h.virtualAddress)] else Content(file, segments, v)
  {
    assert (segments + [h])[..|segments|] == segments;
  }

  lemma ByteIsCovered(h: ProgramHeader, v: nat)
    requires h.virtualAddress <= v < h.virtualAddress + h.memorySize
    ensures Covers(h, PageBase(v))
  {
    var a, m := h.virtualAddress, h.memorySize;
    assert PageBase(v) % PAGE_SIZE == 0;
    assert a / PAGE_SIZE <= v / PAGE_SIZE;
    assert v / PAGE_SIZE <= (a + m - 1) / PAGE_SIZE;
    assert (a + m + PAGE_SIZE - 1) / PAGE_SIZE == (a + m - 1) / PAGE_SIZE + 1;
    assert AlignDown(a, PAGE_SIZE) == a / PAGE_SIZE * PAGE_SIZE && PageBase(v) == v / PAGE_SIZE * PAGE_SIZE;
    assert PageEnd(h) == (a + m + PAGE_SIZE - 1) / PAGE_SIZE * PAGE_SIZE;
  }

  /** Outside the covered pages there is nothing but zeros. */
  lemma {:induction false} UncoveredIsZero(file: Bytes, segments: seq<ProgramHeader>, v: nat)
    requires SoundSegments(segments) && FirstRight(segments, PageBase(v)).None?
    ensures Content(file, segments, v) == 0
  {
    if segments != [] {
      var n := |segments| - 1;
      UncoveredIsZero(file, segments[..n], v);
      if FileCovers(segments[n], file, v) {
        ByteIsCovered(segments[n], v);
      }
    }
  }

  // ---------------------------------------------------------------------------
  // Each step.

  /** With its pages mapped, a segment counts as one without file bytes. */
  lemma MappedIsFilled(b: Build, b': Build, rights: map<nat, bool>, rights': map<nat, bool>, file: Bytes,
                       segments: seq<ProgramHeader>, h: ProgramHeader)
    requires Filled(b, rights, file, segments) && SoundSegments(segments) && h.fileSize == 0
    requires AddsPages(b, b', rights, rights', PageStart(h), PageEnd(h), h.IsWritable())
    ensures Filled(b', rights', file, segments + [h])
  {
    hide FindPage, Peek, FirstRight, Content, PageStart, PageEnd, ProgramHeader.IsWritable, Right;
    forall x: nat
      ensures FindPage(b'.pages, x).Some? <==> FirstRight(segments + [h], x).Some?
      ensures FirstRight(segments + [h], x).Some? ==> Right(rights', x) == FirstRight(segments + [h], x).value
    {
      PushRight(segments, h, x);
      assert Covers(h, x) <==> InPages(x, PageStart(h), PageEnd(h));
    }
    forall v: nat | Peek(b'.space.frames, b'.pages, v).Some?
      ensures Peek(b'.space.frames, b'.pages, v) == Some(Content(file, segments + [h], v))
    {
      PushContent(file, segments, h, v);
      if FindPage(b.pages, PageBase(v)).None? { UncoveredIsZero(file, segments, v); }
      PeekFinds(b.space.frames, b.pages, v);
    }
  }

  lemma PeekFinds(frames: map<nat, Bytes>, pages: seq<UserPage>, v: nat)
    ensures Peek(frames, pages, v).Some? <==> FindPage(pages, PageBase(v)).Some?
  {
  }

  /** Copying the file bytes makes it the whole segment. */
  lemma CopiedIsFilled(b: Build, b': Build, rights: map<nat, bool>, file: Bytes, segments: seq<ProgramHeader>,
                       h: ProgramHeader)
    requires Filled(b, rights, file, segments + [h.(fileSize := 0)]) && h.offset + h.fileSize <= |file|
    requires b' == b.(space := b.space.(frames := b'.space.frames))
    requires Copied(b.space.frames, b'.space.frames, b.pages, h.virtualAddress, file[h.offset..h.offset + h.fileSize])
    ensures Filled(b', rights, file, segments + [h])
  {
    var bare := h.(fileSize := 0);
    hide FindPage, Peek, FirstRight, Content, Right, Frame, FileCovers, PageBase;
    forall x: nat ensures FirstRight(segments + [h], x) == FirstRight(segments + [bare], x) {
      SamePagesCovered(segments, h, x);
    }
    forall v: nat | Peek(b'.space.frames, b'.pages, v).Some?
      ensures Peek(b'.space.frames, b'.pages, v) == Some(Content(file, segments + [h], v))
    {
      CopiedContent(file, segments, h, v);
      PeekFinds(b.space.frames, b.pages, v);
      PeekFinds(b'.space.frames, b.pages, v);
    }
  }

  lemma SamePagesCovered(segments: seq<ProgramHeader>, h: ProgramHeader, x: nat)
    ensures FirstRight(segments + [h], x) == FirstRight(segments + [h.(fileSize := 0)], x)
  {
    hide FirstRight;
    PushRight(segments, h, x);
    PushRight(segments, h.(fileSize := 0), x);
  }

  lemma CopiedContent(file: Bytes, segments: seq<ProgramHeader>, h: ProgramHeader, v: nat)
    requires h.offset + h.fileSize <= |file|
    ensures Content(file, segments + [h], v) ==
            if h.virtualAddress <= v < h.virtualAddress + h.fileSize
            then file[h.offset..h.offset + h.fileSize][v - h.virtualAddress]
                else Content(file, segments + [h.(fileSize := 0)], v)
  {
    hide Content;
    PushContent(file, segments, h, v);
    PushContent(file, segments, h.(fileSize := 0), v);
  }

  /** The pages of the file part are recorded, so the copy cannot miss one. */
  lemma FilePartIsPresent(b: Build, rights: map<nat, bool>, file: Bytes, segments: seq<ProgramHeader>, h: ProgramHeader)
    requires Filled(b, rights, file, segments + [h.(fileSize := 0)]) && h.fileSize <= h.memorySize
    ensures AllPresent(b.pages, h.virtualAddress, h.virtualAddress + h.fileSize)
  {
    var bare := h.(fileSize := 0);
    hide Peek, FirstRight, Content, Right, Covers, PageBase, FindPage;
    forall v: nat | h.virtualAddress <= v < h.virtualAddress + h.fileSize ensures FindPage(b.pages, PageBase(v)).Some? {
      ByteIsCovered(bare, v);
      PushRight(segments, bare, PageBase(v));
    }
  }

  /** One step of the loading loop. */
  ghost predicate Progress(b: Build, b': Build, root: nat, rights': map<nat, bool>, base: map<nat, Bytes>, file: Bytes,
                           segments: seq<ProgramHeader>, ok: bool, leak: multiset<nat>) {
    && Keeps(b.space, b'.space, leak) && |leak| <= 2
    && (ok ==>
          && leak == multiset{} && Image(b', root, rights', base)
          && Filled(b', rights', file, segments) && SoundSegments(segments))
  }

  lemma SegmentBounds(h: ProgramHeader)
    requires USER_IMAGE_BASE <= h.virtualAddress && h.virtualAddress + h.memorySize <= USER_STACK_BASE
    ensures PageStart(h) % PAGE_SIZE == 0 && PageEnd(h) % PAGE_SIZE == 0
    ensures USER_IMAGE_BASE <= PageStart(h) && PageEnd(h) <= USER_STACK_BASE
  {
    assert USER_IMAGE_BASE == 1024 * PAGE_SIZE && USER_STACK_BASE == 2032 * PAGE_SIZE;
    assert h.virtualAddress / PAGE_SIZE >= 1024;
    assert (h.virtualAddress + h.memorySize + PAGE_SIZE - 1) / PAGE_SIZE <= 2032;
  }

  lemma LoadSegmentWorks(b: Build, root: nat, rights: map<nat, bool>, base: map<nat, Bytes>, file: Bytes,
                         segments: seq<ProgramHeader>, h: ProgramHeader)
    returns (rights': map<nat, bool>, leak: multiset<nat>)
    requires Image(b, root, rights, base) && Filled(b, rights, file, segments) && SoundSegments(segments)
    ensures var (b', r) := LoadSegment(b, root, file, h);
            Progress(b, b', root, rights', base, file, segments + [h], r.Ok?, leak)
  {
    hide Image, Filled, Keeps, AddsPages, PageStart, PageEnd, MapPagesFrom, ProgramHeader.IsWritable, FillSegment;
    rights', leak := rights, multiset{};
    if OutOfBounds(h) {
      KeepsSelf(b.space);
    } else {
      SegmentBounds(h);
      rights', leak := MapPagesFromWorks(b, root, rights, base, PageStart(h), PageEnd(h), h.IsWritable());
      var (b1, r) := MapPagesFrom(b, root, PageStart(h), PageEnd(h), h.IsWritable());
      if r.Ok? {
        assert SoundSegments([h]);
        SegmentFilled(b, b1, root, rights, rights', base, file, segments, h);
        FillKeeps(b, b1, root, rights', base, file, h);
      }
    }
  }

  lemma {:induction false} MappingIsNeverOutOfRange(b: Build, root: nat, virt: nat, end: nat, writable: bool)
    ensures MapPagesFrom(b, root, virt, end, writable).1 != Err(UserImageOutOfRange)
    decreases (end as int) - (virt as int)
  {
    hide Map4k, Allocated, FindPage;
    if virt < end {
      if FindPage(b.pages, virt).Some? {
        MappingIsNeverOutOfRange(b, root, virt + PAGE_SIZE, end, writable);
      } else {
        MappingIsNeverOutOfRange(MapFresh(b, root, virt, writable).0, root, virt + PAGE_SIZE, end, writable);
      }
    }
  }

  /** A segment is reported out of range exactly for its bounds: the copy of its file bytes, which
      has the same error, finds every page, because they were just mapped. */
  lemma RangeErrorIsBounds(b: Build, root: nat, rights: map<nat, bool>, base: map<nat, Bytes>, file: Bytes,
                           segments: seq<ProgramHeader>, h: ProgramHeader)
    requires Image(b, root, rights, base) && Filled(b, rights, file, segments) && SoundSegments(segments)
    ensures LoadSegment(b, root, file, h).1 == Err(UserImageOutOfRange) <==> OutOfBounds(h)
  {
    hide Image, Filled, Keeps, AddsPages, PageStart, PageEnd, MapPagesFrom, ProgramHeader.IsWritable, CopyPages;
    if !OutOfBounds(h) {
      SegmentBounds(h);
      MappingIsNeverOutOfRange(b, root, PageStart(h), PageEnd(h), h.IsWritable());
      var rights', leak := MapPagesFromWorks(b, root, rights, base, PageStart(h), PageEnd(h), h.IsWritable());
      var (b1, r) := MapPagesFrom(b, root, PageStart(h), PageEnd(h), h.IsWritable());
      if r.Ok? {
        assert SoundSegments([h]);
        SegmentFilled(b, b1, root, rights, rights', base, file, segments, h);
      }
    }
  }

  lemma FillKeeps(b: Build, b1: Build, root: nat, rights: map<nat, bool>, base: map<nat, Bytes>, file: Bytes,
                  h: ProgramHeader)
    requires Image(b1, root, rights, base) && Keeps(b.space, b1.space, multiset{})
    ensures Keeps(b.space, FillSegment(b1, file, h).0.space, multiset{})
  {
    hide CopyPages, Keeps, Image;
    var b2, range := FillSegment(b1, file, h).0, h.FileRange(|file|);
    if range.Ok? {
      CopyKeeps(b1, root, rights, base, h.virtualAddress, file[range.value.0..range.value.1]);
      KeepsTwice(b.space, b1.space, b2.space, multiset{});
    }
  }

  lemma SegmentFilled(b: Build, b1: Build, root: nat, rights: map<nat, bool>, rights': map<nat, bool>,
                      base: map<nat, Bytes>,
                      file: Bytes, segments: seq<ProgramHeader>, h: ProgramHeader)
    requires Filled(b, rights, file, segments) && SoundSegments(segments) && SoundSegments([h])
    requires AddsPages(b, b1, rights, rights', PageStart(h), PageEnd(h), h.IsWritable())
    requires Image(b1, root, rights', base)
    ensures var (b', r) := FillSegment(b1, file, h);
            && (r.Ok? <==> h.FileRange(|file|).Ok?)
            && (r.Ok? ==>
                  && Image(b', root, rights', base)
                  && Filled(b', rights', file, segments + [h]) && SoundSegments(segments + [h]))
  {
    hide Filled, AddsPages, Image, CopyPages, AllPresent;
    var bare := h.(fileSize := 0);
    assert [h][0] == h;
    assert PageStart(bare) == PageStart(h) && PageEnd(bare) == PageEnd(h) && bare.IsWritable() == h.IsWritable();
    MappedIsFilled(b, b1, rights, rights', file, segments, bare);
    ImageApart(b1, root, rights', base);
    var range := h.FileRange(|file|);
    if range.Ok? {
      var part := file[range.value.0..range.value.1];
      CopyWorks(b1.space.frames, b1.pages, h.virtualAddress, part);
      CopyKeepsImage(b1, root, rights', base, h.virtualAddress, part);
      FilePartIsPresent(b1, rights', file, segments, h);
      CopiedIsFilled(b1, FillSegment(b1, file, h).0, rights', file, segments, h);
    }
  }

  lemma ImageApart(b: Build, root: nat, rights: map<nat, bool>, base: map<nat, Bytes>)
    requires Image(b, root, rights, base)
    ensures Apart(b.pages)
  {
    hide Good, FramesAside, Leads, HugeAt, Apart;
  }

  /** The loadable headers, in table order. */
  function Loadable(headers: seq<Result<ProgramHeader, ElfError>>): seq<ProgramHeader> {
    if headers == [] then []
    else if headers[0].Ok? && headers[0].value.kind == PT_LOAD then [headers[0].value] + Loadable(headers[1..])
    else Loadable(headers[1..])
  }

  lemma ProgressTwice(b: Build, b': Build, b'': Build, root: nat, rights: map<nat, bool>, rights': map<nat, bool>,
                      base: map<nat, Bytes>, file: Bytes, segments: seq<ProgramHeader>, segments': seq<ProgramHeader>,
                      ok: bool, leak: multiset<nat>)
    requires Progress(b, b', root, rights, base, file, segments, true, multiset{})
    requires Progress(b', b'', root, rights', base, file, segments', ok, leak)
    ensures Progress(b, b'', root, rights', base, file, segments', ok, leak)
  {
    hide Image, Filled, Keeps, SoundSegments;
    KeepsTwice(b.space, b'.space, b''.space, leak);
  }

  /** The loading loop: on success the image holds exactly the loadable segments. */
  lemma {:induction false} LoadSegmentsWorks(b: Build, root: nat, rights: map<nat, bool>, base: map<nat, Bytes>,
                                             file: Bytes,
                                             segments: seq<ProgramHeader>, headers: seq<Result<ProgramHeader,
                                                 ElfError>>)
    returns (rights': map<nat, bool>, leak: multiset<nat>)
    requires Image(b, root, rights, base) && Filled(b, rights, file, segments) && SoundSegments(segments)
    ensures var (b', r) := LoadSegments(b, root, file, headers);
            Progress(b, b', root, rights', base, file, segments + Loadable(headers), r.Ok?, leak)
    decreases |headers|
  {
    hide Image, Filled, Keeps, SoundSegments, LoadSegment;
    rights', leak := rights, multiset{};
    if headers == [] {
      assert segments + Loadable(headers) == segments;
      KeepsSelf(b.space);
    } else if headers[0].Err? {
      KeepsSelf(b.space);
    } else if headers[0].value.kind != PT_LOAD {
      rights', leak := LoadSegmentsWorks(b, root, rights, base, file, segments, headers[1..]);
    } else {
      var h := headers[0].value;
      rights', leak := LoadSegmentWorks(b, root, rights, base, file, segments, h);
      var (b1, r) := LoadSegment(b, root, file, h);
      if r.Ok? {
        var rights1 := rights';
        rights', leak := LoadSegmentsWorks(b1, root, rights1, base, file, segments + [h], headers[1..]);
        assert segments + Loadable(headers) == (segments + [h]) + Loadable(headers[1..]);
        ProgressTwice(b, b1, LoadSegments(b1, root, file, headers[1..]).0, root, rights1, rights', base, file,
                      segments + [h], segments + Loadable(headers), LoadSegments(b1, root, file, headers[1..]).1.Ok?,
                          leak);
      }
    }
  }

  // ---------------------------------------------------------------------------
  // The stack.

  /** The stack, as a segment without file bytes. */
  const STACK := ProgramHeader(PT_LOAD, PF_W, 0, USER_STACK_BASE, 0, USER_STACK_PAGES * PAGE_SIZE)

  lemma StackPages()
    ensures PageStart(STACK) == USER_STACK_BASE && PageEnd(STACK) == USER_STACK_TOP && STACK.IsWritable()
    ensures USER_STACK_BASE % PAGE_SIZE == 0 && USER_STACK_TOP % PAGE_SIZE == 0
  {
  }

  lemma {:induction false} SegmentsStayBelowStack(segments: seq<ProgramHeader>, x: nat)
    requires SoundSegments(segments) && USER_STACK_BASE <= x
    ensures FirstRight(segments, x).None?
  {
    if segments != [] {
      var n := |segments| - 1;
      SegmentsStayBelowStack(segments[..n], x);
      SegmentBounds(segments[n]);
    }
  }

  /** Mapping the stack pages, none of which a segment has taken. */
  lemma StackWorks(b: Build, root: nat, rights: map<nat, bool>, base: map<nat, Bytes>, file: Bytes,
                   segments: seq<ProgramHeader>)
    returns (rights': map<nat, bool>, leak: multiset<nat>)
    requires Image(b, root, rights, base) && Filled(b, rights, file, segments) && SoundSegments(segments)
    ensures forall x: nat :: USER_STACK_BASE <= x ==> FindPage(b.pages, x).None?
    ensures var (b', r) := MapPagesFrom(b, root, USER_STACK_BASE, USER_STACK_TOP, true);
            && Keeps(b.space, b'.space, leak) && |leak| <= 2
            && (r.Ok? ==>
                  leak == multiset{} && Image(b', root, rights', base) && Filled(b', rights', file, segments + [STACK]))
  {
    hide Image, Keeps, MapPagesFrom, AddsPages, FindPage, Peek, PageStart, PageEnd;
    forall x: nat | USER_STACK_BASE <= x ensures FindPage(b.pages, x).None? {
      SegmentsStayBelowStack(segments, x);
    }
    StackPages();
    hide Filled;
    rights', leak := MapPagesFromWorks(b, root, rights, base, USER_STACK_BASE, USER_STACK_TOP, true);
    var (b', r) := MapPagesFrom(b, root, USER_STACK_BASE, USER_STACK_TOP, true);
    if r.Ok? {
      MappedIsFilled(b, b', rights, rights', file, segments, STACK);
    }
  }

  // ---------------------------------------------------------------------------
  // What user code sees.

  /** The byte at `v`, read through the page tables with user rights. */
  function ReadUser(frames: map<nat, Bytes>, root: nat, v: nat): Option<Byte> {
    var t := Walk(frames, root, v);
    if t.Some? && t.value.user then Some(Frame(frames, PageBase(t.value.phys))[t.value.phys % PAGE_SIZE]) else None
  }

  lemma PeekIsRead(b: Build, root: nat, rights: map<nat, bool>, base: map<nat, Bytes>, v: nat)
    requires Image(b, root, rights, base) && v < VIRT_LIMIT && FindPage(b.pages, PageBase(v)).Some?
    ensures ReadUser(b.space.frames, root, v) == Peek(b.space.frames, b.pages, v)
  {
    var page := FindPage(b.pages, PageBase(v)).value;
    FoundPage(b.pages, PageBase(v));
    assert Leads(b, root, rights, base, v);
    FrameIsAligned(b.pages, page, v);
    hide Image, FindPage, Walk, Frame, PageBase;
  }

  lemma FrameIsAligned(pages: seq<UserPage>, page: UserPage, v: nat)
    requires Apart(pages) && page in pages
    ensures PageBase(page.phys + v % PAGE_SIZE) == page.phys && (page.phys + v % PAGE_SIZE) % PAGE_SIZE == v % PAGE_SIZE
  {
  }
}
