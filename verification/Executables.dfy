// Executables as files: what loading one does, told by the bytes of its headers
// (libs/elf/src/lib.rs, kernel/kernel/src/memory/loader.rs:21-112; System V
// gABI, chapters 4 and 5).
module Executables {
  import opened Prelude
  import opened Words
  import opened Paging
  import opened Elf
  import opened UserImages
  import opened Segments
  import opened Startup
  import opened Loader
  import opened Programs
  import opened LoadNeeds
  import Sealing
  import KernelMaps
  import LoadAndRun

  /** The file is laid out with this header and these program headers. */
  ghost predicate Laid(file: Bytes, h: ElfHeader, headers: seq<ProgramHeader>) {
    && HeaderLaid(file, h) && TableFits(file, h) && |headers| == h.count && (h.count > 0 ==> h.entrySize >= 56)
    && forall i :: 0 <= i < |headers| ==> EntryLaid(file, h.tableOffset + h.entrySize * i, headers[i])
  }

  /** p_type is PT_LOAD. */
  predicate Loads(p: ProgramHeader) { p.kind == 1 }

  /** The segment has something in the page at `x`, or starts inside it. */
  predicate Touches(p: ProgramHeader, x: nat) {
    x < p.virtualAddress + p.memorySize && p.virtualAddress < x + 4096
  }

  /** Bit PF_W of p_flags. */
  predicate Writes(p: ProgramHeader) { p.flags / 2 % 2 == 1 }

  ghost predicate TouchedBy(headers: seq<ProgramHeader>, i: nat, x: nat) {
    i < |headers| && Loads(headers[i]) && Touches(headers[i], x)
  }

  ghost predicate Touched(headers: seq<ProgramHeader>, x: nat) {
    exists i: nat :: TouchedBy(headers, i, x)
  }

  /** The first loadable segment that touches the page may be written. */
  ghost predicate FirstWrites(headers: seq<ProgramHeader>, x: nat) {
    exists i: nat ::
      TouchedBy(headers, i, x) && Writes(headers[i]) && forall j :: 0 <= j < i ==> !TouchedBy(headers, j, x)
  }

  /** No byte of memory belongs to two loadable segments. */
  ghost predicate Apart(headers: seq<ProgramHeader>) {
    forall i: nat, j: nat, v: nat :: i < j < |headers| && Loads(headers[i]) && Loads(headers[j]) ==>
      !(Within(headers[i], v) && Within(headers[j], v))
  }

  // ---------------------------------------------------------------------------
  // The parser finds them.

  lemma LaidIsParsed(file: Bytes, h: ElfHeader, headers: seq<ProgramHeader>)
    requires Laid(file, h, headers) && |file| <= U64_MAX
    ensures ParseHeader(file) == Ok(h)
    ensures |HeaderList(file, h, 0)| == |headers|
    ensures forall i :: 0 <= i < |headers| ==> HeaderList(file, h, 0)[i] == Ok(headers[i])
  {
    hide HeaderLaid, EntryLaid, ParseHeader, HeaderAt;
    HeaderReadsBack(file, h);
    HeaderListItems(file, h, 0);
    forall i | 0 <= i < |headers| ensures HeaderList(file, h, 0)[i] == Ok(headers[i]) {
      EntryReadsBack(file, h, i, headers[i]);
    }
  }

  /** Where in the list the loadable headers are, in order. */
  ghost predicate Places(list: seq<Result<ProgramHeader, ElfError>>, at: seq<nat>) {
    && |at| == |Loadable(list)|
    && (forall k :: 0 <= k < |at| ==>
          at[k] < |list| && list[at[k]] == Ok(Loadable(list)[k]) && Loads(Loadable(list)[k]))
    && (forall k, l :: 0 <= k < l < |at| ==> at[k] < at[l])
    && (forall i: nat :: LoadsAt(list, i) ==> i in at)
  }

  ghost predicate LoadsAt(list: seq<Result<ProgramHeader, ElfError>>, i: nat) {
    i < |list| && list[i].Ok? && Loads(list[i].value)
  }

  lemma {:induction false} LoadableAt(list: seq<Result<ProgramHeader, ElfError>>) returns (at: seq<nat>)
    ensures Places(list, at)
    decreases |list|
  {
    hide Places;
    if list == [] {
      at := [];
      NoPlaces();
    } else {
      var n := |list| - 1;
      at := LoadableAt(list[..n]);
      assert list[..n] + [list[n]] == list;
      LoadablePush(list[..n], list[n]);
      PlacesPush(list[..n], list[n], at);
      if list[n].Ok? && Loads(list[n].value) { at := at + [n]; }
    }
  }

  lemma NoPlaces()
    ensures Places([], [])
  {
  }

  lemma {:induction false} LoadablePush(list: seq<Result<ProgramHeader, ElfError>>,
                                        last: Result<ProgramHeader, ElfError>)
    ensures Loadable(list + [last]) == Loadable(list) + if last.Ok? && Loads(last.value) then [last.value] else []
  {
    if list != [] {
      assert (list + [last])[1..] == list[1..] + [last];
      LoadablePush(list[1..], last);
    } else {
      var none: seq<Result<ProgramHeader, ElfError>> := [];
      assert [last][1..] == none;
    }
  }

  lemma PlacesPush(list: seq<Result<ProgramHeader, ElfError>>, last: Result<ProgramHeader, ElfError>, at: seq<nat>)
    requires Places(list, at)
    requires Loadable(list + [last]) == Loadable(list) + if last.Ok? && Loads(last.value) then [last.value] else []
    ensures Places(list + [last], if last.Ok? && Loads(last.value) then at + [|list|] else at)
  {
    hide Loadable, Loads;
    var longer, all := list + [last], if last.Ok? && Loads(last.value) then at + [|list|] else at;
    forall i: nat ensures LoadsAt(longer, i) <==> LoadsAt(list, i) || (i == |list| && last.Ok? && Loads(last.value)) {
    }
    hide LoadsAt;
    forall i: nat | LoadsAt(longer, i) ensures i in all {
      if i == |list| { assert all[|at|] == i; } else { assert i in at; }
    }
  }

  // ---------------------------------------------------------------------------
  // Pages.

  /** Page-rounded bounds cover exactly the pages that are touched. */
  lemma CoversTouched(p: ProgramHeader, x: nat)
    requires x % 4096 == 0
    ensures Covers(p, x) <==> Touches(p, x)
  {
  }

  lemma {:induction false} FirstRightTells(segments: seq<ProgramHeader>, x: nat)
    requires x % 4096 == 0
    ensures FirstRight(segments, x).None? ==> forall i :: 0 <= i < |segments| ==> !Touches(segments[i], x)
    ensures FirstRight(segments, x).Some? ==>
              exists i :: 0 <= i < |segments| && Touches(segments[i], x)
                          && FirstRight(segments, x).value == Writes(segments[i])
                          && forall j :: 0 <= j < i ==> !Touches(segments[j], x)
    decreases |segments|
  {
    hide Covers, Touches;
    if segments != [] {
      var n := |segments| - 1;
      FirstRightTells(segments[..n], x);
      CoversTouched(segments[n], x);
      assert forall i :: 0 <= i < n ==> segments[..n][i] == segments[i];
    }
  }

  /** The same of the headers in the file. */
  lemma FirstRightOfHeaders(file: Bytes, h: ElfHeader, headers: seq<ProgramHeader>, x: nat)
    requires Laid(file, h, headers) && |file| <= U64_MAX && x % 4096 == 0
    ensures FirstRight(SegmentsOf(file, h), x).Some? <==> Touched(headers, x)
    ensures FirstRight(SegmentsOf(file, h), x) == Some(true) <==> FirstWrites(headers, x)
  {
    hide HeaderLaid, EntryLaid, Touches, Writes, FirstRight, Loadable;
    LaidIsParsed(file, h, headers);
    var list, segments := HeaderList(file, h, 0), SegmentsOf(file, h);
    var at := LoadableAt(list);
    FirstRightTells(segments, x);
    forall i: nat | TouchedBy(headers, i, x)
      ensures exists k :: 0 <= k < |at| && at[k] == i && Touches(segments[k], x)
    {
      assert LoadsAt(list, i);
    }
    if FirstRight(segments, x).Some? {
      var k :| 0 <= k < |segments| && Touches(segments[k], x)
               && FirstRight(segments, x).value == Writes(segments[k])
               && forall j :: 0 <= j < k ==> !Touches(segments[j], x);
      assert TouchedBy(headers, at[k], x);
      assert forall l :: 0 <= l < |at| && Touches(segments[l], x) ==> at[k] <= at[l];
    }
  }

  lemma LaidApart(file: Bytes, h: ElfHeader, headers: seq<ProgramHeader>)
    requires Laid(file, h, headers) && |file| <= U64_MAX && Apart(headers)
    ensures ByteDisjoint(SegmentsOf(file, h))
  {
    hide HeaderLaid, EntryLaid, Loadable, Loads, Within;
    LaidIsParsed(file, h, headers);
    var list, segments := HeaderList(file, h, 0), SegmentsOf(file, h);
    var at := LoadableAt(list);
    forall i, j, v: nat | 0 <= i < j < |segments| && Within(segments[i], v) ensures !Within(segments[j], v) {
      assert segments[i] == headers[at[i]] && segments[j] == headers[at[j]];
    }
  }

  lemma LaidIsLoadable(file: Bytes, h: ElfHeader, headers: seq<ProgramHeader>, i: nat) returns (k: nat)
    requires Laid(file, h, headers) && |file| <= U64_MAX && i < |headers| && Loads(headers[i])
    ensures k < |SegmentsOf(file, h)| && SegmentsOf(file, h)[k] == headers[i]
  {
    hide HeaderLaid, EntryLaid, Loadable, Loads;
    LaidIsParsed(file, h, headers);
    var list := HeaderList(file, h, 0);
    var at := LoadableAt(list);
    assert LoadsAt(list, i);
    k :| 0 <= k < |at| && at[k] == i;
  }

  // ---------------------------------------------------------------------------
  // Main results.

  /** After a load, user code reads in each loadable segment the file's bytes below p_filesz, from
      p_offset on, and zero from there to p_memsz, when no two segments share a byte. */
  lemma LaidBytesArrive(s: Space, before: set<nat>, root: nat, stackTop: nat, k: Kernel, h: ElfHeader, q: Request,
                        utf8: Utf8, headers: seq<ProgramHeader>, i: nat, v: nat)
    requires Complete(s, before, root, stackTop, k, h, q, utf8) && |q.file| <= U64_MAX
    requires Laid(q.file, h, headers) && Apart(headers) && i < |headers| && Loads(headers[i])
    requires headers[i].virtualAddress <= v < headers[i].virtualAddress + headers[i].memorySize
    ensures var p := headers[i];
            && p.offset + p.fileSize <= |q.file|
            && ReadUser(s.frames, root, v) ==
               Some(if v - p.virtualAddress < p.fileSize then q.file[p.offset + (v - p.virtualAddress)] else 0)
  {
    hide Complete, Laid, Apart, ByteDisjoint, Loads, ReadUser, SegmentsOf, TableFits;
    LaidTableFits(q.file, h, headers);
    LaidApart(q.file, h, headers);
    var n := LaidIsLoadable(q.file, h, headers, i);
    SegmentBytesArrive(s, before, root, stackTop, k, h, q, utf8, n, v);
  }

  lemma LaidTableFits(file: Bytes, h: ElfHeader, headers: seq<ProgramHeader>)
    requires Laid(file, h, headers)
    ensures TableFits(file, h)
  {
  }

  /** The translation is for user code exactly on the stack and where a loadable segment touches the
      page, and writable exactly on the stack and where the first such segment in the table has PF_W;
      everywhere else it is that of the shared kernel context. */
  ghost predicate RightsAt(t: Option<Translation>, k: Kernel, headers: seq<ProgramHeader>, v: nat) {
    var x, onStack := v - v % 4096, 0x7f_0000 <= v < 0x80_0000;
    && (t.Some? && t.value.user <==> onStack || Touched(headers, x))
    && (t.Some? && t.value.user && t.value.writable <==> onStack || FirstWrites(headers, x))
    && (!onStack && !Touched(headers, x) ==> t == KernelMaps.SharedAt(k, v))
  }

  lemma CompleteRights(s: Space, before: set<nat>, root: nat, stackTop: nat, k: Kernel, h: ElfHeader, q: Request,
                       utf8: Utf8, v: nat)
    requires Complete(s, before, root, stackTop, k, h, q, utf8) && v < VIRT_LIMIT
    ensures TableFits(q.file, h) && SoundSegments(SegmentsOf(q.file, h))
    ensures UserRights(s, root, SegmentsOf(q.file, h), v) && SharedRights(s, root, k, SegmentsOf(q.file, h), v)
  {
    hide UserRights, SharedRights, SoundSegments, Good, Sealing.Sealed, Block, SegmentsOf, StartupArgs, TableFits,
         ReadUser, FirstRight, Content;
  }

  /** User code reaches exactly the stack and the pages a loadable segment touches; it may write the
      stack, and the pages whose first such segment in the table has PF_W. */
  lemma LaidRightsArrive(s: Space, before: set<nat>, root: nat, stackTop: nat, k: Kernel, h: ElfHeader, q: Request,
                         utf8: Utf8, headers: seq<ProgramHeader>, v: nat)
    requires Complete(s, before, root, stackTop, k, h, q, utf8) && |q.file| <= U64_MAX
    requires Laid(q.file, h, headers) && v < VIRT_LIMIT
    ensures RightsAt(Walk(s.frames, root, v), k, headers, v)
  {
    hide Laid, Walk, FirstRight, SegmentsOf, Touched, FirstWrites, TableFits, Complete, Covers, KernelMaps.SharedAt;
    CompleteRights(s, before, root, stackTop, k, h, q, utf8, v);
    var x, segments := v - v % 4096, SegmentsOf(q.file, h);
    assert PageBase(v) == x;
    FirstRightOfHeaders(q.file, h, headers, x);
    PushRight(segments, STACK, x);
    StackIsTouched(x, v);
    if 0x7f_0000 <= x { BelowStack(segments, x); }
  }

  lemma StackIsTouched(x: nat, v: nat)
    requires x == v - v % 4096
    ensures Covers(STACK, x) <==> 0x7f_0000 <= v < 0x80_0000
    ensures STACK.IsWritable()
  {
    CoversTouched(STACK, x);
  }

  lemma BelowStack(segments: seq<ProgramHeader>, x: nat)
    requires SoundSegments(segments) && x % 4096 == 0 && 0x7f_0000 <= x
    ensures FirstRight(segments, x).None?
  {
    FirstRightTells(segments, x);
  }

  /** The pages of user code: the stack's, and those a loadable segment touches. */
  ghost function TouchedPages(headers: seq<ProgramHeader>): set<nat> {
    set x | 0 <= x < 0x80_0000 && x % 4096 == 0 && (0x7f_0000 <= x || Touched(headers, x))
  }

  /** What can be seen before a load: entry and segments are in user memory, what segments take from the
      file is in it, the arguments are acceptable, and pages and records are enough. */
  ghost predicate MayLoad(pages: nat, k: Kernel, h: ElfHeader, headers: seq<ProgramHeader>, q: Request, utf8: Utf8) {
    && 0x40_0000 <= h.entry < 0x80_0000
    && (forall i :: 0 <= i < |headers| && Loads(headers[i]) ==> SegmentMayLoad(q.file, headers[i]))
    && ArgumentsFit(q, utf8)
    && var user := TouchedPages(headers);
       var needed := 1 + |SharedPlaces(k) + PagePaths(user)| + |user|;
       |user| <= 128 && needed <= 176 && needed <= pages
  }

  predicate SegmentMayLoad(file: Bytes, p: ProgramHeader) {
    && 0x40_0000 <= p.virtualAddress && p.virtualAddress + p.memorySize <= 0x7f_0000
    && p.fileSize <= p.memorySize && p.offset + p.fileSize <= |file|
  }

  /** A file that is laid out loads if and only if it may. */
  lemma LaidFileLoads(frames: map<nat, Bytes>, free: set<nat>, k: Kernel, q: Request, utf8: Utf8, h: ElfHeader,
                      headers: seq<ProgramHeader>)
    requires KernelMaps.SoundLayout(k) && forall p :: p in free ==> IsFrame(p)
    requires Laid(q.file, h, headers) && |q.file| <= U64_MAX
    ensures LoadAndRun.Attempted(frames, free, k, q, utf8).program.Some? <==> MayLoad(|free|, k, h, headers, q, utf8)
  {
    hide Laid, LoadAndRun.Attempted, KernelMaps.SoundLayout, IsFrame, ArgumentsFit, SharedPlaces, PagePaths, UserPages,
         SegmentsOf, AllAcceptable, SegmentMayLoad, Loads, TouchedPages, TableFits, HeaderList;
    LaidTableFits(q.file, h, headers);
    LaidIsParsed(q.file, h, headers);
    AttemptFits(frames, free, k, q, utf8);
    UserPagesAreTouched(q.file, h, headers);
    AcceptableMeansMayLoad(q.file, h, headers);
  }

  lemma UserPagesAreTouched(file: Bytes, h: ElfHeader, headers: seq<ProgramHeader>)
    requires Laid(file, h, headers) && |file| <= U64_MAX && TableFits(file, h)
    ensures UserPages(SegmentsOf(file, h)) == TouchedPages(headers)
  {
    hide Laid, FirstRight, SegmentsOf, Touched, TableFits, FirstWrites, Covers;
    var segments := SegmentsOf(file, h);
    forall x: nat | x < 0x80_0000 ensures x in UserPages(segments) <==> x in TouchedPages(headers) {
      PushRight(segments, STACK, x);
      if x % 4096 == 0 {
        FirstRightOfHeaders(file, h, headers, x);
        StackIsTouched(x, x);
      } else {
        OnlyWholePages(segments, x);
      }
    }
  }

  lemma {:induction false} OnlyWholePages(segments: seq<ProgramHeader>, x: nat)
    requires x % 4096 != 0
    ensures FirstRight(segments, x).None? && !Covers(STACK, x)
    decreases |segments|
  {
    if segments != [] { OnlyWholePages(segments[..|segments| - 1], x); }
  }

  lemma AcceptableMeansMayLoad(file: Bytes, h: ElfHeader, headers: seq<ProgramHeader>)
    requires Laid(file, h, headers) && |file| <= U64_MAX && TableFits(file, h)
    ensures AllAcceptable(file, HeaderList(file, h, 0)) <==>
            forall i :: 0 <= i < |headers| && Loads(headers[i]) ==> SegmentMayLoad(file, headers[i])
  {
    hide Laid, Loadable, Loads, Acceptable, SegmentMayLoad, TableFits;
    LaidIsParsed(file, h, headers);
    var list := HeaderList(file, h, 0);
    var at := LoadableAt(list);
    forall p ensures Acceptable(file, p) <==> SegmentMayLoad(file, p) { SegmentAcceptable(file, p); }
    forall i | 0 <= i < |headers| && Loads(headers[i]) ensures exists k :: 0 <= k < |at| && at[k] == i {
      assert LoadsAt(list, i);
    }
  }

  lemma SegmentAcceptable(file: Bytes, p: ProgramHeader)
    requires |file| <= U64_MAX
    ensures Acceptable(file, p) <==> SegmentMayLoad(file, p)
  {
  }

  /** And nothing else loads. */
  lemma OnlyLaidFilesLoad(frames: map<nat, Bytes>, free: set<nat>, k: Kernel, q: Request, utf8: Utf8)
    returns (h: ElfHeader, headers: seq<ProgramHeader>)
    requires KernelMaps.SoundLayout(k) && forall p :: p in free ==> IsFrame(p)
    requires LoadAndRun.Attempted(frames, free, k, q, utf8).program.Some?
    ensures Laid(q.file, h, headers)
  {
    hide LoadAndRun.Attempted, KernelMaps.SoundLayout, IsFrame, ArgumentsFit, SharedPlaces, PagePaths, UserPages,
         SegmentsOf, Loadable, ParseHeader, HeaderLaid, EntryLaid, HeaderAt, Acceptable;
    AttemptFits(frames, free, k, q, utf8);
    h := ParseHeader(q.file).value;
    OnlyLaidHeadersParse(q.file);
    var list := HeaderList(q.file, h, 0);
    HeaderListItems(q.file, h, 0);
    headers := seq(|list|, i requires 0 <= i < |list| => if list[i].Ok? then list[i].value else STACK);
    forall i | 0 <= i < |headers|
      ensures h.entrySize >= 56 && EntryLaid(q.file, h.tableOffset + h.entrySize * i, headers[i])
    {
      EntryReadsBack(q.file, h, i, headers[i]);
    }
    assert h.count > 0 ==> EntryLaid(q.file, h.tableOffset + h.entrySize * 0, headers[0]);
  }
}
