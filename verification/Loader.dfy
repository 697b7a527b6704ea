// kernel/kernel/src/memory/loader.rs in place: the page map, the loading loops
// and the release of everything recorded when a load fails.
module Loader {
  import opened Prelude
  import opened Words
  import opened Allocators
  import opened PageOwnership
  import opened Paging
  import opened PagingStates
  import opened Elf
  import opened UserImages
  import opened Segments
  import opened Startup

  class UserPageMap {
    const slots: array<Option<UserPage>>
    ghost var len: nat

    /** Slots are filled from the front and never emptied. */
    ghost predicate Valid()
      reads this, slots
    {
      && slots.Length == MAX_SEGMENT_PAGES && len <= slots.Length
      && (forall i :: 0 <= i < len ==> slots[i].Some?)
      && (forall i :: len <= i < slots.Length ==> slots[i].None?)
    }

    ghost function View(): (v: seq<UserPage>)
      requires Valid()
      reads this, slots
      ensures |v| == len
    {
      seq(len, i requires 0 <= i < len reads this, slots requires Valid() => slots[i].value)
    }

    constructor ()
      ensures Valid() && View() == [] && fresh(slots)
    {
      slots := new Option<UserPage>[MAX_SEGMENT_PAGES](_ => None);
      len := 0;
    }

    method Find(virt: nat) returns (page: Option<UserPage>)
      requires Valid()
      ensures page == FindPage(View(), virt)
    {
      var index := 0;
      assert View()[0..] == View();
      while index < slots.Length
        invariant index <= slots.Length
        invariant index <= len ==> FindPage(View()[index..], virt) == FindPage(View(), virt)
        invariant index > len ==> FindPage(View(), virt).None?
      {
        if slots[index].Some? {
          assert View()[index..][0] == slots[index].value && View()[index..][1..] == View()[index + 1..];
          if slots[index].value.virt == virt { return slots[index]; }
        }
        index := index + 1;
      }
      return None;
    }

    method Insert(virt: nat, phys: nat) returns (ok: bool)
      requires Valid()
      modifies this, slots
      ensures Valid() && ok == (|old(View())| < MAX_SEGMENT_PAGES)
      ensures View() == if ok then old(View()) + [UserPage(virt, phys)] else old(View())
    {
      var index := 0;
      while index < slots.Length
        invariant index <= len
        invariant Valid() && View() == old(View())
      {
        if slots[index].None? {
          ghost var before := View();
          slots[index] := Some(UserPage(virt, phys));
          len := len + 1;
          assert View() == before + [UserPage(virt, phys)];
          return true;
        }
        index := index + 1;
      }
      return false;
    }

    /** Page by page, through the recorded frames. */
    method CopyInto(memory: PhysicalMemory, start: nat, bytes: Bytes) returns (ok: bool)
      requires Valid()
      modifies memory`frames
      ensures (memory.frames, ok) == CopyPages(old(memory.frames), View(), start, bytes)
    {
      var remaining, address := bytes, start;
      while remaining != []
        invariant Valid() && View() == old(View())
        invariant CopyPages(memory.frames, View(), address, remaining) ==
                    CopyPages(old(memory.frames), View(), start, bytes)
        decreases |remaining|
      {
        CopyUnfolds(memory.frames, View(), address, remaining);
        var page := Find(PageBase(address));
        if page.None? { return false; }
        hide FindPage, PageBase;
        var n := ChunkLength(address, remaining);
        memory.frames := ChunkWritten(memory.frames, page.value, address, remaining);
        remaining, address := remaining[n..], address + n;
      }
      return true;
    }
  }

  /** The objects a load works on are separate. */
  ghost predicate Ready(builder: AddressSpaceBuilder, pages: UserPageMap)
    reads builder.Footprint(), pages, pages.slots
  {
    && builder.Valid() && builder.owned != null && pages.Valid()
    && {pages, pages.slots} !! builder.Footprint()
  }

  ghost function ViewOf(builder: AddressSpaceBuilder, pages: UserPageMap): Build
    requires Ready(builder, pages)
    reads builder.Footprint(), pages, pages.slots
  {
    Build(builder.View(), pages.View())
  }

  /** A zeroed page, mapped at `virt`. */
  method AllocateAndMap(builder: AddressSpaceBuilder, virt: nat, writable: bool) returns (r: Result<nat, LoadError>)
    requires builder.Valid()
    modifies builder.Footprint()
    ensures builder.Valid()
    ensures old(builder.View()).free == {} ==>
              r == Err(NoMemory(AllocatorExhausted)) && builder.View() == old(builder.View())
    ensures old(builder.View()).free != {} ==>
              var s := old(builder.View());
              var (s', mapped) := Map4k(Allocated(s), builder.root, virt, Lowest(s.free), UserFlags(writable));
              && builder.View() == s'
              && r == (if mapped.Err? then Err(NoMemory(mapped.error)) else Ok(Lowest(s.free)))
  {
    var phys := builder.memory.AllocatePage();
    if phys.None? { return Err(NoMemory(AllocatorExhausted)); }
    assert builder.View() == Allocated(old(builder.View()));
    hide Map4k;
    var mapped := builder.Map4k(virt, phys.value, UserFlags(writable));
    return if mapped.Err? then Err(NoMemory(mapped.error)) else Ok(phys.value);
  }

  /** The page is recorded first, then owned. */
  method RecordPage(builder: AddressSpaceBuilder, pages: UserPageMap, virt: nat, phys: nat)
    returns (r: Result<(), LoadError>)
    requires Ready(builder, pages)
    modifies builder.owned, builder.owned.pages, pages, pages.slots
    ensures Ready(builder, pages)
    ensures var b, b' := old(ViewOf(builder, pages)), ViewOf(builder, pages);
            if |b.pages| >= MAX_SEGMENT_PAGES then b' == b && r == Err(SegmentOverlapCapacityExceeded)
            else
              var longer := b.pages + [UserPage(virt, phys)];
              if |b.space.owned| >= MAX_OWNED_PAGES
              then b' == b.(pages := longer) && r == Err(NoMemory(OwnedPageCapacityExceeded))
              else b' == Build(b.space.(owned := b.space.owned + [phys]), longer) && r == Ok(())
  {
    var inserted := pages.Insert(virt, phys);
    if !inserted { return Err(SegmentOverlapCapacityExceeded); }
    var pushed := builder.owned.Push(phys);
    return if pushed then Ok(()) else Err(NoMemory(OwnedPageCapacityExceeded));
  }

  /** Allocate, map, record, own: the four steps both loading loops take for a page. */
  method MapFreshPage(builder: AddressSpaceBuilder, pages: UserPageMap, virt: nat, writable: bool)
    returns (r: Result<(), LoadError>)
    requires Ready(builder, pages)
    modifies builder.Footprint(), pages, pages.slots
    ensures Ready(builder, pages)
    ensures (ViewOf(builder, pages), r) == MapFresh(old(ViewOf(builder, pages)), builder.root, virt, writable)
  {
    hide Map4k, Allocated;
    var phys := AllocateAndMap(builder, virt, writable);
    if phys.Err? { return Err(phys.error); }
    r := RecordPage(builder, pages, virt, phys.value);
  }

  method MapSegmentPages(builder: AddressSpaceBuilder, pages: UserPageMap, from: nat, to: nat, writable: bool)
    returns (r: Result<(), LoadError>)
    requires Ready(builder, pages)
    modifies builder.Footprint(), pages, pages.slots
    ensures Ready(builder, pages)
    ensures (ViewOf(builder, pages), r) == MapPagesFrom(old(ViewOf(builder, pages)), builder.root, from, to, writable)
  {
    hide MapFresh, FindPage, AddressSpaceBuilder.Valid, AddressSpaceBuilder.View;
    var virt := from;
    ghost var whole := MapPagesFrom(ViewOf(builder, pages), builder.root, from, to, writable);
    while virt < to
      invariant Ready(builder, pages)
      invariant MapPagesFrom(ViewOf(builder, pages), builder.root, virt, to, writable) == whole
      decreases (to as int) - (virt as int)
    {
      var found := pages.Find(virt);
      if found.None? {
        r := MapFreshPage(builder, pages, virt, writable);
        if r.Err? { return; }
      }
      virt := virt + PAGE_SIZE;
    }
    return Ok(());
  }

  /** The stack pages are mapped without looking them up: no segment reaches them. */
  method MapStack(builder: AddressSpaceBuilder, pages: UserPageMap) returns (r: Result<(), LoadError>)
    requires Ready(builder, pages)
    requires forall x: nat :: USER_STACK_BASE <= x ==> FindPage(pages.View(), x).None?
    modifies builder.Footprint(), pages, pages.slots
    ensures Ready(builder, pages)
    ensures (ViewOf(builder, pages), r) ==
              MapPagesFrom(old(ViewOf(builder, pages)), builder.root, USER_STACK_BASE, USER_STACK_TOP, true)
  {
    hide MapFresh, FindPage, AddressSpaceBuilder.Valid, AddressSpaceBuilder.View;
    var page := USER_STACK_BASE;
    ghost var whole := MapPagesFrom(ViewOf(builder, pages), builder.root, USER_STACK_BASE, USER_STACK_TOP, true);
    while page < USER_STACK_TOP
      invariant Ready(builder, pages)
      invariant forall x: nat :: page <= x ==> FindPage(pages.View(), x).None?
      invariant MapPagesFrom(ViewOf(builder, pages), builder.root, page, USER_STACK_TOP, true) == whole
      decreases USER_STACK_TOP - page
    {
      ghost var before := ViewOf(builder, pages);
      r := MapFreshPage(builder, pages, page, true);
      if r.Err? { return; }
      FreshIsLast(before, builder.root, page, true);
      page := page + PAGE_SIZE;
    }
    return Ok(());
  }

  /** A fresh page adds itself to the page map and nothing else. */
  lemma FreshIsLast(b: Build, root: nat, virt: nat, writable: bool)
    requires MapFresh(b, root, virt, writable).1.Ok?
    ensures forall x: nat :: x != virt ==>
              FindPage(MapFresh(b, root, virt, writable).0.pages, x) == FindPage(b.pages, x)
  {
    hide Map4k, Allocated;
    forall x: nat | x != virt ensures FindPage(MapFresh(b, root, virt, writable).0.pages, x) == FindPage(b.pages, x) {
      FindInLonger(b.pages, UserPage(virt, Lowest(b.space.free)), x);
    }
  }

  method LoadOneSegment(builder: AddressSpaceBuilder, pages: UserPageMap, file: Bytes, h: ProgramHeader)
    returns (r: Result<(), LoadError>)
    requires Ready(builder, pages)
    modifies builder.Footprint(), pages, pages.slots
    ensures Ready(builder, pages)
    ensures (ViewOf(builder, pages), r) == LoadSegment(old(ViewOf(builder, pages)), builder.root, file, h)
  {
    hide MapPagesFrom, CopyPages, OutOfBounds, PageStart, PageEnd, ProgramHeader.IsWritable, AddressSpaceBuilder.Valid;
    if OutOfBounds(h) { return Err(UserImageOutOfRange); }
    r := MapSegmentPages(builder, pages, PageStart(h), PageEnd(h), h.IsWritable());
    if r.Err? { return; }
    var range := h.FileRange(|file|);
    if range.Err? { return Err(BadElf(range.error)); }
    var copied := CopyInto(builder, pages, h.virtualAddress, file[range.value.0..range.value.1]);
    return if copied then Ok(()) else Err(UserImageOutOfRange);
  }

  /** The program header table as a list. */
  function HeaderList(file: Bytes, h: ElfHeader, from: nat): seq<Result<ProgramHeader, ElfError>>
    requires TableFits(file, h) && from <= h.count
    decreases h.count - from
  {
    if from == h.count then [] else [HeaderAt(file, h, from)] + HeaderList(file, h, from + 1)
  }

  /** One turn of the loop: the next header, and its segment when it is loadable. */
  method LoadNextSegment(builder: AddressSpaceBuilder, pages: UserPageMap, headers: ProgramHeaderIter,
                         ghost all: seq<Result<ProgramHeader, ElfError>>)
    returns (r: Result<(), LoadError>)
    requires Ready(builder, pages) && TableFits(headers.bytes, headers.header) && |headers.bytes| <= U64_MAX
    requires headers.next < headers.header.count == |all|
    requires all[headers.next] == HeaderAt(headers.bytes, headers.header, headers.next)
    modifies builder.Footprint(), pages, pages.slots, headers
    ensures Ready(builder, pages) && headers.next == old(headers.next) + 1
    ensures var before, after := old(ViewOf(builder, pages)), ViewOf(builder, pages);
            var i := old(headers.next);
            LoadSegments(before, builder.root, headers.bytes, all[i..])
            == if r.Err? then (after, r) else LoadSegments(after, builder.root, headers.bytes, all[i + 1..])
  {
    hide LoadSegment, HeaderAt, TableFits, LoadSegments, Ready, ViewOf;
    SegmentsFrom(ViewOf(builder, pages), builder.root, headers.bytes, all, headers.next);
    var item := headers.Next();
    if item.value.Err? { return Err(BadElf(item.value.error)); }
    if item.value.value.kind != PT_LOAD { return Ok(()); }
    r := LoadOneSegment(builder, pages, headers.bytes, item.value.value);
  }

  method LoadAllSegments(builder: AddressSpaceBuilder, pages: UserPageMap, file: Bytes, h: ElfHeader)
    returns (r: Result<(), LoadError>)
    requires Ready(builder, pages) && TableFits(file, h) && |file| <= U64_MAX
    modifies builder.Footprint(), pages, pages.slots
    ensures Ready(builder, pages)
    ensures (ViewOf(builder, pages), r) ==
              LoadSegments(old(ViewOf(builder, pages)), builder.root, file, HeaderList(file, h, 0))
  {
    hide HeaderAt, TableFits, HeaderList, Ready, ViewOf, LoadSegments;
    var headers := new ProgramHeaderIter(file, h);
    ghost var all := HeaderList(file, h, 0);
    ghost var whole := LoadSegments(ViewOf(builder, pages), builder.root, file, all);
    HeaderListItems(file, h, 0);
    SegmentsFrom(ViewOf(builder, pages), builder.root, file, all, 0);
    while headers.next < h.count
      invariant fresh(headers) && headers.next <= h.count
      invariant Ready(builder, pages)
      invariant LoadSegments(ViewOf(builder, pages), builder.root, file, all[headers.next..]) == whole
      decreases h.count - headers.next
    {
      r := LoadNextSegment(builder, pages, headers, all);
      if r.Err? { return; }
    }
    SegmentsFrom(ViewOf(builder, pages), builder.root, file, all, h.count);
    return Ok(());
  }

  /** One turn of the loop over the headers. */
  lemma SegmentsFrom(b: Build, root: nat, file: Bytes, all: seq<Result<ProgramHeader, ElfError>>, i: nat)
    requires i <= |all|
    ensures LoadSegments(b, root, file, all[0..]) == LoadSegments(b, root, file, all)
    ensures var r := LoadSegments(b, root, file, all[i..]);
            if i == |all| then r == (b, Ok(()))
            else if all[i].Err? then r == (b, Err(BadElf(all[i].error)))
            else if all[i].value.kind != PT_LOAD then r == LoadSegments(b, root, file, all[i + 1..])
            else
              var (b1, r1) := LoadSegment(b, root, file, all[i].value);
              r == if r1.Err? then (b1, r1) else LoadSegments(b1, root, file, all[i + 1..])
  {
    hide LoadSegment;
    assert all[0..] == all;
    if i < |all| {
      assert all[i..][0] == all[i] && all[i..][1..] == all[i + 1..];
    }
  }

  lemma {:induction false} HeaderListItems(file: Bytes, h: ElfHeader, from: nat)
    requires TableFits(file, h) && from <= h.count
    ensures |HeaderList(file, h, from)| == h.count - from
    ensures forall i :: 0 <= i < h.count - from ==> HeaderList(file, h, from)[i] == HeaderAt(file, h, from + i)
    decreases h.count - from
  {
    if from < h.count {
      HeaderListItems(file, h, from + 1);
      hide HeaderAt;
      assert HeaderList(file, h, from)[1..] == HeaderList(file, h, from + 1);
      forall i | 0 < i < h.count - from ensures HeaderList(file, h, from)[i] == HeaderAt(file, h, from + i) {
        assert HeaderList(file, h, from + 1)[i - 1] == HeaderAt(file, h, from + 1 + (i - 1));
      }
    }
  }

  // ---------------------------------------------------------------------------
  // Startup arguments.

  /** The pointer array as bytes. */
  function WordBytes(words: seq<nat>): Bytes {
    if words == [] then [] else WordBytes(words[..|words| - 1]) + ToLe(words[|words| - 1], WORD)
  }

  lemma {:induction false} PointersAsBytes(start: nat, args: seq<Bytes>, words: seq<nat>)
    requires |words| <= |args| && forall i :: 0 <= i < |words| ==> words[i] == StringAt(start, args, i)
    ensures WordBytes(words) == PointerBytes(start, args, |words|)
    decreases |words|
  {
    if words != [] {
      PointersAsBytes(start, args, words[..|words| - 1]);
    }
  }

  /** `pages.copy_into`, on the image. */
  method CopyInto(builder: AddressSpaceBuilder, pages: UserPageMap, address: nat, bytes: Bytes) returns (ok: bool)
    requires Ready(builder, pages)
    modifies builder.memory`frames
    ensures Ready(builder, pages)
    ensures (ViewOf(builder, pages), ok) == WriteAt(old(ViewOf(builder, pages)), address, bytes)
  {
    hide CopyPages;
    ok := pages.CopyInto(builder.memory, address, bytes);
  }

  method WriteStartupArguments(builder: AddressSpaceBuilder, pages: UserPageMap, l: Layout)
    returns (r: Result<nat, LoadError>)
    requires Ready(builder, pages) && |l.args| <= MAX_STARTUP_ARGS
    modifies builder.memory`frames
    ensures Ready(builder, pages)
    ensures (ViewOf(builder, pages), r) == WriteBlock(old(ViewOf(builder, pages)), l)
  {
    hide Ready, ViewOf, WriteAt, WriteStrings, WordBytes, PointerBytes, StringAt;
    var argc := |l.args|;
    ghost var footprint := builder.Footprint();
    var pointers := new nat[MAX_STARTUP_ARGS + 1](_ => 0);
    assert pointers !in footprint;
    var written := WriteArgumentStrings(builder, pages, l, pointers);
    if !written { return Err(UserImageOutOfRange); }
    NullTerminated(l.stringsStart, l.args, pointers[..argc]);
    ghost var image := ViewOf(builder, pages);
    pointers[argc] := 0;
    assert Ready(builder, pages) && ViewOf(builder, pages) == image;
    assert pointers[..argc + 1] == pointers[..argc] + [0];
    var count := CopyInto(builder, pages, l.stackStart, ToLe(argc, WORD));
    if !count { return Err(UserImageOutOfRange); }
    var block := CopyInto(builder, pages, l.stackStart + WORD, WordBytes(pointers[..argc + 1]));
    return if block then Ok(l.stackStart) else Err(UserImageOutOfRange);
  }

  lemma NullTerminated(start: nat, args: seq<Bytes>, words: seq<nat>)
    requires |words| == |args| && forall i :: 0 <= i < |words| ==> words[i] == StringAt(start, args, i)
    ensures WordBytes(words + [0]) == PointerBytes(start, args, |args|) + ToLe(0, WORD)
  {
    PointersAsBytes(start, args, words);
    assert (words + [0])[..|words|] == words;
  }

  method WriteArgument(builder: AddressSpaceBuilder, pages: UserPageMap, cursor: nat, arg: Bytes) returns (ok: bool)
    requires Ready(builder, pages)
    modifies builder.memory`frames
    ensures Ready(builder, pages)
    ensures (ViewOf(builder, pages), ok) == WriteString(old(ViewOf(builder, pages)), cursor, arg)
  {
    hide Ready, ViewOf, WriteAt;
    ok := CopyInto(builder, pages, cursor, arg);
    if ok {
      ok := CopyInto(builder, pages, cursor + |arg|, [NUL]);
    }
  }

  /** The strings, and where each of them went. */
  method WriteArgumentStrings(builder: AddressSpaceBuilder, pages: UserPageMap, l: Layout, pointers: array<nat>)
    returns (ok: bool)
    requires Ready(builder, pages) && |l.args| < pointers.Length && pointers !in builder.Footprint()
    modifies builder.memory`frames, pointers
    ensures Ready(builder, pages)
    ensures (ViewOf(builder, pages), ok) == WriteStrings(old(ViewOf(builder, pages)), l.stringsStart, l.args)
    ensures ok ==> forall i :: 0 <= i < |l.args| ==> pointers[i] == StringAt(l.stringsStart, l.args, i)
  {
    hide Ready, ViewOf, WriteString, WriteStrings, StringAt;
    var index, cursor := 0, l.stringsStart;
    ghost var whole := WriteStrings(ViewOf(builder, pages), l.stringsStart, l.args);
    NextString(l.stringsStart, l.args, 0);
    StringsFrom(ViewOf(builder, pages), cursor, l.args, 0);
    while index < |l.args|
      invariant index <= |l.args| && cursor == StringAt(l.stringsStart, l.args, index)
      invariant Ready(builder, pages)
      invariant WriteStrings(ViewOf(builder, pages), cursor, l.args[index..]) == whole
      invariant forall i :: 0 <= i < index ==> pointers[i] == StringAt(l.stringsStart, l.args, i)
    {
      var arg := l.args[index];
      NextString(l.stringsStart, l.args, index);
      StringsFrom(ViewOf(builder, pages), cursor, l.args, index);
      ghost var image := ViewOf(builder, pages);
      pointers[index] := cursor;
      assert Ready(builder, pages) && ViewOf(builder, pages) == image;
      ok := WriteArgument(builder, pages, cursor, arg);
      if !ok { return; }
      cursor, index := cursor + |arg| + 1, index + 1;
    }
    StringsFrom(ViewOf(builder, pages), cursor, l.args, index);
    return true;
  }

  lemma NextString(start: nat, args: seq<Bytes>, i: nat)
    requires i <= |args|
    ensures StringAt(start, args, 0) == start
    ensures i < |args| ==> StringAt(start, args, i + 1) == StringAt(start, args, i) + |args[i]| + 1
  {
    if i < |args| { SerializedPush(args, i); }
  }

  lemma StringsFrom(b: Build, cursor: nat, args: seq<Bytes>, i: nat)
    requires i <= |args|
    ensures WriteStrings(b, cursor, args[0..]) == WriteStrings(b, cursor, args)
    ensures var r := WriteStrings(b, cursor, args[i..]);
            if i == |args| then r == (b, true)
            else
              var (b1, ok) := WriteString(b, cursor, args[i]);
              r == if !ok then (b1, false) else WriteStrings(b1, cursor + |args[i]| + 1, args[i + 1..])
  {
    hide WriteString;
    assert args[0..] == args;
    if i < |args| {
      assert args[i..][0] == args[i] && args[i..][1..] == args[i + 1..];
    }
  }
}
