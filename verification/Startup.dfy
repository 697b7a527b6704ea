// Startup arguments, from the parent's spawn call to the child's iterator:
// libs/liblazer/src/process.rs:66-82, kernel/kernel/src/memory/loader.rs:118-226
// and libs/liblazer/src/runtime.rs:43-84. Whether bytes are valid UTF-8 is a
// parameter: nothing here decodes them.
module Startup {
  import opened Prelude
  import opened Words
  import opened Paging
  import opened UserImages
  import opened Segments

  const MAX_STARTUP_ARGS: nat := 32

  type Utf8 = Bytes -> bool

  // ---------------------------------------------------------------------------
  // The parent's side.

  datatype SerializeError = InvalidUtf8 | TooLarge

  /** Each argument followed by NUL. */
  function Serialized(args: seq<Bytes>): Bytes {
    if args == [] then [] else Serialized(args[..|args| - 1]) + args[|args| - 1] + [NUL]
  }

  ghost predicate NoNul(args: seq<Bytes>) {
    forall i :: 0 <= i < |args| ==> NUL !in args[i]
  }

  lemma SerializedPush(args: seq<Bytes>, i: nat)
    requires i < |args|
    ensures Serialized(args[..i + 1]) == Serialized(args[..i]) + args[i] + [NUL]
  {
    assert args[..i + 1][..i] == args[..i];
  }

  lemma {:induction false} SerializedGrows(args: seq<Bytes>, i: nat)
    requires i <= |args|
    ensures |Serialized(args[..i])| <= |Serialized(args)|
    decreases |args| - i
  {
    if i < |args| {
      SerializedPush(args, i);
      SerializedGrows(args, i + 1);
    } else {
      assert args[..i] == args;
    }
  }

  /** Succeeds if and only if no argument contains NUL and the buffer holds them all; then the
      buffer starts with the serialized arguments. */
  method SerializeSpawnArgs(args: seq<Bytes>, buffer: array<Byte>) returns (r: Result<nat, SerializeError>)
    modifies buffer
    ensures r.Ok? <==> NoNul(args) && |Serialized(args)| <= buffer.Length
    ensures r.Ok? ==> r.value == |Serialized(args)| && buffer[..r.value] == Serialized(args)
    ensures r.Ok? ==> forall k :: r.value <= k < buffer.Length ==> buffer[k] == old(buffer[k])
    ensures r == Err(InvalidUtf8) ==> !NoNul(args)
    ensures r == Err(TooLarge) ==> |Serialized(args)| > buffer.Length
  {
    var written, index := 0, 0;
    while index < |args|
      invariant index <= |args| && NoNul(args[..index])
      invariant written == |Serialized(args[..index])| <= buffer.Length
      invariant buffer[..written] == Serialized(args[..index])
      invariant forall k :: written <= k < buffer.Length ==> buffer[k] == old(buffer[k])
    {
      var arg := args[index];
      if NUL in arg { return Err(InvalidUtf8); }
      SerializedPush(args, index);
      SerializedGrows(args, index + 1);
      if written + |arg| + 1 > buffer.Length { return Err(TooLarge); }
      CopyInto(buffer, written, arg);
      CopyInto(buffer, written + |arg|, [NUL]);
      written := written + |arg| + 1;
      index := index + 1;
    }
    assert args[..|args|] == args;
    return Ok(written);
  }

  // ---------------------------------------------------------------------------
  // The kernel's side: splitting the tail.

  function FirstNul(bytes: Bytes, from: nat): (i: nat)
    requires from <= |bytes|
    ensures from <= i <= |bytes| && (i < |bytes| ==> bytes[i] == NUL)
    ensures forall k :: from <= k < i ==> bytes[k] != NUL
    decreases |bytes| - from
  {
    if from == |bytes| || bytes[from] == NUL then from else FirstNul(bytes, from + 1)
  }

  /** The loop over `argv_tail` from `cursor` on, with the arguments found so far. */
  function SplitTail(tail: Bytes, cursor: nat, args: seq<Bytes>, utf8: Utf8): Result<seq<Bytes>, LoadError>
    requires cursor <= |tail|
    decreases |tail| - cursor
  {
    if cursor == |tail| then Ok(args)
    else
      var end := FirstNul(tail, cursor);
      if end == |tail| then Err(InvalidStartupArguments)
      else
        var arg := tail[cursor..end];
        if arg == [] || !utf8(arg) then Err(InvalidStartupArguments)
        else if |args| >= MAX_STARTUP_ARGS then Err(LoadError.StartupArgumentsTooLarge)
        else SplitTail(tail, end + 1, args + [arg], utf8)
  }

  function StartupArgs(argv0: Bytes, tail: Bytes, utf8: Utf8): Result<seq<Bytes>, LoadError> {
    if !utf8(argv0) || NUL in argv0 then Err(InvalidStartupArguments) else SplitTail(tail, 0, [argv0], utf8)
  }

  /** What the kernel asks of a further argument. */
  ghost predicate Accepted(arg: Bytes, utf8: Utf8) {
    arg != [] && utf8(arg)
  }

  lemma FirstNulAfter(front: Bytes, arg: Bytes, rest: Bytes)
    requires NUL !in arg
    ensures FirstNul(front + arg + [NUL] + rest, |front|) == |front| + |arg|
  {
    var all := front + arg + [NUL] + rest;
    var i := FirstNul(all, |front|);
    assert all[|front| + |arg|] == NUL;
    forall k | |front| <= k < |front| + |arg| ensures all[k] != NUL {
      assert all[k] == arg[k - |front|];
    }
  }

  lemma {:induction false} SerializedSplits(args: seq<Bytes>, k: nat)
    requires k < |args|
    ensures Serialized(args) == Serialized(args[..k]) + args[k] + [NUL] + Serialized(args[k + 1..])
    decreases |args| - k
  {
    var n := |args| - 1;
    if k == n {
      assert args[..k] == args[..n];
    } else {
      SerializedSplits(args[..n], k);
      assert args[..n][..k] == args[..k] && args[..n][k] == args[k];
      assert args[k + 1..][..|args[k + 1..]| - 1] == args[..n][k + 1..];
    }
  }

  /** One turn of the splitting loop, at the start of a NUL-free argument. */
  lemma SplitStep(front: Bytes, arg: Bytes, rest: Bytes, found: seq<Bytes>, utf8: Utf8)
    requires NUL !in arg
    ensures |front| + |arg| + 1 <= |front + arg + [NUL] + rest|
    ensures SplitTail(front + arg + [NUL] + rest, |front|, found, utf8) ==
            if !Accepted(arg, utf8) then Err(InvalidStartupArguments)
            else if |found| >= MAX_STARTUP_ARGS then Err(LoadError.StartupArgumentsTooLarge)
            else SplitTail(front + arg + [NUL] + rest, |front| + |arg| + 1, found + [arg], utf8)
  {
    var tail := front + arg + [NUL] + rest;
    FirstNulAfter(front, arg, rest);
    hide FirstNul;
    assert tail[|front|..|front| + |arg|] == arg;
  }

  /** Serializing and splitting are inverse for arguments the kernel accepts, as many as fit;
      the first argument it does not accept makes it refuse the whole tail. */
  lemma {:induction false} SplitOfSerialized(args: seq<Bytes>, k: nat, found: seq<Bytes>, utf8: Utf8)
    requires NoNul(args) && k <= |args| && |Serialized(args[..k])| <= |Serialized(args)|
    ensures var r := SplitTail(Serialized(args), |Serialized(args[..k])|, found, utf8);
            if (forall i :: k <= i < |args| ==> Accepted(args[i], utf8)) && (k < |args| ==>
                |found| + (|args| - k) <= MAX_STARTUP_ARGS)
            then r == Ok(found + args[k..])
            else r.Err?
    decreases |args| - k
  {
    hide Serialized, SplitTail, Accepted;
    if k == |args| {
      assert args[..k] == args && found + args[k..] == found;
      SplitAtEnd(Serialized(args), found, utf8);
    } else {
      var front, arg := Serialized(args[..k]), args[k];
      SerializedSplits(args, k);
      SplitStep(front, arg, Serialized(args[k + 1..]), found, utf8);
      SerializedPush(args, k);
      SerializedGrows(args, k + 1);
      if Accepted(arg, utf8) && |found| < MAX_STARTUP_ARGS {
        SplitOfSerialized(args, k + 1, found + [arg], utf8);
        assert found + args[k..] == found + [arg] + args[k + 1..];
      }
    }
  }

  lemma SplitAtEnd(tail: Bytes, found: seq<Bytes>, utf8: Utf8)
    ensures SplitTail(tail, |tail|, found, utf8) == Ok(found)
  {
  }

  /** The kernel recovers exactly the arguments the parent serialized, if and only if all are
      non-empty valid UTF-8 and there are at most 31. */
  lemma TailRoundTrip(argv0: Bytes, args: seq<Bytes>, utf8: Utf8)
    requires utf8(argv0) && NUL !in argv0 && NoNul(args)
    ensures var r := StartupArgs(argv0, Serialized(args), utf8);
            if (forall i :: 0 <= i < |args| ==> Accepted(args[i], utf8)) && |args| < MAX_STARTUP_ARGS
            then r == Ok([argv0] + args)
            else r.Err?
  {
    assert args[..0] == [];
    SplitOfSerialized(args, 0, [argv0], utf8);
    assert args[0..] == args;
  }

  /** A tail that does not end with a NUL is refused, whatever is in front. */
  lemma {:induction false} UnterminatedTailIsRefused(tail: Bytes, cursor: nat, found: seq<Bytes>, utf8: Utf8)
    requires cursor < |tail| && tail[|tail| - 1] != NUL
    ensures SplitTail(tail, cursor, found, utf8).Err?
    decreases |tail| - cursor
  {
    var end := FirstNul(tail, cursor);
    if end < |tail| {
      UnterminatedTailIsRefused(tail, end + 1, found + [tail[cursor..end]], utf8);
    }
  }

  /** The library serializes an empty argument, as the single byte NUL, and the kernel refuses it. */
  lemma EmptyArgumentIsRefused(argv0: Bytes, utf8: Utf8)
    requires utf8(argv0) && NUL !in argv0
    ensures var args: seq<Bytes> := [[]];
            && NoNul(args) && Serialized(args) == [NUL]
            && StartupArgs(argv0, Serialized(args), utf8) == Err(InvalidStartupArguments)
  {
    var args: seq<Bytes> := [[]];
    assert args[..0] == [];
    assert FirstNul([NUL], 0) == 0;
    assert Serialized(args) == [NUL];
    assert SplitTail([NUL], 0, [argv0], utf8) == Err(InvalidStartupArguments);
  }

  /** The loop that splits the tail into the fixed array `args`, one argument per NUL. */
  method SplitArguments(argv0: Bytes, tail: Bytes, utf8: Utf8) returns (r: Result<seq<Bytes>, LoadError>)
    ensures r == StartupArgs(argv0, tail, utf8)
    ensures r.Ok? ==> |r.value| <= MAX_STARTUP_ARGS
  {
    hide FirstNul;
    if !utf8(argv0) || NUL in argv0 { return Err(InvalidStartupArguments); }
    var args := new Bytes[MAX_STARTUP_ARGS](_ => []);
    args[0] := argv0;
    var argc, cursor := 1, 0;
    assert args[..1] == [argv0];
    while cursor < |tail|
      invariant cursor <= |tail| && 1 <= argc <= args.Length
      invariant SplitTail(tail, cursor, args[..argc], utf8) == StartupArgs(argv0, tail, utf8)
    {
      var end := FirstNul(tail, cursor);
      if end == |tail| { return Err(InvalidStartupArguments); }
      var arg := tail[cursor..end];
      if |arg| == 0 || !utf8(arg) { return Err(InvalidStartupArguments); }
      if argc >= args.Length { return Err(LoadError.StartupArgumentsTooLarge); }
      ghost var found := args[..argc];
      args[argc] := arg;
      assert args[..argc + 1] == found + [arg];
      argc, cursor := argc + 1, end + 1;
    }
    return Ok(args[..argc]);
  }

  // ---------------------------------------------------------------------------
  // The layout on the stack.

  datatype Layout = Layout(args: seq<Bytes>, stringsStart: nat, stackStart: nat)

  function PrepareLayout(args: seq<Bytes>): Result<Layout, LoadError> {
    var stringsSize := |Serialized(args)|;
    if stringsSize > USER_STACK_TOP then Err(LoadError.StartupArgumentsTooLarge)
    else
      var strings, pointersLength := USER_STACK_TOP - stringsSize, (|args| + 1) * WORD;
      if pointersLength > strings then Err(LoadError.StartupArgumentsTooLarge)
      else
        var pointers := AlignDown(strings - pointersLength, 8);
        if WORD > pointers then Err(LoadError.StartupArgumentsTooLarge)
        else
          var stack := AlignDown(pointers - WORD, 16);
          if stack < USER_STACK_BASE then Err(LoadError.StartupArgumentsTooLarge)
          else Ok(Layout(args, strings, stack))
  }

  /** The size loop and the checked subtractions. */
  method PrepareStartupLayout(args: seq<Bytes>) returns (r: Result<Layout, LoadError>)
    ensures r == PrepareLayout(args)
  {
    var stringsSize, index := 0, 0;
    while index < |args|
      invariant index <= |args| && stringsSize == |Serialized(args[..index])|
    {
      SerializedPush(args, index);
      stringsSize := stringsSize + |args[index]| + 1;
      index := index + 1;
    }
    assert args[..|args|] == args;
    if stringsSize > USER_STACK_TOP { return Err(LoadError.StartupArgumentsTooLarge); }
    var strings, pointersLength := USER_STACK_TOP - stringsSize, (|args| + 1) * WORD;
    if pointersLength > strings { return Err(LoadError.StartupArgumentsTooLarge); }
    var pointers := AlignDown(strings - pointersLength, 8);
    if WORD > pointers { return Err(LoadError.StartupArgumentsTooLarge); }
    var stack := AlignDown(pointers - WORD, 16);
    if stack < USER_STACK_BASE { return Err(LoadError.StartupArgumentsTooLarge); }
    return Ok(Layout(args, strings, stack));
  }

  /** Arguments of a realistic size always fit. */
  lemma SmallArgumentsFit(args: seq<Bytes>)
    requires |args| <= MAX_STARTUP_ARGS && |Serialized(args)| <= 0xf000
    ensures PrepareLayout(args).Ok?
  {
  }

  /** The words lie below the strings, all of it on the stack. */
  lemma LayoutIsDisjoint(args: seq<Bytes>)
    ensures var r := PrepareLayout(args);
            r.Ok? ==>
              && USER_STACK_BASE <= r.value.stackStart
              && r.value.stackStart + WORD + (|args| + 1) * WORD <= r.value.stringsStart
              && r.value.stringsStart + |Serialized(args)| == USER_STACK_TOP
              && r.value.stackStart % 16 == 0
  {
    hide Serialized;
  }

  /** At `stack` there is room for argc, the pointers, the null word and the strings up to the stack's top. */
  ghost predicate HasRoom(args: seq<Bytes>, stack: nat) {
    stack % 16 == 0 && stack + 8 + 8 * (|args| + 1) + |Serialized(args)| <= 0x80_0000
  }

  /** The strings end at the top of the stack, and the stack pointer is the highest multiple of 16 that
      leaves room; arguments are refused exactly when that would be below the stack's sixteen pages. */
  lemma LayoutIsTightest(args: seq<Bytes>)
    ensures var r := PrepareLayout(args);
            && (r.Ok? <==> exists stack: nat :: 0x7f_0000 <= stack && HasRoom(args, stack))
            && (r.Ok? ==>
                  && r.value.args == args && r.value.stringsStart == 0x80_0000 - |Serialized(args)|
                  && HasRoom(args, r.value.stackStart)
                  && forall stack: nat :: HasRoom(args, stack) ==> stack <= r.value.stackStart)
            && (r.Err? ==> r.error == LoadError.StartupArgumentsTooLarge)
  {
    hide Serialized;
    var r := PrepareLayout(args);
    var size, words := |Serialized(args)|, 8 * (|args| + 1);
    if size + words + 8 <= 0x80_0000 {
      HighestBoundary(0x80_0000 - size, |args| + 1);
      hide AlignDown;
      if r.Ok? {
        assert HasRoom(args, r.value.stackStart);
      } else {
        forall stack: nat | HasRoom(args, stack) ensures stack < 0x7f_0000 {
        }
      }
    } else {
      hide AlignDown;
      forall stack: nat ensures !HasRoom(args, stack) {
      }
    }
  }

  lemma HighestBoundary(top: nat, words: nat)
    requires 8 * words + 8 <= top
    ensures 8 <= AlignDown(top - 8 * words, 8)
    ensures var stack := AlignDown(AlignDown(top - 8 * words, 8) - 8, 16);
            && stack % 16 == 0 && stack + 8 + 8 * words <= top
            && forall other: nat :: other % 16 == 0 && other + 8 + 8 * words <= top ==> other <= stack
  {
    Down8(top - 8 * words);
    var n := (top - 8 * words) / 8;
    Down16(8 * n - 8);
    hide AlignDown;
    forall other: nat | other % 16 == 0 && other + 8 + 8 * words <= top ensures other <= 16 * ((8 * n - 8) / 16) {
      assert other == 16 * (other / 16);
    }
  }

  lemma Down8(x: nat)
    ensures AlignDown(x, 8) == 8 * (x / 8) && 8 * (x / 8) <= x < 8 * (x / 8) + 8
  {
  }

  lemma Down16(x: nat)
    ensures AlignDown(x, 16) == 16 * (x / 16) && 16 * (x / 16) <= x < 16 * (x / 16) + 16
  {
  }

  /** Where string `i` starts. */
  function StringAt(start: nat, args: seq<Bytes>, i: nat): nat
    requires i <= |args|
  {
    start + |Serialized(args[..i])|
  }

  /** The pointer block: one word per argument, and a null word. */
  function PointerBytes(start: nat, args: seq<Bytes>, n: nat): Bytes
    requires n <= |args|
  {
    if n == 0 then [] else PointerBytes(start, args, n - 1) + ToLe(StringAt(start, args, n - 1), WORD)
  }

  lemma {:induction false} PointerBytesSize(start: nat, args: seq<Bytes>, n: nat)
    requires n <= |args|
    ensures |PointerBytes(start, args, n)| == WORD * n
  {
    if n > 0 { PointerBytesSize(start, args, n - 1); }
  }

  lemma {:induction false} PointerWord(start: nat, args: seq<Bytes>, n: nat, i: nat)
    requires i < n <= |args|
    ensures |PointerBytes(start, args, n)| == WORD * n
    ensures PointerBytes(start, args, n)[WORD * i..WORD * i + WORD] == ToLe(StringAt(start, args, i), WORD)
  {
    PointerBytesSize(start, args, n);
    PointerBytesSize(start, args, n - 1);
    if i < n - 1 {
      PointerWord(start, args, n - 1, i);
      assert PointerBytes(start, args, n)[WORD * i..WORD * i + WORD] ==
               PointerBytes(start, args, n - 1)[WORD * i..WORD * i + WORD];
    }
  }

  // ---------------------------------------------------------------------------
  // Writing the block into the stack pages.

  ghost function WriteAt(b: Build, address: nat, bytes: Bytes): (Build, bool) {
    var (frames', ok) := CopyPages(b.space.frames, b.pages, address, bytes);
    (b.(space := b.space.(frames := frames')), ok)
  }

  ghost function WriteString(b: Build, cursor: nat, arg: Bytes): (Build, bool) {
    var (b1, ok1) := WriteAt(b, cursor, arg);
    if !ok1 then (b1, false) else WriteAt(b1, cursor + |arg|, [NUL])
  }

  /** Every string at the running cursor, each followed by NUL. */
  ghost function WriteStrings(b: Build, cursor: nat, args: seq<Bytes>): (Build, bool)
    decreases |args|
  {
    if args == [] then (b, true)
    else
      var (b1, ok) := WriteString(b, cursor, args[0]);
      if !ok then (b1, false) else WriteStrings(b1, cursor + |args[0]| + 1, args[1..])
  }

  /** `write_startup_arguments` after the layout: strings, then argc, then the pointers. */
  ghost function WriteBlock(b: Build, l: Layout): (Build, Result<nat, LoadError>) {
    var (b1, ok1) := WriteStrings(b, l.stringsStart, l.args);
    if !ok1 then (b1, Err(UserImageOutOfRange))
    else
      var (b2, ok2) := WriteAt(b1, l.stackStart, ToLe(|l.args|, WORD));
      if !ok2 then (b2, Err(UserImageOutOfRange))
      else
        var (b3, ok3) := WriteAt(b2, l.stackStart + WORD,
            PointerBytes(l.stringsStart, l.args, |l.args|) + ToLe(0, WORD));
        (b3, if ok3 then Ok(l.stackStart) else Err(UserImageOutOfRange))
  }

  lemma WriteAtWorks(b: Build, root: nat, rights: map<nat, bool>, base: map<nat, Bytes>, address: nat, bytes: Bytes)
    requires Image(b, root, rights, base) && AllPresent(b.pages, address, address + |bytes|)
    ensures var (b', ok) := WriteAt(b, address, bytes);
            && ok && Image(b', root, rights, base) && b'.pages == b.pages
            && b'.space.free == b.space.free && b'.space.owned == b.space.owned
            && Copied(b.space.frames, b'.space.frames, b.pages, address, bytes)
  {
    hide Image, CopyPages, AllPresent, Copied;
    ImageApart(b, root, rights, base);
    CopyWorks(b.space.frames, b.pages, address, bytes);
    CopyKeepsImage(b, root, rights, base, address, bytes);
  }

  lemma PresentPart(pages: seq<UserPage>, from: nat, to: nat, from': nat, to': nat)
    requires AllPresent(pages, from, to) && from <= from' && to' <= to
    ensures AllPresent(pages, from', to')
  {
    hide FindPage;
  }

  /** The image after a write, in one predicate. */
  ghost predicate Wrote(b: Build, b': Build, root: nat, rights: map<nat, bool>, base: map<nat, Bytes>, address: nat,
                        bytes: Bytes) {
    && Image(b', root, rights, base) && b'.pages == b.pages
    && b'.space.free == b.space.free && b'.space.owned == b.space.owned
    && Copied(b.space.frames, b'.space.frames, b.pages, address, bytes)
  }

  lemma WroteTwice(b: Build, b': Build, b'': Build, root: nat, rights: map<nat, bool>, base: map<nat, Bytes>,
                   address: nat, front: Bytes, rest: Bytes)
    requires Wrote(b, b', root, rights, base, address, front)
    requires Wrote(b', b'', root, rights, base, address + |front|, rest)
    ensures Wrote(b, b'', root, rights, base, address, front + rest)
  {
    hide Image, Copied;
    assert (front + rest)[..|front|] == front && (front + rest)[|front|..] == rest;
    CopiedTwice(b.space.frames, b'.space.frames, b''.space.frames, b.pages, address, front + rest, |front|);
  }

  lemma WroteNothing(b: Build, root: nat, rights: map<nat, bool>, base: map<nat, Bytes>, address: nat)
    requires Image(b, root, rights, base)
    ensures Wrote(b, b, root, rights, base, address, [])
  {
    hide Image, Copied;
    CopiedNothing(b.space.frames, b.pages, address);
  }

  lemma SerializedFirst(args: seq<Bytes>)
    requires args != []
    ensures Serialized(args) == args[0] + [NUL] + Serialized(args[1..])
  {
    SerializedSplits(args, 0);
    assert args[..0] == [];
    hide Serialized;
    assert Serialized(args[..0]) + args[0] == args[0] by { assert Serialized([]) == [] by { EmptySerialized(); } }
  }

  lemma EmptySerialized()
    ensures Serialized([]) == []
  {
  }

  /** The strings land as one contiguous run. */
  lemma {:induction false} WriteStringsWorks(b: Build, root: nat, rights: map<nat, bool>, base: map<nat, Bytes>,
                                             cursor: nat, args: seq<Bytes>)
    requires Image(b, root, rights, base) && AllPresent(b.pages, cursor, cursor + |Serialized(args)|)
    ensures var (b', ok) := WriteStrings(b, cursor, args);
            ok && Wrote(b, b', root, rights, base, cursor, Serialized(args))
    decreases |args|
  {
    hide Image, AllPresent, Copied, WriteAt, Serialized, Wrote;
    if args == [] {
      EmptySerialized();
      WroteNothing(b, root, rights, base, cursor);
    } else {
      SerializedFirst(args);
      var n := |args[0]|;
      PresentPart(b.pages, cursor, cursor + |Serialized(args)|, cursor, cursor + n);
      WriteAtWorks(b, root, rights, base, cursor, args[0]);
      var b1 := WriteAt(b, cursor, args[0]).0;
      PresentPart(b.pages, cursor, cursor + |Serialized(args)|, cursor + n, cursor + n + 1);
      WriteAtWorks(b1, root, rights, base, cursor + n, [NUL]);
      var b2 := WriteAt(b1, cursor + n, [NUL]).0;
      PresentPart(b.pages, cursor, cursor + |Serialized(args)|, cursor + n + 1,
          cursor + n + 1 + |Serialized(args[1..])|);
      WriteStringsWorks(b2, root, rights, base, cursor + n + 1, args[1..]);
      var b3 := WriteStrings(b2, cursor + n + 1, args[1..]).0;
      WroteThree(b, b1, b2, b3, root, rights, base, cursor, args);
    }
  }

  lemma WroteThree(b: Build, b1: Build, b2: Build, b3: Build, root: nat, rights: map<nat, bool>, base: map<nat, Bytes>,
                   cursor: nat, args: seq<Bytes>)
    requires args != [] && Image(b1, root, rights, base) && Image(b2, root, rights, base)
    requires b1.pages == b.pages && b1.space.free == b.space.free && b1.space.owned == b.space.owned
    requires b2.pages == b.pages && b2.space.free == b.space.free && b2.space.owned == b.space.owned
    requires Copied(b.space.frames, b1.space.frames, b.pages, cursor, args[0])
    requires Copied(b1.space.frames, b2.space.frames, b.pages, cursor + |args[0]|, [NUL])
    requires Wrote(b2, b3, root, rights, base, cursor + |args[0]| + 1, Serialized(args[1..]))
    ensures Wrote(b, b3, root, rights, base, cursor, Serialized(args))
  {
    hide Image, Copied, Serialized;
    SerializedFirst(args);
    assert Wrote(b, b1, root, rights, base, cursor, args[0]);
    assert Wrote(b1, b2, root, rights, base, cursor + |args[0]|, [NUL]);
    hide Wrote;
    WroteTwice(b, b1, b2, root, rights, base, cursor, args[0], [NUL]);
    assert cursor + |args[0] + [NUL]| == cursor + |args[0]| + 1;
    WroteTwice(b, b2, b3, root, rights, base, cursor, args[0] + [NUL], Serialized(args[1..]));
  }

  // ---------------------------------------------------------------------------
  // The child's side.

  type Memory = nat -> Option<Byte>

  /** The byte `i` places above `address`. */
  function At(m: Memory, address: nat, i: nat): Option<Byte> {
    m(address + i)
  }

  ghost predicate Holds(m: Memory, address: nat, bytes: Bytes) {
    forall i :: 0 <= i < |bytes| ==> At(m, address, i) == Some(bytes[i])
  }

  /** argc, the pointers, a null word, and the strings the pointers lead to. */
  ghost predicate Block(m: Memory, stack: nat, strings: nat, args: seq<Bytes>) {
    && Holds(m, stack, ToLe(|args|, WORD))
    && Holds(m, stack + WORD, PointerBytes(strings, args, |args|) + ToLe(0, WORD))
    && Holds(m, strings, Serialized(args))
    && strings + |Serialized(args)| < WORD_LIMIT && |args| < WORD_LIMIT
  }

  ghost predicate Readable(m: Memory, address: nat) {
    forall i :: 0 <= i < WORD ==> At(m, address, i).Some?
  }

  /** `*(address as *const usize)`. */
  function ReadWord(m: Memory, address: nat): nat
    requires Readable(m, address)
  {
    FromLe(seq(WORD, i requires 0 <= i < WORD => At(m, address, i).value))
  }

  lemma WordHeld(m: Memory, address: nat, w: nat)
    requires Holds(m, address, ToLe(w, WORD)) && w < WORD_LIMIT
    ensures Readable(m, address) && ReadWord(m, address) == w
  {
    var bytes := ToLe(w, WORD);
    WordPower();
    FromToLe(w, WORD);
    hide ToLe, FromLe;
    assert forall i :: 0 <= i < WORD ==> At(m, address, i) == Some(bytes[i]);
    assert seq(WORD, i requires 0 <= i < WORD => At(m, address, i).value) == bytes;
  }

  lemma HoldsPart(m: Memory, address: nat, bytes: Bytes, from: nat, to: nat)
    requires Holds(m, address, bytes) && from <= to <= |bytes|
    ensures Holds(m, address + from, bytes[from..to])
  {
    forall i | 0 <= i < to - from ensures At(m, address + from, i) == Some(bytes[from..to][i]) {
      assert At(m, address, from + i) == Some(bytes[from + i]);
    }
  }

  /** A C string is at `pointer`. */
  ghost predicate CString(m: Memory, pointer: nat, s: Bytes) {
    NUL !in s && Holds(m, pointer, s + [NUL])
  }

  /** Word `i` of argv leads to argument `i`. */
  lemma ArgumentInBlock(m: Memory, stack: nat, strings: nat, args: seq<Bytes>, i: nat)
    requires Block(m, stack, strings, args) && i < |args| && NoNul(args)
    ensures Readable(m, stack + WORD + WORD * i)
    ensures CString(m, ReadWord(m, stack + WORD + WORD * i), args[i])
  {
    hide ReadWord, Serialized, PointerBytes, Holds, Readable;
    SerializedGrows(args, i);
    PointerHeld(m, stack, strings, args, i);
    WordHeld(m, stack + WORD + WORD * i, StringAt(strings, args, i));
    StringHeld(m, strings, args, i);
  }

  lemma PointerHeld(m: Memory, stack: nat, strings: nat, args: seq<Bytes>, i: nat)
    requires Holds(m, stack + WORD, PointerBytes(strings, args, |args|) + ToLe(0, WORD)) && i < |args|
    ensures Holds(m, stack + WORD + WORD * i, ToLe(StringAt(strings, args, i), WORD))
  {
    var pointers := PointerBytes(strings, args, |args|);
    PointerWord(strings, args, |args|, i);
    hide PointerBytes, ToLe, Holds, StringAt;
    SliceOfFront(pointers, ToLe(0, WORD), WORD * i, WORD * i + WORD);
    HoldsPart(m, stack + WORD, pointers + ToLe(0, WORD), WORD * i, WORD * i + WORD);
  }

  lemma SliceOfFront(front: Bytes, rest: Bytes, from: nat, to: nat)
    requires from <= to <= |front|
    ensures (front + rest)[from..to] == front[from..to]
  {
  }

  lemma SliceOfMiddle(front: Bytes, a: Bytes, b: Bytes, rest: Bytes)
    ensures |front + a + b + rest| == |front| + |a| + |b| + |rest|
    ensures (front + a + b + rest)[|front|..|front| + |a| + |b|] == a + b
  {
  }

  lemma StringHeld(m: Memory, strings: nat, args: seq<Bytes>, i: nat)
    requires Holds(m, strings, Serialized(args)) && i < |args|
    ensures Holds(m, StringAt(strings, args, i), args[i] + [NUL])
  {
    hide Holds, Serialized;
    var front, rest := Serialized(args[..i]), Serialized(args[i + 1..]);
    SerializedSplits(args, i);
    SliceOfMiddle(front, args[i], [NUL], rest);
    StringPart(m, strings, Serialized(args), front, args[i], rest);
  }

  lemma StringPart(m: Memory, address: nat, all: Bytes, front: Bytes, arg: Bytes, rest: Bytes)
    requires Holds(m, address, all) && all == front + arg + [NUL] + rest
    ensures Holds(m, address + |front|, arg + [NUL])
  {
    hide Holds;
    SliceOfMiddle(front, arg, [NUL], rest);
    HoldsPart(m, address, all, |front|, |front| + |arg| + 1);
  }

  /** `c_string_len`: the offset of the first NUL. */
  method CStringLen(m: Memory, pointer: nat, ghost s: Bytes) returns (length: nat)
    requires CString(m, pointer, s)
    ensures length == |s|
    ensures Holds(m, pointer, s)
  {
    length := 0;
    while true
      invariant length <= |s|
      decreases |s| - length
    {
      assert At(m, pointer, length) == Some((s + [NUL])[length]);
      if At(m, pointer, length).value == NUL { break; }
      length := length + 1;
    }
    assert (s + [NUL])[..|s|] == s;
    HoldsPart(m, pointer, s + [NUL], 0, |s|);
  }

  /** The argument iterator over the memory of the child. */
  class Args {
    const m: Memory
    const utf8: Utf8
    const argc: nat
    const argv: nat
    var index: nat
    ghost const strings: nat
    ghost const args: seq<Bytes>

    ghost predicate Valid()
      reads this
    {
      && argv >= WORD && Block(m, argv - WORD, strings, args) && NoNul(args) && argc == |args| && index <= argc
    }

    /** `__liblazer_initialize` and `args`: argc is the word at the stack top, argv follows it. */
    constructor (m: Memory, utf8: Utf8, stack: nat, ghost strings: nat, ghost args: seq<Bytes>)
      requires Block(m, stack, strings, args) && NoNul(args)
      ensures Valid() && index == 0 && this.args == args && this.utf8 == utf8 && this.m == m && argv == stack + WORD
    {
      WordHeld(m, stack, |args|);
      this.m, this.utf8, this.strings, this.args := m, utf8, strings, args;
      argc, argv, index := ReadWord(m, stack), stack + WORD, 0;
    }

    /** Yields the arguments one by one, then nothing; one that is not valid UTF-8 ends the
        iteration without advancing. */
    method Next() returns (item: Option<Bytes>)
      requires Valid()
      modifies this
      ensures Valid()
      ensures item == if old(index) < |args| && utf8(args[old(index)]) then Some(args[old(index)]) else None
      ensures index == if item.Some? then old(index) + 1 else old(index)
    {
      hide Block, Readable, CString, ReadWord, Holds, NoNul;
      if index >= argc { return None; }
      ArgumentInBlock(m, argv - WORD, strings, args, index);
      var pointer := ReadWord(m, argv + WORD * index);
      var length := CStringLen(m, pointer, args[index]);
      var bytes := ReadBytes(m, pointer, length, args[index]);
      if !utf8(bytes) { return None; }
      index := index + 1;
      return Some(bytes);
    }
  }

  /** `slice::from_raw_parts(pointer, length)`. */
  method ReadBytes(m: Memory, pointer: nat, length: nat, ghost s: Bytes) returns (bytes: Bytes)
    requires |s| == length && Holds(m, pointer, s)
    ensures bytes == s
  {
    bytes := [];
    while |bytes| < length
      invariant |bytes| <= length && bytes == s[..|bytes|]
    {
      assert At(m, pointer, |bytes|) == Some(s[|bytes|]);
      bytes := bytes + [At(m, pointer, |bytes|).value];
    }
  }

  // ---------------------------------------------------------------------------
  // End to end.

  /** What user code of the image reads. */
  function UserMemory(frames: map<nat, Bytes>, root: nat): Memory {
    (v: nat) => ReadUser(frames, root, v)
  }

  /** `[address, address + |bytes|)` of the image holds these bytes. */
  ghost predicate Contains(b: Build, address: nat, bytes: Bytes) {
    forall v: nat :: address <= v < address + |bytes| ==> Peek(b.space.frames, b.pages, v) == Some(bytes[v - address])
  }

  lemma WroteContains(b: Build, b': Build, root: nat, rights: map<nat, bool>, base: map<nat, Bytes>, address: nat,
                      bytes: Bytes)
    requires Wrote(b, b', root, rights, base, address, bytes)
    ensures Contains(b', address, bytes)
  {
    hide Image, Peek, Frame;
  }

  lemma WroteElsewhere(b: Build, b': Build, root: nat, rights: map<nat, bool>, base: map<nat, Bytes>, address: nat,
                       bytes: Bytes,
                       other: nat, kept: Bytes)
    requires Wrote(b, b', root, rights, base, address, bytes) && Contains(b, other, kept)
    requires other + |kept| <= address || address + |bytes| <= other
    ensures Contains(b', other, kept)
  {
    hide Image, Peek, Frame;
  }

  /** Bytes of the image that user code can reach are what user code reads. */
  lemma ContainedIsHeld(b: Build, root: nat, rights: map<nat, bool>, base: map<nat, Bytes>, address: nat, bytes: Bytes)
    requires Image(b, root, rights, base) && Contains(b, address, bytes) && address + |bytes| <= VIRT_LIMIT
    ensures Holds(UserMemory(b.space.frames, root), address, bytes)
  {
    hide Image, Peek, ReadUser, FindPage;
    forall i | 0 <= i < |bytes| ensures At(UserMemory(b.space.frames, root), address, i) == Some(bytes[i]) {
      assert Peek(b.space.frames, b.pages, address + i) == Some(bytes[address + i - address]);
      PeekFinds(b.space.frames, b.pages, address + i);
      PeekIsRead(b, root, rights, base, address + i);
    }
  }

  /** The last three writes, given the layout. */
  ghost predicate BlockWritten(b: Build, b': Build, root: nat, rights: map<nat, bool>, base: map<nat, Bytes>,
                               l: Layout) {
    && Image(b', root, rights, base) && b'.pages == b.pages
    && b'.space.free == b.space.free && b'.space.owned == b.space.owned
    && Contains(b', l.stackStart, ToLe(|l.args|, WORD))
    && Contains(b', l.stackStart + WORD, PointerBytes(l.stringsStart, l.args, |l.args|) + ToLe(0, WORD))
    && Contains(b', l.stringsStart, Serialized(l.args))
    && (forall v: nat :: v < USER_STACK_BASE ==> Peek(b'.space.frames, b'.pages, v) == Peek(b.space.frames, b.pages, v))
    && WritesPages(b, b')
  }

  /** Only recorded pages are written. */
  ghost predicate WritesPages(b: Build, b': Build) {
    forall f: nat :: (forall i :: 0 <= i < |b.pages| ==> b.pages[i].phys != f) ==>
        Frame(b'.space.frames, f) == Frame(b.space.frames, f)
  }

  lemma WriteBlockWorks(b: Build, root: nat, rights: map<nat, bool>, base: map<nat, Bytes>, l: Layout)
    requires Image(b, root, rights, base) && PrepareLayout(l.args) == Ok(l)
    requires AllPresent(b.pages, USER_STACK_BASE, USER_STACK_TOP)
    ensures var (b', r) := WriteBlock(b, l);
            r == Ok(l.stackStart) && BlockWritten(b, b', root, rights, base, l)
  {
    hide Image, AllPresent, WriteAt, WriteStrings, Serialized, PointerBytes, ToLe, Copied, Peek;
    LayoutIsDisjoint(l.args);
    hide PrepareLayout;
    var n, argc, pointers := |l.args|, ToLe(|l.args|, WORD),
        PointerBytes(l.stringsStart, l.args, |l.args|) + ToLe(0, WORD);
    PointerBytesSize(l.stringsStart, l.args, n);
    assert |pointers| == (n + 1) * WORD;
    PresentPart(b.pages, USER_STACK_BASE, USER_STACK_TOP, l.stringsStart, l.stringsStart + |Serialized(l.args)|);
    WriteStringsWorks(b, root, rights, base, l.stringsStart, l.args);
    var b1 := WriteStrings(b, l.stringsStart, l.args).0;
    PresentPart(b.pages, USER_STACK_BASE, USER_STACK_TOP, l.stackStart, l.stackStart + WORD);
    WriteAtWorks(b1, root, rights, base, l.stackStart, argc);
    var b2 := WriteAt(b1, l.stackStart, argc).0;
    PresentPart(b.pages, USER_STACK_BASE, USER_STACK_TOP, l.stackStart + WORD, l.stackStart + WORD + |pointers|);
    WriteAtWorks(b2, root, rights, base, l.stackStart + WORD, pointers);
    var b3 := WriteAt(b2, l.stackStart + WORD, pointers).0;
    assert Wrote(b1, b2, root, rights, base, l.stackStart, argc);
    assert Wrote(b2, b3, root, rights, base, l.stackStart + WORD, pointers);
    BlockFromWrites(b, b1, b2, b3, root, rights, base, l);
  }

  lemma BlockFromWrites(b: Build, b1: Build, b2: Build, b3: Build, root: nat, rights: map<nat, bool>,
                        base: map<nat, Bytes>, l: Layout)
    requires Wrote(b, b1, root, rights, base, l.stringsStart, Serialized(l.args))
    requires Wrote(b1, b2, root, rights, base, l.stackStart, ToLe(|l.args|, WORD))
    requires Wrote(b2, b3, root, rights, base, l.stackStart + WORD,
               PointerBytes(l.stringsStart, l.args, |l.args|) + ToLe(0, WORD))
    requires USER_STACK_BASE <= l.stackStart && l.stackStart + WORD + (|l.args| + 1) * WORD <= l.stringsStart
    ensures BlockWritten(b, b3, root, rights, base, l)
  {
    hide Image, Peek, Copied, Serialized, PointerBytes, ToLe, Contains, WritesPages;
    PointerBytesSize(l.stringsStart, l.args, |l.args|);
    var pointers := PointerBytes(l.stringsStart, l.args, |l.args|) + ToLe(0, WORD);
    WroteContains(b, b1, root, rights, base, l.stringsStart, Serialized(l.args));
    WroteElsewhere(b1, b2, root, rights, base, l.stackStart, ToLe(|l.args|, WORD), l.stringsStart, Serialized(l.args));
    WroteElsewhere(b2, b3, root, rights, base, l.stackStart + WORD, pointers, l.stringsStart, Serialized(l.args));
    WroteContains(b1, b2, root, rights, base, l.stackStart, ToLe(|l.args|, WORD));
    WroteElsewhere(b2, b3, root, rights, base, l.stackStart + WORD, pointers, l.stackStart, ToLe(|l.args|, WORD));
    WroteContains(b2, b3, root, rights, base, l.stackStart + WORD, pointers);
    BelowStackKept(b, b1, root, rights, base, l.stringsStart, Serialized(l.args));
    BelowStackKept(b1, b2, root, rights, base, l.stackStart, ToLe(|l.args|, WORD));
    BelowStackKept(b2, b3, root, rights, base, l.stackStart + WORD, pointers);
    WroteWritesPages(b, b1, root, rights, base, l.stringsStart, Serialized(l.args));
    WroteWritesPages(b1, b2, root, rights, base, l.stackStart, ToLe(|l.args|, WORD));
    WroteWritesPages(b2, b3, root, rights, base, l.stackStart + WORD, pointers);
    WritesPagesThrice(b, b1, b2, b3);
  }

  lemma WroteWritesPages(b: Build, b': Build, root: nat, rights: map<nat, bool>, base: map<nat, Bytes>, address: nat,
                         bytes: Bytes)
    requires Wrote(b, b', root, rights, base, address, bytes)
    ensures WritesPages(b, b') && b'.pages == b.pages
  {
    hide Image, Peek, Frame;
  }

  lemma WritesPagesThrice(b: Build, b1: Build, b2: Build, b3: Build)
    requires WritesPages(b, b1) && WritesPages(b1, b2) && WritesPages(b2, b3) && b1.pages == b.pages
    requires b2.pages == b.pages
    ensures WritesPages(b, b3)
  {
    hide Frame;
  }

  lemma BelowStackKept(b: Build, b': Build, root: nat, rights: map<nat, bool>, base: map<nat, Bytes>, address: nat,
                       bytes: Bytes)
    requires Wrote(b, b', root, rights, base, address, bytes) && USER_STACK_BASE <= address
    ensures forall v: nat :: v < USER_STACK_BASE ==>
              Peek(b'.space.frames, b'.pages, v) == Peek(b.space.frames, b.pages, v)
  {
    hide Image, Peek, Frame;
  }

  /** The written block, read by user code through the page tables. */
  lemma BlockIsReadable(b: Build, b': Build, root: nat, rights: map<nat, bool>, base: map<nat, Bytes>, l: Layout)
    requires BlockWritten(b, b', root, rights, base, l) && PrepareLayout(l.args) == Ok(l)
    ensures Block(UserMemory(b'.space.frames, root), l.stackStart, l.stringsStart, l.args)
  {
    hide Image, Contains, Holds, Serialized, PointerBytes, ToLe, Peek;
    LayoutIsDisjoint(l.args);
    hide PrepareLayout;
    PointerBytesSize(l.stringsStart, l.args, |l.args|);
    assert |ToLe(0, WORD)| == WORD && |ToLe(|l.args|, WORD)| == WORD;
    ContainedIsHeld(b', root, rights, base, l.stackStart, ToLe(|l.args|, WORD));
    ContainedIsHeld(b', root, rights, base, l.stackStart + WORD,
        PointerBytes(l.stringsStart, l.args, |l.args|) + ToLe(0, WORD));
    ContainedIsHeld(b', root, rights, base, l.stringsStart, Serialized(l.args));
  }
}
