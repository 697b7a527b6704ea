// The shell's own path normalizer (user/lash/src/paths.rs:39-121), and its
// agreement with the kernel's resolver.
module ShellPaths {
  import opened Prelude
  import opened Paths

  const LINE_CAPACITY: nat := 256

  datatype ResolutionError = InvalidPath | ResourceUnavailable

  /** The shell bounds bytes only; the kernel also bounds components. */
  const SHELL_LIMITS := Limits(LINE_CAPACITY, None)

  /** What is known of the output bytes: the rendered stack, when the cwd was in normal form. */
  ghost predicate Shows(output: seq<Byte>, len: nat, known: Option<Stack>) {
    && len <= |output|
    && (known.Some? ==> ProperStack(known.value) && output[..len] == Render(known.value))
  }

  ghost predicate Understood(cwd: Bytes, input: Bytes) {
    (input != [] && input[0] == SLASH) || NormalForm(cwd)
  }

  /** `cwd` is what the getcwd call returned. */
  method NormalizeCommandPath(cwd: Option<Bytes>, input: Bytes) returns (r: Result<Bytes, ResolutionError>)
    ensures cwd.None? ==> r == Err(ResourceUnavailable)
    ensures cwd.Some? && input != [] && Understood(cwd.value, input) ==>
              r == var stack := Resolve(SHELL_LIMITS, cwd.value, input);
                   if stack.Some? then Ok(Render(stack.value)) else Err(ResourceUnavailable)
    ensures cwd.Some? && input == [] && NormalForm(cwd.value) ==> r == Ok(cwd.value)
  {
    if cwd.None? { return Err(ResourceUnavailable); }
    var output := new Byte[LINE_CAPACITY](_ => NUL);
    var len := 0;
    ghost var base: Option<Stack> := None;
    if input != [] && input[0] == SLASH {
      output[0] := SLASH;
      len := 1;
      base := Some([]);
    } else {
      if |cwd.value| > output.Length {
        assert !NormalForm(cwd.value);
        return Err(ResourceUnavailable);
      }
      CopyInto(output, 0, cwd.value);
      len := |cwd.value|;
      if NormalForm(cwd.value) {
        base := Some(NormalStack(cwd.value));
      }
      assert output[..len] == cwd.value;
    }
    var ok;
    ghost var last;
    ok, len, last := PushSegments(input, output, len, base);
    if !ok { return Err(ResourceUnavailable); }
    if len == 0 {
      output[0] := SLASH;
      len := 1;
    }
    return Ok(output[..len]);
  }

  /** The stack of a normal cwd, which the shell's fold starts from. */
  ghost function NormalStack(cwd: Bytes): (stack: Stack)
    requires NormalForm(cwd)
    ensures IsNormalFormOf(cwd, stack)
    ensures Fold(SHELL_LIMITS, [], Split(cwd)) == Some(stack)
  {
    var stack: Stack :| IsNormalFormOf(cwd, stack);
    ReadBack(SHELL_LIMITS, stack);
    stack
  }

  method PushSegments(input: Bytes, output: array<Byte>, len0: nat, ghost base: Option<Stack>)
    returns (ok: bool, len: nat, ghost known: Option<Stack>)
    requires output.Length == LINE_CAPACITY && Shows(output[..], len0, base)
    modifies output
    ensures len <= output.Length
    ensures base.Some? ==>
              var after := Fold(SHELL_LIMITS, base.value, Split(input));
              && (ok <==> after.Some?)
              && (ok ==> known == after && Shows(output[..], len, known))
  {
    len, known := len0, base;
    var index := 0;
    while index < |input|
      invariant 0 <= index <= |input|
      invariant Shows(output[..], len, known) && (base.Some? <==> known.Some?)
      invariant base.Some? ==> Fold(SHELL_LIMITS, base.value, Split(input))
                               == Fold(SHELL_LIMITS, known.value, Split(input[index..]))
    {
      var start := SkipSlashes(input, index);
      if known.Some? { FoldSkipsSlashes(SHELL_LIMITS, known.value, input, index, start); }
      index := start;
      if index >= |input| { break; }
      index := SegmentEnd(input, start);
      var segment := input[start..index];
      if known.Some? { FoldTakesSegment(SHELL_LIMITS, known.value, input, start, index); }
      if segment == CURRENT { continue; }
      if segment == PARENT {
        if len > 1 {
          len, known := PopSegment(output, len, known);
        }
        continue;
      }
      ok, len, known := PushSegment(segment, output, len, known);
      if !ok { return; }
    }
    ok := true;
    if known.Some? { FoldNothing(SHELL_LIMITS, known.value); assert input[index..] == []; }
  }

  method SkipSlashes(input: Bytes, from: nat) returns (index: nat)
    requires from <= |input|
    ensures from <= index <= |input|
    ensures forall k :: from <= k < index ==> input[k] == SLASH
    ensures index < |input| ==> input[index] != SLASH
  {
    index := from;
    while index < |input| && input[index] == SLASH
      invariant from <= index <= |input|
      invariant forall k :: from <= k < index ==> input[k] == SLASH
    {
      index := index + 1;
    }
  }

  method SegmentEnd(input: Bytes, from: nat) returns (index: nat)
    requires from < |input| && input[from] != SLASH
    ensures from < index <= |input|
    ensures forall k :: from <= k < index ==> input[k] != SLASH
    ensures index < |input| ==> input[index] == SLASH
  {
    index := from;
    while index < |input| && input[index] != SLASH
      invariant from <= index <= |input|
      invariant forall k :: from <= k < index ==> input[k] != SLASH
    {
      index := index + 1;
    }
  }

  /** `..`: walk back to the slash in front of the last component. */
  method PopSegment(output: array<Byte>, len0: nat, ghost known0: Option<Stack>)
    returns (len: nat, ghost known: Option<Stack>)
    requires 1 < len0 <= output.Length && Shows(output[..], len0, known0)
    modifies output
    ensures Shows(output[..], len, known)
    ensures known.Some? <==> known0.Some?
    ensures known0.Some? ==> known0.value != [] && known == Some(known0.value[..|known0.value| - 1])
  {
    known := None;
    ghost var front, last: Bytes := 0, [];
    if known0.Some? {
      var n := |known0.value| - 1;
      RenderPush(known0.value, CURRENT);
      front, last := |Joined(known0.value[..n])|, known0.value[n];
      RenderSplitsAtLast(known0.value);
      assert output[..len0] == Joined(known0.value[..n]) + [SLASH] + last;
      assert forall k :: front < k < len0 ==> output[k] == last[k - front - 1];
      assert output[front] == SLASH;
      known := Some(known0.value[..n]);
    }
    len := len0 - 1;
    while len > 0 && output[len] != SLASH
      invariant 0 <= len < len0
      invariant known0.Some? ==> front <= len
    {
      len := len - 1;
    }
    if len == 0 {
      output[0] := SLASH;
      len := 1;
    }
    if known0.Some? {
      RenderSplitsAtLast(known0.value);
      assert output[..len] == Render(known.value);
    }
  }

  method PushSegment(segment: Bytes, output: array<Byte>, len0: nat, ghost known0: Option<Stack>)
    returns (ok: bool, len: nat, ghost known: Option<Stack>)
    requires Proper(segment) && output.Length == LINE_CAPACITY && Shows(output[..], len0, known0)
    modifies output
    ensures len <= output.Length
    ensures known0.Some? ==> (ok <==> |Render(known0.value + [segment])| <= LINE_CAPACITY)
    ensures ok ==> Shows(output[..], len, known)
    ensures ok ==> known == if known0.Some? then Some(known0.value + [segment]) else None
  {
    hide Render;
    len, known, ok := len0, None, false;
    if known0.Some? { RenderPush(known0.value, segment); RenderEndsProper(known0.value); }
    if len == 0 {
      output[0] := SLASH;
      len := 1;
    }
    if len > 1 && output[len - 1] != SLASH {
      if len >= output.Length { return; }
      output[len] := SLASH;
      len := len + 1;
    }
    ghost var separated := output[..len];
    if len + |segment| > output.Length { return; }
    CopyInto(output, len, segment);
    len := len + |segment|;
    assert output[..len] == separated + segment;
    ok := true;
    if known0.Some? { known := Some(known0.value + [segment]); }
  }

  // ---------------------------------------------------------------------------
  // Scanning by index follows the split.

  lemma FoldNothing(limits: Limits, stack: Stack)
    ensures Fold(limits, stack, Split([])) == Some(stack)
  {
    assert |Split([])[1..]| == 0;
  }

  lemma {:induction false} FoldSkipsSlashes(limits: Limits, stack: Stack, input: Bytes, from: nat, to: nat)
    requires from <= to <= |input| && forall k :: from <= k < to ==> input[k] == SLASH
    ensures Fold(limits, stack, Split(input[from..])) == Fold(limits, stack, Split(input[to..]))
    decreases |input| - from
  {
    if from < to {
      var s := input[from..];
      assert s[1..] == input[from + 1..];
      assert Split(s)[1..] == Split(s[1..]);
      FoldSkipsSlashes(limits, stack, input, from + 1, to);
    }
  }

  lemma FoldTakesSegment(limits: Limits, stack: Stack, input: Bytes, start: nat, end: nat)
    requires start < end <= |input| && forall k :: start <= k < end ==> input[k] != SLASH
    requires end < |input| ==> input[end] == SLASH
    ensures Fold(limits, stack, Split(input[start..])) ==
            var next := Step(limits, stack, input[start..end]);
            if next.None? then None else Fold(limits, next.value, Split(input[end..]))
  {
    var segment := input[start..end];
    SplitSimple(segment);
    var next := Step(limits, stack, segment);
    if end == |input| {
      assert input[start..] == segment;
      var only: seq<Bytes> := [segment];
      assert |only[1..]| == 0;
      if next.Some? { FoldNothing(limits, next.value); }
    } else {
      assert input[start..] == segment + [SLASH] + input[end + 1..];
      SplitConcat(segment, input[end + 1..]);
      assert ([segment] + Split(input[end + 1..]))[1..] == Split(input[end + 1..]);
      if next.Some? { FoldSkipsSlashes(limits, next.value, input, end, end + 1); }
    }
  }

  lemma RenderSplitsAtLast(stack: Stack)
    requires ProperStack(stack) && stack != []
    ensures var front := stack[..|stack| - 1];
            && Render(stack) == Joined(front) + [SLASH] + stack[|stack| - 1]
            && (front != [] ==> Render(front) == Joined(front) && |Joined(front)| > 1)
            && (front == [] ==> Joined(front) == [] && Render(front) == [SLASH])
  {
    RenderPush(stack[..|stack| - 1], CURRENT);
  }

  lemma RenderEndsProper(stack: Stack)
    requires ProperStack(stack)
    ensures var r := Render(stack);
            |r| >= 1 && (|r| > 1 <==> stack != []) && (|r| > 1 ==> r[|r| - 1] != SLASH)
  {
    if stack != [] {
      RenderSplitsAtLast(stack);
      assert |stack[|stack| - 1]| > 0;
    }
  }

  // ---------------------------------------------------------------------------
  // Agreement with the kernel.

  /** Dropping the component limit changes no successful fold. */
  lemma {:induction false} UnlimitedFoldAgrees(bytes: nat, parts: nat, stack: Stack, source: seq<Bytes>)
    requires Fold(Limits(bytes, Some(parts)), stack, source).Some?
    ensures Fold(Limits(bytes, None), stack, source) == Fold(Limits(bytes, Some(parts)), stack, source)
    decreases |source|
  {
    if source != [] {
      UnlimitedFoldAgrees(bytes, parts, Step(Limits(bytes, Some(parts)), stack, source[0]).value, source[1..]);
    }
  }

  /** The fold stops at a component that would be the `limit + 1`st on the stack. */
  ghost predicate HitsComponentLimit(bytes: nat, limit: nat, stack: Stack, source: seq<Bytes>) {
    exists n :: 0 <= n < |source| && StopsAt(bytes, limit, stack, source, n)
  }

  ghost predicate StopsAt(bytes: nat, limit: nat, stack: Stack, source: seq<Bytes>, n: nat)
    requires n < |source|
  {
    var before := Fold(Limits(bytes, Some(limit)), stack, source[..n]);
    && before.Some? && |before.value| >= limit
    && source[n] != [] && source[n] != CURRENT && source[n] != PARENT
  }

  /** If only the unlimited fold succeeds, the limited one stopped on its component limit. */
  lemma {:induction false} LimitedFoldStops(bytes: nat, limit: nat, stack: Stack, source: seq<Bytes>)
    requires Fold(Limits(bytes, None), stack, source).Some?
    requires Fold(Limits(bytes, Some(limit)), stack, source).None?
    ensures HitsComponentLimit(bytes, limit, stack, source)
    decreases |source|
  {
    var limits := Limits(bytes, Some(limit));
    var next := Step(limits, stack, source[0]);
    if next.None? {
      assert source[..0] == [];
      assert StopsAt(bytes, limit, stack, source, 0);
    } else {
      LimitedFoldStops(bytes, limit, next.value, source[1..]);
      var n :| 0 <= n < |source[1..]| && StopsAt(bytes, limit, next.value, source[1..], n);
      assert source[..n + 1][1..] == source[1..][..n] && source[..n + 1][0] == source[0];
      assert StopsAt(bytes, limit, stack, source, n + 1);
    }
  }

  /** Where the kernel resolves with a 256-byte buffer, the shell gives the same bytes. */
  lemma ShellRefinesKernel(cwd: Bytes, input: Bytes)
    requires NormalForm(cwd) && Normalized(cwd, input, LINE_CAPACITY).Some?
    ensures Resolve(SHELL_LIMITS, cwd, input) == Resolve(KernelLimits(LINE_CAPACITY), cwd, input)
  {
    UnderstoodBase(cwd);
    var base := if input[0] == SLASH then [] else NormalStack(cwd);
    UnlimitedFoldAgrees(LINE_CAPACITY, MAX_PATH_COMPONENTS, base, Split(input));
  }

  /** Where only the shell resolves, the kernel stopped on its 64th component. */
  lemma KernelFailsOnlyOnComponents(cwd: Bytes, input: Bytes)
    requires NormalForm(cwd) && input != []
    requires Resolve(SHELL_LIMITS, cwd, input).Some? && Normalized(cwd, input, LINE_CAPACITY).None?
    ensures var base := if input[0] == SLASH then [] else NormalStack(cwd);
            HitsComponentLimit(LINE_CAPACITY, MAX_PATH_COMPONENTS, base, Split(input))
  {
    UnderstoodBase(cwd);
    var base := if input[0] == SLASH then [] else NormalStack(cwd);
    LimitedFoldStops(LINE_CAPACITY, MAX_PATH_COMPONENTS, base, Split(input));
  }

  lemma UnderstoodBase(cwd: Bytes)
    requires NormalForm(cwd)
    ensures Fold(KernelLimits(LINE_CAPACITY), [], Split(cwd)) == Some(NormalStack(cwd))
  {
    ReadBack(KernelLimits(LINE_CAPACITY), NormalStack(cwd));
  }
}
