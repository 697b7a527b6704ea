// Path normalization, as a fold of components over a stack, and the kernel's
// in-place implementation of it (kernel/kernel/src/storage/path.rs).
module Paths {
  import opened Prelude

  const MAX_PATH_COMPONENTS: nat := 64
  const MAX_CWD_LEN: nat := 256

  const CURRENT: Bytes := [DOT]
  const PARENT: Bytes := [DOT, DOT]

  type Stack = seq<Bytes>

  /** `source.split('/')`: n separators give n + 1 components, empty ones included. */
  function Split(source: Bytes): (parts: seq<Bytes>)
    ensures parts != []
  {
    if source == [] then [[]]
    else Prepend(source[0], Split(source[1..]))
  }

  /** The first component grows by `head`, or an empty one is put in front of it. */
  function Prepend(head: Byte, rest: seq<Bytes>): seq<Bytes>
    requires rest != []
  {
    if head == SLASH then [[]] + rest else [[head] + rest[0]] + rest[1..]
  }

  /** A component that survives normalization. */
  predicate Proper(part: Bytes) {
    part != [] && part != CURRENT && part != PARENT && SLASH !in part
  }

  ghost predicate ProperStack(stack: Stack) {
    forall i :: 0 <= i < |stack| ==> Proper(stack[i])
  }

  function Joined(stack: Stack): Bytes {
    if stack == [] then [] else Joined(stack[..|stack| - 1]) + [SLASH] + stack[|stack| - 1]
  }

  /** The absolute path a stack of components denotes. */
  function Render(stack: Stack): Bytes {
    if stack == [] then [SLASH] else Joined(stack)
  }

  /** How a path is limited: bytes of output, and components when there is a limit. */
  datatype Limits = Limits(bytes: nat, parts: Option<nat>)

  predicate Fits(limits: Limits, stack: Stack) {
    |Render(stack)| <= limits.bytes && (limits.parts.Some? ==> |stack| <= limits.parts.value)
  }

  /** One component against the stack: "" and "." skip, ".." pops and clamps at the root. */
  function Step(limits: Limits, stack: Stack, part: Bytes): Option<Stack> {
    if part == [] || part == CURRENT then Some(stack)
    else if part == PARENT then Some(if stack == [] then [] else stack[..|stack| - 1])
    else if Fits(limits, stack + [part]) then Some(stack + [part])
    else None
  }

  function Fold(limits: Limits, stack: Stack, parts: seq<Bytes>): Option<Stack>
    decreases |parts|
  {
    if parts == [] then Some(stack)
    else
      var next := Step(limits, stack, parts[0]);
      if next.None? then None else Fold(limits, next.value, parts[1..])
  }

  /** The stack a path denotes when it is read from `cwd`. */
  function Resolve(limits: Limits, cwd: Bytes, path: Bytes): Option<Stack> {
    if path == [] then None
    else if path[0] == SLASH then Fold(limits, [], Split(path))
    else
      var base := Fold(limits, [], Split(cwd));
      if base.None? then None else Fold(limits, base.value, Split(path))
  }

  function KernelLimits(capacity: nat): Limits {
    Limits(capacity, Some(MAX_PATH_COMPONENTS))
  }

  /** `normalize_path` as a value; None is StorageError::InvalidPath. */
  function Normalized(cwd: Bytes, path: Bytes, capacity: nat): Option<Bytes> {
    var stack := Resolve(KernelLimits(capacity), cwd, path);
    if stack.Some? then Some(Render(stack.value)) else None
  }

  /** The rendering of a proper stack within the kernel's limits. */
  ghost predicate NormalForm(path: Bytes) {
    exists stack: Stack :: IsNormalFormOf(path, stack)
  }

  ghost predicate IsNormalFormOf(path: Bytes, stack: Stack) {
    ProperStack(stack) && Fits(KernelLimits(MAX_CWD_LEN), stack) && path == Render(stack)
  }

  // ---------------------------------------------------------------------------
  // The in-place normalizer.

  /** Buffer, length and component starts hold exactly `stack`. */
  ghost predicate Laid(buffer: seq<Byte>, len: nat, starts: seq<nat>, count: nat, stack: Stack) {
    && ProperStack(stack)
    && count == |stack| <= |starts|
    && len == |Render(stack)| <= |buffer|
    && buffer[..len] == Render(stack)
    && forall i :: 0 <= i < count ==> starts[i] == |Render(stack[..i])|
  }

  method NormalizePath(cwd: Bytes, path: Bytes, buffer: array<Byte>) returns (length: Option<nat>)
    requires buffer.Length > 0
    modifies buffer
    ensures length.Some? <==> Normalized(cwd, path, buffer.Length).Some?
    ensures length.Some? ==> length.value <= buffer.Length
                             && buffer[..length.value] == Normalized(cwd, path, buffer.Length).value
  {
    if path == [] { return None; }
    var starts := new nat[MAX_PATH_COMPONENTS](_ => 0);
    buffer[0] := SLASH;
    var len, count := 1, 0;
    ghost var stack: Stack := [];
    assert Laid(buffer[..], len, starts[..], count, stack);
    var ok;
    if path[0] == SLASH {
      ok, len, count, stack := NormalizePathParts(path, buffer, len, starts, count, stack);
    } else {
      ok, len, count, stack := NormalizePathParts(cwd, buffer, len, starts, count, stack);
      if ok {
        ok, len, count, stack := NormalizePathParts(path, buffer, len, starts, count, stack);
      }
    }
    return if ok then Some(len) else None;
  }

  method NormalizePathParts(source: Bytes, buffer: array<Byte>, len0: nat, starts: array<nat>, count0: nat,
                            ghost stack0: Stack)
    returns (ok: bool, len: nat, count: nat, ghost stack: Stack)
    requires starts.Length == MAX_PATH_COMPONENTS
    requires Laid(buffer[..], len0, starts[..], count0, stack0)
    modifies buffer, starts
    ensures var after := Fold(KernelLimits(buffer.Length), stack0, Split(source));
            && (ok <==> after.Some?)
            && (ok ==> stack == after.value && Laid(buffer[..], len, starts[..], count, stack))
  {
    hide Laid, Step, Split;
    len, count, stack := len0, count0, stack0;
    var parts := Split(source);
    SplitHasNoSlash(source);
    var k := 0;
    while k < |parts|
      invariant 0 <= k <= |parts|
      invariant Laid(buffer[..], len, starts[..], count, stack)
      invariant Fold(KernelLimits(buffer.Length), stack0, parts) == Fold(KernelLimits(buffer.Length), stack, parts[k..])
    {
      assert parts[k..][1..] == parts[k + 1..];
      ok, len, count, stack := TakeComponent(parts[k], buffer, len, starts, count, stack);
      if !ok { return; }
      k := k + 1;
    }
    ok := true;
  }

  /** One turn of the loop over the components. */
  method TakeComponent(component: Bytes, buffer: array<Byte>, len0: nat, starts: array<nat>, count0: nat,
                       ghost stack0: Stack)
    returns (ok: bool, len: nat, count: nat, ghost stack: Stack)
    requires starts.Length == MAX_PATH_COMPONENTS && SLASH !in component
    requires Laid(buffer[..], len0, starts[..], count0, stack0)
    modifies buffer, starts
    ensures var after := Step(KernelLimits(buffer.Length), stack0, component);
            && (ok <==> after.Some?)
            && (ok ==> stack == after.value && Laid(buffer[..], len, starts[..], count, stack))
  {
    hide Render;
    ok, len, count, stack := true, len0, count0, stack0;
    if component == [] || component == CURRENT { return; }
    if component == PARENT {
      if count > 0 {
        PopLaid(buffer[..], len, starts[..], count, stack);
        count := count - 1;
        len := starts[count];
        stack := stack[..count];
      }
      return;
    }
    RenderPush(stack, component);
    if count >= starts.Length { return false, len, count, stack; }
    var required := if len == 1 then |component| else |component| + 1;
    if len + required > buffer.Length { return false, len, count, stack; }
    hide Laid;
    len := PushComponent(component, buffer, len, starts, count, stack);
    count := count + 1;
    stack := stack + [component];
  }

  /** The writing half of one loop turn: separator, component bytes, component start. */
  method PushComponent(component: Bytes, buffer: array<Byte>, previousLen: nat, starts: array<nat>, count: nat,
                       ghost stack: Stack)
    returns (len: nat)
    requires Proper(component) && count < starts.Length
    requires Laid(buffer[..], previousLen, starts[..], count, stack)
    requires |Render(stack + [component])| <= buffer.Length
    modifies buffer, starts
    ensures Laid(buffer[..], len, starts[..], count + 1, stack + [component])
  {
    hide Render;
    RenderPush(stack, component);
    ghost var written, starts0 := buffer[..previousLen], starts[..];
    len := previousLen;
    if previousLen > 1 {
      buffer[len] := SLASH;
      len := len + 1;
    }
    assert buffer[..len] == if previousLen > 1 then written + [SLASH] else written;
    CopyInto(buffer, len, component);
    len := len + |component|;
    starts[count] := previousLen;
    PushLaid(stack, component, starts0, starts[..]);
  }

  /** The starts of a longer stack. */
  lemma PushLaid(stack: Stack, component: Bytes, starts: seq<nat>, now: seq<nat>)
    requires |stack| < |starts| && forall i :: 0 <= i < |stack| ==> starts[i] == |Render(stack[..i])|
    requires now == starts[|stack| := |Render(stack)|]
    ensures forall i :: 0 <= i <= |stack| ==> now[i] == |Render((stack + [component])[..i])|
  {
    hide Render;
    forall i | 0 <= i <= |stack| ensures now[i] == |Render((stack + [component])[..i])| {
      assert (stack + [component])[..i] == stack[..i];
      assert i == |stack| ==> stack[..i] == stack;
    }
  }

  // ---------------------------------------------------------------------------
  // Rendering.

  lemma RenderPush(stack: Stack, part: Bytes)
    requires ProperStack(stack) && part != []
    ensures Render(stack + [part]) == (if stack == [] then [] else Render(stack)) + [SLASH] + part
    ensures |Render(stack)| >= 1 && (|Render(stack)| == 1 <==> stack == [])
    ensures Render(stack + [part]) == (if |Render(stack)| == 1 then Render(stack) else Render(stack) + [SLASH]) + part
  {
    assert (stack + [part])[..|stack|] == stack;
    assert Joined(stack + [part]) == Joined(stack) + [SLASH] + part;
    if stack != [] {
      assert |Render(stack)| >= 1 + |stack[|stack| - 1]| > 1;
    }
  }

  lemma PopLaid(buffer: seq<Byte>, len: nat, starts: seq<nat>, count: nat, stack: Stack)
    requires Laid(buffer, len, starts, count, stack) && count > 0
    ensures starts[count - 1] <= |buffer|
    ensures Laid(buffer, starts[count - 1], starts, count - 1, stack[..count - 1])
  {
    var front := stack[..count - 1];
    RenderPush(front, stack[count - 1]);
    assert front + [stack[count - 1]] == stack;
    assert Render(front) <= Render(stack);
    assert forall i :: 0 <= i < count - 1 ==> front[..i] == stack[..i];
    assert buffer[..starts[count - 1]] == buffer[..len][..starts[count - 1]];
  }

  lemma {:induction false} SplitHasNoSlash(source: Bytes)
    ensures forall i :: 0 <= i < |Split(source)| ==> SLASH !in Split(source)[i]
  {
    if source != [] {
      SplitHasNoSlash(source[1..]);
    }
  }

  // ---------------------------------------------------------------------------
  // The fold.

  lemma {:induction false} FoldConcat(limits: Limits, stack: Stack, p: seq<Bytes>, q: seq<Bytes>)
    ensures Fold(limits, stack, p + q) ==
            var mid := Fold(limits, stack, p); if mid.None? then None else Fold(limits, mid.value, q)
    decreases |p|
  {
    if p == [] {
      assert p + q == q;
    } else {
      assert (p + q)[1..] == p[1..] + q;
      var next := Step(limits, stack, p[0]);
      if next.Some? {
        FoldConcat(limits, next.value, p[1..], q);
      }
    }
  }

  /** Every stack the fold reaches is proper and within the limits. */
  lemma {:induction false} FoldReachesProper(limits: Limits, stack: Stack, parts: seq<Bytes>)
    requires ProperStack(stack) && Fits(limits, stack)
    requires forall i :: 0 <= i < |parts| ==> SLASH !in parts[i]
    ensures var r := Fold(limits, stack, parts);
            r.Some? ==> ProperStack(r.value) && Fits(limits, r.value)
    decreases |parts|
  {
    hide Step, ProperStack, Fits;
    if parts != [] {
      var next := Step(limits, stack, parts[0]);
      if next.Some? {
        StepReachesProper(limits, stack, parts[0]);
        FoldReachesProper(limits, next.value, parts[1..]);
      }
    }
  }

  lemma StepReachesProper(limits: Limits, stack: Stack, part: Bytes)
    requires ProperStack(stack) && Fits(limits, stack) && SLASH !in part
    ensures var r := Step(limits, stack, part); r.Some? ==> ProperStack(r.value) && Fits(limits, r.value)
  {
    if part == PARENT && stack != [] {
      ShorterFits(limits, stack);
    }
    hide Fits;
  }

  lemma ShorterFits(limits: Limits, stack: Stack)
    requires ProperStack(stack) && Fits(limits, stack) && stack != []
    ensures Fits(limits, stack[..|stack| - 1])
  {
    var front := stack[..|stack| - 1];
    RenderPush(front, stack[|stack| - 1]);
    assert front + [stack[|stack| - 1]] == stack;
  }

  /** Folding a proper, fitting stack over its own prefix rebuilds it. */
  lemma {:induction false} FoldRebuilds(limits: Limits, stack: Stack, n: nat)
    requires ProperStack(stack) && Fits(limits, stack) && n <= |stack|
    ensures Fold(limits, stack[..n], stack[n..]) == Some(stack)
    decreases |stack| - n
  {
    if n == |stack| {
      assert stack[..n] == stack;
    } else {
      FoldRebuilds(limits, stack, n + 1);
      StepRebuilds(limits, stack, n);
      assert stack[n..][1..] == stack[n + 1..] && stack[n..][0] == stack[n];
    }
  }

  lemma StepRebuilds(limits: Limits, stack: Stack, n: nat)
    requires ProperStack(stack) && Fits(limits, stack) && n < |stack|
    ensures Step(limits, stack[..n], stack[n]) == Some(stack[..n + 1])
  {
    PrefixFits(limits, stack, n + 1);
    assert stack[..n] + [stack[n]] == stack[..n + 1];
  }

  lemma {:induction false} PrefixFits(limits: Limits, stack: Stack, n: nat)
    requires ProperStack(stack) && Fits(limits, stack) && n <= |stack|
    ensures Fits(limits, stack[..n])
    decreases |stack|
  {
    if n < |stack| {
      ShorterFits(limits, stack);
      assert stack[..|stack| - 1][..n] == stack[..n];
      PrefixFits(limits, stack[..|stack| - 1], n);
    } else {
      assert stack[..n] == stack;
    }
  }

  // ---------------------------------------------------------------------------
  // Splitting.

  lemma PrependConcat(head: Byte, rest: seq<Bytes>, tail: seq<Bytes>)
    requires rest != []
    ensures Prepend(head, rest + tail) == Prepend(head, rest) + tail
  {
    if head == SLASH {
      assert [[]] + (rest + tail) == ([[]] + rest) + tail;
    } else {
      var first := [head] + rest[0];
      assert (rest + tail)[1..] == rest[1..] + tail;
      assert [first] + (rest[1..] + tail) == ([first] + rest[1..]) + tail;
    }
  }

  lemma {:induction false} SplitConcat(a: Bytes, b: Bytes)
    ensures Split(a + [SLASH] + b) == Split(a) + Split(b)
  {
    if a == [] {
      assert (a + [SLASH] + b)[1..] == b;
    } else {
      SplitConcat(a[1..], b);
      PrependConcat(a[0], Split(a[1..]), Split(b));
      SplitTail(a, b);
    }
  }

  lemma SplitTail(a: Bytes, b: Bytes)
    requires a != []
    ensures Split(a + [SLASH] + b) == Prepend(a[0], Split(a[1..] + [SLASH] + b))
  {
    assert (a + [SLASH] + b)[1..] == a[1..] + [SLASH] + b;
  }

  lemma {:induction false} SplitSimple(part: Bytes)
    requires SLASH !in part
    ensures Split(part) == [part]
  {
    if part != [] {
      SplitSimple(part[1..]);
      assert [part[0]] + part[1..] == part;
    }
  }

  /** A rendered stack splits into an empty component followed by the stack. */
  lemma {:induction false} SplitJoined(stack: Stack)
    requires ProperStack(stack)
    ensures Split(Joined(stack)) == [[]] + stack
  {
    if stack == [] {
    } else {
      var n := |stack| - 1;
      SplitJoined(stack[..n]);
      SplitConcat(Joined(stack[..n]), stack[n]);
      SplitSimple(stack[n]);
      assert [[]] + stack == ([[]] + stack[..n]) + [stack[n]];
    }
  }

  /** Reading back a rendered stack gives the stack. */
  lemma ReadBack(limits: Limits, stack: Stack)
    requires ProperStack(stack) && Fits(limits, stack)
    ensures Fold(limits, [], Split(Render(stack))) == Some(stack)
  {
    if stack == [] {
      var parts: seq<Bytes> := [[], []];
      assert Split([SLASH]) == parts;
      assert parts[1..] == [[]];
      assert Fold(limits, [], [[]]) == Some([]);
    } else {
      SplitJoined(stack);
      assert ([[]] + stack)[1..] == stack;
      FoldRebuilds(limits, stack, 0);
      assert stack[..0] == [] && stack[0..] == stack;
    }
  }

  // ---------------------------------------------------------------------------
  // Main results.

  lemma ResolveReachesProper(limits: Limits, cwd: Bytes, path: Bytes)
    requires limits.bytes > 0
    ensures var r := Resolve(limits, cwd, path);
            r.Some? ==> ProperStack(r.value) && Fits(limits, r.value)
  {
    if path != [] {
      SplitHasNoSlash(path);
      SplitHasNoSlash(cwd);
      FoldReachesProper(limits, [], Split(path));
      FoldReachesProper(limits, [], Split(cwd));
      var base := Fold(limits, [], Split(cwd));
      if path[0] != SLASH && base.Some? {
        FoldReachesProper(limits, base.value, Split(path));
      }
    }
  }

  /** Whatever the kernel returns is in normal form. */
  lemma NormalizedIsNormalForm(cwd: Bytes, path: Bytes)
    ensures Normalized(cwd, path, MAX_CWD_LEN).Some? ==> NormalForm(Normalized(cwd, path, MAX_CWD_LEN).value)
  {
    var limits := KernelLimits(MAX_CWD_LEN);
    ResolveReachesProper(limits, cwd, path);
    var stack := Resolve(limits, cwd, path);
    if stack.Some? {
      assert IsNormalFormOf(Render(stack.value), stack.value);
    }
  }

  /** Normalizing a normal path changes nothing, from any cwd. */
  lemma Idempotent(cwd: Bytes, path: Bytes, capacity: nat, other: Bytes)
    requires capacity > 0 && Normalized(cwd, path, capacity).Some?
    ensures var n := Normalized(cwd, path, capacity).value;
            Normalized(other, n, capacity) == Some(n)
  {
    var limits := KernelLimits(capacity);
    ResolveReachesProper(limits, cwd, path);
    var stack := Resolve(limits, cwd, path).value;
    ReadBack(limits, stack);
    RenderIsAbsolute(stack);
  }

  lemma {:induction false} RenderIsAbsolute(stack: Stack)
    ensures Render(stack) != [] && Render(stack)[0] == SLASH
  {
    if stack != [] {
      RenderIsAbsolute(stack[..|stack| - 1]);
      assert Joined([]) == [];
    }
  }

  /** Resolving in two steps is resolving the joined path, failures included. */
  lemma Composes(cwd: Bytes, a: Bytes, b: Bytes, capacity: nat)
    requires capacity > 0 && Normalized(cwd, a, capacity).Some?
    requires b != [] && b[0] != SLASH
    ensures Normalized(Normalized(cwd, a, capacity).value, b, capacity) == Normalized(cwd, a + [SLASH] + b, capacity)
  {
    var limits := KernelLimits(capacity);
    ResolveReachesProper(limits, cwd, a);
    var stack := Resolve(limits, cwd, a).value;
    ReadBack(limits, stack);
    SplitConcat(a, b);
    if a[0] == SLASH {
      FoldConcat(limits, [], Split(a), Split(b));
    } else {
      FoldConcat(limits, Fold(limits, [], Split(cwd)).value, Split(a), Split(b));
    }
  }
}
