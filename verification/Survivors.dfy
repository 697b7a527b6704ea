// What a normalized path is, told by the components it was read from: a name
// stays unless a later `..` takes it away (kernel/kernel/src/storage/path.rs:44-91,
// user/lash/src/paths.rs:56-93).
module Survivors {
  import opened Prelude
  import opened Paths

  /** Neither "", "." nor "..". */
  predicate Named(part: Bytes) {
    part != [] && part != [DOT] && part != [DOT, DOT]
  }

  /** How many components of a stretch are names, and how many are "..". */
  function Names(parts: seq<Bytes>, from: nat, to: nat): nat
    requires from <= to <= |parts|
  {
    if from == to then 0 else Names(parts, from, to - 1) + if Named(parts[to - 1]) then 1 else 0
  }

  function Ups(parts: seq<Bytes>, from: nat, to: nat): nat
    requires from <= to <= |parts|
  {
    if from == to then 0 else Ups(parts, from, to - 1) + if parts[to - 1] == [DOT, DOT] then 1 else 0
  }

  /** Of the first `n` components, number `i` is a name, and no stretch right behind it has more ".." than
      names. */
  ghost predicate Survives(parts: seq<Bytes>, i: nat, n: nat)
    requires i < n <= |parts|
  {
    Named(parts[i]) && forall j :: i < j <= n ==> Balanced(parts, i, j)
  }

  /** No more ".." than names behind component `i` and before component `to`. */
  predicate Balanced(parts: seq<Bytes>, i: nat, to: nat)
    requires i < to <= |parts|
  {
    Ups(parts, i + 1, to) <= Names(parts, i + 1, to)
  }

  /** The survivors among the first `i` components. */
  ghost function Kept(parts: seq<Bytes>, i: nat, n: nat): Stack
    requires i <= n <= |parts|
  {
    if i == 0 then [] else Kept(parts, i - 1, n) + if Survives(parts, i - 1, n) then [parts[i - 1]] else []
  }

  /** The survivors of the first `n` components. */
  ghost function Remaining(parts: seq<Bytes>, n: nat): Stack
    requires n <= |parts|
  {
    Kept(parts, n, n)
  }

  /** Whenever a name is met, it and the survivors before it fit. */
  ghost predicate AllFit(limits: Limits, parts: seq<Bytes>, n: nat)
    requires n <= |parts|
  {
    forall m :: 0 <= m < n && Named(parts[m]) ==> Fits(limits, Remaining(parts, m + 1))
  }

  // ---------------------------------------------------------------------------
  // The survivors by position.

  /** The positions of the survivors below `i`, in order. */
  ghost predicate PositionsBelow(parts: seq<Bytes>, i: nat, n: nat, at: seq<nat>)
    requires i <= n <= |parts|
  {
    && (forall k :: 0 <= k < |at| ==> at[k] < i && Survives(parts, at[k], n))
    && (forall k, l :: 0 <= k < l < |at| ==> at[k] < at[l])
    && (forall m :: 0 <= m < i && Survives(parts, m, n) ==> m in at)
  }

  /** Behind each survivor, as many names are left as there are survivors. */
  ghost predicate Counted(parts: seq<Bytes>, n: nat, at: seq<nat>)
    requires n <= |parts| && forall k :: 0 <= k < |at| ==> at[k] < n
  {
    forall k :: 0 <= k < |at| ==> Names(parts, at[k] + 1, n) == Ups(parts, at[k] + 1, n) + (|at| - 1 - k)
  }

  ghost predicate Tracks(parts: seq<Bytes>, n: nat, at: seq<nat>)
    requires n <= |parts|
  {
    PositionsBelow(parts, n, n, at) && Counted(parts, n, at)
  }

  ghost function Taken(parts: seq<Bytes>, at: seq<nat>): Stack
    requires forall k :: 0 <= k < |at| ==> at[k] < |parts|
  {
    seq(|at|, k requires 0 <= k < |at| => parts[at[k]])
  }

  lemma CountOneMore(parts: seq<Bytes>, from: nat, n: nat)
    requires from <= n < |parts|
    ensures Ups(parts, from, n + 1) == Ups(parts, from, n) + if parts[n] == [DOT, DOT] then 1 else 0
    ensures Names(parts, from, n + 1) == Names(parts, from, n) + if Named(parts[n]) then 1 else 0
  {
    hide Named;
  }

  /** One more component: a survivor stays, unless it is a ".." and no name is left behind the survivor. */
  lemma SurvivesOneMore(parts: seq<Bytes>, i: nat, n: nat)
    requires i < n < |parts|
    ensures Survives(parts, i, n + 1) <==>
            Survives(parts, i, n) && (parts[n] == [DOT, DOT] ==> Ups(parts, i + 1, n) < Names(parts, i + 1, n))
  {
    CountOneMore(parts, i + 1, n);
    hide Names, Ups;
    assert Balanced(parts, i, n + 1) <==>
             if parts[n] == [DOT, DOT] then Ups(parts, i + 1, n) < Names(parts, i + 1, n)
             else Ups(parts, i + 1, n) <= Names(parts, i + 1, n) + if Named(parts[n]) then 1 else 0;
    hide Named;
    assert Survives(parts, i, n) ==> Balanced(parts, i, n);
  }

  lemma NewSurvives(parts: seq<Bytes>, n: nat)
    requires n < |parts|
    ensures Survives(parts, n, n + 1) <==> Named(parts[n])
    ensures Names(parts, n + 1, n + 1) == Ups(parts, n + 1, n + 1) == 0
  {
  }

  /** One more component that is no "..": whoever survived does, and a name joins. */
  lemma TrackOther(parts: seq<Bytes>, n: nat, at: seq<nat>)
    requires n < |parts| && Tracks(parts, n, at) && parts[n] != [DOT, DOT]
    ensures Tracks(parts, n + 1, if Named(parts[n]) then at + [n] else at)
  {
    PositionsJoin(parts, n, at);
    PositionsInRange(parts, n, n, at);
    hide Named, Counted, PositionsBelow;
    CountsStay(parts, n, at);
  }

  lemma CountsStay(parts: seq<Bytes>, n: nat, at: seq<nat>)
    requires n < |parts| && parts[n] != [DOT, DOT]
    requires (forall k :: 0 <= k < |at| ==> at[k] < n) && Counted(parts, n, at)
    ensures Named(parts[n]) ==> Counted(parts, n + 1, at + [n])
    ensures !Named(parts[n]) ==> Counted(parts, n + 1, at)
  {
    NewSurvives(parts, n);
    hide Named, Names, Ups, Survives;
    forall k | 0 <= k < |at|
      ensures Names(parts, at[k] + 1, n + 1) == Ups(parts, at[k] + 1, n + 1) + (|at| - 1 - k) +
                if Named(parts[n]) then 1 else 0
    {
      CountOneMore(parts, at[k] + 1, n);
    }
  }

  lemma PositionsInRange(parts: seq<Bytes>, i: nat, n: nat, at: seq<nat>)
    requires i <= n <= |parts| && PositionsBelow(parts, i, n, at)
    ensures forall k :: 0 <= k < |at| ==> at[k] < i
  {
  }

  lemma PositionsJoin(parts: seq<Bytes>, n: nat, at: seq<nat>)
    requires n < |parts| && PositionsBelow(parts, n, n, at) && parts[n] != [DOT, DOT]
    ensures PositionsBelow(parts, n + 1, n + 1, if Named(parts[n]) then at + [n] else at)
  {
    hide Named, Survives;
    NewSurvives(parts, n);
    forall i | 0 <= i < n ensures Survives(parts, i, n + 1) <==> Survives(parts, i, n) {
      SurvivesOneMore(parts, i, n);
    }
  }

  /** One more "..": the last survivor goes. */
  lemma TrackUp(parts: seq<Bytes>, n: nat, at: seq<nat>)
    requires n < |parts| && Tracks(parts, n, at) && parts[n] == [DOT, DOT]
    ensures Tracks(parts, n + 1, if at == [] then [] else at[..|at| - 1])
  {
    hide Names, Ups, Survives;
    var at' := if at == [] then [] else at[..|at| - 1];
    NewSurvives(parts, n);
    forall k | 0 <= k < |at|
      ensures Survives(parts, at[k], n + 1) <==> k < |at| - 1
      ensures Names(parts, at[k] + 1, n + 1) + 1 == Ups(parts, at[k] + 1, n + 1) + (|at| - 1 - k)
    {
      SurvivesOneMore(parts, at[k], n);
      CountOneMore(parts, at[k] + 1, n);
    }
    forall i | 0 <= i < n + 1 && Survives(parts, i, n + 1) ensures i in at' {
      SurvivesOneMore(parts, i, n);
      var k :| 0 <= k < |at| && at[k] == i;
      assert at'[k] == i;
    }
  }

  /** Positions in order give the survivors in order. */
  lemma {:induction false} KeptIsTaken(parts: seq<Bytes>, i: nat, n: nat, at: seq<nat>)
    requires i <= n <= |parts| && PositionsBelow(parts, i, n, at)
    ensures Kept(parts, i, n) == Taken(parts, at)
  {
    hide Survives;
    if i > 0 {
      PositionsFront(parts, i, n, at);
      hide PositionsBelow;
      if Survives(parts, i - 1, n) {
        var last := |at| - 1;
        KeptIsTaken(parts, i - 1, n, at[..last]);
        assert Taken(parts, at) == Taken(parts, at[..last]) + [parts[i - 1]];
      } else {
        KeptIsTaken(parts, i - 1, n, at);
      }
    }
  }

  lemma PositionsFront(parts: seq<Bytes>, i: nat, n: nat, at: seq<nat>)
    requires 0 < i <= n <= |parts| && PositionsBelow(parts, i, n, at)
    ensures forall k :: 0 <= k < |at| ==> at[k] < |parts|
    ensures if Survives(parts, i - 1, n)
            then at != [] && at[|at| - 1] == i - 1 && PositionsBelow(parts, i - 1, n, at[..|at| - 1])
            else PositionsBelow(parts, i - 1, n, at)
  {
    hide Survives;
    if Survives(parts, i - 1, n) {
      var last := |at| - 1;
      var found :| 0 <= found < |at| && at[found] == i - 1;
      assert at[found] <= at[last];
      forall m | 0 <= m < i - 1 && Survives(parts, m, n) ensures m in at[..last] {
        var k :| 0 <= k < |at| && at[k] == m;
        assert at[..last][k] == m;
      }
    }
  }

  lemma RemainingIsTaken(parts: seq<Bytes>, n: nat, at: seq<nat>)
    requires n <= |parts| && Tracks(parts, n, at)
    ensures Remaining(parts, n) == Taken(parts, at)
  {
    hide Survives;
    KeptIsTaken(parts, n, n, at);
  }

  // ---------------------------------------------------------------------------
  // The fold.

  lemma {:induction false} FoldLeavesSurvivors(limits: Limits, parts: seq<Bytes>, n: nat) returns (at: seq<nat>)
    requires n <= |parts|
    ensures Tracks(parts, n, at)
    ensures Fold(limits, [], parts[..n]) == if AllFit(limits, parts, n) then Some(Remaining(parts, n)) else None
  {
    hide Survives, Tracks, Kept, Fits, Step, Names, Ups;
    if n == 0 {
      at := [];
      assert Tracks(parts, 0, at) by { NothingTracked(parts); }
      assert parts[..0] == [];
      assert Remaining(parts, 0) == [] by { NothingTracked(parts); }
    } else {
      at := FoldLeavesSurvivors(limits, parts, n - 1);
      FoldOneMore(limits, parts, n - 1);
      assert AllFit(limits, parts, n) <==>
               AllFit(limits, parts, n - 1) && (Named(parts[n - 1]) ==> Fits(limits, Remaining(parts, n)));
      at := StepLeavesSurvivors(limits, parts, n - 1, at);
    }
  }

  lemma NothingTracked(parts: seq<Bytes>)
    ensures Tracks(parts, 0, []) && Remaining(parts, 0) == []
  {
  }

  lemma FoldOneMore(limits: Limits, parts: seq<Bytes>, n: nat)
    requires n < |parts|
    ensures Fold(limits, [], parts[..n + 1]) ==
            var before := Fold(limits, [], parts[..n]);
            if before.None? then None else Step(limits, before.value, parts[n])
  {
    hide Step;
    assert parts[..n + 1] == parts[..n] + [parts[n]];
    FoldConcat(limits, [], parts[..n], [parts[n]]);
    var before := Fold(limits, [], parts[..n]);
    var none: seq<Bytes> := [];
    assert [parts[n]][1..] == none;
  }

  lemma StepLeavesSurvivors(limits: Limits, parts: seq<Bytes>, n: nat, at: seq<nat>) returns (at': seq<nat>)
    requires n < |parts| && Tracks(parts, n, at)
    ensures Tracks(parts, n + 1, at')
    ensures Step(limits, Remaining(parts, n), parts[n]) ==
            if Named(parts[n]) && !Fits(limits, Remaining(parts, n + 1)) then None else Some(Remaining(parts, n + 1))
  {
    hide Survives, Tracks, Fits, Remaining;
    RemainingIsTaken(parts, n, at);
    InRange(parts, n, at);
    if parts[n] == [DOT, DOT] {
      TrackUp(parts, n, at);
      at' := if at == [] then [] else at[..|at| - 1];
      RemainingIsTaken(parts, n + 1, at');
      assert at != [] ==> Taken(parts, at') == Taken(parts, at)[..|at| - 1];
    } else {
      TrackOther(parts, n, at);
      at' := if Named(parts[n]) then at + [n] else at;
      InRange(parts, n + 1, at');
      RemainingIsTaken(parts, n + 1, at');
      assert Named(parts[n]) ==> Taken(parts, at') == Taken(parts, at) + [parts[n]];
    }
  }

  lemma InRange(parts: seq<Bytes>, n: nat, at: seq<nat>)
    requires n <= |parts| && Tracks(parts, n, at)
    ensures forall k :: 0 <= k < |at| ==> at[k] < |parts|
  {
  }

  // ---------------------------------------------------------------------------
  // Main results.

  /** The components a path is read from: its own, and those of the cwd first unless it is absolute. */
  function PartsRead(cwd: Bytes, path: Bytes): seq<Bytes>
    requires path != []
  {
    if path[0] == SLASH then Split(path) else Split(cwd) + Split(path)
  }

  /** Splitting takes nothing but the slashes away. */
  lemma {:induction false} SplitJoins(source: Bytes)
    ensures Joined(Split(source)) == [SLASH] + source
    ensures forall i :: 0 <= i < |Split(source)| ==> SLASH !in Split(source)[i]
  {
    hide Joined, Split;
    SplitHasNoSlash(source);
    if source == [] {
      SplitNothing();
      JoinedOne([]);
    } else {
      SplitJoins(source[1..]);
      SplitFirst(source);
      JoinedPrepend(source[0], Split(source[1..]));
      assert ([SLASH] + source[1..])[1..] == source[1..];
      assert [SLASH] + source == [SLASH, source[0]] + source[1..];
    }
  }

  lemma SplitNothing()
    ensures Split([]) == [[]]
  {
  }

  lemma JoinedOne(part: Bytes)
    ensures Joined([part]) == [SLASH] + part
  {
    var one: seq<Bytes> := [part];
    assert one[..0] == [];
  }

  lemma SplitFirst(source: Bytes)
    requires source != []
    ensures Split(source) == Prepend(source[0], Split(source[1..]))
  {
  }

  lemma {:induction false} JoinedPrepend(head: Byte, rest: seq<Bytes>)
    requires rest != []
    ensures |Joined(rest)| > 0
    ensures Joined(Prepend(head, rest)) == [SLASH, head] + Joined(rest)[1..]
    decreases |rest|
  {
    var n := |rest| - 1;
    var front, last := rest[..n], rest[n];
    assert front + [last] == rest;
    JoinedPush(front, last);
    if n == 0 {
      var grown := if head == SLASH then last else [head] + last;
      JoinedOne(last);
      JoinedOne(grown);
      if head == SLASH {
        JoinedPush([[]], last);
        JoinedOne([]);
        assert Prepend(head, rest) == [[]] + [last];
      } else {
        assert Prepend(head, rest) == [grown];
      }
    } else {
      JoinedPrepend(head, front);
      PrependConcat(head, front, [last]);
      JoinedPush(Prepend(head, front), last);
      hide Joined, Prepend;
      assert ([SLASH, head] + Joined(front)[1..]) + [SLASH] + last == [SLASH, head] + Joined(rest)[1..];
    }
  }

  lemma JoinedPush(front: seq<Bytes>, last: Bytes)
    ensures Joined(front + [last]) == Joined(front) + [SLASH] + last
  {
    assert (front + [last])[..|front|] == front;
  }

  /** Within any limits: the names that survive, in order, or a failure if some name did not fit. */
  lemma ResolvedIsWhatSurvives(limits: Limits, cwd: Bytes, path: Bytes)
    requires path != []
    ensures var parts := PartsRead(cwd, path);
            Resolve(limits, cwd, path) ==
            if AllFit(limits, parts, |parts|) then Some(Remaining(parts, |parts|)) else None
  {
    hide AllFit, Remaining, Split, Fold;
    var parts := PartsRead(cwd, path);
    var at := FoldLeavesSurvivors(limits, parts, |parts|);
    assert parts[..|parts|] == parts;
    FoldConcat(limits, [], Split(cwd), Split(path));
  }

  /** The kernel resolves a path to the surviving names, each behind a slash, and to "/" when none
      survives; it fails exactly for the empty path, and when some name would be the 65th component or
      would not fit the buffer. */
  lemma NormalizedIsWhatSurvives(cwd: Bytes, path: Bytes, capacity: nat)
    ensures Normalized(cwd, path, capacity) ==
            if path == [] then None
            else
              var parts := PartsRead(cwd, path);
              if forall m :: 0 <= m < |parts| && Named(parts[m]) ==>
                   |Render(Remaining(parts, m + 1))| <= capacity && |Remaining(parts, m + 1)| <= 64
              then Some(Render(Remaining(parts, |parts|))) else None
  {
    hide Remaining, Render, Fold, Split, PartsRead, Named;
    if path != [] {
      var parts, limits := PartsRead(cwd, path), KernelLimits(capacity);
      ResolvedIsWhatSurvives(limits, cwd, path);
      assert AllFit(limits, parts, |parts|) <==>
               forall m :: 0 <= m < |parts| && Named(parts[m]) ==>
                 |Render(Remaining(parts, m + 1))| <= capacity && |Remaining(parts, m + 1)| <= 64;
    }
  }

  /** From a directory, ".." is the directory above it, and the root's is the root. */
  lemma ParentDropsLast(stack: Stack, capacity: nat)
    requires ProperStack(stack) && Fits(KernelLimits(capacity), stack)
    ensures Normalized(Render(stack), [DOT, DOT], capacity) ==
            Some(Render(if stack == [] then [] else stack[..|stack| - 1]))
  {
    hide Render;
    var limits, up: Bytes := KernelLimits(capacity), [DOT, DOT];
    ReadBack(limits, stack);
    SplitSimple(up);
    OneStep(limits, stack, up);
    assert Resolve(limits, Render(stack), up) == Step(limits, stack, up);
    assert up == PARENT && up != CURRENT;
  }

  lemma OneStep(limits: Limits, stack: Stack, part: Bytes)
    ensures Fold(limits, stack, [part]) == Step(limits, stack, part)
  {
    hide Step;
    var one: seq<Bytes> := [part];
    assert one[1..] == [];
  }

  /** Going down into a component that fits and up again leads back. */
  lemma DownAndUp(stack: Stack, part: Bytes, capacity: nat)
    requires ProperStack(stack) && Proper(part) && Fits(KernelLimits(capacity), stack + [part])
    requires Fits(KernelLimits(capacity), stack)
    ensures Normalized(Render(stack), part + [SLASH, DOT, DOT], capacity) == Some(Render(stack))
  {
    var limits := KernelLimits(capacity);
    ReadBack(limits, stack);
    SplitConcat(part, [DOT, DOT]);
    SplitSimple(part);
    SplitSimple([DOT, DOT]);
    assert part + [SLASH] + [DOT, DOT] == part + [SLASH, DOT, DOT];
    FoldConcat(limits, stack, [part], [[DOT, DOT]]);
    OneStep(limits, stack, part);
    OneStep(limits, stack + [part], [DOT, DOT]);
    assert (stack + [part])[..|stack|] == stack;
  }
}
