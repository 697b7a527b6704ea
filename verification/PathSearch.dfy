// The search of a command along PATH (user/lash/src/paths.rs:134-204): by
// index and buffer, and as a search over the candidates in order.
module PathSearches {
  import opened Prelude
  import ShellPaths

  const COLON: Byte := 58
  const PATH_BUFFER_CAPACITY: nat := 128
  const COMMAND_CAPACITY: nat := 256
  const COMMAND_PATH_CAPACITY: nat := COMMAND_CAPACITY + 1 + 128

  /** What the visitor says of a candidate. */
  datatype SearchStep<+T> = Continue | Matched | Return(value: T)

  datatype SearchOutcome<+T> = NoMatches | SomeMatch | Returned(value: T)

  type Outcome<+T> = Result<SearchOutcome<T>, ShellPaths.ResolutionError>

  /** The visitor's effect on the world `W` is part of its value. */
  type Visitor<!W, T> = (W, Bytes) -> (W, SearchStep<T>)

  /** `remainder.find(':').unwrap_or(remainder.len())`. */
  function FindColon(s: Bytes): (n: nat)
    ensures n <= |s| && COLON !in s[..n] && (n < |s| ==> s[n] == COLON)
  {
    if s == [] || s[0] == COLON then 0
    else
      assert forall n: nat :: n < |s| ==> s[..n + 1] == [s[0]] + s[1..][..n];
      1 + FindColon(s[1..])
  }

  /** The entries between colons, empty ones included. */
  function Entries(path: Bytes): (entries: seq<Bytes>)
    ensures entries != []
    decreases |path|
  {
    var n := FindColon(path);
    if n == |path| then [path] else [path[..n]] + Entries(path[n + 1..])
  }

  function Joined(entries: seq<Bytes>): Bytes
    requires entries != []
  {
    if |entries| == 1 then entries[0] else entries[0] + [COLON] + Joined(entries[1..])
  }

  /** The entries are the path cut at its colons. */
  lemma {:induction false} EntriesJoin(path: Bytes)
    ensures Joined(Entries(path)) == path
    ensures forall e :: e in Entries(path) ==> COLON !in e
    decreases |path|
  {
    var n := FindColon(path);
    if n < |path| {
      EntriesJoin(path[n + 1..]);
      assert Entries(path)[1..] == Entries(path[n + 1..]);
      assert path == path[..n] + [COLON] + path[n + 1..];
    } else {
      assert path[..n] == path;
    }
  }

  /** The absolute entries, each with the command behind it. */
  function Candidates(entries: seq<Bytes>, command: Bytes): seq<Bytes> {
    if entries == [] then []
    else
      var rest := Candidates(entries[1..], command);
      if entries[0] != [] && entries[0][0] == SLASH then [entries[0] + [SLASH] + command] + rest else rest
  }

  /** Visit the candidates in order until one makes the visitor return, or does not fit. */
  function Search<W, T>(visitor: Visitor<W, T>, candidates: seq<Bytes>, world: W, matched: bool): (W, Outcome<T>) {
    if candidates == [] then (world, Ok(if matched then SomeMatch else NoMatches))
    else if |candidates[0]| > COMMAND_PATH_CAPACITY then (world, Err(ShellPaths.ResourceUnavailable))
    else
      var (w, step) := visitor(world, candidates[0]);
      match step
      case Continue => Search(visitor, candidates[1..], w, matched)
      case Matched => Search(visitor, candidates[1..], w, true)
      case Return(value) => (w, Ok(Returned(value)))
  }

  /** `path` is the value of PATH, when it is set, is text, and fits its buffer. */
  method WithPathCandidates<W, T>(path: Option<Bytes>, command: Bytes, visitor: Visitor<W, T>, world: W)
    returns (last: W, outcome: Outcome<T>)
    ensures (last, outcome) ==
            if path.None? then (world, Ok(NoMatches))
                else Search(visitor, Candidates(Entries(path.value), command), world, false)
  {
    hide Entries, Candidates, Search, FindColon;
    if path.None? { return world, Ok(NoMatches); }
    var bytes := path.value;
    var buffer := new Byte[COMMAND_PATH_CAPACITY];
    var start: nat, matched := 0, false;
    last := world;
    ghost var entries := Entries(bytes);
    ghost var whole := Search(visitor, Candidates(entries, command), world, false);
    assert bytes[0..] == bytes;
    while start <= |bytes|
      invariant start <= |bytes| && entries == Entries(bytes[start..])
      invariant Search(visitor, Candidates(entries, command), last, matched) == whole
      decreases |bytes| - start
    {
      var length := FindColon(bytes[start..]);
      var entry := bytes[start..][..length];
      NextEntry(bytes, start);
      CandidatesNext(entries, command);
      if entry != [] && entry[0] == SLASH {
        SearchNext(visitor, entry + [SLASH] + command, Candidates(entries[1..], command), last, matched);
        var candidate := BuildPathCandidate(buffer, entry, command);
        if candidate.Err? { return last, Err(candidate.error); }
        var (w, step) := visitor(last, candidate.value);
        last := w;
        match step
        case Continue => {}
        case Matched => matched := true;
        case Return(value) => return last, Ok(Returned(value));
      }
      entries := entries[1..];
      if start + length >= |bytes| { break; }
      start := start + length + 1;
    }
    SearchNothing(visitor, command, last, matched);
    return last, Ok(if matched then SomeMatch else NoMatches);
  }

  lemma NextEntry(bytes: Bytes, start: nat)
    requires start <= |bytes|
    ensures var n := FindColon(bytes[start..]);
            var entries := Entries(bytes[start..]);
            && entries != [] && entries[0] == bytes[start..][..n]
            && entries[1..] == if start + n == |bytes| then [] else Entries(bytes[start + n + 1..])
  {
    hide FindColon;
    var here := bytes[start..];
    var n := FindColon(here);
    if n == |here| {
      assert here[..n] == here;
    } else {
      assert here[n + 1..] == bytes[start + n + 1..];
    }
  }

  lemma CandidatesNext(entries: seq<Bytes>, command: Bytes)
    requires entries != []
    ensures var rest := Candidates(entries[1..], command);
            Candidates(entries, command) ==
            if entries[0] != [] && entries[0][0] == SLASH then [entries[0] + [SLASH] + command] + rest else rest
  {
  }

  lemma SearchNext<W, T>(visitor: Visitor<W, T>, candidate: Bytes, rest: seq<Bytes>, world: W, matched: bool)
    ensures Search(visitor, [candidate] + rest, world, matched) ==
            var seen := visitor(world, candidate);
            if |candidate| > COMMAND_PATH_CAPACITY then (world, Err(ShellPaths.ResourceUnavailable))
            else if seen.1.Return? then (seen.0, Ok(Returned(seen.1.value)))
            else Search(visitor, rest, seen.0, matched || seen.1.Matched?)
  {
    assert ([candidate] + rest)[1..] == rest;
  }

  lemma SearchNothing<W, T>(visitor: Visitor<W, T>, command: Bytes, world: W, matched: bool)
    ensures Search(visitor, Candidates([], command), world, matched) ==
              (world, Ok(if matched then SomeMatch else NoMatches))
  {
  }

  method BuildPathCandidate(buffer: array<Byte>, entry: Bytes, command: Bytes)
    returns (r: Result<Bytes, ShellPaths.ResolutionError>)
    requires buffer.Length == COMMAND_PATH_CAPACITY
    modifies buffer
    ensures r == var candidate := entry + [SLASH] + command;
                 if |candidate| > COMMAND_PATH_CAPACITY then Err(ShellPaths.ResourceUnavailable) else Ok(candidate)
  {
    if |entry| + 1 + |command| > buffer.Length { return Err(ShellPaths.ResourceUnavailable); }
    CopyInto(buffer, 0, entry);
    assert buffer[..|entry|] == entry;
    buffer[|entry|] := SLASH;
    assert buffer[..|entry| + 1] == entry + [SLASH];
    CopyInto(buffer, |entry| + 1, command);
    return Ok(buffer[..|entry| + 1 + |command|]);
  }

  // ---------------------------------------------------------------------------
  // What a search visits.

  /** A search of two lists is a search of the first and, unless that ends it, of the second:
      candidates behind the one that returns, or does not fit, are never visited. */
  lemma {:induction false} SearchStopsFirst<W, T>(visitor: Visitor<W, T>, front: seq<Bytes>, candidates: seq<Bytes>,
                                                  world: W, matched: bool)
    ensures var (w, outcome) := Search(visitor, front, world, matched);
            Search(visitor, front + candidates, world, matched) ==
            if outcome.Err? || outcome.value.Returned? then (w, outcome)
                else Search(visitor, candidates, w, outcome.value.SomeMatch?)
    decreases |front|
  {
    if front == [] {
      assert front + candidates == candidates;
    } else {
      assert (front + candidates)[1..] == front[1..] + candidates;
      var seen := visitor(world, front[0]);
      if !seen.1.Return? {
        SearchStopsFirst(visitor, front[1..], candidates, seen.0, matched || seen.1.Matched?);
      }
    }
  }

  /** `visited` are the absolute entries, those at the positions `at`, in order, each with a slash and the command. */
  ghost predicate VisitsInOrder(entries: seq<Bytes>, command: Bytes, visited: seq<Bytes>, at: seq<nat>) {
    && |at| == |visited|
    && (forall k :: 0 <= k < |at| ==> at[k] < |entries| && visited[k] == entries[at[k]] + [0x2f] + command)
    && (forall j, k :: 0 <= j < k < |at| ==> at[j] < at[k])
    && (forall i: nat :: i in at <==> i < |entries| && Absolute(entries[i]))
  }

  predicate Absolute(entry: Bytes) {
    entry != [] && entry[0] == 0x2f
  }

  lemma {:induction false} CandidatesAreAbsolute(entries: seq<Bytes>, command: Bytes) returns (at: seq<nat>)
    ensures VisitsInOrder(entries, command, Candidates(entries, command), at)
    decreases |entries|
  {
    hide Candidates, VisitsInOrder;
    at := [];
    if entries == [] {
      NothingVisited(command);
    } else {
      var later := CandidatesAreAbsolute(entries[1..], command);
      CandidatesNext(entries, command);
      var rest := Candidates(entries[1..], command);
      OneEntryMore(entries, command, rest, later);
      at := Moved(later);
      if Absolute(entries[0]) {
        FirstIsVisited(entries, command, rest, at);
        at := [0] + at;
      }
    }
  }

  lemma NothingVisited(command: Bytes)
    ensures VisitsInOrder([], command, Candidates([], command), [])
  {
  }

  function Moved(at: seq<nat>): (r: seq<nat>)
    ensures |r| == |at| && forall k :: 0 <= k < |at| ==> r[k] == at[k] + 1
  {
    seq(|at|, k requires 0 <= k < |at| => at[k] + 1)
  }

  /** As `VisitsInOrder`, with nothing said about the first entry. */
  ghost predicate VisitsLater(entries: seq<Bytes>, command: Bytes, visited: seq<Bytes>, at: seq<nat>) {
    && |at| == |visited|
    && (forall k :: 0 <= k < |at| ==> 0 < at[k] < |entries| && visited[k] == entries[at[k]] + [0x2f] + command)
    && (forall j, k :: 0 <= j < k < |at| ==> at[j] < at[k])
    && (forall i: nat :: i in at <==> 0 < i < |entries| && Absolute(entries[i]))
  }

  lemma OneEntryMore(entries: seq<Bytes>, command: Bytes, visited: seq<Bytes>, later: seq<nat>)
    requires entries != [] && VisitsInOrder(entries[1..], command, visited, later)
    ensures VisitsLater(entries, command, visited, Moved(later))
    ensures !Absolute(entries[0]) ==> VisitsInOrder(entries, command, visited, Moved(later))
  {
    hide Absolute;
    var at := Moved(later);
    forall k | 0 <= k < |at| ensures 0 < at[k] < |entries| && visited[k] == entries[at[k]] + [0x2f] + command {
      assert entries[at[k]] == entries[1..][later[k]];
    }
    forall i: nat ensures i in at <==> 0 < i < |entries| && Absolute(entries[i]) {
      MovedHas(later, i);
      assert 0 < i < |entries| ==> entries[i] == entries[1..][i - 1];
    }
  }

  lemma MovedHas(later: seq<nat>, i: nat)
    ensures i in Moved(later) <==> i > 0 && i - 1 in later
  {
    if i > 0 && i - 1 in later {
      var k :| 0 <= k < |later| && later[k] == i - 1;
      assert Moved(later)[k] == i;
    }
  }

  lemma FirstIsVisited(entries: seq<Bytes>, command: Bytes, visited: seq<Bytes>, at: seq<nat>)
    requires entries != [] && Absolute(entries[0]) && VisitsLater(entries, command, visited, at)
    ensures VisitsInOrder(entries, command, [entries[0] + [0x2f] + command] + visited, [0] + at)
  {
    assert ([0] + at)[0] == 0;
  }

  /** The world behind the first `n` visits. */
  function Visited<W, T>(visitor: Visitor<W, T>, candidates: seq<Bytes>, world: W, n: nat): W
    requires n <= |candidates|
  {
    if n == 0 then world else visitor(Visited(visitor, candidates, world, n - 1), candidates[n - 1]).0
  }

  /** What visit `k` reports. */
  function Reported<W, T>(visitor: Visitor<W, T>, candidates: seq<Bytes>, world: W, k: nat): SearchStep<T>
    requires k < |candidates|
  {
    visitor(Visited(visitor, candidates, world, k), candidates[k]).1
  }

  /** The first `n` candidates are visited and let the search go on. */
  ghost predicate GoesOn<W, T>(visitor: Visitor<W, T>, candidates: seq<Bytes>, world: W, n: nat)
    requires n <= |candidates|
  {
    forall k :: 0 <= k < n ==> |candidates[k]| <= 385 && !Reported(visitor, candidates, world, k).Return?
  }

  /** How a search ends, from what its visits report: at the first candidate that is too long; with the value of
      the first visit that returns one; and otherwise with a match if and only if some visit reported one. */
  lemma {:induction false} SearchTells<W, T>(visitor: Visitor<W, T>, candidates: seq<Bytes>, world: W, n: nat)
    requires n <= |candidates| && GoesOn(visitor, candidates, world, n)
    ensures n < |candidates| && |candidates[n]| > 385 ==>
              Search(visitor, candidates, world, false) ==
                (Visited(visitor, candidates, world, n), Err(ShellPaths.ResourceUnavailable))
    ensures n < |candidates| && |candidates[n]| <= 385 && Reported(visitor, candidates, world, n).Return? ==>
              Search(visitor, candidates, world, false) ==
                (Visited(visitor, candidates, world, n + 1),
                 Ok(Returned(Reported(visitor, candidates, world, n).value)))
    ensures n == |candidates| ==>
              Search(visitor, candidates, world, false) ==
                (Visited(visitor, candidates, world, n),
                 Ok(if exists k :: 0 <= k < n && Reported(visitor, candidates, world, k).Matched? then SomeMatch
                    else NoMatches))
  {
    hide Visited, Reported, Search, GoesOn;
    var matched := SearchFrom(visitor, candidates, world, n);
    assert candidates[n..] == if n == |candidates| then [] else [candidates[n]] + candidates[n + 1..];
    if n < |candidates| {
      SearchNext(visitor, candidates[n], candidates[n + 1..], Visited(visitor, candidates, world, n), matched);
      VisitedNext(visitor, candidates, world, n);
    } else {
      SearchEmpty(visitor, Visited(visitor, candidates, world, n), matched);
    }
  }

  lemma VisitedNext<W, T>(visitor: Visitor<W, T>, candidates: seq<Bytes>, world: W, n: nat)
    requires n < |candidates|
    ensures visitor(Visited(visitor, candidates, world, n), candidates[n]) ==
              (Visited(visitor, candidates, world, n + 1), Reported(visitor, candidates, world, n))
  {
  }

  lemma SearchEmpty<W, T>(visitor: Visitor<W, T>, world: W, matched: bool)
    ensures Search(visitor, [], world, matched) == (world, Ok(if matched then SomeMatch else NoMatches))
  {
  }

  /** Behind `n` visits that let it go on, the search continues with the rest, knowing of their matches. */
  lemma {:induction false} SearchFrom<W, T>(visitor: Visitor<W, T>, candidates: seq<Bytes>, world: W, n: nat)
    returns (matched: bool)
    requires n <= |candidates| && GoesOn(visitor, candidates, world, n)
    ensures Search(visitor, candidates, world, false) ==
              Search(visitor, candidates[n..], Visited(visitor, candidates, world, n), matched)
    ensures matched <==> exists k :: 0 <= k < n && Reported(visitor, candidates, world, k).Matched?
    decreases n
  {
    hide Reported, Search;
    if n == 0 {
      assert candidates[0..] == candidates;
      matched := false;
    } else {
      var before := SearchFrom(visitor, candidates, world, n - 1);
      matched := before || Reported(visitor, candidates, world, n - 1).Matched?;
      assert candidates[n - 1..] == [candidates[n - 1]] + candidates[n..];
      VisitedNext(visitor, candidates, world, n - 1);
      SearchNext(visitor, candidates[n - 1], candidates[n..], Visited(visitor, candidates, world, n - 1), before);
    }
  }

  /** Entries are parts of the path. */
  lemma {:induction false} EntriesAreShort(path: Bytes)
    ensures forall e :: e in Entries(path) ==> |e| <= |path|
    decreases |path|
  {
    var n := FindColon(path);
    if n < |path| {
      EntriesAreShort(path[n + 1..]);
    }
  }

  lemma {:induction false} ShortCandidatesFit<W, T>(visitor: Visitor<W, T>, entries: seq<Bytes>, command: Bytes,
                                                    world: W, matched: bool)
    requires |command| <= COMMAND_CAPACITY && forall e :: e in entries ==> |e| <= PATH_BUFFER_CAPACITY
    ensures Search(visitor, Candidates(entries, command), world, matched).1.Ok?
    decreases |entries|
  {
    if entries != [] {
      var first, rest := entries[0], Candidates(entries[1..], command);
      CandidatesNext(entries, command);
      if first != [] && first[0] == SLASH {
        SearchNext(visitor, first + [SLASH] + command, rest, world, matched);
        var seen := visitor(world, first + [SLASH] + command);
        ShortCandidatesFit(visitor, entries[1..], command, seen.0, matched || seen.1.Matched?);
      } else {
        ShortCandidatesFit(visitor, entries[1..], command, world, matched);
      }
    }
  }

  /** With PATH as its 128-byte buffer can hold it and a command as the 256-byte token storage
      can hold it, the candidate buffer always suffices. */
  lemma TokensNeverOverflow<W, T>(visitor: Visitor<W, T>, path: Bytes, command: Bytes, world: W)
    requires |path| <= PATH_BUFFER_CAPACITY && |command| <= COMMAND_CAPACITY
    ensures Search(visitor, Candidates(Entries(path), command), world, false).1.Ok?
  {
    EntriesAreShort(path);
    ShortCandidatesFit(visitor, Entries(path), command, world, false);
  }
}
