// The quote-aware automaton both parsers of `lash` run, and the segment scan
// (user/lash/src/lib.rs:109-124, 252-354).
module Quoting {
  import opened Prelude

  datatype ParseError =
    UnmatchedSingleQuote | UnmatchedDoubleQuote | TrailingBackslash | InvalidSyntax | ResourceUnavailable

  datatype Mode = Unquoted | SingleQuoted | DoubleQuoted

  datatype SegmentOperator = And | Or | Sequence

  const MAX_CHAIN_SEGMENTS: nat := 32

  /** One turn of the automaton at byte `i`: where it continues and in which mode; None for a
      backslash with nothing behind it. */
  function Advance(line: Bytes, i: nat, mode: Mode): (r: Option<(nat, Mode)>)
    requires i < |line|
    ensures r.Some? ==> i < r.value.0 <= |line|
  {
    if mode != SingleQuoted && line[i] == BACKSLASH then
      (if i + 1 >= |line| then None else Some((i + 2, mode)))
    else Some((i + 1, NextMode(mode, line[i])))
  }

  function NextMode(mode: Mode, b: Byte): Mode {
    match mode
    case Unquoted => if b == SINGLE_QUOTE then SingleQuoted else if b == DOUBLE_QUOTE then DoubleQuoted else Unquoted
    case SingleQuoted => if b == SINGLE_QUOTE then Unquoted else SingleQuoted
    case DoubleQuoted => if b == DOUBLE_QUOTE then Unquoted else DoubleQuoted
  }

  /** The mode in which the automaton, started at `i`, arrives exactly at `to`. */
  function ModeAt(line: Bytes, i: nat, mode: Mode, to: nat): Option<Mode>
    requires i <= |line|
    decreases |line| - i
  {
    if i == to then Some(mode)
    else if i > to || i == |line| then None
    else
      var next := Advance(line, i, mode);
      if next.None? then None else ModeAt(line, next.value.0, next.value.1, to)
  }

  lemma {:induction false} ModeComposes(line: Bytes, i: nat, mode: Mode, mid: nat, to: nat)
    requires i <= mid <= |line| && ModeAt(line, i, mode, mid).Some?
    ensures ModeAt(line, i, mode, to) == if mid <= to then ModeAt(line, mid, ModeAt(line, i, mode, mid).value, to)
              else ModeAt(line, i, mode, to)
    decreases |line| - i
  {
    if i < mid {
      var next := Advance(line, i, mode).value;
      ModeComposes(line, next.0, next.1, mid, to);
    }
  }

  lemma {:induction false} ArrivesForward(line: Bytes, i: nat, mode: Mode, to: nat)
    requires i <= |line| && ModeAt(line, i, mode, to).Some?
    ensures i <= to <= |line|
    decreases |line| - i
  {
    if i != to {
      var next := Advance(line, i, mode).value;
      ArrivesForward(line, next.0, next.1, to);
    }
  }

  /** One more turn. */
  lemma ModeStep(line: Bytes, i: nat, mode: Mode, at: nat)
    requires i <= at < |line| && ModeAt(line, i, mode, at).Some?
    ensures var m := ModeAt(line, i, mode, at).value;
            var next := Advance(line, at, m);
            next.Some? ==> ModeAt(line, i, mode, next.value.0) == Some(next.value.1)
  {
    var m := ModeAt(line, i, mode, at).value;
    var next := Advance(line, at, m);
    if next.Some? {
      ModeComposes(line, i, mode, at, next.value.0);
    }
  }

  /** A slice that the automaton crosses exactly looks the same on its own. */
  lemma {:induction false} ModeInSlice(line: Bytes, from: nat, to: nat, i: nat, mode: Mode, at: nat)
    requires from <= i <= at <= to <= |line| && ModeAt(line, i, mode, at).Some?
    ensures ModeAt(line[from..to], i - from, mode, at - from) == ModeAt(line, i, mode, at)
    decreases at - i
  {
    if i < at {
      assert line[from..to][i - from] == line[i];
      var next := Advance(line, i, mode).value;
      ArrivesForward(line, next.0, next.1, at);
      ModeInSlice(line, from, to, next.0, next.1, at);
    }
  }

  // ---------------------------------------------------------------------------
  // The scan.

  /** A segment: its bounds as found, its bounds without surrounding spaces, and the operator
      behind it, if any. */
  datatype Segment = Segment(rawStart: nat, rawEnd: nat, start: nat, end: nat, operator: Option<SegmentOperator>)

  function TrimStart(bytes: Bytes, start: nat, end: nat): (r: nat)
    requires start <= end <= |bytes|
    ensures start <= r <= end && (r < end ==> bytes[r] != SPACE)
    ensures forall k :: start <= k < r ==> bytes[k] == SPACE
    decreases end - start
  {
    if start < end && bytes[start] == SPACE then TrimStart(bytes, start + 1, end) else start
  }

  function TrimEnd(bytes: Bytes, start: nat, end: nat): (r: nat)
    requires start <= end <= |bytes|
    ensures start <= r <= end && (start < r ==> bytes[r - 1] != SPACE)
    ensures forall k :: r <= k < end ==> bytes[k] == SPACE
    decreases end
  {
    if start < end && bytes[end - 1] == SPACE then TrimEnd(bytes, start, end - 1) else end
  }

  function Trimmed(bytes: Bytes, start: nat, end: nat, operator: Option<SegmentOperator>): Segment
    requires start <= end <= |bytes|
  {
    var from := TrimStart(bytes, start, end);
    Segment(start, end, from, TrimEnd(bytes, from, end), operator)
  }

  /** `trim_spaces_range`. */
  method TrimSpacesRange(bytes: Bytes, start: nat, end: nat) returns (from: nat, to: nat)
    requires start <= end <= |bytes|
    ensures from == TrimStart(bytes, start, end) && to == TrimEnd(bytes, from, end)
  {
    from, to := start, end;
    while from < to && bytes[from] == SPACE
      invariant start <= from <= end && TrimStart(bytes, from, end) == TrimStart(bytes, start, end)
    {
      from := from + 1;
    }
    while to > from && bytes[to - 1] == SPACE
      invariant from <= to <= end && TrimEnd(bytes, from, to) == TrimEnd(bytes, from, end)
    {
      to := to - 1;
    }
  }

  /** The operator that starts at `i`, and its length. */
  function OperatorAt(line: Bytes, i: nat): Option<(SegmentOperator, nat)>
    requires i < |line|
  {
    if line[i] == AMPERSAND && i + 1 < |line| && line[i + 1] == AMPERSAND then Some((And, 2))
    else if line[i] == PIPE && i + 1 < |line| && line[i + 1] == PIPE then Some((Or, 2))
    else if line[i] == SEMICOLON then Some((Sequence, 1))
    else None
  }

  /** `SegmentScan::push`: 32 segments, but only 31 operators. */
  function Push(found: seq<Segment>, s: Segment): Result<seq<Segment>, ParseError> {
    if |found| >= MAX_CHAIN_SEGMENTS then Err(ResourceUnavailable)
    else if s.operator.Some? && |found| >= MAX_CHAIN_SEGMENTS - 1 then Err(ResourceUnavailable)
    else Ok(found + [s])
  }

  /** The scanning loop from `i` on. */
  function ScanFrom(line: Bytes, i: nat, mode: Mode, start: nat, found: seq<Segment>): Result<seq<Segment>, ParseError>
    requires start <= i <= |line|
    decreases |line| - i
  {
    if i == |line| then
      (match mode
       case SingleQuoted => Err(UnmatchedSingleQuote)
       case DoubleQuoted => Err(UnmatchedDoubleQuote)
       case Unquoted =>
         var last := Trimmed(line, start, i, None);
         if last.start == last.end then (if found == [] then Ok([]) else Err(InvalidSyntax)) else Push(found, last))
    else if mode == Unquoted && OperatorAt(line, i).Some? then
      var (operator, length) := OperatorAt(line, i).value;
      var s := Trimmed(line, start, i, Some(operator));
      if s.start == s.end then Err(InvalidSyntax)
      else
        var pushed := Push(found, s);
        if pushed.Err? then pushed else ScanFrom(line, i + length, Unquoted, i + length, pushed.value)
    else
      var next := Advance(line, i, mode);
      if next.None? then Err(TrailingBackslash) else ScanFrom(line, next.value.0, next.value.1, start, found)
  }

  function Scan(line: Bytes): Result<seq<Segment>, ParseError> {
    ScanFrom(line, 0, Unquoted, 0, [])
  }

  // ---------------------------------------------------------------------------
  // In place.

  class SegmentScan {
    const starts: array<nat>
    const ends: array<nat>
    const operators: array<SegmentOperator>
    var count: nat

    ghost predicate Valid()
      reads this
    {
      && starts.Length == ends.Length == MAX_CHAIN_SEGMENTS && operators.Length == MAX_CHAIN_SEGMENTS - 1
      && starts != ends && count <= MAX_CHAIN_SEGMENTS
    }

    /** The arrays hold the trimmed bounds of `found`, and the operators between them. */
    ghost predicate Holds(found: seq<Segment>)
      requires Valid()
      reads this, starts, ends, operators
    {
      && count == |found|
      && (forall i :: 0 <= i < count ==> starts[i] == found[i].start && ends[i] == found[i].end)
      && (forall i :: 0 <= i < count ==> found[i].operator.Some? ==>
           i < operators.Length && operators[i] == found[i].operator.value)
    }

    constructor ()
      ensures Valid() && Holds([]) && fresh(starts) && fresh(ends) && fresh(operators)
    {
      starts := new nat[MAX_CHAIN_SEGMENTS](_ => 0);
      ends := new nat[MAX_CHAIN_SEGMENTS](_ => 0);
      operators := new SegmentOperator[MAX_CHAIN_SEGMENTS - 1](_ => Sequence);
      count := 0;
    }

    method PushSegment(s: Segment, ghost found: seq<Segment>) returns (ok: bool)
      requires Valid() && Holds(found)
      modifies this, starts, ends, operators
      ensures Valid() && ok == Push(found, s).Ok?
      ensures ok ==> Holds(Push(found, s).value)
    {
      if count >= starts.Length { return false; }
      starts[count] := s.start;
      ends[count] := s.end;
      if s.operator.Some? {
        if count >= operators.Length { return false; }
        operators[count] := s.operator.value;
      }
      count := count + 1;
      return true;
    }
  }

  lemma HoldsAll(scan: SegmentScan, found: seq<Segment>)
    requires scan.Valid() && scan.Holds(found)
    ensures scan.count == |found|
  {
  }

  method ScanSegments(line: Bytes) returns (scan: SegmentScan, r: Result<(), ParseError>)
    ensures fresh(scan) && fresh(scan.starts) && fresh(scan.ends) && fresh(scan.operators) && scan.Valid()
    ensures r.Err? <==> Scan(line).Err?
    ensures r.Err? ==> r.error == Scan(line).error
    ensures r.Ok? ==> scan.Holds(Scan(line).value)
  {
    hide SegmentScan.Holds;
    scan := new SegmentScan();
    var start: nat, index: nat, mode := 0, 0, Unquoted;
    ghost var found: seq<Segment> := [];
    while index < |line|
      invariant start <= index <= |line|
      invariant fresh(scan) && fresh(scan.starts) && fresh(scan.ends) && fresh(scan.operators)
      invariant scan.Valid() && scan.Holds(found)
      invariant ScanFrom(line, index, mode, start, found) == Scan(line)
    {
      var operator := OperatorAt(line, index);
      if mode == Unquoted && operator.Some? {
        var from, to := TrimSpacesRange(line, start, index);
        if from == to { return scan, Err(InvalidSyntax); }
        var s := Segment(start, index, from, to, Some(operator.value.0));
        var pushed := scan.PushSegment(s, found);
        if !pushed { return scan, Err(ResourceUnavailable); }
        found := Push(found, s).value;
        index := index + operator.value.1;
        start := index;
        continue;
      }
      var next := Advance(line, index, mode);
      if next.None? { return scan, Err(TrailingBackslash); }
      index, mode := next.value.0, next.value.1;
    }
    if mode == SingleQuoted { return scan, Err(UnmatchedSingleQuote); }
    if mode == DoubleQuoted { return scan, Err(UnmatchedDoubleQuote); }
    var from, to := TrimSpacesRange(line, start, |line|);
    if from == to {
      HoldsAll(scan, found);
      if scan.count == 0 { return scan, Ok(()); }
      return scan, Err(InvalidSyntax);
    }
    var pushed := scan.PushSegment(Segment(start, |line|, from, to, None), found);
    return scan, if pushed then Ok(()) else Err(ResourceUnavailable);
  }

  // ---------------------------------------------------------------------------
  // What an accepted scan says about the line.

  /** No operator starts at an unquoted place of `[start, to)`. */
  ghost predicate Clean(line: Bytes, start: nat, to: nat)
    requires start <= to <= |line|
  {
    forall p: nat :: start <= p < to && ModeAt(line, start, Unquoted, p) == Some(Unquoted) ==> OperatorAt(line, p).None?
  }

  /** The segment runs from one unquoted place to another, with no operator between, and its
      trimmed part is not empty. */
  ghost predicate SegmentOk(line: Bytes, s: Segment) {
    && s.rawStart <= s.rawEnd <= |line|
    && s == Trimmed(line, s.rawStart, s.rawEnd, s.operator) && s.start < s.end
    && ModeAt(line, 0, Unquoted, s.rawStart) == Some(Unquoted)
    && ModeAt(line, s.rawStart, Unquoted, s.rawEnd) == Some(Unquoted)
    && Clean(line, s.rawStart, s.rawEnd)
    && (s.operator.Some? ==>
          && s.rawEnd < |line|
          && OperatorAt(line, s.rawEnd) == Some((s.operator.value, OperatorLength(s.operator.value))))
  }

  function OperatorLength(o: SegmentOperator): nat {
    if o == Sequence then 1 else 2
  }

  /** Where the next segment starts. */
  function NextStart(found: seq<Segment>): nat {
    if found == [] then 0
    else
      var last := found[|found| - 1];
      last.rawEnd + if last.operator.Some? then OperatorLength(last.operator.value) else 0
  }

  /** The segments and the operators between them tile the line up to `NextStart`. */
  ghost predicate Tiles(line: Bytes, found: seq<Segment>) {
    && (forall i :: 0 <= i < |found| ==> SegmentOk(line, found[i]) && found[i].rawStart == NextStart(found[..i]))
    && (forall i :: 0 <= i < |found| - 1 ==> found[i].operator.Some?)
  }

  /** The scanning loop's invariant. */
  ghost predicate Scanning(line: Bytes, i: nat, mode: Mode, start: nat, found: seq<Segment>) {
    && start <= i <= |line| && start == NextStart(found) && Tiles(line, found)
    && (forall k :: 0 <= k < |found| ==> found[k].operator.Some?)
    && ModeAt(line, 0, Unquoted, start) == Some(Unquoted)
    && ModeAt(line, start, Unquoted, i) == Some(mode)
    && Clean(line, start, i)
  }

  lemma TilesPush(line: Bytes, found: seq<Segment>, s: Segment)
    requires Tiles(line, found) && SegmentOk(line, s) && s.rawStart == NextStart(found)
    requires forall k :: 0 <= k < |found| ==> found[k].operator.Some?
    ensures Tiles(line, found + [s])
  {
    hide SegmentOk, NextStart;
    var longer := found + [s];
    forall i | 0 <= i < |longer| ensures SegmentOk(line, longer[i]) && longer[i].rawStart == NextStart(longer[..i]) {
      if i < |found| {
        assert longer[..i] == found[..i];
      } else {
        assert longer[..i] == found;
      }
    }
  }

  /** The automaton passes an operator byte by byte, unquoted. */
  lemma OverOperator(line: Bytes, i: nat)
    requires i < |line| && OperatorAt(line, i).Some?
    ensures var (operator, length) := OperatorAt(line, i).value;
            && length == OperatorLength(operator) && i + length <= |line|
            && ModeAt(line, i, Unquoted, i + length) == Some(Unquoted)
  {
    var (operator, length) := OperatorAt(line, i).value;
    if length == 2 {
      assert ModeAt(line, i + 1, Unquoted, i + 2) == Some(Unquoted);
    }
  }

  lemma CleanStep(line: Bytes, start: nat, i: nat, mode: Mode)
    requires start <= i < |line| && ModeAt(line, start, Unquoted, i) == Some(mode) && Clean(line, start, i)
    requires mode == Unquoted ==> OperatorAt(line, i).None?
    requires Advance(line, i, mode).Some?
    ensures Clean(line, start, Advance(line, i, mode).value.0)
  {
    var next := Advance(line, i, mode).value;
    hide OperatorAt;
    forall p: nat | start <= p < next.0 && ModeAt(line, start, Unquoted, p) == Some(Unquoted)
      ensures OperatorAt(line, p).None?
    {
      if p > i {
        ModeComposes(line, start, Unquoted, i, p);
      }
    }
  }

  lemma {:induction false} ScanKeeps(line: Bytes, i: nat, mode: Mode, start: nat, found: seq<Segment>)
    requires Scanning(line, i, mode, start, found)
    ensures var r := ScanFrom(line, i, mode, start, found);
            r.Ok? ==> Tiles(line, r.value) && (r.value != [] ==>
                NextStart(r.value) == |line| && r.value[|r.value| - 1].operator.None?)
    decreases |line| - i
  {
    hide Tiles, Clean, NextStart, SegmentOk;
    if i == |line| {
      if mode == Unquoted {
        LastSegment(line, start, found);
      }
    } else if mode == Unquoted && OperatorAt(line, i).Some? {
      var (operator, length) := OperatorAt(line, i).value;
      var s := Trimmed(line, start, i, Some(operator));
      if s.start != s.end && Push(found, s).Ok? {
        ScanPastOperator(line, i, start, found);
        ScanKeeps(line, i + length, Unquoted, i + length, found + [s]);
      }
    } else {
      var next := Advance(line, i, mode);
      if next.Some? {
        CleanStep(line, start, i, mode);
        ModeStep(line, start, Unquoted, i);
        ScanKeeps(line, next.value.0, next.value.1, start, found);
      }
    }
  }

  lemma LastSegment(line: Bytes, start: nat, found: seq<Segment>)
    requires Scanning(line, |line|, Unquoted, start, found)
    ensures var last := Trimmed(line, start, |line|, None);
            last.start < last.end ==> Tiles(line, found + [last]) && NextStart(found + [last]) == |line|
  {
    hide Tiles, Clean;
    var last := Trimmed(line, start, |line|, None);
    if last.start < last.end {
      TilesPush(line, found, last);
    }
  }

  lemma ScanPastOperator(line: Bytes, i: nat, start: nat, found: seq<Segment>)
    requires Scanning(line, i, Unquoted, start, found) && i < |line| && OperatorAt(line, i).Some?
    requires var s := Trimmed(line, start, i, Some(OperatorAt(line, i).value.0)); s.start < s.end
    ensures var (operator, length) := OperatorAt(line, i).value;
            var s := Trimmed(line, start, i, Some(operator));
            i + length <= |line| && Scanning(line, i + length, Unquoted, i + length, found + [s])
  {
    hide Tiles, Clean;
    var (operator, length) := OperatorAt(line, i).value;
    var s := Trimmed(line, start, i, Some(operator));
    OverOperator(line, i);
    ModeComposes(line, 0, Unquoted, start, i);
    ModeComposes(line, 0, Unquoted, i, i + length);
    hide OperatorAt;
    TilesPush(line, found, s);
    NothingIsClean(line, i + length);
  }

  lemma NothingIsClean(line: Bytes, i: nat)
    requires i <= |line|
    ensures Clean(line, i, i)
  {
  }

  /** An accepted line is tiled by its segments and operators, from the first byte to the last;
      the automaton is unquoted at every boundary, and no operator was overlooked. */
  lemma AcceptedScan(line: Bytes)
    requires Scan(line).Ok?
    ensures Tiles(line, Scan(line).value)
    ensures Scan(line).value != [] ==>
              && NextStart(Scan(line).value) == |line|
              && Scan(line).value[|Scan(line).value| - 1].operator.None?
  {
    NothingIsClean(line, 0);
    ScanKeeps(line, 0, Unquoted, 0, []);
  }
}
