// Splitting a segment into words (user/lash/src/lib.rs:95-250): the tokens an
// unlimited parser would find, the fixed-capacity parser, and how tokenizing
// relates to the segment scan and to quoting.
module Tokens {
  import opened Prelude
  import opened Quoting

  const LINE_CAPACITY: nat := 256
  const MAX_COMMAND_ARGS: nat := 16

  /** Finished tokens, and the one in progress. */
  datatype Words = Words(done: seq<Bytes>, current: Option<Bytes>)
  {
    function Opened(): Bytes { if current.Some? then current.value else [] }
  }

  /** What byte `i` does to the words, in this mode. */
  function Emit(line: Bytes, i: nat, mode: Mode, w: Words): Words
    requires i < |line| && Advance(line, i, mode).Some?
  {
    var b := line[i];
    match mode
    case Unquoted =>
      if b == SPACE then (if w.current.Some? then Words(w.done + [w.current.value], None) else w)
      else if b == SINGLE_QUOTE || b == DOUBLE_QUOTE then w.(current := Some(w.Opened()))
      else if b == BACKSLASH then w.(current := Some(w.Opened() + [line[i + 1]]))
      else w.(current := Some(w.Opened() + [b]))
    case SingleQuoted => if b == SINGLE_QUOTE then w else w.(current := Some(w.Opened() + [b]))
    case DoubleQuoted =>
      if b == DOUBLE_QUOTE then w
      else if b == BACKSLASH then w.(current := Some(w.Opened() + [line[i + 1]]))
      else w.(current := Some(w.Opened() + [b]))
  }

  /** Tokens without capacity limits, from byte `i` on. */
  function LexFrom(line: Bytes, i: nat, mode: Mode, w: Words): Result<seq<Bytes>, ParseError>
    requires i <= |line|
    decreases |line| - i
  {
    if i == |line| then
      (match mode
       case SingleQuoted => Err(UnmatchedSingleQuote)
       case DoubleQuoted => Err(UnmatchedDoubleQuote)
       case Unquoted => Ok(if w.current.Some? then w.done + [w.current.value] else w.done))
    else
      var next := Advance(line, i, mode);
      if next.None? then Err(TrailingBackslash) else LexFrom(line, next.value.0, next.value.1, Emit(line, i, mode, w))
  }

  function Lex(line: Bytes): Result<seq<Bytes>, ParseError> {
    LexFrom(line, 0, Unquoted, Words([], None))
  }

  // ---------------------------------------------------------------------------
  // Capacities.

  function Flat(tokens: seq<Bytes>): Bytes {
    if tokens == [] then [] else Flat(tokens[..|tokens| - 1]) + tokens[|tokens| - 1]
  }

  /** More than 16 tokens, or more than 256 bytes of them. */
  predicate Over(w: Words) {
    (w.current.Some? && |w.done| >= MAX_COMMAND_ARGS) || |Flat(w.done)| + |w.Opened()| > LINE_CAPACITY
  }

  /** The parser with its fixed arrays. */
  function ParseFrom(line: Bytes, i: nat, mode: Mode, w: Words): Result<seq<Bytes>, ParseError>
    requires i <= |line|
    decreases |line| - i
  {
    if i == |line| then LexFrom(line, i, mode, w)
    else
      var next := Advance(line, i, mode);
      if next.None? then Err(TrailingBackslash)
      else
        var w' := Emit(line, i, mode, w);
        if Over(w') then Err(ResourceUnavailable) else ParseFrom(line, next.value.0, next.value.1, w')
  }

  function Parsed(line: Bytes): Result<seq<Bytes>, ParseError> {
    ParseFrom(line, 0, Unquoted, Words([], None))
  }

  /** The limited parser gives up for capacity or agrees with the unlimited one. */
  lemma {:induction false} ParseAgrees(line: Bytes, i: nat, mode: Mode, w: Words)
    requires i <= |line|
    ensures ParseFrom(line, i, mode, w) == Err(ResourceUnavailable) ||
              ParseFrom(line, i, mode, w) == LexFrom(line, i, mode, w)
    decreases |line| - i
  {
    hide Over, Emit;
    if i < |line| {
      var next := Advance(line, i, mode);
      if next.Some? {
        ParseAgrees(line, next.value.0, next.value.1, Emit(line, i, mode, w));
      }
    }
  }

  lemma {:induction false} FlatPush(tokens: seq<Bytes>, t: Bytes)
    ensures Flat(tokens + [t]) == Flat(tokens) + t
  {
    assert (tokens + [t])[..|tokens|] == tokens;
  }

  /** What one turn keeps: words only grow. */
  lemma EmitGrows(line: Bytes, i: nat, mode: Mode, w: Words)
    requires i < |line| && Advance(line, i, mode).Some?
    ensures var w' := Emit(line, i, mode, w);
            && |Flat(w'.done)| + |w'.Opened()| >= |Flat(w.done)| + |w.Opened()|
            && |w'.done| >= |w.done|
  {
    if w.current.Some? { FlatPush(w.done, w.current.value); }
  }

  /** The tokens found in the end hold at least what has been collected. */
  lemma {:induction false} LexGrows(line: Bytes, i: nat, mode: Mode, w: Words)
    requires i <= |line| && LexFrom(line, i, mode, w).Ok?
    ensures var tokens := LexFrom(line, i, mode, w).value;
            && |Flat(tokens)| >= |Flat(w.done)| + |w.Opened()|
            && |tokens| >= |w.done| + if w.current.Some? then 1 else 0
    decreases |line| - i
  {
    if i == |line| {
      if w.current.Some? { FlatPush(w.done, w.current.value); }
    } else {
      var next := Advance(line, i, mode).value;
      EmitGrows(line, i, mode, w);
      LexGrows(line, next.0, next.1, Emit(line, i, mode, w));
    }
  }

  /** Words that fit are never refused. */
  lemma {:induction false} FittingIsParsed(line: Bytes, i: nat, mode: Mode, w: Words)
    requires i <= |line| && LexFrom(line, i, mode, w).Ok?
    requires |LexFrom(line, i, mode, w).value| <= MAX_COMMAND_ARGS
    requires |Flat(LexFrom(line, i, mode, w).value)| <= LINE_CAPACITY
    ensures ParseFrom(line, i, mode, w) == LexFrom(line, i, mode, w)
    decreases |line| - i
  {
    hide Emit, Flat;
    if i < |line| {
      var next := Advance(line, i, mode).value;
      var w' := Emit(line, i, mode, w);
      LexGrows(line, next.0, next.1, w');
      FittingIsParsed(line, next.0, next.1, w');
    }
  }

  // ---------------------------------------------------------------------------
  // Errors are the automaton's.

  /** The unlimited parser fails exactly where the automaton does. */
  lemma {:induction false} LexFollowsModes(line: Bytes, i: nat, mode: Mode, w: Words)
    requires i <= |line|
    ensures LexFrom(line, i, mode, w).Ok? <==> ModeAt(line, i, mode, |line|) == Some(Unquoted)
    ensures LexFrom(line, i, mode, w) == Err(TrailingBackslash) <==> ModeAt(line, i, mode, |line|).None?
    decreases |line| - i
  {
    hide Emit;
    if i < |line| {
      var next := Advance(line, i, mode);
      if next.Some? {
        LexFollowsModes(line, next.value.0, next.value.1, Emit(line, i, mode, w));
      }
    }
  }

  /** Before trimming, a segment of an accepted line always tokenizes, up to capacity. */
  lemma UntrimmedSegmentParses(line: Bytes, s: Segment)
    requires SegmentOk(line, s)
    ensures Lex(line[s.rawStart..s.rawEnd]).Ok?
    ensures Parsed(line[s.rawStart..s.rawEnd]).Ok? || Parsed(line[s.rawStart..s.rawEnd]) == Err(ResourceUnavailable)
  {
    hide OperatorAt, Clean;
    var part := line[s.rawStart..s.rawEnd];
    ModeInSlice(line, s.rawStart, s.rawEnd, s.rawStart, Unquoted, s.rawEnd);
    LexFollowsModes(part, 0, Unquoted, Words([], None));
    ParseAgrees(part, 0, Unquoted, Words([], None));
  }

  // ---------------------------------------------------------------------------
  // Trimming.

  /** Spaces are passed one by one and change no mode. */
  lemma {:induction false} OverSpaces(line: Bytes, i: nat, mode: Mode, to: nat)
    requires i <= to <= |line| && forall k :: i <= k < to ==> line[k] == SPACE
    ensures ModeAt(line, i, mode, to) == Some(mode)
    decreases |line| - i
  {
    if i < to {
      OverSpaces(line, i + 1, mode, to);
    }
  }

  /** A backslash at `to - 1` that is not itself escaped or single-quoted swallows what follows. */
  ghost predicate EscapesNext(line: Bytes, from: nat, to: nat)
    requires from <= to <= |line|
  {
    from < to && line[to - 1] == BACKSLASH && ModeAt(line, from, Unquoted, to - 1) == Some(Unquoted)
  }

  /** If only spaces follow `to` and the automaton ends unquoted, it was unquoted at `to`, or
      jumped over it with an unquoted backslash. */
  lemma {:induction false} BeforeSpaces(line: Bytes, i: nat, mode: Mode, to: nat, end: nat)
    requires i <= to <= end <= |line| && forall k :: to <= k < end ==> line[k] == SPACE
    requires ModeAt(line, i, mode, end) == Some(Unquoted)
    ensures || ModeAt(line, i, mode, to) == Some(Unquoted)
            || (ModeAt(line, i, mode, to).None? && i < to < end && line[to - 1] == BACKSLASH
                && ModeAt(line, i, mode, to - 1) == Some(Unquoted))
    decreases |line| - i
  {
    if i == to {
      OverSpaces(line, to, mode, end);
    } else {
      var next := Advance(line, i, mode).value;
      ArrivesForward(line, next.0, next.1, end);
      if next.0 <= to {
        BeforeSpaces(line, next.0, next.1, to, end);
      } else {
        OverSpaces(line, to + 1, mode, end);
      }
    }
  }

  /** After trimming, tokenizing can fail for capacity, or with TrailingBackslash exactly when an
      unquoted backslash escaped the first space trimmed from the end. */
  lemma TrimmedSegmentParses(line: Bytes, s: Segment)
    requires SegmentOk(line, s)
    ensures var r := Parsed(line[s.start..s.end]);
            || r == Err(ResourceUnavailable)
            || (r == Err(TrailingBackslash) && s.end < s.rawEnd && EscapesNext(line, s.start, s.end))
            || (r.Ok? && !(s.end < s.rawEnd && EscapesNext(line, s.start, s.end)))
    ensures var escaped := s.end < s.rawEnd && EscapesNext(line, s.start, s.end);
            && (Lex(line[s.start..s.end]) == Err(TrailingBackslash) <==> escaped)
            && (Lex(line[s.start..s.end]).Ok? <==> !escaped)
  {
    hide Clean, LexFrom, ParseFrom, ModeAt;
    var part := line[s.start..s.end];
    TrimmedModes(line, s);
    LexFollowsModes(part, 0, Unquoted, Words([], None));
    ParseAgrees(part, 0, Unquoted, Words([], None));
  }

  /** The automaton over a trimmed segment ends unquoted, or stops on the backslash that escaped
      the first trimmed space. */
  lemma TrimmedModes(line: Bytes, s: Segment)
    requires SegmentOk(line, s)
    ensures var escaped := s.end < s.rawEnd && EscapesNext(line, s.start, s.end);
            ModeAt(line[s.start..s.end], 0, Unquoted, s.end - s.start) == if escaped then None else Some(Unquoted)
  {
    hide Clean;
    var part := line[s.start..s.end];
    OverSpaces(line, s.rawStart, Unquoted, s.start);
    ModeComposes(line, s.rawStart, Unquoted, s.start, s.rawEnd);
    BeforeSpaces(line, s.start, Unquoted, s.end, s.rawEnd);
    if ModeAt(line, s.start, Unquoted, s.end).Some? {
      ModeInSlice(line, s.start, s.end, s.start, Unquoted, s.end);
      NoEscapeAt(line, s.start, s.end);
    } else {
      ModeInSlice(line, s.start, s.end, s.start, Unquoted, s.end - 1);
      StuckAtEnd(part);
    }
  }

  lemma NoEscapeAt(line: Bytes, from: nat, to: nat)
    requires from <= to <= |line| && ModeAt(line, from, Unquoted, to).Some?
    ensures to < |line| ==> !EscapesNext(line, from, to)
  {
    if from < to && ModeAt(line, from, Unquoted, to - 1) == Some(Unquoted) {
      ModeComposes(line, from, Unquoted, to - 1, to);
    }
  }

  /** A backslash as the last byte, unquoted, stops the automaton. */
  lemma StuckAtEnd(line: Bytes)
    requires |line| > 0 && line[|line| - 1] == BACKSLASH && ModeAt(line, 0, Unquoted, |line| - 1) == Some(Unquoted)
    ensures ModeAt(line, 0, Unquoted, |line|).None?
  {
    ModeComposes(line, 0, Unquoted, |line| - 1, |line|);
  }

  lemma TrimsSpace(bytes: Bytes, start: nat, end: nat)
    requires start < end <= |bytes| && bytes[end - 1] == SPACE
    ensures TrimEnd(bytes, start, end) == TrimEnd(bytes, start, end - 1)
  {
  }

  /** The line `a\ ` is accepted by the scan, as one segment whose trimmed part `a\` does not tokenize. */
  lemma TrimmingCanBreak()
    ensures var line: Bytes := [97, BACKSLASH, SPACE];
            && Scan(line) == Ok([Segment(0, 3, 0, 2, None)])
            && Lex(line[0..3]).Ok? && Parsed(line[0..2]) == Err(TrailingBackslash)
  {
    var line: Bytes := [97, BACKSLASH, SPACE];
    assert Advance(line, 0, Unquoted) == Some((1, Unquoted)) && Advance(line, 1, Unquoted) == Some((3, Unquoted));
    assert OperatorAt(line, 0).None? && OperatorAt(line, 1).None?;
    assert TrimStart(line, 0, 3) == 0;
    assert TrimEnd(line, 0, 2) == 2;
    TrimsSpace(line, 0, 3);
    assert Trimmed(line, 0, 3, None) == Segment(0, 3, 0, 2, None);
    var none: seq<Segment> := [];
    assert none + [Segment(0, 3, 0, 2, None)] == [Segment(0, 3, 0, 2, None)];
    assert ScanFrom(line, 3, Unquoted, 0, none) == Ok([Segment(0, 3, 0, 2, None)]);
    assert ScanFrom(line, 1, Unquoted, 0, []) == ScanFrom(line, 3, Unquoted, 0, []);
    assert line[0..3] == line;
    LexFollowsModes(line, 0, Unquoted, Words([], None));
    assert ModeAt(line, 1, Unquoted, 3) == ModeAt(line, 3, Unquoted, 3);
    var part := line[0..2];
    assert part[0] == 97 && part[1] == BACKSLASH;
    assert Advance(part, 0, Unquoted) == Some((1, Unquoted)) && Advance(part, 1, Unquoted) == None;
    var w := Emit(part, 0, Unquoted, Words([], None));
    assert w == Words([], Some([97])) by { var none: Bytes := []; assert none + [97] == [97]; }
    assert ParseFrom(part, 1, Unquoted, w) == Err(TrailingBackslash);
  }

  // ---------------------------------------------------------------------------
  // In place.

  class TokenizedCommand {
    const storage: array<Byte>
    const offsets: array<nat>
    const lengths: array<nat>
    var count: nat

    ghost predicate Valid()
      reads this
    {
      && storage.Length == LINE_CAPACITY && offsets.Length == lengths.Length == MAX_COMMAND_ARGS
      && offsets != lengths && count <= MAX_COMMAND_ARGS
    }

    /** Tokens lie one behind the other. */
    ghost predicate Laid(w: Words)
      requires Valid()
      reads this, storage, offsets, lengths
    {
      && count == |w.done| && |Flat(w.done)| + |w.Opened()| <= LINE_CAPACITY
      && storage[..|Flat(w.done)| + |w.Opened()|] == Flat(w.done) + w.Opened()
      && (forall i :: 0 <= i < count ==> offsets[i] == |Flat(w.done[..i])| && lengths[i] == |w.done[i]|)
      && (w.current.Some? ==> count < MAX_COMMAND_ARGS && offsets[count] == |Flat(w.done)|)
    }

    constructor ()
      ensures Valid() && Laid(Words([], None)) && fresh(storage) && fresh(offsets) && fresh(lengths)
    {
      storage := new Byte[LINE_CAPACITY](_ => 0);
      offsets := new nat[MAX_COMMAND_ARGS](_ => 0);
      lengths := new nat[MAX_COMMAND_ARGS](_ => 0);
      count := 0;
    }

    /** Starts a token unless one is open. */
    method StartToken(storageLen: nat, active: bool, ghost w: Words) returns (ok: bool)
      requires Valid() && Laid(w) && active == w.current.Some? && storageLen == |Flat(w.done)| + |w.Opened()|
      modifies this, offsets, lengths
      ensures Valid() && ok == !Over(w.(current := Some(w.Opened())))
      ensures ok ==> Laid(w.(current := Some(w.Opened())))
    {
      if active {
        assert w.(current := Some(w.Opened())) == w;
        return true;
      }
      if count >= offsets.Length { return false; }
      offsets[count] := storageLen;
      lengths[count] := 0;
      return true;
    }

    method FinishToken(tokenLen: nat, ghost w: Words)
      requires Valid() && Laid(w) && w.current.Some? && tokenLen == |w.current.value|
      modifies this, lengths
      ensures Valid() && Laid(Words(w.done + [w.current.value], None))
    {
      ghost var longer := w.done + [w.current.value];
      FlatPush(w.done, w.current.value);
      lengths[count] := tokenLen;
      count := count + 1;
      assert forall i :: 0 <= i < |w.done| ==> longer[..i] == w.done[..i];
      assert longer[..|w.done|] == w.done;
    }

    method PushTokenByte(storageLen: nat, byte: Byte, ghost w: Words) returns (ok: bool)
      requires Valid() && Laid(w) && w.current.Some? && storageLen == |Flat(w.done)| + |w.Opened()|
      modifies storage
      ensures Valid() && ok == !Over(w.(current := Some(w.Opened() + [byte])))
      ensures ok ==> Laid(w.(current := Some(w.Opened() + [byte])))
    {
      if storageLen >= storage.Length { return false; }
      ghost var before := storage[..storageLen];
      storage[storageLen] := byte;
      assert storage[..storageLen + 1] == before + [byte];
      return true;
    }

    /** Opens a token if necessary and appends one byte to it. */
    method AppendByte(storageLen: nat, active: bool, byte: Byte, ghost w: Words) returns (ok: bool)
      requires Valid() && Laid(w) && active == w.current.Some? && storageLen == |Flat(w.done)| + |w.Opened()|
      modifies this, storage, offsets, lengths
      ensures Valid() && ok == !Over(w.(current := Some(w.Opened() + [byte])))
      ensures ok ==> Laid(w.(current := Some(w.Opened() + [byte])))
    {
      ok := StartToken(storageLen, active, w);
      if !ok { return; }
      ok := PushTokenByte(storageLen, byte, w.(current := Some(w.Opened())));
    }

    /** Token `i`, cut out of the storage. */
    method Token(i: nat, ghost tokens: seq<Bytes>) returns (token: Option<Bytes>)
      requires Valid() && Laid(Words(tokens, None))
      ensures token == if i < |tokens| then Some(tokens[i]) else None
    {
      hide Flat;
      if i >= count { return None; }
      ghost var w, a, n := Words(tokens, None), |Flat(tokens[..i])|, |Flat(tokens)|;
      FlatSlice(tokens, i);
      assert w.Opened() == [] && Flat(tokens) + w.Opened() == Flat(tokens);
      assert storage[..n] == Flat(tokens);
      assert storage[..n][a..a + |tokens[i]|] == storage[a..a + |tokens[i]|];
      return Some(storage[offsets[i]..offsets[i] + lengths[i]]);
    }
  }

  lemma {:induction false} FlatSlice(tokens: seq<Bytes>, i: nat)
    requires i < |tokens|
    ensures |Flat(tokens[..i])| + |tokens[i]| <= |Flat(tokens)|
    ensures Flat(tokens)[|Flat(tokens[..i])|..|Flat(tokens[..i])| + |tokens[i]|] == tokens[i]
    decreases |tokens|
  {
    var n := |tokens| - 1;
    if i < n {
      FlatSlice(tokens[..n], i);
      assert tokens[..n][..i] == tokens[..i];
      assert Flat(tokens)[|Flat(tokens[..i])|..|Flat(tokens[..i])| + |tokens[i]|]
          == Flat(tokens[..n])[|Flat(tokens[..i])|..|Flat(tokens[..i])| + |tokens[i]|];
    } else {
      assert tokens[..i] == tokens[..n];
    }
  }

  /** `TokenizedCommand::parse`. */
  method Parse(line: Bytes) returns (command: TokenizedCommand, r: Result<(), ParseError>)
    ensures command.Valid()
    ensures r.Err? ==> Parsed(line) == Err(r.error)
    ensures r.Ok? ==> Parsed(line).Ok? && command.Laid(Words(Parsed(line).value, None))
  {
    hide Flat, TokenizedCommand.Laid;
    command := new TokenizedCommand();
    var index: nat, mode, storageLen: nat, currentLen: nat, active := 0, Unquoted, 0, 0, false;
    ghost var w := Words([], None);
    EmptyFlat();
    while index < |line|
      invariant index <= |line| && fresh(command) && fresh(command.storage) && fresh(command.offsets)
      invariant fresh(command.lengths)
      invariant command.Valid() && command.Laid(w) && active == w.current.Some?
      invariant storageLen == |Flat(w.done)| + |w.Opened()| && currentLen == |w.Opened()|
      invariant ParseFrom(line, index, mode, w) == Parsed(line)
    {
      var byte := line[index];
      var next := Advance(line, index, mode);
      if next.None? { return command, Err(TrailingBackslash); }
      ghost var w' := Emit(line, index, mode, w);
      if mode == Unquoted && byte == SPACE {
        if active {
          FlatPush(w.done, w.current.value);
          command.FinishToken(currentLen, w);
          currentLen, active := 0, false;
        }
      } else if mode == Unquoted && (byte == SINGLE_QUOTE || byte == DOUBLE_QUOTE) {
        var ok := command.StartToken(storageLen, active, w);
        if !ok { return command, Err(ResourceUnavailable); }
        active := true;
      } else if (mode == SingleQuoted && byte == SINGLE_QUOTE) || (mode == DoubleQuoted && byte == DOUBLE_QUOTE) {
        // A closing quote adds nothing.
      } else {
        var content := if mode != SingleQuoted && byte == BACKSLASH then line[index + 1] else byte;
        var ok := command.AppendByte(storageLen, active, content, w);
        if !ok { return command, Err(ResourceUnavailable); }
        storageLen, currentLen, active := storageLen + 1, currentLen + 1, true;
      }
      w := w';
      LaidFits(command, w);
      index, mode := next.value.0, next.value.1;
    }
    if mode == SingleQuoted { return command, Err(UnmatchedSingleQuote); }
    if mode == DoubleQuoted { return command, Err(UnmatchedDoubleQuote); }
    if active {
      command.FinishToken(currentLen, w);
    }
    return command, Ok(());
  }

  lemma LaidFits(command: TokenizedCommand, w: Words)
    requires command.Valid() && command.Laid(w)
    ensures !Over(w)
  {
  }

  lemma EmptyFlat()
    ensures Flat([]) == []
  {
  }

  // ---------------------------------------------------------------------------
  // Quoting.

  /** Every byte behind a backslash. */
  function Escaped(word: Bytes): Bytes {
    if word == [] then [] else [BACKSLASH, word[0]] + Escaped(word[1..])
  }

  /** A word that tokenizes to itself: escaped, or an empty pair of quotes. */
  function QuotedWord(word: Bytes): Bytes {
    if word == [] then [SINGLE_QUOTE, SINGLE_QUOTE] else Escaped(word)
  }

  /** A command line for a list of words. */
  function CommandLine(words: seq<Bytes>): Bytes {
    if words == [] then [] else QuotedWord(words[0]) + [SPACE] + CommandLine(words[1..])
  }

  lemma EscapeStep(front: Bytes, b: Byte, rest: Bytes, w: Words)
    ensures LexFrom(front + [BACKSLASH, b] + rest, |front|, Unquoted, w) ==
            LexFrom(front + [BACKSLASH, b] + rest, |front| + 2, Unquoted, w.(current := Some(w.Opened() + [b])))
  {
    var line := front + [BACKSLASH, b] + rest;
    assert line[|front|] == BACKSLASH && line[|front| + 1] == b;
  }

  lemma Regroup(a: Bytes, b: Bytes, c: Bytes, d: Bytes)
    ensures a + (b + c) + d == (a + b) + (c + d)
    ensures (a + b) + (c + d) == (a + b) + c + d
  {
  }

  /** The words with more bytes in the one that is open. */
  function Extended(w: Words, more: Bytes): Words {
    if more == [] then w else w.(current := Some(w.Opened() + more))
  }

  lemma {:induction false} LexEscaped(front: Bytes, word: Bytes, rest: Bytes, w: Words)
    ensures LexFrom(front + Escaped(word) + rest, |front|, Unquoted, w) ==
            LexFrom(front + Escaped(word) + rest, |front| + |Escaped(word)|, Unquoted, Extended(w, word))
    decreases |word|
  {
    hide LexFrom;
    if word != [] {
      var pair, tail, longer := [BACKSLASH, word[0]], Escaped(word[1..]), w.(current := Some(w.Opened() + [word[0]]));
      Regroup(front, pair, tail, rest);
      EscapeStep(front, word[0], tail + rest, w);
      LexEscaped(front + pair, word[1..], rest, longer);
      assert Extended(longer, word[1..]) == Extended(w, word) by {
        assert longer.Opened() + word[1..] == w.Opened() + word;
        if word[1..] == [] { assert longer.Opened() == longer.Opened() + word[1..]; }
      }
      assert front + Escaped(word) + rest == front + pair + tail + rest;
      assert |front + pair| + |tail| == |front| + |Escaped(word)|;
    }
  }

  lemma QuotesStep(front: Bytes, rest: Bytes, done: seq<Bytes>)
    ensures LexFrom(front + [SINGLE_QUOTE, SINGLE_QUOTE] + rest, |front|, Unquoted, Words(done, None)) ==
            LexFrom(front + [SINGLE_QUOTE, SINGLE_QUOTE] + rest, |front| + 2, Unquoted, Words(done, Some([])))
  {
    var line := front + [SINGLE_QUOTE, SINGLE_QUOTE] + rest;
    assert line[|front|] == SINGLE_QUOTE && line[|front| + 1] == SINGLE_QUOTE;
    assert LexFrom(line, |front| + 1, SingleQuoted, Words(done, Some([]))) ==
             LexFrom(line, |front| + 2, Unquoted, Words(done, Some([])));
  }

  lemma LexQuotedWord(front: Bytes, word: Bytes, rest: Bytes, done: seq<Bytes>)
    ensures var line := front + QuotedWord(word) + rest;
            LexFrom(line, |front|, Unquoted, Words(done, None)) ==
            LexFrom(line, |front| + |QuotedWord(word)|, Unquoted, Words(done, Some(word)))
  {
    hide LexFrom, Escaped;
    if word == [] {
      QuotesStep(front, rest, done);
    } else {
      LexEscaped(front, word, rest, Words(done, None));
      var empty: Bytes := [];
      assert empty + word == word;
    }
  }

  lemma SpaceStep(front: Bytes, rest: Bytes, done: seq<Bytes>, word: Bytes)
    ensures LexFrom(front + [SPACE] + rest, |front|, Unquoted, Words(done, Some(word))) ==
            LexFrom(front + [SPACE] + rest, |front| + 1, Unquoted, Words(done + [word], None))
  {
    var line := front + [SPACE] + rest;
    assert line[|front|] == SPACE;
  }

  lemma SameLine(front: Bytes, word: Bytes, rest: Bytes)
    ensures front + (word + [SPACE] + rest) == front + word + ([SPACE] + rest)
    ensures front + word + ([SPACE] + rest) == (front + word) + [SPACE] + rest
    ensures (front + word) + [SPACE] + rest == (front + word + [SPACE]) + rest
  {
  }

  lemma {:induction false} LexCommandLine(front: Bytes, words: seq<Bytes>, done: seq<Bytes>)
    ensures LexFrom(front + CommandLine(words), |front|, Unquoted, Words(done, None)) == Ok(done + words)
    decreases |words|
  {
    hide LexFrom, QuotedWord;
    if words == [] {
      assert done + words == done;
      assert front + CommandLine(words) == front;
      LexNothing(front, done);
    } else {
      var word, rest := QuotedWord(words[0]), CommandLine(words[1..]);
      SameLine(front, word, rest);
      LexQuotedWord(front, words[0], [SPACE] + rest, done);
      SpaceStep(front + word, rest, done, words[0]);
      LexCommandLine(front + word + [SPACE], words[1..], done + [words[0]]);
      assert done + words == done + [words[0]] + words[1..];
    }
  }

  lemma LexNothing(line: Bytes, done: seq<Bytes>)
    ensures LexFrom(line, |line|, Unquoted, Words(done, None)) == Ok(done)
  {
  }

  /** Any words, empty ones and special bytes included, can be put on a command line from which
      the parser recovers exactly them. */
  lemma QuotingRoundTrip(words: seq<Bytes>)
    ensures Lex(CommandLine(words)) == Ok(words)
    ensures |words| <= MAX_COMMAND_ARGS && |Flat(words)| <= LINE_CAPACITY ==> Parsed(CommandLine(words)) == Ok(words)
  {
    var none: Bytes := [];
    assert none + CommandLine(words) == CommandLine(words);
    LexCommandLine(none, words, []);
    assert [] + words == words;
    if |words| <= MAX_COMMAND_ARGS && |Flat(words)| <= LINE_CAPACITY {
      FittingIsParsed(CommandLine(words), 0, Unquoted, Words([], None));
    }
  }
}
