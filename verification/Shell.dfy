// Running a line (user/lash/src/shell.rs:44-120): the flat loop over segments,
// the tree of `&&`, `||` and `;` it evaluates, and which bracketings of such a
// tree mean the same.
module Shells {
  import opened Prelude
  import opened Quoting
  import opened Tokens

  const EXIT_COMMAND: Bytes := [101, 120, 105, 116]

  /** Everything a segment can do to the world `W`: run a command with its arguments, report an
      unusable name, report a parse error. `isText` is UTF-8 validity. */
  datatype Commands<!W> = Commands(
    run: (W, seq<Bytes>) -> (W, nat),
    notFound: (W, Bytes) -> W,
    complain: (W, ParseError) -> W,
    isText: Bytes -> bool)

  /** The world, the last status, whether the shell has left, and the segments executed so far. */
  datatype State<W> = State(world: W, status: nat, exited: bool, ran: seq<Bytes>)

  /** The shell behind `part`. `exit` never returns. */
  function Executed<W>(commands: Commands<W>, part: Bytes, s: State<W>): State<W> {
    var ran := s.ran + [part];
    match Parsed(part)
    case Err(e) => State(commands.complain(s.world, e), 1, false, ran)
    case Ok(tokens) =>
      if tokens == [] then State(s.world, 0, false, ran)
      else
        var name := if commands.isText(tokens[0]) then tokens[0] else [];
        if name == EXIT_COMMAND then State(s.world, 0, true, ran)
        else if name == [] then State(commands.notFound(s.world, name), 1, false, ran)
        else var (world, status) := commands.run(s.world, tokens); State(world, status, false, ran)
  }

  // ---------------------------------------------------------------------------
  // Trees of commands.

  datatype Tree = Leaf(part: Bytes) | Node(left: Tree, operator: SegmentOperator, right: Tree)

  /** Whether what follows the operator runs. */
  predicate Permits(operator: SegmentOperator, status: nat) {
    match operator
    case And => status == 0
    case Or => status != 0
    case Sequence => true
  }

  function Eval<W>(commands: Commands<W>, t: Tree, s: State<W>): State<W> {
    match t
    case Leaf(part) => Executed(commands, part, s)
    case Node(left, operator, right) =>
      var behind := Eval(commands, left, s);
      if !behind.exited && Permits(operator, behind.status) then Eval(commands, right, behind) else behind
  }

  function Leaves(t: Tree): seq<Bytes> {
    match t
    case Leaf(part) => [part]
    case Node(left, _, right) => Leaves(left) + Leaves(right)
  }

  function Operators(t: Tree): seq<SegmentOperator> {
    match t
    case Leaf(_) => []
    case Node(left, operator, right) => Operators(left) + [operator] + Operators(right)
  }

  /** Equal precedence, associated to the left. */
  predicate LeftLeaning(t: Tree) {
    t.Node? ==> LeftLeaning(t.left) && t.right.Leaf?
  }

  /** Segments inside the line, with operators between them. */
  predicate Readable(line: Bytes, found: seq<Segment>) {
    && (forall i :: 0 <= i < |found| ==> found[i].start <= found[i].end <= |line|)
    && (forall i :: 0 <= i < |found| - 1 ==> found[i].operator.Some?)
  }

  function Part(line: Bytes, found: seq<Segment>, i: nat): Bytes
    requires Readable(line, found) && i < |found|
  {
    line[found[i].start..found[i].end]
  }

  /** The first `n` segments, read with equal precedence from the left. */
  function LeftTree(line: Bytes, found: seq<Segment>, n: nat): Tree
    requires Readable(line, found) && 0 < n <= |found|
  {
    if n == 1 then Leaf(Part(line, found, 0))
    else Node(LeftTree(line, found, n - 1), found[n - 2].operator.value, Leaf(Part(line, found, n - 1)))
  }

  /** The tree has the segments as leaves and the operators between them, in order. */
  lemma {:induction false} LeftTreeReads(line: Bytes, found: seq<Segment>, n: nat)
    requires Readable(line, found) && 0 < n <= |found|
    ensures var t := LeftTree(line, found, n);
            && LeftLeaning(t) && |Leaves(t)| == n && |Operators(t)| == n - 1
            && (forall i :: 0 <= i < n ==> Leaves(t)[i] == Part(line, found, i))
            && (forall i :: 0 <= i < n - 1 ==> Operators(t)[i] == found[i].operator.value)
  {
    if n > 1 {
      LeftTreeReads(line, found, n - 1);
    }
  }

  lemma {:induction false} Sizes(t: Tree)
    ensures |Leaves(t)| == |Operators(t)| + 1
  {
    if t.Node? {
      Sizes(t.left);
      Sizes(t.right);
    }
  }

  /** Leaves and operators determine a left-leaning tree. */
  lemma {:induction false} LeftLeaningIsUnique(a: Tree, b: Tree)
    requires LeftLeaning(a) && LeftLeaning(b) && Leaves(a) == Leaves(b) && Operators(a) == Operators(b)
    ensures a == b
  {
    Sizes(a);
    Sizes(b);
    if a.Node? {
      var n := |Operators(a.left)|;
      Sizes(a.left);
      Sizes(b.left);
      assert Operators(a)[..n] == Operators(a.left) && Operators(b)[..n] == Operators(b.left);
      assert Operators(a)[n] == a.operator && Operators(b)[n] == b.operator;
      assert Leaves(a)[..n + 1] == Leaves(a.left) && Leaves(b)[..n + 1] == Leaves(b.left);
      assert Leaves(a)[n + 1] == a.right.part && Leaves(b)[n + 1] == b.right.part;
      LeftLeaningIsUnique(a.left, b.left);
    }
  }

  // ---------------------------------------------------------------------------
  // The flat loop.

  /** What a line does: a parse error is status 1, nothing at all status 0, and otherwise the
      left-associated tree of its segments is evaluated. */
  function LineResult<W>(commands: Commands<W>, line: Bytes, world: W): State<W> {
    match Scan(line)
    case Err(e) => State(commands.complain(world, e), 1, false, [])
    case Ok(found) =>
      if found == [] then State(world, 0, false, [])
      else
        ScanIsReadable(line);
        Eval(commands, LeftTree(line, found, |found|), State(world, 0, false, []))
  }

  lemma ScanIsReadable(line: Bytes)
    requires Scan(line).Ok?
    ensures Readable(line, Scan(line).value)
  {
    hide Clean, ModeAt;
    AcceptedScan(line);
  }

  method ExecuteLine<W>(commands: Commands<W>, line: Bytes, world: W) returns (s: State<W>)
    ensures s == LineResult(commands, line, world)
    ensures Scan(line).Err? ==> s == State(commands.complain(world, Scan(line).error), 1, false, [])
    ensures Scan(line) == Ok([]) ==> s == State(world, 0, false, [])
  {
    hide Executed, Scan;
    var scan, r := ScanSegments(line);
    if r.Err? { return State(commands.complain(world, r.error), 1, false, []); }
    if scan.count == 0 { return State(world, 0, false, []); }
    ghost var found := Scan(line).value;
    ScanIsReadable(line);
    s := State(world, 0, false, []);
    ghost var start := s;
    var index := 0;
    while index < scan.count
      invariant index <= scan.count == |found| && scan.Valid() && scan.Holds(found)
      invariant index == 0 ==> s == start
      invariant index > 0 ==> s == Eval(commands, LeftTree(line, found, index), start) && !s.exited
    {
      var shouldRun := index == 0 || Permits(scan.operators[index - 1], s.status);
      if shouldRun {
        s := ExecuteSegment(commands, line[scan.starts[index]..scan.ends[index]], s);
        if s.exited {
          ExitEnds(commands, line, found, index + 1, |found|, start);
          return;
        }
      }
      index := index + 1;
    }
  }

  method ExecuteSegment<W>(commands: Commands<W>, part: Bytes, s: State<W>) returns (r: State<W>)
    ensures r == Executed(commands, part, s) && r.ran == s.ran + [part]
    ensures Parsed(part).Err? ==>
              r.world == commands.complain(s.world, Parsed(part).error) && r.status == 1 && !r.exited
    ensures Parsed(part) == Ok([]) ==> r.world == s.world && r.status == 0 && !r.exited
    ensures Parsed(part).Ok? && Parsed(part).value != [] ==>
              var tokens := Parsed(part).value;
              if commands.isText(tokens[0]) && tokens[0] == [101, 120, 105, 116]
              then r.world == s.world && r.exited
              else if !commands.isText(tokens[0]) || tokens[0] == []
              then r.world == commands.notFound(s.world, []) && r.status == 1 && !r.exited
              else (r.world, r.status) == commands.run(s.world, tokens) && !r.exited
  {
    var command, parsed := Parse(part);
    var ran := s.ran + [part];
    if parsed.Err? { return State(commands.complain(s.world, parsed.error), 1, false, ran); }
    if command.count == 0 { return State(s.world, 0, false, ran); }
    var tokens := AllTokens(command, Parsed(part).value);
    var name := if commands.isText(tokens[0]) then tokens[0] else [];
    if name == EXIT_COMMAND { return State(s.world, 0, true, ran); }
    if name == [] { return State(commands.notFound(s.world, name), 1, false, ran); }
    var (world, status) := commands.run(s.world, tokens);
    return State(world, status, false, ran);
  }

  method AllTokens(command: TokenizedCommand, ghost expected: seq<Bytes>) returns (tokens: seq<Bytes>)
    requires command.Valid() && command.Laid(Words(expected, None))
    ensures tokens == expected
  {
    tokens := [];
    while |tokens| < command.count
      invariant |tokens| <= |expected| == command.count && tokens == expected[..|tokens|]
    {
      var token := command.Token(|tokens|, expected);
      tokens := tokens + [token.value];
    }
  }

  /** Once the shell has left, the rest of the tree changes nothing. */
  lemma {:induction false} ExitEnds<W>(commands: Commands<W>, line: Bytes, found: seq<Segment>, n: nat, m: nat,
                                       s: State<W>)
    requires Readable(line, found) && 0 < n <= m <= |found|
    requires Eval(commands, LeftTree(line, found, n), s).exited
    ensures Eval(commands, LeftTree(line, found, m), s) == Eval(commands, LeftTree(line, found, n), s)
    decreases m
  {
    hide Executed;
    if n < m {
      ExitEnds(commands, line, found, n, m - 1, s);
    }
  }

  // ---------------------------------------------------------------------------
  // Which segments run.

  /** A segment runs behind `&&` when the last status is 0, behind `||` when it is not, behind `;` always,
      and not at all once the shell has left; otherwise everything stays as it is, the status too. */
  lemma SegmentRuns<W>(commands: Commands<W>, line: Bytes, found: seq<Segment>, i: nat, s: State<W>)
    requires Readable(line, found) && 0 < i < |found|
    ensures Eval(commands, LeftTree(line, found, 1), s) == Executed(commands, Part(line, found, 0), s)
    ensures var before := Eval(commands, LeftTree(line, found, i), s);
            var operator := found[i - 1].operator.value;
            var runs :=
              !before.exited && (operator == And ==> before.status == 0) && (operator == Or ==> before.status != 0);
            Eval(commands, LeftTree(line, found, i + 1), s) ==
              if runs then Executed(commands, Part(line, found, i), before) else before
  {
    hide Executed;
  }

  function Parts(line: Bytes, found: seq<Segment>, n: nat): (parts: seq<Bytes>)
    requires Readable(line, found) && n <= |found|
    ensures |parts| == n
  {
    if n == 0 then [] else Parts(line, found, n - 1) + [Part(line, found, n - 1)]
  }

  /** One after the other, whatever their statuses. */
  function InTurn<W>(commands: Commands<W>, parts: seq<Bytes>, s: State<W>): State<W> {
    if parts == [] then s
    else Executed(commands, parts[|parts| - 1], InTurn(commands, parts[..|parts| - 1], s))
  }

  /** The first `k` of these parts run, and the first that goes wrong is the last. */
  ghost predicate StopsBehind<W>(commands: Commands<W>, parts: seq<Bytes>, s: State<W>, k: nat, r: State<W>,
                                 goesOn: State<W> -> bool) {
    && 0 < k <= |parts| && r == InTurn(commands, parts[..k], s)
    && (forall j :: 0 < j < k ==> goesOn(InTurn(commands, parts[..j], s)))
    && (k < |parts| ==> !goesOn(r))
  }

  /** With one operator throughout, segments run up to the first behind which it does not permit the next. */
  lemma {:induction false} ChainStops<W>(commands: Commands<W>, line: Bytes, found: seq<Segment>, n: nat,
                                         s: State<W>, operator: SegmentOperator, goesOn: State<W> -> bool)
    returns (k: nat)
    requires Readable(line, found) && 0 < n <= |found|
    requires forall i :: 0 <= i < |found| - 1 ==> found[i].operator == Some(operator)
    requires forall r: State<W> :: goesOn(r) <==> !r.exited && Permits(operator, r.status)
    ensures StopsBehind(commands, Parts(line, found, n), s, k, Eval(commands, LeftTree(line, found, n), s), goesOn)
  {
    hide Executed, Permits;
    var parts := Parts(line, found, n);
    if n == 1 {
      k := 1;
      assert parts == [] + [Part(line, found, 0)] && parts[..1] == parts;
      InTurnPush(commands, [], Part(line, found, 0), s);
    } else {
      k := ChainStops(commands, line, found, n - 1, s, operator, goesOn);
      var front, part := Parts(line, found, n - 1), Part(line, found, n - 1);
      assert parts == front + [part];
      forall j | 0 <= j < n ensures parts[..j] == front[..j] {
      }
      var before := Eval(commands, LeftTree(line, found, n - 1), s);
      assert found[n - 2].operator == Some(operator);
      assert Eval(commands, LeftTree(line, found, n), s) == if goesOn(before) then Executed(commands, part, before)
                                                            else before;
      if k == n - 1 && goesOn(before) {
        InTurnPush(commands, front, part, s);
        assert front[..n - 1] == front && parts[..n] == parts;
        k := n;
      }
    }
  }

  lemma InTurnPush<W>(commands: Commands<W>, front: seq<Bytes>, part: Bytes, s: State<W>)
    ensures InTurn(commands, front + [part], s) == Executed(commands, part, InTurn(commands, front, s))
  {
    hide Executed;
    assert (front + [part])[..|front|] == front;
  }

  predicate Succeeded<W>(r: State<W>) { !r.exited && r.status == 0 }

  predicate Failed<W>(r: State<W>) { !r.exited && r.status != 0 }

  predicate Stayed<W>(r: State<W>) { !r.exited }

  /** With `&&` throughout, segments run up to the first with a status other than 0, and the status of the
      last that ran is the line's. */
  lemma AllAnd<W>(commands: Commands<W>, line: Bytes, found: seq<Segment>, s: State<W>) returns (k: nat)
    requires Readable(line, found) && found != []
    requires forall i :: 0 <= i < |found| - 1 ==> found[i].operator == Some(And)
    ensures StopsBehind(commands, Parts(line, found, |found|), s, k,
                        Eval(commands, LeftTree(line, found, |found|), s),
                        Succeeded)
  {
    hide Executed;
    k := ChainStops(commands, line, found, |found|, s, And, Succeeded);
  }

  /** With `||` throughout, up to the first with status 0. */
  lemma AllOr<W>(commands: Commands<W>, line: Bytes, found: seq<Segment>, s: State<W>) returns (k: nat)
    requires Readable(line, found) && found != []
    requires forall i :: 0 <= i < |found| - 1 ==> found[i].operator == Some(Or)
    ensures StopsBehind(commands, Parts(line, found, |found|), s, k,
                        Eval(commands, LeftTree(line, found, |found|), s),
                        Failed)
  {
    hide Executed;
    k := ChainStops(commands, line, found, |found|, s, Or, Failed);
  }

  /** With `;` throughout, all of them, up to an `exit`. */
  lemma AllSequence<W>(commands: Commands<W>, line: Bytes, found: seq<Segment>, s: State<W>) returns (k: nat)
    requires Readable(line, found) && found != []
    requires forall i :: 0 <= i < |found| - 1 ==> found[i].operator == Some(Sequence)
    ensures StopsBehind(commands, Parts(line, found, |found|), s, k,
                        Eval(commands, LeftTree(line, found, |found|), s), Stayed)
  {
    hide Executed;
    k := ChainStops(commands, line, found, |found|, s, Sequence, Stayed);
  }

  // ---------------------------------------------------------------------------
  // Bracketing.

  /** Brackets may move to the right behind `;`, and between two operators of one kind. */
  lemma MayRebracket<W>(commands: Commands<W>, a: Tree, first: SegmentOperator, b: Tree, second: SegmentOperator,
                        c: Tree, s: State<W>)
    requires first == Sequence || first == second
    ensures Eval(commands, Node(Node(a, first, b), second, c), s) ==
              Eval(commands, Node(a, first, Node(b, second, c)), s)
  {
  }

  /** Elsewhere the bracketing matters, whatever the commands do. */
  lemma MustNotRebracket<W>(commands: Commands<W>, first: SegmentOperator, second: SegmentOperator, s: State<W>)
    requires first != Sequence && first != second
    ensures exists a, b, c :: Eval(commands, Node(Node(a, first, b), second, c), s) != Eval(commands,
              Node(a, first, Node(b, second, c)), s)
  {
    var fails, succeeds := Leaf([SINGLE_QUOTE]), Leaf([]);
    QuoteFails(commands, s);
    NothingSucceeds(commands, s);
    NothingSucceeds(commands, Executed(commands, if first == And then [SINGLE_QUOTE] else [], s));
    hide Executed;
    var a, c := if first == And then fails else succeeds, succeeds;
    var ran := Eval(commands, a, s);
    assert !ran.exited && !Permits(first, ran.status) && Permits(second, ran.status);
    assert Eval(commands, Node(a, first, c), s) == ran;
    var left := Eval(commands, Node(Node(a, first, c), second, c), s);
    assert left == Eval(commands, c, ran);
    var right := Eval(commands, Node(a, first, Node(c, second, c)), s);
    assert |left.ran| == |s.ran| + 2 && |right.ran| == |s.ran| + 1;
  }

  lemma QuoteFails<W>(commands: Commands<W>, s: State<W>)
    ensures Executed(commands, [SINGLE_QUOTE], s) ==
              State(commands.complain(s.world, UnmatchedSingleQuote), 1, false, s.ran + [[SINGLE_QUOTE]])
  {
    var line: Bytes := [SINGLE_QUOTE];
    assert Advance(line, 0, Unquoted) == Some((1, SingleQuoted));
    assert ParseFrom(line, 1, SingleQuoted, Words([], Some([]))) == Err(UnmatchedSingleQuote);
  }

  lemma NothingSucceeds<W>(commands: Commands<W>, s: State<W>)
    ensures Executed(commands, [], s) == State(s.world, 0, false, s.ran + [[]])
  {
  }

  predicate NoSequence(t: Tree) {
    t.Node? ==> t.operator != Sequence && NoSequence(t.left) && NoSequence(t.right)
  }

  /** `;` binds less than `&&` and `||`: a list of and-or lists. */
  predicate ListOfAndOrs(t: Tree) {
    NoSequence(t) || (t.Node? && t.operator == Sequence && ListOfAndOrs(t.left) && NoSequence(t.right))
  }

  /** A left-leaning tree, rebracketed so that `;` binds less. */
  function SequencesOutside(t: Tree): Tree {
    if t.Leaf? then t
    else
      var left := SequencesOutside(t.left);
      if t.operator != Sequence && left.Node? && left.operator == Sequence then
        Node(left.left, Sequence, Node(left.right, t.operator, t.right))
      else Node(left, t.operator, t.right)
  }

  /** The shell's equal precedence is the usual grammar, in which `;` separates and-or lists:
      the same leaves and operators, and the same meaning. */
  lemma {:induction false} EqualPrecedenceIsUsual<W>(commands: Commands<W>, t: Tree, s: State<W>)
    requires LeftLeaning(t)
    ensures ListOfAndOrs(SequencesOutside(t))
    ensures Leaves(SequencesOutside(t)) == Leaves(t) && Operators(SequencesOutside(t)) == Operators(t)
    ensures Eval(commands, SequencesOutside(t), s) == Eval(commands, t, s)
  {
    hide Executed;
    if t.Node? {
      EqualPrecedenceIsUsual(commands, t.left, s);
      var left := SequencesOutside(t.left);
      if t.operator != Sequence && left.Node? && left.operator == Sequence {
        assert left == Node(left.left, Sequence, left.right);
        assert !NoSequence(left) && NoSequence(Node(left.right, t.operator, t.right));
        MayRebracket(commands, left.left, Sequence, left.right, t.operator, t.right, s);
        var x, y, z := Leaves(left.left), Leaves(left.right), Leaves(t.right);
        assert x + (y + z) == (x + y) + z;
        var p, q, r := Operators(left.left), Operators(left.right), Operators(t.right);
        assert p + [Sequence] + (q + [t.operator] + r) == (p + [Sequence] + q) + [t.operator] + r;
      } else {
        assert NoSequence(t.right);
        assert ListOfAndOrs(Node(left, t.operator, t.right));
      }
    }
  }
}
