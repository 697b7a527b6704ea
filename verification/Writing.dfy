// Lines as one writes them: words out of quoted and unquoted pieces, commands
// out of words, and operators between commands. Both parsers read them back
// (user/lash/src/lib.rs:75-354).
module Writing {
  import opened Prelude
  import opened Quoting
  import opened Tokens

  /** Inside double quotes: a byte as it is, or one behind a backslash. */
  datatype Inner = Plain(b: Byte) | Slashed(b: Byte)

  /** A piece of a word: a bare byte, one behind a backslash, or text in quotes. */
  datatype Piece = Bare(b: Byte) | Escape(b: Byte) | Single(text: Bytes) | Double(inner: seq<Inner>)

  function InnerBytes(i: Inner): Bytes {
    match i
    case Plain(b) => [b]
    case Slashed(b) => [92, b]
  }

  function InnerText(inner: seq<Inner>): Bytes {
    if inner == [] then [] else InnerBytes(inner[0]) + InnerText(inner[1..])
  }

  function InnerValue(inner: seq<Inner>): Bytes {
    if inner == [] then [] else [inner[0].b] + InnerValue(inner[1..])
  }

  /** What is typed. */
  function Text(p: Piece): Bytes {
    match p
    case Bare(b) => [b]
    case Escape(b) => [92, b]
    case Single(text) => [39] + text + [39]
    case Double(inner) => [34] + InnerText(inner) + [34]
  }

  /** What it stands for. */
  function Value(p: Piece): Bytes {
    match p
    case Bare(b) => [b]
    case Escape(b) => [b]
    case Single(text) => text
    case Double(inner) => InnerValue(inner)
  }

  /** A bare byte is no space, quote or backslash; single quotes hold anything but a single quote; inside
      double quotes, double quote and backslash stand behind a backslash. */
  predicate Sound(p: Piece) {
    match p
    case Bare(b) => b !in {32, 34, 39, 92}
    case Escape(_) => true
    case Single(text) => forall i :: 0 <= i < |text| ==> text[i] != 39
    case Double(inner) => forall i :: 0 <= i < |inner| && inner[i].Plain? ==> inner[i].b !in {34, 92}
  }

  type Word = seq<Piece>

  function WordText(word: Word): Bytes {
    if word == [] then [] else Text(word[0]) + WordText(word[1..])
  }

  function WordValue(word: Word): Bytes {
    if word == [] then [] else Value(word[0]) + WordValue(word[1..])
  }

  predicate SoundWord(word: Word) {
    word != [] && forall i :: 0 <= i < |word| ==> Sound(word[i])
  }

  // ---------------------------------------------------------------------------
  // The tokenizer over one piece.

  lemma Sides(a: Bytes, b: Bytes, c: Bytes, d: Bytes)
    ensures a + (b + c) + d == a + b + (c + d)
    ensures a + b + (c + d) == (a + b) + c + d
    ensures |a + b| == |a| + |b|
  {
  }

  /** Single-quoted text is taken as it is. */
  lemma {:induction false} LexSingle(front: Bytes, text: Bytes, rest: Bytes, w: Words)
    requires w.current.Some? && forall i :: 0 <= i < |text| ==> text[i] != 39
    ensures LexFrom(front + text + rest, |front|, SingleQuoted, w) ==
            LexFrom(front + text + rest, |front| + |text|, SingleQuoted, Words(w.done, Some(w.current.value + text)))
    decreases |text|
  {
    var line := front + text + rest;
    if text == [] {
      assert w.current.value + text == w.current.value;
    } else {
      assert line[|front|] == text[0];
      var w' := Words(w.done, Some(w.current.value + [text[0]]));
      assert LexFrom(line, |front|, SingleQuoted, w) == LexFrom(line, |front| + 1, SingleQuoted, w');
      hide LexFrom;
      assert (front + [text[0]]) + text[1..] + rest == line;
      LexSingle(front + [text[0]], text[1..], rest, w');
      assert w'.current.value + text[1..] == w.current.value + text;
    }
  }

  lemma LexInnerStep(front: Bytes, first: Inner, rest: Bytes, w: Words)
    requires w.current.Some? && (first.Plain? ==> first.b !in {34, 92})
    ensures var text := InnerBytes(first);
            LexFrom(front + text + rest, |front|, DoubleQuoted, w) ==
            LexFrom(front + text + rest, |front| + |text|, DoubleQuoted,
                    Words(w.done, Some(w.current.value + [first.b])))
  {
    var text := InnerBytes(first);
    var line := front + text + rest;
    assert line[|front|] == text[0];
    if first.Slashed? { assert line[|front| + 1] == first.b; }
  }

  /** Double-quoted text is taken without its backslashes. */
  lemma {:induction false} LexDouble(front: Bytes, inner: seq<Inner>, rest: Bytes, w: Words)
    requires w.current.Some? && forall i :: 0 <= i < |inner| && inner[i].Plain? ==> inner[i].b !in {34, 92}
    ensures var text := InnerText(inner);
            LexFrom(front + text + rest, |front|, DoubleQuoted, w) ==
            LexFrom(front + text + rest, |front| + |text|, DoubleQuoted,
                    Words(w.done, Some(w.current.value + InnerValue(inner))))
    decreases |inner|
  {
    hide LexFrom, InnerBytes;
    if inner == [] {
      assert w.current.value + InnerValue(inner) == w.current.value;
    } else {
      var first, more := InnerBytes(inner[0]), InnerText(inner[1..]);
      var w' := Words(w.done, Some(w.current.value + [inner[0].b]));
      Sides(front, first, more, rest);
      LexInnerStep(front, inner[0], more + rest, w);
      LexDouble(front + first, inner[1..], rest, w');
      assert w'.current.value + InnerValue(inner[1..]) == w.current.value + InnerValue(inner);
    }
  }

  lemma LexQuote(front: Bytes, b: Byte, rest: Bytes, w: Words)
    requires b == 39 || b == 34
    ensures var line, inside := front + [b] + rest, if b == 39 then SingleQuoted else DoubleQuoted;
            && LexFrom(line, |front|, Unquoted, w) ==
                 LexFrom(line, |front| + 1, inside, Words(w.done, Some(w.Opened())))
            && LexFrom(line, |front|, inside, w) == LexFrom(line, |front| + 1, Unquoted, w)
  {
    var line := front + [b] + rest;
    assert line[|front|] == b;
  }

  lemma LexBare(front: Bytes, p: Piece, rest: Bytes, w: Words)
    requires Sound(p) && (p.Bare? || p.Escape?)
    ensures LexFrom(front + Text(p) + rest, |front|, Unquoted, w) ==
            LexFrom(front + Text(p) + rest, |front| + |Text(p)|, Unquoted, Words(w.done, Some(w.Opened() + Value(p))))
  {
    var line := front + Text(p) + rest;
    assert line[|front|] == Text(p)[0];
    if p.Escape? { assert line[|front| + 1] == p.b; }
  }

  /** Any piece adds its value to the word. */
  lemma LexPiece(front: Bytes, p: Piece, rest: Bytes, w: Words)
    requires Sound(p)
    ensures LexFrom(front + Text(p) + rest, |front|, Unquoted, w) ==
            LexFrom(front + Text(p) + rest, |front| + |Text(p)|, Unquoted, Words(w.done, Some(w.Opened() + Value(p))))
  {
    if p.Bare? || p.Escape? {
      LexBare(front, p, rest, w);
    } else {
      LexQuoted(front, p, rest, w);
    }
  }

  lemma Groupings(front: Bytes, quote: Bytes, inside: Bytes, rest: Bytes)
    ensures var line := front + (quote + inside + quote) + rest;
            && line == front + quote + (inside + quote + rest)
            && line == (front + quote) + inside + (quote + rest)
            && line == (front + quote + inside) + quote + rest
            && |front + quote| == |front| + |quote| && |front + quote + inside| == |front| + |quote| + |inside|
            && |quote + inside + quote| == |quote| + |inside| + |quote|
  {
  }

  lemma LexQuoted(front: Bytes, p: Piece, rest: Bytes, w: Words)
    requires Sound(p) && (p.Single? || p.Double?)
    ensures LexFrom(front + Text(p) + rest, |front|, Unquoted, w) ==
            LexFrom(front + Text(p) + rest, |front| + |Text(p)|, Unquoted, Words(w.done, Some(w.Opened() + Value(p))))
  {
    hide LexFrom, InnerText, InnerValue;
    var b: Byte := if p.Single? then 39 else 34;
    var inside := if p.Single? then p.text else InnerText(p.inner);
    var started, value := Words(w.done, Some(w.Opened())), Value(p);
    assert Text(p) == [b] + inside + [b];
    Groupings(front, [b], inside, rest);
    LexQuote(front, b, inside + [b] + rest, w);
    if p.Single? {
      LexSingle(front + [b], inside, [b] + rest, started);
    } else {
      LexDouble(front + [b], p.inner, [b] + rest, started);
    }
    LexQuote(front + [b] + inside, b, rest, Words(w.done, Some(w.Opened() + value)));
  }

  // ---------------------------------------------------------------------------
  // Words and commands.

  lemma {:induction false} LexWord(front: Bytes, word: Word, rest: Bytes, w: Words)
    requires forall i :: 0 <= i < |word| ==> Sound(word[i])
    requires word != [] || w.current.Some?
    ensures LexFrom(front + WordText(word) + rest, |front|, Unquoted, w) ==
            LexFrom(front + WordText(word) + rest, |front| + |WordText(word)|, Unquoted,
                    Words(w.done, Some(w.Opened() + WordValue(word))))
    decreases |word|
  {
    hide LexFrom, Text, Value, Sound;
    if word == [] {
      assert w.Opened() + WordValue(word) == w.current.value;
    } else {
      var first, more := Text(word[0]), WordText(word[1..]);
      var w' := Words(w.done, Some(w.Opened() + Value(word[0])));
      Sides(front, first, more, rest);
      LexPiece(front, word[0], more + rest, w);
      LexWord(front + first, word[1..], rest, w');
      assert w'.Opened() + WordValue(word[1..]) == w.Opened() + WordValue(word);
    }
  }

  function Spaces(n: nat): (s: Bytes)
    ensures |s| == n && forall i :: 0 <= i < n ==> s[i] == 32
  {
    seq(n, _ => 32)
  }

  /** A space ends the word that is open. */
  function Closed(w: Words): Words {
    if w.current.Some? then Words(w.done + [w.current.value], None) else w
  }

  lemma {:induction false} LexSpaces(front: Bytes, n: nat, rest: Bytes, w: Words)
    ensures LexFrom(front + Spaces(n) + rest, |front|, Unquoted, w) ==
            LexFrom(front + Spaces(n) + rest, |front| + n, Unquoted, if n == 0 then w else Closed(w))
    decreases n
  {
    var line := front + Spaces(n) + rest;
    if n > 0 {
      assert line[|front|] == 32;
      assert LexFrom(line, |front|, Unquoted, w) == LexFrom(line, |front| + 1, Unquoted, Closed(w));
      hide LexFrom;
      assert Spaces(n) == [32] + Spaces(n - 1);
      assert line == (front + [32]) + Spaces(n - 1) + rest;
      LexSpaces(front + [32], n - 1, rest, Closed(w));
    }
  }

  /** A word and the spaces in front of it. */
  datatype Item = Item(spaces: nat, word: Word)

  function ItemText(item: Item): Bytes {
    Spaces(item.spaces) + WordText(item.word)
  }

  function ItemsText(items: seq<Item>): Bytes {
    if items == [] then [] else ItemText(items[0]) + ItemsText(items[1..])
  }

  function Values(items: seq<Item>): seq<Bytes> {
    if items == [] then [] else [WordValue(items[0].word)] + Values(items[1..])
  }

  /** Words are kept apart by spaces. */
  predicate SoundItems(items: seq<Item>) {
    forall i :: 0 <= i < |items| ==> SoundWord(items[i].word) && (i > 0 ==> items[i].spaces > 0)
  }

  lemma LexItem(front: Bytes, item: Item, rest: Bytes, w: Words)
    requires SoundWord(item.word) && (w.current.None? || item.spaces > 0)
    ensures LexFrom(front + ItemText(item) + rest, |front|, Unquoted, w) ==
            LexFrom(front + ItemText(item) + rest, |front| + |ItemText(item)|, Unquoted,
                    Words(Closed(w).done, Some(WordValue(item.word))))
  {
    hide LexFrom, WordText, WordValue, Sound;
    var gap, text := Spaces(item.spaces), WordText(item.word);
    Sides(front, gap, text, rest);
    LexSpaces(front, item.spaces, text + rest, w);
    LexWord(front + gap, item.word, rest, Closed(w));
    assert Closed(w).Opened() + WordValue(item.word) == WordValue(item.word);
  }

  lemma {:induction false} LexItems(front: Bytes, items: seq<Item>, rest: Bytes, w: Words) returns (w': Words)
    requires items != [] && (w.current.None? || items[0].spaces > 0) && SoundItems(items)
    ensures LexFrom(front + ItemsText(items) + rest, |front|, Unquoted, w) ==
            LexFrom(front + ItemsText(items) + rest, |front| + |ItemsText(items)|, Unquoted, w')
    ensures w'.current.Some? && Closed(w').done == Closed(w).done + Values(items)
    decreases |items|
  {
    hide LexFrom, ItemText, WordValue, SoundWord, ItemsText, Values;
    ItemsFirst(items);
    var first, more := ItemText(items[0]), ItemsText(items[1..]);
    w' := Words(Closed(w).done, Some(WordValue(items[0].word)));
    Sides(front, first, more, rest);
    LexItem(front, items[0], more + rest, w);
    if items[1..] == [] {
      EmptyItems();
      assert first + more == first;
    } else {
      ghost var before := w';
      w' := LexItems(front + first, items[1..], rest, before);
      assert Closed(before).done + Values(items[1..]) == Closed(w).done + Values(items);
    }
  }

  lemma ItemsFirst(items: seq<Item>)
    requires items != []
    ensures ItemsText(items) == ItemText(items[0]) + ItemsText(items[1..])
    ensures Values(items) == [WordValue(items[0].word)] + Values(items[1..])
  {
  }

  /** Words out of any pieces, with any spaces around them, are read back as their values. */
  lemma WordsReadBack(items: seq<Item>, trail: nat)
    requires SoundItems(items)
    ensures Lex(ItemsText(items) + Spaces(trail)) == Ok(Values(items))
    ensures |items| <= MAX_COMMAND_ARGS && |Flat(Values(items))| <= Tokens.LINE_CAPACITY ==>
              Parsed(ItemsText(items) + Spaces(trail)) == Ok(Values(items))
  {
    hide LexFrom, ItemsText, SoundWord, Flat;
    var line, none: Bytes, w := ItemsText(items) + Spaces(trail), [], Words([], None);
    assert line == none + ItemsText(items) + Spaces(trail);
    var w' := w;
    if items == [] {
      EmptyItems();
    } else {
      w' := LexItems(none, items, Spaces(trail), w);
    }
    assert line == ItemsText(items) + Spaces(trail) + none;
    LexSpaces(ItemsText(items), trail, none, w');
    LexEnd(line, if trail == 0 then w' else Closed(w'));
    assert Closed(w').done == Values(items);
    ValuesSize(items);
    if |items| <= MAX_COMMAND_ARGS && |Flat(Values(items))| <= Tokens.LINE_CAPACITY {
      FittingIsParsed(line, 0, Unquoted, w);
    }
  }

  lemma EmptyItems()
    ensures ItemsText([]) == [] && Values([]) == []
  {
  }

  lemma LexEnd(line: Bytes, w: Words)
    ensures LexFrom(line, |line|, Unquoted, w) == Ok(Closed(w).done)
  {
  }

  lemma {:induction false} ValuesSize(items: seq<Item>)
    ensures |Values(items)| == |items|
  {
    if items != [] { ValuesSize(items[1..]); }
  }

  // ---------------------------------------------------------------------------
  // The scan passes over commands.

  lemma {:induction false} ScanSingle(front: Bytes, text: Bytes, rest: Bytes, start: nat, found: seq<Segment>)
    requires start <= |front| && forall i :: 0 <= i < |text| ==> text[i] != 39
    ensures ScanFrom(front + text + rest, |front|, SingleQuoted, start, found) ==
            ScanFrom(front + text + rest, |front| + |text|, SingleQuoted, start, found)
    decreases |text|
  {
    var line := front + text + rest;
    if text != [] {
      assert line[|front|] == text[0];
      assert ScanFrom(line, |front|, SingleQuoted, start, found) ==
               ScanFrom(line, |front| + 1, SingleQuoted, start, found);
      hide ScanFrom;
      assert (front + [text[0]]) + text[1..] + rest == line;
      ScanSingle(front + [text[0]], text[1..], rest, start, found);
    }
  }

  lemma ScanInnerStep(front: Bytes, first: Inner, rest: Bytes, start: nat, found: seq<Segment>)
    requires start <= |front| && (first.Plain? ==> first.b !in {34, 92})
    ensures var text := InnerBytes(first);
            ScanFrom(front + text + rest, |front|, DoubleQuoted, start, found) ==
            ScanFrom(front + text + rest, |front| + |text|, DoubleQuoted, start, found)
  {
    var text := InnerBytes(first);
    var line := front + text + rest;
    assert line[|front|] == text[0];
    if first.Slashed? { assert line[|front| + 1] == first.b; }
  }

  lemma {:induction false} ScanDouble(front: Bytes, inner: seq<Inner>, rest: Bytes, start: nat, found: seq<Segment>)
    requires start <= |front| && forall i :: 0 <= i < |inner| && inner[i].Plain? ==> inner[i].b !in {34, 92}
    ensures var text := InnerText(inner);
            ScanFrom(front + text + rest, |front|, DoubleQuoted, start, found) ==
            ScanFrom(front + text + rest, |front| + |text|, DoubleQuoted, start, found)
    decreases |inner|
  {
    hide ScanFrom, InnerBytes;
    if inner != [] {
      var first, more := InnerBytes(inner[0]), InnerText(inner[1..]);
      Sides(front, first, more, rest);
      ScanInnerStep(front, inner[0], more + rest, start, found);
      ScanDouble(front + first, inner[1..], rest, start, found);
    }
  }

  lemma ScanQuote(front: Bytes, b: Byte, rest: Bytes, start: nat, found: seq<Segment>)
    requires start <= |front| && (b == 39 || b == 34)
    ensures var line, inside := front + [b] + rest, if b == 39 then SingleQuoted else DoubleQuoted;
            && ScanFrom(line, |front|, Unquoted, start, found) == ScanFrom(line, |front| + 1, inside, start, found)
            && ScanFrom(line, |front|, inside, start, found) == ScanFrom(line, |front| + 1, Unquoted, start, found)
  {
    var line := front + [b] + rest;
    assert line[|front|] == b;
  }

  /** Not one of the bytes operators are made of. */
  predicate Quiet(p: Piece) {
    p.Bare? ==> p.b !in {38, 59, 124}
  }

  lemma ScanBare(front: Bytes, p: Piece, rest: Bytes, start: nat, found: seq<Segment>)
    requires start <= |front| && Sound(p) && Quiet(p) && (p.Bare? || p.Escape?)
    ensures ScanFrom(front + Text(p) + rest, |front|, Unquoted, start, found) ==
            ScanFrom(front + Text(p) + rest, |front| + |Text(p)|, Unquoted, start, found)
  {
    var line := front + Text(p) + rest;
    assert line[|front|] == Text(p)[0];
    assert OperatorAt(line, |front|).None?;
  }

  lemma ScanPiece(front: Bytes, p: Piece, rest: Bytes, start: nat, found: seq<Segment>)
    requires start <= |front| && Sound(p) && Quiet(p)
    ensures ScanFrom(front + Text(p) + rest, |front|, Unquoted, start, found) ==
            ScanFrom(front + Text(p) + rest, |front| + |Text(p)|, Unquoted, start, found)
  {
    hide ScanFrom, InnerText;
    if p.Bare? || p.Escape? {
      ScanBare(front, p, rest, start, found);
    } else {
      var b: Byte := if p.Single? then 39 else 34;
      var inside := if p.Single? then p.text else InnerText(p.inner);
      assert Text(p) == [b] + inside + [b];
      Groupings(front, [b], inside, rest);
      ScanQuote(front, b, inside + [b] + rest, start, found);
      if p.Single? {
        ScanSingle(front + [b], inside, [b] + rest, start, found);
      } else {
        ScanDouble(front + [b], p.inner, [b] + rest, start, found);
      }
      ScanQuote(front + [b] + inside, b, rest, start, found);
    }
  }

  lemma {:induction false} ScanWord(front: Bytes, word: Word, rest: Bytes, start: nat, found: seq<Segment>)
    requires start <= |front| && forall i :: 0 <= i < |word| ==> Sound(word[i]) && Quiet(word[i])
    ensures ScanFrom(front + WordText(word) + rest, |front|, Unquoted, start, found) ==
            ScanFrom(front + WordText(word) + rest, |front| + |WordText(word)|, Unquoted, start, found)
    decreases |word|
  {
    hide ScanFrom, Text, Sound, Quiet;
    if word != [] {
      var first, more := Text(word[0]), WordText(word[1..]);
      Sides(front, first, more, rest);
      ScanPiece(front, word[0], more + rest, start, found);
      ScanWord(front + first, word[1..], rest, start, found);
    }
  }

  lemma {:induction false} ScanSpaces(front: Bytes, n: nat, rest: Bytes, start: nat, found: seq<Segment>)
    requires start <= |front|
    ensures ScanFrom(front + Spaces(n) + rest, |front|, Unquoted, start, found) ==
            ScanFrom(front + Spaces(n) + rest, |front| + n, Unquoted, start, found)
    decreases n
  {
    hide ScanFrom;
    if n > 0 {
      assert Spaces(n) == [32] + Spaces(n - 1);
      Sides(front, [32], Spaces(n - 1), rest);
      ScanSpace(front, Spaces(n - 1) + rest, start, found);
      ScanSpaces(front + [32], n - 1, rest, start, found);
    }
  }

  lemma ScanSpace(front: Bytes, rest: Bytes, start: nat, found: seq<Segment>)
    requires start <= |front|
    ensures ScanFrom(front + [32] + rest, |front|, Unquoted, start, found) ==
            ScanFrom(front + [32] + rest, |front| + 1, Unquoted, start, found)
  {
    assert (front + [32] + rest)[|front|] == 32;
  }

  predicate QuietItems(items: seq<Item>) {
    forall i :: 0 <= i < |items| ==> forall j :: 0 <= j < |items[i].word| ==> Quiet(items[i].word[j])
  }

  lemma {:induction false} ScanItems(front: Bytes, items: seq<Item>, rest: Bytes, start: nat, found: seq<Segment>)
    requires start <= |front| && SoundItems(items) && QuietItems(items)
    ensures ScanFrom(front + ItemsText(items) + rest, |front|, Unquoted, start, found) ==
            ScanFrom(front + ItemsText(items) + rest, |front| + |ItemsText(items)|, Unquoted, start, found)
    decreases |items|
  {
    hide ScanFrom, ItemsText, WordText, Sound, Quiet;
    if items == [] {
      EmptyItems();
    } else {
      ItemsFirst(items);
      var gap, word, more := Spaces(items[0].spaces), WordText(items[0].word), ItemsText(items[1..]);
      assert ItemText(items[0]) == gap + word;
      Sides(front, gap + word, more, rest);
      Sides(front, gap, word, more + rest);
      ScanSpaces(front, items[0].spaces, word + (more + rest), start, found);
      ScanWord(front + gap, items[0].word, more + rest, start, found);
      assert forall i :: 0 <= i < |items| - 1 ==> items[1..][i] == items[i + 1];
      ScanItems(front + (gap + word), items[1..], rest, start, found);
    }
  }

  // ---------------------------------------------------------------------------
  // Commands and operators.

  /** Words, and spaces behind them. */
  datatype Command = Command(items: seq<Item>, trail: nat)

  function CommandText(c: Command): Bytes {
    ItemsText(c.items) + Spaces(c.trail)
  }

  function OperatorText(o: SegmentOperator): Bytes {
    match o
    case And => [38, 38]
    case Or => [124, 124]
    case Sequence => [59]
  }

  /** The last piece of the last word. */
  function LastPiece(items: seq<Item>): Piece
    requires items != [] && items[|items| - 1].word != []
  {
    var word := items[|items| - 1].word;
    word[|word| - 1]
  }

  /** Some words, no bare operator bytes, and no escaped space at the very end, where it would be trimmed. */
  predicate SoundCommand(c: Command) {
    c.items != [] && SoundItems(c.items) && QuietItems(c.items) && LastPiece(c.items) != Escape(32)
  }

  /** Commands with operators between them. */
  function LineText(commands: seq<Command>, operators: seq<SegmentOperator>): Bytes
    requires commands != [] && |operators| == |commands| - 1
    decreases |commands|
  {
    CommandText(commands[0]) +
    if |commands| == 1 then [] else OperatorText(operators[0]) + LineText(commands[1..], operators[1..])
  }

  /** The segment of a command that starts at `at`. */
  function SegmentOf(at: nat, c: Command, operator: Option<SegmentOperator>): Segment {
    var end := at + |ItemsText(c.items)|;
    Segment(at, end + c.trail, at + Lead(c), end, operator)
  }

  function Lead(c: Command): nat {
    if c.items == [] then 0 else c.items[0].spaces
  }

  function Segments(at: nat, commands: seq<Command>, operators: seq<SegmentOperator>): seq<Segment>
    requires commands != [] && |operators| == |commands| - 1
    decreases |commands|
  {
    if |commands| == 1 then [SegmentOf(at, commands[0], None)]
    else
      var next := at + |CommandText(commands[0])| + |OperatorText(operators[0])|;
      [SegmentOf(at, commands[0], Some(operators[0]))] + Segments(next, commands[1..], operators[1..])
  }

  // ---------------------------------------------------------------------------
  // Trimming.

  /** A sound word starts and, unless its last piece is an escaped space, ends with a byte that is no space. */
  lemma {:induction false} WordEnds(word: Word)
    requires SoundWord(word)
    ensures WordText(word) != [] && WordText(word)[0] != 32
    ensures word[|word| - 1] != Escape(32) ==> WordText(word)[|WordText(word)| - 1] != 32
    decreases |word|
  {
    PieceEnds(word[0]);
    hide Text, Sound;
    if |word| > 1 {
      assert word[1..][|word| - 2] == word[|word| - 1];
      WordEnds(word[1..]);
    } else {
      assert WordText(word[1..]) == [];
    }
  }

  lemma PieceEnds(p: Piece)
    requires Sound(p)
    ensures Text(p) != [] && Text(p)[0] != 32
    ensures p != Escape(32) ==> Text(p)[|Text(p)| - 1] != 32
  {
  }

  /** The text of some words: their leading spaces, then a byte that is no space, and at the end one too. */
  lemma {:induction false} ItemsEnd(items: seq<Item>)
    requires items != [] && SoundItems(items)
    ensures var text, n := ItemsText(items), items[0].spaces;
            && n < |text| && (forall i :: 0 <= i < n ==> text[i] == 32) && text[n] != 32
            && (LastPiece(items) != Escape(32) ==> text[|text| - 1] != 32)
    decreases |items|
  {
    hide WordText, Sound;
    ItemsFirst(items);
    WordEnds(items[0].word);
    if |items| > 1 {
      assert LastPiece(items[1..]) == LastPiece(items);
      ItemsEnd(items[1..]);
    } else {
      EmptyItems();
    }
  }

  lemma TrimmedIs(line: Bytes, at: nat, from: nat, to: nat, end: nat, operator: Option<SegmentOperator>)
    requires at <= from < to <= end <= |line| && line[from] != 32 && line[to - 1] != 32
    requires (forall i :: at <= i < from ==> line[i] == 32) && (forall i :: to <= i < end ==> line[i] == 32)
    ensures Trimmed(line, at, end, operator) == Segment(at, end, from, to, operator)
  {
    var start := TrimStart(line, at, end);
    assert start <= from;
    assert from <= start;
    var stop := TrimEnd(line, from, end);
    assert to <= stop;
    assert stop <= to;
  }

  /** A command, wherever it stands on a line, is trimmed to its words. */
  lemma CommandTrimmed(front: Bytes, c: Command, rest: Bytes, operator: Option<SegmentOperator>)
    requires SoundCommand(c)
    ensures Trimmed(front + CommandText(c) + rest, |front|, |front| + |CommandText(c)|, operator) ==
            SegmentOf(|front|, c, operator)
  {
    var line, text := front + CommandText(c) + rest, ItemsText(c.items);
    hide ItemsText;
    ItemsEnd(c.items);
    assert line == front + text + (Spaces(c.trail) + rest);
    TextInLine(front, text, Spaces(c.trail) + rest);
    forall i | |front| + |text| <= i < |front| + |text| + c.trail ensures line[i] == 32 {
      assert line[i] == Spaces(c.trail)[i - |front| - |text|];
    }
    hide SoundCommand;
    TrimmedIs(line, |front|, |front| + c.items[0].spaces, |front| + |text|, |front| + |text| + c.trail, operator);
  }

  lemma TextInLine(front: Bytes, text: Bytes, rest: Bytes)
    ensures forall i :: |front| <= i < |front| + |text| ==> (front + text + rest)[i] == text[i - |front|]
  {
  }

  // ---------------------------------------------------------------------------
  // The scan of a line.

  lemma ScanCommand(front: Bytes, c: Command, rest: Bytes, found: seq<Segment>)
    requires SoundCommand(c)
    ensures ScanFrom(front + CommandText(c) + rest, |front|, Unquoted, |front|, found) ==
            ScanFrom(front + CommandText(c) + rest, |front| + |CommandText(c)|, Unquoted, |front|, found)
  {
    hide ScanFrom, ItemsText, SoundItems, QuietItems;
    var words, gap := ItemsText(c.items), Spaces(c.trail);
    Sides(front, words, gap, rest);
    ScanItems(front, c.items, gap + rest, |front|, found);
    ScanSpaces(front + words, c.trail, rest, |front|, found);
  }

  /** There is an operator exactly where one of the three is written, so a lone ampersand or bar is none. */
  lemma OperatorIsItsText(line: Bytes, i: nat, o: SegmentOperator, n: nat)
    requires i < |line|
    ensures OperatorAt(line, i) == Some((o, n)) <==>
              n == |OperatorText(o)| && i + n <= |line| && line[i..i + n] == OperatorText(o)
  {
    if i + n <= |line| && n == |OperatorText(o)| {
      var here := line[i..i + n];
      assert here[0] == line[i] && (n == 2 ==> here[1] == line[i + 1]);
      assert here[0] == OperatorText(o)[0] && (n == 2 ==> here[1] == OperatorText(o)[1]) ==> here == OperatorText(o);
    }
  }

  lemma OperatorIsSeen(front: Bytes, o: SegmentOperator, rest: Bytes)
    ensures OperatorAt(front + OperatorText(o) + rest, |front|) == Some((o, |OperatorText(o)|))
  {
    var line := front + OperatorText(o) + rest;
    assert line[|front|] == OperatorText(o)[0];
    if o != Sequence { assert line[|front| + 1] == OperatorText(o)[1]; }
  }

  /** At the end of a line, outside quotes. */
  lemma AtEnd(line: Bytes, start: nat, found: seq<Segment>)
    requires start <= |line|
    requires var s := Trimmed(line, start, |line|, None); s.start != s.end
    ensures ScanFrom(line, |line|, Unquoted, start, found) == Push(found, Trimmed(line, start, |line|, None))
  {
  }

  /** At an operator, outside quotes. */
  lemma AtOperator(line: Bytes, i: nat, start: nat, found: seq<Segment>, o: SegmentOperator, length: nat)
    requires start <= i < |line| && OperatorAt(line, i) == Some((o, length)) && i + length <= |line|
    requires var s := Trimmed(line, start, i, Some(o)); s.start != s.end
    ensures var pushed := Push(found, Trimmed(line, start, i, Some(o)));
            ScanFrom(line, i, Unquoted, start, found) ==
              if pushed.Err? then pushed else ScanFrom(line, i + length, Unquoted, i + length, pushed.value)
  {
    hide OperatorAt;
  }

  lemma CommandIsSomething(at: nat, c: Command, operator: Option<SegmentOperator>)
    requires SoundCommand(c)
    ensures SegmentOf(at, c, operator).start != SegmentOf(at, c, operator).end
  {
    hide ItemsText;
    ItemsEnd(c.items);
  }

  lemma ScanLast(front: Bytes, c: Command, found: seq<Segment>)
    requires SoundCommand(c)
    ensures ScanFrom(front + CommandText(c), |front|, Unquoted, |front|, found) ==
            if |found| < 32 then Ok(found + [SegmentOf(|front|, c, None)]) else Err(ResourceUnavailable)
  {
    hide ScanFrom, CommandText, SoundCommand, SegmentOf, Trimmed;
    var line, none: Bytes := front + CommandText(c), [];
    assert line == front + CommandText(c) + none;
    ScanCommand(front, c, none, found);
    CommandTrimmed(front, c, none, None);
    CommandIsSomething(|front|, c, None);
    AtEnd(line, |front|, found);
    NoOperator(|front|, c);
  }

  lemma NoOperator(at: nat, c: Command)
    ensures forall operator :: SegmentOf(at, c, operator).operator == operator
  {
  }

  lemma ScanOperator(front: Bytes, c: Command, o: SegmentOperator, rest: Bytes, found: seq<Segment>)
    requires SoundCommand(c)
    ensures var line, next := front + CommandText(c) + (OperatorText(o) + rest),
              |front| + |CommandText(c)| + |OperatorText(o)|;
            && next <= |line|
            && ScanFrom(line, |front|, Unquoted, |front|, found) ==
               if |found| < 31 then ScanFrom(line, next, Unquoted, next, found + [SegmentOf(|front|, c, Some(o))])
               else Err(ResourceUnavailable)
  {
    hide ScanFrom, CommandText, SoundCommand, SegmentOf, Trimmed, OperatorAt;
    var line := front + CommandText(c) + (OperatorText(o) + rest);
    assert |OperatorText(o)| > 0;
    hide OperatorText;
    ScanCommand(front, c, OperatorText(o) + rest, found);
    CommandTrimmed(front, c, OperatorText(o) + rest, Some(o));
    CommandIsSomething(|front|, c, Some(o));
    Sides(front, CommandText(c), OperatorText(o), rest);
    OperatorIsSeen(front + CommandText(c), o, rest);
    AtOperator(line, |front| + |CommandText(c)|, |front|, found, o, |OperatorText(o)|);
    NoOperator(|front|, c);
  }

  lemma LineFirst(at: nat, commands: seq<Command>, operators: seq<SegmentOperator>)
    requires |commands| > 1 && |operators| == |commands| - 1
    ensures LineText(commands, operators) ==
            CommandText(commands[0]) + (OperatorText(operators[0]) + LineText(commands[1..], operators[1..]))
    ensures Segments(at, commands, operators) ==
            [SegmentOf(at, commands[0], Some(operators[0]))] +
            Segments(at + |CommandText(commands[0])| + |OperatorText(operators[0])|, commands[1..], operators[1..])
  {
  }

  lemma LineLast(at: nat, commands: seq<Command>)
    requires |commands| == 1
    ensures LineText(commands, []) == CommandText(commands[0])
    ensures Segments(at, commands, []) == [SegmentOf(at, commands[0], None)]
  {
  }

  lemma {:induction false} ScanLine(front: Bytes, commands: seq<Command>, operators: seq<SegmentOperator>,
                                    found: seq<Segment>)
    requires commands != [] && |operators| == |commands| - 1
    requires forall i :: 0 <= i < |commands| ==> SoundCommand(commands[i])
    ensures ScanFrom(front + LineText(commands, operators), |front|, Unquoted, |front|, found) ==
            if |found| + |commands| <= 32 then Ok(found + Segments(|front|, commands, operators))
            else Err(ResourceUnavailable)
    decreases |commands|
  {
    hide ScanFrom, CommandText, OperatorText, SegmentOf, SoundCommand, LineText, Segments;
    var c := commands[0];
    if |commands| == 1 {
      assert operators == [];
      LineLast(|front|, commands);
      ScanLast(front, c, found);
    } else {
      LineFirst(|front|, commands, operators);
      var o, more := operators[0], LineText(commands[1..], operators[1..]);
      var passed, s := front + CommandText(c) + OperatorText(o), SegmentOf(|front|, c, Some(o));
      Sides(front, CommandText(c), OperatorText(o), more);
      assert front + (CommandText(c) + (OperatorText(o) + more)) == front + CommandText(c) + (OperatorText(o) + more);
      ScanOperator(front, c, o, more, found);
      if |found| < 31 {
        ScanLine(passed, commands[1..], operators[1..], found + [s]);
      }
      Beside(found, s, Segments(|passed|, commands[1..], operators[1..]));
    }
  }

  lemma Beside(found: seq<Segment>, s: Segment, more: seq<Segment>)
    ensures found + ([s] + more) == found + [s] + more
  {
  }

  // ---------------------------------------------------------------------------
  // Main result.

  /** Each segment's bytes on the line. */
  lemma {:induction false} SegmentsLie(front: Bytes, commands: seq<Command>, operators: seq<SegmentOperator>, i: nat)
    requires commands != [] && |operators| == |commands| - 1 && i < |commands|
    requires forall k :: 0 <= k < |commands| ==> SoundCommand(commands[k])
    ensures |Segments(|front|, commands, operators)| == |commands|
    ensures var line, s := front + LineText(commands, operators), Segments(|front|, commands, operators)[i];
            && s.start <= s.end <= |line|
            && line[s.start..s.end] == ItemsText(commands[i].items)[Lead(commands[i])..]
            && s.operator == if i < |operators| then Some(operators[i]) else None
    decreases |commands|
  {
    hide CommandText, OperatorText, SegmentOf, SoundCommand, LineText, Segments, ItemsText, Lead;
    var c := commands[0];
    if |commands| == 1 {
      LineLast(|front|, commands);
      FirstLies(front, c, [], None);
      assert front + CommandText(c) + [] == front + CommandText(c);
    } else {
      LineFirst(|front|, commands, operators);
      var o, more := operators[0], LineText(commands[1..], operators[1..]);
      var passed := front + CommandText(c) + OperatorText(o);
      Sides(front, CommandText(c), OperatorText(o), more);
      FirstLies(front, c, OperatorText(o) + more, Some(o));
      SegmentsLie(passed, commands[1..], operators[1..], if i == 0 then 0 else i - 1);
    }
  }

  lemma FirstLies(front: Bytes, c: Command, rest: Bytes, operator: Option<SegmentOperator>)
    requires SoundCommand(c)
    ensures var line, s := front + CommandText(c) + rest, SegmentOf(|front|, c, operator);
            && s.start <= s.end <= |line| && s.operator == operator && Lead(c) <= |ItemsText(c.items)|
            && line[s.start..s.end] == ItemsText(c.items)[Lead(c)..]
  {
    hide ItemsText;
    ItemsEnd(c.items);
    var text, line := ItemsText(c.items), front + CommandText(c) + rest;
    assert line == front + text + (Spaces(c.trail) + rest);
    MiddleSlice(front, text, Spaces(c.trail) + rest, Lead(c));
  }

  lemma MiddleSlice(front: Bytes, text: Bytes, rest: Bytes, n: nat)
    requires n <= |text|
    ensures (front + text + rest)[|front| + n..|front| + |text|] == text[n..]
  {
  }

  /** Without its leading spaces, the text of words is the text of the same words. */
  lemma WithoutLead(items: seq<Item>)
    requires items != []
    ensures items[0].spaces <= |ItemsText(items)|
    ensures ItemsText(items)[items[0].spaces..] == ItemsText([items[0].(spaces := 0)] + items[1..])
    ensures Values([items[0].(spaces := 0)] + items[1..]) == Values(items)
  {
    hide WordText, WordValue, ItemsText, Values, ItemText;
    var bare := [items[0].(spaces := 0)] + items[1..];
    assert bare[1..] == items[1..] && bare[0] == items[0].(spaces := 0);
    ItemsFirst(items);
    ItemsFirst(bare);
    ItemWithout(items[0]);
    var gap, word, more := Spaces(items[0].spaces), WordText(items[0].word), ItemsText(items[1..]);
    DropFront(gap, word, more);
  }

  lemma ItemWithout(item: Item)
    ensures ItemText(item.(spaces := 0)) == WordText(item.word)
    ensures ItemText(item) == Spaces(item.spaces) + WordText(item.word)
  {
    assert Spaces(0) + WordText(item.word) == WordText(item.word);
  }

  lemma DropFront(gap: Bytes, word: Bytes, more: Bytes)
    ensures |gap| <= |gap + word + more| && (gap + word + more)[|gap|..] == word + more
  {
  }

  /** Up to 32 commands, each up to 16 words of up to 256 bytes together, with operators between them: the
      scan finds exactly these operators, and tokenizing what lies between them gives exactly the words,
      whatever is quoted in them. More than 32 commands are refused. */
  lemma LineReadsBack(commands: seq<Command>, operators: seq<SegmentOperator>)
    requires commands != [] && |operators| == |commands| - 1
    requires forall i :: 0 <= i < |commands| ==> SoundCommand(commands[i])
    requires forall i :: 0 <= i < |commands| ==> |commands[i].items| <= 16 && |Flat(Values(commands[i].items))| <= 256
    ensures var line := LineText(commands, operators);
            if |commands| > 32 then Scan(line) == Err(ResourceUnavailable)
            else
              && Scan(line).Ok? && |Scan(line).value| == |commands|
              && forall i :: 0 <= i < |commands| ==> SegmentReads(line, Scan(line).value[i], commands[i],
                                                                 if i < |operators| then Some(operators[i]) else None)
  {
    hide ScanFrom, SoundCommand, LineText, Segments, Flat, Values;
    var line, none: Bytes := LineText(commands, operators), [];
    assert none + line == line;
    ScanLine(none, commands, operators, []);
    var segments := Segments(0, commands, operators);
    assert [] + segments == segments;
    SegmentsLie(none, commands, operators, 0);
    forall i | 0 <= i < |commands|
      ensures SegmentReads(line, segments[i], commands[i], if i < |operators| then Some(operators[i]) else None)
    {
      SegmentsLie(none, commands, operators, i);
      CommandReads(commands[i]);
    }
  }

  /** The segment is followed by this operator, and its words are the command's. */
  ghost predicate SegmentReads(line: Bytes, s: Segment, c: Command, operator: Option<SegmentOperator>) {
    s.start <= s.end <= |line| && s.operator == operator && Parsed(line[s.start..s.end]) == Ok(Values(c.items))
  }

  lemma CommandReads(c: Command)
    requires SoundCommand(c) && |c.items| <= 16 && |Flat(Values(c.items))| <= 256
    ensures Lead(c) <= |ItemsText(c.items)| && Parsed(ItemsText(c.items)[Lead(c)..]) == Ok(Values(c.items))
  {
    hide ItemsText, Values, Flat, Parsed, SoundWord, QuietItems;
    WithoutLead(c.items);
    var bare := [c.items[0].(spaces := 0)] + c.items[1..];
    WordsReadBack(bare, 0);
    assert ItemsText(bare) + Spaces(0) == ItemsText(bare);
  }

  // ---------------------------------------------------------------------------
  // Lines that are refused.

  /** Where only spaces are left there is no segment: fine on a blank line, an error behind an operator. */
  lemma NothingIsLeft(front: Bytes, n: nat, found: seq<Segment>)
    ensures ScanFrom(front + Spaces(n), |front|, Unquoted, |front|, found) ==
            if found == [] then Ok([]) else Err(InvalidSyntax)
  {
    var line, none: Bytes := front + Spaces(n), [];
    assert line == front + Spaces(n) + none;
    ScanSpaces(front, n, none, |front|, found);
    assert TrimStart(line, |front|, |line|) == |line|;
  }

  lemma NothingBeforeOperator(front: Bytes, n: nat, o: SegmentOperator, rest: Bytes, found: seq<Segment>)
    ensures ScanFrom(front + Spaces(n) + (OperatorText(o) + rest), |front|, Unquoted, |front|, found) ==
            Err(InvalidSyntax)
  {
    hide OperatorAt;
    var line := front + Spaces(n) + (OperatorText(o) + rest);
    assert |OperatorText(o)| > 0;
    hide OperatorText;
    ScanSpaces(front, n, OperatorText(o) + rest, |front|, found);
    Sides(front, Spaces(n), OperatorText(o), rest);
    OperatorIsSeen(front + Spaces(n), o, rest);
    assert TrimStart(line, |front|, |front| + n) == |front| + n;
  }

  /** A blank line is nothing; an operator with nothing in front of it, or with nothing behind it, is an error. */
  lemma EmptySegments(c: Command, o: SegmentOperator, n: nat, rest: Bytes)
    requires SoundCommand(c)
    ensures Scan(Spaces(n)) == Ok([])
    ensures Scan(Spaces(n) + (OperatorText(o) + rest)) == Err(InvalidSyntax)
    ensures Scan(CommandText(c) + (OperatorText(o) + Spaces(n))) == Err(InvalidSyntax)
  {
    hide ScanFrom, CommandText, OperatorText, SoundCommand, SegmentOf;
    var none: Bytes := [];
    assert none + Spaces(n) == Spaces(n) && none + CommandText(c) == CommandText(c);
    NothingIsLeft(none, n, []);
    NothingBeforeOperator(none, n, o, rest, []);
    ScanOperator(none, c, o, Spaces(n), []);
    var line := CommandText(c) + (OperatorText(o) + Spaces(n));
    assert line == CommandText(c) + OperatorText(o) + Spaces(n);
    NothingIsLeft(CommandText(c) + OperatorText(o), n, [] + [SegmentOf(0, c, Some(o))]);
  }

  /** Behind some words, a quote that is not closed and a backslash with nothing behind it are errors, of
      the scan and of the tokenizer alike. */
  lemma UnclosedLines(items: seq<Item>, text: Bytes, inner: seq<Inner>)
    requires SoundItems(items) && QuietItems(items) && Sound(Single(text)) && Sound(Double(inner))
    ensures Scan(ItemsText(items) + ([39] + text)) == Err(UnmatchedSingleQuote)
    ensures Scan(ItemsText(items) + ([34] + InnerText(inner))) == Err(UnmatchedDoubleQuote)
    ensures Scan(ItemsText(items) + [92]) == Err(TrailingBackslash)
    ensures Lex(ItemsText(items) + ([39] + text)) == Err(UnmatchedSingleQuote)
    ensures Lex(ItemsText(items) + ([34] + InnerText(inner))) == Err(UnmatchedDoubleQuote)
    ensures Lex(ItemsText(items) + [92]) == Err(TrailingBackslash)
  {
    hide ScanFrom, LexFrom, ItemsText, SoundItems, QuietItems;
    var none: Bytes := [];
    assert none + ItemsText(items) == ItemsText(items);
    forall rest: Bytes
      ensures Scan(ItemsText(items) + rest) == ScanFrom(ItemsText(items) + rest, |ItemsText(items)|, Unquoted, 0, [])
    {
      ScanItems(none, items, rest, 0, []);
    }
    UnclosedScan(ItemsText(items), text, inner);
    UnclosedLex(items, text, inner);
  }

  lemma UnclosedScan(front: Bytes, text: Bytes, inner: seq<Inner>)
    requires Sound(Single(text)) && Sound(Double(inner))
    ensures ScanFrom(front + ([39] + text), |front|, Unquoted, 0, []) == Err(UnmatchedSingleQuote)
    ensures ScanFrom(front + ([34] + InnerText(inner)), |front|, Unquoted, 0, []) == Err(UnmatchedDoubleQuote)
    ensures ScanFrom(front + [92], |front|, Unquoted, 0, []) == Err(TrailingBackslash)
  {
    ScanUnclosedSingle(front, text);
    ScanUnclosedDouble(front, inner);
    assert (front + [92])[|front|] == 92;
  }

  lemma ScanUnclosedSingle(front: Bytes, text: Bytes)
    requires Sound(Single(text))
    ensures ScanFrom(front + ([39] + text), |front|, Unquoted, 0, []) == Err(UnmatchedSingleQuote)
  {
    var none: Bytes := [];
    assert front + ([39] + text) == front + [39] + text == front + [39] + text + none;
    ScanQuote(front, 39, text, 0, []);
    ScanSingle(front + [39], text, none, 0, []);
  }

  lemma ScanUnclosedDouble(front: Bytes, inner: seq<Inner>)
    requires Sound(Double(inner))
    ensures ScanFrom(front + ([34] + InnerText(inner)), |front|, Unquoted, 0, []) == Err(UnmatchedDoubleQuote)
  {
    hide InnerText, ScanFrom;
    var text, none: Bytes := InnerText(inner), [];
    assert front + ([34] + text) == front + [34] + text == front + [34] + text + none;
    ScanQuote(front, 34, text, 0, []);
    ScanDouble(front + [34], inner, none, 0, []);
    EndInQuotes(front + [34] + text);
  }

  lemma EndInQuotes(line: Bytes)
    ensures ScanFrom(line, |line|, DoubleQuoted, 0, []) == Err(UnmatchedDoubleQuote)
  {
  }

  lemma UnclosedLex(items: seq<Item>, text: Bytes, inner: seq<Inner>)
    requires SoundItems(items) && Sound(Single(text)) && Sound(Double(inner))
    ensures Lex(ItemsText(items) + ([39] + text)) == Err(UnmatchedSingleQuote)
    ensures Lex(ItemsText(items) + ([34] + InnerText(inner))) == Err(UnmatchedDoubleQuote)
    ensures Lex(ItemsText(items) + [92]) == Err(TrailingBackslash)
  {
    hide ItemsText, SoundWord, LexFrom;
    var front, none: Bytes, w := ItemsText(items), [], Words([], None);
    assert none + front == front;
    if items == [] { EmptyItems(); }
    var w1, w2, w3 := w, w, w;
    if items != [] {
      w1 := LexItems(none, items, [39] + text, w);
      w2 := LexItems(none, items, [34] + InnerText(inner), w);
      w3 := LexItems(none, items, [92], w);
    }
    UnclosedSingle(front, text, w1);
    UnclosedDouble(front, inner, w2);
    UnclosedEscape(front, w3);
  }

  lemma UnclosedSingle(front: Bytes, text: Bytes, w: Words)
    requires Sound(Single(text))
    ensures LexFrom(front + ([39] + text), |front|, Unquoted, w) == Err(UnmatchedSingleQuote)
  {
    var none: Bytes := [];
    assert front + ([39] + text) == front + [39] + text == front + [39] + text + none;
    LexQuote(front, 39, text, w);
    LexSingle(front + [39], text, none, Words(w.done, Some(w.Opened())));
  }

  lemma UnclosedDouble(front: Bytes, inner: seq<Inner>, w: Words)
    requires Sound(Double(inner))
    ensures LexFrom(front + ([34] + InnerText(inner)), |front|, Unquoted, w) == Err(UnmatchedDoubleQuote)
  {
    var text, none: Bytes := InnerText(inner), [];
    assert front + ([34] + text) == front + [34] + text == front + [34] + text + none;
    LexQuote(front, 34, text, w);
    LexDouble(front + [34], inner, none, Words(w.done, Some(w.Opened())));
  }

  lemma UnclosedEscape(front: Bytes, w: Words)
    ensures LexFrom(front + [92], |front|, Unquoted, w) == Err(TrailingBackslash)
  {
    assert (front + [92])[|front|] == 92;
  }
}
