// kernel/kernel/src/memory/paging.rs: building four-level page tables in flat
// memory, against an independent walk of them (section 4.5 of the Intel SDM,
// Volume 3A).
module Paging {
  import opened Prelude
  import opened Words
  import opened PageOwnership

  const SPAN_4K: nat := 0x1000
  const SPAN_2M: nat := 0x20_0000
  const SPAN_1G: nat := 0x4000_0000
  const SPAN_512G: nat := 0x80_0000_0000
  const VIRT_LIMIT: nat := 0x1_0000_0000_0000

  datatype MemoryError = AllocatorExhausted | OwnedPageCapacityExceeded

  /** Physical memory by page, the free pages, and the pages recorded as owned
      (only while `tracked`). */
  datatype Space = Space(frames: map<nat, Bytes>, free: set<nat>, owned: seq<nat>, tracked: bool)

  /** Contents of a page; memory that was never written reads as zero. */
  function Frame(frames: map<nat, Bytes>, f: nat): (r: Bytes)
    ensures |r| == PAGE_SIZE
  {
    if f in frames && |frames[f]| == PAGE_SIZE then frames[f] else ZeroPage()
  }

  function Entry(frames: map<nat, Bytes>, table: nat, i: nat): nat
    requires i < WORDS_PER_PAGE
  {
    GetWord(Frame(frames, table), i)
  }

  function WithEntry(frames: map<nat, Bytes>, table: nat, i: nat, w: nat): map<nat, Bytes>
    requires i < WORDS_PER_PAGE
  {
    frames[table := SetWord(Frame(frames, table), i, w)]
  }

  // ---------------------------------------------------------------------------
  // The walk, as the processor does it.

  function Pml4Index(v: nat): nat { v / SPAN_512G % WORDS_PER_PAGE }

  function PdptIndex(v: nat): nat { v / SPAN_1G % WORDS_PER_PAGE }

  function PdIndex(v: nat): nat { v / SPAN_2M % WORDS_PER_PAGE }

  function PtIndex(v: nat): nat { v / SPAN_4K % WORDS_PER_PAGE }

  /** Where an address leads and what user code may do there. */
  datatype Translation = Translation(phys: nat, user: bool, writable: bool)

  function Walk(frames: map<nat, Bytes>, root: nat, v: nat): Option<Translation> {
    var e0 := Entry(frames, root, Pml4Index(v));
    if !Present(e0) || Huge(e0) then None else
    var e1 := Entry(frames, AddressOf(e0), PdptIndex(v));
    if !Present(e1) then None
    else if Huge(e1) then Some(Translation(AddressOf(e1) + v % SPAN_1G, User(e0) && User(e1),
        Writable(e0) && Writable(e1)))
    else
    var e2 := Entry(frames, AddressOf(e1), PdIndex(v));
    if !Present(e2) then None
    else if Huge(e2) then
      Some(Translation(AddressOf(e2) + v % SPAN_2M, User(e0) && User(e1) && User(e2),
                       Writable(e0) && Writable(e1) && Writable(e2)))
    else
    var e3 := Entry(frames, AddressOf(e2), PtIndex(v));
    if !Present(e3) then None
    else Some(Translation(AddressOf(e3) + v % SPAN_4K, User(e0) && User(e1) && User(e2) && User(e3),
                          Writable(e0) && Writable(e1) && Writable(e2) && Writable(e3)))
  }

  // ---------------------------------------------------------------------------
  // The tables as a tree. The table of depth `d` that governs region `p` of its
  // span is found through the entry for `p` in the table above; depth 0 is the root.

  function PointsToTable(w: nat): bool { Present(w) && !Huge(w) }

  function TableAt(frames: map<nat, Bytes>, root: nat, d: nat, p: nat): Option<nat>
    decreases d, 0
  {
    if d == 0 then (if p == 0 then Some(root) else None)
    else
      var e := EntryAt(frames, root, d - 1, p);
      if e.Some? && PointsToTable(e.value) then Some(AddressOf(e.value)) else None
  }

  /** The entry of a depth-`d` table that governs region `q` of the span below. */
  function EntryAt(frames: map<nat, Bytes>, root: nat, d: nat, q: nat): Option<nat>
    decreases d, 1
  {
    var t := TableAt(frames, root, d, q / WORDS_PER_PAGE);
    if t.Some? then Some(Entry(frames, t.value, q % WORDS_PER_PAGE)) else None
  }

  /** `f` holds a table of the tree. */
  ghost predicate IsTable(frames: map<nat, Bytes>, root: nat, f: nat) {
    exists d: nat, p: nat :: d <= 3 && TableAt(frames, root, d, p) == Some(f)
  }

  /** Tables are aligned frames that are not free, no two positions share one, every entry
      that points to a table is writable, and an entry for user code hangs below entries
      for user code. */
  ghost predicate Sound(frames: map<nat, Bytes>, free: set<nat>, root: nat) {
    && Placed(frames, free, root)
    && Separate(frames, root)
    && Permissive(frames, root)
    && (forall f :: f in free ==> IsFrame(f))
  }

  ghost predicate Placed(frames: map<nat, Bytes>, free: set<nat>, root: nat) {
    forall d: nat, p: nat :: d <= 3 && TableAt(frames, root, d, p).Some? ==>
      IsFrame(TableAt(frames, root, d, p).value) && TableAt(frames, root, d, p).value !in free
  }

  ghost predicate Separate(frames: map<nat, Bytes>, root: nat) {
    forall d: nat, p: nat, e: nat, q: nat ::
      d <= 3 && e <= 3 && TableAt(frames, root, d, p).Some? &&
          TableAt(frames, root, d, p) == TableAt(frames, root, e, q) ==>
        d == e && p == q
  }

  ghost predicate Permissive(frames: map<nat, Bytes>, root: nat) {
    forall d: nat, q: nat ::
        d <= 3 && EntryAt(frames, root, d, q).Some? && Present(EntryAt(frames, root, d, q).value) ==>
      && (d < 3 && !Huge(EntryAt(frames, root, d, q).value) ==> Writable(EntryAt(frames, root, d, q).value))
      && (d > 0 && User(EntryAt(frames, root, d, q).value) ==>
            EntryAt(frames, root, d - 1, q / WORDS_PER_PAGE).Some?
            && User(EntryAt(frames, root, d - 1, q / WORDS_PER_PAGE).value))
  }

  // ---------------------------------------------------------------------------
  // The walk reads the tree.

  lemma IndexSplit(v: nat)
    requires v < VIRT_LIMIT
    ensures v / SPAN_4K / 512 == v / SPAN_2M && v / SPAN_2M / 512 == v / SPAN_1G
    ensures v / SPAN_1G / 512 == v / SPAN_512G && v / SPAN_512G < 512 && v / SPAN_512G / 512 == 0
  {
  }

  /** What four entries, one per level, make of an address. */
  function LeafOf(e0: Option<nat>, e1: Option<nat>, e2: Option<nat>, e3: Option<nat>, v: nat): Option<Translation> {
    if e1.Some? && Present(e1.value) && Huge(e1.value) && e0.Some? then
      Some(Translation(AddressOf(e1.value) + v % SPAN_1G, User(e0.value) && User(e1.value),
                       Writable(e0.value) && Writable(e1.value)))
    else if e2.Some? && Present(e2.value) && Huge(e2.value) && e1.Some? && e0.Some? then
      Some(Translation(AddressOf(e2.value) + v % SPAN_2M, User(e0.value) && User(e1.value) && User(e2.value),
                       Writable(e0.value) && Writable(e1.value) && Writable(e2.value)))
    else if e3.Some? && Present(e3.value) && e2.Some? && e1.Some? && e0.Some? then
      Some(Translation(AddressOf(e3.value) + v % SPAN_4K,
                       User(e0.value) && User(e1.value) && User(e2.value) && User(e3.value),
                       Writable(e0.value) && Writable(e1.value) && Writable(e2.value) && Writable(e3.value)))
    else None
  }

  function Leaf(frames: map<nat, Bytes>, root: nat, v: nat): Option<Translation> {
    LeafOf(EntryAt(frames, root, 0, v / SPAN_512G), EntryAt(frames, root, 1, v / SPAN_1G),
           EntryAt(frames, root, 2, v / SPAN_2M), EntryAt(frames, root, 3, v / SPAN_4K), v)
  }

  lemma WalkIsLeaf(frames: map<nat, Bytes>, root: nat, v: nat)
    requires v < VIRT_LIMIT
    ensures Walk(frames, root, v) == Leaf(frames, root, v)
  {
    hide Present, Huge, User, Writable, AddressOf, Entry, TableAt, EntryAt;
    IndexSplit(v);
    RootTable(frames, root, 0);
    EntryOf(frames, root, 0, v / SPAN_512G);
    TableBelow(frames, root, 0, v / SPAN_512G);
    EntryOf(frames, root, 1, v / SPAN_1G);
    TableBelow(frames, root, 1, v / SPAN_1G);
    EntryOf(frames, root, 2, v / SPAN_2M);
    TableBelow(frames, root, 2, v / SPAN_2M);
    EntryOf(frames, root, 3, v / SPAN_4K);
  }

  lemma EntryOf(frames: map<nat, Bytes>, root: nat, d: nat, q: nat)
    ensures var t := TableAt(frames, root, d, q / WORDS_PER_PAGE);
            EntryAt(frames, root, d, q) == if t.Some? then Some(Entry(frames, t.value, q % WORDS_PER_PAGE)) else None
  {
  }

  // ---------------------------------------------------------------------------
  // Writes and the tree.

  /** Writing a page that holds no table moves nothing in the tree. */
  lemma {:induction false} TableElsewhere(frames: map<nat, Bytes>, frames': map<nat, Bytes>, root: nat, d: nat, p: nat)
    requires d <= 3 && forall f: nat :: IsTable(frames, root, f) ==> Frame(frames', f) == Frame(frames, f)
    ensures TableAt(frames', root, d, p) == TableAt(frames, root, d, p)
    decreases d, 0
  {
    if d > 0 {
      EntryElsewhere(frames, frames', root, d - 1, p);
    }
  }

  lemma {:induction false} EntryElsewhere(frames: map<nat, Bytes>, frames': map<nat, Bytes>, root: nat, d: nat, q: nat)
    requires d <= 3 && forall f: nat :: IsTable(frames, root, f) ==> Frame(frames', f) == Frame(frames, f)
    ensures EntryAt(frames', root, d, q) == EntryAt(frames, root, d, q)
    decreases d, 1
  {
    TableElsewhere(frames, frames', root, d, q / WORDS_PER_PAGE);
    var t := TableAt(frames, root, d, q / WORDS_PER_PAGE);
    if t.Some? {
      assert IsTable(frames, root, t.value);
    }
  }

  /** The two trees agree everywhere. */
  ghost predicate SameTree(frames: map<nat, Bytes>, frames': map<nat, Bytes>, root: nat) {
    && (forall d: nat, p: nat :: d <= 3 ==> TableAt(frames', root, d, p) == TableAt(frames, root, d, p))
    && (forall d: nat, q: nat :: d <= 3 ==> EntryAt(frames', root, d, q) == EntryAt(frames, root, d, q))
  }

  lemma WriteElsewhere(frames: map<nat, Bytes>, root: nat, f: nat, page: Bytes)
    requires !IsTable(frames, root, f)
    ensures SameTree(frames, frames[f := page], root)
  {
    var frames' := frames[f := page];
    forall d: nat, p: nat | d <= 3 ensures TableAt(frames', root, d, p) == TableAt(frames, root, d, p) {
      TableElsewhere(frames, frames', root, d, p);
    }
    forall d: nat, q: nat | d <= 3 ensures EntryAt(frames', root, d, q) == EntryAt(frames, root, d, q) {
      EntryElsewhere(frames, frames', root, d, q);
    }
  }

  lemma SameTreeIsSound(frames: map<nat, Bytes>, frames': map<nat, Bytes>, free: set<nat>, free': set<nat>, root: nat)
    requires Sound(frames, free, root) && SameTree(frames, frames', root) && free' <= free
    ensures Sound(frames', free', root)
  {
    hide Permissive, Separate, Present, Huge, User, Writable;
    assert Placed(frames', free', root);
    SameTreeSeparate(frames, frames', root);
    SameTreePermissive(frames, frames', root);
  }

  lemma SameTreeSeparate(frames: map<nat, Bytes>, frames': map<nat, Bytes>, root: nat)
    requires Separate(frames, root) && SameTree(frames, frames', root)
    ensures Separate(frames', root)
  {
    hide TableAt, EntryAt;
  }

  lemma SameTreePermissive(frames: map<nat, Bytes>, frames': map<nat, Bytes>, root: nat)
    requires Permissive(frames, root) && SameTree(frames, frames', root)
    ensures Permissive(frames', root)
  {
    hide TableAt, EntryAt, Present, Huge, User, Writable;
  }

  lemma SameTreeSameWalk(frames: map<nat, Bytes>, frames': map<nat, Bytes>, root: nat, v: nat)
    requires SameTree(frames, frames', root) && v < VIRT_LIMIT
    ensures Walk(frames', root, v) == Walk(frames, root, v)
  {
    WalkIsLeaf(frames, root, v);
    WalkIsLeaf(frames', root, v);
    hide TableAt, EntryAt, Walk, LeafOf;
    assert EntryAt(frames', root, 0, v / SPAN_512G) == EntryAt(frames, root, 0, v / SPAN_512G);
    assert EntryAt(frames', root, 1, v / SPAN_1G) == EntryAt(frames, root, 1, v / SPAN_1G);
    assert EntryAt(frames', root, 2, v / SPAN_2M) == EntryAt(frames, root, 2, v / SPAN_2M);
    assert EntryAt(frames', root, 3, v / SPAN_4K) == EntryAt(frames, root, 3, v / SPAN_4K);
    hide SameTree;
  }

  /** The tree after entry `(d0, q0)` is set to `w`, when no table position changes. */
  ghost predicate EntrySet(frames: map<nat, Bytes>, frames': map<nat, Bytes>, root: nat, d0: nat, q0: nat, w: nat) {
    && (forall d: nat, p: nat :: d <= 3 ==> TableAt(frames', root, d, p) == TableAt(frames, root, d, p))
    && (forall d: nat, q: nat :: d <= 3 ==>
          EntryAt(frames', root, d, q) == if d == d0 && q == q0 then Some(w) else EntryAt(frames, root, d, q))
  }

  /** Writing `w` keeps every table in place: it points where the old entry pointed, or is no pointer. */
  ghost predicate KeepsShape(frames: map<nat, Bytes>, root: nat, d0: nat, q0: nat, w: nat) {
    && d0 <= 3 && w < WORD_LIMIT && EntryAt(frames, root, d0, q0).Some?
    && (d0 < 3 ==>
          var was := EntryAt(frames, root, d0, q0).value;
          PointsToTable(w) == PointsToTable(was) && (PointsToTable(w) ==> AddressOf(w) == AddressOf(was)))
  }

  /** Writing a word of the table at `(d0, q0 / 512)` seen from a table at `(d, p)`. */
  lemma WordAfterWrite(frames: map<nat, Bytes>, root: nat, d0: nat, q0: nat, w: nat, d: nat, q: nat)
    requires Separate(frames, root) && d0 <= 3 && d <= 3 && w < WORD_LIMIT
    requires TableAt(frames, root, d0, q0 / WORDS_PER_PAGE).Some? && TableAt(frames, root, d, q / WORDS_PER_PAGE).Some?
    ensures var t := TableAt(frames, root, d0, q0 / WORDS_PER_PAGE).value;
            var f := TableAt(frames, root, d, q / WORDS_PER_PAGE).value;
            Entry(WithEntry(frames, t, q0 % WORDS_PER_PAGE, w), f, q % WORDS_PER_PAGE)
            == if d == d0 && q == q0 then w else Entry(frames, f, q % WORDS_PER_PAGE)
  {
    var t := TableAt(frames, root, d0, q0 / WORDS_PER_PAGE).value;
    var f := TableAt(frames, root, d, q / WORDS_PER_PAGE).value;
    hide TableAt, GetWord, SetWord;
    GetSetWord(Frame(frames, t), q0 % WORDS_PER_PAGE, w, q % WORDS_PER_PAGE);
    if f == t {
      assert d == d0 && q / WORDS_PER_PAGE == q0 / WORDS_PER_PAGE;
      assert q == q0 <==> q % WORDS_PER_PAGE == q0 % WORDS_PER_PAGE;
    }
  }

  lemma {:induction false} ShapeTable(frames: map<nat, Bytes>, root: nat, d0: nat, q0: nat, w: nat, d: nat, p: nat)
    requires Separate(frames, root) && KeepsShape(frames, root, d0, q0, w) && d <= 3
    ensures var t := TableAt(frames, root, d0, q0 / WORDS_PER_PAGE).value;
            TableAt(WithEntry(frames, t, q0 % WORDS_PER_PAGE, w), root, d, p) == TableAt(frames, root, d, p)
    decreases d, 0
  {
    hide Separate, PointsToTable, AddressOf, TableAt, EntryAt, WithEntry;
    TableBelow(frames, root, d0, q0);
    var frames' := WithEntry(frames, TableAt(frames, root, d0, q0 / WORDS_PER_PAGE).value, q0 % WORDS_PER_PAGE, w);
    if d > 0 {
      ShapeEntry(frames, root, d0, q0, w, d - 1, p);
      TableBelow(frames, root, d - 1, p);
      TableBelow(frames', root, d - 1, p);
    } else {
      RootTable(frames, root, p);
      RootTable(frames', root, p);
    }
  }

  lemma {:induction false} ShapeEntry(frames: map<nat, Bytes>, root: nat, d0: nat, q0: nat, w: nat, d: nat, q: nat)
    requires Separate(frames, root) && KeepsShape(frames, root, d0, q0, w) && d <= 3
    ensures var t := TableAt(frames, root, d0, q0 / WORDS_PER_PAGE).value;
            EntryAt(WithEntry(frames, t, q0 % WORDS_PER_PAGE, w), root, d, q)
            == if d == d0 && q == q0 then Some(w) else EntryAt(frames, root, d, q)
    decreases d, 1
  {
    hide Separate, PointsToTable, AddressOf;
    ShapeTable(frames, root, d0, q0, w, d, q / WORDS_PER_PAGE);
    if TableAt(frames, root, d, q / WORDS_PER_PAGE).Some? {
      WordAfterWrite(frames, root, d0, q0, w, d, q);
    }
  }

  lemma WriteEntry(frames: map<nat, Bytes>, root: nat, d0: nat, q0: nat, w: nat)
    requires Separate(frames, root) && KeepsShape(frames, root, d0, q0, w)
    ensures var t := TableAt(frames, root, d0, q0 / WORDS_PER_PAGE).value;
            EntrySet(frames, WithEntry(frames, t, q0 % WORDS_PER_PAGE, w), root, d0, q0, w)
  {
    var t := TableAt(frames, root, d0, q0 / WORDS_PER_PAGE).value;
    var frames' := WithEntry(frames, t, q0 % WORDS_PER_PAGE, w);
    forall d: nat, p: nat | d <= 3 ensures TableAt(frames', root, d, p) == TableAt(frames, root, d, p) {
      ShapeTable(frames, root, d0, q0, w, d, p);
    }
    forall d: nat, q: nat | d <= 3
      ensures EntryAt(frames', root, d, q) == if d == d0 && q == q0 then Some(w) else EntryAt(frames, root, d, q)
    {
      ShapeEntry(frames, root, d0, q0, w, d, q);
    }
  }

  /** The tree after entry `(d0, q0)` is pointed at the zeroed page `child`. */
  ghost predicate TableAdded(frames: map<nat, Bytes>, frames': map<nat, Bytes>, root: nat, d0: nat, q0: nat, w: nat,
                             child: nat) {
    && (forall d: nat, p: nat :: d <= 3 ==>
          TableAt(frames', root, d, p) == if d == d0 + 1 && p == q0 then Some(child) else TableAt(frames, root, d, p))
    && (forall d: nat, q: nat :: d <= 3 ==>
          EntryAt(frames', root, d, q) ==
          if d == d0 && q == q0 then Some(w)
          else if d == d0 + 1 && q / WORDS_PER_PAGE == q0 then Some(0)
          else EntryAt(frames, root, d, q))
  }

  ghost predicate AddsTable(frames: map<nat, Bytes>, root: nat, d0: nat, q0: nat, w: nat, child: nat) {
    && d0 < 3 && w < WORD_LIMIT && EntryAt(frames, root, d0, q0).Some? &&
         !PointsToTable(EntryAt(frames, root, d0, q0).value)
    && PointsToTable(w) && AddressOf(w) == child && !IsTable(frames, root, child) && Frame(frames, child) == ZeroPage()
  }

  lemma TableBelow(frames: map<nat, Bytes>, root: nat, d: nat, q: nat)
    ensures var e := EntryAt(frames, root, d, q);
            TableAt(frames, root, d + 1, q) == if e.Some? && PointsToTable(e.value) then Some(AddressOf(e.value))
                else None
    ensures TableAt(frames, root, d, q / WORDS_PER_PAGE).None? ==> EntryAt(frames, root, d, q).None?
  {
  }

  lemma {:induction false} AddedTable(frames: map<nat, Bytes>, root: nat, d0: nat, q0: nat, w: nat, child: nat, d: nat,
                                      p: nat)
    requires Separate(frames, root) && AddsTable(frames, root, d0, q0, w, child) && d <= 3
    ensures var t := TableAt(frames, root, d0, q0 / WORDS_PER_PAGE).value;
            TableAt(WithEntry(frames, t, q0 % WORDS_PER_PAGE, w), root, d, p)
            == if d == d0 + 1 && p == q0 then Some(child) else TableAt(frames, root, d, p)
    decreases d, 0
  {
    hide Separate, PointsToTable, AddressOf, IsTable, TableAt, EntryAt, WithEntry, Frame, ZeroPage;
    TableBelow(frames, root, d0, q0);
    var frames' := WithEntry(frames, TableAt(frames, root, d0, q0 / WORDS_PER_PAGE).value, q0 % WORDS_PER_PAGE, w);
    NoPointer();
    if d > 0 {
      AddedEntry(frames, root, d0, q0, w, child, d - 1, p);
      TableBelow(frames, root, d - 1, p);
      TableBelow(frames', root, d - 1, p);
    } else {
      RootTable(frames, root, p);
      RootTable(frames', root, p);
    }
  }

  lemma NoPointer()
    ensures !PointsToTable(0)
  {
  }

  lemma RootTable(frames: map<nat, Bytes>, root: nat, p: nat)
    ensures TableAt(frames, root, 0, p) == if p == 0 then Some(root) else None
  {
  }

  lemma {:induction false} AddedEntry(frames: map<nat, Bytes>, root: nat, d0: nat, q0: nat, w: nat, child: nat, d: nat,
                                      q: nat)
    requires Separate(frames, root) && AddsTable(frames, root, d0, q0, w, child) && d <= 3
    ensures var t := TableAt(frames, root, d0, q0 / WORDS_PER_PAGE).value;
            EntryAt(WithEntry(frames, t, q0 % WORDS_PER_PAGE, w), root, d, q)
            == if d == d0 && q == q0 then Some(w)
               else if d == d0 + 1 && q / WORDS_PER_PAGE == q0 then Some(0)
               else EntryAt(frames, root, d, q)
    decreases d, 1
  {
    hide Separate, PointsToTable, AddressOf;
    var t := TableAt(frames, root, d0, q0 / WORDS_PER_PAGE).value;
    assert IsTable(frames, root, t);
    AddedTable(frames, root, d0, q0, w, child, d, q / WORDS_PER_PAGE);
    if d == d0 + 1 && q / WORDS_PER_PAGE == q0 {
      ZeroPageWords(q % WORDS_PER_PAGE);
    } else if TableAt(frames, root, d, q / WORDS_PER_PAGE).Some? {
      WordAfterWrite(frames, root, d0, q0, w, d, q);
    }
  }

  lemma WriteTable(frames: map<nat, Bytes>, root: nat, d0: nat, q0: nat, w: nat, child: nat)
    requires Separate(frames, root) && AddsTable(frames, root, d0, q0, w, child)
    ensures var t := TableAt(frames, root, d0, q0 / WORDS_PER_PAGE).value;
            TableAdded(frames, WithEntry(frames, t, q0 % WORDS_PER_PAGE, w), root, d0, q0, w, child)
  {
    var t := TableAt(frames, root, d0, q0 / WORDS_PER_PAGE).value;
    var frames' := WithEntry(frames, t, q0 % WORDS_PER_PAGE, w);
    forall d: nat, p: nat | d <= 3
      ensures TableAt(frames', root, d, p) == if d == d0 + 1 && p == q0 then Some(child)
                else TableAt(frames, root, d, p)
    {
      AddedTable(frames, root, d0, q0, w, child, d, p);
    }
    forall d: nat, q: nat | d <= 3
      ensures EntryAt(frames', root, d, q) ==
              if d == d0 && q == q0 then Some(w)
              else if d == d0 + 1 && q / WORDS_PER_PAGE == q0 then Some(0)
              else EntryAt(frames, root, d, q)
    {
      AddedEntry(frames, root, d0, q0, w, child, d, q);
    }
  }

  // ---------------------------------------------------------------------------
  // What the writes do to soundness and to the walk.

  lemma EntrySetIsSound(frames: map<nat, Bytes>, frames': map<nat, Bytes>, free: set<nat>, root: nat, d0: nat, q0: nat,
                        w: nat)
    requires Sound(frames, free, root) && EntrySet(frames, frames', root, d0, q0, w)
    requires d0 <= 3 && EntryAt(frames, root, d0, q0).Some?
    requires d0 < 3 && Present(w) && !Huge(w) ==> Writable(w)
    requires d0 > 0 && Present(w) && User(w) ==>
               EntryAt(frames, root, d0 - 1, q0 / WORDS_PER_PAGE).Some?
               && User(EntryAt(frames, root, d0 - 1, q0 / WORDS_PER_PAGE).value)
    requires var was := EntryAt(frames, root, d0, q0).value;
             d0 < 3 && PointsToTable(was) && User(was) ==> User(w)
    ensures Sound(frames', free, root)
  {
    assert Placed(frames', free, root) &&
             Separate(frames', root) by { hide EntryAt, TableAt, Present, User, Writable, Huge; }
    forall d: nat, q: nat | d <= 3 && EntryAt(frames', root, d, q).Some? && Present(EntryAt(frames', root, d, q).value)
      ensures d < 3 && !Huge(EntryAt(frames', root, d, q).value) ==> Writable(EntryAt(frames', root, d, q).value)
      ensures d > 0 && User(EntryAt(frames', root, d, q).value) ==>
                EntryAt(frames', root, d - 1, q / WORDS_PER_PAGE).Some?
                && User(EntryAt(frames', root, d - 1, q / WORDS_PER_PAGE).value)
    {
      if d > 0 { TableBelow(frames, root, d - 1, q / WORDS_PER_PAGE); }
      hide TableAt, EntryAt, Placed, Separate;
      assert d != d0 || q != q0 ==> EntryAt(frames', root, d, q) == EntryAt(frames, root, d, q);
    }
  }

  lemma TableAddedIsSound(frames: map<nat, Bytes>, frames': map<nat, Bytes>, free: set<nat>, root: nat,
                          d0: nat, q0: nat, w: nat, child: nat)
    requires Sound(frames, free, root) && TableAdded(frames, frames', root, d0, q0, w, child)
    requires AddsTable(frames, root, d0, q0, w, child) && IsFrame(child) && child !in free && Writable(w)
    requires d0 > 0 && User(w) ==>
               EntryAt(frames, root, d0 - 1, q0 / WORDS_PER_PAGE).Some?
               && User(EntryAt(frames, root, d0 - 1, q0 / WORDS_PER_PAGE).value)
    ensures Sound(frames', free, root)
  {
    assert !Present(0);
    AddedIsPlaced(frames, frames', free, root, d0, q0, w, child);
    AddedIsSeparate(frames, frames', root, d0, q0, w, child);
    AddedIsPermissive(frames, frames', root, d0, q0, w, child);
  }

  lemma AddedIsPlaced(frames: map<nat, Bytes>, frames': map<nat, Bytes>, free: set<nat>, root: nat,
                      d0: nat, q0: nat, w: nat, child: nat)
    requires Placed(frames, free, root) && TableAdded(frames, frames', root, d0, q0, w, child)
    requires IsFrame(child) && child !in free
    ensures Placed(frames', free, root)
  {
    hide TableAt, EntryAt;
  }

  lemma AddedIsSeparate(frames: map<nat, Bytes>, frames': map<nat, Bytes>, root: nat,
                        d0: nat, q0: nat, w: nat, child: nat)
    requires Separate(frames, root) && TableAdded(frames, frames', root, d0, q0, w, child)
    requires !IsTable(frames, root, child)
    ensures Separate(frames', root)
  {
    hide TableAt, EntryAt;
  }

  lemma AddedIsPermissive(frames: map<nat, Bytes>, frames': map<nat, Bytes>, root: nat,
                          d0: nat, q0: nat, w: nat, child: nat)
    requires Permissive(frames, root) && TableAdded(frames, frames', root, d0, q0, w, child)
    requires AddsTable(frames, root, d0, q0, w, child) && Writable(w) && !Present(0)
    requires d0 > 0 && User(w) ==>
               EntryAt(frames, root, d0 - 1, q0 / WORDS_PER_PAGE).Some?
               && User(EntryAt(frames, root, d0 - 1, q0 / WORDS_PER_PAGE).value)
    ensures Permissive(frames', root)
  {
    hide TableAt, EntryAt, Present, Huge, User, Writable, AddressOf, PointsToTable, IsTable, Frame, ZeroPage;
    TableBelow(frames, root, d0, q0);
    forall d: nat, q: nat | d <= 3 && EntryAt(frames', root, d, q).Some? && Present(EntryAt(frames', root, d, q).value)
      ensures d < 3 && !Huge(EntryAt(frames', root, d, q).value) ==> Writable(EntryAt(frames', root, d, q).value)
      ensures d > 0 && User(EntryAt(frames', root, d, q).value) ==>
                EntryAt(frames', root, d - 1, q / WORDS_PER_PAGE).Some?
                && User(EntryAt(frames', root, d - 1, q / WORDS_PER_PAGE).value)
    {
      if d > 0 {
        TableBelow(frames, root, d - 1, q / WORDS_PER_PAGE);
        TableBelow(frames, root, d, q);
      }
      assert d != d0 || q != q0 ==>
               EntryAt(frames', root, d, q) == EntryAt(frames, root, d, q) || EntryAt(frames', root, d, q) == Some(0);
    }
  }

  /** The four entries of a sound walk: each but the last points to the next table, and
      user entries hang below user entries. */
  ghost predicate ChainOf(e0: Option<nat>, e1: Option<nat>, e2: Option<nat>, e3: Option<nat>) {
    && Below(e0, e1) && Below(e1, e2) && Below(e2, e3)
  }

  ghost predicate Below(e: Option<nat>, next: Option<nat>) {
    && (next.Some? <==> e.Some? && PointsToTable(e.value))
    && (next.Some? ==> Writable(e.value))
    && (next.Some? && Present(next.value) && User(next.value) ==> User(e.value))
  }

  lemma EntryBelow(frames: map<nat, Bytes>, root: nat, d: nat, q: nat)
    requires Permissive(frames, root) && d < 3
    ensures Below(EntryAt(frames, root, d, q / WORDS_PER_PAGE), EntryAt(frames, root, d + 1, q))
  {
    TableBelow(frames, root, d, q / WORDS_PER_PAGE);
    assert EntryAt(frames, root, d + 1, q).Some? <==> TableAt(frames, root, d + 1, q / WORDS_PER_PAGE).Some?;
    hide TableAt, EntryAt;
  }

  lemma WalkChain(frames: map<nat, Bytes>, root: nat, v: nat)
    requires Permissive(frames, root) && v < VIRT_LIMIT
    ensures EntryAt(frames, root, 0, v / SPAN_512G).Some?
    ensures ChainOf(EntryAt(frames, root, 0, v / SPAN_512G), EntryAt(frames, root, 1, v / SPAN_1G),
                    EntryAt(frames, root, 2, v / SPAN_2M), EntryAt(frames, root, 3, v / SPAN_4K))
  {
    IndexSplit(v);
    assert TableAt(frames, root, 0, 0) == Some(root);
    assert EntryAt(frames, root, 0, v / SPAN_512G).Some?;
    hide Permissive, TableAt, EntryAt;
    EntryBelow(frames, root, 0, v / SPAN_1G);
    EntryBelow(frames, root, 1, v / SPAN_2M);
    EntryBelow(frames, root, 2, v / SPAN_4K);
  }

  /** Setting the user bit of an entry that points to a table changes no translation,
      because nothing below it was for user code. */
  lemma UserBitAbove(e0: Option<nat>, e1: Option<nat>, e2: Option<nat>, e3: Option<nat>, v: nat)
    requires ChainOf(e0, e1, e2, e3)
    requires forall e: nat :: e < WORD_LIMIT ==>
               AddressOf(WithUser(e)) == AddressOf(e) && Present(WithUser(e)) == Present(e)
               && Huge(WithUser(e)) == Huge(e) && Writable(WithUser(e)) == Writable(e)
    ensures e0.Some? && e0.value < WORD_LIMIT && PointsToTable(e0.value) ==>
              LeafOf(Some(WithUser(e0.value)), e1, e2, e3, v) == LeafOf(e0, e1, e2, e3, v)
    ensures e1.Some? && e1.value < WORD_LIMIT && PointsToTable(e1.value) ==>
              LeafOf(e0, Some(WithUser(e1.value)), e2, e3, v) == LeafOf(e0, e1, e2, e3, v)
    ensures e2.Some? && e2.value < WORD_LIMIT && PointsToTable(e2.value) ==>
              LeafOf(e0, e1, Some(WithUser(e2.value)), e3, v) == LeafOf(e0, e1, e2, e3, v)
  {
    hide Present, Huge, User, Writable, AddressOf;
  }

  /** The region of depth `d` an address lies in: the index of the entry that governs it. */
  function Region(d: nat, v: nat): nat
    requires d <= 3
  {
    if d == 0 then v / SPAN_512G else if d == 1 then v / SPAN_1G else if d == 2 then v / SPAN_2M else v / SPAN_4K
  }

  lemma WalkAfterUserBit(frames: map<nat, Bytes>, frames': map<nat, Bytes>, root: nat, d0: nat, q0: nat, v: nat)
    requires Permissive(frames, root) && d0 < 3 && v < VIRT_LIMIT && EntryAt(frames, root, d0, q0).Some?
    requires var was := EntryAt(frames, root, d0, q0).value;
             was < WORD_LIMIT && PointsToTable(was) && EntrySet(frames, frames', root, d0, q0, WithUser(was))
    ensures Walk(frames', root, v) == Walk(frames, root, v)
  {
    WalkIsLeaf(frames, root, v);
    WalkIsLeaf(frames', root, v);
    WalkChain(frames, root, v);
    hide Permissive, TableAt, EntryAt, Walk, LeafOf, WithUser, PointsToTable, ChainOf;
    forall e: nat | e < WORD_LIMIT
      ensures AddressOf(WithUser(e)) == AddressOf(e) && Present(WithUser(e)) == Present(e)
              && Huge(WithUser(e)) == Huge(e) && Writable(WithUser(e)) == Writable(e)
    {
      WithUserParts(e);
    }
    UserBitAbove(EntryAt(frames, root, 0, Region(0, v)), EntryAt(frames, root, 1, Region(1, v)),
                 EntryAt(frames, root, 2, Region(2, v)), EntryAt(frames, root, 3, Region(3, v)), v);
    hide Present, Huge, User, Writable, AddressOf;
    EntriesAfterSet(frames, frames', root, d0, q0, WithUser(EntryAt(frames, root, d0, q0).value), v);
    hide EntrySet;
  }

  lemma EntriesAfterSet(frames: map<nat, Bytes>, frames': map<nat, Bytes>, root: nat, d0: nat, q0: nat, w: nat, v: nat)
    requires EntrySet(frames, frames', root, d0, q0, w)
    ensures EntryAt(frames', root, 0, Region(0, v)) == if d0 == 0 && Region(0, v) == q0 then Some(w)
              else EntryAt(frames, root, 0, Region(0, v))
    ensures EntryAt(frames', root, 1, Region(1, v)) == if d0 == 1 && Region(1, v) == q0 then Some(w)
              else EntryAt(frames, root, 1, Region(1, v))
    ensures EntryAt(frames', root, 2, Region(2, v)) == if d0 == 2 && Region(2, v) == q0 then Some(w)
              else EntryAt(frames, root, 2, Region(2, v))
    ensures EntryAt(frames', root, 3, Region(3, v)) == if d0 == 3 && Region(3, v) == q0 then Some(w)
              else EntryAt(frames, root, 3, Region(3, v))
  {
    hide EntryAt, TableAt;
  }

  /** A last-level entry decides its own page and nothing else. */
  lemma WalkAfterPage(frames: map<nat, Bytes>, frames': map<nat, Bytes>, root: nat, q0: nat, w: nat, v: nat)
    requires Permissive(frames, root) && v < VIRT_LIMIT && EntryAt(frames, root, 3, q0).Some?
    requires EntrySet(frames, frames', root, 3, q0, w) && Present(w)
    requires User(w) ==> EntryAt(frames, root, 2, q0 / WORDS_PER_PAGE).Some?
                         && User(EntryAt(frames, root, 2, q0 / WORDS_PER_PAGE).value)
    ensures Walk(frames', root, v) ==
            if v / SPAN_4K == q0 then Some(Translation(AddressOf(w) + v % SPAN_4K, User(w), Writable(w)))
            else Walk(frames, root, v)
  {
    WalkIsLeaf(frames, root, v);
    WalkIsLeaf(frames', root, v);
    WalkChain(frames, root, v);
    IndexSplit(v);
    EntriesAfterSet(frames, frames', root, 3, q0, w, v);
    hide Permissive, TableAt, EntryAt, Walk, EntrySet;
    if v / SPAN_4K == q0 {
      PageOf(EntryAt(frames, root, 0, Region(0, v)), EntryAt(frames, root, 1, Region(1, v)),
             EntryAt(frames, root, 2, Region(2, v)), EntryAt(frames, root, 3, Region(3, v)), w, v);
    }
  }

  lemma PageOf(e0: Option<nat>, e1: Option<nat>, e2: Option<nat>, e3: Option<nat>, w: nat, v: nat)
    requires ChainOf(e0, e1, e2, e3) && e3.Some? && Present(w) && (User(w) ==> User(e2.value))
    ensures LeafOf(e0, e1, e2, Some(w), v) == Some(Translation(AddressOf(w) + v % SPAN_4K, User(w), Writable(w)))
  {
    hide Present, Huge, User, Writable, AddressOf;
  }

  /** A 2 MiB entry decides its own region and nothing else. */
  lemma WalkAfterHuge(frames: map<nat, Bytes>, frames': map<nat, Bytes>, root: nat, q0: nat, w: nat, v: nat)
    requires Permissive(frames, root) && v < VIRT_LIMIT && EntryAt(frames, root, 2, q0).Some?
    requires !PointsToTable(EntryAt(frames, root, 2, q0).value)
    requires EntrySet(frames, frames', root, 2, q0, w) && Present(w) && Huge(w)
    requires User(w) ==> EntryAt(frames, root, 1, q0 / WORDS_PER_PAGE).Some?
                         && User(EntryAt(frames, root, 1, q0 / WORDS_PER_PAGE).value)
    ensures Walk(frames', root, v) ==
            if v / SPAN_2M == q0 then Some(Translation(AddressOf(w) + v % SPAN_2M, User(w), Writable(w)))
            else Walk(frames, root, v)
  {
    WalkIsLeaf(frames, root, v);
    WalkIsLeaf(frames', root, v);
    WalkChain(frames, root, v);
    IndexSplit(v);
    EntriesAfterSet(frames, frames', root, 2, q0, w, v);
    hide Permissive, TableAt, EntryAt, Walk, EntrySet;
    if v / SPAN_2M == q0 {
      HugeOf(EntryAt(frames, root, 0, Region(0, v)), EntryAt(frames, root, 1, Region(1, v)),
             EntryAt(frames, root, 2, Region(2, v)), EntryAt(frames, root, 3, Region(3, v)), w, v);
    }
  }

  lemma HugeOf(e0: Option<nat>, e1: Option<nat>, e2: Option<nat>, e3: Option<nat>, w: nat, v: nat)
    requires ChainOf(e0, e1, e2, e3) && e2.Some? && Present(w) && Huge(w) && (User(w) ==> User(e1.value))
    ensures LeafOf(e0, e1, Some(w), e3, v) == Some(Translation(AddressOf(w) + v % SPAN_2M, User(w), Writable(w)))
  {
    hide Present, User, Writable, AddressOf;
  }

  /** A new empty table translates nothing, as did the absent entry it replaces. */
  lemma WalkAfterTable(frames: map<nat, Bytes>, frames': map<nat, Bytes>, root: nat, d0: nat, q0: nat, w: nat,
                       child: nat, v: nat)
    requires Permissive(frames, root) && v < VIRT_LIMIT && AddsTable(frames, root, d0, q0, w, child)
    requires TableAdded(frames, frames', root, d0, q0, w, child) && !Present(EntryAt(frames, root, d0, q0).value)
    requires Permissive(frames', root)
    ensures Walk(frames', root, v) == Walk(frames, root, v)
  {
    WalkIsLeaf(frames, root, v);
    WalkIsLeaf(frames', root, v);
    WalkChain(frames, root, v);
    WalkChain(frames', root, v);
    IndexSplit(v);
    assert !Present(0);
    hide Permissive, TableAt, EntryAt, Walk, Huge, User, Writable, AddressOf;
    if Region(d0, v) != q0 {
      assert d0 < 3 ==> Region(d0 + 1, v) / WORDS_PER_PAGE == Region(d0, v);
      EntriesApart(frames, frames', root, d0, q0, w, child, v);
      hide LeafOf, TableAdded;
    } else {
      EntriesUnderNew(frames, frames', root, d0, q0, w, child, v);
    }
  }

  lemma EntriesApart(frames: map<nat, Bytes>, frames': map<nat, Bytes>, root: nat, d0: nat, q0: nat, w: nat, child: nat,
                     v: nat)
    requires d0 < 3 && TableAdded(frames, frames', root, d0, q0, w, child) && Region(d0, v) != q0
    requires Region(d0 + 1, v) / WORDS_PER_PAGE == Region(d0, v)
    ensures forall d: nat :: d <= 3 ==>
              EntryAt(frames', root, d, Region(d, v)) == EntryAt(frames, root, d, Region(d, v))
  {
    hide EntryAt, TableAt;
  }

  lemma EntriesUnderNew(frames: map<nat, Bytes>, frames': map<nat, Bytes>, root: nat, d0: nat, q0: nat, w: nat,
                        child: nat, v: nat)
    requires d0 < 3 && TableAdded(frames, frames', root, d0, q0, w, child) && Region(d0, v) == q0 && v < VIRT_LIMIT
    requires Region(d0 + 1, v) / WORDS_PER_PAGE == Region(d0, v) && PointsToTable(w)
    requires EntryAt(frames, root, d0, q0).Some? && !Present(EntryAt(frames, root, d0, q0).value) && !Present(0)
    requires ChainOf(EntryAt(frames, root, 0, Region(0, v)), EntryAt(frames, root, 1, Region(1, v)),
                     EntryAt(frames, root, 2, Region(2, v)), EntryAt(frames, root, 3, Region(3, v)))
    requires ChainOf(EntryAt(frames', root, 0, Region(0, v)), EntryAt(frames', root, 1, Region(1, v)),
                     EntryAt(frames', root, 2, Region(2, v)), EntryAt(frames', root, 3, Region(3, v)))
    ensures Leaf(frames, root, v) == None && Leaf(frames', root, v) == None
  {
    hide EntryAt, TableAt, User, Writable, AddressOf;
    assert EntryAt(frames', root, d0 + 1, Region(d0 + 1, v)) == Some(0);
    assert EntryAt(frames', root, d0, Region(d0, v)) == Some(w);
  }

  // ---------------------------------------------------------------------------
  // The builder's operations.

  lemma LowestExists(free: set<nat>)
    requires free != {}
    ensures exists p :: p in free && forall q :: q in free ==> p <= q
  {
    var p := LeastOf(free);
  }

  lemma {:induction false} LeastOf(free: set<nat>) returns (least: nat)
    requires free != {}
    ensures least in free && forall q :: q in free ==> least <= q
    decreases |free|
  {
    var x :| x in free;
    least := x;
    if free != {x} {
      var p := LeastOf(free - {x});
      least := if x < p then x else p;
      forall q | q in free ensures least <= q {
        assert q == x || q in free - {x};
      }
    }
  }

  /** The page the allocator hands out. */
  ghost function Lowest(free: set<nat>): (p: nat)
    requires free != {}
    ensures p in free && forall q :: q in free ==> p <= q
  {
    LowestExists(free);
    var p :| p in free && forall q :: q in free ==> p <= q;
    p
  }

  /** The allocator's zeroed page, out of the free set. */
  ghost function Allocated(s: Space): Space
    requires s.free != {}
  {
    s.(frames := s.frames[Lowest(s.free) := ZeroPage()], free := s.free - {Lowest(s.free)})
  }

  function TableWord(child: nat, user: bool): nat {
    child + PAGE_TABLE_FLAGS + if user then PAGE_USER else 0
  }

  ghost function EnsureTable(s: Space, table: nat, index: nat, user: bool): (Space, Result<nat, MemoryError>)
    requires index < WORDS_PER_PAGE
  {
    var entry := Entry(s.frames, table, index);
    if Present(entry) then
      (if user && !User(entry) then s.(frames := WithEntry(s.frames, table, index, WithUser(entry))) else s,
       Ok(AddressOf(entry)))
    else if s.free == {} then (s, Err(AllocatorExhausted))
    else
      var child, taken := Lowest(s.free), Allocated(s);
      if s.tracked && |s.owned| >= MAX_OWNED_PAGES then (taken, Err(OwnedPageCapacityExceeded))
      else
        (taken.(owned := if s.tracked then s.owned + [child] else s.owned,
                frames := WithEntry(taken.frames, table, index, TableWord(child, user))),
         Ok(child))
  }

  ghost function EnsureDirectory(s: Space, root: nat, virt: nat, user: bool): (Space, Result<nat, MemoryError>) {
    var (s1, pdpt) := EnsureTable(s, root, Pml4Index(virt), user);
    if pdpt.Err? then (s1, pdpt) else EnsureTable(s1, pdpt.value, PdptIndex(virt), user)
  }

  ghost function EnsurePageTable(s: Space, root: nat, virt: nat, user: bool): (Space, Result<nat, MemoryError>) {
    var (s1, pd) := EnsureDirectory(s, root, virt, user);
    if pd.Err? then (s1, pd) else EnsureTable(s1, pd.value, PdIndex(virt), user)
  }

  ghost function Map4k(s: Space, root: nat, virt: nat, phys: nat, flags: nat): (Space, Result<(), MemoryError>) {
    var (s1, pt) := EnsurePageTable(s, root, virt, User(flags));
    if pt.Err? then (s1, Err(pt.error))
    else (s1.(frames := WithEntry(s1.frames, pt.value, PtIndex(virt), phys + flags)), Ok(()))
  }

  ghost function Map2m(s: Space, root: nat, virt: nat, phys: nat, flags: nat): (Space, Result<(), MemoryError>) {
    var (s1, pd) := EnsureDirectory(s, root, virt, User(flags));
    if pd.Err? then (s1, Err(pd.error))
    else (s1.(frames := WithEntry(s1.frames, pd.value, PdIndex(virt), phys + flags + PAGE_HUGE)), Ok(()))
  }

  // ---------------------------------------------------------------------------
  // What one `ensure_table` keeps.

  ghost predicate Good(s: Space, root: nat) {
    Sound(s.frames, s.free, root)
  }

  ghost predicate HugeAt(frames: map<nat, Bytes>, root: nat, d: nat, q: nat) {
    var e := EntryAt(frames, root, d, q);
    d <= 3 && e.Some? && Present(e.value) && Huge(e.value)
  }

  /** Every translation is as before, tables stay where they were, nothing new is huge,
      and pages that are neither tables nor free keep their bytes. */
  ghost predicate Quiet(s: Space, s': Space, root: nat) {
    && (forall v: nat :: v < VIRT_LIMIT ==> Walk(s'.frames, root, v) == Walk(s.frames, root, v))
    && (forall d: nat, p: nat :: d <= 3 && TableAt(s.frames, root, d, p).Some? ==>
          TableAt(s'.frames, root, d, p) == TableAt(s.frames, root, d, p))
    && (forall d: nat, q: nat :: HugeAt(s'.frames, root, d, q) ==> HugeAt(s.frames, root, d, q))
    && s'.free <= s.free && s'.tracked == s.tracked
    && (forall f: nat :: f !in s.free && !IsTable(s.frames, root, f) ==>
          Frame(s'.frames, f) == Frame(s.frames, f) && !IsTable(s'.frames, root, f))
  }

  /** The last-level tables are the same. */
  ghost predicate SameLastLevel(s: Space, s': Space, root: nat) {
    forall p: nat :: TableAt(s'.frames, root, 3, p) == TableAt(s.frames, root, 3, p)
  }

  lemma QuietTwice(s: Space, s': Space, s'': Space, root: nat)
    requires Quiet(s, s', root) && Quiet(s', s'', root)
    ensures Quiet(s, s'', root)
  {
    hide TableAt, HugeAt, Walk, IsTable;
  }

  /** Pages are neither made nor destroyed: what leaves the free set is owned or leaked. */
  ghost predicate Conserved(s: Space, s': Space, leak: set<nat>) {
    s.tracked ==> multiset(s.free) + multiset(s.owned) == multiset(s'.free) + multiset(s'.owned) + multiset(leak)
  }

  lemma FreeIsNoTable(s: Space, root: nat, f: nat)
    requires Good(s, root) && f in s.free
    ensures !IsTable(s.frames, root, f)
  {
    hide TableAt, Separate, Permissive;
  }

  lemma UserBitStep(s: Space, root: nat, d0: nat, q0: nat)
    requires Good(s, root) && d0 < 3 && TableAt(s.frames, root, d0, q0 / WORDS_PER_PAGE).Some?
    requires EntryAt(s.frames, root, d0, q0).Some? && PointsToTable(EntryAt(s.frames, root, d0, q0).value)
    requires d0 > 0 ==> EntryAt(s.frames, root, d0 - 1, q0 / WORDS_PER_PAGE).Some?
                        && User(EntryAt(s.frames, root, d0 - 1, q0 / WORDS_PER_PAGE).value)
    ensures var t, was := TableAt(s.frames, root, d0, q0 / WORDS_PER_PAGE).value, EntryAt(s.frames, root, d0, q0).value;
            var s' := s.(frames := WithEntry(s.frames, t, q0 % WORDS_PER_PAGE, WithUser(was)));
            && Good(s', root) && Quiet(s, s', root) && SameLastLevel(s, s', root)
            && TableAt(s'.frames, root, d0 + 1, q0) == Some(AddressOf(was))
            && EntryAt(s'.frames, root, d0, q0).Some? && User(EntryAt(s'.frames, root, d0, q0).value)
  {
    var t, was := TableAt(s.frames, root, d0, q0 / WORDS_PER_PAGE).value, EntryAt(s.frames, root, d0, q0).value;
    var frames' := WithEntry(s.frames, t, q0 % WORDS_PER_PAGE, WithUser(was));
    hide TableAt, EntryAt, AddressOf, Huge, Writable, User, WithUser, Walk, GetWord, SetWord, WithEntry, Frame, Placed,
         Separate;
    GetWordIsBounded(Frame(s.frames, t), q0 % WORDS_PER_PAGE);
    EntryOf(s.frames, root, d0, q0);
    WithUserParts(was);
    TableBelow(s.frames, root, d0, q0);
    assert IsTable(s.frames, root, t);
    assert Writable(was);
    hide Present, Permissive;
    WriteEntry(s.frames, root, d0, q0, WithUser(was));
    EntrySetIsSound(s.frames, frames', s.free, root, d0, q0, WithUser(was));
    forall v: nat | v < VIRT_LIMIT ensures Walk(frames', root, v) == Walk(s.frames, root, v) {
      WalkAfterUserBit(s.frames, frames', root, d0, q0, v);
    }
    hide Sound;
    EntrySetIsQuiet(s, s.(frames := frames'), root, d0, q0, WithUser(was));
  }

  /** Setting an entry that is no huge mapping leaves the rest of memory alone. */
  lemma EntrySetIsQuiet(s: Space, s': Space, root: nat, d0: nat, q0: nat, w: nat)
    requires d0 <= 3 && TableAt(s.frames, root, d0, q0 / WORDS_PER_PAGE).Some?
    requires s' == s.(frames := WithEntry(s.frames, TableAt(s.frames, root, d0, q0 / WORDS_PER_PAGE).value,
               q0 % WORDS_PER_PAGE, w))
    requires EntrySet(s.frames, s'.frames, root, d0, q0, w)
    ensures forall d: nat, p: nat :: d <= 3 && TableAt(s.frames, root, d, p).Some? ==>
              TableAt(s'.frames, root, d, p) == TableAt(s.frames, root, d, p)
    ensures SameLastLevel(s, s', root)
    ensures forall d: nat, q: nat :: HugeAt(s'.frames, root, d, q) ==>
              HugeAt(s.frames, root, d, q) || (d == d0 && q == q0 && Huge(w))
    ensures forall f: nat :: f !in s.free && !IsTable(s.frames, root, f) ==>
              Frame(s'.frames, f) == Frame(s.frames, f) && !IsTable(s'.frames, root, f)
  {
    hide TableAt, EntryAt, Present, Huge;
    assert IsTable(s.frames, root, TableAt(s.frames, root, d0, q0 / WORDS_PER_PAGE).value);
  }

  /** Taking the lowest free page and zeroing it. */
  lemma TakeStep(s: Space, root: nat)
    requires Good(s, root) && s.free != {}
    ensures var s', child := Allocated(s), Lowest(s.free);
            && Good(s', root) && Quiet(s, s', root) && SameTree(s.frames, s'.frames, root) && SameLastLevel(s, s', root)
            && !IsTable(s'.frames, root, child) && Frame(s'.frames, child) == ZeroPage() && IsFrame(child)
            && child !in s'.free && s'.owned == s.owned
  {
    var s', child := Allocated(s), Lowest(s.free);
    FreeIsNoTable(s, root, child);
    hide Sound;
    WriteElsewhere(s.frames, root, child, ZeroPage());
    SameTreeIsSound(s.frames, s'.frames, s.free, s'.free, root);
    forall v: nat | v < VIRT_LIMIT ensures Walk(s'.frames, root, v) == Walk(s.frames, root, v) {
      SameTreeSameWalk(s.frames, s'.frames, root, v);
    }
    assert IsFrame(child) by { assert Sound(s.frames, s.free, root); }
    hide TableAt, EntryAt, Walk, ZeroPage;
  }

  /** Pointing an absent entry at the zeroed page `child`. */
  lemma AddStep(s: Space, root: nat, d0: nat, q0: nat, child: nat, user: bool, owned: seq<nat>)
    requires Good(s, root) && d0 < 3 && EntryAt(s.frames, root, d0, q0).Some?
    requires TableAt(s.frames, root, d0, q0 / WORDS_PER_PAGE).Some?
    requires !Present(EntryAt(s.frames, root, d0, q0).value)
    requires !IsTable(s.frames, root, child) && Frame(s.frames, child) == ZeroPage() && IsFrame(child)
    requires child !in s.free
    requires user && d0 > 0 ==> EntryAt(s.frames, root, d0 - 1, q0 / WORDS_PER_PAGE).Some?
                                && User(EntryAt(s.frames, root, d0 - 1, q0 / WORDS_PER_PAGE).value)
    ensures var t := TableAt(s.frames, root, d0, q0 / WORDS_PER_PAGE).value;
            var s' := s.(owned := owned, frames := WithEntry(s.frames, t, q0 % WORDS_PER_PAGE, TableWord(child, user)));
            && Good(s', root) && QuietBut(s, s', root, child) && (d0 < 2 ==> SameLastLevel(s, s', root))
            && TableAt(s'.frames, root, d0 + 1, q0) == Some(child)
            && (user ==> EntryAt(s'.frames, root, d0, q0).Some? && User(EntryAt(s'.frames, root, d0, q0).value))
  {
    hide Walk, Sound, WithEntry, TableAdded, PointsToTable, ZeroPage, TableAt, EntryAt, HugeAt, AddressOf, Huge,
         Writable, User,
         Present, TableWord, IsTable, Frame, AddsTable;
    var t, w := TableAt(s.frames, root, d0, q0 / WORDS_PER_PAGE).value, TableWord(child, user);
    var frames' := WithEntry(s.frames, t, q0 % WORDS_PER_PAGE, w);
    TableWordParts(child, user);
    NewTable(s.frames, root, d0, q0, w, child);
    SoundParts(s.frames, s.free, root);
    WriteTable(s.frames, root, d0, q0, w, child);
    TableAddedIsSound(s.frames, frames', s.free, root, d0, q0, w, child);
    forall v: nat | v < VIRT_LIMIT ensures Walk(frames', root, v) == Walk(s.frames, root, v) {
      WalkAfterTable(s.frames, frames', root, d0, q0, w, child, v);
    }
    AddedIsQuiet(s, s.(owned := owned, frames := frames'), root, d0, q0, w, child);
    AddedHere(s.frames, frames', root, d0, q0, w, child);
  }

  lemma NewTable(frames: map<nat, Bytes>, root: nat, d0: nat, q0: nat, w: nat, child: nat)
    requires d0 < 3 && EntryAt(frames, root, d0, q0).Some? && !Present(EntryAt(frames, root, d0, q0).value)
    requires w < WORD_LIMIT && AddressOf(w) == child && Present(w) && !Huge(w)
    requires !IsTable(frames, root, child) && Frame(frames, child) == ZeroPage()
    ensures AddsTable(frames, root, d0, q0, w, child) && !Present(0) && TableAt(frames, root, d0 + 1, q0).None?
    ensures var t := TableAt(frames, root, d0, q0 / WORDS_PER_PAGE); t.Some? && IsTable(frames, root, t.value)
  {
    hide AddressOf, Huge, ZeroPage;
    TableBelow(frames, root, d0, q0);
    hide EntryAt;
    assert TableAt(frames, root, d0, q0 / WORDS_PER_PAGE).Some?;
  }

  lemma AddedHere(frames: map<nat, Bytes>, frames': map<nat, Bytes>, root: nat, d0: nat, q0: nat, w: nat, child: nat)
    requires d0 < 3 && TableAdded(frames, frames', root, d0, q0, w, child)
    ensures TableAt(frames', root, d0 + 1, q0) == Some(child) && EntryAt(frames', root, d0, q0) == Some(w)
  {
    hide TableAt, EntryAt;
  }

  lemma TableWordParts(child: nat, user: bool)
    requires IsFrame(child)
    ensures var w := TableWord(child, user);
            w < WORD_LIMIT && AddressOf(w) == child && Present(w) && Writable(w) && !Huge(w) && User(w) == user
  {
    EntryParts(child, PAGE_TABLE_FLAGS + if user then PAGE_USER else 0);
  }

  /** `Quiet`, except that `child` has become a table. */
  ghost predicate QuietBut(s: Space, s': Space, root: nat, child: nat) {
    && (forall v: nat :: v < VIRT_LIMIT ==> Walk(s'.frames, root, v) == Walk(s.frames, root, v))
    && (forall d: nat, p: nat :: d <= 3 && TableAt(s.frames, root, d, p).Some? ==>
          TableAt(s'.frames, root, d, p) == TableAt(s.frames, root, d, p))
    && (forall d: nat, q: nat :: HugeAt(s'.frames, root, d, q) ==> HugeAt(s.frames, root, d, q))
    && s'.free == s.free && s'.tracked == s.tracked
    && (forall f: nat :: !IsTable(s.frames, root, f) && f != child ==>
          Frame(s'.frames, f) == Frame(s.frames, f) && !IsTable(s'.frames, root, f))
  }

  lemma AddedIsQuiet(s: Space, s': Space, root: nat, d0: nat, q0: nat, w: nat, child: nat)
    requires d0 < 3 && TableAt(s.frames, root, d0, q0 / WORDS_PER_PAGE).Some?
    requires s' == s.(owned := s'.owned, frames := WithEntry(
                        s.frames, TableAt(s.frames, root, d0, q0 / WORDS_PER_PAGE).value, q0 % WORDS_PER_PAGE, w))
    requires TableAdded(s.frames, s'.frames, root, d0, q0, w, child) && !Huge(w) && !Present(0)
    requires TableAt(s.frames, root, d0 + 1, q0).None?
    ensures forall d: nat, p: nat :: d <= 3 && TableAt(s.frames, root, d, p).Some? ==>
              TableAt(s'.frames, root, d, p) == TableAt(s.frames, root, d, p)
    ensures forall d: nat, q: nat :: HugeAt(s'.frames, root, d, q) ==> HugeAt(s.frames, root, d, q)
    ensures forall f: nat :: !IsTable(s.frames, root, f) && f != child ==>
              Frame(s'.frames, f) == Frame(s.frames, f) && !IsTable(s'.frames, root, f)
  {
    hide TableAt, EntryAt, Present, Huge;
    assert IsTable(s.frames, root, TableAt(s.frames, root, d0, q0 / WORDS_PER_PAGE).value);
  }

  /** One `ensure_table`: the entry leads to a table, nothing translates differently, and at
      most the page just taken is neither free nor owned. */
  lemma EnsureTableWorks(s: Space, root: nat, d0: nat, q0: nat, user: bool) returns (leak: set<nat>)
    requires Good(s, root) && d0 < 3 && TableAt(s.frames, root, d0, q0 / WORDS_PER_PAGE).Some?
    requires !HugeAt(s.frames, root, d0, q0)
    requires user && d0 > 0 ==> EntryAt(s.frames, root, d0 - 1, q0 / WORDS_PER_PAGE).Some?
                                && User(EntryAt(s.frames, root, d0 - 1, q0 / WORDS_PER_PAGE).value)
    ensures var (s', r) := EnsureTable(s, TableAt(s.frames, root, d0, q0 / WORDS_PER_PAGE).value, q0 % WORDS_PER_PAGE,
              user);
            && Good(s', root) && Quiet(s, s', root) && Conserved(s, s', leak) && |leak| <= 1
            && (d0 < 2 ==> SameLastLevel(s, s', root))
            && (r.Ok? ==>
                  && leak == {} && TableAt(s'.frames, root, d0 + 1, q0) == Some(r.value)
                  && (user ==> EntryAt(s'.frames, root, d0, q0).Some? && User(EntryAt(s'.frames, root, d0, q0).value)))
  {
    leak := {};
    var t := TableAt(s.frames, root, d0, q0 / WORDS_PER_PAGE).value;
    var entry := Entry(s.frames, t, q0 % WORDS_PER_PAGE);
    assert EntryAt(s.frames, root, d0, q0) == Some(entry);
    TableBelow(s.frames, root, d0, q0);
    hide TableAt, EntryAt, AddressOf, Huge, Writable, User, TableWord, ZeroPage, Sound, Walk, Entry, GetWord;
    if Present(entry) {
      if user && !User(entry) {
        UserBitStep(s, root, d0, q0);
      } else {
        QuietSelf(s, root);
      }
    } else if s.free == {} {
      QuietSelf(s, root);
    } else {
      leak := EnsureByTaking(s, root, d0, q0, user);
    }
  }

  lemma QuietSelf(s: Space, root: nat)
    ensures Quiet(s, s, root)
  {
  }

  lemma EnsureByTaking(s: Space, root: nat, d0: nat, q0: nat, user: bool) returns (leak: set<nat>)
    requires Good(s, root) && d0 < 3 && s.free != {}
    requires TableAt(s.frames, root, d0, q0 / WORDS_PER_PAGE).Some?
    requires EntryAt(s.frames, root, d0, q0).Some? && !Present(EntryAt(s.frames, root, d0, q0).value)
    requires user && d0 > 0 ==> EntryAt(s.frames, root, d0 - 1, q0 / WORDS_PER_PAGE).Some?
                                && User(EntryAt(s.frames, root, d0 - 1, q0 / WORDS_PER_PAGE).value)
    ensures var (s', r) := EnsureTable(s, TableAt(s.frames, root, d0, q0 / WORDS_PER_PAGE).value, q0 % WORDS_PER_PAGE,
              user);
            && Good(s', root) && Quiet(s, s', root) && Conserved(s, s', leak) && |leak| <= 1
            && (d0 < 2 ==> SameLastLevel(s, s', root))
            && (r.Ok? ==>
                  && leak == {} && TableAt(s'.frames, root, d0 + 1, q0) == Some(r.value)
                  && (user ==> EntryAt(s'.frames, root, d0, q0).Some? && User(EntryAt(s'.frames, root, d0, q0).value)))
  {
    hide TableAt, EntryAt, Present, AddressOf, Huge, Writable, User, TableWord, ZeroPage, Walk, Sound, Frame, Entry,
         IsFrame;
    var t, child, taken := TableAt(s.frames, root, d0, q0 / WORDS_PER_PAGE).value, Lowest(s.free), Allocated(s);
    EntryOf(s.frames, root, d0, q0);
    TakeStep(s, root);
    leak := {};
    if s.tracked && |s.owned| >= MAX_OWNED_PAGES {
      leak := {child};
    } else {
      var owned := if s.tracked then s.owned + [child] else s.owned;
      hide Quiet;
      AddStep(taken, root, d0, q0, child, user, owned);
      TakenAndAdded(s, taken, EnsureTable(s, t, q0 % WORDS_PER_PAGE, user).0, root, child);
    }
  }

  lemma TakenAndAdded(s: Space, taken: Space, s': Space, root: nat, child: nat)
    requires Quiet(s, taken, root) && QuietBut(taken, s', root, child) && child in s.free
    ensures Quiet(s, s', root)
  {
    hide TableAt, HugeAt, Walk, IsTable, Frame;
  }

  // ---------------------------------------------------------------------------
  // Whole mappings.

  /** No entry above the last level on the way to `v` is a huge mapping. */
  ghost predicate NoHugeOnPath(frames: map<nat, Bytes>, root: nat, v: nat, depth: nat)
    requires depth <= 3
  {
    forall d: nat :: d < depth ==> !HugeAt(frames, root, d, Region(d, v))
  }

  lemma ConservedTwice(s: Space, s': Space, s'': Space, leak: set<nat>)
    requires Conserved(s, s', {}) && Conserved(s', s'', leak) && s'.tracked == s.tracked
    ensures Conserved(s, s'', leak)
  {
  }

  lemma RegionsOf(v: nat)
    requires v < VIRT_LIMIT
    ensures Region(0, v) % WORDS_PER_PAGE == Pml4Index(v) && Region(0, v) / WORDS_PER_PAGE == 0
    ensures Region(1, v) % WORDS_PER_PAGE == PdptIndex(v) && Region(1, v) / WORDS_PER_PAGE == Region(0, v)
    ensures Region(2, v) % WORDS_PER_PAGE == PdIndex(v) && Region(2, v) / WORDS_PER_PAGE == Region(1, v)
    ensures Region(3, v) % WORDS_PER_PAGE == PtIndex(v) && Region(3, v) / WORDS_PER_PAGE == Region(2, v)
  {
    IndexSplit(v);
  }

  lemma EnsureDirectoryWorks(s: Space, root: nat, virt: nat, user: bool) returns (leak: set<nat>)
    requires Good(s, root) && virt < VIRT_LIMIT && NoHugeOnPath(s.frames, root, virt, 2)
    ensures var (s', r) := EnsureDirectory(s, root, virt, user);
            && Good(s', root) && Quiet(s, s', root) && Conserved(s, s', leak) && |leak| <= 1
            && (r.Ok? ==>
                  && leak == {} && TableAt(s'.frames, root, 2, Region(1, virt)) == Some(r.value) &&
                       SameLastLevel(s, s', root)
                  && (user ==> EntryAt(s'.frames, root, 1, Region(1, virt)).Some?
                               && User(EntryAt(s'.frames, root, 1, Region(1, virt)).value)))
  {
    RegionsOf(virt);
    assert TableAt(s.frames, root, 0, Region(0, virt) / WORDS_PER_PAGE) == Some(root);
    hide TableAt, EntryAt, HugeAt, Sound, Conserved, EnsureTable, Region, User;
    leak := EnsureTableWorks(s, root, 0, Region(0, virt), user);
    var (s1, pdpt) := EnsureTable(s, root, Pml4Index(virt), user);
    if pdpt.Ok? {
      assert !HugeAt(s1.frames, root, 1, Region(1, virt));
      leak := EnsureTableWorks(s1, root, 1, Region(1, virt), user);
      var (s2, pd) := EnsureTable(s1, pdpt.value, PdptIndex(virt), user);
      QuietTwice(s, s1, s2, root);
      assert s1.tracked == s.tracked;
      hide Quiet;
      ConservedTwice(s, s1, s2, leak);
    }
  }

  lemma EnsurePageTableWorks(s: Space, root: nat, virt: nat, user: bool) returns (leak: set<nat>)
    requires Good(s, root) && virt < VIRT_LIMIT && NoHugeOnPath(s.frames, root, virt, 3)
    ensures var (s', r) := EnsurePageTable(s, root, virt, user);
            && Good(s', root) && Quiet(s, s', root) && Conserved(s, s', leak) && |leak| <= 1
            && (r.Ok? ==>
                  && leak == {} && TableAt(s'.frames, root, 3, Region(2, virt)) == Some(r.value)
                  && (user ==> EntryAt(s'.frames, root, 2, Region(2, virt)).Some?
                               && User(EntryAt(s'.frames, root, 2, Region(2, virt)).value)))
  {
    RegionsOf(virt);
    hide TableAt, EntryAt, HugeAt, Sound, Conserved, EnsureTable, EnsureDirectory, Region, User;
    leak := EnsureDirectoryWorks(s, root, virt, user);
    var (s1, pd) := EnsureDirectory(s, root, virt, user);
    if pd.Ok? {
      assert !HugeAt(s1.frames, root, 2, Region(2, virt));
      leak := EnsureTableWorks(s1, root, 2, Region(2, virt), user);
      var (s2, pt) := EnsureTable(s1, pd.value, PdIndex(virt), user);
      QuietTwice(s, s1, s2, root);
      assert s1.tracked == s.tracked;
      hide Quiet;
      ConservedTwice(s, s1, s2, leak);
    }
  }

  /** What every mapping operation keeps, whether it succeeds or not. */
  ghost predicate Contained(s: Space, s': Space, root: nat) {
    && s'.free <= s.free && s'.tracked == s.tracked
    && (forall f: nat :: f !in s.free && !IsTable(s.frames, root, f) ==>
          Frame(s'.frames, f) == Frame(s.frames, f) && !IsTable(s'.frames, root, f))
  }

  /** Page `q` leads to `phys` with these rights, every other address translates as before,
      and no huge mapping appeared. */
  ghost predicate MapsPage(s: Space, s': Space, root: nat, q: nat, phys: nat, user: bool, writable: bool) {
    && (forall v: nat :: v < VIRT_LIMIT ==>
          Walk(s'.frames, root, v) ==
          if v / SPAN_4K == q then Some(Translation(phys + v % SPAN_4K, user, writable)) else Walk(s.frames, root, v))
    && (forall d: nat, p: nat :: d < 3 && HugeAt(s'.frames, root, d, p) ==> HugeAt(s.frames, root, d, p))
  }

  /** The same for the 2 MiB region `q`, which is now a huge mapping. */
  ghost predicate MapsHuge(s: Space, s': Space, root: nat, q: nat, phys: nat, user: bool, writable: bool) {
    && (forall v: nat :: v < VIRT_LIMIT ==>
          Walk(s'.frames, root, v) ==
          if v / SPAN_2M == q then Some(Translation(phys + v % SPAN_2M, user, writable)) else Walk(s.frames, root, v))
    && (forall d: nat, p: nat :: d < 3 && HugeAt(s'.frames, root, d, p) ==>
          HugeAt(s.frames, root, d, p) || (d == 2 && p == q))
  }

  /** No translation changed and no huge mapping appeared. */
  ghost predicate Unmoved(s: Space, s': Space, root: nat) {
    && (forall v: nat :: v < VIRT_LIMIT ==> Walk(s'.frames, root, v) == Walk(s.frames, root, v))
    && (forall d: nat, p: nat :: d < 3 && HugeAt(s'.frames, root, d, p) ==> HugeAt(s.frames, root, d, p))
  }

  lemma MapsPageAfterQuiet(s: Space, s': Space, s'': Space, root: nat, q: nat, phys: nat, user: bool, writable: bool)
    requires Quiet(s, s', root) && MapsPage(s', s'', root, q, phys, user, writable)
    ensures MapsPage(s, s'', root, q, phys, user, writable)
  {
    hide IsTable, Walk, TableAt, HugeAt;
  }

  lemma MapsHugeAfterQuiet(s: Space, s': Space, s'': Space, root: nat, q: nat, phys: nat, user: bool, writable: bool)
    requires Quiet(s, s', root) && MapsHuge(s', s'', root, q, phys, user, writable)
    ensures MapsHuge(s, s'', root, q, phys, user, writable)
  {
    hide IsTable, Walk, TableAt, HugeAt;
  }

  lemma ContainedAfterQuiet(s: Space, s': Space, s'': Space, root: nat)
    requires Quiet(s, s', root) && Contained(s', s'', root)
    ensures Contained(s, s'', root)
  {
    hide IsTable, Walk, TableAt, HugeAt;
  }

  lemma QuietIsUnmoved(s: Space, s': Space, root: nat)
    requires Quiet(s, s', root)
    ensures Unmoved(s, s', root) && Contained(s, s', root)
  {
    hide IsTable, Walk, TableAt, HugeAt;
  }

  lemma ConservedTwiceSame(s: Space, s': Space, s'': Space, leak: set<nat>)
    requires Conserved(s, s', leak) && s'' == s'.(frames := s''.frames)
    ensures Conserved(s, s'', leak)
  {
  }

  lemma SoundParts(frames: map<nat, Bytes>, free: set<nat>, root: nat)
    requires Sound(frames, free, root)
    ensures Separate(frames, root) && Permissive(frames, root) && Placed(frames, free, root)
  {
    hide Separate, Permissive, Placed;
  }

  lemma EntryOfTable(frames: map<nat, Bytes>, root: nat, d: nat, q: nat)
    requires TableAt(frames, root, d, q / WORDS_PER_PAGE).Some?
    ensures EntryAt(frames, root, d, q) ==
            Some(Entry(frames, TableAt(frames, root, d, q / WORDS_PER_PAGE).value, q % WORDS_PER_PAGE))
  {
  }

  lemma SetPageWalks(frames: map<nat, Bytes>, frames': map<nat, Bytes>, root: nat, q: nat, w: nat)
    requires Permissive(frames, root) && EntryAt(frames, root, 3, q).Some? && EntrySet(frames, frames', root, 3, q, w)
    requires Present(w)
    requires User(w) ==> EntryAt(frames, root, 2, q / WORDS_PER_PAGE).Some?
                         && User(EntryAt(frames, root, 2, q / WORDS_PER_PAGE).value)
    ensures forall v: nat :: v < VIRT_LIMIT ==>
              Walk(frames', root, v) ==
              if v / SPAN_4K == q then Some(Translation(AddressOf(w) + v % SPAN_4K, User(w), Writable(w)))
              else Walk(frames, root, v)
  {
    hide Permissive, EntrySet, TableAt, EntryAt, AddressOf, Present, Huge, Writable, User, Walk;
    forall v: nat | v < VIRT_LIMIT
      ensures Walk(frames', root, v) ==
              if v / SPAN_4K == q then Some(Translation(AddressOf(w) + v % SPAN_4K, User(w), Writable(w)))
              else Walk(frames, root, v)
    {
      WalkAfterPage(frames, frames', root, q, w, v);
    }
  }

  /** Storing a present last-level entry in a sound tree. */
  lemma SetPage(s: Space, root: nat, q: nat, w: nat, t: nat)
    requires Good(s, root) && w < WORD_LIMIT && Present(w)
    requires TableAt(s.frames, root, 3, q / WORDS_PER_PAGE) == Some(t)
    requires User(w) ==> EntryAt(s.frames, root, 2, q / WORDS_PER_PAGE).Some?
                         && User(EntryAt(s.frames, root, 2, q / WORDS_PER_PAGE).value)
    ensures var s' := s.(frames := WithEntry(s.frames, t, q % WORDS_PER_PAGE, w));
            && Good(s', root) && Contained(s, s', root)
            && MapsPage(s, s', root, q, AddressOf(w), User(w), Writable(w))
  {
    var s' := s.(frames := WithEntry(s.frames, t, q % WORDS_PER_PAGE, w));
    hide Sound, Permissive, Placed, Separate, AddressOf, Present, Huge, Writable, User, Walk, WithEntry, Frame, IsTable;
    SoundParts(s.frames, s.free, root);
    TableBelow(s.frames, root, 3, q);
    EntryOfTable(s.frames, root, 3, q);
    hide TableAt, EntryAt;
    WriteEntry(s.frames, root, 3, q, w);
    hide EntrySet;
    EntrySetIsSound(s.frames, s'.frames, s.free, root, 3, q, w);
    SetPageMaps(s, root, q, w, t);
    EntrySetIsQuiet(s, s', root, 3, q, w);
    hide HugeAt, MapsPage, MapsHuge;
  }

  lemma SetPageMaps(s: Space, root: nat, q: nat, w: nat, t: nat)
    requires Good(s, root) && w < WORD_LIMIT && Present(w)
    requires TableAt(s.frames, root, 3, q / WORDS_PER_PAGE) == Some(t)
    requires User(w) ==> EntryAt(s.frames, root, 2, q / WORDS_PER_PAGE).Some?
                         && User(EntryAt(s.frames, root, 2, q / WORDS_PER_PAGE).value)
    ensures var s' := s.(frames := WithEntry(s.frames, t, q % WORDS_PER_PAGE, w));
            MapsPage(s, s', root, q, AddressOf(w), User(w), Writable(w))
  {
    var s' := s.(frames := WithEntry(s.frames, t, q % WORDS_PER_PAGE, w));
    hide Sound, Permissive, Placed, Separate, AddressOf, Present, Huge, Writable, User, Walk, WithEntry, Frame, IsTable;
    SoundParts(s.frames, s.free, root);
    TableBelow(s.frames, root, 3, q);
    EntryOfTable(s.frames, root, 3, q);
    hide TableAt, EntryAt;
    WriteEntry(s.frames, root, 3, q, w);
    SetPageWalks(s.frames, s'.frames, root, q, w);
    hide EntrySet, HugeAt;
    EntrySetIsQuiet(s, s', root, 3, q, w);
  }

  lemma SetHugeWalks(frames: map<nat, Bytes>, frames': map<nat, Bytes>, root: nat, q: nat, w: nat)
    requires Permissive(frames, root) && EntryAt(frames, root, 2, q).Some? && EntrySet(frames, frames', root, 2, q, w)
    requires Present(w) && Huge(w) && !PointsToTable(EntryAt(frames, root, 2, q).value)
    requires User(w) ==> EntryAt(frames, root, 1, q / WORDS_PER_PAGE).Some?
                         && User(EntryAt(frames, root, 1, q / WORDS_PER_PAGE).value)
    ensures forall v: nat :: v < VIRT_LIMIT ==>
              Walk(frames', root, v) ==
              if v / SPAN_2M == q then Some(Translation(AddressOf(w) + v % SPAN_2M, User(w), Writable(w)))
              else Walk(frames, root, v)
  {
    hide Permissive, EntrySet, TableAt, EntryAt, AddressOf, Present, Huge, Writable, User, Walk;
    forall v: nat | v < VIRT_LIMIT
      ensures Walk(frames', root, v) ==
              if v / SPAN_2M == q then Some(Translation(AddressOf(w) + v % SPAN_2M, User(w), Writable(w)))
              else Walk(frames, root, v)
    {
      WalkAfterHuge(frames, frames', root, q, w, v);
    }
  }

  /** Storing a 2 MiB entry where no table hangs. */
  lemma SetHuge(s: Space, root: nat, q: nat, w: nat, t: nat)
    requires Good(s, root) && w < WORD_LIMIT && Present(w) && Huge(w)
    requires TableAt(s.frames, root, 2, q / WORDS_PER_PAGE) == Some(t) && TableAt(s.frames, root, 3, q).None?
    requires User(w) ==> EntryAt(s.frames, root, 1, q / WORDS_PER_PAGE).Some?
                         && User(EntryAt(s.frames, root, 1, q / WORDS_PER_PAGE).value)
    ensures var s' := s.(frames := WithEntry(s.frames, t, q % WORDS_PER_PAGE, w));
            && Good(s', root) && Contained(s, s', root) && SameLastLevel(s, s', root)
            && MapsHuge(s, s', root, q, AddressOf(w), User(w), Writable(w))
  {
    var s' := s.(frames := WithEntry(s.frames, t, q % WORDS_PER_PAGE, w));
    hide Sound, Permissive, Placed, Separate, AddressOf, Present, Huge, Writable, User, Walk, WithEntry, Frame, IsTable;
    SoundParts(s.frames, s.free, root);
    TableBelow(s.frames, root, 2, q);
    EntryOfTable(s.frames, root, 2, q);
    hide TableAt, EntryAt;
    WriteEntry(s.frames, root, 2, q, w);
    hide EntrySet;
    EntrySetIsSound(s.frames, s'.frames, s.free, root, 2, q, w);
    SetHugeMaps(s, root, q, w, t);
    EntrySetIsQuiet(s, s', root, 2, q, w);
    hide HugeAt, MapsPage, MapsHuge;
  }

  lemma SetHugeMaps(s: Space, root: nat, q: nat, w: nat, t: nat)
    requires Good(s, root) && w < WORD_LIMIT && Present(w) && Huge(w)
    requires TableAt(s.frames, root, 2, q / WORDS_PER_PAGE) == Some(t) && TableAt(s.frames, root, 3, q).None?
    requires User(w) ==> EntryAt(s.frames, root, 1, q / WORDS_PER_PAGE).Some?
                         && User(EntryAt(s.frames, root, 1, q / WORDS_PER_PAGE).value)
    ensures var s' := s.(frames := WithEntry(s.frames, t, q % WORDS_PER_PAGE, w));
            MapsHuge(s, s', root, q, AddressOf(w), User(w), Writable(w))
  {
    var s' := s.(frames := WithEntry(s.frames, t, q % WORDS_PER_PAGE, w));
    hide Sound, Permissive, Placed, Separate, AddressOf, Present, Huge, Writable, User, Walk, WithEntry, Frame, IsTable;
    SoundParts(s.frames, s.free, root);
    TableBelow(s.frames, root, 2, q);
    EntryOfTable(s.frames, root, 2, q);
    hide TableAt, EntryAt;
    WriteEntry(s.frames, root, 2, q, w);
    SetHugeWalks(s.frames, s'.frames, root, q, w);
    hide EntrySet, HugeAt;
    EntrySetIsQuiet(s, s', root, 2, q, w);
  }

  /** `map_4k` refines a map update: on success the page leads to `phys` with exactly the
      requested rights and every other address translates as before; on failure all do. */
  lemma Map4kWorks(s: Space, root: nat, virt: nat, phys: nat, flags: nat) returns (leak: set<nat>)
    requires Good(s, root) && virt < VIRT_LIMIT && NoHugeOnPath(s.frames, root, virt, 3)
    requires IsFrame(phys) && flags < PAGE_SIZE && Present(flags)
    ensures var (s', r) := Map4k(s, root, virt, phys, flags);
            && Good(s', root) && Contained(s, s', root) && Conserved(s, s', leak) && |leak| <= 1
            && if r.Ok? then leak == {} && MapsPage(s, s', root, virt / SPAN_4K, phys, User(flags), Writable(flags))
               else Unmoved(s, s', root)
  {
    hide Sound, TableAt, EntryAt, Walk, Quiet, Conserved, AddressOf, Frame, HugeAt, EnsurePageTable, Present, Writable,
         User, Huge, Contained,
         MapsPage, MapsHuge, Unmoved, IsFrame, NoHugeOnPath, WithEntry;
    leak := EnsurePageTableWorks(s, root, virt, User(flags));
    var (s1, pt) := EnsurePageTable(s, root, virt, User(flags));
    QuietIsUnmoved(s, s1, root);
    if pt.Ok? {
      var s2 := Map4k(s, root, virt, phys, flags).0;
      RegionsOf(virt);
      EntryParts(phys, flags);
      SetPage(s1, root, Region(3, virt), phys + flags, pt.value);
      MapsPageAfterQuiet(s, s1, s2, root, virt / SPAN_4K, phys, User(flags), Writable(flags));
      ContainedAfterQuiet(s, s1, s2, root);
      ConservedTwiceSame(s, s1, s2, leak);
    }
  }

  /** `map_2m` likewise, for a whole 2 MiB region under which no page table hangs. */
  lemma Map2mWorks(s: Space, root: nat, virt: nat, phys: nat, flags: nat) returns (leak: set<nat>)
    requires Good(s, root) && virt < VIRT_LIMIT && NoHugeOnPath(s.frames, root, virt, 2)
    requires TableAt(s.frames, root, 3, virt / SPAN_2M).None?
    requires IsFrame(phys) && flags < PAGE_HUGE && Present(flags)
    ensures var (s', r) := Map2m(s, root, virt, phys, flags);
            && Good(s', root) && Contained(s, s', root) && Conserved(s, s', leak) && |leak| <= 1
            && if r.Ok? then
                 && leak == {} && MapsHuge(s, s', root, virt / SPAN_2M, phys, User(flags), Writable(flags))
                 && SameLastLevel(s, s', root)
               else Unmoved(s, s', root)
  {
    hide Sound, TableAt, EntryAt, Walk, Quiet, Conserved, AddressOf, Frame, HugeAt, EnsureDirectory, Present, Writable,
         User, Huge, Contained,
         MapsPage, MapsHuge, Unmoved, NoHugeOnPath, WithEntry;
    leak := EnsureDirectoryWorks(s, root, virt, User(flags));
    var (s1, pd) := EnsureDirectory(s, root, virt, User(flags));
    QuietIsUnmoved(s, s1, root);
    if pd.Ok? {
      var s2 := Map2m(s, root, virt, phys, flags).0;
      RegionsOf(virt);
      EntryParts(phys, flags + PAGE_HUGE);
      HugeFlag(flags);
      SetHuge(s1, root, Region(2, virt), phys + flags + PAGE_HUGE, pd.value);
      MapsHugeAfterQuiet(s, s1, s2, root, virt / SPAN_2M, phys, User(flags), Writable(flags));
      ContainedAfterQuiet(s, s1, s2, root);
      ConservedTwiceSame(s, s1, s2, leak);
    }
  }

  /** Where a 2 MiB mapping is in the way, the code takes the mapped memory for a page table: the call
      succeeds, writes one word of that memory, and leaves every translation as it was. So it maps the
      page as asked if and only if the page already leads there. */
  lemma Map4kUnderHuge(s: Space, root: nat, virt: nat, phys: nat, flags: nat)
    requires Good(s, root) && virt < VIRT_LIMIT && HugeAt(s.frames, root, 2, Region(2, virt)) && !User(flags)
    requires !IsTable(s.frames, root, AddressOf(EntryAt(s.frames, root, 2, Region(2, virt)).value))
    ensures var (s', r) := Map4k(s, root, virt, phys, flags);
            && r.Ok? && (forall v: nat :: v < VIRT_LIMIT ==> Walk(s'.frames, root, v) == Walk(s.frames, root, v))
            && (MapsPage(s, s', root, virt / SPAN_4K, phys, false, Writable(flags)) <==>
                  forall v: nat :: v < VIRT_LIMIT && v / SPAN_4K == virt / SPAN_4K ==>
                    Walk(s.frames, root, v) == Some(Translation(phys + v % SPAN_4K, false, Writable(flags))))
  {
    hide TableAt, EntryAt, AddressOf, Huge, Present, Writable, User, Sound, Walk, Frame, IsTable, SetWord, GetWord,
         Region;
    var e := EntryAt(s.frames, root, 2, Region(2, virt)).value;
    TablesAbove(s, root, virt);
    assert Map4k(s, root, virt, phys, flags) ==
           (s.(frames := WithEntry(s.frames, AddressOf(e), PtIndex(virt), phys + flags)), Ok(()));
    var frames' := WithEntry(s.frames, AddressOf(e), PtIndex(virt), phys + flags);
    WriteElsewhere(s.frames, root, AddressOf(e), SetWord(Frame(s.frames, AddressOf(e)), PtIndex(virt), phys + flags));
    forall v: nat | v < VIRT_LIMIT ensures Walk(frames', root, v) == Walk(s.frames, root, v) {
      SameTreeSameWalk(s.frames, frames', root, v);
    }
    forall d: nat, q: nat | d < 3 ensures HugeAt(frames', root, d, q) <==> HugeAt(s.frames, root, d, q) {
    }
  }

  /** Every entry on the way to an entry is present, and leads to the table with the next. */
  lemma TablesAbove(s: Space, root: nat, virt: nat)
    requires virt < VIRT_LIMIT && HugeAt(s.frames, root, 2, Region(2, virt))
    ensures var e := EntryAt(s.frames, root, 2, Region(2, virt)).value;
            && EnsureDirectory(s, root, virt, false).1.Ok? && EnsureDirectory(s, root, virt, false).0 == s
            && Entry(s.frames, EnsureDirectory(s, root, virt, false).1.value, PdIndex(virt)) == e && Present(e)
  {
    hide AddressOf, Huge, Present, User, Frame, GetWord, Region;
    RegionsOf(virt);
    RootTable(s.frames, root, 0);
    EntryOf(s.frames, root, 2, Region(2, virt));
    TableBelow(s.frames, root, 1, Region(1, virt));
    EntryOf(s.frames, root, 1, Region(1, virt));
    TableBelow(s.frames, root, 0, Region(0, virt));
    EntryOf(s.frames, root, 0, Region(0, virt));
    hide TableAt, EntryAt, Entry;
  }

  lemma HugeFlag(flags: nat)
    requires flags < PAGE_HUGE
    ensures Huge(flags + PAGE_HUGE) && Present(flags + PAGE_HUGE) == Present(flags)
    ensures User(flags + PAGE_HUGE) == User(flags) && Writable(flags + PAGE_HUGE) == Writable(flags)
  {
    hide Present, Writable, User, Huge;
    PresentBit(64, flags);
    WritableBit(32, flags);
    UserBit(16, flags);
    HighBit(flags);
  }

  lemma HighBit(flags: nat)
    requires flags < PAGE_HUGE
    ensures Huge(flags + PAGE_HUGE)
  {
  }

  // ---------------------------------------------------------------------------
  // Identity ranges.

  ghost function MapPages(s: Space, root: nat, address: nat, limit: nat, flags: nat): (Space, Result<(), MemoryError>)
    decreases limit - address
  {
    if address >= limit then (s, Ok(()))
    else
      var (s1, r) := Map4k(s, root, address, address, flags);
      if r.Err? then (s1, r) else MapPages(s1, root, address + SPAN_4K, limit, flags)
  }

  ghost function MapIdentity4kRange(s: Space, root: nat, start: nat, end: nat,
                                    flags: nat): (Space, Result<(), MemoryError>) {
    MapPages(s, root, AlignDown(start, SPAN_4K), if end == 0 then 0 else AlignUp(end, SPAN_4K), flags)
  }

  ghost function MapHuges(s: Space, root: nat, address: nat, limit: nat, flags: nat): (Space, Result<(), MemoryError>)
    decreases limit - address
  {
    if address >= limit then (s, Ok(()))
    else
      var (s1, r) := Map2m(s, root, address, address, flags);
      if r.Err? then (s1, r) else MapHuges(s1, root, address + SPAN_2M, limit, flags)
  }

  ghost function MapIdentity2mRange(s: Space, root: nat, start: nat, end: nat,
                                    flags: nat): (Space, Result<(), MemoryError>) {
    MapHuges(s, root, AlignDown(start, SPAN_2M), if end == 0 then 0 else AlignUp(end, SPAN_2M), flags)
  }

  /** After mapping `[from, to)` onto itself: inside, an address leads to itself with these
      rights, or (only when the mapping failed) still goes where it did; outside nothing changed. */
  ghost predicate MapsRange(s: Space, s': Space, root: nat, from: nat, to: nat, user: bool, writable: bool,
                            done: bool) {
    forall v: nat :: v < VIRT_LIMIT ==> MapsAt(s, s', root, from, to, user, writable, done, v)
  }

  ghost predicate MapsAt(s: Space, s': Space, root: nat, from: nat, to: nat, user: bool, writable: bool, done: bool,
                         v: nat) {
    || (from <= v < to && Walk(s'.frames, root, v) == Some(Translation(v, user, writable)))
    || (!(done && from <= v < to) && Walk(s'.frames, root, v) == Walk(s.frames, root, v))
  }

  lemma ContainedTwice(s: Space, s': Space, s'': Space, root: nat)
    requires Contained(s, s', root) && Contained(s', s'', root)
    ensures Contained(s, s'', root)
  {
    hide IsTable, Frame;
  }

  lemma FirstPageOfRange(s: Space, s': Space, s'': Space, root: nat, from: nat, to: nat, user: bool, writable: bool,
                         done: bool)
    requires MapsPage(s, s', root, from / SPAN_4K, from, user, writable) && from % SPAN_4K == 0
    requires MapsRange(s', s'', root, from + SPAN_4K, to, user, writable, done) && from + SPAN_4K <= to
    ensures MapsRange(s, s'', root, from, to, user, writable, done)
  {
    hide Walk, HugeAt;
    forall v: nat | v < VIRT_LIMIT ensures MapsAt(s, s'', root, from, to, user, writable, done, v) {
      InPage(v, from);
      assert MapsAt(s', s'', root, from + SPAN_4K, to, user, writable, done, v);
    }
  }

  lemma InPage(v: nat, from: nat)
    requires from % SPAN_4K == 0
    ensures v / SPAN_4K == from / SPAN_4K <==> from <= v < from + SPAN_4K
    ensures from <= v < from + SPAN_4K ==> from + v % SPAN_4K == v
  {
  }

  /** No huge mapping on the way to any address of the range. */
  ghost predicate NoHugeIn(frames: map<nat, Bytes>, root: nat, from: nat, to: nat, depth: nat)
    requires depth <= 3
  {
    forall v: nat :: from <= v < to ==> NoHugeOnPath(frames, root, v, depth)
  }

  lemma NoHugeStays(s: Space, s': Space, root: nat, from: nat, from': nat, to: nat)
    requires NoHugeIn(s.frames, root, from, to, 3) && from <= from'
    requires forall d: nat, p: nat :: d < 3 && HugeAt(s'.frames, root, d, p) ==> HugeAt(s.frames, root, d, p)
    ensures NoHugeIn(s'.frames, root, from', to, 3)
    ensures from < to ==> NoHugeOnPath(s.frames, root, from, 3)
  {
    hide HugeAt;
    forall v: nat | from' <= v < to ensures NoHugeOnPath(s'.frames, root, v, 3) {
      assert NoHugeOnPath(s.frames, root, v, 3);
    }
  }

  /** How a range mapping ends: the tables stay sound, nothing but tables and free pages is
      written, pages are conserved up to one in flight, and the walk is as `MapsRange` says. */
  ghost predicate RangeMapped(s: Space, s': Space, root: nat, from: nat, to: nat, user: bool, writable: bool, ok: bool,
                              leak: set<nat>) {
    && Good(s', root) && Contained(s, s', root) && Conserved(s, s', leak) && |leak| <= 1 && (ok ==> leak == {})
    && MapsRange(s, s', root, from, to, user, writable, ok)
    && NoNewHuge(s, s', root)
  }

  ghost predicate NoNewHuge(s: Space, s': Space, root: nat) {
    forall d: nat, p: nat :: d < 3 && HugeAt(s'.frames, root, d, p) ==> HugeAt(s.frames, root, d, p)
  }

  lemma RangeEmpty(s: Space, root: nat, from: nat, to: nat, user: bool, writable: bool)
    requires Good(s, root) && from >= to
    ensures RangeMapped(s, s, root, from, to, user, writable, true, {})
  {
    hide Walk, IsTable, Frame, Sound, HugeAt;
  }

  lemma RangeStopped(s: Space, s': Space, root: nat, from: nat, to: nat, user: bool, writable: bool, leak: set<nat>)
    requires Good(s', root) && Contained(s, s', root) && Conserved(s, s', leak) && |leak| <= 1 && Unmoved(s, s', root)
    ensures RangeMapped(s, s', root, from, to, user, writable, false, leak)
  {
    hide Walk, IsTable, Frame, Sound, HugeAt, Contained, Conserved;
  }

  lemma RangeExtended(s: Space, s': Space, s'': Space, root: nat, from: nat, to: nat, user: bool, writable: bool,
                      ok: bool, leak: set<nat>)
    requires Contained(s, s', root) && Conserved(s, s', {}) && from % SPAN_4K == 0 && from + SPAN_4K <= to
    requires MapsPage(s, s', root, from / SPAN_4K, from, user, writable)
    requires RangeMapped(s', s'', root, from + SPAN_4K, to, user, writable, ok, leak)
    ensures RangeMapped(s, s'', root, from, to, user, writable, ok, leak)
  {
    hide Walk, IsTable, Frame, Sound, HugeAt, MapsRange, Conserved;
    assert s'.tracked == s.tracked;
    ContainedTwice(s, s', s'', root);
    hide Contained;
    ConservedTwice(s, s', s'', leak);
    FirstPageOfRange(s, s', s'', root, from, to, user, writable, ok);
  }

  /** `map_identity_4k_range` from an aligned address on. */
  lemma {:induction false} MapPagesWorks(s: Space, root: nat, address: nat, limit: nat, flags: nat)
    returns (leak: set<nat>)
    requires Good(s, root) && address % SPAN_4K == 0 && limit % SPAN_4K == 0 && limit <= VIRT_LIMIT
    requires NoHugeIn(s.frames, root, address, limit, 3)
    requires flags < PAGE_SIZE && Present(flags)
    ensures var (s', r) := MapPages(s, root, address, limit, flags);
            RangeMapped(s, s', root, address, limit, User(flags), Writable(flags), r.Ok?, leak)
    decreases limit - address
  {
    hide Sound, Walk, Conserved, HugeAt, IsTable, Frame, User, Writable, Present, NoHugeIn, RangeMapped, Contained,
         MapsPage, Unmoved, Map4k;
    leak := {};
    if address >= limit {
      RangeEmpty(s, root, address, limit, User(flags), Writable(flags));
    } else {
      NoHugeStays(s, s, root, address, address, limit);
      assert address < VIRT_LIMIT && IsFrame(address);
      leak := Map4kWorks(s, root, address, address, flags);
      var (s1, r) := Map4k(s, root, address, address, flags);
      hide NoHugeOnPath;
      if r.Err? {
        RangeStopped(s, s1, root, address, limit, User(flags), Writable(flags), leak);
      } else {
        MapsPageHuge(s, s1, root, address / SPAN_4K, address, User(flags), Writable(flags), true);
        NoHugeStays(s, s1, root, address, address + SPAN_4K, limit);
        leak := MapPagesWorks(s1, root, address + SPAN_4K, limit, flags);
        RangeExtended(s, s1, MapPages(s1, root, address + SPAN_4K, limit, flags).0, root, address, limit,
                      User(flags), Writable(flags), MapPages(s1, root, address + SPAN_4K, limit, flags).1.Ok?, leak);
      }
    }
  }

  lemma MapsPageHuge(s: Space, s': Space, root: nat, q: nat, phys: nat, user: bool, writable: bool, ok: bool)
    requires if ok then MapsPage(s, s', root, q, phys, user, writable) else Unmoved(s, s', root)
    ensures forall d: nat, p: nat :: d < 3 && HugeAt(s'.frames, root, d, p) ==> HugeAt(s.frames, root, d, p)
  {
    hide Walk, HugeAt;
  }

  // ---------------------------------------------------------------------------
  // The 2 MiB range.

  ghost predicate NewHugeIn(s: Space, s': Space, root: nat, from: nat, to: nat) {
    forall d: nat, p: nat :: d < 3 && HugeAt(s'.frames, root, d, p) ==>
      HugeAt(s.frames, root, d, p) || (d == 2 && from <= p * SPAN_2M < to)
  }

  ghost predicate HugesMapped(s: Space, s': Space, root: nat, from: nat, to: nat, user: bool, writable: bool, ok: bool,
                              leak: set<nat>) {
    && Good(s', root) && Contained(s, s', root) && Conserved(s, s', leak) && |leak| <= 1 && (ok ==> leak == {})
    && MapsRange(s, s', root, from, to, user, writable, ok)
    && NewHugeIn(s, s', root, from, to)
  }

  /** No page table hangs below any 2 MiB region of the range. */
  ghost predicate NoPageTableIn(frames: map<nat, Bytes>, root: nat, from: nat, to: nat) {
    forall q: nat :: from <= q * SPAN_2M < to ==> TableAt(frames, root, 3, q).None?
  }

  lemma HugesEmpty(s: Space, root: nat, from: nat, to: nat, user: bool, writable: bool)
    requires Good(s, root) && from >= to
    ensures HugesMapped(s, s, root, from, to, user, writable, true, {})
  {
    hide Walk, IsTable, Frame, Sound, HugeAt;
  }

  lemma HugesStopped(s: Space, s': Space, root: nat, from: nat, to: nat, user: bool, writable: bool, leak: set<nat>)
    requires Good(s', root) && Contained(s, s', root) && Conserved(s, s', leak) && |leak| <= 1 && Unmoved(s, s', root)
    ensures HugesMapped(s, s', root, from, to, user, writable, false, leak)
  {
    hide Walk, IsTable, Frame, Sound, HugeAt, Contained, Conserved;
  }

  lemma InHuge(v: nat, from: nat)
    requires from % SPAN_2M == 0
    ensures v / SPAN_2M == from / SPAN_2M <==> from <= v < from + SPAN_2M
    ensures from <= v < from + SPAN_2M ==> from + v % SPAN_2M == v
  {
  }

  lemma FirstHugeOfRange(s: Space, s': Space, s'': Space, root: nat, from: nat, to: nat, user: bool, writable: bool,
                         done: bool)
    requires MapsHuge(s, s', root, from / SPAN_2M, from, user, writable) && from % SPAN_2M == 0
    requires MapsRange(s', s'', root, from + SPAN_2M, to, user, writable, done) && from + SPAN_2M <= to
    ensures MapsRange(s, s'', root, from, to, user, writable, done)
  {
    hide Walk, HugeAt;
    forall v: nat | v < VIRT_LIMIT ensures MapsAt(s, s'', root, from, to, user, writable, done, v) {
      InHuge(v, from);
      assert MapsAt(s', s'', root, from + SPAN_2M, to, user, writable, done, v);
    }
  }

  lemma HugesExtended(s: Space, s': Space, s'': Space, root: nat, from: nat, to: nat, user: bool, writable: bool,
                      ok: bool, leak: set<nat>)
    requires Contained(s, s', root) && Conserved(s, s', {}) && from % SPAN_2M == 0 && from + SPAN_2M <= to
    requires MapsHuge(s, s', root, from / SPAN_2M, from, user, writable)
    requires HugesMapped(s', s'', root, from + SPAN_2M, to, user, writable, ok, leak)
    ensures HugesMapped(s, s'', root, from, to, user, writable, ok, leak)
  {
    hide Walk, IsTable, Frame, Sound, HugeAt, MapsRange, Conserved;
    assert s'.tracked == s.tracked;
    ContainedTwice(s, s', s'', root);
    assert from / SPAN_2M * SPAN_2M == from;
    assert NewHugeIn(s, s'', root, from, to);
    hide Contained, NewHugeIn;
    ConservedTwice(s, s', s'', leak);
    FirstHugeOfRange(s, s', s'', root, from, to, user, writable, ok);
  }

  lemma HugeRangeStays(s: Space, s': Space, root: nat, from: nat, to: nat, q: nat, phys: nat, user: bool,
                       writable: bool)
    requires NoHugeIn(s.frames, root, from, to, 2) && NoPageTableIn(s.frames, root, from, to)
    requires MapsHuge(s, s', root, q, phys, user, writable) && SameLastLevel(s, s', root)
    ensures NoHugeIn(s'.frames, root, from + SPAN_2M, to, 2) && NoPageTableIn(s'.frames, root, from + SPAN_2M, to)
  {
    hide HugeAt, Walk, TableAt;
    forall v: nat | from + SPAN_2M <= v < to ensures NoHugeOnPath(s'.frames, root, v, 2) {
      assert NoHugeOnPath(s.frames, root, v, 2);
    }
  }

  lemma HugeRangeStart(s: Space, root: nat, from: nat, to: nat)
    requires NoHugeIn(s.frames, root, from, to, 2) && NoPageTableIn(s.frames, root, from, to)
    requires from < to && from % SPAN_2M == 0
    ensures NoHugeOnPath(s.frames, root, from, 2) && TableAt(s.frames, root, 3, from / SPAN_2M).None?
  {
    hide HugeAt, TableAt;
    assert from / SPAN_2M * SPAN_2M == from;
  }

  /** `map_identity_2m_range` from an aligned address on, in tables without page tables there. */
  lemma {:induction false} MapHugesWorks(s: Space, root: nat, address: nat, limit: nat, flags: nat)
    returns (leak: set<nat>)
    requires Good(s, root) && address % SPAN_2M == 0 && limit % SPAN_2M == 0 && limit <= VIRT_LIMIT
    requires NoHugeIn(s.frames, root, address, limit, 2) && NoPageTableIn(s.frames, root, address, limit)
    requires flags < PAGE_HUGE && Present(flags)
    ensures var (s', r) := MapHuges(s, root, address, limit, flags);
            HugesMapped(s, s', root, address, limit, User(flags), Writable(flags), r.Ok?, leak)
    decreases limit - address
  {
    hide Sound, Walk, Conserved, HugeAt, IsTable, Frame, User, Writable, Present, NoHugeIn, NoPageTableIn, HugesMapped,
         TableAt;
    hide Contained, MapsHuge, Unmoved, Map2m;
    leak := {};
    if address >= limit {
      HugesEmpty(s, root, address, limit, User(flags), Writable(flags));
    } else {
      HugeRangeStart(s, root, address, limit);
      assert address < VIRT_LIMIT && IsFrame(address);
      leak := Map2mWorks(s, root, address, address, flags);
      var (s1, r) := Map2m(s, root, address, address, flags);
      hide NoHugeOnPath, SameLastLevel;
      if r.Err? {
        HugesStopped(s, s1, root, address, limit, User(flags), Writable(flags), leak);
      } else {
        HugeRangeStays(s, s1, root, address, limit, address / SPAN_2M, address, User(flags), Writable(flags));
        leak := MapHugesWorks(s1, root, address + SPAN_2M, limit, flags);
        HugesExtended(s, s1, MapHuges(s1, root, address + SPAN_2M, limit, flags).0, root, address, limit,
                      User(flags), Writable(flags), MapHuges(s1, root, address + SPAN_2M, limit, flags).1.Ok?, leak);
      }
    }
  }

  // ---------------------------------------------------------------------------
  // A fresh root.

  /** A zeroed root outside the free set is a sound tree that translates nothing. */
  lemma EmptyRoot(s: Space, root: nat)
    requires IsFrame(root) && root !in s.free && Frame(s.frames, root) == ZeroPage()
    requires forall f :: f in s.free ==> IsFrame(f)
    ensures Good(s, root)
    ensures forall v: nat :: v < VIRT_LIMIT ==> Walk(s.frames, root, v) == None
    ensures forall d: nat, q: nat :: !HugeAt(s.frames, root, d, q)
    ensures forall q: nat :: TableAt(s.frames, root, 3, q).None?
    ensures forall f: nat :: IsTable(s.frames, root, f) <==> f == root
  {
    hide ZeroPage, GetWord;
    forall i: nat | i < WORDS_PER_PAGE ensures Entry(s.frames, root, i) == 0 {
      ZeroPageWords(i);
    }
    forall d: nat, p: nat ensures TableAt(s.frames, root, d, p) == if d == 0 && p == 0 then Some(root) else None
                          ensures EntryAt(s.frames, root, d, p) == if d == 0 && p < WORDS_PER_PAGE then Some(0)
                                    else None {
      OnlyRoot(s, root, d, p);
    }
    assert TableAt(s.frames, root, 0, 0) == Some(root);
    hide TableAt, EntryAt, Entry;
    forall v: nat | v < VIRT_LIMIT ensures Walk(s.frames, root, v) == None {
      WalkIsLeaf(s.frames, root, v);
      hide Walk;
    }
  }

  lemma {:induction false} OnlyRoot(s: Space, root: nat, d: nat, p: nat)
    requires forall i: nat :: i < WORDS_PER_PAGE ==> Entry(s.frames, root, i) == 0
    ensures TableAt(s.frames, root, d, p) == if d == 0 && p == 0 then Some(root) else None
    ensures EntryAt(s.frames, root, d, p) == if d == 0 && p < WORDS_PER_PAGE then Some(0) else None
    decreases d
  {
    if d > 0 {
      OnlyRoot(s, root, d - 1, p);
      OnlyRoot(s, root, d - 1, p / WORDS_PER_PAGE);
      TableBelow(s.frames, root, d - 1, p);
      TableBelow(s.frames, root, d - 1, p / WORDS_PER_PAGE);
    }
  }
}
