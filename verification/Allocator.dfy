// kernel/kernel/src/memory/allocator.rs and the page lists of
// kernel/kernel/src/memory/types.rs: a bounded table of free intervals that
// behaves as a set of pages.
module Allocators {
  import opened Prelude

  const MAX_FREE_RANGES: nat := 128

  datatype Region = Region(start: nat, end: nat)
  {
    predicate IsEmpty() { start == 0 || start >= end }

    predicate Contains(a: nat) { start <= a < end }

    /** The region overlaps or adjoins `[from, to)`. */
    predicate Touches(from: nat, to: nat) { from <= end && start <= to }

    /** `PhysicalRegion::allocate_contiguous_pages`, with its overflow checks. */
    function AllocatePages(count: nat): Option<(nat, Region)> {
      if count == 0 || IsEmpty() then None
      else if count * PAGE_SIZE > U64_MAX || start + count * PAGE_SIZE > U64_MAX then None
      else if start + count * PAGE_SIZE > end then None
      else Some((start, Region(start + count * PAGE_SIZE, end)))
    }

    /** `PhysicalRegion::allocate_page`. */
    function AllocatePage(): Option<(nat, Region)> {
      if IsEmpty() then None
      else if start + PAGE_SIZE > U64_MAX then None
      else if start + PAGE_SIZE > end then None
      else Some((start, Region(start + PAGE_SIZE, end)))
    }
  }

  const NO_REGION := Region(0, 0)

  type Table = seq<Region>

  /** `a` is free. */
  ghost predicate Covered(t: Table, a: nat) {
    exists i :: 0 <= i < |t| && t[i].Contains(a)
  }

  /** Sorted, disjoint, never adjacent, never starting at 0. */
  ghost predicate Canonical(t: Table) {
    && (forall i :: 0 <= i < |t| ==> 0 < t[i].start < t[i].end <= U64_MAX)
    && (forall i, j :: 0 <= i < j < |t| ==> t[i].end < t[j].start)
  }

  ghost predicate Aligned(t: Table) {
    forall i :: 0 <= i < |t| ==> PageAligned(t[i].start) && PageAligned(t[i].end)
  }

  /** `n` pages from `from` on are free. */
  ghost predicate FreeRun(t: Table, from: nat, n: nat) {
    forall a :: from <= a < from + n * PAGE_SIZE ==> Covered(t, a)
  }

  // ---------------------------------------------------------------------------
  // A canonical table is determined by what it covers.

  /** A covered stretch lies within one region, because no two regions adjoin. */
  lemma StretchInOneRegion(t: Table, from: nat, to: nat) returns (i: nat)
    requires Canonical(t) && from < to
    requires forall a :: from <= a < to ==> Covered(t, a)
    ensures i < |t| && t[i].start <= from && to <= t[i].end
  {
    assert Covered(t, from);
    i :| 0 <= i < |t| && t[i].Contains(from);
    assert t[i].end < to ==> Covered(t, t[i].end);
  }

  lemma FirstIsLeast(t: Table, a: nat)
    requires Canonical(t) && Covered(t, a)
    ensures t != [] && t[0].start <= a
  {
    var i :| 0 <= i < |t| && t[i].Contains(a);
    assert i > 0 ==> t[0].end < t[i].start;
  }

  lemma TailIsCanonical(t: Table)
    requires Canonical(t) && t != []
    ensures Canonical(t[1..])
    ensures forall a: nat :: Covered(t[1..], a) <==> Covered(t, a) && a >= t[0].end
  {
    forall a: nat ensures Covered(t[1..], a) <==> Covered(t, a) && a >= t[0].end {
      if Covered(t[1..], a) {
        var i :| 0 <= i < |t[1..]| && t[1..][i].Contains(a);
        assert t[i + 1].Contains(a) && t[0].end < t[i + 1].start;
      }
      if Covered(t, a) && a >= t[0].end {
        var i :| 0 <= i < |t| && t[i].Contains(a);
        assert t[1..][i - 1].Contains(a);
      }
    }
  }

  lemma FirstRegionsAgree(t: Table, u: Table)
    requires Canonical(t) && Canonical(u) && t != [] && forall a: nat :: Covered(t, a) <==> Covered(u, a)
    ensures u != [] && t[0] == u[0]
  {
    assert t[0].Contains(t[0].start) && Covered(t, t[0].start);
    FirstIsLeast(u, t[0].start);
    assert u[0].Contains(u[0].start) && Covered(u, u[0].start);
    FirstIsLeast(t, u[0].start);
    forall a: nat | t[0].start <= a < t[0].end ensures Covered(u, a) {
      assert t[0].Contains(a);
    }
    forall a: nat | u[0].start <= a < u[0].end ensures Covered(t, a) {
      assert u[0].Contains(a);
    }
    var i := StretchInOneRegion(u, t[0].start, t[0].end);
    var j := StretchInOneRegion(t, u[0].start, u[0].end);
    assert i == 0 && j == 0;
  }

  /** Two canonical tables that cover the same addresses are the same table. */
  lemma {:induction false} CanonicalIsUnique(t: Table, u: Table)
    requires Canonical(t) && Canonical(u) && forall a: nat :: Covered(t, a) <==> Covered(u, a)
    ensures t == u
    decreases |t|
  {
    if t == [] {
      if u != [] {
        FirstRegionsAgree(u, t);
      }
    } else {
      FirstRegionsAgree(t, u);
      TailIsCanonical(t);
      TailIsCanonical(u);
      CanonicalIsUnique(t[1..], u[1..]);
    }
  }

  // ---------------------------------------------------------------------------
  // Table updates, as functions.

  function WithoutRegion(t: Table, i: nat): Table
    requires i < |t|
  {
    t[..i] + t[i + 1..]
  }

  function WithRegion(t: Table, i: nat, r: Region): Table
    requires i <= |t|
  {
    t[..i] + [r] + t[i..]
  }

  lemma RemoveCovers(t: Table, i: nat)
    requires Canonical(t) && i < |t|
    ensures Canonical(WithoutRegion(t, i))
    ensures forall a: nat :: Covered(WithoutRegion(t, i), a) <==> Covered(t, a) && !t[i].Contains(a)
  {
    var u := WithoutRegion(t, i);
    assert forall k :: 0 <= k < |u| ==> u[k] == if k < i then t[k] else t[k + 1];
    assert Canonical(u);
    forall a: nat ensures Covered(u, a) <==> Covered(t, a) && !t[i].Contains(a) {
      RemoveCoversAt(t, i, a);
    }
  }

  lemma OneRegionContains(t: Table, i: nat, j: nat, a: nat)
    requires Canonical(t) && i < |t| && j < |t| && i != j && t[j].Contains(a)
    ensures !t[i].Contains(a)
  {
  }

  lemma RemovedIndex(t: Table, i: nat, k: nat)
    requires i < |t|
    ensures |WithoutRegion(t, i)| == |t| - 1
    ensures k < |t| - 1 ==> WithoutRegion(t, i)[k] == if k < i then t[k] else t[k + 1]
  {
  }

  lemma RemoveCoversAt(t: Table, i: nat, a: nat)
    requires Canonical(t) && i < |t|
    ensures Covered(WithoutRegion(t, i), a) <==> Covered(t, a) && !t[i].Contains(a)
  {
    hide Canonical, Region.Contains, WithoutRegion, Covered;
    if Covered(WithoutRegion(t, i), a) { StaysCovered(t, i, a); }
    if Covered(t, a) && !t[i].Contains(a) { StillCovered(t, i, a); }
  }

  lemma StaysCovered(t: Table, i: nat, a: nat)
    requires Canonical(t) && i < |t| && Covered(WithoutRegion(t, i), a)
    ensures Covered(t, a) && !t[i].Contains(a)
  {
    hide Canonical, Region.Contains, WithoutRegion;
    var u := WithoutRegion(t, i);
    var k :| 0 <= k < |u| && u[k].Contains(a);
    RemovedIndex(t, i, k);
    OneRegionContains(t, i, if k < i then k else k + 1, a);
  }

  lemma StillCovered(t: Table, i: nat, a: nat)
    requires i < |t| && Covered(t, a) && !t[i].Contains(a)
    ensures Covered(WithoutRegion(t, i), a)
  {
    hide Region.Contains, WithoutRegion;
    var k :| 0 <= k < |t| && t[k].Contains(a);
    RemovedIndex(t, i, if k < i then k else k - 1);
  }

  lemma Inserted(t: Table, i: nat, r: Region, u: Table)
    requires i <= |t| && |u| == |t| + 1 && u[i] == r
    requires forall k :: 0 <= k < i ==> u[k] == t[k]
    requires forall k :: i <= k < |t| ==> u[k + 1] == t[k]
    ensures u == WithRegion(t, i, r)
  {
    forall k | i < k < |u| ensures u[k] == t[k - 1] {
      assert u[k - 1 + 1] == t[k - 1];
    }
  }

  lemma InsertCovers(t: Table, i: nat, r: Region)
    requires i <= |t|
    ensures forall a: nat :: Covered(WithRegion(t, i, r), a) <==> Covered(t, a) || r.Contains(a)
  {
    var u := WithRegion(t, i, r);
    assert forall k :: 0 <= k < |u| ==> u[k] == if k < i then t[k] else if k == i then r else t[k - 1];
    forall a: nat ensures Covered(u, a) <==> Covered(t, a) || r.Contains(a) {
      if Covered(t, a) {
        var k :| 0 <= k < |t| && t[k].Contains(a);
        assert u[if k < i then k else k + 1].Contains(a);
      }
      if r.Contains(a) { assert u[i].Contains(a); }
    }
  }

  lemma InsertIsCanonical(t: Table, i: nat, r: Region)
    requires Canonical(t) && i <= |t| && 0 < r.start < r.end <= U64_MAX
    requires forall k :: 0 <= k < i ==> t[k].end < r.start
    requires forall k :: i <= k < |t| ==> r.end < t[k].start
    ensures Canonical(WithRegion(t, i, r))
  {
    var u := WithRegion(t, i, r);
    assert forall k :: 0 <= k < |u| ==> u[k] == if k < i then t[k] else if k == i then r else t[k - 1];
  }

  lemma ReplaceCovers(t: Table, i: nat, r: Region)
    requires Canonical(t) && i < |t|
    ensures forall a: nat :: Covered(t[i := r], a) <==> r.Contains(a) || (Covered(t, a) && !t[i].Contains(a))
  {
    forall a: nat ensures Covered(t[i := r], a) <==> r.Contains(a) || (Covered(t, a) && !t[i].Contains(a)) {
      if r.Contains(a) { assert t[i := r][i].Contains(a); }
      if Covered(t, a) && !t[i].Contains(a) {
        var k :| 0 <= k < |t| && t[k].Contains(a);
        assert t[i := r][k].Contains(a);
      }
      if Covered(t[i := r], a) && !r.Contains(a) {
        var k :| 0 <= k < |t| && t[i := r][k].Contains(a);
        assert t[k].Contains(a);
      }
    }
  }

  // ---------------------------------------------------------------------------
  // Merging: the loop of `insert_range`.

  /** `[from, to)` and what is left of the table make up `[start, end)` and the table before. */
  ghost predicate Merging(before: Table, t: Table, start: nat, end: nat, from: nat, to: nat) {
    && Canonical(t) && |t| <= |before| && 0 < from <= start < end <= to <= U64_MAX
    && (forall a: nat :: Covered(t, a) || from <= a < to <==> Covered(before, a) || start <= a < end)
    && (|t| == |before| ==> from == start && to == end && t == before)
    && (|t| < |before| ==> exists i :: 0 <= i < |before| && before[i].Touches(start, end))
    && (Aligned(before) && PageAligned(start) && PageAligned(end) ==>
          Aligned(t) && PageAligned(from) && PageAligned(to))
  }

  ghost predicate Apart(t: Table, n: nat, from: nat, to: nat)
    requires n <= |t|
  {
    forall k :: 0 <= k < n ==> !t[k].Touches(from, to)
  }

  function Min(a: nat, b: nat): nat { if a < b then a else b }

  function Max(a: nat, b: nat): nat { if a > b then a else b }

  /** A touching region is absorbed; what was apart stays apart. */
  lemma Absorb(before: Table, t: Table, index: nat, start: nat, end: nat, from: nat, to: nat)
    requires Merging(before, t, start, end, from, to) && index < |t| && t[index].Touches(from, to)
    requires Apart(t, index, from, to)
    ensures var r := t[index];
            && Merging(before, WithoutRegion(t, index), start, end, Min(from, r.start), Max(to, r.end))
            && Apart(WithoutRegion(t, index), index, Min(from, r.start), Max(to, r.end))
  {
    RemoveCovers(t, index);
    var u, r := WithoutRegion(t, index), t[index];
    var from', to' := Min(from, r.start), Max(to, r.end);
    assert forall k :: 0 <= k < |u| ==> u[k] == if k < index then t[k] else t[k + 1];
    forall a: nat ensures Covered(u, a) || from' <= a < to' <==> Covered(before, a) || start <= a < end {
      assert Covered(t, a) || from <= a < to <==> Covered(before, a) || start <= a < end;
      if r.Contains(a) { assert Covered(t, a); }
    }
    hide Covered;
  }

  lemma MergeStart(t: Table, start: nat, end: nat)
    requires Canonical(t) && 0 < start < end <= U64_MAX
    ensures Merging(t, t, start, end, start, end) && Apart(t, 0, start, end)
  {
    hide Canonical, Covered, Aligned;
  }

  lemma SkipApart(t: Table, index: nat, from: nat, to: nat)
    requires index < |t| && Apart(t, index, from, to) && !t[index].Touches(from, to)
    ensures Apart(t, index + 1, from, to)
  {
  }

  /** When nothing was absorbed nothing adjoined. */
  lemma MergeSize(before: Table, t: Table, start: nat, end: nat, from: nat, to: nat)
    requires Merging(before, t, start, end, from, to) && Apart(t, |t|, from, to)
    ensures 0 < from <= start < end <= to <= U64_MAX
    ensures |t| < |before| <==> exists i :: 0 <= i < |before| && before[i].Touches(start, end)
  {
  }

  /** With every region absorbed or apart, the merged one goes before the first that starts after it. */
  lemma MergeDone(before: Table, t: Table, start: nat, end: nat, from: nat, to: nat, at: nat)
    requires Merging(before, t, start, end, from, to) && Apart(t, |t|, from, to) && at <= |t|
    requires forall k :: 0 <= k < at ==> t[k].start < from
    requires at < |t| ==> from <= t[at].start
    ensures var u := WithRegion(t, at, Region(from, to));
            && Canonical(u)
            && (forall a: nat :: Covered(u, a) <==> Covered(before, a) || start <= a < end)
            && (Aligned(before) && PageAligned(start) && PageAligned(end) ==> Aligned(u))
  {
    InsertCovers(t, at, Region(from, to));
    InsertIsCanonical(t, at, Region(from, to));
    var u := WithRegion(t, at, Region(from, to));
    assert forall k :: 0 <= k < |u| ==> u[k] == if k < at then t[k] else if k == at then Region(from, to) else t[k - 1];
    hide Covered;
  }

  // ---------------------------------------------------------------------------
  // Clearing: the loop of `reserve_range`.

  /** The region sticks out of `[start, end)` on both sides. */
  predicate Splits(r: Region, start: nat, end: nat) {
    r.start < start && end < r.end
  }

  ghost predicate HasSplit(t: Table, start: nat, end: nat) {
    exists i :: 0 <= i < |t| && Splits(t[i], start, end)
  }

  /** `u` covers no more than `t`, and the same outside `[start, end)`. */
  ghost predicate SameOutside(t: Table, u: Table, start: nat, end: nat) {
    && (forall a: nat :: a < start || end <= a ==> (Covered(u, a) <==> Covered(t, a)))
    && (forall a: nat :: Covered(u, a) ==> Covered(t, a))
  }

  lemma SameOutsideTwice(t: Table, u: Table, v: Table, start: nat, end: nat)
    requires SameOutside(t, u, start, end) && SameOutside(u, v, start, end)
    ensures SameOutside(t, v, start, end)
  {
  }

  /** Outside `[start, end)` nothing has changed, and the first `n` regions keep clear of it. */
  ghost predicate Clearing(before: Table, t: Table, start: nat, end: nat, n: nat) {
    && Canonical(before) && Canonical(t) && n <= |t| && start < end
    && SameOutside(before, t, start, end)
    && (forall k :: 0 <= k < n ==> t[k].end <= start || end <= t[k].start)
    && (t == before || !HasSplit(before, start, end) || |t| == |before| + 1)
    && (|t| <= |before| || (|t| == |before| + 1 && HasSplit(before, start, end) && ClearFrom(t, n, start, end)))
    && (Aligned(before) && PageAligned(start) && PageAligned(end) ==> Aligned(t))
  }

  ghost predicate ClearFrom(t: Table, n: nat, start: nat, end: nat)
    requires n <= |t|
  {
    forall k :: n <= k < |t| ==> t[k].end <= start || end <= t[k].start
  }

  ghost predicate Reaches(r: Region, start: nat, end: nat) {
    start < r.end && r.start < end
  }

  /** The region a step changes is an original one; it is split only when nothing changed before. */
  lemma OnlyOneSplits(t: Table, start: nat, end: nat, i: nat)
    requires Canonical(t) && i < |t| && start < end && Reaches(t[i], start, end) && !Splits(t[i], start, end)
    ensures !HasSplit(t, start, end)
  {
    forall j | 0 <= j < |t| ensures !Splits(t[j], start, end) {
    }
  }

  lemma ClearByDrop(before: Table, t: Table, start: nat, end: nat, i: nat)
    requires Clearing(before, t, start, end, i) && i < |t| && start <= t[i].start && t[i].end <= end
    ensures Clearing(before, WithoutRegion(t, i), start, end, i)
  {
    hide Covered, SameOutside, WithoutRegion, HasSplit, Aligned;
    var u := WithoutRegion(t, i);
    DropCovers(t, start, end, i);
    NotEmpty(t, i);
    if t == before { OnlyOneSplits(before, start, end, i); }
    SameOutsideTwice(before, t, u, start, end);
    DropAligned(t, i);
    hide Canonical;
    RemovedIndex(t, i, 0);
    forall k | 0 <= k < i ensures u[k].end <= start || end <= u[k].start {
      RemovedIndex(t, i, k);
      assert u[k] == t[k];
    }
  }

  lemma NotEmpty(t: Table, i: nat)
    requires Canonical(t) && i < |t|
    ensures t[i].start < t[i].end
  {
  }

  lemma DropAligned(t: Table, i: nat)
    requires i < |t|
    ensures Aligned(t) ==> Aligned(WithoutRegion(t, i))
  {
    hide PageAligned;
  }

  lemma DropCovers(t: Table, start: nat, end: nat, i: nat)
    requires Canonical(t) && i < |t| && start <= t[i].start && t[i].end <= end
    ensures Canonical(WithoutRegion(t, i)) && SameOutside(t, WithoutRegion(t, i), start, end)
  {
    RemoveCovers(t, i);
    hide Covered, Canonical;
  }

  lemma ClearByTrim(before: Table, t: Table, start: nat, end: nat, i: nat, r: Region)
    requires Clearing(before, t, start, end, i) && i < |t| && Reaches(t[i], start, end)
    requires || (start <= t[i].start && end < t[i].end && r == Region(end, t[i].end))
             || (t[i].start < start && t[i].end <= end && r == Region(t[i].start, start))
    ensures Clearing(before, t[i := r], start, end, i + 1)
  {
    hide Covered, SameOutside, HasSplit, PageAligned;
    var u := t[i := r];
    TrimCovers(t, start, end, i, r);
    if t == before { OnlyOneSplits(before, start, end, i); }
    SameOutsideTwice(before, t, u, start, end);
    ShrinkIsCanonical(t, i, r);
    NotEmpty(t, i);
    hide Canonical;
  }

  lemma ShrinkIsCanonical(t: Table, i: nat, r: Region)
    requires Canonical(t) && i < |t| && t[i].start <= r.start < r.end <= t[i].end
    ensures Canonical(t[i := r])
  {
  }

  lemma TrimCovers(t: Table, start: nat, end: nat, i: nat, r: Region)
    requires Canonical(t) && i < |t| && start < end
    requires || (start <= t[i].start && end < t[i].end && r == Region(end, t[i].end))
             || (t[i].start < start && t[i].end <= end && r == Region(t[i].start, start))
    requires Reaches(t[i], start, end)
    ensures SameOutside(t, t[i := r], start, end)
  {
    ReplaceCovers(t, i, r);
    forall a: nat | t[i].Contains(a) ensures Covered(t, a) {
    }
    hide Covered;
  }

  lemma ClearStart(t: Table, start: nat, end: nat)
    requires Canonical(t) && start < end
    ensures Clearing(t, t, start, end, 0)
  {
    hide Covered, Canonical, HasSplit, Aligned;
  }

  lemma ClearBySkip(before: Table, t: Table, start: nat, end: nat, i: nat)
    requires Clearing(before, t, start, end, i) && i < |t| && !Reaches(t[i], start, end)
    ensures Clearing(before, t, start, end, i + 1)
  {
  }

  function SplitRegion(t: Table, i: nat, start: nat, end: nat): Table
    requires i < |t|
  {
    WithRegion(t[i := Region(t[i].start, start)], i + 1, Region(end, t[i].end))
  }

  lemma ClearBySplit(before: Table, t: Table, start: nat, end: nat, i: nat)
    requires Clearing(before, t, start, end, i) && i < |t| && Splits(t[i], start, end)
    ensures t == before && HasSplit(before, start, end)
    ensures Clearing(before, SplitRegion(t, i, start, end), start, end, i + 2)
  {
    SplitOnlyAtFirst(before, t, start, end, i);
    assert HasSplit(before, start, end);
    var u := SplitRegion(t, i, start, end);
    SplitCovers(t, start, end, i);
    SplitShape(t, start, end, i);
    hide Covered, SameOutside, HasSplit, SplitRegion;
    SameOutsideTwice(before, t, u, start, end);
  }

  lemma BehindRegion(t: Table, i: nat, end: nat)
    requires Canonical(t) && i < |t| && end <= t[i].end
    ensures forall k :: i < k < |t| ==> end <= t[k].start
  {
  }

  lemma SplitIndex(t: Table, i: nat, start: nat, end: nat)
    requires i < |t|
    ensures var u := SplitRegion(t, i, start, end);
            && |u| == |t| + 1
            && forall k :: 0 <= k < |u| ==>
                 u[k] == if k < i then t[k] else if k == i then Region(t[i].start, start)
                         else if k == i + 1 then Region(end, t[i].end) else t[k - 1]
  {
  }

  lemma SplitShape(t: Table, start: nat, end: nat, i: nat)
    requires Canonical(t) && i < |t| && Splits(t[i], start, end) && start < end
    ensures var u := SplitRegion(t, i, start, end);
            && |u| == |t| + 1 && Canonical(u)
            && (forall k :: 0 <= k < i ==> u[k] == t[k])
            && u[i].end <= start && end <= u[i + 1].start && ClearFrom(u, i + 2, start, end)
            && (Aligned(t) && PageAligned(start) && PageAligned(end) ==> Aligned(u))
  {
    hide PageAligned;
    var left, right := Region(t[i].start, start), Region(end, t[i].end);
    var u := SplitRegion(t, i, start, end);
    ShrinkIsCanonical(t, i, left);
    InsertIsCanonical(t[i := left], i + 1, right);
    BehindRegion(t, i, end);
    hide Canonical;
    SplitIndex(t, i, start, end);
    hide SplitRegion;
  }

  lemma SplitCovers(t: Table, start: nat, end: nat, i: nat)
    requires Canonical(t) && i < |t| && Splits(t[i], start, end) && start < end
    ensures SameOutside(t, SplitRegion(t, i, start, end), start, end)
  {
    var left, right := Region(t[i].start, start), Region(end, t[i].end);
    var l := t[i := left];
    ReplaceCovers(t, i, left);
    InsertCovers(l, i + 1, right);
    forall a: nat | t[i].Contains(a) ensures Covered(t, a) {
    }
    hide Covered, Canonical;
  }

  /** A table that already changed has nothing left to split. */
  lemma SplitOnlyAtFirst(before: Table, t: Table, start: nat, end: nat, i: nat)
    requires Clearing(before, t, start, end, i) && i < |t| && Splits(t[i], start, end)
    ensures t == before
  {
    if |t| <= |before| {
      forall a: nat | t[i].start <= a < t[i].end ensures Covered(before, a) {
        assert t[i].Contains(a) && Covered(t, a);
      }
      var j := StretchInOneRegion(before, t[i].start, t[i].end);
      assert Splits(before[j], start, end) && HasSplit(before, start, end);
    }
  }

  lemma ClearDone(before: Table, t: Table, start: nat, end: nat)
    requires Clearing(before, t, start, end, |t|)
    ensures forall a: nat :: Covered(t, a) <==> Covered(before, a) && !(start <= a < end)
    ensures HasSplit(before, start, end) ==> |t| == |before| + 1
    ensures Canonical(t)
    ensures Aligned(before) && PageAligned(start) && PageAligned(end) ==> Aligned(t)
  {
    forall a: nat | Covered(t, a) ensures !(start <= a < end) {
      var k :| 0 <= k < |t| && t[k].Contains(a);
    }
  }

  // ---------------------------------------------------------------------------
  // Taking pages from the front of a region.

  function TakeFront(t: Table, i: nat, bytes: nat): Table
    requires i < |t|
  {
    var r := Region(t[i].start + bytes, t[i].end);
    if r.IsEmpty() then WithoutRegion(t, i) else t[i := r]
  }

  lemma TakeFrontCovers(t: Table, i: nat, bytes: nat)
    requires Canonical(t) && i < |t| && 0 < bytes && t[i].start + bytes <= t[i].end
    ensures var u := TakeFront(t, i, bytes);
            && Canonical(u)
            && (forall a: nat :: Covered(u, a) <==> Covered(t, a) && !(t[i].start <= a < t[i].start + bytes))
  {
    var r := Region(t[i].start + bytes, t[i].end);
    var u := TakeFront(t, i, bytes);
    assert forall a: nat :: t[i].Contains(a) ==> Covered(t, a);
    hide Covered;
    if r.IsEmpty() {
      RemoveCovers(t, i);
    } else {
      ReplaceCovers(t, i, r);
      ShrinkIsCanonical(t, i, r);
    }
  }

  lemma TakeFrontIsAligned(t: Table, i: nat, bytes: nat)
    requires Aligned(t) && i < |t| && PageAligned(bytes)
    ensures Aligned(TakeFront(t, i, bytes))
  {
    var u := TakeFront(t, i, bytes);
    var r := Region(t[i].start + bytes, t[i].end);
    if r.IsEmpty() {
      assert forall k :: 0 <= k < |u| ==> u[k] == if k < i then t[k] else t[k + 1];
    }
  }

  /** When none of the first `i` regions has room, no run starts below region `i`. */
  lemma NoRunBelow(t: Table, i: nat, n: nat)
    requires Canonical(t) && i <= |t| && n > 0
    requires forall k :: 0 <= k < i ==> t[k].AllocatePages(n).None?
    ensures forall s: nat :: (i < |t| ==> s < t[i].start) ==> !FreeRun(t, s, n)
  {
    forall s: nat | i < |t| ==> s < t[i].start ensures !FreeRun(t, s, n) {
      if FreeRun(t, s, n) {
        var j := StretchInOneRegion(t, s, s + n * PAGE_SIZE);
      }
    }
  }

  // ---------------------------------------------------------------------------
  // The allocator, in place.

  class PhysicalAllocator {
    const regions: array<Region>
    var count: nat

    ghost predicate Valid()
      reads this, regions
    {
      regions.Length == MAX_FREE_RANGES && count <= regions.Length && Canonical(View())
    }

    /** The occupied part of the table. */
    ghost function View(): Table
      reads this, regions
    {
      if count <= regions.Length then regions[..count] else []
    }

    constructor ()
      ensures Valid() && fresh(regions) && View() == []
    {
      regions := new Region[MAX_FREE_RANGES](_ => NO_REGION);
      count := 0;
    }

    method RemoveRegion(index: nat)
      requires regions.Length == MAX_FREE_RANGES && index < count <= regions.Length
      modifies this, regions
      ensures count == old(count) - 1 && View() == WithoutRegion(old(View()), index)
    {
      ghost var before := View();
      var shift := index;
      while shift + 1 < count
        invariant index <= shift < count
        invariant forall k :: 0 <= k < index ==> regions[k] == before[k]
        invariant forall k :: index <= k < shift ==> regions[k] == before[k + 1]
        invariant forall k :: shift < k < count ==> regions[k] == before[k]
        modifies regions
      {
        assert regions[shift + 1] == before[shift + 1];
        regions[shift] := regions[shift + 1];
        shift := shift + 1;
      }
      count := count - 1;
      regions[count] := NO_REGION;
      assert |View()| == |WithoutRegion(before, index)|;
      assert forall k :: 0 <= k < count ==> regions[k] == WithoutRegion(before, index)[k];
      assert View() == WithoutRegion(before, index);
    }

    /** The shift that makes room at `index`, and the store. */
    method InsertRegion(index: nat, region: Region)
      requires regions.Length == MAX_FREE_RANGES && index <= count < regions.Length
      modifies this, regions
      ensures count == old(count) + 1 && View() == WithRegion(old(View()), index, region)
    {
      hide WithRegion;
      ghost var before := View();
      var shift := count;
      while shift > index
        invariant index <= shift <= count
        invariant forall k :: 0 <= k < shift ==> regions[k] == before[k]
        invariant forall k :: shift <= k < count ==> regions[k + 1] == before[k]
        modifies regions
      {
        assert regions[shift - 1] == before[shift - 1];
        regions[shift] := regions[shift - 1];
        shift := shift - 1;
      }
      regions[index] := region;
      count := count + 1;
      Inserted(before, index, region, View());
    }

    /** Set union. The capacity assertion fails (`ok` is false) only for a full table
        none of whose regions adjoins the new one. */
    method InsertRange(start: nat, end: nat) returns (ok: bool)
      requires Valid() && 0 < start && end <= U64_MAX
      modifies this, regions
      ensures ok <==> start >= end || old(count) < MAX_FREE_RANGES
                      || exists i :: 0 <= i < old(count) && old(View())[i].Touches(start, end)
      ensures ok ==> Valid() && forall a: nat :: Covered(View(), a) <==> Covered(old(View()), a) || start <= a < end
      ensures ok && Aligned(old(View())) && PageAligned(start) && PageAligned(end) ==> Aligned(View())
    {
      hide Canonical, Covered, Aligned, Merging, Apart, PageAligned;
      if start >= end { return true; }
      ghost var before := View();
      var from, to, index := start, end, 0;
      MergeStart(before, start, end);
      while index < count
        invariant regions.Length == MAX_FREE_RANGES && index <= count <= |before| <= MAX_FREE_RANGES
        invariant Merging(before, View(), start, end, from, to) && Apart(View(), index, from, to)
        decreases count - index
      {
        var region := regions[index];
        if region.end < from || region.start > to {
          SkipApart(View(), index, from, to);
          index := index + 1;
          continue;
        }
        Absorb(before, View(), index, start, end, from, to);
        from, to := Min(from, region.start), Max(to, region.end);
        RemoveRegion(index);
      }
      hide Region.Touches;
      MergeSize(before, View(), start, end, from, to);
      if count >= regions.Length { return false; }
      InsertMerged(from, to, start, end, before);
      ok := true;
    }

    /** The merged region goes before the first that starts behind it. */
    method InsertMerged(from: nat, to: nat, start: nat, end: nat, ghost before: Table)
      requires regions.Length == MAX_FREE_RANGES && count < MAX_FREE_RANGES
      requires Merging(before, View(), start, end, from, to) && Apart(View(), count, from, to)
      modifies this, regions
      ensures Valid() && forall a: nat :: Covered(View(), a) <==> Covered(before, a) || start <= a < end
      ensures Aligned(before) && PageAligned(start) && PageAligned(end) ==> Aligned(View())
    {
      hide Canonical, Covered, Aligned, Merging, Apart, PageAligned;
      var at := 0;
      while at < count && regions[at].start < from
        invariant 0 <= at <= count
        invariant forall k :: 0 <= k < at ==> View()[k].start < from
      {
        at := at + 1;
      }
      MergeDone(before, View(), start, end, from, to, at);
      InsertRegion(at, Region(from, to));
    }

    /** Set difference. The capacity assertion fails only when a full table would have to
        split a region. */
    method ReserveRange(start: nat, end: nat) returns (ok: bool)
      requires Valid()
      modifies this, regions
      ensures ok <==> start >= end || old(count) < MAX_FREE_RANGES || !HasSplit(old(View()), start, end)
      ensures ok ==> Valid() && forall a: nat :: Covered(View(), a) <==> Covered(old(View()), a) && !(start <= a < end)
      ensures ok && Aligned(old(View())) && PageAligned(start) && PageAligned(end) ==> Aligned(View())
    {
      hide Canonical, Covered, Aligned, HasSplit, PageAligned;
      if start >= end { return true; }
      ghost var before := View();
      var index: nat := 0;
      ClearStart(before, start, end);
      hide Clearing;
      while index < count
        invariant regions.Length == MAX_FREE_RANGES && index <= count <= MAX_FREE_RANGES
        invariant Clearing(before, View(), start, end, index)
        decreases count - index
      {
        ok, index := ReserveAt(index, start, end, before);
        if !ok { return; }
      }
      ClearDone(before, View(), start, end);
      ok := true;
    }

    /** One turn of the loop: the region at `index` is skipped, dropped, trimmed or split. */
    method ReserveAt(index: nat, start: nat, end: nat, ghost before: Table) returns (ok: bool, next: nat)
      requires regions.Length == MAX_FREE_RANGES && index < count <= MAX_FREE_RANGES
      requires Clearing(before, View(), start, end, index)
      modifies this, regions
      ensures !ok ==> |before| == MAX_FREE_RANGES && HasSplit(before, start, end)
      ensures ok ==>
                && next <= count <= MAX_FREE_RANGES && Clearing(before, View(), start, end, next)
                && count - next < old(count) - index
    {
      hide Canonical, Covered, Aligned, HasSplit, Clearing, SplitRegion, WithoutRegion, PageAligned;
      var region := regions[index];
      if region.end <= start || region.start >= end {
        ClearBySkip(before, View(), start, end, index);
        return true, index + 1;
      }
      if start <= region.start && end >= region.end {
        ClearByDrop(before, View(), start, end, index);
        RemoveRegion(index);
        return true, index;
      }
      if start <= region.start {
        ClearByTrim(before, View(), start, end, index, Region(end, region.end));
        Store(index, Region(Min(end, region.end), region.end));
        return true, index + 1;
      }
      if end >= region.end {
        ClearByTrim(before, View(), start, end, index, Region(region.start, start));
        Store(index, Region(region.start, Max(start, region.start)));
        return true, index + 1;
      }
      ClearBySplit(before, View(), start, end, index);
      if count >= regions.Length { return false, index; }
      SplitAt(index, start, end);
      return true, index + 2;
    }

    /** The region becomes its part below `start` and its part from `end` on. */
    method SplitAt(index: nat, start: nat, end: nat)
      requires regions.Length == MAX_FREE_RANGES && index < count < regions.Length
      modifies this, regions
      ensures count == old(count) + 1 && View() == SplitRegion(old(View()), index, start, end)
    {
      var region := regions[index];
      Store(index, Region(region.start, start));
      InsertRegion(index + 1, Region(end, region.end));
    }

    method Store(index: nat, region: Region)
      requires regions.Length == MAX_FREE_RANGES && index < count <= regions.Length
      modifies regions
      ensures View() == old(View())[index := region]
    {
      regions[index] := region;
    }

    /** Fails if and only if no `n` consecutive pages are free; otherwise takes the lowest run. */
    method AllocateContiguousPages(n: nat) returns (r: Option<nat>)
      requires Valid()
      modifies this, regions
      ensures Valid()
      ensures r.None? <==> n == 0 || forall s: nat :: !FreeRun(old(View()), s, n)
      ensures r.None? ==> View() == old(View())
      ensures r.Some? ==>
                && FreeRun(old(View()), r.value, n) && (forall s: nat :: s < r.value ==> !FreeRun(old(View()), s, n))
                && (forall a: nat :: Covered(View(), a) <==>
                      Covered(old(View()), a) && !(r.value <= a < r.value + n * PAGE_SIZE))
      ensures Aligned(old(View())) ==> Aligned(View()) && (r.Some? ==> PageAligned(r.value))
    {
      var index := 0;
      while index < count
        invariant Valid() && index <= count && View() == old(View())
        invariant forall k :: 0 <= k < index ==> View()[k].AllocatePages(n).None?
      {
        var taken := regions[index].AllocatePages(n);
        if taken.Some? {
          NoRunBelow(View(), index, n);
          Take(index, n);
          return Some(taken.value.0);
        }
        index := index + 1;
      }
      if n > 0 {
        NoRunBelow(View(), count, n);
      }
      return None;
    }

    method AllocatePage() returns (r: Option<nat>)
      requires Valid()
      modifies this, regions
      ensures Valid()
      ensures r.None? <==> forall s: nat :: !FreeRun(old(View()), s, 1)
      ensures r.None? ==> View() == old(View())
      ensures r.Some? ==>
                && FreeRun(old(View()), r.value, 1) && (forall s: nat :: s < r.value ==> !FreeRun(old(View()), s, 1))
                && (forall a: nat :: Covered(View(), a) <==>
                      Covered(old(View()), a) && !(r.value <= a < r.value + PAGE_SIZE))
      ensures Aligned(old(View())) ==> Aligned(View()) && (r.Some? ==> PageAligned(r.value))
    {
      var index := 0;
      while index < count
        invariant Valid() && index <= count && View() == old(View())
        invariant forall k :: 0 <= k < index ==> View()[k].AllocatePages(1).None?
      {
        var taken := regions[index].AllocatePage();
        if taken.Some? {
          NoRunBelow(View(), index, 1);
          Take(index, 1);
          return Some(taken.value.0);
        }
        index := index + 1;
      }
      NoRunBelow(View(), count, 1);
      return None;
    }

    /** Both allocations shrink the region they chose and drop it when it is used up. */
    method Take(index: nat, n: nat)
      requires Valid() && index < count && regions[index].AllocatePages(n).Some?
      modifies this, regions
      ensures Valid() && FreeRun(old(View()), old(regions[index]).start, n)
      ensures forall a: nat :: Covered(View(), a) <==>
                Covered(old(View()), a) && !(old(regions[index]).start <= a < old(regions[index]).start + n * PAGE_SIZE)
      ensures Aligned(old(View())) ==> Aligned(View()) && PageAligned(old(regions[index]).start)
    {
      ghost var before := View();
      var region := regions[index];
      assert forall a: nat :: region.Contains(a) ==> before[index].Contains(a);
      assert FreeRun(before, region.start, n);
      TakeFrontCovers(before, index, n * PAGE_SIZE);
      if Aligned(before) { TakeFrontIsAligned(before, index, n * PAGE_SIZE); }
      hide Canonical, Covered, FreeRun, Aligned;
      var rest := regions[index].AllocatePages(n).value.1;
      if rest.IsEmpty() {
        RemoveRegion(index);
      } else {
        Store(index, rest);
      }
    }

    method FreeContiguousPages(start: nat, n: nat) returns (ok: bool)
      requires Valid() && 0 < start && start + n * PAGE_SIZE <= U64_MAX
      modifies this, regions
      ensures ok <==> n == 0 || old(count) < MAX_FREE_RANGES
                      || exists i :: 0 <= i < old(count) && old(View())[i].Touches(start, start + n * PAGE_SIZE)
      ensures ok ==> Valid() && forall a: nat :: Covered(View(), a) <==>
                       Covered(old(View()), a) || start <= a < start + n * PAGE_SIZE
      ensures ok && Aligned(old(View())) && PageAligned(start) ==> Aligned(View())
    {
      hide Covered, Canonical, Aligned;
      if n == 0 { return true; }
      ok := InsertRange(start, start + n * PAGE_SIZE);
    }
  }
}
