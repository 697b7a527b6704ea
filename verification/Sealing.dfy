// What user code can reach from its own address space, and what that keeps from
// everybody else (kernel/kernel/src/memory/paging.rs, loader.rs:39-104): the
// processor's walk is the only way to a byte.
module Sealing {
  import opened Prelude
  import opened Words
  import opened Paging
  import opened UserImages
  import opened Segments

  /** The program owns its tables and everything user code reaches; what user code reaches is no
      table, and different pages lead to different frames. */
  ghost predicate Sealed(frames: map<nat, Bytes>, root: nat, owned: seq<nat>) {
    && (forall f: nat :: IsTable(frames, root, f) ==> f in owned)
    && (forall v: nat :: v < VIRT_LIMIT && UserReaches(frames, root, v) ==> ReachesOwn(frames, root, owned, v))
    && (forall u: nat, v: nat :: u < VIRT_LIMIT && v < VIRT_LIMIT && PageBase(u) != PageBase(v) ==>
         NoAlias(frames, root, u, v))
  }

  predicate NoAlias(frames: map<nat, Bytes>, root: nat, u: nat, v: nat) {
    UserReaches(frames, root, u) && UserReaches(frames, root, v) ==>
        FrameOf(frames, root, u) != FrameOf(frames, root, v)
  }

  /** User code can read at `v`. */
  predicate UserReaches(frames: map<nat, Bytes>, root: nat, v: nat) {
    var t := Walk(frames, root, v);
    t.Some? && t.value.user
  }

  /** The page an address leads to. */
  function FrameOf(frames: map<nat, Bytes>, root: nat, v: nat): nat
    requires UserReaches(frames, root, v)
  {
    PageBase(Walk(frames, root, v).value.phys)
  }

  ghost predicate ReachesOwn(frames: map<nat, Bytes>, root: nat, owned: seq<nat>, v: nat)
    requires UserReaches(frames, root, v)
  {
    && FrameOf(frames, root, v) in owned && !IsTable(frames, root, FrameOf(frames, root, v))
    && Walk(frames, root, v).value.phys % PAGE_SIZE == v % PAGE_SIZE
  }

  predicate MayStore(frames: map<nat, Bytes>, root: nat, v: nat) {
    v < VIRT_LIMIT && UserReaches(frames, root, v) && Walk(frames, root, v).value.writable
  }

  /** Memory after user code stored `b` at `v`. */
  function Stored(frames: map<nat, Bytes>, root: nat, v: nat, b: Byte): map<nat, Bytes>
    requires MayStore(frames, root, v)
  {
    var t := Walk(frames, root, v).value;
    var f := PageBase(t.phys);
    frames[f := Frame(frames, f)[t.phys % PAGE_SIZE := b]]
  }

  /** Every page of `pages` holds the same bytes. */
  ghost predicate SameFrames(frames: map<nat, Bytes>, frames': map<nat, Bytes>, pages: seq<nat>) {
    forall p :: p in pages ==> Frame(frames', p) == Frame(frames, p)
  }

  /** The address space looks the same to its program: every translation, and every byte user code
      reads. */
  ghost predicate SameToUser(frames: map<nat, Bytes>, frames': map<nat, Bytes>, root: nat) {
    forall v: nat :: v < VIRT_LIMIT ==>
      Walk(frames', root, v) == Walk(frames, root, v) && ReadUser(frames', root, v) == ReadUser(frames, root, v)
  }

  lemma SameTablesSameTree(frames: map<nat, Bytes>, frames': map<nat, Bytes>, root: nat)
    requires forall f: nat :: IsTable(frames, root, f) ==> Frame(frames', f) == Frame(frames, f)
    ensures forall v: nat :: v < VIRT_LIMIT ==> Walk(frames', root, v) == Walk(frames, root, v)
    ensures forall f: nat :: IsTable(frames', root, f) <==> IsTable(frames, root, f)
  {
    hide Walk, IsTable, Frame;
    TreesAgree(frames, frames', root);
    SameTreeSameShape(frames, frames', root);
    forall v: nat | v < VIRT_LIMIT ensures Walk(frames', root, v) == Walk(frames, root, v) {
      SameTreeSameWalk(frames, frames', root, v);
    }
  }

  /** Who writes none of a program's pages changes nothing for it. */
  lemma SealedAgrees(frames: map<nat, Bytes>, frames': map<nat, Bytes>, root: nat, owned: seq<nat>)
    requires Sealed(frames, root, owned) && SameFrames(frames, frames', owned)
    ensures Sealed(frames', root, owned) && SameToUser(frames, frames', root)
  {
    hide Walk, IsTable, Frame, PageBase;
    SameTablesSameTree(frames, frames', root);
    SameWalksStaySealed(frames, frames', root, owned);
    forall v: nat | v < VIRT_LIMIT ensures ReadUser(frames', root, v) == ReadUser(frames, root, v) {
      if UserReaches(frames, root, v) { assert ReachesOwn(frames, root, owned, v); }
    }
  }

  lemma SameWalksStaySealed(frames: map<nat, Bytes>, frames': map<nat, Bytes>, root: nat, owned: seq<nat>)
    requires Sealed(frames, root, owned)
    requires forall v: nat :: v < VIRT_LIMIT ==> Walk(frames', root, v) == Walk(frames, root, v)
    requires forall f: nat :: IsTable(frames', root, f) <==> IsTable(frames, root, f)
    ensures Sealed(frames', root, owned)
  {
    hide Walk, IsTable, PageBase;
    forall v: nat | v < VIRT_LIMIT && UserReaches(frames', root, v) ensures ReachesOwn(frames', root, owned, v) {
      assert ReachesOwn(frames, root, owned, v);
    }
    forall u: nat, v: nat | u < VIRT_LIMIT && v < VIRT_LIMIT && PageBase(u) != PageBase(v)
      ensures NoAlias(frames', root, u, v)
    {
      assert NoAlias(frames, root, u, v);
    }
  }

  /** A store writes one owned page that is no table: no translation changes, the byte reads back,
      and no other byte the program reads changes. */
  lemma StoreWorks(frames: map<nat, Bytes>, root: nat, owned: seq<nat>, v: nat, b: Byte)
    requires Sealed(frames, root, owned) && MayStore(frames, root, v)
    ensures var frames' := Stored(frames, root, v, b);
            && Sealed(frames', root, owned)
            && (forall f: nat :: f !in owned ==> Frame(frames', f) == Frame(frames, f))
            && (forall u: nat :: u < VIRT_LIMIT ==>
                  && Walk(frames', root, u) == Walk(frames, root, u)
                  && ReadUser(frames', root, u) == if u == v then Some(b) else ReadUser(frames, root, u))
  {
    hide Walk, IsTable, PageBase;
    var frames' := Stored(frames, root, v, b);
    assert ReachesOwn(frames, root, owned, v);
    StoredFrame(frames, root, v, b);
    hide Frame, Stored;
    SameTablesSameTree(frames, frames', root);
    SameWalksStaySealed(frames, frames', root, owned);
    forall u: nat | u < VIRT_LIMIT
      ensures ReadUser(frames', root, u) == if u == v then Some(b) else ReadUser(frames, root, u)
    {
      if UserReaches(frames, root, u) {
        assert ReachesOwn(frames, root, owned, u);
        SamePageSameOffset(u, v);
        assert PageBase(u) != PageBase(v) ==> NoAlias(frames, root, u, v);
      }
    }
  }

  lemma StoredFrame(frames: map<nat, Bytes>, root: nat, v: nat, b: Byte)
    requires MayStore(frames, root, v)
    ensures var f, offset := FrameOf(frames, root, v), Walk(frames, root, v).value.phys % PAGE_SIZE;
            forall g: nat :: Frame(Stored(frames, root, v, b), g) == if g == f then Frame(frames, f)[offset := b]
                else Frame(frames, g)
  {
    hide Walk, PageBase, ZeroPage;
  }

  lemma SamePageSameOffset(u: nat, v: nat)
    ensures PageBase(u) == PageBase(v) && u % PAGE_SIZE == v % PAGE_SIZE ==> u == v
  {
  }

  /** An image over shared kernel mappings is sealed. */
  lemma ImageIsSealed(b: Build, root: nat, rights: map<nat, bool>, base: map<nat, Bytes>)
    requires Image(b, root, rights, base)
    requires forall v: nat :: v < VIRT_LIMIT ==> !UserReaches(base, root, v)
    ensures Sealed(b.space.frames, root, b.space.owned)
  {
    hide Walk, IsTable, PageBase, FindPage, Sound, HugeAt, Right;
    var frames := b.space.frames;
    forall v: nat | v < VIRT_LIMIT && UserReaches(frames, root, v) ensures ReachesOwn(frames, root, b.space.owned, v) {
      var i := ReachedPage(b, root, rights, base, v);
    }
    forall u: nat, v: nat | u < VIRT_LIMIT && v < VIRT_LIMIT && PageBase(u) != PageBase(v)
      ensures NoAlias(frames, root, u, v)
    {
      if UserReaches(frames, root, u) && UserReaches(frames, root, v) {
        var i := ReachedPage(b, root, rights, base, u);
        var j := ReachedPage(b, root, rights, base, v);
      }
    }
  }

  /** What user code reaches is a recorded page. */
  lemma ReachedPage(b: Build, root: nat, rights: map<nat, bool>, base: map<nat, Bytes>, v: nat) returns (i: nat)
    requires Image(b, root, rights, base) && v < VIRT_LIMIT && UserReaches(b.space.frames, root, v)
    requires !UserReaches(base, root, v)
    ensures i < |b.pages| && b.pages[i].virt == PageBase(v) && b.pages[i].phys == FrameOf(b.space.frames, root, v)
    ensures Walk(b.space.frames, root, v).value.phys % PAGE_SIZE == v % PAGE_SIZE
  {
    hide Walk, IsTable, PageBase, FindPage, Sound, HugeAt, Right, FramesAside, TablesOwned;
    assert Leads(b, root, rights, base, v);
    FoundPage(b.pages, PageBase(v));
    var page := FindPage(b.pages, PageBase(v)).value;
    FrameIsAligned(b.pages, page, v);
    i :| 0 <= i < |b.pages| && b.pages[i] == page;
  }
}
