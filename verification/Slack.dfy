// When the allocator's table is large enough: how much the free pages can break
// up over a run, and that with this much room no release ever fails
// (kernel/kernel/src/memory/allocator.rs:65-72, types.rs:108-116).
module Slack {
  import opened Prelude
  import opened Processes
  import opened Scheduling
  import opened SchedulerRuns
  import opened SchedulerSafety
  import opened SchedulerExit
  import opened SchedulerTheorems
  import opened PageOwnership
  import opened Allocators
  import opened LoadAndRun
  import opened LoadOrder
  import opened Worlds
  import opened Isolation
  import Elf
  import Environments
  import KernelMaps
  import Paging
  import Paths
  import Programs
  import Words

  // ---------------------------------------------------------------------------
  // How a set of pages breaks up.

  ghost predicate OnBoundaries(pages: set<nat>) {
    forall p :: p in pages ==> PageAligned(p)
  }

  lemma CutOne(pages: set<nat>, x: nat)
    ensures Ranges(pages - {x}) <= Ranges(pages) + 1
  {
    var cut := pages - {x};
    forall p | p in RangeStarts(cut) ensures p in RangeStarts(pages) + {x + PAGE_SIZE} {
    }
    SubsetSize(RangeStarts(cut), RangeStarts(pages) + {x + PAGE_SIZE});
  }

  lemma {:induction false} CutSet(pages: set<nat>, away: set<nat>)
    ensures Ranges(pages - away) <= Ranges(pages) + |away|
    decreases |away|
  {
    hide Ranges;
    if away == {} {
      assert pages - away == pages;
    } else {
      var x :| x in away;
      CutSet(pages, away - {x});
      CutOne(pages - (away - {x}), x);
      assert pages - (away - {x}) - {x} == pages - away;
    }
  }

  /** The pages of an interval are gone: at most one range more. */
  lemma CutMiddle(pages: set<nat>, a: nat, b: nat)
    requires OnBoundaries(pages)
    ensures Ranges(pages - Between(pages, a, b)) <= Ranges(pages) + 1
  {
    var cut := pages - Between(pages, a, b);
    var next := AlignUp(b, PAGE_SIZE);
    forall p | p in RangeStarts(cut) ensures p in RangeStarts(pages) + {next} {
      if p >= PAGE_SIZE && p - PAGE_SIZE in pages { OnlyNext(b, p); }
    }
    SubsetSize(RangeStarts(cut), RangeStarts(pages) + {next});
  }

  function Between(pages: set<nat>, a: nat, b: nat): set<nat> {
    set p | p in pages && a <= p < b
  }

  lemma OnlyNext(b: nat, p: nat)
    requires PageAligned(p) && b <= p < b + PAGE_SIZE
    ensures p == AlignUp(b, PAGE_SIZE)
  {
  }

  /** The lowest pages are gone: no range more. */
  lemma CutLow(pages: set<nat>, c: nat)
    requires OnBoundaries(pages)
    ensures Ranges(pages - Below(pages, c)) <= Ranges(pages)
  {
    var cut := pages - Below(pages, c);
    if Below(pages, c) == {} {
      assert cut == pages;
    } else {
      var first, next := Paging.Lowest(pages), AlignUp(c, PAGE_SIZE);
      assert first in RangeStarts(pages);
      forall p | p in RangeStarts(cut) ensures p in RangeStarts(pages) - {first} + {next} {
        if p >= PAGE_SIZE && p - PAGE_SIZE in pages { OnlyNext(c, p); }
      }
      SubsetSize(RangeStarts(cut), RangeStarts(pages) - {first} + {next});
    }
  }

  // ---------------------------------------------------------------------------
  // Giving back what one load recorded.

  /** The pages that a completed load recorded, in their order. */
  ghost predicate LoadedFrom(before: set<nat>, owned: seq<nat>) {
    PrefixesAreLow(before, owned) && exists c: nat :: Elements(owned) == Below(before, c)
  }

  /** With part of what was taken given back, the free pages are what they were before, less an
      interval and one page. */
  lemma PartGivenBack(before: set<nat>, free: set<nat>, recorded: set<nat>)
    requires OnBoundaries(before) && (exists c: nat :: Taken(before, free, c)) && NearlyLowest(before, recorded)
    ensures Ranges(free + recorded) <= Ranges(before) + 2
  {
    hide Ranges;
    var c: nat :| Taken(before, free, c);
    var d: nat, h: Option<nat> :| recorded == Below(before, d) - Hole(h);
    var middle := before - Between(before, d, c);
    var hole := if h.Some? && h.value < c then {h.value} else {};
    CutMiddle(before, d, c);
    CutSet(middle, hole);
    assert free + recorded == middle - hole;
  }

  lemma StoppedMayRelease(before: set<nat>, s: Paging.Space)
    requires Stopped(before, s) && OnBoundaries(before) && Ranges(before) + 2 <= MAX_FREE_RANGES
    ensures Releasable(s.free, s.owned)
  {
    hide Ranges, NearlyLowest, Taken, Elements;
    forall k | 0 <= k <= |s.owned| ensures Ranges(s.free + Elements(s.owned[..k])) <= MAX_FREE_RANGES {
      PartGivenBack(before, s.free, Elements(s.owned[..k]));
    }
  }

  /** The same after others lost pages that were free then. */
  lemma MayReleaseAfterLoss(before: set<nat>, owned: seq<nat>, gone: set<nat>)
    requires LoadedFrom(before, owned) && OnBoundaries(before) && gone !! Elements(owned)
    requires Ranges(before) + |gone| + 2 <= MAX_FREE_RANGES
    ensures Releasable(before - Elements(owned) - gone, owned)
  {
    hide Ranges, NearlyLowest;
    var free := before - Elements(owned);
    var c: nat :| Elements(owned) == Below(before, c);
    assert Taken(before, free, c);
    forall k | 0 <= k <= |owned| ensures Ranges(free - gone + Elements(owned[..k])) <= MAX_FREE_RANGES {
      var part := Elements(owned[..k]);
      PartGivenBack(before, free, part);
      assert part <= Elements(owned);
      assert free - gone + part == (free + part) - gone;
      CutSet(free + part, gone);
    }
  }

  lemma AttemptIsOrdered(frames: map<nat, Bytes>, free: set<nat>, e: Setting, q: Programs.Request)
    ensures var a := Attempted(frames, free, e.k, q, e.utf8);
            Stopped(free, a.space) && (a.program.Some? ==> LoadedFrom(free, a.program.value.ownedPages))
  {
    hide Elf.ParseHeader, Programs.WholeLoad, Elf.TableFits, PrefixesAreLow;
    var a := Attempted(frames, free, e.k, q, e.utf8);
    Elf.ParsedTableFits(q.file);
    NothingIsOrdered(frames, free);
    OrderedMayStop(free, Paging.Space(frames, free, [], true), None);
    var h := Elf.ParseHeader(q.file);
    if h.Ok? && Programs.ContainsUserAddress(h.value.entry) {
      WholeLoadOrdered(frames, free, e.k, h.value, q, e.utf8);
      var (s, r) := Programs.WholeLoad(frames, free, e.k, h.value, q, e.utf8);
      assert a.space == s && (a.program.Some? <==> r.Ok?);
      if a.program.Some? {
        OrderedMayStop(free, s, None);
        var c: nat :| OrderedAt(free, a.space, None, c);
        assert Elements(a.space.owned) == Below(free, c);
      }
    }
  }

  // ---------------------------------------------------------------------------
  // What runs keep.

  /** The free pages have broken up no further than what was lost explains, now and at each spawn
      whose child is still there, and every child still has the pages its load took. */
  ghost predicate Slim(m: Machine, ranges: nat) {
    && Ranges(m.free) <= ranges + |m.lost|
    && forall p: nat :: UserProcess(m.s, p) && m.s.Process(p).waitingThread.Some? ==> SlimChild(m, p, ranges)
  }

  ghost predicate SlimChild(m: Machine, p: nat, ranges: nat)
    requires m.s.HasProcess(p) && m.s.Process(p).waitingThread.Some?
  {
    var u := m.s.Process(p).waitingThread.value;
    && u in m.awaiting && LoadedFrom(m.awaiting[u].free, m.s.Process(p).ownedPages)
    && Ranges(m.awaiting[u].free) <= ranges + |m.awaiting[u].lost|
  }

  /** The waiter of a process is its parent on the chain, blocked. */
  lemma WaiterIsParked(m: Machine, chain: seq<Link>, total: set<nat>, p: nat) returns (i: nat)
    requires Good(m, chain, total) && UserProcess(m.s, p) && m.s.Process(p).waitingThread.Some?
    ensures 0 < i < |chain| && chain[i].pid == p
    ensures m.s.Process(p).waitingThread == Some(chain[i - 1].tid) && m.s.current != Some(chain[i - 1].tid)
    ensures chain[i - 1].tid in m.awaiting
    ensures Snapshot(m.s, m.lost, chain, i - 1, m.awaiting[chain[i - 1].tid], total)
  {
    hide Members, Cpu, Memory, SpaceOf, Snapshot, OnChain, PidOnChain, Inheritable, Numbered, TailAwaits;
    GoodFacts(m, chain, total);
    UserProcessesAreLinks(m.s, chain);
    i := LinkOfProcess(chain, p);
    LinkFacts(m.s, chain, i);
    LinkFacts(m.s, chain, 0);
    FirstLink(m.s, chain);
    if i > 0 {
      LinkFacts(m.s, chain, i - 1);
      assert ParkedAt(m.s, chain, i - 1) && AwaitsAt(m, chain, i - 1);
      LinkFacts(m.s, chain, |chain| - 1);
      KernelOwnsKernelThreads(m.s, chain);
    }
  }

  lemma LinkOfProcess(chain: seq<Link>, p: nat) returns (i: nat)
    requires PidOnChain(chain, p)
    ensures i < |chain| && chain[i].pid == p
  {
    i :| 0 <= i < |chain| && chain[i].pid == p;
  }

  lemma FirstLink(s: Sched, chain: seq<Link>)
    requires Members(s, chain)
    ensures chain[0] == Link(1, 1)
  {
    hide LinkOk, OnChain, PidOnChain;
  }

  /** Once a child has left, the free pages are those of its spawn less what was lost since. */
  lemma ExitRestores(m: Machine, chain: seq<Link>, total: set<nat>)
    requires Good(m, chain, total) && |chain| > 1 && chain[|chain| - 2].tid in m.awaiting
    requires Snapshot(m.s, m.lost, chain, |chain| - 2, m.awaiting[chain[|chain| - 2].tid], total)
    ensures var p, owned := m.awaiting[chain[|chain| - 2].tid], Elements(Pages(m.s, Tail(chain).pid));
            && p.lost <= m.lost && owned !! m.lost && owned <= p.free
            && m.free + owned == p.free - (m.lost - p.lost) && m.free == p.free - owned - (m.lost - p.lost)
  {
    hide Good, Snapshot, Elements, Pages;
    var p, owned := m.awaiting[chain[|chain| - 2].tid], Elements(Pages(m.s, Tail(chain).pid));
    GoodMemory(m, chain, total);
    assert p.lost <= m.lost by { SnapshotLost(m, chain, total, p); }
    forall x
      ensures x in m.free || x in owned <==> x in p.free && !(x in m.lost && x !in p.lost)
      ensures x in owned ==> x !in m.free && x !in m.lost && x in p.free
    {
      PageOfTheSpawn(m, chain, total, p, x);
    }
    RestOfTheSpawn(p, m.free, m.lost, owned);
  }

  lemma SnapshotLost(m: Machine, chain: seq<Link>, total: set<nat>, p: Pending)
    requires |chain| > 1 && Snapshot(m.s, m.lost, chain, |chain| - 2, p, total)
    ensures p.lost <= m.lost
  {
    hide Owns;
  }

  lemma PageOfTheSpawn(m: Machine, chain: seq<Link>, total: set<nat>, p: Pending, x: nat)
    requires |chain| > 1 && Memory(m.s, m.free, m.lost, chain, total)
    requires Snapshot(m.s, m.lost, chain, |chain| - 2, p, total)
    ensures var owned := Elements(Pages(m.s, Tail(chain).pid));
            && (x in m.free || x in owned <==> x in p.free && !(x in m.lost && x !in p.lost))
            && (x in owned ==> x !in m.free && x !in m.lost && x in p.free)
  {
    hide Memory, Owns, Pages;
    var n := |chain| - 1;
    assert chain[..n] + [chain[n]] == chain;
    FreeIsTheRest(m.s, m.free, m.lost, chain, total, x);
    PushOwns(m.s, chain[..n], chain[n], x);
    OwnsOfPrefix(m.s, chain[..n], chain, n, x);
    if x in Pages(m.s, chain[n].pid) { TailOwnsAlone(m, chain, total, x); }
  }

  lemma TailOwnsAlone(m: Machine, chain: seq<Link>, total: set<nat>, x: nat)
    requires chain != [] && Memory(m.s, m.free, m.lost, chain, total) && x in Pages(m.s, Tail(chain).pid)
    ensures x in total && x !in m.lost && !Owns(m.s, chain, |chain| - 1, x)
  {
    var n := |chain| - 1;
    assert OwnedApart(m.s, m.free, m.lost, chain[n].pid, total);
    forall j | 0 <= j < n ensures x !in Pages(m.s, chain[j].pid) {
    }
  }

  lemma RestOfTheSpawn(p: Pending, free: set<nat>, lost: set<nat>, owned: set<nat>)
    requires p.lost <= lost && owned !! lost && owned <= p.free && owned !! free
    requires forall x :: x in free || x in owned <==> x in p.free && !(x in lost && x !in p.lost)
    ensures free + owned == p.free - (lost - p.lost) && free == p.free - owned - (lost - p.lost)
  {
  }

  /** The record's load is as it was. */
  lemma ChildStaysSlim(m: Machine, m': Machine, p: nat, ranges: nat)
    requires m'.s.HasProcess(p) && Kept(m.s, m'.s, p) && m'.s.Process(p).waitingThread.Some?
    requires SlimChild(m, p, ranges)
    requires var u := m'.s.Process(p).waitingThread.value; u in m'.awaiting && m'.awaiting[u] == m.awaiting[u]
    ensures SlimChild(m', p, ranges)
  {
    hide Ranges, LoadedFrom;
  }

  lemma AskStaysSlim(m: Machine, a: Action, chain: seq<Link>, total: set<nat>, ranges: nat)
    requires Good(m, chain, total) && Safe(m, a) && Offered(m, a) && !a.SpawnAndWait? && Slim(m, ranges)
    requires OnBoundaries(total)
    ensures Slim(Step(m, a), ranges)
  {
    hide Good, Step, Ranges, LoadedFrom, SlimChild, Linked, CanExit;
    var m' := Step(m, a);
    AskKeepsRecords(m, a);
    AskAwaits(m, a);
    forall p: nat | UserProcess(m'.s, p) && m'.s.Process(p).waitingThread.Some? ensures SlimChild(m', p, ranges) {
      assert Kept(m.s, m'.s, p);
      assert SlimChild(m, p, ranges);
      var i := WaiterIsParked(m, chain, total, p);
      ChildStaysSlim(m, m', p, ranges);
    }
    if a.Exit? {
      ExitStaysSlim(m, a.status, chain, total, ranges);
    } else {
      OthersKeepPages(m, a);
    }
  }

  lemma OthersKeepPages(m: Machine, a: Action)
    requires Safe(m, a) && !a.SpawnAndWait? && !a.Exit?
    ensures Step(m, a).free == m.free && Step(m, a).lost == m.lost
  {
    hide Linked, PrepareSwitch, Process.SetCwd, Paths.Normalized, Environments.Apply;
  }

  lemma ExitStaysSlim(m: Machine, status: nat, chain: seq<Link>, total: set<nat>, ranges: nat)
    requires Good(m, chain, total) && Safe(m, Exit(status)) && Offered(m, Exit(status)) && Slim(m, ranges)
    ensures Ranges(Step(m, Exit(status)).free) <= ranges + |Step(m, Exit(status)).lost|
  {
    hide Good, Step, Ranges, LoadedFrom, Linked, CanExit;
    assert chain != [] by { GoodTables(m, chain, total); }
    ExitFrees(m, status, chain, total);
    if Step(m, Exit(status)).free != m.free {
      var p := Tail(chain).pid;
      var i := WaiterIsParked(m, chain, total, p);
      OnlyTail(m, chain, total, i);
      assert SlimChild(m, p, ranges);
      ExitRestores(m, chain, total);
      var snapshot := m.awaiting[chain[i - 1].tid];
      CutSet(snapshot.free, m.lost - snapshot.lost);
      assert |m.lost| == |m.lost - snapshot.lost| + |snapshot.lost| by { LostSize(snapshot.lost, m.lost); }
    }
  }

  lemma LostSize(a: set<nat>, b: set<nat>)
    requires a <= b
    ensures |b| == |b - a| + |a|
  {
    assert b == (b - a) + a;
  }

  lemma OnlyTail(m: Machine, chain: seq<Link>, total: set<nat>, i: nat)
    requires i < |chain| && Good(m, chain, total) && chain[i].pid == Tail(chain).pid
    ensures i == |chain| - 1
  {
    hide Good;
    GoodMembers(m, chain, total);
    LinkFacts(m.s, chain, |chain| - 1);
  }

  lemma GoodMembers(m: Machine, chain: seq<Link>, total: set<nat>)
    requires Good(m, chain, total)
    ensures Members(m.s, chain)
  {
    hide Members, Waits, Roles, Cpu, Identities, Memory, Snapshots;
  }

  /** Exits free the pages of the deepest process, or nothing. */
  lemma ExitFrees(m: Machine, status: nat, chain: seq<Link>, total: set<nat>)
    requires chain != [] && Good(m, chain, total) && Safe(m, Exit(status)) && Offered(m, Exit(status))
    ensures var m' := Step(m, Exit(status));
            && m'.lost == m.lost
            && (m'.free != m.free ==>
                  && m'.free == m.free + Elements(Pages(m.s, Tail(chain).pid)) && UserProcess(m.s, Tail(chain).pid)
                  && m.s.Process(Tail(chain).pid).waitingThread.Some?)
  {
    hide Members, Waits, Roles, Cpu, CanExit, Linked, PrepareExit, Elements, Identities, Memory, Snapshots;
    GoodFacts(m, chain, total);
    if |chain| == 1 {
      LastExitShutsDown(m.s, chain, status);
    } else {
      ExitShape(m.s, chain, status);
      OnlyBootstrapHasNoWaiter(m.s, chain);
    }
  }

  lemma SpawnStaysSlim(w: World, q: Programs.Request, silent: bool, e: Setting, chain: seq<Link>, total: set<nat>,
                       ranges: nat)
    requires Good(w.m, chain, total) && Allowed(w, Spawn(q, silent), e) && Slim(w.m, ranges)
    requires KernelMaps.SoundLayout(e.k) && (forall x :: x in total ==> Words.IsFrame(x)) && OnBoundaries(total)
    ensures Slim(Next(w, Spawn(q, silent), e).m, ranges)
  {
    hide Good, Slim, Answer, Attempted, KernelMaps.SoundLayout, Words.IsFrame, Step, LoadMayDo, Linked, Stopped,
         LoadedFrom;
    var a := LoadIn(w, q, e);
    FreeIsOfTotal(w.m, chain, total);
    AttemptMayRun(w.frames, w.m.free, e.k, q, e.utf8);
    AttemptIsOrdered(w.frames, w.m.free, e, q);
    match LoadOf(w.m.free, a)
    case LoadFailed(lost) => LossStaysSlim(w.m, lost, silent, chain, total, ranges);
    case Loaded(program) => StartStaysSlim(w.m, program, silent, chain, total, ranges);
  }

  lemma LossStaysSlim(m: Machine, lost: set<nat>, silent: bool, chain: seq<Link>, total: set<nat>, ranges: nat)
    requires Good(m, chain, total) && Safe(m, Yield) && Slim(m, ranges) && LoadMayDo(m.free, LoadFailed(lost))
    ensures Slim(Step(m, SpawnAndWait(LoadFailed(lost), silent)), ranges)
  {
    hide Ranges, LoadedFrom, Linked, Good;
    GoodMemory(m, chain, total);
    var m' := Step(m, SpawnAndWait(LoadFailed(lost), silent));
    CutSet(m.free, lost);
    assert |m.lost + lost| == |m.lost| + |lost| by { assert lost !! m.lost by { assert m.free !! m.lost; } }
    forall p: nat | UserProcess(m'.s, p) && m'.s.Process(p).waitingThread.Some? ensures SlimChild(m', p, ranges) {
      assert SlimChild(m, p, ranges);
    }
  }

  lemma StartStaysSlim(m: Machine, program: LoadedUserProgram, silent: bool, chain: seq<Link>, total: set<nat>,
                       ranges: nat)
    requires Good(m, chain, total) && Safe(m, Yield) && Slim(m, ranges)
    requires Offered(m, SpawnAndWait(Loaded(program), silent))
    requires LoadedFrom(m.free, program.ownedPages) && OnBoundaries(total)
    ensures Slim(Step(m, SpawnAndWait(Loaded(program), silent)), ranges)
  {
    hide Good, Ranges, LoadedFrom, Linked, SpawnChild, LoadMayDo, SpawnStep, Slim, PrepareWait, Tables, Elements,
         LinkOk, SpaceOf, Kept;
    GoodFacts(m, chain, total);
    GoodTables(m, chain, total);
    LoadedFacts(m.free, program);
    TailIsNotWoken(m, chain, total);
    if SpawnChild(m.s, Tail(chain).tid, program, silent).None? {
      RefusedSpawnChangesNothing(m, program, silent);
    } else {
      var link := SpawnedRecords(m, program, silent, chain, total);
      StartedIsSlim(m, SpawnStep(m, program, silent), program, chain, total, link.pid, ranges);
    }
  }

  lemma SpawnedRecords(m: Machine, program: LoadedUserProgram, silent: bool, chain: seq<Link>, total: set<nat>)
    returns (link: Link)
    requires chain != [] && Tables(m.s, chain, m.s.current) && Safe(m, Yield) && m.s.current == Some(Tail(chain).tid)
    requires LinkOk(m.s, Tail(chain)) && m.s.Thread(Tail(chain).tid).waitResult == None
    requires SpawnChild(m.s, Tail(chain).tid, program, silent).Some?
    ensures var m' := SpawnStep(m, program, silent);
            && m'.free == m.free - Elements(program.ownedPages) && m'.lost == m.lost
            && m'.awaiting == m.awaiting[Tail(chain).tid := Pending(m.nextInstance, m.free, m.lost)]
            && m'.s.HasProcess(link.pid) && m'.s.Process(link.pid).waitingThread == Some(Tail(chain).tid)
            && m'.s.Process(link.pid).ownedPages == program.ownedPages
            && forall p: nat :: p != link.pid && m'.s.HasProcess(p) ==> Kept(m.s, m'.s, p)
  {
    hide Linked, SpawnChild, SpawnStep, PrepareWait, Tables, Elements, SpaceOf, SamePages;
    var l, n, s1 := SpawnTables(m.s, chain, program, silent);
    link := l;
    SpawnedMachine(m, program, silent, Tail(chain), s1, link);
    ChildIsTheProgram(m.s, Tail(chain).tid, program, silent);
    ChildIsStored(m.s, Tail(chain).tid, program, silent);
    WaitKeepsProcesses(s1, link.pid);
    forall p: nat | p != link.pid && PrepareWait(s1, link.pid).0.HasProcess(p)
      ensures Kept(m.s, PrepareWait(s1, link.pid).0, p)
    {
      assert Kept(m.s, s1, p);
    }
  }

  lemma GoodTables(m: Machine, chain: seq<Link>, total: set<nat>)
    requires Good(m, chain, total)
    ensures Tables(m.s, chain, m.s.current) && m.s.current.Some? && chain != []
  {
    hide Waits, Roles, Cpu, Identities, Memory, Snapshots, LinkOk;
  }

  lemma StartedIsSlim(m: Machine, m': Machine, program: LoadedUserProgram, chain: seq<Link>, total: set<nat>, slot: nat,
                      ranges: nat)
    requires Good(m, chain, total) && Slim(m, ranges) && m.s.current == Some(Tail(chain).tid)
    requires LoadedFrom(m.free, program.ownedPages) && OnBoundaries(total)
    requires m'.free == m.free - Elements(program.ownedPages) && m'.lost == m.lost
    requires m'.awaiting == m.awaiting[Tail(chain).tid := Pending(m.nextInstance, m.free, m.lost)]
    requires m'.s.HasProcess(slot) && m'.s.Process(slot).waitingThread == Some(Tail(chain).tid)
    requires m'.s.Process(slot).ownedPages == program.ownedPages
    requires forall p: nat :: p != slot && m'.s.HasProcess(p) ==> Kept(m.s, m'.s, p)
    ensures Slim(m', ranges)
  {
    hide Good, Ranges;
    FreeIsOfTotal(m, chain, total);
    var c: nat :| Elements(program.ownedPages) == Below(m.free, c);
    CutLow(m.free, c);
    hide LoadedFrom;
    forall p: nat | UserProcess(m'.s, p) && m'.s.Process(p).waitingThread.Some? ensures SlimChild(m', p, ranges) {
      if p != slot {
        assert Kept(m.s, m'.s, p);
        assert SlimChild(m, p, ranges);
        var i := WaiterIsParked(m, chain, total, p);
        ChildStaysSlim(m, m', p, ranges);
      }
    }
  }

  // ---------------------------------------------------------------------------
  // Whole runs.

  lemma FramesOnBoundaries(total: set<nat>)
    requires forall x :: x in total ==> Words.IsFrame(x)
    ensures OnBoundaries(total)
  {
  }

  lemma {:induction false} WorldRunIsSlim(b: Start, e: Setting, acts: seq<Act>, w: World) returns (chain: seq<Link>)
    requires WorldReaches(b, e, acts, w)
    ensures Invariant(w.m, chain, b.total) && Slim(w.m, Ranges(b.total))
    decreases |acts|
  {
    hide Invariant, Boots, Allowed, Next, BootWorld, Slim, AllSealed, KernelMaps.SoundLayout, Words.IsFrame, Ranges,
         PageAligned;
    chain := WorldRunKeeps(b, e, acts, w);
    BootsParts(b, e);
    FramesOnBoundaries(b.total);
    if acts == [] {
      BootIsSlim(b, e);
    } else {
      var n := |acts| - 1;
      var before := RunWorld(BootWorld(b, e), acts[..n], e).value;
      var chain0 := WorldRunIsSlim(b, e, acts[..n], before);
      AllowedIsUp(before, acts[n], e);
      UpIsGood(before.m, chain0, b.total);
      ActStaysSlim(before, acts[n], e, chain0, b.total, Ranges(b.total));
    }
  }

  lemma ActStaysSlim(w: World, act: Act, e: Setting, chain: seq<Link>, total: set<nat>, ranges: nat)
    requires Good(w.m, chain, total) && Allowed(w, act, e) && Slim(w.m, ranges)
    requires KernelMaps.SoundLayout(e.k) && (forall x :: x in total ==> Words.IsFrame(x)) && OnBoundaries(total)
    ensures Slim(Next(w, act, e).m, ranges)
  {
    hide Good, Slim, Answer, Attempted, KernelMaps.SoundLayout, Words.IsFrame, Step, Safe, Offered, OnBoundaries;
    match act
    case Store(_, _) =>
    case Ask(a) => AskStaysSlim(w.m, a, chain, total, ranges);
    case Spawn(q, silent) => SpawnStaysSlim(w, q, silent, e, chain, total, ranges);
  }

  lemma BootIsSlim(b: Start, e: Setting)
    requires Boots(b, e) && OnBoundaries(b.total)
    ensures Slim(BootWorld(b, e).m, Ranges(b.total))
  {
    hide Attempted, KernelMaps.SoundLayout, Words.IsFrame, OnBoundaries, Ranges, PrefixesAreLow;
    AttemptIsOrdered(b.frames, b.total, e, b.q);
    var owned := FirstProgram(b, e).ownedPages;
    var c: nat :| Elements(owned) == Below(b.total, c);
    CutLow(b.total, c);
  }

  lemma SlimExitFits(m: Machine, status: nat, chain: seq<Link>, total: set<nat>, ranges: nat)
    requires chain != [] && Good(m, chain, total) && Safe(m, Exit(status)) && Offered(m, Exit(status))
    requires Slim(m, ranges)
    requires OnBoundaries(total) && ranges + |m.lost| + 2 <= MAX_FREE_RANGES
    ensures ExitFits(m, Exit(status))
  {
    hide Good, Ranges, LoadedFrom, Linked, CanExit, Members, Waits, Roles, Cpu, PrepareExit, Elements, Releasable,
         SpaceOf;
    GoodTables(m, chain, total);
    GoodFacts(m, chain, total);
    if |chain| == 1 {
      LastExitShutsDown(m.s, chain, status);
    } else {
      ExitShape(m.s, chain, status);
      OnlyBootstrapHasNoWaiter(m.s, chain);
      TailMayBeReleased(m, chain, total, ranges);
    }
  }

  /** The deepest process can give its pages back. */
  lemma TailMayBeReleased(m: Machine, chain: seq<Link>, total: set<nat>, ranges: nat)
    requires |chain| > 1 && Good(m, chain, total) && Slim(m, ranges) && OnBoundaries(total)
    requires UserProcess(m.s, Tail(chain).pid) && m.s.Process(Tail(chain).pid).waitingThread.Some?
    requires ranges + |m.lost| + 2 <= MAX_FREE_RANGES
    ensures Releasable(m.free, Pages(m.s, Tail(chain).pid))
  {
    hide Good, Ranges, LoadedFrom, Releasable;
    var p := Tail(chain).pid;
    var i := WaiterIsParked(m, chain, total, p);
    OnlyTail(m, chain, total, i);
    assert SlimChild(m, p, ranges);
    ExitRestores(m, chain, total);
    var snapshot := m.awaiting[chain[i - 1].tid];
    var gone := m.lost - snapshot.lost;
    LostSize(snapshot.lost, m.lost);
    SnapshotOfTotal(m, chain, total, i - 1, snapshot);
    MayReleaseAfterLoss(snapshot.free, Pages(m.s, p), gone);
  }

  lemma SnapshotOfTotal(m: Machine, chain: seq<Link>, total: set<nat>, i: nat, p: Pending)
    requires i < |chain| && Snapshot(m.s, m.lost, chain, i, p, total) && OnBoundaries(total)
    ensures OnBoundaries(p.free)
  {
    hide Owns, PageAligned;
  }

  lemma SlimSpawnAnswers(w: World, q: Programs.Request, silent: bool, e: Setting, chain: seq<Link>, total: set<nat>,
                         ranges: nat)
    requires Good(w.m, chain, total) && Slim(w.m, ranges) && Safe(w.m, Yield)
    requires OnBoundaries(total) && ranges + |w.m.lost| + 2 <= MAX_FREE_RANGES
    ensures !Answer(w.m, LoadIn(w, q, e), silent).Panicked?
  {
    hide Good, Attempted, Ranges, Linked, Stopped, LoadedFrom, Releasable, SpawnChild, PrepareWait, SlimChild;
    var a := LoadIn(w, q, e);
    FreeIsOfTotal(w.m, chain, total);
    AttemptIsOrdered(w.frames, w.m.free, e, q);
    StoppedMayRelease(w.m.free, a.space);
    assert a.program.Some? ==> a.program.value.ownedPages == a.space.owned by { AttemptOwns(w, q, e); }
  }

  /** While the free pages at boot take two entries less than the table has, less one for each page
      lost by failed loads since, no release can fail: every spawn is answered and every exit goes
      through. */
  lemma ReleasesNeverFail(b: Start, e: Setting, acts: seq<Act>, w: World)
    requires WorldReaches(b, e, acts, w) && Ranges(b.total) + |w.m.lost| + 2 <= MAX_FREE_RANGES
    ensures forall q, silent ::
              Offered(w.m, SpawnAction(w, q, silent, e)) && Safe(w.m, SpawnAction(w, q, silent, e)) ==>
              Allowed(w, Spawn(q, silent), e)
    ensures forall status: nat :: Offered(w.m, Exit(status)) && Safe(w.m, Exit(status)) ==>
              Allowed(w, Ask(Exit(status)), e)
  {
    hide Invariant, WorldReaches, Good, Slim, Answer, LoadIn, KernelMaps.SoundLayout, Words.IsFrame, Ranges,
         OnBoundaries, ExitFits, LoadOf,
         CanExit, Linked, LoadMayDo;
    var chain := WorldRunIsSlim(b, e, acts, w);
    ReachedBoots(b, e, acts, w);
    FramesOnBoundaries(b.total);
    forall q, silent | Offered(w.m, SpawnAction(w, q, silent, e)) && Safe(w.m, SpawnAction(w, q, silent, e))
      ensures Allowed(w, Spawn(q, silent), e)
    {
      UpIsGood(w.m, chain, b.total);
      SlimSpawnAnswers(w, q, silent, e, chain, b.total, Ranges(b.total));
    }
    forall status: nat | Offered(w.m, Exit(status)) && Safe(w.m, Exit(status))
      ensures Allowed(w, Ask(Exit(status)), e)
    {
      UpIsGood(w.m, chain, b.total);
      GoodTables(w.m, chain, b.total);
      SlimExitFits(w.m, status, chain, b.total, Ranges(b.total));
    }
  }

  lemma ReachedBoots(b: Start, e: Setting, acts: seq<Act>, w: World)
    requires WorldReaches(b, e, acts, w)
    ensures KernelMaps.SoundLayout(e.k) && forall x :: x in b.total ==> Words.IsFrame(x)
  {
    hide KernelMaps.SoundLayout, Words.IsFrame, RunWorld, BootWorld, Attempted;
  }

  /** The spawns of a run whose load failed. */
  ghost function FailedLoads(b: Start, e: Setting, acts: seq<Act>): nat
    requires Boots(b, e)
  {
    if acts == [] then 0
    else
      var n := |acts| - 1;
      var before := RunWorld(BootWorld(b, e), acts[..n], e);
      FailedLoads(b, e, acts[..n])
      + if before.Some? && acts[n].Spawn? && LoadIn(before.value, acts[n].q, e).program.None? then 1 else 0
  }

  /** Each of them loses at most two pages, and nothing else does. */
  lemma {:induction false} LossIsBounded(b: Start, e: Setting, acts: seq<Act>, w: World)
    requires WorldReaches(b, e, acts, w)
    ensures |w.m.lost| <= 2 * FailedLoads(b, e, acts)
    decreases |acts|
  {
    hide Boots, Allowed, Next, BootWorld, LoadIn;
    if acts == [] {
      NothingLostAtBoot(b, e);
    } else {
      var n := |acts| - 1;
      var before := RunWorld(BootWorld(b, e), acts[..n], e).value;
      LossIsBounded(b, e, acts[..n], before);
      ActLosesLittle(before, acts[n], e);
    }
  }

  lemma NothingLostAtBoot(b: Start, e: Setting)
    requires Boots(b, e)
    ensures BootWorld(b, e).m.lost == {}
  {
    hide Attempted, KernelMaps.SoundLayout, Words.IsFrame;
  }

  lemma ActLosesLittle(w: World, act: Act, e: Setting)
    requires Allowed(w, act, e)
    ensures |Next(w, act, e).m.lost| <= |w.m.lost| + if act.Spawn? && LoadIn(w, act.q, e).program.None? then 2 else 0
  {
    hide Answer, Attempted, Linked, CanExit, ExitFits, SpawnChild, PrepareWait, PrepareExit, PrepareSwitch, Step;
    match act
    case Store(_, _) =>
    case Ask(a) => AskLosesNothing(w.m, a);
    case Spawn(q, silent) => SpawnLosesLittle(w.m, LoadOf(w.m.free, LoadIn(w, q, e)), silent);
  }

  lemma AskLosesNothing(m: Machine, a: Action)
    requires Safe(m, a) && !a.SpawnAndWait?
    ensures Step(m, a).lost == m.lost
  {
    hide Linked, PrepareSwitch, PrepareExit, CanExit, Process.SetCwd, Paths.Normalized, Environments.Apply;
  }

  lemma SpawnLosesLittle(m: Machine, load: Load, silent: bool)
    requires Safe(m, SpawnAndWait(load, silent)) && LoadMayDo(m.free, load)
    ensures |Step(m, SpawnAndWait(load, silent)).lost| <= |m.lost| + if load.LoadFailed? then 2 else 0
  {
    hide Linked, SpawnChild, PrepareWait;
    if load.LoadFailed? {
      assert m.lost + load.lost == m.lost + (load.lost - m.lost);
      SubsetSize(load.lost - m.lost, load.lost);
    }
  }
}
