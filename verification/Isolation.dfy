// Processes do not see each other's memory: over every run, user code reaches
// its own process's pages only, and whatever others do leaves every translation
// and every byte it reads as they were.
module Isolation {
  import opened Prelude
  import opened Processes
  import opened Scheduling
  import opened SchedulerRuns
  import opened SchedulerSafety
  import opened SchedulerTheorems
  import opened LoadAndRun
  import opened Sealing
  import opened Worlds
  import Environments
  import KernelMaps
  import Paging
  import Paths
  import PageOwnership
  import Programs
  import Words

  /** Every live user process owns what its address space reaches. */
  ghost predicate AllSealed(w: World) {
    forall p: nat :: UserProcess(w.m.s, p) ==> SealedProcess(w, p)
  }

  ghost predicate SealedProcess(w: World, p: nat)
    requires w.m.s.HasProcess(p)
  {
    Sealed(w.frames, w.m.s.Process(p).addressSpace, w.m.s.Process(p).ownedPages)
  }

  /** The process was there before, with the same root, pages and waiter. */
  ghost predicate Kept(s: Sched, s': Sched, p: nat)
    requires s'.HasProcess(p)
  {
    && s.HasProcess(p) && s'.Process(p).ownedPages == s.Process(p).ownedPages
    && s'.Process(p).addressSpace == s.Process(p).addressSpace &&
         s'.Process(p).waitingThread == s.Process(p).waitingThread
  }

  lemma AskKeepsRecords(m: Machine, a: Action)
    requires Safe(m, a) && !a.SpawnAndWait?
    ensures forall p: nat :: Step(m, a).s.HasProcess(p) ==> Kept(m.s, Step(m, a).s, p)
  {
    hide PrepareSwitch, PrepareExit, ChdirStep, EnvStep, Linked, CanExit, Elements;
    LinkedFacts(m.s);
    match a
    case Yield => SwitchKeepsProcesses(m.s);
    case Exit(status) => ExitKeepsRecords(m.s, status);
    case Chdir(path, isDirectory) => ChdirKeepsRecords(m, path, isDirectory);
    case ChangeEnv(op) => EnvKeepsRecords(m, op);
    case FinishWait =>
  }

  lemma SwitchKeepsProcesses(s: Sched)
    requires Linked(s)
    ensures PrepareSwitch(s, false).0.processes == s.processes
  {
    hide NextRunnable, Shaped;
  }

  lemma ExitKeepsRecords(s: Sched, status: nat)
    requires CanExit(s)
    ensures forall p: nat :: PrepareExit(s, status).0.HasProcess(p) ==> Kept(s, PrepareExit(s, status).0, p)
  {
    hide NextRunnable, Shaped;
  }

  lemma ChdirKeepsRecords(m: Machine, path: Bytes, isDirectory: bool)
    requires Safe(m, Yield)
    ensures forall p: nat :: ChdirStep(m, path, isDirectory).s.HasProcess(p) ==>
              Kept(m.s, ChdirStep(m, path, isDirectory).s, p)
  {
    hide Shaped, Paths.Normalized;
  }

  lemma EnvKeepsRecords(m: Machine, op: Environments.Operation)
    requires Safe(m, Yield)
    ensures forall p: nat :: EnvStep(m, op).s.HasProcess(p) ==> Kept(m.s, EnvStep(m, op).s, p)
  {
    hide Shaped, Environments.Apply;
  }

  lemma SpawnKeepsRecords(m: Machine, load: Load, silent: bool)
    requires Safe(m, Yield)
    ensures var s' := Step(m, SpawnAndWait(load, silent)).s;
            forall p: nat :: s'.HasProcess(p) ==>
              || Kept(m.s, s', p)
              || (load.Loaded? && s'.Process(p).addressSpace == load.program.addressSpace
                  && s'.Process(p).ownedPages == load.program.ownedPages)
  {
    hide Linked, SpawnChild, PrepareWait, Elements;
    LinkedFacts(m.s);
    if load.Loaded? {
      var spawned := SpawnChild(m.s, m.s.current.value, load.program, silent);
      ChildIsTheProgram(m.s, m.s.current.value, load.program, silent);
      if spawned.Some? {
        SpawnKeepsLinked(m.s, m.s.current.value, load.program, silent);
        WaitKeepsProcesses(spawned.value.0, spawned.value.1);
        var s' := Step(m, SpawnAndWait(load, silent)).s;
        assert s' == PrepareWait(spawned.value.0, spawned.value.1).0;
        forall p: nat | s'.HasProcess(p) && p != spawned.value.1 ensures Kept(m.s, s', p) {
          assert Kept(m.s, spawned.value.0, p);
        }
      }
    }
  }

  lemma ChildIsTheProgram(s: Sched, parent: nat, program: LoadedUserProgram, silent: bool)
    requires Linked(s) && s.HasThread(parent)
    ensures var r := SpawnChild(s, parent, program, silent);
            r.Some? ==>
              && r.value.1 == FirstFree(s.processes) < |s.processes|
              && (forall p: nat :: p != r.value.1 && r.value.0.HasProcess(p) ==> Kept(s, r.value.0, p))
              && r.value.0.HasProcess(r.value.1) && r.value.0.Process(r.value.1).addressSpace == program.addressSpace
              && r.value.0.Process(r.value.1).ownedPages == program.ownedPages
  {
    hide ChildOf;
    var slot := FirstFree(s.processes);
    if slot < |s.processes| {
      ChildShape(s.Process(s.OwnerOf(parent)), parent, slot, program, silent);
    }
  }

  lemma WaitKeepsProcesses(s: Sched, child: nat)
    requires Linked(s)
    ensures PrepareWait(s, child).0.processes == s.processes
  {
    hide NextRunnable, Shaped;
  }

  /** A process's pages are neither free nor another process's. */
  lemma PagesAreApart(m: Machine, chain: seq<Link>, total: set<nat>, p: nat, x: nat)
    requires Good(m, chain, total) && UserProcess(m.s, p) && x in Pages(m.s, p)
    ensures x in total && x !in m.free
    ensures forall q: nat :: UserProcess(m.s, q) && q != p ==> x !in Pages(m.s, q)
  {
    hide Good, PidOnChain, Disjoint, OwnedApart, Pages;
    GoodMemory(m, chain, total);
    UserProcessesAreLinks(m.s, chain);
    OwnedPageIsApart(m.s, m.free, m.lost, chain, total, p, x);
    forall q: nat | UserProcess(m.s, q) && q != p ensures x !in Pages(m.s, q) {
      OwnersApart(m.s, chain, p, q, x);
    }
  }

  lemma GoodMemory(m: Machine, chain: seq<Link>, total: set<nat>)
    requires Good(m, chain, total)
    ensures Members(m.s, chain) && Memory(m.s, m.free, m.lost, chain, total) && Disjoint(m.s, chain)
  {
    hide Members, Identities, Snapshots, OwnedApart, Owns;
  }

  // ---------------------------------------------------------------------------
  // One step.

  /** A step writes no page of `pages`. */
  ghost predicate LeavesAlone(w: World, w': World, pages: seq<nat>) {
    SameFrames(w.frames, w'.frames, pages)
  }

  lemma CurrentIsUser(m: Machine, chain: seq<Link>, total: set<nat>)
    requires Good(m, chain, total) && RunsUserCode(m)
    ensures UserProcess(m.s, m.s.OwnerOf(m.s.current.value))
    ensures m.active == m.s.Process(m.s.OwnerOf(m.s.current.value)).addressSpace
  {
    GoodFacts(m, chain, total);
  }

  /** No step writes a page of a process, but a store of the process itself. */
  lemma StepLeavesAlone(w: World, act: Act, e: Setting, chain: seq<Link>, total: set<nat>, p: nat)
    requires Good(w.m, chain, total) && Allowed(w, act, e) && AllSealed(w) && UserProcess(w.m.s, p)
    requires KernelMaps.SoundLayout(e.k) && forall x :: x in total ==> Words.IsFrame(x)
    requires act.Store? ==> w.m.s.OwnerOf(w.m.s.current.value) != p
    ensures LeavesAlone(w, Next(w, act, e), w.m.s.Process(p).ownedPages)
  {
    hide Good, Safe, Offered, Sealed, KernelMaps.SoundLayout, Words.IsFrame, Attempted, Answer, Step, MayStore, Stored,
         Paging.Frame;
    var w' := Next(w, act, e);
    match act
    case Ask(_) =>
    case Spawn(q, _) =>
      FreeIsOfTotal(w.m, chain, total);
      AttemptMayRun(w.frames, w.m.free, e.k, q, e.utf8);
      forall x | x in w.m.s.Process(p).ownedPages ensures Paging.Frame(w'.frames, x) == Paging.Frame(w.frames, x) {
        PagesAreApart(w.m, chain, total, p, x);
      }
    case Store(v, b) =>
      CurrentIsUser(w.m, chain, total);
      var own := w.m.s.OwnerOf(w.m.s.current.value);
      assert SealedProcess(w, own);
      StoreWorks(w.frames, w.m.active, w.m.s.Process(own).ownedPages, v, b);
      forall x | x in w.m.s.Process(p).ownedPages ensures Paging.Frame(w'.frames, x) == Paging.Frame(w.frames, x) {
        PagesAreApart(w.m, chain, total, p, x);
      }
  }

  lemma FreeIsOfTotal(m: Machine, chain: seq<Link>, total: set<nat>)
    requires Good(m, chain, total)
    ensures m.free <= total
  {
    GoodMemory(m, chain, total);
  }

  /** Every step leaves every process sealed: the child because it was just loaded. */
  lemma StepKeepsSealed(w: World, act: Act, e: Setting, chain: seq<Link>, total: set<nat>)
    requires Good(w.m, chain, total) && Allowed(w, act, e) && AllSealed(w)
    requires KernelMaps.SoundLayout(e.k) && forall x :: x in total ==> Words.IsFrame(x)
    ensures AllSealed(Next(w, act, e))
  {
    hide Good, Offered, Sealed, KernelMaps.SoundLayout, Words.IsFrame, Attempted, Answer, Step, MayStore, Stored, Safe,
         ExitFits;
    var w' := Next(w, act, e);
    forall p: nat | UserProcess(w'.m.s, p) ensures SealedProcess(w', p) {
      if act.Spawn? && !Kept(w.m.s, w'.m.s, p) {
        NewChildIsSealed(w, act, e, chain, total, p);
      } else {
        RecordWasThere(w, act, e, p);
        assert SealedProcess(w, p);
        if act.Store? && p == w.m.s.OwnerOf(w.m.s.current.value) {
          CurrentIsUser(w.m, chain, total);
          StoreWorks(w.frames, w.m.active, w.m.s.Process(p).ownedPages, act.v, act.b);
        } else {
          StepLeavesAlone(w, act, e, chain, total, p);
          SealedAgrees(w.frames, w'.frames, w.m.s.Process(p).addressSpace, w.m.s.Process(p).ownedPages);
        }
      }
    }
  }

  lemma RecordWasThere(w: World, act: Act, e: Setting, p: nat)
    requires Allowed(w, act, e) && Next(w, act, e).m.s.HasProcess(p)
    requires act.Spawn? ==> Kept(w.m.s, Next(w, act, e).m.s, p)
    ensures Kept(w.m.s, Next(w, act, e).m.s, p)
  {
    hide Offered, Step, Answer, Attempted, MayStore, Stored;
    if act.Ask? { AskKeepsRecords(w.m, act.a); }
  }

  lemma NewChildIsSealed(w: World, act: Act, e: Setting, chain: seq<Link>, total: set<nat>, p: nat)
    requires Good(w.m, chain, total) && Allowed(w, act, e) && act.Spawn?
    requires KernelMaps.SoundLayout(e.k) && forall x :: x in total ==> Words.IsFrame(x)
    requires Next(w, act, e).m.s.HasProcess(p) && !Kept(w.m.s, Next(w, act, e).m.s, p)
    ensures SealedProcess(Next(w, act, e), p)
  {
    hide Good, Offered, Sealed, KernelMaps.SoundLayout, Words.IsFrame, Attempted, Answer, Step, Programs.LoadedSpace,
         Safe;
    var a := LoadIn(w, act.q, e);
    FreeIsOfTotal(w.m, chain, total);
    AttemptMayRun(w.frames, w.m.free, e.k, act.q, e.utf8);
    SafeToYield(w.m, LoadOf(w.m.free, a), act.silent);
    SpawnKeepsRecords(w.m, LoadOf(w.m.free, a), act.silent);
    assert IsProgramOf(a, w.m.free, e.k, act.q, e.utf8);
    ProgramIsSealed(a, w.m.free, e, act.q);
  }

  lemma SafeToYield(m: Machine, load: Load, silent: bool)
    requires Safe(m, SpawnAndWait(load, silent))
    ensures Safe(m, Yield)
  {
    hide Linked;
  }

  lemma ProgramIsSealed(a: Attempt, free: set<nat>, e: Setting, q: Programs.Request)
    requires IsProgramOf(a, free, e.k, q, e.utf8)
    ensures Sealed(a.space.frames, a.program.value.addressSpace, a.program.value.ownedPages)
  {
    hide Sealed, Programs.LoadedSpace;
  }

  // ---------------------------------------------------------------------------
  // Whole runs.

  /** What holds in every state a run of the world reaches. */
  lemma {:induction false} WorldRunKeeps(b: Start, e: Setting, acts: seq<Act>, w: World) returns (chain: seq<Link>)
    requires WorldReaches(b, e, acts, w)
    ensures Invariant(w.m, chain, b.total) && (w.m.up ==> AllSealed(w))
    decreases |acts|
  {
    hide Invariant, Step, Offered, Safe, AllSealed, Boots, Allowed, Next, BootWorld;
    var actions := WorldRunIsRun(b, e, acts, w);
    chain := RunKeeps(b.root, FirstProgram(b, e), b.total, actions, w.m);
    if acts == [] {
      BootIsSealed(b, e);
    } else {
      var n := |acts| - 1;
      var before := RunWorld(BootWorld(b, e), acts[..n], e).value;
      var chain0 := WorldRunKeeps(b, e, acts[..n], before);
      AllowedIsUp(before, acts[n], e);
      UpIsGood(before.m, chain0, b.total);
      BootsParts(b, e);
      StepKeepsSealed(before, acts[n], e, chain0, b.total);
    }
  }

  lemma AllowedIsUp(w: World, act: Act, e: Setting)
    requires Allowed(w, act, e)
    ensures w.m.up
  {
    hide Safe, Answer, Attempted, MayStore;
  }

  lemma UpIsGood(m: Machine, chain: seq<Link>, total: set<nat>)
    requires Invariant(m, chain, total) && m.up
    ensures Good(m, chain, total)
  {
    hide Good, History;
  }

  lemma BootsParts(b: Start, e: Setting)
    requires Boots(b, e)
    ensures KernelMaps.SoundLayout(e.k) && forall x :: x in b.total ==> Words.IsFrame(x)
  {
    hide KernelMaps.SoundLayout, Words.IsFrame, Attempted;
  }

  lemma BootIsSealed(b: Start, e: Setting)
    requires Boots(b, e)
    ensures AllSealed(BootWorld(b, e))
  {
    hide KernelMaps.SoundLayout, Words.IsFrame, Attempted, Sealed, Booted, IsProgramOf;
    var a := Attempted(b.frames, b.total, e.k, b.q, e.utf8);
    AttemptMayRun(b.frames, b.total, e.k, b.q, e.utf8);
    ProgramIsSealed(a, b.total, e, b.q);
    forall p: nat | UserProcess(BootWorld(b, e).m.s, p) ensures SealedProcess(BootWorld(b, e), p) {
      OneUserAtBoot(b.root, a.program.value, p);
    }
  }

  lemma OneUserAtBoot(root: nat, program: LoadedUserProgram, p: nat)
    requires UserProcess(Booted(root, program), p)
    ensures var record := Booted(root, program).Process(p);
            record.addressSpace == program.addressSpace && record.ownedPages == program.ownedPages
  {
  }

  /** In every reachable state, whatever user code of a process reaches lies in a page that this
      process owns, that is no page table of its own, and that no other process owns. */
  lemma UserReachesOwnPages(b: Start, e: Setting, acts: seq<Act>, w: World, p: nat, v: nat)
    requires WorldReaches(b, e, acts, w) && w.m.up && UserProcess(w.m.s, p) && v < Paging.VIRT_LIMIT
    requires UserReaches(w.frames, w.m.s.Process(p).addressSpace, v)
    ensures var f := FrameOf(w.frames, w.m.s.Process(p).addressSpace, v);
            && f in Pages(w.m.s, p) && f !in w.m.free
            && !Paging.IsTable(w.frames, w.m.s.Process(p).addressSpace, f)
            && forall q: nat :: UserProcess(w.m.s, q) && q != p ==>
                 f !in Pages(w.m.s, q) && !Paging.IsTable(w.frames, w.m.s.Process(q).addressSpace, f)
  {
    hide WorldReaches, Invariant, UserReaches, FrameOf, Paging.IsTable, ReachesOwn, NoAlias;
    var chain := WorldRunKeeps(b, e, acts, w);
    UpIsGood(w.m, chain, b.total);
    assert SealedProcess(w, p);
    var f := FrameOf(w.frames, w.m.s.Process(p).addressSpace, v);
    assert ReachesOwn(w.frames, w.m.s.Process(p).addressSpace, w.m.s.Process(p).ownedPages, v);
    assert f in Pages(w.m.s, p) && !Paging.IsTable(w.frames, w.m.s.Process(p).addressSpace, f) by { OwnPage(w, p, v); }
    PagesAreApart(w.m, chain, b.total, p, f);
    forall q: nat | UserProcess(w.m.s, q) && q != p
      ensures !Paging.IsTable(w.frames, w.m.s.Process(q).addressSpace, f)
    {
      assert SealedProcess(w, q);
    }
  }

  lemma OwnPage(w: World, p: nat, v: nat)
    requires w.m.s.HasProcess(p) && UserReaches(w.frames, w.m.s.Process(p).addressSpace, v)
    requires ReachesOwn(w.frames, w.m.s.Process(p).addressSpace, w.m.s.Process(p).ownedPages, v)
    ensures var f := FrameOf(w.frames, w.m.s.Process(p).addressSpace, v);
            f in Pages(w.m.s, p) && !Paging.IsTable(w.frames, w.m.s.Process(p).addressSpace, f)
  {
    hide Paging.IsTable, UserReaches, FrameOf;
  }

  /** One step, whoever takes it: every translation and every byte of every other process stays as
      it was, and of the process itself too, unless it stores. */
  lemma OthersAreUntouched(b: Start, e: Setting, acts: seq<Act>, w: World, act: Act, p: nat)
    requires WorldReaches(b, e, acts, w) && Allowed(w, act, e) && UserProcess(w.m.s, p)
    requires act.Store? ==> w.m.s.OwnerOf(w.m.s.current.value) != p
    ensures SameToUser(w.frames, Next(w, act, e).frames, w.m.s.Process(p).addressSpace)
  {
    hide Invariant, Allowed, Boots, Sealed, Next, RunWorld, SameToUser;
    var chain := WorldRunKeeps(b, e, acts, w);
    AllowedIsUp(w, act, e);
    UpIsGood(w.m, chain, b.total);
    BootsParts(b, e);
    StepLeavesAlone(w, act, e, chain, b.total, p);
    assert SealedProcess(w, p);
    SealedAgrees(w.frames, Next(w, act, e).frames, w.m.s.Process(p).addressSpace, w.m.s.Process(p).ownedPages);
  }

  // ---------------------------------------------------------------------------
  // While a process waits.

  /** Thread and process are there as before. */
  ghost predicate Remains(s: Sched, s': Sched, t: nat)
    requires s.HasThread(t)
  {
    && s'.HasThread(t) && s'.OwnerOf(t) == s.OwnerOf(t) && s'.HasProcess(s.OwnerOf(t)) && Kept(s, s', s.OwnerOf(t))
  }

  lemma AskKeepsOthers(m: Machine, a: Action, t: nat)
    requires Safe(m, a) && !a.SpawnAndWait? && m.s.HasThread(t) && m.s.OwnerOf(t) != m.s.OwnerOf(m.s.current.value)
    ensures Remains(m.s, Step(m, a).s, t)
  {
    hide PrepareSwitch, PrepareExit, ChdirStep, EnvStep, CanExit, Elements;
    LinkedFacts(m.s);
    match a
    case Yield => SwitchKeepsOthers(m.s, t);
    case Exit(status) => ExitKeepsOthers(m.s, status, t);
    case Chdir(path, isDirectory) => ChdirKeepsOthers(m, path, isDirectory, t);
    case ChangeEnv(op) => EnvKeepsOthers(m, op, t);
    case FinishWait =>
  }

  lemma SwitchKeepsOthers(s: Sched, t: nat)
    requires Linked(s) && s.HasThread(t)
    ensures Remains(s, PrepareSwitch(s, false).0, t)
  {
    hide NextRunnable, Shaped;
    OwnerIsLive(s, t);
    NextIsNearest(s, s.current);
  }

  lemma ExitKeepsOthers(s: Sched, status: nat, t: nat)
    requires CanExit(s) && s.current.Some? && s.HasThread(t) && s.OwnerOf(t) != s.OwnerOf(s.current.value)
    ensures Remains(s, PrepareExit(s, status).0, t)
  {
    hide NextRunnable, Shaped, Eligible;
    OwnerIsLive(s, t);
    ExitFacts(s);
    NextIsNearest(Removed(s), s.current);
  }

  lemma ChdirKeepsOthers(m: Machine, path: Bytes, isDirectory: bool, t: nat)
    requires Safe(m, Yield) && m.s.HasThread(t)
    ensures Remains(m.s, ChdirStep(m, path, isDirectory).s, t)
  {
    hide Paths.Normalized;
    OwnerIsLive(m.s, t);
  }

  lemma EnvKeepsOthers(m: Machine, op: Environments.Operation, t: nat)
    requires Safe(m, Yield) && m.s.HasThread(t)
    ensures Remains(m.s, EnvStep(m, op).s, t)
  {
    hide Environments.Apply;
    OwnerIsLive(m.s, t);
  }

  lemma SpawnKeepsOthers(m: Machine, load: Load, silent: bool, t: nat)
    requires Safe(m, Yield) && m.s.HasThread(t)
    ensures Remains(m.s, Step(m, SpawnAndWait(load, silent)).s, t)
  {
    hide SpawnChild, PrepareWait, Elements, Shaped;
    LinkedFacts(m.s);
    if load.Loaded? {
      var spawned := SpawnChild(m.s, m.s.current.value, load.program, silent);
      if spawned.Some? {
        SpawnKeepsLinked(m.s, m.s.current.value, load.program, silent);
        ChildKeepsOthers(m.s, m.s.current.value, load.program, silent, t);
        WaitKeepsOthers(spawned.value.0, spawned.value.1, t);
      }
    }
  }

  lemma ChildKeepsOthers(s: Sched, parent: nat, program: LoadedUserProgram, silent: bool, t: nat)
    requires Linked(s) && s.HasThread(parent) && s.HasThread(t)
    ensures var r := SpawnChild(s, parent, program, silent); r.Some? ==> Remains(s, r.value.0, t)
  {
    hide ChildOf;
    assert s.HasProcess(s.OwnerOf(t));
  }

  lemma WaitKeepsOthers(s: Sched, child: nat, t: nat)
    requires Linked(s) && s.HasThread(t)
    ensures Remains(s, PrepareWait(s, child).0, t)
  {
    hide NextRunnable, Shaped;
    OwnerIsLive(s, t);
    if s.current.Some? {
      NextIsNearest(s.WithThread(s.current.value, s.Thread(s.current.value).BlockForChild(child)), s.current);
    }
  }

  /** Whoever awaits instance `c` is thread `t`, and its process holds the pages `owned` with the
      bytes they had in `frames`. */
  ghost predicate Holds(w: World, frames: map<nat, Bytes>, root: nat, owned: seq<nat>, t: nat, c: nat) {
    c < w.m.nextInstance && forall u: nat :: u in w.m.awaiting && w.m.awaiting[u].child == c ==>
        u == t && HoldsPages(w, frames, root, owned, t)
  }

  ghost predicate HoldsPages(w: World, frames: map<nat, Bytes>, root: nat, owned: seq<nat>, t: nat) {
    && w.m.s.HasThread(t) && w.m.s.HasProcess(w.m.s.OwnerOf(t))
    && w.m.s.Process(w.m.s.OwnerOf(t)).addressSpace == root && w.m.s.Process(w.m.s.OwnerOf(t)).ownedPages == owned
    && SameFrames(frames, w.frames, owned)
  }

  /** Who awaits an older instance after a step has awaited it before, and did not take the step. */
  lemma AwaitedBefore(w: World, act: Act, e: Setting, u: nat, c: nat)
    requires Allowed(w, act, e) && c < w.m.nextInstance
    requires u in Next(w, act, e).m.awaiting && Next(w, act, e).m.awaiting[u].child == c
    ensures u in w.m.awaiting && w.m.awaiting[u].child == c && w.m.s.current != Some(u)
  {
    hide Safe, Step, Offered, Answer, Attempted, MayStore, Stored, ExitFits, LoadOf;
    match act
    case Store(_, _) =>
    case Ask(a) => AskAwaited(w.m, a, u, c);
    case Spawn(q, silent) => SpawnAwaited(w.m, LoadOf(w.m.free, LoadIn(w, q, e)), silent, u, c);
  }

  lemma NumbersGrow(w: World, act: Act, e: Setting)
    requires Allowed(w, act, e)
    ensures w.m.nextInstance <= Next(w, act, e).m.nextInstance
  {
    hide Safe, Step, Offered, Answer, Attempted, MayStore, Stored, ExitFits, LoadOf;
    match act
    case Store(_, _) =>
    case Ask(a) => AskAwaits(w.m, a);
    case Spawn(q, silent) => SpawnAwaits(w.m, LoadOf(w.m.free, LoadIn(w, q, e)), silent);
  }

  /** Only leaving a wait changes who awaits, and only a spawn the numbering. */
  lemma AskAwaits(m: Machine, a: Action)
    requires Safe(m, a) && !a.SpawnAndWait?
    ensures Step(m, a).nextInstance == m.nextInstance
    ensures Step(m, a).awaiting == if a.FinishWait? then m.awaiting - {m.s.current.value} else m.awaiting
  {
    hide PrepareSwitch, PrepareExit, Linked, CanExit, Elements, Process.SetCwd, Paths.Normalized, Environments.Apply;
  }

  lemma SpawnAwaits(m: Machine, load: Load, silent: bool)
    requires Safe(m, SpawnAndWait(load, silent))
    ensures var m' := Step(m, SpawnAndWait(load, silent));
            && m.nextInstance <= m'.nextInstance
            && (m'.awaiting != m.awaiting ==>
                  && m'.nextInstance == m.nextInstance + 1
                  && m'.awaiting == m.awaiting[m.s.current.value := Pending(m.nextInstance, m.free, m.lost)])
  {
    hide SpawnChild, PrepareWait, Linked, Elements;
  }

  lemma AskAwaited(m: Machine, a: Action, u: nat, c: nat)
    requires Safe(m, a) && Offered(m, a) && !a.SpawnAndWait?
    requires u in Step(m, a).awaiting && Step(m, a).awaiting[u].child == c
    ensures u in m.awaiting && m.awaiting[u].child == c && m.s.current != Some(u)
  {
    hide Step, Linked, CanExit;
    AskAwaits(m, a);
  }

  lemma SpawnAwaited(m: Machine, load: Load, silent: bool, u: nat, c: nat)
    requires Safe(m, SpawnAndWait(load, silent)) && Offered(m, SpawnAndWait(load, silent)) && c < m.nextInstance
    requires u in Step(m, SpawnAndWait(load, silent)).awaiting
    requires Step(m, SpawnAndWait(load, silent)).awaiting[u].child == c
    ensures u in m.awaiting && m.awaiting[u].child == c && m.s.current != Some(u)
  {
    hide Step, Linked, LoadMayDo;
    SpawnAwaits(m, load, silent);
  }

  /** A thread that awaits is not of the process that runs. */
  lemma WaiterIsElsewhere(m: Machine, chain: seq<Link>, total: set<nat>, t: nat)
    requires Good(m, chain, total) && t in m.awaiting && m.s.current != Some(t)
    ensures m.s.current.Some? && m.s.HasThread(m.s.current.value)
    ensures m.s.HasThread(t) && UserProcess(m.s, m.s.OwnerOf(t)) && m.s.OwnerOf(t) != m.s.OwnerOf(m.s.current.value)
  {
    hide Members, Waits, Roles, Cpu, Memory, Snapshots, SpaceOf, Linked, Numbered, TailAwaits;
    GoodFacts(m, chain, total);
    var i :| 0 <= i < |chain| && chain[i].tid == t;
    LinkFacts(m.s, chain, i);
    LinkFacts(m.s, chain, |chain| - 1);
    KernelOwnsKernelThreads(m.s, chain);
  }

  lemma KernelOwnsKernelThreads(s: Sched, chain: seq<Link>)
    requires Members(s, chain)
    ensures s.HasThread(TERMINAL) && s.OwnerOf(TERMINAL) == 0 && s.HasThread(IDLE) && s.OwnerOf(IDLE) == 0
  {
    hide LinkOk, OnChain, PidOnChain;
  }

  lemma StepHolds(w: World, act: Act, e: Setting, chain: seq<Link>, total: set<nat>,
                  frames: map<nat, Bytes>, root: nat, owned: seq<nat>, t: nat, c: nat)
    requires Good(w.m, chain, total) && Allowed(w, act, e) && AllSealed(w) && Holds(w, frames, root, owned, t, c)
    requires KernelMaps.SoundLayout(e.k) && forall x :: x in total ==> Words.IsFrame(x)
    ensures Holds(Next(w, act, e), frames, root, owned, t, c)
  {
    hide Good, Allowed, Next, AllSealed, KernelMaps.SoundLayout, Words.IsFrame, SameFrames;
    var w' := Next(w, act, e);
    NumbersGrow(w, act, e);
    forall u: nat | u in w'.m.awaiting && w'.m.awaiting[u].child == c
      ensures u == t && HoldsPages(w', frames, root, owned, t)
    {
      AwaitedBefore(w, act, e, u, c);
      WaiterIsElsewhere(w.m, chain, total, t);
      WaiterRemains(w, act, e, t);
      StepLeavesAlone(w, act, e, chain, total, w.m.s.OwnerOf(t));
      SameFramesTwice(frames, w.frames, w'.frames, owned);
    }
  }

  lemma WaiterRemains(w: World, act: Act, e: Setting, t: nat)
    requires Allowed(w, act, e) && w.m.s.HasThread(t) && w.m.s.HasProcess(w.m.s.OwnerOf(t))
    requires w.m.s.current.Some? && w.m.s.HasThread(w.m.s.current.value)
    requires w.m.s.OwnerOf(t) != w.m.s.OwnerOf(w.m.s.current.value)
    ensures Remains(w.m.s, Next(w, act, e).m.s, t)
  {
    hide Step, Answer, Attempted, MayStore, Stored, ExitFits, LoadOf, Linked, CanExit, LoadMayDo, Remains;
    match act
    case Store(_, _) => StaysPut(w.m.s, t);
    case Ask(a) => AskKeepsOthers(w.m, a, t);
    case Spawn(q, silent) => SpawnKeepsOthers(w.m, LoadOf(w.m.free, LoadIn(w, q, e)), silent, t);
  }

  lemma StaysPut(s: Sched, t: nat)
    requires s.HasThread(t) && s.HasProcess(s.OwnerOf(t))
    ensures Remains(s, s, t)
  {
  }

  lemma SameFramesTwice(frames: map<nat, Bytes>, frames': map<nat, Bytes>, frames'': map<nat, Bytes>, pages: seq<nat>)
    requires SameFrames(frames, frames', pages) && SameFrames(frames', frames'', pages)
    ensures SameFrames(frames, frames'', pages)
  {
    hide Paging.Frame;
  }

  lemma {:induction false} RunHolds(b: Start, e: Setting, acts: seq<Act>, w0: World, rest: seq<Act>, w: World,
                                    frames: map<nat, Bytes>, root: nat, owned: seq<nat>, t: nat, c: nat)
    requires WorldReaches(b, e, acts, w0) && WorldReaches(b, e, acts + rest, w)
    requires Holds(w0, frames, root, owned, t, c)
    ensures Holds(w, frames, root, owned, t, c)
    decreases |rest|
  {
    hide Holds, Boots, BootWorld, Allowed, Next, Invariant, AllSealed, KernelMaps.SoundLayout, Words.IsFrame;
    if rest == [] {
      assert acts + rest == acts;
    } else {
      var n := |rest| - 1;
      assert (acts + rest)[..|acts + rest| - 1] == acts + rest[..n] && (acts + rest)[|acts + rest| - 1] == rest[n];
      var before := RunWorld(BootWorld(b, e), acts + rest[..n], e).value;
      RunHolds(b, e, acts, w0, rest[..n], before, frames, root, owned, t, c);
      var chain := WorldRunKeeps(b, e, acts + rest[..n], before);
      AllowedIsUp(before, rest[n], e);
      UpIsGood(before.m, chain, b.total);
      BootsParts(b, e);
      StepHolds(before, rest[n], e, chain, b.total, frames, root, owned, t, c);
    }
  }

  /** A parent that waits for its child finds its memory exactly as it left it: between its spawn and
      the return of its wait, whatever the child and everybody else ran, loaded, stored or released,
      no translation of the parent's changed and no byte its code reads. */
  lemma WaitingParentKeepsItsMemory(b: Start, e: Setting, before: seq<Act>, w0: World, spawn: Act, rest: seq<Act>,
                                    w1: World)
    requires WorldReaches(b, e, before, w0) && spawn.Spawn? && Allowed(w0, spawn, e)
    requires w0.m.s.current.Some? && w0.m.s.current.value in Next(w0, spawn, e).m.awaiting
    requires WorldReaches(b, e, before + [spawn] + rest, w1) && Offered(w1.m, FinishWait)
    requires w1.m.awaiting[w1.m.s.current.value].child == w0.m.nextInstance
    ensures w1.m.s.current == w0.m.s.current && w1.m.active == w0.m.active
    ensures SameToUser(w0.frames, w1.frames, w0.m.active)
  {
    hide Boots, BootWorld, Allowed, Next, Invariant, Sealed, SameToUser, SameFrames;
    var chain0 := WorldRunKeeps(b, e, before, w0);
    AllowedIsUp(w0, spawn, e);
    UpIsGood(w0.m, chain0, b.total);
    var t := w0.m.s.current.value;
    var root, owned := SpawnerHolds(w0, spawn, e, chain0, b);
    assert (before + [spawn])[..|before|] == before;
    var w := RunWorld(BootWorld(b, e), before + [spawn], e).value;
    RunHolds(b, e, before + [spawn], w, rest, w1, w0.frames, root, owned, t, w0.m.nextInstance);
    var chain1 := WorldRunKeeps(b, e, before + [spawn] + rest, w1);
    UpIsGood(w1.m, chain1, b.total);
    ActiveIsCurrent(w1.m, chain1, b.total);
    SealedAgrees(w0.frames, w1.frames, root, owned);
  }

  lemma ActiveIsCurrent(m: Machine, chain: seq<Link>, total: set<nat>)
    requires Good(m, chain, total)
    ensures m.s.current.Some? && m.s.HasThread(m.s.current.value) && m.s.HasProcess(m.s.OwnerOf(m.s.current.value))
    ensures m.active == m.s.Process(m.s.OwnerOf(m.s.current.value)).addressSpace
  {
    hide Tables, Memory, Identities, Snapshots;
  }

  /** Right after its spawn. */
  lemma SpawnerHolds(w: World, act: Act, e: Setting, chain: seq<Link>, b: Start) returns (root: nat, owned: seq<nat>)
    requires Good(w.m, chain, b.total) && Allowed(w, act, e) && act.Spawn? && AllSealed(w) && Boots(b, e)
    requires w.m.s.current.Some? && w.m.s.current.value in Next(w, act, e).m.awaiting
    ensures root == w.m.active && Sealed(w.frames, root, owned)
    ensures Holds(Next(w, act, e), w.frames, root, owned, w.m.s.current.value, w.m.nextInstance)
  {
    hide Good, Boots, Sealed, SameFrames, Attempted, Answer, KernelMaps.SoundLayout, Words.IsFrame, Linked, LoadMayDo,
         LoadOf, Step;
    ActiveIsCurrent(w.m, chain, b.total);
    GoodFacts(w.m, chain, b.total);
    var t := w.m.s.current.value;
    var p := w.m.s.OwnerOf(t);
    root, owned := w.m.active, w.m.s.Process(p).ownedPages;
    assert UserProcess(w.m.s, p);
    assert SealedProcess(w, p);
    BootsParts(b, e);
    StepLeavesAlone(w, act, e, chain, b.total, p);
    NewWaiter(w, act, e, chain, b.total);
  }

  lemma NewWaiter(w: World, act: Act, e: Setting, chain: seq<Link>, total: set<nat>)
    requires Good(w.m, chain, total) && Allowed(w, act, e) && act.Spawn?
    requires w.m.s.current.Some? && w.m.s.current.value in Next(w, act, e).m.awaiting
    ensures w.m.s.HasThread(w.m.s.current.value) && w.m.s.HasProcess(w.m.s.OwnerOf(w.m.s.current.value))
    ensures var w', t := Next(w, act, e), w.m.s.current.value;
            && Remains(w.m.s, w'.m.s, t)
            && w.m.nextInstance < w'.m.nextInstance
            && forall u: nat :: u in w'.m.awaiting && w'.m.awaiting[u].child == w.m.nextInstance ==> u == t
  {
    hide Good, Attempted, Answer, Linked, LoadMayDo, LoadOf, Step, Remains;
    ActiveIsCurrent(w.m, chain, total);
    var load := LoadOf(w.m.free, LoadIn(w, act.q, e));
    SpawnKeepsOthers(w.m, load, act.silent, w.m.s.current.value);
    SpawnAwaits(w.m, load, act.silent);
    forall u: nat | u in w.m.awaiting ensures w.m.awaiting[u].child < w.m.nextInstance {
      GoodAwaits(w.m, chain, total, u);
    }
  }

  lemma GoodAwaits(m: Machine, chain: seq<Link>, total: set<nat>, u: nat)
    requires Good(m, chain, total) && u in m.awaiting
    ensures m.awaiting[u].child < m.nextInstance
  {
    hide Waits, Roles, Cpu, Memory, Snapshots;
    AwaitedIsNumbered(m, chain, u);
  }
}
