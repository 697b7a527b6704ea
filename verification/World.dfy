// The machine together with physical memory: what runs do to the bytes. A spawn
// loads its file into the pages that are free then; user code stores through
// the page tables of its own process (kernel/kernel/src/scheduler/services.rs,
// kernel/kernel/src/memory/loader.rs).
module Worlds {
  import opened Prelude
  import opened Processes
  import opened Scheduling
  import opened SchedulerRuns
  import opened SchedulerSafety
  import opened LoadAndRun
  import opened Sealing
  import opened PageOwnership
  import opened SchedulerTheorems
  import Elf
  import Environments
  import KernelMaps
  import Paging
  import Paths
  import Programs
  import Startup
  import Words

  datatype SpawnError = InvalidPath | FileNotFound | InvalidExecutable | ResourceUnavailable

  /** The parent is blocked, or was told why not, or the allocator's assertion failed. */
  datatype SpawnOutcome = Waiting | Refused(error: SpawnError) | Panicked

  datatype Loading = Done(program: LoadedUserProgram) | Failed | Stuck

  /** How a load ends in place: the program, or what was recorded is free again, or giving it back
      trips the allocator's assertion. */
  ghost function LoadingOf(a: Attempt): Loading {
    match a.program
    case Some(p) => Done(p)
    case None => if Releasable(a.space.free, a.space.owned) then Failed else Stuck
  }

  ghost function FreeAfter(a: Attempt): set<nat> {
    if a.program.Some? then a.space.free else a.space.free + Elements(a.space.owned)
  }

  /** How a loaded program is started: the parent waits, or is told that there is no slot or no
      thread to run meanwhile, or giving the pages back trips the assertion. */
  ghost function StartAnswer(m: Machine, free: set<nat>, program: LoadedUserProgram, silent: bool): SpawnOutcome
    requires Safe(m, Yield)
  {
    var spawned := SpawnChild(m.s, m.s.current.value, program, silent);
    SpawnKeepsLinked(m.s, m.s.current.value, program, silent);
    if spawned.None? then (if Releasable(free, program.ownedPages) then Refused(ResourceUnavailable) else Panicked)
    else if PrepareWait(spawned.value.0, spawned.value.1).1.Some? then Waiting
    else Refused(ResourceUnavailable)
  }

  /** How a spawn request for a readable file is answered. */
  ghost function Answer(m: Machine, a: Attempt, silent: bool): SpawnOutcome
    requires Safe(m, Yield)
  {
    match LoadingOf(a)
    case Stuck => Panicked
    case Failed => Refused(InvalidExecutable)
    case Done(program) => StartAnswer(m, a.space.free, program, silent)
  }

  // ---------------------------------------------------------------------------
  // Steps.

  datatype World = World(m: Machine, frames: map<nat, Bytes>)

  /** A spawn of a file, any other request, or a store of the running user code. */
  datatype Act = Spawn(q: Programs.Request, silent: bool) | Ask(a: Action) | Store(v: nat, b: Byte)

  /** What does not change while the system runs: the shared kernel mappings, and which bytes are text. */
  datatype Setting = Setting(k: Programs.Kernel, utf8: Startup.Utf8)

  ghost function LoadIn(w: World, q: Programs.Request, e: Setting): Attempt {
    Attempted(w.frames, w.m.free, e.k, q, e.utf8)
  }

  ghost function SpawnAction(w: World, q: Programs.Request, silent: bool, e: Setting): Action {
    SpawnAndWait(LoadOf(w.m.free, LoadIn(w, q, e)), silent)
  }

  /** The exit can release what it must. */
  ghost predicate ExitFits(m: Machine, a: Action)
    requires Safe(m, a)
  {
    a.Exit? ==>
      var exit := PrepareExit(m.s, a.status).1;
      exit.Some? && exit.value.SwitchTo? ==> Releasable(m.free, exit.value.released)
  }

  ghost predicate RunsUserCode(m: Machine) {
    && m.up && m.s.current.Some? && m.s.HasThread(m.s.current.value)
    && m.s.Thread(m.s.current.value).start.User? && m.s.current.value !in m.awaiting
  }

  /** The running code may do this, and no assertion fails on it. */
  ghost predicate Allowed(w: World, act: Act, e: Setting) {
    match act
    case Spawn(q, silent) =>
      var a := SpawnAction(w, q, silent, e);
      Offered(w.m, a) && Safe(w.m, a) && !Answer(w.m, LoadIn(w, q, e), silent).Panicked?
    case Ask(a) => !a.SpawnAndWait? && Offered(w.m, a) && Safe(w.m, a) && ExitFits(w.m, a)
    case Store(v, _) => RunsUserCode(w.m) && MayStore(w.frames, w.m.active, v)
  }

  ghost function Next(w: World, act: Act, e: Setting): World
    requires Allowed(w, act, e)
  {
    match act
    case Spawn(q, silent) => World(Step(w.m, SpawnAction(w, q, silent, e)), LoadIn(w, q, e).space.frames)
    case Ask(a) => w.(m := Step(w.m, a))
    case Store(v, b) => w.(frames := Stored(w.frames, w.m.active, v, b))
  }

  ghost function RunWorld(start: World, acts: seq<Act>, e: Setting): Option<World> {
    if acts == [] then Some(start)
    else
      var before, last := RunWorld(start, acts[..|acts| - 1], e), acts[|acts| - 1];
      if before.Some? && Allowed(before.value, last, e) then Some(Next(before.value, last, e)) else None
  }

  /** How the system was booted: the kernel's root, memory and its free pages, and the first program. */
  datatype Start = Start(root: nat, frames: map<nat, Bytes>, total: set<nat>, q: Programs.Request)

  ghost predicate Boots(b: Start, e: Setting) {
    && KernelMaps.SoundLayout(e.k) && (forall p :: p in b.total ==> Words.IsFrame(p)) && b.root !in b.total
    && Attempted(b.frames, b.total, e.k, b.q, e.utf8).program.Some?
  }

  ghost function FirstProgram(b: Start, e: Setting): LoadedUserProgram
    requires Boots(b, e)
  {
    Attempted(b.frames, b.total, e.k, b.q, e.utf8).program.value
  }

  ghost function BootWorld(b: Start, e: Setting): World
    requires Boots(b, e)
  {
    World(Boot(b.root, FirstProgram(b, e), b.total), Attempted(b.frames, b.total, e.k, b.q, e.utf8).space.frames)
  }

  ghost predicate WorldReaches(b: Start, e: Setting, acts: seq<Act>, w: World) {
    Boots(b, e) && RunWorld(BootWorld(b, e), acts, e) == Some(w)
  }

  // ---------------------------------------------------------------------------
  // Every run of the world is a run of the machine.

  lemma BootIsReady(b: Start, e: Setting)
    requires Boots(b, e)
    ensures BootReady(b.root, FirstProgram(b, e), b.total)
  {
    hide LoadMayDo, Attempted, KernelMaps.SoundLayout, IsProgramOf, Words.IsFrame;
    AttemptMayRun(b.frames, b.total, e.k, b.q, e.utf8);
  }

  lemma {:induction false} WorldRunIsRun(b: Start, e: Setting, acts: seq<Act>, w: World) returns (actions: seq<Action>)
    requires WorldReaches(b, e, acts, w)
    ensures Reaches(b.root, FirstProgram(b, e), b.total, actions, w.m)
    decreases |acts|
  {
    hide Boots, Boot, Step, Offered, Safe, BootReady, Answer, ExitFits, RunsUserCode, MayStore, Stored, LoadIn,
         FirstProgram;
    if acts == [] {
      BootIsReady(b, e);
      actions := [];
    } else {
      var n := |acts| - 1;
      var before := RunWorld(BootWorld(b, e), acts[..n], e).value;
      var front := WorldRunIsRun(b, e, acts[..n], before);
      actions := if acts[n].Store? then front else front + [ActionOf(before, acts[n], e)];
      if !acts[n].Store? { assert actions[..|front|] == front; }
    }
  }

  ghost function ActionOf(w: World, act: Act, e: Setting): Action
    requires !act.Store?
  {
    match act
    case Spawn(q, silent) => SpawnAction(w, q, silent, e)
    case Ask(a) => a
  }

  // ---------------------------------------------------------------------------
  // From the file to the child.

  /** How any spawn is answered: a file that does not load is an invalid executable; one that does is
      waited for when a process slot is free, and otherwise refused for lack of resources. In both
      refusals the pages must go back, and the assertion fails when they do not fit the table. */
  lemma SpawnIsAnswered(b: Start, e: Setting, acts: seq<Act>, w: World, q: Programs.Request, silent: bool)
    requires WorldReaches(b, e, acts, w) && Offered(w.m, SpawnAction(w, q, silent, e)) && Safe(w.m, Yield)
    ensures |w.m.s.processes| == 8
    ensures var a := LoadIn(w, q, e);
            Answer(w.m, a, silent) ==
            if a.program.Some? && exists p :: 0 <= p < 8 && w.m.s.processes[p].None? then Waiting
            else if !Releasable(a.space.free, a.space.owned) then Panicked
            else Refused(if a.program.None? then InvalidExecutable else ResourceUnavailable)
  {
    hide RunWorld, BootWorld, Boots, Attempted, KernelMaps.SoundLayout, IsProgramOf, Words.IsFrame, Releasable,
         LoadMayDo, Linked, SpawnChild, PrepareWait, Elements, Reaches, SpawnStep;
    EightSlots(w.m.s);
    var a := LoadIn(w, q, e);
    FreeAreFrames(b, e, acts, w);
    AttemptMayRun(w.frames, w.m.free, e.k, q, e.utf8);
    if a.program.Some? {
      var actions := WorldRunIsRun(b, e, acts, w);
      SpawnRefusedIffFull(b.root, FirstProgram(b, e), b.total, actions, w.m, a.program.value, silent);
      SpawnStepTells(w.m, a.program.value, silent);
      AttemptOwns(w, q, e);
      assert Step(w.m, SpawnAndWait(Loaded(a.program.value), silent)) == SpawnStep(w.m, a.program.value, silent);
      assert w.m.s.current.value !in w.m.awaiting;
    }
  }

  lemma AttemptOwns(w: World, q: Programs.Request, e: Setting)
    ensures var a := LoadIn(w, q, e); a.program.Some? ==> a.program.value.ownedPages == a.space.owned
  {
    hide Elf.ParseHeader, Programs.WholeLoad, Elf.TableFits;
    Elf.ParsedTableFits(q.file);
  }

  lemma EightSlots(s: Sched)
    requires Linked(s)
    ensures |s.processes| == 8
  {
  }

  /** Whether the child was stored and the parent left can be seen from the machine afterwards. */
  lemma SpawnStepTells(m: Machine, program: LoadedUserProgram, silent: bool)
    requires Safe(m, Yield) && m.s.current.value !in m.awaiting
    ensures var spawned, m' := SpawnChild(m.s, m.s.current.value, program, silent), SpawnStep(m, program, silent);
            && (spawned.None? <==> m'.nextInstance == m.nextInstance)
            && (spawned.Some? ==>
                  && Linked(spawned.value.0)
                  && (m.s.current.value in m'.awaiting <==> PrepareWait(spawned.value.0, spawned.value.1).1.Some?))
  {
    hide SpawnChild, PrepareWait, Linked, Elements;
    LinkedFacts(m.s);
    SpawnKeepsLinked(m.s, m.s.current.value, program, silent);
  }

  /** When a spawn leaves its parent waiting, the first free slots hold a process and a thread for
      exactly the program that is in the file: its root and pages, its entry and stack, and memory
      is that of the completed load. */
  lemma SpawnedChildIsTheFile(b: Start, e: Setting, acts: seq<Act>, w: World, q: Programs.Request, silent: bool)
    requires WorldReaches(b, e, acts, w) && Allowed(w, Spawn(q, silent), e) && Safe(w.m, Yield)
    requires Answer(w.m, LoadIn(w, q, e), silent) == Waiting
    ensures var w', a := Next(w, Spawn(q, silent), e), LoadIn(w, q, e);
            var slot, tslot := FirstFree(w.m.s.processes), FirstFree(w.m.s.threads);
            && IsProgramOf(a, w.m.free, e.k, q, e.utf8) && w'.frames == a.space.frames
            && w'.m.s.HasProcess(slot) && w'.m.s.Process(slot).addressSpace == a.program.value.addressSpace
            && w'.m.s.Process(slot).ownedPages == a.program.value.ownedPages
            && w'.m.s.HasThread(tslot) && w'.m.s.OwnerOf(tslot) == slot
            && w'.m.s.Thread(tslot).start == User(a.program.value.entryPoint, a.program.value.userStackTop)
  {
    hide WorldReaches, Attempted, KernelMaps.SoundLayout, IsProgramOf, Words.IsFrame, Releasable, LoadMayDo, Linked,
         StartAnswer, SpawnStep, ExitFits;
    var a := LoadIn(w, q, e);
    FreeAreFrames(b, e, acts, w);
    AttemptMayRun(w.frames, w.m.free, e.k, q, e.utf8);
    StartedChild(w.m, a.space.free, a.program.value, silent);
  }

  /** And it starts in its parent's directory, with its parent's environment and stdin; a silent child's
      output leads nowhere, any other's where its parent's leads. */
  lemma SpawnedChildInherits(b: Start, e: Setting, acts: seq<Act>, w: World, q: Programs.Request, silent: bool)
    requires WorldReaches(b, e, acts, w) && Allowed(w, Spawn(q, silent), e) && Safe(w.m, Yield)
    requires Answer(w.m, LoadIn(w, q, e), silent) == Waiting
    ensures var s', slot := Next(w, Spawn(q, silent), e).m.s, FirstFree(w.m.s.processes);
            var parent := w.m.s.Process(w.m.s.OwnerOf(w.m.s.current.value));
            && s'.HasProcess(slot)
            && var child := s'.Process(slot);
               && child.cwd == parent.cwd && child.env == parent.env
               && child.ResolveFd(0) == parent.ResolveFd(0)
               && child.ResolveFd(1) == (if silent then Some(Null) else parent.ResolveFd(1))
               && child.ResolveFd(2) == (if silent then Some(Null) else parent.ResolveFd(2))
  {
    hide WorldReaches, Attempted, KernelMaps.SoundLayout, IsProgramOf, Words.IsFrame, Releasable, LoadMayDo, Linked,
         StartAnswer, SpawnStep, ExitFits, Process.ResolveFd, Environments.WellFormed;
    StartedChild(w.m, LoadIn(w, q, e).space.free, LoadIn(w, q, e).program.value, silent);
    SpawnerIsInheritable(b, e, acts, w);
  }

  /** Who asks for a spawn is a user process, whose environment can be inherited as it is. */
  lemma SpawnerIsInheritable(b: Start, e: Setting, acts: seq<Act>, w: World)
    requires WorldReaches(b, e, acts, w) && w.m.up && RunsUserCode(w.m)
    ensures w.m.s.HasProcess(w.m.s.OwnerOf(w.m.s.current.value))
    ensures Environments.WellFormed(w.m.s.Process(w.m.s.OwnerOf(w.m.s.current.value)).env)
  {
    hide RunWorld, BootWorld, Environments.WellFormed, Paths.NormalForm, Boots, Reaches, Waits, Cpu, Memory, Identities,
         Snapshots, HasStdio;
    var actions := WorldRunIsRun(b, e, acts, w);
    var chain := RunKeeps(b.root, FirstProgram(b, e), b.total, actions, w.m);
    var t := w.m.s.current.value;
    assert OnChain(chain, t);
    var i :| 0 <= i < |chain| && chain[i].tid == t;
    assert LinkOk(w.m.s, chain[i]);
    assert Inheritable(w.m.s.Process(chain[i].pid));
  }

  lemma StartedChild(m: Machine, free: set<nat>, program: LoadedUserProgram, silent: bool)
    requires Safe(m, Yield) && StartAnswer(m, free, program, silent) == Waiting
    ensures var s', slot, tslot := SpawnStep(m, program, silent).s, FirstFree(m.s.processes), FirstFree(m.s.threads);
            && s'.HasProcess(slot) && s'.Process(slot).addressSpace == program.addressSpace
            && s'.Process(slot).ownedPages == program.ownedPages
            && Inherits(s'.Process(slot), m.s.Process(m.s.OwnerOf(m.s.current.value)), silent)
            && s'.HasThread(tslot) && s'.OwnerOf(tslot) == slot
            && s'.Thread(tslot).start == User(program.entryPoint, program.userStackTop)
  {
    hide SpawnChild, PrepareWait, Linked, Elements, Releasable, Inherits;
    LinkedFacts(m.s);
    SpawnKeepsLinked(m.s, m.s.current.value, program, silent);
    var (s1, slot) := SpawnChild(m.s, m.s.current.value, program, silent).value;
    ChildIsStored(m.s, m.s.current.value, program, silent);
    WaitKeepsChild(s1, slot, FirstFree(m.s.threads));
  }

  lemma FreeAreFrames(b: Start, e: Setting, acts: seq<Act>, w: World)
    requires WorldReaches(b, e, acts, w) && w.m.up
    ensures KernelMaps.SoundLayout(e.k) && forall p :: p in w.m.free ==> Words.IsFrame(p)
  {
    hide KernelMaps.SoundLayout, Words.IsFrame, Attempted, UserProcess;
    var actions := WorldRunIsRun(b, e, acts, w);
    PagesArePartitioned(b.root, FirstProgram(b, e), b.total, actions, w.m);
  }

  lemma ChildIsStored(s: Sched, parent: nat, program: LoadedUserProgram, silent: bool)
    requires Linked(s) && s.HasThread(parent)
    ensures var r, slot, tslot := SpawnChild(s, parent, program, silent), FirstFree(s.processes), FirstFree(s.threads);
            r.Some? ==>
              && r.value.1 == slot && r.value.0.HasProcess(slot) && r.value.0.HasThread(tslot) &&
                   r.value.0.OwnerOf(tslot) == slot
              && r.value.0.Process(slot).addressSpace == program.addressSpace
              && r.value.0.Process(slot).ownedPages == program.ownedPages
              && r.value.0.Process(slot).waitingThread == Some(parent)
              && Inherits(r.value.0.Process(slot), s.Process(s.OwnerOf(parent)), silent)
              && r.value.0.Thread(tslot).start == User(program.entryPoint, program.userStackTop)
  {
    hide ChildOf, Shaped, Inherits;
    OwnerIsLive(s, parent);
    var slot := FirstFree(s.processes);
    if slot < |s.processes| {
      ChildShape(s.Process(s.OwnerOf(parent)), parent, slot, program, silent);
      if ChildOf(s.Process(s.OwnerOf(parent)), parent, slot, program, silent).Some? {
        ChildInheritsFrom(s.Process(s.OwnerOf(parent)), parent, slot, program, silent);
      }
    }
  }

  lemma WaitKeepsChild(s: Sched, child: nat, t: nat)
    requires Linked(s) && s.HasThread(t)
    ensures var s' := PrepareWait(s, child).0;
            s'.processes == s.processes && s'.HasThread(t) && s'.OwnerOf(t) == s.OwnerOf(t) &&
                s'.Thread(t).start == s.Thread(t).start
  {
    hide NextRunnable, Shaped;
    LinkedFacts(s);
    if s.current.Some? {
      NextIsNearest(s.WithThread(s.current.value, s.Thread(s.current.value).BlockForChild(child)), s.current);
    }
  }
}
