// The machine in place: kernel/kernel/src/scheduler/core.rs and the services
// that change the scheduler, over real memory. Each step of this machine is a
// step of the runs. "Activate the next space, then switch contexts" is one
// assignment; the code behind a switch runs as the next step.
module SchedulerCore {
  import opened Prelude
  import opened Processes
  import opened Scheduling
  import opened SchedulerStates
  import opened SchedulerRuns
  import opened PageOwnership
  import opened PagingStates
  import opened Worlds
  import Allocators
  import Elf
  import Environments
  import KernelMaps
  import LoadAndRun
  import Paths
  import Programs
  import SchedulerSafety
  import SchedulerTheorems
  import Startup
  import Words

  // ---------------------------------------------------------------------------
  // Pages.

  /** A whole page at a physical address that page tables can hold. */
  ghost predicate PageFrame(p: nat) {
    IsPage(p) && Words.IsFrame(p)
  }

  ghost predicate AllFrames(pages: seq<nat>) {
    forall p :: p in pages ==> PageFrame(p)
  }

  ghost predicate OwnsFrames(s: Sched) {
    forall i :: 0 <= i < |s.processes| && s.processes[i].Some? ==> AllFrames(s.processes[i].value.ownedPages)
  }

  lemma SpawnOwnsFrames(s: Sched, parent: nat, program: LoadedUserProgram, silent: bool)
    requires Linked(s) && s.HasThread(parent) && OwnsFrames(s) && AllFrames(program.ownedPages)
    ensures var r := SpawnChild(s, parent, program, silent); r.Some? ==> OwnsFrames(r.value.0)
  {
    hide AllFrames;
    var slot := FirstFree(s.processes);
    if slot < |s.processes| {
      ChildShape(s.Process(s.OwnerOf(parent)), parent, slot, program, silent);
      hide ChildOf;
    }
  }

  lemma SwitchOwnsFrames(s: Sched)
    requires Linked(s) && OwnsFrames(s)
    ensures OwnsFrames(PrepareSwitch(s, false).0)
    ensures PrepareSwitch(s, false).1.None? ==> PrepareSwitch(s, false).0 == s
  {
    hide AllFrames, NextRunnable, Shaped;
  }

  lemma WaitOwnsFrames(s: Sched, child: nat)
    requires Linked(s) && OwnsFrames(s)
    ensures OwnsFrames(PrepareWait(s, child).0)
  {
    hide AllFrames, NextRunnable, Shaped;
  }

  lemma ExitOwnsFrames(s: Sched, status: nat)
    requires CanExit(s) && OwnsFrames(s)
    ensures var (s', exit) := PrepareExit(s, status);
            && OwnsFrames(s')
            && (exit.Some? && exit.value.SwitchTo? ==> AllFrames(exit.value.released))
  {
    hide AllFrames, NextRunnable, Shaped;
  }

  // ---------------------------------------------------------------------------

  /** A load in place comes to exactly what the attempt on memory as it was comes to. */
  method LoadProgram(memory: PhysicalMemory, k: Programs.Kernel, q: Programs.Request, utf8: Startup.Utf8)
    returns (r: Loading)
    requires memory.Valid() && |q.file| <= U64_MAX && KernelMaps.SoundLayout(k)
    requires forall p :: p in memory.Free() ==> PageFrame(p)
    modifies memory, memory.allocator, memory.allocator.regions
    ensures var a := LoadAndRun.Attempted(old(memory.frames), old(memory.Free()), k, q, utf8);
            && r == LoadingOf(a) && AllFrames(a.space.owned)
            && (!r.Stuck? ==>
                  && memory.Valid() && memory.frames == a.space.frames
                  && memory.Free() == FreeAfter(a) <= old(memory.Free()))
  {
    hide FreePages, IsPage, Words.IsFrame, Programs.Complete, Programs.Accounted, Elf.ParseHeader,
         KernelMaps.SoundLayout,
         Programs.WholeLoad, Releasable, LoadMayDo, Elements, LoadAndRun.IsProgramOf, AllFrames;
    ghost var before, a := memory.Free(), LoadAndRun.Attempted(memory.frames, memory.Free(), k, q, utf8);
    Elf.ParsedTableFits(q.file);
    LoadAndRun.AttemptMayRun(memory.frames, before, k, q, utf8);
    ValidIsReleasable(memory.allocator);
    OwnedWereFree(before, a.space.owned);
    NothingToGiveBack(before);
    var outcome := Programs.LoadUserProgram(memory, k, q, utf8);
    match outcome
    case Panicked => r := Stuck;
    case Failed(_) => r := Failed;
    case Loaded(root, entry, stackTop, owned) =>
      var pages := owned.Drain();
      r := Done(LoadedUserProgram(root, entry, stackTop, pages));
  }

  lemma NothingToGiveBack(free: set<nat>)
    ensures free + Elements([]) == free
  {
  }

  lemma OwnedWereFree(free: set<nat>, owned: seq<nat>)
    requires Elements(owned) <= free && forall p :: p in free ==> PageFrame(p)
    ensures AllFrames(owned)
  {
    hide PageFrame;
    forall p | p in owned ensures PageFrame(p) {
      assert p in Elements(owned);
    }
  }

  /** `release_owned_pages`. */
  method ReleaseFrames(memory: PhysicalMemory, pages: seq<nat>) returns (ok: bool)
    requires memory.Valid() && AllFrames(pages) && forall p :: p in memory.Free() ==> PageFrame(p)
    modifies memory.allocator, memory.allocator.regions
    ensures ok <==> Releasable(old(memory.Free()), pages)
    ensures ok ==>
              && memory.Valid() && memory.Free() == old(memory.Free()) + Elements(pages)
              && forall p :: p in memory.Free() ==> PageFrame(p)
  {
    hide FreePages, Releasable, Elements, IsPage, Words.IsFrame, AllFrames;
    FramesArePages(pages);
    ghost var free := memory.Free();
    ok := ReleaseAll(memory.allocator, pages);
    if ok { FramesTogether(free, pages, memory.Free()); }
  }

  lemma LoadLeavesLess(frames: map<nat, Bytes>, free: set<nat>, k: Programs.Kernel, q: Programs.Request,
                       utf8: Startup.Utf8)
    requires KernelMaps.SoundLayout(k) && forall p :: p in free ==> PageFrame(p)
    ensures var a := LoadAndRun.Attempted(frames, free, k, q, utf8);
            && FreeAfter(a) == (match LoadAndRun.LoadOf(free, a)
                                case LoadFailed(lost) => free - lost
                                case Loaded(p) => free - Elements(p.ownedPages))
            && (a.program.Some? ==>
                 Elements(a.program.value.ownedPages) <= free && a.program.value.ownedPages == a.space.owned)
  {
    hide LoadAndRun.Attempted, KernelMaps.SoundLayout, Elements, IsPage, Words.IsFrame;
    LoadAndRun.AttemptMayRun(frames, free, k, q, utf8);
  }

  class Core {
    const scheduler: SchedulerState
    const memory: PhysicalMemory
    /** The root frame in use. */
    var active: nat
    /** False once the system has halted or shut down. */
    var up: bool

    // What an observer would write down.
    ghost var lost: set<nat>
    ghost var instance: map<nat, nat>
    ghost var awaiting: map<nat, Pending>
    ghost var nextInstance: nat
    ghost var log: seq<Event>

    ghost predicate Valid()
      reads this, scheduler, scheduler.processes, scheduler.threads, memory, memory.allocator, memory.allocator.regions
    {
      && memory.Valid() && (forall p :: p in memory.Free() ==> PageFrame(p)) && OwnsFrames(scheduler.View())
      && memory.allocator.regions as object !in {scheduler.processes as object, scheduler.threads as object}
    }

    ghost function View(): Machine
      reads this, scheduler, scheduler.processes, scheduler.threads, memory, memory.allocator, memory.allocator.regions
    {
      Machine(scheduler.View(), up, memory.Free(), lost, active, instance, awaiting, nextInstance, log)
    }

    ghost function Tables(): set<object> {
      {this, scheduler, scheduler.processes, scheduler.threads}
    }

    ghost function Pages(): set<object> {
      {memory, memory.allocator, memory.allocator.regions}
    }

    constructor (booted: SchedulerState, memory: PhysicalMemory, root: nat)
      ensures scheduler == booted && this.memory == memory
      ensures View() == Machine(booted.View(), true, memory.Free(), {}, root, map[0 := 0, 1 := 1], map[], 2, [])
    {
      scheduler, this.memory, active, up := booted, memory, root, true;
      lost, instance, awaiting, nextInstance, log := {}, map[0 := 0, 1 := 1], map[], 2, [];
    }

    method YieldNow()
      requires Valid() && Safe(View(), Yield)
      modifies Tables()
      ensures Valid() && View() == Step(old(View()), Yield)
    {
      hide FreePages, PageFrame, OwnsFrames, Linked, Scheduling.PrepareSwitch;
      SwitchOwnsFrames(scheduler.View());
      var switch := scheduler.PrepareSwitch(false);
      if switch.None? { return; }
      active := switch.value.space;
    }

    /** The service up to the point where the parent is left: resolve and read the executable, load
        it, store the child, block. `read` is the root file system. */
    method SpawnUserProcess(path: Bytes, read: Bytes -> Result<Bytes, SpawnError>, tail: Bytes, silent: bool,
                            k: Programs.Kernel, utf8: Startup.Utf8)
      returns (r: SpawnOutcome)
      requires Valid() && Safe(View(), Yield) && KernelMaps.SoundLayout(k)
      requires forall p :: read(p).Ok? ==> |read(p).value| <= U64_MAX
      modifies Tables(), Pages()
      ensures var m := old(View());
              var normal := Paths.Normalized(m.s.Process(m.s.OwnerOf(m.s.current.value)).cwd, path, Paths.MAX_CWD_LEN);
              if normal.None? then r == Refused(InvalidPath) && Untouched(m, old(memory.frames))
              else if read(normal.value).Err?
                  then r == Refused(read(normal.value).error) && Untouched(m, old(memory.frames))
              else
                Spawns(m, LoadAndRun.Attempted(old(memory.frames), m.free, k,
                    Programs.Request(read(normal.value).value, normal.value, tail), utf8), silent, r)
    {
      hide FreePages, PageFrame, Allocators.Aligned, AllFrames, KernelMaps.SoundLayout, Spawns, Paths.Normalized,
           LoadAndRun.Attempted;
      var id := scheduler.threads[scheduler.currentThread.value].value.processId;
      var buffer := new Byte[Paths.MAX_CWD_LEN];
      var length := Paths.NormalizePath(scheduler.processes[id].value.cwd, path, buffer);
      if length.None? { return Refused(InvalidPath); }
      var normal := buffer[..length.value];
      var file := read(normal);
      if file.Err? { return Refused(file.error); }
      r := StartExecutable(Programs.Request(file.value, normal, tail), silent, k, utf8);
    }

    ghost predicate Untouched(m: Machine, frames: map<nat, Bytes>)
      reads this, scheduler, scheduler.processes, scheduler.threads, memory, memory.allocator, memory.allocator.regions
    {
      Valid() && View() == m && memory.frames == frames
    }

    /** The request is answered as `Answer` says, and unless the assertion failed the machine has
        taken the spawn step with exactly this load, and memory is what the load left. */
    ghost predicate Spawns(m: Machine, a: LoadAndRun.Attempt, silent: bool, r: SpawnOutcome)
      requires Safe(m, Yield)
      reads this, scheduler, scheduler.processes, scheduler.threads, memory, memory.allocator, memory.allocator.regions
    {
      && r == Answer(m, a, silent)
      && (!r.Panicked? ==>
            Valid() && View() == Step(m, SpawnAndWait(LoadAndRun.LoadOf(m.free, a), silent)) &&
                memory.frames == a.space.frames)
    }

    method StartExecutable(q: Programs.Request, silent: bool, k: Programs.Kernel, utf8: Startup.Utf8)
      returns (r: SpawnOutcome)
      requires Valid() && Safe(View(), Yield) && KernelMaps.SoundLayout(k) && |q.file| <= U64_MAX
      modifies Tables(), Pages()
      ensures Spawns(old(View()), LoadAndRun.Attempted(old(memory.frames), old(View()).free, k, q, utf8), silent, r)
    {
      hide Core.Valid, KernelMaps.SoundLayout, SpawnStep, LoadAndRun.Attempted, Releasable, Linked, Elements,
           StartAnswer, AllFrames, PageFrame;
      ghost var before := View();
      LoadLeavesLess(memory.frames, memory.Free(), k, q, utf8) by { ValidFrames(); }
      var loading := LoadExecutable(q, k, utf8);
      match loading
      case Stuck => return Panicked;
      case Failed => return Refused(InvalidExecutable);
      case Done(program) => r := StartProgram(program, silent, before);
    }

    lemma ValidFrames()
      requires Valid()
      ensures forall p :: p in memory.Free() ==> PageFrame(p)
    {
    }

    /** The load, with what it lost noted. */
    method LoadExecutable(q: Programs.Request, k: Programs.Kernel, utf8: Startup.Utf8) returns (r: Loading)
      requires Valid() && KernelMaps.SoundLayout(k) && |q.file| <= U64_MAX
      modifies this`lost, Pages()
      ensures var m, a := old(View()), LoadAndRun.Attempted(old(memory.frames), old(View()).free, k, q, utf8);
              && r == LoadingOf(a) && AllFrames(a.space.owned) && (forall p :: p in m.free ==> PageFrame(p))
              && (!r.Stuck? ==> Valid() && memory.frames == a.space.frames && memory.Free() == FreeAfter(a))
              && (r.Done? ==> View() == m.(free := FreeAfter(a)))
              && (r.Failed? ==> View() == m.(free := FreeAfter(a), lost := m.lost + (m.free - FreeAfter(a))))
    {
      hide FreePages, PageFrame, AllFrames, KernelMaps.SoundLayout, LoadAndRun.Attempted, Releasable, OwnsFrames,
           Elements;
      ghost var free := memory.Free();
      r := LoadProgram(memory, k, q, utf8);
      if r.Failed? { lost := lost + (free - memory.Free()); }
    }

    /** The loaded program becomes a child the current thread waits for, or is released. */
    method StartProgram(program: LoadedUserProgram, silent: bool, ghost before: Machine) returns (r: SpawnOutcome)
      requires Valid() && Safe(before, Yield) && AllFrames(program.ownedPages)
      requires View() == before.(free := before.free - Elements(program.ownedPages))
      requires Elements(program.ownedPages) <= before.free
      requires forall p :: p in before.free ==> PageFrame(p)
      modifies Tables(), Pages()
      ensures r == StartAnswer(before, before.free - Elements(program.ownedPages), program, silent)
      ensures !r.Panicked? ==>
                Valid() && View() == SpawnStep(before, program, silent) && memory.frames == old(memory.frames)
    {
      hide FreePages, PageFrame, Allocators.Aligned, Linked, SpawnChild, PrepareWait, Releasable, Elements, IsPage,
           Inherits, Process.ResolveFd;
      LinkedFacts(before.s);
      var current := scheduler.currentThread.value;
      SpawnOwnsFrames(before.s, current, program, silent);
      hide AllFrames, OwnsFrames, SpawnStep;
      var child := scheduler.SpawnChildProcess(current, program, silent);
      if child.Err? {
        r := RefuseProgram(child.error, silent, before);
      } else {
        var waiting := StartChild(child.value, program, silent, before);
        r := if waiting then Waiting else Refused(ResourceUnavailable);
      }
    }

    /** A program that found no slot is released. */
    method RefuseProgram(program: LoadedUserProgram, silent: bool, ghost before: Machine) returns (r: SpawnOutcome)
      requires Valid() && Safe(before, Yield) && AllFrames(program.ownedPages)
      requires View() == before.(free := before.free - Elements(program.ownedPages))
      requires Elements(program.ownedPages) <= before.free
      requires SpawnChild(before.s, before.s.current.value, program, silent).None?
      modifies Pages()
      ensures r == if Releasable(before.free - Elements(program.ownedPages), program.ownedPages)
                   then Refused(ResourceUnavailable) else Panicked
      ensures !r.Panicked? ==>
                Valid() && View() == SpawnStep(before, program, silent) && memory.frames == old(memory.frames)
    {
      hide FreePages, PageFrame, Shaped, SpawnChild, PrepareWait, Releasable, Elements, IsPage, AllFrames, OwnsFrames,
           SpawnStep, Linked;
      var released := ReleaseFrames(memory, program.ownedPages);
      if !released { return Panicked; }
      RefusedSpawn(before, View(), program, silent);
      return Refused(ResourceUnavailable);
    }

    /** The stored child is noted, and the parent blocks. */
    method StartChild(child: nat, program: LoadedUserProgram, silent: bool, ghost before: Machine)
      returns (waiting: bool)
      requires Valid() && Safe(before, Yield)
      requires SpawnChild(before.s, before.s.current.value, program, silent) == Some((scheduler.View(), child))
      requires View() == before.(s := scheduler.View(), free := before.free - Elements(program.ownedPages))
      requires scheduler.currentThread == before.s.current
      modifies Tables()
      ensures Valid() && View() == SpawnStep(before, program, silent)
      ensures Linked(old(View()).s) && waiting == PrepareWait(old(View()).s, child).1.Some?
    {
      hide FreePages, PageFrame, Linked, SpawnChild, PrepareWait, Elements, OwnsFrames;
      LinkedFacts(before.s);
      SpawnKeepsLinked(before.s, before.s.current.value, program, silent);
      WaitOwnsFrames(scheduler.View(), child);
      ghost var parent := CurrentInstance(before);
      instance, nextInstance := instance[child := nextInstance], nextInstance + 1;
      log := log + [Spawned(parent, before.nextInstance)];
      waiting := StartWait(child, before);
    }

    /** `wait_for_child` up to the switch. */
    method StartWait(child: nat, ghost before: Machine) returns (waiting: bool)
      requires Linked(scheduler.View()) && Safe(before, Yield) && scheduler.currentThread == before.s.current
      modifies Tables()
      ensures waiting == PrepareWait(old(View()).s, child).1.Some?
      ensures var (blocked, switch) := PrepareWait(old(View()).s, child);
              View() == if switch.None? then
                old(View()).(s := blocked,
                    log := old(log) + [WaitReturned(CurrentInstance(before), before.nextInstance, None)])
              else old(View()).(s := blocked, active := switch.value.space,
                     awaiting := old(awaiting)[before.s.current.value := Pending(before.nextInstance, before.free,
                         before.lost)])
    {
      hide FreePages, Shaped;
      var switch := scheduler.PrepareWaitForChild(child);
      if switch.None? {
        log := log + [WaitReturned(CurrentInstance(before), before.nextInstance, None)];
        return false;
      }
      active := switch.value.space;
      awaiting := awaiting[before.s.current.value := Pending(before.nextInstance, before.free, before.lost)];
      return true;
    }

    /** `wait_for_child` behind the switch: what the call returns. */
    method FinishWait() returns (status: Option<nat>)
      requires Valid() && Safe(View(), SchedulerRuns.FinishWait)
      modifies Tables()
      ensures Valid() && View() == Step(old(View()), SchedulerRuns.FinishWait)
      ensures status == Scheduling.TakeWaitResult(old(View()).s).1
    {
      hide FreePages, PageFrame, Allocators.Aligned, AllFrames;
      ghost var current, caller := scheduler.currentThread.value, CurrentInstance(View());
      status := scheduler.TakeWaitResult();
      log := log + [WaitReturned(caller, awaiting[current].child, status)];
      awaiting := awaiting - {current};
    }

    /** The next space is active before the exiting process's pages, its root among them, are
        released; the release trips the allocator's assertion exactly when its table cannot hold
        the free pages on the way. */
    method ExitCurrentProcess(status: nat) returns (ok: bool)
      requires Valid() && Safe(View(), Exit(status))
      modifies Tables(), Pages()
      ensures var exit := PrepareExit(old(View()).s, status).1;
              ok <==> (exit.Some? && exit.value.SwitchTo? ==> Releasable(old(View()).free, exit.value.released))
      ensures ok ==> Valid() && View() == Step(old(View()), Exit(status)) && memory.frames == old(memory.frames)
    {
      hide Core.Valid, Linked, CanExit, PrepareExit, Releasable, Elements, AllFrames;
      var exit := Leave(status);
      if exit.None? || exit.value.Shutdown? { return true; }
      ok := Enter(exit.value.space, exit.value.released);
    }

    /** The tables without the exiting process, and what is written down about it; the system is
        down when no thread follows. */
    method Leave(status: nat) returns (exit: Option<ProcessExit>)
      requires Valid() && Safe(View(), Exit(status))
      modifies Tables()
      ensures Valid() && (exit.Some? && exit.value.SwitchTo? ==> AllFrames(exit.value.released))
      ensures var m, after := old(View()), PrepareExit(old(View()).s, status);
              exit == after.1
              && View() == m.(s := after.0, up := m.up && exit.Some? && exit.value.SwitchTo?,
                              instance := m.instance - {m.s.OwnerOf(m.s.current.value)},
                              log := m.log + [ExitedWith(CurrentInstance(m), status)])
    {
      hide FreePages, PageFrame, Linked, CanExit, PrepareExit, AllFrames, OwnsFrames;
      LinkedFacts(scheduler.View());
      ghost var pid := scheduler.View().OwnerOf(scheduler.currentThread.value);
      ghost var leaver := CurrentInstance(View());
      ExitOwnsFrames(scheduler.View(), status);
      exit := scheduler.PrepareExitCurrentProcess(status);
      instance, log := instance - {pid}, log + [ExitedWith(leaver, status)];
      if exit.None? || exit.value.Shutdown? { up := false; }
    }

    /** The space of the next thread becomes active before the pages are released. */
    method Enter(space: nat, released: seq<nat>) returns (ok: bool)
      requires Valid() && AllFrames(released)
      modifies this`active, Pages()
      ensures ok <==> Releasable(old(View()).free, released)
      ensures ok ==>
                && Valid() && memory.frames == old(memory.frames)
                && View() == old(View()).(active := space, free := old(View()).free + Elements(released))
    {
      hide FreePages, PageFrame, Releasable, Elements, AllFrames, OwnsFrames;
      active := space;
      ok := ReleaseFrames(memory, released);
    }

    /** `current_process_chdir`; `isDirectory` is the verdict of `ensure_root_dir`. */
    method Chdir(path: Bytes, isDirectory: bool) returns (ok: bool)
      requires Valid() && Safe(View(), SchedulerRuns.Chdir(path, isDirectory))
      modifies Tables()
      ensures Valid() && View() == Step(old(View()), SchedulerRuns.Chdir(path, isDirectory))
      ensures var m := old(View());
              var pid := m.s.OwnerOf(m.s.current.value);
              var normal := Paths.Normalized(m.s.Process(pid).cwd, path, Paths.MAX_CWD_LEN);
              && (ok <==> isDirectory && normal.Some?)
              && View() == if ok then m.(s := m.s.WithProcess(pid, m.s.Process(pid).(cwd := normal.value))) else m
    {
      hide FreePages, PageFrame, Allocators.Aligned, AllFrames, Paths.Normalized;
      var id := scheduler.threads[scheduler.currentThread.value].value.processId;
      var cwd := scheduler.processes[id].value.cwd;
      var buffer := new Byte[Paths.MAX_CWD_LEN];
      var length := Paths.NormalizePath(cwd, path, buffer);
      if length.None? || !isDirectory { return false; }
      NormalPathIsCwd(cwd, path);
      ok := scheduler.SetProcessCwd(id, buffer[..length.value]);
    }

    method SetEnv(key: Bytes, value: Bytes) returns (ok: bool)
      requires Valid() && Safe(View(), Yield)
      modifies Tables()
      ensures Valid() && View() == Step(old(View()), ChangeEnv(Environments.SetVar(key, value)))
      ensures var m := old(View());
              var pid := m.s.OwnerOf(m.s.current.value);
              var after := Environments.WithBinding(m.s.Process(pid).env, key, value);
              && ok == after.Ok?
              && View() == if ok then m.(s := m.s.WithProcess(pid, m.s.Process(pid).(env := after.value))) else m
    {
      hide FreePages, PageFrame, Allocators.Aligned, AllFrames, Environments.WithBinding;
      var id := scheduler.threads[scheduler.currentThread.value].value.processId;
      ok := scheduler.SetProcessEnv(id, key, value);
      if !ok { SameProcess(old(View()).s, id); }
    }

    method UnsetEnv(key: Bytes) returns (removed: bool)
      requires Valid() && Safe(View(), Yield)
      modifies Tables()
      ensures Valid() && View() == Step(old(View()), ChangeEnv(Environments.RemoveVar(key)))
      ensures var m := old(View());
              var pid := m.s.OwnerOf(m.s.current.value);
              var env := m.s.Process(pid).env;
              && (removed <==> Environments.KeyError(key).None? && Environments.Lookup(env, key).Some?)
              && View() ==
                   if removed then
                     m.(s := m.s.WithProcess(pid, m.s.Process(pid).(env := Environments.WithoutKey(env, key).value.0)))
                   else m
    {
      hide FreePages, PageFrame, Allocators.Aligned, AllFrames, Environments.WithoutKey, Environments.Lookup,
           Environments.KeyError;
      var id := scheduler.threads[scheduler.currentThread.value].value.processId;
      Environments.RemovedIfBound(scheduler.processes[id].value.env, key);
      removed := scheduler.RemoveProcessEnv(id, key);
      if scheduler.View() == old(scheduler.View()) { SameProcess(old(View()).s, id); }
    }
  }

  lemma RefusedSpawn(before: Machine, after: Machine, program: LoadedUserProgram, silent: bool)
    requires Safe(before, Yield) && SpawnChild(before.s, before.s.current.value, program, silent).None?
    requires after == before.(free := before.free - Elements(program.ownedPages) + Elements(program.ownedPages))
    ensures after == SpawnStep(before, program, silent)
  {
    hide SpawnChild, Elements;
  }

  /** A path that normalizes can be stored. */
  lemma NormalPathIsCwd(cwd: Bytes, path: Bytes)
    ensures var normal := Paths.Normalized(cwd, path, Paths.MAX_CWD_LEN);
            normal.Some? ==> normal.value != [] && normal.value[0] == SLASH && |normal.value| <= Paths.MAX_CWD_LEN
  {
    hide Paths.Normalized;
    Paths.NormalizedIsNormalForm(cwd, path);
    var normal := Paths.Normalized(cwd, path, Paths.MAX_CWD_LEN);
    if normal.Some? { SchedulerSafety.NormalFormIsCwd(normal.value); }
  }

  lemma SameProcess(s: Sched, p: nat)
    requires s.HasProcess(p)
    ensures s.WithProcess(p, s.Process(p)) == s
  {
  }

  lemma FramesArePages(pages: seq<nat>)
    requires AllFrames(pages)
    ensures forall p :: p in pages ==> IsPage(p)
  {
  }

  lemma FramesTogether(free: set<nat>, pages: seq<nat>, after: set<nat>)
    requires AllFrames(pages) && (forall p :: p in free ==> PageFrame(p)) && after == free + Elements(pages)
    ensures forall p :: p in after ==> PageFrame(p)
  {
  }

  /** Boot: the bootstrap program is loaded and the scheduler set up; nothing runs when, and only
      when, the program does not load. What is left is a machine from which the runs start. */
  method BootKernel(memory: PhysicalMemory, root: nat, k: Programs.Kernel, q: Programs.Request, utf8: Startup.Utf8)
    returns (core: Option<Core>)
    requires memory.Valid() && |q.file| <= U64_MAX && KernelMaps.SoundLayout(k) && forall p :: p in memory.Free() ==>
               PageFrame(p)
    requires root !in memory.Free()
    modifies memory, memory.allocator, memory.allocator.regions
    ensures var a, total := LoadAndRun.Attempted(old(memory.frames), old(memory.Free()), k, q, utf8),
              old(memory.Free());
            && (core.Some? <==> a.program.Some?)
            && (core.Some? ==>
                  && fresh(core.value) && core.value.memory == memory && core.value.Valid() &&
                       memory.frames == a.space.frames
                  && SchedulerTheorems.BootReady(root, a.program.value, total)
                  && core.value.View() == SchedulerTheorems.Boot(root, a.program.value, total))
  {
    hide FreePages, PageFrame, Allocators.Aligned, KernelMaps.SoundLayout, LoadAndRun.Attempted, Releasable, Elements,
         LoadAndRun.IsProgramOf;
    ghost var a := LoadAndRun.Attempted(memory.frames, memory.Free(), k, q, utf8);
    LoadLeavesLess(memory.frames, memory.Free(), k, q, utf8);
    FramesAreFrames(memory.Free());
    LoadAndRun.AttemptMayRun(memory.frames, memory.Free(), k, q, utf8);
    var loading := LoadProgram(memory, k, q, utf8);
    if !loading.Done? { return None; }
    var scheduler, first := SchedulerTheorems.BootScheduler(root, loading.program);
    BootOwnsFrames(root, loading.program);
    var started := new Core(scheduler, memory, root);
    return Some(started);
  }

  lemma FramesAreFrames(free: set<nat>)
    requires forall p :: p in free ==> PageFrame(p)
    ensures forall p :: p in free ==> Words.IsFrame(p)
  {
  }

  lemma BootOwnsFrames(root: nat, program: LoadedUserProgram)
    requires AllFrames(program.ownedPages)
    ensures OwnsFrames(SchedulerTheorems.Booted(root, program))
  {
    hide PageFrame;
  }
}
