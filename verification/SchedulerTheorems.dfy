// What holds in every run from the boot configuration, stated without the
// chain that the invariant uses (kernel/kernel/src/main.rs:68-96).
module SchedulerTheorems {
  import opened Prelude
  import opened Processes
  import opened Scheduling
  import opened SchedulerStates
  import opened SchedulerRuns
  import opened SchedulerSafety
  import opened SchedulerExit
  import Environments
  import Paths

  // ---------------------------------------------------------------------------
  // The boot configuration.

  const PATH_KEY: Bytes := [80, 65, 84, 72]
  const PATH_VALUE: Bytes := [47, 115, 121, 115, 116, 101, 109, 47, 98, 105, 110, 58, 47, 98, 105, 110]

  function KernelConfig(root: nat): ProcessConfig {
    ProcessConfig(root, false, [], Continue)
  }

  function UserConfig(program: LoadedUserProgram): ProcessConfig {
    ProcessConfig(program.addressSpace, true, program.ownedPages, ShutdownSystem)
  }

  function BootstrapProcess(program: LoadedUserProgram): Process {
    NewProcess(1, program.addressSpace, program.ownedPages, ShutdownSystem).(
      handles := [Some(TerminalEndpoint), Some(TerminalEndpoint), Some(TerminalEndpoint), None, None, None, None, None],
      stdio := StdioHandles(0, 1, 2), env := [Environments.Binding(PATH_KEY, PATH_VALUE)])
  }

  /** The tables when the scheduler has entered its first thread. */
  function Booted(root: nat, program: LoadedUserProgram): Sched {
    Sched([Some(NewProcess(0, root, [], Continue)), Some(BootstrapProcess(program)),
           None, None, None, None, None, None],
          [Some(NewThread(0, 0, Kernel).(state := OnCpu)),
           Some(NewThread(1, 1, User(program.entryPoint, program.userStackTop))),
           Some(NewThread(2, 0, Kernel)), None, None, None, None, None, None, None, None, None],
          Some(TERMINAL), Some(IDLE))
  }

  lemma BootstrapEnv()
    ensures Environments.WithBinding([], PATH_KEY, PATH_VALUE) == Ok([Environments.Binding(PATH_KEY, PATH_VALUE)])
  {
    assert PATH_KEY[0] == 80 && |PATH_KEY| == 4 && |PATH_VALUE| == 16;
    assert EQUALS !in PATH_KEY;
    assert Environments.KeyError(PATH_KEY).None?;
    var none: Environments.Bindings := [];
    assert none + [Environments.Binding(PATH_KEY, PATH_VALUE)] == [Environments.Binding(PATH_KEY, PATH_VALUE)];
  }

  lemma BootstrapStdio(blank: Process)
    requires blank.handles == seq(MAX_PROCESS_HANDLES, _ => None)
    ensures blank.BindStdio(TerminalEndpoint, TerminalEndpoint, TerminalEndpoint) == Some(blank.(
              handles := [Some(TerminalEndpoint), Some(TerminalEndpoint), Some(TerminalEndpoint), None, None, None,
                  None, None],
              stdio := StdioHandles(0, 1, 2)))
  {
    var a := blank.InstallHandle(TerminalEndpoint).value;
    assert a.1 == 0;
    assert a.0.handles[1].None?;
    var b := a.0.InstallHandle(TerminalEndpoint).value;
    assert b.1 == 1;
    assert b.0.handles[2].None?;
    var c := b.0.InstallHandle(TerminalEndpoint).value;
    assert c.1 == 2;
    assert c.0.handles == [Some(TerminalEndpoint), Some(TerminalEndpoint), Some(TerminalEndpoint), None, None, None,
             None, None];
  }

  /** The state after boot, field by field: the kernel has no streams; the bootstrap program starts in "/" with its
      streams at the terminal and PATH set, and its exit shuts the system down; nothing else is there. */
  lemma BootedIs(root: nat, program: LoadedUserProgram)
    ensures var s := Booted(root, program);
            && |s.processes| == 8 && |s.threads| == 12 && s.current == Some(0) && s.idle == Some(2)
            && (forall p :: 2 <= p < 8 ==> s.processes[p].None?) && (forall t :: 3 <= t < 12 ==> s.threads[t].None?)
            && s.HasProcess(0) && s.Process(0).addressSpace == root && s.Process(0).ownedPages == []
            && (forall fd: nat :: s.Process(0).ResolveFd(fd) == None)
            && s.HasProcess(1) && s.Process(1).addressSpace == program.addressSpace
            && s.Process(1).ownedPages == program.ownedPages
            && s.Process(1).cwd == [0x2f] && s.Process(1).env == [Environments.Binding(PATH_KEY, PATH_VALUE)]
            && (forall fd: nat :: s.Process(1).ResolveFd(fd) == if fd <= 2 then Some(TerminalEndpoint) else None)
            && s.Process(1).exitAction == ShutdownSystem && s.Process(1).waitingThread == None
            && s.HasThread(0) && s.OwnerOf(0) == 0 && s.Thread(0).start == Kernel && s.Thread(0).state == OnCpu
            && s.HasThread(1) && s.OwnerOf(1) == 1 && s.Thread(1).state == Runnable
            && s.Thread(1).start == User(program.entryPoint, program.userStackTop)
            && s.HasThread(2) && s.OwnerOf(2) == 0 && s.Thread(2).start == Kernel && s.Thread(2).state == Runnable
  {
    var s := Booted(root, program);
    assert s.processes[0] == Some(NewProcess(0, root, [], Continue));
    assert s.processes[1] == Some(BootstrapProcess(program));
  }

  /** The two processes, with the bootstrap environment seeded. */
  method CreateBootProcesses(root: nat, program: LoadedUserProgram) returns (scheduler: SchedulerState)
    ensures fresh(scheduler) && fresh(scheduler.processes) && fresh(scheduler.threads)
    ensures scheduler.View() == Sched(Booted(root, program).processes, EMPTY.threads, None, None)
  {
    hide CreateProcess, Booted, NewProcess, BootstrapProcess, Environments.WithBinding;
    BootstrapEnv();
    BootCreatesKernel(root);
    scheduler := new SchedulerState();
    var kernel := scheduler.TryCreateProcess(KernelConfig(root));
    ghost var one := scheduler.View();
    BootCreatesUser(root, program);
    var user := scheduler.TryCreateProcess(UserConfig(program));
    var ok := scheduler.SetProcessEnv(1, PATH_KEY, PATH_VALUE);
    BootProcesses(root, program);
  }

  lemma BootCreatesKernel(root: nat)
    ensures CreateProcess(EMPTY, KernelConfig(root)) ==
              Some((EMPTY.WithProcess(0, NewProcess(0, root, [], Continue)), 0))
  {
    assert EMPTY.processes[0].None?;
  }

  /** The bootstrap process before its environment is seeded. */
  function Unseeded(program: LoadedUserProgram): Process {
    BootstrapProcess(program).(env := [])
  }

  lemma BootCreatesUser(root: nat, program: LoadedUserProgram)
    ensures var s := EMPTY.WithProcess(0, NewProcess(0, root, [], Continue));
            CreateProcess(s, UserConfig(program)) == Some((s.WithProcess(1, Unseeded(program)), 1))
    ensures Unseeded(program).env == []
  {
    var blank := NewProcess(1, program.addressSpace, program.ownedPages, ShutdownSystem);
    BootstrapStdio(blank);
    hide Process.BindStdio;
    var s := EMPTY.WithProcess(0, NewProcess(0, root, [], Continue));
    assert s.processes[0].Some? && s.processes[1].None?;
  }

  lemma BootProcesses(root: nat, program: LoadedUserProgram)
    ensures var kernel := EMPTY.WithProcess(0, NewProcess(0, root, [], Continue));
            var seeded := Unseeded(program).(env := [Environments.Binding(PATH_KEY, PATH_VALUE)]);
            kernel.WithProcess(1, Unseeded(program)).WithProcess(1, seeded).processes == Booted(root, program).processes
  {
  }

  /** The boot sequence fills the tables as `Booted` says and enters the terminal thread. */
  method BootScheduler(root: nat, program: LoadedUserProgram) returns (scheduler: SchedulerState, first: Option<nat>)
    ensures fresh(scheduler) && scheduler.View() == Booted(root, program) && first == Some(TERMINAL)
  {
    hide CreateThread, Booted, Linked;
    scheduler := CreateBootProcesses(root, program);
    BootCreatesThreads(scheduler.View(), program);
    var terminal := scheduler.TryCreateThread(0, Kernel);
    var main := scheduler.TryCreateThread(1, User(program.entryPoint, program.userStackTop));
    var idle := scheduler.TryCreateThread(0, Kernel);
    scheduler.MarkIdleThread(2);
    BootThreads(root, program, scheduler.View());
    first := scheduler.Start();
  }

  /** The three threads fill the first three slots. */
  lemma BootCreatesThreads(s: Sched, program: LoadedUserProgram)
    requires s.threads == EMPTY.threads
    ensures var main := User(program.entryPoint, program.userStackTop);
            var one := s.WithThread(0, NewThread(0, 0, Kernel));
            var two := one.WithThread(1, NewThread(1, 1, main));
            var three := two.WithThread(2, NewThread(2, 0, Kernel));
            && CreateThread(s, 0, Kernel) == Some((one, 0))
            && CreateThread(one, 1, main) == Some((two, 1))
            && CreateThread(two, 0, Kernel) == Some((three, 2))
            && three.threads == [Some(NewThread(0, 0, Kernel)), Some(NewThread(1, 1, main)),
                 Some(NewThread(2, 0, Kernel)),
                                 None, None, None, None, None, None, None, None, None]
  {
    hide NewThread;
    assert s.threads[0].None?;
    var one := s.WithThread(0, NewThread(0, 0, Kernel));
    assert one.threads[0].Some? && one.threads[1].None?;
    var two := one.WithThread(1, NewThread(1, 1, User(program.entryPoint, program.userStackTop)));
    assert two.threads[0].Some? && two.threads[1].Some? && two.threads[2].None?;
  }

  /** Once the tables are filled they are linked, and the scan stops at the terminal thread. */
  lemma BootThreads(root: nat, program: LoadedUserProgram, s: Sched)
    requires s.processes == Booted(root, program).processes && s.current == None && s.idle == Some(IDLE)
    requires s.threads == [Some(NewThread(0, 0, Kernel)),
               Some(NewThread(1, 1, User(program.entryPoint, program.userStackTop))),
                           Some(NewThread(2, 0, Kernel)), None, None, None, None, None, None, None, None, None]
    ensures Linked(s) && Scheduling.Start(s) == (Booted(root, program), Some(TERMINAL))
  {
    hide Linked, BootstrapProcess, NewProcess;
    BootLinked(root, program, s);
    assert ScanSlot(None, 0) == 0 && Eligible(s, 0);
    assert FirstEligible(s, None, 0) == Some(0);
    assert Resume(s, 0).threads == Booted(root, program).threads;
  }

  lemma BootLinked(root: nat, program: LoadedUserProgram, s: Sched)
    requires s.processes == Booted(root, program).processes && s.current == None && s.idle == Some(IDLE)
    requires s.threads == [Some(NewThread(0, 0, Kernel)),
               Some(NewThread(1, 1, User(program.entryPoint, program.userStackTop))),
                           Some(NewThread(2, 0, Kernel)), None, None, None, None, None, None, None, None, None]
    ensures Linked(s)
  {
  }

  // ---------------------------------------------------------------------------
  // Runs from the boot configuration.

  /** `total` is every page the allocator ever hands out; the kernel's root is not among them. */
  ghost predicate BootReady(root: nat, program: LoadedUserProgram, total: set<nat>) {
    LoadMayDo(total, Loaded(program)) && root !in total
  }

  ghost function Boot(root: nat, program: LoadedUserProgram, total: set<nat>): Machine {
    Machine(Booted(root, program), true, total - Elements(program.ownedPages), {}, root,
            map[0 := 0, 1 := 1], map[], 2, [])
  }

  ghost function BootChain(): seq<Link> {
    [Link(1, 1)]
  }

  lemma BootTables(root: nat, program: LoadedUserProgram)
    ensures Tables(Booted(root, program), BootChain(), Some(TERMINAL))
  {
    hide Inheritable;
    BootMembers(root, program);
    BootstrapIsInheritable(program);
    hide Members;
  }

  lemma BootMembers(root: nat, program: LoadedUserProgram)
    ensures Members(Booted(root, program), BootChain())
  {
    hide BootstrapProcess;
    var s, chain := Booted(root, program), BootChain();
    assert BootstrapProcess(program).id == 1 &&
             |BootstrapProcess(program).handles| == MAX_PROCESS_HANDLES by { BootstrapShape(program); }
    assert chain[0].tid == 1 && chain[0].pid == 1;
    assert OnChain(chain, 1) && PidOnChain(chain, 1);
    assert LinkOk(s, chain[0]);
  }

  lemma BootstrapShape(program: LoadedUserProgram)
    ensures BootstrapProcess(program).id == 1 && |BootstrapProcess(program).handles| == MAX_PROCESS_HANDLES
  {
  }

  lemma BootstrapIsInheritable(program: LoadedUserProgram)
    ensures Inheritable(BootstrapProcess(program))
  {
    BootstrapEnv();
    Paths.RenderIsAbsolute([]);
    assert Paths.IsNormalFormOf([SLASH], []);
  }

  lemma BootMemory(root: nat, program: LoadedUserProgram, total: set<nat>)
    requires BootReady(root, program, total)
    ensures Memory(Booted(root, program), total - Elements(program.ownedPages), {}, BootChain(), total)
  {
    var s, chain := Booted(root, program), BootChain();
    assert Pages(s, chain[0].pid) == program.ownedPages;
    forall x | x in total ensures x in total - Elements(program.ownedPages) || Owns(s, chain, 1, x) {
    }
  }

  lemma BootIsGood(root: nat, program: LoadedUserProgram, total: set<nat>)
    requires BootReady(root, program, total)
    ensures Invariant(Boot(root, program, total), BootChain(), total)
  {
    BootTables(root, program);
    BootMemory(root, program, total);
    var m := Boot(root, program, total);
    assert Identities(m, BootChain());
  }

  lemma StepKeeps(m: Machine, a: Action, chain: seq<Link>, total: set<nat>) returns (chain': seq<Link>)
    requires Invariant(m, chain, total) && Offered(m, a) && Safe(m, a)
    ensures Invariant(Step(m, a), chain', total)
  {
    hide Good, History, Linked;
    chain' := chain;
    match a
    case Yield => YieldKeeps(m, chain, total);
    case SpawnAndWait(load, silent) =>
      match load {
        case LoadFailed(lost) => LossKeeps(m, lost, chain, total);
        case Loaded(program) => chain' := SpawnKeeps(m, program, silent, chain, total);
      }
    case FinishWait => FinishKeeps(m, chain, total);
    case Exit(status) => chain' := ExitKeeps(m, status, chain, total);
    case Chdir(path, isDirectory) => ChdirKeeps(m, path, isDirectory, chain, total);
    case ChangeEnv(op) => EnvKeeps(m, op, chain, total);
  }

  /** The machine after `actions` from boot, when each was offered. */
  ghost predicate Reaches(root: nat, program: LoadedUserProgram, total: set<nat>, actions: seq<Action>, m: Machine) {
    BootReady(root, program, total) && Run(Boot(root, program, total), actions) == Some(m)
  }

  lemma {:induction false} RunKeeps(root: nat, program: LoadedUserProgram, total: set<nat>, actions: seq<Action>,
                                    m: Machine)
    returns (chain: seq<Link>)
    requires Reaches(root, program, total, actions, m)
    ensures Invariant(m, chain, total)
    decreases |actions|
  {
    hide Invariant, Step, Offered, Safe;
    if actions == [] {
      BootIsGood(root, program, total);
      chain := BootChain();
    } else {
      var n := |actions| - 1;
      var before := Run(Boot(root, program, total), actions[..n]).value;
      chain := RunKeeps(root, program, total, actions[..n], before);
      chain := StepKeeps(before, actions[n], chain, total);
    }
  }

  // ---------------------------------------------------------------------------
  // The theorems.

  /** No request offered in any run makes an `expect` of the scheduler fail. */
  lemma NothingPanics(root: nat, program: LoadedUserProgram, total: set<nat>, actions: seq<Action>, m: Machine,
                      a: Action)
    requires Reaches(root, program, total, actions, m) && Offered(m, a)
    ensures Safe(m, a)
    ensures Reaches(root, program, total, actions + [a], Step(m, a))
  {
    hide Offered, Safe, Step, BootReady, Good;
    var chain := RunKeeps(root, program, total, actions, m);
    assert Good(m, chain, total) by { assert m.up by { OfferedIsUp(m, a); } }
    OfferedIsSafe(m, a, chain, total);
    assert (actions + [a])[..|actions|] == actions;
  }

  lemma OfferedIsUp(m: Machine, a: Action)
    requires Offered(m, a)
    ensures m.up
  {
  }

  /** In every reachable state one thread is on the CPU, owners are live, and few slots are used. */
  lemma OneThreadRuns(root: nat, program: LoadedUserProgram, total: set<nat>, actions: seq<Action>, m: Machine)
    requires Reaches(root, program, total, actions, m) && m.up
    ensures m.s.current.Some? && m.s.HasThread(m.s.current.value)
    ensures forall t: nat :: m.s.HasThread(t) ==>
              (m.s.Thread(t).state == OnCpu <==> m.s.current == Some(t)) && m.s.HasProcess(m.s.OwnerOf(t))
    ensures |LiveThreads(m.s)| <= 9
    ensures m.active == SpaceOf(m.s, m.s.current.value)
  {
    var chain := RunKeeps(root, program, total, actions, m);
    hide Reaches;
    CpuIsCurrent(m, chain, total);
    GoodFacts(m, chain, total);
    FewThreads(m.s, chain);
  }

  lemma CpuIsCurrent(m: Machine, chain: seq<Link>, total: set<nat>)
    requires Good(m, chain, total)
    ensures forall t: nat :: m.s.HasThread(t) ==> (m.s.Thread(t).state == OnCpu <==> m.s.current == Some(t))
  {
    GoodFacts(m, chain, total);
    forall t: nat | m.s.HasThread(t) ensures m.s.Thread(t).state == OnCpu <==> m.s.current == Some(t) {
      ReadyThreads(m.s, chain, t);
    }
  }

  /** `t` is blocked until the process of `u` exits. */
  ghost predicate WaitsOn(s: Sched, t: nat, u: nat) {
    && s.HasThread(t) && s.HasThread(u) && s.Thread(t).state == Blocked
    && s.Thread(t).blockReason == WaitingForChild(s.OwnerOf(u))
  }

  ghost predicate WaitPath(s: Sched, path: seq<nat>) {
    forall i :: 0 <= i < |path| - 1 ==> WaitsOn(s, path[i], path[i + 1])
  }

  /** A blocked thread is a link of the chain, parked on the next one. */
  lemma BlockedLink(s: Sched, chain: seq<Link>, t: nat) returns (i: nat)
    requires Members(s, chain) && Waits(s, chain) && s.HasThread(t) && s.Thread(t).state == Blocked
    ensures i + 1 < |chain| && chain[i].tid == t && ParkedAt(s, chain, i)
  {
    ReadyThreads(s, chain, t);
    assert OnChain(chain, t);
    i :| 0 <= i < |chain| && chain[i].tid == t;
  }

  lemma WaitsOnNextLink(s: Sched, chain: seq<Link>, i: nat, u: nat)
    requires Members(s, chain) && Waits(s, chain) && i < |chain| && WaitsOn(s, chain[i].tid, u)
    ensures i + 1 < |chain| && chain[i + 1].tid == u
  {
    LinkFacts(s, chain, i);
    var j := BlockedLink(s, chain, chain[i].tid);
    assert j == i;
    LinkFacts(s, chain, i + 1);
    OwnerIsLink(s, chain, u, i + 1);
  }

  /** The thread of a user process is the one the chain pairs with it. */
  lemma OwnerIsLink(s: Sched, chain: seq<Link>, u: nat, i: nat)
    requires Members(s, chain) && i < |chain| && s.HasThread(u) && s.OwnerOf(u) == chain[i].pid
    ensures u == chain[i].tid
  {
    LinkFacts(s, chain, i);
    if u != TERMINAL && u != IDLE {
      var j :| 0 <= j < |chain| && chain[j].tid == u;
      assert LinkOk(s, chain[j]);
    }
  }

  /** A path of waits follows the chain downwards. */
  lemma {:induction false} PathDescends(s: Sched, chain: seq<Link>, path: seq<nat>, i: nat, n: nat)
    requires Members(s, chain) && Waits(s, chain) && WaitPath(s, path)
    requires n < |path| && i < |chain| && chain[i].tid == path[0]
    ensures i + n < |chain| && chain[i + n].tid == path[n]
    decreases n
  {
    if n > 0 {
      PathDescends(s, chain, path, i, n - 1);
      assert WaitsOn(s, path[n - 1], path[n - 1 + 1]);
      hide Members, Waits, WaitsOn;
      WaitsOnNextLink(s, chain, i + n - 1, path[n]);
    }
  }

  /** The wait graph has no cycle in any reachable state. */
  lemma NoWaitCycle(root: nat, program: LoadedUserProgram, total: set<nat>, actions: seq<Action>, m: Machine,
                    path: seq<nat>)
    requires Reaches(root, program, total, actions, m) && m.up
    requires |path| > 1 && WaitPath(m.s, path)
    ensures path[0] != path[|path| - 1]
  {
    var chain := RunKeeps(root, program, total, actions, m);
    assert WaitsOn(m.s, path[0], path[0 + 1]);
    var i := BlockedLink(m.s, chain, path[0]);
    var n := |path| - 1;
    hide Reaches;
    PathDescends(m.s, chain, path, i, n);
    LinkFacts(m.s, chain, i);
  }

  /** No wakeup is lost: who is blocked is registered with the live process it waits for,
      and has no status yet. */
  lemma BlockedIsRegistered(root: nat, program: LoadedUserProgram, total: set<nat>, actions: seq<Action>, m: Machine,
                            t: nat)
    requires Reaches(root, program, total, actions, m) && m.up
    requires m.s.HasThread(t) && m.s.Thread(t).state == Blocked
    ensures var thread := m.s.Thread(t);
            && thread.blockReason.WaitingForChild? && thread.waitResult.None?
            && m.s.HasProcess(thread.blockReason.process)
            && m.s.Process(thread.blockReason.process).waitingThread == Some(t)
    ensures t in m.awaiting && m.s.Thread(t).blockReason.process in m.instance
    ensures m.awaiting[t].child == m.instance[m.s.Thread(t).blockReason.process]
  {
    var chain := RunKeeps(root, program, total, actions, m);
    var i := BlockedLink(m.s, chain, t);
    LinkFacts(m.s, chain, i);
    LinkFacts(m.s, chain, i + 1);
    assert AwaitsAt(m, chain, i);
    hide Reaches, Members, Waits, Roles, Cpu, Memory, Snapshots;
  }

  /** Exit resumes the waiter at once with the status, and the waiter awaited this very
      instance; a process without a waiter is the bootstrap process and shuts the system down. */
  lemma ExitResumesWaiter(root: nat, program: LoadedUserProgram, total: set<nat>, actions: seq<Action>, m: Machine,
                          status: nat)
    requires Reaches(root, program, total, actions, m) && Offered(m, Exit(status))
    ensures Safe(m, Exit(status))
    ensures var m', pid := Step(m, Exit(status)), m.s.OwnerOf(m.s.current.value);
            match m.s.Process(pid).waitingThread
            case None => pid == 1 && !m'.up
            case Some(w) =>
              && m'.up && m'.s.current == Some(w) && m'.s.HasThread(w) && m.s.HasThread(w)
              && m'.s.Thread(w) ==
                   m.s.Thread(w).(state := OnCpu, blockReason := NotBlocked, waitResult := Some(status))
              && w in m.awaiting && m.awaiting[w].child == CurrentInstance(m)
  {
    hide Reaches, Members, Roles, Waits, Cpu, Memory, Identities, CanExit, Snapshots, Linked, Step, SpaceOf, TailAwaits;
    var chain := RunKeeps(root, program, total, actions, m);
    OfferedIsSafe(m, Exit(status), chain, total);
    GoodFacts(m, chain, total);
    OnlyBootstrapHasNoWaiter(m.s, chain);
    if |chain| == 1 {
      LastExit(m, chain, status);
    } else {
      ChildExitResumes(m, chain, status);
      ParentAwaits(m, chain);
    }
  }

  lemma LastExit(m: Machine, chain: seq<Link>, status: nat)
    requires |chain| == 1 && Tables(m.s, chain, m.s.current) && Safe(m, Exit(status))
    requires m.s.current == Some(Tail(chain).tid)
    ensures !Step(m, Exit(status)).up
  {
    hide Members, Roles, Waits, Cpu, CanExit, PrepareExit, Linked;
    LastExitShutsDown(m.s, chain, status);
  }

  lemma OnlyBootstrapHasNoWaiter(s: Sched, chain: seq<Link>)
    requires Members(s, chain) && Waits(s, chain) && Roles(s, chain)
    ensures s.HasProcess(Tail(chain).pid)
    ensures match s.Process(Tail(chain).pid).waitingThread
            case None => Tail(chain).pid == 1 && |chain| == 1
            case Some(w) => |chain| > 1 && w == chain[|chain| - 2].tid
  {
    LinkFacts(s, chain, |chain| - 1);
    if |chain| > 1 {
      assert ParkedAt(s, chain, |chain| - 2);
    }
  }

  lemma ChildExitResumes(m: Machine, chain: seq<Link>, status: nat)
    requires |chain| > 1 && Tables(m.s, chain, m.s.current) && Safe(m, Exit(status))
    requires m.s.current == Some(Tail(chain).tid) && m.s.OwnerOf(Tail(chain).tid) == Tail(chain).pid
    ensures var m', w := Step(m, Exit(status)), Parent(chain).tid;
            && m'.up == m.up && m'.s.current == Some(w) && m'.s.HasThread(w) && m.s.HasThread(w)
            && m'.s.Thread(w) ==
                 m.s.Thread(w).(state := OnCpu, blockReason := NotBlocked, waitResult := Some(status))
  {
    hide Members, Roles, Waits, Cpu, CanExit, PrepareExit, Linked;
    ExitShape(m.s, chain, status);
    ExitRecord(m, status, Tail(chain));
    hide Orphaned, ExitStep, Departed, Tables;
  }

  lemma ParentAwaits(m: Machine, chain: seq<Link>)
    requires |chain| > 1 && Members(m.s, chain) && Identities(m, chain)
    ensures Parent(chain).tid in m.awaiting && Tail(chain).pid in m.instance
    ensures m.awaiting[Parent(chain).tid].child == m.instance[Tail(chain).pid]
  {
    assert AwaitsAt(m, chain, |chain| - 2);
  }

  /** Every wait returns, with `Some` of the status that the very instance it spawned
      passed to exit; each instance is spawned once and exits at most once. */
  lemma WaitsReturnTheirChild(root: nat, program: LoadedUserProgram, total: set<nat>, actions: seq<Action>, m: Machine)
    requires Reaches(root, program, total, actions, m)
    ensures History(m.log, m.nextInstance)
  {
    var _ := RunKeeps(root, program, total, actions, m);
  }

  // ---------------------------------------------------------------------------
  // Memory.

  /** `p` is a live user process. */
  ghost predicate UserProcess(s: Sched, p: nat) {
    0 < p && s.HasProcess(p)
  }

  /** Every page is in exactly one place: free, lost by a failed load, or owned by one
      process; the active root is never free. */
  lemma PagesArePartitioned(root: nat, program: LoadedUserProgram, total: set<nat>, actions: seq<Action>, m: Machine)
    requires Reaches(root, program, total, actions, m) && m.up
    ensures forall x :: x in total <==> x in m.free || x in m.lost || exists p: nat ::
              UserProcess(m.s, p) && x in Pages(m.s, p)
    ensures m.free !! m.lost
    ensures forall p: nat, x :: UserProcess(m.s, p) && x in Pages(m.s, p) ==> x !in m.free && x !in m.lost
    ensures forall p: nat, q: nat, x :: UserProcess(m.s, p) && UserProcess(m.s, q) && p != q && x in Pages(m.s, p) ==>
              x !in Pages(m.s, q)
    ensures m.active !in m.free
  {
    var chain := RunKeeps(root, program, total, actions, m);
    hide Reaches;
    GoodFacts(m, chain, total);
    UserProcessesAreLinks(m.s, chain);
    PartitionOfChain(m.s, m.free, m.lost, chain, total);
    ActiveIsNotFree(m, chain, total);
  }

  lemma UserProcessesAreLinks(s: Sched, chain: seq<Link>)
    requires Members(s, chain)
    ensures forall p: nat :: UserProcess(s, p) <==> PidOnChain(chain, p)
  {
    forall p: nat | PidOnChain(chain, p) ensures UserProcess(s, p) {
      var i :| 0 <= i < |chain| && chain[i].pid == p;
      LinkFacts(s, chain, i);
    }
  }

  lemma PartitionOfChain(s: Sched, free: set<nat>, lost: set<nat>, chain: seq<Link>, total: set<nat>)
    requires Memory(s, free, lost, chain, total)
    requires forall p: nat :: UserProcess(s, p) <==> PidOnChain(chain, p)
    ensures forall x :: x in total <==> x in free || x in lost || exists p: nat :: UserProcess(s, p) && x in Pages(s, p)
    ensures forall p: nat, x :: UserProcess(s, p) && x in Pages(s, p) ==> x !in free && x !in lost
    ensures forall p: nat, q: nat, x :: UserProcess(s, p) && UserProcess(s, q) && p != q && x in Pages(s, p) ==>
              x !in Pages(s, q)
  {
    hide UserProcess, Disjoint, OwnedApart, Owns, PidOnChain, Pages;
    forall p: nat, x | UserProcess(s, p) && x in Pages(s, p) ensures x in total && x !in free && x !in lost {
      OwnedPageIsApart(s, free, lost, chain, total, p, x);
    }
    forall x | x in total && x !in free && x !in lost ensures exists p: nat :: UserProcess(s, p) && x in Pages(s, p) {
      var p := OwnerOfPage(s, chain, x);
      assert UserProcess(s, p) && x in Pages(s, p);
    }
    forall p: nat, q: nat, x | UserProcess(s, p) && UserProcess(s, q) && p != q && x in Pages(s, p)
      ensures x !in Pages(s, q)
    {
      OwnersApart(s, chain, p, q, x);
    }
  }

  lemma OwnedPageIsApart(s: Sched, free: set<nat>, lost: set<nat>, chain: seq<Link>, total: set<nat>, p: nat, x: nat)
    requires Memory(s, free, lost, chain, total) && PidOnChain(chain, p) && x in Pages(s, p)
    ensures x in total && x !in free && x !in lost
  {
    hide Disjoint, Owns;
    var i :| 0 <= i < |chain| && chain[i].pid == p;
    assert OwnedApart(s, free, lost, chain[i].pid, total);
  }

  lemma OwnerOfPage(s: Sched, chain: seq<Link>, x: nat) returns (p: nat)
    requires Owns(s, chain, |chain|, x)
    ensures PidOnChain(chain, p) && x in Pages(s, p)
  {
    var j :| 0 <= j < |chain| && x in Pages(s, chain[j].pid);
    p := chain[j].pid;
  }

  lemma OwnersApart(s: Sched, chain: seq<Link>, p: nat, q: nat, x: nat)
    requires Disjoint(s, chain) && PidOnChain(chain, p) && PidOnChain(chain, q) && p != q && x in Pages(s, p)
    ensures x !in Pages(s, q)
  {
    var i :| 0 <= i < |chain| && chain[i].pid == p;
    var j :| 0 <= j < |chain| && chain[j].pid == q;
  }

  lemma ActiveIsNotFree(m: Machine, chain: seq<Link>, total: set<nat>)
    requires Good(m, chain, total)
    ensures m.active !in m.free
  {
    GoodFacts(m, chain, total);
    if m.s.current == Some(Tail(chain).tid) {
      assert OwnedApart(m.s, m.free, m.lost, chain[|chain| - 1].pid, total);
    }
  }

  /** Whoever awaits instance `c` noted exactly the memory `p` when it spawned it. */
  ghost predicate Noted(m: Machine, c: nat, p: Pending) {
    c < m.nextInstance && forall t: nat :: t in m.awaiting && m.awaiting[t].child == c ==> m.awaiting[t] == p
  }

  lemma StepKeepsNoted(m: Machine, a: Action, c: nat, p: Pending)
    requires Safe(m, a) && Noted(m, c, p)
    ensures Noted(Step(m, a), c, p)
  {
    hide Linked, PrepareSwitch, PrepareExit, CanExit, PrepareWait, SpawnChild;
  }

  lemma {:induction false} RunKeepsNoted(start: Machine, a: seq<Action>, b: seq<Action>, c: nat, p: Pending)
    requires Run(start, a).Some? && Noted(Run(start, a).value, c, p) && Run(start, a + b).Some?
    ensures Noted(Run(start, a + b).value, c, p)
    decreases |b|
  {
    hide Noted, Step, Safe, Offered, Run;
    if b == [] {
      assert a + b == a;
    } else {
      var n := |b| - 1;
      assert (a + b)[..|a + b| - 1] == a + b[..n] && (a + b)[|a + b| - 1] == b[n];
      RunEnds(start, a + b);
      RunKeepsNoted(start, a, b[..n], c, p);
      StepKeepsNoted(Run(start, a + b[..n]).value, b[n], c, p);
    }
  }

  /** The last step of a run. */
  lemma RunEnds(start: Machine, actions: seq<Action>)
    requires actions != [] && Run(start, actions).Some?
    ensures var before, last := Run(start, actions[..|actions| - 1]), actions[|actions| - 1];
            before.Some? && Safe(before.value, last) && Run(start, actions) == Some(Step(before.value, last))
  {
    hide Step, Safe, Offered;
  }

  /** Whatever is awaited has been numbered. */
  lemma AwaitedIsNumbered(m: Machine, chain: seq<Link>, t: nat)
    requires Members(m.s, chain) && Identities(m, chain) && t in m.awaiting
    ensures m.awaiting[t].child < m.nextInstance
  {
    var i :| 0 <= i < |chain| && chain[i].tid == t;
    if i < |chain| - 1 {
      assert AwaitsAt(m, chain, i);
    }
  }

  /** A wait that began with a spawn in `m0` and is about to return in `m1`: the free
      pages are those of `m0`, less what loads lost in between. */
  lemma MatchedSpawnAndExitRestoreMemory(
    root: nat, program: LoadedUserProgram, total: set<nat>, before: seq<Action>, m0: Machine,
    spawn: Action, rest: seq<Action>, m1: Machine)
    requires Reaches(root, program, total, before, m0) && Offered(m0, spawn) && Safe(m0, spawn)
    requires spawn.SpawnAndWait? && m0.s.current.value in Step(m0, spawn).awaiting
    requires Reaches(root, program, total, before + [spawn] + rest, m1) && Offered(m1, FinishWait)
    requires m1.awaiting[m1.s.current.value].child == m0.nextInstance
    ensures m0.lost <= m1.lost && m1.free == m0.free - (m1.lost - m0.lost)
  {
    var start, noted := Boot(root, program, total), Pending(m0.nextInstance, m0.free, m0.lost);
    var chain0 := RunKeeps(root, program, total, before, m0);
    assert (before + [spawn])[..|before|] == before;
    SpawnNotes(m0, spawn, chain0, total);
    hide Offered, Safe, Step, Invariant, BootReady;
    RunKeepsNoted(start, before + [spawn], rest, m0.nextInstance, noted);
    var chain := RunKeeps(root, program, total, before + [spawn] + rest, m1);
    FinisherSnapshot(m1, chain, total);
  }

  lemma SpawnNotes(m: Machine, spawn: Action, chain: seq<Link>, total: set<nat>)
    requires Invariant(m, chain, total) && Offered(m, spawn) && Safe(m, spawn) && spawn.SpawnAndWait?
    requires m.s.current.value in Step(m, spawn).awaiting
    ensures Noted(Step(m, spawn), m.nextInstance, Pending(m.nextInstance, m.free, m.lost))
  {
    var current := m.s.current.value;
    hide Step, Memory, Snapshots, Tables, Linked;
    forall t: nat | t in m.awaiting ensures m.awaiting[t].child < m.nextInstance {
      AwaitedIsNumbered(m, chain, t);
    }
    hide Good;
    SpawnAddsNote(m, spawn);
  }

  lemma SpawnAddsNote(m: Machine, spawn: Action)
    requires Safe(m, spawn) && spawn.SpawnAndWait?
    requires m.s.current.value !in m.awaiting && m.s.current.value in Step(m, spawn).awaiting
    requires forall t: nat :: t in m.awaiting ==> m.awaiting[t].child < m.nextInstance
    ensures Noted(Step(m, spawn), m.nextInstance, Pending(m.nextInstance, m.free, m.lost))
  {
    hide Linked, SpawnChild, PrepareWait;
  }

  lemma FinisherSnapshot(m: Machine, chain: seq<Link>, total: set<nat>)
    requires Invariant(m, chain, total) && Offered(m, FinishWait)
    ensures var p := m.awaiting[m.s.current.value];
            p.lost <= m.lost && m.free == p.free - (m.lost - p.lost)
  {
    FinisherIsTail(m, chain, total);
    var p, n := m.awaiting[m.s.current.value], |chain| - 1;
    assert Snapshot(m.s, m.lost, chain, n, p, total);
    hide Tables, Identities, Memory;
    forall x ensures x in m.free <==> x in p.free && !(x in m.lost && x !in p.lost) {
      FreeIsTheRest(m.s, m.free, m.lost, chain, total, x);
    }
  }

  // ---------------------------------------------------------------------------
  // What user processes carry, and when a spawn is refused.

  /** Every user process always has a cwd in normal form, a well-formed environment and
      three open standard streams. */
  lemma ProcessesStayInheritable(root: nat, program: LoadedUserProgram, total: set<nat>, actions: seq<Action>,
                                 m: Machine, p: nat)
    requires Reaches(root, program, total, actions, m) && m.up && UserProcess(m.s, p)
    ensures Paths.NormalForm(m.s.Process(p).cwd)
    ensures Environments.WellFormed(m.s.Process(p).env)
    ensures HasStdio(m.s.Process(p))
  {
    hide Reaches, Members, Waits, Cpu, Memory, Identities, Snapshots, Paths.NormalForm, Environments.WellFormed,
         HasStdio, SpaceOf;
    var chain := RunKeeps(root, program, total, actions, m);
    UserProcessesAreLinks(m.s, chain);
    var i :| 0 <= i < |chain| && chain[i].pid == p;
    assert Inheritable(m.s.Process(chain[i].pid));
  }

  /** A spawn is refused if and only if all process slots are taken, and then it changes nothing. */
  lemma SpawnRefusedIffFull(root: nat, program: LoadedUserProgram, total: set<nat>, actions: seq<Action>, m: Machine,
                            child: LoadedUserProgram, silent: bool)
    requires Reaches(root, program, total, actions, m) && Offered(m, SpawnAndWait(Loaded(child), silent))
    ensures Safe(m, Yield)
    ensures var m' := Step(m, SpawnAndWait(Loaded(child), silent));
            if forall p :: 0 <= p < MAX_PROCESSES ==> m.s.processes[p].Some?
            then m' == m
            else m'.nextInstance == m.nextInstance + 1 && m.s.current.value in m'.awaiting
  {
    hide Reaches, Memory, Identities, Snapshots, LoadMayDo, Members, Waits, Roles, Cpu, SpawnStep, SpawnChild,
         PrepareWait, Shaped, SpaceOf;
    var chain := RunKeeps(root, program, total, actions, m);
    GoodFacts(m, chain, total);
    TailIsNotWoken(m, chain, total);
    LinkedFacts(m.s);
    assert chain != [] by { TablesHaveTail(m.s, chain); }
    SpawnFailsOnlyWhenFull(m.s, chain, child, silent);
    hide Linked;
    LoadedFacts(m.free, child);
    if FirstFree(m.s.processes) == MAX_PROCESSES {
      RefusedSpawnChangesNothing(m, child, silent);
    } else {
      assert m.s.processes[FirstFree(m.s.processes)].None?;
      var link, _, s1 := SpawnTables(m.s, chain, child, silent);
      SpawnedMachine(m, child, silent, Tail(chain), s1, link);
    }
  }

  lemma TablesHaveTail(s: Sched, chain: seq<Link>)
    requires Tables(s, chain, s.current)
    ensures chain != []
  {
  }

  // ---------------------------------------------------------------------------
  // Fairness of the round robin, for any linked tables.

  ghost function YieldTimes(s: Sched, k: nat): (r: Sched)
    requires Linked(s)
    ensures Linked(r)
  {
    if k == 0 then s
    else
      SwitchKeepsLinked(YieldTimes(s, k - 1), false);
      PrepareSwitch(YieldTimes(s, k - 1), false).0
  }

  /** A yield enters an eligible thread, or brings the scan strictly closer to it. */
  lemma YieldAdvances(s: Sched, t: nat)
    requires Linked(s) && s.current.Some? && Eligible(s, t) && s.current != Some(t)
    ensures var s' := PrepareSwitch(s, false).0;
            || s'.current == Some(t)
            || (s'.current.Some? && Eligible(s', t) && Distance(s'.current, t) < Distance(s.current, t))
  {
    NextIsNearest(s, s.current);
    var c, n := s.current.value, NextRunnable(s, s.current).value;
    DistanceAdds(c, n, t);
    hide NextRunnable, Distance;
  }

  lemma DistanceAdds(c: nat, n: nat, t: nat)
    requires c < MAX_THREADS && n < MAX_THREADS && t < MAX_THREADS && t != c
    requires Distance(Some(c), n) <= Distance(Some(c), t)
    ensures n != c
    ensures n != t ==> Distance(Some(n), t) < Distance(Some(c), t)
  {
    DistanceFrom(c, n);
    DistanceFrom(c, t);
    DistanceFrom(n, t);
    hide Distance;
  }

  lemma DistanceFrom(c: nat, t: nat)
    requires c < MAX_THREADS && t < MAX_THREADS
    ensures Distance(Some(c), t) == if t > c then t - c - 1 else t + MAX_THREADS - 1 - c
  {
    assert ScanStart(Some(c)) == if c == MAX_THREADS - 1 then 0 else c + 1;
  }

  lemma {:induction false} YieldsCompose(s: Sched, k: nat)
    requires Linked(s) && Linked(PrepareSwitch(s, false).0)
    ensures YieldTimes(s, k + 1) == YieldTimes(PrepareSwitch(s, false).0, k)
  {
    hide PrepareSwitch, Linked;
    if k > 0 {
      YieldsCompose(s, k - 1);
    }
  }

  /** An eligible thread runs within as many yields as its distance, and so within MAX_THREADS. */
  lemma {:induction false} EligibleThreadRuns(s: Sched, t: nat) returns (k: nat)
    requires Linked(s) && s.current.Some? && Eligible(s, t)
    ensures k <= MAX_THREADS && YieldTimes(s, k).current == Some(t)
    ensures s.current != Some(t) ==> k <= Distance(s.current, t) + 1
    decreases Distance(s.current, t)
  {
    if s.current == Some(t) { return 0; }
    var s' := PrepareSwitch(s, false).0;
    SwitchKeepsLinked(s, false);
    YieldAdvances(s, t);
    hide PrepareSwitch, Linked, Eligible;
    if s'.current == Some(t) {
      k := 1;
      YieldsCompose(s, 0);
    } else {
      var j := EligibleThreadRuns(s', t);
      k := j + 1;
      YieldsCompose(s, j);
    }
  }

  /** The action leaves the CPU with the thread that asks for it. */
  ghost predicate Stays(m: Machine, a: Action)
    requires Safe(m, a)
  {
    match a
    case Yield => false
    case Exit(_) => false
    case SpawnAndWait(LoadFailed(_), _) => true
    case SpawnAndWait(Loaded(program), silent) => SpawnChild(m.s, m.s.current.value, program, silent).None?
    case FinishWait => true
    case Chdir(_, _) => true
    case ChangeEnv(_) => true
  }

  lemma StayingKeepsTheScan(m: Machine, a: Action, t: nat)
    requires Safe(m, a) && Stays(m, a)
    ensures var s' := Step(m, a).s; s'.current == m.s.current && (Eligible(s', t) <==> Eligible(m.s, t))
  {
    hide Shaped, SpawnChild, Process.SetCwd, Paths.Normalized, Environments.Apply;
  }

  ghost function Yields(actions: seq<Action>): nat {
    if actions == [] then 0
    else Yields(actions[..|actions| - 1]) + if actions[|actions| - 1].Yield? then 1 else 0
  }

  /** Every action of the run is a yield or stays. */
  ghost predicate YieldsOrStays(m: Machine, actions: seq<Action>) {
    actions != [] ==>
      var before, last := Run(m, actions[..|actions| - 1]), actions[|actions| - 1];
      && YieldsOrStays(m, actions[..|actions| - 1])
      && before.Some? && Safe(before.value, last) && (last.Yield? || Stays(before.value, last))
  }

  /** A thread that can run does run before the run has yielded more often than its distance, whatever
      else the running threads do in between without leaving the CPU. */
  lemma EligibleThreadRunsAmidst(m: Machine, actions: seq<Action>, t: nat) returns (k: nat)
    requires m.s.current.Some? && Eligible(m.s, t) && t < MAX_THREADS
    requires Run(m, actions).Some? && YieldsOrStays(m, actions) && Yields(actions) > Distance(m.s.current, t)
    ensures k <= |actions| && Run(m, actions[..k]).Some? && Run(m, actions[..k]).value.s.current == Some(t)
  {
    hide Run, YieldsOrStays, Eligible, Distance;
    var ran := RanOrCameCloser(m, actions, t);
    k := ran.value;
  }

  lemma {:induction false} RanOrCameCloser(m: Machine, actions: seq<Action>, t: nat) returns (ran: Option<nat>)
    requires m.s.current.Some? && Eligible(m.s, t) && t < MAX_THREADS
    requires Run(m, actions).Some? && YieldsOrStays(m, actions)
    ensures ran.Some? ==>
              ran.value <= |actions| && Run(m, actions[..ran.value]).Some? &&
                  Run(m, actions[..ran.value]).value.s.current == Some(t)
    ensures ran.None? ==>
              var s := Run(m, actions).value.s;
              s.current.Some? && Eligible(s, t) && Distance(s.current, t) + Yields(actions) <= Distance(m.s.current, t)
    decreases |actions|
  {
    hide Step, Safe, Offered, Eligible, Distance, Stays;
    ran := None;
    if actions != [] {
      var n := |actions| - 1;
      ran := RanOrCameCloser(m, actions[..n], t);
      var before := Run(m, actions[..n]).value;
      if ran.Some? {
        assert actions[..n][..ran.value] == actions[..ran.value];
      } else if before.s.current == Some(t) {
        ran := Some(n);
      } else {
        StepComesCloser(before, actions[n], t);
        if Step(before, actions[n]).s.current == Some(t) {
          ran := Some(n + 1);
          assert actions[..n + 1] == actions;
        }
      }
    }
  }

  lemma StepComesCloser(m: Machine, a: Action, t: nat)
    requires Safe(m, a) && (a.Yield? || Stays(m, a)) && Eligible(m.s, t) && t < MAX_THREADS && m.s.current != Some(t)
    ensures var s' := Step(m, a).s;
            || s'.current == Some(t)
            || (s'.current.Some? && Eligible(s', t) &&
                 Distance(s'.current, t) + (if a.Yield? then 1 else 0) <= Distance(m.s.current, t))
  {
    hide Linked, Eligible, Distance, Stays, PrepareSwitch;
    if a.Yield? {
      YieldAdvances(m.s, t);
    } else {
      StayingKeepsTheScan(m, a, t);
    }
  }

  /** The yields of a run are the yields of its tables. */
  lemma {:induction false} RunOfYields(m: Machine, k: nat)
    requires Linked(m.s) && Run(m, seq(k, _ => Yield)).Some?
    ensures Run(m, seq(k, _ => Yield)).value.s == YieldTimes(m.s, k)
    decreases k
  {
    if k > 0 {
      assert seq(k, _ => Yield)[..k - 1] == seq(k - 1, _ => Yield);
      RunOfYields(m, k - 1);
    }
  }
}
