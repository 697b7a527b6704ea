// Whole runs of the kernel from its boot configuration: which processes and
// threads exist, who waits for whom, which exit status reaches which parent,
// and who owns which physical page (kernel/kernel/src/scheduler/core.rs,
// services.rs and kernel/kernel/src/main.rs).
module SchedulerRuns {
  import opened Prelude
  import opened Processes
  import opened Scheduling
  import Environments
  import Paths

  // ---------------------------------------------------------------------------
  // The machine: the scheduler, the free pages and the active root, together
  // with what an observer would write down. Slots are reused, so the observer
  // numbers process instances and notes which instance a blocked thread awaits.

  datatype Event =
    | Spawned(parent: nat, child: nat)
    | ExitedWith(instance: nat, status: nat)
    | WaitReturned(parent: nat, child: nat, result: Option<nat>)

  /** A wait in progress: the instance spawned, and the memory as it was before. */
  datatype Pending = Pending(child: nat, free: set<nat>, lost: set<nat>)

  datatype Machine = Machine(
    s: Sched, up: bool, free: set<nat>, lost: set<nat>, active: nat,
    instance: map<nat, nat>, awaiting: map<nat, Pending>, nextInstance: nat, log: seq<Event>)

  /** What reading and loading the executable came to. */
  datatype Load = LoadFailed(lost: set<nat>) | Loaded(program: LoadedUserProgram)

  datatype Action =
    | Yield
    | SpawnAndWait(load: Load, silent: bool)
    | FinishWait
    | Exit(status: nat)
    | Chdir(path: Bytes, isDirectory: bool)
    | ChangeEnv(op: Environments.Operation)

  ghost predicate Distinct(pages: seq<nat>) {
    forall i, j :: 0 <= i < j < |pages| ==> pages[i] != pages[j]
  }

  /** What the loader may do with the free pages: a failed load loses at most two
      of them, a successful one turns distinct free pages into owned ones. */
  ghost predicate LoadMayDo(free: set<nat>, load: Load) {
    match load
    case LoadFailed(lost) => lost <= free && |lost| <= 2
    case Loaded(program) =>
      Distinct(program.ownedPages) && Elements(program.ownedPages) <= free && program.addressSpace in program.ownedPages
  }

  /** What the running code may ask for. A thread inside `wait_for_child` can only
      leave it; kernel threads only yield. */
  ghost predicate Offered(m: Machine, a: Action) {
    && m.up
    && m.s.current.Some? && m.s.HasThread(m.s.current.value)
    && var current := m.s.current.value;
       && (current in m.awaiting <==> a.FinishWait?)
       && (m.s.Thread(current).start.Kernel? ==> a.Yield?)
       && (a.SpawnAndWait? ==> LoadMayDo(m.free, a.load))
  }

  /** No `expect` of the source fails on this request. */
  ghost predicate Safe(m: Machine, a: Action) {
    && Linked(m.s)
    && m.s.current.Some?
    && m.s.OwnerOf(m.s.current.value) in m.instance
    && (a.FinishWait? ==> m.s.current.value in m.awaiting)
    && (a.Exit? ==> CanExit(m.s))
  }

  ghost function CurrentInstance(m: Machine): nat
    requires Safe(m, Yield)
  {
    m.instance[m.s.OwnerOf(m.s.current.value)]
  }

  ghost function Step(m: Machine, a: Action): Machine
    requires Safe(m, a)
  {
    match a
    case Yield => YieldStep(m)
    case SpawnAndWait(load, silent) =>
      (match load
       case LoadFailed(lost) => m.(free := m.free - lost, lost := m.lost + lost)
       case Loaded(program) => SpawnStep(m, program, silent))
    case FinishWait => FinishStep(m)
    case Exit(status) => ExitStep(m, status)
    case Chdir(path, isDirectory) => ChdirStep(m, path, isDirectory)
    case ChangeEnv(op) => EnvStep(m, op)
  }

  ghost function YieldStep(m: Machine): Machine
    requires Safe(m, Yield)
  {
    var (s', switch) := PrepareSwitch(m.s, false);
    m.(s := s', active := if switch.Some? then switch.value.space else m.active)
  }

  /** Loaded pages leave the free set; a refused spawn releases them again. */
  ghost function SpawnStep(m: Machine, program: LoadedUserProgram, silent: bool): Machine
    requires Safe(m, Yield)
  {
    var current := m.s.current.value;
    var taken := m.(free := m.free - Elements(program.ownedPages));
    var spawned := SpawnChild(m.s, current, program, silent);
    if spawned.None? then taken.(free := taken.free + Elements(program.ownedPages)) else
    var (s', child) := spawned.value;
    var started := taken.(
      s := s', instance := m.instance[child := m.nextInstance], nextInstance := m.nextInstance + 1,
      log := m.log + [Spawned(CurrentInstance(m), m.nextInstance)]);
    SpawnKeepsLinked(m.s, current, program, silent);
    var (waiting, switch) := PrepareWait(s', child);
    if switch.None? then
      started.(s := waiting, log := started.log + [WaitReturned(CurrentInstance(m), m.nextInstance, None)])
    else
      started.(s := waiting, active := switch.value.space, 
                awaiting := m.awaiting[current := Pending(m.nextInstance, m.free, m.lost)])
  }

  ghost function FinishStep(m: Machine): Machine
    requires Safe(m, FinishWait)
  {
    var current := m.s.current.value;
    var (s', result) := Scheduling.TakeWaitResult(m.s);
    m.(s := s', awaiting := m.awaiting - {current},
       log := m.log + [WaitReturned(CurrentInstance(m), m.awaiting[current].child, result)])
  }

  /** The next space is activated before the pages are released; shutdown releases nothing. */
  ghost function ExitStep(m: Machine, status: nat): Machine
    requires Safe(m, Exit(status))
  {
    var pid := m.s.OwnerOf(m.s.current.value);
    var (s', exit) := PrepareExit(m.s, status);
    var left := m.(s := s', instance := m.instance - {pid}, log := m.log + [ExitedWith(CurrentInstance(m), status)]);
    match exit
    case None => left.(up := false)
    case Some(Shutdown(_)) => left.(up := false)
    case Some(SwitchTo(_, space, released)) => left.(active := space, free := m.free + Elements(released))
  }

  ghost function ChdirStep(m: Machine, path: Bytes, isDirectory: bool): Machine
    requires Safe(m, Yield)
  {
    var pid := m.s.OwnerOf(m.s.current.value);
    var process := m.s.Process(pid);
    var normal := Paths.Normalized(process.cwd, path, Paths.MAX_CWD_LEN);
    if normal.None? || !isDirectory || process.SetCwd(normal.value).None? then m
    else m.(s := m.s.WithProcess(pid, process.SetCwd(normal.value).value))
  }

  ghost function EnvStep(m: Machine, op: Environments.Operation): Machine
    requires Safe(m, Yield)
  {
    var pid := m.s.OwnerOf(m.s.current.value);
    var process := m.s.Process(pid);
    m.(s := m.s.WithProcess(pid, process.(env := Environments.Apply(process.env, op))))
  }

  /** The machine after a sequence of requests; None when one was not offered or would fail. */
  ghost function Run(start: Machine, actions: seq<Action>): Option<Machine> {
    if actions == [] then Some(start)
    else
      var before := Run(start, actions[..|actions| - 1]);
      var last := actions[|actions| - 1];
      if before.Some? && Offered(before.value, last) && Safe(before.value, last)
      then Some(Step(before.value, last)) else None
  }

  // ---------------------------------------------------------------------------
  // The invariant. User processes form one chain of (process slot, thread slot),
  // each thread blocked on the next process.

  datatype Link = Link(pid: nat, tid: nat)

  const TERMINAL: nat := 0
  const IDLE: nat := 2

  ghost predicate OnChain(chain: seq<Link>, t: nat) {
    exists i :: 0 <= i < |chain| && chain[i].tid == t
  }

  ghost predicate PidOnChain(chain: seq<Link>, p: nat) {
    exists i :: 0 <= i < |chain| && chain[i].pid == p
  }

  /** A kernel-process thread that is not blocked. */
  ghost predicate KernelThread(s: Sched, t: nat) {
    s.HasThread(t) && s.OwnerOf(t) == 0 && s.Thread(t).start.Kernel? && s.Thread(t).state != Blocked
  }

  ghost predicate LinkOk(s: Sched, link: Link) {
    && 0 < link.pid && s.HasProcess(link.pid)
    && link.tid != TERMINAL && link.tid != IDLE
    && s.HasThread(link.tid) && s.OwnerOf(link.tid) == link.pid && s.Thread(link.tid).start.User?
  }

  /** The live slots are exactly the kernel's and the chain's. */
  ghost predicate Members(s: Sched, chain: seq<Link>) {
    && Shaped(s)
    && s.HasProcess(0) && s.idle == Some(IDLE)
    && KernelThread(s, TERMINAL) && KernelThread(s, IDLE)
    && chain != [] && chain[0] == Link(1, 1)
    && (forall i :: 0 <= i < |chain| ==> LinkOk(s, chain[i]))
    && (forall i, j :: 0 <= i < j < |chain| ==> chain[i].pid != chain[j].pid && chain[i].tid != chain[j].tid)
    && (forall t :: 0 <= t < |s.threads| && s.threads[t].Some? ==> t == TERMINAL || t == IDLE || OnChain(chain, t))
    && (forall p :: 0 <= p < |s.processes| && s.processes[p].Some? ==> p == 0 || PidOnChain(chain, p))
  }

  ghost predicate Parked(s: Sched, link: Link, child: Link)
    requires s.HasThread(link.tid) && s.HasProcess(child.pid)
  {
    && s.Thread(link.tid).state == Blocked
    && s.Thread(link.tid).blockReason == WaitingForChild(child.pid)
    && s.Thread(link.tid).waitResult == None
    && s.Process(child.pid).waitingThread == Some(link.tid)
  }

  ghost predicate ParkedAt(s: Sched, chain: seq<Link>, i: nat)
    requires Members(s, chain) && i + 1 < |chain|
  {
    Parked(s, chain[i], chain[i + 1])
  }

  /** Every link but the last is blocked on its successor. */
  ghost predicate Waits(s: Sched, chain: seq<Link>)
    requires Members(s, chain)
  {
    && (forall i :: 0 <= i < |chain| - 1 ==> ParkedAt(s, chain, i))
    && s.Thread(Tail(chain).tid).state != Blocked
  }

  ghost function Tail(chain: seq<Link>): Link
    requires chain != []
  {
    chain[|chain| - 1]
  }

  /** Only the bootstrap process shuts the system down and only it has no waiter;
      stdio, cwd and environment stay inheritable. */
  ghost predicate Inheritable(p: Process) {
    && HasStdio(p)
    && Paths.NormalForm(p.cwd)
    && Environments.WellFormed(p.env)
  }

  ghost predicate Roles(s: Sched, chain: seq<Link>)
    requires Members(s, chain)
  {
    && s.Process(1).exitAction == ShutdownSystem && s.Process(1).waitingThread == None
    && (forall i :: 1 <= i < |chain| ==> s.Process(chain[i].pid).exitAction == Continue)
    && (forall i :: 0 <= i < |chain| ==> Inheritable(s.Process(chain[i].pid)))
  }

  /** `holder` is the one thread on the CPU. */
  ghost predicate Cpu(s: Sched, chain: seq<Link>, holder: Option<nat>)
    requires Members(s, chain)
  {
    && (s.Thread(TERMINAL).state == OnCpu <==> holder == Some(TERMINAL))
    && (s.Thread(IDLE).state == OnCpu <==> holder == Some(IDLE))
    && (s.Thread(Tail(chain).tid).state == OnCpu <==> holder == Some(Tail(chain).tid))
    && (holder.Some? ==> holder.value == TERMINAL || holder.value == IDLE || holder.value == Tail(chain).tid)
  }

  ghost predicate Tables(s: Sched, chain: seq<Link>, holder: Option<nat>) {
    Members(s, chain) && Waits(s, chain) && Roles(s, chain) && Cpu(s, chain, holder)
  }

  // ---------------------------------------------------------------------------
  // Consequences of the invariant, in the scheduler's own terms.

  /** A thread that may run is a kernel thread or the deepest user thread. */
  lemma ReadyThreads(s: Sched, chain: seq<Link>, t: nat)
    requires Members(s, chain) && Waits(s, chain)
    ensures Ready(s, t) <==> t == TERMINAL || t == IDLE || t == Tail(chain).tid
  {
    assert LinkOk(s, Tail(chain));
    forall i | 0 <= i < |chain| - 1
      ensures !Ready(s, chain[i].tid)
    {
      assert ParkedAt(s, chain, i);
    }
    assert Ready(s, t) ==> t == TERMINAL || t == IDLE || OnChain(chain, t);
  }

  lemma MembersAreLinked(s: Sched, chain: seq<Link>)
    requires Members(s, chain)
    requires s.current.Some? ==> s.HasThread(s.current.value)
    ensures Linked(s)
  {
    forall t | 0 <= t < |s.threads| && s.threads[t].Some?
      ensures s.HasProcess(s.threads[t].value.processId)
    {
      if t != TERMINAL && t != IDLE {
        var i :| 0 <= i < |chain| && chain[i].tid == t;
        assert LinkOk(s, chain[i]);
      }
    }
  }

  lemma TailCanExit(s: Sched, chain: seq<Link>)
    requires Tables(s, chain, s.current) && s.current == Some(Tail(chain).tid)
    ensures CanExit(s)
  {
    MembersAreLinked(s, chain);
    var tail := Tail(chain);
    assert LinkOk(s, tail);
    forall t | 0 <= t < |s.threads| && s.threads[t].Some? && s.threads[t].value.processId == tail.pid
      ensures t == tail.tid
    {
      if t != TERMINAL && t != IDLE {
        var i :| 0 <= i < |chain| && chain[i].tid == t;
        assert LinkOk(s, chain[i]);
      }
    }
    if |chain| > 1 {
      assert ParkedAt(s, chain, |chain| - 2) && LinkOk(s, chain[|chain| - 2]);
    }
  }

  // ---------------------------------------------------------------------------
  // Table updates and the invariant.

  /** What membership says about one link, and that no other link shares its slots. */
  lemma LinkFacts(s: Sched, chain: seq<Link>, i: nat)
    requires Members(s, chain) && i < |chain|
    ensures LinkOk(s, chain[i])
    ensures forall j :: 0 <= j < |chain| && j != i ==> chain[j].pid != chain[i].pid && chain[j].tid != chain[i].tid
  {
  }

  lemma RewriteKeepsMembers(s: Sched, chain: seq<Link>, t: nat, thread: Thread)
    requires Members(s, chain) && s.HasThread(t)
    requires thread.id == t && thread.processId == s.OwnerOf(t) && thread.start == s.Thread(t).start
    requires t == TERMINAL || t == IDLE ==> thread.state != Blocked
    ensures Members(s.WithThread(t, thread), chain)
  {
    var s' := s.WithThread(t, thread);
    forall i | 0 <= i < |chain| ensures LinkOk(s', chain[i]) {
      assert LinkOk(s, chain[i]);
    }
  }

  /** Only the tail and the kernel threads are rewritten, so every wait stays. */
  lemma RewriteKeepsWaits(s: Sched, chain: seq<Link>, t: nat, thread: Thread)
    requires Members(s, chain) && Waits(s, chain) && s.HasThread(t)
    requires Members(s.WithThread(t, thread), chain)
    requires t == TERMINAL || t == IDLE || t == Tail(chain).tid
    requires thread.state != Blocked
    ensures Waits(s.WithThread(t, thread), chain)
  {
    var s' := s.WithThread(t, thread);
    LinkFacts(s, chain, |chain| - 1);
    forall i | 0 <= i < |chain| - 1 ensures ParkedAt(s', chain, i) {
      LinkFacts(s, chain, i);
      LinkFacts(s, chain, i + 1);
      hide Members;
      assert ParkedAt(s, chain, i);
    }
  }

  /** A waiting thread, a kernel thread or the tail only changes between Runnable and OnCpu. */
  lemma StateKeepsTables(s: Sched, chain: seq<Link>, t: nat, state: ThreadState)
    requires Members(s, chain) && Waits(s, chain) && Roles(s, chain)
    requires t == TERMINAL || t == IDLE || t == Tail(chain).tid
    requires state != Blocked
    ensures s.HasThread(t)
    ensures var s' := s.WithThread(t, s.Thread(t).(state := state));
            Members(s', chain) && Waits(s', chain) && Roles(s', chain)
  {
    LinkFacts(s, chain, |chain| - 1);
    var thread := s.Thread(t).(state := state);
    assert s.Thread(t).id == t;
    RewriteKeepsMembers(s, chain, t, thread);
    hide Members;
    RewriteKeepsWaits(s, chain, t, thread);
  }

  lemma ResumeKeepsTables(s: Sched, chain: seq<Link>, n: nat)
    requires Tables(s, chain, None)
    requires n == TERMINAL || n == IDLE || n == Tail(chain).tid
    ensures s.HasThread(n) && Tables(Resume(s, n), chain, Some(n))
  {
    StateKeepsTables(s, chain, n, OnCpu);
    assert LinkOk(s, Tail(chain));
    var s' := s.WithThread(n, s.Thread(n).(state := OnCpu));
    CurrentIsNotTables(s', chain, Some(n), Some(n));
  }

  /** The `current` field is constrained only through the holder. */
  lemma CurrentIsNotTables(s: Sched, chain: seq<Link>, holder: Option<nat>, current: Option<nat>)
    requires Tables(s, chain, holder)
    ensures Tables(s.(current := current), chain, holder)
  {
    hide Inheritable, Shaped;
    var s' := s.(current := current);
    CurrentIsNotMembers(s, chain, current);
    forall i | 0 <= i < |chain| - 1 ensures ParkedAt(s', chain, i) {
      assert ParkedAt(s, chain, i);
    }
    LinkFacts(s, chain, |chain| - 1);
    hide Members;
  }

  lemma CurrentIsNotMembers(s: Sched, chain: seq<Link>, current: Option<nat>)
    requires Members(s, chain)
    ensures Members(s.(current := current), chain)
  {
    var s' := s.(current := current);
    forall i | 0 <= i < |chain| ensures LinkOk(s', chain[i]) {
      assert LinkOk(s, chain[i]);
    }
  }

  lemma ParkKeepsTables(s: Sched, chain: seq<Link>, c: nat)
    requires Tables(s, chain, Some(c))
    ensures s.HasThread(c)
    ensures Tables(s.WithThread(c, s.Thread(c).(state := Runnable)), chain, None)
  {
    StateKeepsTables(s, chain, c, Runnable);
    assert LinkOk(s, Tail(chain));
  }

  /** A process record may change its cwd and environment. */
  lemma ProcessKeepsTables(s: Sched, chain: seq<Link>, holder: Option<nat>, i: nat, process: Process)
    requires Tables(s, chain, holder) && i < |chain|
    requires s.HasProcess(chain[i].pid)
    requires var before := s.Process(chain[i].pid);
             process == before.(cwd := process.cwd, env := process.env) && Inheritable(process)
    ensures Tables(s.WithProcess(chain[i].pid, process), chain, holder)
  {
    hide Members, Waits, Roles, Inheritable;
    var s' := s.WithProcess(chain[i].pid, process);
    LinkFacts(s, chain, i);
    LinkFacts(s, chain, |chain| - 1);
    MemberShape(s, chain, chain[i].pid);
    ProcessKeepsMembers(s, chain, i, process);
    ProcessKeepsWaits(s, s', chain, i);
    ProcessKeepsRoles(s, s', chain, i);
  }

  lemma MemberShape(s: Sched, chain: seq<Link>, p: nat)
    requires Members(s, chain) && s.HasProcess(p)
    ensures s.Process(p).id == p && |s.Process(p).handles| == MAX_PROCESS_HANDLES
  {
  }

  lemma ProcessKeepsWaits(s: Sched, s': Sched, chain: seq<Link>, i: nat)
    requires Members(s, chain) && Members(s', chain) && Waits(s, chain) && i < |chain|
    requires s.HasProcess(chain[i].pid) && s'.HasProcess(chain[i].pid)
    requires s' == s.WithProcess(chain[i].pid, s'.Process(chain[i].pid))
    requires s'.Process(chain[i].pid).waitingThread == s.Process(chain[i].pid).waitingThread
    ensures Waits(s', chain)
  {
    forall k | 0 <= k < |chain| - 1 ensures ParkedAt(s', chain, k) {
      LinkFacts(s, chain, k);
      LinkFacts(s, chain, k + 1);
      hide Members;
      assert ParkedAt(s, chain, k);
    }
    LinkFacts(s, chain, |chain| - 1);
  }

  lemma ProcessKeepsRoles(s: Sched, s': Sched, chain: seq<Link>, i: nat)
    requires Members(s, chain) && Members(s', chain) && Roles(s, chain) && i < |chain|
    requires s.HasProcess(chain[i].pid) && s'.HasProcess(chain[i].pid)
    requires s' == s.WithProcess(chain[i].pid, s'.Process(chain[i].pid)) && Inheritable(s'.Process(chain[i].pid))
    requires s'.Process(chain[i].pid).waitingThread == s.Process(chain[i].pid).waitingThread
    requires s'.Process(chain[i].pid).exitAction == s.Process(chain[i].pid).exitAction
    ensures Roles(s', chain)
  {
    hide Inheritable, Shaped;
    LinkFacts(s, chain, 0);
    forall k | 0 <= k < |chain|
      ensures s'.Process(chain[k].pid) == if k == i then s'.Process(chain[i].pid) else s.Process(chain[k].pid)
    {
      LinkFacts(s, chain, k);
    }
  }

  lemma ProcessKeepsMembers(s: Sched, chain: seq<Link>, i: nat, process: Process)
    requires Members(s, chain) && i < |chain| && s.HasProcess(chain[i].pid)
    requires process.id == chain[i].pid && |process.handles| == MAX_PROCESS_HANDLES
    ensures Members(s.WithProcess(chain[i].pid, process), chain)
  {
    var s' := s.WithProcess(chain[i].pid, process);
    forall k | 0 <= k < |chain| ensures LinkOk(s', chain[k]) {
      assert LinkOk(s, chain[k]);
    }
  }

  /** The tail's wait result may be consumed. */
  lemma TakeKeepsTables(s: Sched, chain: seq<Link>, holder: Option<nat>)
    requires Tables(s, chain, holder)
    ensures var t := Tail(chain).tid;
            s.HasThread(t) && Tables(s.WithThread(t, s.Thread(t).(waitResult := None)), chain, holder)
  {
    var t := Tail(chain).tid;
    LinkFacts(s, chain, |chain| - 1);
    var thread := s.Thread(t).(waitResult := None);
    assert thread.id == t;
    RewriteKeepsMembers(s, chain, t, thread);
    hide Members;
    RewriteKeepsWaits(s, chain, t, thread);
  }

  /** The state once a child and its thread are stored and the parent is blocked on it. */
  ghost function Adopted(s: Sched, parent: nat, slot: nat, child: Process, tslot: nat, thread: Thread): Sched
    requires s.HasThread(parent) && slot < |s.processes| && tslot < |s.threads|
  {
    s.(processes := s.processes[slot := Some(child)],
       threads := s.threads[tslot := Some(thread)][parent := Some(s.Thread(parent).BlockForChild(slot))])
  }

  ghost predicate FreshChild(s: Sched, parent: nat, slot: nat, child: Process, tslot: nat, thread: Thread) {
    && slot < |s.processes| && s.processes[slot].None? && child.id == slot
    && |child.handles| == MAX_PROCESS_HANDLES && Inheritable(child)
    && child.waitingThread == Some(parent) && child.exitAction == Continue
    && tslot < |s.threads| && s.threads[tslot].None?
    && thread.id == tslot && thread.processId == slot && thread.start.User? && thread.state == Runnable
  }

  lemma AdoptKeepsMembers(s: Sched, chain: seq<Link>, slot: nat, child: Process, tslot: nat, thread: Thread)
    requires Members(s, chain) && FreshChild(s, Tail(chain).tid, slot, child, tslot, thread)
    ensures s.HasThread(Tail(chain).tid)
    ensures Members(Adopted(s, Tail(chain).tid, slot, child, tslot, thread), chain + [Link(slot, tslot)])
  {
    hide LinkOk, OnChain, PidOnChain, Inheritable;
    AdoptKeepsLinks(s, chain, slot, child, tslot, thread);
    var s' := Adopted(s, Tail(chain).tid, slot, child, tslot, thread);
    var chain' := chain + [Link(slot, tslot)];
    forall t | 0 <= t < |s'.threads| && s'.threads[t].Some? && t != TERMINAL && t != IDLE
      ensures OnChain(chain', t)
    {
      CoveredAfterPush(s, chain, Link(slot, tslot), t);
    }
    forall p | 0 <= p < |s'.processes| && s'.processes[p].Some? && p != 0
      ensures PidOnChain(chain', p)
    {
      PidCoveredAfterPush(s, chain, Link(slot, tslot), p);
    }
  }

  lemma AdoptKeepsLinks(s: Sched, chain: seq<Link>, slot: nat, child: Process, tslot: nat, thread: Thread)
    requires Members(s, chain) && FreshChild(s, Tail(chain).tid, slot, child, tslot, thread)
    ensures s.HasThread(Tail(chain).tid) && Tail(chain).tid != TERMINAL && Tail(chain).tid != IDLE
    ensures var s' := Adopted(s, Tail(chain).tid, slot, child, tslot, thread);
            forall i :: 0 <= i <= |chain| ==> LinkOk(s', (chain + [Link(slot, tslot)])[i])
    ensures forall i :: 0 <= i < |chain| ==> chain[i].pid != slot && chain[i].tid != tslot
  {
    hide OnChain, PidOnChain, Inheritable;
    LinkFacts(s, chain, |chain| - 1);
    var s', chain' := Adopted(s, Tail(chain).tid, slot, child, tslot, thread), chain + [Link(slot, tslot)];
    forall i | 0 <= i <= |chain| ensures LinkOk(s', chain'[i]) {
      if i < |chain| { assert LinkOk(s, chain[i]); }
    }
    forall i | 0 <= i < |chain| ensures chain[i].pid != slot && chain[i].tid != tslot {
      assert LinkOk(s, chain[i]);
    }
  }

  lemma CoveredAfterPush(s: Sched, chain: seq<Link>, link: Link, t: nat)
    requires Members(s, chain)
    requires t < |s.threads| && (s.threads[t].Some? || t == link.tid) && t != TERMINAL && t != IDLE
    ensures OnChain(chain + [link], t)
  {
    var chain' := chain + [link];
    if t == link.tid {
      assert chain'[|chain|].tid == t;
    } else {
      var i :| 0 <= i < |chain| && chain[i].tid == t;
      assert chain'[i].tid == t;
    }
  }

  lemma PidCoveredAfterPush(s: Sched, chain: seq<Link>, link: Link, p: nat)
    requires Members(s, chain)
    requires p < |s.processes| && (s.processes[p].Some? || p == link.pid) && p != 0
    ensures PidOnChain(chain + [link], p)
  {
    var chain' := chain + [link];
    if p == link.pid {
      assert chain'[|chain|].pid == p;
    } else {
      var i :| 0 <= i < |chain| && chain[i].pid == p;
      assert chain'[i].pid == p;
    }
  }

  lemma AdoptKeepsWaits(s: Sched, chain: seq<Link>, slot: nat, child: Process, tslot: nat, thread: Thread)
    requires chain != [] && Members(s, chain) && Waits(s, chain)
    requires s.HasThread(Tail(chain).tid) && s.Thread(Tail(chain).tid).waitResult == None
    requires FreshChild(s, Tail(chain).tid, slot, child, tslot, thread)
    requires Members(Adopted(s, Tail(chain).tid, slot, child, tslot, thread), chain + [Link(slot, tslot)])
    ensures Waits(Adopted(s, Tail(chain).tid, slot, child, tslot, thread), chain + [Link(slot, tslot)])
  {
    hide Members, Adopted, Parked;
    var tail, link := Tail(chain), Link(slot, tslot);
    var s', chain' := Adopted(s, tail.tid, slot, child, tslot, thread), chain + [link];
    assert Tail(chain') == link;
    forall i | 0 <= i < |chain'| - 1 ensures ParkedAt(s', chain', i) {
      LinkFacts(s, chain, i);
      if i < |chain| - 1 {
        LinkFacts(s, chain, i + 1);
        assert ParkedAt(s, chain, i);
        AdoptKeepsParked(s, tail.tid, slot, child, tslot, thread, chain[i], chain[i + 1]);
      } else {
        AdoptParks(s, tail, slot, child, tslot, thread);
      }
    }
    LinkFacts(s, chain, |chain| - 1);
    AdoptParks(s, tail, slot, child, tslot, thread);
  }

  lemma AdoptKeepsParked(s: Sched, parent: nat, slot: nat, child: Process, tslot: nat, thread: Thread, link: Link,
                         next: Link)
    requires s.HasThread(parent) && FreshChild(s, parent, slot, child, tslot, thread)
    requires LinkOk(s, link) && LinkOk(s, next) && link.tid != parent && Parked(s, link, next)
    ensures var s' := Adopted(s, parent, slot, child, tslot, thread);
            s'.HasThread(link.tid) && s'.HasProcess(next.pid) && Parked(s', link, next)
  {
  }

  lemma AdoptParks(s: Sched, tail: Link, slot: nat, child: Process, tslot: nat, thread: Thread)
    requires s.HasThread(tail.tid) && FreshChild(s, tail.tid, slot, child, tslot, thread)
    requires s.Thread(tail.tid).waitResult == None
    ensures var s' := Adopted(s, tail.tid, slot, child, tslot, thread);
            && s'.HasThread(tail.tid) && s'.HasProcess(slot) && Parked(s', tail, Link(slot, tslot))
            && s'.HasThread(tslot) && s'.Thread(tslot).state == Runnable
  {
  }

  lemma AdoptKeepsRoles(s: Sched, chain: seq<Link>, slot: nat, child: Process, tslot: nat, thread: Thread)
    requires Members(s, chain) && Roles(s, chain) && s.HasThread(Tail(chain).tid)
    requires FreshChild(s, Tail(chain).tid, slot, child, tslot, thread)
    requires Members(Adopted(s, Tail(chain).tid, slot, child, tslot, thread), chain + [Link(slot, tslot)])
    ensures Roles(Adopted(s, Tail(chain).tid, slot, child, tslot, thread), chain + [Link(slot, tslot)])
  {
    var s', chain' := Adopted(s, Tail(chain).tid, slot, child, tslot, thread), chain + [Link(slot, tslot)];
    LinkFacts(s, chain, 0);
    assert chain[0] == Link(1, 1);
    forall i | 0 <= i < |chain'|
      ensures Inheritable(s'.Process(chain'[i].pid)) && (i > 0 ==> s'.Process(chain'[i].pid).exitAction == Continue)
    {
      if i < |chain| {
        LinkFacts(s, chain, i);
        hide Members;
        assert s'.Process(chain[i].pid) == s.Process(chain[i].pid);
      }
    }
    hide Inheritable, LinkOk;
  }

  lemma AdoptKeepsTables(s: Sched, chain: seq<Link>, slot: nat, child: Process, tslot: nat, thread: Thread)
    requires chain != [] && Tables(s, chain, Some(Tail(chain).tid))
    requires s.HasThread(Tail(chain).tid) && s.Thread(Tail(chain).tid).waitResult == None
    requires FreshChild(s, Tail(chain).tid, slot, child, tslot, thread)
    ensures Tables(Adopted(s, Tail(chain).tid, slot, child, tslot, thread), chain + [Link(slot, tslot)], None)
  {
    AdoptKeepsMembers(s, chain, slot, child, tslot, thread);
    AdoptKeepsWaits(s, chain, slot, child, tslot, thread);
    AdoptKeepsRoles(s, chain, slot, child, tslot, thread);
    LinkFacts(s, chain, |chain| - 1);
    assert Tail(chain + [Link(slot, tslot)]) == Link(slot, tslot);
    hide Waits, Roles;
  }

  /** The state once the tail and its process are gone and its parent is awake with the status. */
  ghost function Orphaned(s: Sched, chain: seq<Link>, status: nat): Sched
    requires Members(s, chain) && |chain| > 1
  {
    assert LinkOk(s, chain[|chain| - 2]) && LinkOk(s, Tail(chain));
    var tail, parent := Tail(chain), chain[|chain| - 2];
    var woken := s.Thread(parent.tid).(waitResult := Some(status)).Wake();
    s.(processes := s.processes[tail.pid := None],
       threads := s.threads[tail.tid := None][parent.tid := Some(woken)])
  }

  lemma OrphanKeepsMembers(s: Sched, chain: seq<Link>, status: nat)
    requires Members(s, chain) && |chain| > 1
    ensures Members(Orphaned(s, chain, status), chain[..|chain| - 1])
  {
    hide OnChain, PidOnChain;
    var n := |chain| - 1;
    var s', chain' := Orphaned(s, chain, status), chain[..n];
    OrphanKeepsLinks(s, chain, status);
    assert LinkOk(s, chain[n]) && LinkOk(s, chain[n - 1]);
    hide LinkOk;
    forall t | 0 <= t < |s'.threads| && s'.threads[t].Some? && t != TERMINAL && t != IDLE
      ensures OnChain(chain', t)
    {
      CoveredAfterPop(s, chain, t);
    }
    forall p | 0 <= p < |s'.processes| && s'.processes[p].Some? && p != 0
      ensures PidOnChain(chain', p)
    {
      PidCoveredAfterPop(s, chain, p);
    }
  }

  lemma OrphanKeepsLinks(s: Sched, chain: seq<Link>, status: nat)
    requires Members(s, chain) && |chain| > 1
    ensures forall i :: 0 <= i < |chain| - 1 ==> LinkOk(Orphaned(s, chain, status), chain[i])
  {
    var n := |chain| - 1;
    assert LinkOk(s, chain[n]) && LinkOk(s, chain[n - 1]);
    forall i | 0 <= i < n ensures LinkOk(Orphaned(s, chain, status), chain[i]) {
      assert LinkOk(s, chain[i]);
    }
  }

  lemma CoveredAfterPop(s: Sched, chain: seq<Link>, t: nat)
    requires Members(s, chain) && t < |s.threads| && s.threads[t].Some?
    requires t != TERMINAL && t != IDLE && t != Tail(chain).tid
    ensures OnChain(chain[..|chain| - 1], t)
  {
    var i :| 0 <= i < |chain| && chain[i].tid == t;
    assert chain[..|chain| - 1][i].tid == t;
  }

  lemma PidCoveredAfterPop(s: Sched, chain: seq<Link>, p: nat)
    requires Members(s, chain) && p < |s.processes| && s.processes[p].Some?
    requires p != 0 && p != Tail(chain).pid
    ensures PidOnChain(chain[..|chain| - 1], p)
  {
    var i :| 0 <= i < |chain| && chain[i].pid == p;
    assert chain[..|chain| - 1][i].pid == p;
  }

  lemma OrphanKeepsWaits(s: Sched, chain: seq<Link>, status: nat)
    requires Members(s, chain) && Waits(s, chain) && |chain| > 1
    requires Members(Orphaned(s, chain, status), chain[..|chain| - 1])
    ensures Waits(Orphaned(s, chain, status), chain[..|chain| - 1])
  {
    hide Members, Orphaned, Parked;
    var n := |chain| - 1;
    var s', chain' := Orphaned(s, chain, status), chain[..n];
    LinkFacts(s, chain, n);
    LinkFacts(s, chain, n - 1);
    forall i | 0 <= i < n - 1 ensures ParkedAt(s', chain', i) {
      LinkFacts(s, chain, i);
      LinkFacts(s, chain, i + 1);
      assert ParkedAt(s, chain, i);
      OrphanKeepsParked(s, chain, status, chain[i], chain[i + 1]);
    }
    assert Tail(chain') == chain[n - 1];
    OrphanWakes(s, chain, status);
  }

  lemma OrphanKeepsParked(s: Sched, chain: seq<Link>, status: nat, link: Link, next: Link)
    requires Members(s, chain) && |chain| > 1 && LinkOk(s, link) && LinkOk(s, next) && Parked(s, link, next)
    requires link.tid != Tail(chain).tid && link.tid != chain[|chain| - 2].tid && next.pid != Tail(chain).pid
    ensures var s' := Orphaned(s, chain, status);
            s'.HasThread(link.tid) && s'.HasProcess(next.pid) && Parked(s', link, next)
  {
    LinkFacts(s, chain, |chain| - 1);
    LinkFacts(s, chain, |chain| - 2);
    hide Members;
  }

  lemma OrphanWakes(s: Sched, chain: seq<Link>, status: nat)
    requires Members(s, chain) && |chain| > 1
    ensures var s', t := Orphaned(s, chain, status), chain[|chain| - 2].tid;
            s'.HasThread(t) && s'.Thread(t).state == Runnable
  {
    LinkFacts(s, chain, |chain| - 2);
    hide Members;
  }

  lemma OrphanKeepsRoles(s: Sched, chain: seq<Link>, status: nat)
    requires Members(s, chain) && Roles(s, chain) && |chain| > 1
    requires Members(Orphaned(s, chain, status), chain[..|chain| - 1])
    ensures Roles(Orphaned(s, chain, status), chain[..|chain| - 1])
  {
    hide Inheritable, OnChain, PidOnChain;
    var n := |chain| - 1;
    var s', chain' := Orphaned(s, chain, status), chain[..n];
    LinkFacts(s, chain, n);
    LinkFacts(s, chain, 0);
    assert chain[0] == Link(1, 1);
    forall i | 0 <= i < n
      ensures s'.HasProcess(chain'[i].pid) && s'.Process(chain'[i].pid) == s.Process(chain[i].pid)
    {
      LinkFacts(s, chain, i);
    }
    hide LinkOk;
  }

  lemma OrphanKeepsTables(s: Sched, chain: seq<Link>, status: nat)
    requires |chain| > 1 && Tables(s, chain, Some(Tail(chain).tid))
    ensures Tables(Orphaned(s, chain, status), chain[..|chain| - 1], None)
  {
    OrphanKeepsMembers(s, chain, status);
    OrphanKeepsWaits(s, chain, status);
    OrphanKeepsRoles(s, chain, status);
    var n := |chain| - 1;
    LinkFacts(s, chain, n);
    LinkFacts(s, chain, n - 1);
    assert Tail(chain[..n]) == chain[n - 1];
    hide Waits, Roles;
  }
}
