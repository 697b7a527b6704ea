// kernel/kernel/src/scheduler/state.rs: the slot tables and their transitions,
// first as functions on values, then as the in-place scheduler that meets them.
module Scheduling {
  import opened Prelude
  import opened Processes
  import Environments

  const MAX_PROCESSES: nat := 8
  const MAX_THREADS: nat := 12

  /** The whole scheduler state, as one value. */
  datatype Sched = Sched(
    processes: seq<Option<Process>>, threads: seq<Option<Thread>>, current: Option<nat>, idle: Option<nat>)
  {
    predicate HasThread(t: nat) { t < |threads| && threads[t].Some? }

    predicate HasProcess(p: nat) { p < |processes| && processes[p].Some? }

    function Thread(t: nat): Thread
      requires HasThread(t)
    {
      threads[t].value
    }

    function Process(p: nat): Process
      requires HasProcess(p)
    {
      processes[p].value
    }

    function OwnerOf(t: nat): nat
      requires HasThread(t)
    {
      threads[t].value.processId
    }

    function WithThread(t: nat, thread: Thread): Sched
      requires t < |threads|
    {
      this.(threads := threads[t := Some(thread)])
    }

    function WithProcess(p: nat, process: Process): Sched
      requires p < |processes|
    {
      this.(processes := processes[p := Some(process)])
    }
  }

  const EMPTY := Sched(seq(MAX_PROCESSES, _ => None), seq(MAX_THREADS, _ => None), None, None)

  /** Table sizes, and records carry the index of their slot. */
  ghost predicate Shaped(s: Sched) {
    && |s.processes| == MAX_PROCESSES
    && |s.threads| == MAX_THREADS
    && (forall t :: 0 <= t < |s.threads| && s.threads[t].Some? ==> s.threads[t].value.id == t)
    && (forall p :: 0 <= p < |s.processes| && s.processes[p].Some? ==>
          s.processes[p].value.id == p && |s.processes[p].value.handles| == MAX_PROCESS_HANDLES)
  }

  /** What the `expect`s of the source rely on: ids in the tables are live. */
  ghost predicate Linked(s: Sched) {
    && Shaped(s)
    && (forall t :: 0 <= t < |s.threads| && s.threads[t].Some? ==> s.HasProcess(s.threads[t].value.processId))
    && (s.current.Some? ==> s.HasThread(s.current.value))
    && (s.idle.Some? ==> s.HasThread(s.idle.value))
  }

  lemma LinkedFacts(s: Sched)
    requires Linked(s)
    ensures |s.threads| == MAX_THREADS && |s.processes| == MAX_PROCESSES
    ensures s.current.Some? ==> s.HasThread(s.current.value) && s.HasProcess(s.OwnerOf(s.current.value))
  {
  }

  lemma OwnerIsLive(s: Sched, t: nat)
    requires Linked(s) && s.HasThread(t)
    ensures s.HasProcess(s.OwnerOf(t)) && t < MAX_THREADS && |s.threads| == MAX_THREADS
    ensures |s.Process(s.OwnerOf(t)).handles| == MAX_PROCESS_HANDLES
  {
  }

  // ---------------------------------------------------------------------------
  // Choosing the next thread.

  predicate Ready(s: Sched, t: nat) {
    s.HasThread(t) && (s.Thread(t).state == Runnable || s.Thread(t).state == OnCpu)
  }

  /** A thread the round-robin scan may stop at. */
  predicate Eligible(s: Sched, t: nat) {
    Ready(s, t) && s.idle != Some(t)
  }

  function ScanStart(current: Option<nat>): nat {
    if current.Some? then (current.value + 1) % MAX_THREADS else 0
  }

  /** How many slots the scan looks at before it reaches `t`. */
  function Distance(current: Option<nat>, t: nat): nat
    requires t < MAX_THREADS
  {
    (t + MAX_THREADS - ScanStart(current)) % MAX_THREADS
  }

  function ScanSlot(current: Option<nat>, offset: nat): nat {
    (ScanStart(current) + offset) % MAX_THREADS
  }

  function FirstEligible(s: Sched, current: Option<nat>, offset: nat): Option<nat>
    decreases MAX_THREADS - offset
  {
    if offset >= MAX_THREADS then None
    else if Eligible(s, ScanSlot(current, offset)) then Some(ScanSlot(current, offset))
    else FirstEligible(s, current, offset + 1)
  }

  function NextRunnable(s: Sched, current: Option<nat>): Option<nat> {
    var found := FirstEligible(s, current, 0);
    if found.Some? then found
    else if s.idle.Some? && Ready(s, s.idle.value) then s.idle
    else None
  }

  /** One slot of the scan. */
  lemma ScanOneSlot(s: Sched, current: Option<nat>, offset: nat)
    ensures FirstEligible(s, current, offset) ==
            if offset >= MAX_THREADS then None
            else if Eligible(s, ScanSlot(current, offset)) then Some(ScanSlot(current, offset))
            else FirstEligible(s, current, offset + 1)
  {
  }

  lemma DistanceOfSlot(current: Option<nat>, t: nat)
    requires t < MAX_THREADS
    ensures Distance(current, t) < MAX_THREADS && ScanSlot(current, Distance(current, t)) == t
    ensures forall offset :: 0 <= offset < MAX_THREADS ==> Distance(current, ScanSlot(current, offset)) == offset
  {
    hide ScanStart, Distance;
    DistanceIs(current, t);
    SlotIs(current, Distance(current, t));
    forall offset | 0 <= offset < MAX_THREADS ensures Distance(current, ScanSlot(current, offset)) == offset {
      SlotIs(current, offset);
      DistanceIs(current, ScanSlot(current, offset));
    }
  }

  /** The distance without the remainder. */
  lemma DistanceIs(current: Option<nat>, t: nat)
    requires t < MAX_THREADS
    ensures var start := ScanStart(current);
              Distance(current, t) == if t >= start then t - start else t + MAX_THREADS - start
    ensures ScanStart(current) < MAX_THREADS
  {
  }

  /** The slot without the remainder. */
  lemma SlotIs(current: Option<nat>, offset: nat)
    requires offset < MAX_THREADS
    ensures var n := ScanStart(current) + offset;
              ScanSlot(current, offset) == if n < MAX_THREADS then n else n - MAX_THREADS
    ensures ScanStart(current) < MAX_THREADS
  {
  }

  lemma {:induction false} FirstEligibleIsNearest(s: Sched, current: Option<nat>, offset: nat)
    requires |s.threads| == MAX_THREADS && offset <= MAX_THREADS
    ensures var r := FirstEligible(s, current, offset);
            && (r.Some? ==> Eligible(s, r.value) && Distance(current, r.value) >= offset)
            && forall t :: Eligible(s, t) && offset <= Distance(current, t) ==>
                 r.Some? && Distance(current, r.value) <= Distance(current, t)
    decreases MAX_THREADS - offset
  {
    if offset < MAX_THREADS {
      var slot := ScanSlot(current, offset);
      DistanceOfSlot(current, slot);
      if !Eligible(s, slot) {
        FirstEligibleIsNearest(s, current, offset + 1);
        forall t | Eligible(s, t) && offset <= Distance(current, t)
          ensures offset < Distance(current, t)
        {
          DistanceOfSlot(current, t);
        }
      }
    }
  }

  /** The choice is the eligible thread nearest after the current slot; idle only when there is none. */
  lemma NextIsNearest(s: Sched, current: Option<nat>)
    requires |s.threads| == MAX_THREADS
    ensures var r := NextRunnable(s, current);
            && (r.Some? ==> Ready(s, r.value))
            && (forall t :: Eligible(s, t) ==>
                  r.Some? && Eligible(s, r.value) && Distance(current, r.value) <= Distance(current, t))
            && (r.Some? && r == s.idle ==> forall t :: !Eligible(s, t))
            && (r.None? ==> forall t :: !Ready(s, t))
  {
    FirstEligibleIsNearest(s, current, 0);
    hide FirstEligible, Distance;
    if NextRunnable(s, current).None? {
      forall t ensures !Ready(s, t) {
        assert !Eligible(s, t);
      }
    }
  }

  /** The slot `k` places on from `from`, counting upwards and around. */
  function Upwards(from: nat, k: nat): nat { (from + k) % 12 }

  /** It holds a thread that is not blocked and not the idle thread. */
  ghost predicate Turn(s: Sched, from: nat, k: nat) {
    var t := Upwards(from, k);
    t < |s.threads| && s.threads[t].Some? && s.threads[t].value.state != Blocked && s.idle != Some(t)
  }

  /** Slots are looked at upwards from behind the current one, around and back to it; the first thread
      that can run is next, and the idle thread only when there is none. */
  lemma NextIsUpwards(s: Sched, current: Option<nat>)
    requires Shaped(s)
    ensures var from, next := if current.Some? then current.value + 1 else 0, NextRunnable(s, current);
            || (exists k :: 0 <= k < 12 && Turn(s, from, k) && next == Some(Upwards(from, k))
                            && forall j :: 0 <= j < k ==> !Turn(s, from, j))
            || ((forall k :: 0 <= k < 12 ==> !Turn(s, from, k))
                && next == if s.idle.Some? && s.HasThread(s.idle.value) && s.Thread(s.idle.value).state != Blocked
                           then s.idle else None)
  {
    FirstTurn(s, current, 0);
  }

  lemma {:induction false} FirstTurn(s: Sched, current: Option<nat>, offset: nat)
    requires Shaped(s) && offset <= 12
    ensures var from, found := if current.Some? then current.value + 1 else 0, FirstEligible(s, current, offset);
            if found.None? then forall k :: offset <= k < 12 ==> !Turn(s, from, k)
            else exists k :: offset <= k < 12 && Turn(s, from, k) && found == Some(Upwards(from, k))
                             && forall j :: offset <= j < k ==> !Turn(s, from, j)
    decreases 12 - offset
  {
    if offset < 12 {
      var from := if current.Some? then current.value + 1 else 0;
      TurnOfSlot(s, current, offset);
      hide Turn, Eligible, ScanSlot, Upwards;
      if !Turn(s, from, offset) { FirstTurn(s, current, offset + 1); }
    }
  }

  lemma TurnOfSlot(s: Sched, current: Option<nat>, offset: nat)
    requires Shaped(s)
    ensures var from := if current.Some? then current.value + 1 else 0;
            && ScanSlot(current, offset) == Upwards(from, offset)
            && (Turn(s, from, offset) <==> Eligible(s, ScanSlot(current, offset)))
  {
    hide Shaped;
    assert |s.threads| == 12 by { LengthOf(s); }
  }

  lemma LengthOf(s: Sched)
    requires Shaped(s)
    ensures |s.threads| == 12
  {
  }

  // ---------------------------------------------------------------------------
  // Transitions.

  datatype ProcessConfig =
    ProcessConfig(addressSpace: nat, terminal: bool, ownedPages: seq<nat>, exitAction: ProcessExitAction)

  function CreateProcess(s: Sched, config: ProcessConfig): Option<(Sched, nat)> {
    var slot := FirstFree(s.processes);
    if slot == |s.processes| then None
    else
      var blank := NewProcess(slot, config.addressSpace, config.ownedPages, config.exitAction);
      var bound := if config.terminal then blank.BindStdio(TerminalEndpoint, TerminalEndpoint, TerminalEndpoint)
                   else Some(blank);
      if bound.None? then None else Some((s.WithProcess(slot, bound.value), slot))
  }

  function CreateThread(s: Sched, processId: nat, start: ThreadStart): Option<(Sched, nat)> {
    var slot := FirstFree(s.threads);
    if slot == |s.threads| then None
    else Some((s.WithThread(slot, NewThread(slot, processId, start)), slot))
  }

  /** The child record before it is stored; None when stdio, cwd or environment cannot be inherited. */
  function ChildOf(parent: Process, parentThread: nat, slot: nat, program: LoadedUserProgram,
                   silent: bool): Option<Process> {
    var blank := NewProcess(slot, program.addressSpace, program.ownedPages, Continue);
    var stdio := parent.InheritStdio(blank, silent);
    if stdio.None? then None else
    var cwd := stdio.value.SetCwd(parent.cwd);
    if cwd.None? then None else
    var env := parent.InheritEnv(cwd.value);
    if env.None? then None else Some(env.value.(waitingThread := Some(parentThread)))
  }

  /** Whatever record is made for a child, it is one for this program, it inherits from the parent, and
      the parent's thread is its waiter. */
  lemma ChildInheritsFrom(parent: Process, parentThread: nat, slot: nat, program: LoadedUserProgram, silent: bool)
    requires ChildOf(parent, parentThread, slot, program, silent).Some?
    ensures var child := ChildOf(parent, parentThread, slot, program, silent).value;
            && Inherits(child, parent, silent)
            && child.id == slot && child.exitAction == Continue && child.waitingThread == Some(parentThread)
            && child.addressSpace == program.addressSpace && child.ownedPages == program.ownedPages
  {
    hide Environments.WellFormed, Environments.Inherit, Process.BindStdio;
    var blank := NewProcess(slot, program.addressSpace, program.ownedPages, Continue);
    var stdin := parent.ResolveFd(0);
    var stdout := if silent then Some(Null) else parent.ResolveFd(1);
    var stderr := if silent then Some(Null) else parent.ResolveFd(2);
    FreshChildBindsStdio(blank, stdin.value, stdout.value, stderr.value);
    if Environments.WellFormed(parent.env) { Environments.InheritCopies(parent.env); }
  }

  /** `spawn_child_process`: the new state and child slot, or None with nothing changed. */
  function SpawnChild(s: Sched, parentThread: nat, program: LoadedUserProgram, silent: bool): Option<(Sched, nat)>
    requires s.HasThread(parentThread) && s.HasProcess(s.OwnerOf(parentThread))
  {
    var slot := FirstFree(s.processes);
    if slot == |s.processes| then None else
    var child := ChildOf(s.Process(s.OwnerOf(parentThread)), parentThread, slot, program, silent);
    if child.None? then None else
    var threaded := CreateThread(s.WithProcess(slot, child.value), slot,
        User(program.entryPoint, program.userStackTop));
    if threaded.None? then None else Some((threaded.value.0, slot))
  }

  /** Which saved context is left, which is entered, and the root frame activated for it. */
  datatype Switch = Switch(from: nat, to: nat, space: nat)

  function SpaceOf(s: Sched, t: nat): nat
    requires s.HasThread(t) && s.HasProcess(s.OwnerOf(t))
  {
    s.Process(s.OwnerOf(t)).addressSpace
  }

  function Resume(s: Sched, t: nat): Sched
    requires s.HasThread(t)
  {
    s.WithThread(t, s.Thread(t).(state := OnCpu)).(current := Some(t))
  }

  function PrepareSwitch(s: Sched, blockCurrent: bool): (Sched, Option<Switch>)
    requires Linked(s)
  {
    if s.current.None? then (s, None) else
    var current := s.current.value;
    var next := NextRunnable(s, s.current);
    if next.None? || (next.value == current && !blockCurrent) then (s, None) else
    var parked := s.WithThread(current, s.Thread(current).(state := if blockCurrent then Blocked else Runnable));
    NextIsNearest(s, s.current);
    (Resume(parked, next.value), Some(Switch(current, next.value, SpaceOf(s, next.value))))
  }

  /** What a switch changes: the thread that leaves is blocked or stays ready, as asked, the one that enters is on
      the CPU, and nothing else moves; nothing at all when no other thread can run and the current one may stay. */
  lemma SwitchTells(s: Sched, blockCurrent: bool)
    requires Linked(s)
    ensures var (s', switch) := PrepareSwitch(s, blockCurrent);
            match switch
            case None =>
              s' == s && (s.current.None? || NextRunnable(s, s.current).None?
                          || (NextRunnable(s, s.current) == s.current && !blockCurrent))
            case Some(w) =>
              && s.current == Some(w.from) && NextRunnable(s, s.current) == Some(w.to) && s'.current == Some(w.to)
              && s.HasThread(w.from) && s.HasThread(w.to) && s'.processes == s.processes && s'.idle == s.idle
              && s.HasProcess(s.OwnerOf(w.to)) && w.space == s.Process(s.OwnerOf(w.to)).addressSpace
              && |s'.threads| == |s.threads|
              && forall t :: 0 <= t < |s.threads| ==>
                   s'.threads[t] ==
                   if t == w.to then Some(s.Thread(t).(state := OnCpu))
                   else if t == w.from then Some(s.Thread(t).(state := if blockCurrent then Blocked else Runnable))
                   else s.threads[t]
  {
    NextIsNearest(s, s.current);
    hide NextRunnable;
  }

  /** The current thread is blocked before a successor is looked for. */
  function PrepareWait(s: Sched, child: nat): (Sched, Option<Switch>)
    requires Linked(s)
  {
    if s.current.None? then (s, None) else
    var current := s.current.value;
    var blocked := s.WithThread(current, s.Thread(current).BlockForChild(child));
    var next := NextRunnable(blocked, s.current);
    NextIsNearest(blocked, s.current);
    if next.None? then (blocked, None)
    else (Resume(blocked, next.value), Some(Switch(current, next.value, SpaceOf(s, next.value))))
  }

  datatype ProcessExit = SwitchTo(to: nat, space: nat, released: seq<nat>) | Shutdown(released: seq<nat>)

  /** The exiting process has one thread, and its waiter (if any) is another live thread. */
  ghost predicate CanExit(s: Sched) {
    && Linked(s)
    && (s.current.Some? ==>
          var pid := s.OwnerOf(s.current.value);
          && s.idle != s.current
          && (forall t :: 0 <= t < |s.threads| && s.threads[t].Some? && s.threads[t].value.processId == pid ==>
                t == s.current.value)
          && var waiter := s.Process(pid).waitingThread;
             waiter.Some? ==> s.HasThread(waiter.value) && waiter != s.current)
  }

  /** The tables once the current thread and its process are gone. */
  function Removed(s: Sched): Sched
    requires s.current.Some? && s.HasThread(s.current.value) && s.HasProcess(s.OwnerOf(s.current.value))
  {
    s.(threads := s.threads[s.current.value := None],
       processes := s.processes[s.OwnerOf(s.current.value) := None])
  }

  lemma RemovedIsLinked(s: Sched)
    requires CanExit(s) && s.current.Some?
    ensures Linked(Removed(s).(current := None))
  {
  }

  lemma ExitFacts(s: Sched)
    requires CanExit(s) && s.current.Some?
    ensures s.HasThread(s.current.value) && s.HasProcess(s.OwnerOf(s.current.value))
    ensures var waiter := s.Process(s.OwnerOf(s.current.value)).waitingThread; waiter.Some? ==>
              Removed(s).HasThread(waiter.value)
    ensures Shaped(Removed(s)) && (s.idle.Some? ==> Removed(s).HasThread(s.idle.value))
    ensures forall t: nat :: Removed(s).HasThread(t) ==> Removed(s).HasProcess(Removed(s).OwnerOf(t))
  {
    RemovedIsLinked(s);
  }

  function PrepareExit(s: Sched, status: nat): (Sched, Option<ProcessExit>)
    requires CanExit(s)
  {
    if s.current.None? then (s, None) else
    var process := s.Process(s.OwnerOf(s.current.value));
    RemovedIsLinked(s);
    var gone := Removed(s);
    if process.exitAction == ShutdownSystem then (gone.(current := None), Some(Shutdown(process.ownedPages)))
    else if process.waitingThread.Some? then
      var waiter := process.waitingThread.value;
      var woken := gone.WithThread(waiter, gone.Thread(waiter).(waitResult := Some(status)).Wake());
      (Resume(woken, waiter), Some(SwitchTo(waiter, SpaceOf(gone, waiter), process.ownedPages)))
    else
      var next := NextRunnable(gone, s.current);
      NextIsNearest(gone, s.current);
      if next.None? then (gone, None)
      else (Resume(gone, next.value), Some(SwitchTo(next.value, SpaceOf(gone, next.value), process.ownedPages)))
  }

  /** What an exit changes: the process and its thread are gone; a process that shuts the system down leaves no
      current thread; otherwise its waiter is entered with the status, or, without a waiter, the next thread that
      can run. The pages to release are the process's own. */
  lemma ExitTells(s: Sched, status: nat)
    requires CanExit(s) && s.current.Some?
    ensures var t0, pid := s.current.value, s.OwnerOf(s.current.value);
            var process, (s', exit) := s.Process(pid), PrepareExit(s, status);
            var gone := s.(threads := s.threads[t0 := None], processes := s.processes[pid := None]);
            match exit
            case Some(Shutdown(pages)) =>
              process.exitAction == ShutdownSystem && pages == process.ownedPages && s' == gone.(current := None)
            case Some(SwitchTo(to, space, released)) =>
              && process.exitAction == Continue && released == process.ownedPages
              && gone.HasThread(to) && gone.HasProcess(gone.OwnerOf(to))
              && space == gone.Process(gone.OwnerOf(to)).addressSpace
              && s'.current == Some(to) && s'.idle == s.idle && s'.processes == gone.processes
              && s'.threads == gone.threads[to := Some(
                   if process.waitingThread.Some? then
                     s.Thread(to).(state := OnCpu, blockReason := NotBlocked, waitResult := Some(status))
                   else s.Thread(to).(state := OnCpu))]
              && Some(to) == if process.waitingThread.Some? then process.waitingThread
                             else NextRunnable(gone, s.current)
            case None =>
              && process.exitAction == Continue && process.waitingThread.None?
              && NextRunnable(gone, s.current).None? && s' == gone
  {
    RemovedIsLinked(s);
    NextIsNearest(Removed(s), s.current);
    hide NextRunnable;
  }

  /** The second half of `wait_for_child`, run by the thread that was resumed. */
  function TakeWaitResult(s: Sched): (Sched, Option<nat>)
    requires Linked(s)
  {
    if s.current.None? then (s, None) else
    var current := s.current.value;
    (s.WithThread(current, s.Thread(current).(waitResult := None)), s.Thread(current).waitResult)
  }

  function Start(s: Sched): (Sched, Option<nat>)
    requires Shaped(s)
  {
    var next := NextRunnable(s, None);
    NextIsNearest(s, None);
    if next.None? then (s, None) else (Resume(s, next.value), next)
  }

  // ---------------------------------------------------------------------------
  // Every transition keeps the tables linked.

  lemma SpawnKeepsLinked(s: Sched, parentThread: nat, program: LoadedUserProgram, silent: bool)
    requires Linked(s) && s.HasThread(parentThread)
    ensures var r := SpawnChild(s, parentThread, program, silent);
            r.Some? ==> Linked(r.value.0) && r.value.1 < MAX_PROCESSES
  {
    hide ChildOf;
    var slot := FirstFree(s.processes);
    if slot < |s.processes| {
      var parent := s.Process(s.OwnerOf(parentThread));
      ChildShape(parent, parentThread, slot, program, silent);
      var child := ChildOf(parent, parentThread, slot, program, silent);
      if child.Some? {
        StoreKeepsLinked(s, slot, child.value);
        ThreadKeepsLinked(s.WithProcess(slot, child.value), slot, User(program.entryPoint, program.userStackTop));
        hide CreateThread, Linked;
      }
    }
  }

  lemma ThreadKeepsLinked(s: Sched, processId: nat, start: ThreadStart)
    requires Linked(s) && s.HasProcess(processId)
    ensures var r := CreateThread(s, processId, start); r.Some? ==> Linked(r.value.0)
  {
  }

  /** Storing a process in a free slot keeps every link. */
  lemma StoreKeepsLinked(s: Sched, slot: nat, process: Process)
    requires Linked(s) && slot < |s.processes| && s.processes[slot].None?
    requires process.id == slot && |process.handles| == MAX_PROCESS_HANDLES
    ensures Linked(s.WithProcess(slot, process))
  {
  }

  lemma ChildShape(parent: Process, parentThread: nat, slot: nat, program: LoadedUserProgram, silent: bool)
    requires |parent.handles| == MAX_PROCESS_HANDLES
    ensures var r := ChildOf(parent, parentThread, slot, program, silent);
            r.Some? ==>
              && r.value.id == slot && |r.value.handles| == MAX_PROCESS_HANDLES
              && r.value.addressSpace == program.addressSpace && r.value.ownedPages == program.ownedPages
              && r.value.waitingThread == Some(parentThread) && r.value.exitAction == Continue
              && r.value.cwd == parent.cwd
  {
    var blank := NewProcess(slot, program.addressSpace, program.ownedPages, Continue);
    var stdin, stdout, stderr := parent.ResolveFd(0), parent.ResolveFd(1), parent.ResolveFd(2);
    if silent && stdin.Some? {
      FreshChildBindsStdio(blank, stdin.value, Null, Null);
    } else if stdin.Some? && stdout.Some? && stderr.Some? {
      FreshChildBindsStdio(blank, stdin.value, stdout.value, stderr.value);
    }
  }

  /** Rewriting a live thread's record in place keeps every link. */
  lemma RewriteKeepsLinked(s: Sched, t: nat, thread: Thread)
    requires Linked(s) && s.HasThread(t)
    requires thread.id == t && thread.processId == s.OwnerOf(t)
    ensures Linked(s.WithThread(t, thread))
  {
  }

  lemma ResumeKeepsLinked(s: Sched, t: nat)
    requires Linked(s) && s.HasThread(t)
    ensures Linked(Resume(s, t))
  {
    RewriteKeepsLinked(s, t, s.Thread(t).(state := OnCpu));
  }

  lemma SwitchKeepsLinked(s: Sched, blockCurrent: bool)
    requires Linked(s)
    ensures Linked(PrepareSwitch(s, blockCurrent).0)
  {
    if s.current.Some? {
      var current := s.current.value;
      var parked := s.Thread(current).(state := if blockCurrent then Blocked else Runnable);
      RewriteKeepsLinked(s, current, parked);
      NextIsNearest(s, s.current);
      var next := NextRunnable(s, s.current);
      hide Linked, NextRunnable;
      if next.Some? {
        ResumeKeepsLinked(s.WithThread(current, parked), next.value);
      }
    }
  }

  lemma WaitKeepsLinked(s: Sched, child: nat)
    requires Linked(s)
    ensures Linked(PrepareWait(s, child).0)
  {
    if s.current.Some? {
      var current := s.current.value;
      RewriteKeepsLinked(s, current, s.Thread(current).BlockForChild(child));
      var blocked := s.WithThread(current, s.Thread(current).BlockForChild(child));
      NextIsNearest(blocked, s.current);
      var next := NextRunnable(blocked, s.current);
      hide Linked, NextRunnable;
      if next.Some? {
        ResumeKeepsLinked(blocked, next.value);
      }
    }
  }

  lemma TakeKeepsLinked(s: Sched)
    requires Linked(s)
    ensures Linked(TakeWaitResult(s).0)
  {
    if s.current.Some? {
      RewriteKeepsLinked(s, s.current.value, s.Thread(s.current.value).(waitResult := None));
    }
  }

  /** Exit keeps the tables linked unless no thread at all can follow. */
  lemma ExitKeepsLinked(s: Sched, status: nat)
    requires CanExit(s)
    ensures PrepareExit(s, status).1.Some? ==> Linked(PrepareExit(s, status).0)
  {
    if s.current.Some? {
      RemovedIsLinked(s);
      var gone := Removed(s).(current := None);
      var waiter := s.Process(s.OwnerOf(s.current.value)).waitingThread;
      NextIsNearest(gone, s.current);
      if waiter.Some? {
        var woken := gone.Thread(waiter.value).(waitResult := Some(status)).Wake();
        RewriteKeepsLinked(gone, waiter.value, woken);
        ResumeKeepsLinked(gone.WithThread(waiter.value, woken), waiter.value);
      }
      NextIgnoresCurrent(Removed(s), gone, s.current);
      var next := NextRunnable(gone, s.current);
      if next.Some? { ResumeKeepsLinked(gone, next.value); }
    }
  }

  /** The scan reads the tables and the idle id, not the `current` field. */
  lemma NextIgnoresCurrent(a: Sched, b: Sched, from: Option<nat>)
    requires a.threads == b.threads && a.idle == b.idle
    ensures NextRunnable(a, from) == NextRunnable(b, from)
  {
    ScanIgnoresCurrent(a, b, from, 0);
  }

  lemma {:induction false} ScanIgnoresCurrent(a: Sched, b: Sched, from: Option<nat>, offset: nat)
    requires a.threads == b.threads && a.idle == b.idle
    ensures FirstEligible(a, from, offset) == FirstEligible(b, from, offset)
    decreases MAX_THREADS - offset
  {
    if offset < MAX_THREADS {
      ScanIgnoresCurrent(a, b, from, offset + 1);
    }
  }
}
