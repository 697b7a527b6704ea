// kernel/kernel/src/scheduler/state.rs: the in-place scheduler. Every method
// is proved against the transition of the same name in `Scheduling`.
module SchedulerStates {
  import opened Prelude
  import opened Processes
  import opened Scheduling
  import Environments

  class SchedulerState {
    const processes: array<Option<Process>>
    const threads: array<Option<Thread>>
    var currentThread: Option<nat>
    var idleThread: Option<nat>

    ghost function View(): Sched
      reads this, processes, threads
    {
      Sched(processes[..], threads[..], currentThread, idleThread)
    }

    constructor ()
      ensures View() == EMPTY && fresh(processes) && fresh(threads)
    {
      processes := new Option<Process>[MAX_PROCESSES](_ => None);
      threads := new Option<Thread>[MAX_THREADS](_ => None);
      currentThread, idleThread := None, None;
      new;
      assert processes[..] == EMPTY.processes && threads[..] == EMPTY.threads;
    }

    method TryCreateProcess(config: ProcessConfig) returns (id: Option<nat>)
      modifies processes
      ensures var after := CreateProcess(old(View()), config);
              if after.Some? then id == Some(after.value.1) && View() == after.value.0
              else id.None? && View() == old(View())
    {
      var slot := FirstFree(processes[..]);
      if slot == processes.Length { return None; }
      var process := NewProcess(slot, config.addressSpace, config.ownedPages, config.exitAction);
      if config.terminal {
        var bound := process.BindStdio(TerminalEndpoint, TerminalEndpoint, TerminalEndpoint);
        if bound.None? { return None; }
        process := bound.value;
      }
      processes[slot] := Some(process);
      return Some(slot);
    }

    method TryCreateThread(processId: nat, start: ThreadStart) returns (id: Option<nat>)
      modifies threads
      ensures var after := CreateThread(old(View()), processId, start);
              if after.Some? then id == Some(after.value.1) && View() == after.value.0
              else id.None? && View() == old(View())
    {
      var slot := FirstFree(threads[..]);
      if slot == threads.Length { return None; }
      threads[slot] := Some(NewThread(slot, processId, start));
      return Some(slot);
    }

    /** On failure the program comes back whole and the tables are as before, also
        when the child was already stored and its thread could not be made. */
    method SpawnChildProcess(parentThread: nat, program: LoadedUserProgram, silent: bool)
      returns (r: Result<nat, LoadedUserProgram>)
      requires Linked(View()) && View().HasThread(parentThread)
      modifies processes, threads
      ensures var after := SpawnChild(old(View()), parentThread, program, silent);
              if after.Some? then r == Ok(after.value.1) && View() == after.value.0
              else r == Err(program) && View() == old(View())
      ensures r.Ok? ==>
                && View().HasProcess(r.value)
                && Inherits(View().Process(r.value), old(View().Process(View().OwnerOf(parentThread))), silent)
    {
      hide ChildOf, CreateThread, Inherits;
      var parentId := threads[parentThread].value.processId;
      var slot := FirstFree(processes[..]);
      if slot == processes.Length { return Err(program); }
      var parent := processes[parentId].value;
      var child := MakeChild(parent, parentThread, slot, program, silent);
      if child.None? { return Err(program); }
      ChildInheritsFrom(parent, parentThread, slot, program, silent);
      processes[slot] := child;
      var thread := TryCreateThread(slot, User(program.entryPoint, program.userStackTop));
      if thread.None? {
        ChildShape(parent, parentThread, slot, program, silent);
        var undone := processes[slot].value;
        processes[slot] := None;
        return Err(program.(addressSpace := undone.addressSpace, ownedPages := undone.ownedPages));
      }
      return Ok(slot);
    }

    /** The child record: what it inherits, and who waits for it. */
    static method MakeChild(parent: Process, parentThread: nat, slot: nat, program: LoadedUserProgram, silent: bool)
      returns (r: Option<Process>)
      ensures r == ChildOf(parent, parentThread, slot, program, silent)
    {
      hide Process.InheritStdio, Process.SetCwd, Process.InheritEnv;
      var child := NewProcess(slot, program.addressSpace, program.ownedPages, Continue);
      var stdio := parent.InheritStdio(child, silent);
      if stdio.None? { return None; }
      var cwd := stdio.value.SetCwd(parent.cwd);
      if cwd.None? { return None; }
      var env := parent.InheritEnv(cwd.value);
      if env.None? { return None; }
      return Some(env.value.(waitingThread := Some(parentThread)));
    }

    method PrepareSwitch(blockCurrent: bool) returns (switch: Option<Switch>)
      requires Linked(View())
      modifies this, threads
      ensures View() == Scheduling.PrepareSwitch(old(View()), blockCurrent).0
      ensures switch == Scheduling.PrepareSwitch(old(View()), blockCurrent).1
      ensures Linked(View())
    {
      if currentThread.None? { return None; }
      var current := currentThread.value;
      var next := NextRunnableThread(currentThread);
      if next.None? || (next.value == current && !blockCurrent) { return None; }
      NextIsNearest(View(), currentThread);
      SwitchKeepsLinked(View(), blockCurrent);
      SetState(current, if blockCurrent then Blocked else Runnable);
      SetState(next.value, OnCpu);
      currentThread := next;
      return Some(Switch(current, next.value, processes[threads[next.value].value.processId].value.addressSpace));
    }

    method PrepareWaitForChild(child: nat) returns (switch: Option<Switch>)
      requires Linked(View())
      modifies this, threads
      ensures View() == PrepareWait(old(View()), child).0
      ensures switch == PrepareWait(old(View()), child).1
      ensures Linked(View())
    {
      if currentThread.None? { return None; }
      var current := currentThread.value;
      WaitKeepsLinked(View(), child);
      threads[current] := Some(threads[current].value.BlockForChild(child));
      var next := NextRunnableThread(currentThread);
      NextIsNearest(View(), currentThread);
      if next.None? { return None; }
      SetState(next.value, OnCpu);
      currentThread := next;
      return Some(Switch(current, next.value, processes[threads[next.value].value.processId].value.addressSpace));
    }

    method PrepareExitCurrentProcess(status: nat) returns (exit: Option<ProcessExit>)
      requires CanExit(View())
      modifies this, processes, threads
      ensures View() == PrepareExit(old(View()), status).0
      ensures exit == PrepareExit(old(View()), status).1
      ensures exit.Some? ==> Linked(View())
    {
      hide Linked, CanExit, Shaped, NextRunnable, Eligible, Distance;
      if currentThread.None? { return None; }
      ExitFacts(View());
      ExitKeepsLinked(View(), status);
      ghost var gone := Removed(View());
      var waiting, action, released := RemoveCurrent(status);
      assert View() == gone;
      if action == ShutdownSystem {
        currentThread := None;
        return Some(Shutdown(released));
      }
      var next := waiting;
      if waiting.Some? {
        var thread := threads[waiting.value].value;
        threads[waiting.value] := Some(thread.(waitResult := Some(status)).Wake());
      } else {
        next := NextRunnableThread(currentThread);
        if next.None? { return None; }
      }
      currentThread := next;
      SetState(next.value, OnCpu);
      return Some(SwitchTo(next.value, processes[threads[next.value].value.processId].value.addressSpace, released));
    }

    /** The exiting process gives up its waiter and leaves the tables with its thread. */
    method RemoveCurrent(status: nat) returns (waiting: Option<nat>, action: ProcessExitAction, released: seq<nat>)
      requires currentThread.Some? && View().HasThread(currentThread.value)
      requires View().HasProcess(View().OwnerOf(currentThread.value))
      modifies processes, threads
      ensures View() == Removed(old(View()))
      ensures var process := old(View().Process(View().OwnerOf(currentThread.value)));
              waiting == process.waitingThread && action == process.exitAction && released == process.ownedPages
    {
      var processId := threads[currentThread.value].value.processId;
      processes[processId] := Some(processes[processId].value.(state := Exited(status)));
      waiting, action := processes[processId].value.waitingThread, processes[processId].value.exitAction;
      processes[processId] := Some(processes[processId].value.(waitingThread := None));
      threads[currentThread.value] := None;
      released := processes[processId].value.ownedPages;
      processes[processId] := None;
    }

    /** `thread_mut(id).set_state(state)`. */
    method SetState(t: nat, state: ThreadState)
      requires View().HasThread(t)
      modifies threads
      ensures View() == old(View().WithThread(t, View().Thread(t).(state := state)))
    {
      threads[t] := Some(threads[t].value.(state := state));
    }

    /** The second half of `wait_for_child`. */
    method TakeWaitResult() returns (status: Option<nat>)
      requires Linked(View())
      modifies threads
      ensures View() == Scheduling.TakeWaitResult(old(View())).0
      ensures status == Scheduling.TakeWaitResult(old(View())).1
      ensures Linked(View())
    {
      if currentThread.None? { return None; }
      var thread := threads[currentThread.value].value;
      TakeKeepsLinked(View());
      threads[currentThread.value] := Some(thread.(waitResult := None));
      return thread.waitResult;
    }

    /** `set_process_env`. */
    method SetProcessEnv(p: nat, key: Bytes, value: Bytes) returns (ok: bool)
      requires View().HasProcess(p)
      modifies processes
      ensures var env := Environments.WithBinding(old(View()).Process(p).env, key, value);
              && ok == env.Ok?
              && View() == if ok then old(View()).WithProcess(p, old(View()).Process(p).(env := env.value))
                   else old(View())
    {
      var process := processes[p].value;
      var env := Environments.WithBinding(process.env, key, value);
      if env.Err? { return false; }
      processes[p] := Some(process.(env := env.value));
      return true;
    }

    /** `process_mut(id).remove_env(key)`: whether the key was bound. */
    method RemoveProcessEnv(p: nat, key: Bytes) returns (removed: bool)
      requires View().HasProcess(p)
      modifies processes
      ensures var env := Environments.WithoutKey(old(View()).Process(p).env, key);
              && removed == (env.Ok? && env.value.1)
              && View() == if env.Ok? then old(View()).WithProcess(p, old(View()).Process(p).(env := env.value.0))
                   else old(View())
    {
      var process := processes[p].value;
      var env := Environments.WithoutKey(process.env, key);
      if env.Err? { return false; }
      processes[p] := Some(process.(env := env.value.0));
      return env.value.1;
    }

    /** `process_mut(id).set_cwd(path)`. */
    method SetProcessCwd(p: nat, path: Bytes) returns (ok: bool)
      requires View().HasProcess(p)
      modifies processes
      ensures ok <==> path != [] && path[0] == SLASH && |path| <= 256
      ensures View() == if ok then old(View()).WithProcess(p, old(View()).Process(p).(cwd := path)) else old(View())
    {
      var process := processes[p].value.SetCwd(path);
      if process.None? { return false; }
      processes[p] := process;
      return true;
    }

    method MarkIdleThread(t: nat)
      modifies this
      ensures View() == old(View()).(idle := Some(t))
    {
      idleThread := Some(t);
    }

    /** The first half of `start`: the thread that is entered, or None to halt. */
    method Start() returns (first: Option<nat>)
      requires Linked(View())
      modifies this, threads
      ensures View() == Scheduling.Start(old(View())).0
      ensures first == Scheduling.Start(old(View())).1
    {
      first := NextRunnableThread(None);
      if first.None? { return; }
      NextIsNearest(View(), None);
      currentThread := first;
      SetState(first.value, OnCpu);
    }

    method NextRunnableThread(current: Option<nat>) returns (next: Option<nat>)
      requires Shaped(View()) && (idleThread.Some? ==> View().HasThread(idleThread.value))
      ensures next == NextRunnable(View(), current)
      ensures next.Some? ==> Ready(View(), next.value)
      ensures forall t :: Eligible(View(), t) ==>
                next.Some? && Eligible(View(), next.value) && Distance(current, next.value) <= Distance(current, t)
    {
      NextIsNearest(View(), current);
      next := NextNonIdleRunnableThread(current);
      if next.Some? { return; }
      if idleThread.Some? {
        var state := threads[idleThread.value].value.state;
        if state == Runnable || state == OnCpu { return idleThread; }
      }
    }

    method NextNonIdleRunnableThread(current: Option<nat>) returns (next: Option<nat>)
      requires Shaped(View())
      ensures next == FirstEligible(View(), current, 0)
    {
      hide FirstEligible;
      var start := ScanStart(current);
      var offset := 0;
      ghost var s := View();
      assert |s.threads| == MAX_THREADS;
      assert forall t :: 0 <= t < threads.Length && threads[t].Some? ==> threads[t].value.id == t;
      hide Shaped;
      while offset < threads.Length
        invariant 0 <= offset <= threads.Length
        invariant FirstEligible(s, current, 0) == FirstEligible(s, current, offset)
      {
        var index := (start + offset) % threads.Length;
        assert index == ScanSlot(current, offset);
        ScanOneSlot(s, current, offset);
        if threads[index].None? {
          offset := offset + 1;
          continue;
        }
        var thread := threads[index].value;
        if Some(thread.id) == idleThread {
          offset := offset + 1;
          continue;
        }
        if thread.state == Runnable || thread.state == OnCpu {
          return Some(thread.id);
        }
        offset := offset + 1;
      }
      ScanOneSlot(s, current, offset);
      return None;
    }
  }
}
