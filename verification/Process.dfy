// kernel/kernel/src/process.rs and kernel/kernel/src/thread.rs: the records
// the scheduler stores in its slot tables.
module Processes {
  import opened Prelude
  import Environments
  import Paths

  const MAX_PROCESS_HANDLES: nat := 8
  const INVALID_HANDLE: nat := U64_MAX

  datatype KernelObject = TerminalEndpoint | Null

  datatype StdioHandles = StdioHandles(stdin: nat, stdout: nat, stderr: nat)

  datatype ProcessState = Running | Exited(status: nat)

  datatype ProcessExitAction = Continue | ShutdownSystem

  /** What the loader hands over: root frame, entry, stack and owned frames. */
  datatype LoadedUserProgram =
    LoadedUserProgram(addressSpace: nat, entryPoint: nat, userStackTop: nat, ownedPages: seq<nat>)

  datatype Process = Process(
    id: nat, addressSpace: nat, handles: seq<Option<KernelObject>>, stdio: StdioHandles, state: ProcessState,
    waitingThread: Option<nat>, cwd: Bytes, env: Environments.Bindings, ownedPages: seq<nat>,
    exitAction: ProcessExitAction)
  {
    /** First free handle slot, when there is one. */
    function InstallHandle(target: KernelObject): Option<(Process, nat)> {
      var slot := FirstFree(handles);
      if slot < |handles| then Some((this.(handles := handles[slot := Some(target)]), slot)) else None
    }

    function ResolveHandle(handle: nat): Option<KernelObject> {
      if handle < |handles| then handles[handle] else None
    }

    function ResolveFd(fd: nat): Option<KernelObject> {
      if fd == 0 then ResolveHandle(stdio.stdin)
      else if fd == 1 then ResolveHandle(stdio.stdout)
      else if fd == 2 then ResolveHandle(stdio.stderr)
      else None
    }

    /** Installs three objects in order and binds them as stdin, stdout and stderr. */
    function BindStdio(stdin: KernelObject, stdout: KernelObject, stderr: KernelObject): Option<Process> {
      var a := InstallHandle(stdin);
      if a.None? then None else
      var b := a.value.0.InstallHandle(stdout);
      if b.None? then None else
      var c := b.value.0.InstallHandle(stderr);
      if c.None? then None else
      Some(c.value.0.(stdio := StdioHandles(a.value.1, b.value.1, c.value.1)))
    }

    /** `inherit_stdio_into`, or its silent form with null sinks for output. */
    function InheritStdio(child: Process, silent: bool): Option<Process> {
      var stdin := ResolveFd(0);
      var stdout := if silent then Some(Null) else ResolveFd(1);
      var stderr := if silent then Some(Null) else ResolveFd(2);
      if stdin.None? || stdout.None? || stderr.None? then None
      else child.BindStdio(stdin.value, stdout.value, stderr.value)
    }

    function SetCwd(path: Bytes): Option<Process> {
      if path == [] || path[0] != SLASH || |path| > Paths.MAX_CWD_LEN then None
      else Some(this.(cwd := path))
    }

    function InheritEnv(child: Process): Option<Process> {
      var env' := Environments.Inherit(env);
      if env'.Err? then None else Some(child.(env := env'.value))
    }
  }

  function NewProcess(id: nat, addressSpace: nat, ownedPages: seq<nat>, exitAction: ProcessExitAction): Process {
    Process(id, addressSpace, seq(MAX_PROCESS_HANDLES, _ => None),
            StdioHandles(INVALID_HANDLE, INVALID_HANDLE, INVALID_HANDLE), Running, None, [SLASH], [],
            ownedPages, exitAction)
  }

  // ---------------------------------------------------------------------------

  datatype ThreadState = Runnable | OnCpu | Blocked

  datatype ThreadBlockReason = NotBlocked | WaitingForChild(process: nat)

  datatype ThreadStart = Kernel | User(entryPoint: nat, userStackTop: nat)

  datatype Thread = Thread(
    id: nat, processId: nat, start: ThreadStart, state: ThreadState, blockReason: ThreadBlockReason,
    waitResult: Option<nat>)
  {
    function BlockForChild(process: nat): Thread {
      this.(state := Blocked, blockReason := WaitingForChild(process))
    }

    function Wake(): Thread {
      this.(state := Runnable, blockReason := NotBlocked)
    }
  }

  function NewThread(id: nat, processId: nat, start: ThreadStart): Thread {
    Thread(id, processId, start, Runnable, NotBlocked, None)
  }

  /** A process whose standard streams all resolve can hand them to any fresh child. */
  predicate HasStdio(p: Process) {
    p.ResolveFd(0).Some? && p.ResolveFd(1).Some? && p.ResolveFd(2).Some?
  }

  lemma FreshChildInheritsStdio(p: Process, child: Process, silent: bool)
    requires HasStdio(p)
    requires child.handles == seq(MAX_PROCESS_HANDLES, _ => None)
    ensures var r := p.InheritStdio(child, silent);
            && r.Some? && HasStdio(r.value)
            && r.value == child.(handles := r.value.handles, stdio := r.value.stdio)
            && |r.value.handles| == MAX_PROCESS_HANDLES
            && r.value.ResolveFd(0) == p.ResolveFd(0)
            && r.value.ResolveFd(1) == (if silent then Some(Null) else p.ResolveFd(1))
            && r.value.ResolveFd(2) == (if silent then Some(Null) else p.ResolveFd(2))
  {
    var stdin := p.ResolveFd(0).value;
    var stdout := if silent then Null else p.ResolveFd(1).value;
    var stderr := if silent then Null else p.ResolveFd(2).value;
    FreshChildBindsStdio(child, stdin, stdout, stderr);
  }

  /** What a child takes over: stdin, the cwd and the environment always, stdout and stderr unless it
      is silent, and then they lead nowhere. */
  ghost predicate Inherits(child: Process, parent: Process, silent: bool) {
    && parent.ResolveFd(0).Some? && child.ResolveFd(0) == parent.ResolveFd(0)
    && (if silent then child.ResolveFd(1) == Some(Null) && child.ResolveFd(2) == Some(Null)
        else
          && parent.ResolveFd(1).Some? && child.ResolveFd(1) == parent.ResolveFd(1)
          && parent.ResolveFd(2).Some? && child.ResolveFd(2) == parent.ResolveFd(2))
    && child.cwd == parent.cwd && (Environments.WellFormed(parent.env) ==> child.env == parent.env)
  }

  lemma FreshChildBindsStdio(child: Process, stdin: KernelObject, stdout: KernelObject, stderr: KernelObject)
    requires child.handles == seq(MAX_PROCESS_HANDLES, _ => None)
    ensures var r := child.BindStdio(stdin, stdout, stderr);
            && r.Some?
            && r.value == child.(handles := r.value.handles, stdio := r.value.stdio)
            && |r.value.handles| == MAX_PROCESS_HANDLES
            && r.value.ResolveFd(0) == Some(stdin)
            && r.value.ResolveFd(1) == Some(stdout)
            && r.value.ResolveFd(2) == Some(stderr)
  {
    var a := child.InstallHandle(stdin).value;
    assert a.1 == 0 && a.0.handles == child.handles[0 := Some(stdin)];
    assert a.0.handles[1].None?;
    var b := a.0.InstallHandle(stdout).value;
    assert b.1 == 1 && b.0.handles == a.0.handles[1 := Some(stdout)];
    assert b.0.handles[2].None?;
    var c := b.0.InstallHandle(stderr).value;
    assert c.1 == 2 && c.0.handles == b.0.handles[2 := Some(stderr)];
  }
}
