// The exit step: the deepest process leaves, and its parent wakes with the status.
module SchedulerExit {
  import opened Prelude
  import opened Processes
  import opened Scheduling
  import opened SchedulerRuns
  import opened SchedulerSafety

  ghost function Parent(chain: seq<Link>): Link
    requires |chain| > 1
  {
    chain[|chain| - 2]
  }

  /** The exit of a child, as one update of the tables: the waiting parent is entered directly. */
  lemma ExitShape(s: Sched, chain: seq<Link>, status: nat)
    requires |chain| > 1 && Tables(s, chain, s.current) && s.current == Some(Tail(chain).tid) && CanExit(s)
    ensures Orphaned(s, chain, status).HasThread(Parent(chain).tid) && s.HasThread(Parent(chain).tid)
    ensures var s' := Resume(Orphaned(s, chain, status), Parent(chain).tid);
            && s'.HasThread(Parent(chain).tid) && s'.HasProcess(s'.OwnerOf(Parent(chain).tid))
            && s'.Thread(Parent(chain).tid) ==
                 s.Thread(Parent(chain).tid).(state := OnCpu, blockReason := NotBlocked, waitResult := Some(status))
            && PrepareExit(s, status) == (s', Some(SwitchTo(Parent(chain).tid, SpaceOf(s', Parent(chain).tid),
                                                           Pages(s, Tail(chain).pid))))
  {
    var n := |chain| - 1;
    LinkFacts(s, chain, n);
    LinkFacts(s, chain, n - 1);
    assert ParkedAt(s, chain, n - 1);
    assert s.Process(chain[n].pid).exitAction == Continue;
    hide Members, Waits, Roles;
  }

  /** What an exit writes down. */
  ghost predicate Departed(m: Machine, m': Machine, tail: Link, status: nat) {
    && tail.pid in m.instance
    && m'.instance == m.instance - {tail.pid} && m'.nextInstance == m.nextInstance && m'.awaiting == m.awaiting
    && m'.log == m.log + [ExitedWith(m.instance[tail.pid], status)]
  }

  lemma NumberedAfterExit(m: Machine, m': Machine, tail: Link, status: nat)
    requires Numbered(m.instance, m.nextInstance, m.log) && Departed(m, m', tail, status)
    ensures Numbered(m'.instance, m'.nextInstance, m'.log)
  {
  }

  /** No instance exits twice. */
  lemma HistoryAfterExit(m: Machine, m': Machine, tail: Link, status: nat)
    requires Numbered(m.instance, m.nextInstance, m.log) && Departed(m, m', tail, status)
    requires History(m.log, m.nextInstance)
    ensures History(m'.log, m'.nextInstance)
  {
    forall k | 0 <= k < |m'.log| && m'.log[k].WaitReturned? ensures ReturnedRightly(m'.log[..k], m'.log[k]) {
      assert m'.log[..k] == m.log[..k];
    }
  }

  lemma AwaitsAfterExit(m: Machine, m': Machine, link: Link, child: Link, tail: Link, status: nat)
    requires Awaits(m, link, child) && Departed(m, m', tail, status)
    requires link.pid != tail.pid && child.pid != tail.pid
    ensures Awaits(m', link, child)
  {
  }

  /** The parent is awake with the status its child passed to exit. */
  lemma ParentIsWoken(m: Machine, m': Machine, parent: Link, tail: Link, status: nat)
    requires Awaits(m, parent, tail) && Departed(m, m', tail, status) && parent.pid != tail.pid
    requires m'.s.HasThread(parent.tid) && m'.s.Thread(parent.tid).waitResult == Some(status)
    requires m'.s.current == Some(parent.tid)
    ensures TailAwaits(m', parent)
  {
    assert m'.log[|m.log|] == ExitedWith(m.instance[tail.pid], status);
  }

  lemma ExitAwaits(m: Machine, m': Machine, chain: seq<Link>, chain': seq<Link>, status: nat)
    requires |chain| > 1 && chain' == chain[..|chain| - 1] && Departed(m, m', Tail(chain), status)
    requires forall i :: 0 <= i < |chain| - 1 ==> AwaitsAt(m, chain, i) && chain[i].pid != Tail(chain).pid
    ensures forall i :: 0 <= i < |chain'| - 1 ==> AwaitsAt(m', chain', i)
  {
    var n := |chain| - 1;
    hide Awaits, Departed;
    forall i | 0 <= i < n - 1 ensures AwaitsAt(m', chain', i) {
      assert AwaitsAt(m, chain, i);
      AwaitsAfterExit(m, m', chain[i], chain[i + 1], chain[n], status);
    }
  }

  lemma AwaitedOnShorterChain(chain: seq<Link>, t: nat)
    requires chain != [] && OnChain(chain, t) && t != Tail(chain).tid
    ensures OnChain(chain[..|chain| - 1], t)
  {
    var i :| 0 <= i < |chain| && chain[i].tid == t;
    assert chain[..|chain| - 1][i].tid == t;
  }

  lemma ExitIdentities(m: Machine, m': Machine, chain: seq<Link>, chain': seq<Link>, status: nat)
    requires |chain| > 1 && chain' == chain[..|chain| - 1] && Members(m.s, chain) && Identities(m, chain)
    requires Tail(chain).tid !in m.awaiting
    requires Departed(m, m', Tail(chain), status) && Members(m'.s, chain')
    requires m'.s.HasThread(Parent(chain).tid) && m'.s.Thread(Parent(chain).tid).waitResult == Some(status)
    requires m'.s.current == Some(Parent(chain).tid)
    ensures Identities(m', chain')
  {
    hide Members, Numbered, LinkOk, TailAwaits, Awaits, Departed, OnChain;
    TailApart(m.s, chain);
    NumberedAfterExit(m, m', Tail(chain), status);
    ExitInstances(m, m', chain, status);
    assert AwaitsAt(m, chain, |chain| - 2);
    assert Tail(chain') == Parent(chain);
    assert Awaits(m, Parent(chain), Tail(chain));
    hide AwaitsAt;
    ExitAwaits(m, m', chain, chain', status);
    ExitAwaited(m, m', chain, chain', status);
    ParentIsWoken(m, m', Parent(chain), Tail(chain), status);
    hide Identities;
    AssembleIdentities(m', chain');
  }

  lemma TailApart(s: Sched, chain: seq<Link>)
    requires |chain| > 1 && Members(s, chain)
    ensures Tail(chain).pid != 0 && forall i :: 0 <= i < |chain| - 1 ==> chain[i].pid != Tail(chain).pid
  {
    assert LinkOk(s, Tail(chain));
  }

  lemma AssembleIdentities(m: Machine, chain: seq<Link>)
    requires Members(m.s, chain) && Numbered(m.instance, m.nextInstance, m.log) && 0 in m.instance
    requires m.s.HasThread(Tail(chain).tid) && TailAwaits(m, Tail(chain))
    requires forall i :: 0 <= i < |chain| ==> chain[i].pid in m.instance
    requires forall t :: t in m.awaiting ==> OnChain(chain, t)
    requires forall i :: 0 <= i < |chain| - 1 ==> AwaitsAt(m, chain, i)
    ensures Identities(m, chain)
  {
  }

  lemma ExitAwaited(m: Machine, m': Machine, chain: seq<Link>, chain': seq<Link>, status: nat)
    requires chain != [] && chain' == chain[..|chain| - 1]
    requires Departed(m, m', Tail(chain), status) && Tail(chain).tid !in m.awaiting
    requires forall t :: t in m.awaiting ==> OnChain(chain, t)
    ensures forall t :: t in m'.awaiting ==> OnChain(chain', t)
  {
    forall t | t in m'.awaiting ensures OnChain(chain', t) {
      AwaitedOnShorterChain(chain, t);
    }
  }

  lemma ExitInstances(m: Machine, m': Machine, chain: seq<Link>, status: nat)
    requires chain != [] && Departed(m, m', Tail(chain), status) && 0 in m.instance && Tail(chain).pid != 0
    requires forall i :: 0 <= i < |chain| ==> chain[i].pid in m.instance
    requires forall i :: 0 <= i < |chain| - 1 ==> chain[i].pid != Tail(chain).pid
    ensures 0 in m'.instance
    ensures forall i :: 0 <= i < |chain| - 1 ==> chain[i].pid in m'.instance
  {
  }

  lemma ExitSnapshot(s: Sched, s': Sched, lost: set<nat>, chain: seq<Link>, i: nat, p: Pending, total: set<nat>)
    requires i < |chain| - 1 && Snapshot(s, lost, chain, i, p, total)
    requires forall j :: 0 <= j <= i ==> SamePages(s, s', chain[j].pid)
    ensures Snapshot(s', lost, chain[..|chain| - 1], i, p, total)
  {
    var chain' := chain[..|chain| - 1];
    SnapshotKept(s, s', lost, lost, chain, i, p, total);
    hide SamePages;
    assert chain'[..i + 1] == chain[..i + 1];
    forall x ensures x in p.free <==> x in total && x !in p.lost && !Owns(s', chain', i + 1, x) {
      OwnsOfPrefix(s', chain', chain, i + 1, x);
    }
  }

  /** The other processes keep their pages. */
  lemma OrphanKeepsPages(s: Sched, chain: seq<Link>, status: nat)
    requires |chain| > 1 && Members(s, chain)
    requires Orphaned(s, chain, status).HasThread(Parent(chain).tid)
    ensures var s' := Resume(Orphaned(s, chain, status), Parent(chain).tid);
            && SamePages(s, s', 0)
            && forall i :: 0 <= i < |chain| - 1 ==> SamePages(s, s', chain[i].pid)
  {
    LinkFacts(s, chain, |chain| - 1);
  }

  lemma ExitTables(s: Sched, chain: seq<Link>, status: nat)
    requires |chain| > 1 && Tables(s, chain, Some(Tail(chain).tid))
    ensures Orphaned(s, chain, status).HasThread(Parent(chain).tid)
    ensures Tables(Resume(Orphaned(s, chain, status), Parent(chain).tid), chain[..|chain| - 1], Some(Parent(chain).tid))
  {
    OrphanKeepsTables(s, chain, status);
    assert Tail(chain[..|chain| - 1]) == Parent(chain);
    hide Tables;
    ResumeKeepsTables(Orphaned(s, chain, status), chain[..|chain| - 1], Parent(chain).tid);
  }

  /** The machine after a child's exit, given what its tables look like. */
  lemma DepartedKeeps(m: Machine, m': Machine, chain: seq<Link>, status: nat, total: set<nat>)
    requires |chain| > 1 && Good(m, chain, total) && Tail(chain).tid !in m.awaiting
    requires Departed(m, m', Tail(chain), status)
    requires m'.lost == m.lost && m'.free == m.free + Elements(Pages(m.s, Tail(chain).pid))
    requires m'.s.current == Some(Parent(chain).tid) && Tables(m'.s, chain[..|chain| - 1], m'.s.current)
    requires m'.s.HasThread(Parent(chain).tid) && m'.s.Thread(Parent(chain).tid).waitResult == Some(status)
    requires m'.s.HasProcess(m'.s.OwnerOf(Parent(chain).tid))
    requires SamePages(m.s, m'.s, 0) && forall i :: 0 <= i < |chain| - 1 ==> SamePages(m.s, m'.s, chain[i].pid)
    requires m'.active == SpaceOf(m'.s, Parent(chain).tid)
    ensures Good(m', chain[..|chain| - 1], total)
  {
    hide Members, Memory, Identities, SamePages;
    var chain' := chain[..|chain| - 1];
    ExitIdentities(m, m', chain, chain', status);
    MemoryAfterPop(m.s, m'.s, m.free, m.lost, chain, total);
    hide Tables, Departed;
    forall i | 0 <= i < |chain'| && chain'[i].tid in m'.awaiting
      ensures Snapshot(m'.s, m'.lost, chain', i, m'.awaiting[chain'[i].tid], total)
    {
      assert chain'[i] == chain[i];
      ExitSnapshot(m.s, m'.s, m.lost, chain, i, m.awaiting[chain[i].tid], total);
    }
  }

  lemma ExitRecord(m: Machine, status: nat, tail: Link)
    requires Safe(m, Exit(status)) && m.s.current == Some(tail.tid) && m.s.OwnerOf(tail.tid) == tail.pid
    ensures Departed(m, ExitStep(m, status), tail, status)
    ensures PrepareExit(m.s, status).1.None? || PrepareExit(m.s, status).1.value.Shutdown? ==> !ExitStep(m, status).up
    ensures var (s', exit) := PrepareExit(m.s, status);
            var m' := ExitStep(m, status);
            && m'.s == s' && m'.lost == m.lost
            && (exit.Some? && exit.value.SwitchTo? ==>
                  m'.up == m.up && m'.free == m.free + Elements(exit.value.released) && m'.active == exit.value.space)
  {
    hide PrepareExit, Linked;
  }

  /** The bootstrap process has no waiter and shuts the system down. */
  lemma LastExitShutsDown(s: Sched, chain: seq<Link>, status: nat)
    requires Tables(s, chain, s.current) && s.current == Some(Tail(chain).tid) && CanExit(s) && |chain| == 1
    ensures PrepareExit(s, status).1 == Some(Shutdown(Pages(s, 1)))
  {
    LinkFacts(s, chain, 0);
  }

  lemma ChildExit(m: Machine, status: nat, chain: seq<Link>, total: set<nat>)
    requires |chain| > 1 && Good(m, chain, total) && Safe(m, Exit(status))
    requires m.s.current == Some(Tail(chain).tid) && Tail(chain).tid !in m.awaiting
    requires Departed(m, ExitStep(m, status), Tail(chain), status) && LinkOk(m.s, Tail(chain))
    ensures Good(ExitStep(m, status), chain[..|chain| - 1], total)
  {
    var m' := ExitStep(m, status);
    ExitRecord(m, status, Tail(chain));
    hide Safe, Memory, Identities, Departed;
    ExitShape(m.s, chain, status);
    OrphanKeepsPages(m.s, chain, status);
    hide CanExit, Linked, PrepareExit, SamePages, Members;
    ExitTables(m.s, chain, status);
    hide Tables, Orphaned, Resume;
    DepartedKeeps(m, m', chain, status, total);
  }

  lemma ExitKeeps(m: Machine, status: nat, chain: seq<Link>, total: set<nat>) returns (chain': seq<Link>)
    requires Good(m, chain, total) && Offered(m, Exit(status)) && Safe(m, Exit(status))
    requires History(m.log, m.nextInstance)
    ensures Invariant(ExitStep(m, status), chain', total)
  {
    chain' := chain[..|chain| - 1];
    GoodFacts(m, chain, total);
    TailIsNotWoken(m, chain, total);
    var tail := Tail(chain);
    ExitRecord(m, status, tail);
    HistoryAfterExit(m, ExitStep(m, status), tail, status);
    hide Members, Memory, Identities, Linked, History, Departed;
    if |chain| == 1 {
      LastExitShutsDown(m.s, chain, status);
    } else {
      ChildExit(m, status, chain, total);
    }
  }
}
