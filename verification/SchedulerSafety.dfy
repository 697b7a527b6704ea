// The invariant of every run, and what it says about waiting, exit statuses,
// memory ownership and working directories.
module SchedulerSafety {
  import opened Prelude
  import opened Processes
  import opened Scheduling
  import opened SchedulerRuns
  import Environments
  import Paths

  // ---------------------------------------------------------------------------
  // Counting: seven user processes at most, so a thread slot is always free.

  /** Distinct members of a set are at most as many as the set has. */
  lemma {:induction false} DistinctFitIn(xs: seq<nat>, s: set<nat>)
    requires Distinct(xs) && forall i :: 0 <= i < |xs| ==> xs[i] in s
    ensures |xs| <= |s|
    decreases |xs|
  {
    if xs != [] {
      var n := |xs| - 1;
      DistinctFitIn(xs[..n], s - {xs[n]});
    }
  }

  ghost function Pids(chain: seq<Link>): seq<nat> {
    seq(|chain|, i requires 0 <= i < |chain| => chain[i].pid)
  }

  ghost function Tids(chain: seq<Link>): seq<nat> {
    seq(|chain|, i requires 0 <= i < |chain| => chain[i].tid)
  }

  lemma ChainIsShort(s: Sched, chain: seq<Link>)
    requires Members(s, chain)
    ensures |chain| <= MAX_PROCESSES - 1
  {
    var slots: set<nat> := {1, 2, 3, 4, 5, 6, 7};
    forall i | 0 <= i < |chain| ensures Pids(chain)[i] in slots {
      assert LinkOk(s, chain[i]);
    }
    DistinctFitIn(Pids(chain), slots);
  }

  lemma {:induction false} SeqSetSize(xs: seq<nat>)
    ensures |Elements(xs)| <= |xs|
  {
    if xs != [] {
      var n := |xs| - 1;
      SeqSetSize(xs[..n]);
      assert Elements(xs) == Elements(xs[..n]) + {xs[n]};
    }
  }

  ghost function LiveThreads(s: Sched): set<nat> {
    set t | 0 <= t < |s.threads| && s.threads[t].Some?
  }

  /** At most 2 + 7 of the 12 thread slots are taken. */
  lemma FewThreads(s: Sched, chain: seq<Link>)
    requires Members(s, chain)
    ensures |LiveThreads(s)| <= 9
  {
    hide Members, LiveThreads, Elements;
    ChainIsShort(s, chain);
    SeqSetSize(Tids(chain));
    var tids := Elements(Tids(chain));
    forall t | t in LiveThreads(s) ensures t in tids + {TERMINAL, IDLE} {
      LiveThreadIsKnown(s, chain, t);
    }
    SubsetSize(LiveThreads(s), tids + {TERMINAL, IDLE});
    assert tids + {TERMINAL, IDLE} == tids + ({TERMINAL, IDLE} - tids);
    SubsetSize({TERMINAL, IDLE} - tids, {TERMINAL, IDLE});
  }

  lemma LiveThreadIsKnown(s: Sched, chain: seq<Link>, t: nat)
    requires Members(s, chain) && t in LiveThreads(s)
    ensures t == TERMINAL || t == IDLE || t in Elements(Tids(chain))
  {
    if t != TERMINAL && t != IDLE {
      var i :| 0 <= i < |chain| && chain[i].tid == t;
      assert Tids(chain)[i] == t;
    }
  }

  lemma ThreadSlotIsFree(s: Sched, chain: seq<Link>)
    requires Members(s, chain)
    ensures FirstFree(s.threads) < MAX_THREADS
  {
    FewThreads(s, chain);
    if FirstFree(s.threads) == MAX_THREADS {
      FullTable(s, MAX_THREADS);
    }
  }

  lemma {:induction false} FullTable(s: Sched, n: nat)
    requires n <= |s.threads| && forall t :: 0 <= t < n ==> s.threads[t].Some?
    ensures |LiveThreads(s)| >= n
    decreases n
  {
    if n > 0 {
      var front := s.(threads := s.threads[..n - 1]);
      FullTable(front, n - 1);
      assert n - 1 !in LiveThreads(front);
      SubsetSize(LiveThreads(front) + {n - 1}, LiveThreads(s));
    }
  }

  // ---------------------------------------------------------------------------
  // Identity and history.

  /** Instances are numbered apart, and exits are of instances no longer live. */
  ghost predicate Numbered(instance: map<nat, nat>, next: nat, log: seq<Event>) {
    && (forall p :: p in instance ==> instance[p] < next)
    && (forall p, q :: p in instance && q in instance && p != q ==> instance[p] != instance[q])
    && (forall k :: 0 <= k < |log| && log[k].ExitedWith? ==> log[k].instance < next)
    && (forall k, p :: 0 <= k < |log| && log[k].ExitedWith? && p in instance ==> instance[p] != log[k].instance)
  }

  /** Each blocked thread awaits exactly the instance it spawned. */
  ghost predicate Identities(m: Machine, chain: seq<Link>)
    requires Members(m.s, chain)
  {
    && Numbered(m.instance, m.nextInstance, m.log)
    && 0 in m.instance
    && (forall i :: 0 <= i < |chain| ==> chain[i].pid in m.instance)
    && (forall t :: t in m.awaiting ==> OnChain(chain, t))
    && (forall i :: 0 <= i < |chain| - 1 ==> AwaitsAt(m, chain, i))
    && TailAwaits(m, Tail(chain))
  }

  ghost predicate AwaitsAt(m: Machine, chain: seq<Link>, i: nat)
    requires i + 1 < |chain|
  {
    Awaits(m, chain[i], chain[i + 1])
  }

  ghost predicate Awaits(m: Machine, link: Link, child: Link) {
    && link.tid in m.awaiting && link.pid in m.instance && child.pid in m.instance
    && m.awaiting[link.tid].child == m.instance[child.pid]
    && Spawned(m.instance[link.pid], m.instance[child.pid]) in m.log
  }

  /** The deepest thread either runs its own code, or was just woken with a status. */
  ghost predicate TailAwaits(m: Machine, tail: Link)
    requires m.s.HasThread(tail.tid)
  {
    var result := m.s.Thread(tail.tid).waitResult;
    if tail.tid in m.awaiting then
      && m.s.current == Some(tail.tid) && result.Some? && tail.pid in m.instance
      && ExitedWith(m.awaiting[tail.tid].child, result.value) in m.log
      && Spawned(m.instance[tail.pid], m.awaiting[tail.tid].child) in m.log
    else result.None?
  }

  /** What the observer's log may contain. */
  ghost predicate History(log: seq<Event>, nextInstance: nat) {
    && (forall k :: 0 <= k < |log| && log[k].Spawned? ==> log[k].child < nextInstance)
    && (forall j, k :: 0 <= j < k < |log| && log[j].Spawned? && log[k].Spawned? ==> log[j].child != log[k].child)
    && (forall j, k :: 0 <= j < k < |log| && log[j].ExitedWith? && log[k].ExitedWith? ==>
          log[j].instance != log[k].instance)
    && (forall k :: 0 <= k < |log| && log[k].WaitReturned? ==> ReturnedRightly(log[..k], log[k]))
  }

  /** The wait returned the status of the very instance its parent spawned. */
  ghost predicate ReturnedRightly(before: seq<Event>, e: Event)
    requires e.WaitReturned?
  {
    && e.result.Some?
    && ExitedWith(e.child, e.result.value) in before
    && Spawned(e.parent, e.child) in before
  }

  // ---------------------------------------------------------------------------
  // Memory.

  ghost function Pages(s: Sched, p: nat): seq<nat> {
    if s.HasProcess(p) then s.Process(p).ownedPages else []
  }

  /** `x` belongs to one of the first `n` processes of the chain. */
  ghost predicate Owns(s: Sched, chain: seq<Link>, n: nat, x: nat)
    requires n <= |chain|
  {
    exists j :: 0 <= j < n && x in Pages(s, chain[j].pid)
  }

  /** Every page is free, lost or owned by one process, and every user root is owned. */
  ghost predicate Memory(s: Sched, free: set<nat>, lost: set<nat>, chain: seq<Link>, total: set<nat>) {
    && free <= total && lost <= total && free !! lost
    && (forall x :: x in total ==> x in free || x in lost || Owns(s, chain, |chain|, x))
    && (forall i :: 0 <= i < |chain| ==> OwnedApart(s, free, lost, chain[i].pid, total))
    && Disjoint(s, chain)
    && s.HasProcess(0) && s.Process(0).addressSpace !in total
  }

  ghost predicate Disjoint(s: Sched, chain: seq<Link>) {
    forall i, j, x :: 0 <= i < j < |chain| && x in Pages(s, chain[i].pid) ==> x !in Pages(s, chain[j].pid)
  }

  ghost predicate OwnedApart(s: Sched, free: set<nat>, lost: set<nat>, p: nat, total: set<nat>) {
    && s.HasProcess(p) && Distinct(s.Process(p).ownedPages)
    && s.Process(p).addressSpace in s.Process(p).ownedPages
    && forall x :: x in s.Process(p).ownedPages ==> x in total && x !in free && x !in lost
  }

  /** The memory noted when link `i` spawned: everything but what was lost by then
      and what the chain up to `i` owns. */
  ghost predicate Snapshot(s: Sched, lost: set<nat>, chain: seq<Link>, i: nat, p: Pending, total: set<nat>)
    requires i < |chain|
  {
    p.lost <= lost && forall x :: x in p.free <==> x in total && x !in p.lost && !Owns(s, chain, i + 1, x)
  }

  ghost predicate Snapshots(m: Machine, chain: seq<Link>, total: set<nat>) {
    forall i :: 0 <= i < |chain| && chain[i].tid in m.awaiting ==>
      Snapshot(m.s, m.lost, chain, i, m.awaiting[chain[i].tid], total)
  }

  // ---------------------------------------------------------------------------

  /** The invariant of a running machine. */
  ghost predicate Good(m: Machine, chain: seq<Link>, total: set<nat>) {
    && m.s.current.Some?
    && Tables(m.s, chain, m.s.current)
    && Identities(m, chain)
    && Memory(m.s, m.free, m.lost, chain, total)
    && Snapshots(m, chain, total)
    && m.s.HasThread(m.s.current.value) && m.s.HasProcess(m.s.OwnerOf(m.s.current.value))
    && m.active == SpaceOf(m.s, m.s.current.value)
  }

  ghost predicate Invariant(m: Machine, chain: seq<Link>, total: set<nat>) {
    History(m.log, m.nextInstance) && (m.up ==> Good(m, chain, total))
  }

  // Memory is kept by every step that keeps the pages and roots of the processes.

  ghost predicate SamePages(s: Sched, s': Sched, p: nat) {
    && (s.HasProcess(p) <==> s'.HasProcess(p))
    && (s.HasProcess(p) ==> s'.Process(p).ownedPages == s.Process(p).ownedPages
                            && s'.Process(p).addressSpace == s.Process(p).addressSpace)
  }

  lemma OwnsDependsOnPages(s: Sched, s': Sched, chain: seq<Link>, n: nat, x: nat)
    requires n <= |chain| && forall i :: 0 <= i < n ==> SamePages(s, s', chain[i].pid)
    ensures Owns(s, chain, n, x) <==> Owns(s', chain, n, x)
  {
    forall i | 0 <= i < n ensures Pages(s, chain[i].pid) == Pages(s', chain[i].pid) {
      assert SamePages(s, s', chain[i].pid);
    }
  }

  lemma SamePagesKeepMemory(s: Sched, s': Sched, free: set<nat>, lost: set<nat>, chain: seq<Link>, total: set<nat>)
    requires Memory(s, free, lost, chain, total)
    requires SamePages(s, s', 0) && forall i :: 0 <= i < |chain| ==> SamePages(s, s', chain[i].pid)
    ensures Memory(s', free, lost, chain, total)
  {
    hide Disjoint, OwnedApart, Owns, SamePages;
    forall x ensures Owns(s', chain, |chain|, x) <==> Owns(s, chain, |chain|, x) {
      OwnsDependsOnPages(s, s', chain, |chain|, x);
    }
    forall i | 0 <= i < |chain| ensures OwnedApart(s', free, lost, chain[i].pid, total) {
      SamePagesOwnedApart(s, s', free, lost, chain[i].pid, total);
    }
    SamePagesKeepDisjoint(s, s', chain);
    SamePagesKeepKernelRoot(s, s', total);
  }

  lemma SamePagesKeepKernelRoot(s: Sched, s': Sched, total: set<nat>)
    requires SamePages(s, s', 0) && s.HasProcess(0) && s.Process(0).addressSpace !in total
    ensures s'.HasProcess(0) && s'.Process(0).addressSpace !in total
  {
  }

  lemma SamePagesOwnedApart(s: Sched, s': Sched, free: set<nat>, lost: set<nat>, p: nat, total: set<nat>)
    requires SamePages(s, s', p) && OwnedApart(s, free, lost, p, total)
    ensures OwnedApart(s', free, lost, p, total)
  {
  }

  lemma SamePagesKeepDisjoint(s: Sched, s': Sched, chain: seq<Link>)
    requires Disjoint(s, chain) && forall i :: 0 <= i < |chain| ==> SamePages(s, s', chain[i].pid)
    ensures Disjoint(s', chain)
  {
    forall i, j, x | 0 <= i < j < |chain| && x in Pages(s', chain[i].pid) ensures x !in Pages(s', chain[j].pid) {
      assert SamePages(s, s', chain[i].pid) && SamePages(s, s', chain[j].pid);
      assert x in Pages(s, chain[i].pid);
    }
  }

  lemma SnapshotKept(s: Sched, s': Sched, lost: set<nat>, lost': set<nat>, chain: seq<Link>, i: nat, p: Pending,
                     total: set<nat>)
    requires i < |chain| && lost <= lost' && Snapshot(s, lost, chain, i, p, total)
    requires forall j :: 0 <= j <= i ==> SamePages(s, s', chain[j].pid)
    ensures Snapshot(s', lost', chain, i, p, total)
  {
    forall x ensures x in p.free <==> x in total && x !in p.lost && !Owns(s', chain, i + 1, x) {
      OwnsDependsOnPages(s, s', chain, i + 1, x);
    }
  }

  /** A longer chain with the same beginning owns the same at the beginning. */
  lemma OwnsOfPrefix(s: Sched, a: seq<Link>, b: seq<Link>, n: nat, x: nat)
    requires n <= |a| && n <= |b| && a[..n] == b[..n]
    ensures Owns(s, a, n, x) <==> Owns(s, b, n, x)
  {
    forall i | 0 <= i < n ensures a[i] == b[i] {
      assert a[..n][i] == b[..n][i];
    }
  }

  lemma MemoryAfterPush(s: Sched, s': Sched, free: set<nat>, lost: set<nat>, chain: seq<Link>, total: set<nat>,
                        link: Link)
    requires Memory(s, free, lost, chain, total)
    requires SamePages(s, s', 0) && forall i :: 0 <= i < |chain| ==> SamePages(s, s', chain[i].pid)
    requires s'.HasProcess(link.pid) && Distinct(s'.Process(link.pid).ownedPages)
    requires Elements(s'.Process(link.pid).ownedPages) <= free
    requires s'.Process(link.pid).addressSpace in s'.Process(link.pid).ownedPages
    ensures Memory(s', free - Elements(s'.Process(link.pid).ownedPages), lost, chain + [link], total)
  {
    var taken := Elements(s'.Process(link.pid).ownedPages);
    var free', chain' := free - taken, chain + [link];
    SamePagesKeepMemory(s, s', free, lost, chain, total);
    forall x | x in total ensures x in free' || x in lost || Owns(s', chain', |chain'|, x) {
      PushOwns(s', chain, link, x);
    }
    forall i | 0 <= i < |chain'| ensures OwnedApart(s', free', lost, chain'[i].pid, total) {
      if i < |chain| {
        assert OwnedApart(s', free, lost, chain[i].pid, total);
      } else {
        assert forall x :: x in s'.Process(link.pid).ownedPages ==> x in taken;
      }
    }
    forall i, j, x | 0 <= i < j < |chain'| && x in Pages(s', chain'[i].pid) ensures x !in Pages(s', chain'[j].pid) {
      if j == |chain| {
        assert OwnedApart(s', free, lost, chain[i].pid, total);
        assert x !in taken;
      }
    }
  }

  lemma PushOwns(s: Sched, chain: seq<Link>, link: Link, x: nat)
    ensures Owns(s, chain + [link], |chain| + 1, x) <==> Owns(s, chain, |chain|, x) || x in Pages(s, link.pid)
  {
    var chain' := chain + [link];
    assert chain'[|chain|] == link;
    assert forall i :: 0 <= i < |chain| ==> chain'[i] == chain[i];
  }

  lemma MemoryAfterPop(s: Sched, s': Sched, free: set<nat>, lost: set<nat>, chain: seq<Link>, total: set<nat>)
    requires chain != [] && Memory(s, free, lost, chain, total)
    requires SamePages(s, s', 0) && forall i :: 0 <= i < |chain| - 1 ==> SamePages(s, s', chain[i].pid)
    ensures Memory(s', free + Elements(Pages(s, Tail(chain).pid)), lost, chain[..|chain| - 1], total)
  {
    var n := |chain| - 1;
    var chain', released := chain[..n], Elements(Pages(s, chain[n].pid));
    var free' := free + released;
    assert OwnedApart(s, free, lost, chain[n].pid, total);
    assert forall x :: x in released <==> x in Pages(s, chain[n].pid);
    forall x | x in total ensures x in free' || x in lost || Owns(s', chain', n, x) {
      if x !in free && x !in lost { PopOwns(s, s', chain, x); }
    }
    forall i | 0 <= i < n ensures OwnedApart(s', free', lost, chain'[i].pid, total) {
      OwnedAfterPop(s, s', free, lost, chain, total, i);
    }
    assert Disjoint(s, chain');
    SamePagesKeepDisjoint(s, s', chain');
    hide Disjoint, OwnedApart, Owns, Distinct;
  }

  lemma PopOwns(s: Sched, s': Sched, chain: seq<Link>, x: nat)
    requires chain != [] && Owns(s, chain, |chain|, x)
    requires forall i :: 0 <= i < |chain| - 1 ==> SamePages(s, s', chain[i].pid)
    ensures x in Pages(s, Tail(chain).pid) || Owns(s', chain[..|chain| - 1], |chain| - 1, x)
  {
    var n := |chain| - 1;
    assert chain == chain[..n] + [chain[n]];
    PushOwns(s, chain[..n], chain[n], x);
    OwnsDependsOnPages(s, s', chain[..n], n, x);
  }

  lemma OwnedAfterPop(s: Sched, s': Sched, free: set<nat>, lost: set<nat>, chain: seq<Link>, total: set<nat>, i: nat)
    requires Memory(s, free, lost, chain, total) && i < |chain| - 1 && SamePages(s, s', chain[i].pid)
    ensures OwnedApart(s', free + Elements(Pages(s, Tail(chain).pid)), lost, chain[i].pid, total)
  {
    assert OwnedApart(s, free, lost, chain[i].pid, total);
    assert forall x :: x in Pages(s, chain[i].pid) ==> x !in Pages(s, Tail(chain).pid);
  }

  lemma MemoryAfterLoss(s: Sched, free: set<nat>, lost: set<nat>, chain: seq<Link>, total: set<nat>, more: set<nat>)
    requires Memory(s, free, lost, chain, total) && more <= free
    ensures Memory(s, free - more, lost + more, chain, total)
  {
    forall i | 0 <= i < |chain| ensures OwnedApart(s, free - more, lost + more, chain[i].pid, total) {
      assert OwnedApart(s, free, lost, chain[i].pid, total);
    }
  }

  // ---------------------------------------------------------------------------
  // Each step keeps the invariant.

  lemma GoodFacts(m: Machine, chain: seq<Link>, total: set<nat>)
    requires Good(m, chain, total)
    ensures Linked(m.s) && Safe(m, Yield)
    ensures LinkOk(m.s, Tail(chain))
    ensures var c := m.s.current.value; c == TERMINAL || c == IDLE || c == Tail(chain).tid
    ensures m.s.Thread(m.s.current.value).start.User? ==> m.s.current == Some(Tail(chain).tid)
  {
    MembersAreLinked(m.s, chain);
    LinkFacts(m.s, chain, |chain| - 1);
  }

  /** No request that can be made runs into a failing `expect`. */
  lemma OfferedIsSafe(m: Machine, a: Action, chain: seq<Link>, total: set<nat>)
    requires Good(m, chain, total) && Offered(m, a)
    ensures Safe(m, a)
  {
    GoodFacts(m, chain, total);
    if a.Exit? {
      TailCanExit(m.s, chain);
    }
  }

  /** A step that leaves pages, instances, waits and the log alone keeps the invariant. */
  lemma QuietStep(m: Machine, m': Machine, chain: seq<Link>, total: set<nat>)
    requires Good(m, chain, total) && Tail(chain).tid !in m.awaiting
    requires m' == m.(s := m'.s, active := m'.active)
    requires m'.s.current.Some? && Tables(m'.s, chain, m'.s.current)
    requires m'.s.Thread(Tail(chain).tid).waitResult == None
    requires SamePages(m.s, m'.s, 0) && forall i :: 0 <= i < |chain| ==> SamePages(m.s, m'.s, chain[i].pid)
    requires m'.s.HasThread(m'.s.current.value) && m'.s.HasProcess(m'.s.OwnerOf(m'.s.current.value))
    requires m'.active == SpaceOf(m'.s, m'.s.current.value)
    ensures Good(m', chain, total)
  {
    SamePagesKeepMemory(m.s, m'.s, m.free, m.lost, chain, total);
    QuietIdentities(m, m', chain);
    hide Memory, Tables, Identities, SamePages;
    forall i | 0 <= i < |chain| && chain[i].tid in m.awaiting
      ensures Snapshot(m'.s, m'.lost, chain, i, m.awaiting[chain[i].tid], total)
    {
      SnapshotKept(m.s, m'.s, m.lost, m.lost, chain, i, m.awaiting[chain[i].tid], total);
    }
  }

  lemma QuietIdentities(m: Machine, m': Machine, chain: seq<Link>)
    requires Members(m.s, chain) && Members(m'.s, chain) && Identities(m, chain) && Tail(chain).tid !in m.awaiting
    requires m' == m.(s := m'.s, active := m'.active)
    requires m'.s.HasThread(Tail(chain).tid) && m'.s.Thread(Tail(chain).tid).waitResult == None
    ensures Identities(m', chain)
  {
    hide Members;
    forall i | 0 <= i < |chain| - 1 ensures AwaitsAt(m', chain, i) {
      assert AwaitsAt(m, chain, i);
    }
  }

  lemma TailIsNotWoken(m: Machine, chain: seq<Link>, total: set<nat>)
    requires Good(m, chain, total) && m.s.current.value !in m.awaiting
    ensures Tail(chain).tid !in m.awaiting
    ensures m.s.HasThread(Tail(chain).tid) && m.s.Thread(Tail(chain).tid).waitResult == None
  {
    LinkFacts(m.s, chain, |chain| - 1);
    assert TailAwaits(m, Tail(chain));
  }

  /** Rewriting a thread record touches no process. */
  lemma ThreadsHaveNoPages(s: Sched, threads: seq<Option<Thread>>, current: Option<nat>, p: nat)
    ensures SamePages(s, s.(threads := threads, current := current), p)
  {
  }

  lemma YieldKeeps(m: Machine, chain: seq<Link>, total: set<nat>)
    requires Good(m, chain, total) && Offered(m, Yield) && Safe(m, Yield)
    ensures Good(Step(m, Yield), chain, total)
  {
    hide Memory, Identities, Snapshots, Members, Waits, Roles, Cpu, SamePages, NextRunnable, Ready, Linked, SpaceOf,
         Resume;
    var s, c := m.s, m.s.current.value;
    GoodFacts(m, chain, total);
    TailIsNotWoken(m, chain, total);
    LinkedFacts(s);
    NextIsNearest(s, s.current);
    var n := NextRunnable(s, s.current);
    if n.Some? && n.value != c {
      ReadyThreads(s, chain, n.value);
      YieldedTables(s, chain, n.value);
      hide Tables, Good;
      QuietStep(m, Step(m, Yield), chain, total);
    }
  }

  /** The tables after the current thread gave way to `n`. */
  lemma YieldedTables(s: Sched, chain: seq<Link>, n: nat)
    requires Linked(s) && s.current.Some? && Tables(s, chain, s.current) && n != s.current.value
    requires n == TERMINAL || n == IDLE || n == Tail(chain).tid
    ensures s.HasThread(s.current.value) && s.HasThread(n)
    ensures var c := s.current.value;
            var s' := Resume(s.WithThread(c, s.Thread(c).(state := Runnable)), n);
            && s'.current == Some(n) && Tables(s', chain, s'.current)
            && s'.HasThread(n) && s'.HasProcess(s'.OwnerOf(n)) && SpaceOf(s', n) == SpaceOf(s, n)
            && (forall p :: SamePages(s, s', p))
            && (forall t :: s.HasThread(t) ==> s'.HasThread(t) && s'.Thread(t).waitResult == s.Thread(t).waitResult)
  {
    hide Members, Waits, Roles, Cpu, SamePages, Linked;
    LinkedFacts(s);
    var c := s.current.value;
    ParkKeepsTables(s, chain, c);
    var parked := s.WithThread(c, s.Thread(c).(state := Runnable));
    ResumeKeepsTables(parked, chain, n);
    hide Tables;
    var s' := Resume(parked, n);
    forall p ensures SamePages(s, s', p) {
      ThreadsHaveNoPages(s, s'.threads, s'.current, p);
    }
    YieldedThread(s, c, n);
  }

  lemma YieldedThread(s: Sched, c: nat, n: nat)
    requires Linked(s) && s.HasThread(c) && s.HasThread(n) && n != c
    ensures var s' := Resume(s.WithThread(c, s.Thread(c).(state := Runnable)), n);
            && s'.HasThread(n) && s'.HasProcess(s'.OwnerOf(n)) && SpaceOf(s', n) == SpaceOf(s, n)
            && forall t :: s.HasThread(t) ==> s'.HasThread(t) && s'.Thread(t).waitResult == s.Thread(t).waitResult
  {
  }

  /** Changing the cwd or the environment of the current user process. */
  lemma ProcessStep(m: Machine, chain: seq<Link>, total: set<nat>, process: Process)
    requires Good(m, chain, total) && m.s.current.value !in m.awaiting
    requires m.s.Thread(m.s.current.value).start.User? && Inheritable(process)
    requires var before := m.s.Process(m.s.OwnerOf(m.s.current.value));
             process == before.(cwd := process.cwd, env := process.env)
    ensures Good(m.(s := m.s.WithProcess(m.s.OwnerOf(m.s.current.value), process)), chain, total)
  {
    hide Inheritable;
    GoodFacts(m, chain, total);
    TailIsNotWoken(m, chain, total);
    var pid := Tail(chain).pid;
    var s' := m.s.WithProcess(pid, process);
    ProcessKeepsTables(m.s, chain, m.s.current, |chain| - 1, process);
    RecordsKeepPages(m.s, pid, process);
    hide Tables, Good, SamePages, Members;
    QuietStep(m, m.(s := s'), chain, total);
  }

  lemma RecordsKeepPages(s: Sched, p: nat, process: Process)
    requires s.HasProcess(p) && process == s.Process(p).(cwd := process.cwd, env := process.env)
    ensures forall q :: SamePages(s, s.WithProcess(p, process), q)
  {
  }

  lemma CurrentIsInheritable(m: Machine, chain: seq<Link>, total: set<nat>)
    requires Good(m, chain, total) && m.s.Thread(m.s.current.value).start.User?
    ensures Inheritable(m.s.Process(m.s.OwnerOf(m.s.current.value)))
  {
    GoodFacts(m, chain, total);
  }

  lemma ChdirKeeps(m: Machine, path: Bytes, isDirectory: bool, chain: seq<Link>, total: set<nat>)
    requires Good(m, chain, total) && Offered(m, Chdir(path, isDirectory)) && Safe(m, Yield)
    ensures Good(ChdirStep(m, path, isDirectory), chain, total)
  {
    hide Good, Shaped, Paths.Normalized;
    var process := m.s.Process(m.s.OwnerOf(m.s.current.value));
    CurrentIsInheritable(m, chain, total);
    Paths.NormalizedIsNormalForm(process.cwd, path);
    var normal := Paths.Normalized(process.cwd, path, Paths.MAX_CWD_LEN);
    if normal.Some? && isDirectory && process.SetCwd(normal.value).Some? {
      ProcessStep(m, chain, total, process.(cwd := normal.value));
    }
  }

  lemma EnvKeeps(m: Machine, op: Environments.Operation, chain: seq<Link>, total: set<nat>)
    requires Good(m, chain, total) && Offered(m, ChangeEnv(op)) && Safe(m, Yield)
    ensures Good(EnvStep(m, op), chain, total)
  {
    hide Good, Shaped, Environments.Apply, Environments.WellFormed;
    var process := m.s.Process(m.s.OwnerOf(m.s.current.value));
    CurrentIsInheritable(m, chain, total);
    Environments.ApplyKeepsWellFormed(process.env, op);
    ProcessStep(m, chain, total, process.(env := Environments.Apply(process.env, op)));
  }

  lemma LossKeeps(m: Machine, more: set<nat>, chain: seq<Link>, total: set<nat>)
    requires Good(m, chain, total) && more <= m.free
    ensures Good(m.(free := m.free - more, lost := m.lost + more), chain, total)
  {
    var m' := m.(free := m.free - more, lost := m.lost + more);
    MemoryAfterLoss(m.s, m.free, m.lost, chain, total, more);
    LossIdentities(m, m', chain);
    hide Memory, Tables, Identities;
    forall i | 0 <= i < |chain| && chain[i].tid in m.awaiting
      ensures Snapshot(m'.s, m'.lost, chain, i, m.awaiting[chain[i].tid], total)
    {
      SnapshotKept(m.s, m.s, m.lost, m'.lost, chain, i, m.awaiting[chain[i].tid], total);
    }
  }

  lemma LossIdentities(m: Machine, m': Machine, chain: seq<Link>)
    requires Members(m.s, chain) && Identities(m, chain)
    requires m' == m.(free := m'.free, lost := m'.lost)
    ensures Identities(m', chain)
  {
    hide Members;
    forall i | 0 <= i < |chain| - 1 ensures AwaitsAt(m', chain, i) {
      assert AwaitsAt(m, chain, i);
    }
  }

  // ---------------------------------------------------------------------------
  // Returning from a wait.

  /** The thread that leaves `wait_for_child` is the deepest one, woken by its own child. */
  lemma FinisherIsTail(m: Machine, chain: seq<Link>, total: set<nat>)
    requires Good(m, chain, total) && m.s.current.value in m.awaiting
    ensures m.s.current == Some(Tail(chain).tid) && TailAwaits(m, Tail(chain))
    ensures LinkOk(m.s, Tail(chain))
  {
    GoodFacts(m, chain, total);
    assert OnChain(chain, m.s.current.value);
  }

  lemma FinishKeeps(m: Machine, chain: seq<Link>, total: set<nat>)
    requires Good(m, chain, total) && Safe(m, FinishWait) && History(m.log, m.nextInstance)
    ensures Good(FinishStep(m), chain, total)
    ensures History(FinishStep(m).log, m.nextInstance)
  {
    hide Memory, Identities, History, Snapshot, Shaped, Waits, Roles;
    FinisherIsTail(m, chain, total);
    var tail, m' := Tail(chain), FinishStep(m);
    TakeKeepsTables(m.s, chain, m.s.current);
    forall p ensures SamePages(m.s, m'.s, p) {
      ThreadsHaveNoPages(m.s, m'.s.threads, m'.s.current, p);
    }
    SamePagesKeepMemory(m.s, m'.s, m.free, m.lost, chain, total);
    LinkFacts(m'.s, chain, |chain| - 1);
    FinishIdentities(m, m', chain, m'.log[|m.log|]);
    HistoryAfterReturn(m.log, m.nextInstance, m'.log[|m.log|]);
    hide Tables, SamePages;
    forall i | 0 <= i < |chain| && chain[i].tid in m'.awaiting
      ensures Snapshot(m'.s, m'.lost, chain, i, m'.awaiting[chain[i].tid], total)
    {
      SnapshotKept(m.s, m'.s, m.lost, m.lost, chain, i, m.awaiting[chain[i].tid], total);
    }
  }

  lemma FinishIdentities(m: Machine, m': Machine, chain: seq<Link>, e: Event)
    requires chain != [] && Members(m.s, chain) && Members(m'.s, chain) && Identities(m, chain)
    requires m' == m.(s := m'.s, awaiting := m.awaiting - {Tail(chain).tid}, log := m.log + [e]) && e.WaitReturned?
    requires m'.s.HasThread(Tail(chain).tid) && m'.s.Thread(Tail(chain).tid).waitResult == None
    ensures Identities(m', chain)
  {
    hide Members, Numbered;
    LinkFacts(m.s, chain, |chain| - 1);
    NumberedAfterReturn(m.instance, m.nextInstance, m.log, e);
    forall i | 0 <= i < |chain| - 1 ensures AwaitsAt(m', chain, i) {
      assert AwaitsAt(m, chain, i);
    }
  }

  lemma NumberedAfterReturn(instance: map<nat, nat>, next: nat, log: seq<Event>, e: Event)
    requires Numbered(instance, next, log) && !e.ExitedWith?
    ensures Numbered(instance, next, log + [e])
  {
  }

  lemma HistoryAfterReturn(log: seq<Event>, next: nat, e: Event)
    requires History(log, next) && e.WaitReturned? && ReturnedRightly(log, e)
    ensures History(log + [e], next)
  {
    var log' := log + [e];
    forall k | 0 <= k < |log'| && log'[k].WaitReturned? ensures ReturnedRightly(log'[..k], log'[k]) {
      if k < |log| {
        assert log'[..k] == log[..k];
      } else {
        assert log'[..k] == log;
      }
    }
  }

  // ---------------------------------------------------------------------------
  // Spawning.

  /** In a good state a child inherits everything, so only the slot tables can refuse it. */
  lemma ChildIsFresh(s: Sched, chain: seq<Link>, program: LoadedUserProgram, silent: bool)
    requires Members(s, chain) && Roles(s, chain) && FirstFree(s.processes) < MAX_PROCESSES
    ensures LinkOk(s, Tail(chain))
    ensures var slot, tslot := FirstFree(s.processes), FirstFree(s.threads);
            var r := ChildOf(s.Process(Tail(chain).pid), Tail(chain).tid, slot, program, silent);
            && r.Some?
            && FreshChild(s, Tail(chain).tid, slot, r.value, tslot,
                          NewThread(tslot, slot, User(program.entryPoint, program.userStackTop)))
            && r.value.ownedPages == program.ownedPages && r.value.addressSpace == program.addressSpace
  {
    LinkFacts(s, chain, |chain| - 1);
    ThreadSlotIsFree(s, chain);
    var slot := FirstFree(s.processes);
    assert |s.processes| == MAX_PROCESSES && |s.threads| == MAX_THREADS;
    assert Inheritable(s.Process(Tail(chain).pid));
    hide Members, Roles;
    ChildInherits(s.Process(Tail(chain).pid), Tail(chain).tid, slot, program, silent);
  }

  lemma ChildInherits(parent: Process, parentThread: nat, slot: nat, program: LoadedUserProgram, silent: bool)
    requires Inheritable(parent)
    ensures var r := ChildOf(parent, parentThread, slot, program, silent);
            && r.Some? && Inheritable(r.value)
            && r.value.id == slot && |r.value.handles| == MAX_PROCESS_HANDLES
            && r.value.addressSpace == program.addressSpace && r.value.ownedPages == program.ownedPages
            && r.value.waitingThread == Some(parentThread) && r.value.exitAction == Continue
            && r.value.cwd == parent.cwd && r.value.env == parent.env
  {
    hide Paths.NormalForm, Environments.WellFormed, Environments.Inherit, Process.InheritStdio;
    var blank := NewProcess(slot, program.addressSpace, program.ownedPages, Continue);
    FreshChildInheritsStdio(parent, blank, silent);
    NormalFormIsCwd(parent.cwd);
    Environments.InheritCopies(parent.env);
  }

  lemma NormalFormIsCwd(path: Bytes)
    requires Paths.NormalForm(path)
    ensures path != [] && path[0] == SLASH && |path| <= Paths.MAX_CWD_LEN
  {
    var stack: Paths.Stack :| Paths.IsNormalFormOf(path, stack);
    Paths.RenderIsAbsolute(stack);
  }

  /** A spawn is refused if and only if all eight process slots are taken: the
      branch that undoes a stored child is never reached. */
  lemma SpawnFailsOnlyWhenFull(s: Sched, chain: seq<Link>, program: LoadedUserProgram, silent: bool)
    requires Tables(s, chain, s.current) && s.current == Some(Tail(chain).tid)
    ensures s.HasThread(Tail(chain).tid) && s.HasProcess(s.OwnerOf(Tail(chain).tid))
    ensures SpawnChild(s, Tail(chain).tid, program, silent).None? <==> FirstFree(s.processes) == MAX_PROCESSES
  {
    LinkFacts(s, chain, |chain| - 1);
    ThreadSlotIsFree(s, chain);
    assert |s.processes| == MAX_PROCESSES && |s.threads| == MAX_THREADS;
    if FirstFree(s.processes) < MAX_PROCESSES {
      ChildIsFresh(s, chain, program, silent);
    }
  }

  /** The successful spawn, as one update of the tables. */
  lemma SpawnShape(s: Sched, chain: seq<Link>, program: LoadedUserProgram, silent: bool)
    returns (slot: nat, tslot: nat, child: Process, n: nat)
    requires Linked(s) && chain != [] && Tables(s, chain, s.current) && s.current == Some(Tail(chain).tid)
    requires s.HasThread(Tail(chain).tid) && s.Thread(Tail(chain).tid).waitResult == None
    requires s.HasProcess(s.OwnerOf(Tail(chain).tid))
    requires SpawnChild(s, Tail(chain).tid, program, silent).Some?
    ensures var thread := NewThread(tslot, slot, User(program.entryPoint, program.userStackTop));
            && FreshChild(s, Tail(chain).tid, slot, child, tslot, thread)
            && child.ownedPages == program.ownedPages && child.addressSpace == program.addressSpace
            && var s1 := SpawnChild(s, Tail(chain).tid, program, silent).value;
               var adopted := Adopted(s, Tail(chain).tid, slot, child, tslot, thread);
               && s1.1 == slot && Linked(s1.0) && Linked(adopted)
               && Tables(adopted, chain + [Link(slot, tslot)], None)
               && (n == TERMINAL || n == IDLE || n == tslot)
               && adopted.HasThread(n)
               && PrepareWait(s1.0, slot) == (Resume(adopted, n), Some(Switch(Tail(chain).tid, n, SpaceOf(adopted, n))))
  {
    hide Members, Waits, Roles, Cpu, ChildOf, PrepareWait, NextRunnable, Linked, FreshChild;
    var tail := Tail(chain);
    LinkFacts(s, chain, |chain| - 1);
    slot, tslot := FirstFree(s.processes), FirstFree(s.threads);
    LinkedFacts(s);
    ChildIsFresh(s, chain, program, silent);
    child := ChildOf(s.Process(tail.pid), tail.tid, slot, program, silent).value;
    var thread := NewThread(tslot, slot, User(program.entryPoint, program.userStackTop));
    SpawnKeepsLinked(s, tail.tid, program, silent);
    AdoptKeepsTables(s, chain, slot, child, tslot, thread);
    FreshChildSlots(s, tail.tid, slot, child, tslot, thread);
    hide Tables;
    var adopted := Adopted(s, tail.tid, slot, child, tslot, thread);
    var s1 := SpawnChild(s, tail.tid, program, silent).value.0;
    var chain' := chain + [Link(slot, tslot)];
    assert s1 == s.(processes := s.processes[slot := Some(child)], threads := s.threads[tslot := Some(thread)]);
    assert adopted == s1.WithThread(tail.tid, s1.Thread(tail.tid).BlockForChild(slot));
    n := BlockedSuccessor(adopted, chain', s.current);
    hide SpawnChild, Adopted;
    WaitShape(s1, slot, n);
  }

  lemma WaitShape(s: Sched, child: nat, n: nat)
    requires Linked(s) && s.current.Some? && s.HasThread(s.current.value)
    requires var blocked := s.WithThread(s.current.value, s.Thread(s.current.value).BlockForChild(child));
             NextRunnable(blocked, s.current) == Some(n) && blocked.HasThread(n)
    ensures var blocked := s.WithThread(s.current.value, s.Thread(s.current.value).BlockForChild(child));
            && Linked(blocked) && blocked.HasProcess(blocked.OwnerOf(n))
            && PrepareWait(s, child) == (Resume(blocked, n), Some(Switch(s.current.value, n, SpaceOf(blocked, n))))
  {
    hide NextRunnable;
    WaitLinked(s, child);
  }

  lemma WaitLinked(s: Sched, child: nat)
    requires Linked(s) && s.current.Some?
    ensures Linked(s.WithThread(s.current.value, s.Thread(s.current.value).BlockForChild(child)))
  {
    RewriteKeepsLinked(s, s.current.value, s.Thread(s.current.value).BlockForChild(child));
  }

  /** With the parent blocked, the scan finds a kernel thread or the child. */
  lemma BlockedSuccessor(s: Sched, chain: seq<Link>, from: Option<nat>) returns (n: nat)
    requires chain != [] && Tables(s, chain, None)
    ensures NextRunnable(s, from) == Some(n) && s.HasThread(n)
    ensures n == TERMINAL || n == IDLE || n == Tail(chain).tid
  {
    NextIsNearest(s, from);
    ReadyThreads(s, chain, TERMINAL);
    var next := NextRunnable(s, from);
    assert next.Some?;
    ReadyThreads(s, chain, next.value);
    n := next.value;
  }

  /** What a spawn writes down: a new instance, the wait for it, and the event. */
  ghost predicate Recorded(m: Machine, m': Machine, tail: Link, link: Link) {
    && tail.pid in m.instance
    && m'.instance == m.instance[link.pid := m.nextInstance] && m'.nextInstance == m.nextInstance + 1
    && m'.awaiting == m.awaiting[tail.tid := Pending(m.nextInstance, m.free, m.lost)]
    && m'.log == m.log + [Spawned(m.instance[tail.pid], m.nextInstance)]
  }

  lemma SpawnIdentities(m: Machine, m': Machine, chain: seq<Link>, link: Link)
    requires chain != [] && Members(m.s, chain) && Identities(m, chain) && Recorded(m, m', Tail(chain), link)
    requires Members(m'.s, chain + [link]) && m'.s.HasThread(link.tid) && m'.s.Thread(link.tid).waitResult == None
    requires forall i :: 0 <= i < |chain| ==> chain[i].pid != link.pid && chain[i].tid != link.tid
    requires link.pid != 0 && link.tid !in m.awaiting
    requires forall i :: 0 <= i < |chain| - 1 ==> chain[i].tid != Tail(chain).tid
    ensures Identities(m', chain + [link])
  {
    hide Members, Numbered, Awaits, AwaitsAt, OnChain, TailAwaits, Recorded;
    var chain' := chain + [link];
    assert Tail(chain') == link;
    NumberedAfterSpawn(m, m', Tail(chain), link);
    SpawnInstances(m, m', chain, link);
    SpawnAwaits(m, m', chain, link);
    forall t | t in m'.awaiting ensures OnChain(chain', t) {
      AwaitedOnLongerChain(m, m', chain, link, t);
    }
    SpawnTailAwaits(m, m', Tail(chain), link);
  }

  lemma SpawnInstances(m: Machine, m': Machine, chain: seq<Link>, link: Link)
    requires chain != [] && Recorded(m, m', Tail(chain), link) && 0 in m.instance
    requires forall i :: 0 <= i < |chain| ==> chain[i].pid in m.instance
    ensures 0 in m'.instance
    ensures forall i :: 0 <= i < |chain + [link]| ==> (chain + [link])[i].pid in m'.instance
  {
  }

  lemma SpawnTailAwaits(m: Machine, m': Machine, tail: Link, link: Link)
    requires Recorded(m, m', tail, link) && link.tid !in m.awaiting && link.tid != tail.tid
    requires m'.s.HasThread(link.tid) && m'.s.Thread(link.tid).waitResult == None
    ensures TailAwaits(m', link)
  {
  }

  lemma SpawnAwaits(m: Machine, m': Machine, chain: seq<Link>, link: Link)
    requires chain != [] && Recorded(m, m', Tail(chain), link)
    requires forall i :: 0 <= i < |chain| - 1 ==> AwaitsAt(m, chain, i)
    requires forall i :: 0 <= i < |chain| ==> chain[i].pid != link.pid
    requires forall i :: 0 <= i < |chain| - 1 ==> chain[i].tid != Tail(chain).tid
    ensures forall i :: 0 <= i < |chain + [link]| - 1 ==> AwaitsAt(m', chain + [link], i)
  {
    var chain' := chain + [link];
    hide Awaits, Recorded;
    forall i | 0 <= i < |chain'| - 1 ensures AwaitsAt(m', chain', i) {
      if i < |chain| - 1 {
        assert AwaitsAt(m, chain, i);
        AwaitsAfterSpawn(m, m', chain[i], chain[i + 1], Tail(chain), link);
      } else {
        NewAwaits(m, m', Tail(chain), link);
      }
    }
  }

  lemma NewAwaits(m: Machine, m': Machine, tail: Link, link: Link)
    requires Recorded(m, m', tail, link) && tail.pid != link.pid
    ensures Awaits(m', tail, link)
  {
    assert m'.log[|m.log|] == Spawned(m.instance[tail.pid], m.nextInstance);
  }

  lemma AwaitsAfterSpawn(m: Machine, m': Machine, waiter: Link, child: Link, tail: Link, link: Link)
    requires Awaits(m, waiter, child) && Recorded(m, m', tail, link)
    requires waiter.pid != link.pid && child.pid != link.pid && waiter.tid != tail.tid
    ensures Awaits(m', waiter, child)
  {
  }

  lemma AwaitedOnLongerChain(m: Machine, m': Machine, chain: seq<Link>, link: Link, t: nat)
    requires chain != [] && Recorded(m, m', Tail(chain), link) && t in m'.awaiting
    requires t in m.awaiting ==> OnChain(chain, t)
    ensures OnChain(chain + [link], t)
  {
    if t == Tail(chain).tid {
      assert (chain + [link])[|chain| - 1].tid == t;
    } else {
      var i :| 0 <= i < |chain| && chain[i].tid == t;
      assert (chain + [link])[i].tid == t;
    }
  }

  lemma NumberedAfterSpawn(m: Machine, m': Machine, tail: Link, link: Link)
    requires Numbered(m.instance, m.nextInstance, m.log) && Recorded(m, m', tail, link)
    ensures Numbered(m'.instance, m'.nextInstance, m'.log)
  {
  }

  lemma HistoryAfterSpawn(log: seq<Event>, next: nat, parent: nat)
    requires History(log, next)
    ensures History(log + [Spawned(parent, next)], next + 1)
  {
    var log' := log + [Spawned(parent, next)];
    forall k | 0 <= k < |log'| && log'[k].WaitReturned? ensures ReturnedRightly(log'[..k], log'[k]) {
      assert log'[..k] == log[..k];
    }
  }

  /** Free is whatever is neither lost nor owned. */
  lemma FreeIsTheRest(s: Sched, free: set<nat>, lost: set<nat>, chain: seq<Link>, total: set<nat>, x: nat)
    requires Memory(s, free, lost, chain, total)
    ensures x in free <==> x in total && x !in lost && !Owns(s, chain, |chain|, x)
  {
    if Owns(s, chain, |chain|, x) {
      var i :| 0 <= i < |chain| && x in Pages(s, chain[i].pid);
      assert OwnedApart(s, free, lost, chain[i].pid, total);
    }
  }

  lemma SpawnSnapshots(m: Machine, s': Sched, chain: seq<Link>, link: Link, total: set<nat>, i: nat)
    requires chain != [] && Memory(m.s, m.free, m.lost, chain, total) && Snapshots(m, chain, total) && i < |chain|
    requires forall j :: 0 <= j < |chain| ==> SamePages(m.s, s', chain[j].pid)
    requires i < |chain| - 1 ==> chain[i].tid in m.awaiting
    ensures var p := if i == |chain| - 1 then Pending(m.nextInstance, m.free, m.lost) else m.awaiting[chain[i].tid];
            Snapshot(s', m.lost, chain + [link], i, p, total)
  {
    hide Memory, SamePages;
    var p := if i == |chain| - 1 then Pending(m.nextInstance, m.free, m.lost) else m.awaiting[chain[i].tid];
    var chain' := chain + [link];
    assert chain'[..i + 1] == chain[..i + 1];
    forall x ensures x in p.free <==> x in total && x !in p.lost && !Owns(s', chain', i + 1, x) {
      OwnsOfPrefix(s', chain', chain, i + 1, x);
      OwnsDependsOnPages(m.s, s', chain, i + 1, x);
      FreeIsTheRest(m.s, m.free, m.lost, chain, total, x);
    }
  }

  lemma FreshSlotsAreNotOnChain(s: Sched, chain: seq<Link>, slot: nat, tslot: nat)
    requires Members(s, chain) && slot < |s.processes| && s.processes[slot].None?
    requires tslot < |s.threads| && s.threads[tslot].None?
    ensures slot != 0 && !OnChain(chain, tslot)
    ensures forall i :: 0 <= i < |chain| ==> chain[i].pid != slot && chain[i].tid != tslot
  {
    forall i | 0 <= i < |chain| ensures chain[i].pid != slot && chain[i].tid != tslot {
      assert LinkOk(s, chain[i]);
    }
  }

  lemma AdoptedFacts(s: Sched, parent: nat, n: nat, slot: nat, tslot: nat, child: Process, thread: Thread)
    requires Linked(s) && s.HasThread(parent) && FreshChild(s, parent, slot, child, tslot, thread)
    requires Adopted(s, parent, slot, child, tslot, thread).HasThread(n)
    requires Linked(Adopted(s, parent, slot, child, tslot, thread)) && thread.waitResult == None
    ensures var adopted := Adopted(s, parent, slot, child, tslot, thread);
            var s' := Resume(adopted, n);
            && s'.current == Some(n) && s'.HasProcess(slot) && s'.Process(slot) == child
            && s'.HasThread(tslot) && s'.Thread(tslot).waitResult == None
            && s'.HasThread(n) && s'.HasProcess(s'.OwnerOf(n)) && SpaceOf(s', n) == SpaceOf(adopted, n)
            && forall p :: p != slot ==> SamePages(s, s', p)
  {
  }

  lemma TslotNotAwaited(m: Machine, chain: seq<Link>, tslot: nat)
    requires chain != [] && Members(m.s, chain) && Identities(m, chain) && !OnChain(chain, tslot)
    ensures tslot !in m.awaiting
    ensures forall i :: 0 <= i < |chain| - 1 ==> chain[i].tid in m.awaiting && chain[i].tid != Tail(chain).tid
  {
    forall i | 0 <= i < |chain| - 1 ensures chain[i].tid in m.awaiting && chain[i].tid != Tail(chain).tid {
      assert AwaitsAt(m, chain, i);
      LinkFacts(m.s, chain, i);
    }
  }

  /** The machine after a successful spawn, given what its tables look like. */
  lemma StartedKeeps(m: Machine, m': Machine, chain: seq<Link>, total: set<nat>, link: Link, owned: seq<nat>)
    requires chain != [] && Good(m, chain, total) && Tail(chain).tid !in m.awaiting
    requires link.pid != 0 && !OnChain(chain, link.tid)
    requires forall i :: 0 <= i < |chain| ==> chain[i].pid != link.pid && chain[i].tid != link.tid
    requires Recorded(m, m', Tail(chain), link) && m'.free == m.free - Elements(owned) && m'.lost == m.lost
    requires m'.s.current.Some? && Tables(m'.s, chain + [link], m'.s.current)
    requires m'.s.HasThread(link.tid) && m'.s.Thread(link.tid).waitResult == None
    requires m'.s.HasProcess(link.pid) && m'.s.Process(link.pid).ownedPages == owned
    requires Distinct(owned) && Elements(owned) <= m.free && m'.s.Process(link.pid).addressSpace in owned
    requires forall p :: p != link.pid ==> SamePages(m.s, m'.s, p)
    requires m'.s.HasThread(m'.s.current.value) && m'.s.HasProcess(m'.s.OwnerOf(m'.s.current.value))
    requires m'.active == SpaceOf(m'.s, m'.s.current.value)
    ensures Good(m', chain + [link], total)
  {
    hide Members, Memory, Identities, SamePages, OnChain, Distinct, Snapshots, Waits, Roles, Cpu, Recorded, SpaceOf;
    TslotNotAwaited(m, chain, link.tid);
    SpawnIdentities(m, m', chain, link);
    MemoryAfterPush(m.s, m'.s, m.free, m.lost, chain, total, link);
    hide Tables;
    StartedSnapshots(m, m', chain, total, link);
  }

  lemma StartedSnapshots(m: Machine, m': Machine, chain: seq<Link>, total: set<nat>, link: Link)
    requires chain != [] && Memory(m.s, m.free, m.lost, chain, total) && Snapshots(m, chain, total)
    requires Recorded(m, m', Tail(chain), link) && m'.lost == m.lost
    requires link.tid !in m.awaiting && link.tid != Tail(chain).tid
    requires forall i :: 0 <= i < |chain| - 1 ==> chain[i].tid in m.awaiting && chain[i].tid != Tail(chain).tid
    requires forall i :: 0 <= i < |chain| ==> SamePages(m.s, m'.s, chain[i].pid)
    ensures Snapshots(m', chain + [link], total)
  {
    hide Memory, SamePages, Snapshot, Snapshots;
    var chain' := chain + [link];
    assert chain'[|chain|].tid !in m'.awaiting;
    forall i | 0 <= i < |chain'| && chain'[i].tid in m'.awaiting
      ensures Snapshot(m'.s, m'.lost, chain', i, m'.awaiting[chain'[i].tid], total)
    {
      assert i < |chain| && chain'[i] == chain[i];
      SpawnSnapshots(m, m'.s, chain, link, total, i);
    }
    assert Snapshots(m', chain', total) by { SnapshotsAre(m', chain', total); }
  }

  lemma SnapshotsAre(m: Machine, chain: seq<Link>, total: set<nat>)
    requires forall i :: 0 <= i < |chain| && chain[i].tid in m.awaiting ==>
               Snapshot(m.s, m.lost, chain, i, m.awaiting[chain[i].tid], total)
    ensures Snapshots(m, chain, total)
  {
    hide Snapshot;
  }

  lemma SpawnKeeps(m: Machine, program: LoadedUserProgram, silent: bool, chain: seq<Link>, total: set<nat>)
    returns (chain': seq<Link>)
    requires Good(m, chain, total) && Safe(m, Yield) && Offered(m, SpawnAndWait(Loaded(program), silent))
    requires History(m.log, m.nextInstance)
    ensures Invariant(SpawnStep(m, program, silent), chain', total)
  {
    GoodFacts(m, chain, total);
    if SpawnChild(m.s, m.s.current.value, program, silent).None? {
      RefusedSpawnChangesNothing(m, program, silent);
      chain' := chain;
    } else {
      TailIsNotWoken(m, chain, total);
      hide Good, History;
      chain' := SpawnSucceeds(m, program, silent, chain, total);
    }
  }

  /** A refused spawn gives every page back and leaves no trace. */
  lemma RefusedSpawnChangesNothing(m: Machine, program: LoadedUserProgram, silent: bool)
    requires Safe(m, Yield) && SpawnChild(m.s, m.s.current.value, program, silent).None?
    requires Elements(program.ownedPages) <= m.free
    ensures SpawnStep(m, program, silent) == m
  {
    hide SpawnChild, Linked;
    assert m.free - Elements(program.ownedPages) + Elements(program.ownedPages) == m.free;
  }

  lemma SpawnSucceeds(m: Machine, program: LoadedUserProgram, silent: bool, chain: seq<Link>, total: set<nat>)
    returns (chain': seq<Link>)
    requires chain != [] && Good(m, chain, total) && Safe(m, Yield) && LoadMayDo(m.free, Loaded(program))
    requires m.s.current == Some(Tail(chain).tid) && Tail(chain).tid !in m.awaiting
    requires LinkOk(m.s, Tail(chain)) && m.s.Thread(Tail(chain).tid).waitResult == None
    requires SpawnChild(m.s, Tail(chain).tid, program, silent).Some?
    requires History(m.log, m.nextInstance)
    ensures Invariant(SpawnStep(m, program, silent), chain', total)
  {
    hide Safe, Tables, Members, Memory, Linked, SamePages, Identities, Snapshots, History, LoadMayDo, SpawnChild,
         PrepareWait;
    hide SpawnStep, OnChain, Distinct;
    GoodFacts(m, chain, total);
    var tail, m' := Tail(chain), SpawnStep(m, program, silent);
    var link, n, s1 := SpawnTables(m.s, chain, program, silent);
    chain' := chain + [link];
    SpawnedMachine(m, program, silent, tail, s1, link);
    LoadedFacts(m.free, program);
    hide Good, LinkOk;
    HistoryAfterSpawn(m.log, m.nextInstance, m.instance[tail.pid]);
    StartedKeeps(m, m', chain, total, link, program.ownedPages);
  }

  lemma LoadedFacts(free: set<nat>, program: LoadedUserProgram)
    requires LoadMayDo(free, Loaded(program))
    ensures Distinct(program.ownedPages) && Elements(program.ownedPages) <= free
    ensures program.addressSpace in program.ownedPages
  {
  }

  /** The tables after a successful spawn, and the facts about them that the machine needs. */
  lemma SpawnTables(s: Sched, chain: seq<Link>, program: LoadedUserProgram, silent: bool)
    returns (link: Link, n: nat, s1: Sched)
    requires chain != [] && Linked(s) && Tables(s, chain, s.current) && s.current == Some(Tail(chain).tid)
    requires LinkOk(s, Tail(chain)) && s.Thread(Tail(chain).tid).waitResult == None
    requires SpawnChild(s, Tail(chain).tid, program, silent).Some?
    ensures Linked(s1) && SpawnChild(s, Tail(chain).tid, program, silent) == Some((s1, link.pid))
    ensures var (s2, switch) := PrepareWait(s1, link.pid);
            && switch.Some? && switch.value == Switch(Tail(chain).tid, n, switch.value.space)
            && s2.current == Some(n) && Tables(s2, chain + [link], s2.current)
            && s2.HasThread(link.tid) && s2.Thread(link.tid).waitResult == None
            && s2.HasProcess(link.pid) && s2.Process(link.pid).ownedPages == program.ownedPages
            && s2.Process(link.pid).addressSpace == program.addressSpace
            && (forall p :: p != link.pid ==> SamePages(s, s2, p))
            && s2.HasThread(n) && s2.HasProcess(s2.OwnerOf(n)) && switch.value.space == SpaceOf(s2, n)
    ensures link.pid != 0 && !OnChain(chain, link.tid)
    ensures forall i :: 0 <= i < |chain| ==> chain[i].pid != link.pid && chain[i].tid != link.tid
  {
    var tail := Tail(chain);
    var slot, tslot, child, m := SpawnShape(s, chain, program, silent);
    n, link := m, Link(slot, tslot);
    s1 := SpawnChild(s, tail.tid, program, silent).value.0;
    var thread := NewThread(tslot, slot, User(program.entryPoint, program.userStackTop));
    var adopted := Adopted(s, tail.tid, slot, child, tslot, thread);
    FreshChildSlots(s, tail.tid, slot, child, tslot, thread);
    FreshSlotsAreNotOnChain(s, chain, slot, tslot);
    assert Tail(chain + [link]) == link;
    hide Tables, Linked, FreshChild, SpawnChild, PrepareWait, Adopted;
    AdoptedFacts(s, tail.tid, n, slot, tslot, child, thread);
    hide SamePages;
    ResumeKeepsTables(adopted, chain + [link], n);
  }

  lemma FreshChildSlots(s: Sched, parent: nat, slot: nat, child: Process, tslot: nat, thread: Thread)
    requires FreshChild(s, parent, slot, child, tslot, thread)
    ensures slot < |s.processes| && s.processes[slot].None? && tslot < |s.threads| && s.threads[tslot].None?
  {
  }

  lemma SpawnedMachine(m: Machine, program: LoadedUserProgram, silent: bool, tail: Link, s1: Sched, link: Link)
    requires Safe(m, Yield) && Linked(s1) && m.s.current == Some(tail.tid) && m.s.OwnerOf(tail.tid) == tail.pid
    requires SpawnChild(m.s, tail.tid, program, silent) == Some((s1, link.pid))
    requires PrepareWait(s1, link.pid).1.Some?
    ensures tail.pid in m.instance
    ensures SpawnStep(m, program, silent) == m.(
              s := PrepareWait(s1, link.pid).0, free := m.free - Elements(program.ownedPages),
              active := PrepareWait(s1, link.pid).1.value.space,
              instance := m.instance[link.pid := m.nextInstance], nextInstance := m.nextInstance + 1,
              awaiting := m.awaiting[tail.tid := Pending(m.nextInstance, m.free, m.lost)],
              log := m.log + [Spawned(m.instance[tail.pid], m.nextInstance)])
  {
    hide SpawnChild, PrepareWait, Linked;
  }
}
