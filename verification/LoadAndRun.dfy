// What the loader hands over is what the runs of the scheduler assume of it.
module LoadAndRun {
  import opened Prelude
  import opened Paging
  import Processes
  import Elf
  import KernelMaps
  import Words
  import Startup
  import Programs
  import SchedulerRuns

  /** What the load of a file comes to, as a function of memory: the space it leaves, before
      anything is given back, and the program when it completes. */
  datatype Attempt = Attempt(space: Space, program: Option<Processes.LoadedUserProgram>)

  ghost function Attempted(frames: map<nat, Bytes>, free: set<nat>, k: Programs.Kernel, q: Programs.Request,
                           utf8: Startup.Utf8): Attempt {
    var h := Elf.ParseHeader(q.file);
    Elf.ParsedTableFits(q.file);
    if h.Err? || !Programs.ContainsUserAddress(h.value.entry) then Attempt(Space(frames, free, [], true), None)
    else
      var (s, r) := Programs.WholeLoad(frames, free, k, h.value, q, utf8);
      Attempt(s, if r.Err? then None else Some(Processes.LoadedUserProgram(r.value.0, h.value.entry, r.value.1,
          s.owned)))
  }

  /** The attempt in the terms of the runs: a failed one loses what it neither leaves free nor
      has recorded. */
  ghost function LoadOf(free: set<nat>, a: Attempt): SchedulerRuns.Load {
    if a.program.Some? then SchedulerRuns.Loaded(a.program.value)
    else SchedulerRuns.LoadFailed(free - (a.space.free + Elements(a.space.owned)))
  }

  /** The program is the file's: its image, its entry and its startup block are there. */
  ghost predicate IsProgramOf(a: Attempt, free: set<nat>, k: Programs.Kernel, q: Programs.Request, utf8: Startup.Utf8) {
    && a.program.Some? && Elf.ParseHeader(q.file).Ok?
    && var p, h := a.program.value, Elf.ParseHeader(q.file).value;
       && p.entryPoint == h.entry && Programs.ContainsUserAddress(h.entry) && p.ownedPages == a.space.owned
       && Programs.Complete(a.space, free, p.addressSpace, p.userStackTop, k, h, q, utf8)
  }

  /** Every attempt is a load the runs allow, and one that completes is the file's program. */
  lemma AttemptMayRun(frames: map<nat, Bytes>, free: set<nat>, k: Programs.Kernel, q: Programs.Request,
                      utf8: Startup.Utf8)
    requires KernelMaps.SoundLayout(k) && forall p :: p in free ==> Words.IsFrame(p)
    ensures var a := Attempted(frames, free, k, q, utf8);
            && SchedulerRuns.LoadMayDo(free, LoadOf(free, a)) && a.space.free <= free && Elements(a.space.owned) <= free
            && Programs.SameOutside(frames, a.space.frames, free)
            && (a.program.Some? ==> IsProgramOf(a, free, k, q, utf8) && a.space.free == free - Elements(a.space.owned))
  {
    hide Programs.Complete, Programs.Accounted, Programs.WholeLoad, Elf.ParseHeader, Elf.TableFits,
         KernelMaps.SoundLayout,
         Words.IsFrame, Elements;
    var a := Attempted(frames, free, k, q, utf8);
    var header := Elf.ParseHeader(q.file);
    Elf.ParsedTableFits(q.file);
    if header.Ok? && Programs.ContainsUserAddress(header.value.entry) {
      Programs.WholeLoadWorks(frames, free, k, header.value, q, utf8);
      AccountedPages(free, a.space.free, a.space.owned);
      if a.program.Some? {
        var p := a.program.value;
        var (s, r) := Programs.WholeLoad(frames, free, k, header.value, q, utf8);
        assert r.Ok?;
        assert a.space == s && p.addressSpace == r.value.0 && p.userStackTop == r.value.1;
        assert Programs.Complete(s, free, r.value.0, r.value.1, k, header.value, q, utf8);
        CompletedLoadMayStart(a.space, free, p.addressSpace, p.entryPoint, p.userStackTop, k, header.value, q, utf8);
      }
    } else {
      Programs.NothingTaken(free);
      AccountedPages(free, free, []);
    }
    if a.program.None? {
      Programs.ReleaseAccounts(free, a.space.free, a.space.owned);
      var lost := FailedLoadLosesTwo(free, a.space.free + Elements(a.space.owned));
      assert lost == free - (a.space.free +
               Elements(a.space.owned)) by { LostIsTheRest(free, a.space.free + Elements(a.space.owned), lost); }
    }
  }

  lemma LostIsTheRest(before: set<nat>, after: set<nat>, lost: set<nat>)
    requires after == before - lost && lost <= before
    ensures lost == before - after
  {
  }

  lemma AccountedPages(before: set<nat>, free: set<nat>, owned: seq<nat>)
    requires Programs.Accounted(before, free, owned, 2)
    ensures free <= before && Elements(owned) <= before
  {
    var leak: multiset<nat> :| |leak| <= 2 && multiset(before) == multiset(free) + multiset(owned) + leak;
    forall x ensures (x in free ==> x in before) && (x in owned ==> x in before) {
      assert multiset(before)[x] == multiset(free)[x] + multiset(owned)[x] + leak[x];
      assert x in owned <==> x in multiset(owned);
    }
  }

  /** A completed load is a load the scheduler may start: distinct pages that were free, the
      root among them, and the free set is what they leave. */
  lemma CompletedLoadMayStart(s: Space, before: set<nat>, root: nat, entry: nat, stackTop: nat, k: Programs.Kernel,
                              h: Elf.ElfHeader,
                              q: Programs.Request, utf8: Startup.Utf8)
    requires Programs.Complete(s, before, root, stackTop, k, h, q, utf8)
    ensures SchedulerRuns.LoadMayDo(before,
              SchedulerRuns.Loaded(Processes.LoadedUserProgram(root, entry, stackTop, s.owned)))
    ensures s.free == before - Elements(s.owned)
  {
    hide Programs.LoadedSpace, Elf.TableFits, Startup.Block, Startup.StartupArgs, Programs.SegmentsOf;
    ConservedPages(before, s.free, s.owned);
    assert root in s.owned;
  }

  /** A failed load loses at most two pages and returns the rest. */
  lemma FailedLoadLosesTwo(before: set<nat>, free: set<nat>) returns (lost: set<nat>)
    requires Programs.Accounted(before, free, [], 2)
    ensures SchedulerRuns.LoadMayDo(before, SchedulerRuns.LoadFailed(lost)) && free == before - lost
  {
    var leak: multiset<nat> :| |leak| <= 2 && multiset(before) == multiset(free) + multiset([]) + leak;
    lost := set x | x in before && x in leak;
    forall x ensures x in free <==> x in before && x !in lost {
      assert multiset(before)[x] == multiset(free)[x] + leak[x];
    }
    assert multiset(lost) <= leak;
    SmallerMultiset(multiset(lost), leak);
  }

  lemma SmallerMultiset(a: multiset<nat>, b: multiset<nat>)
    requires a <= b
    ensures |a| <= |b|
  {
    assert b == a + (b - a);
  }

  lemma {:induction false} TwiceInSequence(s: seq<nat>, i: nat, j: nat)
    requires i < j < |s| && s[i] == s[j]
    ensures multiset(s)[s[i]] >= 2
  {
    assert s == s[..j] + [s[j]] + s[j + 1..];
    assert s[..j][i] == s[i];
    assert s[i] in multiset(s[..j]);
  }

  /** What is not free any more is owned, once. */
  lemma ConservedPages(before: set<nat>, free: set<nat>, owned: seq<nat>)
    requires multiset(before) == multiset(free) + multiset(owned)
    ensures SchedulerRuns.Distinct(owned) && Elements(owned) <= before
    ensures free == before - Elements(owned)
  {
    forall i, j | 0 <= i < j < |owned| ensures owned[i] != owned[j] {
      assert multiset(before)[owned[i]] <= 1;
      if owned[i] == owned[j] { TwiceInSequence(owned, i, j); }
    }
    forall x ensures x in free <==> x in before && x !in owned {
      OnePlace(before, free, owned, x);
    }
    forall x | x in owned ensures x in before {
      OnePlace(before, free, owned, x);
    }
  }

  lemma OnePlace(before: set<nat>, free: set<nat>, owned: seq<nat>, x: nat)
    requires multiset(before) == multiset(free) + multiset(owned)
    ensures x in free <==> x in before && x !in owned
    ensures x in owned ==> x in before
  {
    assert multiset(before)[x] == multiset(free)[x] + multiset(owned)[x];
    assert x in owned <==> x in multiset(owned);
  }
}
