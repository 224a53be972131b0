/** The driver's job graph: built by memoised recursion, executed depth first,
    with results and syntax set free as soon as nothing waits for them. */
module Driver {
  import opened Options
  import opened Facts
  import opened Jobs
  import opened Schedule
  import opened Execution
  import opened Building

  ghost function AllKeys(w: World): set<Key> {
    set a, p | 0 <= a < |w.analyzers| && 0 <= p < |w.packages| :: Key(a, p)
  }

  lemma NeedIsDependency(w: World, k: Key, i: nat)
    requires WorldOk(w) && KeyOk(w, k) && i < |w.analyzers[k.analyzer].needs|
    ensures var d := Key(w.analyzers[k.analyzer].needs[i], k.pkg);
      NeedKeys(w, k, i + 1) == NeedKeys(w, k, i) + [d] && d in DepKeys(w, k) && KeyOk(w, d)
  {
    NeedsGrow(w, k, i + 1, |w.analyzers[k.analyzer].needs|);
    assert NeedKeys(w, k, i + 1)[|NeedKeys(w, k, i)|] in NeedKeys(w, k, i + 1);
  }

  lemma {:induction false} NeedsGrow(w: World, k: Key, i: nat, n: nat)
    requires WorldOk(w) && KeyOk(w, k) && i <= n <= |w.analyzers[k.analyzer].needs|
    ensures NeedKeys(w, k, i) <= NeedKeys(w, k, n)
  {
    if i < n {
      NeedsGrow(w, k, i, n - 1);
    }
  }

  lemma ImportIsDependency(w: World, k: Key, i: nat)
    requires WorldOk(w) && KeyOk(w, k) && w.analyzers[k.analyzer].usesFacts && i < |w.packages[k.pkg].imports|
    requires w.packages[w.packages[k.pkg].imports[i]].hasSyntax
    ensures var d := Key(k.analyzer, w.packages[k.pkg].imports[i]);
      ImportKeys(w, k, i + 1) == ImportKeys(w, k, i) + [d] && d in DepKeys(w, k) && KeyOk(w, d)
  {
    ImportsGrow(w, k, i + 1, |w.packages[k.pkg].imports|);
    assert ImportKeys(w, k, i + 1)[|ImportKeys(w, k, i)|] in ImportKeys(w, k, i + 1);
  }

  lemma {:induction false} ImportsGrow(w: World, k: Key, i: nat, n: nat)
    requires WorldOk(w) && KeyOk(w, k) && i <= n <= |w.packages[k.pkg].imports|
    ensures ImportKeys(w, k, i) <= ImportKeys(w, k, n)
  {
    if i < n {
      ImportsGrow(w, k, i, n - 1);
    }
  }

  lemma {:induction false} FailedOfNone(ds: seq<Key>, log: Log)
    ensures FailedOf(ds, log) == [] <==> AllGood(log, ds)
  {
    if ds != [] {
      FailedOfNone(ds[..|ds| - 1], log);
      assert ds == ds[..|ds| - 1] + [ds[|ds| - 1]];
      assert AllGood(log, ds) <==> AllGood(log, ds[..|ds| - 1]) && Good(log, ds[|ds| - 1]);
    }
  }

  lemma ResultsOfOneMore(ds: seq<Key>, i: nat, k: Key, log: Log)
    requires i < |ds| && Good(log, ds[i])
    ensures ResultsOf(ds[..i + 1], k, log) ==
      if ds[i].pkg == k.pkg then ResultsOf(ds[..i], k, log)[ds[i].analyzer := log[ds[i]].result]
      else ResultsOf(ds[..i], k, log)
  {
    var d := ds[i];
    assert ds[..i + 1] == ds[..i] + [d];
    if d.pkg == k.pkg {
      assert d == Key(d.analyzer, k.pkg);
    }
  }

  /** What its run makes of a job that has inherited its facts. */
  function AfterRun(w: World, run: RunFunction, k: Key, j: Job, results: map<nat, Option<int>>): Job
    requires KeyOk(w, k)
  {
    if Skipped(w, k) then j.(err := Some(IllTyped))
    else
      var o := run(k, results, j.facts);
      var err := Verdict(w.analyzers[k.analyzer], o);
      j.(err := err, result := if err == None then o.result else None, facts := Merge(j.facts, o.exports))
  }

  lemma AfterRunComesOut(w: World, run: RunFunction, k: Key, j: Job, ds: seq<Key>, log: Log, place: nat)
    requires KeyOk(w, k) && AllGood(log, ds) && j.result == None
    ensures var r := Outturn(w, run, k, ds, log, place);
      && r.Concluded?
      && AfterRun(w, run, k, j.(facts := InheritFold(ds, k, log)), ResultsOf(ds, k, log))
         == j.(err := r.error, result := r.result, facts := r.facts)
  {
  }

  lemma OutturnSplits(w: World, run: RunFunction, k: Key, ds: seq<Key>, log: Log, place: nat)
    requires KeyOk(w, k)
    ensures AllGood(log, ds) ==> Outturn(w, run, k, ds, log, place).Concluded?
    ensures !AllGood(log, ds) ==>
      Outturn(w, run, k, ds, log, place) == FailedEarly(place, Some(DependencyFailed(FailedOf(ds, log))))
  {
  }

  class Graph {
    const world: World
    const run: RunFunction

    var jobs: map<Key, Job>
    /** How many jobs of a package are still to be released. */
    var remaining: map<nat, int>
    /** The packages whose syntax has been set free. */
    var freed: set<nat>
    var roots: seq<Key>
    var completionOrder: seq<Key>

    /** The jobs in the order they were created, and the edges they had. */
    ghost var all: seq<Key>
    ghost var edges: EdgeMap
    ghost var log: Log
    ghost var released: set<Key>

    ghost function State(): State
      reads this
    {
      Schedule.State(jobs, remaining, freed, completionOrder, log, released)
    }

    // ----- building -----

    ghost predicate Draft(open: set<Key>)
      reads this
    {
      WorldOk(world) && Drafted(world, jobs, remaining, all, open)
    }

    constructor (w: World, r: RunFunction)
      requires WorldOk(w)
      ensures world == w && run == r && roots == [] && Grounded(w, jobs, remaining, all, roots) && Unstarted(State())
    {
      world, run := w, r;
      jobs, remaining, freed, roots, completionOrder := map[], map[], {}, [], [];
      all, edges, log, released := [], map[], map[], {};
    }

    /** The job for k and all it depends on, created where missing. Terminates
        even if the dependencies go round in circles. */
    method Materialize(k: Key, ghost open: set<Key>)
      requires Draft(open) && KeyOk(world, k)
      modifies this`jobs, this`remaining, this`all
      ensures Draft(open) && k in jobs && Extended(world, old(jobs), jobs, k)
      decreases AllKeys(world) - jobs.Keys, 1
    {
      hide Drafted, LeadsTo, DepKeys, ExtendedFor;
      if k in jobs {
        return;
      }
      AddJobKeeps(world, jobs, remaining, all, open, k);
      jobs := AddJob(jobs, k);
      remaining := AddWaiting(remaining, k.pkg);
      all := all + [k];
      assert k in AllKeys(world) - old(jobs).Keys;
      MaterializeNeeds(k, open + {k});
      ExtendedIsWider(world, AddJob(old(jobs), k), jobs, k);
      ghost var wired := jobs;
      MaterializeImports(k, open + {k});
      ExtendedTwice(world, AddJob(old(jobs), k), wired, jobs, k);
      CloseKeeps(world, jobs, remaining, all, open, k);
      ExtendedWhole(world, old(jobs), jobs, k);
    }

    /** The job for d, and an edge to it from k. */
    method DependOn(k: Key, d: Key, ghost open: set<Key>)
      requires Draft(open) && KeyOk(world, k) && k in open && k in jobs && KeyOk(world, d) && d in DepKeys(world, k)
      modifies this`jobs, this`remaining, this`all
      ensures Draft(open) && k in jobs && jobs[k].deps == old(jobs)[k].deps + [d]
      ensures ExtendedFor(world, old(jobs), jobs, k)
      decreases AllKeys(world) - jobs.Keys, 2
    {
      hide Drafted, LeadsTo, DepKeys;
      Materialize(d, open);
      AddEdgeKeeps(world, jobs, remaining, all, open, k, d);
      ExtendedByEdge(world, old(jobs), old(jobs), jobs, k, d);
      jobs := AddEdge(jobs, k, d);
    }

    /** Same-package requirements feed the job's results. */
    method MaterializeNeeds(k: Key, ghost open: set<Key>)
      requires Draft(open) && KeyOk(world, k) && k in open && k in jobs && jobs[k].deps == []
      modifies this`jobs, this`remaining, this`all
      ensures Draft(open) && ExtendedFor(world, old(jobs), jobs, k)
      ensures k in jobs && jobs[k].deps == NeedKeys(world, k, |world.analyzers[k.analyzer].needs|)
      decreases AllKeys(world) - jobs.Keys, 3
    {
      hide Drafted, LeadsTo, DepKeys, ExtendedFor;
      ExtendedByNothing(world, jobs, k);
      var needs := world.analyzers[k.analyzer].needs;
      for i := 0 to |needs|
        invariant Draft(open) && k in jobs && jobs[k].deps == NeedKeys(world, k, i)
        invariant old(jobs).Keys <= jobs.Keys && ExtendedFor(world, old(jobs), jobs, k)
      {
        NeedIsDependency(world, k, i);
        ghost var before := jobs;
        DependOn(k, Key(needs[i], k.pkg), open);
        ExtendedTwice(world, old(jobs), before, jobs, k);
      }
    }

    /** Import edges exist for analyzers that use facts, and not into packages
        loaded without syntax. */
    method MaterializeImports(k: Key, ghost open: set<Key>)
      requires Draft(open) && KeyOk(world, k) && k in open && k in jobs
      requires jobs[k].deps == NeedKeys(world, k, |world.analyzers[k.analyzer].needs|)
      modifies this`jobs, this`remaining, this`all
      ensures Draft(open) && ExtendedFor(world, old(jobs), jobs, k)
      ensures k in jobs && jobs[k].deps == DepKeys(world, k)
      decreases AllKeys(world) - jobs.Keys, 3
    {
      hide Drafted, LeadsTo, ExtendedFor;
      ExtendedByNothing(world, jobs, k);
      if world.analyzers[k.analyzer].usesFacts {
        ghost var needed := jobs[k].deps;
        var imports := world.packages[k.pkg].imports;
        for i := 0 to |imports|
          invariant Draft(open) && k in jobs && jobs[k].deps == needed + ImportKeys(world, k, i)
          invariant old(jobs).Keys <= jobs.Keys && ExtendedFor(world, old(jobs), jobs, k)
        {
          if world.packages[imports[i]].hasSyntax {
            ImportIsDependency(world, k, i);
            ghost var before := jobs;
            DependOn(k, Key(k.analyzer, imports[i]), open);
            ExtendedTwice(world, old(jobs), before, jobs, k);
          }
        }
      }
    }

    method AddRoot(k: Key)
      requires WorldOk(world) && KeyOk(world, k) && Grounded(world, jobs, remaining, all, roots)
      modifies this`jobs, this`remaining, this`all, this`roots
      ensures Grounded(world, jobs, remaining, all, roots) && roots == old(roots) + [k]
    {
      hide Drafted, Extended, Needed, Rooted;
      ghost var before := jobs;
      Materialize(k, {});
      AddRootKeeps(world, before, jobs, remaining, all, roots, k);
      jobs := jobs[k := jobs[k].(root := true)];
      roots := roots + [k];
    }

    /** Every job the roots need, and nothing else, with every counter at its
        in-degree. */
    static method Build(w: World, r: RunFunction, analyzers: seq<nat>, pkgs: seq<nat>) returns (g: Graph)
      requires WorldOk(w) && (forall a | a in analyzers :: a < |w.analyzers|)
      requires (forall p | p in pkgs :: p < |w.packages|)
      ensures fresh(g) && g.world == w && g.run == r && g.roots == RootKeys(analyzers, pkgs)
      ensures Grounded(w, g.jobs, g.remaining, g.all, g.roots) && Unstarted(g.State()) && g.edges == DepsOf(g.jobs)
    {
      hide Drafted, Needed, Rooted;
      g := new Graph(w, r);
      for i := 0 to |pkgs|
        invariant fresh(g) && g.world == w && g.run == r && Unstarted(g.State())
        invariant Grounded(w, g.jobs, g.remaining, g.all, g.roots) && g.roots == RootKeys(analyzers, pkgs[..i])
      {
        for j := 0 to |analyzers|
          invariant fresh(g) && g.world == w && g.run == r && Unstarted(g.State())
          invariant Grounded(w, g.jobs, g.remaining, g.all, g.roots)
          invariant g.roots == RootKeys(analyzers, pkgs[..i]) + RootRow(analyzers[..j], pkgs[i])
        {
          assert analyzers[..j + 1][..j] == analyzers[..j];
          assert analyzers[j] in analyzers && pkgs[i] in pkgs;
          g.AddRoot(Key(analyzers[j], pkgs[i]));
        }
        assert analyzers[..|analyzers|] == analyzers && pkgs[..i + 1][..i] == pkgs[..i];
      }
      assert pkgs[..|pkgs|] == pkgs;
      g.edges := DepsOf(g.jobs);
    }

    // ----- executing -----

    ghost function PlanOf(h: Heights): Plan
      reads this
    {
      Plan(world, run, h, all, edges)
    }

    /** The scheduler's invariants hold of the current state. */
    ghost predicate Ready(h: Heights)
      reads this
    {
      Sound(PlanOf(h), State())
    }

    /** The edges of k stop counting, and what nothing waits for is set free. */
    method Release(k: Key)
      requires k in jobs && k.pkg in remaining && forall d | d in jobs[k].deps :: d in jobs
      modifies this`jobs, this`remaining, this`freed, this`released
      ensures State() == Schedule.Release(old(State()), k, old(jobs[k].deps))
    {
      var deps := jobs[k].deps;
      for i := 0 to |deps|
        invariant jobs == DropAll(old(jobs), deps[..i])
        invariant remaining == old(remaining) && freed == old(freed) && released == old(released)
      {
        assert deps[..i + 1][..i] == deps[..i];
        jobs := jobs[deps[i] := DropOne(jobs[deps[i]])];
      }
      assert deps[..|deps|] == deps;
      jobs := jobs[k := jobs[k].(deps := [])];
      remaining := remaining[k.pkg := remaining[k.pkg] - 1];
      if remaining[k.pkg] == 0 {
        freed := freed + {k.pkg};
      }
      released := released + {k};
    }

    /** The dependencies that failed, in order. */
    method FailedDeps(deps: seq<Key>) returns (failed: seq<Key>)
      requires forall d | d in deps :: d in jobs && d in log && (jobs[d].err == None <==> Good(log, d))
      ensures failed == FailedOf(deps, log) && (failed == [] <==> AllGood(log, deps))
    {
      failed := [];
      for i := 0 to |deps|
        invariant failed == FailedOf(deps[..i], log)
      {
        assert deps[..i + 1][..i] == deps[..i] && deps[i] in deps;
        if jobs[deps[i]].err != None {
          failed := failed + [deps[i]];
        }
      }
      assert deps[..|deps|] == deps;
      FailedOfNone(deps, log);
    }

    /** No dependency's result or facts have been set free, and all succeeded. */
    ghost predicate DepsLive(k: Key)
      reads this
      requires k in jobs
    {
      forall d | d in jobs[k].deps ::
        d in jobs && Good(log, d) && jobs[d].result == log[d].result && jobs[d].facts == log[d].facts
    }

    /** The results of same-package dependencies, as their own runs left them. */
    method GatherResultOf(k: Key) returns (results: map<nat, Option<int>>)
      requires k in jobs && DepsLive(k)
      ensures results == ResultsOf(jobs[k].deps, k, log)
    {
      results := map[];
      var deps := jobs[k].deps;
      for i := 0 to |deps|
        invariant results == ResultsOf(deps[..i], k, log)
      {
        assert deps[i] in jobs[k].deps;
        ResultsOfOneMore(deps, i, k, log);
        if deps[i].pkg == k.pkg {
          results := results[deps[i].analyzer := jobs[deps[i]].result];
        }
      }
      assert deps[..|deps|] == deps;
    }

    /** The facts of same-analyzer jobs on imported packages, merged in turn. */
    method InheritFactsFromImports(k: Key)
      requires k in jobs && DepsLive(k) && jobs[k].facts == EMPTY_TABLE
      requires forall d | d in jobs[k].deps :: log[d].Concluded?
      modifies this`jobs
      ensures jobs == old(jobs)[k := old(jobs)[k].(facts := InheritFold(old(jobs)[k].deps, k, log))]
    {
      hide Inherit;
      var deps := jobs[k].deps;
      for i := 0 to |deps|
        invariant jobs == old(jobs)[k := old(jobs)[k].(facts := InheritFold(deps[..i], k, log))]
      {
        assert deps[..i + 1][..i] == deps[..i] && deps[i] in old(jobs)[k].deps;
        if deps[i].pkg != k.pkg && deps[i].analyzer == k.analyzer {
          var facts := InheritFrom(jobs[k].facts, jobs[deps[i]].facts, deps[i].pkg);
          jobs := jobs[k := jobs[k].(facts := facts)];
        }
      }
      assert deps[..|deps|] == deps;
    }

    /** What becomes of a job whose inputs are ready. Its package's syntax must
        still be there. */
    method RunAnalyzer(k: Key, results: map<nat, Option<int>>)
      requires k in jobs && KeyOk(world, k) && k.pkg !in freed && jobs[k].err == None && jobs[k].result == None
      modifies this`jobs
      ensures jobs == old(jobs)[k := AfterRun(world, run, k, old(jobs)[k], results)]
    {
      var j := jobs[k];
      if world.packages[k.pkg].illTyped && !world.analyzers[k.analyzer].runDespiteErrors {
        j := j.(err := Some(IllTyped));
      } else {
        var o := run(k, results, j.facts);
        j := j.(facts := Merge(j.facts, o.exports));
        if o.failed {
          j := j.(err := Some(RunFailed));
        } else if world.analyzers[k.analyzer].resultType.Some?
                  && world.analyzers[k.analyzer].resultType.value != o.resultType {
          j := j.(err := Some(WrongResultType));
        } else {
          j := j.(result := o.result);
        }
      }
      jobs := jobs[k := j];
    }

    /** Inputs and run of a job whose dependencies all succeeded. */
    method RunJob(k: Key, ghost ds: seq<Key>)
      requires k in jobs && KeyOk(world, k) && jobs[k].deps == ds && DepsLive(k) && AllGood(log, ds)
      requires k.pkg !in freed && jobs[k].err == None && jobs[k].result == None && jobs[k].facts == EMPTY_TABLE
      modifies this`jobs, this`completionOrder, this`log
      ensures old(k in jobs)
      ensures State() == Finish(old(State()), k, Outturn(world, run, k, ds, old(log), |old(completionOrder)|))
    {
      hide InheritFold, ResultsOf, AfterRun, Outturn;
      ghost var s := State();
      ghost var r := Outturn(world, run, k, ds, log, |completionOrder|);
      var results := GatherResultOf(k);
      InheritFactsFromImports(k);
      RunAnalyzer(k, results);
      AfterRunComesOut(world, run, k, s.jobs[k], ds, log, |completionOrder|);
      jobs := jobs[k := jobs[k].(completed := true)];
      log := log[k := r];
      completionOrder := completionOrder + [k];
      assert jobs == Finish(s, k, r).jobs;
    }

    /** The rest of executing k once its dependencies have been. A job that
        fails on a dependency is not released. */
    method Attempt(k: Key, ghost h: Heights)
      requires Ready(h) && k in edges && k !in log && forall d | d in edges[k] :: d in log
      modifies this`jobs, this`remaining, this`freed, this`released, this`completionOrder, this`log
      ensures old(k in jobs && k.pkg in remaining) && KeyOk(world, k)
      ensures State() == Schedule.Attempt(world, run, old(State()), k, edges[k])
    {
      hide Sound, Outturn, DropAll;
      PendingJob(PlanOf(h), State(), k);
      OutturnSplits(world, run, k, edges[k], log, |completionOrder|);
      var failed := FailedDeps(jobs[k].deps);
      if failed != [] {
        jobs := jobs[k := jobs[k].(err := Some(DependencyFailed(failed)), completed := true)];
        log := log[k := FailedEarly(|completionOrder|, Some(DependencyFailed(failed)))];
        completionOrder := completionOrder + [k];
      } else {
        PendingInputs(PlanOf(h), State(), k);
        RunJob(k, edges[k]);
        Release(k);
      }
    }

    /** Runs one job at most once, after everything it depends on. */
    method Execute(k: Key, ghost h: Heights)
      requires Ready(h) && k in edges
      modifies this`jobs, this`remaining, this`freed, this`released, this`completionOrder, this`log
      ensures Ready(h)
      ensures PlanOk(PlanOf(h)) && Fits(old(State()), edges) && State() == Execution.Execute(PlanOf(h), old(State()), k)
      decreases HeightOf(h, k)
    {
      hide Sound, Listed, Fits, Schedule.Attempt, Execution.Execute, ExecuteFirst;
      ghost var g, s := PlanOf(h), State();
      SoundFits(g, s);
      ExecuteUnfolds(g, s, k);
      ExecuteIsSound(g, s, k);
      KnowsItsWork(g, s, k);
      if jobs[k].completed {
        return;
      }
      var deps := jobs[k].deps;
      for i := 0 to |deps|
        invariant Ready(h) && State() == ExecuteFirst(g, s, k, i)
      {
        EdgeDescends(g, k, i);
        FirstUnfolds(g, s, k, i);
        Execute(deps[i], h);
      }
      FirstLeavesLast(g, s, k);
      Attempt(k, h);
    }

    /** Every root in turn; then whatever is still held. */
    method ExecuteAll(ghost h: Heights)
      requires Startable(PlanOf(h), State(), roots)
      modifies this`jobs, this`remaining, this`freed, this`released, this`completionOrder, this`log
      ensures EndsWell(PlanOf(h), roots, State())
    {
      hide Sound, Listed, Fits, Execution.Execute, Execution.ReleaseAll, Spanned, EndsWell;
      ghost var g, s := PlanOf(h), State();
      RunEndsWell(g, s, roots);
      for i := 0 to |roots|
        invariant Ready(h) && State() == ExecuteRoots(g, s, roots[..i])
      {
        assert roots[..i + 1][..i] == roots[..i];
        Execute(roots[i], h);
      }
      assert roots[..|roots|] == roots;
      ReleaseAll();
    }

    method ReleaseAll()
      modifies this`jobs, this`freed
      ensures State() == Execution.ReleaseAll(old(State()))
    {
      var left := jobs.Keys;
      while left != {}
        invariant left <= jobs.Keys && jobs.Keys == old(jobs).Keys && freed == old(freed)
        invariant forall k | k in left :: jobs[k] == old(jobs)[k]
        invariant forall k | k in jobs && k !in left ::
          jobs[k] == old(jobs)[k].(deps := [], result := if old(jobs)[k].root then old(jobs)[k].result else None)
        decreases left
      {
        var k :| k in left;
        left := left - {k};
        if !jobs[k].root {
          jobs := jobs[k := jobs[k].(result := None)];
        }
        jobs := jobs[k := jobs[k].(deps := [])];
      }
      var pkgs := remaining.Keys;
      while pkgs != {}
        invariant pkgs <= remaining.Keys && freed + pkgs == old(freed) + remaining.Keys
        invariant jobs == Execution.ReleaseAll(old(State())).jobs
        decreases pkgs
      {
        var p :| p in pkgs;
        pkgs := pkgs - {p};
        freed := freed + {p};
      }
    }
  }

  /** Builds the graph for every given analyzer on every given package and
      executes it. */
  method Run(w: World, run: RunFunction, analyzers: seq<nat>, pkgs: seq<nat>, ghost h: Heights) returns (g: Graph)
    requires WorldOk(w) && Acyclic(w, h)
    requires (forall a | a in analyzers :: a < |w.analyzers|) && forall p | p in pkgs :: p < |w.packages|
    ensures g.world == w && g.run == run && g.roots == RootKeys(analyzers, pkgs)
    ensures OneJobEach(w, g.all, g.edges, g.roots) && EndsWell(g.PlanOf(h), g.roots, g.State())
  {
    hide Grounded, OneJobEach, EndsWell, Startable;
    g := Graph.Build(w, run, analyzers, pkgs);
    GraphReady(w, run, h, g.State(), g.all, g.roots);
    GraphIsExact(w, g.jobs, g.remaining, g.all, g.roots);
    g.ExecuteAll(h);
  }

  /** Exactly one job for each key that some root leads to, with the edges its
      analyzer and package call for. */
  ghost predicate OneJobEach(w: World, all: seq<Key>, edges: EdgeMap, roots: seq<Key>)
    requires WorldOk(w)
  {
    && NoDup(all) && (forall k :: k in all <==> k in edges)
    && (forall k :: k in edges <==> NeededBy(w, roots, k))
    && (forall k | k in edges :: KeyOk(w, k) && edges[k] == DepKeys(w, k))
  }

  lemma GraphReady(w: World, run: RunFunction, h: Heights, s: State, all: seq<Key>, roots: seq<Key>)
    requires WorldOk(w) && Acyclic(w, h) && Grounded(w, s.jobs, s.remaining, all, roots) && Unstarted(s)
    ensures Startable(Plan(w, run, h, all, DepsOf(s.jobs)), s, roots)
  {
    hide Drafted, Needed, Whole, Spanned, Listed, Founded, Ordered, Counted, Tied, Stocked;
    GraphStartsSound(w, run, h, s, all, roots);
    DraftIsWhole(w, s.jobs, s.remaining, all);
    GraphIsSpanned(w, s.jobs, roots);
  }

  lemma GraphIsExact(w: World, jobs: map<Key, Job>, remaining: map<nat, int>, all: seq<Key>, roots: seq<Key>)
    requires WorldOk(w) && Grounded(w, jobs, remaining, all, roots)
    ensures OneJobEach(w, all, DepsOf(jobs), roots)
  {
    hide NeededBy, CountsEdges, CountsJobs, Needed;
    DraftIsWhole(w, jobs, remaining, all);
    forall k
      ensures k in jobs <==> NeededBy(w, roots, k)
    {
      OneJobPerNeededKey(w, jobs, roots, k);
    }
  }

  /** What the fields of a job tell about its place in the run. */
  lemma KnowsItsWork(g: Plan, s: State, k: Key)
    requires Sound(g, s) && k in g.edges
    ensures k in s.jobs && (s.jobs[k].completed <==> k in s.log) && (k !in s.log ==> s.jobs[k].deps == g.edges[k])
  {
    hide Founded, Ordered, Stocked;
    assert Tells(s.log, k, s.jobs[k]) && JobCounted(s.jobs, g.all, g.edges, s.released, k);
  }

  lemma PendingJob(g: Plan, s: State, k: Key)
    requires Sound(g, s) && k in g.edges && k !in s.log && forall d | d in g.edges[k] :: d in s.log
    ensures k in s.jobs && KeyOk(g.w, k) && k in g.all && k.pkg in s.remaining && s.jobs[k].deps == g.edges[k]
    ensures s.jobs[k].err == None && s.jobs[k].result == None && s.jobs[k].facts == EMPTY_TABLE
    ensures forall d | d in g.edges[k] :: d in s.jobs && (s.jobs[d].err == None <==> Good(s.log, d))
  {
    hide Founded, Ordered, Stocked;
    assert Tells(s.log, k, s.jobs[k]) && JobCounted(s.jobs, g.all, g.edges, s.released, k)
      && JobListed(g.all, g.edges, g.h, k);
    forall d | d in g.edges[k]
      ensures d in s.jobs && (s.jobs[d].err == None <==> Good(s.log, d))
    {
      assert Tells(s.log, d, s.jobs[d]);
    }
  }

  lemma PendingInputs(g: Plan, s: State, k: Key)
    requires Sound(g, s) && k in g.edges && k !in s.log && AllGood(s.log, g.edges[k])
    ensures k.pkg !in s.freed
    ensures forall d | d in g.edges[k] ::
      d in s.jobs && s.jobs[d].result == s.log[d].result && s.jobs[d].facts == s.log[d].facts
  {
    assert JobListed(g.all, g.edges, g.h, k);
    InputsLive(g.w, g.run, s, k, g.all, g.edges);
  }

  lemma ExecuteUnfolds(g: Plan, s: State, k: Key)
    requires PlanOk(g) && Fits(s, g.edges) && k in g.edges
    ensures k in s.log ==> Execution.Execute(g, s, k) == s
    ensures ExecuteFirst(g, s, k, 0) == s
    ensures var t := ExecuteFirst(g, s, k, |g.edges[k]|);
      k in t.jobs && k.pkg in t.remaining && KeyOk(g.w, k) &&
      (k !in s.log ==> Execution.Execute(g, s, k) == Schedule.Attempt(g.w, g.run, t, k, g.edges[k]))
  {
  }

  lemma FirstUnfolds(g: Plan, s: State, k: Key, i: nat)
    requires PlanOk(g) && Fits(s, g.edges) && k in g.edges && i < |g.edges[k]|
    ensures g.edges[k][i] in g.edges
    ensures ExecuteFirst(g, s, k, i + 1) == Execution.Execute(g, ExecuteFirst(g, s, k, i), g.edges[k][i])
  {
    assert JobListed(g.all, g.edges, g.h, k) && g.edges[k][i] in g.edges[k];
  }

  /** Executing the dependencies of k does not execute k. */
  lemma FirstLeavesLast(g: Plan, s: State, k: Key)
    requires PlanOk(g) && Fits(s, g.edges) && Sound(g, s) && k in g.edges && k !in s.log
    ensures k !in ExecuteFirst(g, s, k, |g.edges[k]|).log
    ensures forall d | d in g.edges[k] :: d in ExecuteFirst(g, s, k, |g.edges[k]|).log
  {
    hide Sound, Listed, Fits;
    ExecuteFirstIsSound(g, s, k, |g.edges[k]|);
    assert g.edges[k][..|g.edges[k]|] == g.edges[k];
  }
}
