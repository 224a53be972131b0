/** What executing the scheduler's graph does to its state, and what every step
    of it keeps. */
module Schedule {
  import opened Options
  import opened Facts
  import opened Jobs

  /** What an analyzer's Run hands back. */
  datatype Outcome = Outcome(failed: bool, result: Option<int>, resultType: nat, exports: Table)

  type RunFunction = (Key, map<nat, Option<int>>, Table) -> Outcome

  /** Exporting a fact on another package's object panics, so a Run that
      returns has exported only its own package's. */
  ghost predicate ExportsOwnFacts(run: RunFunction) {
    forall k, results, facts :: OwnFactsOnly(run(k, results, facts).exports, k.pkg)
  }

  /** How a finished job came out, and its place in completion order: it failed
      early on a dependency, or it got as far as its own run. */
  datatype Record =
    | FailedEarly(place: nat, error: Option<Failure>)
    | Concluded(place: nat, error: Option<Failure>, result: Option<int>, facts: Table, exports: Table)

  type Log = map<Key, Record>

  /** The mutable state of a run. `log` and `released` are history that the
      program's own fields forget. */
  datatype State = State(jobs: map<Key, Job>, remaining: map<nat, int>, freed: set<nat>, order: seq<Key>,
                         log: Log, released: set<Key>)

  predicate Good(log: Log, k: Key) {
    k in log && log[k].Concluded? && log[k].error == None
  }

  predicate AllGood(log: Log, ds: seq<Key>) {
    forall d | d in ds :: Good(log, d)
  }

  // ----- one job's inputs -----

  function Merge(inherited: Table, exports: Table): Table {
    Table(inherited.objects + exports.objects, inherited.packages + exports.packages)
  }

  /** The facts k inherits from dependencies ds, in turn: only same-analyzer
      jobs of other packages pass any on. */
  function InheritFold(ds: seq<Key>, k: Key, log: Log): Table {
    if ds == [] then EMPTY_TABLE
    else
      var last := ds[|ds| - 1];
      var before := InheritFold(ds[..|ds| - 1], k, log);
      if last.pkg != k.pkg && last.analyzer == k.analyzer && last in log && log[last].Concluded?
      then Inherit(before, log[last].facts, last.pkg)
      else before
  }

  /** The results of same-package dependencies, by analyzer. */
  function ResultsOf(ds: seq<Key>, k: Key, log: Log): map<nat, Option<int>> {
    map a: nat | a in AnalyzersOf(ds) && Key(a, k.pkg) in ds && Good(log, Key(a, k.pkg)) ::
      log[Key(a, k.pkg)].result
  }

  function AnalyzersOf(ds: seq<Key>): set<nat> {
    set d | d in ds :: d.analyzer
  }

  function Verdict(a: Analyzer, o: Outcome): Option<Failure> {
    if o.failed then Some(RunFailed)
    else if a.resultType.Some? && a.resultType.value != o.resultType then Some(WrongResultType)
    else None
  }

  predicate Skipped(w: World, k: Key)
    requires KeyOk(w, k)
  {
    w.packages[k.pkg].illTyped && !w.analyzers[k.analyzer].runDespiteErrors
  }

  function FailedOf(ds: seq<Key>, log: Log): seq<Key> {
    if ds == [] then []
    else FailedOf(ds[..|ds| - 1], log) + if Good(log, ds[|ds| - 1]) then [] else [ds[|ds| - 1]]
  }

  /** How k comes out, given how its dependencies ds came out. */
  function Outturn(w: World, run: RunFunction, k: Key, ds: seq<Key>, log: Log, place: nat): Record
    requires KeyOk(w, k)
  {
    var facts := InheritFold(ds, k, log);
    if !AllGood(log, ds) then FailedEarly(place, Some(DependencyFailed(FailedOf(ds, log))))
    else if Skipped(w, k) then Concluded(place, Some(IllTyped), None, facts, EMPTY_TABLE)
    else
      var o := run(k, ResultsOf(ds, k, log), facts);
      var err := Verdict(w.analyzers[k.analyzer], o);
      Concluded(place, err, if err == None then o.result else None, Merge(facts, o.exports), o.exports)
  }

  // ----- one job's steps -----

  function DropOne(j: Job): Job {
    var d := j.(consumers := j.consumers - 1);
    if d.consumers == 0 && !d.root then d.(result := None) else d
  }

  /** The edges to ds stop counting, one after another. */
  function DropAll(jobs: map<Key, Job>, ds: seq<Key>): (after: map<Key, Job>)
    ensures after.Keys == jobs.Keys
  {
    if ds == [] then jobs
    else
      var before := DropAll(jobs, ds[..|ds| - 1]);
      var d := ds[|ds| - 1];
      if d in before then before[d := DropOne(before[d])] else before
  }

  function Release(s: State, k: Key, ds: seq<Key>): State
    requires k in s.jobs && k.pkg in s.remaining
  {
    var dropped := DropAll(s.jobs, ds);
    var jobs := dropped[k := dropped[k].(deps := [])];
    var left := s.remaining[k.pkg] - 1;
    s.(jobs := jobs, remaining := s.remaining[k.pkg := left],
       freed := if left == 0 then s.freed + {k.pkg} else s.freed, released := s.released + {k})
  }

  function Finish(s: State, k: Key, r: Record): State
    requires k in s.jobs
  {
    var result := if r.Concluded? then r.result else None;
    var facts := if r.Concluded? then r.facts else EMPTY_TABLE;
    s.(jobs := s.jobs[k := s.jobs[k].(err := r.error, result := result, facts := facts, completed := true)],
       order := s.order + [k], log := s.log[k := r])
  }

  /** A job whose dependencies have all finished: one that fails early is not
      released. */
  function Attempt(w: World, run: RunFunction, s: State, k: Key, ds: seq<Key>): (t: State)
    requires k in s.jobs && k.pkg in s.remaining && KeyOk(w, k)
    ensures t.jobs.Keys == s.jobs.Keys && t.remaining.Keys == s.remaining.Keys
    ensures t.log.Keys == s.log.Keys + {k} && t.released <= s.released + {k} && s.order <= t.order
  {
    var r := Outturn(w, run, k, ds, s.log, |s.order|);
    var t := Finish(s, k, r);
    if r.FailedEarly? then t else Release(t, k, ds)
  }

  // ----- the invariants -----

  /** Every job is listed once; edges stay inside the graph, and descend. */
  predicate Listed(w: World, all: seq<Key>, edges: EdgeMap, h: Heights) {
    && NoDup(all) && EdgesKnown(all, edges)
    && (forall k | k in edges :: KeyOk(w, k))
    && (forall k {:trigger JobListed(all, edges, h, k)} | k in edges :: JobListed(all, edges, h, k))
  }

  predicate JobListed(all: seq<Key>, edges: EdgeMap, h: Heights, k: Key)
    requires k in edges
  {
    k in all && forall d | d in edges[k] :: d in edges && HeightOf(h, d) < HeightOf(h, k)
  }

  /** The state is about the listed jobs. */
  predicate Fits(s: State, edges: EdgeMap) {
    && s.jobs.Keys == edges.Keys
    && (forall k | k in edges :: k.pkg in s.remaining)
    && (forall k | k in s.log :: k in edges)
    && (forall k | k in s.released :: k in s.log)
  }

  /** Every record is the one its dependencies' records call for: each Run saw
      exactly the results and facts that its dependencies ended up with. */
  ghost predicate Founded(w: World, run: RunFunction, edges: EdgeMap, log: Log) {
    forall k {:trigger RecordFounded(w, run, edges, log, k)} | k in log :: RecordFounded(w, run, edges, log, k)
  }

  ghost predicate RecordFounded(w: World, run: RunFunction, edges: EdgeMap, log: Log, k: Key)
    requires k in log
  {
    k in edges && KeyOk(w, k) && log[k] == Outturn(w, run, k, edges[k], log, log[k].place)
  }

  /** Each finished job once, after its dependencies. */
  predicate Ordered(order: seq<Key>, edges: EdgeMap, log: Log) {
    && (forall i | 0 <= i < |order| :: order[i] in log && log[order[i]].place == i)
    && (forall k | k in log :: k in edges && log[k].place < |order| && order[log[k].place] == k)
    && (forall k, d | k in log && d in edges[k] :: d in log && log[d].place < log[k].place)
  }

  /** A counter counts the edges from jobs not yet released: those still to
      finish and those that failed early alike. */
  predicate Counted(jobs: map<Key, Job>, all: seq<Key>, edges: EdgeMap, released: set<Key>)
    requires EdgesKnown(all, edges)
  {
    forall k {:trigger JobCounted(jobs, all, edges, released, k)} | k in jobs ::
      JobCounted(jobs, all, edges, released, k)
  }

  predicate JobCounted(jobs: map<Key, Job>, all: seq<Key>, edges: EdgeMap, released: set<Key>, k: Key)
    requires EdgesKnown(all, edges) && k in jobs
  {
    && k in edges && jobs[k].consumers == OpenEdges(all, edges, released, k)
    && jobs[k].deps == if k in released then [] else edges[k]
  }

  /** A job's fields say how it came out; a result still wanted is there, and
      one that nothing waits for is not. */
  predicate Tells(log: Log, k: Key, j: Job) {
    && (j.completed <==> k in log)
    && (j.err == None <==> k !in log || Good(log, k))
    && (k in log ==> j.err == log[k].error)
    && (k !in log ==> j.facts == EMPTY_TABLE)
    && (!Good(log, k) ==> j.result == None)
    && (k in log ==> j.facts == if log[k].Concluded? then log[k].facts else EMPTY_TABLE)
    && (Good(log, k) && (j.root || j.consumers > 0) ==> j.result == log[k].result)
    && (!j.root && j.consumers <= 0 ==> j.result == None)
  }

  predicate Tied(jobs: map<Key, Job>, log: Log) {
    forall k | k in jobs :: Tells(log, k, jobs[k])
  }

  /** A package keeps its syntax exactly while some of its jobs has not been
      released. */
  predicate Stocked(remaining: map<nat, int>, freed: set<nat>, all: seq<Key>, released: set<Key>) {
    forall p | p in remaining ::
      remaining[p] == Waiting(all, released, p) && (remaining[p] > 0 <==> p !in freed)
  }

  /** Every job that is no root has a consumer. */
  predicate Wanted(jobs: map<Key, Job>, all: seq<Key>, edges: EdgeMap)
    requires EdgesKnown(all, edges)
  {
    forall k {:trigger JobWanted(jobs, all, edges, k)} | k in jobs :: JobWanted(jobs, all, edges, k)
  }

  predicate JobWanted(jobs: map<Key, Job>, all: seq<Key>, edges: EdgeMap, k: Key)
    requires EdgesKnown(all, edges) && k in jobs
  {
    jobs[k].root || exists x | x in all :: k in edges[x]
  }

  predicate SameRoots(a: map<Key, Job>, b: map<Key, Job>) {
    a.Keys == b.Keys && forall k | k in a :: a[k].root == b[k].root
  }

  ghost predicate Inv(w: World, run: RunFunction, s: State, all: seq<Key>, edges: EdgeMap)
    requires EdgesKnown(all, edges)
  {
    && Fits(s, edges)
    && Founded(w, run, edges, s.log) && Ordered(s.order, edges, s.log)
    && Counted(s.jobs, all, edges, s.released) && Tied(s.jobs, s.log)
    && Stocked(s.remaining, s.freed, all, s.released) && Wanted(s.jobs, all, edges)
  }

  // ----- finishing -----

  /** The records of ds are the same in both logs. */
  predicate SameRecords(ds: seq<Key>, a: Log, b: Log) {
    forall d | d in ds :: d in a && d in b && a[d] == b[d]
  }

  lemma {:induction false} FoldLocal(ds: seq<Key>, k: Key, a: Log, b: Log)
    requires SameRecords(ds, a, b)
    ensures InheritFold(ds, k, a) == InheritFold(ds, k, b)
  {
    if ds != [] {
      FoldLocal(ds[..|ds| - 1], k, a, b);
    }
  }

  lemma ResultsLocal(ds: seq<Key>, k: Key, a: Log, b: Log)
    requires SameRecords(ds, a, b)
    ensures ResultsOf(ds, k, a) == ResultsOf(ds, k, b)
  {
  }

  lemma {:induction false} FailedLocal(ds: seq<Key>, a: Log, b: Log)
    requires SameRecords(ds, a, b)
    ensures FailedOf(ds, a) == FailedOf(ds, b)
  {
    if ds != [] {
      FailedLocal(ds[..|ds| - 1], a, b);
      assert ds[|ds| - 1] in ds;
    }
  }

  /** How a job comes out depends on its dependencies' records alone. */
  lemma OutturnLocal(w: World, run: RunFunction, k: Key, ds: seq<Key>, a: Log, b: Log, place: nat)
    requires KeyOk(w, k) && SameRecords(ds, a, b)
    ensures Outturn(w, run, k, ds, a, place) == Outturn(w, run, k, ds, b, place)
  {
    FoldLocal(ds, k, a, b);
    ResultsLocal(ds, k, a, b);
    FailedLocal(ds, a, b);
    assert AllGood(a, ds) <==> AllGood(b, ds);
  }

  lemma RecordsStay(order: seq<Key>, edges: EdgeMap, log: Log, x: Key, k: Key, r: Record)
    requires Ordered(order, edges, log) && x in log && k !in log
    ensures x in edges && SameRecords(edges[x], log, log[k := r])
  {
  }

  lemma FinishKeepsFounded(w: World, run: RunFunction, order: seq<Key>, edges: EdgeMap, log: Log, k: Key, r: Record)
    requires Founded(w, run, edges, log) && Ordered(order, edges, log)
    requires k in edges && KeyOk(w, k) && k !in log && forall d | d in edges[k] :: d in log
    requires r == Outturn(w, run, k, edges[k], log, r.place)
    ensures Founded(w, run, edges, log[k := r])
  {
    hide Outturn, Ordered;
    var log' := log[k := r];
    forall x | x in log'
      ensures RecordFounded(w, run, edges, log', x)
    {
      if x != k {
        assert RecordFounded(w, run, edges, log, x);
        RecordsStay(order, edges, log, x, k, r);
      }
      OutturnLocal(w, run, x, edges[x], log, log', log'[x].place);
    }
  }

  lemma FinishKeepsOrdered(order: seq<Key>, edges: EdgeMap, log: Log, k: Key, r: Record)
    requires Ordered(order, edges, log) && k in edges && k !in log && r.place == |order|
    requires forall d | d in edges[k] :: d in log
    ensures Ordered(order + [k], edges, log[k := r])
  {
  }

  lemma FinishKeepsTied(jobs: map<Key, Job>, log: Log, k: Key, j: Job, r: Record)
    requires Tied(jobs, log) && k in jobs && Tells(log[k := r], k, j)
    ensures Tied(jobs[k := j], log[k := r])
  {
    forall x | x in jobs
      ensures x != k ==> Tells(log[k := r], x, jobs[x])
    {
      assert Tells(log, x, jobs[x]);
    }
  }

  lemma FinishKeepsCounted(jobs: map<Key, Job>, k: Key, j: Job, all: seq<Key>, edges: EdgeMap, released: set<Key>)
    requires EdgesKnown(all, edges) && Counted(jobs, all, edges, released) && k in jobs
    requires j.consumers == jobs[k].consumers && j.deps == jobs[k].deps
    ensures Counted(jobs[k := j], all, edges, released)
  {
    forall x | x in jobs
      ensures JobCounted(jobs[k := j], all, edges, released, x)
    {
      assert JobCounted(jobs, all, edges, released, x);
    }
  }

  lemma RootsKeepWanted(a: map<Key, Job>, b: map<Key, Job>, all: seq<Key>, edges: EdgeMap)
    requires EdgesKnown(all, edges) && Wanted(a, all, edges) && SameRoots(a, b)
    ensures Wanted(b, all, edges)
  {
    forall k | k in b
      ensures JobWanted(b, all, edges, k)
    {
      assert JobWanted(a, all, edges, k);
    }
  }

  /** A job that has not been executed still has a reader: it is a root, or
      some consumer of it has not been executed either. */
  lemma StillWanted(s: State, k: Key, all: seq<Key>, edges: EdgeMap)
    requires EdgesKnown(all, edges) && Fits(s, edges) && Ordered(s.order, edges, s.log)
    requires Counted(s.jobs, all, edges, s.released) && Wanted(s.jobs, all, edges) && k in s.jobs && k !in s.log
    ensures s.jobs[k].root || s.jobs[k].consumers > 0
  {
    assert JobWanted(s.jobs, all, edges, k) && JobCounted(s.jobs, all, edges, s.released, k);
    if !s.jobs[k].root {
      var x :| x in all && k in edges[x];
      UnreleasedCounts(all, edges, s.released, x, k);
    }
  }

  lemma FinishKeeps(w: World, run: RunFunction, s: State, k: Key, r: Record,
                    all: seq<Key>, edges: EdgeMap)
    requires EdgesKnown(all, edges) && Inv(w, run, s, all, edges) && KeyOk(w, k)
    requires k in edges && k !in s.log && (forall d | d in edges[k] :: d in s.log)
    requires r.place == |s.order| && r == Outturn(w, run, k, edges[k], s.log, r.place)
    requires r.FailedEarly? ==> r.error.Some?
    requires r.Concluded? && r.error.Some? ==> r.result == None
    requires k in s.jobs && (s.jobs[k].root || s.jobs[k].consumers > 0)
    ensures Inv(w, run, Finish(s, k, r), all, edges)
  {
    hide Outturn, Founded, Ordered, Stocked, Wanted;
    RootsKeepWanted(s.jobs, Finish(s, k, r).jobs, all, edges);
    FinishKeepsFounded(w, run, s.order, edges, s.log, k, r);
    FinishKeepsOrdered(s.order, edges, s.log, k, r);
    FinishKeepsTied(s.jobs, s.log, k, Finish(s, k, r).jobs[k], r);
    FinishKeepsCounted(s.jobs, k, Finish(s, k, r).jobs[k], all, edges, s.released);
  }

  // ----- releasing -----

  lemma {:induction false} DropAllCounts(jobs: map<Key, Job>, ds: seq<Key>, x: Key)
    requires x in jobs
    ensures DropAll(jobs, ds)[x].consumers == jobs[x].consumers - Uses(ds, x)
    ensures DropAll(jobs, ds)[x].deps == jobs[x].deps && DropAll(jobs, ds)[x].root == jobs[x].root
  {
    if ds != [] {
      DropAllCounts(jobs, ds[..|ds| - 1], x);
    }
  }

  lemma {:induction false} DropAllTells(jobs: map<Key, Job>, ds: seq<Key>, x: Key, log: Log)
    requires x in jobs && Tells(log, x, jobs[x])
    ensures x in DropAll(jobs, ds) && Tells(log, x, DropAll(jobs, ds)[x])
  {
    if ds != [] {
      DropAllTells(jobs, ds[..|ds| - 1], x, log);
    }
  }

  lemma ReleaseKeepsCounted(s: State, k: Key, all: seq<Key>, edges: EdgeMap)
    requires EdgesKnown(all, edges) && NoDup(all) && k in all && k in edges && k !in s.released
    requires k in s.jobs && k.pkg in s.remaining && Counted(s.jobs, all, edges, s.released)
    ensures Counted(Release(s, k, edges[k]).jobs, all, edges, s.released + {k})
  {
    forall x | x in s.jobs
      ensures JobCounted(Release(s, k, edges[k]).jobs, all, edges, s.released + {k}, x)
    {
      assert JobCounted(s.jobs, all, edges, s.released, x);
      DropAllCounts(s.jobs, edges[k], x);
      ReleaseClosesEdges(all, edges, s.released, k, x);
    }
  }

  lemma ReleaseKeepsTied(s: State, k: Key, ds: seq<Key>)
    requires k in s.jobs && k.pkg in s.remaining && Tied(s.jobs, s.log)
    ensures Tied(Release(s, k, ds).jobs, s.log)
    ensures SameRoots(s.jobs, Release(s, k, ds).jobs)
  {
    forall x | x in s.jobs
      ensures Tells(s.log, x, DropAll(s.jobs, ds)[x]) && DropAll(s.jobs, ds)[x].root == s.jobs[x].root
    {
      DropAllTells(s.jobs, ds, x, s.log);
      DropAllCounts(s.jobs, ds, x);
    }
  }

  lemma ReleaseKeepsStocked(s: State, k: Key, ds: seq<Key>, all: seq<Key>)
    requires k in s.jobs && k.pkg in s.remaining && NoDup(all) && k in all && k !in s.released
    requires Stocked(s.remaining, s.freed, all, s.released)
    ensures Stocked(Release(s, k, ds).remaining, Release(s, k, ds).freed, all, s.released + {k})
  {
    forall p | p in s.remaining
      ensures Waiting(all, s.released, p) == Waiting(all, s.released + {k}, p) + if k.pkg == p then 1 else 0
    {
      ReleaseLeavesPackage(all, s.released, k, p);
    }
  }

  lemma ReleaseKeeps(w: World, run: RunFunction, s: State, k: Key, all: seq<Key>, edges: EdgeMap)
    requires EdgesKnown(all, edges) && NoDup(all) && k in all && k in edges && k !in s.released && k in s.log
    requires Inv(w, run, s, all, edges)
    ensures Inv(w, run, Release(s, k, edges[k]), all, edges)
  {
    ReleaseKeepsCounted(s, k, all, edges);
    ReleaseKeepsTied(s, k, edges[k]);
    ReleaseKeepsStocked(s, k, edges[k], all);
    RootsKeepWanted(s.jobs, Release(s, k, edges[k]).jobs, all, edges);
  }

  // ----- attempting -----

  lemma ErrorFits(w: World, run: RunFunction, k: Key, ds: seq<Key>, log: Log, place: nat)
    requires KeyOk(w, k)
    ensures var r := Outturn(w, run, k, ds, log, place);
      && r.place == place && (r.FailedEarly? ==> r.error.Some?)
      && (r.Concluded? && r.error.Some? ==> r.result == None)
  {
  }

  lemma AttemptKeeps(w: World, run: RunFunction, s: State, k: Key, all: seq<Key>, edges: EdgeMap)
    requires EdgesKnown(all, edges) && NoDup(all) && Inv(w, run, s, all, edges) && KeyOk(w, k)
    requires k in all && k in edges && k !in s.log && (forall d | d in edges[k] :: d in s.log)
    ensures Inv(w, run, Attempt(w, run, s, k, edges[k]), all, edges)
  {
    hide Outturn, Release, Founded, Ordered, Counted, Tied, Stocked, Wanted;
    StillWanted(s, k, all, edges);
    var r := Outturn(w, run, k, edges[k], s.log, |s.order|);
    ErrorFits(w, run, k, edges[k], s.log, |s.order|);
    FinishKeeps(w, run, s, k, r, all, edges);
    if r.Concluded? {
      ReleaseKeeps(w, run, Finish(s, k, r), k, all, edges);
    }
  }

  /** What the scheduler owes an analyzer's Run: when a job's turn comes, no
      dependency's result and not the package's syntax has been set free. */
  lemma InputsLive(w: World, run: RunFunction, s: State, k: Key, all: seq<Key>, edges: EdgeMap)
    requires EdgesKnown(all, edges) && Inv(w, run, s, all, edges)
    requires k in all && k in edges && k !in s.log && AllGood(s.log, edges[k])
    ensures k.pkg !in s.freed
    ensures forall d | d in edges[k] ::
      d in s.jobs && s.jobs[d].result == s.log[d].result && s.jobs[d].facts == s.log[d].facts
  {
    UnreleasedWaits(all, s.released, k);
    forall d | d in edges[k]
      ensures d in s.jobs && s.jobs[d].result == s.log[d].result && s.jobs[d].facts == s.log[d].facts
    {
      assert Good(s.log, d);
      assert JobCounted(s.jobs, all, edges, s.released, d);
      UnreleasedCounts(all, edges, s.released, k, d);
      assert Tells(s.log, d, s.jobs[d]);
    }
  }

  /** The release promise: a successful job that is no root holds its result
      exactly while some job that reads it has not been released. */
  lemma ResultHeldWhileRead(w: World, run: RunFunction, s: State, k: Key, all: seq<Key>, edges: EdgeMap)
    requires EdgesKnown(all, edges) && Inv(w, run, s, all, edges)
    requires k in s.jobs && Good(s.log, k) && !s.jobs[k].root && s.log[k].result.Some?
    ensures s.jobs[k].result == s.log[k].result || s.jobs[k].result == None
    ensures s.jobs[k].result.Some? <==> exists x | x in all :: x !in s.released && k in edges[x]
  {
    hide Founded, Ordered, Stocked, Wanted;
    assert Tells(s.log, k, s.jobs[k]) && JobCounted(s.jobs, all, edges, s.released, k);
    if s.jobs[k].consumers > 0 {
      OpenEdgeBehind(all, edges, s.released, k);
    }
    if x :| x in all && x !in s.released && k in edges[x] {
      UnreleasedCounts(all, edges, s.released, x, k);
    }
  }

  /** And a package its syntax exactly while some job on it has not been. */
  lemma SyntaxHeldWhileWaiting(w: World, run: RunFunction, s: State, p: nat, all: seq<Key>, edges: EdgeMap)
    requires EdgesKnown(all, edges) && Inv(w, run, s, all, edges) && p in s.remaining
    ensures p !in s.freed <==> exists x | x in all :: x !in s.released && x.pkg == p
  {
    hide Founded, Ordered, Counted, Tied, Wanted;
    if Waiting(all, s.released, p) > 0 {
      WaitingBehind(all, s.released, p);
    }
    if x :| x in all && x !in s.released && x.pkg == p {
      UnreleasedWaits(all, s.released, x);
    }
  }
}
