/** What a job's end means in terms of what its Run was handed and what it
    handed back. */
module Outcomes {
  import opened Options
  import opened Facts
  import opened Jobs
  import opened Schedule

  /** The results a Run is handed: those of the jobs it waits for on its own
      package, by analyzer, and no others. */
  predicate Handed(k: Key, ds: seq<Key>, log: Log, results: map<nat, Option<int>>)
    requires AllGood(log, ds)
  {
    && (forall d | d in ds && d.pkg == k.pkg :: d.analyzer in results && results[d.analyzer] == log[d].result)
    && (forall a | a in results :: Key(a, k.pkg) in ds)
  }

  lemma ResultsAreHanded(ds: seq<Key>, k: Key, log: Log)
    requires AllGood(log, ds)
    ensures Handed(k, ds, log, ResultsOf(ds, k, log))
  {
    forall d | d in ds && d.pkg == k.pkg
      ensures d.analyzer in ResultsOf(ds, k, log) && ResultsOf(ds, k, log)[d.analyzer] == log[d].result
    {
      assert d == Key(d.analyzer, k.pkg) && Good(log, d);
    }
  }

  lemma HandedOnce(ds: seq<Key>, k: Key, log: Log, a: map<nat, Option<int>>, b: map<nat, Option<int>>)
    requires AllGood(log, ds) && Handed(k, ds, log, a) && Handed(k, ds, log, b)
    ensures a == b
  {
    forall x | x in a || x in b
      ensures x in a && x in b && a[x] == b[x]
    {
      assert Key(x, k.pkg) in ds;
    }
  }

  /** A Run returned no error, and a result of the declared type if there is one. */
  predicate Accepted(a: Analyzer, o: Outcome) {
    !o.failed && (a.resultType.None? || a.resultType.value == o.resultType)
  }

  /** k's Run was called, on what its dependencies left, and accepted. */
  ghost predicate RanWell(w: World, run: RunFunction, k: Key, ds: seq<Key>, log: Log)
    requires KeyOk(w, k) && AllGood(log, ds)
  {
    && (w.packages[k.pkg].illTyped ==> w.analyzers[k.analyzer].runDespiteErrors)
    && exists results :: Handed(k, ds, log, results)
         && Accepted(w.analyzers[k.analyzer], run(k, results, InheritFold(ds, k, log)))
  }

  /** A job succeeds exactly when all its dependencies did, its package is fit
      to be analysed, and its Run returned what it should. */
  lemma SucceedsIff(w: World, run: RunFunction, edges: EdgeMap, log: Log, k: Key)
    requires k in log && RecordFounded(w, run, edges, log, k)
    ensures Good(log, k) <==> AllGood(log, edges[k]) && RanWell(w, run, k, edges[k], log)
  {
    hide InheritFold, ResultsOf, Handed;
    var ds := edges[k];
    if AllGood(log, ds) {
      var handed := ResultsOf(ds, k, log);
      ResultsAreHanded(ds, k, log);
      forall results | Handed(k, ds, log, results)
        ensures results == handed
      {
        HandedOnce(ds, k, log, results, handed);
      }
    }
  }

  /** The list names the dependencies that failed, in their order. */
  ghost predicate Lists(failed: seq<Key>, ds: seq<Key>, jobs: map<Key, Job>)
    requires forall d | d in ds :: d in jobs
  {
    exists at: seq<nat> :: ListsAt(failed, ds, jobs, at)
  }

  predicate ListsAt(failed: seq<Key>, ds: seq<Key>, jobs: map<Key, Job>, at: seq<nat>)
    requires forall d | d in ds :: d in jobs
  {
    && |at| == |failed| && (forall i, j | 0 <= i < j < |at| :: at[i] < at[j])
    && (forall i | 0 <= i < |at| :: at[i] < |ds| && failed[i] == ds[at[i]])
    && (forall x | 0 <= x < |ds| :: x in at <==> jobs[ds[x]].err != None)
  }

  lemma {:induction false} FailedAreListed(ds: seq<Key>, jobs: map<Key, Job>, log: Log) returns (at: seq<nat>)
    requires forall d | d in ds :: d in jobs && (jobs[d].err == None <==> Good(log, d))
    ensures ListsAt(FailedOf(ds, log), ds, jobs, at)
  {
    at := [];
    if ds != [] {
      var n := |ds| - 1;
      assert ds == ds[..n] + [ds[n]] && ds[n] in ds;
      at := FailedAreListed(ds[..n], jobs, log);
      if !Good(log, ds[n]) {
        at := at + [n];
      }
    }
  }

  /** What a Run that was called leaves on its job: the error it returned, the
      complaint about its result's type, or its result, which a root keeps; and
      in any case its facts over those inherited. */
  predicate Leaves(a: Analyzer, o: Outcome, inherited: Table, root: bool, j: Job) {
    && (o.failed ==> j.err == Some(RunFailed))
    && (!o.failed && a.resultType.Some? && a.resultType.value != o.resultType ==> j.err == Some(WrongResultType))
    && (Accepted(a, o) ==> j.err == None)
    && j.result == (if root && Accepted(a, o) then o.result else None)
    && j.facts.objects == inherited.objects + o.exports.objects
    && j.facts.packages == inherited.packages + o.exports.packages
  }

  /** How a run leaves k, told by its dependencies' errors and its own Run. */
  ghost predicate EndedAs(w: World, run: RunFunction, k: Key, ds: seq<Key>, root: bool, jobs: map<Key, Job>, log: Log)
  {
    && KeyOk(w, k) && k in jobs && (forall d | d in ds :: d in jobs && (jobs[d].err == None <==> Good(log, d)))
    && if exists d | d in ds :: jobs[d].err != None then
         && jobs[k].err.Some? && jobs[k].err.value.DependencyFailed? && Lists(jobs[k].err.value.failed, ds, jobs)
         && jobs[k].result == None && jobs[k].facts == EMPTY_TABLE
       else if w.packages[k.pkg].illTyped && !w.analyzers[k.analyzer].runDespiteErrors then
         jobs[k].err == Some(IllTyped) && jobs[k].result == None && jobs[k].facts == InheritFold(ds, k, log)
       else
         exists results :: Handed(k, ds, log, results)
           && Leaves(w.analyzers[k.analyzer], run(k, results, InheritFold(ds, k, log)), InheritFold(ds, k, log),
                     root, jobs[k])
  }

  lemma RecordEnds(w: World, run: RunFunction, edges: EdgeMap, root: bool, jobs: map<Key, Job>, log: Log, k: Key)
    requires k in log && RecordFounded(w, run, edges, log, k) && k in jobs
    requires forall d | d in edges[k] :: d in jobs && (jobs[d].err == None <==> Good(log, d))
    requires jobs[k].err == log[k].error
    requires jobs[k].result == (if root && Good(log, k) then log[k].result else None)
    requires jobs[k].facts == (if log[k].Concluded? then log[k].facts else EMPTY_TABLE)
    ensures EndedAs(w, run, k, edges[k], root, jobs, log)
  {
    hide InheritFold, ResultsOf, Handed, Lists, FailedOf;
    var ds := edges[k];
    if AllGood(log, ds) {
      ResultsAreHanded(ds, k, log);
      var handed := ResultsOf(ds, k, log);
      assert !Skipped(w, k) ==> Leaves(w.analyzers[k.analyzer], run(k, handed, InheritFold(ds, k, log)),
                                       InheritFold(ds, k, log), root, jobs[k]);
    } else {
      FailuresListed(ds, jobs, log);
    }
  }

  lemma FailuresListed(ds: seq<Key>, jobs: map<Key, Job>, log: Log)
    requires forall d | d in ds :: d in jobs && (jobs[d].err == None <==> Good(log, d))
    ensures Lists(FailedOf(ds, log), ds, jobs)
  {
    var at := FailedAreListed(ds, jobs, log);
  }
}
