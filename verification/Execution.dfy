/** Executing the roots of a job graph, and what holds when it is done. */
module Execution {
  import opened Options
  import opened Facts
  import opened Jobs
  import opened Schedule
  import opened Outcomes

  /** A finished graph: every job once, and its edges. */
  datatype Plan = Plan(w: World, run: RunFunction, h: Heights, all: seq<Key>, edges: EdgeMap)

  predicate PlanOk(g: Plan) {
    Listed(g.w, g.all, g.edges, g.h)
  }

  /** Executing k after its dependencies, each job at most once. */
  function Execute(g: Plan, s: State, k: Key): (t: State)
    requires PlanOk(g) && Fits(s, g.edges) && k in g.edges
    ensures Fits(t, g.edges) && k in t.log && s.log.Keys <= t.log.Keys
    decreases HeightOf(g.h, k), |g.edges[k]| + 1
  {
    if k in s.log then s
    else Attempt(g.w, g.run, ExecuteFirst(g, s, k, |g.edges[k]|), k, g.edges[k])
  }

  /** Executing the first i dependencies of k. */
  function ExecuteFirst(g: Plan, s: State, k: Key, i: nat): (t: State)
    requires PlanOk(g) && Fits(s, g.edges) && k in g.edges && i <= |g.edges[k]|
    ensures Fits(t, g.edges) && s.log.Keys <= t.log.Keys
    ensures forall d | d in g.edges[k][..i] :: d in t.log
    decreases HeightOf(g.h, k), i
  {
    if i == 0 then s
    else
      var d := g.edges[k][i - 1];
      assert JobListed(g.all, g.edges, g.h, k);
      assert d in g.edges[k] && g.edges[k][..i] == g.edges[k][..i - 1] + [d];
      Execute(g, ExecuteFirst(g, s, k, i - 1), d)
  }

  function ExecuteRoots(g: Plan, s: State, roots: seq<Key>): (t: State)
    requires PlanOk(g) && Fits(s, g.edges) && forall k | k in roots :: k in g.edges
    ensures Fits(t, g.edges) && s.log.Keys <= t.log.Keys
    ensures forall k | k in roots :: k in t.log
  {
    if roots == [] then s
    else Execute(g, ExecuteRoots(g, s, roots[..|roots| - 1]), roots[|roots| - 1])
  }

  /** From s to t history only grows, by jobs of height at most n. */
  predicate Grows(h: Heights, s: State, t: State, n: int) {
    && s.order <= t.order
    && (forall x | x in s.log :: x in t.log && t.log[x] == s.log[x])
    && (forall x | x in t.log :: x in s.log || HeightOf(h, x) <= n)
    && SameRoots(s.jobs, t.jobs)
  }

  lemma GrowsOn(h: Heights, s: State, t: State, u: State, m: int, n: int)
    requires Grows(h, s, t, m) && Grows(h, t, u, n)
    ensures Grows(h, s, u, if m < n then n else m)
  {
  }

  lemma DropAllKeepsRoots(jobs: map<Key, Job>, ds: seq<Key>)
    ensures SameRoots(jobs, DropAll(jobs, ds))
  {
    forall x | x in jobs
      ensures DropAll(jobs, ds)[x].root == jobs[x].root
    {
      DropAllCounts(jobs, ds, x);
    }
  }

  lemma AttemptGrows(h: Heights, w: World, run: RunFunction, s: State, k: Key, ds: seq<Key>)
    requires k in s.jobs && k.pkg in s.remaining && KeyOk(w, k) && k !in s.log
    ensures Grows(h, s, Attempt(w, run, s, k, ds), HeightOf(h, k))
  {
    hide Outturn, DropAll, Fits;
    ErrorFits(w, run, k, ds, s.log, |s.order|);
    DropAllKeepsRoots(Finish(s, k, Outturn(w, run, k, ds, s.log, |s.order|)).jobs, ds);
  }

  ghost predicate Sound(g: Plan, s: State) {
    PlanOk(g) && Inv(g.w, g.run, s, g.all, g.edges)
  }

  lemma SoundFits(g: Plan, s: State)
    requires Sound(g, s)
    ensures PlanOk(g) && Fits(s, g.edges)
  {
  }

  lemma EdgeDescends(g: Plan, k: Key, i: nat)
    requires PlanOk(g) && k in g.edges && i < |g.edges[k]|
    ensures g.edges[k][i] in g.edges && HeightOf(g.h, g.edges[k][i]) < HeightOf(g.h, k)
  {
    assert JobListed(g.all, g.edges, g.h, k);
    assert g.edges[k][i] in g.edges[k];
  }

  lemma AttemptIsSound(g: Plan, s: State, t: State, k: Key)
    requires Sound(g, s) && Sound(g, t) && k in g.edges
    requires k !in s.log && Grows(g.h, s, t, HeightOf(g.h, k) - 1) && forall d | d in g.edges[k] :: d in t.log
    ensures Sound(g, Attempt(g.w, g.run, t, k, g.edges[k]))
    ensures Grows(g.h, s, Attempt(g.w, g.run, t, k, g.edges[k]), HeightOf(g.h, k))
  {
    assert JobListed(g.all, g.edges, g.h, k);
    AttemptKeeps(g.w, g.run, t, k, g.all, g.edges);
    AttemptGrows(g.h, g.w, g.run, t, k, g.edges[k]);
    GrowsOn(g.h, s, t, Attempt(g.w, g.run, t, k, g.edges[k]), HeightOf(g.h, k) - 1, HeightOf(g.h, k));
  }

  lemma GrowsNot(h: Heights, s: State, n: int)
    ensures Grows(h, s, s, n)
  {
  }

  lemma {:induction false} ExecuteIsSound(g: Plan, s: State, k: Key)
    requires Sound(g, s) && k in g.edges
    ensures Sound(g, Execute(g, s, k)) && Grows(g.h, s, Execute(g, s, k), HeightOf(g.h, k))
    decreases HeightOf(g.h, k), |g.edges[k]| + 1
  {
    hide Sound, Grows, Listed, Fits;
    SoundFits(g, s);
    if k in s.log {
      GrowsNot(g.h, s, HeightOf(g.h, k));
    } else {
      ExecuteFirstIsSound(g, s, k, |g.edges[k]|);
      assert g.edges[k][..|g.edges[k]|] == g.edges[k];
      AttemptIsSound(g, s, ExecuteFirst(g, s, k, |g.edges[k]|), k);
    }
  }

  lemma {:induction false} ExecuteFirstIsSound(g: Plan, s: State, k: Key, i: nat)
    requires Sound(g, s) && k in g.edges && i <= |g.edges[k]|
    ensures Sound(g, ExecuteFirst(g, s, k, i)) && Grows(g.h, s, ExecuteFirst(g, s, k, i), HeightOf(g.h, k) - 1)
    decreases HeightOf(g.h, k), i
  {
    hide Sound, Grows, Listed, Fits;
    SoundFits(g, s);
    if i == 0 {
      GrowsNot(g.h, s, HeightOf(g.h, k) - 1);
    } else {
      var d := g.edges[k][i - 1];
      EdgeDescends(g, k, i - 1);
      ExecuteFirstIsSound(g, s, k, i - 1);
      var t := ExecuteFirst(g, s, k, i - 1);
      SoundFits(g, t);
      ExecuteIsSound(g, t, d);
      GrowsOn(g.h, s, t, Execute(g, t, d), HeightOf(g.h, k) - 1, HeightOf(g.h, d));
    }
  }

  lemma {:induction false} ExecuteRootsIsSound(g: Plan, s: State, roots: seq<Key>, n: int)
    requires Sound(g, s) && forall k | k in roots :: k in g.edges && HeightOf(g.h, k) <= n
    ensures Sound(g, ExecuteRoots(g, s, roots)) && Grows(g.h, s, ExecuteRoots(g, s, roots), n)
  {
    if roots == [] {
      GrowsNot(g.h, s, n);
    } else {
      var before := roots[..|roots| - 1];
      ExecuteRootsIsSound(g, s, before, n);
      var t := ExecuteRoots(g, s, before);
      ExecuteIsSound(g, t, roots[|roots| - 1]);
      GrowsOn(g.h, s, t, Execute(g, t, roots[|roots| - 1]), n, HeightOf(g.h, roots[|roots| - 1]));
    }
  }

  // ----- a whole run -----

  /** What is set free once every root has been executed. */
  function ReleaseAll(s: State): State {
    s.(jobs := map k | k in s.jobs ::
         s.jobs[k].(deps := [], result := if s.jobs[k].root then s.jobs[k].result else None),
       freed := s.freed + s.remaining.Keys)
  }

  predicate EdgePath(edges: EdgeMap, p: seq<Key>) {
    && |p| > 0 && (forall i | 0 <= i < |p| :: p[i] in edges)
    && (forall i | 0 <= i < |p| - 1 :: p[i + 1] in edges[p[i]])
  }

  /** A path that takes a root to k. */
  predicate RootPath(edges: EdgeMap, roots: seq<Key>, p: seq<Key>, k: Key) {
    EdgePath(edges, p) && p[0] in roots && p[|p| - 1] == k
  }

  /** Every job is reached from some root. */
  ghost predicate Spanned(edges: EdgeMap, roots: seq<Key>) {
    && (forall k | k in roots :: k in edges)
    && (forall k | k in edges :: exists p :: RootPath(edges, roots, p, k))
  }

  lemma {:induction false} LoggedDownward(edges: EdgeMap, order: seq<Key>, log: Log, p: seq<Key>)
    requires Ordered(order, edges, log) && EdgePath(edges, p) && p[0] in log
    ensures p[|p| - 1] in log
  {
    if |p| > 1 {
      assert p[1] in edges[p[0]];
      LoggedDownward(edges, order, log, p[1..]);
    }
  }

  /** A state in which every job has been executed. */
  ghost predicate Complete(g: Plan, t: State) {
    Sound(g, t) && t.log.Keys == g.edges.Keys
  }

  lemma EveryJobLogged(g: Plan, t: State, roots: seq<Key>, k: Key)
    requires PlanOk(g) && Ordered(t.order, g.edges, t.log) && Spanned(g.edges, roots) && k in g.edges
    requires forall r | r in roots :: r in t.log
    ensures k in t.log
  {
    hide Ordered, Listed;
    var p :| RootPath(g.edges, roots, p, k);
    LoggedDownward(g.edges, t.order, t.log, p);
  }

  lemma {:induction false} NoDupCounts<T>(s: seq<T>, x: T)
    requires NoDup(s)
    ensures multiset(s)[x] == if x in s then 1 else 0
  {
    if s != [] {
      assert s == [s[0]] + s[1..];
      NoDupCounts(s[1..], x);
    }
  }

  lemma SameElements<T>(a: seq<T>, b: seq<T>)
    requires NoDup(a) && NoDup(b) && forall x :: x in a <==> x in b
    ensures multiset(a) == multiset(b)
  {
    forall x: T
      ensures multiset(a)[x] == multiset(b)[x]
    {
      NoDupCounts(a, x);
      NoDupCounts(b, x);
    }
  }

  /** A run starts with nothing executed and nothing released. */
  predicate Unstarted(s: State) {
    s.log == map[] && s.order == [] && s.released == {} && s.freed == {}
  }

  lemma OrderIsDistinct(order: seq<Key>, edges: EdgeMap, log: Log)
    requires Ordered(order, edges, log)
    ensures NoDup(order)
  {
  }

  lemma OrderLists(g: Plan, t: State)
    requires Sound(g, t) && t.log.Keys == g.edges.Keys
    ensures forall k :: k in t.order <==> k in g.all
  {
    forall k | k in g.all
      ensures k in t.order
    {
      assert t.order[t.log[k].place] == k;
    }
    forall k | k in t.order
      ensures k in g.all
    {
      var i :| 0 <= i < |t.order| && t.order[i] == k;
      assert JobListed(g.all, g.edges, g.h, k);
    }
  }

  /** Dependencies come first. */
  ghost predicate DependenciesFirst(order: seq<Key>, edges: EdgeMap) {
    forall i, d | 0 <= i < |order| && order[i] in edges && d in edges[order[i]] :: d in order[..i]
  }

  lemma OrderDescends(order: seq<Key>, edges: EdgeMap, log: Log)
    requires Ordered(order, edges, log)
    ensures DependenciesFirst(order, edges)
  {
    forall i, d | 0 <= i < |order| && order[i] in edges && d in edges[order[i]]
      ensures d in order[..i]
    {
      assert order[log[d].place] == d && order[..i][log[d].place] == d;
    }
  }

  /** The completion order of a complete run is a permutation of all jobs, with
      every dependency before its consumers. */
  lemma CompletesInOrder(g: Plan, t: State)
    requires Complete(g, t)
    ensures multiset(t.order) == multiset(g.all) && DependenciesFirst(t.order, g.edges)
  {
    hide Ordered, Founded, Counted, Tied, Stocked;
    OrderIsDistinct(t.order, g.edges, t.log);
    OrderLists(g, t);
    SameElements(t.order, g.all);
    OrderDescends(t.order, g.edges, t.log);
  }

  function TallestOf(h: Heights, ks: seq<Key>): (n: nat)
    ensures forall k | k in ks :: HeightOf(h, k) <= n
  {
    if ks == [] then 0
    else
      var n := TallestOf(h, ks[1..]);
      if HeightOf(h, ks[0]) > n then HeightOf(h, ks[0]) else n
  }

  lemma RootsSound(g: Plan, s: State, roots: seq<Key>)
    requires PlanOk(g) && Fits(s, g.edges) && Sound(g, s) && forall k | k in roots :: k in g.edges
    ensures Sound(g, ExecuteRoots(g, s, roots)) && SameRoots(s.jobs, ExecuteRoots(g, s, roots).jobs)
  {
    ExecuteRootsIsSound(g, s, roots, TallestOf(g.h, roots));
  }

  lemma AllLogged(g: Plan, t: State, roots: seq<Key>)
    requires Sound(g, t) && Spanned(g.edges, roots) && forall r | r in roots :: r in t.log
    ensures Complete(g, t)
  {
    hide Listed, Ordered, Founded, Counted, Tied, Stocked, Spanned;
    forall k | k in g.edges
      ensures k in t.log
    {
      EveryJobLogged(g, t, roots, k);
    }
  }

  /** Executing the roots executes every job there is. */
  lemma RunCompletes(g: Plan, s: State, roots: seq<Key>)
    requires PlanOk(g) && Fits(s, g.edges) && Sound(g, s)
    requires Spanned(g.edges, roots) && forall k | k in roots :: k in g.edges
    ensures Complete(g, ExecuteRoots(g, s, roots)) && SameRoots(s.jobs, ExecuteRoots(g, s, roots).jobs)
  {
    hide Sound, Fits, SameRoots, Spanned;
    RootsSound(g, s, roots);
    AllLogged(g, ExecuteRoots(g, s, roots), roots);
  }

  /** An analyzer that succeeds has its whole transitive closure behind it. */
  lemma {:induction false} SuccessIsDeep(g: Plan, s: State, p: seq<Key>)
    requires Sound(g, s) && EdgePath(g.edges, p) && Good(s.log, p[0])
    ensures Good(s.log, p[|p| - 1])
  {
    hide Ordered, Counted, Tied, Stocked, Listed;
    if |p| > 1 {
      assert p[1] in g.edges[p[0]];
      assert RecordFounded(g.w, g.run, g.edges, s.log, p[0]);
      assert AllGood(s.log, g.edges[p[0]]);
      SuccessIsDeep(g, s, p[1..]);
    }
  }

  /** An analyzer gets to run only if everything below it succeeded: each was
      run on what its own dependencies left, and no Run below returned an error
      or a result of the wrong type. */
  lemma RunMeansClosureSucceeded(g: Plan, s: State, p: seq<Key>)
    requires Sound(g, s) && EdgePath(g.edges, p) && |p| > 1 && p[0] in s.log && s.log[p[0]].Concluded?
    ensures Good(s.log, p[|p| - 1])
    ensures KeyOk(g.w, p[|p| - 1]) && AllGood(s.log, g.edges[p[|p| - 1]])
    ensures RanWell(g.w, g.run, p[|p| - 1], g.edges[p[|p| - 1]], s.log)
  {
    hide Ordered, Counted, Tied, Stocked, Listed, Wanted, RanWell, Outturn;
    assert RecordFounded(g.w, g.run, g.edges, s.log, p[0]);
    ConcludedRests(g.w, g.run, g.edges, s.log, p[0]);
    assert p[1] in g.edges[p[0]] && AllGood(s.log, g.edges[p[0]]);
    assert EdgePath(g.edges, p[1..]);
    SuccessIsDeep(g, s, p[1..]);
    assert RecordFounded(g.w, g.run, g.edges, s.log, p[|p| - 1]);
    SucceedsIff(g.w, g.run, g.edges, s.log, p[|p| - 1]);
  }

  lemma ConcludedRests(w: World, run: RunFunction, edges: EdgeMap, log: Log, k: Key)
    requires k in log && RecordFounded(w, run, edges, log, k) && log[k].Concluded?
    ensures AllGood(log, edges[k])
  {
  }

  /** How a run leaves k: its error and facts are the ones its dependencies'
      records call for, and only a root that succeeded keeps its result. */
  ghost predicate LeftAs(g: Plan, t: State, root: bool, k: Key) {
    && k in g.edges && k in t.jobs && k in t.log && KeyOk(g.w, k)
    && t.log[k] == Outturn(g.w, g.run, k, g.edges[k], t.log, t.log[k].place)
    && t.jobs[k].err == t.log[k].error && (t.jobs[k].err == None <==> Good(t.log, k))
    && t.jobs[k].result == (if root && Good(t.log, k) then t.log[k].result else None)
    && t.jobs[k].facts == (if t.log[k].Concluded? then t.log[k].facts else EMPTY_TABLE)
    && t.jobs[k].deps == [] && k.pkg in t.freed
  }

  ghost predicate LeftOver(g: Plan, roots: seq<Key>, t: State) {
    forall k | k in g.edges :: LeftAs(g, t, k in roots, k)
  }

  lemma LeavesOnlyRoots(g: Plan, t: State, k: Key)
    requires Complete(g, t) && k in g.edges
    ensures k in t.jobs && LeftAs(g, ReleaseAll(t), t.jobs[k].root, k)
  {
    hide Ordered, Counted, Listed, Stocked, Outturn;
    assert Tells(t.log, k, t.jobs[k]) && RecordFounded(g.w, g.run, g.edges, t.log, k);
  }

  lemma LeavesAll(g: Plan, roots: seq<Key>, t: State)
    requires Complete(g, t) && forall k | k in t.jobs :: t.jobs[k].root <==> k in roots
    ensures LeftOver(g, roots, ReleaseAll(t))
  {
    hide Complete, LeftAs, ReleaseAll;
    forall k | k in g.edges
      ensures LeftAs(g, ReleaseAll(t), k in roots, k)
    {
      LeavesOnlyRoots(g, t, k);
    }
  }

  /** Every job ended as its dependencies' errors and its own Run call for. */
  ghost predicate AllEnded(g: Plan, roots: seq<Key>, t: State) {
    forall k | k in g.edges :: EndedAs(g.w, g.run, k, g.edges[k], k in roots, t.jobs, t.log)
  }

  lemma LeftOverEnds(g: Plan, roots: seq<Key>, t: State)
    requires PlanOk(g) && LeftOver(g, roots, t)
    ensures AllEnded(g, roots, t)
  {
    hide Outturn, EndedAs;
    forall k | k in g.edges
      ensures EndedAs(g.w, g.run, k, g.edges[k], k in roots, t.jobs, t.log)
    {
      assert JobListed(g.all, g.edges, g.h, k);
      assert LeftAs(g, t, k in roots, k);
      forall d | d in g.edges[k]
        ensures d in t.jobs && (t.jobs[d].err == None <==> Good(t.log, d))
      {
        assert LeftAs(g, t, d in roots, d);
      }
      RecordEnds(g.w, g.run, g.edges, k in roots, t.jobs, t.log, k);
    }
  }

  /** The completion order is a permutation of the jobs, dependencies first,
      and every job is left as it should be. */
  ghost predicate EndsWell(g: Plan, roots: seq<Key>, t: State) {
    && multiset(t.order) == multiset(g.all) && DependenciesFirst(t.order, g.edges)
    && LeftOver(g, roots, t) && AllEnded(g, roots, t)
  }

  /** A graph ready to be executed from its roots. */
  ghost predicate Startable(g: Plan, s: State, roots: seq<Key>) {
    && PlanOk(g) && Fits(s, g.edges) && Sound(g, s)
    && Spanned(g.edges, roots) && (forall k | k in roots :: k in g.edges)
    && (forall k | k in s.jobs :: s.jobs[k].root <==> k in roots)
  }

  lemma RunEndsWell(g: Plan, s: State, roots: seq<Key>)
    requires Startable(g, s, roots)
    ensures EndsWell(g, roots, ReleaseAll(ExecuteRoots(g, s, roots)))
  {
    hide Sound, Fits, Spanned, Listed, LeftOver, DependenciesFirst, Execute;
    RunCompletes(g, s, roots);
    CompletesInOrder(g, ExecuteRoots(g, s, roots));
    LeavesAll(g, roots, ExecuteRoots(g, s, roots));
    LeftOverEnds(g, roots, ReleaseAll(ExecuteRoots(g, s, roots)));
  }
}
