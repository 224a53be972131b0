/** What materialising jobs keeps true of the half-built graph. */
module Building {
  import opened Options
  import opened Facts
  import opened Jobs
  import opened Schedule
  import opened Execution

  function DepsOf(jobs: map<Key, Job>): EdgeMap {
    map k | k in jobs :: jobs[k].deps
  }

  /** A request for k has found no job and adds one. */
  function AddJob(jobs: map<Key, Job>, k: Key): map<Key, Job> {
    jobs[k := FRESH_JOB]
  }

  function AddWaiting(remaining: map<nat, int>, p: nat): map<nat, int> {
    remaining[p := if p in remaining then remaining[p] + 1 else 1]
  }

  /** k waits for d, and d has one consumer more. */
  function AddEdge(jobs: map<Key, Job>, k: Key, d: Key): (after: map<Key, Job>)
    requires k in jobs && d in jobs
  {
    var linked := jobs[k := jobs[k].(deps := jobs[k].deps + [d])];
    linked[d := linked[d].(consumers := linked[d].consumers + 1)]
  }

  // ----- what holds while jobs in `open` still lack some of their edges -----

  ghost predicate Members(w: World, jobs: map<Key, Job>, all: seq<Key>) {
    && NoDup(all) && (forall k :: k in all <==> k in jobs)
    && (forall k | k in jobs :: KeyOk(w, k))
    && (forall k, d | k in jobs && d in jobs[k].deps :: d in jobs)
  }

  predicate Wired(w: World, jobs: map<Key, Job>, open: set<Key>)
    requires WorldOk(w)
  {
    forall k | k in jobs && k !in open :: KeyOk(w, k) && jobs[k].deps == DepKeys(w, k)
  }

  predicate CountsEdges(jobs: map<Key, Job>, all: seq<Key>) {
    EdgesKnown(all, DepsOf(jobs)) && forall k | k in jobs :: jobs[k].consumers == OpenEdges(all, DepsOf(jobs), {}, k)
  }

  ghost predicate CountsJobs(remaining: map<nat, int>, all: seq<Key>) {
    && (forall p | p in remaining :: remaining[p] == Waiting(all, {}, p) > 0)
    && (forall k | k in all :: k.pkg in remaining)
  }

  predicate Untouched(jobs: map<Key, Job>) {
    forall k | k in jobs ::
      jobs[k].err == None && jobs[k].result == None && jobs[k].facts == EMPTY_TABLE && !jobs[k].completed
  }

  ghost predicate Drafted(w: World, jobs: map<Key, Job>, remaining: map<nat, int>, all: seq<Key>, open: set<Key>)
    requires WorldOk(w)
  {
    && Members(w, jobs, all) && Wired(w, jobs, open)
    && CountsEdges(jobs, all) && CountsJobs(remaining, all) && Untouched(jobs)
  }

  lemma AddJobKeepsEdges(w: World, jobs: map<Key, Job>, all: seq<Key>, k: Key)
    requires Members(w, jobs, all) && CountsEdges(jobs, all) && k !in jobs
    ensures CountsEdges(AddJob(jobs, k), all + [k])
  {
    var edges := DepsOf(jobs);
    assert DepsOf(AddJob(jobs, k)) == edges[k := []];
    forall x | x in AddJob(jobs, k)
      ensures AddJob(jobs, k)[x].consumers == OpenEdges(all + [k], edges[k := []], {}, x)
    {
      AppendJob(all, edges, k, x, 0);
      if x == k {
        NoEdgesIn(all, edges, {}, k);
      }
    }
  }

  lemma AddJobKeepsJobs(w: World, jobs: map<Key, Job>, remaining: map<nat, int>, all: seq<Key>, k: Key)
    requires Members(w, jobs, all) && CountsEdges(jobs, all) && CountsJobs(remaining, all) && k !in jobs
    ensures CountsJobs(AddWaiting(remaining, k.pkg), all + [k])
  {
    forall p | p in AddWaiting(remaining, k.pkg)
      ensures AddWaiting(remaining, k.pkg)[p] == Waiting(all + [k], {}, p)
    {
      AppendJob(all, DepsOf(jobs), k, k, p);
      if p !in remaining {
        NoneWaiting(all, {}, p);
      }
    }
  }

  lemma AddJobKeeps(w: World, jobs: map<Key, Job>, remaining: map<nat, int>, all: seq<Key>, open: set<Key>, k: Key)
    requires WorldOk(w) && Drafted(w, jobs, remaining, all, open) && k !in jobs && KeyOk(w, k)
    ensures Drafted(w, AddJob(jobs, k), AddWaiting(remaining, k.pkg), all + [k], open + {k})
  {
    hide CountsEdges, CountsJobs;
    AddJobKeepsEdges(w, jobs, all, k);
    AddJobKeepsJobs(w, jobs, remaining, all, k);
  }

  lemma AddEdgeDeps(jobs: map<Key, Job>, k: Key, d: Key)
    requires k in jobs && d in jobs
    ensures DepsOf(AddEdge(jobs, k, d)) == DepsOf(jobs)[k := jobs[k].deps + [d]]
  {
  }

  lemma AddEdgeCounts(jobs: map<Key, Job>, all: seq<Key>, k: Key, d: Key, x: Key)
    requires EdgesKnown(all, DepsOf(jobs)) && NoDup(all) && k in jobs && d in jobs && k in all && x in jobs
    requires jobs[x].consumers == OpenEdges(all, DepsOf(jobs), {}, x)
    ensures EdgesKnown(all, DepsOf(AddEdge(jobs, k, d)))
    ensures AddEdge(jobs, k, d)[x].consumers == OpenEdges(all, DepsOf(AddEdge(jobs, k, d)), {}, x)
  {
    AddEdgeDeps(jobs, k, d);
    AppendEdge(all, DepsOf(jobs), k, d, x);
  }

  lemma AddEdgeKeeps(w: World, jobs: map<Key, Job>, remaining: map<nat, int>, all: seq<Key>, open: set<Key>, k: Key,
                     d: Key)
    requires WorldOk(w) && Drafted(w, jobs, remaining, all, open) && k in jobs && d in jobs && k in open
    ensures Drafted(w, AddEdge(jobs, k, d), remaining, all, open)
  {
    hide CountsJobs, DepKeys, OpenEdges;
    AddEdgeDeps(jobs, k, d);
    forall x | x in jobs
      ensures AddEdge(jobs, k, d)[x].consumers == OpenEdges(all, DepsOf(AddEdge(jobs, k, d)), {}, x)
    {
      AddEdgeCounts(jobs, all, k, d, x);
    }
  }

  /** A job with all its edges is no longer open. */
  lemma CloseKeeps(w: World, jobs: map<Key, Job>, remaining: map<nat, int>, all: seq<Key>, open: set<Key>, k: Key)
    requires WorldOk(w) && Drafted(w, jobs, remaining, all, open + {k}) && KeyOk(w, k)
    requires k in jobs && jobs[k].deps == DepKeys(w, k)
    ensures Drafted(w, jobs, remaining, all, open)
  {
    hide CountsEdges, CountsJobs, Members;
  }

  /** Marking a root changes nothing that is counted. */
  lemma MarkKeeps(w: World, jobs: map<Key, Job>, remaining: map<nat, int>, all: seq<Key>, k: Key)
    requires WorldOk(w) && Drafted(w, jobs, remaining, all, {}) && k in jobs
    ensures Drafted(w, jobs[k := jobs[k].(root := true)], remaining, all, {})
  {
    hide CountsJobs, DepKeys, OpenEdges;
    assert DepsOf(jobs[k := jobs[k].(root := true)]) == DepsOf(jobs);
  }

  // ----- reachability -----

  /** Each key of the path depends on the next. */
  ghost predicate DepPath(w: World, p: seq<Key>)
    requires WorldOk(w)
  {
    && |p| > 0 && (forall i | 0 <= i < |p| :: KeyOk(w, p[i]))
    && (forall i | 0 <= i < |p| - 1 :: p[i + 1] in DepKeys(w, p[i]))
  }

  ghost predicate LeadsTo(w: World, k: Key, x: Key)
    requires WorldOk(w)
  {
    exists p :: DepPath(w, p) && p[0] == k && p[|p| - 1] == x
  }

  lemma LeadsToItself(w: World, k: Key)
    requires WorldOk(w) && KeyOk(w, k)
    ensures LeadsTo(w, k, k)
  {
    assert DepPath(w, [k]);
  }

  lemma LeadsOn(w: World, k: Key, d: Key, x: Key)
    requires WorldOk(w) && KeyOk(w, k) && d in DepKeys(w, k) && LeadsTo(w, d, x)
    ensures LeadsTo(w, k, x)
  {
    var p :| DepPath(w, p) && p[0] == d && p[|p| - 1] == x;
    var q := [k] + p;
    assert forall i | 1 <= i < |q| :: q[i] == p[i - 1];
    assert DepPath(w, q);
  }

  /** Older jobs keep their edges, and k leads to everything new. */
  ghost predicate Extended(w: World, a: map<Key, Job>, b: map<Key, Job>, k: Key)
    requires WorldOk(w)
  {
    && (forall x | x in a :: x in b && b[x].deps == a[x].deps && b[x].root == a[x].root)
    && (forall x | x in b && x !in a :: !b[x].root && LeadsTo(w, k, x))
  }

  /** The same while k is collecting its own edges. */
  ghost predicate ExtendedFor(w: World, a: map<Key, Job>, b: map<Key, Job>, k: Key)
    requires WorldOk(w)
  {
    && (forall x | x in a :: x in b && (x != k ==> b[x].deps == a[x].deps) && b[x].root == a[x].root)
    && (forall x | x in b && x !in a :: !b[x].root && LeadsTo(w, k, x))
  }

  lemma ExtendedByEdge(w: World, a: map<Key, Job>, b: map<Key, Job>, c: map<Key, Job>, k: Key, d: Key)
    requires WorldOk(w) && KeyOk(w, k) && d in DepKeys(w, k)
    requires ExtendedFor(w, a, b, k) && Extended(w, b, c, d) && k in c && d in c
    ensures ExtendedFor(w, a, AddEdge(c, k, d), k)
  {
    hide Extended, LeadsTo, DepKeys;
    ExtendedThrough(w, a, b, c, k, d);
  }

  lemma ExtendedThrough(w: World, a: map<Key, Job>, b: map<Key, Job>, c: map<Key, Job>, k: Key, d: Key)
    requires WorldOk(w) && KeyOk(w, k) && d in DepKeys(w, k)
    requires ExtendedFor(w, a, b, k) && Extended(w, b, c, d)
    ensures ExtendedFor(w, a, c, k)
  {
    hide LeadsTo, DepKeys;
    forall x | x in c && x !in b
      ensures LeadsTo(w, k, x)
    {
      LeadsOn(w, k, d, x);
    }
  }

  lemma ExtendedIsWider(w: World, a: map<Key, Job>, b: map<Key, Job>, k: Key)
    requires WorldOk(w) && ExtendedFor(w, a, b, k)
    ensures a.Keys <= b.Keys
  {
  }

  lemma ExtendedByNothing(w: World, a: map<Key, Job>, k: Key)
    requires WorldOk(w)
    ensures ExtendedFor(w, a, a, k)
  {
  }

  lemma ExtendedTwice(w: World, a: map<Key, Job>, b: map<Key, Job>, c: map<Key, Job>, k: Key)
    requires WorldOk(w) && ExtendedFor(w, a, b, k) && ExtendedFor(w, b, c, k)
    ensures ExtendedFor(w, a, c, k) && a.Keys <= b.Keys <= c.Keys
  {
    hide LeadsTo;
  }

  lemma ExtendedWhole(w: World, a: map<Key, Job>, b: map<Key, Job>, k: Key)
    requires WorldOk(w) && KeyOk(w, k) && k !in a && ExtendedFor(w, AddJob(a, k), b, k)
    ensures Extended(w, a, b, k)
  {
    LeadsToItself(w, k);
  }

  /** Some root leads to x. */
  ghost predicate NeededBy(w: World, roots: seq<Key>, x: Key)
    requires WorldOk(w)
  {
    exists r :: r in roots && LeadsTo(w, r, x)
  }

  ghost predicate Needed(w: World, jobs: map<Key, Job>, roots: seq<Key>)
    requires WorldOk(w)
  {
    forall x | x in jobs :: NeededBy(w, roots, x)
  }

  // ----- roots -----

  function RootRow(analyzers: seq<nat>, p: nat): seq<Key> {
    if analyzers == [] then [] else RootRow(analyzers[..|analyzers| - 1], p) + [Key(analyzers[|analyzers| - 1], p)]
  }

  /** Every given analyzer on every given package, packages outermost. */
  function RootKeys(analyzers: seq<nat>, pkgs: seq<nat>): seq<Key> {
    if pkgs == [] then [] else RootKeys(analyzers, pkgs[..|pkgs| - 1]) + RootRow(analyzers, pkgs[|pkgs| - 1])
  }

  /** The roots are jobs, and they alone are marked. */
  predicate Rooted(jobs: map<Key, Job>, roots: seq<Key>) {
    (forall r | r in roots :: r in jobs) && forall k | k in jobs :: jobs[k].root <==> k in roots
  }

  ghost predicate Grounded(w: World, jobs: map<Key, Job>, remaining: map<nat, int>, all: seq<Key>, roots: seq<Key>)
    requires WorldOk(w)
  {
    Drafted(w, jobs, remaining, all, {}) && Needed(w, jobs, roots) && Rooted(jobs, roots)
  }

  lemma AddRootKeepsNeeded(w: World, a: map<Key, Job>, roots: seq<Key>, b: map<Key, Job>, k: Key)
    requires WorldOk(w) && Needed(w, a, roots) && Extended(w, a, b, k)
    ensures Needed(w, b, roots + [k])
  {
    hide LeadsTo;
    forall x | x in b
      ensures NeededBy(w, roots + [k], x)
    {
      if x in a {
        assert NeededBy(w, roots, x);
        var r :| r in roots && LeadsTo(w, r, x);
        assert r in roots + [k];
      } else {
        assert k in roots + [k];
      }
    }
  }

  lemma AddRootKeepsRooted(w: World, a: map<Key, Job>, roots: seq<Key>, b: map<Key, Job>, k: Key)
    requires WorldOk(w) && Rooted(a, roots) && Extended(w, a, b, k) && k in b
    ensures Rooted(b[k := b[k].(root := true)], roots + [k])
  {
    hide LeadsTo;
    var c := b[k := b[k].(root := true)];
    forall x | x in c
      ensures c[x].root <==> x in roots + [k]
    {
      assert x in roots + [k] <==> x in roots || x == k;
    }
  }

  lemma AddRootKeeps(w: World, a: map<Key, Job>, b: map<Key, Job>, remaining: map<nat, int>, all: seq<Key>,
                     roots: seq<Key>, k: Key)
    requires WorldOk(w) && Needed(w, a, roots) && Rooted(a, roots)
    requires Drafted(w, b, remaining, all, {}) && Extended(w, a, b, k) && k in b
    ensures Grounded(w, b[k := b[k].(root := true)], remaining, all, roots + [k])
  {
    hide Drafted, Rooted, LeadsTo;
    MarkKeeps(w, b, remaining, all, k);
    AddRootKeepsNeeded(w, a, roots, b, k);
    AddRootKeepsRooted(w, a, roots, b, k);
  }

  // ----- the finished graph -----

  /** Every job has all its edges, and they lead to jobs. */
  predicate Whole(w: World, jobs: map<Key, Job>)
    requires WorldOk(w)
  {
    forall k | k in jobs :: KeyOk(w, k) && jobs[k].deps == DepKeys(w, k) && forall d | d in jobs[k].deps :: d in jobs
  }

  lemma {:induction false} PathInJobs(w: World, jobs: map<Key, Job>, p: seq<Key>)
    requires WorldOk(w) && Whole(w, jobs) && DepPath(w, p) && p[0] in jobs
    ensures EdgePath(DepsOf(jobs), p)
    decreases |p|
  {
    hide DepKeys;
    if |p| > 1 {
      assert p[1] in DepKeys(w, p[0]);
      PathInJobs(w, jobs, p[1..]);
      assert forall i | 1 <= i < |p| :: p[i] == p[1..][i - 1];
    }
  }

  lemma RootedPath(w: World, jobs: map<Key, Job>, roots: seq<Key>, r: Key, x: Key)
    requires WorldOk(w) && Whole(w, jobs) && r in roots && r in jobs && LeadsTo(w, r, x)
    ensures x in jobs && exists p :: RootPath(DepsOf(jobs), roots, p, x)
  {
    hide Whole, EdgePath;
    var p :| DepPath(w, p) && p[0] == r && p[|p| - 1] == x;
    PathInJobs(w, jobs, p);
    PathEnds(DepsOf(jobs), p);
    assert RootPath(DepsOf(jobs), roots, p, x);
  }

  lemma PathEnds(edges: EdgeMap, p: seq<Key>)
    requires EdgePath(edges, p)
    ensures |p| > 0 && p[|p| - 1] in edges
  {
  }

  /** A finished graph has exactly one job for each key the roots lead to. */
  lemma OneJobPerNeededKey(w: World, jobs: map<Key, Job>, roots: seq<Key>, x: Key)
    requires WorldOk(w) && Whole(w, jobs) && Needed(w, jobs, roots) && forall r | r in roots :: r in jobs
    ensures x in jobs <==> NeededBy(w, roots, x)
  {
    hide Whole, LeadsTo;
    if r :| r in roots && LeadsTo(w, r, x) {
      RootedPath(w, jobs, roots, r, x);
    }
  }

  lemma NeededPath(w: World, jobs: map<Key, Job>, roots: seq<Key>, k: Key)
    requires WorldOk(w) && Whole(w, jobs) && Needed(w, jobs, roots) && (forall r | r in roots :: r in jobs) && k in jobs
    ensures exists p :: RootPath(DepsOf(jobs), roots, p, k)
  {
    hide Whole, LeadsTo, RootPath;
    var r :| r in roots && LeadsTo(w, r, k);
    RootedPath(w, jobs, roots, r, k);
  }

  lemma GraphIsSpanned(w: World, jobs: map<Key, Job>, roots: seq<Key>)
    requires WorldOk(w) && Whole(w, jobs) && Needed(w, jobs, roots) && forall r | r in roots :: r in jobs
    ensures Spanned(DepsOf(jobs), roots)
  {
    hide Whole, LeadsTo, Needed, RootPath;
    forall k | k in jobs
      ensures exists p :: RootPath(DepsOf(jobs), roots, p, k)
    {
      NeededPath(w, jobs, roots, k);
    }
  }

  lemma DraftIsWhole(w: World, jobs: map<Key, Job>, remaining: map<nat, int>, all: seq<Key>)
    requires WorldOk(w) && Drafted(w, jobs, remaining, all, {})
    ensures Whole(w, jobs)
  {
    hide CountsEdges, CountsJobs;
  }

  lemma GraphIsListed(w: World, h: Heights, jobs: map<Key, Job>, remaining: map<nat, int>, all: seq<Key>)
    requires WorldOk(w) && Acyclic(w, h) && Drafted(w, jobs, remaining, all, {})
    ensures Listed(w, all, DepsOf(jobs), h)
  {
    hide CountsEdges, CountsJobs;
    forall k, d | k in jobs && d in jobs[k].deps
      ensures HeightOf(h, d) < HeightOf(h, k)
    {
      DependenciesDescend(w, h, k, d);
    }
  }

  /** A job that is no root was made for some other job's sake. */
  lemma GraphIsWanted(w: World, jobs: map<Key, Job>, remaining: map<nat, int>, all: seq<Key>, roots: seq<Key>)
    requires WorldOk(w) && Grounded(w, jobs, remaining, all, roots) && EdgesKnown(all, DepsOf(jobs))
    ensures Wanted(jobs, all, DepsOf(jobs))
  {
    hide CountsEdges, CountsJobs, LeadsTo, Needed, DepKeys;
    DraftIsWhole(w, jobs, remaining, all);
    forall k | k in jobs
      ensures JobWanted(jobs, all, DepsOf(jobs), k)
    {
      NeededPath(w, jobs, roots, k);
      var p :| RootPath(DepsOf(jobs), roots, p, k);
      if |p| > 1 {
        assert p[|p| - 2] in all && p[|p| - 1] in DepsOf(jobs)[p[|p| - 2]];
      }
    }
  }

  /** Before anything runs the counters are the in-degrees, so the scheduler's
      invariants hold. */
  lemma GraphStartsSound(w: World, run: RunFunction, h: Heights, s: State, all: seq<Key>, roots: seq<Key>)
    requires WorldOk(w) && Acyclic(w, h) && Grounded(w, s.jobs, s.remaining, all, roots) && Unstarted(s)
    ensures Sound(Plan(w, run, h, all, DepsOf(s.jobs)), s)
  {
    hide Needed, Rooted, DepKeys;
    GraphIsListed(w, h, s.jobs, s.remaining, all);
    GraphIsWanted(w, s.jobs, s.remaining, all, roots);
    StocksAreFull(s.remaining, all);
  }

  /** A package with jobs has some waiting. */
  lemma StocksAreFull(remaining: map<nat, int>, all: seq<Key>)
    requires CountsJobs(remaining, all)
    ensures Stocked(remaining, {}, all, {})
  {
  }
}
