/** The tables that executing a job graph leaves are the ones the import graph
    calls for. */
module FactFlow {
  import opened Options
  import opened Facts
  import opened Jobs
  import opened Schedule
  import opened Execution

  /** Where in completion order the jobs are that pass facts to k, in merge order. */
  function ImportPlaces(ds: seq<Key>, k: Key, log: Log): seq<nat> {
    if ds == [] then []
    else
      var last := ds[|ds| - 1];
      ImportPlaces(ds[..|ds| - 1], k, log)
      + if last.pkg != k.pkg && last.analyzer == k.analyzer && last in log && log[last].Concluded?
        then [log[last].place] else []
  }

  function ImportsAt(g: Plan, s: State, n: nat): seq<nat>
    requires n < |s.order|
  {
    var k := s.order[n];
    if k in s.log && k in g.edges && s.log[k].Concluded? then ImportPlaces(g.edges[k], k, s.log) else []
  }

  function ExportsAt(s: State, n: nat): Table
    requires n < |s.order|
  {
    var k := s.order[n];
    if k in s.log && s.log[k].Concluded? then s.log[k].exports else EMPTY_TABLE
  }

  /** The finished jobs in completion order, joined by their fact edges. */
  function NetOf(g: Plan, s: State): Net {
    Net(seq(|s.order|, n requires 0 <= n < |s.order| => s.order[n].analyzer),
        seq(|s.order|, n requires 0 <= n < |s.order| => s.order[n].pkg),
        seq(|s.order|, n requires 0 <= n < |s.order| => ImportsAt(g, s, n)),
        seq(|s.order|, n requires 0 <= n < |s.order| => ExportsAt(s, n)))
  }

  lemma {:induction false} ImportPlacesOk(order: seq<Key>, ds: seq<Key>, k: Key, log: Log, i: nat)
    requires i < |ImportPlaces(ds, k, log)|
    requires forall d | d in ds :: d in log && log[d].place < |order| && order[log[d].place] == d
    ensures exists d :: d in ds && d in log && ImportPlaces(ds, k, log)[i] == log[d].place && d.analyzer == k.analyzer
  {
    if i < |ImportPlaces(ds[..|ds| - 1], k, log)| {
      ImportPlacesOk(order, ds[..|ds| - 1], k, log, i);
    } else {
      assert ds[|ds| - 1] in ds;
    }
  }

  lemma ExportIsOwn(g: Plan, s: State, k: Key)
    requires Founded(g.w, g.run, g.edges, s.log) && k in s.log && s.log[k].Concluded? && ExportsOwnFacts(g.run)
    ensures OwnFactsOnly(s.log[k].exports, k.pkg)
  {
    assert RecordFounded(g.w, g.run, g.edges, s.log, k);
  }

  lemma ImportsAreEarlier(g: Plan, s: State, n: nat, i: nat)
    requires Ordered(s.order, g.edges, s.log) && n < |s.order| && i < |ImportsAt(g, s, n)|
    ensures ImportsAt(g, s, n)[i] < n && s.order[ImportsAt(g, s, n)[i]].analyzer == s.order[n].analyzer
  {
    ImportPlacesOk(s.order, g.edges[s.order[n]], s.order[n], s.log, i);
  }

  /** Completion order puts imports first. */
  lemma NetIsOk(g: Plan, s: State)
    requires Ordered(s.order, g.edges, s.log) && Founded(g.w, g.run, g.edges, s.log) && ExportsOwnFacts(g.run)
    ensures NetOk(NetOf(g, s))
  {
    hide Founded, Ordered, ImportsAt;
    forall n, i | 0 <= n < |s.order| && 0 <= i < |ImportsAt(g, s, n)|
      ensures ImportsAt(g, s, n)[i] < n && s.order[ImportsAt(g, s, n)[i]].analyzer == s.order[n].analyzer
    {
      ImportsAreEarlier(g, s, n, i);
    }
    forall n | 0 <= n < |s.order|
      ensures OwnFactsOnly(ExportsAt(s, n), s.order[n].pkg)
    {
      if s.order[n] in s.log && s.log[s.order[n]].Concluded? {
        ExportIsOwn(g, s, s.order[n]);
      }
    }
  }

  /** The edges of a job that concluded, up to the i-th. */
  lemma {:induction false} PlacesGrow(ds: seq<Key>, k: Key, log: Log, i: nat)
    requires i <= |ds|
    ensures ImportPlaces(ds[..i], k, log) <= ImportPlaces(ds, k, log)
    decreases |ds|
  {
    if i < |ds| {
      assert ds[..|ds| - 1][..i] == ds[..i];
      PlacesGrow(ds[..|ds| - 1], k, log, i);
    } else {
      assert ds[..i] == ds;
    }
  }

  /** The logged jobs, ordered, each coming out as its dependencies call for. */
  ghost predicate Logged(g: Plan, s: State) {
    Ordered(s.order, g.edges, s.log) && Founded(g.w, g.run, g.edges, s.log)
    && ExportsOwnFacts(g.run) && NetOk(NetOf(g, s))
  }

  lemma AtPlace(g: Plan, s: State, n: nat)
    requires Logged(g, s) && n < |s.order| && s.order[n] in s.log && s.log[s.order[n]].Concluded?
    ensures var k := s.order[n];
      && k in g.edges && n < |NetOf(g, s).imports| && n < |NetOf(g, s).exports|
      && NetOf(g, s).imports[n] == ImportPlaces(g.edges[k], k, s.log) && NetOf(g, s).exports[n] == s.log[k].exports
      && s.log[k].facts == Merge(InheritFold(g.edges[k], k, s.log), s.log[k].exports)
  {
    assert RecordFounded(g.w, g.run, g.edges, s.log, s.order[n]);
    MergeNothing(InheritFold(g.edges[s.order[n]], s.order[n], s.log));
  }

  lemma MergeNothing(t: Table)
    ensures Merge(t, EMPTY_TABLE) == t
  {
    assert t.objects + map[] == t.objects && t.packages + map[] == t.packages;
  }

  lemma DependencyPlace(g: Plan, s: State, n: nat, d: Key)
    requires Logged(g, s) && n < |s.order| && s.order[n] in s.log && s.order[n] in g.edges && d in g.edges[s.order[n]]
    ensures d in s.log && d in g.edges && s.log[d].place < n && s.order[s.log[d].place] == d
    ensures NetOf(g, s).pkg[s.log[d].place] == d.pkg
  {
  }

  /** A job's record holds the full table of its place in the net. */
  lemma {:induction false} TablesAgree(g: Plan, s: State, n: nat)
    requires Logged(g, s) && n < |s.order| && s.order[n] in s.log && s.order[n] in g.edges
    requires s.log[s.order[n]].Concluded?
    ensures Inherited(NetOf(g, s), n) == InheritFold(g.edges[s.order[n]], s.order[n], s.log)
    ensures Full(NetOf(g, s), n) == s.log[s.order[n]].facts
    decreases n, |g.edges[s.order[n]]| + 1
  {
    hide Ordered, Founded, NetOf, InheritedUpTo;
    var k := s.order[n];
    FoldsAgree(g, s, n, |g.edges[k]|);
    AtPlace(g, s, n);
    assert g.edges[k][..|g.edges[k]|] == g.edges[k];
  }

  lemma {:induction false} FoldsAgree(g: Plan, s: State, n: nat, i: nat)
    requires Logged(g, s) && n < |s.order| && s.order[n] in s.log && s.order[n] in g.edges
    requires s.log[s.order[n]].Concluded?
    requires i <= |g.edges[s.order[n]]|
    ensures var k := s.order[n];
      var places := ImportPlaces(g.edges[k][..i], k, s.log);
      |places| <= |NetOf(g, s).imports[n]|
      && InheritedUpTo(NetOf(g, s), n, |places|) == InheritFold(g.edges[k][..i], k, s.log)
    decreases n, i
  {
    hide Ordered, Founded, NetOf, NetOk;
    var k := s.order[n];
    var ds := g.edges[k];
    AtPlace(g, s, n);
    PlacesGrow(ds, k, s.log, i);
    if i > 0 {
      FoldsAgree(g, s, n, i - 1);
      assert ds[..i][..i - 1] == ds[..i - 1] && ds[..i][i - 1] == ds[i - 1] && ds[i - 1] in ds;
      var d := ds[i - 1];
      DependencyPlace(g, s, n, d);
      if d.pkg != k.pkg && d.analyzer == k.analyzer && s.log[d].Concluded? {
        TablesAgree(g, s, s.log[d].place);
      }
    }
  }

  lemma SoundIsLogged(g: Plan, s: State)
    requires Sound(g, s) && ExportsOwnFacts(g.run)
    ensures Logged(g, s)
  {
    hide Ordered, Founded, Counted, Tied, Stocked, Listed, NetOf;
    NetIsOk(g, s);
  }

  /** Before its Run a job's table holds a key exactly when some chain of
      finished jobs carries it, hop by hop, from the job that exported it. */
  lemma HeldBeforeRun(g: Plan, s: State, k: Key, f: ObjectKey)
    requires Sound(g, s) && ExportsOwnFacts(g.run) && k in s.log && k in g.edges && s.log[k].Concluded?
    ensures NetOk(NetOf(g, s))
    ensures f in InheritFold(g.edges[k], k, s.log).objects <==> exists p :: Carries(NetOf(g, s), s.log[k].place, p, f)
  {
    hide Founded, Counted, Tied, Stocked, Listed, NetOf;
    SoundIsLogged(g, s);
    AtPlace(g, s, s.log[k].place);
    TablesAgree(g, s, s.log[k].place);
    HeldIffCarried(NetOf(g, s), s.log[k].place, f);
  }

  /** Each (analyzer, package) is one job, so no two places share both. */
  lemma NetIsDistinct(g: Plan, s: State)
    requires Logged(g, s)
    ensures OnePackageEach(NetOf(g, s))
  {
    hide Founded;
    OrderIsDistinct(s.order, g.edges, s.log);
    assert forall m, n | 0 <= m < n < |s.order| :: s.order[m] != s.order[n];
  }
}
