/** The analysis scheduler's jobs and packages, and the counts its reference
    counters stand for. A job is known by its analyzer and package, which is
    how the graph memoises it. */
module Jobs {
  import opened Options
  import opened Facts

  datatype Analyzer = Analyzer(needs: seq<nat>, usesFacts: bool, runDespiteErrors: bool, resultType: Option<nat>)

  /** A loaded package; its imports come in ascending path order. */
  datatype Package = Package(hasSyntax: bool, imports: seq<nat>, illTyped: bool)

  datatype World = World(analyzers: seq<Analyzer>, packages: seq<Package>)

  datatype Key = Key(analyzer: nat, pkg: nat)

  predicate KeyOk(w: World, k: Key) {
    k.analyzer < |w.analyzers| && k.pkg < |w.packages|
  }

  predicate WorldOk(w: World) {
    && (forall a, i | 0 <= a < |w.analyzers| && 0 <= i < |w.analyzers[a].needs| ::
          w.analyzers[a].needs[i] < |w.analyzers|)
    && (forall p, i | 0 <= p < |w.packages| && 0 <= i < |w.packages[p].imports| ::
          w.packages[p].imports[i] < |w.packages|)
  }

  datatype Failure = DependencyFailed(failed: seq<Key>) | IllTyped | RunFailed | WrongResultType

  datatype Job = Job(root: bool, err: Option<Failure>, deps: seq<Key>, consumers: int,
                     result: Option<int>, facts: Table, completed: bool)

  const FRESH_JOB := Job(false, None, [], 0, None, EMPTY_TABLE, false)

  type EdgeMap = map<Key, seq<Key>>

  // ----- the dependencies of a key -----

  /** The first i analyzers a key's analyzer needs, on the same package. */
  function NeedKeys(w: World, k: Key, i: nat): (ks: seq<Key>)
    requires WorldOk(w) && KeyOk(w, k) && i <= |w.analyzers[k.analyzer].needs|
    ensures forall d | d in ks :: KeyOk(w, d)
  {
    if i == 0 then [] else NeedKeys(w, k, i - 1) + [Key(w.analyzers[k.analyzer].needs[i - 1], k.pkg)]
  }

  /** The same analyzer on the first i imports, those without syntax skipped. */
  function ImportKeys(w: World, k: Key, i: nat): (ks: seq<Key>)
    requires WorldOk(w) && KeyOk(w, k) && i <= |w.packages[k.pkg].imports|
    ensures forall d | d in ks :: KeyOk(w, d)
  {
    if i == 0 then []
    else
      var p := w.packages[k.pkg].imports[i - 1];
      ImportKeys(w, k, i - 1) + (if w.packages[p].hasSyntax then [Key(k.analyzer, p)] else [])
  }

  /** Everything a job waits for: needs, then imports if facts are used. */
  function DepKeys(w: World, k: Key): (ks: seq<Key>)
    requires WorldOk(w) && KeyOk(w, k)
    ensures forall d | d in ks :: KeyOk(w, d)
  {
    NeedKeys(w, k, |w.analyzers[k.analyzer].needs|)
    + if w.analyzers[k.analyzer].usesFacts then ImportKeys(w, k, |w.packages[k.pkg].imports|) else []
  }

  lemma {:induction false} NeedKeysExact(w: World, k: Key, i: nat, d: Key)
    requires WorldOk(w) && KeyOk(w, k) && i <= |w.analyzers[k.analyzer].needs|
    ensures d in NeedKeys(w, k, i) <==> d.pkg == k.pkg && d.analyzer in w.analyzers[k.analyzer].needs[..i]
  {
    if i > 0 {
      NeedKeysExact(w, k, i - 1, d);
      assert w.analyzers[k.analyzer].needs[..i]
        == w.analyzers[k.analyzer].needs[..i - 1] + [w.analyzers[k.analyzer].needs[i - 1]];
    }
  }

  lemma {:induction false} ImportKeysExact(w: World, k: Key, i: nat, d: Key)
    requires WorldOk(w) && KeyOk(w, k) && i <= |w.packages[k.pkg].imports|
    ensures d in ImportKeys(w, k, i) <==>
      d.analyzer == k.analyzer && d.pkg in w.packages[k.pkg].imports[..i] && w.packages[d.pkg].hasSyntax
  {
    if i > 0 {
      ImportKeysExact(w, k, i - 1, d);
      assert w.packages[k.pkg].imports[..i]
        == w.packages[k.pkg].imports[..i - 1] + [w.packages[k.pkg].imports[i - 1]];
    }
  }

  /** A job waits for exactly the analyzers it requires on its own package and,
      if it uses facts, for itself on every import that has syntax. */
  lemma DepKeysExact(w: World, k: Key, d: Key)
    requires WorldOk(w) && KeyOk(w, k)
    ensures d in DepKeys(w, k) <==>
      || (d.pkg == k.pkg && d.analyzer in w.analyzers[k.analyzer].needs)
      || (&& w.analyzers[k.analyzer].usesFacts && d.analyzer == k.analyzer
          && d.pkg in w.packages[k.pkg].imports && w.packages[d.pkg].hasSyntax)
  {
    var needs, imports := w.analyzers[k.analyzer].needs, w.packages[k.pkg].imports;
    NeedKeysExact(w, k, |needs|, d);
    ImportKeysExact(w, k, |imports|, d);
    assert needs[..|needs|] == needs && imports[..|imports|] == imports;
  }

  /** Witnesses that neither Requires nor imports go round in circles. */
  datatype Heights = Heights(analyzers: seq<nat>, packages: seq<nat>)

  predicate Acyclic(w: World, h: Heights)
    requires WorldOk(w)
  {
    && |h.analyzers| == |w.analyzers| && |h.packages| == |w.packages|
    && (forall a, i | 0 <= a < |w.analyzers| && 0 <= i < |w.analyzers[a].needs| ::
          h.analyzers[w.analyzers[a].needs[i]] < h.analyzers[a])
    && (forall p, i | 0 <= p < |w.packages| && 0 <= i < |w.packages[p].imports| ::
          h.packages[w.packages[p].imports[i]] < h.packages[p])
  }

  function HeightOf(h: Heights, k: Key): nat {
    (if k.analyzer < |h.analyzers| then h.analyzers[k.analyzer] else 0)
    + if k.pkg < |h.packages| then h.packages[k.pkg] else 0
  }

  lemma {:induction false} NeedsDescend(w: World, h: Heights, k: Key, i: nat, d: Key)
    requires WorldOk(w) && Acyclic(w, h) && KeyOk(w, k) && i <= |w.analyzers[k.analyzer].needs|
    requires d in NeedKeys(w, k, i)
    ensures HeightOf(h, d) < HeightOf(h, k)
  {
    if d in NeedKeys(w, k, i - 1) {
      NeedsDescend(w, h, k, i - 1, d);
    }
  }

  lemma {:induction false} ImportsDescend(w: World, h: Heights, k: Key, i: nat, d: Key)
    requires WorldOk(w) && Acyclic(w, h) && KeyOk(w, k) && i <= |w.packages[k.pkg].imports|
    requires d in ImportKeys(w, k, i)
    ensures HeightOf(h, d) < HeightOf(h, k)
  {
    if d in ImportKeys(w, k, i - 1) {
      ImportsDescend(w, h, k, i - 1, d);
    }
  }

  /** With acyclic Requires and imports the job graph is acyclic too. */
  lemma DependenciesDescend(w: World, h: Heights, k: Key, d: Key)
    requires WorldOk(w) && Acyclic(w, h) && KeyOk(w, k) && d in DepKeys(w, k)
    ensures HeightOf(h, d) < HeightOf(h, k)
  {
    if d in NeedKeys(w, k, |w.analyzers[k.analyzer].needs|) {
      NeedsDescend(w, h, k, |w.analyzers[k.analyzer].needs|, d);
    } else {
      ImportsDescend(w, h, k, |w.packages[k.pkg].imports|, d);
    }
  }

  // ----- counting -----

  predicate NoDup<T(==)>(s: seq<T>) {
    forall i, j | 0 <= i < j < |s| :: s[i] != s[j]
  }

  predicate EdgesKnown(all: seq<Key>, edges: EdgeMap) {
    forall k | k in all :: k in edges
  }

  /** How often d occurs in a list of dependencies. */
  function Uses(ds: seq<Key>, d: Key): nat {
    if ds == [] then 0
    else Uses(ds[..|ds| - 1], d) + if ds[|ds| - 1] == d then 1 else 0
  }

  lemma UsesStep(ds: seq<Key>, i: nat, d: Key)
    requires i < |ds|
    ensures Uses(ds[..i + 1], d) == Uses(ds[..i], d) + if ds[i] == d then 1 else 0
  {
    assert ds[..i + 1][..i] == ds[..i];
  }

  lemma {:induction false} UsedIff(ds: seq<Key>, d: Key)
    ensures Uses(ds, d) > 0 <==> d in ds
  {
    if ds != [] {
      UsedIff(ds[..|ds| - 1], d);
      assert ds == ds[..|ds| - 1] + [ds[|ds| - 1]];
    }
  }

  /** The edges into d from jobs that have not been released. */
  function OpenEdges(all: seq<Key>, edges: EdgeMap, released: set<Key>, d: Key): nat
    requires EdgesKnown(all, edges)
  {
    if all == [] then 0
    else (if all[0] in released then 0 else Uses(edges[all[0]], d)) + OpenEdges(all[1..], edges, released, d)
  }

  /** The jobs of package p that have not been released. */
  function Waiting(all: seq<Key>, released: set<Key>, p: nat): nat {
    if all == [] then 0
    else (if all[0] in released || all[0].pkg != p then 0 else 1) + Waiting(all[1..], released, p)
  }

  lemma {:induction false} ReleaseClosesEdges(all: seq<Key>, edges: EdgeMap, released: set<Key>, k: Key, d: Key)
    requires EdgesKnown(all, edges) && NoDup(all) && k !in released && k in edges
    ensures OpenEdges(all, edges, released, d) ==
      OpenEdges(all, edges, released + {k}, d) + (if k in all then Uses(edges[k], d) else 0)
  {
    if all != [] {
      ReleaseClosesEdges(all[1..], edges, released, k, d);
    }
  }

  lemma {:induction false} ReleaseLeavesPackage(all: seq<Key>, released: set<Key>, k: Key, p: nat)
    requires NoDup(all) && k !in released
    ensures Waiting(all, released, p) == Waiting(all, released + {k}, p) + (if k in all && k.pkg == p then 1 else 0)
  {
    if all != [] {
      ReleaseLeavesPackage(all[1..], released, k, p);
    }
  }

  /** A job that has not been released keeps its dependencies' counters above
      zero, and its package's counter too. */
  lemma {:induction false} UnreleasedCounts(all: seq<Key>, edges: EdgeMap, released: set<Key>, k: Key, d: Key)
    requires EdgesKnown(all, edges) && k in all && k !in released && d in edges[k]
    ensures OpenEdges(all, edges, released, d) > 0
  {
    UsedIff(edges[k], d);
    if all[0] != k {
      UnreleasedCounts(all[1..], edges, released, k, d);
    }
  }

  lemma {:induction false} UnreleasedWaits(all: seq<Key>, released: set<Key>, k: Key)
    requires k in all && k !in released
    ensures Waiting(all, released, k.pkg) > 0
  {
    if all[0] != k {
      UnreleasedWaits(all[1..], released, k);
    }
  }

  /** A counter above zero has an unreleased job behind it. */
  lemma {:induction false} OpenEdgeBehind(all: seq<Key>, edges: EdgeMap, released: set<Key>, d: Key)
    requires EdgesKnown(all, edges) && OpenEdges(all, edges, released, d) > 0
    ensures exists k | k in all :: k !in released && d in edges[k]
  {
    UsedIff(edges[all[0]], d);
    if all[0] in released || d !in edges[all[0]] {
      OpenEdgeBehind(all[1..], edges, released, d);
    }
  }

  lemma {:induction false} WaitingBehind(all: seq<Key>, released: set<Key>, p: nat)
    requires Waiting(all, released, p) > 0
    ensures exists k | k in all :: k !in released && k.pkg == p
  {
    if all[0] in released || all[0].pkg != p {
      WaitingBehind(all[1..], released, p);
    }
  }

  lemma {:induction false} AppendEdge(all: seq<Key>, edges: EdgeMap, k: Key, dep: Key, d: Key)
    requires EdgesKnown(all, edges) && NoDup(all) && k in edges
    ensures OpenEdges(all, edges[k := edges[k] + [dep]], {}, d) ==
      OpenEdges(all, edges, {}, d) + (if k in all && d == dep then 1 else 0)
  {
    UsesStep(edges[k] + [dep], |edges[k]|, d);
    assert (edges[k] + [dep])[..|edges[k]|] == edges[k] && (edges[k] + [dep])[..|edges[k]| + 1] == edges[k] + [dep];
    if all != [] {
      AppendEdge(all[1..], edges, k, dep, d);
    }
  }

  lemma {:induction false} AppendJob(all: seq<Key>, edges: EdgeMap, k: Key, d: Key, p: nat)
    requires EdgesKnown(all, edges) && k !in all
    ensures OpenEdges(all + [k], edges[k := []], {}, d) == OpenEdges(all, edges, {}, d)
    ensures Waiting(all + [k], {}, p) == Waiting(all, {}, p) + (if k.pkg == p then 1 else 0)
  {
    if all == [] {
      assert all + [k] == [k];
    } else {
      assert (all + [k])[1..] == all[1..] + [k];
      AppendJob(all[1..], edges, k, d, p);
    }
  }

  lemma {:induction false} NoEdgesIn(all: seq<Key>, edges: EdgeMap, released: set<Key>, d: Key)
    requires EdgesKnown(all, edges) && forall k | k in all :: d !in edges[k]
    ensures OpenEdges(all, edges, released, d) == 0
  {
    if all != [] {
      UsedIff(edges[all[0]], d);
      NoEdgesIn(all[1..], edges, released, d);
    }
  }

  lemma {:induction false} NoneWaiting(all: seq<Key>, released: set<Key>, p: nat)
    requires forall k | k in all :: k.pkg != p
    ensures Waiting(all, released, p) == 0
  {
    if all != [] {
      NoneWaiting(all[1..], released, p);
    }
  }
}
