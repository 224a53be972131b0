/** Fact tables, and how facts travel along import edges. */
module Facts {
  import opened Options

  datatype Kind = Method | Function(exported: bool) | Field | Variable | TypeName | Constant | OtherKind

  /** An object and the package that declares it. */
  datatype Object = Object(id: nat, kind: Kind, owner: nat)

  datatype ObjectKey = ObjectKey(obj: Object, typ: nat)
  datatype PackageKey = PackageKey(pkg: nat, typ: nat)

  datatype Table = Table(objects: map<ObjectKey, int>, packages: map<PackageKey, int>)

  const EMPTY_TABLE := Table(map[], map[])

  /** Whether an object's fact follows an import of package dep. */
  predicate Visible(obj: Object, dep: nat) {
    match obj.kind
    case Method => true
    case Function(exported) => exported && obj.owner == dep
    case Field => true
    case Variable => obj.owner == dep
    case TypeName => true
    case Constant => true
    case OtherKind => false
  }

  /** A fact on an object may be recorded only by the package that owns it. */
  datatype Export = Recorded(table: Table) | Panics

  function ExportObject(t: Table, current: nat, obj: Object, typ: nat, fact: int): Export {
    if obj.owner != current then Panics
    else Recorded(t.(objects := t.objects[ObjectKey(obj, typ) := fact]))
  }

  function ExportPackage(t: Table, current: nat, typ: nat, fact: int): Table {
    t.(packages := t.packages[PackageKey(current, typ) := fact])
  }

  predicate OwnFactsOnly(t: Table, current: nat) {
    && (forall k | k in t.objects :: k.obj.owner == current)
    && (forall k | k in t.packages :: k.pkg == current)
  }

  lemma ExportsStayOwn(t: Table, current: nat, obj: Object, typ: nat, fact: int)
    requires OwnFactsOnly(t, current)
    ensures ExportObject(t, current, obj, typ, fact).Panics? <==> obj.owner != current
    ensures ExportObject(t, current, obj, typ, fact).Recorded? ==>
      OwnFactsOnly(ExportObject(t, current, obj, typ, fact).table, current)
    ensures OwnFactsOnly(ExportPackage(t, current, typ, fact), current)
  {
  }

  /** What t becomes once dep's visible facts are copied over it. */
  function Inherit(t: Table, dep: Table, depPkg: nat): Table {
    Table(t.objects + (map k | k in dep.objects && Visible(k.obj, depPkg) :: dep.objects[k]),
          t.packages + dep.packages)
  }

  /** The copy as it runs, over the table's entries in no particular order. */
  method InheritFrom(t: Table, dep: Table, depPkg: nat) returns (r: Table)
    ensures r == Inherit(t, dep, depPkg)
  {
    var objects := InheritObjects(t.objects, dep.objects, depPkg);
    var packages := InheritPackages(t.packages, dep.packages);
    r := Table(objects, packages);
  }

  method InheritObjects(own: map<ObjectKey, int>, dep: map<ObjectKey, int>, depPkg: nat)
    returns (r: map<ObjectKey, int>)
    ensures r == own + (map k | k in dep && Visible(k.obj, depPkg) :: dep[k])
  {
    r := own;
    var left := dep.Keys;
    while left != {}
      invariant left <= dep.Keys
      invariant forall k :: k in r <==> k in own || (k in dep && k !in left && Visible(k.obj, depPkg))
      invariant forall k | k in r :: r[k] == if k in dep && k !in left && Visible(k.obj, depPkg) then dep[k] else own[k]
      decreases left
    {
      var k :| k in left;
      left := left - {k};
      if Visible(k.obj, depPkg) {
        r := r[k := dep[k]];
      }
    }
  }

  method InheritPackages(own: map<PackageKey, int>, dep: map<PackageKey, int>) returns (r: map<PackageKey, int>)
    ensures r == own + dep
  {
    r := own;
    var left := dep.Keys;
    while left != {}
      invariant left <= dep.Keys
      invariant forall k :: k in r <==> k in own || (k in dep && k !in left)
      invariant forall k | k in r :: r[k] == if k in dep && k !in left then dep[k] else own[k]
      decreases left
    {
      var k :| k in left;
      left := left - {k};
      r := r[k := dep[k]];
    }
  }

  // ----- facts over the import graph -----

  /** Jobs numbered so that imports come first; each job's analyzer and
      package, its same-analyzer imports in merge order, and what its Run
      exports. */
  datatype Net = Net(analyzer: seq<nat>, pkg: seq<nat>, imports: seq<seq<nat>>, exports: seq<Table>)

  predicate NetOk(net: Net) {
    && |net.analyzer| == |net.pkg| == |net.imports| == |net.exports|
    && (forall n, i | 0 <= n < |net.imports| && 0 <= i < |net.imports[n]| ::
          net.imports[n][i] < n && net.analyzer[net.imports[n][i]] == net.analyzer[n])
    && (forall n | 0 <= n < |net.exports| :: OwnFactsOnly(net.exports[n], net.pkg[n]))
  }

  predicate OnePackageEach(net: Net)
    requires NetOk(net)
  {
    forall m, n | 0 <= m < n < |net.pkg| :: net.pkg[m] != net.pkg[n] || net.analyzer[m] != net.analyzer[n]
  }

  /** The table of job n before its Run: the first i imports merged in turn. */
  function InheritedUpTo(net: Net, n: nat, i: nat): Table
    requires NetOk(net) && n < |net.imports| && i <= |net.imports[n]|
    decreases n, i
  {
    if i == 0 then EMPTY_TABLE
    else Inherit(InheritedUpTo(net, n, i - 1), Full(net, net.imports[n][i - 1]), net.pkg[net.imports[n][i - 1]])
  }

  function Inherited(net: Net, n: nat): Table
    requires NetOk(net) && n < |net.imports|
    decreases n, |net.imports[n]| + 1
  {
    InheritedUpTo(net, n, |net.imports[n]|)
  }

  /** The table of job n after its Run. */
  function Full(net: Net, n: nat): Table
    requires NetOk(net) && n < |net.imports|
    decreases n, |net.imports[n]| + 2
  {
    Table(Inherited(net, n).objects + net.exports[n].objects, Inherited(net, n).packages + net.exports[n].packages)
  }

  /** An import path from job n: each next job is imported by the one before. */
  predicate ImportPath(net: Net, n: nat, p: seq<nat>) {
    && |p| > 1 && p[0] == n
    && (forall i | 0 <= i < |p| :: p[i] < |net.imports|)
    && (forall i | 0 <= i < |p| - 1 :: p[i + 1] in net.imports[p[i]])
  }

  lemma PathGoesOn(net: Net, n: nat, d: nat, q: seq<nat>)
    requires n < |net.imports| && d in net.imports[n] && ImportPath(net, d, q)
    ensures ImportPath(net, n, [n] + q)
    ensures forall i | 1 <= i < |[n] + q| :: ([n] + q)[i] == q[i - 1]
  {
    assert forall i | 1 <= i < |[n] + q| :: ([n] + q)[i] == q[i - 1];
  }

  /** The path carries k from its far end, visible at every hop. */
  predicate Carries(net: Net, n: nat, p: seq<nat>, k: ObjectKey)
    requires NetOk(net)
  {
    && ImportPath(net, n, p)
    && k in net.exports[p[|p| - 1]].objects
    && (forall i | 1 <= i < |p| :: Visible(k.obj, net.pkg[p[i]]))
  }

  lemma {:induction false} InheritedFrom(net: Net, n: nat, i: nat, k: ObjectKey) returns (j: nat)
    requires NetOk(net) && n < |net.imports| && i <= |net.imports[n]|
    requires k in InheritedUpTo(net, n, i).objects
    ensures j < i && k in Full(net, net.imports[n][j]).objects && Visible(k.obj, net.pkg[net.imports[n][j]])
    ensures InheritedUpTo(net, n, i).objects[k] == Full(net, net.imports[n][j]).objects[k]
  {
    var d := net.imports[n][i - 1];
    if k in Full(net, d).objects && Visible(k.obj, net.pkg[d]) {
      j := i - 1;
    } else {
      j := InheritedFrom(net, n, i - 1, k);
    }
  }

  lemma {:induction false} InheritedKeeps(net: Net, n: nat, j: nat, i: nat, k: ObjectKey)
    requires NetOk(net) && n < |net.imports| && j < i <= |net.imports[n]|
    requires k in Full(net, net.imports[n][j]).objects && Visible(k.obj, net.pkg[net.imports[n][j]])
    ensures k in InheritedUpTo(net, n, i).objects
  {
    if j < i - 1 {
      InheritedKeeps(net, n, j, i - 1, k);
    }
  }

  lemma {:induction false} HeldIsCarried(net: Net, n: nat, k: ObjectKey) returns (p: seq<nat>)
    requires NetOk(net) && n < |net.imports| && k in Inherited(net, n).objects
    ensures Carries(net, n, p, k)
    decreases n
  {
    var j := InheritedFrom(net, n, |net.imports[n]|, k);
    var d := net.imports[n][j];
    if k in net.exports[d].objects {
      p := [n, d];
    } else {
      var q := HeldIsCarried(net, d, k);
      p := [n] + q;
      PathGoesOn(net, n, d, q);
    }
  }

  lemma {:induction false} CarriedIsHeld(net: Net, n: nat, p: seq<nat>, k: ObjectKey)
    requires NetOk(net) && n < |net.imports| && Carries(net, n, p, k)
    ensures k in Inherited(net, n).objects
    decreases n
  {
    var d := p[1];
    assert p[1] in net.imports[p[0]];
    var j :| 0 <= j < |net.imports[n]| && net.imports[n][j] == d;
    if |p| > 2 {
      CarriedIsHeld(net, d, p[1..], k);
    }
    InheritedKeeps(net, n, j, |net.imports[n]|, k);
  }

  /** Before its Run, a job's table holds a key exactly when some import path
      carries it hop by hop through the visibility rule. */
  lemma HeldIffCarried(net: Net, n: nat, k: ObjectKey)
    requires NetOk(net) && n < |net.imports|
    ensures k in Inherited(net, n).objects <==> exists p :: Carries(net, n, p, k)
  {
    if k in Inherited(net, n).objects {
      var p := HeldIsCarried(net, n, k);
    }
    if p :| Carries(net, n, p, k) {
      CarriedIsHeld(net, n, p, k);
    }
  }

  /** The value a table holds is the one its owner exported, so the order in
      which imports are merged cannot matter. */
  lemma {:induction false} HeldValue(net: Net, n: nat, k: ObjectKey, owner: nat)
    requires NetOk(net) && OnePackageEach(net) && n < |net.imports| && owner < |net.imports|
    requires net.pkg[owner] == k.obj.owner && net.analyzer[owner] == net.analyzer[n]
    requires k in Full(net, n).objects
    ensures k in net.exports[owner].objects && Full(net, n).objects[k] == net.exports[owner].objects[k]
    decreases n
  {
    if k in net.exports[n].objects {
      assert n == owner;
    } else {
      var j := InheritedFrom(net, n, |net.imports[n]|, k);
      HeldValue(net, net.imports[n][j], k, owner);
    }
  }

  ghost predicate SameImports(a: Net, b: Net) {
    && a.analyzer == b.analyzer && a.pkg == b.pkg && a.exports == b.exports && |a.imports| == |b.imports|
    && (forall n, x | 0 <= n < |a.imports| :: x in a.imports[n] <==> x in b.imports[n])
  }

  lemma CarriesEither(a: Net, b: Net, n: nat, p: seq<nat>, k: ObjectKey)
    requires NetOk(a) && NetOk(b) && SameImports(a, b)
    ensures Carries(a, n, p, k) <==> Carries(b, n, p, k)
  {
  }

  lemma {:induction false} ExporterOf(net: Net, n: nat, k: ObjectKey) returns (owner: nat)
    requires NetOk(net) && n < |net.imports| && k in Inherited(net, n).objects
    ensures owner < |net.imports| && net.pkg[owner] == k.obj.owner && net.analyzer[owner] == net.analyzer[n]
  {
    HeldIffCarried(net, n, k);
    var p :| Carries(net, n, p, k);
    owner := p[|p| - 1];
    PathKeepsAnalyzer(net, n, p);
  }

  lemma {:induction false} PathKeepsAnalyzer(net: Net, n: nat, p: seq<nat>)
    requires NetOk(net) && ImportPath(net, n, p)
    ensures net.analyzer[p[|p| - 1]] == net.analyzer[n]
  {
    assert p[1] in net.imports[p[0]];
    if |p| > 2 {
      PathKeepsAnalyzer(net, p[1], p[1..]);
    }
  }

  lemma ObjectsMergeAlike(a: Net, b: Net, n: nat)
    requires NetOk(a) && NetOk(b) && SameImports(a, b) && OnePackageEach(a) && n < |a.imports|
    ensures Inherited(a, n).objects == Inherited(b, n).objects
  {
    forall k: ObjectKey
      ensures k in Inherited(a, n).objects <==> k in Inherited(b, n).objects
      ensures k in Inherited(a, n).objects ==> Inherited(a, n).objects[k] == Inherited(b, n).objects[k]
    {
      HeldIffCarried(a, n, k);
      HeldIffCarried(b, n, k);
      forall p
        ensures Carries(a, n, p, k) <==> Carries(b, n, p, k)
      {
        CarriesEither(a, b, n, p, k);
      }
      if k in Inherited(a, n).objects {
        var owner := ExporterOf(a, n, k);
        InheritedValue(a, n, k, owner);
        InheritedValue(b, n, k, owner);
      }
    }
  }

  lemma InheritedValue(net: Net, n: nat, k: ObjectKey, owner: nat)
    requires NetOk(net) && OnePackageEach(net) && n < |net.imports| && owner < |net.imports|
    requires net.pkg[owner] == k.obj.owner && net.analyzer[owner] == net.analyzer[n] && k in Inherited(net, n).objects
    ensures k in net.exports[owner].objects && Inherited(net, n).objects[k] == net.exports[owner].objects[k]
  {
    var j := InheritedFrom(net, n, |net.imports[n]|, k);
    HeldValue(net, net.imports[n][j], k, owner);
  }

  predicate Transitive(kind: Kind) {
    kind.Method? || kind.Field? || kind.TypeName? || kind.Constant?
  }

  /** Facts on methods, fields, type names and constants are closed over the
      whole import graph. */
  lemma TransitiveKinds(net: Net, n: nat, k: ObjectKey)
    requires NetOk(net) && n < |net.imports| && Transitive(k.obj.kind)
    ensures k in Inherited(net, n).objects <==>
      exists p :: ImportPath(net, n, p) && k in net.exports[p[|p| - 1]].objects
  {
    HeldIffCarried(net, n, k);
    if p :| ImportPath(net, n, p) && k in net.exports[p[|p| - 1]].objects {
      assert Carries(net, n, p, k);
    }
  }

  /** Facts on functions and variables come from direct imports alone, and for
      functions only exported ones. */
  lemma DirectKinds(net: Net, n: nat, k: ObjectKey)
    requires NetOk(net) && OnePackageEach(net) && n < |net.imports|
    requires k.obj.kind.Function? || k.obj.kind.Variable?
    ensures k in Inherited(net, n).objects <==>
      && (k.obj.kind.Function? ==> k.obj.kind.exported)
      && exists d | d in net.imports[n] :: d < |net.exports| && k in net.exports[d].objects
  {
    HeldIffCarried(net, n, k);
    if p :| Carries(net, n, p, k) {
      PathKeepsAnalyzer(net, n, p);
      assert p[1] in net.imports[p[0]];
      assert Visible(k.obj, net.pkg[p[1]]) && Visible(k.obj, net.pkg[p[|p| - 1]]);
      assert p[1] == p[|p| - 1];
      assert p[1] in net.imports[p[0]];
    }
    if d :| d in net.imports[n] && d < |net.exports| && k in net.exports[d].objects && Visible(k.obj, net.pkg[d]) {
      assert ImportPath(net, n, [n, d]);
      assert Carries(net, n, [n, d], k);
    }
  }

  /** Facts on any other kind of object stay in their own package. */
  lemma OtherKindsStay(net: Net, n: nat, k: ObjectKey)
    requires NetOk(net) && n < |net.imports| && k.obj.kind.OtherKind?
    ensures k !in Inherited(net, n).objects
  {
    HeldIffCarried(net, n, k);
  }

  lemma {:induction false} PackageInheritedFrom(net: Net, n: nat, i: nat, k: PackageKey) returns (j: nat)
    requires NetOk(net) && n < |net.imports| && i <= |net.imports[n]|
    requires k in InheritedUpTo(net, n, i).packages
    ensures j < i && k in Full(net, net.imports[n][j]).packages
    ensures InheritedUpTo(net, n, i).packages[k] == Full(net, net.imports[n][j]).packages[k]
  {
    if k in Full(net, net.imports[n][i - 1]).packages {
      j := i - 1;
    } else {
      j := PackageInheritedFrom(net, n, i - 1, k);
    }
  }

  lemma {:induction false} PackageInheritedKeeps(net: Net, n: nat, j: nat, i: nat, k: PackageKey)
    requires NetOk(net) && n < |net.imports| && j < i <= |net.imports[n]|
    requires k in Full(net, net.imports[n][j]).packages
    ensures k in InheritedUpTo(net, n, i).packages
  {
    if j < i - 1 {
      PackageInheritedKeeps(net, n, j, i - 1, k);
    }
  }

  lemma {:induction false} PackageFactFrom(net: Net, n: nat, k: PackageKey) returns (p: seq<nat>)
    requires NetOk(net) && n < |net.imports| && k in Inherited(net, n).packages
    ensures ImportPath(net, n, p) && k in net.exports[p[|p| - 1]].packages
    decreases n
  {
    var j := PackageInheritedFrom(net, n, |net.imports[n]|, k);
    var d := net.imports[n][j];
    if k in net.exports[d].packages {
      p := [n, d];
    } else {
      var q := PackageFactFrom(net, d, k);
      p := [n] + q;
      PathGoesOn(net, n, d, q);
    }
  }

  lemma {:induction false} PackageFactArrives(net: Net, n: nat, p: seq<nat>, k: PackageKey)
    requires NetOk(net) && n < |net.imports| && ImportPath(net, n, p) && k in net.exports[p[|p| - 1]].packages
    ensures k in Inherited(net, n).packages
    decreases n
  {
    var d := p[1];
    assert p[1] in net.imports[p[0]];
    var j :| 0 <= j < |net.imports[n]| && net.imports[n][j] == d;
    if |p| > 2 {
      PackageFactArrives(net, d, p[1..], k);
    }
    PackageInheritedKeeps(net, n, j, |net.imports[n]|, k);
  }

  /** Package facts travel along every import path, visible or not. */
  lemma PackageFactsTravel(net: Net, n: nat, k: PackageKey)
    requires NetOk(net) && n < |net.imports|
    ensures k in Inherited(net, n).packages <==>
      exists p :: ImportPath(net, n, p) && k in net.exports[p[|p| - 1]].packages
  {
    if k in Inherited(net, n).packages {
      var p := PackageFactFrom(net, n, k);
    }
    if p :| ImportPath(net, n, p) && k in net.exports[p[|p| - 1]].packages {
      PackageFactArrives(net, n, p, k);
    }
  }

  /** A held package fact too is the one its own package exported. */
  lemma {:induction false} PackageHeldValue(net: Net, n: nat, k: PackageKey, owner: nat)
    requires NetOk(net) && OnePackageEach(net) && n < |net.imports| && owner < |net.imports|
    requires net.pkg[owner] == k.pkg && net.analyzer[owner] == net.analyzer[n]
    requires k in Full(net, n).packages
    ensures k in net.exports[owner].packages && Full(net, n).packages[k] == net.exports[owner].packages[k]
    decreases n
  {
    if k in net.exports[n].packages {
      assert n == owner;
    } else {
      var j := PackageInheritedFrom(net, n, |net.imports[n]|, k);
      PackageHeldValue(net, net.imports[n][j], k, owner);
    }
  }

  lemma PackageInheritedValue(net: Net, n: nat, k: PackageKey, owner: nat)
    requires NetOk(net) && OnePackageEach(net) && n < |net.imports| && owner < |net.imports|
    requires net.pkg[owner] == k.pkg && net.analyzer[owner] == net.analyzer[n] && k in Inherited(net, n).packages
    ensures k in net.exports[owner].packages && Inherited(net, n).packages[k] == net.exports[owner].packages[k]
  {
    var j := PackageInheritedFrom(net, n, |net.imports[n]|, k);
    PackageHeldValue(net, net.imports[n][j], k, owner);
  }

  lemma PackagesMergeAlike(a: Net, b: Net, n: nat)
    requires NetOk(a) && NetOk(b) && SameImports(a, b) && OnePackageEach(a) && n < |a.imports|
    ensures Inherited(a, n).packages == Inherited(b, n).packages
  {
    forall k: PackageKey
      ensures k in Inherited(a, n).packages <==> k in Inherited(b, n).packages
      ensures k in Inherited(a, n).packages ==> Inherited(a, n).packages[k] == Inherited(b, n).packages[k]
    {
      PackageFactsTravel(a, n, k);
      PackageFactsTravel(b, n, k);
      forall p
        ensures ImportPath(a, n, p) <==> ImportPath(b, n, p)
      {
      }
      if k in Inherited(a, n).packages {
        var p := PackageFactFrom(a, n, k);
        PathKeepsAnalyzer(a, n, p);
        PackageInheritedValue(a, n, k, p[|p| - 1]);
        PackageInheritedValue(b, n, k, p[|p| - 1]);
      }
    }
  }

  /** Whatever order the imports are merged in, the inherited table is the
      same: the same keys with the same values. */
  lemma MergeOrderIrrelevant(a: Net, b: Net, n: nat)
    requires NetOk(a) && NetOk(b) && SameImports(a, b) && OnePackageEach(a) && n < |a.imports|
    ensures Inherited(a, n) == Inherited(b, n)
  {
    ObjectsMergeAlike(a, b, n);
    PackagesMergeAlike(a, b, n);
  }
}
