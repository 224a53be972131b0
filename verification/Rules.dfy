/** The implication-rule engine: contrapositives, chain closure, contradictions. */
module Rules {
  import opened Options
  import opened Dsl

  // ----- comparing operands -----

  function MembersEqual(a: seq<Member>, b: seq<Member>): bool {
    |a| == |b| && forall i | 0 <= i < |a| :: a[i].isNil == b[i].isNil && a[i].literal == b[i].literal
  }

  function StepsEqual(a: seq<Step>, b: seq<Step>): bool {
    |a| == |b| && forall i | 0 <= i < |a| ::
      a[i].kind == b[i].kind && a[i].name == b[i].name && a[i].index == b[i].index
  }

  function ReferencesEqual(a: Reference, b: Reference): bool {
    a.kind == b.kind && a.name == b.name && StepsEqual(a.path, b.path)
  }

  function ExpressionsEqual(a: Option<Expression>, b: Option<Expression>): bool {
    && a.Some? && b.Some?
    && a.value.kind == b.value.kind && a.value.op == b.value.op
    && MembersEqual(a.value.members, b.value.members) && ReferencesEqual(a.value.ref, b.value.ref)
  }

  /** The structural comparison decides equality of present operands, so links
      and contradictions are about the same claim, not a similar one. */
  lemma ExpressionsEqualIff(a: Option<Expression>, b: Option<Expression>)
    ensures ExpressionsEqual(a, b) <==> a.Some? && a == b
  {
    if ExpressionsEqual(a, b) {
      var x, y := a.value, b.value;
      forall i | 0 <= i < |x.members| ensures x.members[i] == y.members[i] {}
      forall i | 0 <= i < |x.ref.path| ensures x.ref.path[i] == y.ref.path[i] {}
      assert x.members == y.members && x.ref.path == y.ref.path;
    }
  }

  // ----- negation -----

  function FlipNilCheckOp(op: Op): Option<Op> {
    match op
    case Eq => Some(Neq)
    case Neq => Some(Eq)
    case _ => None
  }

  function FlipComparisonOp(op: Op): Op {
    match op
    case Eq => Neq
    case Neq => Eq
    case Lt => Gte
    case Lte => Gt
    case Gt => Lte
    case Gte => Lt
  }

  function Negate(e: Expression): Option<Expression> {
    match e.kind
    case NilCheck =>
      var op := FlipNilCheckOp(e.op);
      if op.None? then None else Some(Expression(NilCheck, e.ref, op.value, []))
    case Comparison =>
      if |e.members| != 1 then None else Some(Expression(Comparison, e.ref, FlipComparisonOp(e.op), e.members))
    case BareRef => None
  }

  /** What can be negated: a nil check by `==` or `!=`, and a comparison with one
      member. The negation asks about the same reference and the same member. */
  lemma NegationExact(e: Expression)
    ensures Negate(e).Some? <==>
      || (e.kind == NilCheck && (e.op == Eq || e.op == Neq))
      || (e.kind == Comparison && |e.members| == 1)
    ensures Negate(e).Some? ==>
      && Negate(e).value.kind == e.kind && Negate(e).value.ref == e.ref && Opposed(Negate(e).value.op, e.op)
      && Negate(e).value.members == if e.kind == NilCheck then [] else e.members
  {
  }

  /** The operator that holds exactly where the other does not. */
  predicate Opposed(a: Op, b: Op) {
    || (a == Eq && b == Neq) || (a == Neq && b == Eq)
    || (a == Lt && b == Gte) || (a == Gte && b == Lt)
    || (a == Lte && b == Gt) || (a == Gt && b == Lte)
  }

  /** A negation says the opposite wherever values are totally ordered. */
  lemma NegationIsComplement(m: Meaning, rho: Valuation, e: Expression)
    requires Trichotomous(m) && Negate(e).Some?
    ensures Holds(m, rho, Negate(e).value) <==> !Holds(m, rho, e)
  {
    if e.kind == Comparison {
      assert Compares(m, e.op, rho(e.ref), Denoted(m, e.members[0])) <==>
        !Compares(m, FlipComparisonOp(e.op), rho(e.ref), Denoted(m, e.members[0]));
    }
  }

  /** And only there: flipping an ordered operator is a complement for all
      values exactly when the order is total. */
  lemma FlipNeedsTotalOrder(m: Meaning)
    ensures Trichotomous(m) <==>
      forall op: Op, v: Value, w: Value :: Compares(m, FlipComparisonOp(op), v, w) <==> !Compares(m, op, v, w)
  {
    if forall op: Op, v: Value, w: Value :: Compares(m, FlipComparisonOp(op), v, w) <==> !Compares(m, op, v, w) {
      forall v: Value, w: Value
        ensures (m.less(v, w) || v == w || m.less(w, v)) && !(m.less(v, w) && m.less(w, v))
        ensures (v == w ==> !m.less(v, w))
      {
        assert Compares(m, FlipComparisonOp(Lt), v, w) <==> !Compares(m, Lt, v, w);
      }
    }
  }

  /** A nil check reads no members; the parser never gives it any. */
  predicate Lean(e: Expression) {
    e.kind == NilCheck ==> e.members == []
  }

  /** Negating twice gives the operand back exactly when a nil check carries no
      members, which negation drops. */
  lemma NegationUndoes(e: Expression)
    requires Negate(e).Some?
    ensures Negate(Negate(e).value) == Some(e) <==> Lean(e)
  {
  }

  // ----- contrapositives -----

  function ContrapositiveOf(r: Rule): Option<Rule> {
    if r.direction != Imply || r.left.None? || r.right.None? then None
    else
      var notLeft, notRight := Negate(r.left.value), Negate(r.right.value);
      if notLeft.None? || notRight.None? then None else Some(Rule(Imply, notRight, notLeft))
  }

  predicate Negatable(e: Expression) {
    (e.kind == NilCheck && (e.op == Eq || e.op == Neq)) || (e.kind == Comparison && |e.members| == 1)
  }

  /** An implication has a contrapositive exactly when both its sides can be
      negated; it leads from the right side's reference to the left side's. */
  lemma ContrapositiveExact(r: Rule)
    ensures ContrapositiveOf(r).Some? <==>
      r.direction == Imply && r.left.Some? && r.right.Some? && Negatable(r.left.value) && Negatable(r.right.value)
    ensures ContrapositiveOf(r).Some? ==>
      var c := ContrapositiveOf(r).value;
      && c.direction == Imply && c.left.Some? && c.right.Some?
      && c.left.value.ref == r.right.value.ref && Opposed(c.left.value.op, r.right.value.op)
      && c.right.value.ref == r.left.value.ref && Opposed(c.right.value.op, r.left.value.op)
  {
    if r.left.Some? && r.right.Some? {
      NegationExact(r.left.value);
      NegationExact(r.right.value);
    }
  }

  /** A contrapositive holds in exactly the cases its rule does. */
  lemma ContrapositiveIsEquivalent(m: Meaning, rho: Valuation, r: Rule)
    requires Trichotomous(m) && ContrapositiveOf(r).Some?
    ensures RuleHolds(m, rho, ContrapositiveOf(r).value) <==> RuleHolds(m, rho, r)
  {
    NegationIsComplement(m, rho, r.left.value);
    NegationIsComplement(m, rho, r.right.value);
  }

  // ----- chains -----

  const DEPTH_LIMIT: nat := 5

  /** A rule with its identity, and the rule a contrapositive came from. */
  datatype Entry = Entry(id: nat, rule: Rule, origin: Option<nat>)

  predicate DistinctIds(pool: seq<Entry>) {
    forall i, j | 0 <= i < j < |pool| :: pool[i].id != pool[j].id
  }

  predicate Contains(chain: seq<Entry>, id: nat) {
    exists i | 0 <= i < |chain| :: chain[i].id == id
  }

  /** Whether next may follow the chain. */
  predicate MayFollow(chain: seq<Entry>, next: Entry)
    requires |chain| > 0
  {
    var current := chain[|chain| - 1];
    && next.id != current.id && next.rule.direction == Imply
    && ExpressionsEqual(current.rule.right, next.rule.left) && !Contains(chain, next.id)
  }

  /** The chains the depth-first walk emits below `chain`, from the i-th pool
      entry on. */
  function Walk(pool: seq<Entry>, chain: seq<Entry>, i: nat): (out: seq<seq<Entry>>)
    requires |chain| > 0 && i <= |pool|
    decreases DEPTH_LIMIT - |chain|, |pool| - i
  {
    if |chain| >= DEPTH_LIMIT || i == |pool| then []
    else if MayFollow(chain, pool[i]) then
      [chain + [pool[i]]] + Walk(pool, chain + [pool[i]], 0) + Walk(pool, chain, i + 1)
    else Walk(pool, chain, i + 1)
  }

  function Expand(seeds: seq<Entry>, pool: seq<Entry>): seq<seq<Entry>> {
    if seeds == [] then []
    else
      Expand(seeds[..|seeds| - 1], pool)
      + (if seeds[|seeds| - 1].rule.direction == Imply then Walk(pool, [seeds[|seeds| - 1]], 0) else [])
  }

  function DerivedRule(chain: seq<Entry>): Rule
    requires |chain| > 0
  {
    Rule(Imply, chain[0].rule.left, chain[|chain| - 1].rule.right)
  }

  // ----- exactly the chains, each once, in order -----

  /** Linked, pairwise distinct forward implications taken from the pool. */
  predicate Chain(pool: seq<Entry>, c: seq<Entry>) {
    && 1 <= |c| <= DEPTH_LIMIT
    && (forall i | 0 <= i < |c| :: c[i].rule.direction == Imply)
    && (forall i | 1 <= i < |c| :: c[i] in pool)
    && (forall i | 0 <= i < |c| - 1 :: ExpressionsEqual(c[i].rule.right, c[i + 1].rule.left))
    && DistinctIds(c)
  }

  lemma FollowMakesChain(pool: seq<Entry>, c: seq<Entry>, next: Entry)
    requires Chain(pool, c) && |c| < DEPTH_LIMIT && next in pool
    ensures MayFollow(c, next) <==> Chain(pool, c + [next])
  {
    var d := c + [next];
    if MayFollow(c, next) {
      assert forall i | 0 <= i < |d| :: if i == |c| then d[i] == next else d[i] == c[i];
    }
    if Chain(pool, d) {
      assert d[|c|] == next && d[|c| - 1] == c[|c| - 1];
      assert forall i | 0 <= i < |c| :: d[i] == c[i];
    }
  }

  lemma {:induction false} WalkEmitsChains(pool: seq<Entry>, chain: seq<Entry>, i: nat, c: seq<Entry>)
    requires Chain(pool, chain) && i <= |pool| && c in Walk(pool, chain, i)
    ensures Chain(pool, c) && |chain| < |c| && c[..|chain|] == chain
    ensures exists k | i <= k < |pool| :: c[|chain|] == pool[k]
    decreases DEPTH_LIMIT - |chain|, |pool| - i
  {
    if MayFollow(chain, pool[i]) {
      var longer := chain + [pool[i]];
      FollowMakesChain(pool, chain, pool[i]);
      if c in Walk(pool, longer, 0) {
        WalkEmitsChains(pool, longer, 0, c);
        assert c[..|longer|][..|chain|] == chain && c[..|longer|][|chain|] == pool[i];
      } else if c in Walk(pool, chain, i + 1) {
        WalkEmitsChains(pool, chain, i + 1, c);
      }
    } else {
      WalkEmitsChains(pool, chain, i + 1, c);
    }
  }

  lemma {:induction false} WalkFindsChain(pool: seq<Entry>, chain: seq<Entry>, i: nat, k: nat, c: seq<Entry>)
    requires Chain(pool, chain) && Chain(pool, c) && |chain| < |c| && c[..|chain|] == chain
    requires i <= k < |pool| && c[|chain|] == pool[k]
    ensures c in Walk(pool, chain, i)
    decreases DEPTH_LIMIT - |chain|, |pool| - i
  {
    if i < k {
      WalkFindsChain(pool, chain, i + 1, k, c);
    } else {
      var longer := chain + [pool[i]];
      PrefixIsChain(pool, c, |longer|);
      assert c[..|longer|] == longer;
      FollowMakesChain(pool, chain, pool[i]);
      if |c| > |longer| {
        assert c[|longer|] in pool;
        var j :| 0 <= j < |pool| && pool[j] == c[|longer|];
        WalkFindsChain(pool, longer, 0, j, c);
      } else {
        assert c == longer;
      }
    }
  }

  lemma PrefixIsChain(pool: seq<Entry>, c: seq<Entry>, n: nat)
    requires Chain(pool, c) && 1 <= n <= |c|
    ensures Chain(pool, c[..n])
  {
  }

  /** What the walk emits below a seed: exactly the chains of two to five
      rules that start there. */
  lemma WalkIsExact(pool: seq<Entry>, seed: Entry, c: seq<Entry>)
    requires seed.rule.direction == Imply
    ensures c in Walk(pool, [seed], 0) <==> Chain(pool, c) && |c| >= 2 && c[0] == seed
  {
    assert Chain(pool, [seed]);
    if c in Walk(pool, [seed], 0) {
      WalkEmitsChains(pool, [seed], 0, c);
      assert c[..1][0] == seed;
    }
    if Chain(pool, c) && |c| >= 2 && c[0] == seed {
      assert c[..1] == [seed] && c[1] in pool;
      var k :| 0 <= k < |pool| && pool[k] == c[1];
      WalkFindsChain(pool, [seed], 0, k, c);
    }
  }

  /** expandTransitives emits exactly the seed-headed chains. */
  lemma {:induction false} ExpandIsExact(seeds: seq<Entry>, pool: seq<Entry>, c: seq<Entry>)
    ensures c in Expand(seeds, pool) <==> Chain(pool, c) && |c| >= 2 && c[0] in seeds
  {
    if seeds != [] {
      var last := seeds[|seeds| - 1];
      ExpandIsExact(seeds[..|seeds| - 1], pool, c);
      if last.rule.direction == Imply {
        WalkIsExact(pool, last, c);
      }
      assert seeds == seeds[..|seeds| - 1] + [last];
    }
  }

  /** Depth-first order: a chain before its extensions, and siblings as the
      pool lists them. */
  ghost predicate Before(pool: seq<Entry>, a: seq<Entry>, b: seq<Entry>) {
    exists n: nat :: n <= |a| && n < |b| && a[..n] == b[..n] && (n < |a| ==> Listed(pool, a[n], b[n]))
  }

  predicate Listed(pool: seq<Entry>, a: Entry, b: Entry) {
    exists i, j | 0 <= i < j < |pool| :: pool[i] == a && pool[j] == b
  }

  lemma {:induction false} WalkInOrder(pool: seq<Entry>, chain: seq<Entry>, i: nat, x: nat, y: nat)
    requires Chain(pool, chain) && i <= |pool| && x < y < |Walk(pool, chain, i)|
    ensures Before(pool, Walk(pool, chain, i)[x], Walk(pool, chain, i)[y])
    decreases DEPTH_LIMIT - |chain|, |pool| - i
  {
    hide MayFollow;
    var out := Walk(pool, chain, i);
    if MayFollow(chain, pool[i]) {
      FollowMakesChain(pool, chain, pool[i]);
      var longer := chain + [pool[i]];
      var below, after := Walk(pool, longer, 0), Walk(pool, chain, i + 1);
      if y <= |below| {
        assert out[y] == below[y - 1];
        if x == 0 {
          WalkEmitsChains(pool, longer, 0, below[y - 1]);
          assert longer[..|longer|] == longer;
        } else {
          WalkInOrder(pool, longer, 0, x - 1, y - 1);
        }
      } else if x <= |below| {
        var b := after[y - 1 - |below|];
        WalkEmitsChains(pool, chain, i + 1, b);
        if x > 0 {
          WalkEmitsChains(pool, longer, 0, below[x - 1]);
          assert out[x][..|longer|][|chain|] == pool[i] && out[x][..|chain|] == longer[..|chain|];
        }
        assert out[x][|chain|] == pool[i] && out[x][..|chain|] == chain && b[..|chain|] == chain && out[y] == b;
      } else {
        WalkInOrder(pool, chain, i + 1, x - 1 - |below|, y - 1 - |below|);
      }
    } else {
      WalkInOrder(pool, chain, i + 1, x, y);
    }
  }

  lemma BeforeIsStrict(pool: seq<Entry>, a: seq<Entry>, b: seq<Entry>)
    requires DistinctIds(pool) && Before(pool, a, b)
    ensures a != b
  {
  }

  /** No chain is emitted twice. */
  lemma {:induction false} ExpandOnce(seeds: seq<Entry>, pool: seq<Entry>, x: nat, y: nat)
    requires DistinctIds(seeds) && DistinctIds(pool) && x < y < |Expand(seeds, pool)|
    ensures Expand(seeds, pool)[x] != Expand(seeds, pool)[y]
  {
    var before := seeds[..|seeds| - 1];
    var last := seeds[|seeds| - 1];
    var early := Expand(before, pool);
    var out := Expand(seeds, pool);
    if y < |early| {
      ExpandOnce(before, pool, x, y);
    } else {
      assert out[y] == Walk(pool, [last], 0)[y - |early|];
      WalkIsExact(pool, last, out[y]);
      if x < |early| {
        ExpandIsExact(before, pool, out[x]);
        assert out[x] in early;
      } else {
        assert Chain(pool, [last]);
        WalkInOrder(pool, [last], 0, x - |early|, y - |early|);
        BeforeIsStrict(pool, out[x], out[y]);
      }
    }
  }

  /** n + n^2 + ... + n^r */
  function Powers(n: nat, r: nat): nat {
    if r == 0 then 0 else n * (1 + Powers(n, r - 1))
  }

  lemma {:induction false} WalkIsBounded(pool: seq<Entry>, chain: seq<Entry>, i: nat)
    requires 1 <= |chain| <= DEPTH_LIMIT && i <= |pool|
    ensures |chain| < DEPTH_LIMIT ==>
      |Walk(pool, chain, i)| <= (|pool| - i) * (1 + Powers(|pool|, DEPTH_LIMIT - 1 - |chain|))
    ensures |chain| == DEPTH_LIMIT ==> Walk(pool, chain, i) == []
    decreases DEPTH_LIMIT - |chain|, |pool| - i
  {
    if |chain| < DEPTH_LIMIT && i < |pool| {
      var t := 1 + Powers(|pool|, DEPTH_LIMIT - 1 - |chain|);
      WalkIsBounded(pool, chain, i + 1);
      WalkIsBounded(pool, chain + [pool[i]], 0);
      assert (|pool| - i) * t == (|pool| - (i + 1)) * t + t;
    }
  }

  /** At most |seeds| times n + n^2 + n^3 + n^4 chains, n the pool's size. */
  lemma {:induction false} ExpandIsBounded(seeds: seq<Entry>, pool: seq<Entry>)
    ensures |Expand(seeds, pool)| <= |seeds| * Powers(|pool|, DEPTH_LIMIT - 1)
  {
    if seeds != [] {
      ExpandIsBounded(seeds[..|seeds| - 1], pool);
      WalkIsBounded(pool, [seeds[|seeds| - 1]], 0);
      var t := Powers(|pool|, DEPTH_LIMIT - 1);
      assert |seeds| * t == (|seeds| - 1) * t + t;
    }
  }

  /** A derived rule holds wherever all its links do. */
  lemma {:induction false} ChainIsEntailed(m: Meaning, rho: Valuation, pool: seq<Entry>, c: seq<Entry>)
    requires Chain(pool, c) && forall i | 0 <= i < |c| :: RuleHolds(m, rho, c[i].rule)
    ensures RuleHolds(m, rho, DerivedRule(c))
  {
    if |c| > 1 {
      var shorter := c[..|c| - 1];
      PrefixIsChain(pool, c, |c| - 1);
      ChainIsEntailed(m, rho, pool, shorter);
      ExpressionsEqualIff(c[|c| - 2].rule.right, c[|c| - 1].rule.left);
      assert shorter[0] == c[0] && shorter[|shorter| - 1] == c[|c| - 2];
      assert RuleHolds(m, rho, c[|c| - 1].rule);
    }
  }

  // ----- the walk as it runs -----

  datatype SeedKind = Forward | Contrapositive

  datatype Transitive = Transitive(rule: Rule, chain: seq<Entry>, kind: SeedKind)

  function TransitiveOf(chain: seq<Entry>): Transitive
    requires |chain| > 0
  {
    Transitive(DerivedRule(chain), chain, if chain[0].origin.None? then Forward else Contrapositive)
  }

  function TransitivesOf(chains: seq<seq<Entry>>): seq<Transitive>
    requires forall c | c in chains :: |c| > 0
  {
    seq(|chains|, i requires 0 <= i < |chains| => TransitiveOf(chains[i]))
  }

  lemma {:induction false} WalkIsNonEmpty(pool: seq<Entry>, chain: seq<Entry>, i: nat)
    requires |chain| > 0 && i <= |pool|
    ensures forall c | c in Walk(pool, chain, i) :: |c| > 0
    decreases DEPTH_LIMIT - |chain|, |pool| - i
  {
    if |chain| < DEPTH_LIMIT && i < |pool| {
      WalkIsNonEmpty(pool, chain + [pool[i]], 0);
      WalkIsNonEmpty(pool, chain, i + 1);
    }
  }

  lemma {:induction false} ExpandIsNonEmpty(seeds: seq<Entry>, pool: seq<Entry>)
    ensures forall c | c in Expand(seeds, pool) :: |c| > 0
  {
    if seeds != [] {
      ExpandIsNonEmpty(seeds[..|seeds| - 1], pool);
      WalkIsNonEmpty(pool, [seeds[|seeds| - 1]], 0);
    }
  }

  /** Appends everything below `chain` to what has been emitted. */
  method WalkFrom(pool: seq<Entry>, base: Entry, current: Entry, chain: seq<Entry>, depth: nat,
                  emitted: seq<Transitive>)
    returns (out: seq<Transitive>)
    requires |chain| == depth > 0 && chain[0] == base && chain[|chain| - 1] == current
    ensures (forall c | c in Walk(pool, chain, 0) :: |c| > 0) && out == emitted + TransitivesOf(Walk(pool, chain, 0))
    decreases DEPTH_LIMIT - depth
  {
    WalkIsNonEmpty(pool, chain, 0);
    out := emitted;
    if depth >= DEPTH_LIMIT {
      return;
    }
    for k := 0 to |pool|
      invariant (forall c | c in Walk(pool, chain, k) :: |c| > 0)
      invariant out + TransitivesOf(Walk(pool, chain, k)) == emitted + TransitivesOf(Walk(pool, chain, 0))
    {
      var next := pool[k];
      WalkIsNonEmpty(pool, chain, k + 1);
      if next.id != current.id && next.rule.direction == Imply
         && ExpressionsEqual(current.rule.right, next.rule.left) && !Contains(chain, next.id) {
        var longer := chain + [next];
        WalkIsNonEmpty(pool, longer, 0);
        out := out + [Transitive(Rule(Imply, base.rule.left, next.rule.right), longer,
                                 if base.origin.None? then Forward else Contrapositive)];
        out := WalkFrom(pool, base, next, longer, depth + 1, out);
        assert Walk(pool, chain, k) == [longer] + Walk(pool, longer, 0) + Walk(pool, chain, k + 1);
        assert TransitivesOf(Walk(pool, chain, k)) ==
          [TransitiveOf(longer)] + TransitivesOf(Walk(pool, longer, 0)) + TransitivesOf(Walk(pool, chain, k + 1));
      }
    }
  }

  method ExpandTransitives(seeds: seq<Entry>, pool: seq<Entry>) returns (out: seq<Transitive>)
    ensures (forall c | c in Expand(seeds, pool) :: |c| > 0) && out == TransitivesOf(Expand(seeds, pool))
  {
    out := [];
    for i := 0 to |seeds|
      invariant (forall c | c in Expand(seeds[..i], pool) :: |c| > 0) && out == TransitivesOf(Expand(seeds[..i], pool))
    {
      assert seeds[..i + 1][..i] == seeds[..i];
      ExpandIsNonEmpty(seeds[..i + 1], pool);
      if seeds[i].rule.direction == Imply {
        out := WalkFrom(pool, seeds[i], seeds[i], [seeds[i]], 1, out);
      }
    }
    assert seeds[..|seeds|] == seeds;
  }
}
