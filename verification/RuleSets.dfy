/** What follows from an annotation's rules, and which of it contradicts. */
module RuleSets {
  import opened Options
  import opened Dsl
  import opened Rules
  import Text

  // ----- the pool -----

  /** The i-th rule and its contrapositive, each under an identity of its own. */
  function EntriesOf(rules: seq<Option<Rule>>, i: nat): seq<Entry>
    requires i < |rules|
  {
    if rules[i].None? then []
    else [Entry(2 * i, rules[i].value, None)] + ContraEntry(rules, i)
  }

  function ContraEntry(rules: seq<Option<Rule>>, i: nat): seq<Entry>
    requires i < |rules|
  {
    if rules[i].Some? && ContrapositiveOf(rules[i].value).Some?
    then [Entry(2 * i + 1, ContrapositiveOf(rules[i].value).value, Some(2 * i))] else []
  }

  function PoolOf(rules: seq<Option<Rule>>, n: nat): seq<Entry>
    requires n <= |rules|
  {
    if n == 0 then [] else PoolOf(rules, n - 1) + EntriesOf(rules, n - 1)
  }

  lemma EntriesAreDistinct(rules: seq<Option<Rule>>, i: nat)
    requires i < |rules|
    ensures DistinctIds(EntriesOf(rules, i))
    ensures forall x | 0 <= x < |EntriesOf(rules, i)| :: 2 * i <= EntriesOf(rules, i)[x].id < 2 * (i + 1)
  {
    hide ContrapositiveOf;
  }

  /** Identities tell pool entries apart, and name the rule they come from. */
  lemma {:induction false} PoolIsDistinct(rules: seq<Option<Rule>>, n: nat)
    requires n <= |rules|
    ensures DistinctIds(PoolOf(rules, n)) && forall i | 0 <= i < |PoolOf(rules, n)| :: PoolOf(rules, n)[i].id < 2 * n
  {
    hide EntriesOf;
    if n > 0 {
      PoolIsDistinct(rules, n - 1);
      EntriesAreDistinct(rules, n - 1);
    }
  }

  /** Logical rules have both operands, structural ones neither. */
  predicate Logical(r: Rule) {
    r.left.Some? ==> r.direction != Structural
  }

  /** The author's rules, true under rho. */
  ghost predicate AllHold(m: Meaning, rho: Valuation, rules: seq<Option<Rule>>) {
    forall i | 0 <= i < |rules| && rules[i].Some? :: RuleHolds(m, rho, rules[i].value) && Logical(rules[i].value)
  }

  lemma {:induction false} PoolIsEntailed(m: Meaning, rho: Valuation, rules: seq<Option<Rule>>, n: nat)
    requires Trichotomous(m) && AllHold(m, rho, rules) && n <= |rules|
    ensures forall e | e in PoolOf(rules, n) :: RuleHolds(m, rho, e.rule)
  {
    hide EntriesOf, RuleHolds, AllHold, Trichotomous;
    if n > 0 {
      PoolIsEntailed(m, rho, rules, n - 1);
      EntriesAreEntailed(m, rho, rules, n - 1);
    }
  }

  lemma EntriesAreEntailed(m: Meaning, rho: Valuation, rules: seq<Option<Rule>>, i: nat)
    requires Trichotomous(m) && AllHold(m, rho, rules) && i < |rules|
    ensures forall e | e in EntriesOf(rules, i) :: RuleHolds(m, rho, e.rule)
  {
    if rules[i].Some? && ContrapositiveOf(rules[i].value).Some? {
      ContrapositiveIsEquivalent(m, rho, rules[i].value);
    }
  }

  // ----- groups -----

  datatype Group = Group(index: nat, original: Rule, contrapositive: Option<Rule>, transitives: seq<Transitive>)

  predicate Grouped(rules: seq<Option<Rule>>, i: nat)
    requires i < |rules|
  {
    rules[i].Some? && rules[i].value.left.Some? && rules[i].value.right.Some?
  }

  function GroupOf(rules: seq<Option<Rule>>, i: nat): Group
    requires i < |rules| && Grouped(rules, i)
  {
    var r := rules[i].value;
    var chains := Expand(EntriesOf(rules, i), PoolOf(rules, |rules|));
    ExpandIsNonEmpty(EntriesOf(rules, i), PoolOf(rules, |rules|));
    Group(i, r, ContrapositiveOf(r), TransitivesOf(chains))
  }

  function GroupsOf(rules: seq<Option<Rule>>, n: nat): seq<Group>
    requires n <= |rules|
  {
    if n == 0 then [] else GroupsOf(rules, n - 1) + if Grouped(rules, n - 1) then [GroupOf(rules, n - 1)] else []
  }

  /** The contrapositives of the first n rules. */
  ghost predicate ContraTable(rules: seq<Option<Rule>>, n: nat, t: map<nat, Rule>) {
    forall k: nat :: && (k in t ==> k < |rules|)
      && (k in t <==> k < n && k < |rules| && ContraEntry(rules, k) != [])
      && (k in t ==> ContraEntry(rules, k) == [Entry(2 * k + 1, t[k], Some(2 * k))])
  }

  /** Each implication's contrapositive, derived once. */
  method DeriveContrapositives(rules: seq<Option<Rule>>) returns (contraByRule: map<nat, Rule>)
    ensures ContraTable(rules, |rules|, contraByRule)
  {
    contraByRule := map[];
    for i := 0 to |rules|
      invariant ContraTable(rules, i, contraByRule)
    {
      if rules[i].Some? && rules[i].value.direction == Imply {
        var c := ContrapositiveOf(rules[i].value);
        if c.Some? {
          contraByRule := contraByRule[i := c.value];
        }
      }
    }
  }

  method BuildPool(rules: seq<Option<Rule>>, contraByRule: map<nat, Rule>) returns (pool: seq<Entry>)
    requires ContraTable(rules, |rules|, contraByRule)
    ensures pool == PoolOf(rules, |rules|)
  {
    hide ContrapositiveOf;
    pool := [];
    for i := 0 to |rules|
      invariant pool == PoolOf(rules, i)
    {
      assert i in contraByRule <==> ContraEntry(rules, i) != [];
      if rules[i].Some? {
        pool := pool + [Entry(2 * i, rules[i].value, None)];
        if i in contraByRule {
          pool := pool + [Entry(2 * i + 1, contraByRule[i], Some(2 * i))];
        }
      }
    }
  }

  method GroupRules(rules: seq<Option<Rule>>) returns (groups: seq<Group>)
    ensures groups == GroupsOf(rules, |rules|)
  {
    hide ContrapositiveOf, Expand, PoolOf;
    var contraByRule := DeriveContrapositives(rules);
    var pool := BuildPool(rules, contraByRule);
    groups := [];
    for i := 0 to |rules|
      invariant groups == GroupsOf(rules, i)
    {
      if rules[i].Some? && rules[i].value.left.Some? && rules[i].value.right.Some? {
        var seeds := [Entry(2 * i, rules[i].value, None)];
        var contrapositive := None;
        if i in contraByRule {
          contrapositive := Some(contraByRule[i]);
          seeds := seeds + [Entry(2 * i + 1, contraByRule[i], Some(2 * i))];
        }
        assert seeds == EntriesOf(rules, i);
        var transitives := ExpandTransitives(seeds, pool);
        groups := groups + [Group(i, rules[i].value, contrapositive, transitives)];
      }
    }
  }

  // ----- claims -----

  datatype ClaimKind = Original | Contraposed | Closure

  /** Which derived rule a claim is: the source's rule pointers, one per rule,
      contrapositive and chain. */
  datatype Identity = Author(group: nat) | Contra(group: nat) | Chained(group: nat, nth: nat)

  datatype Claim = Claim(id: Identity, kind: ClaimKind, rule: Rule)

  function ChainClaims(g: Group, k: nat): seq<Claim>
    requires k <= |g.transitives|
  {
    if k == 0 then [] else ChainClaims(g, k - 1) + [Claim(Chained(g.index, k - 1), Closure, g.transitives[k - 1].rule)]
  }

  function ClaimsIn(g: Group): seq<Claim> {
    [Claim(Author(g.index), Original, g.original)]
    + (if g.contrapositive.Some? then [Claim(Contra(g.index), Contraposed, g.contrapositive.value)] else [])
    + ChainClaims(g, |g.transitives|)
  }

  function ClaimsOf(groups: seq<Group>): seq<Claim> {
    if groups == [] then [] else ClaimsOf(groups[..|groups| - 1]) + ClaimsIn(groups[|groups| - 1])
  }

  function IdsOf(claims: seq<Claim>): set<(Identity, ClaimKind)> {
    set c | c in claims :: (c.id, c.kind)
  }

  predicate Rising(groups: seq<Group>) {
    forall i, j | 0 <= i < j < |groups| :: groups[i].index < groups[j].index
  }

  lemma {:induction false} ChainIdsFresh(g: Group, k: nat)
    requires k <= |g.transitives|
    ensures forall c | c in ChainClaims(g, k) :: c.id.Chained? && c.id.group == g.index && c.id.nth < k
  {
    if k > 0 {
      ChainIdsFresh(g, k - 1);
    }
  }

  lemma {:induction false} ClaimIdsBelow(groups: seq<Group>)
    requires Rising(groups)
    ensures forall c | c in ClaimsOf(groups) :: exists g | g in groups :: c.id.group == g.index
  {
    if groups != [] {
      var last := groups[|groups| - 1];
      ClaimIdsBelow(groups[..|groups| - 1]);
      ChainIdsFresh(last, |last.transitives|);
      assert groups == groups[..|groups| - 1] + [last];
    }
  }

  lemma {:induction false} GroupsRise(rules: seq<Option<Rule>>, n: nat)
    requires n <= |rules|
    ensures Rising(GroupsOf(rules, n)) && forall g | g in GroupsOf(rules, n) :: g.index < n
  {
    if n > 0 {
      GroupsRise(rules, n - 1);
    }
  }

  lemma ClaimsOfMore(groups: seq<Group>, g: Group)
    ensures ClaimsOf(groups + [g]) == ClaimsOf(groups) + ClaimsIn(g)
  {
    assert (groups + [g])[..|groups|] == groups;
  }

  /** Collecting skips a claim it has seen before; it never sees one twice. */
  method CollectClaims(rules: seq<Option<Rule>>) returns (claims: seq<Claim>)
    ensures claims == ClaimsOf(GroupsOf(rules, |rules|))
  {
    var groups := GroupRules(rules);
    GroupsRise(rules, |rules|);
    claims := [];
    var seen: set<(Identity, ClaimKind)> := {};
    for i := 0 to |groups|
      invariant claims == ClaimsOf(groups[..i]) && seen == IdsOf(claims)
    {
      ClaimIdsBelow(groups[..i]);
      ClaimsOfMore(groups[..i], groups[i]);
      assert groups[..i + 1] == groups[..i] + [groups[i]];
      claims, seen := CollectGroup(claims, seen, groups[i]);
    }
    assert groups[..|groups|] == groups;
  }

  method CollectGroup(claims: seq<Claim>, seen: set<(Identity, ClaimKind)>, g: Group)
    returns (claims': seq<Claim>, seen': set<(Identity, ClaimKind)>)
    requires seen == IdsOf(claims) && forall c | c in claims :: c.id.group != g.index
    ensures claims' == claims + ClaimsIn(g) && seen' == IdsOf(claims')
  {
    assert forall id: Identity, kind | (id, kind) in seen :: id.group != g.index;
    claims', seen' := Push(claims, seen, Claim(Author(g.index), Original, g.original));
    if g.contrapositive.Some? {
      claims', seen' := Push(claims', seen', Claim(Contra(g.index), Contraposed, g.contrapositive.value));
    }
    claims', seen' := CollectChains(claims', seen', g);
  }

  method CollectChains(claims: seq<Claim>, seen: set<(Identity, ClaimKind)>, g: Group)
    returns (claims': seq<Claim>, seen': set<(Identity, ClaimKind)>)
    requires seen == IdsOf(claims) && forall c | c in claims :: c.id.group != g.index || !c.id.Chained?
    ensures claims' == claims + ChainClaims(g, |g.transitives|) && seen' == IdsOf(claims')
  {
    claims', seen' := claims, seen;
    for k := 0 to |g.transitives|
      invariant claims' == claims + ChainClaims(g, k) && seen' == IdsOf(claims')
    {
      ChainIdsFresh(g, k);
      assert (Chained(g.index, k), Closure) !in seen';
      claims', seen' := Push(claims', seen', Claim(Chained(g.index, k), Closure, g.transitives[k].rule));
    }
  }

  method Push(claims: seq<Claim>, seen: set<(Identity, ClaimKind)>, c: Claim)
    returns (claims': seq<Claim>, seen': set<(Identity, ClaimKind)>)
    requires seen == IdsOf(claims)
    ensures claims' == if (c.id, c.kind) in seen then claims else claims + [c]
    ensures seen' == IdsOf(claims')
  {
    if (c.id, c.kind) in seen {
      return claims, seen;
    }
    claims', seen' := claims + [c], seen + {(c.id, c.kind)};
  }

  // ----- entailment -----

  ghost predicate AllFollow(m: Meaning, rho: Valuation, claims: seq<Claim>) {
    forall c | c in claims :: RuleHolds(m, rho, c.rule) && Logical(c.rule)
  }

  lemma {:induction false} ChainClaimsEntailed(m: Meaning, rho: Valuation, g: Group, k: nat)
    requires k <= |g.transitives| && forall t | t in g.transitives :: RuleHolds(m, rho, t.rule) && Logical(t.rule)
    ensures AllFollow(m, rho, ChainClaims(g, k))
  {
    if k > 0 {
      ChainClaimsEntailed(m, rho, g, k - 1);
      assert g.transitives[k - 1] in g.transitives;
    }
  }

  lemma ClosureEntailed(m: Meaning, rho: Valuation, rules: seq<Option<Rule>>, i: nat, c: seq<Entry>)
    requires Trichotomous(m) && AllHold(m, rho, rules) && i < |rules| && Grouped(rules, i)
    requires c in Expand(EntriesOf(rules, i), PoolOf(rules, |rules|))
    ensures |c| > 0 && RuleHolds(m, rho, DerivedRule(c))
  {
    var seeds, pool := EntriesOf(rules, i), PoolOf(rules, |rules|);
    ExpandIsExact(seeds, pool, c);
    PoolIsEntailed(m, rho, rules, |rules|);
    EntriesAreEntailed(m, rho, rules, i);
    forall j | 0 <= j < |c|
      ensures RuleHolds(m, rho, c[j].rule)
    {
      assert j == 0 || c[j] in pool;
    }
    ChainIsEntailed(m, rho, pool, c);
  }

  lemma GroupEntailed(m: Meaning, rho: Valuation, rules: seq<Option<Rule>>, i: nat)
    requires Trichotomous(m) && AllHold(m, rho, rules) && i < |rules| && Grouped(rules, i)
    ensures AllFollow(m, rho, ClaimsIn(GroupOf(rules, i)))
  {
    var g := GroupOf(rules, i);
    var chains := Expand(EntriesOf(rules, i), PoolOf(rules, |rules|));
    forall t | t in g.transitives
      ensures RuleHolds(m, rho, t.rule) && Logical(t.rule)
    {
      var k :| 0 <= k < |g.transitives| && g.transitives[k] == t;
      assert chains[k] in chains;
      ClosureEntailed(m, rho, rules, i, chains[k]);
    }
    ChainClaimsEntailed(m, rho, g, |g.transitives|);
    if g.contrapositive.Some? {
      ContrapositiveIsEquivalent(m, rho, g.original);
    }
  }

  /** Everything collected follows from the author's rules. */
  lemma {:induction false} ClaimsAreEntailed(m: Meaning, rho: Valuation, rules: seq<Option<Rule>>, n: nat)
    requires Trichotomous(m) && AllHold(m, rho, rules) && n <= |rules|
    ensures AllFollow(m, rho, ClaimsOf(GroupsOf(rules, n)))
  {
    hide RuleHolds, ClaimsIn, GroupOf, AllHold, Trichotomous;
    if n > 0 {
      ClaimsAreEntailed(m, rho, rules, n - 1);
      if Grouped(rules, n - 1) {
        GroupEntailed(m, rho, rules, n - 1);
        ClaimsOfMore(GroupsOf(rules, n - 1), GroupOf(rules, n - 1));
        assert GroupsOf(rules, n) == GroupsOf(rules, n - 1) + [GroupOf(rules, n - 1)];
      } else {
        assert GroupsOf(rules, n) == GroupsOf(rules, n - 1);
      }
    }
  }

  // ----- nothing is left out -----

  /** Some claim of this kind makes this rule. */
  predicate Made(claims: seq<Claim>, kind: ClaimKind, rule: Rule) {
    exists c | c in claims :: c.kind == kind && c.rule == rule
  }

  lemma {:induction false} GroupClaimed(rules: seq<Option<Rule>>, n: nat, i: nat, c: Claim)
    requires i < n <= |rules| && Grouped(rules, i) && c in ClaimsIn(GroupOf(rules, i))
    ensures c in ClaimsOf(GroupsOf(rules, n))
  {
    hide ClaimsIn, GroupOf;
    if Grouped(rules, n - 1) {
      ClaimsOfMore(GroupsOf(rules, n - 1), GroupOf(rules, n - 1));
      assert GroupsOf(rules, n) == GroupsOf(rules, n - 1) + [GroupOf(rules, n - 1)];
    } else {
      assert GroupsOf(rules, n) == GroupsOf(rules, n - 1);
    }
    if i < n - 1 {
      GroupClaimed(rules, n - 1, i, c);
    }
  }

  lemma {:induction false} ChainClaimed(g: Group, k: nat, j: nat)
    requires j < k <= |g.transitives|
    ensures Claim(Chained(g.index, j), Closure, g.transitives[j].rule) in ChainClaims(g, k)
  {
    if j < k - 1 {
      ChainClaimed(g, k - 1, j);
    }
  }

  lemma GroupMade(rules: seq<Option<Rule>>, i: nat, c: Claim)
    requires i < |rules| && Grouped(rules, i) && c in ClaimsIn(GroupOf(rules, i))
    ensures Made(ClaimsOf(GroupsOf(rules, |rules|)), c.kind, c.rule)
  {
    hide ClaimsIn, GroupOf, ClaimsOf, GroupsOf;
    GroupClaimed(rules, |rules|, i, c);
  }

  /** The rule derived by a chain that starts with a rule or its contrapositive. */
  lemma ClosureMade(rules: seq<Option<Rule>>, i: nat, c: seq<Entry>)
    requires i < |rules| && Grouped(rules, i)
    requires Chain(PoolOf(rules, |rules|), c) && |c| >= 2 && c[0] in EntriesOf(rules, i)
    ensures Made(ClaimsOf(GroupsOf(rules, |rules|)), Closure, DerivedRule(c))
  {
    hide ContrapositiveOf, Chain, EntriesOf, DerivedRule, Made, ClaimsOf, GroupsOf, ChainClaims, Expand;
    var g, chains := GroupOf(rules, i), Expand(EntriesOf(rules, i), PoolOf(rules, |rules|));
    ExpandIsExact(EntriesOf(rules, i), PoolOf(rules, |rules|), c);
    var j :| 0 <= j < |chains| && chains[j] == c;
    assert g.transitives[j].rule == DerivedRule(c);
    ChainClaimed(g, |g.transitives|, j);
    GroupMade(rules, i, Claim(Chained(g.index, j), Closure, DerivedRule(c)));
  }

  /** Collecting leaves nothing out: every rule with both sides, its contrapositive
      if it has one, and the rule derived by every chain of two to five linked
      implications that starts with either. */
  lemma ClaimsComplete(rules: seq<Option<Rule>>, i: nat)
    requires i < |rules| && rules[i].Some? && rules[i].value.left.Some? && rules[i].value.right.Some?
    ensures var claims := ClaimsOf(GroupsOf(rules, |rules|));
      && Made(claims, Original, rules[i].value)
      && (ContrapositiveOf(rules[i].value).Some? ==> Made(claims, Contraposed, ContrapositiveOf(rules[i].value).value))
      && (forall c | Chain(PoolOf(rules, |rules|), c) && |c| >= 2 && c[0] in EntriesOf(rules, i) ::
            Made(claims, Closure, DerivedRule(c)))
  {
    hide ContrapositiveOf, Chain, EntriesOf, DerivedRule, Made, ClaimsOf, GroupsOf, ChainClaims, Expand;
    var r := rules[i].value;
    GroupMade(rules, i, Claim(Author(i), Original, r));
    if ContrapositiveOf(r).Some? {
      GroupMade(rules, i, Claim(Contra(i), Contraposed, ContrapositiveOf(r).value));
    }
    forall c | Chain(PoolOf(rules, |rules|), c) && |c| >= 2 && c[0] in EntriesOf(rules, i)
      ensures Made(ClaimsOf(GroupsOf(rules, |rules|)), Closure, DerivedRule(c))
    {
      ClosureMade(rules, i, c);
    }
  }

  // ----- contradictions -----

  predicate RulesContradict(a: Rule, b: Rule) {
    && a.left.Some? && a.right.Some? && b.left.Some? && b.right.Some?
    && ExpressionsEqual(a.left, b.left)
    && ExpressionsEqual(a.right, Negate(b.right.value))
  }

  /** The right sides ask opposite things of one reference: two nil checks by `==`
      and `!=`, or two comparisons with the same single member by operators of
      which exactly one can hold. */
  predicate OppositeSides(a: Expression, b: Expression) {
    && a.ref == b.ref && a.kind == b.kind && Opposed(a.op, b.op)
    && (|| (a.kind == NilCheck && a.members == [] && (b.op == Eq || b.op == Neq))
        || (a.kind == Comparison && |b.members| == 1 && a.members == b.members))
  }

  /** The test finds exactly the rules with one left side and opposite right ones. */
  lemma ContradictExactly(a: Rule, b: Rule)
    ensures RulesContradict(a, b) <==>
      && a.left.Some? && a.left == b.left && a.right.Some? && b.right.Some?
      && OppositeSides(a.right.value, b.right.value)
  {
    ExpressionsEqualIff(a.left, b.left);
    if a.right.Some? && b.right.Some? {
      ExpressionsEqualIff(a.right, Negate(b.right.value));
      NegationExact(b.right.value);
    }
  }

  /** Two rules that contradict can hold together only where their shared left
      side is false, whichever arrows they use. */
  lemma ContradictionForcesLeft(m: Meaning, rho: Valuation, a: Rule, b: Rule)
    requires Trichotomous(m) && RulesContradict(a, b) && Logical(a) && Logical(b)
    requires RuleHolds(m, rho, a) && RuleHolds(m, rho, b)
    ensures !Holds(m, rho, a.left.value)
  {
    ExpressionsEqualIff(a.left, b.left);
    ExpressionsEqualIff(a.right, Negate(b.right.value));
    NegationIsComplement(m, rho, b.right.value);
  }

  /** The test is symmetric exactly when the second rule's right side is a
      proper nil check, one without members. */
  lemma ContradictionSymmetric(a: Rule, b: Rule)
    requires RulesContradict(a, b)
    ensures RulesContradict(b, a) <==> Lean(b.right.value)
  {
    ExpressionsEqualIff(a.left, b.left);
    ExpressionsEqualIff(b.left, a.left);
    ExpressionsEqualIff(a.right, Negate(b.right.value));
    ExpressionsEqualIff(b.right, Negate(a.right.value));
    NegationUndoes(b.right.value);
  }

  // ----- reporting -----

  /** Go's string order: by characters, a prefix first. */
  predicate TextLe(a: string, b: string) {
    if a == [] then true
    else if b == [] then false
    else a[0] < b[0] || (a[0] == b[0] && TextLe(a[1..], b[1..]))
  }

  lemma {:induction false} TextLeIsTotal(a: string, b: string)
    ensures TextLe(a, b) || TextLe(b, a)
    ensures TextLe(a, b) && TextLe(b, a) ==> a == b
  {
    if a != [] && b != [] && a[0] == b[0] {
      TextLeIsTotal(a[1..], b[1..]);
      assert a == [a[0]] + a[1..] && b == [b[0]] + b[1..];
    }
  }

  function OrderedPair(a: string, b: string, separator: string): string {
    if TextLe(a, b) then a + separator + b else b + separator + a
  }

  lemma OrderedPairSymmetric(a: string, b: string, separator: string)
    ensures OrderedPair(a, b, separator) == OrderedPair(b, a, separator)
  {
    TextLeIsTotal(a, b);
  }

  /** How rules and claims are spelled in diagnostics. */
  datatype Spelling = Spelling(operand: Option<Expression> -> string, claim: Claim -> string)

  function PairKey(sp: Spelling, a: Claim, b: Claim): string {
    OrderedPair(sp.claim(a), sp.claim(b), "\0")
  }

  function RootKey(sp: Spelling, a: Rule, b: Rule): string {
    OrderedPair(sp.operand(a.left), sp.operand(b.left), " || ") + " :: "
    + OrderedPair(sp.operand(a.right), sp.operand(b.right), " || ")
  }

  lemma KeysSymmetric(sp: Spelling, a: Claim, b: Claim)
    ensures PairKey(sp, a, b) == PairKey(sp, b, a) && RootKey(sp, a.rule, b.rule) == RootKey(sp, b.rule, a.rule)
  {
    OrderedPairSymmetric(sp.claim(a), sp.claim(b), "\0");
    OrderedPairSymmetric(sp.operand(a.rule.left), sp.operand(b.rule.left), " || ");
    OrderedPairSymmetric(sp.operand(a.rule.right), sp.operand(b.rule.right), " || ");
  }

  /** A pair worth reporting: it contradicts, and not merely because two
      contrapositives mirror their originals. */
  predicate Offends(claims: seq<Claim>, i: nat, j: nat)
    requires i < |claims| && j < |claims|
  {
    && !(claims[i].kind == Contraposed && claims[j].kind == Contraposed)
    && RulesContradict(claims[i].rule, claims[j].rule)
  }

  /** The keys of the pairs reported so far. */
  predicate Keyed(sp: Spelling, claims: seq<Claim>, pairs: seq<(nat, nat)>, keys: set<string>, roots: set<string>) {
    && (forall p | p in pairs :: p.0 < p.1 < |claims| && Offends(claims, p.0, p.1))
    && keys == (set p | p in pairs && p.0 < |claims| && p.1 < |claims| :: PairKey(sp, claims[p.0], claims[p.1]))
    && roots == (set p | p in pairs && p.0 < |claims| && p.1 < |claims| ::
                 RootKey(sp, claims[p.0].rule, claims[p.1].rule))
  }

  /** No two reported pairs agree on their descriptions or on their axis. */
  predicate Unrepeated(sp: Spelling, claims: seq<Claim>, pairs: seq<(nat, nat)>) {
    forall x, y | 0 <= x < y < |pairs| :: Apart(sp, claims, pairs[x], pairs[y])
  }

  predicate Apart(sp: Spelling, claims: seq<Claim>, p: (nat, nat), q: (nat, nat)) {
    p.0 < |claims| && p.1 < |claims| && q.0 < |claims| && q.1 < |claims| ==>
      && PairKey(sp, claims[p.0], claims[p.1]) != PairKey(sp, claims[q.0], claims[q.1])
      && RootKey(sp, claims[p.0].rule, claims[p.1].rule) != RootKey(sp, claims[q.0].rule, claims[q.1].rule)
  }

  predicate Covers(sp: Spelling, claims: seq<Claim>, i: nat, j: nat, keys: set<string>, roots: set<string>)
    requires i < |claims| && j < |claims|
  {
    Offends(claims, i, j) ==>
      PairKey(sp, claims[i], claims[j]) in keys || RootKey(sp, claims[i].rule, claims[j].rule) in roots
  }

  /** A pair whose descriptions or axis are those of p. */
  predicate SameKeys(sp: Spelling, claims: seq<Claim>, i: nat, j: nat, p: (nat, nat))
    requires i < |claims| && j < |claims|
  {
    && p.0 < |claims| && p.1 < |claims|
    && (PairKey(sp, claims[i], claims[j]) == PairKey(sp, claims[p.0], claims[p.1])
        || RootKey(sp, claims[i].rule, claims[j].rule) == RootKey(sp, claims[p.0].rule, claims[p.1].rule))
  }

  /** The claims' spellings tell their operands and rules apart, and do not
      contain the separators of the keys. */
  predicate Telling(sp: Spelling, claims: seq<Claim>) {
    && (forall c | c in claims :: Marked(sp, c))
    && (forall c, d | c in claims && d in claims :: Distinguished(sp, c, d))
  }

  predicate Marked(sp: Spelling, c: Claim) {
    && Text.NoPair(sp.operand(c.rule.left), '|', '|')
    && Text.NoPair(sp.operand(c.rule.right), '|', '|')
    && '\0' !in sp.claim(c)
  }

  predicate Distinguished(sp: Spelling, c: Claim, d: Claim) {
    && (sp.operand(c.rule.left) == sp.operand(d.rule.left) ==> c.rule.left == d.rule.left)
    && (sp.operand(c.rule.right) == sp.operand(d.rule.right) ==> c.rule.right == d.rule.right)
    && (sp.claim(c) == sp.claim(d) ==> c.rule == d.rule)
  }

  /** Two pairs that share their left side and, in either order, their right sides. */
  predicate SharesAxis(claims: seq<Claim>, i: nat, j: nat, p: (nat, nat))
    requires i < |claims| && j < |claims|
  {
    && p.0 < |claims| && p.1 < |claims|
    && claims[i].rule.left == claims[p.0].rule.left
    && (|| (claims[i].rule.right == claims[p.0].rule.right && claims[j].rule.right == claims[p.1].rule.right)
        || (claims[i].rule.right == claims[p.1].rule.right && claims[j].rule.right == claims[p.0].rule.right))
  }

  /** Text without `||` ends where ` || ` begins. */
  lemma BarsSplitOnce(a: string, b: string, c: string, d: string)
    requires Text.NoPair(a, '|', '|') && Text.NoPair(c, '|', '|') && a + " || " + b == c + " || " + d
    ensures a == c && b == d
  {
    var s := a + " || " + b;
    BarsNotInside(a, b, c, d);
    BarsNotInside(c, d, a, b);
    assert a == s[..|a|] && c == s[..|c|] && b == s[|a| + 4..] && d == s[|c| + 4..];
  }

  lemma BarsAt(s: string, a: string, b: string)
    requires s == a + " || " + b
    ensures |a| + 4 <= |s| && s[|a|] == ' ' && s[|a| + 1] == '|' && s[|a| + 2] == '|'
    ensures forall k | 0 <= k < |a| :: s[k] == a[k]
  {
  }

  lemma BarsNotInside(a: string, b: string, c: string, d: string)
    requires Text.NoPair(c, '|', '|') && a + " || " + b == c + " || " + d
    ensures |c| <= |a|
  {
    var s := a + " || " + b;
    BarsAt(s, a, b);
    BarsAt(s, c, d);
    assert |a| < |c| ==> !Text.PairAt(c, '|', '|', |a| + 1);
  }

  lemma ZeroSplitsOnce(a: string, b: string, c: string, d: string)
    requires '\0' !in a && '\0' !in c && a + "\0" + b == c + "\0" + d
    ensures a == c && b == d
  {
    var s := a + "\0" + b;
    assert s[|a|] == '\0' && s[|c|] == '\0';
    assert a == s[..|a|] && c == s[..|c|] && b == s[|a| + 1..] && d == s[|c| + 1..];
  }

  /** The root key tells the left side and, in either order, the right sides. */
  lemma RootKeyTells(sp: Spelling, a: Claim, b: Claim, c: Claim, d: Claim)
    requires Marked(sp, a) && Marked(sp, b) && Marked(sp, c) && Marked(sp, d)
    requires a.rule.left == b.rule.left && c.rule.left == d.rule.left
    requires RootKey(sp, a.rule, b.rule) == RootKey(sp, c.rule, d.rule)
    ensures sp.operand(a.rule.left) == sp.operand(c.rule.left)
    ensures OrderedPair(sp.operand(a.rule.right), sp.operand(b.rule.right), " || ")
      == OrderedPair(sp.operand(c.rule.right), sp.operand(d.rule.right), " || ")
  {
    hide OrderedPair, Text.NoPair;
    var left, left' := sp.operand(a.rule.left), sp.operand(c.rule.left);
    var right := OrderedPair(sp.operand(a.rule.right), sp.operand(b.rule.right), " || ");
    var right' := OrderedPair(sp.operand(c.rule.right), sp.operand(d.rule.right), " || ");
    SameTexts(left, left');
    RootKeySplits(left, right, left', right');
  }

  lemma SameTexts(a: string, b: string)
    ensures OrderedPair(a, a, " || ") == a + " || " + a && OrderedPair(b, b, " || ") == b + " || " + b
  {
  }

  lemma RootKeySplits(left: string, right: string, left': string, right': string)
    requires Text.NoPair(left, '|', '|') && Text.NoPair(left', '|', '|')
    requires left + " || " + left + " :: " + right == left' + " || " + left' + " :: " + right'
    ensures left == left' && right == right'
  {
    assert left + " || " + left + " :: " + right == left + " || " + (left + " :: " + right);
    assert left' + " || " + left' + " :: " + right' == left' + " || " + (left' + " :: " + right');
    BarsSplitOnce(left, left + " :: " + right, left', left' + " :: " + right');
    var shared := left + " :: ";
    assert right == (shared + right)[|shared|..] && right' == (shared + right')[|shared|..];
  }

  lemma RightsTell(a: string, b: string, c: string, d: string)
    requires Text.NoPair(a, '|', '|') && Text.NoPair(b, '|', '|') && Text.NoPair(c, '|', '|')
    requires Text.NoPair(d, '|', '|')
    requires OrderedPair(a, b, " || ") == OrderedPair(c, d, " || ")
    ensures (a == c && b == d) || (a == d && b == c)
  {
    hide Text.NoPair, TextLe;
    var (lo, hi) := if TextLe(a, b) then (a, b) else (b, a);
    var (lo', hi') := if TextLe(c, d) then (c, d) else (d, c);
    BarsSplitOnce(lo, hi, lo', hi');
  }

  lemma ClaimsTell(a: string, b: string, c: string, d: string)
    requires '\0' !in a && '\0' !in b && '\0' !in c && '\0' !in d
    requires OrderedPair(a, b, "\0") == OrderedPair(c, d, "\0")
    ensures (a == c && b == d) || (a == d && b == c)
  {
    hide TextLe;
    var (lo, hi) := if TextLe(a, b) then (a, b) else (b, a);
    var (lo', hi') := if TextLe(c, d) then (c, d) else (d, c);
    ZeroSplitsOnce(lo, hi, lo', hi');
  }

  /** Nothing distinct is suppressed: with telling spellings, an offending pair
      that repeats another's keys shares its left side and its axis. */
  lemma SuppressedSharesAxis(sp: Spelling, claims: seq<Claim>, i: nat, j: nat, p: (nat, nat))
    requires Telling(sp, claims) && i < |claims| && j < |claims| && Offends(claims, i, j)
    requires p.0 < |claims| && p.1 < |claims| && Offends(claims, p.0, p.1) && SameKeys(sp, claims, i, j, p)
    ensures SharesAxis(claims, i, j, p)
  {
    hide RootKey, TextLe, OrderedPair, Text.NoPair, ExpressionsEqual, Negate;
    var a, b, c, d := claims[i], claims[j], claims[p.0], claims[p.1];
    assert a in claims && b in claims && c in claims && d in claims;
    assert Marked(sp, a) && Marked(sp, b) && Marked(sp, c) && Marked(sp, d);
    assert Distinguished(sp, a, c) && Distinguished(sp, a, d) && Distinguished(sp, b, c) && Distinguished(sp, b, d);
    ExpressionsEqualIff(a.rule.left, b.rule.left);
    ExpressionsEqualIff(c.rule.left, d.rule.left);
    if RootKey(sp, a.rule, b.rule) == RootKey(sp, c.rule, d.rule) {
      RootKeyTells(sp, a, b, c, d);
      RightsTell(sp.operand(a.rule.right), sp.operand(b.rule.right),
                 sp.operand(c.rule.right), sp.operand(d.rule.right));
    } else {
      ClaimsTell(sp.claim(a), sp.claim(b), sp.claim(c), sp.claim(d));
    }
  }

  /** Every offending pair is reported, but for those that repeat a reported
      one's descriptions or axis; nothing else is. With telling spellings no
      offence goes unreported that differs from the reported ones in its left
      side or its axis. */
  method ReportContradictions(sp: Spelling, rules: seq<Option<Rule>>)
    returns (claims: seq<Claim>, pairs: seq<(nat, nat)>)
    ensures claims == ClaimsOf(GroupsOf(rules, |rules|))
    ensures forall p | p in pairs :: p.0 < p.1 < |claims| && Offends(claims, p.0, p.1)
    ensures Unrepeated(sp, claims, pairs)
    ensures forall i: nat, j: nat | i < j < |claims| && Offends(claims, i, j) ::
      exists p | p in pairs :: SameKeys(sp, claims, i, j, p)
    ensures Telling(sp, claims) ==> forall i: nat, j: nat | i < j < |claims| && Offends(claims, i, j) ::
      exists p | p in pairs :: SharesAxis(claims, i, j, p)
  {
    hide PairKey, RootKey, SharesAxis, SameKeys, Telling, Offends, Keyed, Unrepeated, Covers, ClaimsOf, GroupsOf;
    claims := CollectClaims(rules);
    pairs := [];
    var reported: set<string>, reportedRoot: set<string> := {}, {};
    NothingReported(sp, claims);
    for i := 0 to |claims|
      invariant Keyed(sp, claims, pairs, reported, reportedRoot) && Unrepeated(sp, claims, pairs)
      invariant forall x: nat, y: nat | x < i && x < y < |claims| :: Covers(sp, claims, x, y, reported, reportedRoot)
    {
      for j := i + 1 to |claims|
        invariant Keyed(sp, claims, pairs, reported, reportedRoot) && Unrepeated(sp, claims, pairs)
        invariant forall x: nat, y: nat | x < i && x < y < |claims| :: Covers(sp, claims, x, y, reported, reportedRoot)
        invariant forall y: nat | i < y < j :: Covers(sp, claims, i, y, reported, reportedRoot)
      {
        ghost var keys, roots := reported, reportedRoot;
        pairs, reported, reportedRoot := ConsiderPair(sp, claims, i, j, pairs, reported, reportedRoot);
        forall x: nat, y: nat | x < y < |claims| && Covers(sp, claims, x, y, keys, roots)
          ensures Covers(sp, claims, x, y, reported, reportedRoot)
        {
          CoversStays(sp, claims, x, y, keys, roots, reported, reportedRoot);
        }
      }
    }
    forall i: nat, j: nat | i < j < |claims| && Offends(claims, i, j)
      ensures exists p | p in pairs :: SameKeys(sp, claims, i, j, p)
    {
      CoveredByPair(sp, claims, pairs, reported, reportedRoot, i, j);
    }
    AllOffend(sp, claims, pairs, reported, reportedRoot);
    if Telling(sp, claims) {
      forall i: nat, j: nat | i < j < |claims| && Offends(claims, i, j)
        ensures exists p | p in pairs :: SharesAxis(claims, i, j, p)
      {
        var p :| p in pairs && SameKeys(sp, claims, i, j, p);
        SuppressedSharesAxis(sp, claims, i, j, p);
      }
    }
  }

  /** One step of the pairwise walk. */
  method ConsiderPair(sp: Spelling, claims: seq<Claim>, i: nat, j: nat,
                      pairs: seq<(nat, nat)>, reported: set<string>, reportedRoot: set<string>)
    returns (pairs': seq<(nat, nat)>, reported': set<string>, reportedRoot': set<string>)
    requires i < j < |claims| && Keyed(sp, claims, pairs, reported, reportedRoot) && Unrepeated(sp, claims, pairs)
    ensures Keyed(sp, claims, pairs', reported', reportedRoot') && Unrepeated(sp, claims, pairs')
    ensures reported <= reported' && reportedRoot <= reportedRoot' && Covers(sp, claims, i, j, reported', reportedRoot')
  {
    hide PairKey, RootKey, Keyed, Unrepeated;
    pairs', reported', reportedRoot' := pairs, reported, reportedRoot;
    if claims[i].kind == Contraposed && claims[j].kind == Contraposed {
      return;
    }
    if !RulesContradict(claims[i].rule, claims[j].rule) {
      return;
    }
    var key := PairKey(sp, claims[i], claims[j]);
    if key in reported {
      return;
    }
    var rootKey := RootKey(sp, claims[i].rule, claims[j].rule);
    if rootKey in reportedRoot {
      return;
    }
    ReportKeeps(sp, claims, pairs, reported, reportedRoot, i, j);
    reported' := reported + {key};
    reportedRoot' := reportedRoot + {rootKey};
    pairs' := pairs + [(i, j)];
  }

  lemma NothingReported(sp: Spelling, claims: seq<Claim>)
    ensures Keyed(sp, claims, [], {}, {}) && Unrepeated(sp, claims, [])
  {
  }

  lemma CoversStays(sp: Spelling, claims: seq<Claim>, x: nat, y: nat, keys: set<string>, roots: set<string>,
                    keys': set<string>, roots': set<string>)
    requires x < y < |claims| && Covers(sp, claims, x, y, keys, roots) && keys <= keys' && roots <= roots'
    ensures Covers(sp, claims, x, y, keys', roots')
  {
  }

  lemma CoveredByPair(sp: Spelling, claims: seq<Claim>, pairs: seq<(nat, nat)>, keys: set<string>, roots: set<string>,
                      i: nat, j: nat)
    requires Keyed(sp, claims, pairs, keys, roots) && i < j < |claims| && Offends(claims, i, j)
    requires Covers(sp, claims, i, j, keys, roots)
    ensures exists p | p in pairs :: SameKeys(sp, claims, i, j, p)
  {
    hide PairKey, RootKey, Offends;
    if PairKey(sp, claims[i], claims[j]) in keys {
      var p :| p in pairs && p.0 < |claims| && p.1 < |claims| &&
        PairKey(sp, claims[p.0], claims[p.1]) == PairKey(sp, claims[i], claims[j]);
      assert SameKeys(sp, claims, i, j, p);
    } else {
      var p :| p in pairs && p.0 < |claims| && p.1 < |claims| &&
        RootKey(sp, claims[p.0].rule, claims[p.1].rule) == RootKey(sp, claims[i].rule, claims[j].rule);
      assert SameKeys(sp, claims, i, j, p);
    }
  }

  lemma AllOffend(sp: Spelling, claims: seq<Claim>, pairs: seq<(nat, nat)>, keys: set<string>, roots: set<string>)
    requires Keyed(sp, claims, pairs, keys, roots)
    ensures forall p | p in pairs :: p.0 < p.1 < |claims| && Offends(claims, p.0, p.1)
  {
  }

  lemma ReportKeeps(sp: Spelling, claims: seq<Claim>, pairs: seq<(nat, nat)>, keys: set<string>, roots: set<string>,
                    i: nat, j: nat)
    requires Keyed(sp, claims, pairs, keys, roots) && Unrepeated(sp, claims, pairs) && i < j < |claims|
    requires Offends(claims, i, j)
    requires PairKey(sp, claims[i], claims[j]) !in keys && RootKey(sp, claims[i].rule, claims[j].rule) !in roots
    ensures Keyed(sp, claims, pairs + [(i, j)], keys + {PairKey(sp, claims[i], claims[j])},
                  roots + {RootKey(sp, claims[i].rule, claims[j].rule)})
    ensures Unrepeated(sp, claims, pairs + [(i, j)])
  {
    hide PairKey, RootKey, Offends;
    assert forall x | 0 <= x < |pairs| :: pairs[x] in pairs;
  }

  /** What a reported pair means: under any values that satisfy the author's
      rules the two claims' shared left side is false. */
  lemma ReportedPairIsVacuous(m: Meaning, rho: Valuation, rules: seq<Option<Rule>>, i: nat, j: nat)
    requires Trichotomous(m) && AllHold(m, rho, rules)
    requires i < j < |ClaimsOf(GroupsOf(rules, |rules|))| && Offends(ClaimsOf(GroupsOf(rules, |rules|)), i, j)
    ensures !Holds(m, rho, ClaimsOf(GroupsOf(rules, |rules|))[i].rule.left.value)
  {
    var claims := ClaimsOf(GroupsOf(rules, |rules|));
    ClaimsAreEntailed(m, rho, rules, |rules|);
    assert claims[i] in claims && claims[j] in claims;
    ContradictionForcesLeft(m, rho, claims[i].rule, claims[j].rule);
  }
}
