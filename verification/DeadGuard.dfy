/** The dead-guard analysis: what is known about call results, statement by
    statement, and which guards that decides. */
module DeadGuard {
  import opened Options
  import opened Dsl
  import opened GuardLang

  datatype Origin = NilSource | CondSource

  /** A local bound to a call result: the relation it satisfies once narrowed,
      and for a rule the relation on the paired local that narrows it. */
  datatype Binding = Binding(source: Origin, narrow: NarrowState, guardNarrow: NarrowState, guardName: string)

  type Bindings = map<string, Binding>

  /** Bindings that await their guard, and bindings that hold. */
  datatype Known = Known(pending: Bindings, narrowed: Bindings, names: set<string>)

  const NOTHING_KNOWN := Known(map[], map[], {})

  const NON_NIL := NarrowState(false, NilValue)

  // ----- rules as bindings -----

  datatype Shape = Shape(guardRef: Reference, guardNarrow: NarrowState, targetRef: Reference, targetNarrow: NarrowState)

  function BareEquality(e: Expression): Option<NarrowState> {
    if e.ref.path != [] || (e.op != Eq && e.op != Neq) then None
    else match e.kind
      case NilCheck => Some(NarrowState(e.op == Eq, NilValue))
      case Comparison =>
        if |e.members| != 1 then None
        else if e.members[0].isNil then Some(NarrowState(e.op == Eq, NilValue))
        else if e.members[0].literal == "" then None
        else Some(NarrowState(e.op == Eq, Literal(e.members[0].literal)))
      case BareRef => None
  }

  /** The guard and target sides of a rule that can narrow a caller's local. */
  function RuleShape(r: Rule): Option<Shape> {
    if r.direction == Structural || r.left.None? || r.right.None? then None
    else
      var left, right := BareEquality(r.left.value), BareEquality(r.right.value);
      if left.None? || right.None? then None
      else if r.direction == Imply then Some(Shape(r.left.value.ref, left.value, r.right.value.ref, right.value))
      else if left.value.equal && !right.value.equal then
        Some(Shape(r.left.value.ref, left.value, r.right.value.ref, right.value))
      else if !left.value.equal && right.value.equal then
        Some(Shape(r.right.value.ref, right.value, r.left.value.ref, left.value))
      else None
  }

  lemma BareEqualityMeans(m: Meaning, rho: Valuation, e: Expression)
    requires BareEquality(e).Some?
    ensures Holds(m, rho, e) <==> Satisfies(m, BareEquality(e).value, rho(e.ref))
  {
    if e.kind == Comparison {
      assert Compares(m, e.op, rho(e.ref), Denoted(m, e.members[0]))
        <==> Satisfies(m, BareEquality(e).value, rho(e.ref));
    }
  }

  /** Wherever the rule holds, its guard side implies its target side, for
      implications and biconditionals alike. */
  lemma ShapeIsEntailed(m: Meaning, rho: Valuation, r: Rule)
    requires RuleShape(r).Some? && RuleHolds(m, rho, r)
    ensures var s := RuleShape(r).value;
      Satisfies(m, s.guardNarrow, rho(s.guardRef)) ==> Satisfies(m, s.targetNarrow, rho(s.targetRef))
  {
    BareEqualityMeans(m, rho, r.left.value);
    BareEqualityMeans(m, rho, r.right.value);
  }

  // ----- deciding a guard -----

  function Outcome(narrow: NarrowState, guard: NarrowState): Verdict {
    var same := narrow.value == guard.value;
    if narrow.equal then
      if guard.equal then (if same then Redundant else Impossible) else (if same then Impossible else Redundant)
    else if !same then Silent
    else if guard.equal then Impossible
    else Redundant
  }

  predicate Truthful(c: Claim) {
    match c.verdict
    case Silent => true
    case Redundant => c.held
    case Impossible => !c.held
  }

  /** Different spellings, different values: `16` and `0x10` are the exception. */
  ghost predicate SpellingsDistinct(m: Meaning) {
    forall s: string, t: string :: m.literal(s) != Nil && (s != t ==> m.literal(s) != m.literal(t))
  }

  /** A verdict is right about every value the narrowing leaves exactly when
      two unlike spellings it compares denote unlike values. */
  lemma OutcomeTruthfulIff(m: Meaning, narrow: NarrowState, guard: NarrowState)
    ensures (forall v: Value | Satisfies(m, narrow, v) ::
             Truthful(Claim(Outcome(narrow, guard), Satisfies(m, guard, v))))
      <==> (narrow.equal && narrow.value != guard.value ==> Denotes(m, narrow.value) != Denotes(m, guard.value))
  {
    var v := Denotes(m, narrow.value);
    if narrow.equal {
      assert Satisfies(m, narrow, v);
    }
  }

  /** Silence is no accident: both ways are open when there is a third value. */
  lemma SilentIsUndecided(m: Meaning, narrow: NarrowState, guard: NarrowState, third: Value)
    requires Outcome(narrow, guard) == Silent && Denotes(m, narrow.value) != Denotes(m, guard.value)
    requires third != Denotes(m, narrow.value) && third != Denotes(m, guard.value)
    ensures exists v: Value :: Satisfies(m, narrow, v) && Satisfies(m, guard, v)
    ensures exists v: Value :: Satisfies(m, narrow, v) && !Satisfies(m, guard, v)
  {
    var v := Denotes(m, guard.value);
    assert Satisfies(m, narrow, v) && Satisfies(m, narrow, third);
  }

  function Report(k: Known, s: Stmt): Verdict {
    if s.If? && s.init == Done && ShortCircuits(s.body) && s.cond.Guard?
       && s.cond.name in k.names && s.cond.name in k.narrowed
    then Outcome(k.narrowed[s.cond.name].narrow, s.cond.state)
    else Silent
  }

  // ----- forgetting -----

  predicate PairedIn(b: Binding, names: set<string>) {
    b.source == CondSource && b.guardName in names
  }

  /** What stays known after some names are shadowed and some rewritten. */
  function Forget(k: Known, shadowed: set<string>, rewritten: set<string>): Known {
    var gone := shadowed + rewritten;
    Known(map x | x in k.pending && x !in gone && !PairedIn(k.pending[x], gone) :: k.pending[x],
          map x | x in k.narrowed && x !in gone && !PairedIn(k.narrowed[x], rewritten) :: k.narrowed[x],
          set x | x in k.names && x !in gone && !(x in k.narrowed && PairedIn(k.narrowed[x], rewritten)))
  }

  function Invalidate(k: Known, s: Stmt): Known {
    Forget(k, DeclaredIn(s), AssignedIn(s))
  }

  // ----- narrowing -----

  predicate Awaits(b: Binding, guardName: string, proof: NarrowState) {
    b.source == CondSource && b.guardName == guardName && b.guardNarrow == proof
  }

  /** Pending bindings whose guard has just been proved. */
  function Narrow(k: Known, guardName: string, proof: NarrowState): Known {
    var moved := map x | x in k.pending && Awaits(k.pending[x], guardName, proof) :: k.pending[x];
    Known(k.pending - moved.Keys, k.narrowed + moved, k.names + moved.Keys)
  }

  /** The local itself may be what was guarded. */
  function NarrowDirectly(k: Known, name: string, proof: NarrowState): Known {
    if name in k.pending && k.pending[name].narrow == proof
    then Known(k.pending - {name}, k.narrowed[name := k.pending[name]], k.names + {name})
    else k
  }

  /** After a guard that leaves, its opposite holds. */
  function Promote(k: Known, s: Stmt): Known {
    if s.If? && s.init == Done && ShortCircuits(s.body) && s.cond.Guard? then
      var proof := Opposite(s.cond.state);
      NarrowDirectly(Narrow(k, s.cond.name, proof), s.cond.name, proof)
    else k
  }

  // ----- recording -----

  predicate NonNilAt(c: Callee, lhs: seq<Target>, i: nat) {
    i < |c.nonNil| && c.nonNil[i] && i < |lhs| && lhs[i].Local? && lhs[i].name != "_"
  }

  /** The first n results of a call that are declared non-nil. */
  function RecordNonNil(k: Known, c: Callee, lhs: seq<Target>, n: nat): Known {
    if n == 0 then k
    else
      var before := RecordNonNil(k, c, lhs, n - 1);
      if !NonNilAt(c, lhs, n - 1) then before
      else
        var x := lhs[n - 1].name;
        before.(narrowed := before.narrowed[x := Binding(NilSource, NON_NIL, NON_NIL, "")], names := before.names + {x})
  }

  function LocalAt(lhs: seq<Target>, pos: Option<nat>): Option<string> {
    if pos.Some? && 1 <= pos.value <= |lhs| && lhs[pos.value - 1].Local? then Some(lhs[pos.value - 1].name) else None
  }

  /** The binding a rule makes of a call's results, with the local it binds. */
  function RuleBinding(c: Callee, lhs: seq<Target>, r: Rule): Option<(string, Binding)> {
    var shape := RuleShape(r);
    if shape.None? then None
    else
      var guardPos, targetPos := ReturnPosition(c, shape.value.guardRef), ReturnPosition(c, shape.value.targetRef);
      var guard, target := LocalAt(lhs, guardPos), LocalAt(lhs, targetPos);
      if guardPos == targetPos || guard.None? || target.None? || target.value == "_" then None
      else Some((target.value, Binding(CondSource, shape.value.targetNarrow, shape.value.guardNarrow, guard.value)))
  }

  /** The first n rules of a call's contract. */
  function RecordRules(k: Known, c: Callee, lhs: seq<Target>, n: nat): Known
    requires n <= |c.rules|
  {
    if n == 0 then k
    else
      var before := RecordRules(k, c, lhs, n - 1);
      var b := RuleBinding(c, lhs, c.rules[n - 1]);
      if b.None? || b.value.0 in before.narrowed || b.value.0 in before.pending then before
      else before.(pending := before.pending[b.value.0 := b.value.1])
  }

  function Record(k: Known, s: Stmt): Known {
    if s.Assign? && s.rhs.Call? then
      RecordRules(RecordNonNil(k, s.rhs.callee, s.lhs, |s.lhs|), s.rhs.callee, s.lhs, |s.rhs.callee.rules|)
    else k
  }

  // ----- scanning -----

  /** What is known where the if-body begins, and where its else does. */
  function Entering(k: Known, cond: Condition, taken: bool): Known {
    if cond.Guard? then Narrow(k, cond.name, if taken then cond.state else Opposite(cond.state)) else k
  }

  /** What the scan hands to an if's branches: as written, what it knows after
      the if; as intended, what it knows before. */
  function HandedDown(k: Known, s: Stmt, asWritten: bool): Known {
    if asWritten then Promote(Invalidate(k, s), s) else Invalidate(k, s)
  }

  function Next(k: Known, s: Stmt): Known {
    Record(Promote(Invalidate(k, s), s), s)
  }

  /** The block with a verdict on every guard. */
  function Scan(b: Block, k: Known, asWritten: bool): Block
    decreases b
  {
    match b
    case Done => Done
    case Then(s, tail) => Then(Judge(s, k, asWritten), Scan(tail, Next(k, s), asWritten))
  }

  function Judge(s: Stmt, k: Known, asWritten: bool): Stmt
    decreases s, 1
  {
    match s
    case If(Done, cond, body, alt, _) =>
      var down := HandedDown(k, s, asWritten);
      If(Done, cond, Scan(body, Entering(down, cond, true), asWritten),
         ScanElse(alt, Entering(down, cond, false), asWritten), Report(k, s))
    case _ => ScanFresh(s, asWritten)
  }

  function ScanElse(alt: Else, k: Known, asWritten: bool): Else
    decreases alt
  {
    match alt
    case NoElse => NoElse
    case ElseBlock(block) => ElseBlock(Scan(block, k, asWritten))
    case ElseIf(s) => ElseIf(ScanFresh(s, asWritten))
  }

  /** Blocks the scan meets on its own start from nothing. */
  function ScanFresh(s: Stmt, asWritten: bool): Stmt
    decreases s, 0
  {
    match s
    case If(init, cond, body, alt, _) =>
      If(init, cond, Scan(body, NOTHING_KNOWN, asWritten), ScanElse(alt, NOTHING_KNOWN, asWritten), Silent)
    case Nested(block) => Nested(Scan(block, NOTHING_KNOWN, asWritten))
    case _ => s
  }
}
