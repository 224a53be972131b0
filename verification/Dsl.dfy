/** The logical arrow rules of the contract language, and what they mean. */
module Dsl {
  import opened Options

  datatype RefKind = Ident | Dollar
  datatype StepKind = Field | Index | IdentKey | StringKey
  datatype Step = Step(kind: StepKind, name: string, index: int)
  datatype Reference = Reference(kind: RefKind, name: string, path: seq<Step>)

  datatype Op = Eq | Neq | Lt | Lte | Gt | Gte

  /** One alternative of a comparison's right-hand side. */
  datatype Member = Member(literal: string, isNil: bool)

  datatype ExprKind = NilCheck | Comparison | BareRef
  datatype Expression = Expression(kind: ExprKind, ref: Reference, op: Op, members: seq<Member>)

  datatype Direction = Structural | Imply | Equiv
  datatype Rule = Rule(direction: Direction, left: Option<Expression>, right: Option<Expression>)

  // ----- meaning -----

  datatype Value = Nil | Of(n: int)

  /** What literals denote, how values are ordered, and which values a bare
      reference accepts. */
  datatype Meaning = Meaning(literal: string -> Value, less: (Value, Value) -> bool, accepts: Value -> bool)

  type Valuation = Reference -> Value

  /** Of any two values exactly one comparison holds, as for integers and
      strings; floating-point NaN is outside. */
  ghost predicate Trichotomous(m: Meaning) {
    forall v: Value, w: Value ::
      && (m.less(v, w) || v == w || m.less(w, v))
      && !(m.less(v, w) && m.less(w, v)) && (v == w ==> !m.less(v, w))
  }

  function Denoted(m: Meaning, member: Member): Value {
    if member.isNil then Nil else m.literal(member.literal)
  }

  predicate Compares(m: Meaning, op: Op, v: Value, w: Value) {
    match op
    case Eq => v == w
    case Neq => v != w
    case Lt => m.less(v, w)
    case Lte => m.less(v, w) || v == w
    case Gt => m.less(w, v)
    case Gte => m.less(w, v) || v == w
  }

  /** `==` against a sum holds if some member is equal, every other operator if
      all members compare. */
  predicate Holds(m: Meaning, rho: Valuation, e: Expression) {
    match e.kind
    case NilCheck => Compares(m, e.op, rho(e.ref), Nil)
    case Comparison =>
      if e.op == Eq then exists i | 0 <= i < |e.members| :: Compares(m, Eq, rho(e.ref), Denoted(m, e.members[i]))
      else forall i | 0 <= i < |e.members| :: Compares(m, e.op, rho(e.ref), Denoted(m, e.members[i]))
    case BareRef => m.accepts(rho(e.ref))
  }

  predicate RuleHolds(m: Meaning, rho: Valuation, r: Rule) {
    r.left.Some? && r.right.Some? ==>
      match r.direction
      case Structural => true
      case Imply => Holds(m, rho, r.left.value) ==> Holds(m, rho, r.right.value)
      case Equiv => Holds(m, rho, r.left.value) <==> Holds(m, rho, r.right.value)
  }
}
