/** The two other readings of dominating guards: whether a nil comparison is
    decided, and the integer interval a parameter lies in. */
module GuardWalks {
  import opened Options
  import opened Cfg
  import opened Ssa
  import opened Narrow
  import opened NarrowSound

  // ----- nil comparisons -----

  datatype NilOp = OpEq | OpNeq

  /** What a guard on a nil comparison of v says about `v op nil` on one arm. */
  function GuardDecidesNil(f: Func, cond: Value, v: Value, thenArm: bool, op: NilOp): Option<bool>
    requires Sized(f) && IsValue(f, cond) && IsValue(f, v)
  {
    match f.defs[cond]
    case BinOp(cmp, _, _) =>
      if ReadOperand(f, cond, ValueSubject(v), FactNil).None? then None
      else if cmp == Eql then Some(thenArm == op.OpEq?)
      else if cmp == Neq then Some(thenArm == op.OpNeq?)
      else None
    case _ => None
  }

  /** cond compares v with a nil constant, on either side. */
  predicate ComparesNil(f: Func, cond: Value, v: Value)
    requires Sized(f) && IsValue(f, cond)
  {
    && f.defs[cond].BinOp?
    && (|| (f.defs[cond].x == v && f.defs[cond].y < |f.defs| && f.defs[f.defs[cond].y] == Const(NilV))
        || (f.defs[cond].y == v && f.defs[cond].x < |f.defs| && f.defs[f.defs[cond].x] == Const(NilV)))
  }

  /** A guard decides exactly when it compares the value with nil by `==` or
      `!=`; and then as v is nil or not on that arm. */
  lemma GuardDecidesExact(f: Func, cond: Value, v: Value, thenArm: bool, op: NilOp)
    requires Sized(f) && IsValue(f, cond) && IsValue(f, v)
    ensures GuardDecidesNil(f, cond, v, thenArm, op).Some? <==>
      ComparesNil(f, cond, v) && (f.defs[cond].op == Eql || f.defs[cond].op == Neq)
    ensures GuardDecidesNil(f, cond, v, thenArm, op).Some? ==>
      var isNil := (f.defs[cond].op == Eql) == thenArm;
      GuardDecidesNil(f, cond, v, thenArm, op).value == (isNil == op.OpEq?)
  {
    if f.defs[cond].BinOp? {
      var x, y := f.defs[cond].x, f.defs[cond].y;
      assert x == Operands(f.defs[cond])[0] && y == Operands(f.defs[cond])[1];
    }
  }

  /** The guard on host, for the arm that dominates block. */
  function NilGuardAt(f: Func, host: Block, block: Block, v: Value, op: NilOp): Option<bool>
    requires Sized(f) && IsValue(f, v) && IsBlock(f.g, host) && IsBlock(f.g, block)
  {
    if TerminatingIf(f, host).None? || DominantSide(f, host, block).None? then None
    else GuardDecidesNil(f, CondOf(f, host), v, DominantSide(f, host, block).value, op)
  }

  /** The first dominating guard that decides, with the decision. */
  function NilDecision(f: Func, cur: Block, block: Block, v: Value, op: NilOp): (d: Option<(Block, bool)>)
    requires Sized(f) && IsValue(f, v) && IsBlock(f.g, cur) && IsBlock(f.g, block)
    requires OnChain(f.g, cur, block)
    ensures d.Some? ==> IsBlock(f.g, d.value.0) && d.value.0 != block && OnChain(f.g, d.value.0, block)
    ensures d.Some? ==> NilGuardAt(f, d.value.0, block, v, op) == Some(d.value.1)
    decreases f.g.depth[cur]
  {
    match f.g.idom[cur]
    case None => None
    case Some(host) =>
      ChainStep(f.g, cur, block);
      ChainDepth(f.g, cur, block);
      match NilGuardAt(f, host, block, v, op)
      case Some(held) => Some((host, held))
      case None => NilDecision(f, host, block, v, op)
  }

  /** A branch above block compares v with nil, on a side that dominates block. */
  predicate NilComparedAt(f: Func, h: Block, block: Block, v: Value)
    requires Sized(f) && IsBlock(f.g, block)
  {
    && IsBlock(f.g, h) && TerminatingIf(f, h).Some? && DominantSide(f, h, block).Some?
    && ComparesNil(f, CondOf(f, h), v) && (f.defs[CondOf(f, h)].op == Eql || f.defs[CondOf(f, h)].op == Neq)
  }

  /** The walk decides exactly when some such branch lies on the way, and then by
      the nearest. */
  lemma {:induction false} NilDecisionExact(f: Func, cur: Block, block: Block, v: Value, op: NilOp)
    requires Sized(f) && IsValue(f, v) && IsBlock(f.g, cur) && IsBlock(f.g, block) && OnChain(f.g, cur, block)
    ensures var d := NilDecision(f, cur, block, v, op);
      && (d.Some? <==> exists h: Block :: h != cur && OnChain(f.g, h, cur) && NilComparedAt(f, h, block, v))
      && (d.Some? ==> NilComparedAt(f, d.value.0, block, v) && forall h: Block
            | h != cur && OnChain(f.g, h, cur) && NilComparedAt(f, h, block, v) :: OnChain(f.g, h, d.value.0))
    decreases f.g.depth[cur]
  {
    hide GuardDecidesNil, ComparesNil, DominantSide;
    if f.g.idom[cur].Some? {
      var host := f.g.idom[cur].value;
      ChainStep(f.g, cur, block);
      assert OnChain(f.g, host, host) && OnChain(f.g, host, cur);
      ChainDepth(f.g, host, cur);
      if TerminatingIf(f, host).Some? && DominantSide(f, host, block).Some? {
        GuardDecidesExact(f, CondOf(f, host), v, DominantSide(f, host, block).value, op);
      }
      assert NilGuardAt(f, host, block, v, op).Some? <==> NilComparedAt(f, host, block, v);
      NilDecisionExact(f, host, block, v, op);
      forall h: Block | h != cur && OnChain(f.g, h, cur)
        ensures OnChain(f.g, h, host)
      {
      }
      forall h: Block | OnChain(f.g, h, host)
        ensures h != cur && OnChain(f.g, h, cur)
      {
        ChainDepth(f.g, h, host);
      }
    }
  }

  method NarrowedByDominatingGuard(f: Func, v: Value, block: Block, op: NilOp) returns (d: Option<bool>)
    requires WellFormed(f) && IsValue(f, v) && IsBlock(f.g, block)
    ensures d == (match NilDecision(f, block, block, v, op) case Some(p) => Some(p.1) case None => None)
  {
    var cur := block;
    while true
      invariant IsBlock(f.g, cur) && OnChain(f.g, cur, block)
      invariant NilDecision(f, block, block, v, op) == NilDecision(f, cur, block, v, op)
      decreases f.g.depth[cur]
    {
      if f.g.idom[cur].None? {
        return None;
      }
      var host := f.g.idom[cur].value;
      ChainStep(f.g, cur, block);
      d := NilGuardAt(f, host, block, v, op);
      if d.Some? {
        return;
      }
      cur := host;
    }
  }

  /** A decided nil comparison has the decided truth on every run that enters
      the block, when some guard above that decides alike, the deciding one or
      another, has its arm to itself. */
  lemma NilDecisionSound(f: Func, v: Value, block: Block, op: NilOp, h: Block, r: seq<Step>, i: nat)
    requires WellFormed(f) && IsValue(f, v) && IsBlock(f.g, block) && ValidRun(f, r)
    requires i < |r| && r[i].block == block
    requires NilDecision(f, block, block, v, op).Some?
    requires IsBlock(f.g, h) && h != block && OnChain(f.g, h, block)
    requires NilGuardAt(f, h, block, v, op) == Some(NilDecision(f, block, block, v, op).value.1)
    requires ArmIsPrivate(f, h, block)
    ensures i > 0
    ensures NilDecision(f, block, block, v, op).value.1 == ((r[i - 1].env[v] == NilV) == op.OpEq?)
  {
    var held := NilDecision(f, block, block, v, op).value.1;
    var s := ValueSubject(v);
    var positive := held == op.OpEq?;
    assert GuardAccepted(f, h, block, s, FactNil, positive);
    var cells := ValueTrace(f, v, r, |r|);
    GuardCarries(f, h, block, s, FactNil, positive, r, cells, i);
    assert ValidCells(f, s, r[i - 1], cells[i - 1]);
  }

  // ----- integer intervals -----

  const MIN_INT64 := -0x8000_0000_0000_0000
  const MAX_INT64 := 0x7fff_ffff_ffff_ffff

  /** 64-bit two's-complement wrap-around. */
  function Wrap(n: int): (w: int)
    ensures MIN_INT64 <= w <= MAX_INT64
    ensures MIN_INT64 <= n <= MAX_INT64 ==> w == n
  {
    (n - MIN_INT64) % 0x1_0000_0000_0000_0000 + MIN_INT64
  }

  datatype Bound = Bound(lower: Option<int>, upper: Option<int>)

  predicate InBound(b: Bound, n: int) {
    && (b.lower.Some? ==> b.lower.value <= n)
    && (b.upper.Some? ==> n <= b.upper.value)
  }

  function Intersect(a: Bound, b: Bound): Bound {
    Bound(if b.lower.Some? && (a.lower.None? || b.lower.value > a.lower.value) then b.lower else a.lower,
          if b.upper.Some? && (a.upper.None? || b.upper.value < a.upper.value) then b.upper else a.upper)
  }

  lemma IntersectExact(a: Bound, b: Bound, n: int)
    ensures InBound(Intersect(a, b), n) <==> InBound(a, n) && InBound(b, n)
  {
  }

  /** Whether every member of the interval gives the comparison one answer. */
  function Implies(b: Bound, op: Op, n: int): Option<bool> {
    var below := b.upper.Some? && b.upper.value < n;
    var above := b.lower.Some? && b.lower.value > n;
    var atMost := b.upper.Some? && b.upper.value <= n;
    var atLeast := b.lower.Some? && b.lower.value >= n;
    var pinned := b.lower.Some? && b.upper.Some? && b.lower.value == b.upper.value && b.lower.value == n;
    match op
    case Lss => if below then Some(true) else if atLeast then Some(false) else None
    case Leq => if atMost then Some(true) else if above then Some(false) else None
    case Gtr => if above then Some(true) else if atMost then Some(false) else None
    case Geq => if atLeast then Some(true) else if below then Some(false) else None
    case Eql => if pinned then Some(true) else if above || below then Some(false) else None
    case Neq => if above || below then Some(true) else if pinned then Some(false) else None
    case OtherOp => None
  }

  /** On an interval with a member, the comparison is decided exactly when all
      members agree, and then as they all answer. */
  lemma ImpliesExact(b: Bound, op: Op, n: int, member: int, answer: bool)
    requires op != OtherOp && InBound(b, member)
    ensures Implies(b, op, n) == Some(answer) <==> forall m | InBound(b, m) :: CompareInts(op, m, n) == answer
  {
    if Implies(b, op, n) != Some(answer) {
      var lo := if b.lower.Some? then b.lower.value else if member < n then member - 1 else n - 1;
      var hi := if b.upper.Some? then b.upper.value else if member > n then member + 1 else n + 1;
      assert InBound(b, lo) && InBound(b, hi);
      assert InBound(b, n) || CompareInts(op, lo, n) == CompareInts(op, hi, n);
    }
  }

  /** The operator with the opposite answer. */
  function NegateOp(op: Op): Op {
    match op
    case Eql => Neq
    case Neq => Eql
    case Lss => Geq
    case Leq => Gtr
    case Gtr => Leq
    case Geq => Lss
    case OtherOp => OtherOp
  }

  /** The operator with the same answer for swapped operands. */
  function SwapOp(op: Op): Op {
    match op
    case Lss => Gtr
    case Leq => Geq
    case Gtr => Lss
    case Geq => Leq
    case _ => op
  }

  lemma OperatorsPreserveTruth(op: Op, a: int, b: int)
    requires op != OtherOp
    ensures CompareInts(SwapOp(op), b, a) == CompareInts(op, a, b)
    ensures CompareInts(NegateOp(op), a, b) == !CompareInts(op, a, b)
    ensures SwapOp(SwapOp(op)) == op && NegateOp(NegateOp(op)) == op
  {
  }

  /** Deciding a comparison and deciding its negation are the same question, so
      a contrapositive never commits where its source did not: exactly when no
      two tests of one operator can both succeed, which an interval with a
      member always grants and an empty one may not. */
  lemma NegationCommutes(b: Bound, op: Op, n: int)
    requires op != OtherOp
    ensures (Implies(b, NegateOp(op), n) == match Implies(b, op, n) case None => None case Some(a) => Some(!a))
      <==> !(b.lower.Some? && b.upper.Some? && b.upper.value < b.lower.value
             && match op
                case Lss | Geq => b.upper.value < n <= b.lower.value
                case Leq | Gtr => b.upper.value <= n < b.lower.value
                case _ => false)
  {
  }

  /** The interval a comparison with n proves on one arm. Bounds next to the
      literal wrap around at the ends of the 64-bit range. */
  function ArmBound(op: Op, n: int, thenArm: bool): Option<Bound> {
    match if thenArm then op else NegateOp(op)
    case Lss => Some(Bound(None, Some(Wrap(n - 1))))
    case Leq => Some(Bound(None, Some(n)))
    case Gtr => Some(Bound(Some(Wrap(n + 1)), None))
    case Geq => Some(Bound(Some(n), None))
    case Eql => Some(Bound(Some(n), Some(n)))
    case _ => None
  }

  function GuardBound(f: Func, cond: Value, v: Value, thenArm: bool): Option<Bound>
    requires Sized(f) && IsValue(f, cond) && IsValue(f, v)
  {
    match IntComparison(f, cond, v)
    case None => None
    case Some((op, n)) => ArmBound(op, n, thenArm)
  }

  predicate IsIntConst(f: Func, v: Value)
    requires IsValue(f, v)
  {
    f.defs[v].Const? && f.defs[v].constant.IntV? && MIN_INT64 <= f.defs[v].constant.n <= MAX_INT64
  }

  /** cond as a comparison of v, on the left, with an integer constant. */
  function IntComparison(f: Func, cond: Value, v: Value): Option<(Op, int)>
    requires Sized(f) && IsValue(f, cond) && IsValue(f, v)
  {
    match f.defs[cond]
    case BinOp(op, x, y) =>
      assert x == Operands(f.defs[cond])[0] && y == Operands(f.defs[cond])[1];
      if x == v && IsIntConst(f, y) then Some((op, f.defs[y].constant.n))
      else if y == v && IsIntConst(f, x) then Some((SwapOp(op), f.defs[x].constant.n))
      else None
    case _ => None
  }

  /** An integer of any Go integer type, the unsigned 64-bit ones included. */
  predicate IsMachineInt(v: Val) {
    v.IntV? && v.n >= MIN_INT64
  }

  lemma GuardBoundSound(f: Func, env: seq<Val>, cond: Value, v: Value, thenArm: bool)
    requires Sized(f) && |env| == |f.defs| && IsValue(f, cond) && IsValue(f, v)
    requires Law(f, env, cond) && HoldsConstants(f, Step(0, env))
    requires env[cond] == BoolV(thenArm) && IsMachineInt(env[v])
    requires GuardBound(f, cond, v, thenArm).Some?
    ensures InBound(GuardBound(f, cond, v, thenArm).value, env[v].n)
  {
    var x, y := f.defs[cond].x, f.defs[cond].y;
    assert x == Operands(f.defs[cond])[0] && y == Operands(f.defs[cond])[1];
    var c := if x == v && IsIntConst(f, y) then y else x;
    assert Law(f, env, c) && env[c] == f.defs[c].constant;
    assert env[v] == IntV(env[v].n) && env[c] == IntV(env[c].n);
    assert CompareInts(f.defs[cond].op, env[x].n, env[y].n) == thenArm;
  }

  /** A machine word of the signed 64-bit range. */
  predicate IsWord(n: int) {
    MIN_INT64 <= n <= MAX_INT64
  }

  /** cond compares v, on either side, with the integer constant n. */
  predicate ComparesWith(f: Func, cond: Value, v: Value, n: int)
    requires Sized(f) && IsValue(f, cond)
  {
    && f.defs[cond].BinOp? && IsWord(n)
    && (|| (f.defs[cond].x == v && f.defs[cond].y < |f.defs| && f.defs[f.defs[cond].y] == Const(IntV(n)))
        || (f.defs[cond].y == v && f.defs[cond].x < |f.defs| && f.defs[f.defs[cond].x] == Const(IntV(n))))
  }

  /** What the comparison says with m in v's place. */
  predicate SaysOf(f: Func, cond: Value, v: Value, n: int, m: int)
    requires Sized(f) && IsValue(f, cond) && ComparesWith(f, cond, v, n)
  {
    if f.defs[cond].x == v && f.defs[f.defs[cond].y] == Const(IntV(n)) then CompareInts(f.defs[cond].op, m, n)
    else CompareInts(f.defs[cond].op, n, m)
  }

  /** The arm says something an interval can: not `!=`, and by one of the six
      operators. */
  predicate Bounds(op: Op, thenArm: bool) {
    op != OtherOp && !(op == Eql && !thenArm) && !(op == Neq && thenArm)
  }

  /** A guard gives an interval exactly when it compares v with a 64-bit integer
      constant and its arm says something an interval can; and the interval then
      holds exactly the words the arm leaves, or every word if it leaves none. */
  lemma GuardBoundExact(f: Func, cond: Value, v: Value, thenArm: bool)
    requires Sized(f) && IsValue(f, cond) && IsValue(f, v) && !f.defs[v].Const?
    ensures GuardBound(f, cond, v, thenArm).Some? <==>
      (exists n :: ComparesWith(f, cond, v, n)) && Bounds(f.defs[cond].op, thenArm)
    ensures forall n, m | ComparesWith(f, cond, v, n) && Bounds(f.defs[cond].op, thenArm) && IsWord(m) ::
      InBound(GuardBound(f, cond, v, thenArm).value, m) <==> Leaves(f, cond, v, n, thenArm, m)
  {
    if f.defs[cond].BinOp? {
      var x, y := f.defs[cond].x, f.defs[cond].y;
      assert x == Operands(f.defs[cond])[0] && y == Operands(f.defs[cond])[1];
      forall n | ComparesWith(f, cond, v, n)
        ensures IntComparison(f, cond, v) == Some((if x == v then f.defs[cond].op else SwapOp(f.defs[cond].op), n))
        ensures GuardBound(f, cond, v, thenArm).Some? <==> Bounds(f.defs[cond].op, thenArm)
      {
      }
      forall n, m | ComparesWith(f, cond, v, n) && Bounds(f.defs[cond].op, thenArm) && IsWord(m)
        ensures InBound(GuardBound(f, cond, v, thenArm).value, m) <==> Leaves(f, cond, v, n, thenArm, m)
      {
        ArmBoundExact(if x == v then f.defs[cond].op else SwapOp(f.defs[cond].op), n, thenArm, m);
      }
      if IntComparison(f, cond, v).Some? {
        assert ComparesWith(f, cond, v, IntComparison(f, cond, v).value.1);
      }
    }
  }

  /** The arm leaves m possible, or, at the end of the range, no word at all. */
  predicate Leaves(f: Func, cond: Value, v: Value, n: int, thenArm: bool, m: int)
    requires Sized(f) && IsValue(f, cond) && ComparesWith(f, cond, v, n)
  {
    SaysOf(f, cond, v, n, m) == thenArm || LeavesNone(f, cond, v, n, thenArm)
  }

  /** `v < n` at the least word and `v > n` at the greatest, however written. */
  predicate LeavesNone(f: Func, cond: Value, v: Value, n: int, thenArm: bool)
    requires Sized(f) && IsValue(f, cond) && ComparesWith(f, cond, v, n)
  {
    && (n == MIN_INT64 || n == MAX_INT64)
    && SaysOf(f, cond, v, n, MIN_INT64) != thenArm && SaysOf(f, cond, v, n, MAX_INT64) != thenArm
  }

  lemma ArmBoundExact(op: Op, n: int, thenArm: bool, m: int)
    requires Bounds(op, thenArm) && IsWord(n) && IsWord(m)
    ensures var b := ArmBound(op, n, thenArm);
      b.Some? && (InBound(b.value, m) <==>
        || CompareInts(op, m, n) == thenArm
        || ((n == MIN_INT64 || n == MAX_INT64)
            && CompareInts(op, MIN_INT64, n) != thenArm && CompareInts(op, MAX_INT64, n) != thenArm))
  {
  }

  /** The guard above cur, if it bounds v, asked about cur itself. */
  function BoundAt(f: Func, host: Block, cur: Block, v: Value): Option<Bound>
    requires Sized(f) && IsValue(f, v) && IsBlock(f.g, host) && IsBlock(f.g, cur)
  {
    if TerminatingIf(f, host).None? || DominantSide(f, host, cur).None? then None
    else GuardBound(f, CondOf(f, host), v, DominantSide(f, host, cur).value)
  }

  function Meet(acc: Bound, next: Option<Bound>): Bound {
    if next.Some? then Intersect(acc, next.value) else acc
  }

  /** The interval gathered on the way up from cur. */
  function RangeFrom(f: Func, cur: Block, v: Value, acc: Bound): Bound
    requires Sized(f) && IsValue(f, v) && IsBlock(f.g, cur)
    decreases f.g.depth[cur]
  {
    match f.g.idom[cur]
    case None => acc
    case Some(host) => RangeFrom(f, host, v, Meet(acc, BoundAt(f, host, cur, v)))
  }

  method AccumulateRange(f: Func, v: Value, block: Block) returns (bound: Bound)
    requires Sized(f) && IsValue(f, v) && IsBlock(f.g, block)
    ensures bound == RangeFrom(f, block, v, Bound(None, None))
  {
    bound := Bound(None, None);
    var cur := block;
    while f.g.idom[cur].Some?
      invariant IsBlock(f.g, cur)
      invariant RangeFrom(f, cur, v, bound) == RangeFrom(f, block, v, Bound(None, None))
      decreases f.g.depth[cur]
    {
      var host := f.g.idom[cur].value;
      if TerminatingIf(f, host).Some? {
        var side := DominantSide(f, host, cur);
        if side.Some? {
          var guard := GuardBound(f, CondOf(f, host), v, side.value);
          if guard.Some? {
            bound := Intersect(bound, guard.value);
          }
        }
      }
      cur := host;
    }
  }

  /** What the walk gathers from guards whose arms are theirs alone. */
  ghost function PrivateBound(f: Func, host: Block, cur: Block, v: Value): Option<Bound>
    requires Sized(f) && IsValue(f, v) && IsBlock(f.g, host) && IsBlock(f.g, cur)
  {
    if BoundAt(f, host, cur, v).Some? && ArmIsPrivate(f, host, cur) then BoundAt(f, host, cur, v) else None
  }

  ghost function PrivateRangeFrom(f: Func, cur: Block, v: Value, acc: Bound): Bound
    requires Sized(f) && IsValue(f, v) && IsBlock(f.g, cur)
    decreases f.g.depth[cur]
  {
    match f.g.idom[cur]
    case None => acc
    case Some(host) => PrivateRangeFrom(f, host, v, Meet(acc, PrivateBound(f, host, cur, v)))
  }

  /** The guard above step c of the walk from block bounds v. */
  predicate BoundsOn(f: Func, c: Block, block: Block, v: Value)
    requires Sized(f) && IsValue(f, v) && IsBlock(f.g, block)
  {
    IsBlock(f.g, c) && OnChain(f.g, c, block) && f.g.idom[c].Some? && BoundAt(f, f.g.idom[c].value, c, v).Some?
  }

  /** The accumulated interval is the meet of all bounds on the way up. */
  lemma {:induction false} RangeIsMeet(f: Func, v: Value, cur: Block, acc: Bound, n: int)
    requires Sized(f) && IsValue(f, v) && IsBlock(f.g, cur)
    ensures InBound(RangeFrom(f, cur, v, acc), n) <==>
      InBound(acc, n) && forall c: Block | BoundsOn(f, c, cur, v) ::
        InBound(BoundAt(f, f.g.idom[c].value, c, v).value, n)
    decreases f.g.depth[cur]
  {
    hide BoundAt, InBound;
    if f.g.idom[cur].Some? {
      var host := f.g.idom[cur].value;
      var bound := BoundAt(f, host, cur, v);
      RangeIsMeet(f, v, host, Meet(acc, bound), n);
      if bound.Some? {
        IntersectExact(acc, bound.value, n);
        assert BoundsOn(f, cur, cur, v);
      }
      assert forall c: Block | BoundsOn(f, c, host, v) :: BoundsOn(f, c, cur, v);
    }
  }

  /** Above step c of the walk from block a branch compares v with the constant
      n, and the side that dominates c bounds it. */
  predicate ComparedAbove(f: Func, c: Block, block: Block, v: Value, n: int)
    requires Sized(f) && IsValue(f, v) && IsBlock(f.g, block)
  {
    && IsBlock(f.g, c) && OnChain(f.g, c, block) && f.g.idom[c].Some?
    && var host := f.g.idom[c].value;
    && TerminatingIf(f, host).Some? && DominantSide(f, host, c).Some?
    && ComparesWith(f, CondOf(f, host), v, n) && Bounds(f.defs[CondOf(f, host)].op, DominantSide(f, host, c).value)
  }

  predicate LeftByGuard(f: Func, c: Block, block: Block, v: Value, n: int, m: int)
    requires Sized(f) && IsValue(f, v) && IsBlock(f.g, block) && ComparedAbove(f, c, block, v, n)
  {
    var host := f.g.idom[c].value;
    Leaves(f, CondOf(f, host), v, n, DominantSide(f, host, c).value, m)
  }

  /** The accumulated interval holds exactly the words that every comparison on
      the way up leaves possible on the side that dominates. */
  lemma RangeExact(f: Func, v: Value, block: Block, m: int)
    requires Sized(f) && IsValue(f, v) && !f.defs[v].Const? && IsBlock(f.g, block) && IsWord(m)
    ensures InBound(RangeFrom(f, block, v, Bound(None, None)), m) <==>
      forall c: Block, n: int | ComparedAbove(f, c, block, v, n) :: LeftByGuard(f, c, block, v, n, m)
  {
    hide Leaves, GuardBound, ComparesWith, Bounds, OnChain, DominantSide, RangeFrom;
    RangeIsMeet(f, v, block, Bound(None, None), m);
    forall c: Block
      ensures BoundsOn(f, c, block, v) <==> exists n: int :: ComparedAbove(f, c, block, v, n)
      ensures forall n: int | ComparedAbove(f, c, block, v, n) ::
        BoundsOn(f, c, block, v)
        && (InBound(BoundAt(f, f.g.idom[c].value, c, v).value, m) <==> LeftByGuard(f, c, block, v, n, m))
    {
      StepExact(f, v, c, block, m);
    }
  }

  lemma StepExact(f: Func, v: Value, c: Block, block: Block, m: int)
    requires Sized(f) && IsValue(f, v) && !f.defs[v].Const? && IsBlock(f.g, block) && IsWord(m)
    ensures BoundsOn(f, c, block, v) <==> exists n: int :: ComparedAbove(f, c, block, v, n)
    ensures forall n: int | ComparedAbove(f, c, block, v, n) ::
      BoundsOn(f, c, block, v)
      && (InBound(BoundAt(f, f.g.idom[c].value, c, v).value, m) <==> LeftByGuard(f, c, block, v, n, m))
  {
    hide Leaves, GuardBound, ComparesWith, Bounds, OnChain, DominantSide, InBound;
    if IsBlock(f.g, c) && f.g.idom[c].Some? {
      var host := f.g.idom[c].value;
      if TerminatingIf(f, host).Some? && DominantSide(f, host, c).Some? {
        GuardBoundExact(f, CondOf(f, host), v, DominantSide(f, host, c).value);
        if n: int :| ComparesWith(f, CondOf(f, host), v, n) && BoundsOn(f, c, block, v) {
          assert ComparedAbove(f, c, block, v, n);
        }
      }
    }
  }

  /** The private one keeps to the bounds of guards with arms of their own. */
  lemma {:induction false} PrivateRangeKeeps(f: Func, v: Value, cur: Block, acc: Bound, n: int)
    requires Sized(f) && IsValue(f, v) && IsBlock(f.g, cur) && InBound(PrivateRangeFrom(f, cur, v, acc), n)
    ensures InBound(acc, n)
    ensures forall c: Block | BoundsOn(f, c, cur, v) && PrivateBound(f, f.g.idom[c].value, c, v).Some? ::
      InBound(BoundAt(f, f.g.idom[c].value, c, v).value, n)
    decreases f.g.depth[cur]
  {
    hide BoundAt, InBound, ArmIsPrivate;
    if f.g.idom[cur].Some? {
      var host := f.g.idom[cur].value;
      var bound := PrivateBound(f, host, cur, v);
      PrivateRangeKeeps(f, v, host, Meet(acc, bound), n);
      if bound.Some? {
        IntersectExact(acc, bound.value, n);
      }
    }
  }

  /** On every run that reaches the block, the parameter lies in the interval
      gathered from guards with arms of their own. */
  lemma {:induction false} RangeSound(f: Func, v: Value, cur: Block, acc: Bound, block: Block, r: seq<Step>, i: nat,
                                      j: nat)
    requires WellFormed(f) && IsValue(f, v) && f.defs[v].Param?
    requires IsBlock(f.g, cur) && IsBlock(f.g, block) && Dom(f.g, cur, block)
    requires ValidRun(f, r) && i < |r| && r[i].block == block
    requires j <= i && r[j].block == cur
    requires IsMachineInt(r[i].env[v]) && InBound(acc, r[i].env[v].n)
    ensures InBound(PrivateRangeFrom(f, cur, v, acc), r[i].env[v].n)
    decreases f.g.depth[cur]
  {
    if cur != 0 {
      var host := f.g.idom[cur].value;
      assert IsIdom(f.g, host, cur);
      var m := Visited(f, r, host, j);
      DomTransitive(f.g, host, cur, block);
      if PrivateBound(f, host, cur, v).Some? {
        Unchanged(f, r, v, m, i);
        BoundHolds(f, v, host, cur, r, m, j);
        IntersectExact(acc, BoundAt(f, host, cur, v).value, r[i].env[v].n);
      }
      RangeSound(f, v, host, Meet(acc, PrivateBound(f, host, cur, v)), block, r, i, m);
    }
  }

  lemma BoundHolds(f: Func, v: Value, host: Block, cur: Block, r: seq<Step>, m: nat, j: nat)
    requires WellFormed(f) && IsValue(f, v) && ValidRun(f, r)
    requires IsBlock(f.g, host) && IsBlock(f.g, cur) && host != cur
    requires m <= j < |r| && r[m].block == host && r[j].block == cur
    requires forall k | m < k <= j :: r[k].block != host
    requires BoundAt(f, host, cur, v).Some? && ArmIsPrivate(f, host, cur)
    requires IsMachineInt(r[m].env[v])
    ensures InBound(BoundAt(f, host, cur, v).value, r[m].env[v].n)
  {
    var side := DominantSide(f, host, cur).value;
    var arm := Arm(f, host, side);
    ChainIsDominance(f.g, arm, cur);
    LeavesByArm(f.g, host, arm, Path(r), m, j);
    assert StepsTo(f, r, m + 1);
    CondLiveOut(f, host);
    LawPersists(f, r, CondOf(f, host), m);
    forall c | 0 <= c < |f.defs| && f.defs[c].Const?
      ensures Law(f, r[m].env, c)
    {
      LawPersists(f, r, c, m);
    }
    GuardBoundSound(f, r[m].env, CondOf(f, host), v, side);
  }

  ghost function PrivateRange(f: Func, block: Block, v: Value): Bound
    requires Sized(f) && IsValue(f, v) && IsBlock(f.g, block)
  {
    PrivateRangeFrom(f, block, v, Bound(None, None))
  }

  /** Every run that reaches the block has the parameter in the private
      interval, whatever merge guards there are above. */
  lemma PrivateRangeSound(f: Func, v: Value, block: Block, r: seq<Step>, i: nat)
    requires WellFormed(f) && IsValue(f, v) && f.defs[v].Param? && IsBlock(f.g, block)
    requires ValidRun(f, r) && i < |r| && r[i].block == block && IsMachineInt(r[i].env[v])
    ensures InBound(PrivateRange(f, block, v), r[i].env[v].n)
  {
    RangeSound(f, v, block, Bound(None, None), block, r, i, i);
  }

  /** What a guard with a shared arm adds, the other guards imply. */
  ghost predicate SharedBoundsImplied(f: Func, block: Block, v: Value)
    requires Sized(f) && IsValue(f, v) && IsBlock(f.g, block)
  {
    forall c: Block, n: int | BoundsOn(f, c, block, v) && PrivateBound(f, f.g.idom[c].value, c, v).None? ::
      InBound(PrivateRange(f, block, v), n) ==> InBound(BoundAt(f, f.g.idom[c].value, c, v).value, n)
  }

  lemma AnyInBound(n: int)
    ensures InBound(Bound(None, None), n)
  {
  }

  /** That is exactly when the accumulated interval claims no more than the
      private one. */
  lemma SharedBoundsImpliedIff(f: Func, block: Block, v: Value)
    requires Sized(f) && IsValue(f, v) && IsBlock(f.g, block)
    ensures SharedBoundsImplied(f, block, v) <==>
      forall n: int | InBound(PrivateRange(f, block, v), n) :: InBound(RangeFrom(f, block, v, Bound(None, None)), n)
  {
    hide InBound, BoundAt, PrivateBound;
    forall n: int
      ensures InBound(RangeFrom(f, block, v, Bound(None, None)), n) <==>
        forall c: Block | BoundsOn(f, c, block, v) :: InBound(BoundAt(f, f.g.idom[c].value, c, v).value, n)
    {
      RangeIsMeet(f, v, block, Bound(None, None), n);
      AnyInBound(n);
    }
    forall n: int | InBound(PrivateRange(f, block, v), n)
      ensures forall c: Block | BoundsOn(f, c, block, v) && PrivateBound(f, f.g.idom[c].value, c, v).Some? ::
        InBound(BoundAt(f, f.g.idom[c].value, c, v).value, n)
    {
      PrivateRangeKeeps(f, v, block, Bound(None, None), n);
    }
  }

  /** On every run that reaches the block, the parameter lies in the interval
      the walk accumulated, when guards with shared arms add nothing to it. */
  lemma AccumulatedRangeSound(f: Func, v: Value, block: Block, r: seq<Step>, i: nat)
    requires WellFormed(f) && IsValue(f, v) && f.defs[v].Param? && IsBlock(f.g, block)
    requires ValidRun(f, r) && i < |r| && r[i].block == block && IsMachineInt(r[i].env[v])
    requires SharedBoundsImplied(f, block, v)
    ensures InBound(RangeFrom(f, block, v, Bound(None, None)), r[i].env[v].n)
  {
    PrivateRangeSound(f, v, block, r, i);
    SharedBoundsImpliedIff(f, block, v);
  }

  /** Asking which arm dominates the block under question and asking which
      dominates the step of the walk pick the same arm, so the two walks read
      every guard alike. */
  lemma WalksAgree(f: Func, cur: Block, block: Block)
    requires WellFormed(f) && IsBlock(f.g, cur) && IsBlock(f.g, block)
    requires cur != 0 && Dom(f.g, cur, block)
    ensures DominantSide(f, f.g.idom[cur].value, block) == DominantSide(f, f.g.idom[cur].value, cur)
  {
    var host := f.g.idom[cur].value;
    forall k | 0 <= k < |f.g.succs[host]|
      ensures OnChain(f.g, f.g.succs[host][k], block) <==> OnChain(f.g, f.g.succs[host][k], cur)
    {
      var s := f.g.succs[host][k];
      ChainIsDominance(f.g, s, block);
      ChainIsDominance(f.g, s, cur);
      ArmQuestionsAgree(f.g, cur, block, s);
    }
  }
}
