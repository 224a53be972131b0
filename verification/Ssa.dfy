/** SSA functions over a control-flow graph, and the runs they admit. */
module Ssa {
  import opened Options
  import opened Cfg

  type Value = nat

  datatype Val =
    | NilV
    | RefV(id: nat)
    | IntV(n: int)
    | StrV(s: string)
    | BoolV(b: bool)
    | FloatV(r: real)
    | TupleV(ok: bool)

  datatype Op = Eql | Neq | Lss | Leq | Gtr | Geq | OtherOp

  /** How a value is computed. `Outside` covers parameters of no interest here,
      globals and free variables; `Opaque` covers every instruction the guards
      do not look into. */
  datatype Def =
    | Const(constant: Val)
    | Param(index: nat)
    | Outside
    | BinOp(op: Op, x: Value, y: Value)
    | Call(callee: Value, args: seq<Value>, errorsAs: bool)
    | TypeAssert(operand: Value, commaOk: bool)
    | Extract(tuple: Value, index: nat)
    | FieldAddr(base: Value, field: nat)
    | Load(addr: Value)
    | Alloc
    | Make
    | Phi(edges: seq<Value>)
    | Opaque

  /** `Spawn` is a `go` or `defer`: a call instruction that is not a value. */
  datatype Instr =
    | Define(value: Value)
    | Store(addr: Value, val: Value)
    | Spawn(fn: Value, passed: seq<Value>)
    | If(cond: Value)
    | Effect

  datatype Pos = Pos(block: Block, index: nat)

  /** `at[v]` is where value v is computed; constants, parameters and outside
      values are computed nowhere. */
  datatype Func = Func(g: Graph, defs: seq<Def>, at: seq<Option<Pos>>, code: seq<seq<Instr>>)

  predicate IsValue(f: Func, v: Value) {
    v < |f.defs|
  }

  predicate IsPos(f: Func, p: Pos) {
    p.block < |f.code| && p.index < |f.code[p.block]|
  }

  function InstrAt(f: Func, p: Pos): Instr
    requires IsPos(f, p)
  {
    f.code[p.block][p.index]
  }

  /** The values an instruction reads to compute v. A phi reads along edges. */
  function Operands(d: Def): seq<Value> {
    match d
    case BinOp(_, x, y) => [x, y]
    case Call(callee, args, _) => [callee] + args
    case TypeAssert(x, _) => [x]
    case Extract(t, _) => [t]
    case FieldAddr(b, _) => [b]
    case Load(a) => [a]
    case _ => []
  }

  function InstrOperands(i: Instr): seq<Value> {
    match i
    case Define(_) => []
    case Store(a, v) => [a, v]
    case Spawn(fn, args) => [fn] + args
    case If(c) => [c]
    case Effect => []
  }

  /** The branch that ends block b, if one does. */
  function TerminatingIf(f: Func, b: Block): Option<Value>
    requires b < |f.code|
  {
    var n := |f.code[b]|;
    if n > 0 && f.code[b][n - 1].If? then Some(f.code[b][n - 1].cond) else None
  }

  /** v is computed before position p on every run that reaches p. */
  ghost predicate ComputedBefore(f: Func, v: Value, p: Pos)
    requires |f.at| == |f.defs| && IsValue(f, v)
  {
    match f.at[v]
    case None => true
    case Some(q) =>
      if q.block == p.block then q.index < p.index else Dom(f.g, q.block, p.block)
  }

  /** v is available at the end of block b. */
  ghost predicate LiveOut(f: Func, v: Value, b: Block)
    requires |f.at| == |f.defs| && IsValue(f, v)
  {
    f.at[v].None? || Dom(f.g, f.at[v].value.block, b)
  }

  predicate ValuesPlaced(f: Func) {
    forall v | 0 <= v < |f.at| && f.at[v].Some? ::
      IsPos(f, f.at[v].value) && InstrAt(f, f.at[v].value) == Define(v)
  }

  predicate OperandsInRange(f: Func) {
    && (forall v, k | 0 <= v < |f.defs| && 0 <= k < |Operands(f.defs[v])| :: Operands(f.defs[v])[k] < |f.defs|)
    && (forall v, k | 0 <= v < |f.defs| && f.defs[v].Phi? && 0 <= k < |f.defs[v].edges| ::
          f.defs[v].edges[k] < |f.defs|)
  }

  predicate CodeInRange(f: Func) {
    forall b, k | 0 <= b < |f.code| && 0 <= k < |f.code[b]| ::
      && (forall o | o in InstrOperands(f.code[b][k]) :: o < |f.defs|)
      && (f.code[b][k].Define? ==>
            f.code[b][k].value < |f.defs| && f.code[b][k].value < |f.at|
            && f.at[f.code[b][k].value] == Some(Pos(b, k)))
  }

  predicate Sized(f: Func) {
    && Shaped(f.g)
    && |f.at| == |f.defs| && |f.code| == |f.g.succs|
    && ValuesPlaced(f) && OperandsInRange(f) && CodeInRange(f)
  }

  predicate HasNoPosition(d: Def) {
    d.Const? || d.Param? || d.Outside?
  }

  ghost predicate OperandsFirst(f: Func)
    requires Sized(f)
  {
    forall v, k | 0 <= v < |f.defs| && f.at[v].Some? && 0 <= k < |Operands(f.defs[v])| ::
      ComputedBefore(f, Operands(f.defs[v])[k], f.at[v].value)
  }

  ghost predicate UsesLater(f: Func)
    requires Sized(f)
  {
    forall b, k, o | 0 <= b < |f.code| && 0 <= k < |f.code[b]| && o in InstrOperands(f.code[b][k]) ::
      ComputedBefore(f, o, Pos(b, k))
  }

  ghost predicate PhisFit(f: Func)
    requires Sized(f)
  {
    forall v, k | 0 <= v < |f.defs| && f.defs[v].Phi? && f.at[v].Some? && 0 <= k < |f.defs[v].edges| ::
      && |f.defs[v].edges| == |f.g.preds[f.at[v].value.block]|
      && LiveOut(f, f.defs[v].edges[k], f.g.preds[f.at[v].value.block][k])
  }

  predicate BranchesFork(f: Func)
    requires Sized(f)
  {
    forall b | 0 <= b < |f.code| && TerminatingIf(f, b).Some? ::
      |f.g.succs[b]| == 2 && f.g.succs[b][0] != f.g.succs[b][1]
  }

  /** SSA form: one definition a value, definitions before uses, a phi operand
      available at the end of the predecessor it comes from, and a branch with
      two distinct arms. */
  ghost predicate WellFormed(f: Func) {
    && Sized(f)
    && Wf(f.g)
    && (forall v | 0 <= v < |f.defs| :: f.at[v].None? <==> HasNoPosition(f.defs[v]))
    && OperandsFirst(f)
    && UsesLater(f)
    && PhisFit(f)
    && BranchesFork(f)
  }

  // ----- runs -----

  /** One block of a run, with what every value holds at the block's end. */
  datatype Step = Step(block: Block, env: seq<Val>)

  function Path(r: seq<Step>): (p: seq<Block>)
    ensures |p| == |r| && (forall i | 0 <= i < |r| :: p[i] == r[i].block)
  {
    seq(|r|, i requires 0 <= i < |r| => r[i].block)
  }

  predicate SameKind(a: Val, b: Val) {
    match a
    case NilV | RefV(_) => b.NilV? || b.RefV?
    case IntV(_) => b.IntV?
    case StrV(_) => b.StrV?
    case BoolV(_) => b.BoolV?
    case FloatV(_) => b.FloatV?
    case TupleV(_) => b.TupleV?
  }

  predicate CompareInts(op: Op, a: int, b: int) {
    match op
    case Eql => a == b
    case Neq => a != b
    case Lss => a < b
    case Leq => a <= b
    case Gtr => a > b
    case Geq => a >= b
    case OtherOp => false
  }

  /** What executing v's instruction guarantees about v and its operands. */
  predicate Law(f: Func, env: seq<Val>, v: Value)
    requires Sized(f) && |env| == |f.defs| && IsValue(f, v)
  {
    match f.defs[v]
    case Const(c) => env[v] == c
    case BinOp(op, x, y) =>
      assert x == Operands(f.defs[v])[0] && y == Operands(f.defs[v])[1];
      if op == Eql then SameKind(env[x], env[y]) && env[v] == BoolV(env[x] == env[y])
      else if op == Neq then SameKind(env[x], env[y]) && env[v] == BoolV(env[x] != env[y])
      else op != OtherOp && env[x].IntV? && env[y].IntV? ==> env[v] == BoolV(CompareInts(op, env[x].n, env[y].n))
    case Call(_, args, errorsAs) =>
      assert forall k | 0 <= k < |args| :: args[k] == Operands(f.defs[v])[k + 1];
      errorsAs && |args| > 0 && env[v] == BoolV(true) ==> env[args[0]] != NilV
    case TypeAssert(x, commaOk) =>
      assert x == Operands(f.defs[v])[0];
      commaOk ==> env[v].TupleV? && (env[v].ok ==> env[x] != NilV)
    case Extract(t, index) =>
      assert t == Operands(f.defs[v])[0];
      index == 1 && f.defs[t].TypeAssert? && f.defs[t].commaOk && env[t].TupleV? ==> env[v] == BoolV(env[t].ok)
    case FieldAddr(_, _) => env[v] != NilV
    case Alloc => env[v] != NilV
    case Make => env[v] != NilV
    case _ => true
  }

  predicate Rechosen(f: Func, v: Value, b: Block)
    requires Sized(f) && IsValue(f, v)
  {
    f.at[v].Some? && f.at[v].value.block == b
  }

  /** Executing a block leaves every value computed elsewhere alone. */
  ghost predicate Frames(f: Func, before: Step, after: Step)
    requires Sized(f) && |before.env| == |f.defs| == |after.env|
  {
    forall v | 0 <= v < |f.defs| && !Rechosen(f, v, after.block) :: after.env[v] == before.env[v]
  }

  /** A phi takes the operand of the edge by which its block was entered. */
  ghost predicate TakesEdges(f: Func, before: Step, after: Step)
    requires Sized(f) && |before.env| == |f.defs| == |after.env|
    requires IsBlock(f.g, after.block)
  {
    forall v | 0 <= v < |f.defs| && f.defs[v].Phi? && Rechosen(f, v, after.block) ::
      PhiTakesEdge(f, v, before.block, before.env, after.env)
  }

  ghost predicate PhiTakesEdge(f: Func, v: Value, from: Block, before: seq<Val>, after: seq<Val>)
    requires Sized(f) && IsValue(f, v) && f.defs[v].Phi? && f.at[v].Some?
    requires |before| == |f.defs| == |after|
  {
    exists k :: 0 <= k < |f.defs[v].edges| && k < |f.g.preds[f.at[v].value.block]|
      && f.g.preds[f.at[v].value.block][k] == from && after[v] == before[f.defs[v].edges[k]]
  }

  /** A branch goes where its condition says. */
  ghost predicate Branches(f: Func, before: Step, after: Step)
    requires Sized(f) && |before.env| == |f.defs| && IsBlock(f.g, before.block)
  {
    TerminatingIf(f, before.block).Some? ==>
      && var c := TerminatingIf(f, before.block).value;
      && |f.g.succs[before.block]| == 2 && c < |f.defs| && before.env[c].BoolV?
      && after.block == f.g.succs[before.block][if before.env[c].b then 0 else 1]
  }

  ghost predicate StepsTo(f: Func, r: seq<Step>, i: nat)
    requires Sized(f) && 0 < i < |r|
    requires |r[i - 1].env| == |f.defs| == |r[i].env|
    requires IsBlock(f.g, r[i - 1].block) && IsBlock(f.g, r[i].block)
  {
    && Frames(f, r[i - 1], r[i])
    && TakesEdges(f, r[i - 1], r[i])
    && Branches(f, r[i - 1], r[i])
  }

  ghost predicate ObeysLaws(f: Func, s: Step)
    requires Sized(f) && |s.env| == |f.defs|
  {
    forall v | 0 <= v < |f.defs| && Rechosen(f, v, s.block) :: Law(f, s.env, v)
  }

  ghost predicate HoldsConstants(f: Func, s: Step)
    requires Sized(f) && |s.env| == |f.defs|
  {
    forall v | 0 <= v < |f.defs| && f.defs[v].Const? :: Law(f, s.env, v)
  }

  /** A run from the entry: it follows edges, a branch goes where its condition
      says, a value changes only when its block executes, and what a block
      executes obeys the laws. Any number of loop iterations is a run. */
  ghost predicate ValidRun(f: Func, r: seq<Step>)
    requires Sized(f)
  {
    && IsPath(f.g.succs, Path(r)) && r[0].block == 0
    && (forall i | 0 <= i < |r| :: |r[i].env| == |f.defs| && IsBlock(f.g, r[i].block) && ObeysLaws(f, r[i]))
    && HoldsConstants(f, r[0])
    && (forall i: nat | 0 < i < |r| :: StepsTo(f, r, i))
  }

  // ----- what survives along a run -----

  /** A dominator of the block at step i has been executed by then. */
  lemma Visited(f: Func, r: seq<Step>, d: Block, i: nat) returns (m: nat)
    requires WellFormed(f) && ValidRun(f, r) && i < |r| && Dom(f.g, d, r[i].block)
    ensures m <= i && r[m].block == d
    ensures forall k | m < k <= i :: r[k].block != d
  {
    var p := Path(r);
    Cut(f.g.succs, p, 0, i);
    var q := p[0..i + 1];
    m := LastIndex(q, d);
    assert forall k | m < k <= i :: q[k] == r[k].block;
  }

  lemma {:induction false} Unchanged(f: Func, r: seq<Step>, v: Value, m: nat, i: nat)
    requires Sized(f) && ValidRun(f, r) && IsValue(f, v) && m <= i < |r|
    requires forall k | m < k <= i :: !Rechosen(f, v, r[k].block)
    ensures r[i].env[v] == r[m].env[v]
  {
    if m < i {
      Unchanged(f, r, v, m, i - 1);
      assert StepsTo(f, r, i) && !Rechosen(f, v, r[i].block);
    }
  }

  /** An operand is not recomputed after its user, until the user is. */
  lemma OperandStays(f: Func, r: seq<Step>, v: Value, o: Value, m: nat, i: nat)
    requires WellFormed(f) && ValidRun(f, r) && IsValue(f, v) && IsValue(f, o)
    requires f.at[v].Some? && ComputedBefore(f, o, f.at[v].value)
    requires m <= i < |r| && r[m].block == f.at[v].value.block && Dom(f.g, r[m].block, r[i].block)
    requires forall k | m < k <= i :: r[k].block != r[m].block
    ensures r[i].env[o] == r[m].env[o]
  {
    forall k | m < k <= i
      ensures !Rechosen(f, o, r[k].block)
    {
      if Rechosen(f, o, r[k].block) {
        MeetsBetween(f.g, r[k].block, r[m].block, Path(r), k, i);
      }
    }
    Unchanged(f, r, o, m, i);
  }

  /** A value's law holds wherever the value is available, not only where it
      is computed: no run recomputes an operand and then reaches a use without
      recomputing the value. */
  lemma LawPersists(f: Func, r: seq<Step>, v: Value, i: nat)
    requires WellFormed(f) && ValidRun(f, r) && IsValue(f, v) && i < |r|
    requires LiveOut(f, v, r[i].block)
    ensures Law(f, r[i].env, v)
  {
    if f.at[v].None? {
      assert HasNoPosition(f.defs[v]);
      Unchanged(f, r, v, 0, i);
    } else {
      var m := Visited(f, r, f.at[v].value.block, i);
      assert Rechosen(f, v, r[m].block);
      Unchanged(f, r, v, m, i);
      forall k | 0 <= k < |Operands(f.defs[v])|
        ensures r[i].env[Operands(f.defs[v])[k]] == r[m].env[Operands(f.defs[v])[k]]
      {
        OperandStays(f, r, v, Operands(f.defs[v])[k], m, i);
      }
      LawDependsOnOperands(f, v, r[m].env, r[i].env);
    }
  }

  lemma LawDependsOnOperands(f: Func, v: Value, a: seq<Val>, b: seq<Val>)
    requires Sized(f) && IsValue(f, v) && |a| == |f.defs| == |b|
    requires Law(f, a, v) && a[v] == b[v]
    requires forall k | 0 <= k < |Operands(f.defs[v])| :: a[Operands(f.defs[v])[k]] == b[Operands(f.defs[v])[k]]
    ensures Law(f, b, v)
  {
    match f.defs[v]
    case BinOp(_, x, y) =>
      assert x == Operands(f.defs[v])[0] && y == Operands(f.defs[v])[1];
    case Call(_, args, _) =>
      if |args| > 0 {
        assert args[0] == Operands(f.defs[v])[1];
      }
    case TypeAssert(x, _) =>
      assert x == Operands(f.defs[v])[0];
    case Extract(t, _) =>
      assert t == Operands(f.defs[v])[0];
    case _ =>
  }

  /** The operands of a value that is available are available too. */
  lemma OperandLiveOut(f: Func, v: Value, o: Value, b: Block)
    requires WellFormed(f) && IsValue(f, v) && IsValue(f, o) && IsBlock(f.g, b)
    requires f.at[v].Some? && ComputedBefore(f, o, f.at[v].value) && LiveOut(f, v, b)
    ensures LiveOut(f, o, b)
  {
    if f.at[o].Some? && f.at[o].value.block != f.at[v].value.block {
      DomTransitive(f.g, f.at[o].value.block, f.at[v].value.block, b);
    }
  }

  lemma CondLiveOut(f: Func, h: Block)
    requires WellFormed(f) && IsBlock(f.g, h) && TerminatingIf(f, h).Some?
    ensures IsValue(f, TerminatingIf(f, h).value)
    ensures LiveOut(f, TerminatingIf(f, h).value, h)
  {
    var n := |f.code[h]| - 1;
    var c := TerminatingIf(f, h).value;
    assert c in InstrOperands(f.code[h][n]);
    assert ComputedBefore(f, c, Pos(h, n));
  }
}
