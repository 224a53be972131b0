/** What a guard proves about a subject, and when a guard found elsewhere in
    the function still speaks about the subject at a given block. */
module Narrow {
  import opened Options
  import opened Cfg
  import opened Ssa

  datatype Fact = FactNil | FactZero

  /** The thing a guard has to speak about: one SSA value, or one field read
      through one base value and used at one instruction. */
  datatype Subject =
    | ValueSubject(value: Value)
    | FieldSubject(base: Value, field: nat, use: Option<Block>, useIndex: int)

  predicate SubjectOk(f: Func, s: Subject) {
    match s
    case ValueSubject(v) => v < |f.defs|
    case FieldSubject(b, _, use, _) => b < |f.defs| && (use.Some? ==> use.value < |f.g.succs|)
  }

  // ----- what a condition proves -----

  predicate MatchesAddr(f: Func, s: Subject, a: Value)
    requires IsValue(f, a)
  {
    s.FieldSubject? && f.defs[a].FieldAddr? && f.defs[a].base == s.base && f.defs[a].field == s.field
  }

  predicate Matches(f: Func, s: Subject, v: Value)
    requires Sized(f) && IsValue(f, v)
  {
    match s
    case ValueSubject(x) => v == x
    case FieldSubject(_, _, _, _) =>
      f.defs[v].Load? && (assert f.defs[v].addr == Operands(f.defs[v])[0]; MatchesAddr(f, s, f.defs[v].addr))
  }

  predicate IsZero(v: Val) {
    v == NilV || v == IntV(0) || v == StrV("") || v == BoolV(false) || v == FloatV(0.0)
  }

  predicate Satisfies(fact: Fact, v: Val) {
    match fact
    case FactNil => v == NilV
    case FactZero => IsZero(v)
  }

  predicate IsFactConst(f: Func, v: Value, fact: Fact)
    requires IsValue(f, v)
  {
    f.defs[v].Const? && Satisfies(fact, f.defs[v].constant)
  }

  /** The operand of a condition that reads the subject, for the conditions
      the matcher recognises: a comparison with the fact's constant, a call of
      errors.As on the subject, the ok of a comma-ok assertion on it. */
  function ReadOperand(f: Func, cond: Value, s: Subject, fact: Fact): (o: Option<Value>)
    requires Sized(f) && IsValue(f, cond)
    ensures o.Some? ==> IsValue(f, o.value) && Matches(f, s, o.value)
  {
    match f.defs[cond]
    case BinOp(_, x, y) =>
      assert x == Operands(f.defs[cond])[0] && y == Operands(f.defs[cond])[1];
      if Matches(f, s, x) && IsFactConst(f, y, fact) then Some(x)
      else if Matches(f, s, y) && IsFactConst(f, x, fact) then Some(y)
      else None
    case Call(_, args, errorsAs) =>
      assert forall k | 0 <= k < |args| :: args[k] == Operands(f.defs[cond])[k + 1];
      if fact.FactNil? && errorsAs && |args| >= 1 && Matches(f, s, args[0]) then Some(args[0]) else None
    case Extract(t, index) =>
      assert t == Operands(f.defs[cond])[0];
      if fact.FactNil? && index == 1 && f.defs[t].TypeAssert? && f.defs[t].commaOk
         && (assert f.defs[t].operand == Operands(f.defs[t])[0]; Matches(f, s, f.defs[t].operand))
      then Some(f.defs[t].operand)
      else None
    case _ => None
  }

  /** Whether taking the given arm of a branch on cond proves the fact
      (positive) or its negation (not positive) for the subject. */
  predicate BranchProves(f: Func, cond: Value, s: Subject, fact: Fact, thenArm: bool, positive: bool)
    requires Sized(f) && IsValue(f, cond)
  {
    && ReadOperand(f, cond, s, fact).Some?
    && match f.defs[cond]
       case BinOp(op, _, _) => (op == Eql && positive == thenArm) || (op == Neq && positive != thenArm)
       case _ => thenArm && !positive
  }

  predicate FactHolds(fact: Fact, positive: bool, v: Val) {
    Satisfies(fact, v) == positive
  }

  /** Kinds have one zero each, so equality with it is being zero. */
  lemma OneZeroAKind(a: Val, c: Val)
    requires SameKind(a, c) && IsZero(c)
    ensures IsZero(a) <==> a == c
  {
  }

  /** Wherever the laws of the condition and of what it reads hold, the arm
      taken tells the truth about the operand. */
  lemma BranchSound(f: Func, env: seq<Val>, cond: Value, s: Subject, fact: Fact, thenArm: bool, positive: bool)
    requires Sized(f) && |env| == |f.defs| && IsValue(f, cond)
    requires BranchProves(f, cond, s, fact, thenArm, positive)
    requires Law(f, env, cond) && HoldsConstants(f, Step(0, env))
    requires forall k | 0 <= k < |Operands(f.defs[cond])| :: Law(f, env, Operands(f.defs[cond])[k])
    requires env[cond] == BoolV(thenArm)
    ensures FactHolds(fact, positive, env[ReadOperand(f, cond, s, fact).value])
  {
    match f.defs[cond]
    case BinOp(op, x, y) =>
      assert x == Operands(f.defs[cond])[0] && y == Operands(f.defs[cond])[1];
      var o := ReadOperand(f, cond, s, fact).value;
      var c := if Matches(f, s, x) && IsFactConst(f, y, fact) then y else x;
      assert Law(f, env, c) && env[c] == f.defs[c].constant;
      if fact.FactZero? {
        OneZeroAKind(env[o], env[c]);
      }
    case Call(_, _, _) =>
    case Extract(t, _) =>
      assert t == Operands(f.defs[cond])[0];
      assert Law(f, env, t);
  }

  // ----- what is recognised -----

  /** v is the subject's value: itself, or a load through an address of its field. */
  predicate Reads(f: Func, s: Subject, v: Value) {
    v < |f.defs| &&
    match s
    case ValueSubject(x) => v == x
    case FieldSubject(base, field, _, _) =>
      f.defs[v].Load? && f.defs[v].addr < |f.defs| && f.defs[f.defs[v].addr] == FieldAddr(base, field)
  }

  predicate IsConstOf(f: Func, v: Value, fact: Fact) {
    v < |f.defs| && f.defs[v].Const? && Satisfies(fact, f.defs[v].constant)
  }

  /** The conditions an author may write to settle the fact, and what each arm
      of a branch on them says: a comparison with the fact's constant on either
      side; for nil also errors.As on the subject and the ok of a comma-ok
      assertion on it, whose then arm alone says something. */
  predicate Tells(f: Func, cond: Value, s: Subject, fact: Fact, thenArm: bool, positive: bool)
    requires IsValue(f, cond)
  {
    match f.defs[cond]
    case BinOp(op, x, y) =>
      && ((Reads(f, s, x) && IsConstOf(f, y, fact)) || (Reads(f, s, y) && IsConstOf(f, x, fact)))
      && ((op == Eql && positive == thenArm) || (op == Neq && positive == !thenArm))
    case Call(_, args, errorsAs) =>
      fact == FactNil && errorsAs && |args| > 0 && Reads(f, s, args[0]) && thenArm && !positive
    case Extract(t, index) =>
      && fact == FactNil && index == 1 && t < |f.defs| && f.defs[t].TypeAssert? && f.defs[t].commaOk
      && Reads(f, s, f.defs[t].operand) && thenArm && !positive
    case _ => false
  }

  lemma MatchesExact(f: Func, s: Subject, v: Value)
    requires Sized(f) && IsValue(f, v)
    ensures Matches(f, s, v) <==> Reads(f, s, v)
  {
    if s.FieldSubject? && f.defs[v].Load? {
      assert f.defs[v].addr == Operands(f.defs[v])[0];
    }
  }

  /** The matcher recognises exactly these, and reads each arm as it should. */
  lemma BranchProvesExact(f: Func, cond: Value, s: Subject, fact: Fact, thenArm: bool, positive: bool)
    requires Sized(f) && IsValue(f, cond)
    ensures BranchProves(f, cond, s, fact, thenArm, positive) <==> Tells(f, cond, s, fact, thenArm, positive)
  {
    hide Matches, Reads, Satisfies;
    match f.defs[cond] {
      case BinOp(_, x, y) =>
        assert x == Operands(f.defs[cond])[0] && y == Operands(f.defs[cond])[1];
        MatchesExact(f, s, x);
        MatchesExact(f, s, y);
      case Call(_, args, _) =>
        if |args| > 0 {
          assert args[0] == Operands(f.defs[cond])[1];
          MatchesExact(f, s, args[0]);
        }
      case Extract(t, _) =>
        assert t == Operands(f.defs[cond])[0];
        if f.defs[t].TypeAssert? {
          assert f.defs[t].operand == Operands(f.defs[t])[0];
          MatchesExact(f, s, f.defs[t].operand);
        }
      case _ =>
    }
  }

  // ----- the field in memory -----

  /** The addresses through which the field can be written: the struct's own,
      and the field's. */
  predicate ReachesField(f: Func, s: Subject, a: Value) {
    s.FieldSubject? && (a == s.base || (a < |f.defs| && f.defs[a] == FieldAddr(s.base, s.field)))
  }

  /** The values an instruction can write through: the address of a store, and
      whatever a call is handed, its callee included. */
  function WrittenThrough(f: Func, i: Instr): seq<Value> {
    match i
    case Store(a, _) => [a]
    case Spawn(fn, args) => [fn] + args
    case Define(v) => if v < |f.defs| && f.defs[v].Call? then [f.defs[v].callee] + f.defs[v].args else []
    case _ => []
  }

  /** What the field holds may be another value after this instruction. */
  predicate MayChange(f: Func, s: Subject, b: Block, k: nat)
    requires b < |f.code| && k < |f.code[b]|
  {
    exists a | a in WrittenThrough(f, f.code[b][k]) :: ReachesField(f, s, a)
  }

  // ----- when memory is written -----

  predicate HandsOver(f: Func, s: Subject, v: Value)
    requires IsValue(f, v)
  {
    s.FieldSubject? && (v == s.base || MatchesAddr(f, s, v))
  }

  /** An instruction after which an earlier reading of the field may be stale:
      a store to the field or to the whole struct, or a call handed either
      address. */
  predicate EndsProof(f: Func, s: Subject, i: Instr)
    requires Sized(f) && (forall o | o in InstrOperands(i) :: o < |f.defs|)
    requires i.Define? ==> i.value < |f.defs|
  {
    match i
    case Store(a, _) => (assert a in InstrOperands(i); HandsOver(f, s, a))
    case Define(v) =>
      f.defs[v].Call? &&
      (assert f.defs[v].callee == Operands(f.defs[v])[0];
       assert forall k | 0 <= k < |f.defs[v].args| :: f.defs[v].args[k] == Operands(f.defs[v])[k + 1];
       HandsOver(f, s, f.defs[v].callee) || (exists a | a in f.defs[v].args :: HandsOver(f, s, a)))
    case Spawn(fn, args) =>
      (assert fn in InstrOperands(i);
       assert forall a | a in args :: a in InstrOperands(i);
       HandsOver(f, s, fn) || (exists a | a in args :: HandsOver(f, s, a)))
    case _ => false
  }

  predicate EndsProofAt(f: Func, s: Subject, b: Block, k: nat)
    requires Sized(f) && b < |f.code| && k < |f.code[b]|
  {
    EndsProof(f, s, f.code[b][k])
  }

  /** The matcher ends a proof exactly where the field may change. */
  lemma EndsProofExact(f: Func, s: Subject, b: Block, k: nat)
    requires Sized(f) && b < |f.code| && k < |f.code[b]|
    ensures EndsProofAt(f, s, b, k) <==> MayChange(f, s, b, k)
  {
    hide Shaped, ValuesPlaced, HandsOver, ReachesField;
    var i := f.code[b][k];
    forall a | a in WrittenThrough(f, i)
      ensures IsValue(f, a) && (HandsOver(f, s, a) <==> ReachesField(f, s, a))
    {
      WrittenIsValue(f, b, k, a);
      HandsOverExact(f, s, a);
    }
    match i {
      case Store(a, _) =>
        assert a in WrittenThrough(f, i);
      case Define(v) =>
        if f.defs[v].Call? {
          var args := f.defs[v].args;
          assert f.defs[v].callee in WrittenThrough(f, i) && forall a | a in args :: a in WrittenThrough(f, i);
        }
      case Spawn(fn, args) =>
        assert fn in WrittenThrough(f, i) && forall a | a in args :: a in WrittenThrough(f, i);
      case _ =>
    }
  }

  lemma HandsOverExact(f: Func, s: Subject, a: Value)
    requires Sized(f) && IsValue(f, a)
    ensures HandsOver(f, s, a) <==> ReachesField(f, s, a)
  {
  }

  lemma WrittenIsValue(f: Func, b: Block, k: nat, a: Value)
    requires Sized(f) && b < |f.code| && k < |f.code[b]| && a in WrittenThrough(f, f.code[b][k])
    ensures IsValue(f, a)
  {
    hide Shaped, ValuesPlaced;
    match f.code[b][k] {
      case Define(v) =>
        var n :| 0 <= n < |WrittenThrough(f, f.code[b][k])| && WrittenThrough(f, f.code[b][k])[n] == a;
        assert Operands(f.defs[v])[n] == a;
      case Store(_, _) =>
        assert a in InstrOperands(f.code[b][k]);
      case Spawn(_, _) =>
        assert a in InstrOperands(f.code[b][k]);
      case _ =>
    }
  }

  /** How many of b's instructions can run before the use. */
  function ScanEnd(f: Func, s: Subject, b: Block): (end: nat)
    requires Sized(f) && b < |f.code| && s.FieldSubject?
    ensures end <= |f.code[b]|
  {
    if s.use == Some(b) && 0 <= s.useIndex < |f.code[b]| then s.useIndex else |f.code[b]|
  }

  predicate BlockWrites(f: Func, s: Subject, b: Block)
    requires Sized(f) && b < |f.code| && s.FieldSubject?
  {
    exists k | 0 <= k < ScanEnd(f, s, b) :: EndsProofAt(f, s, b, k)
  }

  ghost predicate OnCycle(adj: Edges, b: Block)
    requires b < |adj|
  {
    exists c: Block :: c in adj[b] && Reach(adj, c, b)
  }

  /** A guard on h still speaks about the subject at its use: always for a
      value; for a field, when the use is on no cycle the guard reaches and no
      block between guard and use, the guard's own aside, ends the proof. */
  ghost predicate HoldsFrom(f: Func, s: Subject, h: Block)
    requires Sized(f) && SubjectOk(f, s) && IsBlock(f.g, h)
  {
    match s
    case ValueSubject(_) => true
    case FieldSubject(_, _, use, _) =>
      && use.Some?
      && !(Reach(f.g.succs, h, use.value) && OnCycle(f.g.succs, use.value))
      && (forall b: Block | b < |f.g.succs| && b != h
            && Reach(f.g.succs, h, b) && Reach(f.g.succs, b, use.value) :: !BlockWrites(f, s, b))
  }

  /** b is on some path from h to the use. */
  ghost predicate OnTheWay(adj: Edges, h: Block, b: Block, use: Block) {
    exists p, i: nat :: Joins(adj, h, p, use) && i < |p| && p[i] == b
  }

  lemma OnTheWayIff(adj: Edges, h: Block, b: Block, use: Block)
    ensures OnTheWay(adj, h, b, use) <==> Reach(adj, h, b) && Reach(adj, b, use)
  {
    if p, i: nat :| Joins(adj, h, p, use) && i < |p| && p[i] == b {
      ReachAlong(adj, p, 0, i);
      ReachAlong(adj, p, i, |p| - 1);
    }
    if Reach(adj, h, b) && Reach(adj, b, use) {
      var p :| Joins(adj, h, p, b);
      var q :| Joins(adj, b, q, use);
      Splice(adj, h, p, b, q, use);
      assert (p + q[1..])[|p| - 1] == b;
    }
  }

  lemma BlockWritesExact(f: Func, s: Subject, b: Block)
    requires Sized(f) && b < |f.code| && s.FieldSubject?
    ensures BlockWrites(f, s, b) <==>
      exists k: nat :: k < |f.code[b]| && (s.use == Some(b) && 0 <= s.useIndex < |f.code[b]| ==> k < s.useIndex)
        && MayChange(f, s, b, k)
  {
    hide MayChange, EndsProofAt;
    forall k: nat | k < |f.code[b]|
      ensures EndsProofAt(f, s, b, k) <==> MayChange(f, s, b, k)
    {
      EndsProofExact(f, s, b, k);
    }
  }

  /** Instruction k of b may change the field on some path from h to the use,
      h's own instructions aside. */
  ghost predicate ChangesOnTheWay(f: Func, s: Subject, h: Block, b: Block, k: nat)
    requires Sized(f) && s.FieldSubject? && s.use.Some?
  {
    && b < |f.code| && k < |f.code[b]| && b != h
    && OnTheWay(f.g.succs, h, b, s.use.value)
    && (b == s.use.value && 0 <= s.useIndex < |f.code[b]| ==> k < s.useIndex)
    && MayChange(f, s, b, k)
  }

  /** The exact meaning of a guard no longer speaking about a field: something
      on a path from it to the use, ahead of the use, may change the field, or
      the use is on a cycle the guard reaches. */
  lemma HoldsFromExact(f: Func, s: Subject, h: Block)
    requires Sized(f) && SubjectOk(f, s) && IsBlock(f.g, h) && s.FieldSubject? && s.use.Some?
    ensures !HoldsFrom(f, s, h) <==>
      || (exists b: Block, k: nat :: ChangesOnTheWay(f, s, h, b, k))
      || (Reach(f.g.succs, h, s.use.value) && OnCycle(f.g.succs, s.use.value))
  {
    hide ChangesOnTheWay, BlockWrites, Reach, OnTheWay, OnCycle;
    var use := s.use.value;
    forall b: Block | b < |f.code|
      ensures b != h && Reach(f.g.succs, h, b) && Reach(f.g.succs, b, use) && BlockWrites(f, s, b) <==>
        ChangesIn(f, s, h, b)
    {
      ChangesInIff(f, s, h, b);
    }
    if b: Block, k: nat :| ChangesOnTheWay(f, s, h, b, k) {
      InCode(f, s, h, b, k);
      assert ChangesIn(f, s, h, b);
    }
  }

  ghost predicate ChangesIn(f: Func, s: Subject, h: Block, b: Block)
    requires Sized(f) && s.FieldSubject? && s.use.Some?
  {
    exists k: nat :: ChangesOnTheWay(f, s, h, b, k)
  }

  lemma InCode(f: Func, s: Subject, h: Block, b: Block, k: nat)
    requires Sized(f) && s.FieldSubject? && s.use.Some? && ChangesOnTheWay(f, s, h, b, k)
    ensures b < |f.code|
  {
  }

  lemma ChangesInIff(f: Func, s: Subject, h: Block, b: Block)
    requires Sized(f) && b < |f.code| && s.FieldSubject? && s.use.Some?
    ensures b != h && Reach(f.g.succs, h, b) && Reach(f.g.succs, b, s.use.value) && BlockWrites(f, s, b) <==>
      ChangesIn(f, s, h, b)
  {
    hide MayChange, BlockWrites, Reach, OnTheWay;
    assert s.use == Some(b) <==> b == s.use.value;
    OnTheWayIff(f.g.succs, h, b, s.use.value);
    BlockWritesExact(f, s, b);
    if BlockWrites(f, s, b) && b != h && OnTheWay(f.g.succs, h, b, s.use.value) {
      var k: nat :| k < |f.code[b]| && (s.use == Some(b) && 0 <= s.useIndex < |f.code[b]| ==> k < s.useIndex)
        && MayChange(f, s, b, k);
      assert ChangesOnTheWay(f, s, h, b, k);
    }
  }

  // ----- the search -----

  /** Which successor of h dominates block: the then arm is asked first. */
  function DominantSide(f: Func, h: Block, block: Block): (side: Option<bool>)
    requires Sized(f) && IsBlock(f.g, h) && IsBlock(f.g, block)
  {
    if |f.g.succs[h]| < 2 then None
    else if OnChain(f.g, f.g.succs[h][0], block) then Some(true)
    else if OnChain(f.g, f.g.succs[h][1], block) then Some(false)
    else None
  }

  function Arm(f: Func, h: Block, thenArm: bool): (s: Block)
    requires Sized(f) && IsBlock(f.g, h) && |f.g.succs[h]| >= 2
    ensures IsBlock(f.g, s) && s in f.g.succs[h]
  {
    f.g.succs[h][if thenArm then 0 else 1]
  }

  function CondOf(f: Func, h: Block): (c: Value)
    requires Sized(f) && IsBlock(f.g, h) && TerminatingIf(f, h).Some?
    ensures IsValue(f, c)
  {
    assert TerminatingIf(f, h).value in InstrOperands(f.code[h][|f.code[h]| - 1]);
    TerminatingIf(f, h).value
  }

  /** The dominator walk accepts the guard on h for block. */
  ghost predicate GuardAccepted(f: Func, h: Block, block: Block, s: Subject, fact: Fact, positive: bool)
    requires Sized(f) && SubjectOk(f, s) && IsBlock(f.g, h) && IsBlock(f.g, block)
  {
    && TerminatingIf(f, h).Some?
    && DominantSide(f, h, block).Some?
    && BranchProves(f, CondOf(f, h), s, fact, DominantSide(f, h, block).value, positive)
    && HoldsFrom(f, s, h)
  }

  /** The walk up the dominator chain, standing at cur. */
  ghost predicate WalkProves(f: Func, cur: Block, block: Block, s: Subject, fact: Fact, positive: bool)
    requires Sized(f) && SubjectOk(f, s) && IsBlock(f.g, cur) && IsBlock(f.g, block)
    decreases f.g.depth[cur]
  {
    && f.g.idom[cur].Some?
    && (GuardAccepted(f, f.g.idom[cur].value, block, s, fact, positive)
        || WalkProves(f, f.g.idom[cur].value, block, s, fact, positive))
  }

  /** The edge p -> succ is the proving arm of a branch on p. */
  ghost predicate ArmProves(f: Func, p: Block, succ: Block, s: Subject, fact: Fact, positive: bool)
    requires Sized(f) && SubjectOk(f, s) && IsBlock(f.g, p)
  {
    && TerminatingIf(f, p).Some?
    && |f.g.succs[p]| >= 2
    && succ in f.g.succs[p][..2]
    && BranchProves(f, CondOf(f, p), s, fact, succ == f.g.succs[p][0], positive)
    && HoldsFrom(f, s, p)
  }

  /** blockProvesFact with the blocks already being visited. */
  ghost predicate Proves(f: Func, block: Block, s: Subject, fact: Fact, positive: bool, visiting: set<Block>)
    requires Sized(f) && SubjectOk(f, s) && IsBlock(f.g, block)
    decreases Blocks(f.g) - visiting, 0
  {
    && block !in visiting
    && (|| WalkProves(f, block, block, s, fact, positive)
        || (&& f.g.preds[block] != []
            && forall k | 0 <= k < |f.g.preds[block]| ::
                 EdgeProves(f, f.g.preds[block][k], block, s, fact, positive, visiting + {block})))
  }

  ghost predicate EdgeProves(f: Func, p: Block, succ: Block, s: Subject, fact: Fact, positive: bool,
                             visiting: set<Block>)
    requires Sized(f) && SubjectOk(f, s) && IsBlock(f.g, p)
    decreases Blocks(f.g) - visiting, 1
  {
    ArmProves(f, p, succ, s, fact, positive) || Proves(f, p, s, fact, positive, visiting)
  }

  // ----- the conditions under which a verdict is sound -----

  /** The guard on h stands for its arm having been taken. */
  ghost predicate ArmIsPrivate(f: Func, h: Block, block: Block)
    requires Sized(f) && IsBlock(f.g, h) && IsBlock(f.g, block) && DominantSide(f, h, block).Some?
  {
    EntersOnlyFrom(f.g, h, Arm(f, h, DominantSide(f, h, block).value))
  }

  /** No instruction that may change the field lies between the last execution
      of the reading o and the end of h: none in the rest of o's block, and none in a
      block from which h is reached without reading again. */
  ghost predicate StaysFresh(f: Func, s: Subject, o: Value, h: Block)
    requires Sized(f) && IsValue(f, o)
  {
    && f.at[o].Some?
    && var at := f.at[o].value;
    && (forall k | at.index < k < |f.code[at.block]| :: !MayChange(f, s, at.block, k))
    && (forall c: Block, k: nat | IsBlock(f.g, c) && ReachAvoiding(f.g.succs, c, h, at.block) && k < |f.code[c]| ::
          !MayChange(f, s, c, k))
  }

  /** A guard on h that branches on a reading of the field branches on what the
      field still holds there. */
  ghost predicate ReadsFresh(f: Func, h: Block, s: Subject, fact: Fact)
    requires Sized(f) && IsBlock(f.g, h)
  {
    s.FieldSubject? && TerminatingIf(f, h).Some? && ReadOperand(f, CondOf(f, h), s, fact).Some? ==>
      StaysFresh(f, s, ReadOperand(f, CondOf(f, h), s, fact).value, h)
  }

  /** The walk from block accepts a guard on h that can be relied on. */
  ghost predicate SoundGuard(f: Func, h: Block, block: Block, s: Subject, fact: Fact, positive: bool)
    requires Sized(f) && SubjectOk(f, s) && IsBlock(f.g, block)
  {
    && IsBlock(f.g, h) && h != block && OnChain(f.g, h, block)
    && GuardAccepted(f, h, block, s, fact, positive)
    && ArmIsPrivate(f, h, block) && ReadsFresh(f, h, s, fact)
  }

  /** The true answer for block rests on guards that can be relied on: on one
      the walk accepts, or on those behind each of its entering edges. It asks
      nothing of any other guard of the function. */
  ghost predicate RestsSoundly(f: Func, block: Block, s: Subject, fact: Fact, positive: bool, visiting: set<Block>)
    requires Sized(f) && SubjectOk(f, s) && IsBlock(f.g, block)
    decreases Blocks(f.g) - visiting, 0
  {
    && block !in visiting
    && (|| (exists h: Block :: SoundGuard(f, h, block, s, fact, positive))
        || (&& f.g.preds[block] != []
            && forall k | 0 <= k < |f.g.preds[block]| ::
                 EdgeRestsSoundly(f, f.g.preds[block][k], block, s, fact, positive, visiting + {block})))
  }

  ghost predicate EdgeRestsSoundly(f: Func, p: Block, succ: Block, s: Subject, fact: Fact, positive: bool,
                                   visiting: set<Block>)
    requires Sized(f) && SubjectOk(f, s) && IsBlock(f.g, p)
    decreases Blocks(f.g) - visiting, 1
  {
    || (ArmProves(f, p, succ, s, fact, positive) && ReadsFresh(f, p, s, fact))
    || RestsSoundly(f, p, s, fact, positive, visiting)
  }

  // ----- what the subject reads along a run -----

  /** Instructions that can change what the subject reads. */
  predicate Kills(f: Func, s: Subject, b: Block, k: nat)
    requires Sized(f) && SubjectOk(f, s) && b < |f.code| && k < |f.code[b]|
  {
    match s
    case ValueSubject(v) => f.code[b][k] == Define(v)
    case FieldSubject(base, _, _, _) => f.code[b][k] == Define(base) || MayChange(f, s, b, k)
  }

  /** What the subject reads before each instruction of a step: it changes at
      an instruction that can change it, and a load takes what is there. */
  ghost predicate ValidCells(f: Func, s: Subject, step: Step, cells: seq<Val>)
    requires Sized(f) && SubjectOk(f, s) && |step.env| == |f.defs| && IsBlock(f.g, step.block)
  {
    && |cells| == |f.code[step.block]| + 1
    && (forall k | 0 <= k < |f.code[step.block]| && !Kills(f, s, step.block, k) :: cells[k + 1] == cells[k])
    && (s.FieldSubject? ==>
          forall v: Value, k: nat | v < |f.defs| && f.at[v] == Some(Pos(step.block, k)) && Reads(f, s, v) ::
            step.env[v] == cells[k])
    && (s.ValueSubject? ==> cells[|cells| - 1] == step.env[s.value])
  }

  /** The readings of the subject over a run. */
  ghost predicate ValidTrace(f: Func, s: Subject, r: seq<Step>, cells: seq<seq<Val>>)
    requires Sized(f) && SubjectOk(f, s) && ValidRun(f, r)
  {
    && |cells| == |r|
    && (forall i | 0 <= i < |r| :: ValidCells(f, s, r[i], cells[i]))
    && (forall i | 0 <= i < |r| - 1 :: cells[i + 1][0] == cells[i][|cells[i]| - 1])
  }

  function Last(c: seq<Val>): Val
    requires |c| > 0
  {
    c[|c| - 1]
  }

  predicate BlockKills(f: Func, s: Subject, b: Block)
    requires Sized(f) && SubjectOk(f, s) && b < |f.code|
  {
    exists k | 0 <= k < |f.code[b]| :: Kills(f, s, b, k)
  }
}
