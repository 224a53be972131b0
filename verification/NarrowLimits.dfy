/** Where the guard search answers more than it has proved, and exactly when. */
module NarrowLimits {
  import opened Options
  import opened Cfg
  import opened Ssa
  import opened Narrow
  import opened NarrowSound

  lemma ChildOfEntry(g: Graph, b: Block)
    requires 0 < |g.succs| && b != 0 && b < |g.succs| && b in g.succs[0]
    ensures IsIdom(g, 0, b) && Reach(g.succs, 0, b)
  {
    var p := [0, b];
    assert Joins(g.succs, 0, p, b);
    forall a: Block | a < |g.succs| && a != b && Dom(g, a, b)
      ensures Dom(g, a, 0)
    {
      assert a in p;
    }
  }

  // ----- an arm that is a merge -----

  /** `if x == c { log() }; use(x)`, or any other comparison with a constant:
      the else arm is the merge block. */
  function GuardWithoutElse(op: Op, c: Val): Func {
    Func(
      Graph([[1, 2], [2], []], [[], [0], [0, 1]], [None, Some(0), Some(0)], [0, 1, 1]),
      [Param(0), Const(c), BinOp(op, 0, 1)],
      [None, None, Some(Pos(0, 0))],
      [[Define(2), If(2)], [Effect], [Effect]])
  }

  /** Three blocks, both others children of the entry in the dominator tree. */
  lemma ThreeBlocksWf(g: Graph)
    requires Shaped(g) && |g.succs| == 3
    requires g.succs[0] == [1, 2] && g.preds[0] == [] && 0 !in g.succs[1] && 0 !in g.succs[2]
    requires 0 in g.preds[1] && 0 in g.preds[2]
    requires 1 !in g.succs[1] && 1 !in g.preds[1] && 1 !in g.succs[2] && 2 !in g.preds[1]
    requires (2 in g.succs[1] <==> 1 in g.preds[2]) && 2 !in g.succs[2] && 2 !in g.preds[2]
    requires g.idom == [None, Some(0), Some(0)]
    ensures Wf(g)
  {
    ChildOfEntry(g, 1);
    ChildOfEntry(g, 2);
    ReachSelf(g.succs, 0);
  }

  lemma GuardWithoutElseShape(op: Op, c: Val)
    ensures Shaped(GuardWithoutElse(op, c).g) && Wf(GuardWithoutElse(op, c).g)
  {
    ThreeBlocksWf(GuardWithoutElse(op, c).g);
  }

  lemma GuardWithoutElseRanges(op: Op, c: Val)
    ensures Sized(GuardWithoutElse(op, c))
  {
    var f := GuardWithoutElse(op, c);
    assert Operands(f.defs[2]) == [0, 1];
    assert OperandsInRange(f) by {
      hide ValuesPlaced, CodeInRange;
    }
  }

  lemma GuardWithoutElseOrdered(op: Op, c: Val)
    requires Sized(GuardWithoutElse(op, c))
    ensures OperandsFirst(GuardWithoutElse(op, c))
  {
    hide Shaped, Dom, ValuesPlaced, CodeInRange, OperandsInRange;
    assert Operands(GuardWithoutElse(op, c).defs[2]) == [0, 1];
  }

  lemma GuardWithoutElseUses(op: Op, c: Val)
    requires Sized(GuardWithoutElse(op, c))
    ensures UsesLater(GuardWithoutElse(op, c))
  {
    hide Shaped, Dom, ValuesPlaced, CodeInRange, OperandsInRange;
    assert InstrOperands(GuardWithoutElse(op, c).code[0][1]) == [2];
  }

  lemma GuardWithoutElseWellFormed(op: Op, c: Val)
    ensures WellFormed(GuardWithoutElse(op, c))
  {
    hide Wf, OperandsFirst, UsesLater, Sized;
    GuardWithoutElseShape(op, c);
    GuardWithoutElseRanges(op, c);
    GuardWithoutElseOrdered(op, c);
    GuardWithoutElseUses(op, c);
  }

  /** What the comparison's law asks of a value that passes it. */
  predicate Passes(op: Op, x: Val, c: Val) {
    if op == Eql then x == c
    else if op == Neq then SameKind(x, c) && x != c
    else op != OtherOp && x.IntV? && c.IntV? ==> CompareInts(op, x.n, c.n)
  }

  function PassingEnv(x: Val, c: Val): seq<Val> {
    [x, c, BoolV(true)]
  }

  lemma PassingLaws(op: Op, x: Val, c: Val, b: Block)
    requires Sized(GuardWithoutElse(op, c)) && b < 3 && Passes(op, x, c)
    ensures HoldsConstants(GuardWithoutElse(op, c), Step(b, PassingEnv(x, c)))
    ensures ObeysLaws(GuardWithoutElse(op, c), Step(b, PassingEnv(x, c)))
  {
  }

  lemma PassingBranches(op: Op, x: Val, c: Val)
    requires Sized(GuardWithoutElse(op, c))
    ensures Branches(GuardWithoutElse(op, c), Step(0, PassingEnv(x, c)), Step(1, PassingEnv(x, c)))
    ensures Branches(GuardWithoutElse(op, c), Step(1, PassingEnv(x, c)), Step(2, PassingEnv(x, c)))
  {
  }

  /** From the guard through its then arm to the merge. */
  function ThroughThenArm(x: Val, c: Val): seq<Step> {
    [Step(0, PassingEnv(x, c)), Step(1, PassingEnv(x, c)), Step(2, PassingEnv(x, c))]
  }

  lemma PassingSteps(op: Op, x: Val, c: Val)
    requires Sized(GuardWithoutElse(op, c))
    ensures StepsTo(GuardWithoutElse(op, c), ThroughThenArm(x, c), 1)
    ensures StepsTo(GuardWithoutElse(op, c), ThroughThenArm(x, c), 2)
  {
    hide Branches;
    PassingBranches(op, x, c);
  }

  lemma ThroughThenArmRuns(op: Op, x: Val, c: Val)
    requires Sized(GuardWithoutElse(op, c)) && Passes(op, x, c)
    ensures ValidRun(GuardWithoutElse(op, c), ThroughThenArm(x, c))
  {
    hide HoldsConstants, ObeysLaws, StepsTo;
    assert Path(ThroughThenArm(x, c)) == [0, 1, 2];
    PassingLaws(op, x, c, 0);
    PassingLaws(op, x, c, 1);
    PassingLaws(op, x, c, 2);
    PassingSteps(op, x, c);
  }

  lemma MergeIsTheElseArm(op: Op, c: Val)
    requires Sized(GuardWithoutElse(op, c)) && Wf(GuardWithoutElse(op, c).g)
    ensures DominantSide(GuardWithoutElse(op, c), 0, 2) == Some(false)
    ensures !ArmIsPrivate(GuardWithoutElse(op, c), 0, 2)
  {
    var f := GuardWithoutElse(op, c);
    assert !OnChain(f.g, 1, 2) && OnChain(f.g, 2, 2);
    ChainIsDominance(f.g, 2, 1);
    assert 1 in f.g.preds[2];
  }

  lemma MergeArmVerdict()
    requires Sized(GuardWithoutElse(Eql, NilV)) && Wf(GuardWithoutElse(Eql, NilV).g)
    ensures Proves(GuardWithoutElse(Eql, NilV), 2, ValueSubject(0), FactNil, false, {})
  {
    var f := GuardWithoutElse(Eql, NilV);
    var s := ValueSubject(0);
    MergeIsTheElseArm(Eql, NilV);
    assert CondOf(f, 0) == 2 && ReadOperand(f, 2, s, FactNil) == Some(0);
    assert GuardAccepted(f, 0, 2, s, FactNil, false);
  }

  /** The search concludes that x is not nil at the merge, yet a run arrives
      there, through the then arm, with x nil. */
  lemma MergeArmIsUnsound() returns (f: Func, r: seq<Step>)
    ensures f == GuardWithoutElse(Eql, NilV) && WellFormed(f) && ValidRun(f, r)
    ensures Proves(f, 2, ValueSubject(0), FactNil, false, {})
    ensures |r| == 3 && r[2].block == 2 && r[1].env[0] == NilV
    ensures DominantSide(f, 0, 2).Some? && !ArmIsPrivate(f, 0, 2)
  {
    f := GuardWithoutElse(Eql, NilV);
    GuardWithoutElseWellFormed(Eql, NilV);
    r := ThroughThenArm(NilV, NilV);
    ThroughThenArmRuns(Eql, NilV, NilV);
    MergeIsTheElseArm(Eql, NilV);
    MergeArmVerdict();
  }

  // ----- a reading taken before a write -----

  /** `v := t.f; t.f = nil; if v != nil { use(t.f) }` */
  const WRITE_AFTER_READ := Func(
    Graph([[1, 2], [], []], [[], [0], [0]], [None, Some(0), Some(0)], [0, 1, 1]),
    [Param(0), FieldAddr(0, 0), Load(1), Const(NilV), BinOp(Neq, 2, 3)],
    [None, Some(Pos(0, 0)), Some(Pos(0, 1)), None, Some(Pos(0, 3))],
    [[Define(1), Define(2), Store(1, 3), Define(4), If(4)], [Effect], [Effect]])

  const USE_OF_FIELD := FieldSubject(0, 0, Some(1), 0)

  lemma WriteAfterReadShape()
    ensures Shaped(WRITE_AFTER_READ.g) && Wf(WRITE_AFTER_READ.g)
  {
    assert Shaped(WRITE_AFTER_READ.g);
    ThreeBlocksWf(WRITE_AFTER_READ.g);
  }

  lemma WriteAfterReadOperands()
    ensures OperandsInRange(WRITE_AFTER_READ)
  {
    var f := WRITE_AFTER_READ;
    assert Operands(f.defs[1]) == [0] && Operands(f.defs[2]) == [1] && Operands(f.defs[4]) == [2, 3];
  }

  lemma WriteAfterReadCode()
    ensures ValuesPlaced(WRITE_AFTER_READ) && CodeInRange(WRITE_AFTER_READ)
  {
  }

  lemma WriteAfterReadOrdered()
    requires Sized(WRITE_AFTER_READ)
    ensures OperandsFirst(WRITE_AFTER_READ)
  {
    var f := WRITE_AFTER_READ;
    forall v, k | 0 <= v < |f.defs| && f.at[v].Some? && 0 <= k < |Operands(f.defs[v])|
      ensures ComputedBefore(f, Operands(f.defs[v])[k], f.at[v].value)
    {
      if v == 1 {
      } else if v == 2 {
      } else if v == 4 {
      }
    }
  }

  lemma WriteAfterReadUses()
    requires Sized(WRITE_AFTER_READ)
    ensures UsesLater(WRITE_AFTER_READ)
  {
    hide Shaped, ValuesPlaced, CodeInRange, OperandsInRange, Dom;
    var f := WRITE_AFTER_READ;
    assert InstrOperands(f.code[0][2]) == [1, 3] && InstrOperands(f.code[0][4]) == [4];
  }

  lemma WriteAfterReadBranches()
    requires Sized(WRITE_AFTER_READ)
    ensures PhisFit(WRITE_AFTER_READ) && BranchesFork(WRITE_AFTER_READ)
    ensures forall v | 0 <= v < 5 :: WRITE_AFTER_READ.at[v].None? <==> HasNoPosition(WRITE_AFTER_READ.defs[v])
  {
  }

  lemma WriteAfterReadWellFormed()
    ensures WellFormed(WRITE_AFTER_READ)
  {
    WriteAfterReadShape();
    WriteAfterReadOperands();
    WriteAfterReadCode();
    assert Sized(WRITE_AFTER_READ);
    WriteAfterReadOrdered();
    WriteAfterReadUses();
    WriteAfterReadBranches();
  }

  const STALE_ENV := [RefV(0), RefV(1), RefV(2), NilV, BoolV(true)]

  lemma StaleEnvLaws()
    requires Sized(WRITE_AFTER_READ)
    ensures HoldsConstants(WRITE_AFTER_READ, Step(0, STALE_ENV)) && ObeysLaws(WRITE_AFTER_READ, Step(0, STALE_ENV))
  {
  }

  lemma StaleEnvBranches()
    requires Sized(WRITE_AFTER_READ)
    ensures Branches(WRITE_AFTER_READ, Step(0, STALE_ENV), Step(1, STALE_ENV))
  {
  }

  lemma ThroughStaleGuard() returns (r: seq<Step>)
    requires Sized(WRITE_AFTER_READ)
    ensures ValidRun(WRITE_AFTER_READ, r)
    ensures r == [Step(0, STALE_ENV), Step(1, STALE_ENV)]
  {
    var f := WRITE_AFTER_READ;
    r := [Step(0, STALE_ENV), Step(1, STALE_ENV)];
    assert Path(r) == [0, 1];
    StaleEnvLaws();
    StaleEnvBranches();
    assert StepsTo(f, r, 1);
  }

  lemma StaleCells(r: seq<Step>) returns (cells: seq<seq<Val>>)
    requires Sized(WRITE_AFTER_READ) && SubjectOk(WRITE_AFTER_READ, USE_OF_FIELD) && ValidRun(WRITE_AFTER_READ, r)
    requires r == [Step(0, STALE_ENV), Step(1, STALE_ENV)]
    ensures ValidTrace(WRITE_AFTER_READ, USE_OF_FIELD, r, cells)
    ensures cells[1][USE_OF_FIELD.useIndex] == NilV
  {
    var f := WRITE_AFTER_READ;
    cells := [[RefV(2), RefV(2), RefV(2), NilV, NilV, NilV], [NilV, NilV]];
    StaleCellsBefore();
    assert ValidCells(f, USE_OF_FIELD, r[1], cells[1]);
  }

  lemma StoreChangesField()
    requires |WRITE_AFTER_READ.code| == 3
    ensures MayChange(WRITE_AFTER_READ, USE_OF_FIELD, 0, 2)
  {
    assert WRITE_AFTER_READ.code[0][2] == Store(1, 3);
    assert 1 in WrittenThrough(WRITE_AFTER_READ, Store(1, 3)) && WRITE_AFTER_READ.defs[1] == FieldAddr(0, 0);
  }

  lemma StaleCellsBefore()
    requires Sized(WRITE_AFTER_READ) && SubjectOk(WRITE_AFTER_READ, USE_OF_FIELD)
    ensures ValidCells(WRITE_AFTER_READ, USE_OF_FIELD, Step(0, STALE_ENV),
                       [RefV(2), RefV(2), RefV(2), NilV, NilV, NilV])
  {
    hide Shaped, ValuesPlaced, CodeInRange, OperandsInRange, MayChange;
    StoreChangesField();
  }

  lemma StaleVerdict()
    requires WellFormed(WRITE_AFTER_READ) && SubjectOk(WRITE_AFTER_READ, USE_OF_FIELD)
    ensures Proves(WRITE_AFTER_READ, 1, USE_OF_FIELD, FactNil, false, {})
    ensures DominantSide(WRITE_AFTER_READ, 0, 1).Some? && ArmIsPrivate(WRITE_AFTER_READ, 0, 1)
    ensures !ReadsFresh(WRITE_AFTER_READ, 0, USE_OF_FIELD, FactNil)
  {
    var f := WRITE_AFTER_READ;
    var s := USE_OF_FIELD;
    hide MayChange;
    assert DominantSide(f, 0, 1) == Some(true);
    assert !BlockWrites(f, s, 1);
    forall b: Block | b < |f.g.succs| && Reach(f.g.succs, b, 1)
      ensures b != 2
    {
      var p :| Joins(f.g.succs, b, p, 1);
      if |p| > 1 {
        assert p[1] in f.g.succs[p[0]];
      }
    }
    assert HoldsFrom(f, s, 0);
    assert CondOf(f, 0) == 4 && ReadOperand(f, 4, s, FactNil) == Some(2);
    assert GuardAccepted(f, 0, 1, s, FactNil, false);
    StoreChangesField();
  }

  /** The guard's own block is not scanned, so a write between the reading and
      the branch goes unseen: the search answers non-nil and a run reads nil,
      although the arm taken is the guard's alone. */
  lemma StaleReadingIsUnsound() returns (r: seq<Step>, cells: seq<seq<Val>>)
    ensures WellFormed(WRITE_AFTER_READ) && SubjectOk(WRITE_AFTER_READ, USE_OF_FIELD)
    ensures ValidRun(WRITE_AFTER_READ, r) && ValidTrace(WRITE_AFTER_READ, USE_OF_FIELD, r, cells)
    ensures Proves(WRITE_AFTER_READ, 1, USE_OF_FIELD, FactNil, false, {})
    ensures |r| == 2 && r[1].block == 1 && cells[1][USE_OF_FIELD.useIndex] == NilV
    ensures ArmIsPrivate(WRITE_AFTER_READ, 0, 1) && !ReadsFresh(WRITE_AFTER_READ, 0, USE_OF_FIELD, FactNil)
  {
    WriteAfterReadWellFormed();
    r := ThroughStaleGuard();
    cells := StaleCells(r);
    StaleVerdict();
  }

  // ----- exactly when a reading is stale -----

  /** A write at instruction k of the path's i-th block comes after the reading
      made on the path's last visit, m, to the reading's block. */
  predicate WrittenAfter(f: Func, s: Subject, o: Value, p: seq<Block>, m: nat, i: nat, k: nat)
    requires Sized(f) && IsValue(f, o) && f.at[o].Some?
  {
    && m <= i < |p| && p[i] < |f.code| && k < |f.code[p[i]]|
    && (i == m ==> f.at[o].value.index < k)
    && MayChange(f, s, p[i], k)
  }

  /** On no path to h does a write come after the last reading. */
  ghost predicate NeverWrittenAfter(f: Func, s: Subject, o: Value, h: Block)
    requires Sized(f) && IsValue(f, o) && f.at[o].Some?
  {
    forall p, m: nat, i: nat, k: nat | Joins(f.g.succs, 0, p, h) && LastVisit(p, m, f.at[o].value.block) ::
      !WrittenAfter(f, s, o, p, m, i, k)
  }

  /** Whatever the field holds along a path to h, the last reading saw what it
      still holds at the end of h. */
  ghost predicate AlwaysStillHeld(f: Func, s: Subject, o: Value, h: Block)
    requires Sized(f) && SubjectOk(f, s) && IsValue(f, o) && f.at[o].Some?
  {
    forall p, m: nat, cells
      | Joins(f.g.succs, 0, p, h) && LastVisit(p, m, f.at[o].value.block) && History(f, s, p, cells) ::
      f.at[o].value.index < |cells[m]| && Last(cells[|p| - 1]) == cells[m][f.at[o].value.index]
  }

  /** The exact condition under which a guard's reading speaks about the field:
      on every path to the guard no write follows the last reading, and so on
      every path the field still holds what was read, if and only if no write
      stands in the rest of the reading's block or in a block from which the
      guard is reached without reading again. */
  lemma FreshnessIsExact(f: Func, s: Subject, o: Value, h: Block)
    requires WellFormed(f) && SubjectOk(f, s) && s.FieldSubject? && IsBlock(f.g, h)
    requires IsValue(f, o) && Matches(f, s, o) && LiveOut(f, o, h)
    ensures f.at[o].Some?
    ensures StaysFresh(f, s, o, h) <==> NeverWrittenAfter(f, s, o, h)
    ensures StaysFresh(f, s, o, h) <==> AlwaysStillHeld(f, s, o, h)
  {
    assert !HasNoPosition(f.defs[o]);
    if StaysFresh(f, s, o, h) {
      forall p, m: nat, i: nat, k: nat | Joins(f.g.succs, 0, p, h) && LastVisit(p, m, f.at[o].value.block)
        ensures !WrittenAfter(f, s, o, p, m, i, k)
      {
        if WrittenAfter(f, s, o, p, m, i, k) && m < i {
          assert Kills(f, s, p[i], k);
          AfterReading(f, s, o, h, p, m, i);
        }
      }
      forall p, m: nat, cells
        | Joins(f.g.succs, 0, p, h) && LastVisit(p, m, f.at[o].value.block) && History(f, s, p, cells)
        ensures f.at[o].value.index < |cells[m]| && Last(cells[|p| - 1]) == cells[m][f.at[o].value.index]
      {
        FreshOnPath(f, s, o, h, p, m, cells);
      }
    } else {
      var p, m, i, k := PathWithWrite(f, s, o, h);
      var cells := HistoryOfWrite(f, s, o, h, p, m, i, k);
    }
  }

  /** A reading that does not stay fresh has a path on which a write follows. */
  lemma PathWithWrite(f: Func, s: Subject, o: Value, h: Block) returns (p: seq<Block>, m: nat, i: nat, k: nat)
    requires WellFormed(f) && IsBlock(f.g, h) && IsValue(f, o) && f.at[o].Some? && LiveOut(f, o, h)
    requires !StaysFresh(f, s, o, h)
    ensures Joins(f.g.succs, 0, p, h) && LastVisit(p, m, f.at[o].value.block)
    ensures WrittenAfter(f, s, o, p, m, i, k)
  {
    var at := f.at[o].value;
    if j :| at.index < j < |f.code[at.block]| && MayChange(f, s, at.block, j) {
      p := FirstArrival(f.g, h);
      m := LastIndex(p, at.block);
      i, k := m, j;
    } else {
      var c: Block, j: nat :| IsBlock(f.g, c) && ReachAvoiding(f.g.succs, c, h, at.block) && j < |f.code[c]|
        && MayChange(f, s, c, j);
      p, i := ThroughAvoiding(f.g, c, h, at.block);
      m := LastIndex(p, at.block);
      k := j;
    }
  }

  /** A path to h that goes through c and does not meet b from there on. */
  lemma ThroughAvoiding(g: Graph, c: Block, h: Block, b: Block) returns (p: seq<Block>, i: nat)
    requires Wf(g) && IsBlock(g, c) && ReachAvoiding(g.succs, c, h, b)
    ensures Joins(g.succs, 0, p, h) && i < |p| && p[i] == c
    ensures forall j | i <= j < |p| :: p[j] != b
  {
    var t := FirstArrival(g, c);
    var q :| Joins(g.succs, c, q, h) && b !in q;
    Splice(g.succs, 0, t, c, q, h);
    p, i := t + q[1..], |t| - 1;
    forall j | i <= j < |p|
      ensures p[j] != b
    {
      assert p[j] == q[j - i];
    }
  }

  /** The field holds nil up to the write and something else from it on. */
  function SplitAt(f: Func, p: seq<Block>, i: nat, k: nat): (cells: seq<seq<Val>>)
    requires forall x | 0 <= x < |p| :: p[x] < |f.code|
    ensures |cells| == |p|
    ensures forall x | 0 <= x < |p| :: |cells[x]| == |f.code[p[x]]| + 1
    ensures forall x, y | 0 <= x < |p| && 0 <= y <= |f.code[p[x]]| ::
      cells[x][y] == if x < i || (x == i && y <= k) then NilV else RefV(0)
  {
    seq(|p|, x requires 0 <= x < |p| =>
      seq(|f.code[p[x]]| + 1, y => if x < i || (x == i && y <= k) then NilV else RefV(0)))
  }

  lemma HistoryOfWrite(f: Func, s: Subject, o: Value, h: Block, p: seq<Block>, m: nat, i: nat, k: nat)
    returns (cells: seq<seq<Val>>)
    requires Sized(f) && SubjectOk(f, s) && s.FieldSubject? && IsValue(f, o) && f.at[o].Some?
    requires Joins(f.g.succs, 0, p, h) && LastVisit(p, m, f.at[o].value.block)
    requires WrittenAfter(f, s, o, p, m, i, k)
    ensures History(f, s, p, cells)
    ensures f.at[o].value.index < |cells[m]| && Last(cells[|p| - 1]) != cells[m][f.at[o].value.index]
  {
    hide MayChange;
    cells := SplitAt(f, p, i, k);
    assert Kills(f, s, p[i], k);
    assert IsPos(f, f.at[o].value);
  }
}
