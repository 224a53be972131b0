/** Why a true answer of the guard search holds on every run. */
module NarrowSound {
  import opened Options
  import opened Cfg
  import opened Ssa
  import opened Narrow

  lemma {:induction false} CellsConstant(f: Func, s: Subject, step: Step, cells: seq<Val>, from: nat, to: nat)
    requires Sized(f) && SubjectOk(f, s) && |step.env| == |f.defs| && IsBlock(f.g, step.block)
    requires ValidCells(f, s, step, cells) && from <= to < |cells|
    requires forall k | from <= k < to :: !Kills(f, s, step.block, k)
    ensures cells[to] == cells[from]
  {
    if from < to {
      CellsConstant(f, s, step, cells, from, to - 1);
    }
  }

  lemma {:induction false} ReadingStays(f: Func, s: Subject, r: seq<Step>, cells: seq<seq<Val>>, m: nat, i: nat)
    requires Sized(f) && SubjectOk(f, s) && ValidRun(f, r) && ValidTrace(f, s, r, cells)
    requires m < i < |r|
    requires forall k | m < k < i :: !BlockKills(f, s, r[k].block)
    ensures cells[i][0] == Last(cells[m])
  {
    if m < i - 1 {
      ReadingStays(f, s, r, cells, m, i - 1);
      CellsConstant(f, s, r[i - 1], cells[i - 1], 0, |cells[i - 1]| - 1);
    }
  }

  // ----- what the subject is anchored to -----

  /** The value whose recomputation makes the subject a different thing. */
  function Anchor(s: Subject): Value {
    match s
    case ValueSubject(v) => v
    case FieldSubject(b, _, _, _) => b
  }

  /** A condition reads its subject, directly or through operands, from values
      that are live where it branches; so the anchor is live there too. */
  lemma ReadLiveOut(f: Func, h: Block, s: Subject, fact: Fact)
    requires WellFormed(f) && SubjectOk(f, s) && IsBlock(f.g, h) && TerminatingIf(f, h).Some?
    requires ReadOperand(f, CondOf(f, h), s, fact).Some?
    ensures LiveOut(f, ReadOperand(f, CondOf(f, h), s, fact).value, h)
    ensures LiveOut(f, Anchor(s), h)
  {
    CondLiveOut(f, h);
    var c := CondOf(f, h);
    var o := ReadOperand(f, c, s, fact).value;
    assert f.at[c].Some?;
    match f.defs[c] {
      case BinOp(_, x, y) =>
        assert o == Operands(f.defs[c])[0] || o == Operands(f.defs[c])[1];
        OperandLiveOut(f, c, o, h);
      case Call(_, args, _) =>
        assert o == Operands(f.defs[c])[1];
        OperandLiveOut(f, c, o, h);
      case Extract(t, _) =>
        assert t == Operands(f.defs[c])[0];
        OperandLiveOut(f, c, t, h);
        assert o == Operands(f.defs[t])[0];
        OperandLiveOut(f, t, o, h);
    }
    AnchorLiveOut(f, h, s, o);
  }

  lemma AnchorLiveOut(f: Func, h: Block, s: Subject, o: Value)
    requires WellFormed(f) && SubjectOk(f, s) && IsBlock(f.g, h) && IsValue(f, o) && Matches(f, s, o)
    requires LiveOut(f, o, h)
    ensures LiveOut(f, Anchor(s), h)
  {
    if s.FieldSubject? {
      var a := f.defs[o].addr;
      assert a == Operands(f.defs[o])[0];
      OperandLiveOut(f, o, a, h);
      assert s.base == Operands(f.defs[a])[0];
      OperandLiveOut(f, a, s.base, h);
    }
  }

  /** A true verdict at c rests, on some path that avoids x, on a guard that x
      does not dominate - whenever x is c itself or fails to dominate c. */
  lemma {:induction false} WitnessGuard(f: Func, c: Block, s: Subject, fact: Fact, positive: bool, visiting: set<Block>,
                                        x: Block)
    returns (o: Block)
    requires WellFormed(f) && SubjectOk(f, s) && IsBlock(f.g, c) && IsBlock(f.g, x)
    requires Proves(f, c, s, fact, positive, visiting)
    requires x == c || !Dom(f.g, x, c)
    ensures IsBlock(f.g, o) && !Dom(f.g, x, o) && Reach(f.g.succs, o, c) && HoldsFrom(f, s, o)
    ensures TerminatingIf(f, o).Some? && ReadOperand(f, CondOf(f, o), s, fact).Some?
    decreases Blocks(f.g) - visiting
  {
    if WalkProves(f, c, c, s, fact, positive) {
      o := AcceptedGuard(f, c, c, s, fact, positive);
      ChainIsDominance(f.g, o, c);
      StrictDominatorReaches(f.g, o, c);
      if x == c {
        NotDominatedBack(f.g, o, c);
      } else if Dom(f.g, x, o) {
        DomTransitive(f.g, x, o, c);
      }
    } else {
      var p := AvoidingPred(f.g, x, c);
      ReachEdge(f.g.succs, p, c);
      if ArmProves(f, p, c, s, fact, positive) {
        o := p;
      } else {
        o := WitnessGuard(f, p, s, fact, positive, visiting + {c}, x);
        ReachTransitive(f.g.succs, o, p, c);
      }
    }
  }

  lemma {:induction false} AcceptedGuard(f: Func, cur: Block, block: Block, s: Subject, fact: Fact, positive: bool)
    returns (h: Block)
    requires Sized(f) && SubjectOk(f, s) && IsBlock(f.g, cur) && IsBlock(f.g, block)
    requires WalkProves(f, cur, block, s, fact, positive) && OnChain(f.g, cur, block)
    ensures IsBlock(f.g, h) && h != block && OnChain(f.g, h, block)
    ensures GuardAccepted(f, h, block, s, fact, positive)
    decreases f.g.depth[cur]
  {
    h := f.g.idom[cur].value;
    ChainStep(f.g, cur, block);
    ChainDepth(f.g, cur, block);
    if !GuardAccepted(f, h, block, s, fact, positive) {
      h := AcceptedGuard(f, h, block, s, fact, positive);
    }
  }

  lemma {:induction false} ChainStep(g: Graph, cur: Block, block: Block)
    requires Shaped(g) && IsBlock(g, cur) && IsBlock(g, block)
    requires OnChain(g, cur, block) && g.idom[cur].Some?
    ensures OnChain(g, g.idom[cur].value, block)
    decreases g.depth[block]
  {
    if cur != block {
      ChainStep(g, cur, g.idom[block].value);
    }
  }

  lemma StrictDominatorReaches(g: Graph, a: Block, b: Block)
    requires Wf(g) && IsBlock(g, a) && IsBlock(g, b) && Dom(g, a, b)
    ensures Reach(g.succs, a, b)
  {
    var p := FirstArrival(g, b);
    var k := FirstIndex(p, a);
    ReachAlong(g.succs, p, k, |p| - 1);
  }

  /** The search never answers true at or above the block that computes the
      subject's value (or a field subject's base). */
  lemma ProvesOnlyBelowAnchor(f: Func, c: Block, s: Subject, fact: Fact, positive: bool, visiting: set<Block>)
    requires WellFormed(f) && SubjectOk(f, s) && IsBlock(f.g, c)
    requires Proves(f, c, s, fact, positive, visiting)
    requires f.at[Anchor(s)].Some?
    ensures f.at[Anchor(s)].value.block != c && Dom(f.g, f.at[Anchor(s)].value.block, c)
  {
    var d := f.at[Anchor(s)].value.block;
    if d == c || !Dom(f.g, d, c) {
      var o := WitnessGuard(f, c, s, fact, positive, visiting, d);
      ReadLiveOut(f, o, s, fact);
    }
  }

  /** Where the search answers true on the way to the use, the block itself
      leaves the subject alone, although it may head a guard whose own
      instructions no scan covers. */
  lemma ProvenBlockLeavesSubject(f: Func, c: Block, next: Block, s: Subject, fact: Fact, positive: bool,
                                 visiting: set<Block>)
    requires WellFormed(f) && SubjectOk(f, s) && IsBlock(f.g, c) && IsBlock(f.g, next)
    requires Proves(f, c, s, fact, positive, visiting)
    requires next in f.g.succs[c]
    requires s.FieldSubject? && s.use.Some? ==> Reach(f.g.succs, next, s.use.value)
    ensures !BlockKills(f, s, c)
  {
    if f.at[Anchor(s)].Some? {
      ProvesOnlyBelowAnchor(f, c, s, fact, positive, visiting);
    }
    if s.FieldSubject? {
      var o := WitnessGuard(f, c, s, fact, positive, visiting, c);
      SpanLeavesField(f, s, o, c, next);
    }
  }

  /** A block strictly between a guard that holds and the use does not write
      the field anywhere, the part after a use in it included. */
  lemma SpanLeavesField(f: Func, s: Subject, h: Block, c: Block, next: Block)
    requires Sized(f) && SubjectOk(f, s) && s.FieldSubject? && IsBlock(f.g, h) && IsBlock(f.g, c) && IsBlock(f.g, next)
    requires HoldsFrom(f, s, h) && c != h && Reach(f.g.succs, h, c)
    requires next in f.g.succs[c] && Reach(f.g.succs, next, s.use.value)
    ensures forall k | 0 <= k < |f.code[c]| :: !MayChange(f, s, c, k)
  {
    var use := s.use.value;
    ReachEdge(f.g.succs, c, next);
    ReachTransitive(f.g.succs, c, next, use);
    assert !BlockWrites(f, s, c);
    assert c != use by {
      if c == use {
        assert OnCycle(f.g.succs, use);
      }
    }
    forall k: nat | k < |f.code[c]|
      ensures !MayChange(f, s, c, k)
    {
      EndsProofExact(f, s, c, k);
    }
  }

  // ----- soundness of the search -----

  /** At the end of a visit to h that leaves by the proving arm, what the
      subject reads satisfies the fact. */
  lemma ArmTells(f: Func, h: Block, thenArm: bool, s: Subject, fact: Fact, positive: bool,
                 r: seq<Step>, cells: seq<seq<Val>>, m: nat)
    requires WellFormed(f) && SubjectOk(f, s) && ValidRun(f, r) && ValidTrace(f, s, r, cells)
    requires m + 1 < |r| && r[m].block == h && TerminatingIf(f, h).Some?
    requires r[m + 1].block == Arm(f, h, thenArm)
    requires BranchProves(f, CondOf(f, h), s, fact, thenArm, positive) && ReadsFresh(f, h, s, fact)
    ensures FactHolds(fact, positive, Last(cells[m]))
  {
    var c := CondOf(f, h);
    var env := r[m].env;
    CondLiveOut(f, h);
    assert StepsTo(f, r, m + 1);
    assert env[c] == BoolV(thenArm);
    LawPersists(f, r, c, m);
    forall v | 0 <= v < |f.defs| && f.defs[v].Const?
      ensures Law(f, env, v)
    {
      LawPersists(f, r, v, m);
    }
    forall k | 0 <= k < |Operands(f.defs[c])|
      ensures Law(f, env, Operands(f.defs[c])[k])
    {
      OperandLiveOut(f, c, Operands(f.defs[c])[k], h);
      LawPersists(f, r, Operands(f.defs[c])[k], m);
    }
    BranchSound(f, env, c, s, fact, thenArm, positive);
    if s.FieldSubject? {
      FreshReading(f, h, s, fact, r, cells, m);
    }
  }

  /** m is the last visit of a path to b. */
  predicate LastVisit(p: seq<Block>, m: nat, b: Block) {
    m < |p| && p[m] == b && forall i | m < i < |p| :: p[i] != b
  }

  /** What the field may hold before each instruction along a path: it changes
      only where an instruction can change it. */
  ghost predicate History(f: Func, s: Subject, p: seq<Block>, cells: seq<seq<Val>>)
    requires Sized(f) && SubjectOk(f, s)
  {
    && IsPath(f.g.succs, p) && |cells| == |p|
    && (forall i | 0 <= i < |p| :: |cells[i]| == |f.code[p[i]]| + 1)
    && (forall i, k | 0 <= i < |p| && 0 <= k < |f.code[p[i]]| && !Kills(f, s, p[i], k) ::
          cells[i][k + 1] == cells[i][k])
    && (forall i | 0 <= i < |p| - 1 :: cells[i + 1][0] == Last(cells[i]))
  }

  lemma {:induction false} HistoryStays(f: Func, s: Subject, p: seq<Block>, cells: seq<seq<Val>>, i: nat, from: nat,
                                        to: nat)
    requires Sized(f) && SubjectOk(f, s) && History(f, s, p, cells)
    requires i < |p| && from <= to < |cells[i]|
    requires forall k | from <= k < to :: !Kills(f, s, p[i], k)
    ensures cells[i][to] == cells[i][from]
  {
    if from < to {
      HistoryStays(f, s, p, cells, i, from, to - 1);
    }
  }

  lemma {:induction false} HistoryPasses(f: Func, s: Subject, p: seq<Block>, cells: seq<seq<Val>>, m: nat, i: nat)
    requires Sized(f) && SubjectOk(f, s) && History(f, s, p, cells)
    requires m <= i < |p| && forall k | m < k <= i :: !BlockKills(f, s, p[k])
    ensures Last(cells[i]) == Last(cells[m])
  {
    if m < i {
      HistoryPasses(f, s, p, cells, m, i - 1);
      HistoryStays(f, s, p, cells, i, 0, |cells[i]| - 1);
    }
  }

  /** A reading that stays fresh is what the field still holds when the path
      ends, whatever the field has held on the way. */
  lemma FreshOnPath(f: Func, s: Subject, o: Value, h: Block, p: seq<Block>, m: nat, cells: seq<seq<Val>>)
    requires WellFormed(f) && SubjectOk(f, s) && s.FieldSubject? && IsBlock(f.g, h)
    requires IsValue(f, o) && Matches(f, s, o) && LiveOut(f, o, h) && StaysFresh(f, s, o, h)
    requires History(f, s, p, cells) && p[|p| - 1] == h && LastVisit(p, m, f.at[o].value.block)
    ensures f.at[o].value.index < |cells[m]| && Last(cells[|p| - 1]) == cells[m][f.at[o].value.index]
  {
    var at := f.at[o].value;
    forall k | at.index <= k < |f.code[at.block]|
      ensures !Kills(f, s, at.block, k)
    {
      assert InstrAt(f, at) == Define(o) && f.defs[o].Load?;
      if f.code[at.block][k] == Define(s.base) {
        BaseBeforeLoad(f, s, o, k);
      }
    }
    HistoryStays(f, s, p, cells, m, at.index, |f.code[at.block]|);
    forall i | m < i < |p|
      ensures !BlockKills(f, s, p[i])
    {
      AfterReading(f, s, o, h, p, m, i);
    }
    HistoryPasses(f, s, p, cells, m, |p| - 1);
  }

  /** A block between the last reading and the branch leaves the field alone. */
  lemma AfterReading(f: Func, s: Subject, o: Value, h: Block, p: seq<Block>, m: nat, i: nat)
    requires WellFormed(f) && SubjectOk(f, s) && s.FieldSubject? && IsBlock(f.g, h)
    requires IsValue(f, o) && Matches(f, s, o) && LiveOut(f, o, h) && StaysFresh(f, s, o, h)
    requires IsPath(f.g.succs, p) && p[|p| - 1] == h && LastVisit(p, m, f.at[o].value.block)
    requires m < i < |p|
    ensures !BlockKills(f, s, p[i])
  {
    var b := f.at[o].value.block;
    Cut(f.g.succs, p, i, |p| - 1);
    assert b !in p[i..|p| - 1 + 1];
    assert ReachAvoiding(f.g.succs, p[i], h, b);
    if Rechosen(f, s.base, p[i]) {
      BaseAboveLoad(f, s, o);
      MeetsBetween(f.g, p[i], b, p, i, |p| - 1);
    }
  }

  /** The base of a field is computed no later than a reading of it. */
  lemma BaseAboveLoad(f: Func, s: Subject, o: Value)
    requires WellFormed(f) && SubjectOk(f, s) && s.FieldSubject? && IsValue(f, o) && Matches(f, s, o)
    requires f.at[o].Some? && f.at[s.base].Some?
    ensures Dom(f.g, f.at[s.base].value.block, f.at[o].value.block)
  {
    var a := f.defs[o].addr;
    assert a == Operands(f.defs[o])[0] && s.base == Operands(f.defs[a])[0];
    assert ComputedBefore(f, a, f.at[o].value) && ComputedBefore(f, s.base, f.at[a].value);
    if f.at[s.base].value.block != f.at[a].value.block && f.at[a].value.block != f.at[o].value.block {
      DomTransitive(f.g, f.at[s.base].value.block, f.at[a].value.block, f.at[o].value.block);
    }
  }

  /** A fresh reading is what the field holds when the guard branches, in
      whichever block it was taken. */
  lemma FreshReading(f: Func, h: Block, s: Subject, fact: Fact, r: seq<Step>, cells: seq<seq<Val>>, i: nat)
    requires WellFormed(f) && SubjectOk(f, s) && s.FieldSubject? && ValidRun(f, r) && ValidTrace(f, s, r, cells)
    requires i < |r| && r[i].block == h
    requires TerminatingIf(f, h).Some? && ReadOperand(f, CondOf(f, h), s, fact).Some? && ReadsFresh(f, h, s, fact)
    ensures Last(cells[i]) == r[i].env[ReadOperand(f, CondOf(f, h), s, fact).value]
  {
    var o := ReadOperand(f, CondOf(f, h), s, fact).value;
    ReadLiveOut(f, h, s, fact);
    var m := LastReading(f, s, o, r, cells, i);
    var p := TraceIsHistory(f, s, r, cells, i);
    FreshOnPath(f, s, o, h, p, m, cells[..i + 1]);
  }

  /** A reading that is live still has the value it took when last executed. */
  lemma LastReading(f: Func, s: Subject, o: Value, r: seq<Step>, cells: seq<seq<Val>>, i: nat) returns (m: nat)
    requires WellFormed(f) && SubjectOk(f, s) && s.FieldSubject? && ValidRun(f, r) && ValidTrace(f, s, r, cells)
    requires i < |r| && IsValue(f, o) && Matches(f, s, o) && LiveOut(f, o, r[i].block) && f.at[o].Some?
    ensures m <= i && r[m].block == f.at[o].value.block
    ensures forall k | m < k <= i :: r[k].block != r[m].block
    ensures f.at[o].value.index < |cells[m]| && r[i].env[o] == cells[m][f.at[o].value.index]
  {
    m := Visited(f, r, f.at[o].value.block, i);
    Unchanged(f, r, o, m, i);
    MatchesExact(f, s, o);
    assert ValidCells(f, s, r[m], cells[m]);
  }

  /** A run's readings up to a step are a history along the path it took. */
  lemma TraceIsHistory(f: Func, s: Subject, r: seq<Step>, cells: seq<seq<Val>>, i: nat) returns (p: seq<Block>)
    requires Sized(f) && SubjectOk(f, s) && ValidRun(f, r) && ValidTrace(f, s, r, cells) && i < |r|
    ensures |p| == i + 1 && (forall k | 0 <= k <= i :: p[k] == r[k].block)
    ensures History(f, s, p, cells[..i + 1])
  {
    hide Kills, ObeysLaws, HoldsConstants, Frames, TakesEdges, Branches, StepsTo, Matches;
    Cut(f.g.succs, Path(r), 0, i);
    p := Path(r)[0..i + 1];
    forall k | 0 <= k <= i
      ensures ValidCells(f, s, r[k], cells[k]) && p[k] == r[k].block
    {
    }
  }

  lemma BaseBeforeLoad(f: Func, s: Subject, o: Value, j: nat)
    requires WellFormed(f) && SubjectOk(f, s) && s.FieldSubject? && IsValue(f, o) && Matches(f, s, o)
    requires f.at[o].Some?
    requires f.at[s.base] == Some(Pos(f.at[o].value.block, j))
    ensures j < f.at[o].value.index
  {
    var a := f.defs[o].addr;
    var h := f.at[o].value.block;
    assert a == Operands(f.defs[o])[0] && s.base == Operands(f.defs[a])[0];
    assert ComputedBefore(f, a, f.at[o].value) && ComputedBefore(f, s.base, f.at[a].value);
    if f.at[a].value.block != h {
      DomAntisymmetric(f.g, h, f.at[a].value.block);
    }
  }

  /** Between the last visit to an accepted guard and the block it was found
      for, no block changes what the subject reads. */
  lemma NothingKillsBetween(f: Func, h: Block, s: Subject, fact: Fact, r: seq<Step>, m: nat, i: nat)
    requires WellFormed(f) && SubjectOk(f, s) && ValidRun(f, r)
    requires m < i < |r| && r[m].block == h && Dom(f.g, h, r[i].block)
    requires forall k | m < k <= i :: r[k].block != h
    requires TerminatingIf(f, h).Some? && ReadOperand(f, CondOf(f, h), s, fact).Some?
    requires HoldsFrom(f, s, h)
    requires s.FieldSubject? && s.use.Some? ==> Reach(f.g.succs, r[i].block, s.use.value)
    ensures forall k | m < k < i :: !BlockKills(f, s, r[k].block)
  {
    ReadLiveOut(f, h, s, fact);
    var p := Path(r);
    forall k | m < k < i
      ensures !BlockKills(f, s, r[k].block)
    {
      if Rechosen(f, Anchor(s), r[k].block) {
        MeetsBetween(f.g, r[k].block, h, p, k, i);
      }
      if s.FieldSubject? {
        ReachAlong(f.g.succs, p, m, k);
        ReachAlong(f.g.succs, p, k + 1, i);
        ReachTransitive(f.g.succs, r[k + 1].block, r[i].block, s.use.value);
        assert p[k + 1] in f.g.succs[p[k]];
        SpanLeavesField(f, s, h, r[k].block, r[k + 1].block);
      }
    }
  }

  /** A guard the walk accepts, with its arm to itself, carries its fact to
      every entry of the block on every run. */
  lemma GuardCarries(f: Func, h: Block, block: Block, s: Subject, fact: Fact, positive: bool,
                     r: seq<Step>, cells: seq<seq<Val>>, i: nat)
    requires WellFormed(f) && SubjectOk(f, s) && ValidRun(f, r) && ValidTrace(f, s, r, cells)
    requires IsBlock(f.g, h) && i < |r| && r[i].block == block && h != block && OnChain(f.g, h, block)
    requires GuardAccepted(f, h, block, s, fact, positive)
    requires ArmIsPrivate(f, h, block) && ReadsFresh(f, h, s, fact)
    requires s.FieldSubject? && s.use.Some? ==> Reach(f.g.succs, block, s.use.value)
    ensures i > 0 && FactHolds(fact, positive, cells[i][0])
  {
    ChainIsDominance(f.g, h, block);
    var thenArm := DominantSide(f, h, block).value;
    var arm := Arm(f, h, thenArm);
    ChainIsDominance(f.g, arm, block);
    var m := Visited(f, r, h, i);
    LeavesByArm(f.g, h, arm, Path(r), m, i);
    ArmTells(f, h, thenArm, s, fact, positive, r, cells, m);
    NothingKillsBetween(f, h, s, fact, r, m, i);
    ReadingStays(f, s, r, cells, m, i);
  }

  /** Whatever rests on guards that can be relied on is a true answer of the
      search. */
  lemma {:induction false} RestsSoundlyProves(f: Func, block: Block, s: Subject, fact: Fact, positive: bool,
                                              visiting: set<Block>)
    requires Sized(f) && SubjectOk(f, s) && IsBlock(f.g, block)
    requires RestsSoundly(f, block, s, fact, positive, visiting)
    ensures Proves(f, block, s, fact, positive, visiting)
    decreases Blocks(f.g) - visiting
  {
    if h: Block :| SoundGuard(f, h, block, s, fact, positive) {
      WalkMeets(f, h, block, block, s, fact, positive);
    } else {
      forall k | 0 <= k < |f.g.preds[block]|
        ensures EdgeProves(f, f.g.preds[block][k], block, s, fact, positive, visiting + {block})
      {
        var p := f.g.preds[block][k];
        assert EdgeRestsSoundly(f, p, block, s, fact, positive, visiting + {block});
        if RestsSoundly(f, p, s, fact, positive, visiting + {block}) {
          RestsSoundlyProves(f, p, s, fact, positive, visiting + {block});
        }
      }
    }
  }

  /** The walk finds any guard on its way that it would accept. */
  lemma {:induction false} WalkMeets(f: Func, h: Block, cur: Block, block: Block, s: Subject, fact: Fact,
                                     positive: bool)
    requires Sized(f) && SubjectOk(f, s) && IsBlock(f.g, h) && IsBlock(f.g, cur) && IsBlock(f.g, block)
    requires h != cur && OnChain(f.g, h, cur) && GuardAccepted(f, h, block, s, fact, positive)
    ensures WalkProves(f, cur, block, s, fact, positive)
    decreases f.g.depth[cur]
  {
    if f.g.idom[cur].value != h {
      WalkMeets(f, h, f.g.idom[cur].value, block, s, fact, positive);
    }
  }

  /** Every guard the search could use for the subject can be relied on. */
  ghost predicate AllGuardsSound(f: Func, s: Subject, fact: Fact, positive: bool)
    requires Sized(f) && SubjectOk(f, s)
  {
    && (forall h: Block, b: Block | IsBlock(f.g, h) && IsBlock(f.g, b) && GuardAccepted(f, h, b, s, fact, positive) ::
          ArmIsPrivate(f, h, b) && ReadsFresh(f, h, s, fact))
    && (forall p: Block, b: Block | IsBlock(f.g, p) && ArmProves(f, p, b, s, fact, positive) ::
          ReadsFresh(f, p, s, fact))
  }

  /** Where every guard can be relied on, every true answer rests on such. */
  lemma {:induction false} ProvesRestsSoundly(f: Func, block: Block, s: Subject, fact: Fact, positive: bool,
                                              visiting: set<Block>)
    requires Sized(f) && SubjectOk(f, s) && IsBlock(f.g, block)
    requires AllGuardsSound(f, s, fact, positive) && Proves(f, block, s, fact, positive, visiting)
    ensures RestsSoundly(f, block, s, fact, positive, visiting)
    decreases Blocks(f.g) - visiting
  {
    if WalkProves(f, block, block, s, fact, positive) {
      var h := AcceptedGuard(f, block, block, s, fact, positive);
      assert SoundGuard(f, h, block, s, fact, positive);
    } else {
      forall k | 0 <= k < |f.g.preds[block]|
        ensures EdgeRestsSoundly(f, f.g.preds[block][k], block, s, fact, positive, visiting + {block})
      {
        var p := f.g.preds[block][k];
        assert EdgeProves(f, p, block, s, fact, positive, visiting + {block});
        if Proves(f, p, s, fact, positive, visiting + {block}) {
          ProvesRestsSoundly(f, p, s, fact, positive, visiting + {block});
        }
      }
    }
  }

  /** Main result. A true verdict that rests on guards that can be relied on
      holds on every run: each time the block is entered, what the subject
      reads there satisfies the fact. The visiting set plays no part in the
      claim, so a loop back-edge never closes a cycle into a false proof. */
  lemma {:induction false} ProvesSound(f: Func, block: Block, s: Subject, fact: Fact, positive: bool,
                                       visiting: set<Block>,
                                       r: seq<Step>, cells: seq<seq<Val>>, i: nat)
    requires WellFormed(f) && SubjectOk(f, s) && IsBlock(f.g, block)
    requires ValidRun(f, r) && ValidTrace(f, s, r, cells)
    requires i < |r| && r[i].block == block
    requires RestsSoundly(f, block, s, fact, positive, visiting)
    requires s.FieldSubject? && s.use.Some? ==> Reach(f.g.succs, block, s.use.value)
    ensures i > 0 && FactHolds(fact, positive, cells[i][0])
    decreases Blocks(f.g) - visiting, 0
  {
    if h: Block :| SoundGuard(f, h, block, s, fact, positive) {
      GuardCarries(f, h, block, s, fact, positive, r, cells, i);
    } else {
      var p := EnteredBy(f, block, s, fact, positive, visiting, r, i);
      EdgeProvesSound(f, p, block, s, fact, positive, visiting + {block}, r, cells, i);
    }
  }

  /** What edgeProvesFact answers is true of every crossing of the edge. */
  lemma {:induction false} EdgeProvesSound(f: Func, p: Block, succ: Block, s: Subject, fact: Fact, positive: bool,
                                           visiting: set<Block>, r: seq<Step>, cells: seq<seq<Val>>, i: nat)
    requires WellFormed(f) && SubjectOk(f, s) && IsBlock(f.g, p)
    requires ValidRun(f, r) && ValidTrace(f, s, r, cells)
    requires 0 < i < |r| && r[i - 1].block == p && r[i].block == succ
    requires EdgeRestsSoundly(f, p, succ, s, fact, positive, visiting)
    requires s.FieldSubject? && s.use.Some? ==> Reach(f.g.succs, succ, s.use.value)
    ensures FactHolds(fact, positive, cells[i][0])
    ensures s.ValueSubject? ==> FactHolds(fact, positive, r[i - 1].env[s.value])
    decreases Blocks(f.g) - visiting, 1
  {
    assert cells[i][0] == Last(cells[i - 1]) && ValidCells(f, s, r[i - 1], cells[i - 1]);
    assert Path(r)[i] in f.g.succs[Path(r)[i - 1]];
    if RestsSoundly(f, p, s, fact, positive, visiting) {
      if s.FieldSubject? && s.use.Some? {
        ReachEdge(f.g.succs, p, succ);
        ReachTransitive(f.g.succs, p, succ, s.use.value);
      }
      ProvesSound(f, p, s, fact, positive, visiting, r, cells, i - 1);
      RestsSoundlyProves(f, p, s, fact, positive, visiting);
      PassesThrough(f, p, succ, s, fact, positive, visiting, r, cells, i);
    } else {
      ArmTells(f, p, succ == f.g.succs[p][0], s, fact, positive, r, cells, i - 1);
    }
  }

  /** A block the search accepts hands on what it was entered with. */
  lemma PassesThrough(f: Func, p: Block, block: Block, s: Subject, fact: Fact, positive: bool, visiting: set<Block>,
                      r: seq<Step>, cells: seq<seq<Val>>, i: nat)
    requires WellFormed(f) && SubjectOk(f, s) && IsBlock(f.g, p) && IsBlock(f.g, block)
    requires ValidRun(f, r) && ValidTrace(f, s, r, cells)
    requires 0 < i < |r| && r[i - 1].block == p && block in f.g.succs[p]
    requires Proves(f, p, s, fact, positive, visiting)
    requires s.FieldSubject? && s.use.Some? ==> Reach(f.g.succs, block, s.use.value)
    ensures cells[i][0] == cells[i - 1][0] == Last(cells[i - 1])
  {
    ProvenBlockLeavesSubject(f, p, block, s, fact, positive, visiting);
    CellsConstant(f, s, r[i - 1], cells[i - 1], 0, |cells[i - 1]| - 1);
  }

  /** A run enters a block the join accepts by an edge that the join accepts. */
  lemma EnteredBy(f: Func, block: Block, s: Subject, fact: Fact, positive: bool, visiting: set<Block>, r: seq<Step>,
                  i: nat)
    returns (p: Block)
    requires WellFormed(f) && SubjectOk(f, s) && IsBlock(f.g, block) && ValidRun(f, r)
    requires i < |r| && r[i].block == block
    requires RestsSoundly(f, block, s, fact, positive, visiting)
    requires forall h: Block :: !SoundGuard(f, h, block, s, fact, positive)
    ensures i > 0 && p == r[i - 1].block && IsBlock(f.g, p) && block in f.g.succs[p]
    ensures EdgeRestsSoundly(f, p, block, s, fact, positive, visiting + {block})
  {
    var path := Path(r);
    p := path[i - 1];
    assert path[i] in f.g.succs[p] && p in f.g.preds[block];
    var k :| 0 <= k < |f.g.preds[block]| && f.g.preds[block][k] == p;
    assert EdgeRestsSoundly(f, f.g.preds[block][k], block, s, fact, positive, visiting + {block});
  }

  /** What an SSA value holds before each instruction of a step. */
  function ValueCells(f: Func, v: Value, before: Val, step: Step): (c: seq<Val>)
    requires Sized(f) && IsValue(f, v) && |step.env| == |f.defs| && IsBlock(f.g, step.block)
    ensures |c| == |f.code[step.block]| + 1
  {
    var change := if Rechosen(f, v, step.block) then f.at[v].value.index + 1 else 0;
    seq(|f.code[step.block]| + 1, k => if k < change then before else step.env[v])
  }

  lemma ValueCellsValid(f: Func, v: Value, before: Val, step: Step)
    requires Sized(f) && IsValue(f, v) && |step.env| == |f.defs| && IsBlock(f.g, step.block)
    ensures ValidCells(f, ValueSubject(v), step, ValueCells(f, v, before, step))
    ensures Rechosen(f, v, step.block) ==> ValueCells(f, v, before, step)[0] == before
    ensures !Rechosen(f, v, step.block) ==> ValueCells(f, v, before, step)[0] == step.env[v]
  {
    var c := ValueCells(f, v, before, step);
    forall k | 0 <= k < |f.code[step.block]| && !Kills(f, ValueSubject(v), step.block, k)
      ensures c[k + 1] == c[k]
    {
      if Rechosen(f, v, step.block) {
        assert InstrAt(f, f.at[v].value) == Define(v);
      }
    }
  }

  /** Every run has a trace of readings of an SSA value. */
  lemma {:induction false} ValueTrace(f: Func, v: Value, r: seq<Step>, n: nat) returns (cells: seq<seq<Val>>)
    requires WellFormed(f) && IsValue(f, v) && ValidRun(f, r) && 0 < n <= |r|
    ensures |cells| == n
    ensures forall i | 0 <= i < n :: |cells[i]| > 0 && ValidCells(f, ValueSubject(v), r[i], cells[i])
    ensures forall i | 0 <= i < n - 1 :: cells[i + 1][0] == Last(cells[i])
  {
    if n == 1 {
      ValueCellsValid(f, v, NilV, r[0]);
      cells := [ValueCells(f, v, NilV, r[0])];
    } else {
      cells := ValueTrace(f, v, r, n - 1);
      var before := r[n - 2].env[v];
      ValueCellsValid(f, v, before, r[n - 1]);
      assert StepsTo(f, r, n - 1);
      assert ValidCells(f, ValueSubject(v), r[n - 2], cells[n - 2]);
      cells := cells + [ValueCells(f, v, before, r[n - 1])];
    }
  }

  /** The verdict on an SSA value, over every run and every loop iteration. */
  lemma BlockProvesFactSound(f: Func, block: Block, v: Value, fact: Fact, positive: bool, r: seq<Step>, i: nat)
    requires WellFormed(f) && IsValue(f, v) && IsBlock(f.g, block) && ValidRun(f, r)
    requires i < |r| && r[i].block == block
    requires RestsSoundly(f, block, ValueSubject(v), fact, positive, {})
    ensures i > 0 && FactHolds(fact, positive, r[i - 1].env[v])
    ensures f.at[v].Some? ==> f.at[v].value.block != block && Dom(f.g, f.at[v].value.block, block)
  {
    var cells := ValueTrace(f, v, r, |r|);
    ProvesSound(f, block, ValueSubject(v), fact, positive, {}, r, cells, i);
    assert ValidCells(f, ValueSubject(v), r[i - 1], cells[i - 1]);
    if f.at[v].Some? {
      RestsSoundlyProves(f, block, ValueSubject(v), fact, positive, {});
      ProvesOnlyBelowAnchor(f, block, ValueSubject(v), fact, positive, {});
    }
  }

  /** The verdict on a field: the reading the using instruction takes satisfies
      the guarded fact, on every run. */
  lemma FieldReadProtected(f: Func, s: Subject, fact: Fact, positive: bool, r: seq<Step>, cells: seq<seq<Val>>, i: nat)
    requires WellFormed(f) && SubjectOk(f, s) && ValidRun(f, r) && ValidTrace(f, s, r, cells)
    requires s.FieldSubject? && s.use.Some? && i < |r| && r[i].block == s.use.value
    requires 0 <= s.useIndex < |f.code[s.use.value]|
    requires RestsSoundly(f, s.use.value, s, fact, positive, {})
    ensures FactHolds(fact, positive, cells[i][s.useIndex])
  {
    var use := s.use.value;
    ReachSelf(f.g.succs, use);
    ProvesSound(f, use, s, fact, positive, {}, r, cells, i);
    RestsSoundlyProves(f, use, s, fact, positive, {});
    UseBlockLeavesField(f, s, fact, positive);
    CellsConstant(f, s, r[i], cells[i], 0, s.useIndex);
  }

  /** Nothing ahead of the use in its own block changes the field. */
  lemma UseBlockLeavesField(f: Func, s: Subject, fact: Fact, positive: bool)
    requires WellFormed(f) && SubjectOk(f, s) && s.FieldSubject? && s.use.Some?
    requires 0 <= s.useIndex < |f.code[s.use.value]|
    requires Proves(f, s.use.value, s, fact, positive, {})
    ensures forall k | 0 <= k < s.useIndex :: !Kills(f, s, s.use.value, k)
  {
    var use := s.use.value;
    ReachSelf(f.g.succs, use);
    var o := WitnessGuard(f, use, s, fact, positive, {}, use);
    assert o != use && !BlockWrites(f, s, use);
    forall k: nat | k < s.useIndex
      ensures !MayChange(f, s, use, k)
    {
      EndsProofExact(f, s, use, k);
    }
    if f.at[s.base].Some? {
      ProvesOnlyBelowAnchor(f, use, s, fact, positive, {});
    }
  }
}
