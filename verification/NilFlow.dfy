/** Whether an SSA value can be nil, followed through phi joins. */
module NilFlow {
  import opened Options
  import opened Cfg
  import opened Ssa
  import opened Narrow
  import opened NarrowSound
  import opened NarrowSearch

  datatype Nilness = Unknown | NonNil | Nillable | KnownNil

  /** What the signature and field declarations state: `!` or `?`, for the
      values that are parameters or field addresses. */
  datatype Nullness = MustNot | May

  type Declared = map<Value, Nullness>

  function DeclaredNilness(d: Declared, v: Value): Nilness {
    if v !in d then Unknown else if d[v] == MustNot then NonNil else Nillable
  }

  predicate InFunc(f: Func, v: Value) {
    v < |f.defs|
  }

  function Values(f: Func): set<Value> {
    set v: Value | v < |f.defs| && InFunc(f, v)
  }

  /** The edge that feeds a phi's operand proves the operand non-nil. */
  ghost predicate EdgeCarriesNonNil(f: Func, block: Block, index: nat, operand: Value)
    requires Sized(f) && IsBlock(f.g, block) && IsValue(f, operand)
  {
    && index < |f.g.preds[block]|
    && EdgeProves(f, f.g.preds[block][index], block, ValueSubject(operand), FactNil, false, {})
  }

  /** The answer for v, and the values seen once it is given. */
  ghost function NilnessOf(f: Func, d: Declared, v: Value, seen: set<Value>): (a: (Nilness, set<Value>))
    requires Sized(f) && IsValue(f, v)
    ensures seen <= a.1
    decreases Values(f) - seen, 0, 0
  {
    if v in seen then (Unknown, seen)
    else
      match f.defs[v]
      case Const(c) => (if c == NilV then KnownNil else NonNil, seen + {v})
      case Param(_) => (DeclaredNilness(d, v), seen + {v})
      case Phi(_) =>
        if f.at[v].Some? then JoinFrom(f, d, v, 0, seen + {v}, Unknown, true) else (Unknown, seen + {v})
      case Load(a) =>
        assert a == Operands(f.defs[v])[0];
        NilnessOf(f, d, a, seen + {v})
      case Alloc => (NonNil, seen + {v})
      case Make => (NonNil, seen + {v})
      case FieldAddr(_, _) => (DeclaredNilness(d, v), seen + {v})
      case _ => (Unknown, seen + {v})
  }

  /** One operand's state, strengthened by the edge it comes along. */
  ghost function OperandNilness(f: Func, phi: Value, k: nat, own: Nilness): Nilness
    requires Sized(f) && IsValue(f, phi) && f.defs[phi].Phi? && f.at[phi].Some? && k < |f.defs[phi].edges|
  {
    if own != NonNil && EdgeCarriesNonNil(f, f.at[phi].value.block, k, f.defs[phi].edges[k]) then NonNil else own
  }

  /** The join over the operands from k on. */
  ghost function JoinFrom(f: Func, d: Declared, phi: Value, k: nat, seen: set<Value>, result: Nilness, allNonNil: bool)
    : (a: (Nilness, set<Value>))
    requires Sized(f) && IsValue(f, phi) && f.defs[phi].Phi? && f.at[phi].Some? && k <= |f.defs[phi].edges|
    ensures seen <= a.1
    decreases Values(f) - seen, 1, |f.defs[phi].edges| - k
  {
    var edges := f.defs[phi].edges;
    if k == |edges| then
      (if allNonNil && |edges| > 0 then NonNil else result, seen)
    else
      var own := NilnessOf(f, d, edges[k], seen);
      var state := OperandNilness(f, phi, k, own.0);
      var possiblyNil := state == Nillable || state == KnownNil;
      JoinFrom(f, d, phi, k + 1, own.1, if possiblyNil then Nillable else result, allNonNil && state == NonNil)
  }

  // ----- what the answers are -----

  /** The states the operands from k on are joined as: each one's own answer, or
      NonNil where the edge that feeds it proves it so. */
  ghost function StatesFrom(f: Func, d: Declared, phi: Value, k: nat, seen: set<Value>): (states: seq<Nilness>)
    requires Sized(f) && IsValue(f, phi) && f.defs[phi].Phi? && f.at[phi].Some? && k <= |f.defs[phi].edges|
    ensures |states| == |f.defs[phi].edges| - k
    decreases |f.defs[phi].edges| - k
  {
    if k == |f.defs[phi].edges| then []
    else
      var own := NilnessOf(f, d, f.defs[phi].edges[k], seen);
      var block := f.at[phi].value.block;
      var proved := k < |f.g.preds[block]|
        && EdgeProves(f, f.g.preds[block][k], block, ValueSubject(f.defs[phi].edges[k]), FactNil, false, {});
      [if proved then NonNil else own.0] + StatesFrom(f, d, phi, k + 1, own.1)
  }

  predicate MaybeNil(n: Nilness) {
    n == Nillable || n == KnownNil
  }

  lemma OneMoreState(state: Nilness, rest: seq<Nilness>)
    ensures (forall s | s in [state] + rest :: s == NonNil) <==> state == NonNil && forall s | s in rest :: s == NonNil
    ensures (exists s | s in [state] + rest :: MaybeNil(s)) <==> MaybeNil(state) || exists s | s in rest :: MaybeNil(s)
  {
    assert state in [state] + rest && forall s | s in rest :: s in [state] + rest;
  }

  lemma {:induction false} JoinOfStates(f: Func, d: Declared, phi: Value, k: nat, seen: set<Value>, result: Nilness,
                                        allNonNil: bool)
    requires Sized(f) && IsValue(f, phi) && f.defs[phi].Phi? && f.at[phi].Some? && k <= |f.defs[phi].edges|
    requires result == Unknown || result == Nillable
    ensures var states := StatesFrom(f, d, phi, k, seen);
      JoinFrom(f, d, phi, k, seen, result, allNonNil).0 ==
        if allNonNil && |f.defs[phi].edges| > 0 && forall s | s in states :: s == NonNil then NonNil
        else if result == Nillable || exists s | s in states :: MaybeNil(s) then Nillable
        else Unknown
    decreases |f.defs[phi].edges| - k
  {
    hide NilnessOf;
    if k < |f.defs[phi].edges| {
      var own := NilnessOf(f, d, f.defs[phi].edges[k], seen);
      var state := OperandNilness(f, phi, k, own.0);
      var states, rest := StatesFrom(f, d, phi, k, seen), StatesFrom(f, d, phi, k + 1, own.1);
      assert states == [state] + rest;
      OneMoreState(state, rest);
      JoinOfStates(f, d, phi, k + 1, own.1, if MaybeNil(state) then Nillable else result, allNonNil && state == NonNil);
    }
  }

  /** A phi not met before is NonNil exactly when it has operands and all are,
      Nillable exactly when some operand is or is known to be nil, and Unknown
      otherwise. */
  lemma PhiAnswer(f: Func, d: Declared, phi: Value, seen: set<Value>)
    requires Sized(f) && IsValue(f, phi) && f.defs[phi].Phi? && f.at[phi].Some? && phi !in seen
    ensures var answer, states := NilnessOf(f, d, phi, seen).0, StatesFrom(f, d, phi, 0, seen + {phi});
      && (answer == NonNil <==> |states| > 0 && forall s | s in states :: s == NonNil)
      && (answer == Nillable <==> exists s | s in states :: MaybeNil(s))
      && answer != KnownNil
  {
    JoinOfStates(f, d, phi, 0, seen + {phi}, Unknown, true);
    var states := StatesFrom(f, d, phi, 0, seen + {phi});
    if |states| > 0 {
      assert states[0] in states;
    }
  }

  /** What each value that is no phi or load answers when first met: declared
      `?` may be nil, declared `!` is not, and neither are allocations, made
      values and constants other than nil. */
  lemma LeafAnswers(f: Func, d: Declared, v: Value, seen: set<Value>)
    requires Sized(f) && IsValue(f, v) && v !in seen
    ensures var answer := NilnessOf(f, d, v, seen).0;
      && (f.defs[v].Param? || f.defs[v].FieldAddr? ==>
            && (v in d && d[v] == May ==> answer == Nillable)
            && (v in d && d[v] == MustNot ==> answer == NonNil)
            && (v !in d ==> answer == Unknown))
      && (f.defs[v].Alloc? || f.defs[v].Make? ==> answer == NonNil)
      && (f.defs[v].Const? ==> answer == if f.defs[v].constant == NilV then KnownNil else NonNil)
      && (f.defs[v].Load? ==>
            IsValue(f, f.defs[v].addr) && answer == NilnessOf(f, d, f.defs[v].addr, seen + {v}).0)
  {
    if f.defs[v].Load? {
      assert f.defs[v].addr == Operands(f.defs[v])[0];
    }
  }

  /** KnownNil is answered for the nil constant, read through any number of
      addresses, and for nothing else. */
  lemma {:induction false} KnownNilIsConstant(f: Func, d: Declared, v: Value, seen: set<Value>) returns (c: Value)
    requires Sized(f) && IsValue(f, v) && NilnessOf(f, d, v, seen).0 == KnownNil
    ensures IsValue(f, c) && f.defs[c] == Const(NilV)
    ensures !f.defs[v].Load? ==> c == v
    ensures f.defs[v].Load? ==>
      IsValue(f, f.defs[v].addr) && NilnessOf(f, d, f.defs[v].addr, seen + {v}).0 == KnownNil
    decreases Values(f) - seen
  {
    c := v;
    if f.defs[v].Load? {
      assert f.defs[v].addr == Operands(f.defs[v])[0];
      c := KnownNilIsConstant(f, d, f.defs[v].addr, seen + {v});
    } else if f.defs[v].Phi? && f.at[v].Some? {
      PhiAnswer(f, d, v, seen);
    }
  }

  /** What is known to be nil, and not read through a nil address, is nil on
      every run wherever it is available. */
  lemma KnownNilSound(f: Func, d: Declared, v: Value, seen: set<Value>, r: seq<Step>, i: nat)
    requires WellFormed(f) && IsValue(f, v) && ValidRun(f, r) && i < |r| && LiveOut(f, v, r[i].block)
    requires NilnessOf(f, d, v, seen).0 == KnownNil && !f.defs[v].Load?
    ensures r[i].env[v] == NilV
  {
    var c := KnownNilIsConstant(f, d, v, seen);
    LawPersists(f, r, v, i);
  }

  // ----- the walk as it runs -----

  class ValueSet {
    var members: set<Value>

    constructor ()
      ensures members == {}
    {
      members := {};
    }
  }

  method ValueNilness(f: Func, d: Declared, v: Value, visited: ValueSet) returns (a: Nilness)
    requires WellFormed(f) && IsValue(f, v)
    modifies visited
    ensures (a, visited.members) == NilnessOf(f, d, v, old(visited.members))
    decreases Values(f) - visited.members, 0
  {
    if v in visited.members {
      return Unknown;
    }
    ghost var before := visited.members;
    visited.members := visited.members + {v};
    match f.defs[v] {
      case Const(c) => a := if c == NilV then KnownNil else NonNil;
      case Param(_) => a := DeclaredNilness(d, v);
      case Phi(_) =>
        assert f.at[v].Some?;
        a := JoinPhi(f, d, v, visited);
      case Load(addr) =>
        assert addr == Operands(f.defs[v])[0];
        a := ValueNilness(f, d, addr, visited);
      case Alloc => a := NonNil;
      case Make => a := NonNil;
      case FieldAddr(_, _) => a := DeclaredNilness(d, v);
      case _ => a := Unknown;
    }
  }

  method JoinPhi(f: Func, d: Declared, phi: Value, visited: ValueSet) returns (a: Nilness)
    requires WellFormed(f) && IsValue(f, phi) && f.defs[phi].Phi? && f.at[phi].Some?
    modifies visited
    ensures (a, visited.members) == JoinFrom(f, d, phi, 0, old(visited.members), Unknown, true)
    decreases Values(f) - visited.members, 1
  {
    hide EdgeProves, Proves;
    var block := f.at[phi].value.block;
    var edges := f.defs[phi].edges;
    var result := Unknown;
    var allNonNil := true;
    ghost var start := visited.members;
    ghost var answer := JoinFrom(f, d, phi, 0, start, Unknown, true);
    var k := 0;
    while k < |edges|
      invariant 0 <= k <= |edges|
      invariant start <= visited.members
      invariant JoinFrom(f, d, phi, k, visited.members, result, allNonNil) == answer
    {
      var state := ValueNilness(f, d, edges[k], visited);
      if state != NonNil && k < |f.g.preds[block]| {
        var empty := new BlockSet();
        var carries := SearchEdge(f, f.g.preds[block][k], block, ValueSubject(edges[k]), FactNil, false, empty);
        if carries {
          state := NonNil;
        }
      }
      if state == Nillable || state == KnownNil {
        result := Nillable;
        allNonNil := false;
      } else if state != NonNil {
        allNonNil := false;
      }
      k := k + 1;
    }
    a := if allNonNil && |edges| > 0 then NonNil else result;
  }

  // ----- soundness -----

  /** Parameters declared `!` arrive non-nil. */
  predicate RespectsDeclared(f: Func, d: Declared, r: seq<Step>) {
    forall v | v in d && v < |f.defs| && f.defs[v].Param? && d[v] == MustNot ::
      |r| > 0 && v < |r[0].env| && r[0].env[v] != NilV
  }

  /** The NonNil answer for v rests on no load, and on the edges it relies on
      only by guards that can be relied on. An operand that is NonNil by its
      own walk asks nothing of its edge, and one the answer does not rest on
      asks nothing at all. */
  ghost predicate RestsOn(f: Func, d: Declared, v: Value, seen: set<Value>)
    requires Sized(f) && IsValue(f, v)
    decreases Values(f) - seen, 0, 0
  {
    v !in seen &&
    match f.defs[v]
    case Load(_) => false
    case Phi(_) => f.at[v].Some? && OperandsRestOn(f, d, v, 0, seen + {v})
    case _ => true
  }

  ghost predicate OperandsRestOn(f: Func, d: Declared, phi: Value, k: nat, seen: set<Value>)
    requires Sized(f) && IsValue(f, phi) && f.defs[phi].Phi? && f.at[phi].Some? && k <= |f.defs[phi].edges|
    decreases Values(f) - seen, 1, |f.defs[phi].edges| - k
  {
    k < |f.defs[phi].edges| ==>
      && OperandRestsOn(f, d, phi, k, seen)
      && OperandsRestOn(f, d, phi, k + 1, NilnessOf(f, d, f.defs[phi].edges[k], seen).1)
  }

  ghost predicate OperandRestsOn(f: Func, d: Declared, phi: Value, k: nat, seen: set<Value>)
    requires Sized(f) && IsValue(f, phi) && f.defs[phi].Phi? && f.at[phi].Some? && k < |f.defs[phi].edges|
    decreases Values(f) - seen, 1, 0
  {
    var operand := f.defs[phi].edges[k];
    || (NilnessOf(f, d, operand, seen).0 == NonNil && RestsOn(f, d, operand, seen))
    || EdgeRestsOn(f, f.at[phi].value.block, k, operand)
  }

  ghost predicate EdgeRestsOn(f: Func, block: Block, index: nat, operand: Value)
    requires Sized(f) && IsBlock(f.g, block) && IsValue(f, operand)
  {
    && index < |f.g.preds[block]|
    && EdgeRestsSoundly(f, f.g.preds[block][index], block, ValueSubject(operand), FactNil, false, {})
  }

  /** What a NonNil join says of each operand: non-nil by its own walk, or by
      the edge that carries it. */
  lemma {:induction false} JoinOperand(f: Func, d: Declared, phi: Value, k: nat, seen: set<Value>, result: Nilness,
                                       allNonNil: bool, n: nat) returns (s: set<Value>)
    requires Sized(f) && IsValue(f, phi) && f.defs[phi].Phi? && f.at[phi].Some?
    requires k <= n < |f.defs[phi].edges|
    requires JoinFrom(f, d, phi, k, seen, result, allNonNil).0 == NonNil && result != NonNil
    ensures seen <= s && NilnessOf(f, d, f.defs[phi].edges[n], s).1 <= JoinFrom(f, d, phi, k, seen, result, allNonNil).1
    ensures || NilnessOf(f, d, f.defs[phi].edges[n], s).0 == NonNil
            || EdgeCarriesNonNil(f, f.at[phi].value.block, n, f.defs[phi].edges[n])
    ensures OperandsRestOn(f, d, phi, k, seen) ==> OperandRestsOn(f, d, phi, n, s)
    decreases n - k
  {
    var own := NilnessOf(f, d, f.defs[phi].edges[k], seen);
    var state := OperandNilness(f, phi, k, own.0);
    var possiblyNil := state == Nillable || state == KnownNil;
    var result' := if possiblyNil then Nillable else result;
    JoinNeedsAll(f, d, phi, k, seen, result, allNonNil);
    if k == n {
      s := seen;
    } else {
      s := JoinOperand(f, d, phi, k + 1, own.1, result', allNonNil && state == NonNil, n);
    }
  }

  lemma {:induction false} JoinNeedsAll(f: Func, d: Declared, phi: Value, k: nat, seen: set<Value>, result: Nilness,
                                        allNonNil: bool)
    requires Sized(f) && IsValue(f, phi) && f.defs[phi].Phi? && f.at[phi].Some? && k <= |f.defs[phi].edges|
    requires JoinFrom(f, d, phi, k, seen, result, allNonNil).0 == NonNil && result != NonNil
    ensures allNonNil && |f.defs[phi].edges| > 0
    ensures k < |f.defs[phi].edges| ==>
      OperandNilness(f, phi, k, NilnessOf(f, d, f.defs[phi].edges[k], seen).0) == NonNil
    decreases |f.defs[phi].edges| - k
  {
    if k < |f.defs[phi].edges| {
      var own := NilnessOf(f, d, f.defs[phi].edges[k], seen);
      var state := OperandNilness(f, phi, k, own.0);
      var possiblyNil := state == Nillable || state == KnownNil;
      JoinNeedsAll(f, d, phi, k + 1, own.1, if possiblyNil then Nillable else result, allNonNil && state == NonNil);
    }
  }

  /** A phi holds what the operand of its entering edge held. */
  lemma PhiEntered(f: Func, phi: Value, r: seq<Step>, i: nat) returns (m: nat, k: nat)
    requires WellFormed(f) && IsValue(f, phi) && f.defs[phi].Phi? && f.at[phi].Some?
    requires |f.defs[phi].edges| > 0
    requires ValidRun(f, r) && i < |r| && LiveOut(f, phi, r[i].block)
    ensures 0 < m <= i && r[m].block == f.at[phi].value.block
    ensures k < |f.defs[phi].edges| && k < |f.g.preds[r[m].block]| && f.g.preds[r[m].block][k] == r[m - 1].block
    ensures r[i].env[phi] == r[m - 1].env[f.defs[phi].edges[k]]
    ensures LiveOut(f, f.defs[phi].edges[k], r[m - 1].block)
  {
    m := Visited(f, r, f.at[phi].value.block, i);
    Unchanged(f, r, phi, m, i);
    assert f.defs[phi].edges[0] < |f.defs| && |f.defs[phi].edges| == |f.g.preds[r[m].block]|;
    assert r[m].block != 0;
    assert StepsTo(f, r, m);
    assert PhiTakesEdge(f, phi, r[m - 1].block, r[m - 1].env, r[m].env);
    k :| 0 <= k < |f.defs[phi].edges| && k < |f.g.preds[r[m].block]|
      && f.g.preds[r[m].block][k] == r[m - 1].block && r[m].env[phi] == r[m - 1].env[f.defs[phi].edges[k]];
  }

  /** Main result. A NonNil answer means non-nil on every run wherever the
      value is available. Answering Unknown on a value seen before keeps this
      for loop phis and shared operands alike. */
  lemma {:induction false} NonNilSound(f: Func, d: Declared, v: Value, seen: set<Value>, r: seq<Step>, i: nat)
    requires WellFormed(f) && IsValue(f, v) && ValidRun(f, r) && i < |r|
    requires LiveOut(f, v, r[i].block)
    requires NilnessOf(f, d, v, seen).0 == NonNil
    requires RestsOn(f, d, v, seen)
    requires RespectsDeclared(f, d, r)
    ensures r[i].env[v] != NilV
    decreases Values(f) - seen
  {
    LawPersists(f, r, v, i);
    if f.defs[v].Param? {
      Unchanged(f, r, v, 0, i);
    } else if f.defs[v].Phi? {
      JoinNeedsAll(f, d, v, 0, seen + {v}, Unknown, true);
      var m, k := PhiEntered(f, v, r, i);
      var operand := f.defs[v].edges[k];
      var s := JoinOperand(f, d, v, 0, seen + {v}, Unknown, true, k);
      if NilnessOf(f, d, operand, s).0 == NonNil && RestsOn(f, d, operand, s) {
        NonNilSound(f, d, operand, s, r, m - 1);
      } else {
        EdgeOperandNonNil(f, v, k, r, m);
      }
    }
  }

  lemma EdgeOperandNonNil(f: Func, phi: Value, k: nat, r: seq<Step>, m: nat)
    requires WellFormed(f) && IsValue(f, phi) && f.defs[phi].Phi? && f.at[phi].Some? && k < |f.defs[phi].edges|
    requires ValidRun(f, r) && 0 < m < |r| && r[m].block == f.at[phi].value.block
    requires EdgeRestsOn(f, r[m].block, k, f.defs[phi].edges[k])
    requires f.g.preds[r[m].block][k] == r[m - 1].block
    ensures r[m - 1].env[f.defs[phi].edges[k]] != NilV
  {
    var operand := f.defs[phi].edges[k];
    var cells := ValueTrace(f, operand, r, |r|);
    EdgeProvesSound(f, r[m - 1].block, r[m].block, ValueSubject(operand), FactNil, false, {}, r, cells, m);
  }

  // ----- the limit of the claim -----

  /** `p := new(T); x := *p` */
  const LOAD_OF_ALLOC := Func(
    Graph([[]], [[]], [None], [0]),
    [Alloc, Load(0)],
    [Some(Pos(0, 0)), Some(Pos(0, 1))],
    [[Define(0), Define(1)]])

  lemma LoadOfAllocShape()
    ensures Sized(LOAD_OF_ALLOC) && Wf(LOAD_OF_ALLOC.g)
  {
    ReachSelf(LOAD_OF_ALLOC.g.succs, 0);
    LoadOfAllocRanges();
    assert Shaped(LOAD_OF_ALLOC.g);
  }

  lemma LoadOfAllocRanges()
    ensures ValuesPlaced(LOAD_OF_ALLOC) && OperandsInRange(LOAD_OF_ALLOC) && CodeInRange(LOAD_OF_ALLOC)
  {
    assert Operands(LOAD_OF_ALLOC.defs[1]) == [0];
  }

  lemma LoadOfAllocOrdered()
    requires Sized(LOAD_OF_ALLOC)
    ensures OperandsFirst(LOAD_OF_ALLOC)
  {
    hide Shaped, ValuesPlaced, CodeInRange, OperandsInRange, Dom;
    assert Operands(LOAD_OF_ALLOC.defs[1]) == [0];
  }

  lemma LoadOfAllocUsesLater()
    requires Sized(LOAD_OF_ALLOC)
    ensures UsesLater(LOAD_OF_ALLOC)
  {
    assert Operands(LOAD_OF_ALLOC.defs[1]) == [0];
  }

  lemma LoadOfAllocWellFormed()
    ensures WellFormed(LOAD_OF_ALLOC)
  {
    LoadOfAllocShape();
    LoadOfAllocOrdered();
    LoadOfAllocUsesLater();
  }

  lemma LoadOfAllocRuns()
    requires WellFormed(LOAD_OF_ALLOC)
    ensures ValidRun(LOAD_OF_ALLOC, [Step(0, [RefV(0), NilV])])
  {
    assert Path([Step(0, [RefV(0), NilV])]) == [0];
  }

  /** A load is answered from its address, so the claim stops at loads: what is
      read through an allocation is called non-nil and may be nil. */
  lemma LoadAnsweredFromAddress() returns (r: seq<Step>)
    ensures WellFormed(LOAD_OF_ALLOC) && ValidRun(LOAD_OF_ALLOC, r)
    ensures NilnessOf(LOAD_OF_ALLOC, map[], 1, {}).0 == NonNil
    ensures |r| == 1 && LiveOut(LOAD_OF_ALLOC, 1, r[0].block) && r[0].env[1] == NilV
  {
    LoadOfAllocWellFormed();
    LoadOfAllocRuns();
    r := [Step(0, [RefV(0), NilV])];
    assert LOAD_OF_ALLOC.defs[1] == Load(0) && LOAD_OF_ALLOC.defs[0] == Alloc;
    assert NilnessOf(LOAD_OF_ALLOC, map[], 0, {1}).0 == NonNil;
    assert Dom(LOAD_OF_ALLOC.g, 0, 0);
  }
}
