/** Every guard the scan calls dead is dead: on all programs, all inputs. */
module DeadGuardSound {
  import opened Options
  import opened Dsl
  import opened GuardLang
  import opened DeadGuard

  // ----- programs in scope -----

  /** No local is assigned twice by one statement. */
  predicate DistinctTargets(lhs: seq<Target>) {
    forall i, j | 0 <= i < j < |lhs| && lhs[i].Local? && lhs[j].Local? && lhs[i].name == lhs[j].name ::
      lhs[i].name == "_"
  }

  /** The last place where an assignment names a local. */
  predicate LastTarget(lhs: seq<Target>, i: nat) {
    && i < |lhs| && lhs[i].Local? && lhs[i].name != "_"
    && forall j | i < j < |lhs| :: lhs[j] != lhs[i]
  }

  /** A contract says something of its result number i + 1: declares it
      non-nil, or relates it to another by a rule that narrows. */
  predicate SpeaksOf(c: Callee, i: nat) {
    || (i < |c.nonNil| && c.nonNil[i])
    || (exists j | 0 <= j < |c.rules| :: RuleSpeaksOf(c, c.rules[j], i))
  }

  predicate RuleSpeaksOf(c: Callee, r: Rule, i: nat) {
    && RuleShape(r).Some?
    && (ReturnPosition(c, RuleShape(r).value.guardRef) == Some(i + 1)
        || ReturnPosition(c, RuleShape(r).value.targetRef) == Some(i + 1))
  }

  /** What the contract speaks of stays in the local it is assigned to. */
  predicate Retained(c: Callee, lhs: seq<Target>) {
    forall i | 0 <= i < |lhs| && lhs[i].Local? && lhs[i].name != "_" && SpeaksOf(c, i) :: LastTarget(lhs, i)
  }

  lemma DistinctAreRetained(c: Callee, lhs: seq<Target>)
    requires DistinctTargets(lhs)
    ensures Retained(c, lhs)
  {
  }

  /** Guards read real locals, and no assignment overwrites, by naming a local
      twice, a result its contract speaks of. */
  predicate Proper(b: Block)
    decreases b
  {
    match b
    case Done => true
    case Then(s, tail) => ProperStmt(s) && Proper(tail)
  }

  /** An init clause is at most one assignment. */
  predicate Simple(init: Block) {
    init.Done? || ((init.head.Assign? || init.head.IncDec?) && init.tail == Done)
  }

  predicate ProperStmt(s: Stmt)
    decreases s
  {
    match s
    case Assign(_, lhs, Call(c)) => Retained(c, lhs)
    case If(init, cond, body, alt, _) =>
      (cond.Guard? ==> cond.name != "_") && Simple(init) && Proper(body) && ProperElse(alt)
    case Nested(block) => Proper(block)
    case _ => true
  }

  predicate ProperElse(alt: Else)
    decreases alt
  {
    match alt
    case NoElse => true
    case ElseBlock(block) => Proper(block)
    case ElseIf(s) => ProperStmt(s)
  }

  // ----- what execution leaves alone -----

  lemma SameWeaken(a: Env, b: Env, xs: set<string>, ys: set<string>)
    requires Same(a, b, xs) && xs <= ys
    ensures Same(a, b, ys)
  {
    SameSelf(b, ys);
    SameTwice(a, b, b, xs, ys);
    assert xs + ys == ys;
  }

  lemma {:induction false} AssignAllFrame(env: Env, define: bool, lhs: seq<Target>, values: seq<Value>)
    requires |lhs| <= |values|
    ensures Same(env, AssignAll(env, define, lhs, values), LocalsOf(lhs))
  {
    if lhs == [] {
      SameSelf(env, {});
    } else {
      var n := |lhs| - 1;
      var before := AssignAll(env, define, lhs[..n], values);
      AssignAllFrame(env, define, lhs[..n], values);
      WriteSame(before, define, lhs[n], values[n]);
      SameTwice(env, before, AssignAll(env, define, lhs, values), LocalsOf(lhs[..n]), LocalOf(lhs[n]));
    }
  }

  lemma {:induction false} BindAllFrame(env: Env, o: Oracle, clock: nat, names: seq<string>)
    ensures SameBelow(env, BindAll(env, o, clock, names), set x | x in names && x != "_", {})
  {
    if names == [] {
      SameSelf(env, {});
    } else {
      BindAllFrame(env, o, clock, names[..|names| - 1]);
      assert names == names[..|names| - 1] + [names[|names| - 1]];
    }
  }

  lemma BelowTwice(a: Env, b: Env, c: Env, ds: set<string>, xs: set<string>, es: set<string>, ys: set<string>)
    requires SameBelow(a, b, ds, xs) && SameBelow(b, c, es, ys)
    ensures SameBelow(a, c, ds + es, xs + ys)
  {
    if a.Scope? {
      SameTwice(a.outer, b.outer, c.outer, xs, ys);
    }
  }

  lemma BelowSelf(a: Env)
    ensures SameBelow(a, a, {}, {})
  {
    SameSelf(a, {});
  }

  lemma {:induction false} ExecFrame(m: Meaning, o: Oracle, b: Block, env: Env, clock: nat)
    ensures SameBelow(env, Exec(m, o, b, env, clock).env, Declared(b), Assigned(b))
    decreases b, 0
  {
    match b
    case Done => BelowSelf(env);
    case Then(s, tail) =>
      PerformFrame(m, o, s, env, clock);
      var r := Perform(m, o, s, env, clock);
      if r.exited {
        SameBelowWeaken(env, r.env, DeclaredIn(s), AssignedIn(s), Declared(b), Assigned(b));
      } else {
        ExecFrame(m, o, tail, r.env, r.clock);
        BelowTwice(env, r.env, Exec(m, o, tail, r.env, r.clock).env,
                   DeclaredIn(s), AssignedIn(s), Declared(tail), Assigned(tail));
      }
  }

  lemma SameBelowWeaken(a: Env, b: Env, ds: set<string>, xs: set<string>, es: set<string>, ys: set<string>)
    requires SameBelow(a, b, ds, xs) && ds <= es && xs <= ys
    ensures SameBelow(a, b, es, ys)
  {
    if a.Scope? {
      SameWeaken(a.outer, b.outer, xs, ys);
    }
  }

  /** A nested block changes the variables around it only by assignment. */
  lemma {:induction false} InnerFrame(m: Meaning, o: Oracle, b: Block, env: Env, clock: nat)
    ensures Same(env, Within(Exec(m, o, b, Scope(map[], env), clock)).env, Assigned(b))
    decreases b, 1
  {
    ExecFrame(m, o, b, Scope(map[], env), clock);
  }

  lemma {:induction false} PerformFrame(m: Meaning, o: Oracle, s: Stmt, env: Env, clock: nat)
    ensures SameBelow(env, Perform(m, o, s, env, clock).env, DeclaredIn(s), AssignedIn(s))
    decreases s
  {
    match s
    case Assign(define, lhs, rhs) =>
      if rhs.Values? {
        AssignAllFrame(env, define, lhs, ValuesAt(o, clock, |lhs|));
      } else {
        SameSelf(env, LocalsOf(lhs));
        if |lhs| == |rhs.callee.results| && Honours(m, rhs.callee, o.call(clock, rhs.callee)) {
          AssignAllFrame(env, define, lhs, o.call(clock, rhs.callee).results);
        }
      }
    case IncDec(x) => StoreSame(env, x, o.value(clock));
    case Declare(names) => BindAllFrame(env, o, clock, names);
    case If(init, cond, body, alt, _) =>
      InnerFrame(m, o, init, env, clock);
      ExecFrame(m, o, init, Scope(map[], env), clock);
      var start := Exec(m, o, init, Scope(map[], env), clock);
      if start.exited {
        SameWeaken(env, Pop(start.env), Assigned(init), AssignedIn(s));
      } else {
        InnerFrame(m, o, body, start.env, start.clock + 1);
        OtherwiseFrame(m, o, alt, start.env, start.clock + 1);
        BranchFrame(env, start.env, Perform(m, o, s, env, clock).env,
                    Assigned(init), Assigned(body), AssignedElse(alt));
      }
    case Nested(block) => InnerFrame(m, o, block, env, clock);
    case _ => SameSelf(env, {});
  }

  /** Either branch of an if, seen from outside it. */
  lemma BranchFrame(env: Env, start: Env, after: Env, ks: set<string>, bs: set<string>, es: set<string>)
    requires start.Scope? && Same(env, start.outer, ks)
    requires (Same(start.outer, after, bs) || Same(start.outer, after, es))
    ensures Same(env, after, ks + bs + es)
  {
    if Same(start.outer, after, bs) {
      SameTwice(env, start.outer, after, ks, bs);
      SameWeaken(env, after, ks + bs, ks + bs + es);
    } else {
      SameTwice(env, start.outer, after, ks, es);
      SameWeaken(env, after, ks + es, ks + bs + es);
    }
  }

  lemma {:induction false} OtherwiseFrame(m: Meaning, o: Oracle, alt: Else, env: Env, clock: nat)
    requires env.Scope?
    ensures Same(env.outer, Pop(Otherwise(m, o, alt, env, clock).env), AssignedElse(alt))
    decreases alt
  {
    match alt
    case NoElse => SameSelf(env.outer, {});
    case ElseBlock(block) => InnerFrame(m, o, block, env, clock);
    case ElseIf(s) => PerformFrame(m, o, s, env, clock);
  }

  lemma {:induction false} ShortCircuitExits(m: Meaning, o: Oracle, b: Block, env: Env, clock: nat)
    requires ShortCircuits(b)
    ensures Exec(m, o, b, env, clock).exited
    decreases b
  {
    var r := Perform(m, o, b.head, env, clock);
    if b.tail != Done && !r.exited {
      ShortCircuitExits(m, o, b.tail, r.env, r.clock);
    }
  }

  // ----- the scan judges the program it was given -----

  predicate SameEffect(a: Run, b: Run) {
    a.env == b.env && a.clock == b.clock && a.exited == b.exited
  }

  /** Verdicts do not change what a program does. */
  lemma {:induction false} ScanSameEffect(m: Meaning, o: Oracle, b: Block, k: Known, w: bool, env: Env, clock: nat)
    ensures SameEffect(Exec(m, o, Scan(b, k, w), env, clock), Exec(m, o, b, env, clock))
    decreases b
  {
    if b.Then? {
      JudgeSameEffect(m, o, b.head, k, w, env, clock);
      var r := Perform(m, o, b.head, env, clock);
      if !r.exited {
        ScanSameEffect(m, o, b.tail, Next(k, b.head), w, r.env, r.clock);
      }
    }
  }

  lemma {:induction false} JudgeSameEffect(m: Meaning, o: Oracle, s: Stmt, k: Known, w: bool, env: Env, clock: nat)
    ensures SameEffect(Perform(m, o, Judge(s, k, w), env, clock), Perform(m, o, s, env, clock))
    decreases s, 1
  {
    match s
    case If(Done, cond, body, alt, _) =>
      hide HandedDown, Entering, Report, Next;
      var down := HandedDown(k, s, w);
      var inner := Scope(map[], env);
      ScanSameEffect(m, o, body, Entering(down, cond, true), w, Scope(map[], inner), clock + 1);
      ElseSameEffect(m, o, alt, Entering(down, cond, false), w, inner, clock + 1);
    case _ => FreshSameEffect(m, o, s, w, env, clock);
  }

  lemma {:induction false} FreshSameEffect(m: Meaning, o: Oracle, s: Stmt, w: bool, env: Env, clock: nat)
    ensures SameEffect(Perform(m, o, ScanFresh(s, w), env, clock), Perform(m, o, s, env, clock))
    decreases s, 0
  {
    match s
    case If(init, cond, body, alt, _) =>
      var start := Exec(m, o, init, Scope(map[], env), clock);
      ScanSameEffect(m, o, body, NOTHING_KNOWN, w, Scope(map[], start.env), start.clock + 1);
      ElseSameEffect(m, o, alt, NOTHING_KNOWN, w, start.env, start.clock + 1);
    case Nested(block) => ScanSameEffect(m, o, block, NOTHING_KNOWN, w, Scope(map[], env), clock);
    case _ =>
  }

  lemma {:induction false} ElseSameEffect(m: Meaning, o: Oracle, alt: Else, k: Known, w: bool, env: Env, clock: nat)
    ensures SameEffect(Otherwise(m, o, ScanElse(alt, k, w), env, clock), Otherwise(m, o, alt, env, clock))
    decreases alt
  {
    match alt
    case NoElse =>
    case ElseBlock(block) => ScanSameEffect(m, o, block, k, w, Scope(map[], env), clock);
    case ElseIf(s) => FreshSameEffect(m, o, s, w, env, clock);
  }

  // ----- what is known is so -----

  /** A rule's promise about a pending local: its guard's relation brings its own. */
  predicate Promised(m: Meaning, b: Binding, x: string, env: Env) {
    b.guardName != "_" && Satisfies(m, b.guardNarrow, Look(env, b.guardName)) ==> Satisfies(m, b.narrow, Look(env, x))
  }

  /** Narrowed locals satisfy their relation, pending ones their promise. */
  predicate Justified(m: Meaning, k: Known, env: Env) {
    && k.names == k.narrowed.Keys && "_" !in k.narrowed && "_" !in k.pending
    && (forall x | x in k.narrowed :: Satisfies(m, k.narrowed[x].narrow, Look(env, x)))
    && (forall x | x in k.pending :: Promised(m, k.pending[x], x, env))
  }

  /** Nothing known speaks of these names. */
  predicate ClearOf(k: Known, xs: set<string>) {
    && (forall x | x in k.narrowed :: x !in xs)
    && (forall x | x in k.pending :: x !in xs && (k.pending[x].source == CondSource ==> k.pending[x].guardName !in xs))
  }

  predicate AllFromRules(k: Known) {
    forall x | x in k.pending :: k.pending[x].source == CondSource
  }

  lemma ForgetJustified(m: Meaning, k: Known, s: Stmt, env: Env)
    requires Justified(m, k, env)
    ensures Justified(m, Invalidate(k, s), env) && ClearOf(Invalidate(k, s), DeclaredIn(s) + AssignedIn(s))
  {
  }

  /** Facts clear of what changed survive the change. */
  lemma ChangeKeeps(m: Meaning, k: Known, env: Env, after: Env, ds: set<string>, xs: set<string>)
    requires Justified(m, k, env) && ClearOf(k, ds + xs) && AllFromRules(k) && SameBelow(env, after, ds, xs)
    ensures Justified(m, k, after)
  {
    forall x | x !in ds && x !in xs
      ensures Look(env, x) == Look(after, x)
    {
      SameBelowLook(env, after, ds, xs, x);
    }
  }

  lemma NarrowJustified(m: Meaning, k: Known, env: Env, name: string, proof: NarrowState)
    requires Justified(m, k, env) && name != "_" && Satisfies(m, proof, Look(env, name))
    ensures Justified(m, Narrow(k, name, proof), env)
  {
    forall x | x in k.pending && Awaits(k.pending[x], name, proof)
      ensures Satisfies(m, k.pending[x].narrow, Look(env, x))
    {
      assert Promised(m, k.pending[x], x, env);
    }
  }

  lemma NarrowDirectlyJustified(m: Meaning, k: Known, env: Env, name: string, proof: NarrowState)
    requires Justified(m, k, env) && name != "_" && Satisfies(m, proof, Look(env, name))
    ensures Justified(m, NarrowDirectly(k, name, proof), env)
  {
  }

  lemma OppositeHolds(m: Meaning, st: NarrowState, v: Value)
    ensures Satisfies(m, Opposite(st), v) <==> !Satisfies(m, st, v)
  {
  }

  /** Where a leaving guard came out false, promotion is justified. */
  lemma PromoteJustified(m: Meaning, k: Known, s: Stmt, env: Env)
    requires Justified(m, k, env) && ProperStmt(s) && AllFromRules(k)
    requires s.If? && s.init == Done && ShortCircuits(s.body) && s.cond.Guard? ==>
      !Satisfies(m, s.cond.state, Look(env, s.cond.name))
    ensures Justified(m, Promote(k, s), env) && AllFromRules(Promote(k, s))
  {
    if s.If? && s.init == Done && ShortCircuits(s.body) && s.cond.Guard? {
      var proof := Opposite(s.cond.state);
      OppositeHolds(m, s.cond.state, Look(env, s.cond.name));
      NarrowJustified(m, k, env, s.cond.name, proof);
      NarrowDirectlyJustified(m, Narrow(k, s.cond.name, proof), env, s.cond.name, proof);
    }
  }

  lemma PromoteClear(k: Known, s: Stmt, xs: set<string>)
    requires ClearOf(k, xs)
    ensures ClearOf(Promote(k, s), xs)
  {
  }

  lemma ForgetFromRules(k: Known, s: Stmt)
    requires AllFromRules(k)
    ensures AllFromRules(Invalidate(k, s))
  {
  }

  /** Past any statement but a recording one: what was known before, or was
      promoted, still holds. */
  lemma PassJustified(m: Meaning, k: Known, s: Stmt, env: Env, after: Env)
    requires Justified(m, k, env) && AllFromRules(k) && ProperStmt(s)
    requires SameBelow(env, after, DeclaredIn(s), AssignedIn(s))
    requires s.If? && s.init == Done && ShortCircuits(s.body) && s.cond.Guard? ==>
      !Satisfies(m, s.cond.state, Look(env, s.cond.name))
    ensures Justified(m, Promote(Invalidate(k, s), s), after) && AllFromRules(Promote(Invalidate(k, s), s))
  {
    ForgetJustified(m, k, s, env);
    ForgetFromRules(k, s);
    PromoteJustified(m, Invalidate(k, s), s, env);
    PromoteClear(Invalidate(k, s), s, DeclaredIn(s) + AssignedIn(s));
    ChangeKeeps(m, Promote(Invalidate(k, s), s), env, after, DeclaredIn(s), AssignedIn(s));
  }

  // ----- recording -----

  /** After an assignment each local has the result of the last place that
      names it. */
  lemma {:induction false} AssignedLook(env: Env, define: bool, lhs: seq<Target>, values: seq<Value>, i: nat)
    requires |lhs| <= |values| && LastTarget(lhs, i)
    ensures Look(AssignAll(env, define, lhs, values), lhs[i].name) == values[i]
  {
    var n := |lhs| - 1;
    var before := AssignAll(env, define, lhs[..n], values);
    if i == n {
      WriteLook(before, define, lhs[n], values[n]);
    } else {
      AssignedLook(env, define, lhs[..n], values, i);
      WriteSame(before, define, lhs[n], values[n]);
      SameLook(before, AssignAll(env, define, lhs, values), LocalOf(lhs[n]), lhs[i].name);
    }
  }

  lemma {:induction false} StoreLook(env: Env, x: string, v: Value)
    requires x != "_"
    ensures Look(Store(env, x, v), x) == v
  {
    if env.Scope? && x !in env.vars {
      StoreLook(env.outer, x, v);
    }
  }

  lemma WriteLook(env: Env, define: bool, t: Target, v: Value)
    requires t.Local? && t.name != "_"
    ensures Look(Write(env, define, t, v), t.name) == v
  {
    StoreLook(env, t.name, v);
  }

  /** The results a call has just been assigned to its targets. */
  ghost predicate Received(m: Meaning, c: Callee, r: Returned, lhs: seq<Target>, env: Env) {
    && Honours(m, c, r) && |lhs| == |c.results| && Retained(c, lhs)
    && (forall i: nat | LastTarget(lhs, i) :: Look(env, lhs[i].name) == r.results[i])
  }

  lemma {:induction false} RecordNonNilJustified(m: Meaning, k: Known, c: Callee, r: Returned, lhs: seq<Target>, n: nat,
                                                 env: Env)
    requires Justified(m, k, env) && AllFromRules(k) && Received(m, c, r, lhs, env)
    ensures Justified(m, RecordNonNil(k, c, lhs, n), env) && AllFromRules(RecordNonNil(k, c, lhs, n))
  {
    if n > 0 {
      RecordNonNilJustified(m, k, c, r, lhs, n - 1, env);
      if NonNilAt(c, lhs, n - 1) {
        assert SpeaksOf(c, n - 1) && LastTarget(lhs, n - 1);
        assert Look(env, lhs[n - 1].name) == r.results[n - 1];
      }
    }
  }

  /** The results a rule's binding relates, and the locals they are assigned to. */
  lemma BoundSlots(c: Callee, lhs: seq<Target>, r: Rule) returns (g: nat, t: nat)
    requires RuleBinding(c, lhs, r).Some?
    ensures RuleShape(r).Some? && g < |lhs| && t < |lhs|
    ensures var s, b := RuleShape(r).value, RuleBinding(c, lhs, r).value;
      && ReturnPosition(c, s.guardRef) == Some(g + 1) && ReturnPosition(c, s.targetRef) == Some(t + 1)
      && lhs[g] == Local(b.1.guardName) && lhs[t] == Local(b.0) && b.0 != "_"
      && b.1 == Binding(CondSource, s.targetNarrow, s.guardNarrow, b.1.guardName)
  {
    hide RuleShape, ReturnPosition;
    g := ReturnPosition(c, RuleShape(r).value.guardRef).value - 1;
    t := ReturnPosition(c, RuleShape(r).value.targetRef).value - 1;
  }

  lemma RuleBindingPromised(m: Meaning, c: Callee, r: Returned, lhs: seq<Target>, j: nat, env: Env)
    requires Received(m, c, r, lhs, env) && j < |c.rules| && RuleBinding(c, lhs, c.rules[j]).Some?
    ensures var b := RuleBinding(c, lhs, c.rules[j]).value;
      b.0 != "_" && b.1.source == CondSource && Promised(m, b.1, b.0, env)
  {
    hide RuleHolds, RuleShape, RuleBinding, ReturnPosition, Satisfies;
    var g, t := BoundSlots(c, lhs, c.rules[j]);
    ShapeIsEntailed(m, r.refs, c.rules[j]);
    assert RuleSpeaksOf(c, c.rules[j], g) && RuleSpeaksOf(c, c.rules[j], t);
    assert SpeaksOf(c, g) && SpeaksOf(c, t);
  }

  lemma {:induction false} RecordRulesJustified(m: Meaning, k: Known, c: Callee, r: Returned, lhs: seq<Target>, n: nat,
                                                env: Env)
    requires Justified(m, k, env) && AllFromRules(k) && Received(m, c, r, lhs, env) && n <= |c.rules|
    ensures Justified(m, RecordRules(k, c, lhs, n), env) && AllFromRules(RecordRules(k, c, lhs, n))
  {
    hide Received, RuleShape, Promised;
    if n > 0 {
      RecordRulesJustified(m, k, c, r, lhs, n - 1, env);
      if RuleBinding(c, lhs, c.rules[n - 1]).Some? {
        RuleBindingPromised(m, c, r, lhs, n - 1, env);
      }
    }
  }

  // ----- handing down what only later statements may use -----

  /** What the guard promotes for the statements after it changes no verdict in
      its own body. */
  predicate Unmoved(s: Stmt, k: Known)
    requires s.If?
  {
    Scan(s.body, Entering(HandedDown(k, s, true), s.cond, true), true)
    == Scan(s.body, Entering(HandedDown(k, s, false), s.cond, true), true)
  }

  /** So it is for every guard that inherits knowledge. */
  predicate Harmless(b: Block, k: Known)
    decreases b
  {
    match b
    case Done => true
    case Then(s, tail) => HarmlessStmt(s, k) && Harmless(tail, Next(k, s))
  }

  predicate HarmlessStmt(s: Stmt, k: Known)
    decreases s, 1
  {
    match s
    case If(Done, cond, body, alt, _) =>
      && Unmoved(s, k)
      && Harmless(body, Entering(HandedDown(k, s, false), cond, true))
      && HarmlessElse(alt, Entering(HandedDown(k, s, true), cond, false))
    case _ => HarmlessFresh(s)
  }

  predicate HarmlessElse(alt: Else, k: Known)
    decreases alt
  {
    match alt
    case NoElse => true
    case ElseBlock(block) => Harmless(block, k)
    case ElseIf(s) => HarmlessFresh(s)
  }

  predicate HarmlessFresh(s: Stmt)
    decreases s, 0
  {
    match s
    case If(_, _, body, alt, _) => Harmless(body, NOTHING_KNOWN) && HarmlessElse(alt, NOTHING_KNOWN)
    case Nested(block) => Harmless(block, NOTHING_KNOWN)
    case _ => true
  }

  // ----- the theorem -----

  predicate AllTruthful(claims: seq<Claim>) {
    forall i | 0 <= i < |claims| :: Truthful(claims[i])
  }

  /** Inside fresh scopes every local looks the same. */
  lemma JustifiedInside(m: Meaning, k: Known, env: Env)
    requires Justified(m, k, env)
    ensures Justified(m, k, Scope(map[], env))
  {
    assert forall x :: Look(Scope(map[], env), x) == Look(env, x);
  }

  lemma EnteringJustified(m: Meaning, k: Known, cond: Condition, taken: bool, env: Env)
    requires Justified(m, k, env) && AllFromRules(k) && (cond.Guard? ==> cond.name != "_")
    requires cond.Guard? ==> (taken <==> Satisfies(m, cond.state, Look(env, cond.name)))
    ensures Justified(m, Entering(k, cond, taken), env) && AllFromRules(Entering(k, cond, taken))
  {
    if cond.Guard? {
      OppositeHolds(m, cond.state, Look(env, cond.name));
      NarrowJustified(m, k, env, cond.name, if taken then cond.state else Opposite(cond.state));
    }
  }

  lemma ReportTruthful(m: Meaning, k: Known, s: Stmt, env: Env)
    requires SpellingsDistinct(m) && Justified(m, k, env) && Report(k, s) != Silent
    ensures Truthful(Claim(Report(k, s), Satisfies(m, s.cond.state, Look(env, s.cond.name))))
  {
    OutcomeTruthfulIff(m, k.narrowed[s.cond.name].narrow, s.cond.state);
  }

  lemma VerdictIsSound(m: Meaning, o: Oracle, k: Known, s: Stmt, env: Env, clock: nat)
    requires SpellingsDistinct(m) && Justified(m, k, env) && s.If?
    ensures Report(k, s) != Silent ==> AllTruthful([Claim(Report(k, s), Comes(m, o, s.cond, env, clock))])
  {
    if Report(k, s) != Silent {
      ReportTruthful(m, k, s, env);
    }
  }

  lemma NothingJustified(m: Meaning, env: Env)
    ensures Justified(m, NOTHING_KNOWN, env) && AllFromRules(NOTHING_KNOWN)
  {
  }

  /** What a call records about its results. */
  lemma CallJustified(m: Meaning, o: Oracle, s: Stmt, k: Known, env: Env, clock: nat)
    requires s.Assign? && s.rhs.Call? && ProperStmt(s) && Justified(m, k, env) && AllFromRules(k)
    requires !Perform(m, o, s, env, clock).exited
    ensures Justified(m, Next(k, s), Perform(m, o, s, env, clock).env) && AllFromRules(Next(k, s))
  {
    var c := s.rhs.callee;
    var r := o.call(clock, c);
    var after := Perform(m, o, s, env, clock).env;
    PerformFrame(m, o, s, env, clock);
    PassJustified(m, k, s, env, after);
    var k2 := Promote(Invalidate(k, s), s);
    forall i: nat | LastTarget(s.lhs, i)
      ensures Look(after, s.lhs[i].name) == r.results[i]
    {
      AssignedLook(env, s.define, s.lhs, r.results, i);
    }
    RecordNonNilJustified(m, k2, c, r, s.lhs, |s.lhs|, after);
    RecordRulesJustified(m, RecordNonNil(k2, c, s.lhs, |s.lhs|), c, r, s.lhs, |c.rules|, after);
  }

  /** A guard that leaves was false wherever the run goes on. */
  lemma PastGuard(m: Meaning, o: Oracle, s: Stmt, env: Env, clock: nat)
    requires s.If? && s.init == Done && ShortCircuits(s.body) && s.cond.Guard? && !Perform(m, o, s, env, clock).exited
    ensures !Satisfies(m, s.cond.state, Look(env, s.cond.name))
  {
    var inner := Scope(map[], env);
    assert Look(inner, s.cond.name) == Look(env, s.cond.name);
    ShortCircuitExits(m, o, s.body, Scope(map[], inner), clock + 1);
  }

  lemma NextJustified(m: Meaning, o: Oracle, s: Stmt, k: Known, env: Env, clock: nat)
    requires ProperStmt(s) && Justified(m, k, env) && AllFromRules(k) && !Perform(m, o, s, env, clock).exited
    ensures Justified(m, Next(k, s), Perform(m, o, s, env, clock).env) && AllFromRules(Next(k, s))
  {
    if s.Assign? && s.rhs.Call? {
      CallJustified(m, o, s, k, env, clock);
    } else {
      PerformFrame(m, o, s, env, clock);
      if s.If? && s.init == Done && ShortCircuits(s.body) && s.cond.Guard? {
        PastGuard(m, o, s, env, clock);
      }
      PassJustified(m, k, s, env, Perform(m, o, s, env, clock).env);
    }
  }

  /** Every verdict is truthful: a guard called redundant holds and one called
      impossible fails each time a run meets it, from every state the knowledge
      is justified in. So it is in every program when branches are entered
      from what was known before the if; and, as the scan is written, in every
      program whose leaving guards promote nothing that moves a verdict in
      their own bodies. */
  lemma {:induction false} ScanIsSound(m: Meaning, o: Oracle, b: Block, k: Known, w: bool, env: Env, clock: nat)
    requires SpellingsDistinct(m) && Proper(b) && Justified(m, k, env) && AllFromRules(k)
    requires w ==> Harmless(b, k)
    ensures AllTruthful(Exec(m, o, Scan(b, k, w), env, clock).claims)
    decreases b
  {
    if b.Then? {
      JudgeIsSound(m, o, b.head, k, w, env, clock);
      JudgeSameEffect(m, o, b.head, k, w, env, clock);
      var r := Perform(m, o, b.head, env, clock);
      if !r.exited {
        NextJustified(m, o, b.head, k, env, clock);
        ScanIsSound(m, o, b.tail, Next(k, b.head), w, r.env, r.clock);
      }
    }
  }

  /** The claims of an if: its own, then its branch's. */
  lemma IfClaims(m: Meaning, o: Oracle, s: Stmt, env: Env, clock: nat)
    requires s.If? && Simple(s.init)
    ensures var start := Exec(m, o, s.init, Scope(map[], env), clock);
      var held := Comes(m, o, s.cond, start.env, start.clock);
      var branch := if held then Exec(m, o, s.body, Scope(map[], start.env), start.clock + 1).claims
                    else Otherwise(m, o, s.alt, start.env, start.clock + 1).claims;
      var own := if s.verdict == Silent then [] else [Claim(s.verdict, held)];
      Perform(m, o, s, env, clock).claims == if start.exited then [] else own + branch
  {
    var start := Exec(m, o, s.init, Scope(map[], env), clock);
    assert start.claims == [];
  }

  lemma {:induction false} JudgeIsSound(m: Meaning, o: Oracle, s: Stmt, k: Known, w: bool, env: Env, clock: nat)
    requires SpellingsDistinct(m) && ProperStmt(s) && Justified(m, k, env) && AllFromRules(k)
    requires w ==> HarmlessStmt(s, k)
    ensures AllTruthful(Perform(m, o, Judge(s, k, w), env, clock).claims)
    decreases s, 1
  {
    match s
    case If(Done, cond, body, alt, _) =>
      hide Justified, SpellingsDistinct, Perform, Report, Outcome, Truthful,
           AllFromRules, Entering, Invalidate, Promote;
      hide HandedDown, Harmless, HarmlessElse, Unmoved;
      var inner := Scope(map[], env);
      JustifiedInside(m, k, env);
      IfClaims(m, o, Judge(s, k, w), env, clock);
      VerdictIsSound(m, o, k, s, inner, clock);
      BodyIsSound(m, o, s, k, w, inner, clock);
      AltIsSound(m, o, s, k, w, inner, clock);
    case _ => FreshIsSound(m, o, s, w, env, clock);
  }

  /** A body entered as written is judged as if entered as intended. */
  lemma {:induction false} BodyIsSound(m: Meaning, o: Oracle, s: Stmt, k: Known, w: bool, env: Env, clock: nat)
    requires SpellingsDistinct(m) && s.If? && ProperStmt(s) && Justified(m, k, env) && AllFromRules(k)
    requires w ==> Unmoved(s, k) && Harmless(s.body, Entering(HandedDown(k, s, false), s.cond, true))
    ensures Comes(m, o, s.cond, env, clock) ==>
      AllTruthful(Exec(m, o, Scan(s.body, Entering(HandedDown(k, s, w), s.cond, true), w),
                       Scope(map[], env), clock + 1).claims)
    decreases s, 0
  {
    if Comes(m, o, s.cond, env, clock) {
      hide Justified, SpellingsDistinct, Truthful, AllFromRules, Entering, Exec, Scan, Invalidate, Promote, Harmless;
      var before := HandedDown(k, s, false);
      ForgetJustified(m, k, s, env);
      ForgetFromRules(k, s);
      EnteringJustified(m, before, s.cond, true, env);
      JustifiedInside(m, Entering(before, s.cond, true), env);
      ScanIsSound(m, o, s.body, Entering(before, s.cond, true), w, Scope(map[], env), clock + 1);
    }
  }

  /** The else runs where the guard failed, so there even what was promoted is
      justified. */
  lemma {:induction false} AltIsSound(m: Meaning, o: Oracle, s: Stmt, k: Known, w: bool, env: Env, clock: nat)
    requires SpellingsDistinct(m) && s.If? && ProperStmt(s) && Justified(m, k, env) && AllFromRules(k)
    requires w ==> HarmlessElse(s.alt, Entering(HandedDown(k, s, true), s.cond, false))
    ensures !Comes(m, o, s.cond, env, clock) ==>
      AllTruthful(Otherwise(m, o, ScanElse(s.alt, Entering(HandedDown(k, s, w), s.cond, false), w),
                            env, clock + 1).claims)
    decreases s, 0
  {
    if !Comes(m, o, s.cond, env, clock) {
      hide Justified, SpellingsDistinct, Truthful, AllFromRules, Entering, Otherwise,
           ScanElse, Invalidate, Promote, HarmlessElse;
      var down := HandedDown(k, s, w);
      ForgetJustified(m, k, s, env);
      ForgetFromRules(k, s);
      if w {
        PromoteJustified(m, Invalidate(k, s), s, env);
      }
      EnteringJustified(m, down, s.cond, false, env);
      ElseIsSound(m, o, s.alt, Entering(down, s.cond, false), w, env, clock + 1);
    }
  }

  lemma {:induction false} ElseIsSound(m: Meaning, o: Oracle, alt: Else, k: Known, w: bool, env: Env, clock: nat)
    requires SpellingsDistinct(m) && ProperElse(alt) && Justified(m, k, env) && AllFromRules(k)
    requires w ==> HarmlessElse(alt, k)
    ensures AllTruthful(Otherwise(m, o, ScanElse(alt, k, w), env, clock).claims)
    decreases alt
  {
    match alt
    case NoElse =>
    case ElseBlock(block) =>
      JustifiedInside(m, k, env);
      ScanIsSound(m, o, block, k, w, Scope(map[], env), clock);
    case ElseIf(s) => FreshIsSound(m, o, s, w, env, clock);
  }

  /** Blocks met on their own need no knowledge; an init clause holds none. */
  lemma {:induction false} FreshIsSound(m: Meaning, o: Oracle, s: Stmt, w: bool, env: Env, clock: nat)
    requires SpellingsDistinct(m) && ProperStmt(s) && (w ==> HarmlessFresh(s))
    ensures AllTruthful(Perform(m, o, ScanFresh(s, w), env, clock).claims)
    decreases s, 0
  {
    match s
    case If(init, cond, body, alt, _) =>
      var start := Exec(m, o, init, Scope(map[], env), clock);
      IfClaims(m, o, ScanFresh(s, w), env, clock);
      NothingJustified(m, Scope(map[], start.env));
      NothingJustified(m, start.env);
      ScanIsSound(m, o, body, NOTHING_KNOWN, w, Scope(map[], start.env), start.clock + 1);
      ElseIsSound(m, o, alt, NOTHING_KNOWN, w, start.env, start.clock + 1);
    case Nested(block) =>
      NothingJustified(m, Scope(map[], env));
      ScanIsSound(m, o, block, NOTHING_KNOWN, w, Scope(map[], env), clock);
    case _ =>
  }

  /** From nothing known, then, every guard reported dead is dead. */
  lemma DeadGuardsAreDead(m: Meaning, o: Oracle, b: Block, w: bool, env: Env, clock: nat)
    requires SpellingsDistinct(m) && Proper(b) && (w ==> Harmless(b, NOTHING_KNOWN))
    ensures AllTruthful(Exec(m, o, Scan(b, NOTHING_KNOWN, w), env, clock).claims)
  {
    NothingJustified(m, env);
    ScanIsSound(m, o, b, NOTHING_KNOWN, w, env, clock);
  }
}
