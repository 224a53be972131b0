/** Where the dead-guard scan is wrong: descending with facts that hold only
    after the if, one local assigned twice, and one value spelt two ways. */
module DeadGuardLimits {
  import opened Options
  import opened Dsl
  import opened GuardLang
  import opened DeadGuard
  import opened DeadGuardSound

  const IS_NIL := NarrowState(true, NilValue)

  function Result(n: string): Reference {
    Reference(Dollar, n, [])
  }

  /** Two results; `$2 == nil => $1 != nil`. */
  const OPEN := Callee(["", ""], [], [Rule(Imply, Some(Expression(NilCheck, Result("2"), Eq, [])),
                                                 Some(Expression(NilCheck, Result("1"), Neq, [])))])

  const LEAVE_IF_NIL := If(Done, Guard("a", IS_NIL), Then(Return, Done), NoElse, Silent)

  const LEAVE_IF_ERR := If(Done, Guard("err", NON_NIL), Then(LEAVE_IF_NIL, Then(Return, Done)), NoElse, Silent)

  const OPEN_CALL := Assign(true, [Local("a"), Local("err")], Call(OPEN))

  /** `a, err := open(); if err != nil { if a == nil { return }; return }` */
  const NESTED_GUARD := Then(OPEN_CALL, Then(LEAVE_IF_ERR, Done))

  const ERR_RULE := Binding(CondSource, NON_NIL, IS_NIL, "err")

  lemma PositionsOfOpen()
    ensures ReturnPosition(OPEN, Result("1")) == Some(1) && ReturnPosition(OPEN, Result("2")) == Some(2)
  {
    AtoiDigit("1");
    AtoiDigit("2");
  }

  lemma AtoiDigit(s: string)
    requires |s| == 1 && '1' <= s[0] <= '9'
    ensures Text.Atoi(s) == Some(s[0] as int - '0' as int)
  {
    assert s[..0] == [] && Text.DigitsValue("") == 0;
    assert Text.DigitsValue(s) == 10 * Text.DigitsValue(s[..0]) + (s[0] as int - '0' as int);
    assert Text.AllDigits(s);
  }

  lemma OpenBinding()
    ensures RuleBinding(OPEN, OPEN_CALL.lhs, OPEN.rules[0]) == Some(("a", ERR_RULE))
  {
    PositionsOfOpen();
  }

  lemma AfterOpen()
    ensures Next(NOTHING_KNOWN, OPEN_CALL) == Known(map["a" := ERR_RULE], map[], {})
  {
    OpenBinding();
    var k := Forget(NOTHING_KNOWN, {}, AssignedIn(OPEN_CALL));
    assert k == NOTHING_KNOWN;
    assert RecordNonNil(k, OPEN, OPEN_CALL.lhs, 2) == k by {
      assert RecordNonNil(k, OPEN, OPEN_CALL.lhs, 1) == k;
    }
    assert RecordRules(k, OPEN, OPEN_CALL.lhs, 0) == k;
    assert RecordRules(k, OPEN, OPEN_CALL.lhs, 1) == k.(pending := map["a" := ERR_RULE]);
  }

  lemma AssignedByGuard()
    ensures AssignedIn(LEAVE_IF_ERR) == {} && AssignedIn(LEAVE_IF_NIL) == {}
  {
    assert Assigned(Then(Return, Done)) == {};
    assert Assigned(LEAVE_IF_ERR.body) == {};
  }

  /** The leaving guard on err promotes a, as it should for what follows. */
  lemma PromotedByGuard()
    ensures var k := Known(map["a" := ERR_RULE], map[], {});
      Promote(Invalidate(k, LEAVE_IF_ERR), LEAVE_IF_ERR) == Known(map[], map["a" := ERR_RULE], {"a"})
  {
    AssignedByGuard();
    var k := Known(map["a" := ERR_RULE], map[], {});
    assert Invalidate(k, LEAVE_IF_ERR) == k;
    assert ShortCircuits(LEAVE_IF_ERR.body);
    assert Awaits(ERR_RULE, "err", Opposite(NON_NIL));
    assert Narrow(k, "err", Opposite(NON_NIL)) == Known(map[], map["a" := ERR_RULE], {"a"});
  }

  /** As written, the guard on a inside that body is called impossible. */
  lemma InnerVerdict()
    ensures Judge(LEAVE_IF_ERR, Known(map["a" := ERR_RULE], map[], {}), true)
      == LEAVE_IF_ERR.(body := Then(LEAVE_IF_NIL.(verdict := Impossible), Then(Return, Done)))
  {
    hide Promote, Invalidate, Narrow;
    PromotedByGuard();
    var k := Known(map["a" := ERR_RULE], map[], {});
    var down := HandedDown(k, LEAVE_IF_ERR, true);
    assert down == Known(map[], map["a" := ERR_RULE], {"a"});
    EnteringKeeps(down);
    JudgedLeaveIfNil(down);
    assert Report(k, LEAVE_IF_ERR) == Silent;
    ScannedBody(down);
  }

  lemma EnteringKeeps(down: Known)
    requires down.pending == map[]
    ensures Entering(down, LEAVE_IF_ERR.cond, true) == down && Entering(down, LEAVE_IF_ERR.cond, false) == down
  {
  }

  lemma JudgedLeaveIfNil(down: Known)
    requires down == Known(map[], map["a" := ERR_RULE], {"a"})
    ensures Judge(LEAVE_IF_NIL, down, true) == LEAVE_IF_NIL.(verdict := Impossible)
  {
    assert ShortCircuits(LEAVE_IF_NIL.body);
    assert Report(down, LEAVE_IF_NIL) == Impossible;
    var inner := HandedDown(down, LEAVE_IF_NIL, true);
    assert Scan(Done, Next(Entering(inner, LEAVE_IF_NIL.cond, true), Return), true) == Done;
    assert Scan(LEAVE_IF_NIL.body, Entering(inner, LEAVE_IF_NIL.cond, true), true) == LEAVE_IF_NIL.body;
  }

  lemma ScannedBody(down: Known)
    requires Judge(LEAVE_IF_NIL, down, true) == LEAVE_IF_NIL.(verdict := Impossible)
    ensures Scan(LEAVE_IF_ERR.body, down, true) == Then(LEAVE_IF_NIL.(verdict := Impossible), Then(Return, Done))
  {
    var next := Next(down, LEAVE_IF_NIL);
    assert Scan(Done, Next(next, Return), true) == Done;
    assert Scan(Then(Return, Done), next, true) == Then(Return, Done);
  }

  /** A number for each spelling. */
  function Code(s: string): nat {
    if s == [] then 0 else 1 + s[|s| - 1] as int + 0x200000 * Code(s[..|s| - 1])
  }

  lemma {:induction false} CodeIsInjective(s: string, t: string)
    requires Code(s) == Code(t)
    ensures s == t
  {
    if s != [] && t != [] {
      CodeIsInjective(s[..|s| - 1], t[..|t| - 1]);
      assert s == s[..|s| - 1] + [s[|s| - 1]] && t == t[..|t| - 1] + [t[|t| - 1]];
    }
  }

  const PLAIN := Meaning(s => Of(Code(s)), (v, w) => false, v => false)

  lemma PlainIsDistinct()
    ensures SpellingsDistinct(PLAIN)
  {
    forall s: string, t: string
      ensures PLAIN.literal(s) != Nil && (s != t ==> PLAIN.literal(s) != PLAIN.literal(t))
    {
      if Code(s) == Code(t) {
        CodeIsInjective(s, t);
      }
    }
  }

  /** A call that failed: no value, and an error. */
  const FAILED := Returned(
    [Nil, Of(1)],
    (ref: Reference) => if ReturnPosition(OPEN, ref) == Some(1) then Nil else Of(1))

  const FAILED_RUN := Oracle(n => Nil, n => false, (n, c) => FAILED)

  lemma FailureIsHonest()
    ensures Honours(PLAIN, OPEN, FAILED)
  {
    PositionsOfOpen();
  }

  const ANNOTATED := Then(
    OPEN_CALL,
    Then(LEAVE_IF_ERR.(body := Then(LEAVE_IF_NIL.(verdict := Impossible), Then(Return, Done))), Done))

  lemma ScannedAsWritten()
    ensures Scan(NESTED_GUARD, NOTHING_KNOWN, true) == ANNOTATED
  {
    hide Judge, Next;
    AfterOpen();
    InnerVerdict();
    var k := Known(map["a" := ERR_RULE], map[], {});
    assert Scan(Done, Next(k, LEAVE_IF_ERR), true) == Done;
    assert Scan(Then(LEAVE_IF_ERR, Done), k, true) == ANNOTATED.tail;
    JudgedCall();
  }

  lemma JudgedCall()
    ensures Judge(OPEN_CALL, NOTHING_KNOWN, true) == OPEN_CALL
  {
  }

  const CALLED: Env := Base(map["a" := Nil, "err" := Of(1)])

  lemma CalledEnv()
    ensures Perform(PLAIN, FAILED_RUN, OPEN_CALL, Base(map[]), 0) == Run(CALLED, 1, false, [])
  {
    FailureIsHonest();
    var lhs := OPEN_CALL.lhs;
    assert lhs[..1] == [Local("a")] && lhs[..1][..0] == [];
    assert AssignAll(Base(map[]), true, lhs[..1], FAILED.results) == Base(map["a" := Nil]);
    assert AssignAll(Base(map[]), true, lhs, FAILED.results) == Base(map["a" := Nil]["err" := Of(1)]);
    assert map["a" := Nil]["err" := Of(1)] == map["a" := Nil, "err" := Of(1)];
  }

  /** In that run the guard called impossible comes out true. */
  lemma InnerClaim(env: Env, clock: nat)
    requires Look(env, "a") == Nil
    ensures Perform(PLAIN, FAILED_RUN, LEAVE_IF_NIL.(verdict := Impossible), env, clock).claims
      == [Claim(Impossible, true)]
    ensures Perform(PLAIN, FAILED_RUN, LEAVE_IF_NIL.(verdict := Impossible), env, clock).exited
  {
    var inner := Scope(map[], env);
    assert Look(inner, "a") == Nil;
    assert Exec(PLAIN, FAILED_RUN, Done, inner, clock) == Run(inner, clock, false, []);
    assert Exec(PLAIN, FAILED_RUN, Then(Return, Done), Scope(map[], inner), clock + 1)
      == Run(Scope(map[], inner), clock + 1, true, []);
  }

  lemma OuterClaims()
    ensures Perform(PLAIN, FAILED_RUN, ANNOTATED.tail.head, CALLED, 1).claims == [Claim(Impossible, true)]
  {
    hide Perform;
    var s := ANNOTATED.tail.head;
    var inner := Scope(map[], CALLED);
    assert Look(inner, "err") == Of(1) && Look(Scope(map[], inner), "a") == Nil;
    assert Exec(PLAIN, FAILED_RUN, Done, inner, 1) == Run(inner, 1, false, []);
    IfClaims(PLAIN, FAILED_RUN, s, CALLED, 1);
    InnerClaim(Scope(map[], inner), 2);
    assert Exec(PLAIN, FAILED_RUN, s.body, Scope(map[], inner), 2).claims == [Claim(Impossible, true)];
  }

  lemma TwoStatements(m: Meaning, o: Oracle, s: Stmt, t: Stmt, env: Env, clock: nat)
    ensures var r := Perform(m, o, s, env, clock);
      !r.exited ==>
        Exec(m, o, Then(s, Then(t, Done)), env, clock).claims == r.claims + Perform(m, o, t, r.env, r.clock).claims
  {
    var r := Perform(m, o, s, env, clock);
    if !r.exited {
      assert Exec(m, o, Then(s, Then(t, Done)), env, clock).claims
        == r.claims + Exec(m, o, Then(t, Done), r.env, r.clock).claims;
      OneStatement(m, o, t, r.env, r.clock);
    }
  }

  lemma OneStatement(m: Meaning, o: Oracle, t: Stmt, env: Env, clock: nat)
    ensures Exec(m, o, Then(t, Done), env, clock).claims == Perform(m, o, t, env, clock).claims
  {
    var r := Perform(m, o, t, env, clock);
    if !r.exited {
      assert Exec(m, o, Done, r.env, r.clock).claims == [];
    }
  }

  lemma NestedGuardIsProper()
    ensures Proper(NESTED_GUARD)
  {
    assert Proper(Then(Return, Done)) && ProperStmt(LEAVE_IF_NIL)
      && Proper(LEAVE_IF_ERR.body) && ProperStmt(LEAVE_IF_ERR);
    DistinctAreRetained(OPEN, OPEN_CALL.lhs);
    assert ProperStmt(OPEN_CALL);
    assert Proper(Then(LEAVE_IF_ERR, Done));
  }

  /** The scan as written calls a live guard dead: handing an if's branches
      what it knows only after the if is unsound, whatever else is as it
      should be. */
  lemma WrittenOrderIsUnsound()
    ensures SpellingsDistinct(PLAIN) && Proper(NESTED_GUARD) && Honours(PLAIN, OPEN, FAILED)
    ensures !AllTruthful(Exec(PLAIN, FAILED_RUN, Scan(NESTED_GUARD, NOTHING_KNOWN, true), Base(map[]), 0).claims)
  {
    hide Perform, Exec, Scan, Proper, SpellingsDistinct, Honours;
    PlainIsDistinct();
    NestedGuardIsProper();
    FailureIsHonest();
    ScannedAsWritten();
    CalledEnv();
    OuterClaims();
    TwoStatements(PLAIN, FAILED_RUN, OPEN_CALL, ANNOTATED.tail.head, Base(map[]), 0);
    assert ANNOTATED == Then(OPEN_CALL, Then(ANNOTATED.tail.head, Done));
    var claims := Exec(PLAIN, FAILED_RUN, ANNOTATED, Base(map[]), 0).claims;
    assert claims == [] + [Claim(Impossible, true)];
    assert !Truthful(claims[0]);
  }

  // ----- programs on which the written order does no harm -----

  /** No guard of its own block inherits knowledge. */
  predicate Guardless(b: Block) {
    b.Then? ==> !(b.head.If? && b.head.init == Done) && Guardless(b.tail)
  }

  /** A block without guards is judged alike whatever is known. */
  lemma {:induction false} GuardlessScan(b: Block, k: Known, l: Known, w: bool)
    requires Guardless(b)
    ensures Scan(b, k, w) == Scan(b, l, w)
    decreases b
  {
    if b.Then? {
      GuardlessScan(b.tail, Next(k, b.head), Next(l, b.head), w);
    }
  }

  /** No guard sits in the body of a guard that leaves, nor, if `alts`, in its
      else. */
  predicate Sheltered(b: Block, alts: bool)
    decreases b
  {
    match b
    case Done => true
    case Then(s, tail) => ShelteredStmt(s, alts) && Sheltered(tail, alts)
  }

  predicate ShelteredStmt(s: Stmt, alts: bool)
    decreases s
  {
    match s
    case If(init, cond, body, alt, _) =>
      && (init == Done && ShortCircuits(body) && cond.Guard? ==>
          Guardless(body) && (alts && alt.ElseBlock? ==> Guardless(alt.block)))
      && Sheltered(body, alts) && ShelteredElse(alt, alts)
    case Nested(block) => Sheltered(block, alts)
    case _ => true
  }

  predicate ShelteredElse(alt: Else, alts: bool)
    decreases alt
  {
    match alt
    case NoElse => true
    case ElseBlock(block) => Sheltered(block, alts)
    case ElseIf(s) => ShelteredStmt(s, alts)
  }

  lemma {:induction false} ShelteredIsHarmless(b: Block, k: Known, alts: bool)
    requires Sheltered(b, alts)
    ensures Harmless(b, k)
    decreases b
  {
    if b.Then? {
      ShelteredStmtIsHarmless(b.head, k, alts);
      ShelteredIsHarmless(b.tail, Next(k, b.head), alts);
    }
  }

  lemma {:induction false} ShelteredStmtIsHarmless(s: Stmt, k: Known, alts: bool)
    requires ShelteredStmt(s, alts)
    ensures HarmlessStmt(s, k)
    decreases s, 1
  {
    match s
    case If(Done, cond, body, alt, _) =>
      var after, before := HandedDown(k, s, true), HandedDown(k, s, false);
      if ShortCircuits(body) && cond.Guard? {
        GuardlessScan(body, Entering(after, cond, true), Entering(before, cond, true), true);
      } else {
        assert after == before;
      }
      ShelteredIsHarmless(body, Entering(before, cond, true), alts);
      ShelteredElseIsHarmless(alt, Entering(after, cond, false), alts);
    case _ => ShelteredFreshIsHarmless(s, alts);
  }

  lemma {:induction false} ShelteredElseIsHarmless(alt: Else, k: Known, alts: bool)
    requires ShelteredElse(alt, alts)
    ensures HarmlessElse(alt, k)
    decreases alt
  {
    match alt
    case NoElse =>
    case ElseBlock(block) => ShelteredIsHarmless(block, k, alts);
    case ElseIf(s) => ShelteredFreshIsHarmless(s, alts);
  }

  lemma {:induction false} ShelteredFreshIsHarmless(s: Stmt, alts: bool)
    requires ShelteredStmt(s, alts)
    ensures HarmlessFresh(s)
    decreases s, 0
  {
    match s
    case If(_, _, body, alt, _) =>
      ShelteredIsHarmless(body, NOTHING_KNOWN, alts);
      ShelteredElseIsHarmless(alt, NOTHING_KNOWN, alts);
    case Nested(block) => ShelteredIsHarmless(block, NOTHING_KNOWN, alts);
    case _ =>
  }

  /** Where neither branch holds a guard, both orders give the same verdicts. */
  lemma {:induction false} OrdersAgree(b: Block, k: Known)
    requires Sheltered(b, true)
    ensures Scan(b, k, true) == Scan(b, k, false)
    decreases b
  {
    if b.Then? {
      OrdersAgreeOn(b.head, k);
      OrdersAgree(b.tail, Next(k, b.head));
    }
  }

  lemma {:induction false} OrdersAgreeOn(s: Stmt, k: Known)
    requires ShelteredStmt(s, true)
    ensures Judge(s, k, true) == Judge(s, k, false)
    decreases s, 1
  {
    match s
    case If(Done, cond, body, alt, _) =>
      var after, before := HandedDown(k, s, true), HandedDown(k, s, false);
      if ShortCircuits(body) && cond.Guard? {
        GuardlessScan(body, Entering(after, cond, true), Entering(before, cond, true), true);
        if alt.ElseBlock? {
          GuardlessScan(alt.block, Entering(after, cond, false), Entering(before, cond, false), true);
        }
      } else {
        assert after == before;
      }
      OrdersAgree(body, Entering(before, cond, true));
      OrdersAgreeOnElse(alt, Entering(before, cond, false));
    case _ => OrdersAgreeFresh(s);
  }

  lemma {:induction false} OrdersAgreeOnElse(alt: Else, k: Known)
    requires ShelteredElse(alt, true)
    ensures ScanElse(alt, k, true) == ScanElse(alt, k, false)
    decreases alt
  {
    match alt
    case NoElse =>
    case ElseBlock(block) => OrdersAgree(block, k);
    case ElseIf(s) => OrdersAgreeFresh(s);
  }

  lemma {:induction false} OrdersAgreeFresh(s: Stmt)
    requires ShelteredStmt(s, true)
    ensures ScanFresh(s, true) == ScanFresh(s, false)
    decreases s, 0
  {
    match s
    case If(_, _, body, alt, _) =>
      OrdersAgree(body, NOTHING_KNOWN);
      OrdersAgreeOnElse(alt, NOTHING_KNOWN);
    case Nested(block) => OrdersAgree(block, NOTHING_KNOWN);
    case _ =>
  }

  /** As written the scan is sound, whatever is known at the start, on every
      program that keeps guards out of the bodies of leaving guards. */
  lemma WrittenScanIsSound(m: Meaning, o: Oracle, b: Block, k: Known, env: Env, clock: nat)
    requires SpellingsDistinct(m) && Proper(b) && Sheltered(b, false) && Justified(m, k, env) && AllFromRules(k)
    ensures AllTruthful(Exec(m, o, Scan(b, k, true), env, clock).claims)
  {
    ShelteredIsHarmless(b, k, false);
    ScanIsSound(m, o, b, k, true, env, clock);
  }

  // ----- one local assigned twice -----

  /** Two results, the first declared non-nil. */
  const PAIR := Callee(["", ""], [true, false], [])

  const TWICE_ASSIGNED := Assign(false, [Local("x"), Local("x")], Call(PAIR))

  /** `x, x = pair()`: x is recorded as non-nil, and holds the other result. */
  lemma RepeatedTargetIsUnsound(m: Meaning)
    ensures var known := Next(NOTHING_KNOWN, TWICE_ASSIGNED);
      var r := Returned([Of(1), Nil], ref => if ReturnPosition(PAIR, ref) == Some(1) then Of(1) else Nil);
      && Honours(m, PAIR, r) && "x" in known.narrowed
      && !Satisfies(m, known.narrowed["x"].narrow,
                       Look(AssignAll(Base(map[]), false, TWICE_ASSIGNED.lhs, r.results), "x"))
  {
    var lhs := TWICE_ASSIGNED.lhs;
    var results := [Of(1), Nil];
    assert lhs[..1] == [Local("x")] && lhs[..1][..0] == [];
    assert AssignAll(Base(map[]), false, lhs[..1], results) == Base(map["x" := Of(1)]);
    assert AssignAll(Base(map[]), false, lhs, results) == Base(map["x" := Of(1)]["x" := Nil]);
    var k := Promote(Invalidate(NOTHING_KNOWN, TWICE_ASSIGNED), TWICE_ASSIGNED);
    assert RecordNonNil(k, PAIR, lhs, 1).narrowed["x"] == Binding(NilSource, NON_NIL, NON_NIL, "");
    assert RecordNonNil(k, PAIR, lhs, 2) == RecordNonNil(k, PAIR, lhs, 1);
    assert RecordRules(RecordNonNil(k, PAIR, lhs, 2), PAIR, lhs, 0) == RecordNonNil(k, PAIR, lhs, 2);
  }

  /** What any contract records of a call assigned to these targets is so,
      after every honest return, from every state what was known is so in. */
  ghost predicate RecordsTruly(m: Meaning, define: bool, lhs: seq<Target>) {
    forall c: Callee, r: Returned, k: Known, env: Env
      | |lhs| == |c.results| && Honours(m, c, r) && Justified(m, k, env) && AllFromRules(k) ::
      Justified(m, Next(k, Assign(define, lhs, Call(c))), AssignAll(env, define, lhs, r.results))
  }

  /** A contract that declares one result non-nil, and a return that keeps it
      and has nil everywhere else. */
  function OnlySlot(n: nat, i: nat): Callee {
    Callee(seq(n, j => ""), seq(n, j => j == i), [])
  }

  function OnlyValue(n: nat, i: nat): Returned {
    var results := seq(n, j => if j == i then Of(1) else Nil);
    var c := OnlySlot(n, i);
    Returned(results, ref => if ReturnPosition(c, ref).Some? then results[ReturnPosition(c, ref).value - 1] else Nil)
  }

  lemma {:induction false} SlotRecorded(k: Known, c: Callee, lhs: seq<Target>, i: nat, n: nat)
    requires NonNilAt(c, lhs, i) && i < n
    ensures var after := RecordNonNil(k, c, lhs, n);
      lhs[i].name in after.narrowed && after.narrowed[lhs[i].name].narrow == NON_NIL
  {
    if n - 1 > i {
      SlotRecorded(k, c, lhs, i, n - 1);
    }
  }

  lemma {:induction false} LastNamed(lhs: seq<Target>, i: nat, n: nat) returns (j: nat)
    requires i < n <= |lhs| && lhs[i].Local? && lhs[i].name != "_"
    requires forall k | n <= k < |lhs| :: lhs[k] != lhs[i]
    ensures i <= j && LastTarget(lhs, j) && lhs[j] == lhs[i]
  {
    if lhs[n - 1] == lhs[i] {
      j := n - 1;
    } else {
      j := LastNamed(lhs, i, n - 1);
    }
  }

  lemma RepeatMisrecorded(m: Meaning, define: bool, lhs: seq<Target>, i: nat, j: nat)
    requires i < j && LastTarget(lhs, j) && lhs[i] == lhs[j]
    ensures !RecordsTruly(m, define, lhs)
  {
    var c, r, k, env := OnlySlot(|lhs|, i), OnlyValue(|lhs|, i), NOTHING_KNOWN, Base(map[]);
    var s := Assign(define, lhs, Call(c));
    NothingJustified(m, env);
    SlotRecorded(Promote(Invalidate(k, s), s), c, lhs, i, |lhs|);
    AssignedLook(env, define, lhs, r.results, j);
    assert Honours(m, c, r);
    assert !Justified(m, Next(k, s), AssignAll(env, define, lhs, r.results));
  }

  /** The exact condition under which recording by target is sound: no local is
      named twice. */
  lemma RecordsTrulyIff(m: Meaning, define: bool, lhs: seq<Target>)
    ensures RecordsTruly(m, define, lhs) <==> DistinctTargets(lhs)
  {
    if DistinctTargets(lhs) {
      forall c: Callee, r: Returned, k: Known, env: Env
        | |lhs| == |c.results| && Honours(m, c, r) && Justified(m, k, env) && AllFromRules(k)
        ensures Justified(m, Next(k, Assign(define, lhs, Call(c))), AssignAll(env, define, lhs, r.results))
      {
        DistinctAreRetained(c, lhs);
        CallJustified(m, Oracle(n => Nil, n => false, (n, d) => r), Assign(define, lhs, Call(c)), k, env, 0);
      }
    } else {
      var i, j :| 0 <= i < j < |lhs| && lhs[i].Local? && lhs[j].Local?
        && lhs[i].name == lhs[j].name && lhs[i].name != "_";
      var last := LastNamed(lhs, j, |lhs|);
      RepeatMisrecorded(m, define, lhs, i, last);
    }
  }

  // ----- one value, two spellings -----

  /** A local narrowed to `16` and a guard on `0x10`: called impossible, and true. */
  lemma SpellingsMatter(m: Meaning)
    requires m.literal("16") == m.literal("0x10") == Of(16)
    ensures Outcome(NarrowState(true, Literal("16")), NarrowState(true, Literal("0x10"))) == Impossible
    ensures Satisfies(m, NarrowState(true, Literal("16")), Of(16))
    ensures Satisfies(m, NarrowState(true, Literal("0x10")), Of(16))
  {
  }
}
