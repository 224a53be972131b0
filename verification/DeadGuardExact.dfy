/** Exactly when entering a guard's body with what only later statements may
    use misleads the scan. */
module DeadGuardExact {
  import opened Options
  import opened Dsl
  import opened GuardLang
  import opened DeadGuard
  import opened DeadGuardSound

  predicate Leaves(s: Stmt) {
    s.If? && s.init == Done && ShortCircuits(s.body) && s.cond.Guard? && s.cond.name != "_"
  }

  /** Whether entering the body with what was promoted for the statements
      after the if is justified in every state it can be entered from. */
  ghost predicate DescentJustified(m: Meaning, k: Known, s: Stmt)
    requires s.If? && s.cond.Guard?
  {
    forall env | Justified(m, k, env) && Satisfies(m, s.cond.state, Look(env, s.cond.name)) ::
      Justified(m, InBody(k, s), env)
  }

  /** What the scan knows in the body, as written: what the if does not rewrite,
      with what its guard promotes for the statements after it. */
  function InBody(k: Known, s: Stmt): Known
    requires s.If?
  {
    Entering(HandedDown(k, s, true), s.cond, true)
  }

  ghost predicate Enterable(m: Meaning, k: Known, s: Stmt)
    requires s.If? && s.cond.Guard?
  {
    exists env :: Justified(m, k, env) && Satisfies(m, s.cond.state, Look(env, s.cond.name))
  }

  /** Rules await their guards on locals apart from the narrowed ones. */
  predicate Apart(k: Known) {
    AllFromRules(k) && forall x | x in k.pending :: x !in k.narrowed
  }

  /** Knowledge as the scan keeps it. */
  predicate Kept(k: Known) {
    Apart(k) && k.names == k.narrowed.Keys && "_" !in k.narrowed && "_" !in k.pending
  }

  /** Every step of the scan keeps its knowledge so. */
  lemma NextKeeps(k: Known, s: Stmt)
    requires Kept(k)
    ensures Kept(Next(k, s))
  {
    hide RecordNonNil, RecordRules, Kept, ClearOf, Promote, Invalidate;
    var before := Promote(Invalidate(k, s), s);
    HandedDownKeeps(k, s, true);
    if s.Assign? && s.rhs.Call? {
      RecordNonNilKeeps(before, s.rhs.callee, s.lhs, |s.lhs|);
      RecordRulesKeeps(RecordNonNil(before, s.rhs.callee, s.lhs, |s.lhs|), s.rhs.callee, s.lhs, |s.rhs.callee.rules|);
    }
  }

  lemma HandedDownKeeps(k: Known, s: Stmt, asWritten: bool)
    requires Kept(k)
    ensures Kept(HandedDown(k, s, asWritten)) && ClearOf(HandedDown(k, s, asWritten), AssignedIn(s))
  {
    hide Promote, ShortCircuits;
    PromoteKeeps(Invalidate(k, s), s);
    PromoteClear(Invalidate(k, s), s, AssignedIn(s));
  }

  lemma PromoteKeeps(k: Known, s: Stmt)
    requires Kept(k)
    ensures Kept(Promote(k, s))
  {
  }

  lemma EnteringKeeps(k: Known, cond: Condition, taken: bool)
    requires Kept(k)
    ensures Kept(Entering(k, cond, taken))
  {
  }

  lemma {:induction false} RecordNonNilKeeps(k: Known, c: Callee, lhs: seq<Target>, n: nat)
    requires Kept(k) && ClearOf(k, LocalsOf(lhs))
    ensures Kept(RecordNonNil(k, c, lhs, n)) && RecordNonNil(k, c, lhs, n).pending == k.pending
  {
    if n > 0 {
      RecordNonNilKeeps(k, c, lhs, n - 1);
      if NonNilAt(c, lhs, n - 1) {
        InLocals(lhs, n - 1);
      }
    }
  }

  lemma {:induction false} InLocals(lhs: seq<Target>, i: nat)
    requires i < |lhs| && lhs[i].Local? && lhs[i].name != "_"
    ensures lhs[i].name in LocalsOf(lhs)
  {
    if i < |lhs| - 1 {
      InLocals(lhs[..|lhs| - 1], i);
    }
  }

  lemma {:induction false} RecordRulesKeeps(k: Known, c: Callee, lhs: seq<Target>, n: nat)
    requires Kept(k) && n <= |c.rules|
    ensures Kept(RecordRules(k, c, lhs, n))
  {
    hide RuleBinding, RuleShape;
    if n > 0 {
      if RuleBinding(c, lhs, c.rules[n - 1]).Some? {
        var g, t := BoundSlots(c, lhs, c.rules[n - 1]);
      }
      RecordRulesKeeps(k, c, lhs, n - 1);
    }
  }

  // ----- which relations can hold -----

  function ValueFor(m: Meaning, st: NarrowState, wanted: bool): (v: Value)
    ensures Satisfies(m, st, v) == wanted
  {
    var w := Denotes(m, st.value);
    if st.equal == wanted then w else if w == Nil then Of(0) else Nil
  }

  /** A value on which both relations hold. */
  function Common(m: Meaning, a: NarrowState, b: NarrowState): (v: Value)
    requires SpellingsDistinct(m) && Outcome(a, b) != Impossible
    ensures Satisfies(m, a, v) && Satisfies(m, b, v)
  {
    var x, y := Denotes(m, a.value), Denotes(m, b.value);
    if a.equal then x
    else if b.equal then y
    else if x != Nil && y != Nil then Nil
    else if x != Of(0) && y != Of(0) then Of(0)
    else Of(1)
  }

  lemma OutcomeTells(m: Meaning, a: NarrowState, b: NarrowState, v: Value)
    requires SpellingsDistinct(m) && Satisfies(m, a, v)
    ensures Outcome(a, b) == Impossible ==> !Satisfies(m, b, v)
    ensures Outcome(a, b) == Redundant ==> Satisfies(m, b, v)
  {
    OutcomeTruthfulIff(m, a, b);
    assert Truthful(Claim(Outcome(a, b), Satisfies(m, b, v)));
  }

  /** Whether some state in which k is justified gives x a value that meets the
      relation and each local in `also` one that meets its own. A pending local
      that cannot meet its promise as well must have its guard fail, which asks
      the same of the guard, and so on up the chain. */
  predicate CanHold(k: Known, x: string, rel: NarrowState, also: map<string, NarrowState>)
    decreases k.pending.Keys - also.Keys
  {
    if x in also then Outcome(also[x], rel) != Impossible
    else if x in k.narrowed then Outcome(k.narrowed[x].narrow, rel) != Impossible
    else x in k.pending && Outcome(k.pending[x].narrow, rel) == Impossible ==>
      var b := k.pending[x];
      assert x in k.pending.Keys - also.Keys && x !in k.pending.Keys - also[x := rel].Keys;
      b.guardName == "_" || CanHold(k, b.guardName, Opposite(b.guardNarrow), also[x := rel])
  }

  /** A state that exists is one the search finds. */
  lemma {:induction false} HeldCanHold(m: Meaning, k: Known, env: Env, x: string, rel: NarrowState,
                                       also: map<string, NarrowState>)
    requires SpellingsDistinct(m) && Justified(m, k, env) && Satisfies(m, rel, Look(env, x))
    requires forall y | y in also :: Satisfies(m, also[y], Look(env, y))
    ensures CanHold(k, x, rel, also)
    decreases k.pending.Keys - also.Keys
  {
    if x in also {
      OutcomeTells(m, also[x], rel, Look(env, x));
    } else if x in k.narrowed {
      OutcomeTells(m, k.narrowed[x].narrow, rel, Look(env, x));
    } else if x in k.pending && Outcome(k.pending[x].narrow, rel) == Impossible && k.pending[x].guardName != "_" {
      var b := k.pending[x];
      assert Promised(m, b, x, env);
      if Satisfies(m, b.narrow, Look(env, x)) {
        OutcomeTells(m, b.narrow, rel, Look(env, x));
      }
      OppositeHolds(m, b.guardNarrow, Look(env, b.guardName));
      assert x in k.pending.Keys - also.Keys && x !in k.pending.Keys - also[x := rel].Keys;
      HeldCanHold(m, k, env, b.guardName, Opposite(b.guardNarrow), also[x := rel]);
    }
  }

  type Values = map<string, Value>

  /** The chosen values keep y's promise, or leave it to no guard. */
  predicate Settled(m: Meaning, k: Known, vals: Values, y: string)
    requires y in k.pending && y in vals
  {
    var b := k.pending[y];
    || Satisfies(m, b.narrow, vals[y])
    || b.guardName == "_"
    || (b.guardName in vals && !Satisfies(m, b.guardNarrow, vals[b.guardName]))
  }

  /** Values for the locals along the chain. */
  ghost predicate Chosen(m: Meaning, k: Known, x: string, rel: NarrowState, also: map<string, NarrowState>,
                         vals: Values) {
    && x in vals && Satisfies(m, rel, vals[x])
    && (forall y | y in also :: y in vals && Satisfies(m, also[y], vals[y]))
    && (forall y | y in vals && y in k.narrowed :: Satisfies(m, k.narrowed[y].narrow, vals[y]))
    && (forall y | y in vals && y in k.pending && y !in also :: Settled(m, k, vals, y))
  }

  function Wanted(m: Meaning, also: map<string, NarrowState>): (vals: Values)
    ensures vals.Keys == also.Keys && forall y | y in also :: Satisfies(m, also[y], vals[y])
  {
    map y | y in also :: ValueFor(m, also[y], true)
  }

  lemma {:induction false} CanHoldIsChosen(m: Meaning, k: Known, x: string, rel: NarrowState,
                                           also: map<string, NarrowState>)
    returns (vals: Values)
    requires SpellingsDistinct(m) && Kept(k) && CanHold(k, x, rel, also) && also.Keys <= k.pending.Keys
    ensures Chosen(m, k, x, rel, also, vals)
    decreases k.pending.Keys - also.Keys
  {
    hide SpellingsDistinct, Outcome;
    if x in also {
      vals := Wanted(m, also)[x := Common(m, also[x], rel)];
    } else if x in k.narrowed {
      vals := Wanted(m, also)[x := Common(m, k.narrowed[x].narrow, rel)];
    } else if x !in k.pending || k.pending[x].guardName == "_" {
      vals := Wanted(m, also)[x := ValueFor(m, rel, true)];
    } else if Outcome(k.pending[x].narrow, rel) != Impossible {
      vals := Wanted(m, also)[x := Common(m, k.pending[x].narrow, rel)];
    } else {
      var b := k.pending[x];
      vals := CanHoldIsChosen(m, k, b.guardName, Opposite(b.guardNarrow), also[x := rel]);
      OppositeHolds(m, b.guardNarrow, vals[b.guardName]);
      assert Settled(m, k, vals, x);
      assert (also[x := rel])[x] == rel;
    }
  }

  /** Locals whose promise is off, because x meeting the relation fails their guard. */
  ghost predicate Released(m: Meaning, k: Known, x: string, rel: NarrowState, also: map<string, NarrowState>) {
    forall y | y in also :: y in k.pending && k.pending[y].guardName == x
      && forall v: Value | Satisfies(m, rel, v) :: !Satisfies(m, k.pending[y].guardNarrow, v)
  }

  /** Any other local can be given a value that keeps its relation. */
  function Filled(m: Meaning, k: Known, vals: Values): Env {
    Base(map y | y in vals.Keys + k.narrowed.Keys + k.pending.Keys ::
      if y in vals then vals[y]
      else if y in k.narrowed then ValueFor(m, k.narrowed[y].narrow, true)
      else if y in k.pending then ValueFor(m, k.pending[y].narrow, true)
      else Nil)
  }

  lemma CanHoldIsHeld(m: Meaning, k: Known, x: string, rel: NarrowState, also: map<string, NarrowState>)
    returns (env: Env)
    requires SpellingsDistinct(m) && Kept(k) && CanHold(k, x, rel, also) && Released(m, k, x, rel, also)
    ensures Justified(m, k, env) && Satisfies(m, rel, Look(env, x))
    ensures forall y | y in also :: Satisfies(m, also[y], Look(env, y))
  {
    hide SpellingsDistinct, CanHold;
    var vals := CanHoldIsChosen(m, k, x, rel, also);
    env := Filled(m, k, vals);
    assert forall y | y in vals :: Look(env, y) == vals[y];
    forall y | y in k.pending
      ensures Promised(m, k.pending[y], y, env)
    {
      if y in vals && y !in also {
        assert Settled(m, k, vals, y);
      }
    }
  }

  // ----- what is known in the body -----

  /** The guard promotes x for the statements after it, and some state that
      enters its body has x fail its relation. */
  predicate Misleads(k: Known, s: Stmt, x: string)
    requires s.If? && s.cond.Guard? && x in k.pending
  {
    || (Waits(k, s, x) && CanHold(k, s.cond.name, s.cond.state, map[x := Opposite(k.pending[x].narrow)]))
    || (Own(k, s, x) && CanHold(k, s.cond.name, s.cond.state, map[]))
  }

  /** x stays known past the if and awaits what the guard's failing proves. */
  predicate Waits(k: Known, s: Stmt, x: string)
    requires s.If? && s.cond.Guard?
  {
    x in Invalidate(k, s).pending && Awaits(k.pending[x], s.cond.name, Opposite(s.cond.state))
  }

  /** x is the guarded local, and the guard's failing proves its own relation. */
  predicate Own(k: Known, s: Stmt, x: string)
    requires s.If? && s.cond.Guard?
  {
    x == s.cond.name && x in Invalidate(k, s).pending && k.pending[x].narrow == Opposite(s.cond.state)
  }

  lemma PromotedWaiting(k: Known, s: Stmt, x: string)
    requires Leaves(s) && x in k.pending && (Waits(k, s, x) || Own(k, s, x))
    ensures x in InBody(k, s).narrowed
    ensures InBody(k, s).narrowed[x] == k.pending[x]
  {
    var down := HandedDown(k, s, true);
    assert x !in down.pending && down.narrowed[x] == k.pending[x];
  }

  /** The guard's relation takes the promise off whatever awaits its opposite. */
  lemma AwaitingIsReleased(m: Meaning, k: Known, s: Stmt, x: string, rel: NarrowState)
    requires Leaves(s) && Waits(k, s, x)
    ensures Released(m, k, s.cond.name, s.cond.state, map[x := rel])
  {
    forall v: Value
      ensures Satisfies(m, s.cond.state, v) ==> !Satisfies(m, k.pending[x].guardNarrow, v)
    {
      OppositeHolds(m, s.cond.state, v);
    }
  }

  lemma MisledState(m: Meaning, k: Known, s: Stmt, x: string) returns (env: Env)
    requires SpellingsDistinct(m) && Leaves(s) && Kept(k) && x in k.pending && Misleads(k, s, x)
    ensures Justified(m, k, env) && Satisfies(m, s.cond.state, Look(env, s.cond.name))
    ensures !Justified(m, InBody(k, s), env)
  {
    hide SpellingsDistinct, CanHold, InBody, Invalidate;
    if Waits(k, s, x) && CanHold(k, s.cond.name, s.cond.state, map[x := Opposite(k.pending[x].narrow)]) {
      AwaitingIsReleased(m, k, s, x, Opposite(k.pending[x].narrow));
      env := CanHoldIsHeld(m, k, s.cond.name, s.cond.state, map[x := Opposite(k.pending[x].narrow)]);
      assert Satisfies(m, Opposite(k.pending[x].narrow), Look(env, x));
    } else {
      env := CanHoldIsHeld(m, k, s.cond.name, s.cond.state, map[]);
    }
    OppositeHolds(m, k.pending[x].narrow, Look(env, x));
    OppositeHolds(m, s.cond.state, Look(env, s.cond.name));
    PromotedWaiting(k, s, x);
  }

  /** Where nothing promoted misleads, what is promoted holds in the body too. */
  lemma UnmisledHolds(m: Meaning, k: Known, s: Stmt, env: Env)
    requires SpellingsDistinct(m) && Leaves(s) && Kept(k)
    requires Justified(m, k, env) && Satisfies(m, s.cond.state, Look(env, s.cond.name))
    requires forall x | x in k.pending :: !Misleads(k, s, x)
    ensures Justified(m, InBody(k, s), env)
  {
    hide SpellingsDistinct, CanHold;
    var left, name, proof := Invalidate(k, s), s.cond.name, Opposite(s.cond.state);
    ForgetJustified(m, k, s, env);
    forall x | x in left.pending && Awaits(left.pending[x], name, proof)
      ensures Satisfies(m, left.pending[x].narrow, Look(env, x))
    {
      assert Waits(k, s, x);
      OppositeHolds(m, k.pending[x].narrow, Look(env, x));
      if !Satisfies(m, k.pending[x].narrow, Look(env, x)) {
        HeldCanHold(m, k, env, name, s.cond.state, map[x := Opposite(k.pending[x].narrow)]);
        assert false;
      }
    }
    HeldCanHold(m, k, env, name, s.cond.state, map[]);
    assert name in k.pending ==> !Misleads(k, s, name);
    assert Promote(left, s) == Narrow(left, name, proof);
    EnteringJustified(m, Promote(left, s), s.cond, true, env);
  }

  /** The exact condition under which the scan's knowledge is right in a body it
      enters as written, whatever is pending, in chains and cycles, and whatever
      is narrowed: the guard promotes nothing that some state entering the body
      has fail. */
  lemma DescentJustifiedIff(m: Meaning, k: Known, s: Stmt)
    requires SpellingsDistinct(m) && Leaves(s) && Kept(k)
    ensures DescentJustified(m, k, s) <==> forall x | x in k.pending :: !Misleads(k, s, x)
  {
    hide SpellingsDistinct, Misleads, InBody, Justified;
    if forall x | x in k.pending :: !Misleads(k, s, x) {
      forall env | Justified(m, k, env) && Satisfies(m, s.cond.state, Look(env, s.cond.name))
        ensures Justified(m, InBody(k, s), env)
      {
        UnmisledHolds(m, k, s, env);
      }
    } else {
      var x :| x in k.pending && Misleads(k, s, x);
      var env := MisledState(m, k, s, x);
    }
  }

  /** A body is entered from some state exactly when its guard can hold. */
  lemma EnterableIff(m: Meaning, k: Known, s: Stmt)
    requires SpellingsDistinct(m) && Leaves(s) && Kept(k)
    ensures Enterable(m, k, s) <==> CanHold(k, s.cond.name, s.cond.state, map[])
  {
    hide SpellingsDistinct, CanHold, Justified;
    if Enterable(m, k, s) {
      var env :| Justified(m, k, env) && Satisfies(m, s.cond.state, Look(env, s.cond.name));
      HeldCanHold(m, k, env, s.cond.name, s.cond.state, map[]);
    }
    if CanHold(k, s.cond.name, s.cond.state, map[]) {
      var env := CanHoldIsHeld(m, k, s.cond.name, s.cond.state, map[]);
    }
  }

  // ----- what is said of a guard in the body -----

  /** The verdict on a guard met first in the body, as the scan is written. */
  function BodyVerdict(k: Known, s: Stmt, t: Stmt): Verdict
    requires s.If? && s.cond.Guard?
  {
    Report(InBody(k, s), t)
  }

  /** The verdict is truthful in every state that enters the body. */
  ghost predicate VerdictTrue(m: Meaning, k: Known, s: Stmt, t: Stmt)
    requires s.If? && s.cond.Guard? && t.If? && t.cond.Guard?
  {
    forall env | Justified(m, k, env) && Satisfies(m, s.cond.state, Look(env, s.cond.name)) ::
      Truthful(Claim(BodyVerdict(k, s, t), Satisfies(m, t.cond.state, Look(env, t.cond.name))))
  }

  /** What the local has to do to belie the verdict. */
  function Belying(v: Verdict, st: NarrowState): NarrowState {
    if v == Impossible then st else Opposite(st)
  }

  /** The verdict rests on a promoted binding, and some state that enters the
      body belies it. */
  predicate Misjudges(k: Known, s: Stmt, t: Stmt)
    requires s.If? && s.cond.Guard? && t.If? && t.cond.Guard?
  {
    var v, y := BodyVerdict(k, s, t), t.cond.name;
    && v != Silent && y in k.pending
    && (|| (Waits(k, s, y) && CanHold(k, s.cond.name, s.cond.state, map[y := Belying(v, t.cond.state)]))
        || (Own(k, s, y) && CanHold(k, y, Belying(v, t.cond.state), map[])))
  }

  lemma BelyingBelies(m: Meaning, v: Verdict, st: NarrowState, w: Value)
    requires v != Silent
    ensures Satisfies(m, Belying(v, st), w) <==> !Truthful(Claim(v, Satisfies(m, st, w)))
  {
  }

  /** Where the bindings known in the body come from. */
  lemma KnownInBody(k: Known, s: Stmt, y: string)
    requires Leaves(s) && Apart(k) && y in InBody(k, s).narrowed
    ensures var b := InBody(k, s).narrowed[y];
      || (y in k.narrowed && b == k.narrowed[y])
      || (y in k.pending && b == k.pending[y]
          && (Waits(k, s, y) || Own(k, s, y) || Awaits(b, s.cond.name, s.cond.state)))
  {
  }

  lemma MisjudgedState(m: Meaning, k: Known, s: Stmt, t: Stmt) returns (env: Env)
    requires SpellingsDistinct(m) && Leaves(s) && Leaves(t) && Kept(k) && Misjudges(k, s, t)
    ensures Justified(m, k, env) && Satisfies(m, s.cond.state, Look(env, s.cond.name))
    ensures !Truthful(Claim(BodyVerdict(k, s, t), Satisfies(m, t.cond.state, Look(env, t.cond.name))))
  {
    hide SpellingsDistinct, CanHold, InBody, Invalidate, Justified, Truthful, Belying;
    var v, y := BodyVerdict(k, s, t), t.cond.name;
    var rel := Belying(v, t.cond.state);
    PromotedWaiting(k, s, y);
    if Waits(k, s, y) && CanHold(k, s.cond.name, s.cond.state, map[y := rel]) {
      AwaitingIsReleased(m, k, s, y, rel);
      env := CanHoldIsHeld(m, k, s.cond.name, s.cond.state, map[y := rel]);
      BelyingBelies(m, v, t.cond.state, Look(env, y));
    } else {
      env := CanHoldIsHeld(m, k, y, rel, map[]);
      BelyingBelies(m, v, t.cond.state, Look(env, y));
      BeliedFails(m, k.pending[y].narrow, t.cond.state, Look(env, y));
      OppositeHolds(m, s.cond.state, Look(env, y));
    }
  }

  /** A value that belies a verdict fails the relation the verdict rests on. */
  lemma BeliedFails(m: Meaning, narrow: NarrowState, st: NarrowState, v: Value)
    requires SpellingsDistinct(m) && !Truthful(Claim(Outcome(narrow, st), Satisfies(m, st, v)))
    ensures !Satisfies(m, narrow, v)
  {
    if Satisfies(m, narrow, v) {
      OutcomeTells(m, narrow, st, v);
    }
  }

  lemma UnmisjudgedHolds(m: Meaning, k: Known, s: Stmt, t: Stmt, env: Env)
    requires SpellingsDistinct(m) && Leaves(s) && Leaves(t) && Kept(k)
    requires Justified(m, k, env) && Satisfies(m, s.cond.state, Look(env, s.cond.name))
    requires !Misjudges(k, s, t)
    ensures Truthful(Claim(BodyVerdict(k, s, t), Satisfies(m, t.cond.state, Look(env, t.cond.name))))
  {
    hide SpellingsDistinct, CanHold, InBody, Invalidate, Belying, Outcome;
    var v, y := BodyVerdict(k, s, t), t.cond.name;
    if !Truthful(Claim(v, Satisfies(m, t.cond.state, Look(env, y)))) {
      var rel := Belying(v, t.cond.state);
      KnownInBody(k, s, y);
      BelyingBelies(m, v, t.cond.state, Look(env, y));
      BeliedFails(m, InBody(k, s).narrowed[y].narrow, t.cond.state, Look(env, y));
      assert y in k.pending && Promised(m, k.pending[y], y, env);
      HeldCanHold(m, k, env, s.cond.name, s.cond.state, map[y := rel]);
      HeldCanHold(m, k, env, y, rel, map[]);
      assert false;
    }
  }

  /** The exact condition on verdicts: what the scan as written says of a guard
      at the head of a leaving guard's body is true in every state that enters
      the body if and only if no such state belies a verdict that rests on a
      promoted binding. */
  lemma VerdictTrueIff(m: Meaning, k: Known, s: Stmt, t: Stmt)
    requires SpellingsDistinct(m) && Leaves(s) && Leaves(t) && Kept(k)
    ensures VerdictTrue(m, k, s, t) <==> !Misjudges(k, s, t)
  {
    hide SpellingsDistinct, Misjudges, BodyVerdict, Justified, Truthful;
    if Misjudges(k, s, t) {
      var env := MisjudgedState(m, k, s, t);
    } else {
      forall env | Justified(m, k, env) && Satisfies(m, s.cond.state, Look(env, s.cond.name))
        ensures Truthful(Claim(BodyVerdict(k, s, t), Satisfies(m, t.cond.state, Look(env, t.cond.name))))
      {
        UnmisjudgedHolds(m, k, s, t, env);
      }
    }
  }

  // ----- further down the body -----

  function Before(pre: seq<Stmt>, rest: Block): Block {
    if pre == [] then rest else Then(pre[0], Before(pre[1..], rest))
  }

  /** Statements past which the scan knows what it knew. */
  predicate Quiet(k: Known, pre: seq<Stmt>) {
    forall u | u in pre :: Next(k, u) == k
  }

  function JudgeAll(pre: seq<Stmt>, k: Known): seq<Stmt> {
    if pre == [] then [] else [Judge(pre[0], k, true)] + JudgeAll(pre[1..], k)
  }

  lemma {:induction false} ScanBefore(pre: seq<Stmt>, rest: Block, k: Known)
    requires Quiet(k, pre)
    ensures Scan(Before(pre, rest), k, true) == Before(JudgeAll(pre, k), Scan(rest, k, true))
  {
    if pre != [] {
      hide Judge, Next;
      assert pre[0] in pre && Quiet(k, pre[1..]);
      ScanBefore(pre[1..], rest, k);
      var judged := JudgeAll(pre, k);
      assert judged[0] == Judge(pre[0], k, true) && judged[1..] == JudgeAll(pre[1..], k);
    }
  }

  lemma {:induction false} ExecBefore(m: Meaning, o: Oracle, pre: seq<Stmt>, rest: Block, env: Env, clock: nat)
    ensures var r := Exec(m, o, Before(pre, Done), env, clock);
      !r.exited ==>
        Exec(m, o, Before(pre, rest), env, clock).claims == r.claims + Exec(m, o, rest, r.env, r.clock).claims
    decreases pre
  {
    hide Perform;
    if pre != [] {
      var r := Perform(m, o, pre[0], env, clock);
      ExecBefore(m, o, pre[1..], rest, r.env, r.clock);
    }
  }

  /** A run that gets past the statements ahead of the guard. */
  ghost predicate GetsThrough(m: Meaning, o: Oracle, pre: seq<Stmt>, env: Env, clock: nat) {
    !Exec(m, o, Before(pre, Done), env, clock).exited
  }

  /** From every state some run gets past them. */
  ghost predicate Passable(m: Meaning, pre: seq<Stmt>) {
    forall env :: CanPass(m, pre, env)
  }

  ghost predicate CanPass(m: Meaning, pre: seq<Stmt>, env: Env) {
    exists o, clock: nat :: GetsThrough(m, o, pre, Inside(env), clock)
  }

  /** The body of s begins with pre, then t; pre leaves alone what the scan
      knows and the local t asks about. */
  ghost predicate Heads(k: Known, s: Stmt, pre: seq<Stmt>, t: Stmt)
    requires s.If? && t.If? && t.cond.Guard?
  {
    && (exists rest :: s.body == Before(pre, Then(t, rest)))
    && Quiet(InBody(k, s), pre)
    && t.cond.name !in Declared(Before(pre, Done)) && t.cond.name !in Assigned(Before(pre, Done))
  }

  /** The verdict is truthful each time a run from a state that enters the body
      gets to the guard. */
  ghost predicate VerdictTrueBehind(m: Meaning, k: Known, s: Stmt, pre: seq<Stmt>, t: Stmt)
    requires s.If? && s.cond.Guard? && t.If? && t.cond.Guard?
  {
    forall o, env, clock: nat
      | Justified(m, k, env) && Satisfies(m, s.cond.state, Look(env, s.cond.name))
        && GetsThrough(m, o, pre, Inside(env), clock) ::
      Truthful(Claim(BodyVerdict(k, s, t), Satisfies(m, t.cond.state, LookPast(m, o, pre, env, clock, t.cond.name))))
  }

  /** What a local holds past the statements ahead of the guard. */
  ghost function LookPast(m: Meaning, o: Oracle, pre: seq<Stmt>, env: Env, clock: nat, x: string): Value {
    Look(Exec(m, o, Before(pre, Done), Inside(env), clock).env, x)
  }

  /** The scopes of the if and of its body. */
  function Inside(env: Env): Env {
    Scope(map[], Scope(map[], env))
  }

  lemma LooksTheSame(m: Meaning, o: Oracle, k: Known, s: Stmt, pre: seq<Stmt>, t: Stmt, env: Env, clock: nat)
    requires s.If? && t.If? && t.cond.Guard? && Heads(k, s, pre, t)
    ensures LookPast(m, o, pre, env, clock, t.cond.name) == Look(env, t.cond.name)
  {
    hide Exec;
    var b, inside := Before(pre, Done), Inside(env);
    ExecFrame(m, o, b, inside, clock);
    SameBelowLook(inside, Exec(m, o, b, inside, clock).env, Declared(b), Assigned(b), t.cond.name);
    assert Look(inside, t.cond.name) == Look(inside.outer, t.cond.name) == Look(env, t.cond.name);
  }

  /** The same exact condition for a guard behind statements that can be passed
      and that leave alone what the scan knows. */
  lemma VerdictTrueBehindIff(m: Meaning, k: Known, s: Stmt, pre: seq<Stmt>, t: Stmt)
    requires SpellingsDistinct(m) && Leaves(s) && Leaves(t) && Kept(k) && Heads(k, s, pre, t)
    requires Passable(m, pre)
    ensures VerdictTrueBehind(m, k, s, pre, t) <==> !Misjudges(k, s, t)
  {
    hide SpellingsDistinct, Misjudges, BodyVerdict, Justified, Truthful, GetsThrough, Heads, Satisfies, Kept;
    if Misjudges(k, s, t) {
      var env := MisjudgedState(m, k, s, t);
      assert CanPass(m, pre, env);
      var o, clock: nat :| GetsThrough(m, o, pre, Inside(env), clock);
      LooksTheSame(m, o, k, s, pre, t, env, clock);
    } else {
      forall o, env, clock: nat
        | Justified(m, k, env) && Satisfies(m, s.cond.state, Look(env, s.cond.name))
          && GetsThrough(m, o, pre, Inside(env), clock)
        ensures Truthful(Claim(BodyVerdict(k, s, t),
                               Satisfies(m, t.cond.state, LookPast(m, o, pre, env, clock, t.cond.name))))
      {
        LooksTheSame(m, o, k, s, pre, t, env, clock);
        UnmisjudgedHolds(m, k, s, t, env);
      }
    }
  }

  // ----- in the run -----

  lemma JudgedHead(t: Stmt, down: Known)
    requires Leaves(t)
    ensures Judge(t, down, true).If? && Judge(t, down, true).init == Done && Judge(t, down, true).cond == t.cond
    ensures Judge(t, down, true).verdict == Report(down, t)
  {
  }

  lemma JudgedBody(k: Known, s: Stmt, pre: seq<Stmt>, t: Stmt) returns (rest: Block)
    requires Leaves(s) && Leaves(t) && Heads(k, s, pre, t)
    ensures Judge(s, k, true).body
      == Before(JudgeAll(pre, InBody(k, s)), Then(Judge(t, InBody(k, s), true), rest))
  {
    var tail :| s.body == Before(pre, Then(t, tail));
    rest := Scan(tail, Next(InBody(k, s), t), true);
    ScanBefore(pre, Then(t, tail), InBody(k, s));
    BodyOfJudged(k, s);
    hide Judge, Next;
  }

  lemma BodyOfJudged(k: Known, s: Stmt)
    requires Leaves(s)
    ensures Judge(s, k, true).body == Scan(s.body, InBody(k, s), true)
  {
    hide HandedDown, Entering, Scan, ScanElse;
  }

  /** The judged statements do what the statements do. */
  lemma JudgedGetsThrough(m: Meaning, o: Oracle, pre: seq<Stmt>, k: Known, env: Env, clock: nat)
    requires Quiet(k, pre)
    ensures SameEffect(Exec(m, o, Before(JudgeAll(pre, k), Done), env, clock),
                       Exec(m, o, Before(pre, Done), env, clock))
  {
    hide Quiet, Exec;
    ScanBefore(pre, Done, k);
    ScanSameEffect(m, o, Before(pre, Done), k, true, env, clock);
  }

  /** The claim the scan makes of the guard is among those of every run that gets
      to it. */
  lemma ClaimMade(m: Meaning, o: Oracle, k: Known, s: Stmt, pre: seq<Stmt>, t: Stmt, env: Env, clock: nat)
    requires Leaves(s) && Leaves(t) && Heads(k, s, pre, t) && BodyVerdict(k, s, t) != Silent
    requires Satisfies(m, s.cond.state, Look(env, s.cond.name)) && GetsThrough(m, o, pre, Inside(env), clock + 1)
    ensures Claim(BodyVerdict(k, s, t), Satisfies(m, t.cond.state, Look(env, t.cond.name)))
      in Perform(m, o, Judge(s, k, true), env, clock).claims
  {
    hide InBody, Report, Perform, Satisfies, Judge, Quiet, Assigned, Declared;
    var down, inner, body := InBody(k, s), Scope(map[], env), Inside(env);
    var judged := Judge(s, k, true);
    JudgedHead(s, k);
    IfClaims(m, o, judged, env, clock);
    assert Look(inner, s.cond.name) == Look(env, s.cond.name);
    var rest := JudgedBody(k, s, pre, t);
    var tail := Then(Judge(t, down, true), rest);
    ExecBefore(m, o, JudgeAll(pre, down), tail, body, clock + 1);
    JudgedGetsThrough(m, o, pre, down, body, clock + 1);
    LooksTheSame(m, o, k, s, pre, t, env, clock + 1);
    var r := Exec(m, o, Before(JudgeAll(pre, down), Done), body, clock + 1);
    ClaimOfGuard(m, o, down, t, rest, r.env, r.clock);
    assert Exec(m, o, judged.body, body, clock + 1).claims == r.claims + Exec(m, o, tail, r.env, r.clock).claims;
  }

  lemma ClaimOfGuard(m: Meaning, o: Oracle, k: Known, t: Stmt, rest: Block, env: Env, clock: nat)
    requires Leaves(t) && Report(k, t) != Silent
    ensures Claim(Report(k, t), Satisfies(m, t.cond.state, Look(env, t.cond.name)))
      in Exec(m, o, Then(Judge(t, k, true), rest), env, clock).claims
  {
    hide Report, Perform, Satisfies, Judge;
    JudgedHead(t, k);
    IfClaims(m, o, Judge(t, k, true), env, clock);
    assert Look(Scope(map[], env), t.cond.name) == Look(env, t.cond.name);
    var claim := Claim(Report(k, t), Satisfies(m, t.cond.state, Look(env, t.cond.name)));
    assert claim == Perform(m, o, Judge(t, k, true), env, clock).claims[0];
  }

  /** So the scan as written misjudges in a run, from a state in which all it
      knows is so: in every run that gets to the guard, whatever comes after. */
  lemma MisjudgedRun(m: Meaning, k: Known, s: Stmt, pre: seq<Stmt>, t: Stmt) returns (env: Env)
    requires SpellingsDistinct(m) && Leaves(s) && Leaves(t) && Kept(k) && Misjudges(k, s, t) && Heads(k, s, pre, t)
    ensures Justified(m, k, env)
    ensures forall o, clock: nat | GetsThrough(m, o, pre, Inside(env), clock + 1) ::
      !AllTruthful(Perform(m, o, Judge(s, k, true), env, clock).claims)
  {
    hide SpellingsDistinct, CanHold, InBody, Report, Justified, Perform, Judge, Truthful, GetsThrough, Heads;
    env := MisjudgedState(m, k, s, t);
    forall o, clock: nat | GetsThrough(m, o, pre, Inside(env), clock + 1)
      ensures !AllTruthful(Perform(m, o, Judge(s, k, true), env, clock).claims)
    {
      ClaimMade(m, o, k, s, pre, t, env, clock);
    }
  }

  // ----- short of chains -----

  /** The guarded local is not pending, can keep its promise, or awaits a local
      that is not pending itself. */
  predicate Unchained(k: Known, name: string, st: NarrowState) {
    name in k.pending ==>
      && k.pending[name].guardName != name
      && (Outcome(k.pending[name].narrow, st) != Impossible || k.pending[name].guardName !in k.pending)
  }

  /** The guard contradicts what is known. */
  predicate Contradicted(k: Known, name: string, st: NarrowState) {
    !CanHold(k, name, st, map[])
  }

  lemma UnchainedCanHold(k: Known, name: string, st: NarrowState, x: string, rel: NarrowState)
    requires Unchained(k, name, st) && Apart(k) && x in k.pending && x != name
    ensures CanHold(k, name, st, map[x := rel]) <==> CanHold(k, name, st, map[])
  {
    hide Outcome;
    if name in k.pending && Outcome(k.pending[name].narrow, st) == Impossible {
      var b := k.pending[name];
      assert b.guardName != x && b.guardName != name;
      assert CanHold(k, b.guardName, Opposite(b.guardNarrow), map[x := rel][name := st])
        <==> CanHold(k, b.guardName, Opposite(b.guardNarrow), map[name := st]);
    }
  }

  lemma PromotesNothing(k: Known, s: Stmt)
    requires Leaves(s) && Kept(k)
    ensures HandedDown(k, s, true) == Invalidate(k, s) <==>
      forall x | x in k.pending :: !Waits(k, s, x) && !Own(k, s, x)
  {
    var left, down := Invalidate(k, s), HandedDown(k, s, true);
    if x :| x in k.pending && (Waits(k, s, x) || Own(k, s, x)) {
      assert x in left.pending && x !in down.pending;
    } else {
      assert Narrow(left, s.cond.name, Opposite(s.cond.state)) == left;
    }
  }

  /** Without a chain behind the guard, knowledge is right in the body exactly
      when the guard promotes nothing or contradicts what is known. */
  lemma MisledIff(m: Meaning, k: Known, s: Stmt)
    requires SpellingsDistinct(m) && Leaves(s) && Kept(k) && Unchained(k, s.cond.name, s.cond.state)
    ensures DescentJustified(m, k, s) <==>
      HandedDown(k, s, true) == Invalidate(k, s) || Contradicted(k, s.cond.name, s.cond.state)
    ensures Enterable(m, k, s) <==> !Contradicted(k, s.cond.name, s.cond.state)
  {
    hide SpellingsDistinct, CanHold, Justified, HandedDown, Invalidate, DescentJustified, Enterable, Unchained;
    EnterableIff(m, k, s);
    DescentJustifiedIff(m, k, s);
    PromotesNothing(k, s);
    forall x | x in k.pending
      ensures Misleads(k, s, x) <==>
        (Waits(k, s, x) || Own(k, s, x)) && !Contradicted(k, s.cond.name, s.cond.state)
    {
      UnchainedMisleads(k, s, x);
    }
  }

  lemma UnchainedMisleads(k: Known, s: Stmt, x: string)
    requires Leaves(s) && Apart(k) && x in k.pending && Unchained(k, s.cond.name, s.cond.state)
    ensures Misleads(k, s, x) <==>
      (Waits(k, s, x) || Own(k, s, x)) && !Contradicted(k, s.cond.name, s.cond.state)
  {
    hide CanHold, Invalidate;
    if x != s.cond.name {
      UnchainedCanHold(k, s.cond.name, s.cond.state, x, Opposite(k.pending[x].narrow));
    }
  }

  lemma PromotedVerdict(k: Known, s: Stmt, t: Stmt)
    requires Leaves(s) && Leaves(t) && Kept(k) && Unchained(k, s.cond.name, s.cond.state)
    requires t.cond.name in k.pending && (Waits(k, s, t.cond.name) || Own(k, s, t.cond.name))
    ensures Report(Entering(Invalidate(k, s), s.cond, true), t) == Silent
    ensures Misjudges(k, s, t) <==> BodyVerdict(k, s, t) != Silent && !Contradicted(k, s.cond.name, s.cond.state)
  {
    hide Promote, CanHold;
    var y, name, st := t.cond.name, s.cond.name, s.cond.state;
    var rel := Belying(BodyVerdict(k, s, t), t.cond.state);
    PromotedWaiting(k, s, y);
    if y != name {
      UnchainedCanHold(k, name, st, y, rel);
    } else if BodyVerdict(k, s, t) != Silent {
      OwnVerdict(k, name, st, rel);
    }
  }

  /** What its own relation opposed leaves open, the rest of its chain decides. */
  lemma OwnVerdict(k: Known, name: string, st: NarrowState, rel: NarrowState)
    requires name in k.pending && Apart(k) && Unchained(k, name, st)
    requires Outcome(k.pending[name].narrow, st) == Impossible && Outcome(k.pending[name].narrow, rel) == Impossible
    ensures CanHold(k, name, rel, map[]) <==> CanHold(k, name, st, map[])
  {
    hide Outcome;
    var b := k.pending[name];
    assert CanHold(k, b.guardName, Opposite(b.guardNarrow), map[name := rel])
      <==> CanHold(k, b.guardName, Opposite(b.guardNarrow), map[name := st]);
  }

  lemma UnpromotedVerdict(k: Known, s: Stmt, t: Stmt)
    requires Leaves(s) && Leaves(t) && Kept(k)
    requires !Waits(k, s, t.cond.name) && !Own(k, s, t.cond.name)
    ensures BodyVerdict(k, s, t) == Report(Entering(Invalidate(k, s), s.cond, true), t)
  {
    hide Outcome;
  }

  /** Without a chain behind the guard, the verdict is true in every state that
      enters the body exactly when the guard contradicts what is known, or the
      verdict is silent or the one that entering without the promotion gives. */
  lemma UnchainedVerdictIff(m: Meaning, k: Known, s: Stmt, t: Stmt)
    requires SpellingsDistinct(m) && Leaves(s) && Leaves(t) && Kept(k) && Unchained(k, s.cond.name, s.cond.state)
    ensures VerdictTrue(m, k, s, t) <==>
      || Contradicted(k, s.cond.name, s.cond.state)
      || BodyVerdict(k, s, t) == Silent
      || BodyVerdict(k, s, t) == Report(Entering(Invalidate(k, s), s.cond, true), t)
  {
    hide SpellingsDistinct, CanHold, InBody, Entering, Report, Unchained, Contradicted, VerdictTrue;
    VerdictTrueIff(m, k, s, t);
    if Waits(k, s, t.cond.name) || Own(k, s, t.cond.name) {
      PromotedVerdict(k, s, t);
    } else {
      UnpromotedVerdict(k, s, t);
    }
  }
}
