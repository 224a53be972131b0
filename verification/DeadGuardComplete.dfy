/** The dead guards the scan does not miss. */
module DeadGuardComplete {
  import opened Options
  import opened Dsl
  import opened GuardLang
  import opened DeadGuard
  import opened DeadGuardSound
  import opened DeadGuardExact

  // ----- places in a block -----

  function Length(b: Block): nat {
    if b.Done? then 0 else 1 + Length(b.tail)
  }

  function StmtAt(b: Block, i: nat): Stmt
    requires i < Length(b)
  {
    if i == 0 then b.head else StmtAt(b.tail, i - 1)
  }

  /** What the scan knows where it meets the i-th statement. */
  function KnownAt(b: Block, k: Known, i: nat): Known
    requires i <= Length(b)
  {
    if i == 0 then k else KnownAt(b.tail, Next(k, b.head), i - 1)
  }

  lemma {:induction false} KnownAtNext(b: Block, k: Known, i: nat)
    requires i < Length(b)
    ensures KnownAt(b, k, i + 1) == Next(KnownAt(b, k, i), StmtAt(b, i))
  {
    if i > 0 {
      KnownAtNext(b.tail, Next(k, b.head), i - 1);
    }
  }

  lemma {:induction false} KnownAtKeeps(b: Block, k: Known, i: nat)
    requires i <= Length(b) && Kept(k)
    ensures Kept(KnownAt(b, k, i))
  {
    hide Next, Kept;
    if i > 0 {
      NextKeeps(k, b.head);
      KnownAtKeeps(b.tail, Next(k, b.head), i - 1);
    }
  }

  lemma {:induction false} ScanAt(b: Block, k: Known, w: bool, i: nat)
    requires i < Length(b)
    ensures i < Length(Scan(b, k, w)) && StmtAt(Scan(b, k, w), i) == Judge(StmtAt(b, i), KnownAt(b, k, i), w)
  {
    hide Judge, Next;
    if i > 0 {
      ScanAt(b.tail, Next(k, b.head), w, i - 1);
    }
  }

  /** The statement gives x no new value and declares no other x. */
  predicate Spares(s: Stmt, x: string) {
    x !in AssignedIn(s) && x !in DeclaredIn(s)
  }

  predicate SparesBetween(b: Block, i: nat, n: nat, x: string)
    requires n <= Length(b)
  {
    forall l: nat | i <= l < n :: Spares(StmtAt(b, l), x)
  }

  // ----- verdicts -----

  lemma JudgedIf(k: Known, s: Stmt, w: bool)
    requires Leaves(s)
    ensures Judge(s, k, w).If? && Judge(s, k, w).verdict == Report(k, s)
  {
  }

  /** The verdict on a guard whose local is narrowed, by whatever kind of rule:
      redundant exactly when every value the relation allows makes it true,
      impossible exactly when none does, silent exactly when some do and some do
      not. */
  lemma VerdictExact(m: Meaning, k: Known, s: Stmt, w: bool)
    requires SpellingsDistinct(m) && Leaves(s) && Kept(k) && s.cond.name in k.narrowed
    ensures var verdict, st := Judge(s, k, w).verdict, k.narrowed[s.cond.name].narrow;
      && (verdict == Redundant <==> forall v: Value | Satisfies(m, st, v) :: Satisfies(m, s.cond.state, v))
      && (verdict == Impossible <==> forall v: Value | Satisfies(m, st, v) :: !Satisfies(m, s.cond.state, v))
      && (verdict == Silent <==>
            && (exists v: Value | Satisfies(m, st, v) :: Satisfies(m, s.cond.state, v))
            && (exists v: Value | Satisfies(m, st, v) :: !Satisfies(m, s.cond.state, v)))
  {
    hide SpellingsDistinct, Outcome, Satisfies;
    JudgedIf(k, s, w);
    var narrow, guard := k.narrowed[s.cond.name].narrow, s.cond.state;
    forall v: Value | Satisfies(m, narrow, v)
      ensures Outcome(narrow, guard) == Impossible ==> !Satisfies(m, guard, v)
      ensures Outcome(narrow, guard) == Redundant ==> Satisfies(m, guard, v)
    {
      OutcomeTells(m, narrow, guard, v);
    }
    if Outcome(narrow, guard) != Impossible {
      var v := Common(m, narrow, guard);
    }
    if Outcome(narrow, guard) != Redundant {
      OppositeOutcome(narrow, guard);
      var v := Common(m, narrow, Opposite(guard));
      OppositeHolds(m, guard, v);
    }
  }

  lemma OppositeOutcome(narrow: NarrowState, guard: NarrowState)
    ensures Outcome(narrow, Opposite(guard)) == Impossible <==> Outcome(narrow, guard) == Redundant
  {
  }

  // ----- narrowed locals stay narrowed -----

  lemma {:induction false} RecordNonNilLeaves(k: Known, c: Callee, lhs: seq<Target>, n: nat, x: string)
    requires x !in LocalsOf(lhs)
    ensures var after := RecordNonNil(k, c, lhs, n);
      && (x in after.narrowed <==> x in k.narrowed) && (x in k.narrowed ==> after.narrowed[x] == k.narrowed[x])
      && after.pending == k.pending
  {
    if n > 0 {
      RecordNonNilLeaves(k, c, lhs, n - 1, x);
      if NonNilAt(c, lhs, n - 1) {
        InLocals(lhs, n - 1);
      }
    }
  }

  lemma {:induction false} RecordRulesLeaves(k: Known, c: Callee, lhs: seq<Target>, n: nat, x: string)
    requires n <= |c.rules|
    ensures var after := RecordRules(k, c, lhs, n);
      && after.narrowed == k.narrowed && (x in k.pending ==> x in after.pending && after.pending[x] == k.pending[x])
  {
    hide RuleBinding;
    if n > 0 {
      RecordRulesLeaves(k, c, lhs, n - 1, x);
    }
  }

  /** x is bound to b: it awaits its guard, or is narrowed already. */
  predicate BoundTo(k: Known, x: string, b: Binding) {
    (x in k.pending && k.pending[x] == b) || (x in k.narrowed && k.narrowed[x] == b)
  }

  /** A statement that spares a narrowed local, and does not rewrite its guard,
      leaves it narrowed. */
  lemma NarrowedStays(k: Known, s: Stmt, x: string)
    requires Kept(k) && x in k.narrowed && Spares(s, x)
    requires k.narrowed[x].source == CondSource ==> k.narrowed[x].guardName !in AssignedIn(s)
    ensures x in Next(k, s).narrowed && Next(k, s).narrowed[x] == k.narrowed[x]
  {
    hide RecordNonNil, RecordRules;
    var before := Promote(Invalidate(k, s), s);
    assert x in before.narrowed && before.narrowed[x] == k.narrowed[x];
    if s.Assign? && s.rhs.Call? {
      var c := s.rhs.callee;
      RecordNonNilLeaves(before, c, s.lhs, |s.lhs|, x);
      RecordRulesLeaves(RecordNonNil(before, c, s.lhs, |s.lhs|), c, s.lhs, |c.rules|, x);
    }
  }

  /** A statement that spares a bound local and its guard leaves it bound. */
  lemma BoundStays(k: Known, s: Stmt, x: string, b: Binding)
    requires Kept(k) && BoundTo(k, x, b) && Spares(s, x) && Spares(s, b.guardName)
    ensures BoundTo(Next(k, s), x, b)
  {
    hide RecordNonNil, RecordRules;
    var before := Promote(Invalidate(k, s), s);
    assert BoundTo(Invalidate(k, s), x, b) && BoundTo(before, x, b);
    if s.Assign? && s.rhs.Call? {
      var c := s.rhs.callee;
      RecordNonNilLeaves(before, c, s.lhs, |s.lhs|, x);
      RecordRulesLeaves(RecordNonNil(before, c, s.lhs, |s.lhs|), c, s.lhs, |c.rules|, x);
    }
  }

  lemma {:induction false} NarrowedStaysUntil(b: Block, k: Known, x: string, i: nat, n: nat)
    requires Kept(k) && i <= n <= Length(b) && x in KnownAt(b, k, i).narrowed
    requires SparesBetween(b, i, n, x)
    requires var bound := KnownAt(b, k, i).narrowed[x];
      bound.source == CondSource ==> forall l: nat | i <= l < n :: bound.guardName !in AssignedIn(StmtAt(b, l))
    ensures x in KnownAt(b, k, n).narrowed && KnownAt(b, k, n).narrowed[x] == KnownAt(b, k, i).narrowed[x]
  {
    hide Next;
    if i < n {
      NarrowedStaysUntil(b, k, x, i, n - 1);
      KnownAtKeeps(b, k, n - 1);
      KnownAtNext(b, k, n - 1);
      assert Spares(StmtAt(b, n - 1), x);
      NarrowedStays(KnownAt(b, k, n - 1), StmtAt(b, n - 1), x);
    }
  }

  lemma {:induction false} BoundStaysUntil(b: Block, k: Known, x: string, bound: Binding, i: nat, n: nat)
    requires Kept(k) && i <= n <= Length(b) && BoundTo(KnownAt(b, k, i), x, bound)
    requires SparesBetween(b, i, n, x) && SparesBetween(b, i, n, bound.guardName)
    ensures BoundTo(KnownAt(b, k, n), x, bound)
  {
    hide Next, BoundTo;
    if i < n {
      BoundStaysUntil(b, k, x, bound, i, n - 1);
      KnownAtKeeps(b, k, n - 1);
      KnownAtNext(b, k, n - 1);
      assert Spares(StmtAt(b, n - 1), x) && Spares(StmtAt(b, n - 1), bound.guardName);
      BoundStays(KnownAt(b, k, n - 1), StmtAt(b, n - 1), x, bound);
    }
  }

  // ----- results declared non-nil -----

  /** The statement assigns x a result that its callee declares non-nil. */
  predicate AssignsNonNil(s: Stmt, x: string) {
    && x != "_" && s.Assign? && s.rhs.Call?
    && exists j :: 0 <= j < |s.lhs| && j < |s.rhs.callee.nonNil| && s.lhs[j] == Local(x) && s.rhs.callee.nonNil[j]
  }

  lemma {:induction false} NonNilRecorded(k: Known, c: Callee, lhs: seq<Target>, n: nat, j: nat)
    requires j < n && j < |lhs| && j < |c.nonNil| && c.nonNil[j] && lhs[j].Local? && lhs[j].name != "_"
    ensures var after := RecordNonNil(k, c, lhs, n);
      lhs[j].name in after.narrowed && after.narrowed[lhs[j].name] == Binding(NilSource, NON_NIL, NON_NIL, "")
  {
    if n - 1 > j {
      NonNilRecorded(k, c, lhs, n - 1, j);
    }
  }

  lemma NonNilKnown(k: Known, s: Stmt, x: string)
    requires AssignsNonNil(s, x)
    ensures x in Next(k, s).narrowed && Next(k, s).narrowed[x] == Binding(NilSource, NON_NIL, NON_NIL, "")
  {
    hide RecordRules, Promote, Invalidate;
    var j :| 0 <= j < |s.lhs| && j < |s.rhs.callee.nonNil| && s.lhs[j] == Local(x) && s.rhs.callee.nonNil[j];
    var before := Promote(Invalidate(k, s), s);
    NonNilRecorded(before, s.rhs.callee, s.lhs, |s.lhs|, j);
    RecordRulesLeaves(RecordNonNil(before, s.rhs.callee, s.lhs, |s.lhs|), s.rhs.callee, s.lhs, |s.rhs.callee.rules|, x);
  }

  /** After a call that declares its result non-nil, every leaving nil guard on
      the local is judged, as long as the local is spared: `== nil` impossible,
      `!= nil` redundant, from whatever the scan knew before. */
  lemma NonNilResultJudged(b: Block, k: Known, w: bool, i: nat, n: nat, x: string)
    requires Kept(k) && i < n < Length(b) && AssignsNonNil(StmtAt(b, i), x) && SparesBetween(b, i + 1, n, x)
    requires Leaves(StmtAt(b, n)) && StmtAt(b, n).cond.name == x && StmtAt(b, n).cond.state.value == NilValue
    ensures n < Length(Scan(b, k, w)) && StmtAt(Scan(b, k, w), n).If?
    ensures StmtAt(Scan(b, k, w), n).verdict == if StmtAt(b, n).cond.state.equal then Impossible else Redundant
  {
    hide Next, Scan, Judge, Kept, AssignsNonNil;
    KnownAtNext(b, k, i);
    NonNilKnown(KnownAt(b, k, i), StmtAt(b, i), x);
    NarrowedStaysUntil(b, k, x, i + 1, n);
    KnownAtKeeps(b, k, n);
    NarrowedIsNamed(KnownAt(b, k, n), x);
    ScanAt(b, k, w, n);
    JudgedIf(KnownAt(b, k, n), StmtAt(b, n), w);
  }

  lemma NarrowedIsNamed(k: Known, x: string)
    requires Kept(k) && x in k.narrowed
    ensures x in k.names
  {
  }

  // ----- results related by a rule -----

  /** A bare reference compared by `==` or `!=` with nil or one literal. */
  predicate Asks(e: Expression, ref: Reference, st: NarrowState) {
    && e.ref == ref && ref.path == [] && ((e.op == Eq && st.equal) || (e.op == Neq && !st.equal))
    && (|| (e.kind == NilCheck && st.value == NilValue)
        || (e.kind == Comparison && |e.members| == 1
            && if e.members[0].isNil then st.value == NilValue
               else e.members[0].literal != "" && st.value == Literal(e.members[0].literal)))
  }

  /** The rule says that its guard side brings about its target side: an
      implication left to right, a biconditional of unlike sides from the `==`
      to the `!=`. */
  predicate Brings(r: Rule, guardRef: Reference, guard: NarrowState, targetRef: Reference, target: NarrowState) {
    && r.left.Some? && r.right.Some?
    && match r.direction
       case Structural => false
       case Imply => Asks(r.left.value, guardRef, guard) && Asks(r.right.value, targetRef, target)
       case Equiv =>
         && guard.equal && !target.equal
         && (|| (Asks(r.left.value, guardRef, guard) && Asks(r.right.value, targetRef, target))
             || (Asks(r.right.value, guardRef, guard) && Asks(r.left.value, targetRef, target)))
  }

  lemma BareEqualityExact(e: Expression, st: NarrowState)
    ensures BareEquality(e) == Some(st) <==> Asks(e, e.ref, st)
  {
  }

  /** The recogniser finds exactly these. */
  lemma RuleShapeExact(r: Rule, guardRef: Reference, guard: NarrowState, targetRef: Reference, target: NarrowState)
    ensures RuleShape(r) == Some(Shape(guardRef, guard, targetRef, target)) <==>
      Brings(r, guardRef, guard, targetRef, target)
  {
    hide BareEquality, Asks;
    if r.left.Some? && r.right.Some? {
      var left, right := r.left.value, r.right.value;
      forall st: NarrowState
        ensures BareEquality(left) == Some(st) <==> Asks(left, left.ref, st)
        ensures BareEquality(right) == Some(st) <==> Asks(right, right.ref, st)
      {
        BareEqualityExact(left, st);
        BareEqualityExact(right, st);
      }
      OwnRef(left, guardRef, guard);
      OwnRef(left, targetRef, target);
      OwnRef(right, guardRef, guard);
      OwnRef(right, targetRef, target);
    }
  }

  lemma OwnRef(e: Expression, ref: Reference, st: NarrowState)
    ensures Asks(e, ref, st) ==> ref == e.ref
  {
  }

  /** The rule relates the results that the call assigns to g and x. */
  ghost predicate Relates(c: Callee, lhs: seq<Target>, r: Rule, g: string, guard: NarrowState, x: string,
                          target: NarrowState)
  {
    exists guardRef, targetRef, i: nat, j: nat :: RelatesAt(c, lhs, r, guardRef, i, g, guard, targetRef, j, x, target)
  }

  predicate RelatesAt(c: Callee, lhs: seq<Target>, r: Rule, guardRef: Reference, i: nat, g: string, guard: NarrowState,
                      targetRef: Reference, j: nat, x: string, target: NarrowState)
  {
    && Brings(r, guardRef, guard, targetRef, target)
    && ReturnPosition(c, guardRef) == Some(i + 1) && ReturnPosition(c, targetRef) == Some(j + 1)
    && i < |lhs| && j < |lhs| && i != j && lhs[i] == Local(g) && lhs[j] == Local(x) && x != "_"
  }

  /** A rule binds a local exactly when it relates two results assigned to locals. */
  lemma RuleBindingExact(c: Callee, lhs: seq<Target>, r: Rule, g: string, guard: NarrowState, x: string,
                         target: NarrowState)
    ensures RuleBinding(c, lhs, r) == Some((x, Binding(CondSource, target, guard, g))) <==>
      Relates(c, lhs, r, g, guard, x, target)
  {
    hide RuleShape, ReturnPosition, Brings;
    if RuleBinding(c, lhs, r) == Some((x, Binding(CondSource, target, guard, g))) {
      var i, j := BoundSlots(c, lhs, r);
      var s := RuleShape(r).value;
      RuleShapeExact(r, s.guardRef, guard, s.targetRef, target);
      assert RelatesAt(c, lhs, r, s.guardRef, i, g, guard, s.targetRef, j, x, target);
    }
    if Relates(c, lhs, r, g, guard, x, target) {
      var guardRef, targetRef, i: nat, j: nat :|
        RelatesAt(c, lhs, r, guardRef, i, g, guard, targetRef, j, x, target);
      RuleShapeExact(r, guardRef, guard, targetRef, target);
    }
  }

  /** The j-th rule is the first of the contract to speak of x, which the
      contract does not declare non-nil. */
  ghost predicate FirstToRelate(s: Stmt, j: nat, g: string, guard: NarrowState, x: string, target: NarrowState) {
    && s.Assign? && s.rhs.Call? && j < |s.rhs.callee.rules| && !AssignsNonNil(s, x)
    && Relates(s.rhs.callee, s.lhs, s.rhs.callee.rules[j], g, guard, x, target)
    && forall l: nat, g', guard', target' | l < j ::
         !Relates(s.rhs.callee, s.lhs, s.rhs.callee.rules[l], g', guard', x, target')
  }

  lemma {:induction false} RulesRecorded(k: Known, c: Callee, lhs: seq<Target>, n: nat, j: nat, x: string, b: Binding)
    requires j < n <= |c.rules| && x !in k.narrowed && x !in k.pending
    requires RuleBinding(c, lhs, c.rules[j]) == Some((x, b))
    requires forall l: nat | l < j ::
      RuleBinding(c, lhs, c.rules[l]).None? || RuleBinding(c, lhs, c.rules[l]).value.0 != x
    ensures x in RecordRules(k, c, lhs, n).pending && RecordRules(k, c, lhs, n).pending[x] == b
  {
    hide RuleBinding;
    if n - 1 > j {
      RulesRecorded(k, c, lhs, n - 1, j, x, b);
    } else {
      NotYetRecorded(k, c, lhs, j, x);
    }
  }

  lemma {:induction false} NotYetRecorded(k: Known, c: Callee, lhs: seq<Target>, n: nat, x: string)
    requires n <= |c.rules| && x !in k.narrowed && x !in k.pending
    requires forall l: nat | l < n ::
      RuleBinding(c, lhs, c.rules[l]).None? || RuleBinding(c, lhs, c.rules[l]).value.0 != x
    ensures x !in RecordRules(k, c, lhs, n).pending && x !in RecordRules(k, c, lhs, n).narrowed
  {
    hide RuleBinding;
    if n > 0 {
      NotYetRecorded(k, c, lhs, n - 1, x);
    }
  }

  lemma {:induction false} NonNilNotRecorded(k: Known, c: Callee, lhs: seq<Target>, n: nat, x: string)
    requires x !in k.narrowed && n <= |lhs|
    requires forall j | 0 <= j < |lhs| && j < |c.nonNil| && lhs[j] == Local(x) && x != "_" :: !c.nonNil[j]
    ensures x !in RecordNonNil(k, c, lhs, n).narrowed && RecordNonNil(k, c, lhs, n).pending == k.pending
  {
    if n > 0 {
      NonNilNotRecorded(k, c, lhs, n - 1, x);
    }
  }

  lemma RuleKnown(k: Known, s: Stmt, j: nat, g: string, guard: NarrowState, x: string, target: NarrowState)
    requires FirstToRelate(s, j, g, guard, x, target)
    ensures BoundTo(Next(k, s), x, Binding(CondSource, target, guard, g))
  {
    hide RuleBinding, Brings, ReturnPosition, RecordRules, RecordNonNil, Promote;
    var c := s.rhs.callee;
    var before := Invalidate(k, s);
    AssignedIsGone(k, s, j, g, guard, x, target);
    assert Promote(before, s) == before by {
      NoPromotion(before, s);
    }
    RuleBindingExact(c, s.lhs, c.rules[j], g, guard, x, target);
    forall l: nat | l < j
      ensures RuleBinding(c, s.lhs, c.rules[l]).None? || RuleBinding(c, s.lhs, c.rules[l]).value.0 != x
    {
      if RuleBinding(c, s.lhs, c.rules[l]).Some? && RuleBinding(c, s.lhs, c.rules[l]).value.0 == x {
        var p, q := BoundSlots(c, s.lhs, c.rules[l]);
        var b := RuleBinding(c, s.lhs, c.rules[l]).value.1;
        RuleBindingExact(c, s.lhs, c.rules[l], b.guardName, b.guardNarrow, x, b.narrow);
      }
    }
    NonNilNotRecorded(before, c, s.lhs, |s.lhs|, x);
    RulesRecorded(RecordNonNil(before, c, s.lhs, |s.lhs|), c, s.lhs, |c.rules|, j, x,
                  Binding(CondSource, target, guard, g));
  }

  lemma NoPromotion(k: Known, s: Stmt)
    requires s.Assign?
    ensures Promote(k, s) == k
  {
  }

  lemma AssignedIsGone(k: Known, s: Stmt, j: nat, g: string, guard: NarrowState, x: string, target: NarrowState)
    requires FirstToRelate(s, j, g, guard, x, target)
    ensures x != "_" && x !in Invalidate(k, s).narrowed && x !in Invalidate(k, s).pending
  {
    hide Brings, ReturnPosition;
    var guardRef, targetRef, p: nat, q: nat :|
      RelatesAt(s.rhs.callee, s.lhs, s.rhs.callee.rules[j], guardRef, p, g, guard, targetRef, q, x, target);
    InLocals(s.lhs, q);
  }

  /** A leaving guard whose failing proves the guard side narrows the target. */
  lemma GuardNarrows(k: Known, s: Stmt, x: string, b: Binding)
    requires Kept(k) && BoundTo(k, x, b) && b.source == CondSource && Leaves(s) && Spares(s, x)
    requires Spares(s, b.guardName)
    requires s.cond.name == b.guardName && s.cond.state == Opposite(b.guardNarrow)
    ensures x in Next(k, s).narrowed && Next(k, s).narrowed[x] == b
  {
    assert Opposite(s.cond.state) == b.guardNarrow;
    var left := Invalidate(k, s);
    assert BoundTo(left, x, b);
    assert x in Narrow(left, s.cond.name, b.guardNarrow).narrowed;
  }

  /** After a call with a rule that relates two of its results, and a leaving
      guard whose failing proves the rule's guard side, every leaving guard on
      the target is judged by what the rule then says of it: redundant exactly
      when all the values the rule allows make it true, impossible exactly when
      none does. */
  lemma RuleJudged(m: Meaning, b: Block, k: Known, w: bool, i: nat, j: nat, e: nat, n: nat, g: string,
                   guard: NarrowState,
                   x: string, target: NarrowState)
    requires SpellingsDistinct(m) && Kept(k) && i < e < n < Length(b)
    requires FirstToRelate(StmtAt(b, i), j, g, guard, x, target)
    requires Leaves(StmtAt(b, e)) && StmtAt(b, e).cond == Guard(g, Opposite(guard))
    requires Leaves(StmtAt(b, n)) && StmtAt(b, n).cond.name == x
    requires SparesBetween(b, i + 1, n, x) && SparesBetween(b, i + 1, e + 1, g)
    requires forall l: nat | e < l < n :: g !in AssignedIn(StmtAt(b, l))
    ensures n < Length(Scan(b, k, w)) && StmtAt(Scan(b, k, w), n).If?
    ensures var verdict, st := StmtAt(Scan(b, k, w), n).verdict, StmtAt(b, n).cond.state;
      && (verdict == Redundant <==> forall v: Value | Satisfies(m, target, v) :: Satisfies(m, st, v))
      && (verdict == Impossible <==> forall v: Value | Satisfies(m, target, v) :: !Satisfies(m, st, v))
  {
    hide Next, Scan, Judge, Kept, FirstToRelate, SpellingsDistinct, Satisfies, BoundTo;
    var bound := Binding(CondSource, target, guard, g);
    KnownAtNext(b, k, i);
    RuleKnown(KnownAt(b, k, i), StmtAt(b, i), j, g, guard, x, target);
    BoundStaysUntil(b, k, x, bound, i + 1, e);
    KnownAtKeeps(b, k, e);
    KnownAtNext(b, k, e);
    assert Spares(StmtAt(b, e), x) && Spares(StmtAt(b, e), g);
    GuardNarrows(KnownAt(b, k, e), StmtAt(b, e), x, bound);
    NarrowedStaysUntil(b, k, x, e + 1, n);
    KnownAtKeeps(b, k, n);
    ScanAt(b, k, w, n);
    JudgedIf(KnownAt(b, k, n), StmtAt(b, n), w);
    VerdictExact(m, KnownAt(b, k, n), StmtAt(b, n), w);
  }

  /** In the branches of a guard, a bound local whose guard side the branch
      proves is narrowed from the start. */
  lemma BranchNarrows(k: Known, s: Stmt, w: bool, taken: bool, x: string, b: Binding)
    requires Kept(k) && BoundTo(Invalidate(k, s), x, b) && b.source == CondSource
    requires s.If? && s.init == Done && s.cond.Guard? && s.cond.name == b.guardName
    requires b.guardNarrow == if taken then s.cond.state else Opposite(s.cond.state)
    ensures var inside := Entering(HandedDown(k, s, w), s.cond, taken); x in inside.narrowed && inside.narrowed[x] == b
  {
    hide Promote, Invalidate;
    HandedDownKeeps(k, s, w);
    HandedDownKeeps(k, s, false);
    PromoteBinds(Invalidate(k, s), s, x, b);
  }

  lemma PromoteBinds(k: Known, s: Stmt, x: string, b: Binding)
    requires Kept(k) && BoundTo(k, x, b)
    ensures BoundTo(Promote(k, s), x, b)
  {
  }

  lemma BodyJudged(k: Known, s: Stmt, w: bool)
    requires s.If? && s.init == Done
    ensures Judge(s, k, w).If? && Judge(s, k, w).body == Scan(s.body, Entering(HandedDown(k, s, w), s.cond, true), w)
  {
    hide Scan, ScanElse, HandedDown, Entering, Report;
  }

  // ----- what is scanned at all -----

  /** A body leaves exactly when its last statement is a return or a panic. */
  lemma {:induction false} ShortCircuitsExact(b: Block)
    ensures ShortCircuits(b) <==>
      Length(b) > 0 && (StmtAt(b, Length(b) - 1).Return? || StmtAt(b, Length(b) - 1).Panic?)
  {
    if b.Then? && b.tail.Then? {
      ShortCircuitsExact(b.tail);
    }
  }

  /** Every block below a statement is scanned: those of an if without init with
      what the scan knows, all others from nothing. */
  lemma NestedScanned(k: Known, s: Stmt, w: bool)
    ensures s.Nested? ==> Judge(s, k, w) == Nested(Scan(s.block, NOTHING_KNOWN, w))
    ensures s.If? ==>
      && Judge(s, k, w).If?
      && var inElse := if s.init == Done then Entering(HandedDown(k, s, w), s.cond, false) else NOTHING_KNOWN;
         Judge(s, k, w).alt == ScanElse(s.alt, inElse, w)
    ensures s.If? && s.init != Done ==> Judge(s, k, w).body == Scan(s.body, NOTHING_KNOWN, w)
  {
    hide HandedDown, Entering, Report;
  }

  /** And so is an else, an else-if as a statement of its own. */
  lemma ElseScanned(alt: Else, k: Known, w: bool)
    ensures alt.ElseBlock? ==> ScanElse(alt, k, w) == ElseBlock(Scan(alt.block, k, w))
    ensures alt.ElseIf? && alt.stmt.If? ==>
      && ScanElse(alt, k, w).ElseIf? && ScanElse(alt, k, w).stmt.If?
      && ScanElse(alt, k, w).stmt.body == Scan(alt.stmt.body, NOTHING_KNOWN, w)
      && ScanElse(alt, k, w).stmt.alt == ScanElse(alt.stmt.alt, NOTHING_KNOWN, w)
  {
    if alt.ElseIf? && alt.stmt.If? {
      assert ScanFresh(alt.stmt, w).If?;
    }
  }
}
