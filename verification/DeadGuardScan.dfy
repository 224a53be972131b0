/** The dead-guard scan as it runs: maps updated in place, statement by
    statement. */
module DeadGuardScan {
  import opened Options
  import opened Dsl
  import opened GuardLang
  import opened DeadGuard

  // ----- names in the order they are met -----

  function NamesOf(lhs: seq<Target>): (names: seq<string>)
    ensures forall x :: x in names && x != "_" <==> x in LocalsOf(lhs)
  {
    if lhs == [] then []
    else NamesOf(lhs[..|lhs| - 1]) + if lhs[|lhs| - 1].Local? then [lhs[|lhs| - 1].name] else []
  }

  function NamesIn(b: Block): (names: seq<string>)
    ensures forall x :: x in names && x != "_" <==> x in Assigned(b)
    decreases b
  {
    match b
    case Done => []
    case Then(s, tail) => NamesInStmt(s) + NamesIn(tail)
  }

  function NamesInStmt(s: Stmt): (names: seq<string>)
    ensures forall x :: x in names && x != "_" <==> x in AssignedIn(s)
    decreases s
  {
    match s
    case Assign(_, lhs, _) => NamesOf(lhs)
    case IncDec(x) => [x]
    case If(init, _, body, alt, _) => NamesIn(init) + NamesIn(body) + NamesInElse(alt)
    case Nested(block) => NamesIn(block)
    case _ => []
  }

  function NamesInElse(alt: Else): (names: seq<string>)
    ensures forall x :: x in names && x != "_" <==> x in AssignedElse(alt)
    decreases alt
  {
    match alt
    case NoElse => []
    case ElseBlock(block) => NamesIn(block)
    case ElseIf(s) => NamesInStmt(s)
  }

  function Real(names: seq<string>): set<string> {
    set x | x in names && x != "_"
  }

  // ----- the name set always is the key set -----

  predicate Consistent(k: Known) {
    k.names == k.narrowed.Keys
  }

  lemma {:induction false} RecordNonNilConsistent(k: Known, c: Callee, lhs: seq<Target>, n: nat)
    requires Consistent(k)
    ensures Consistent(RecordNonNil(k, c, lhs, n)) && RecordNonNil(k, c, lhs, n).pending == k.pending
  {
    if n > 0 {
      RecordNonNilConsistent(k, c, lhs, n - 1);
    }
  }

  lemma {:induction false} RecordRulesConsistent(k: Known, c: Callee, lhs: seq<Target>, n: nat)
    requires Consistent(k) && n <= |c.rules|
    ensures Consistent(RecordRules(k, c, lhs, n))
  {
    if n > 0 {
      RecordRulesConsistent(k, c, lhs, n - 1);
    }
  }

  /** Every step keeps the narrowed names and the narrowed bindings in step. */
  lemma StepsConsistent(k: Known, s: Stmt)
    requires Consistent(k)
    ensures Consistent(Invalidate(k, s)) && Consistent(Promote(Invalidate(k, s), s)) && Consistent(Next(k, s))
  {
    var promoted := Promote(Invalidate(k, s), s);
    if s.Assign? && s.rhs.Call? {
      RecordNonNilConsistent(promoted, s.rhs.callee, s.lhs, |s.lhs|);
      RecordRulesConsistent(RecordNonNil(promoted, s.rhs.callee, s.lhs, |s.lhs|),
                            s.rhs.callee, s.lhs, |s.rhs.callee.rules|);
    }
  }

  lemma ForgetTwice(k: Known, ds: set<string>, xs: set<string>, es: set<string>, ys: set<string>)
    ensures Forget(Forget(k, ds, xs), es, ys) == Forget(k, ds + es, xs + ys)
  {
    var once, twice, all := Forget(k, ds, xs), Forget(Forget(k, ds, xs), es, ys), Forget(k, ds + es, xs + ys);
    assert twice.pending == all.pending;
    assert twice.narrowed == all.narrowed;
    assert twice.names == all.names;
  }

  lemma ForgetConsistent(k: Known, ds: set<string>, xs: set<string>)
    requires Consistent(k)
    ensures Consistent(Forget(k, ds, xs))
  {
  }

  lemma NoNames(xs: set<string>)
    ensures xs + {} == xs && {} + xs == xs
  {
  }

  lemma RealOneMore(names: seq<string>, i: nat)
    requires i < |names|
    ensures Real(names[..i + 1]) == if names[i] == "_" then Real(names[..i]) else Real(names[..i]) + {names[i]}
  {
    assert names[..i + 1] == names[..i] + [names[i]];
  }

  lemma ForgetNothing(k: Known)
    requires Consistent(k)
    ensures Forget(k, {}, {}) == k
  {
    assert Forget(k, {}, {}).pending == k.pending && Forget(k, {}, {}).narrowed == k.narrowed
      && Forget(k, {}, {}).names == k.names;
  }

  lemma ForgetFromNothing(ds: set<string>, xs: set<string>)
    ensures Forget(NOTHING_KNOWN, ds, xs) == NOTHING_KNOWN
  {
  }

  function Only(m: Bindings, xs: set<string>): Bindings {
    map x | x in m && x in xs :: m[x]
  }

  lemma OnlyOneMore(m: Bindings, xs: set<string>, x: string)
    requires x in m
    ensures Only(m, xs + {x}) == Only(m, xs)[x := m[x]]
  {
  }

  /** The pending bindings already looked at whose guard is proved. */
  function AwaitingIn(k: Known, guardName: string, proof: NarrowState, left: set<string>): set<string> {
    set x | x in k.pending && x !in left && Awaits(k.pending[x], guardName, proof)
  }

  lemma NarrowMoves(k: Known, guardName: string, proof: NarrowState)
    ensures var moved := AwaitingIn(k, guardName, proof, {});
      Narrow(k, guardName, proof) == Known(k.pending - moved, k.narrowed + Only(k.pending, moved), k.names + moved)
  {
    var moved := AwaitingIn(k, guardName, proof, {});
    assert (map x | x in k.pending && Awaits(k.pending[x], guardName, proof) :: k.pending[x]) == Only(k.pending, moved);
    assert Only(k.pending, moved).Keys == moved;
  }

  /** Those already looked at that are paired with name. */
  function PairedWith(m: Bindings, name: string, left: set<string>): set<string> {
    set x | x in m && x !in left && PairedIn(m[x], {name})
  }

  lemma ForgetOne(k: Known, name: string)
    requires Consistent(k)
    ensures var waiting := PairedWith(k.pending, name, {name});
      Forget(k, {name}, {}) == Known(k.pending - {name} - waiting, k.narrowed - {name}, k.names - {name})
    ensures var waiting, held := PairedWith(k.pending, name, {name}), PairedWith(k.narrowed, name, {name});
      Forget(k, {}, {name}) == Known(k.pending - {name} - waiting, k.narrowed - {name} - held, k.names - {name} - held)
  {
    var waiting, held := PairedWith(k.pending, name, {name}), PairedWith(k.narrowed, name, {name});
    assert Forget(k, {name}, {}).pending == k.pending - {name} - waiting == Forget(k, {}, {name}).pending;
    assert Forget(k, {name}, {}).narrowed == k.narrowed - {name};
    assert Forget(k, {}, {name}).narrowed == k.narrowed - {name} - held;
    assert Forget(k, {name}, {}).names == k.names - {name};
    assert Forget(k, {}, {name}).names == k.names - {name} - held;
  }

  /** The statements scanned so far, in front of the rest. */
  function Onto(done: seq<Stmt>, rest: Block): Block {
    if done == [] then rest else Onto(done[..|done| - 1], Then(done[|done| - 1], rest))
  }

  lemma OntoOneMore(done: seq<Stmt>, s: Stmt, rest: Block)
    ensures Onto(done + [s], rest) == Onto(done, Then(s, rest))
  {
    assert (done + [s])[..|done|] == done;
  }

  lemma StepUnfolds(k: Known, s: Stmt)
    ensures Next(k, s) == Record(Promote(Invalidate(k, s), s), s)
    ensures s.If? ==> Record(Promote(Invalidate(k, s), s), s) == Promote(Invalidate(k, s), s)
    ensures Judge(s, k, true) == if s.If? && s.init == Done then
      (var down := Promote(Invalidate(k, s), s);
       If(Done, s.cond, Scan(s.body, Entering(down, s.cond, true), true),
          ScanElse(s.alt, Entering(down, s.cond, false), true), Report(k, s)))
      else ScanFresh(s, true)
  {
  }

  /** The three maps one block's scan carries. */
  class Tracker {
    var pending: Bindings
    var narrowed: Bindings
    var narrowedNames: set<string>

    ghost function Known(): Known
      reads this
    {
      DeadGuard.Known(pending, narrowed, narrowedNames)
    }

    /** A copy for a nested block's own scan. */
    constructor (p: Bindings, n: Bindings, names: set<string>)
      ensures Known() == DeadGuard.Known(p, n, names)
    {
      pending, narrowed, narrowedNames := p, n, names;
    }

    method ApplyBodyNarrow(guardName: string, proof: NarrowState)
      modifies this
      ensures Known() == Narrow(old(Known()), guardName, proof)
    {
      ghost var k := Known();
      ghost var moved: set<string> := {};
      var left := pending.Keys;
      while left != {}
        invariant left <= k.pending.Keys && moved == AwaitingIn(k, guardName, proof, left)
        invariant pending == k.pending - moved && narrowedNames == k.names + moved
        invariant narrowed == k.narrowed + Only(k.pending, moved)
        decreases left
      {
        var bound :| bound in left;
        ghost var before := left;
        left := left - {bound};
        assert bound !in moved;
        var binding := pending[bound];
        if binding.source == CondSource && binding.guardName == guardName && binding.guardNarrow == proof {
          OnlyOneMore(k.pending, moved, bound);
          assert AwaitingIn(k, guardName, proof, left) == moved + {bound};
          moved := moved + {bound};
          narrowed := narrowed[bound := binding];
          narrowedNames := narrowedNames + {bound};
          pending := pending - {bound};
        } else {
          assert AwaitingIn(k, guardName, proof, left) == moved;
        }
      }
      NarrowMoves(k, guardName, proof);
    }

    method PromoteOnGuard(s: Stmt)
      modifies this
      ensures Known() == Promote(old(Known()), s)
    {
      if pending == map[] {
        assert Promote(Known(), s) == Known();
        return;
      }
      if s.If? && s.init == Done && ShortCircuits(s.body) && s.cond.Guard? {
        var proof := Opposite(s.cond.state);
        ApplyBodyNarrow(s.cond.name, proof);
        if s.cond.name in pending && pending[s.cond.name].narrow == proof {
          narrowed := narrowed[s.cond.name := pending[s.cond.name]];
          narrowedNames := narrowedNames + {s.cond.name};
          pending := pending - {s.cond.name};
        }
      }
    }

    /** A name's binding, and the pending ones that wait for it. */
    method ForgetName(name: string)
      requires Consistent(Known())
      modifies this
      ensures Known() == Forget(old(Known()), {name}, {})
    {
      hide Forget;
      ghost var k := Known();
      ForgetOne(k, name);
      pending := pending - {name};
      narrowed := narrowed - {name};
      narrowedNames := narrowedNames - {name};
      ghost var gone: set<string> := {};
      var left := pending.Keys;
      while left != {}
        invariant left <= k.pending.Keys - {name} && gone == PairedWith(k.pending, name, left + {name})
        invariant pending == k.pending - {name} - gone
        invariant narrowed == k.narrowed - {name} && narrowedNames == k.names - {name}
        decreases left
      {
        var bound :| bound in left;
        left := left - {bound};
        assert bound !in gone;
        if pending[bound].source == CondSource && pending[bound].guardName == name {
          assert PairedWith(k.pending, name, left + {name}) == gone + {bound};
          gone := gone + {bound};
          pending := pending - {bound};
        } else {
          assert PairedWith(k.pending, name, left + {name}) == gone;
        }
      }
    }

    /** A rewritten name takes narrowed bindings paired with it along. */
    method Drop(name: string)
      requires Consistent(Known())
      modifies this
      ensures Known() == if name == "_" then old(Known()) else Forget(old(Known()), {}, {name})
    {
      hide Forget;
      if name == "_" {
        return;
      }
      ghost var k := Known();
      ForgetOne(k, name);
      ForgetName(name);
      ghost var gone: set<string> := {};
      var left := narrowed.Keys;
      while left != {}
        invariant left <= k.narrowed.Keys - {name} && gone == PairedWith(k.narrowed, name, left + {name})
        invariant pending == Forget(k, {name}, {}).pending
        invariant narrowed == k.narrowed - {name} - gone && narrowedNames == k.names - {name} - gone
        decreases left
      {
        var bound :| bound in left;
        left := left - {bound};
        assert bound !in gone;
        if narrowed[bound].source == CondSource && narrowed[bound].guardName == name {
          assert PairedWith(k.narrowed, name, left + {name}) == gone + {bound};
          gone := gone + {bound};
          narrowed := narrowed - {bound};
          narrowedNames := narrowedNames - {bound};
        } else {
          assert PairedWith(k.narrowed, name, left + {name}) == gone;
        }
      }
    }

    method ForgetDeclared(declared: seq<string>)
      requires Consistent(Known())
      modifies this
      ensures Known() == Forget(old(Known()), Real(declared), {}) && Consistent(Known())
    {
      ghost var k := Known();
      ForgetNothing(k);
      for i := 0 to |declared|
        invariant Known() == Forget(k, Real(declared[..i]), {}) && Consistent(Known())
      {
        hide Forget;
        RealOneMore(declared, i);
        if declared[i] != "_" {
          ForgetTwice(k, Real(declared[..i]), {}, {declared[i]}, {});
          ForgetConsistent(k, Real(declared[..i]) + {declared[i]}, {});
          NoNames({});
          ForgetName(declared[i]);
        }
      }
      assert declared[..|declared|] == declared;
    }

    method DropAll(names: seq<string>)
      requires Consistent(Known())
      modifies this
      ensures Known() == Forget(old(Known()), {}, Real(names)) && Consistent(Known())
    {
      ghost var k := Known();
      ForgetNothing(k);
      for i := 0 to |names|
        invariant Known() == Forget(k, {}, Real(names[..i])) && Consistent(Known())
      {
        hide Forget;
        RealOneMore(names, i);
        if names[i] != "_" {
          ForgetTwice(k, {}, Real(names[..i]), {}, {names[i]});
          ForgetConsistent(k, {}, Real(names[..i]) + {names[i]});
          NoNames({});
        }
        Drop(names[i]);
      }
      assert names[..|names|] == names;
    }

    /** Drops what the statement shadows or rewrites, name by name. */
    method InvalidateFor(s: Stmt)
      requires Consistent(Known())
      modifies this
      ensures Known() == Invalidate(old(Known()), s)
    {
      hide Forget;
      ghost var k := Known();
      if pending == map[] && narrowedNames == {} {
        assert narrowed == map[];
        ForgetFromNothing(DeclaredIn(s), AssignedIn(s));
        return;
      }
      ForgetDeclared(if s.Declare? then s.names else []);
      DropAll(NamesInStmt(s));
      ForgetTwice(k, DeclaredIn(s), {}, {}, AssignedIn(s));
      assert Real(if s.Declare? then s.names else []) == DeclaredIn(s) && Real(NamesInStmt(s)) == AssignedIn(s);
      NoNames(DeclaredIn(s));
      NoNames(AssignedIn(s));
    }

    /** Results declared non-nil are narrowed at once; later ones of the same
        local overwrite. */
    method RecordNilBindings(c: Callee, lhs: seq<Target>)
      modifies this
      ensures Known() == RecordNonNil(old(Known()), c, lhs, |lhs|)
    {
      for i := 0 to |lhs|
        invariant Known() == RecordNonNil(old(Known()), c, lhs, i)
      {
        if i < |c.nonNil| && c.nonNil[i] && lhs[i].Local? && lhs[i].name != "_" {
          narrowed := narrowed[lhs[i].name := Binding(NilSource, NON_NIL, NON_NIL, "")];
          narrowedNames := narrowedNames + {lhs[i].name};
        }
      }
    }

    /** Rules wait for their guard, unless their local is spoken for. */
    method RecordCondBindings(c: Callee, lhs: seq<Target>)
      modifies this
      ensures Known() == RecordRules(old(Known()), c, lhs, |c.rules|)
    {
      for j := 0 to |c.rules|
        invariant Known() == RecordRules(old(Known()), c, lhs, j)
      {
        var b := RuleBinding(c, lhs, c.rules[j]);
        if b.Some? && b.value.0 !in narrowed && b.value.0 !in pending {
          pending := pending[b.value.0 := b.value.1];
        }
      }
    }

    method RecordFor(s: Stmt)
      modifies this
      ensures Known() == Record(old(Known()), s)
    {
      if s.Assign? && s.rhs.Call? {
        RecordNilBindings(s.rhs.callee, s.lhs);
        RecordCondBindings(s.rhs.callee, s.lhs);
      }
    }

    method ReportFor(s: Stmt) returns (verdict: Verdict)
      requires Consistent(Known())
      ensures verdict == Report(Known(), s)
    {
      verdict := Silent;
      if s.If? && narrowedNames != {} && s.init == Done && ShortCircuits(s.body)
         && s.cond.Guard? && s.cond.name in narrowedNames {
        verdict := Outcome(narrowed[s.cond.name].narrow, s.cond.state);
      }
    }

    /** One block's scan: report, invalidate, promote, record, descend. */
    method CheckBlock(b: Block) returns (judged: Block)
      requires Consistent(Known())
      modifies this
      ensures judged == Scan(b, old(Known()), true)
      decreases b
    {
      hide Invalidate, Promote, Record, Report, Judge, Next;
      var done: seq<Stmt> := [];
      var rest := b;
      while rest.Then?
        invariant rest == b || rest < b
        invariant Consistent(Known()) && Scan(b, old(Known()), true) == Onto(done, Scan(rest, Known(), true))
        decreases rest
      {
        ghost var k := Known();
        var s := rest.head;
        StepsConsistent(k, s);
        StepUnfolds(k, s);
        var verdict := ReportFor(s);
        InvalidateFor(s);
        PromoteOnGuard(s);
        RecordFor(s);
        if s.If? && s.init == Done {
          s := Descend(s, verdict);
        } else {
          s := CheckAlone(s);
        }
        OntoOneMore(done, s, Scan(rest.tail, Known(), true));
        done := done + [s];
        rest := rest.tail;
      }
      judged := Onto(done, Done);
    }

    /** The branches of an if, each with a copy of what is known. */
    method Descend(s: Stmt, verdict: Verdict) returns (judged: Stmt)
      requires s.If? && s.init == Done && Consistent(Known())
      ensures judged == If(Done, s.cond, Scan(s.body, Entering(Known(), s.cond, true), true),
                           ScanElse(s.alt, Entering(Known(), s.cond, false), true), verdict)
      decreases s, 0
    {
      var inBody := new Tracker(pending, narrowed, narrowedNames);
      if s.cond.Guard? {
        inBody.ApplyBodyNarrow(s.cond.name, s.cond.state);
      }
      var body := inBody.CheckBlock(s.body);
      var inElse := new Tracker(pending, narrowed, narrowedNames);
      if s.cond.Guard? {
        inElse.ApplyBodyNarrow(s.cond.name, Opposite(s.cond.state));
      }
      var alt := inElse.CheckElse(s.alt);
      judged := If(Done, s.cond, body, alt, verdict);
    }

    /** An else block goes on from what is known, an else-if from nothing. */
    method CheckElse(alt: Else) returns (judged: Else)
      requires Consistent(Known())
      modifies this
      ensures judged == ScanElse(alt, old(Known()), true)
      decreases alt
    {
      if alt.ElseBlock? {
        var block := CheckBlock(alt.block);
        judged := ElseBlock(block);
      } else if alt.ElseIf? {
        var s := CheckAlone(alt.stmt);
        judged := ElseIf(s);
      } else {
        judged := NoElse;
      }
    }

    /** Blocks the scan meets on their own start from nothing. */
    static method CheckAlone(s: Stmt) returns (judged: Stmt)
      ensures judged == ScanFresh(s, true)
      decreases s, 0
    {
      judged := s;
      if s.If? {
        var inBody := new Tracker(map[], map[], {});
        var body := inBody.CheckBlock(s.body);
        var inElse := new Tracker(map[], map[], {});
        var alt := inElse.CheckElse(s.alt);
        judged := If(s.init, s.cond, body, alt, Silent);
      } else if s.Nested? {
        var inBlock := new Tracker(map[], map[], {});
        var block := inBlock.CheckBlock(s.block);
        judged := Nested(block);
      }
    }
  }

  /** A function body is scanned from nothing. */
  method CheckFunction(b: Block) returns (judged: Block)
    ensures judged == Scan(b, NOTHING_KNOWN, true)
  {
    var t := new Tracker(map[], map[], {});
    judged := t.CheckBlock(b);
  }
}
