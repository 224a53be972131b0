/** A statement language for guards on call results, and how it runs. */
module GuardLang {
  import opened Options
  import opened Dsl
  import opened Text

  // ----- what a guard asks of a local -----

  datatype NarrowValue = NilValue | Literal(spelling: string)

  /** `== value` or `!= value`. */
  datatype NarrowState = NarrowState(equal: bool, value: NarrowValue)

  function Denotes(m: Meaning, v: NarrowValue): Value {
    match v
    case NilValue => Nil
    case Literal(spelling) => m.literal(spelling)
  }

  predicate Satisfies(m: Meaning, st: NarrowState, v: Value) {
    st.equal <==> v == Denotes(m, st.value)
  }

  function Opposite(st: NarrowState): NarrowState {
    NarrowState(!st.equal, st.value)
  }

  // ----- calls and their contracts -----

  /** A function's result names, which results are declared non-nil, and its
      arrow rules. */
  datatype Callee = Callee(results: seq<string>, nonNil: seq<bool>, rules: seq<Rule>)

  function FirstNamed(names: seq<string>, name: string, i: nat): (pos: Option<nat>)
    requires i <= |names|
    ensures pos.Some? ==> 1 <= pos.value <= |names|
    decreases |names| - i
  {
    if i == |names| then None else if names[i] == name then Some(i + 1) else FirstNamed(names, name, i + 1)
  }

  /** The 1-based result a bare reference names. */
  function ReturnPosition(c: Callee, ref: Reference): (pos: Option<nat>)
    ensures pos.Some? ==> 1 <= pos.value <= |c.results|
  {
    if ref.path != [] then None
    else match ref.kind
      case Ident => FirstNamed(c.results, ref.name, 0)
      case Dollar =>
        var n := Atoi(ref.name);
        if n.Some? && 1 <= n.value <= |c.results| then Some(n.value) else None
  }

  /** One call's results, and the values its other references had. */
  datatype Returned = Returned(results: seq<Value>, refs: Valuation)

  ghost predicate Honours(m: Meaning, c: Callee, r: Returned) {
    && |r.results| == |c.results|
    && (forall i | 0 <= i < |c.results| && i < |c.nonNil| && c.nonNil[i] :: r.results[i] != Nil)
    && (forall ref: Reference | ReturnPosition(c, ref).Some? ::
          r.refs(ref) == r.results[ReturnPosition(c, ref).value - 1])
    && (forall i | 0 <= i < |c.rules| :: RuleHolds(m, r.refs, c.rules[i]))
  }

  // ----- statements -----

  datatype Target = Local(name: string) | Elsewhere

  datatype Source = Call(callee: Callee) | Values(count: nat)

  datatype Verdict = Silent | Redundant | Impossible

  datatype Condition = Guard(name: string, state: NarrowState) | OtherCondition

  datatype Stmt =
    | Assign(define: bool, lhs: seq<Target>, rhs: Source)
    | IncDec(name: string)
    | Declare(names: seq<string>)
    | If(init: Block, cond: Condition, body: Block, alt: Else, verdict: Verdict)
    | Nested(block: Block)
    | Return
    | Panic
    | Other

  datatype Block = Done | Then(head: Stmt, tail: Block)

  datatype Else = NoElse | ElseBlock(block: Block) | ElseIf(stmt: Stmt)

  /** A block that ends in a return or a panic. */
  predicate ShortCircuits(b: Block) {
    match b
    case Done => false
    case Then(s, Done) => s.Return? || s.Panic?
    case Then(_, tail) => ShortCircuits(tail)
  }

  // ----- running -----

  /** Variables by scope, innermost first. */
  datatype Env = Base(vars: map<string, Value>) | Scope(vars: map<string, Value>, outer: Env)

  function Look(env: Env, x: string): Value {
    if x in env.vars then env.vars[x] else if env.Base? then Nil else Look(env.outer, x)
  }

  function Bind(env: Env, x: string, v: Value): Env {
    if x == "_" then env else env.(vars := env.vars[x := v])
  }

  function Store(env: Env, x: string, v: Value): Env {
    if x == "_" then env
    else if env.Base? || x in env.vars then env.(vars := env.vars[x := v])
    else env.(outer := Store(env.outer, x, v))
  }

  function Pop(env: Env): Env {
    if env.Base? then env else env.outer
  }

  /** What the program cannot decide for itself, by the time it is asked. */
  datatype Oracle = Oracle(value: nat -> Value, test: nat -> bool, call: (nat, Callee) -> Returned)

  /** A verdict the analysis gave on a guard, and how the guard came out. */
  datatype Claim = Claim(verdict: Verdict, held: bool)

  datatype Run = Run(env: Env, clock: nat, exited: bool, claims: seq<Claim>)

  /** `:=` writes to the innermost scope, `=` to wherever the local lives. */
  function Write(env: Env, define: bool, t: Target, v: Value): Env {
    if t.Elsewhere? then env else if define then Bind(env, t.name, v) else Store(env, t.name, v)
  }

  function AssignAll(env: Env, define: bool, lhs: seq<Target>, values: seq<Value>): Env
    requires |lhs| <= |values|
  {
    if lhs == [] then env
    else
      var n := |lhs| - 1;
      Write(AssignAll(env, define, lhs[..n], values), define, lhs[n], values[n])
  }

  function BindAll(env: Env, o: Oracle, clock: nat, names: seq<string>): Env {
    if names == [] then env
    else Bind(BindAll(env, o, clock, names[..|names| - 1]), names[|names| - 1], o.value(clock + |names| - 1))
  }

  function ValuesAt(o: Oracle, clock: nat, n: nat): (vs: seq<Value>)
    ensures |vs| == n
  {
    seq(n, i requires 0 <= i < n => o.value(clock + i))
  }

  predicate Comes(m: Meaning, o: Oracle, cond: Condition, env: Env, clock: nat) {
    match cond
    case Guard(name, state) => Satisfies(m, state, Look(env, name))
    case OtherCondition => o.test(clock)
  }

  /** A run is followed for as long as the calls it makes keep their contracts. */
  ghost function Exec(m: Meaning, o: Oracle, b: Block, env: Env, clock: nat): Run
    decreases b
  {
    match b
    case Done => Run(env, clock, false, [])
    case Then(s, tail) =>
      var r := Perform(m, o, s, env, clock);
      if r.exited then r
      else
        var rest := Exec(m, o, tail, r.env, r.clock);
        rest.(claims := r.claims + rest.claims)
  }

  ghost function Perform(m: Meaning, o: Oracle, s: Stmt, env: Env, clock: nat): Run
    decreases s
  {
    match s
    case Assign(define, lhs, Call(c)) =>
      if |lhs| == |c.results| && Honours(m, c, o.call(clock, c))
      then Run(AssignAll(env, define, lhs, o.call(clock, c).results), clock + 1, false, [])
      else Run(env, clock + 1, true, [])
    case Assign(define, lhs, Values(_)) =>
      Run(AssignAll(env, define, lhs, ValuesAt(o, clock, |lhs|)), clock + |lhs|, false, [])
    case IncDec(x) => Run(Store(env, x, o.value(clock)), clock + 1, false, [])
    case Declare(names) => Run(BindAll(env, o, clock, names), clock + |names|, false, [])
    case If(init, cond, body, alt, verdict) =>
      var start := Exec(m, o, init, Scope(map[], env), clock);
      if start.exited then start.(env := Pop(start.env))
      else
        var held := Comes(m, o, cond, start.env, start.clock);
        var claims := start.claims + if verdict == Silent then [] else [Claim(verdict, held)];
        var r := if held then Within(Exec(m, o, body, Scope(map[], start.env), start.clock + 1))
                 else Otherwise(m, o, alt, start.env, start.clock + 1);
        Run(Pop(r.env), r.clock, r.exited, claims + r.claims)
    case Nested(block) => Within(Exec(m, o, block, Scope(map[], env), clock))
    case Return => Run(env, clock, true, [])
    case Panic => Run(env, clock, true, [])
    case Other => Run(env, clock, false, [])
  }

  ghost function Otherwise(m: Meaning, o: Oracle, alt: Else, env: Env, clock: nat): Run
    decreases alt
  {
    match alt
    case NoElse => Run(env, clock, false, [])
    case ElseBlock(block) => Within(Exec(m, o, block, Scope(map[], env), clock))
    case ElseIf(s) => Perform(m, o, s, env, clock)
  }

  /** Leaving a block forgets what it declared. */
  function Within(r: Run): Run {
    r.(env := Pop(r.env))
  }

  // ----- what a statement can change -----

  function LocalsOf(lhs: seq<Target>): set<string> {
    if lhs == [] then {} else LocalsOf(lhs[..|lhs| - 1]) + LocalOf(lhs[|lhs| - 1])
  }

  function LocalOf(t: Target): set<string> {
    if t.Local? && t.name != "_" then {t.name} else {}
  }

  /** The names assigned anywhere inside. */
  function Assigned(b: Block): set<string>
    decreases b
  {
    match b
    case Done => {}
    case Then(s, tail) => AssignedIn(s) + Assigned(tail)
  }

  function AssignedIn(s: Stmt): set<string>
    decreases s
  {
    match s
    case Assign(_, lhs, _) => LocalsOf(lhs)
    case IncDec(x) => if x == "_" then {} else {x}
    case If(init, _, body, alt, _) => Assigned(init) + Assigned(body) + AssignedElse(alt)
    case Nested(block) => Assigned(block)
    case _ => {}
  }

  function AssignedElse(alt: Else): set<string>
    decreases alt
  {
    match alt
    case NoElse => {}
    case ElseBlock(block) => Assigned(block)
    case ElseIf(s) => AssignedIn(s)
  }

  /** The names a statement declares in its own block. */
  function DeclaredIn(s: Stmt): set<string> {
    if s.Declare? then set x | x in s.names && x != "_" else {}
  }

  function Declared(b: Block): set<string> {
    match b
    case Done => {}
    case Then(s, tail) => DeclaredIn(s) + Declared(tail)
  }

  predicate AgreeOff(a: map<string, Value>, b: map<string, Value>, xs: set<string>) {
    && (forall x | x in a && x !in xs :: x in b && b[x] == a[x])
    && (forall x | x in b && x !in xs :: x in a)
  }

  /** Scope by scope the variables outside xs are the same. */
  predicate Same(a: Env, b: Env, xs: set<string>) {
    AgreeOff(a.vars, b.vars, xs) && a.Base? == b.Base? && (a.Scope? ==> Same(a.outer, b.outer, xs))
  }

  /** The same, but in the innermost scope only outside ds too. */
  predicate SameBelow(a: Env, b: Env, ds: set<string>, xs: set<string>) {
    AgreeOff(a.vars, b.vars, ds + xs) && a.Base? == b.Base? && (a.Scope? ==> Same(a.outer, b.outer, xs))
  }

  lemma {:induction false} SameLook(a: Env, b: Env, xs: set<string>, x: string)
    requires Same(a, b, xs) && x !in xs
    ensures Look(a, x) == Look(b, x)
  {
    if x !in a.vars && a.Scope? {
      SameLook(a.outer, b.outer, xs, x);
    }
  }

  lemma SameBelowLook(a: Env, b: Env, ds: set<string>, xs: set<string>, x: string)
    requires SameBelow(a, b, ds, xs) && x !in ds && x !in xs
    ensures Look(a, x) == Look(b, x)
  {
    if x !in a.vars && a.Scope? {
      SameLook(a.outer, b.outer, xs, x);
    }
  }

  lemma {:induction false} SameSelf(a: Env, xs: set<string>)
    ensures Same(a, a, xs)
  {
    if a.Scope? {
      SameSelf(a.outer, xs);
    }
  }

  lemma {:induction false} SameTwice(a: Env, b: Env, c: Env, xs: set<string>, ys: set<string>)
    requires Same(a, b, xs) && Same(b, c, ys)
    ensures Same(a, c, xs + ys)
  {
    if a.Scope? {
      SameTwice(a.outer, b.outer, c.outer, xs, ys);
    }
  }

  lemma {:induction false} StoreSame(env: Env, x: string, v: Value)
    ensures Same(env, Store(env, x, v), if x == "_" then {} else {x})
  {
    if x == "_" {
      SameSelf(env, {});
    } else if env.Scope? && x !in env.vars {
      StoreSame(env.outer, x, v);
    } else if env.Scope? {
      SameSelf(env.outer, {x});
    }
  }

  function Depth(env: Env): nat {
    if env.Base? then 0 else 1 + Depth(env.outer)
  }

  /** The variables of the scope that many levels out. */
  function VarsAt(env: Env, level: nat): map<string, Value>
    requires level <= Depth(env)
  {
    if level == 0 then env.vars else VarsAt(env.outer, level - 1)
  }

  /** The level of the innermost scope that holds x, or of the outermost if none does. */
  function LevelOf(env: Env, x: string): (level: nat)
    ensures level <= Depth(env) && (x in VarsAt(env, level) || level == Depth(env))
    ensures forall l: nat | l < level :: x !in VarsAt(env, l)
  {
    if env.Base? || x in env.vars then 0 else 1 + LevelOf(env.outer, x)
  }

  /** An assignment changes the innermost scope that holds the variable, there
      that variable alone, and no other scope. */
  lemma {:induction false} StoreInPlace(env: Env, x: string, v: Value)
    requires x != "_"
    ensures Depth(Store(env, x, v)) == Depth(env)
    ensures forall l: nat | l <= Depth(env) ::
      VarsAt(Store(env, x, v), l) == if l == LevelOf(env, x) then VarsAt(env, l)[x := v] else VarsAt(env, l)
  {
    if env.Scope? && x !in env.vars {
      StoreInPlace(env.outer, x, v);
    }
  }

  lemma BindSame(env: Env, x: string, v: Value)
    ensures Same(env, Bind(env, x, v), if x == "_" then {} else {x})
  {
    if env.Scope? {
      SameSelf(env.outer, if x == "_" then {} else {x});
    }
  }

  lemma WriteSame(env: Env, define: bool, t: Target, v: Value)
    ensures Same(env, Write(env, define, t, v), LocalOf(t))
  {
    if t.Elsewhere? {
      SameSelf(env, {});
    } else {
      BindSame(env, t.name, v);
      StoreSame(env, t.name, v);
    }
  }
}
