/** Whether a field of an allocation has been stored by the time the
    allocation escapes. */
module AllocEscape {
  import opened Options
  import opened Cfg
  import opened Ssa
  import opened NilFlow

  // ----- instruction order -----

  predicate ValidPos(f: Func, p: Pos) {
    IsPos(f, p) && IsBlock(f.g, p.block)
  }

  /** a is guaranteed to have run by the time b runs. */
  predicate Precedes(f: Func, a: Pos, b: Pos)
    requires Sized(f) && ValidPos(f, a) && ValidPos(f, b)
  {
    if a.block != b.block then OnChain(f.g, a.block, b.block) else a.index <= b.index
  }

  /** On reachable instructions, precedence is a partial order. */
  lemma PrecedesIsPartialOrder(f: Func, a: Pos, b: Pos, c: Pos)
    requires WellFormed(f) && ValidPos(f, a) && ValidPos(f, b) && ValidPos(f, c)
    ensures Precedes(f, a, a)
    ensures Precedes(f, a, b) && Precedes(f, b, a) ==> a == b
    ensures Precedes(f, a, b) && Precedes(f, b, c) ==> Precedes(f, a, c)
  {
    ChainIsDominance(f.g, a.block, b.block);
    ChainIsDominance(f.g, b.block, a.block);
    ChainIsDominance(f.g, b.block, c.block);
    ChainIsDominance(f.g, a.block, c.block);
    if Precedes(f, a, b) && Precedes(f, b, a) && a.block != b.block {
      DomAntisymmetric(f.g, a.block, b.block);
    }
    if Precedes(f, a, b) && Precedes(f, b, c) && a.block != b.block && b.block != c.block {
      DomTransitive(f.g, a.block, b.block, c.block);
      if a.block == c.block {
        DomAntisymmetric(f.g, a.block, b.block);
      }
    }
  }

  /** An instruction precedes one of another block exactly when every path from
      the entry to that block runs through its own, and one of the same block
      exactly when it stands no later. */
  lemma PrecedesExact(f: Func, a: Pos, b: Pos)
    requires WellFormed(f) && ValidPos(f, a) && ValidPos(f, b)
    ensures Precedes(f, a, b) <==>
      if a.block == b.block then a.index <= b.index
      else forall p | Joins(f.g.succs, 0, p, b.block) :: a.block in p
  {
    ChainIsDominance(f.g, a.block, b.block);
    assert Dom(f.g, a.block, b.block) <==> forall p | Joins(f.g.succs, 0, p, b.block) :: a.block in p;
  }

  /** The earliest escape, folded over the candidates in referrer order. */
  method FirstEscape(f: Func, candidates: seq<Option<Pos>>) returns (earliest: Option<Pos>)
    requires WellFormed(f)
    requires forall k | 0 <= k < |candidates| && candidates[k].Some? :: ValidPos(f, candidates[k].value)
    ensures earliest.None? <==> forall k | 0 <= k < |candidates| :: candidates[k].None?
    ensures earliest.Some? ==> earliest in candidates && ValidPos(f, earliest.value)
    // minimal: nothing but itself comes before it
    ensures earliest.Some? ==> forall k | 0 <= k < |candidates| && candidates[k].Some? ::
      Precedes(f, candidates[k].value, earliest.value) ==> candidates[k] == earliest
  {
    earliest := None;
    var i := 0;
    while i < |candidates|
      invariant 0 <= i <= |candidates|
      invariant earliest.None? <==> forall k | 0 <= k < i :: candidates[k].None?
      invariant earliest.Some? ==> earliest in candidates && ValidPos(f, earliest.value)
      invariant earliest.Some? ==> forall k | 0 <= k < i && candidates[k].Some? ::
        Precedes(f, candidates[k].value, earliest.value) ==> candidates[k] == earliest
    {
      if candidates[i].Some? {
        var c := candidates[i];
        if earliest.None? || Precedes(f, c.value, earliest.value) {
          forall k | 0 <= k < i && candidates[k].Some? && Precedes(f, candidates[k].value, c.value)
            ensures candidates[k] == c
          {
            PrecedesIsPartialOrder(f, candidates[k].value, c.value, earliest.value);
            PrecedesIsPartialOrder(f, c.value, candidates[k].value, c.value);
          }
          earliest := c;
        }
      }
      i := i + 1;
    }
  }

  ghost predicate PrecedesAll(f: Func, e: Pos, candidates: seq<Option<Pos>>)
    requires Sized(f) && ValidPos(f, e)
    requires forall k | 0 <= k < |candidates| && candidates[k].Some? :: ValidPos(f, candidates[k].value)
  {
    forall k | 0 <= k < |candidates| && candidates[k].Some? :: Precedes(f, e, candidates[k].value)
  }

  /** A minimal escape precedes every other exactly when some escape does. */
  lemma MinimalIsLeastIff(f: Func, candidates: seq<Option<Pos>>, e: nat)
    requires Sized(f) && e < |candidates| && candidates[e].Some?
    requires forall k | 0 <= k < |candidates| && candidates[k].Some? :: ValidPos(f, candidates[k].value)
    requires forall k | 0 <= k < |candidates| && candidates[k].Some? ::
      Precedes(f, candidates[k].value, candidates[e].value) ==> candidates[k] == candidates[e]
    ensures PrecedesAll(f, candidates[e].value, candidates)
      <==> exists l | 0 <= l < |candidates| && candidates[l].Some? :: PrecedesAll(f, candidates[l].value, candidates)
  {
    if l :| 0 <= l < |candidates| && candidates[l].Some? && PrecedesAll(f, candidates[l].value, candidates) {
      assert Precedes(f, candidates[l].value, candidates[e].value);
    }
  }

  // ----- the search for a store -----

  function OperandsAt(f: Func, p: Pos): seq<Value>
    requires IsPos(f, p)
  {
    match InstrAt(f, p)
    case Define(v) => if v < |f.defs| then (if f.defs[v].Phi? then f.defs[v].edges else Operands(f.defs[v])) else []
    case _ => InstrOperands(InstrAt(f, p))
  }

  /** Each value's referrers: the instructions that read it. */
  type Referrers = seq<seq<Pos>>

  predicate RefersTo(f: Func, p: Pos, v: Value) {
    ValidPos(f, p) && v in OperandsAt(f, p)
  }

  ghost predicate ReferrersOk(f: Func, refs: Referrers) {
    && |refs| == |f.defs|
    && (forall v: Value, p: Pos | v < |refs| :: p in refs[v] <==> RefersTo(f, p, v))
  }

  predicate IsStoreTo(f: Func, p: Pos, addr: Value)
    requires IsPos(f, p)
  {
    InstrAt(f, p).Store? && InstrAt(f, p).addr == addr
  }

  predicate IsFieldOf(f: Func, p: Pos, base: Value, field: nat)
    requires IsPos(f, p)
  {
    InstrAt(f, p).Define? && InstrAt(f, p).value < |f.defs| && f.defs[InstrAt(f, p).value] == FieldAddr(base, field)
  }

  /** x is computed before v: higher in the dominator tree or earlier in v's block. */
  predicate Earlier(f: Func, x: Value, v: Value)
    requires Sized(f) && IsValue(f, x) && IsValue(f, v)
  {
    f.at[x].Some? && f.at[v].Some? ==>
      if f.at[x].value.block == f.at[v].value.block then f.at[x].value.index < f.at[v].value.index
      else f.g.depth[f.at[x].value.block] < f.g.depth[f.at[v].value.block]
  }

  predicate FieldsNest(f: Func)
    requires Sized(f)
  {
    forall v: Value | v < |f.defs| && f.defs[v].FieldAddr? ::
      f.at[v].Some? && f.defs[v].base < |f.defs| && Earlier(f, f.defs[v].base, v)
  }

  lemma SsaFieldsNest(f: Func)
    requires WellFormed(f)
    ensures FieldsNest(f)
  {
    forall v: Value | v < |f.defs| && f.defs[v].FieldAddr?
      ensures f.at[v].Some? && f.defs[v].base < |f.defs| && Earlier(f, f.defs[v].base, v)
    {
      var x := f.defs[v].base;
      assert x == Operands(f.defs[v])[0];
      assert f.at[v].None? <==> HasNoPosition(f.defs[v]);
      assert ComputedBefore(f, x, f.at[v].value);
      if f.at[x].Some? && f.at[x].value.block != f.at[v].value.block {
        ChainIsDominance(f.g, f.at[x].value.block, f.at[v].value.block);
        ChainDepth(f.g, f.at[x].value.block, f.at[v].value.block);
      }
    }
  }

  /** The allocation an address reaches, and the fields that lead there. */
  function Root(f: Func, addr: Value, suffix: seq<nat> := []): (a: Option<(Value, seq<nat>)>)
    requires Sized(f) && FieldsNest(f) && IsValue(f, addr)
    ensures a.Some? ==> IsValue(f, a.value.0)
    decreases if f.at[addr].Some? then f.g.depth[f.at[addr].value.block] + 1 else 0,
              if f.at[addr].Some? then f.at[addr].value.index else 0
  {
    match f.defs[addr]
    case Alloc => Some((addr, suffix))
    case FieldAddr(x, field) => Root(f, x, [field] + suffix)
    case _ => None
  }

  /** The fields found on the way do lead from the allocation to the address. */
  lemma {:induction false} RootAddresses(f: Func, addr: Value, suffix: seq<nat>)
    requires Sized(f) && FieldsNest(f) && IsValue(f, addr) && Root(f, addr, suffix).Some?
    ensures var (alloc, fields) := Root(f, addr, suffix).value;
      f.defs[alloc].Alloc? && |suffix| <= |fields| && fields[|fields| - |suffix|..] == suffix
      && Addresses(f, addr, alloc, fields[..|fields| - |suffix|])
    decreases if f.at[addr].Some? then f.g.depth[f.at[addr].value.block] + 1 else 0,
              if f.at[addr].Some? then f.at[addr].value.index else 0
  {
    if f.defs[addr].FieldAddr? {
      var longer := [f.defs[addr].field] + suffix;
      RootAddresses(f, f.defs[addr].base, longer);
      var fields := Root(f, addr, suffix).value.1;
      var n := |fields| - |suffix|;
      assert fields[n - 1..] == longer;
      assert fields[n..] == fields[n - 1..][1..] == suffix;
      assert fields[..n][..n - 1] == fields[..n - 1];
      assert fields[..n][n - 1] == fields[n - 1..][0];
    }
  }

  predicate StoreReaches(f: Func, refs: Referrers, addr: Value, escape: Pos)
    requires Sized(f) && addr < |refs| && ValidPos(f, escape)
  {
    exists k | 0 <= k < |refs[addr]| ::
      && ValidPos(f, refs[addr][k])
      && IsStoreTo(f, refs[addr][k], addr)
      && Precedes(f, refs[addr][k], escape)
  }

  predicate FieldStoreReaches(f: Func, refs: Referrers, base: Value, path: seq<nat>, escape: Pos, seen: set<Value>)
    requires Sized(f) && FieldsNest(f) && |refs| == |f.defs| && IsValue(f, base) && |path| > 0 && ValidPos(f, escape)
    decreases Values(f) - seen, 0
  {
    && base !in seen
    && (|| WholeStoreFills(f, refs, base, path, escape, seen + {base})
        || exists k | 0 <= k < |refs[base]| ::
             && ValidPos(f, refs[base][k])
             && IsFieldOf(f, refs[base][k], base, path[0])
             && FieldReaches(f, refs, InstrAt(f, refs[base][k]).value, path, escape, seen + {base}))
  }

  /** One field address on the way: the last one needs a store through it. */
  predicate FieldReaches(f: Func, refs: Referrers, addr: Value, path: seq<nat>, escape: Pos, seen: set<Value>)
    requires Sized(f) && FieldsNest(f) && |refs| == |f.defs| && IsValue(f, addr) && |path| > 0 && ValidPos(f, escape)
    decreases Values(f) - seen, 1
  {
    if |path| == 1 then StoreReaches(f, refs, addr, escape)
    else FieldStoreReaches(f, refs, addr, path[1..], escape, seen)
  }

  predicate WholeStoreFills(f: Func, refs: Referrers, base: Value, path: seq<nat>, escape: Pos, seen: set<Value>)
    requires Sized(f) && FieldsNest(f) && |refs| == |f.defs| && IsValue(f, base) && |path| > 0 && ValidPos(f, escape)
    decreases Values(f) - seen, 2
  {
    exists k | 0 <= k < |refs[base]| ::
      && ValidPos(f, refs[base][k])
      && IsStoreTo(f, refs[base][k], base)
      && Precedes(f, refs[base][k], escape)
      && StoredFills(f, refs, refs[base][k], path, seen)
  }

  /** The value a store writes carries a member at path: a constant carries
      none, a load of local storage is asked about that storage, and anything
      else arrived already built. */
  predicate StoredFills(f: Func, refs: Referrers, store: Pos, path: seq<nat>, seen: set<Value>)
    requires Sized(f) && FieldsNest(f) && |refs| == |f.defs| && |path| > 0 && ValidPos(f, store)
    requires InstrAt(f, store).Store?
    decreases Values(f) - seen, 1
  {
    var v := StoredValue(f, store);
    match f.defs[v]
    case Const(_) => false
    case Load(addr) =>
      assert addr == Operands(f.defs[v])[0];
      (match Root(f, addr)
       case None => true
       case Some((alloc, prefix)) =>
         f.at[v].None? || FieldStoreReaches(f, refs, alloc, prefix + path, f.at[v].value, seen))
    case _ => true
  }

  function StoredValue(f: Func, store: Pos): (v: Value)
    requires Sized(f) && ValidPos(f, store) && InstrAt(f, store).Store?
    ensures IsValue(f, v)
  {
    assert f.code[store.block][store.index].val in InstrOperands(f.code[store.block][store.index]);
    InstrAt(f, store).val
  }

  // ----- the search as it runs -----

  method AnyFieldStoreReaches(f: Func, refs: Referrers, base: Value, path: seq<nat>, escape: Pos, seen: ValueSet)
    returns (r: bool)
    requires WellFormed(f) && FieldsNest(f) && ReferrersOk(f, refs) && IsValue(f, base) && |path| > 0
    requires ValidPos(f, escape)
    modifies seen
    ensures r <==> FieldStoreReaches(f, refs, base, path, escape, old(seen.members))
    ensures seen.members == old(seen.members)
    decreases Values(f) - seen.members, 0
  {
    if base in seen.members {
      return false;
    }
    ghost var before := seen.members;
    seen.members := seen.members + {base};
    r := AnyWholeStoreFills(f, refs, base, path, escape, seen);
    var k := 0;
    while k < |refs[base]| && !r
      invariant 0 <= k <= |refs[base]|
      invariant seen.members == before + {base}
      invariant r ==> FieldStoreReaches(f, refs, base, path, escape, before)
      invariant !r ==> !WholeStoreFills(f, refs, base, path, escape, before + {base})
      invariant !r ==>
        forall j | 0 <= j < k && ValidPos(f, refs[base][j]) && IsFieldOf(f, refs[base][j], base, path[0]) ::
        !FieldReaches(f, refs, InstrAt(f, refs[base][j]).value, path, escape, before + {base})
    {
      assert RefersTo(f, refs[base][k], base);
      if IsFieldOf(f, refs[base][k], base, path[0]) {
        var addr := InstrAt(f, refs[base][k]).value;
        if |path| == 1 {
          r := StoreReaches(f, refs, addr, escape);
        } else {
          r := AnyFieldStoreReaches(f, refs, addr, path[1..], escape, seen);
        }
        assert r <==> FieldReaches(f, refs, addr, path, escape, before + {base});
      }
      k := k + 1;
    }
    seen.members := seen.members - {base};
    assert seen.members == before;
  }

  method AnyWholeStoreFills(f: Func, refs: Referrers, base: Value, path: seq<nat>, escape: Pos, seen: ValueSet)
    returns (r: bool)
    requires WellFormed(f) && FieldsNest(f) && ReferrersOk(f, refs) && IsValue(f, base) && |path| > 0
    requires ValidPos(f, escape)
    modifies seen
    ensures r <==> WholeStoreFills(f, refs, base, path, escape, old(seen.members))
    ensures seen.members == old(seen.members)
    decreases Values(f) - seen.members, 2
  {
    var k := 0;
    while k < |refs[base]|
      invariant 0 <= k <= |refs[base]|
      invariant seen.members == old(seen.members)
      invariant forall j | 0 <= j < k && ValidPos(f, refs[base][j]) && IsStoreTo(f, refs[base][j], base)
          && Precedes(f, refs[base][j], escape) ::
        !StoredFills(f, refs, refs[base][j], path, seen.members)
    {
      var store := refs[base][k];
      assert RefersTo(f, store, base);
      if IsStoreTo(f, store, base) && Precedes(f, store, escape) {
        var fills := AnyStoredFills(f, refs, store, path, seen);
        if fills {
          return true;
        }
      }
      k := k + 1;
    }
    return false;
  }

  method AnyStoredFills(f: Func, refs: Referrers, store: Pos, path: seq<nat>, seen: ValueSet) returns (r: bool)
    requires WellFormed(f) && FieldsNest(f) && ReferrersOk(f, refs) && |path| > 0 && ValidPos(f, store)
    requires InstrAt(f, store).Store?
    modifies seen
    ensures r <==> StoredFills(f, refs, store, path, old(seen.members))
    ensures seen.members == old(seen.members)
    decreases Values(f) - seen.members, 1
  {
    var v := StoredValue(f, store);
    match f.defs[v] {
      case Const(_) => r := false;
      case Load(addr) =>
        assert addr == Operands(f.defs[v])[0];
        var root := Root(f, addr);
        if root.None? || f.at[v].None? {
          r := true;
        } else {
          r := AnyFieldStoreReaches(f, refs, root.value.0, root.value.1 + path, f.at[v].value, seen);
        }
      case _ => r := true;
    }
  }

  // ----- what a run has stored -----

  /** Instruction times along a path: a step and an index within its block. */
  predicate NotAfter(j: nat, y: nat, i: nat, x: nat) {
    j < i || (j == i && y <= x)
  }

  predicate RunsAt(f: Func, p: seq<Block>, at: Pos, j: nat, y: nat) {
    j < |p| && p[j] == at.block && y == at.index
  }

  /** v is not computed again after time (j, y) up to time (i, x). */
  ghost predicate NotRedone(f: Func, p: seq<Block>, v: Value, j: nat, y: nat, i: nat, x: nat)
    requires IsValue(f, v) && |f.at| == |f.defs|
  {
    f.at[v].Some? ==>
      forall k: nat | RunsAt(f, p, f.at[v].value, k, f.at[v].value.index) ::
        NotAfter(i, x + 1, k, f.at[v].value.index) || NotAfter(k, f.at[v].value.index, j, y)
  }

  /** addr is base's field path fs, spelled through field addresses. */
  predicate Addresses(f: Func, addr: Value, base: Value, fs: seq<nat>)
    decreases |fs|
  {
    if fs == [] then addr == base
    else addr < |f.defs| && f.defs[addr].FieldAddr? && f.defs[addr].field == fs[|fs| - 1]
         && Addresses(f, f.defs[addr].base, base, fs[..|fs| - 1])
  }

  /** By time (i, x) of the run, and since base was last computed, a store has
      written the member at path: directly, or as part of a value that carried
      it when it was stored. */
  ghost predicate Covered(f: Func, p: seq<Block>, base: Value, path: seq<nat>, i: nat, x: nat)
    requires Sized(f) && FieldsNest(f) && IsValue(f, base)
    decreases i, x, 1
  {
    exists j: nat, y: nat, n: nat :: StoredBy(f, p, base, path, i, x, j, y, n)
  }

  ghost predicate StoredBy(f: Func, p: seq<Block>, base: Value, path: seq<nat>, i: nat, x: nat, j: nat, y: nat, n: nat)
    requires Sized(f) && FieldsNest(f) && IsValue(f, base)
    decreases i, x, 0
  {
    && NotAfter(j, y, i, x) && j < |p| && n <= |path|
    && ValidPos(f, Pos(p[j], y)) && InstrAt(f, Pos(p[j], y)).Store?
    && Addresses(f, InstrAt(f, Pos(p[j], y)).addr, base, path[..n])
    && NotRedone(f, p, base, j, y, i, x)
    && (n == |path| || Carries(f, p, StoredValue(f, Pos(p[j], y)), path[n..], i, x, j, y))
  }

  /** The value stored at time (j, y) carried a member at rest: it was built
      elsewhere, or was read from local storage that was covered by then. */
  ghost predicate Carries(f: Func, p: seq<Block>, v: Value, rest: seq<nat>, i: nat, x: nat, j: nat, y: nat)
    requires Sized(f) && FieldsNest(f) && IsValue(f, v) && NotAfter(j, y, i, x)
    decreases i, x, 0, 0
  {
    match f.defs[v]
    case Const(_) => false
    case Load(addr) =>
      assert addr == Operands(f.defs[v])[0];
      (match Root(f, addr)
       case None => true
       case Some((alloc, prefix)) =>
         f.at[v].Some? ==>
           exists k: nat | RunsAt(f, p, f.at[v].value, k, f.at[v].value.index) ::
             && NotAfter(k, f.at[v].value.index + 1, j, y)
             && NotRedone(f, p, v, k, f.at[v].value.index, j, y)
             && Covered(f, p, alloc, prefix + rest, k, f.at[v].value.index))
    case _ => true
  }

  // ----- soundness -----

  lemma BeforeTransitive(f: Func, o: Value, v: Value, p: Pos)
    requires WellFormed(f) && IsValue(f, o) && IsValue(f, v) && f.at[v].Some? && ValidPos(f, p)
    requires ComputedBefore(f, o, f.at[v].value) && ComputedBefore(f, v, p)
    ensures ComputedBefore(f, o, p)
  {
    if f.at[o].Some? {
      var a, b := f.at[o].value.block, f.at[v].value.block;
      if a != b && b != p.block {
        DomTransitive(f.g, a, b, p.block);
        if a == p.block {
          DomAntisymmetric(f.g, a, b);
        }
      }
    }
  }

  lemma {:induction false} BaseBefore(f: Func, addr: Value, base: Value, fs: seq<nat>, p: Pos)
    requires WellFormed(f) && IsValue(f, addr) && ValidPos(f, p)
    requires Addresses(f, addr, base, fs) && ComputedBefore(f, addr, p)
    ensures IsValue(f, base) && ComputedBefore(f, base, p)
    decreases |fs|
  {
    if fs != [] {
      var x := f.defs[addr].base;
      assert x == Operands(f.defs[addr])[0];
      BeforeTransitive(f, x, addr, p);
      BaseBefore(f, x, base, fs[..|fs| - 1], p);
    }
  }

  /** A run that reaches e has executed s, which precedes it, since anything
      that must come before s was last computed. */
  lemma ExecutedSince(f: Func, p: seq<Block>, v: Value, s: Pos, e: Pos, i: nat) returns (j: nat)
    requires WellFormed(f) && IsPath(f.g.succs, p) && p[0] == 0 && i < |p|
    requires ValidPos(f, s) && ValidPos(f, e) && p[i] == e.block && Precedes(f, s, e)
    requires IsValue(f, v) && ComputedBefore(f, v, s)
    ensures RunsAt(f, p, s, j, s.index) && NotAfter(j, s.index, i, e.index)
    ensures NotRedone(f, p, v, j, s.index, i, e.index)
    ensures s.block == e.block ==> j == i
    ensures forall k | j < k <= i :: p[k] != s.block
  {
    if s.block == e.block {
      j := i;
    } else {
      ChainIsDominance(f.g, s.block, e.block);
      Cut(f.g.succs, p, 0, i);
      var q := p[0..i + 1];
      j := LastIndex(q, s.block);
      assert forall k | j < k <= i :: q[k] == p[k];
    }
    if f.at[v].Some? {
      var a := f.at[v].value;
      forall k: nat | RunsAt(f, p, a, k, a.index) && j < k <= i
        ensures s.block != e.block ==> a.block == s.block || exists m :: k < m <= i && p[m] == s.block
      {
        if s.block != e.block && a.block != s.block {
          MeetsBetween(f.g, a.block, s.block, p, k, i);
        }
      }
    }
  }

  /** A true answer names the store behind it. */
  lemma {:induction false} StoreBehind(f: Func, refs: Referrers, base: Value, path: seq<nat>, escape: Pos,
                                       seen: set<Value>)
    returns (s: Pos, n: nat, seen': set<Value>)
    requires Sized(f) && FieldsNest(f) && ReferrersOk(f, refs) && IsValue(f, base) && |path| > 0 && ValidPos(f, escape)
    requires FieldStoreReaches(f, refs, base, path, escape, seen)
    ensures ValidPos(f, s) && InstrAt(f, s).Store? && Precedes(f, s, escape)
    ensures n <= |path| && Addresses(f, InstrAt(f, s).addr, base, path[..n])
    ensures n == |path| || StoredFills(f, refs, s, path[n..], seen')
    ensures base !in seen && seen + {base} <= seen'
    decreases Values(f) - seen
  {
    if WholeStoreFills(f, refs, base, path, escape, seen + {base}) {
      var k :| 0 <= k < |refs[base]| && ValidPos(f, refs[base][k]) && IsStoreTo(f, refs[base][k], base)
        && Precedes(f, refs[base][k], escape) && StoredFills(f, refs, refs[base][k], path, seen + {base});
      s, n, seen' := refs[base][k], 0, seen + {base};
      assert path[n..] == path;
    } else {
      var addr := FieldOnTheWay(f, refs, base, path, escape, seen);
      if |path| == 1 {
        s := StoreThrough(f, refs, addr, escape);
        n, seen' := 1, seen + {base};
        AddressesUnder(f, addr, addr, base, path[0], []);
        assert path[..1] == [path[0]] + [];
      } else {
        s, n, seen' := StoreBehind(f, refs, addr, path[1..], escape, seen + {base});
        AddressesUnder(f, InstrAt(f, s).addr, addr, base, path[0], path[1..][..n]);
        assert [path[0]] + path[1..][..n] == path[..n + 1];
        assert path[1..][n..] == path[n + 1..];
        n := n + 1;
      }
    }
  }

  lemma StoreThrough(f: Func, refs: Referrers, addr: Value, escape: Pos) returns (s: Pos)
    requires Sized(f) && addr < |refs| && ValidPos(f, escape) && StoreReaches(f, refs, addr, escape)
    ensures ValidPos(f, s) && IsStoreTo(f, s, addr) && Precedes(f, s, escape)
  {
    var l :| 0 <= l < |refs[addr]| && ValidPos(f, refs[addr][l]) && IsStoreTo(f, refs[addr][l], addr)
      && Precedes(f, refs[addr][l], escape);
    s := refs[addr][l];
  }

  lemma FieldOnTheWay(f: Func, refs: Referrers, base: Value, path: seq<nat>, escape: Pos, seen: set<Value>)
    returns (addr: Value)
    requires Sized(f) && FieldsNest(f) && |refs| == |f.defs| && IsValue(f, base) && |path| > 0 && ValidPos(f, escape)
    requires FieldStoreReaches(f, refs, base, path, escape, seen)
    requires !WholeStoreFills(f, refs, base, path, escape, seen + {base})
    ensures IsValue(f, addr) && f.defs[addr] == FieldAddr(base, path[0])
    ensures FieldReaches(f, refs, addr, path, escape, seen + {base})
  {
    var k :| 0 <= k < |refs[base]| && ValidPos(f, refs[base][k]) && IsFieldOf(f, refs[base][k], base, path[0])
      && FieldReaches(f, refs, InstrAt(f, refs[base][k]).value, path, escape, seen + {base});
    addr := InstrAt(f, refs[base][k]).value;
  }

  lemma {:induction false} AddressesUnder(f: Func, a: Value, addr: Value, base: Value, field: nat, fs: seq<nat>)
    requires addr < |f.defs| && f.defs[addr] == FieldAddr(base, field) && Addresses(f, a, addr, fs)
    ensures Addresses(f, a, base, [field] + fs)
    decreases |fs|
  {
    var all := [field] + fs;
    if fs == [] {
      assert all[..|all| - 1] == [];
    } else {
      assert all[..|all| - 1] == [field] + fs[..|fs| - 1];
      AddressesUnder(f, f.defs[a].base, addr, base, field, fs[..|fs| - 1]);
    }
  }

  /** Main result. When the search answers true, every run that reaches the
      escape has stored the member since the base was last computed. */
  lemma {:induction false} StoreReachesSound(f: Func, refs: Referrers, base: Value, path: seq<nat>, escape: Pos,
                                             seen: set<Value>,
                                             p: seq<Block>, i: nat)
    requires WellFormed(f) && FieldsNest(f) && ReferrersOk(f, refs) && IsValue(f, base) && |path| > 0
    requires ValidPos(f, escape)
    requires FieldStoreReaches(f, refs, base, path, escape, seen)
    requires IsPath(f.g.succs, p) && p[0] == 0 && i < |p| && p[i] == escape.block
    ensures Covered(f, p, base, path, i, escape.index)
    decreases Values(f) - seen, 0
  {
    var s, n, seen' := StoreBehind(f, refs, base, path, escape, seen);
    var addr := InstrAt(f, s).addr;
    assert addr in InstrOperands(f.code[s.block][s.index]);
    BaseBefore(f, addr, base, path[..n], s);
    var j := ExecutedSince(f, p, base, s, escape, i);
    assert Pos(p[j], s.index) == s;
    if n < |path| {
      CarriedSound(f, refs, s, path[n..], seen', p, j, i, escape.index);
    }
    assert StoredBy(f, p, base, path, i, escape.index, j, s.index, n);
  }

  lemma {:induction false} CarriedSound(f: Func, refs: Referrers, s: Pos, rest: seq<nat>, seen: set<Value>,
                                        p: seq<Block>, j: nat, i: nat, x: nat)
    requires WellFormed(f) && FieldsNest(f) && ReferrersOk(f, refs) && |rest| > 0 && ValidPos(f, s)
    requires InstrAt(f, s).Store?
    requires StoredFills(f, refs, s, rest, seen)
    requires IsPath(f.g.succs, p) && p[0] == 0 && RunsAt(f, p, s, j, s.index) && NotAfter(j, s.index, i, x)
    ensures Carries(f, p, StoredValue(f, s), rest, i, x, j, s.index)
    decreases Values(f) - seen, 1
  {
    var v := StoredValue(f, s);
    if f.defs[v].Load? && f.at[v].Some? {
      var addr := f.defs[v].addr;
      assert addr == Operands(f.defs[v])[0];
      var root := Root(f, addr);
      if root.Some? {
        var load := f.at[v].value;
        assert v in InstrOperands(f.code[s.block][s.index]);
        assert ComputedBefore(f, v, s);
        var k := LastComputed(f, p, v, s, j);
        StoreReachesSound(f, refs, root.value.0, root.value.1 + rest, load, seen, p, k);
      }
    }
  }

  /** The execution of v that a later instruction reads. */
  lemma LastComputed(f: Func, p: seq<Block>, v: Value, s: Pos, j: nat) returns (k: nat)
    requires WellFormed(f) && IsValue(f, v) && f.at[v].Some? && ValidPos(f, s) && ComputedBefore(f, v, s)
    requires IsPath(f.g.succs, p) && p[0] == 0 && j < |p| && p[j] == s.block
    ensures RunsAt(f, p, f.at[v].value, k, f.at[v].value.index)
    ensures NotAfter(k, f.at[v].value.index + 1, j, s.index)
    ensures NotRedone(f, p, v, k, f.at[v].value.index, j, s.index)
  {
    var d := f.at[v].value;
    if d.block == s.block {
      k := j;
    } else {
      Cut(f.g.succs, p, 0, j);
      var q := p[0..j + 1];
      k := LastIndex(q, d.block);
      assert forall m | k < m <= j :: q[m] == p[m];
    }
  }

  lemma FieldStoreReachesSound(f: Func, refs: Referrers, base: Value, path: seq<nat>, escape: Pos, p: seq<Block>,
                               i: nat)
    requires WellFormed(f) && ReferrersOk(f, refs) && IsValue(f, base) && |path| > 0 && ValidPos(f, escape)
    requires IsPath(f.g.succs, p) && p[0] == 0 && i < |p| && p[i] == escape.block
    ensures FieldsNest(f)
    ensures FieldStoreReaches(f, refs, base, path, escape, {}) ==> Covered(f, p, base, path, i, escape.index)
  {
    SsaFieldsNest(f);
    if FieldStoreReaches(f, refs, base, path, escape, {}) {
      StoreReachesSound(f, refs, base, path, escape, {}, p, i);
    }
  }
}
