/** Stores the search does not miss. */
module AllocEscapeComplete {
  import opened Options
  import opened Cfg
  import opened Ssa
  import opened NilFlow
  import opened AllocEscape

  /** v is computed strictly before x, or nowhere. */
  predicate Above(f: Func, v: Value, x: Value)
    requires Sized(f) && IsValue(f, v) && IsValue(f, x)
  {
    f.at[x].Some? &&
    (f.at[v].Some? ==>
       var a, b := f.at[v].value, f.at[x].value;
       f.g.depth[a.block] < f.g.depth[b.block] || (f.g.depth[a.block] == f.g.depth[b.block] && a.index < b.index))
  }

  /** The first field address on the way from base. */
  lemma {:induction false} FirstField(f: Func, addr: Value, base: Value, fs: seq<nat>) returns (a: Value)
    requires Sized(f) && FieldsNest(f) && IsValue(f, base) && Addresses(f, addr, base, fs) && fs != []
    ensures IsValue(f, a) && f.defs[a] == FieldAddr(base, fs[0]) && Addresses(f, addr, a, fs[1..])
    ensures f.at[a].Some? && Above(f, base, a)
    decreases |fs|
  {
    var n := |fs| - 1;
    var up := f.defs[addr].base;
    if n == 0 {
      a := addr;
      assert fs[..0] == [] && fs[1..] == [];
    } else {
      assert fs[..n][1..] == fs[1..][..n - 1] && fs[..n][0] == fs[0];
      a := FirstField(f, up, base, fs[..n]);
      assert fs[1..][|fs[1..]| - 1] == fs[n];
    }
    assert Earlier(f, base, a);
  }

  /** An address lies within an allocation of the function. */
  ghost predicate WithinAlloc(f: Func, addr: Value) {
    exists alloc: Value, fs :: alloc < |f.defs| && f.defs[alloc].Alloc? && Addresses(f, addr, alloc, fs)
  }

  /** Climbing the field addresses finds the allocation whenever there is one. */
  lemma RootExact(f: Func, addr: Value, suffix: seq<nat>)
    requires Sized(f) && FieldsNest(f) && IsValue(f, addr)
    ensures Root(f, addr, suffix).Some? <==> WithinAlloc(f, addr)
  {
    if Root(f, addr, suffix).Some? {
      RootAddresses(f, addr, suffix);
      var (alloc, fields) := Root(f, addr, suffix).value;
      assert Addresses(f, addr, alloc, fields[..|fields| - |suffix|]);
    }
    if alloc: Value, fs :| alloc < |f.defs| && f.defs[alloc].Alloc? && Addresses(f, addr, alloc, fs) {
      RootFound(f, addr, alloc, fs, suffix);
    }
  }

  lemma {:induction false} RootFound(f: Func, addr: Value, alloc: Value, fs: seq<nat>, suffix: seq<nat>)
    requires Sized(f) && FieldsNest(f) && IsValue(f, addr) && alloc < |f.defs| && f.defs[alloc].Alloc?
    requires Addresses(f, addr, alloc, fs)
    ensures Root(f, addr, suffix) == Some((alloc, fs + suffix))
    decreases |fs|
  {
    if fs == [] {
      assert fs + suffix == suffix;
    } else {
      var n := |fs| - 1;
      var longer := [f.defs[addr].field] + suffix;
      RootFound(f, f.defs[addr].base, alloc, fs[..n], longer);
      assert fs[..n] + longer == fs + suffix;
    }
  }

  /** The stored value was built out of the search's sight: it is no constant,
      and no load from an allocation of the function. */
  ghost predicate BuiltElsewhere(f: Func, v: Value)
    requires Sized(f) && IsValue(f, v)
  {
    !f.defs[v].Const? && (f.defs[v].Load? ==> !WithinAlloc(f, f.defs[v].addr))
  }

  lemma BuiltFills(f: Func, refs: Referrers, store: Pos, path: seq<nat>, seen: set<Value>)
    requires Sized(f) && FieldsNest(f) && |refs| == |f.defs| && |path| > 0
    requires ValidPos(f, store) && InstrAt(f, store).Store? && BuiltElsewhere(f, StoredValue(f, store))
    ensures StoredFills(f, refs, store, path, seen)
  {
    var v := StoredValue(f, store);
    if f.defs[v].Load? {
      assert f.defs[v].addr == Operands(f.defs[v])[0];
      RootExact(f, f.defs[v].addr, []);
    }
  }

  /** A store that precedes the escape, to the member or to a value it is part
      of, is found however deep the path and through whichever field addresses,
      as long as what it stores was built elsewhere. */
  lemma {:induction false} StoreFound(f: Func, refs: Referrers, base: Value, path: seq<nat>, escape: Pos,
                                      seen: set<Value>,
                                      s: Pos, n: nat)
    requires Sized(f) && FieldsNest(f) && ReferrersOk(f, refs) && IsValue(f, base) && |path| > 0 && ValidPos(f, escape)
    requires ValidPos(f, s) && InstrAt(f, s).Store? && Precedes(f, s, escape)
    requires n <= |path| && Addresses(f, InstrAt(f, s).addr, base, path[..n])
    requires n == |path| || BuiltElsewhere(f, StoredValue(f, s))
    requires forall v | v in seen :: IsValue(f, v) && Above(f, v, base)
    ensures FieldStoreReaches(f, refs, base, path, escape, seen)
    decreases n
  {
    if n == 0 {
      assert RefersTo(f, s, base);
      BuiltFills(f, refs, s, path, seen + {base});
      var k :| 0 <= k < |refs[base]| && refs[base][k] == s;
      assert WholeStoreFills(f, refs, base, path, escape, seen + {base});
    } else {
      var a := FirstField(f, InstrAt(f, s).addr, base, path[..n]);
      var at := f.at[a].value;
      assert InstrAt(f, at) == Define(a) && RefersTo(f, at, base);
      var k :| 0 <= k < |refs[base]| && refs[base][k] == at;
      assert path[..n][1..] == path[1..][..n - 1];
      if |path| == 1 {
        StoreThroughFound(f, refs, a, escape, s);
      } else {
        StoreFound(f, refs, a, path[1..], escape, seen + {base}, s, n - 1);
      }
      assert FieldReaches(f, refs, a, path, escape, seen + {base});
    }
  }

  lemma StoreThroughFound(f: Func, refs: Referrers, addr: Value, escape: Pos, s: Pos)
    requires Sized(f) && ReferrersOk(f, refs) && IsValue(f, addr) && ValidPos(f, escape)
    requires ValidPos(f, s) && InstrAt(f, s).Store? && InstrAt(f, s).addr == addr && Precedes(f, s, escape)
    ensures StoreReaches(f, refs, addr, escape)
  {
    assert RefersTo(f, s, addr);
    var k :| 0 <= k < |refs[addr]| && refs[addr][k] == s;
  }

  /** Apart from copies of local storage, then, the search answers true exactly
      where such a store precedes the escape. */
  lemma StoreReachesIff(f: Func, refs: Referrers, base: Value, path: seq<nat>, escape: Pos)
    requires Sized(f) && FieldsNest(f) && ReferrersOk(f, refs) && IsValue(f, base) && |path| > 0 && ValidPos(f, escape)
    requires forall s: Pos | ValidPos(f, s) && InstrAt(f, s).Store? && f.defs[StoredValue(f, s)].Load? ::
      !WithinAlloc(f, f.defs[StoredValue(f, s)].addr)
    ensures FieldStoreReaches(f, refs, base, path, escape, {}) <==>
      exists s: Pos, n: nat :: StoresAt(f, base, path, escape, s, n)
  {
    if FieldStoreReaches(f, refs, base, path, escape, {}) {
      var s, n, seen := StoreBehind(f, refs, base, path, escape, {});
      if n < |path| {
        FillsIsBuilt(f, refs, s, path[n..], seen);
      }
      assert StoresAt(f, base, path, escape, s, n);
    }
    if s: Pos, n: nat :| StoresAt(f, base, path, escape, s, n) {
      StoreFound(f, refs, base, path, escape, {}, s, n);
    }
  }

  /** s stores the member at path, or at depth n a value built elsewhere. */
  ghost predicate StoresAt(f: Func, base: Value, path: seq<nat>, escape: Pos, s: Pos, n: nat)
    requires Sized(f) && ValidPos(f, escape)
  {
    && ValidPos(f, s) && InstrAt(f, s).Store? && Precedes(f, s, escape)
    && n <= |path| && Addresses(f, InstrAt(f, s).addr, base, path[..n])
    && (n == |path| || BuiltElsewhere(f, StoredValue(f, s)))
  }

  lemma FillsIsBuilt(f: Func, refs: Referrers, store: Pos, path: seq<nat>, seen: set<Value>)
    requires Sized(f) && FieldsNest(f) && |refs| == |f.defs| && |path| > 0 && ValidPos(f, store)
    requires InstrAt(f, store).Store? && StoredFills(f, refs, store, path, seen)
    requires f.defs[StoredValue(f, store)].Load? ==> !WithinAlloc(f, f.defs[StoredValue(f, store)].addr)
    ensures BuiltElsewhere(f, StoredValue(f, store))
  {
  }
}
