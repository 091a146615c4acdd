/** Value aliases, and what the memory-values table knows. */
module MemoryValues {
  import opened Wrappers
  import opened Clif
  import opened ClifPaths
  import opened LastStore

  type Aliases = map<Value, Value>

  // ---- value aliases ----

  /** Follow at most `n` aliases from `v`; none if that does not reach an original value. */
  function Resolve(aliases: Aliases, v: Value, n: nat): Option<Value>
    decreases n
  {
    if v !in aliases then Some(v) else if n == 0 then None else Resolve(aliases, aliases[v], n - 1)
  }

  ghost predicate LoopFree(aliases: Aliases) {
    forall v: Value :: Resolve(aliases, v, |aliases|).Some?
  }

  /** The original value that `v` stands for. */
  ghost function Root(aliases: Aliases, v: Value): (r: Value)
    requires LoopFree(aliases)
    ensures v !in aliases ==> r == v
  {
    Resolve(aliases, v, |aliases|).value
  }

  lemma {:induction false} ResolveMore(aliases: Aliases, v: Value, n: nat, m: nat)
    requires Resolve(aliases, v, n).Some? && n <= m
    ensures Resolve(aliases, v, m) == Resolve(aliases, v, n) && Resolve(aliases, v, n).value !in aliases
    decreases n
  {
    if v in aliases { ResolveMore(aliases, aliases[v], n - 1, m - 1); }
  }

  lemma {:induction false} RootIsOriginal(aliases: Aliases, v: Value)
    requires LoopFree(aliases)
    ensures Root(aliases, v) !in aliases
    ensures v !in aliases ==> Root(aliases, v) == v
    ensures v in aliases ==> Root(aliases, aliases[v]) == Root(aliases, v)
  {
    ResolveMore(aliases, v, |aliases|, |aliases|);
    if v in aliases {
      ResolveMore(aliases, aliases[v], |aliases| - 1, |aliases|);
    }
  }

  lemma {:induction false} ResolveAdded(aliases: Aliases, x: Value, r: Value, v: Value, n: nat)
    requires x !in aliases && r !in aliases && x != r && Resolve(aliases, v, n).Some?
    ensures
      var y := Resolve(aliases, v, n).value;
      Resolve(aliases[x := r], v, n + 1) == Some(if y == x then r else y)
    decreases n
  {
    if v in aliases { ResolveAdded(aliases, x, r, aliases[v], n - 1); }
  }

  /** Aliasing an original value to a different original value creates no loop and redirects exactly
      the values that stood for it. */
  lemma {:induction false} AddAlias(aliases: Aliases, x: Value, r: Value)
    requires LoopFree(aliases) && x !in aliases && r !in aliases && x != r
    ensures LoopFree(aliases[x := r])
    ensures forall v: Value :: Root(aliases[x := r], v) == if Root(aliases, v) == x then r else Root(aliases, v)
  {
    var aliases' := aliases[x := r];
    assert aliases'.Keys == aliases.Keys + {x};
    assert |aliases'| == |aliases'.Keys| == |aliases| + 1;
    forall v: Value
      ensures Resolve(aliases', v, |aliases'|) == Some(if Root(aliases, v) == x then r else Root(aliases, v))
    {
      ResolveAdded(aliases, x, r, v, |aliases|);
    }
  }

  /** Making an original an alias of what a value stands for creates a loop exactly if that is itself. */
  lemma {:induction false} AliasLoops(aliases: Aliases, x: Value, v: Value)
    requires LoopFree(aliases) && x !in aliases
    ensures LoopFree(aliases[x := Root(aliases, v)]) <==> Root(aliases, v) != x
  {
    hide Resolve, Root, LoopFree;
    RootIsOriginal(aliases, v);
    if Root(aliases, v) == x {
      SelfAlias(aliases[x := x], x, |aliases[x := x]|);
      NoResolution(aliases[x := x], x);
    } else {
      AddAlias(aliases, x, Root(aliases, v));
    }
  }

  lemma {:induction false} SelfAlias(aliases: Aliases, x: Value, n: nat)
    requires x in aliases && aliases[x] == x
    ensures Resolve(aliases, x, n).None?
  {
    if n > 0 { SelfAlias(aliases, x, n - 1); }
  }

  lemma NoResolution(aliases: Aliases, x: Value)
    requires Resolve(aliases, x, |aliases|).None?
    ensures !LoopFree(aliases)
  {
  }

  lemma {:induction false} SmallSet(s: set<nat>, n: nat)
    requires forall x :: x in s ==> x < n
    ensures |s| <= n
  {
    if n > 0 {
      SmallSet(s - {n - 1}, n - 1);
      if n - 1 in s { assert |s| == |s - {n - 1}| + 1; } else { assert s - {n - 1} == s; }
    } else {
      assert s == {};
    }
  }

  // ---- memory accesses ----

  predicate IsAccess(d: InstData) {
    d.LoadInst? || d.StoreInst?
  }

  function OpcodeOf(d: InstData): Opcode requires IsAccess(d) { if d.LoadInst? then d.lop else d.sop }
  function FlagsOf(d: InstData): MemFlags requires IsAccess(d) { if d.LoadInst? then d.lflags else d.sflags }
  function AddressOf(d: InstData): Value requires IsAccess(d) { if d.LoadInst? then d.laddr else d.saddr }
  function OffsetOf(d: InstData): int requires IsAccess(d) { if d.LoadInst? then d.loffset else d.soffset }

  /** The SSA value known to be at the accessed location afterwards: the result, or the stored data. */
  function ContentOf(d: InstData): Value requires IsAccess(d) { if d.LoadInst? then d.lresult else d.sdata }

  function AccessType(f: Func, d: InstData): Type
    requires IsAccess(d) && InstFits(f, d)
  {
    f.values[ContentOf(d)].ty
  }

  function GetExtOpcode(op: Opcode): Option<Opcode> {
    if op.Load? || op.Store? then None else Some(op)
  }

  /** Key of the memory-values table: a version of memory and a location in it. */
  datatype MemoryLoc = MemoryLoc(lastStore: Option<Inst>, address: Value, offset: int, ty: Type,
    extending: Option<Opcode>)

  type MemTable = map<MemoryLoc, (Inst, Value)>

  /** The memory version after the access, as recorded in the table. */
  function Version(f: Func, input: BlockStates, inst: Inst): Option<Inst>
    requires WellFormed(f) && inst < |f.insts| && IsAccess(f.insts[inst])
  {
    if f.insts[inst].StoreInst? then Some(inst)
    else StateAt(f, input, f.place[inst]).At(f.insts[inst].lflags.region)
  }

  /** `d` and `e` name the same location in the same way, up to aliases. */
  ghost predicate SameLocation(f: Func, aliases: Aliases, d: InstData, e: InstData)
    requires LoopFree(aliases) && IsAccess(d) && IsAccess(e) && InstFits(f, d) && InstFits(f, e)
  {
    && Root(aliases, AddressOf(d)) == Root(aliases, AddressOf(e))
    && OffsetOf(d) == OffsetOf(e)
    && AccessType(f, d) == AccessType(f, e)
    && GetExtOpcode(OpcodeOf(d)) == GetExtOpcode(OpcodeOf(e))
  }

  /** What the same location is for a load: the same original of the address, offset and type, and the opcode of an
      earlier load; an earlier store counts only if both are plain. */
  lemma LocationOfLoad(f: Func, aliases: Aliases, d: InstData, e: InstData)
    requires LoopFree(aliases) && IsAccess(d) && e.LoadInst? && InstFits(f, d) && InstFits(f, e)
    ensures d.LoadInst? ==> (SameLocation(f, aliases, d, e) <==>
      && Root(aliases, d.laddr) == Root(aliases, e.laddr) && d.loffset == e.loffset
      && f.values[d.lresult].ty == f.values[e.lresult].ty && d.lop == e.lop)
    ensures d.StoreInst? ==> (SameLocation(f, aliases, d, e) <==>
      && Root(aliases, d.saddr) == Root(aliases, e.laddr) && d.soffset == e.loffset
      && f.values[d.sdata].ty == f.values[e.lresult].ty && d.sop == Store && e.lop == Load)
  {
    hide Root, LoopFree;
  }

  /** A table entry records an access that is still in the layout, under the version and location it made. */
  ghost predicate EntryOk(f: Func, input: BlockStates, aliases: Aliases, processed: set<Inst>, removed: set<Inst>,
      key: MemoryLoc, def: Inst, v: Value)
    requires WellFormed(f) && LoopFree(aliases)
  {
    && def < |f.insts| && v < |f.values| && IsAccess(f.insts[def])
    && def in processed && def !in removed
    && key.lastStore == Version(f, input, def)
    && Root(aliases, key.address) == Root(aliases, AddressOf(f.insts[def]))
    && key.offset == OffsetOf(f.insts[def])
    && key.ty == AccessType(f, f.insts[def])
    && key.extending == GetExtOpcode(OpcodeOf(f.insts[def]))
    && Root(aliases, v) == Root(aliases, ContentOf(f.insts[def]))
  }

  ghost predicate TableOk(f: Func, input: BlockStates, aliases: Aliases, processed: set<Inst>, removed: set<Inst>,
      table: MemTable)
    requires WellFormed(f) && LoopFree(aliases)
  {
    forall key :: key in table ==> EntryOk(f, input, aliases, processed, removed, key, table[key].0, table[key].1)
  }

  /** Why the load `load` may be replaced by the value of the earlier access `def`. */
  ghost predicate Forwards(f: Func, input: BlockStates, aliases: Aliases, def: Inst, load: Inst)
    requires WellFormed(f) && LoopFree(aliases)
  {
    && def < |f.insts| && load < |f.insts| && def != load
    && IsAccess(f.insts[def]) && f.insts[load].LoadInst?
    && Dominates(f, f.place[def], f.place[load])
    && SameLocation(f, aliases, f.insts[def], f.insts[load])
    && Version(f, input, def) == Version(f, input, load)
  }

  /** The alias of `x`: `x` is the result of a removed load, for which `source[x]` stands in. */
  ghost predicate AliasOk(f: Func, input: BlockStates, aliases: Aliases, source: map<Value, Inst>, x: Value)
    requires WellFormed(f) && LoopFree(aliases) && x in aliases
  {
    && x < |f.values| && aliases[x] < |f.values| && f.values[x].def.ResultDef? && x in source
    && var load := f.values[x].def.inst;
    && Forwards(f, input, aliases, source[x], load)
    && f.insts[load].lresult == x
    && Root(aliases, x) == Root(aliases, ContentOf(f.insts[source[x]]))
    && Available(f, aliases[x], f.place[load])
    && f.values[x].ty == f.values[aliases[x]].ty
  }

  ghost predicate AliasesOk(f: Func, input: BlockStates, aliases: Aliases, source: map<Value, Inst>) {
    && WellFormed(f) && LoopFree(aliases)
    && forall x :: x in aliases ==> AliasOk(f, input, aliases, source, x)
  }

  lemma {:induction false} AliasAvailable(f: Func, input: BlockStates, aliases: Aliases, source: map<Value, Inst>,
      v: Value, p: Point)
    requires AliasesOk(f, input, aliases, source) && v in aliases && Reachable(f, p)
    requires v < |f.values| && Available(f, v, p)
    ensures aliases[v] < |f.values| && Available(f, aliases[v], p)
  {
    hide CodeOk, Dominates, Reachable, LoopFree, SameLocation, Root, Version;
    assert AliasOk(f, input, aliases, source, v);
    var load := f.values[v].def.inst;
    assert Dominates(f, f.place[load], p);
    AvailableAt(f, aliases[v], f.place[load], p);
  }

  /** Where a value is available, so is the original it stands for. */
  lemma {:induction false} RootAvailable(f: Func, input: BlockStates, aliases: Aliases, source: map<Value, Inst>,
      v: Value, n: nat, p: Point)
    requires AliasesOk(f, input, aliases, source) && v < |f.values| && Available(f, v, p) && Reachable(f, p)
    requires Resolve(aliases, v, n).Some?
    ensures Resolve(aliases, v, n).value < |f.values| && Available(f, Resolve(aliases, v, n).value, p)
    decreases n
  {
    hide WellFormed, Available, Reachable, LoopFree, AliasOk;
    if v in aliases {
      AliasAvailable(f, input, aliases, source, v, p);
      RootAvailable(f, input, aliases, source, aliases[v], n - 1, p);
    }
  }

  /** Adding an alias keeps every fact that is stated up to aliases. */
  lemma {:induction false} AddAliasKeepsTable(f: Func, input: BlockStates, aliases: Aliases, processed: set<Inst>,
      removed: set<Inst>, table: MemTable, x: Value, r: Value)
    requires WellFormed(f) && LoopFree(aliases) && x !in aliases && r !in aliases && x != r
    requires TableOk(f, input, aliases, processed, removed, table)
    ensures LoopFree(aliases[x := r]) && TableOk(f, input, aliases[x := r], processed, removed, table)
  {
    hide WellFormed, LoopFree, Root;
    AddAlias(aliases, x, r);
  }

  lemma {:induction false} AddAliasKeepsAliases(f: Func, input: BlockStates, aliases: Aliases, source: map<Value, Inst>,
      x: Value, r: Value, def: Inst, z: Value)
    requires AliasesOk(f, input, aliases, source) && x !in aliases && r !in aliases && x != r && z in aliases
    ensures LoopFree(aliases[x := r]) && AliasOk(f, input, aliases[x := r], source[x := def], z)
  {
    hide WellFormed, LoopFree, Root;
    AddAlias(aliases, x, r);
    assert AliasOk(f, input, aliases, source, z);
  }

  // ---- the state of the pass ----

  /** Exactly the loads whose results have become aliases are gone from the layout. */
  ghost predicate RemovedOk(f: Func, aliases: Aliases, processed: set<Inst>, removed: set<Inst>) {
    && removed <= processed
    && (forall n :: n in removed ==> n < |f.insts| && f.insts[n].LoadInst? && f.insts[n].lresult in aliases)
    && (forall n :: 0 <= n < |f.insts| && f.insts[n].LoadInst? && f.insts[n].lresult in aliases ==> n in removed)
  }

  ghost predicate PassOk(f: Func, input: BlockStates, aliases: Aliases, source: map<Value, Inst>, processed: set<Inst>,
      removed: set<Inst>, table: MemTable)
  {
    && AliasesOk(f, input, aliases, source)
    && RemovedOk(f, aliases, processed, removed)
    && TableOk(f, input, aliases, processed, removed, table)
  }

  /** The key the table uses for the access `inst`. */
  ghost function KeyOf(f: Func, input: BlockStates, aliases: Aliases, inst: Inst): MemoryLoc
    requires WellFormed(f) && LoopFree(aliases) && inst < |f.insts| && IsAccess(f.insts[inst])
  {
    var d := f.insts[inst];
    MemoryLoc(Version(f, input, inst), Root(aliases, AddressOf(d)), OffsetOf(d), AccessType(f, d),
      GetExtOpcode(OpcodeOf(d)))
  }

  /** Two accesses have one key exactly if they name the same location, up to aliases, in the same version of memory. */
  lemma KeysAgree(f: Func, input: BlockStates, aliases: Aliases, i: Inst, j: Inst)
    requires WellFormed(f) && LoopFree(aliases) && i < |f.insts| && j < |f.insts|
    requires IsAccess(f.insts[i]) && IsAccess(f.insts[j])
    ensures KeyOf(f, input, aliases, i) == KeyOf(f, input, aliases, j) <==>
      SameLocation(f, aliases, f.insts[i], f.insts[j]) && Version(f, input, i) == Version(f, input, j)
  {
    hide Root, Version, LoopFree;
  }

  /** Recording the current instruction in the table. */
  lemma {:induction false} RecordEntry(f: Func, input: BlockStates, aliases: Aliases, source: map<Value, Inst>,
      processed: set<Inst>, removed: set<Inst>, table: MemTable, inst: Inst, key: MemoryLoc, v: Value)
    requires PassOk(f, input, aliases, source, processed, removed, table)
    requires inst < |f.insts| && inst !in processed && IsAccess(f.insts[inst])
    requires key == KeyOf(f, input, aliases, inst)
    requires v == Root(aliases, ContentOf(f.insts[inst])) || v == ContentOf(f.insts[inst])
    requires v < |f.values|
    ensures PassOk(f, input, aliases, source, processed + {inst}, removed, table[key := (inst, v)])
  {
    hide WellFormed, AliasOk, LoopFree, Root, Version, AccessType;
    RootIsOriginal(aliases, Root(aliases, AddressOf(f.insts[inst])));
    RootIsOriginal(aliases, AddressOf(f.insts[inst]));
    RootIsOriginal(aliases, ContentOf(f.insts[inst]));
    RootIsOriginal(aliases, Root(aliases, ContentOf(f.insts[inst])));
    assert EntryOk(f, input, aliases, processed + {inst}, removed, key, inst, v);
  }

  /** Aliases stay within the function's values and never change the type of a value. */
  ghost predicate AliasesTyped(f: Func, aliases: Aliases) {
    forall x :: x in aliases ==> x < |f.values| && aliases[x] < |f.values| && f.values[x].ty == f.values[aliases[x]].ty
  }

  lemma {:induction false} AliasesAreTyped(f: Func, input: BlockStates, aliases: Aliases, source: map<Value, Inst>)
    requires AliasesOk(f, input, aliases, source)
    ensures AliasesTyped(f, aliases)
  {
    hide WellFormed, LoopFree, Forwards;
    forall x | x in aliases
      ensures x < |f.values| && aliases[x] < |f.values| && f.values[x].ty == f.values[aliases[x]].ty
    {
      assert AliasOk(f, input, aliases, source, x);
    }
  }

  lemma {:induction false} ResolveKeepsType(f: Func, aliases: Aliases, v: Value, n: nat)
    requires AliasesTyped(f, aliases) && v < |f.values| && Resolve(aliases, v, n).Some?
    ensures Resolve(aliases, v, n).value < |f.values| && f.values[Resolve(aliases, v, n).value].ty == f.values[v].ty
    decreases n
  {
    if v in aliases { ResolveKeepsType(f, aliases, aliases[v], n - 1); }
  }

  lemma RootKeepsType(f: Func, aliases: Aliases, v: Value)
    requires LoopFree(aliases) && AliasesTyped(f, aliases) && v < |f.values|
    ensures Root(aliases, v) < |f.values| && f.values[Root(aliases, v)].ty == f.values[v].ty
  {
    ResolveKeepsType(f, aliases, v, |aliases|);
  }

  lemma {:induction false} SkipInst(f: Func, input: BlockStates, aliases: Aliases, source: map<Value, Inst>,
      processed: set<Inst>, removed: set<Inst>, table: MemTable, inst: Inst)
    requires PassOk(f, input, aliases, source, processed, removed, table)
    ensures PassOk(f, input, aliases, source, processed + {inst}, removed, table)
  {
    hide WellFormed, AliasOk, LoopFree, Root, Version, AccessType;
  }

  ghost predicate SoundDominance(f: Func, dominates: (Inst, Inst) -> bool)
    requires WellFormed(f)
  {
    forall a, b :: 0 <= a < |f.insts| && 0 <= b < |f.insts| && dominates(a, b) ==> Dominates(f, f.place[a], f.place[b])
  }

  /** A hit whose definition dominates the load justifies forwarding. */
  lemma {:induction false} HitForwards(f: Func, input: BlockStates, aliases: Aliases, source: map<Value, Inst>,
      processed: set<Inst>, removed: set<Inst>, table: MemTable, dominates: (Inst, Inst) -> bool, inst: Inst,
      key: MemoryLoc)
    requires PassOk(f, input, aliases, source, processed, removed, table)
    requires inst < |f.insts| && inst !in processed && f.insts[inst].LoadInst?
    requires key == KeyOf(f, input, aliases, inst)
    requires SoundDominance(f, dominates) && key in table && dominates(table[key].0, inst)
    ensures Forwards(f, input, aliases, table[key].0, inst)
    ensures forall k :: k in table ==> table[k].0 != inst
    ensures table[key].1 < |f.values| && Root(aliases, table[key].1) == Root(aliases, ContentOf(f.insts[table[key].0]))
  {
    hide CodeOk, AliasOk, LoopFree, Root, Version, Dominates;
    RootIsOriginal(aliases, f.insts[inst].laddr);
    assert EntryOk(f, input, aliases, processed, removed, key, table[key].0, table[key].1);
    forall k | k in table ensures table[k].0 != inst {
      assert EntryOk(f, input, aliases, processed, removed, k, table[k].0, table[k].1);
    }
  }

  /** What the source access knows is available at the load. */
  lemma {:induction false} ContentAvailable(f: Func, input: BlockStates, aliases: Aliases, def: Inst, load: Inst)
    requires SsaForm(f) && AllReachable(f) && LoopFree(aliases) && Forwards(f, input, aliases, def, load)
    ensures ContentOf(f.insts[def]) < |f.values| && Available(f, ContentOf(f.insts[def]), f.place[load])
  {
    hide InstFits, IsTerminator, Dominates, Reachable, LoopFree, SameLocation, Version, Resolve;
    var p := f.place[load];
    var v := ContentOf(f.insts[def]);
    assert ValidPoint(f, p) && Reachable(f, p) && ValidPoint(f, f.place[def]);
    ContentInRange(f, def);
    if f.insts[def].StoreInst? {
      assert UsesValue(f.insts[InstAt(f, f.place[def])], v);
      AvailableAt(f, v, f.place[def], p);
    } else {
      assert f.values[v].def == ResultDef(def);
      assert f.place[def] != p;
    }
  }

  /** The stand-in for a load's result is available at the load, so it is not the load's own result. */
  lemma {:induction false} SourceAvailable(f: Func, input: BlockStates, aliases: Aliases, source: map<Value, Inst>,
      def: Inst, load: Inst)
    requires SsaForm(f) && AllReachable(f) && AliasesOk(f, input, aliases, source) &&
      Forwards(f, input, aliases, def, load)
    ensures
      var r := Root(aliases, ContentOf(f.insts[def]));
      r < |f.values| && Available(f, r, f.place[load]) && r != f.insts[load].lresult
  {
    hide InstFits, IsTerminator, Dominates, Reachable, LoopFree, SameLocation, Version, Resolve, AliasOk;
    var p := f.place[load];
    var v := ContentOf(f.insts[def]);
    ContentAvailable(f, input, aliases, def, load);
    LoopFreeResolves(aliases, v);
    assert ValidPoint(f, p) && Reachable(f, p);
    RootAvailable(f, input, aliases, source, v, |aliases|, p);
    assert f.insts[load].lresult in Results(f.insts[load]);
  }

  lemma ContentInRange(f: Func, inst: Inst)
    requires WellFormed(f) && inst < |f.insts| && IsAccess(f.insts[inst])
    ensures ContentOf(f.insts[inst]) < |f.values|
    ensures f.insts[inst].LoadInst? ==> f.values[ContentOf(f.insts[inst])].def == ResultDef(inst)
  {
    assert InstFits(f, f.insts[inst]);
  }

  lemma LoopFreeResolves(aliases: Aliases, v: Value)
    requires LoopFree(aliases)
    ensures Resolve(aliases, v, |aliases|) == Some(Root(aliases, v))
  {
  }

  /** Removing a load in favour of its source keeps the pass consistent. */
  lemma {:induction false} RemoveLoad(f: Func, input: BlockStates, aliases: Aliases, source: map<Value, Inst>,
      processed: set<Inst>, removed: set<Inst>, table: MemTable, def: Inst, load: Inst)
    requires SsaForm(f) && AllReachable(f)
    requires PassOk(f, input, aliases, source, processed, removed, table)
    requires Forwards(f, input, aliases, def, load) && load in processed && load !in removed
    requires forall key :: key in table ==> table[key].0 != load
    ensures
      var x, r := f.insts[load].lresult, Root(aliases, ContentOf(f.insts[def]));
      PassOk(f, input, aliases[x := r], source[x := def], processed, removed + {load}, table)
  {
    hide AllReachable, Dominates, Reachable, LoopFree, Root, Version, CodeOk, AliasOk, EntryOk, Forwards, Available;
    NewAliasShape(f, input, aliases, def, load);
    var x, r := f.insts[load].lresult, Root(aliases, ContentOf(f.insts[def]));
    SourceAvailable(f, input, aliases, source, def, load);
    RootIsOriginal(aliases, ContentOf(f.insts[def]));
    ContentInRange(f, load);
    AddAlias(aliases, x, r);
    AddAliasKeepsTable(f, input, aliases, processed, removed, table, x, r);
    ContentInRange(f, def);
    AliasesAreTyped(f, input, aliases, source);
    RootKeepsType(f, aliases, ContentOf(f.insts[def]));
    forall z | z in aliases ensures AliasOk(f, input, aliases[x := r], source[x := def], z) {
      AddAliasKeepsAliases(f, input, aliases, source, x, r, def, z);
    }
    NewAliasOk(f, input, aliases, source, def, load);
    KeptInTable(f, input, aliases[x := r], processed, removed, table, load);
    RemovedGrows(f, aliases, processed, removed, load, r);
  }

  lemma {:induction false} KeptInTable(f: Func, input: BlockStates, aliases: Aliases, processed: set<Inst>,
      removed: set<Inst>, table: MemTable, load: Inst)
    requires WellFormed(f) && LoopFree(aliases) && TableOk(f, input, aliases, processed, removed, table)
    requires forall key :: key in table ==> table[key].0 != load
    ensures TableOk(f, input, aliases, processed, removed + {load}, table)
  {
    hide WellFormed, LoopFree, Root, Version, AccessType;
  }

  lemma {:induction false} NewAliasShape(f: Func, input: BlockStates, aliases: Aliases, def: Inst, load: Inst)
    requires WellFormed(f) && LoopFree(aliases) && Forwards(f, input, aliases, def, load)
    ensures def < |f.insts| && load < |f.insts| && IsAccess(f.insts[def]) && f.insts[load].LoadInst?
  {
    hide WellFormed, LoopFree, Dominates, SameLocation, Version;
  }

  lemma {:induction false} NewAliasOk(f: Func, input: BlockStates, aliases: Aliases, source: map<Value, Inst>,
      def: Inst, load: Inst)
    requires WellFormed(f) && LoopFree(aliases) && Forwards(f, input, aliases, def, load)
    requires ContentOf(f.insts[def]) < |f.values|
    requires
      var x, r := f.insts[load].lresult, Root(aliases, ContentOf(f.insts[def]));
      && x !in aliases && r !in aliases && x != r && r < |f.values| &&
        f.values[r].ty == f.values[ContentOf(f.insts[def])].ty
      && Available(f, r, f.place[load])
    ensures
      var x, r := f.insts[load].lresult, Root(aliases, ContentOf(f.insts[def]));
      LoopFree(aliases[x := r]) && AliasOk(f, input, aliases[x := r], source[x := def], x)
  {
    hide CodeOk, LoopFree, Root, Version, Available, Dominates, Forwards;
    assert IsAccess(f.insts[def]) && f.insts[load].LoadInst? by { NewAliasShape(f, input, aliases, def, load); }
    var x, r := f.insts[load].lresult, Root(aliases, ContentOf(f.insts[def]));
    ContentInRange(f, load);
    RootIsOriginal(aliases, x);
    AddAlias(aliases, x, r);
    assert f.values[x].ty == f.values[ContentOf(f.insts[def])].ty by { ForwardedType(f, input, aliases, def, load); }
    NewAliasParts(f, input, aliases, def, load, x, r);
  }

  lemma {:induction false} ForwardedType(f: Func, input: BlockStates, aliases: Aliases, def: Inst, load: Inst)
    requires WellFormed(f) && LoopFree(aliases) && Forwards(f, input, aliases, def, load)
    ensures ContentOf(f.insts[def]) < |f.values| && f.insts[load].lresult < |f.values|
    ensures f.values[f.insts[load].lresult].ty == f.values[ContentOf(f.insts[def])].ty
  {
    hide CodeOk, LoopFree, Root, Version, Dominates;
    ContentInRange(f, def);
    ContentInRange(f, load);
  }

  lemma {:induction false} NewAliasParts(f: Func, input: BlockStates, aliases: Aliases, def: Inst, load: Inst, x: Value,
      r: Value)
    requires WellFormed(f) && LoopFree(aliases) && Forwards(f, input, aliases, def, load) && LoopFree(aliases[x := r])
    requires forall v: Value :: Root(aliases[x := r], v) == if Root(aliases, v) == x then r else Root(aliases, v)
    ensures Forwards(f, input, aliases[x := r], def, load)
  {
    hide WellFormed, LoopFree, Root, Version, Dominates;
  }

  lemma {:induction false} RemovedGrows(f: Func, aliases: Aliases, processed: set<Inst>, removed: set<Inst>, load: Inst,
      r: Value)
    requires WellFormed(f) && RemovedOk(f, aliases, processed, removed) && load in processed && load < |f.insts| &&
      f.insts[load].LoadInst?
    ensures RemovedOk(f, aliases[f.insts[load].lresult := r], processed, removed + {load})
  {
    hide CodeOk;
    forall n | 0 <= n < |f.insts| && f.insts[n].LoadInst? &&
      f.insts[n].lresult == f.insts[load].lresult ensures n == load {
      ContentInRange(f, n);
      ContentInRange(f, load);
    }
  }
}
