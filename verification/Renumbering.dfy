/** When the pass keeps every reference of a module: exactly when each index it leaves alone or shifts
    still denotes the entity it denoted before. */
module Renumbering {
  import opened Options
  import opened Metric
  import opened Wasm
  import opened GasInjector

  // ---------- global index space ----------

  datatype GlobalRef = ImportedGlobal(imported: Import) | DefinedGlobal(name: nat) | NoSuchGlobal

  function GlobalImports(imports: seq<Import>): seq<Import> {
    if imports == [] then []
    else (if imports[0].OtherImport? && imports[0].kind.GlobalImport? then [imports[0]] else [])
         + GlobalImports(imports[1..])
  }

  function ResolveGlobal(m: Module, x: nat): GlobalRef {
    var outside := GlobalImports(m.imports);
    if x < |outside| then ImportedGlobal(outside[x])
    else if x - |outside| < |m.globals| then DefinedGlobal(m.globals[x - |outside|])
    else NoSuchGlobal
  }

  lemma {:induction false} GlobalImportsConcat(a: seq<Import>, b: seq<Import>)
    ensures GlobalImports(a + b) == GlobalImports(a) + GlobalImports(b)
  {
    if a == [] {
      assert a + b == b;
    } else {
      GlobalImportsConcat(a[1..], b);
      assert (a + b)[0] == a[0] && (a + b)[1..] == a[1..] + b;
      var first := if a[0].OtherImport? && a[0].kind.GlobalImport? then [a[0]] else [];
      assert first + (GlobalImports(a[1..]) + GlobalImports(b)) == (first + GlobalImports(a[1..])) + GlobalImports(b);
    }
  }

  lemma {:induction false} FuncImportsConcat(a: seq<Import>, b: seq<Import>)
    ensures FuncImports(a + b) == FuncImports(a) + FuncImports(b)
  {
    if a == [] {
      assert a + b == b;
    } else {
      FuncImportsConcat(a[1..], b);
      assert (a + b)[0] == a[0] && (a + b)[1..] == a[1..] + b;
      var first := if a[0].FuncImport? then [a[0]] else [];
      assert FuncImports(a) == first + FuncImports(a[1..]);
      assert FuncImports(a + b) == first + FuncImports(a[1..] + b);
      assert first + (FuncImports(a[1..]) + FuncImports(b)) == (first + FuncImports(a[1..])) + FuncImports(b);
    }
  }

  // ---------- what the pass makes of the two index spaces ----------

  lemma SpacesAfter(m: Module)
    ensures FuncImports(InjectModule(m).imports) ==
            FuncImports(m.imports) + if InfoFor(m).foundGasFunction then [] else [OUT_OF_GAS]
    ensures GlobalImports(InjectModule(m).imports) == GlobalImports(m.imports) + [GAS_GLOBAL]
  {
    var more := if InfoFor(m).foundGasFunction then [] else [OUT_OF_GAS];
    FuncImportsConcat(m.imports + more, [GAS_GLOBAL]);
    FuncImportsConcat(m.imports, more);
    GlobalImportsConcat(m.imports + more, [GAS_GLOBAL]);
    GlobalImportsConcat(m.imports, more);
    assert [GAS_GLOBAL][1..] == [];
    assert FuncImports([GAS_GLOBAL]) == [] && GlobalImports([GAS_GLOBAL]) == [GAS_GLOBAL];
    if more != [] { assert more[1..] == []; }
    assert FuncImports(more) == more && GlobalImports(more) == [];
  }

  /** Function imports are at most as many as imports, and as many only if there is no other kind. */
  lemma {:induction false} CountFuncs(imports: seq<Import>)
    ensures |FuncImports(imports)| <= |imports|
    ensures |FuncImports(imports)| == |imports| <==> AllFuncImports(imports)
    ensures forall i :: i in FuncImports(imports) ==> i in imports && i.FuncImport?
    ensures AllFuncImports(imports) ==> GlobalImports(imports) == []
  {
    if imports != [] {
      var rest := imports[1..];
      CountFuncs(rest);
      assert forall i :: 0 <= i < |rest| ==> rest[i] == imports[i + 1];
      assert AllFuncImports(imports) <==> imports[0].FuncImport? && AllFuncImports(rest) by {
        if imports[0].FuncImport? && AllFuncImports(rest) {
          forall i | 0 <= i < |imports| ensures imports[i].FuncImport? {
            if i > 0 { assert rest[i - 1].FuncImport?; }
          }
        }
        if AllFuncImports(imports) {
          forall i | 0 <= i < |rest| ensures rest[i].FuncImport? { assert imports[i + 1].FuncImport?; }
        }
      }
    }
  }

  // ---------- each kind of reference, both ways ----------

  /** Calls and element entries keep their targets iff outOfGas was already imported, or every import is a
      function, or the module defines no function. */
  predicate KeepsCalls(m: Module) {
    forall f: nat | f < |FuncImports(m.imports)| + |m.funcs| :: KeepsIndex(m, f)
  }

  lemma CallsKept(m: Module)
    ensures KeepsCalls(m) <==>
            InfoFor(m).foundGasFunction || AllFuncImports(m.imports) || m.funcs == []
  {
    SpacesAfter(m);
    CountFuncs(m.imports);
    var f0 := |FuncImports(m.imports)|;
    if !InfoFor(m).foundGasFunction && !AllFuncImports(m.imports) && m.funcs != [] {
      // the first defined function is now taken for outOfGas
      assert ResolveFunc(m, f0) == Inside(0);
      assert ResolveFunc(InjectModule(m), ShiftCall(InfoFor(m), f0)) == Outside(OUT_OF_GAS);
      assert !KeepsIndex(m, f0);
    }
  }

  predicate KeepsElem(m: Module, k: nat)
    requires k < |m.table|
  {
    m.table[k].Some? ==>
      InjectModule(m).table[k].Some? &&
      ResolveFunc(InjectModule(m), InjectModule(m).table[k].value) == ResolveFunc(m, m.table[k].value)
  }

  lemma IndexKept(m: Module, f: nat)
    requires f < |FuncImports(m.imports)| + |m.funcs|
    ensures ResolveFunc(InjectModule(m), ShiftCall(InfoFor(m), f)) == ResolveFunc(m, f) <==>
            InfoFor(m).foundGasFunction || f < |FuncImports(m.imports)| || f >= |m.imports|
  {
    SpacesAfter(m);
    CountFuncs(m.imports);
    if !InfoFor(m).foundGasFunction && f == |FuncImports(m.imports)| < |m.imports| {
      assert ResolveFunc(InjectModule(m), f) == Outside(OUT_OF_GAS);
    }
  }

  /** An element entry keeps its function iff outOfGas was already imported, or the function is imported, or its
      number is not below the number of all imports. */
  lemma ElemKept(m: Module, k: nat)
    requires k < |m.table| && m.table[k].Some? && m.table[k].value < |FuncImports(m.imports)| + |m.funcs|
    ensures KeepsElem(m, k) <==>
            InfoFor(m).foundGasFunction ||
            m.table[k].value < |FuncImports(m.imports)| || m.table[k].value >= |m.imports|
  {
    IndexKept(m, m.table[k].value);
    assert InjectModule(m).table[k] == Some(ShiftCall(InfoFor(m), m.table[k].value));
  }

  /** An element entry is shifted as a call of its function is. */
  lemma ElemOfIndex(m: Module, k: nat)
    requires k < |m.table| && m.table[k].Some? && KeepsIndex(m, m.table[k].value)
    ensures KeepsElem(m, k)
  {
    assert InjectModule(m).table[k] == Some(ShiftCall(InfoFor(m), m.table[k].value));
  }

  predicate CallsOutOfGas(m: Module) {
    var callee := ResolveFunc(InjectModule(m), InfoFor(m).gasFuncIndex);
    callee.Outside? && callee.imported.FuncImport? && callee.imported.isOutOfGas
  }

  /** The imports that must all be functions for the charges to call outOfGas: those before the last
      import of it, or all of them. */
  function ImportsBeforeGas(m: Module): seq<Import> {
    match FindOutOfGas(m.imports)
    case Some(i) => m.imports[..i]
    case None => m.imports
  }

  lemma {:induction false} LastOutOfGas(imports: seq<Import>, j: nat)
    requires FindOutOfGas(imports).Some? && FindOutOfGas(imports).value < j < |imports|
    ensures !(imports[j].FuncImport? && imports[j].isOutOfGas)
  {
    if j < |imports| - 1 {
      LastOutOfGas(imports[..|imports| - 1], j);
    }
  }

  /** With the last import of outOfGas at position i of all imports, index i among the function imports is
      outOfGas iff only functions are imported before it. */
  lemma IndexOfOutOfGas(imports: seq<Import>, i: nat)
    requires FindOutOfGas(imports) == Some(i)
    ensures
      var outside := FuncImports(imports);
      (i < |outside| && outside[i].FuncImport? && outside[i].isOutOfGas) <==> AllFuncImports(imports[..i])
    ensures AllFuncImports(imports[..i]) ==> i < |FuncImports(imports)| && FuncImports(imports)[i] == imports[i]
  {
    SplitAtGas(imports, i);
    CountFuncs(imports[..i]);
    IndexIn(FuncImports(imports), FuncImports(imports[..i]), imports[i], FuncImports(imports[i + 1..]), i);
    if |FuncImports(imports[..i])| < i < |FuncImports(imports)| {
      NoGasAfter(imports, i, FuncImports(imports)[i]);
    }
  }

  lemma IndexIn<T>(s: seq<T>, a: seq<T>, x: T, b: seq<T>, i: nat)
    requires s == a + ([x] + b) && |a| <= i
    ensures |a| == i ==> i < |s| && s[i] == x
    ensures |a| < i < |s| ==> s[i] in b
  {
    if |a| < i < |s| { assert s[i] == b[i - |a| - 1]; }
  }

  lemma SplitAtGas(imports: seq<Import>, i: nat)
    requires i < |imports| && imports[i].FuncImport?
    ensures FuncImports(imports) ==
            FuncImports(imports[..i]) + ([imports[i]] + FuncImports(imports[i + 1..]))
  {
    var before, here, after := imports[..i], [imports[i]], imports[i + 1..];
    assert imports == before + (here + after);
    FuncImportsConcat(before, here + after);
    assert (here + after)[0] == imports[i] && (here + after)[1..] == after;
  }

  lemma NoGasAfter(imports: seq<Import>, i: nat, later: Import)
    requires FindOutOfGas(imports) == Some(i) && later in FuncImports(imports[i + 1..])
    ensures !(later.FuncImport? && later.isOutOfGas)
  {
    var after := imports[i + 1..];
    CountFuncs(after);
    var j :| 0 <= j < |after| && after[j] == later;
    LastOutOfGas(imports, i + 1 + j);
  }

  lemma ChargesCallOutOfGas(m: Module)
    ensures CallsOutOfGas(m) <==> AllFuncImports(ImportsBeforeGas(m))
  {
    SpacesAfter(m);
    CountFuncs(m.imports);
    if FindOutOfGas(m.imports).Some? {
      IndexOfOutOfGas(m.imports, FindOutOfGas(m.imports).value);
    }
  }

  predicate KeepsIndex(m: Module, f: nat) {
    ResolveFunc(InjectModule(m), ShiftCall(InfoFor(m), f)) == ResolveFunc(m, f)
  }

  /** Every function index denotes the same function before and after the pass, and the index the charges call denotes
      outOfGas, iff the imports before outOfGas, or all of them if it was not imported, are functions. */
  lemma TargetsKeptIff(m: Module)
    ensures AllFuncImports(ImportsBeforeGas(m)) <==> CallsOutOfGas(m) && forall f: nat :: KeepsIndex(m, f)
  {
    ChargesCallOutOfGas(m);
    if AllFuncImports(ImportsBeforeGas(m)) {
      forall f: nat ensures KeepsIndex(m, f) { CallsKeepTarget(m, f); }
    }
  }

  /** The import that the charges call: the one found, or the one added. */
  lemma GasImport(m: Module)
    requires AllFuncImports(ImportsBeforeGas(m))
    ensures
      var found := FindOutOfGas(m.imports);
      ResolveFunc(InjectModule(m), InfoFor(m).gasFuncIndex) ==
      Outside(if found.Some? then m.imports[found.value] else OUT_OF_GAS)
  {
    SpacesAfter(m);
    CountFuncs(m.imports);
    if InfoFor(m).foundGasFunction { IndexOfOutOfGas(m.imports, InfoFor(m).gasFuncIndex); }
  }

  lemma CallsKeepTarget(m: Module, f: nat)
    requires AllFuncImports(ImportsBeforeGas(m))
    ensures KeepsIndex(m, f) && CallsOutOfGas(m)
  {
    SpacesAfter(m);
    CountFuncs(m.imports);
    ChargesCallOutOfGas(m);
  }

  /** The imports with which the pass keeps all function and global indices. */
  predicate ReadyImports(m: Module) {
    AllFuncImports(ImportsBeforeGas(m)) && GlobalImports(m.imports) == []
  }

  /** Imports of another kind do no harm behind outOfGas. */
  lemma MemoryBehindGasIsReady(m: Module)
    requires m.imports == [OUT_OF_GAS, OtherImport(MemoryImport, 0)]
    ensures ReadyImports(m) && !AllFuncImports(m.imports)
  {
    var imports := m.imports;
    assert imports[..|imports| - 1] == [OUT_OF_GAS];
    assert FindOutOfGas(imports) == Some(0);
    assert imports[1..] == [imports[1]] && imports[1..][1..] == [];
    assert GlobalImports(imports[1..]) == [];
    assert !imports[1].FuncImport?;
  }

  predicate KeepsGlobals(m: Module) {
    ResolveGlobal(InjectModule(m), InfoFor(m).globalGasIndex) == ImportedGlobal(GAS_GLOBAL) &&
    forall x: nat | x < |GlobalImports(m.imports)| + |m.globals| ::
      ResolveGlobal(InjectModule(m), x + 1) == ResolveGlobal(m, x)
  }

  predicate OnlyGasGlobals(m: Module) { forall g | g in GlobalImports(m.imports) :: g == GAS_GLOBAL }

  /** Global accesses and the charges' own gas variable are right iff no global but gas itself was imported. */
  lemma GlobalsKept(m: Module)
    ensures KeepsGlobals(m) <==> OnlyGasGlobals(m)
  {
    if KeepsGlobals(m) {
      forall g | g in GlobalImports(m.imports) ensures g == GAS_GLOBAL {
        var x :| 0 <= x < |GlobalImports(m.imports)| && GlobalImports(m.imports)[x] == g;
        GlobalsAllGas(m, x);
      }
      assert OnlyGasGlobals(m);
    }
    if OnlyGasGlobals(m) { AllGasKept(m); }
  }

  lemma AllGasKept(m: Module)
    requires OnlyGasGlobals(m)
    ensures KeepsGlobals(m)
  {
    SpacesAfter(m);
    var outside, outside' := GlobalImports(m.imports), GlobalImports(InjectModule(m).imports);
    forall x: nat | x < |outside'| ensures outside'[x] == GAS_GLOBAL {
      if x < |outside| { assert outside[x] in outside; }
    }
    forall x: nat | x < |outside| + |m.globals| ensures ResolveGlobal(InjectModule(m), x + 1) == ResolveGlobal(m, x) {
      if x < |outside| { assert outside[x] in outside && outside'[x + 1] == GAS_GLOBAL; }
    }
    assert outside'[0] == GAS_GLOBAL;
  }

  lemma {:induction false} GlobalsAllGas(m: Module, x: nat)
    requires KeepsGlobals(m) && x < |GlobalImports(m.imports)|
    ensures GlobalImports(m.imports)[x] == GAS_GLOBAL
  {
    SpacesAfter(m);
    var outside := GlobalImports(m.imports);
    if x == 0 {
      assert ResolveGlobal(InjectModule(m), 0) == ImportedGlobal(outside[0]);
    } else {
      GlobalsAllGas(m, x - 1);
      assert ResolveGlobal(InjectModule(m), x - 1 + 1) == ResolveGlobal(m, x - 1);
    }
  }

  predicate KeepsExport(m: Module, k: nat)
    requires k < |m.exports|
  {
    var e, e' := m.exports[k], InjectModule(m).exports[k];
    match e
    case FuncExport(x) => e'.FuncExport? && ResolveFunc(InjectModule(m), e'.x) == ResolveFunc(m, x)
    case GlobalExport(x) => e'.GlobalExport? && ResolveGlobal(InjectModule(m), e'.x) == ResolveGlobal(m, x)
    case OtherExport(_) => e' == e
  }

  /** An exported function keeps its meaning iff outOfGas was already imported, or the function is one the
      module defines (or the next import is the same one again).  An exported global keeps its meaning iff
      it is an imported one: a module's own exported globals are off by one. */
  lemma ExportKept(m: Module, k: nat)
    requires k < |m.exports|
    ensures
      var outside := FuncImports(m.imports);
      match m.exports[k] {
        case FuncExport(x) => x < |outside| + |m.funcs| ==>
          (KeepsExport(m, k) <==>
           InfoFor(m).foundGasFunction || x >= |outside| || (x + 1 < |outside| && outside[x + 1] == outside[x]))
        case GlobalExport(x) => x < |GlobalImports(m.imports)| + |m.globals| && Distinct(m.globals) ==>
          (KeepsExport(m, k) <==> x < |GlobalImports(m.imports)|)
        case OtherExport(_) => KeepsExport(m, k)
      }
  {
    assert InjectModule(m).exports[k] == ShiftExport(InfoFor(m), m.exports[k]);
    match m.exports[k]
    case FuncExport(x) => if x < |FuncImports(m.imports)| + |m.funcs| { FuncExportKept(m, x); }
    case GlobalExport(_) => SpacesAfter(m);
    case OtherExport(_) =>
  }

  lemma FuncExportKept(m: Module, x: nat)
    requires x < |FuncImports(m.imports)| + |m.funcs|
    ensures
      var outside := FuncImports(m.imports);
      ResolveFunc(InjectModule(m), if InfoFor(m).foundGasFunction then x else x + 1) == ResolveFunc(m, x) <==>
      InfoFor(m).foundGasFunction || x >= |outside| || (x + 1 < |outside| && outside[x + 1] == outside[x])
  {
    SpacesAfter(m);
    CountFuncs(m.imports);
    var outside := FuncImports(m.imports);
    if x < |outside| && !InfoFor(m).foundGasFunction { assert outside[x] in outside && !outside[x].isOutOfGas; }
  }

  predicate Distinct(names: seq<nat>) {
    forall i, j :: 0 <= i < j < |names| ==> names[i] != names[j]
  }

  predicate KeepsStart(m: Module) {
    m.start.Some? ==>
      InjectModule(m).start.Some? &&
      ResolveFunc(InjectModule(m), InjectModule(m).start.value) == ResolveFunc(m, m.start.value)
  }

  /** The start function is not renumbered: it is kept iff there is none, it is imported, or outOfGas was
      already imported. */
  lemma StartKept(m: Module)
    requires m.start.Some? ==> m.start.value < |FuncImports(m.imports)| + |m.funcs|
    ensures KeepsStart(m) <==>
            m.start.None? || InfoFor(m).foundGasFunction || m.start.value < |FuncImports(m.imports)|
  {
    SpacesAfter(m);
  }

  /** A module with ready imports, for example functions only, that exports only functions it defines and no globals,
      and has no start function, keeps every reference, whether or not it already imports outOfGas. */
  lemma AllReferencesKept(m: Module)
    requires ReadyImports(m) && m.start.None?
    requires forall k :: 0 <= k < |m.exports| ==>
      !m.exports[k].GlobalExport? &&
      (m.exports[k].FuncExport? ==>
        |FuncImports(m.imports)| <= m.exports[k].x < |FuncImports(m.imports)| + |m.funcs|)
    ensures KeepsCalls(m) && CallsOutOfGas(m) && KeepsGlobals(m) && KeepsStart(m)
    ensures forall k :: 0 <= k < |m.exports| ==> KeepsExport(m, k)
    ensures forall k :: 0 <= k < |m.table| ==> KeepsElem(m, k)
  {
    TargetsKeptIff(m);
    GlobalsKept(m);
    StartKept(m);
    forall k | 0 <= k < |m.exports| ensures KeepsExport(m, k) {
      ExportKept(m, k);
    }
    forall k | 0 <= k < |m.table| ensures KeepsElem(m, k) {
      if m.table[k].Some? { ElemOfIndex(m, k); }
    }
  }
}
