/** Validation of code (section 3.3 of the WebAssembly Core Specification 1.0, by the algorithm of its appendix):
    metered code has the type of the code it came from. */
module Validation {
  import opened Options
  import opened Metric
  import opened Wasm
  import opened GasInjector
  import Metering
  import opened Renumbering

  datatype GlobalType = GlobalType(mutable: bool, content: ValueType)

  datatype Context = Context(
    funcs: seq<FuncType>, globals: seq<GlobalType>, locals: seq<ValueType>,
    labels: seq<seq<ValueType>>, results: seq<ValueType>)

  /** The types of numeric and memory instructions are given, but for the two that charges use. */
  type Sigs = Opcode -> FuncType

  predicate Standard(sigs: Sigs) {
    sigs(I64_SUB) == FuncType([TI64, TI64], [TI64]) && sigs(I64_LE_S) == FuncType([TI64, TI64], [TI32])
  }

  // ---------- the stack of operand types ----------

  /** None is a value of any type; an open stack has as many of those below as are asked for. */
  datatype Stack = Stack(vals: seq<Option<ValueType>>, open: bool)

  function PopType(s: Stack, t: Option<ValueType>): Option<Stack> {
    var n := |s.vals|;
    if n == 0 then (if s.open then Some(s) else None)
    else if t == None || s.vals[n - 1] == None || s.vals[n - 1] == t then Some(s.(vals := s.vals[..n - 1]))
    else None
  }

  function PopTypes(s: Stack, ts: seq<ValueType>): Option<Stack>
    decreases |ts|
  {
    if ts == [] then Some(s)
    else
      match PopType(s, Some(ts[|ts| - 1]))
      case None => None
      case Some(below) => PopTypes(below, ts[..|ts| - 1])
  }

  function PushType(s: Stack, t: Option<ValueType>): Stack { s.(vals := s.vals + [t]) }

  function PushTypes(s: Stack, ts: seq<ValueType>): Stack {
    s.(vals := s.vals + seq(|ts|, i requires 0 <= i < |ts| => Some(ts[i])))
  }

  function Apply(s: Stack, sig: FuncType): Option<Stack> {
    match PopTypes(s, sig.params)
    case None => None
    case Some(below) => Some(PushTypes(below, sig.results))
  }

  /** After an unconditional branch. */
  function Leaving(s: Option<Stack>): Option<Stack> { if s.None? then None else Some(Stack([], true)) }

  function TopType(s: Stack): Option<ValueType> { if s.vals == [] then None else s.vals[|s.vals| - 1] }

  function TypeOf(v: Value): ValueType {
    match v case I32(_) => TI32 case I64(_) => TI64 case F32(_) => TF32 case F64(_) => TF64
  }

  // ---------- code ----------

  function CheckSeq(sigs: Sigs, c: Context, code: seq<Expr>, s: Stack): Option<Stack>
    decreases code, 0
  {
    if code == [] then Some(s)
    else
      match CheckExpr(sigs, c, code[0], s)
      case None => None
      case Some(t) => CheckSeq(sigs, c, code[1..], t)
  }

  /** The code of a block leaves the results and nothing else. */
  predicate CheckBody(sigs: Sigs, c: Context, code: seq<Expr>, results: seq<ValueType>)
    decreases code, 1
  {
    match CheckSeq(sigs, c, code, Stack([], false))
    case None => false
    case Some(s) => Ends(s, results)
  }

  predicate Ends(s: Stack, results: seq<ValueType>) {
    var rest := PopTypes(s, results);
    rest.Some? && rest.value.vals == []
  }

  function Within(c: Context, ends: seq<ValueType>): Context { c.(labels := [ends] + c.labels) }

  function CheckExpr(sigs: Sigs, c: Context, e: Expr, s: Stack): Option<Stack>
    decreases e, 0
  {
    match e.op
    case Block(results, body) =>
      if CheckBody(sigs, Within(c, results), body, results) then Some(PushTypes(s, results)) else None
    case Loop(results, body) =>
      if CheckBody(sigs, Within(c, []), body, results) then Some(PushTypes(s, results)) else None
    case If(results, thn, els) =>
      (match PopType(s, Some(TI32))
       case None => None
       case Some(below) =>
         if CheckBody(sigs, Within(c, results), thn, results) && CheckBody(sigs, Within(c, results), els, results)
         then Some(PushTypes(below, results)) else None)
    case _ => CheckFlat(sigs, c, e.op, s)
  }

  /** Every instruction that nests no code. */
  function CheckFlat(sigs: Sigs, c: Context, op: Op, s: Stack): Option<Stack> {
    match op
    case Const(v) => Some(PushType(s, Some(TypeOf(v))))
    case LocalGet(x) => if x < |c.locals| then Some(PushType(s, Some(c.locals[x]))) else None
    case LocalSet(x) => if x < |c.locals| then PopType(s, Some(c.locals[x])) else None
    case LocalTee(x) => if x < |c.locals| then Apply(s, FuncType([c.locals[x]], [c.locals[x]])) else None
    case GlobalGet(x) => if x < |c.globals| then Some(PushType(s, Some(c.globals[x].content))) else None
    case GlobalSet(x) =>
      if x < |c.globals| && c.globals[x].mutable then PopType(s, Some(c.globals[x].content)) else None
    case Unary(code) => Apply(s, sigs(code))
    case Convert(code) => Apply(s, sigs(code))
    case Binary(code) => Apply(s, sigs(code))
    case Compare(code) => Apply(s, sigs(code))
    case Load(code, _) => Apply(s, sigs(code))
    case Store(code, _) => Apply(s, sigs(code))
    case Drop => PopType(s, None)
    case Select => CheckSelect(PopType(s, Some(TI32)))
    case Nop => Some(s)
    case Unreachable => Some(Stack([], true))
    case MemorySize => Some(PushType(s, Some(TI32)))
    case MemoryGrow => Apply(s, FuncType([TI32], [TI32]))
    case Br(n) => if n < |c.labels| then Leaving(PopTypes(s, c.labels[n])) else None
    case BrIf(n) =>
      if n < |c.labels| then Apply(s, FuncType(c.labels[n] + [TI32], c.labels[n])) else None
    case BrTable(ns, n) =>
      if n < |c.labels| && forall i | 0 <= i < |ns| :: ns[i] < |c.labels| && c.labels[ns[i]] == c.labels[n]
      then Leaving(PopTypes(s, c.labels[n] + [TI32])) else None
    case Return => Leaving(PopTypes(s, c.results))
    case Call(f) => if f < |c.funcs| then Apply(s, c.funcs[f]) else None
    case CallIndirect(sig) => Apply(s, FuncType(sig.params + [TI32], sig.results))
    case _ => None
  }

  /** Two operands of one type, either of which is chosen. */
  function CheckSelect(s: Option<Stack>): Option<Stack> {
    if s.None? then None
    else
      var a := TopType(s.value);
      match PopType(s.value, None)
      case None => None
      case Some(below) =>
        match PopType(below, a)
        case None => None
        case Some(rest) => Some(PushType(rest, if a.Some? then a else TopType(below)))
  }

  // ---------- charges ----------

  const NO_TYPE: FuncType := FuncType([], [])
  const GAS_TYPE: GlobalType := GlobalType(true, TI64)

  /** The charge is valid, and then neither needs nor leaves operands, iff outOfGas takes and gives nothing. */
  lemma ChargeValidIff(sigs: Sigs, c: Context, info: ImportsInfo, cost: int, rest: seq<Expr>, s: Stack)
    requires Standard(sigs) && info.globalGasIndex < |c.globals| && info.gasFuncIndex < |c.funcs|
    requires c.globals[info.globalGasIndex] == GAS_TYPE
    ensures CheckSeq(sigs, c, Charge(info, cost) + rest, s) ==
            if c.funcs[info.gasFuncIndex] == NO_TYPE then CheckSeq(sigs, c, rest, s) else None
  {
    var cs := Charge(info, cost);
    var test := [cs[4]] + ([cs[5]] + ([cs[6]] + ([cs[7]] + rest)));
    assert cs + rest == [cs[0]] + ([cs[1]] + ([cs[2]] + ([cs[3]] + test)));
    GasCombined(sigs, c, info, cost, I64_SUB, [cs[3]] + test, s);
    CheckCons(sigs, c, cs[3], test, PushType(s, Some(TI64)));
    PushedPops(s, TI64);
    GasCombined(sigs, c, info, 0, I64_LE_S, [cs[7]] + rest, s);
    CheckCons(sigs, c, cs[7], rest, PushType(s, Some(TI32)));
    PushedPops(s, TI32);
    CallValidIff(sigs, Within(c, []), info.gasFuncIndex);
    assert PushTypes(s, []) == s;
  }

  /** Gas combined with a constant. */
  lemma GasCombined(sigs: Sigs, c: Context, info: ImportsInfo, cost: int, code: Opcode, rest: seq<Expr>, s: Stack)
    requires info.globalGasIndex < |c.globals| && c.globals[info.globalGasIndex] == GAS_TYPE
    requires sigs(code).params == [TI64, TI64] && |sigs(code).results| == 1
    ensures CheckSeq(sigs, c, [Inserted(GlobalGet(info.globalGasIndex))] +
              ([Inserted(Const(I64(cost)))] + ([Inserted(Binary(code))] + rest)), s) ==
            CheckSeq(sigs, c, rest, PushType(s, Some(sigs(code).results[0])))
  {
    var s1 := PushType(s, Some(TI64));
    var op, const1 := Inserted(Binary(code)), Inserted(Const(I64(cost)));
    CheckCons(sigs, c, Inserted(GlobalGet(info.globalGasIndex)), [const1] + ([op] + rest), s);
    CheckCons(sigs, c, const1, [op] + rest, s1);
    CheckCons(sigs, c, op, rest, PushType(s1, Some(TI64)));
    Operator(s, [TI64], sigs(code));
  }

  lemma PushedPops(s: Stack, t: ValueType)
    ensures PopType(PushType(s, Some(t)), Some(t)) == Some(s)
  {
    assert PushType(s, Some(t)).vals[..|s.vals|] == s.vals;
  }

  lemma CheckCons(sigs: Sigs, c: Context, e: Expr, rest: seq<Expr>, s: Stack)
    ensures CheckSeq(sigs, c, [e] + rest, s) ==
            var t := CheckExpr(sigs, c, e, s); if t.Some? then CheckSeq(sigs, c, rest, t.value) else None
  {
    assert ([e] + rest)[1..] == rest;
  }

  /** A binary operator on two operands of one type. */
  lemma Operator(s: Stack, t: seq<ValueType>, sig: FuncType)
    requires |t| == 1 && sig.params == t + t && |sig.results| == 1
    ensures Apply(PushType(PushType(s, Some(t[0])), Some(t[0])), sig) == Some(PushType(s, Some(sig.results[0])))
  {
    var s1 := PushType(s, Some(t[0]));
    var s2 := PushType(s1, Some(t[0]));
    assert (t + t)[..1] == t && t[..0] == [];
    assert s2.vals[..|s2.vals| - 1] == s1.vals && s1.vals[..|s1.vals| - 1] == s.vals;
    assert PopTypes(s1, t) == Some(s);
    assert PopTypes(s2, t + t) == Some(s);
    assert PushTypes(s, sig.results).vals == PushType(s, Some(sig.results[0])).vals;
  }

  lemma CallValidIff(sigs: Sigs, c: Context, f: nat)
    requires f < |c.funcs|
    ensures CheckBody(sigs, c, [Inserted(Call(f))], []) <==> c.funcs[f] == NO_TYPE
    ensures CheckBody(sigs, c, [], [])
  {
    var call, s := Inserted(Call(f)), Stack([], false);
    assert [call] == [call] + [];
    CheckCons(sigs, c, call, [], s);
    assert CheckSeq(sigs, c, [call], s) == Apply(s, c.funcs[f]);
    if c.funcs[f].params == [] { assert Apply(s, c.funcs[f]) == Some(PushTypes(s, c.funcs[f].results)); }
  }

  // ---------- the whole pass ----------

  /** The contexts of a body before and after the pass. */
  ghost predicate Shifted(info: ImportsInfo, c: Context, c': Context) {
    && info.globalGasIndex == 0 && c'.globals == [GAS_TYPE] + c.globals
    && c.locals <= c'.locals && c'.labels == c.labels && c'.results == c.results
    && info.gasFuncIndex < |c'.funcs| && c'.funcs[info.gasFuncIndex] == NO_TYPE
    && forall f: nat :: SameType(info, c, c', f)
  }

  predicate SameType(info: ImportsInfo, c: Context, c': Context, f: nat) {
    var f' := ShiftCall(info, f);
    (f < |c.funcs| <==> f' < |c'.funcs|) && (f < |c.funcs| ==> c'.funcs[f'] == c.funcs[f])
  }

  lemma ShiftedWithin(info: ImportsInfo, c: Context, c': Context, ends: seq<ValueType>)
    requires Shifted(info, c, c')
    ensures Shifted(info, Within(c, ends), Within(c', ends))
  {
    forall f: nat ensures SameType(info, Within(c, ends), Within(c', ends), f) { assert SameType(info, c, c', f); }
  }

  /** Metered code has every type that the plain code has, and no others. */
  lemma {:induction false} SeqSameType(
    sigs: Sigs, info: ImportsInfo, c: Context, c': Context, code: seq<Expr>, s: Stack)
    requires Standard(sigs) && Shifted(info, c, c') && Metering.LocalsInRange(code, |c.locals|)
    ensures CheckSeq(sigs, c', InjectSeq(info, code), s) == CheckSeq(sigs, c, code, s)
    decreases code, 1
  {
    BodySameType(sigs, info, c, c', code, s);
    var cost, body := SegCost(code), InjectBody(info, code);
    if cost > 0 {
      assert InjectSeq(info, code) == Charge(info, cost) + body;
      ChargeValidIff(sigs, c', info, cost, body, s);
    } else {
      assert InjectSeq(info, code) == body;
    }
  }

  lemma {:induction false} BodySameType(
    sigs: Sigs, info: ImportsInfo, c: Context, c': Context, code: seq<Expr>, s: Stack)
    requires Standard(sigs) && Shifted(info, c, c') && Metering.LocalsInRange(code, |c.locals|)
    ensures CheckSeq(sigs, c', InjectBody(info, code), s) == CheckSeq(sigs, c, code, s)
    decreases code, 0
  {
    if code != [] {
      var closes := Closes(code[0].op);
      var tail := if closes then InjectSeq(info, code[1..]) else InjectBody(info, code[1..]);
      CheckCons(sigs, c', InjectExpr(info, code[0]), tail, s);
      ExprSameType(sigs, info, c, c', code[0], s);
      var t := CheckExpr(sigs, c, code[0], s);
      if t.Some? {
        if closes { SeqSameType(sigs, info, c, c', code[1..], t.value); }
        else { BodySameType(sigs, info, c, c', code[1..], t.value); }
      }
    }
  }

  lemma {:induction false} ExprSameType(sigs: Sigs, info: ImportsInfo, c: Context, c': Context, e: Expr, s: Stack)
    requires Standard(sigs) && Shifted(info, c, c') && Metering.LocalsInRangeExpr(e, |c.locals|)
    ensures CheckExpr(sigs, c', InjectExpr(info, e), s) == CheckExpr(sigs, c, e, s)
    decreases e, 0
  {
    var op := e.op;
    if op.Block? {
      NestedSameType(sigs, info, c, c', op.body, op.results, op.results);
    } else if op.Loop? {
      NestedSameType(sigs, info, c, c', op.body, [], op.results);
    } else if op.If? {
      IfSameType(sigs, info, c, c', e, s);
    } else {
      FlatSameType(sigs, info, c, c', e, s);
    }
  }

  lemma {:induction false} IfSameType(sigs: Sigs, info: ImportsInfo, c: Context, c': Context, e: Expr, s: Stack)
    requires e.op.If? && Standard(sigs) && Shifted(info, c, c') && Metering.LocalsInRangeExpr(e, |c.locals|)
    ensures CheckExpr(sigs, c', InjectExpr(info, e), s) == CheckExpr(sigs, c, e, s)
    decreases e, -1
  {
    NestedSameType(sigs, info, c, c', e.op.thn, e.op.results, e.op.results);
    NestedSameType(sigs, info, c, c', e.op.els, e.op.results, e.op.results);
  }

  lemma {:induction false} NestedSameType(
    sigs: Sigs, info: ImportsInfo, c: Context, c': Context, body: seq<Expr>, ends: seq<ValueType>,
    results: seq<ValueType>)
    requires Standard(sigs) && Shifted(info, c, c') && Metering.LocalsInRange(body, |c.locals|)
    ensures CheckBody(sigs, Within(c', ends), InjectSeq(info, body), results) ==
            CheckBody(sigs, Within(c, ends), body, results)
    decreases body, 2
  {
    ShiftedWithin(info, c, c', ends);
    SeqSameType(sigs, info, Within(c, ends), Within(c', ends), body, Stack([], false));
  }

  lemma FlatSameType(sigs: Sigs, info: ImportsInfo, c: Context, c': Context, e: Expr, s: Stack)
    requires Shifted(info, c, c') && Metering.LocalsInRangeExpr(e, |c.locals|)
    requires !e.op.Block? && !e.op.Loop? && !e.op.If?
    ensures CheckFlat(sigs, c', InjectExpr(info, e).op, s) == CheckFlat(sigs, c, e.op, s)
  {
    if e.op.Call? { assert SameType(info, c, c', e.op.f); }
  }

  /** Valid code uses only the locals there are. */
  lemma {:induction false} ValidLocals(sigs: Sigs, c: Context, code: seq<Expr>, s: Stack)
    requires CheckSeq(sigs, c, code, s).Some?
    ensures Metering.LocalsInRange(code, |c.locals|)
    decreases code
  {
    if code != [] {
      ValidLocalsExpr(sigs, c, code[0], s);
      ValidLocals(sigs, c, code[1..], CheckExpr(sigs, c, code[0], s).value);
    }
  }

  lemma {:induction false} ValidLocalsExpr(sigs: Sigs, c: Context, e: Expr, s: Stack)
    requires CheckExpr(sigs, c, e, s).Some?
    ensures Metering.LocalsInRangeExpr(e, |c.locals|)
    decreases e
  {
    var nothing := Stack([], false);
    match e.op
    case Block(results, body) => ValidLocals(sigs, Within(c, results), body, nothing);
    case Loop(_, body) => ValidLocals(sigs, Within(c, []), body, nothing);
    case If(results, thn, els) =>
      ValidLocals(sigs, Within(c, results), thn, nothing);
      ValidLocals(sigs, Within(c, results), els, nothing);
    case _ =>
  }

  // ---------- modules ----------

  function FuncTypes(m: Module): seq<FuncType> {
    seq(|FuncImports(m.imports)| + |m.funcs|, f requires 0 <= f => SigOf(m, ResolveFunc(m, f)))
  }

  function SigOf(m: Module, callee: Callee): FuncType {
    var sig := CalleeType(m, callee);
    if sig.Some? then sig.value else NO_TYPE
  }

  function BodyContext(m: Module, globals: seq<GlobalType>, fn: Func): Context {
    Context(FuncTypes(m), globals, fn.sig.params + fn.locals, [fn.sig.results], fn.sig.results)
  }

  predicate FuncValid(sigs: Sigs, m: Module, globals: seq<GlobalType>, fn: Func) {
    CheckBody(sigs, BodyContext(m, globals, fn), fn.body, fn.sig.results)
  }

  predicate ModuleValid(sigs: Sigs, m: Module, globals: seq<GlobalType>) {
    forall k | 0 <= k < |m.funcs| :: FuncValid(sigs, m, globals, m.funcs[k])
  }

  /** outOfGas, if it was imported before, takes and gives nothing. */
  predicate GasTypeOk(m: Module) {
    var found := FindOutOfGas(m.imports);
    found.Some? ==> m.imports[found.value].sig == NO_TYPE
  }

  lemma ContextShifted(m: Module, globals: seq<GlobalType>, fn: Func)
    requires ReadyImports(m) && GasTypeOk(m)
    ensures Shifted(InfoFor(m), BodyContext(m, globals, fn),
                    BodyContext(InjectModule(m), [GAS_TYPE] + globals, InjectFunc(InfoFor(m), fn)))
  {
    var info := InfoFor(m);
    var c := BodyContext(m, globals, fn);
    var c' := BodyContext(InjectModule(m), [GAS_TYPE] + globals, InjectFunc(info, fn));
    forall f: nat ensures SameType(info, c, c', f) { TypeKept(m, f); }
    GasFuncType(m);
    assert fn.sig.params + (fn.locals + [TI32]) == (fn.sig.params + fn.locals) + [TI32];
  }

  /** A function keeps its type under its new index. */
  lemma TypeKept(m: Module, f: nat)
    requires ReadyImports(m)
    ensures var f' := ShiftCall(InfoFor(m), f);
            && (f < |FuncTypes(m)| <==> f' < |FuncTypes(InjectModule(m))|)
            && (f < |FuncTypes(m)| ==> FuncTypes(InjectModule(m))[f'] == FuncTypes(m)[f])
  {
    CallsKeepTarget(m, f);
    assert KeepsIndex(m, f);
    InRange(m, f);
    InRange(InjectModule(m), ShiftCall(InfoFor(m), f));
    SigKept(m, ResolveFunc(m, f));
  }

  lemma InRange(m: Module, f: nat)
    ensures f < |FuncTypes(m)| <==> ResolveFunc(m, f) != NoSuchFunction
  {
  }

  lemma SigKept(m: Module, callee: Callee)
    ensures SigOf(InjectModule(m), callee) == SigOf(m, callee)
  {
  }

  lemma GasFuncType(m: Module)
    requires ReadyImports(m) && GasTypeOk(m)
    ensures InfoFor(m).gasFuncIndex < |FuncTypes(InjectModule(m))|
    ensures FuncTypes(InjectModule(m))[InfoFor(m).gasFuncIndex] == NO_TYPE
  {
    var f := InfoFor(m).gasFuncIndex;
    InRange(InjectModule(m), f);
    GasImport(m);
  }

  /** The metered module is valid, with the gas global in front, iff the module is, up to locals out of range, one of
      which the pass brings into range. */
  lemma ModuleSameType(sigs: Sigs, m: Module, globals: seq<GlobalType>)
    requires Standard(sigs) && ReadyImports(m) && GasTypeOk(m)
    ensures ModuleValid(sigs, m, globals) <==>
            ModuleValid(sigs, InjectModule(m), [GAS_TYPE] + globals) &&
            forall k | 0 <= k < |m.funcs| :: Metering.LocalsInRange(m.funcs[k].body, Metering.NumLocals(m.funcs[k]))
  {
    var m', globals' := InjectModule(m), [GAS_TYPE] + globals;
    forall k | 0 <= k < |m.funcs|
      ensures FuncValid(sigs, m, globals, m.funcs[k]) <==>
              FuncValid(sigs, m', globals', m'.funcs[k]) &&
              Metering.LocalsInRange(m.funcs[k].body, Metering.NumLocals(m.funcs[k]))
    {
      FuncSameType(sigs, m, globals, m.funcs[k]);
    }
  }

  lemma FuncSameType(sigs: Sigs, m: Module, globals: seq<GlobalType>, fn: Func)
    requires Standard(sigs) && ReadyImports(m) && GasTypeOk(m)
    ensures FuncValid(sigs, m, globals, fn) <==>
            FuncValid(sigs, InjectModule(m), [GAS_TYPE] + globals, InjectFunc(InfoFor(m), fn)) &&
            Metering.LocalsInRange(fn.body, Metering.NumLocals(fn))
  {
    var info := InfoFor(m);
    var c := BodyContext(m, globals, fn);
    var c' := BodyContext(InjectModule(m), [GAS_TYPE] + globals, InjectFunc(info, fn));
    var nothing := Stack([], false);
    ContextShifted(m, globals, fn);
    if FuncValid(sigs, m, globals, fn) { ValidLocals(sigs, c, fn.body, nothing); }
    if Metering.LocalsInRange(fn.body, Metering.NumLocals(fn)) { SeqSameType(sigs, info, c, c', fn.body, nothing); }
    assert InjectFunc(info, fn).body == InjectSeq(info, fn.body);
  }

  /** A valid module of parsed and short bodies, with ready imports, is what the results about metered runs ask for. */
  lemma ValidModuleIsReady(sigs: Sigs, m: Module, globals: seq<GlobalType>)
    requires ModuleValid(sigs, m, globals) && ReadyImports(m)
    requires forall k | 0 <= k < |m.funcs| :: Parsed(m.funcs[k].body) && Metering.Size(m.funcs[k].body) <= 0x8000_0000
    ensures Metering.ReadyModule(m)
  {
    forall k | 0 <= k < |m.funcs| ensures Metering.Ready(m.funcs[k].body, Metering.NumLocals(m.funcs[k])) {
      var fn := m.funcs[k];
      assert FuncValid(sigs, m, globals, fn);
      ValidLocals(sigs, BodyContext(m, globals, fn), fn.body, Stack([], false));
      Metering.ShortCodeIsReady(fn.body, Metering.NumLocals(fn));
    }
  }
}
