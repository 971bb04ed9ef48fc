/** What the opcodes mean (WebAssembly Core Specification 1.0, sections 3.3.1, 4.3 and 5.4.5): the operand types of the
    numeric instructions, which of them the meter refuses, and what the others cost. */
module Opcodes {
  import opened Options
  import opened Metric
  import opened Wasm
  import opened GasInjector
  import Validation

  // ---------- operand types ----------

  function Unary1(a: ValueType, r: ValueType): Option<FuncType> { Some(FuncType([a], [r])) }

  function Binary2(a: ValueType, r: ValueType): Option<FuncType> { Some(FuncType([a, a], [r])) }

  /** The type of a numeric instruction: tests and comparisons, arithmetic, conversions, sign extensions. */
  function NumericType(op: Opcode): Option<FuncType> {
    if op < 0x45 || op > 0xC4 then None
    else if op <= 0x66 then TestType(op)
    else if op <= 0xA6 then ArithmeticType(op)
    else if op <= 0xBF then ConversionType(op)
    else if op <= 0xC1 then Unary1(TI32, TI32)
    else Unary1(TI64, TI64)
  }

  /** eqz, and ten comparisons, for i32 and i64; six comparisons for f32 and f64. */
  function TestType(op: Opcode): Option<FuncType> {
    if op == 0x45 then Unary1(TI32, TI32)
    else if op <= 0x4F then Binary2(TI32, TI32)
    else if op == 0x50 then Unary1(TI64, TI32)
    else if op <= 0x5A then Binary2(TI64, TI32)
    else if op <= 0x60 then Binary2(TF32, TI32)
    else Binary2(TF64, TI32)
  }

  /** Three unary and 15 binary operators for i32 and i64; seven of each for f32 and f64. */
  function ArithmeticType(op: Opcode): Option<FuncType> {
    if op <= 0x69 then Unary1(TI32, TI32)
    else if op <= 0x78 then Binary2(TI32, TI32)
    else if op <= 0x7B then Unary1(TI64, TI64)
    else if op <= 0x8A then Binary2(TI64, TI64)
    else if op <= 0x91 then Unary1(TF32, TF32)
    else if op <= 0x98 then Binary2(TF32, TF32)
    else if op <= 0x9F then Unary1(TF64, TF64)
    else Binary2(TF64, TF64)
  }

  function ConversionType(op: Opcode): Option<FuncType> {
    if op == 0xA7 then Unary1(TI64, TI32)                 // wrap
    else if op <= 0xA9 then Unary1(TF32, TI32)            // trunc
    else if op <= 0xAB then Unary1(TF64, TI32)
    else if op <= 0xAD then Unary1(TI32, TI64)            // extend
    else if op <= 0xAF then Unary1(TF32, TI64)            // trunc
    else if op <= 0xB1 then Unary1(TF64, TI64)
    else if op <= 0xB3 then Unary1(TI32, TF32)            // convert
    else if op <= 0xB5 then Unary1(TI64, TF32)
    else if op == 0xB6 then Unary1(TF64, TF32)            // demote
    else if op <= 0xB8 then Unary1(TI32, TF64)            // convert
    else if op <= 0xBA then Unary1(TI64, TF64)
    else if op == 0xBB then Unary1(TF32, TF64)            // promote
    else if op == 0xBC then Unary1(TF32, TI32)            // reinterpret
    else if op == 0xBD then Unary1(TF64, TI64)
    else if op == 0xBE then Unary1(TI32, TF32)
    else Unary1(TI64, TF64)
  }

  /** Validation with these types is what the charges need. */
  lemma TypesAreStandard(sigs: Validation.Sigs)
    requires forall op: Opcode :: NumericType(op).Some? ==> sigs(op) == NumericType(op).value
    ensures Validation.Standard(sigs)
  {
    assert NumericType(I64_SUB) == Some(FuncType([TI64, TI64], [TI64]));
    assert NumericType(I64_LE_S) == Some(FuncType([TI64, TI64], [TI32]));
  }

  // ---------- which instructions are refused ----------

  predicate IsFloat(t: ValueType) { t == TF32 || t == TF64 }

  predicate HasFloat(sig: FuncType) {
    (exists i :: 0 <= i < |sig.params| && IsFloat(sig.params[i])) ||
    (exists i :: 0 <= i < |sig.results| && IsFloat(sig.results[i]))
  }

  /** i32.trunc and i64.trunc, of f32 and f64, signed and unsigned. */
  predicate Truncates(op: Opcode) { 0xA8 <= op <= 0xAB || 0xAE <= op <= 0xB1 }

  lemma UnaryFloat(a: ValueType, r: ValueType)
    ensures HasFloat(FuncType([a], [r])) <==> IsFloat(a) || IsFloat(r)
    ensures HasFloat(FuncType([a, a], [r])) <==> IsFloat(a) || IsFloat(r)
  {
    var one, two := FuncType([a], [r]), FuncType([a, a], [r]);
    assert one.params[0] == a && two.params[0] == a && one.results[0] == r && two.results[0] == r;
  }

  /** The numeric instructions that are refused are those that take or give a float, but for the truncations. */
  lemma RefusedIff(op: Opcode)
    requires NumericType(op).Some?
    ensures IsFloatOpcode(op) <==> HasFloat(NumericType(op).value) && !Truncates(op)
  {
    var sig := NumericType(op).value;
    UnaryFloat(sig.params[0], sig.results[0]);
  }

  /** The truncations take a float and are let through. */
  lemma TruncationsPass(op: Opcode)
    requires Truncates(op)
    ensures NumericType(op).Some?
    ensures IsFloat(NumericType(op).value.params[0]) && !IsFloat(NumericType(op).value.results[0])
    ensures !IsFloatOpcode(op)
  {
  }

  /** So are loads and stores of floats, although they count as floating point. */
  lemma FloatMemoryPasses(op: Opcode, offset: nat, loc: Option<nat>)
    requires 0x2A <= op <= 0x2B || 0x38 <= op <= 0x39
    ensures IsFloatOpcode(op)
    ensures AllowedExpr(Expr(loc, Load(op, offset))) && AllowedExpr(Expr(loc, Store(op, offset)))
  {
  }

  /** Numeric instructions have numeric opcodes. */
  predicate NumericCode(code: seq<Expr>) { code == [] || (NumericExpr(code[0]) && NumericCode(code[1..])) }

  predicate NumericExpr(e: Expr) {
    match e.op
    case Unary(op) => NumericType(op).Some?
    case Convert(op) => NumericType(op).Some?
    case Binary(op) => NumericType(op).Some?
    case Compare(op) => NumericType(op).Some?
    case Block(_, body) => NumericCode(body)
    case Loop(_, body) => NumericCode(body)
    case If(_, thn, els) => NumericCode(thn) && NumericCode(els)
    case _ => true
  }

  predicate Integral(op: Opcode) { NumericType(op).Some? && (!HasFloat(NumericType(op).value) || Truncates(op)) }

  /** No instruction, nested ones included, is unsupported, is a float constant, or takes or gives a float; but for the
      truncations, and for what may move floats without naming them. */
  predicate FloatFree(code: seq<Expr>) { code == [] || (FloatFreeExpr(code[0]) && FloatFree(code[1..])) }

  predicate FloatFreeExpr(e: Expr) {
    match e.op
    case Const(v) => v.I32? || v.I64?
    case Unary(op) => Integral(op)
    case Convert(op) => Integral(op)
    case Binary(op) => Integral(op)
    case Compare(op) => Integral(op)
    case Block(_, body) => FloatFree(body)
    case Loop(_, body) => FloatFree(body)
    case If(_, thn, els) => FloatFree(thn) && FloatFree(els)
    case Unsupported => false
    case _ => true
  }

  lemma {:induction false} AllowedIff(code: seq<Expr>)
    requires NumericCode(code)
    ensures Allowed(code) <==> FloatFree(code)
    decreases code
  {
    if code != [] {
      AllowedExprIff(code[0]);
      AllowedIff(code[1..]);
    }
  }

  lemma {:induction false} AllowedExprIff(e: Expr)
    requires NumericExpr(e)
    ensures AllowedExpr(e) <==> FloatFreeExpr(e)
    decreases e
  {
    match e.op
    case Unary(op) => RefusedIff(op);
    case Convert(op) => RefusedIff(op);
    case Binary(op) => RefusedIff(op);
    case Compare(op) => RefusedIff(op);
    case Block(_, body) => AllowedIff(body);
    case Loop(_, body) => AllowedIff(body);
    case If(_, thn, els) => AllowedIff(thn); AllowedIff(els);
    case _ =>
  }

  /** The pass answers Success iff no function has such an instruction. */
  method MeterModule(m: Module) returns (status: Status, r: Module)
    requires forall k | 0 <= k < |m.funcs| :: NumericCode(m.funcs[k].body)
    ensures status.Success? <==> forall k | 0 <= k < |m.funcs| :: FloatFree(m.funcs[k].body)
    ensures status.Success? ==> r == InjectModule(m)
  {
    status, r := InjectMeter(m);
    forall k | 0 <= k < |m.funcs| ensures Allowed(m.funcs[k].body) <==> FloatFree(m.funcs[k].body) {
      AllowedIff(m.funcs[k].body);
    }
  }

  // ---------- prices ----------

  datatype IntOp =
    | Clz | Ctz | Popcnt
    | Add | Sub | Mul | DivS | DivU | RemS | RemU | And | Or | Xor | Shl | ShrS | ShrU | Rotl | Rotr

  /** The opcode of an integer operator. */
  function OpcodeOf(wide: bool, op: IntOp): Opcode {
    var k := match op {
      case Clz => 0x67 case Ctz => 0x68 case Popcnt => 0x69
      case Add => 0x6A case Sub => 0x6B case Mul => 0x6C
      case DivS => 0x6D case DivU => 0x6E case RemS => 0x6F case RemU => 0x70
      case And => 0x71 case Or => 0x72 case Xor => 0x73
      case Shl => 0x74 case ShrS => 0x75 case ShrU => 0x76 case Rotl => 0x77 case Rotr => 0x78
    };
    if wide then k + 0x12 else k
  }

  predicate Divides(op: IntOp) { op.DivS? || op.DivU? || op.RemS? || op.RemU? }

  predicate Shifts(op: IntOp) { op.Shl? || op.ShrS? || op.ShrU? || op.Rotl? || op.Rotr? }

  /** Divisions and remainders cost 80, counting trailing zeros 6, multiplications and other counts 3, shifts and
      rotations 2, the rest 1; for both widths. */
  lemma IntegerPrices(wide: bool, op: IntOp)
    ensures Price(Binary(OpcodeOf(wide, op))) == Price(Unary(OpcodeOf(wide, op)))
    ensures Price(Binary(OpcodeOf(wide, op))) ==
      if Divides(op) then 80
      else if op.Ctz? then 6
      else if op.Mul? || op.Clz? || op.Popcnt? then 3
      else if Shifts(op) then 2
      else 1
    ensures NumericType(OpcodeOf(wide, op)) ==
      var t := if wide then TI64 else TI32;
      if op.Clz? || op.Ctz? || op.Popcnt? then Unary1(t, t) else Binary2(t, t)
  {
  }

  /** Integer tests and comparisons cost 1, the three conversions between integers 3; other numeric instructions, such
      as truncations and sign extensions, are not in the table. */
  lemma NumericPrices(op: Opcode)
    requires NumericType(op).Some? && (forall wide, i :: OpcodeOf(wide, i) != op) && !IsFloatOpcode(op)
    ensures
      var sig := NumericType(op).value;
      Price(Convert(op)) ==
      if op <= 0x5A then 1
      else if !HasFloat(sig) && sig.params[0] != sig.results[0] then 3
      else UNPRICED
  {
    var sig := NumericType(op).value;
    UnaryFloat(sig.params[0], sig.results[0]);
    if 0x67 <= op <= 0x8A { IntOpcodes(op); }
  }

  lemma IntOpcodes(op: Opcode)
    requires 0x67 <= op <= 0x8A
    ensures exists wide, i :: OpcodeOf(wide, i) == op
  {
    var wide := op >= 0x79;
    var k := if wide then op - 0x12 else op;
    var i := if k == 0x67 then Clz else if k == 0x68 then Ctz else if k == 0x69 then Popcnt
      else if k == 0x6A then Add else if k == 0x6B then Sub else if k == 0x6C then Mul
      else if k == 0x6D then DivS else if k == 0x6E then DivU else if k == 0x6F then RemS else if k == 0x70 then RemU
      else if k == 0x71 then And else if k == 0x72 then Or else if k == 0x73 then Xor
      else if k == 0x74 then Shl else if k == 0x75 then ShrS else if k == 0x76 then ShrU
      else if k == 0x77 then Rotl else Rotr;
    assert OpcodeOf(wide, i) == op;
  }

  /** Jumps, calls and returns. */
  lemma JumpPrices(x: nat, ns: seq<nat>, sig: FuncType)
    ensures Price(Br(x)) == Price(BrTable(ns, x)) == Price(Return) == Price(CallIndirect(sig)) == 2
    ensures Price(BrIf(x)) == Price(Call(x)) == 3
  {
  }

  /** Blocks are free, but for an else branch. */
  lemma BlockPrices(results: seq<ValueType>, body: seq<Expr>, els: seq<Expr>)
    ensures Price(Block(results, body)) == Price(Loop(results, body)) == Price(Nop) == Price(Unreachable) == 0
    ensures Price(If(results, body, els)) == if els == [] then 0 else 2
  {
  }

  /** Constants are free; what moves one value costs 3. */
  lemma MovePrices(x: nat, n: int, m: int)
    ensures Price(Const(I32(n))) == Price(Const(I64(m))) == 0
    ensures Price(LocalGet(x)) == Price(LocalSet(x)) == Price(LocalTee(x)) == 3
    ensures Price(GlobalGet(x)) == Price(GlobalSet(x)) == Price(Drop) == Price(Select) == Price(MemorySize) == 3
  {
  }

  /** Integer loads and stores. */
  lemma MemoryPrices(op: Opcode, offset: nat)
    ensures op == 0x28 || op == 0x29 || 0x2C <= op <= 0x35 ==> Price(Load(op, offset)) == 3
    ensures op == 0x36 || op == 0x37 || 0x3A <= op <= 0x3E ==> Price(Store(op, offset)) == 3
  {
  }
}
