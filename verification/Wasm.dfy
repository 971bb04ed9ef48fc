/** The WebAssembly 1.0 code the meter works on: syntax, index spaces, and a big-step interpreter.
    Numeric instructions other than the two the meter inserts, memory access and host calls are
    given functions (a Host), so every result holds for any of them. */
module Wasm {
  import opened Options
  import opened Metric

  datatype ValueType = TI32 | TI64 | TF32 | TF64

  datatype Value = I32(n: int) | I64(n: int) | F32(n: int) | F64(n: int)

  datatype FuncType = FuncType(params: seq<ValueType>, results: seq<ValueType>)

  datatype Op =
    | Const(value: Value)
    | LocalGet(x: nat) | LocalSet(x: nat) | LocalTee(x: nat)
    | GlobalGet(x: nat) | GlobalSet(x: nat)
    | Unary(code: Opcode) | Convert(code: Opcode) | Binary(code: Opcode) | Compare(code: Opcode)
    | Load(code: Opcode, offset: nat) | Store(code: Opcode, offset: nat)
    | Drop | Select | Nop | Unreachable | MemorySize | MemoryGrow
    | Block(results: seq<ValueType>, body: seq<Expr>)
    | Loop(results: seq<ValueType>, body: seq<Expr>)
    | If(results: seq<ValueType>, thn: seq<Expr>, els: seq<Expr>)
    | Br(depth: nat) | BrIf(depth: nat) | BrTable(depths: seq<nat>, depth: nat)
    | Call(f: nat) | CallIndirect(sig: FuncType) | Return
    | Unsupported

  /** loc is the position in the parsed byte code; an inserted expression has none. */
  datatype Expr = Expr(loc: Option<nat>, op: Op)

  datatype Func = Func(sig: FuncType, locals: seq<ValueType>, body: seq<Expr>)

  datatype ImportKind = MemoryImport | TableImport | GlobalImport
  datatype Import =
    | FuncImport(isOutOfGas: bool, id: nat, sig: FuncType)
    | OtherImport(kind: ImportKind, id: nat)

  datatype Export = FuncExport(x: nat) | GlobalExport(x: nat) | OtherExport(x: nat)

  /** table lists the element entries, each a function index; globals lists the defined globals by name. */
  datatype Module = Module(
    imports: seq<Import>,
    funcs: seq<Func>,
    globals: seq<nat>,
    table: seq<Option<nat>>,
    exports: seq<Export>,
    start: Option<nat>)

  // ---------- index spaces (section 2.5.1 of the WebAssembly Core Specification 1.0) ----------

  datatype Callee = Outside(imported: Import) | Inside(k: nat) | NoSuchFunction

  function FuncImports(imports: seq<Import>): seq<Import> {
    if imports == [] then []
    else (if imports[0].FuncImport? then [imports[0]] else []) + FuncImports(imports[1..])
  }

  /** The entity a function index denotes: imports come first, then the module's own functions. */
  function ResolveFunc(m: Module, f: nat): Callee {
    var outside := FuncImports(m.imports);
    if f < |outside| then Outside(outside[f])
    else if f - |outside| < |m.funcs| then Inside(f - |outside|)
    else NoSuchFunction
  }

  predicate AllFuncImports(imports: seq<Import>) {
    forall i :: 0 <= i < |imports| ==> imports[i].FuncImport?
  }

  // ---------- run-time state ----------

  type Memory = seq<bv8>

  /** spent totals the prices, and fuel counts down the steps, of the parsed instructions executed. */
  datatype State = State(
    stack: seq<Value>, locals: seq<Value>, globals: seq<Value>, mem: Memory,
    spent: nat, fuel: nat)

  datatype Tag =
    | Next          // fell through
    | Branch(n: nat) // br to the n-th enclosing label
    | Ret
    | Trap
    | Invalid       // stack or index shape that validation rules out
    | NoGas         // outOfGas was called; it does not return
    | Cut           // the fuel ran out

  datatype Outcome = Outcome(tag: Tag, st: State)

  datatype Host = Host(
    unary: (Opcode, Value) -> Option<Value>,
    binary: (Opcode, Value, Value) -> Option<Value>,
    load: (Opcode, nat, Value, Memory) -> Option<Value>,
    store: (Opcode, nat, Value, Value, Memory) -> Option<Memory>,
    size: Memory -> Value,
    grow: (Memory, Value) -> (Memory, Value),
    call: (nat, seq<Value>, Memory) -> Option<(seq<Value>, Memory)>)

  const TWO63: int := 0x8000_0000_0000_0000
  const TWO64: int := 0x1_0000_0000_0000_0000

  /** Two's complement wrap-around to 64 bits. */
  function Wrap64(n: int): int { (n + TWO63) % TWO64 - TWO63 }

  function BinaryValue(h: Host, code: Opcode, a: Value, b: Value): Option<Value> {
    if code == I64_SUB && a.I64? && b.I64? then Some(I64(Wrap64(a.n - b.n)))
    else if code == I64_LE_S && a.I64? && b.I64? then Some(I32(if a.n <= b.n then 1 else 0))
    else h.binary(code, a, b)
  }

  function Top(s: seq<Value>): Value requires s != [] { s[|s| - 1] }

  function Under(s: seq<Value>, n: nat): seq<Value> requires n <= |s| { s[..|s| - n] }

  function Last(s: seq<Value>, n: nat): seq<Value> requires n <= |s| { s[|s| - n..] }

  function Push(st: State, s: seq<Value>, v: Value): Outcome { Outcome(Next, st.(stack := s + [v])) }

  function PushOrTrap(st: State, s: seq<Value>, v: Option<Value>): Outcome {
    match v case Some(x) => Push(st, s, x) case None => Outcome(Trap, st)
  }

  /** Every instruction that neither branches, calls nor nests. */
  function Plain(h: Host, op: Op, st: State): (o: Outcome)
    ensures o.st.fuel == st.fuel && o.st.spent == st.spent
    ensures !o.tag.Branch? && o.tag != Ret && o.tag != NoGas && o.tag != Cut
  {
    var s := st.stack;
    match op
    case Const(v) => Push(st, s, v)
    case LocalGet(x) => if x < |st.locals| then Push(st, s, st.locals[x]) else Outcome(Invalid, st)
    case LocalSet(x) =>
      if x < |st.locals| && s != [] then
        Outcome(Next, st.(stack := Under(s, 1), locals := st.locals[x := Top(s)]))
      else Outcome(Invalid, st)
    case LocalTee(x) =>
      if x < |st.locals| && s != [] then Outcome(Next, st.(locals := st.locals[x := Top(s)]))
      else Outcome(Invalid, st)
    case GlobalGet(x) => if x < |st.globals| then Push(st, s, st.globals[x]) else Outcome(Invalid, st)
    case GlobalSet(x) =>
      if x < |st.globals| && s != [] then
        Outcome(Next, st.(stack := Under(s, 1), globals := st.globals[x := Top(s)]))
      else Outcome(Invalid, st)
    case Unary(code) =>
      if s == [] then Outcome(Invalid, st) else PushOrTrap(st, Under(s, 1), h.unary(code, Top(s)))
    case Convert(code) =>
      if s == [] then Outcome(Invalid, st) else PushOrTrap(st, Under(s, 1), h.unary(code, Top(s)))
    case Binary(code) =>
      if |s| < 2 then Outcome(Invalid, st)
      else PushOrTrap(st, Under(s, 2), BinaryValue(h, code, s[|s| - 2], Top(s)))
    case Compare(code) =>
      if |s| < 2 then Outcome(Invalid, st)
      else PushOrTrap(st, Under(s, 2), BinaryValue(h, code, s[|s| - 2], Top(s)))
    case Load(code, offset) =>
      if s == [] then Outcome(Invalid, st)
      else PushOrTrap(st, Under(s, 1), h.load(code, offset, Top(s), st.mem))
    case Store(code, offset) =>
      if |s| < 2 then Outcome(Invalid, st)
      else (match h.store(code, offset, s[|s| - 2], Top(s), st.mem)
            case Some(mem) => Outcome(Next, st.(stack := Under(s, 2), mem := mem))
            case None => Outcome(Trap, st))
    case Drop => if s == [] then Outcome(Invalid, st) else Outcome(Next, st.(stack := Under(s, 1)))
    case Select =>
      if |s| < 3 then Outcome(Invalid, st)
      else Push(st, Under(s, 3), if Top(s) == I32(0) then s[|s| - 2] else s[|s| - 3])
    case Nop => Outcome(Next, st)
    case Unreachable => Outcome(Trap, st)
    case MemorySize => Push(st, s, h.size(st.mem))
    case MemoryGrow =>
      if s == [] then Outcome(Invalid, st)
      else var (mem, v) := h.grow(st.mem, Top(s)); Push(st.(mem := mem), Under(s, 1), v)
    case _ => Outcome(Invalid, st)
  }

  predicate IsPlain(op: Op) {
    !op.Block? && !op.Loop? && !op.If? && !op.Br? && !op.BrIf? && !op.BrTable? &&
    !op.Call? && !op.CallIndirect? && !op.Return?
  }

  // ---------- control ----------

  /** Leaving a label (section 4.4.5): keep arity values, drop what the block left below them. */
  function Leave(outer: seq<Value>, arity: nat, st: State): (o: Outcome)
    ensures o.st.fuel == st.fuel && o.st.spent == st.spent
  {
    if |st.stack| < arity then Outcome(Invalid, st)
    else Outcome(Next, st.(stack := outer + Last(st.stack, arity)))
  }

  /** What a block makes of the outcome of its body. */
  function CloseBlock(outer: seq<Value>, arity: nat, o: Outcome): (r: Outcome)
    ensures r.st.fuel == o.st.fuel && r.st.spent == o.st.spent
  {
    match o.tag
    case Next => Leave(outer, arity, o.st)
    case Branch(n) => if n == 0 then Leave(outer, arity, o.st) else Outcome(Branch(n - 1), o.st)
    case _ => o
  }

  /** What a call makes of the outcome of the callee's body. */
  function CloseCall(caller: State, nparams: nat, nresults: nat, o: Outcome): (r: Outcome)
    requires nparams <= |caller.stack|
    ensures r.st.fuel == o.st.fuel && r.st.spent == o.st.spent
  {
    var back := o.st.(locals := caller.locals);
    match o.tag
    case Next => Leave(Under(caller.stack, nparams), nresults, back)
    case Ret => Leave(Under(caller.stack, nparams), nresults, back)
    case Branch(n) =>
      if n == 0 then Leave(Under(caller.stack, nparams), nresults, back) else Outcome(Invalid, back)
    case _ => Outcome(o.tag, back)
  }

  function HostCall(h: Host, imported: Import, st: State): (o: Outcome)
    requires imported.FuncImport?
    ensures o.st.fuel == st.fuel && o.st.spent == st.spent
  {
    var np := |imported.sig.params|;
    if imported.isOutOfGas then Outcome(NoGas, st)
    else if |st.stack| < np then Outcome(Invalid, st)
    else match h.call(imported.id, Last(st.stack, np), st.mem)
         case Some((results, mem)) =>
           Outcome(Next, st.(stack := Under(st.stack, np) + results, mem := mem))
         case None => Outcome(Trap, st)
  }

  function Zero(t: ValueType): Value {
    match t case TI32 => I32(0) case TI64 => I64(0) case TF32 => F32(0) case TF64 => F64(0)
  }

  function Zeros(ts: seq<ValueType>): (vs: seq<Value>)
    ensures |vs| == |ts|
  {
    seq(|ts|, i requires 0 <= i < |ts| => Zero(ts[i]))
  }

  // ---------- prices ----------

  /** What executing the instruction costs: the price the meter puts on it.  An if with an else branch
      costs the else price whichever branch runs; memory.grow is not charged. */
  function Price(op: Op): nat {
    match op
    case Const(v) =>
      if v.I32? then Cost(I32_CONST) else if v.I64? then Cost(I64_CONST) else 0
    case LocalGet(_) => Cost(LOCAL_GET)
    case LocalSet(_) => Cost(LOCAL_SET)
    case LocalTee(_) => Cost(LOCAL_TEE)
    case GlobalGet(_) => Cost(GLOBAL_GET)
    case GlobalSet(_) => Cost(GLOBAL_SET)
    case Unary(c) => Cost(c)
    case Convert(c) => Cost(c)
    case Binary(c) => Cost(c)
    case Compare(c) => Cost(c)
    case Load(c, _) => Cost(c)
    case Store(c, _) => Cost(c)
    case Drop => Cost(DROP)
    case Select => Cost(SELECT)
    case Nop => Cost(NOP)
    case Unreachable => Cost(UNREACHABLE)
    case MemorySize => Cost(MEMORY_SIZE)
    case MemoryGrow => 0
    case Block(_, _) => 0
    case Loop(_, _) => 0
    case If(_, _, els) => if els != [] then Cost(ELSE) else 0
    case Br(_) => Cost(BR)
    case BrIf(_) => Cost(BR_IF)
    case BrTable(_, _) => Cost(BR_TABLE)
    case Call(_) => Cost(CALL)
    case CallIndirect(_) => Cost(CALL_INDIRECT)
    case Return => Cost(RETURN)
    case Unsupported => 0
  }

  // ---------- the interpreter ----------

  function ExecSeq(h: Host, m: Module, code: seq<Expr>, st: State): (o: Outcome)
    ensures o.st.fuel <= st.fuel
    decreases st.fuel, 1, code
  {
    if code == [] then Outcome(Next, st)
    else
      var o := ExecExpr(h, m, code[0], st);
      if o.tag.Next? then ExecSeq(h, m, code[1..], o.st) else o
  }

  function Tick(op: Op, st: State): State
    requires st.fuel > 0
  {
    st.(fuel := st.fuel - 1, spent := st.spent + Price(op))
  }

  function ExecExpr(h: Host, m: Module, e: Expr, st: State): (o: Outcome)
    ensures o.st.fuel <= st.fuel
    decreases st.fuel, 1, e
  {
    if e.loc.None? then ExecOp(h, m, e.op, st)
    else if st.fuel == 0 then Outcome(Cut, st)
    else ExecOp(h, m, e.op, Tick(e.op, st))
  }

  function ExecOp(h: Host, m: Module, op: Op, st: State): (o: Outcome)
    ensures o.st.fuel <= st.fuel
    decreases st.fuel, 1, op
  {
    var s := st.stack;
    match op
    case Block(results, body) => CloseBlock(s, |results|, ExecSeq(h, m, body, st.(stack := [])))
    case Loop(results, body) =>
      var o := ExecSeq(h, m, body, st.(stack := []));
      if o.tag == Branch(0) then
        // back to the start of the loop; its label takes no values
        if o.st.fuel == 0 then Outcome(Cut, o.st)
        else ExecOp(h, m, op, o.st.(stack := s, fuel := o.st.fuel - 1))
      else CloseBlock(s, |results|, o)
    case If(results, thn, els) =>
      if s == [] || !Top(s).I32? then Outcome(Invalid, st)
      else if Top(s).n != 0 then
        CloseBlock(Under(s, 1), |results|, ExecSeq(h, m, thn, st.(stack := [])))
      else
        CloseBlock(Under(s, 1), |results|, ExecSeq(h, m, els, st.(stack := [])))
    case Br(n) => Outcome(Branch(n), st)
    case BrIf(n) =>
      if s == [] || !Top(s).I32? then Outcome(Invalid, st)
      else if Top(s).n != 0 then Outcome(Branch(n), st.(stack := Under(s, 1)))
      else Outcome(Next, st.(stack := Under(s, 1)))
    case BrTable(ns, n) =>
      if s == [] || !Top(s).I32? then Outcome(Invalid, st)
      else
        var k := Top(s).n;
        Outcome(Branch(if 0 <= k < |ns| then ns[k] else n), st.(stack := Under(s, 1)))
    case Return => Outcome(Ret, st)
    case Call(f) => ExecCall(h, m, ResolveFunc(m, f), st)
    case CallIndirect(sig) =>
      if s == [] || !Top(s).I32? then Outcome(Invalid, st)
      else
        var k := Top(s).n;
        var popped := st.(stack := Under(s, 1));
        if !(0 <= k < |m.table|) || m.table[k].None? then Outcome(Trap, popped)
        else
          var callee := ResolveFunc(m, m.table[k].value);
          if CalleeType(m, callee) != Some(sig) then Outcome(Trap, popped)
          else ExecCall(h, m, callee, popped)
    case _ => Plain(h, op, st)
  }

  function CalleeType(m: Module, callee: Callee): Option<FuncType> {
    match callee
    case Outside(imported) => if imported.FuncImport? then Some(imported.sig) else None
    case Inside(k) => if k < |m.funcs| then Some(m.funcs[k].sig) else None
    case NoSuchFunction => None
  }

  function ExecCall(h: Host, m: Module, callee: Callee, st: State): (o: Outcome)
    ensures o.st.fuel <= st.fuel
    decreases st.fuel, 0
  {
    match callee
    case Outside(imported) =>
      if imported.FuncImport? then HostCall(h, imported, st) else Outcome(Invalid, st)
    case Inside(k) =>
      if k >= |m.funcs| then Outcome(Invalid, st)
      else
        var fn := m.funcs[k];
        var np := |fn.sig.params|;
        if |st.stack| < np then Outcome(Invalid, st)
        else if st.fuel == 0 then Outcome(Cut, st)
        else CloseCall(st, np, |fn.sig.results|, ExecSeq(h, m, fn.body, Entry(fn, st)))
    case NoSuchFunction => Outcome(Invalid, st)
  }

  /** The state in which a callee's body starts. */
  function Entry(fn: Func, st: State): State
    requires |fn.sig.params| <= |st.stack| && st.fuel > 0
  {
    st.(stack := [], locals := Last(st.stack, |fn.sig.params|) + Zeros(fn.locals), fuel := st.fuel - 1)
  }
}
