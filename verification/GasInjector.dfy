/** The gas metering pass (src/vm/gas_meter/GasInjector.cpp): a functional form, the in-place loop
    that is proved equal to it, and the erasure of what the pass inserts. */
module GasInjector {
  import opened Options
  import opened Metric
  import opened Wasm

  datatype ImportsInfo = ImportsInfo(
    foundGasFunction: bool, gasFuncIndex: nat, globalGasIndex: nat, originSize: nat)

  /** Instructions that end a straight-line segment.  unreachable does not. */
  predicate Closes(op: Op) { !IsPlain(op) }

  function Inserted(op: Op): Expr { Expr(None, op) }

  /** gas := gas - c; if gas <= 0 then outOfGas() */
  function Charge(info: ImportsInfo, c: int): seq<Expr> {
    [ Inserted(GlobalGet(info.globalGasIndex)), Inserted(Const(I64(c))), Inserted(Binary(I64_SUB)),
      Inserted(GlobalSet(info.globalGasIndex)), Inserted(GlobalGet(info.globalGasIndex)),
      Inserted(Const(I64(0))), Inserted(Binary(I64_LE_S)),
      Inserted(If([], [Inserted(Call(info.gasFuncIndex))], [])) ]
  }

  function Flush(info: ImportsInfo, c: int): seq<Expr> { if c > 0 then Charge(info, c) else [] }

  /** The total price of the first segment of the code, its closing instruction included. */
  function SegCost(code: seq<Expr>): nat {
    if code == [] then 0
    else Price(code[0].op) + if Closes(code[0].op) then 0 else SegCost(code[1..])
  }

  function ShiftCall(info: ImportsInfo, f: nat): nat {
    if f >= info.originSize && !info.foundGasFunction then f + 1 else f
  }

  /** Every segment, preceded by its charge. */
  function InjectSeq(info: ImportsInfo, code: seq<Expr>): seq<Expr>
    decreases code, 1
  {
    Flush(info, SegCost(code)) + InjectBody(info, code)
  }

  /** The code once its first segment has been paid for. */
  function InjectBody(info: ImportsInfo, code: seq<Expr>): seq<Expr>
    decreases code, 0
  {
    if code == [] then []
    else
      [InjectExpr(info, code[0])] +
      if Closes(code[0].op) then InjectSeq(info, code[1..]) else InjectBody(info, code[1..])
  }

  function InjectExpr(info: ImportsInfo, e: Expr): Expr
    decreases e, 0
  {
    match e.op
    case Block(results, body) => e.(op := Block(results, InjectSeq(info, body)))
    case Loop(results, body) => e.(op := Loop(results, InjectSeq(info, body)))
    case If(results, thn, els) => e.(op := If(results, InjectSeq(info, thn), InjectSeq(info, els)))
    case Call(f) => e.(op := Call(ShiftCall(info, f)))
    case GlobalGet(x) => e.(op := GlobalGet(x + 1))
    case GlobalSet(x) => e.(op := GlobalSet(x + 1))
    case _ => e
  }

  // ---------- refused instructions ----------

  predicate AllowedExpr(e: Expr) {
    match e.op
    case Unary(c) => !IsFloatOpcode(c)
    case Convert(c) => !IsFloatOpcode(c)
    case Binary(c) => !IsFloatOpcode(c)
    case Compare(c) => !IsFloatOpcode(c)
    case Const(v) => v.I32? || v.I64?
    case Block(_, body) => Allowed(body)
    case Loop(_, body) => Allowed(body)
    case If(_, thn, els) => Allowed(thn) && Allowed(els)
    case Unsupported => false
    case _ => true
  }

  predicate Allowed(code: seq<Expr>) {
    code == [] || (AllowedExpr(code[0]) && Allowed(code[1..]))
  }

  // ---------- erasure ----------

  predicate ParsedExpr(e: Expr) {
    e.loc.Some? &&
    match e.op
    case Block(_, body) => Parsed(body)
    case Loop(_, body) => Parsed(body)
    case If(_, thn, els) => Parsed(thn) && Parsed(els)
    case _ => true
  }

  /** Every expression comes from the byte code. */
  predicate Parsed(code: seq<Expr>) {
    code == [] || (ParsedExpr(code[0]) && Parsed(code[1..]))
  }

  function StripExpr(info: ImportsInfo, e: Expr): Expr {
    match e.op
    case Block(results, body) => e.(op := Block(results, Strip(info, body)))
    case Loop(results, body) => e.(op := Loop(results, Strip(info, body)))
    case If(results, thn, els) => e.(op := If(results, Strip(info, thn), Strip(info, els)))
    case Call(f) => e.(op := Call(if f > info.originSize && !info.foundGasFunction then f - 1 else f))
    case GlobalGet(x) => e.(op := GlobalGet(if x > 0 then x - 1 else 0))
    case GlobalSet(x) => e.(op := GlobalSet(if x > 0 then x - 1 else 0))
    case _ => e
  }

  /** Drop what was inserted, and undo the index shifts. */
  function Strip(info: ImportsInfo, code: seq<Expr>): seq<Expr> {
    if code == [] then []
    else (if code[0].loc.None? then [] else [StripExpr(info, code[0])]) + Strip(info, code[1..])
  }

  lemma Associative<T>(a: seq<T>, b: seq<T>, c: seq<T>)
    ensures a + (b + c) == (a + b) + c
  {
  }

  lemma {:induction false} StripConcat(info: ImportsInfo, a: seq<Expr>, b: seq<Expr>)
    ensures Strip(info, a + b) == Strip(info, a) + Strip(info, b)
  {
    if a == [] {
      assert a + b == b;
    } else {
      StripConcat(info, a[1..], b);
      var first := if a[0].loc.None? then [] else [StripExpr(info, a[0])];
      assert Strip(info, a + b) == first + Strip(info, a[1..] + b) by {
        assert (a + b)[0] == a[0] && (a + b)[1..] == a[1..] + b;
      }
      Associative(first, Strip(info, a[1..]), Strip(info, b));
    }
  }

  lemma {:induction false} StripInserted(info: ImportsInfo, a: seq<Expr>)
    requires forall i :: 0 <= i < |a| ==> a[i].loc.None?
    ensures Strip(info, a) == []
  {
    if a != [] { StripInserted(info, a[1..]); }
  }

  /** The pass is erasable: nothing but charges is added, nothing is lost, duplicated or reordered. */
  lemma {:induction false} StripInject(info: ImportsInfo, code: seq<Expr>)
    requires Parsed(code)
    ensures Strip(info, InjectSeq(info, code)) == code
    decreases code, 1
  {
    var charge := Flush(info, SegCost(code));
    StripConcat(info, charge, InjectBody(info, code));
    StripInserted(info, charge);
    StripBody(info, code);
  }

  lemma {:induction false} StripBody(info: ImportsInfo, code: seq<Expr>)
    requires Parsed(code)
    ensures Strip(info, InjectBody(info, code)) == code
    decreases code, 0
  {
    if code != [] {
      var e := InjectExpr(info, code[0]);
      var rest := if Closes(code[0].op) then InjectSeq(info, code[1..]) else InjectBody(info, code[1..]);
      assert InjectBody(info, code) == [e] + rest;
      StripConcat(info, [e], rest);
      StripExprInject(info, code[0]);
      if Closes(code[0].op) { StripInject(info, code[1..]); } else { StripBody(info, code[1..]); }
    }
  }

  lemma {:induction false} StripExprInject(info: ImportsInfo, e: Expr)
    requires ParsedExpr(e)
    ensures InjectExpr(info, e).loc == e.loc && StripExpr(info, InjectExpr(info, e)) == e
    decreases e, 0
  {
    match e.op
    case Block(_, body) => StripInject(info, body);
    case Loop(_, body) => StripInject(info, body);
    case If(_, thn, els) => StripInject(info, thn); StripInject(info, els);
    case _ =>
  }

  // ---------- the whole module ----------

  const GAS_GLOBAL: Import := OtherImport(GlobalImport, 0)
  const OUT_OF_GAS: Import := FuncImport(true, 0, FuncType([], []))

  /** The position, among all imports, of the last import of outOfGas. */
  function FindOutOfGas(imports: seq<Import>): (r: Option<nat>)
    ensures r.Some? ==> r.value < |imports| && imports[r.value].FuncImport? && imports[r.value].isOutOfGas
    ensures r.None? ==> forall i :: 0 <= i < |imports| ==> !(imports[i].FuncImport? && imports[i].isOutOfGas)
  {
    if imports == [] then None
    else
      var last := imports[|imports| - 1];
      if last.FuncImport? && last.isOutOfGas then Some(|imports| - 1)
      else FindOutOfGas(imports[..|imports| - 1])
  }

  function InfoFor(m: Module): ImportsInfo {
    match FindOutOfGas(m.imports)
    case Some(i) => ImportsInfo(true, i, 0, |m.imports|)
    case None => ImportsInfo(false, |m.imports|, 0, |m.imports|)
  }

  function ShiftElem(info: ImportsInfo, entry: Option<nat>): Option<nat> {
    if entry.Some? && !info.foundGasFunction && entry.value >= info.gasFuncIndex
    then Some(entry.value + 1) else entry
  }

  function ShiftExport(info: ImportsInfo, e: Export): Export {
    if e.FuncExport? && !info.foundGasFunction then FuncExport(e.x + 1) else e
  }

  function InjectFunc(info: ImportsInfo, fn: Func): Func {
    if fn.body == [] then fn
    else Func(fn.sig, fn.locals + [TI32], InjectSeq(info, fn.body))
  }

  function InjectModule(m: Module): Module {
    var info := InfoFor(m);
    m.(imports := m.imports + (if info.foundGasFunction then [] else [OUT_OF_GAS]) + [GAS_GLOBAL],
       funcs := seq(|m.funcs|, i requires 0 <= i < |m.funcs| => InjectFunc(info, m.funcs[i])),
       table := seq(|m.table|, i requires 0 <= i < |m.table| => ShiftElem(info, m.table[i])),
       exports := seq(|m.exports|, i requires 0 <= i < |m.exports| => ShiftExport(info, m.exports[i])))
  }

  // ---------- the in-place loop ----------

  /** A wabt expression list: a mutable list that insertions and nested passes update in place. */
  class ExprList {
    var exprs: seq<Expr>

    constructor (exprs: seq<Expr>)
      ensures this.exprs == exprs
    {
      this.exprs := exprs;
    }

    /** Insert before position loc. */
    method Insert(loc: nat, more: seq<Expr>)
      requires loc <= |exprs|
      modifies this
      ensures exprs == old(exprs)[..loc] + more + old(exprs)[loc..]
    {
      exprs := exprs[..loc] + more + exprs[loc..];
    }
  }

  /** Charge what has been gathered at loc; the next segment starts after current. */
  method InsertUseGasLogic(list: ExprList, info: ImportsInfo, loc: nat, gas: int, current: nat)
    returns (insertPoint: nat, it: nat)
    requires loc <= current < |list.exprs|
    modifies list
    ensures list.exprs == old(list.exprs)[..loc] + Flush(info, gas) + old(list.exprs)[loc..]
    ensures it == current + |Flush(info, gas)| && insertPoint == it + 1
  {
    if gas > 0 {
      list.Insert(loc, Charge(info, gas));
      it := current + 8;
    } else {
      it := current;
    }
    insertPoint := it + 1;
  }

  /** Meter a nested expression list. */
  method Nested(info: ImportsInfo, body: seq<Expr>) returns (ok: bool, metered: seq<Expr>)
    ensures ok == Allowed(body)
    ensures ok ==> metered == InjectSeq(info, body)
    decreases body, 2
  {
    var inner := new ExprList(body);
    ok := InjectMeterExprList(inner, info);
    metered := inner.exprs;
  }

  /** Rewrite one expression in place: shift its index, meter what it nests, refuse what is not allowed. */
  method RewriteExpr(info: ImportsInfo, e: Expr) returns (ok: bool, r: Expr)
    ensures ok == AllowedExpr(e)
    ensures ok ==> r == InjectExpr(info, e)
    decreases e, 0
  {
    ok, r := true, e;
    match e.op {
      case Unary(c) => ok := !IsFloatOpcode(c);
      case Convert(c) => ok := !IsFloatOpcode(c);
      case Binary(c) => ok := !IsFloatOpcode(c);
      case Compare(c) => ok := !IsFloatOpcode(c);
      case Const(v) => ok := v.I32? || v.I64?;
      case Unsupported => ok := false;
      case GlobalGet(x) => r := r.(op := GlobalGet(x + 1));
      case GlobalSet(x) => r := r.(op := GlobalSet(x + 1));
      case Call(f) =>
        if f >= info.originSize && !info.foundGasFunction { r := r.(op := Call(f + 1)); }
      case Block(results, body) =>
        var metered;
        ok, metered := Nested(info, body);
        r := r.(op := Block(results, metered));
      case Loop(results, body) =>
        var metered;
        ok, metered := Nested(info, body);
        r := r.(op := Loop(results, metered));
      case If(results, thn, els) =>
        var metered, metered2;
        ok, metered := Nested(info, thn);
        if !ok { return; }
        metered2 := els;
        if els != [] {
          ok, metered2 := Nested(info, els);
        } else {
          assert InjectSeq(info, els) == els;
        }
        r := r.(op := If(results, metered, metered2));
      case _ =>
    }
  }

  /** The metered list as the loop sees it: done, the open segment with its charge still to come
      (gas gathered so far), and what is left to pass. */
  ghost function Whole(info: ImportsInfo, done: seq<Expr>, gas: int, pending: seq<Expr>, rest: seq<Expr>): seq<Expr>
  {
    done + (Flush(info, gas + SegCost(rest)) + (pending + InjectBody(info, rest)))
  }

  lemma Regroup<T>(a: seq<T>, b: seq<T>, c: seq<T>, d: seq<T>, e: seq<T>)
    ensures a + (b + (c + (d + e))) == (a + b + (c + d)) + e
    ensures b + ((c + d) + e) == b + (c + (d + e))
  {
  }

  /** Passing one instruction leaves the whole unchanged. */
  lemma WholeStep(
    info: ImportsInfo, done: seq<Expr>, gas: int, pending: seq<Expr>, rest: seq<Expr>, e: Expr, gas': int,
    closes: bool)
    requires rest != [] && gas >= 0
    requires e == InjectExpr(info, rest[0]) && gas' == gas + Price(rest[0].op)
    requires closes == Closes(rest[0].op)
    ensures closes ==>
      Whole(info, done, gas, pending, rest) ==
      Whole(info, (done + Flush(info, gas')) + (pending + [e]), 0, [], rest[1..])
    ensures !closes ==>
      Whole(info, done, gas, pending, rest) == Whole(info, done, gas', pending + [e], rest[1..])
  {
    if Closes(rest[0].op) {
      var flush0, body := Flush(info, SegCost(rest[1..])), InjectBody(info, rest[1..]);
      assert InjectBody(info, rest) == [e] + (flush0 + body);
      assert [] + body == body;
      Regroup(done, Flush(info, gas'), pending, [e], flush0 + body);
    } else {
      assert InjectBody(info, rest) == [e] + InjectBody(info, rest[1..]);
      Regroup(done, Flush(info, gas + SegCost(rest)), pending, [e], InjectBody(info, rest[1..]));
    }
  }

  lemma SetAt<T>(done: seq<T>, pending: seq<T>, rest: seq<T>, e: T)
    requires rest != []
    ensures (done + (pending + rest))[|done| + |pending|] == rest[0]
    ensures (done + (pending + rest))[|done| + |pending| := e] == done + ((pending + [e]) + rest[1..])
  {
  }

  /** Overwrite the expression at it. */
  method Replace(
    list: ExprList, it: nat, e: Expr, ghost done: seq<Expr>, ghost pending: seq<Expr>, ghost rest: seq<Expr>)
    requires rest != [] && it == |done| + |pending| && list.exprs == done + (pending + rest)
    modifies list
    ensures list.exprs == done + ((pending + [e]) + rest[1..])
  {
    SetAt(done, pending, rest, e);
    list.exprs := list.exprs[it := e];
  }

  lemma InsertAt<T>(done: seq<T>, more: seq<T>, tail: seq<T>)
    ensures (done + tail)[..|done|] + more + (done + tail)[|done|..] == (done + more) + tail
  {
  }

  lemma MoveDone<T>(done: seq<T>, pending: seq<T>, rest: seq<T>)
    ensures done + (pending + rest) == (done + pending) + ([] + rest)
  {
  }

  lemma WholeEnd(info: ImportsInfo, done: seq<Expr>, gas: int, pending: seq<Expr>)
    ensures Whole(info, done, gas, pending, []) ==
            if gas > 0 then (done + Charge(info, gas)) + pending else done + (pending + [])
  {
    assert pending + [] == pending;
    assert [] + pending == pending;
    assert (done + Charge(info, gas)) + pending == done + (Charge(info, gas) + pending);
  }

  /** Close the segment if the current instruction closes one.  insertPoint, gas and it are the loop's
      variables; done and pending are the list before and after the insert point, up to it. */
  method CloseSegment(list: ExprList, info: ImportsInfo, closes: bool, insertPoint: nat, gas: nat, it: nat,
                      ghost done: seq<Expr>, ghost pending: seq<Expr>, ghost rest: seq<Expr>)
    returns (insertPoint': nat, gas': nat, it': nat, ghost done': seq<Expr>, ghost pending': seq<Expr>)
    requires pending != [] && insertPoint == |done| && it + 1 == |done| + |pending|
    requires list.exprs == done + (pending + rest)
    modifies list
    ensures insertPoint' == |done'| && it' == |done'| + |pending'|
    ensures list.exprs == done' + (pending' + rest)
    ensures closes ==> gas' == 0 && pending' == [] && done' == (done + Flush(info, gas)) + pending
    ensures !closes ==> gas' == gas && pending' == pending && done' == done
  {
    insertPoint', gas', it', done', pending' := insertPoint, gas, it, done, pending;
    if closes {
      ghost var charge := Flush(info, gas);
      InsertAt(done, charge, pending + rest);
      MoveDone(done + charge, pending, rest);
      insertPoint', it' := InsertUseGasLogic(list, info, insertPoint, gas, it);
      done', pending', gas' := (done + charge) + pending, [], 0;
    }
    it' := it' + 1;
  }

  /** One turn of the loop. */
  method Visit(list: ExprList, info: ImportsInfo, insertPoint: nat, gas: nat, it: nat,
               ghost done: seq<Expr>, ghost pending: seq<Expr>, ghost rest: seq<Expr>)
    returns (ok: bool, insertPoint': nat, gas': nat, it': nat, ghost done': seq<Expr>, ghost pending': seq<Expr>)
    requires rest != [] && insertPoint == |done| && it == |done| + |pending|
    requires list.exprs == done + (pending + rest)
    modifies list
    ensures ok == AllowedExpr(rest[0])
    ensures ok ==> insertPoint' == |done'| && it' == |done'| + |pending'|
    ensures ok ==> list.exprs == done' + (pending' + rest[1..])
    ensures ok ==> Whole(info, done', gas', pending', rest[1..]) == Whole(info, done, gas, pending, rest)
    decreases rest, 0
  {
    SetAt(done, pending, rest, rest[0]);
    var price, closes := Price(list.exprs[it].op), Closes(list.exprs[it].op);
    var e;
    ok, e := RewriteExpr(info, list.exprs[it]);
    insertPoint', gas', it', done', pending' := insertPoint, gas, it, done, pending;
    if !ok { return; }
    Replace(list, it, e, done, pending, rest);
    WholeStep(info, done, gas, pending, rest, e, gas + price, closes);
    insertPoint', gas', it', done', pending' :=
      CloseSegment(list, info, closes, insertPoint, gas + price, it, done, pending + [e], rest[1..]);
  }

  /** Walk the list once, inserting a charge at the head of every segment that costs something.
      ok is false where the source throws InvalidInstruction. */
  method InjectMeterExprList(list: ExprList, info: ImportsInfo) returns (ok: bool)
    modifies list
    ensures ok == Allowed(old(list.exprs))
    ensures ok ==> list.exprs == InjectSeq(info, old(list.exprs))
    decreases list.exprs, 1
  {
    ghost var code, rest := list.exprs, list.exprs;   // rest: source expressions not yet passed
    ghost var done, pending := [], [];                // list.exprs before and after the insert point
    ghost var metered := InjectSeq(info, code);
    var insertPoint, gasCost, it := 0, 0, 0;
    ghost var k: nat := 0;
    assert list.exprs == [] + ([] + rest);
    assert metered == Whole(info, [], 0, [], code);
    while it < |list.exprs|
      invariant insertPoint == |done| && it == |done| + |pending| && gasCost >= 0
      invariant list.exprs == done + (pending + rest)
      invariant k <= |code| && rest == code[k..]
      invariant metered == Whole(info, done, gasCost, pending, rest)
      invariant Allowed(code) == Allowed(rest)
      decreases |rest|
    {
      var fine;
      fine, insertPoint, gasCost, it, done, pending :=
        Visit(list, info, insertPoint, gasCost, it, done, pending, rest);
      if !fine { return false; }
      k, rest := k + 1, rest[1..];
    }
    WholeEnd(info, done, gasCost, pending);
    if gasCost > 0 {
      InsertAt(done, Charge(info, gasCost), pending);
      list.Insert(insertPoint, Charge(info, gasCost));
    }
    return true;
  }

  datatype Status = Success | ForbiddenOpcode

  /** Add the imports, renumber, and meter every function (InjectMeter, from the parsed module on). */
  method InjectMeter(m: Module) returns (status: Status, r: Module)
    ensures status.Success? <==> forall k :: 0 <= k < |m.funcs| ==> Allowed(m.funcs[k].body)
    ensures status.Success? ==> r == InjectModule(m)
  {
    var found, outOfGasIndex := false, 0;
    for i := 0 to |m.imports|
      invariant FindOutOfGas(m.imports[..i]) == if found then Some(outOfGasIndex) else None
    {
      assert m.imports[..i + 1][..i] == m.imports[..i];
      if m.imports[i].FuncImport? && m.imports[i].isOutOfGas {
        found, outOfGasIndex := true, i;
      }
    }
    assert m.imports[..|m.imports|] == m.imports;
    r := m;
    if !found {
      outOfGasIndex := |m.imports|;
      r := r.(imports := r.imports + [OUT_OF_GAS]);
    }
    var info := ImportsInfo(found, outOfGasIndex, 0, |m.imports|);
    assert info == InfoFor(m);
    r := ShiftReferences(r, info);
    r := r.(imports := r.imports + [GAS_GLOBAL]);
    var funcs := [];
    for k := 0 to |m.funcs|
      invariant |funcs| == k
      invariant forall j :: 0 <= j < k ==> Allowed(m.funcs[j].body) && funcs[j] == InjectFunc(info, m.funcs[j])
    {
      var fn := m.funcs[k];
      if fn.body != [] {
        var list := new ExprList(fn.body);
        var ok := InjectMeterExprList(list, info);
        if !ok { return ForbiddenOpcode, r; }
        fn := Func(fn.sig, fn.locals + [TI32], list.exprs);
      }
      funcs := funcs + [fn];
    }
    r := r.(funcs := funcs);
    status := Success;
    assert r.imports == InjectModule(m).imports;
    assert r.funcs == InjectModule(m).funcs;
  }

  /** The loops over the exports and the element segments. */
  method ShiftReferences(m: Module, info: ImportsInfo) returns (r: Module)
    ensures r == m.(table := r.table, exports := r.exports)
    ensures r.table == seq(|m.table|, i requires 0 <= i < |m.table| => ShiftElem(info, m.table[i]))
    ensures r.exports == seq(|m.exports|, i requires 0 <= i < |m.exports| => ShiftExport(info, m.exports[i]))
  {
    r := m;
    var table, exports := m.table, m.exports;
    if !info.foundGasFunction {
      for i := 0 to |exports|
        invariant |exports| == |m.exports|
        invariant forall j :: 0 <= j < |exports| ==>
          exports[j] == if j < i then ShiftExport(info, m.exports[j]) else m.exports[j]
      {
        if exports[i].FuncExport? { exports := exports[i := FuncExport(exports[i].x + 1)]; }
      }
      for i := 0 to |table|
        invariant |table| == |m.table|
        invariant forall j :: 0 <= j < |table| ==>
          table[j] == if j < i then ShiftElem(info, m.table[j]) else m.table[j]
      {
        if table[i].Some? && table[i].value >= info.gasFuncIndex {
          table := table[i := Some(table[i].value + 1)];
        }
      }
    }
    r := r.(table := table, exports := exports);
  }
}
