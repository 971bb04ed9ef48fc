/** Metering keeps the meaning of a module, charges exactly, charges ahead, and makes every run stop. */
module Metering {
  import opened Options
  import opened Metric
  import opened Wasm
  import opened GasInjector
  import opened Renumbering

  // ---------- what the pass is given ----------

  /** Parsed code of a function with n locals: local indices are in range (section 3.3.5 of the WebAssembly
      Core Specification 1.0), and every segment's price fits the 64-bit gas counter. */
  predicate Ready(code: seq<Expr>, n: nat)
    decreases code, 1
  {
    SegCost(code) < TWO63 && ReadyBody(code, n)
  }

  predicate ReadyBody(code: seq<Expr>, n: nat)
    decreases code, 0
  {
    code == [] ||
    (ReadyExpr(code[0], n) &&
     if Closes(code[0].op) then Ready(code[1..], n) else ReadyBody(code[1..], n))
  }

  predicate ReadyExpr(e: Expr, n: nat)
    decreases e, 0
  {
    e.loc.Some? &&
    match e.op
    case LocalGet(x) => x < n
    case LocalSet(x) => x < n
    case LocalTee(x) => x < n
    case Block(_, body) => Ready(body, n)
    case Loop(_, body) => Ready(body, n)
    case If(_, thn, els) => Ready(thn, n) && Ready(els, n)
    case _ => true
  }

  function NumLocals(fn: Func): nat { |fn.sig.params| + |fn.locals| }

  predicate ReadyFuncs(m: Module) {
    forall k :: 0 <= k < |m.funcs| ==> Ready(m.funcs[k].body, NumLocals(m.funcs[k]))
  }

  /** A module the pass meters correctly. */
  predicate ReadyModule(m: Module) { ReadyImports(m) && ReadyFuncs(m) }

  // ---------- the two runs side by side ----------

  /** The metered state that corresponds to s: the gas global in front of the user's globals, and the
      scratch local behind the user's locals. */
  function Metered(s: State, scratch: seq<Value>, gas: int): State {
    s.(locals := s.locals + scratch, globals := [I64(gas)] + s.globals)
  }

  predicate HasGas(t: State) { t.globals != [] && t.globals[0].I64? }

  function Gas(t: State): int requires HasGas(t) { t.globals[0].n }

  /** The run neither trapped nor stopped early. */
  predicate Clean(tag: Tag) { tag.Next? || tag.Branch? || tag.Ret? }

  /** How the metered outcome i relates to the plain outcome o, both started with gas units left and
      spent already spent, credit of which are paid for in advance.  behind is the price of what the plain run
      left undone in the segment in which it stopped. */
  ghost predicate Agrees(o: Outcome, i: Outcome, s: State, scratch: seq<Value>, gas: int, credit: int, behind: nat)
  {
    HasGas(i.st) && Gas(i.st) <= gas &&
    // no instruction runs before it is paid for
    Gas(i.st) + i.st.spent <= gas + s.spent + credit &&
    // the same outcome, or out of gas
    (i.tag.NoGas? || (i == Outcome(o.tag, Metered(o.st, scratch, Gas(i.st))) && Gas(i.st) > 0)) &&
    // wherever the run ends, it has paid for what was executed and for the rest of the segment, and nothing else
    (!i.tag.NoGas? ==> Gas(i.st) + i.st.spent + behind == gas + s.spent + credit) &&
    // gas runs out only where the plain run would need all of it
    (i.tag.NoGas? && !o.tag.NoGas? ==> o.st.spent + behind >= gas + s.spent + credit) &&
    |o.st.locals| == |s.locals|
  }

  // ---------- what a run leaves undone ----------

  /** The price of the instructions that a run of the code stopped in front of, in the innermost segment that was
      open: segments are paid for when they are entered.  It is 0 for a run that falls through or jumps. */
  function BehindSeq(h: Host, m: Module, code: seq<Expr>, st: State): (behind: nat)
    ensures Clean(ExecSeq(h, m, code, st).tag) ==> behind == 0
    decreases st.fuel, 1, code
  {
    if code == [] then 0
    else
      var o := ExecExpr(h, m, code[0], st);
      if o.tag.Next? then BehindSeq(h, m, code[1..], o.st)
      else BehindExpr(h, m, code[0], st) + if Closes(code[0].op) then 0 else SegCost(code[1..])
  }

  function BehindExpr(h: Host, m: Module, e: Expr, st: State): (behind: nat)
    ensures Clean(ExecExpr(h, m, e, st).tag) ==> behind == 0 && (Closes(e.op) || ExecExpr(h, m, e, st).tag.Next?)
    decreases st.fuel, 1, e
  {
    if e.loc.None? then BehindOp(h, m, e.op, st)
    else if st.fuel == 0 then Price(e.op)
    else BehindOp(h, m, e.op, Tick(e.op, st))
  }

  function BehindOp(h: Host, m: Module, op: Op, st: State): (behind: nat)
    ensures Clean(ExecOp(h, m, op, st).tag) ==> behind == 0 && (Closes(op) || ExecOp(h, m, op, st).tag.Next?)
    decreases st.fuel, 1, op, 1
  {
    if op.Block? then BehindSeq(h, m, op.body, st.(stack := []))
    else if op.Loop? then BehindLoop(h, m, op, st)
    else if op.If? then BehindIf(h, m, op, st)
    else if op.Call? then BehindCall(h, m, ResolveFunc(m, op.f), st)
    else if op.CallIndirect? then BehindIndirect(h, m, op, st)
    else 0
  }

  function BehindLoop(h: Host, m: Module, op: Op, st: State): (behind: nat)
    requires op.Loop?
    ensures Clean(ExecOp(h, m, op, st).tag) ==> behind == 0
    decreases st.fuel, 1, op, 0
  {
    var o := ExecSeq(h, m, op.body, st.(stack := []));
    if o.tag != Branch(0) then BehindSeq(h, m, op.body, st.(stack := []))
    else if o.st.fuel == 0 then 0
    else BehindLoop(h, m, op, o.st.(stack := st.stack, fuel := o.st.fuel - 1))
  }

  function BehindIf(h: Host, m: Module, op: Op, st: State): (behind: nat)
    requires op.If?
    ensures Clean(ExecOp(h, m, op, st).tag) ==> behind == 0
    decreases st.fuel, 1, op, 0
  {
    if st.stack == [] || !Top(st.stack).I32? then 0
    else if Top(st.stack).n != 0 then BehindSeq(h, m, op.thn, st.(stack := []))
    else BehindSeq(h, m, op.els, st.(stack := []))
  }

  function BehindIndirect(h: Host, m: Module, op: Op, st: State): (behind: nat)
    requires op.CallIndirect?
    ensures Clean(ExecOp(h, m, op, st).tag) ==> behind == 0
    decreases st.fuel, 1, op, 0
  {
    var s := st.stack;
    if s == [] || !Top(s).I32? then 0
    else
      var k := Top(s).n;
      if !(0 <= k < |m.table|) || m.table[k].None? then 0
      else
        var callee := ResolveFunc(m, m.table[k].value);
        if CalleeType(m, callee) != Some(op.sig) then 0 else BehindCall(h, m, callee, st.(stack := Under(s, 1)))
  }

  function BehindCall(h: Host, m: Module, callee: Callee, st: State): (behind: nat)
    ensures Clean(ExecCall(h, m, callee, st).tag) ==> behind == 0
    decreases st.fuel, 0
  {
    if callee.Inside? && callee.k < |m.funcs| && |m.funcs[callee.k].sig.params| <= |st.stack| && st.fuel > 0
    then BehindSeq(h, m, m.funcs[callee.k].body, Entry(m.funcs[callee.k], st))
    else 0
  }

  // ---------- facts about the interpreter ----------

  lemma ExecCons(h: Host, m: Module, e: Expr, rest: seq<Expr>, st: State)
    ensures ExecSeq(h, m, [e] + rest, st) ==
            var o := ExecExpr(h, m, e, st); if o.tag.Next? then ExecSeq(h, m, rest, o.st) else o
  {
    assert ([e] + rest)[1..] == rest;
  }

  /** An inserted plain instruction that falls through. */
  lemma ExecPlain(h: Host, m: Module, op: Op, rest: seq<Expr>, st: State, st': State)
    requires IsPlain(op) && Plain(h, op, st) == Outcome(Next, st')
    ensures ExecSeq(h, m, [Inserted(op)] + rest, st) == ExecSeq(h, m, rest, st')
  {
    ExecCons(h, m, Inserted(op), rest, st);
  }

  /** The charge takes c from the gas and falls through exactly when gas is left; it leaves the stack alone. */
  lemma ChargeExec(h: Host, m: Module, info: ImportsInfo, c: int, rest: seq<Expr>, t: State)
    requires info.globalGasIndex == 0 && HasGas(t) && 0 < Gas(t) < TWO63 && 0 < c < TWO63
    requires var callee := ResolveFunc(m, info.gasFuncIndex);
      callee.Outside? && callee.imported.FuncImport? && callee.imported.isOutOfGas
    ensures
      var t' := t.(globals := t.globals[0 := I64(Gas(t) - c)]);
      if Gas(t) > c then ExecSeq(h, m, Charge(info, c) + rest, t) == ExecSeq(h, m, rest, t')
      else
        var i := ExecSeq(h, m, Charge(info, c) + rest, t);
        i.tag == NoGas && HasGas(i.st) && Gas(i.st) == Gas(t) - c && i.st.spent == t.spent
  {
    var cs := Charge(info, c);
    var t' := t.(globals := t.globals[0 := I64(Gas(t) - c)]);
    var test := [cs[4]] + ([cs[5]] + ([cs[6]] + ([cs[7]] + rest)));
    assert cs + rest == [cs[0]] + ([cs[1]] + ([cs[2]] + ([cs[3]] + test)));
    ChargeSub(h, m, info, c, test, t);
    assert ExecSeq(h, m, cs + rest, t) == ExecSeq(h, m, test, t');
    ChargeTest(h, m, info, [cs[7]] + rest, t');
    var tested := t'.(stack := t.stack + [I32(if Gas(t') <= 0 then 1 else 0)]);
    assert ExecSeq(h, m, test, t') == ExecSeq(h, m, [cs[7]] + rest, tested);
    ChargeIf(h, m, info, rest, tested, t.stack);
    assert tested.(stack := t.stack) == t';
    assert I32(0) != I32(1);
    if Gas(t) <= c { assert tested.stack[|t.stack|] == I32(1); }
  }

  lemma ChargeSub(h: Host, m: Module, info: ImportsInfo, c: int, rest: seq<Expr>, t: State)
    requires info.globalGasIndex == 0 && HasGas(t) && 0 < Gas(t) < TWO63 && 0 < c < TWO63
    ensures
      ExecSeq(h, m, [Inserted(GlobalGet(info.globalGasIndex))] + ([Inserted(Const(I64(c)))] +
        ([Inserted(Binary(I64_SUB))] + ([Inserted(GlobalSet(info.globalGasIndex))] + rest))), t) ==
      ExecSeq(h, m, rest, t.(globals := t.globals[0 := I64(Gas(t) - c)]))
  {
    var s, left := t.stack, I64(Gas(t) - c);
    assert Wrap64(Gas(t) - c) == Gas(t) - c;
    var s1, s2, s3 := s + [I64(Gas(t))], s + [I64(Gas(t))] + [I64(c)], s + [left];
    assert Under(s2, 2) == s && Under(s3, 1) == s && Top(s3) == left;
    var r3 := [Inserted(GlobalSet(0))] + rest;
    var r2 := [Inserted(Binary(I64_SUB))] + r3;
    ExecPlain(h, m, GlobalGet(0), [Inserted(Const(I64(c)))] + r2, t, t.(stack := s1));
    ExecPlain(h, m, Const(I64(c)), r2, t.(stack := s1), t.(stack := s2));
    ExecPlain(h, m, Binary(I64_SUB), r3, t.(stack := s2), t.(stack := s3));
    ExecPlain(h, m, GlobalSet(0), rest, t.(stack := s3), t.(globals := t.globals[0 := left]));
  }

  lemma ChargeTest(h: Host, m: Module, info: ImportsInfo, rest: seq<Expr>, t: State)
    requires info.globalGasIndex == 0 && HasGas(t)
    ensures
      ExecSeq(h, m, [Inserted(GlobalGet(info.globalGasIndex))] +
        ([Inserted(Const(I64(0)))] + ([Inserted(Binary(I64_LE_S))] + rest)), t) ==
      ExecSeq(h, m, rest, t.(stack := t.stack + [I32(if Gas(t) <= 0 then 1 else 0)]))
  {
    var s := t.stack;
    var s1, s2 := s + [I64(Gas(t))], s + [I64(Gas(t))] + [I64(0)];
    assert Under(s2, 2) == s;
    ExecPlain(h, m, GlobalGet(0), [Inserted(Const(I64(0)))] + ([Inserted(Binary(I64_LE_S))] + rest),
      t, t.(stack := s1));
    ExecPlain(h, m, Const(I64(0)), [Inserted(Binary(I64_LE_S))] + rest, t.(stack := s1), t.(stack := s2));
    ExecPlain(h, m, Binary(I64_LE_S), rest,
      t.(stack := s2), t.(stack := s + [I32(if Gas(t) <= 0 then 1 else 0)]));
  }

  lemma CallOutOfGas(h: Host, m: Module, f: nat, st: State)
    requires var callee := ResolveFunc(m, f);
      callee.Outside? && callee.imported.FuncImport? && callee.imported.isOutOfGas
    ensures ExecSeq(h, m, [Inserted(Call(f))], st) == Outcome(NoGas, st)
  {
    var callee := ResolveFunc(m, f);
    assert ExecCall(h, m, callee, st) == Outcome(NoGas, st);
    assert ExecOp(h, m, Call(f), st) == ExecCall(h, m, callee, st);
    assert ExecExpr(h, m, Inserted(Call(f)), st) == Outcome(NoGas, st);
    assert [Inserted(Call(f))] == [Inserted(Call(f))] + [];
    ExecCons(h, m, Inserted(Call(f)), [], st);
  }

  lemma ChargeIf(h: Host, m: Module, info: ImportsInfo, rest: seq<Expr>, t: State, s: seq<Value>)
    requires t.stack == s + [I32(0)] || t.stack == s + [I32(1)]
    requires var callee := ResolveFunc(m, info.gasFuncIndex);
      callee.Outside? && callee.imported.FuncImport? && callee.imported.isOutOfGas
    ensures
      var i := ExecSeq(h, m, [Inserted(If([], [Inserted(Call(info.gasFuncIndex))], []))] + rest, t);
      if t.stack == s + [I32(0)] then i == ExecSeq(h, m, rest, t.(stack := s))
      else i == Outcome(NoGas, t.(stack := []))
  {
    var call := [Inserted(Call(info.gasFuncIndex))];
    var op := If([], call, []);
    var inner := t.(stack := []);
    ExecCons(h, m, Inserted(op), rest, t);
    CallOutOfGas(h, m, info.gasFuncIndex, inner);
    assert Under(t.stack, 1) == s && Top(t.stack).I32?;
    assert s + Last([], 0) == s;
    if t.stack == s + [I32(0)] {
      assert ExecSeq(h, m, [], inner) == Outcome(Next, inner);
      assert ExecOp(h, m, op, t) == Outcome(Next, t.(stack := s));
    } else {
      assert Top(t.stack) == I32(1);
      assert ExecOp(h, m, op, t) == Outcome(NoGas, inner);
    }
  }

  // ---------- spending ----------

  /** The prices paid never go down, a cut run has used all its fuel, and the frame keeps its size. */
  predicate Grows(st: State, o: Outcome) {
    o.st.spent >= st.spent && (o.tag.Cut? ==> o.st.fuel == 0) && |o.st.locals| == |st.locals|
  }

  lemma {:induction false} SpentGrows(h: Host, m: Module, code: seq<Expr>, st: State)
    ensures var o := ExecSeq(h, m, code, st); Grows(st, o)
    decreases st.fuel, 1, code
  {
    if code != [] {
      SpentGrowsExpr(h, m, code[0], st);
      var o := ExecExpr(h, m, code[0], st);
      if o.tag.Next? { SpentGrows(h, m, code[1..], o.st); }
    }
  }

  lemma {:induction false} SpentGrowsExpr(h: Host, m: Module, e: Expr, st: State)
    ensures
      var o := ExecExpr(h, m, e, st);
      (e.loc.Some? && st.fuel > 0 ==> o.st.spent >= st.spent + Price(e.op)) && Grows(st, o)
    decreases st.fuel, 1, e, 1
  {
    if e.loc.None? { SpentGrowsOp(h, m, e, st); }
    else if st.fuel > 0 { SpentGrowsOp(h, m, e, Tick(e.op, st)); }
  }

  lemma {:induction false} SpentGrowsOp(h: Host, m: Module, e: Expr, st: State)
    ensures
      var o := ExecOp(h, m, e.op, st);
      Grows(st, o)
    decreases st.fuel, 1, e, 0
  {
    if e.op.Block? {
      SpentGrows(h, m, e.op.body, st.(stack := []));
      ClosedGrows(st.stack, |e.op.results|, st, ExecSeq(h, m, e.op.body, st.(stack := [])));
    } else if e.op.If? {
      SpentGrowsIf(h, m, e, st);
    } else if e.op.Loop? {
      SpentGrowsLoop(h, m, e, st);
    } else if e.op.Call? {
      SpentGrowsCall(h, m, ResolveFunc(m, e.op.f), st);
    } else if e.op.CallIndirect? {
      SpentGrowsIndirect(h, m, e, st);
    } else if IsPlain(e.op) {
      ExecStraight(h, m, e.op, st);
      PlainGrows(h, e.op, st);
    }
  }

  lemma PlainGrows(h: Host, op: Op, st: State)
    ensures Grows(st, Plain(h, op, st))
  {
  }

  lemma ClosedGrows(outer: seq<Value>, arity: nat, st: State, o: Outcome)
    requires Grows(st.(stack := []), o)
    ensures Grows(st, CloseBlock(outer, arity, o))
  {
  }

  lemma {:induction false} SpentGrowsIf(h: Host, m: Module, e: Expr, st: State)
    requires e.op.If?
    ensures Grows(st, ExecOp(h, m, e.op, st))
    decreases st.fuel, 1, e, -1
  {
    if st.stack != [] && Top(st.stack).I32? {
      var body := if Top(st.stack).n != 0 then e.op.thn else e.op.els;
      SpentGrows(h, m, body, st.(stack := []));
      ClosedGrows(Under(st.stack, 1), |e.op.results|, st, ExecSeq(h, m, body, st.(stack := [])));
    }
  }

  lemma {:induction false} SpentGrowsIndirect(h: Host, m: Module, e: Expr, st: State)
    requires e.op.CallIndirect?
    ensures Grows(st, ExecOp(h, m, e.op, st))
    decreases st.fuel, 1, e, -1
  {
    var s := st.stack;
    if s != [] && Top(s).I32? && 0 <= Top(s).n < |m.table| && m.table[Top(s).n].Some? {
      SpentGrowsCall(h, m, ResolveFunc(m, m.table[Top(s).n].value), st.(stack := Under(s, 1)));
    }
  }

  lemma {:induction false} SpentGrowsLoop(h: Host, m: Module, e: Expr, st: State)
    requires e.op.Loop?
    ensures Grows(st, ExecOp(h, m, e.op, st))
    decreases st.fuel, 1, e, -1
  {
    SpentGrows(h, m, e.op.body, st.(stack := []));
    var o := ExecSeq(h, m, e.op.body, st.(stack := []));
    if o.tag == Branch(0) && o.st.fuel > 0 {
      SpentGrowsLoop(h, m, e, o.st.(stack := st.stack, fuel := o.st.fuel - 1));
    }
  }

  lemma {:induction false} SpentGrowsCall(h: Host, m: Module, callee: Callee, st: State)
    ensures
      var o := ExecCall(h, m, callee, st);
      Grows(st, o)
    decreases st.fuel, 0
  {
    if callee.Inside? && callee.k < |m.funcs| && st.fuel > 0 &&
       |m.funcs[callee.k].sig.params| <= |st.stack| {
      SpentGrows(h, m, m.funcs[callee.k].body, Entry(m.funcs[callee.k], st));
    }
  }

  /** A run has executed all of its first segment, but for what it left undone there. */
  lemma {:induction false} SegmentSpends(h: Host, m: Module, code: seq<Expr>, n: nat, st: State)
    requires ReadyBody(code, n) && !ExecSeq(h, m, code, st).tag.NoGas?
    ensures ExecSeq(h, m, code, st).st.spent + BehindSeq(h, m, code, st) >= st.spent + SegCost(code)
    decreases code
  {
    if code != [] {
      SpentGrowsExpr(h, m, code[0], st);
      var o := ExecExpr(h, m, code[0], st);
      if o.tag.Next? {
        if Closes(code[0].op) { SpentGrows(h, m, code[1..], o.st); }
        else { SegmentSpends(h, m, code[1..], n, o.st); }
      }
    }
  }

  /** An instruction that does not close a segment falls through, traps, is invalid, or is cut. */
  lemma PlainIsStraight(h: Host, m: Module, e: Expr, st: State)
    ensures !Closes(e.op) ==>
      var o := ExecExpr(h, m, e, st); o.tag.Next? || (!Clean(o.tag) && !o.tag.NoGas?)
  {
  }

  // ---------- the simulation ----------

  /** One frame of the simulation: leaving a block commutes with metering. */
  lemma CloseBlockAgrees(outer: seq<Value>, arity: nat, o: Outcome, i: Outcome,
                         s: State, scratch: seq<Value>, gas: int, behind: nat)
    requires Agrees(o, i, s, scratch, gas, 0, behind)
    ensures Agrees(CloseBlock(outer, arity, o), CloseBlock(outer, arity, i), s, scratch, gas, 0, behind)
  {
  }

  lemma {:induction false} SeqAgrees(h: Host, m: Module, code: seq<Expr>, s: State, scratch: seq<Value>, gas: int)
    requires ReadyModule(m) && Ready(code, |s.locals|) && 0 < gas < TWO63
    ensures Agrees(
      ExecSeq(h, m, code, s),
      ExecSeq(h, InjectModule(m), InjectSeq(InfoFor(m), code), Metered(s, scratch, gas)),
      s, scratch, gas, 0, BehindSeq(h, m, code, s))
    decreases s.fuel, 1, code, 2
  {
    var info, m' := InfoFor(m), InjectModule(m);
    var t := Metered(s, scratch, gas);
    var c := SegCost(code);
    var o := ExecSeq(h, m, code, s);
    if c == 0 {
      assert InjectSeq(info, code) == InjectBody(info, code);
      BodyAgrees(h, m, code, s, scratch, gas);
    } else {
      CallsKeepTarget(m, 0);
      ChargeExec(h, m', info, c, InjectBody(info, code), t);
      if gas > c {
        assert t.(globals := t.globals[0 := I64(gas - c)]) == Metered(s, scratch, gas - c);
        BodyAgrees(h, m, code, s, scratch, gas - c);
      } else {
        if !o.tag.NoGas? { SegmentSpends(h, m, code, |s.locals|, s); }
        SpentGrows(h, m, code, s);
      }
    }
  }

  lemma {:induction false} BodyAgrees(h: Host, m: Module, code: seq<Expr>, s: State, scratch: seq<Value>, gas: int)
    requires ReadyModule(m) && ReadyBody(code, |s.locals|) && 0 < gas < TWO63
    ensures Agrees(
      ExecSeq(h, m, code, s),
      ExecSeq(h, InjectModule(m), InjectBody(InfoFor(m), code), Metered(s, scratch, gas)),
      s, scratch, gas, SegCost(code), BehindSeq(h, m, code, s))
    decreases s.fuel, 1, code, 1
  {
    var info, m' := InfoFor(m), InjectModule(m);
    var t := Metered(s, scratch, gas);
    if code != [] {
      var e, closes := InjectExpr(info, code[0]), Closes(code[0].op);
      var tail := if closes then InjectSeq(info, code[1..]) else InjectBody(info, code[1..]);
      ExecCons(h, m', e, tail, t);
      ExprAgrees(h, m, code[0], s, scratch, gas);
      PlainIsStraight(h, m, code[0], s);
      PlainIsStraight(h, m', e, t);
      var o, i := ExecExpr(h, m, code[0], s), ExecExpr(h, m', e, t);
      if i.tag.Next? {
        if closes { SeqAgrees(h, m, code[1..], o.st, scratch, Gas(i.st)); }
        else { BodyAgrees(h, m, code[1..], o.st, scratch, Gas(i.st)); }
      } else if o.tag.Next? {
        SpentGrows(h, m, code[1..], o.st);
      }
    }
  }

  lemma {:induction false} ExprAgrees(h: Host, m: Module, e: Expr, s: State, scratch: seq<Value>, gas: int)
    requires ReadyModule(m) && ReadyExpr(e, |s.locals|) && 0 < gas < TWO63
    ensures Agrees(
      ExecExpr(h, m, e, s),
      ExecExpr(h, InjectModule(m), InjectExpr(InfoFor(m), e), Metered(s, scratch, gas)),
      s, scratch, gas, Price(e.op), BehindExpr(h, m, e, s))
    decreases s.fuel, 1, e, 1
  {
    var m', e' := InjectModule(m), InjectExpr(InfoFor(m), e);
    PriceKept(InfoFor(m), e);
    ExecTicked(h, m, e, s);
    ExecTicked(h, m', e', Metered(s, scratch, gas));
    if s.fuel > 0 {
      var ticked := Tick(e.op, s);
      assert Tick(e'.op, Metered(s, scratch, gas)) == Metered(ticked, scratch, gas);
      OpAgrees(h, m, e, ticked, scratch, gas);
      AgreesTicked(ExecOp(h, m, e.op, ticked), ExecOp(h, m', e'.op, Metered(ticked, scratch, gas)),
                   s, scratch, gas, e.op, BehindOp(h, m, e.op, ticked));
    }
  }

  /** Executing a parsed instruction takes a step. */
  lemma ExecTicked(h: Host, m: Module, e: Expr, st: State)
    requires e.loc.Some?
    ensures ExecExpr(h, m, e, st) ==
            if st.fuel == 0 then Outcome(Cut, st) else ExecOp(h, m, e.op, Tick(e.op, st))
    ensures BehindExpr(h, m, e, st) == if st.fuel == 0 then Price(e.op) else BehindOp(h, m, e.op, Tick(e.op, st))
  {
  }

  lemma AgreesTicked(o: Outcome, i: Outcome, s: State, scratch: seq<Value>, gas: int, op: Op, behind: nat)
    requires s.fuel > 0 && Agrees(o, i, Tick(op, s), scratch, gas, 0, behind)
    ensures Agrees(o, i, s, scratch, gas, Price(op), behind)
  {
  }

  lemma PriceKept(info: ImportsInfo, e: Expr)
    ensures InjectExpr(info, e).loc == e.loc && Price(InjectExpr(info, e).op) == Price(e.op)
    ensures Closes(InjectExpr(info, e).op) == Closes(e.op)
  {
    if e.op.If? {
      assert InjectSeq(info, []) == [];
      if e.op.els != [] { assert |InjectBody(info, e.op.els)| > 0; }
    }
  }

  lemma {:induction false} OpAgrees(h: Host, m: Module, e: Expr, s: State, scratch: seq<Value>, gas: int)
    requires ReadyModule(m) && ReadyExpr(e, |s.locals|) && 0 < gas < TWO63
    ensures Agrees(
      ExecOp(h, m, e.op, s),
      ExecOp(h, InjectModule(m), InjectExpr(InfoFor(m), e).op, Metered(s, scratch, gas)),
      s, scratch, gas, 0, BehindOp(h, m, e.op, s))
    decreases s.fuel, 1, e, 0
  {
    if e.op.Block? { BlockAgrees(h, m, e, s, scratch, gas); }
    else if e.op.If? { IfAgrees(h, m, e, s, scratch, gas); }
    else if e.op.Loop? { LoopAgrees(h, m, e, s, scratch, gas); }
    else if e.op.Call? { DirectAgrees(h, m, e, s, scratch, gas); }
    else if e.op.CallIndirect? { IndirectAgrees(h, m, e, s, scratch, gas); }
    else if IsPlain(e.op) { StraightAgrees(h, m, e, s, scratch, gas); }
    else { BranchAgrees(h, m, e, s, scratch, gas); }
  }

  lemma BranchAgrees(h: Host, m: Module, e: Expr, s: State, scratch: seq<Value>, gas: int)
    requires e.op.Br? || e.op.BrIf? || e.op.BrTable? || e.op.Return?
    requires 0 < gas
    ensures Agrees(
      ExecOp(h, m, e.op, s),
      ExecOp(h, InjectModule(m), InjectExpr(InfoFor(m), e).op, Metered(s, scratch, gas)),
      s, scratch, gas, 0, BehindOp(h, m, e.op, s))
  {
  }

  lemma {:induction false} BlockAgrees(h: Host, m: Module, e: Expr, s: State, scratch: seq<Value>, gas: int)
    requires e.op.Block? && ReadyModule(m) && ReadyExpr(e, |s.locals|) && 0 < gas < TWO63
    ensures Agrees(
      ExecOp(h, m, e.op, s),
      ExecOp(h, InjectModule(m), InjectExpr(InfoFor(m), e).op, Metered(s, scratch, gas)),
      s, scratch, gas, 0, BehindOp(h, m, e.op, s))
    decreases s.fuel, 1, e, -1
  {
    NestedAgrees(h, m, e.op.body, |e.op.results|, s.stack, s, scratch, gas);
  }

  lemma {:induction false} IfAgrees(h: Host, m: Module, e: Expr, s: State, scratch: seq<Value>, gas: int)
    requires e.op.If? && ReadyModule(m) && ReadyExpr(e, |s.locals|) && 0 < gas < TWO63
    ensures Agrees(
      ExecOp(h, m, e.op, s),
      ExecOp(h, InjectModule(m), InjectExpr(InfoFor(m), e).op, Metered(s, scratch, gas)),
      s, scratch, gas, 0, BehindOp(h, m, e.op, s))
    decreases s.fuel, 1, e, -1
  {
    if s.stack != [] && Top(s.stack).I32? {
      var body := if Top(s.stack).n != 0 then e.op.thn else e.op.els;
      NestedAgrees(h, m, body, |e.op.results|, Under(s.stack, 1), s, scratch, gas);
    }
  }

  /** A body run on a stack of its own, and closed. */
  lemma {:induction false} NestedAgrees(h: Host, m: Module, body: seq<Expr>, arity: nat, outer: seq<Value>,
                                        s: State, scratch: seq<Value>, gas: int)
    requires ReadyModule(m) && Ready(body, |s.locals|) && 0 < gas < TWO63
    ensures Agrees(
      CloseBlock(outer, arity, ExecSeq(h, m, body, s.(stack := []))),
      CloseBlock(outer, arity,
        ExecSeq(h, InjectModule(m), InjectSeq(InfoFor(m), body), Metered(s, scratch, gas).(stack := []))),
      s, scratch, gas, 0, BehindSeq(h, m, body, s.(stack := [])))
    decreases s.fuel, 1, body, 3
  {
    var inner := s.(stack := []);
    assert Metered(s, scratch, gas).(stack := []) == Metered(inner, scratch, gas);
    SeqAgrees(h, m, body, inner, scratch, gas);
    CloseBlockAgrees(outer, arity, ExecSeq(h, m, body, inner),
      ExecSeq(h, InjectModule(m), InjectSeq(InfoFor(m), body), Metered(inner, scratch, gas)), s, scratch, gas,
      BehindSeq(h, m, body, inner));
  }

  lemma {:induction false} LoopAgrees(h: Host, m: Module, e: Expr, s: State, scratch: seq<Value>, gas: int)
    requires e.op.Loop? && ReadyModule(m) && ReadyExpr(e, |s.locals|) && 0 < gas < TWO63
    ensures Agrees(
      ExecOp(h, m, e.op, s),
      ExecOp(h, InjectModule(m), InjectExpr(InfoFor(m), e).op, Metered(s, scratch, gas)),
      s, scratch, gas, 0, BehindOp(h, m, e.op, s))
    decreases s.fuel, 1, e, -1
  {
    var m', inner, e' := InjectModule(m), s.(stack := []), InjectExpr(InfoFor(m), e);
    assert Metered(s, scratch, gas).(stack := []) == Metered(inner, scratch, gas);
    SeqAgrees(h, m, e.op.body, inner, scratch, gas);
    var o := ExecSeq(h, m, e.op.body, inner);
    var i := ExecSeq(h, m', InjectSeq(InfoFor(m), e.op.body), Metered(inner, scratch, gas));
    ExecLoop(h, m, e.op, s, o);
    ExecLoop(h, m', e'.op, Metered(s, scratch, gas), i);
    if o.tag != Branch(0) || o.st.fuel == 0 {
      CloseBlockAgrees(s.stack, |e.op.results|, o, i, s, scratch, gas, BehindSeq(h, m, e.op.body, inner));
    } else {
      var again := o.st.(stack := s.stack, fuel := o.st.fuel - 1);
      SpentGrowsLoop(h, m, e, again);
      if i.tag == Branch(0) {
        LoopAgrees(h, m, e, again, scratch, Gas(i.st));
        assert Metered(again, scratch, Gas(i.st)) == i.st.(stack := s.stack, fuel := i.st.fuel - 1);
        AgreesChain(o, i, s, scratch, gas, ExecOp(h, m, e.op, again),
          ExecOp(h, m', e'.op, Metered(again, scratch, Gas(i.st))), again, BehindLoop(h, m, e.op, again));
      }
    }
  }

  /** A loop goes on, ends, or is cut, depending on how its body ends. */
  lemma ExecLoop(h: Host, m: Module, op: Op, st: State, o: Outcome)
    requires op.Loop? && o == ExecSeq(h, m, op.body, st.(stack := []))
    ensures ExecOp(h, m, op, st) ==
            if o.tag != Branch(0) then CloseBlock(st.stack, |op.results|, o)
            else if o.st.fuel == 0 then Outcome(Cut, o.st)
            else ExecOp(h, m, op, o.st.(stack := st.stack, fuel := o.st.fuel - 1))
    ensures BehindOp(h, m, op, st) ==
            if o.tag != Branch(0) then BehindSeq(h, m, op.body, st.(stack := []))
            else if o.st.fuel == 0 then 0
            else BehindOp(h, m, op, o.st.(stack := st.stack, fuel := o.st.fuel - 1))
  {
  }

  /** Two runs that agree, one after the other. */
  lemma AgreesChain(o: Outcome, i: Outcome, s: State, scratch: seq<Value>, gas: int,
                    o': Outcome, i': Outcome, s': State, behind: nat)
    requires Agrees(o, i, s, scratch, gas, 0, 0) && Clean(i.tag)
    requires s'.spent == o.st.spent && |s'.locals| == |o.st.locals|
    requires Agrees(o', i', s', scratch, Gas(i.st), 0, behind)
    ensures Agrees(o', i', s, scratch, gas, 0, behind)
  {
  }

  lemma StraightAgrees(h: Host, m: Module, e: Expr, s: State, scratch: seq<Value>, gas: int)
    requires IsPlain(e.op) && ReadyExpr(e, |s.locals|) && 0 < gas
    ensures Agrees(
      ExecOp(h, m, e.op, s),
      ExecOp(h, InjectModule(m), InjectExpr(InfoFor(m), e).op, Metered(s, scratch, gas)),
      s, scratch, gas, 0, BehindOp(h, m, e.op, s))
  {
    PlainAgrees(h, m, e, s, scratch, gas);
    ExecStraight(h, m, e.op, s);
    ExecStraight(h, InjectModule(m), InjectExpr(InfoFor(m), e).op, Metered(s, scratch, gas));
  }

  lemma ExecStraight(h: Host, m: Module, op: Op, st: State)
    requires IsPlain(op)
    ensures ExecOp(h, m, op, st) == Plain(h, op, st)
  {
  }

  lemma PlainAgrees(h: Host, m: Module, e: Expr, s: State, scratch: seq<Value>, gas: int)
    requires IsPlain(e.op) && ReadyExpr(e, |s.locals|) && 0 < gas
    ensures Agrees(
      Plain(h, e.op, s), Plain(h, InjectExpr(InfoFor(m), e).op, Metered(s, scratch, gas)),
      s, scratch, gas, 0, 0)
  {
    if e.op.GlobalGet? || e.op.GlobalSet? { GlobalAgrees(h, m, e, s, scratch, gas); }
    else if e.op.LocalGet? || e.op.LocalSet? || e.op.LocalTee? { LocalAgrees(h, e.op, s, scratch, gas); }
    else { StackAgrees(h, e.op, s, scratch, gas); }
  }

  lemma GlobalAgrees(h: Host, m: Module, e: Expr, s: State, scratch: seq<Value>, gas: int)
    requires (e.op.GlobalGet? || e.op.GlobalSet?) && 0 < gas
    ensures Agrees(
      Plain(h, e.op, s), Plain(h, InjectExpr(InfoFor(m), e).op, Metered(s, scratch, gas)),
      s, scratch, gas, 0, 0)
  {
    var t, x := Metered(s, scratch, gas), e.op.x;
    if x < |s.globals| {
      assert t.globals[x + 1] == s.globals[x];
      if e.op.GlobalSet? && s.stack != [] {
        assert t.globals[x + 1 := Top(s.stack)] == [I64(gas)] + s.globals[x := Top(s.stack)];
      }
    }
  }

  lemma LocalAgrees(h: Host, op: Op, s: State, scratch: seq<Value>, gas: int)
    requires (op.LocalGet? || op.LocalSet? || op.LocalTee?) && op.x < |s.locals| && 0 < gas
    ensures Agrees(Plain(h, op, s), Plain(h, op, Metered(s, scratch, gas)), s, scratch, gas, 0, 0)
  {
    var t := Metered(s, scratch, gas);
    if !op.LocalGet? && s.stack != [] {
      assert t.locals[op.x := Top(s.stack)] == s.locals[op.x := Top(s.stack)] + scratch;
    }
  }

  lemma StackAgrees(h: Host, op: Op, s: State, scratch: seq<Value>, gas: int)
    requires !op.GlobalGet? && !op.GlobalSet? && !op.LocalGet? && !op.LocalSet? && !op.LocalTee? && 0 < gas
    ensures Agrees(Plain(h, op, s), Plain(h, op, Metered(s, scratch, gas)), s, scratch, gas, 0, 0)
  {
  }

  lemma {:induction false} DirectAgrees(h: Host, m: Module, e: Expr, s: State, scratch: seq<Value>, gas: int)
    requires e.op.Call? && ReadyModule(m) && 0 < gas < TWO63
    ensures Agrees(
      ExecOp(h, m, e.op, s),
      ExecOp(h, InjectModule(m), InjectExpr(InfoFor(m), e).op, Metered(s, scratch, gas)),
      s, scratch, gas, 0, BehindOp(h, m, e.op, s))
    decreases s.fuel, 1, e, -1
  {
    CallsKeepTarget(m, e.op.f);
    ExecDirect(h, m, e.op, s);
    ExecDirect(h, InjectModule(m), InjectExpr(InfoFor(m), e).op, Metered(s, scratch, gas));
    CallAgrees(h, m, ResolveFunc(m, e.op.f), s, scratch, gas);
  }

  lemma ExecDirect(h: Host, m: Module, op: Op, st: State)
    requires op.Call?
    ensures ExecOp(h, m, op, st) == ExecCall(h, m, ResolveFunc(m, op.f), st)
  {
  }

  lemma {:induction false} IndirectAgrees(h: Host, m: Module, e: Expr, s: State, scratch: seq<Value>, gas: int)
    requires e.op.CallIndirect? && ReadyModule(m) && 0 < gas < TWO63
    ensures Agrees(
      ExecOp(h, m, e.op, s),
      ExecOp(h, InjectModule(m), InjectExpr(InfoFor(m), e).op, Metered(s, scratch, gas)),
      s, scratch, gas, 0, BehindOp(h, m, e.op, s))
    decreases s.fuel, 1, e, -1
  {
    var m', t := InjectModule(m), Metered(s, scratch, gas);
    if s.stack != [] && Top(s.stack).I32? {
      ExecIndirect(h, m, e.op, s);
      ExecIndirect(h, m', e.op, t);
      var k, popped := Top(s.stack).n, s.(stack := Under(s.stack, 1));
      SameEntry(m, k);
      if TableEntry(m, k).Some? {
        assert t.(stack := Under(s.stack, 1)) == Metered(popped, scratch, gas);
        CallAgrees(h, m, TableEntry(m, k).value, popped, scratch, gas);
      }
    }
  }

  /** The function in an element entry, if there is one. */
  function TableEntry(m: Module, k: int): Option<Callee> {
    if 0 <= k < |m.table| && m.table[k].Some? then Some(ResolveFunc(m, m.table[k].value)) else None
  }

  lemma SameEntry(m: Module, k: int)
    requires ReadyModule(m)
    ensures TableEntry(InjectModule(m), k) == TableEntry(m, k)
    ensures TableEntry(m, k).Some? ==>
      CalleeType(InjectModule(m), TableEntry(m, k).value) == CalleeType(m, TableEntry(m, k).value)
  {
    if 0 <= k < |m.table| && m.table[k].Some? {
      CallsKeepTarget(m, m.table[k].value);
      assert InjectModule(m).table[k] == Some(ShiftCall(InfoFor(m), m.table[k].value));
    }
  }

  lemma ExecIndirect(h: Host, m: Module, op: Op, st: State)
    requires op.CallIndirect? && st.stack != [] && Top(st.stack).I32?
    ensures
      var popped, callee := st.(stack := Under(st.stack, 1)), TableEntry(m, Top(st.stack).n);
      if callee.None? || CalleeType(m, callee.value) != Some(op.sig)
      then ExecOp(h, m, op, st) == Outcome(Trap, popped) && BehindOp(h, m, op, st) == 0
      else ExecOp(h, m, op, st) == ExecCall(h, m, callee.value, popped) &&
           BehindOp(h, m, op, st) == BehindCall(h, m, callee.value, popped)
  {
  }

  lemma {:induction false} CallAgrees(h: Host, m: Module, callee: Callee, s: State, scratch: seq<Value>, gas: int)
    requires ReadyModule(m) && 0 < gas < TWO63
    ensures Agrees(
      ExecCall(h, m, callee, s), ExecCall(h, InjectModule(m), callee, Metered(s, scratch, gas)),
      s, scratch, gas, 0, BehindCall(h, m, callee, s))
    decreases s.fuel, 0
  {
    var m', t := InjectModule(m), Metered(s, scratch, gas);
    if callee.Inside? && callee.k < |m.funcs| && s.fuel > 0 &&
       |m.funcs[callee.k].sig.params| <= |s.stack| {
      var fn := m.funcs[callee.k];
      EntryAgrees(m, fn, s, scratch, gas);
      SeqAgrees(h, m, fn.body, Entry(fn, s), Scratch(fn), gas);
      assert m'.funcs[callee.k] == InjectFunc(InfoFor(m), fn);
      CloseCallAgrees(fn, ExecSeq(h, m, fn.body, Entry(fn, s)),
        ExecSeq(h, m', InjectSeq(InfoFor(m), fn.body), Metered(Entry(fn, s), Scratch(fn), gas)), s, scratch, gas,
        BehindSeq(h, m, fn.body, Entry(fn, s)));
    }
  }

  lemma CloseCallAgrees(fn: Func, o: Outcome, i: Outcome, s: State, scratch: seq<Value>, gas: int, behind: nat)
    requires |fn.sig.params| <= |s.stack| && s.fuel > 0
    requires Agrees(o, i, Entry(fn, s), Scratch(fn), gas, 0, behind)
    ensures
      var np, nr := |fn.sig.params|, |fn.sig.results|;
      Agrees(CloseCall(s, np, nr, o), CloseCall(Metered(s, scratch, gas), np, nr, i), s, scratch, gas, 0, behind)
  {
  }

  /** The scratch local that a metered function has behind its own. */
  function Scratch(fn: Func): seq<Value> { if fn.body == [] then [] else [I32(0)] }

  lemma EntryAgrees(m: Module, fn: Func, s: State, scratch: seq<Value>, gas: int)
    requires |fn.sig.params| <= |s.stack| && s.fuel > 0
    ensures
      var fn' := InjectFunc(InfoFor(m), fn);
      fn'.body == InjectSeq(InfoFor(m), fn.body) && fn'.sig == fn.sig &&
      Entry(fn', Metered(s, scratch, gas)) == Metered(Entry(fn, s), Scratch(fn), gas)
  {
    var fn' := InjectFunc(InfoFor(m), fn);
    assert InjectSeq(InfoFor(m), []) == [];
    assert Zeros(fn'.locals) == Zeros(fn.locals) + Scratch(fn);
  }

  // ---------- main results, for a call of any function in any state ----------

  /** What a call costs: the prices of what it executes, and of what it leaves undone in the segment where it stops. */
  function Due(h: Host, m: Module, k: nat, s: State): int {
    ExecCall(h, m, Inside(k), s).st.spent - s.spent + BehindCall(h, m, Inside(k), s)
  }

  /** Metering keeps the meaning and charges exactly.  However a call ends, at whatever point it is cut, the metered
      call ends in the same way with its due in gas taken, if and only if it starts with more than that and does not
      call outOfGas itself. */
  lemma {:induction false} ExactCharge(h: Host, m: Module, k: nat, s: State, scratch: seq<Value>, gas: int)
    requires ReadyModule(m) && 0 < gas < TWO63
    ensures
      var o := ExecCall(h, m, Inside(k), s);
      var i := ExecCall(h, InjectModule(m), Inside(k), Metered(s, scratch, gas));
      var due := Due(h, m, k, s);
      if gas > due && !o.tag.NoGas? then i == Outcome(o.tag, Metered(o.st, scratch, gas - due)) else i.tag.NoGas?
  {
    CallAgrees(h, m, Inside(k), s, scratch, gas);
    PaidExactly(ExecCall(h, m, Inside(k), s), ExecCall(h, InjectModule(m), Inside(k), Metered(s, scratch, gas)),
                s, scratch, gas, BehindCall(h, m, Inside(k), s));
  }

  lemma PaidExactly(o: Outcome, i: Outcome, s: State, scratch: seq<Value>, gas: int, behind: nat)
    requires Agrees(o, i, s, scratch, gas, 0, behind)
    ensures var due := o.st.spent - s.spent + behind;
            if gas > due && !o.tag.NoGas? then i == Outcome(o.tag, Metered(o.st, scratch, gas - due)) else i.tag.NoGas?
  {
  }

  /** A metered run has paid for exactly what it executed iff nothing with a price is left undone in the segment where
      it stopped, as when it finishes. */
  lemma PaysForExecutedIff(h: Host, m: Module, k: nat, s: State, scratch: seq<Value>, gas: int)
    requires ReadyModule(m) && 0 < gas < TWO63
    ensures
      var i := ExecCall(h, InjectModule(m), Inside(k), Metered(s, scratch, gas));
      !i.tag.NoGas? ==>
        HasGas(i.st) && (gas - Gas(i.st) == i.st.spent - s.spent <==> BehindCall(h, m, Inside(k), s) == 0)
  {
    CallAgrees(h, m, Inside(k), s, scratch, gas);
  }

  /** A trap with nothing behind it leaves nothing undone. */
  lemma TrapAlone(h: Host, m: Module, loc: nat, st: State)
    requires st.fuel > 0
    ensures var code := [Expr(Some(loc), Unreachable)];
            ExecSeq(h, m, code, st).tag.Trap? && BehindSeq(h, m, code, st) == 0
  {
    TrapFirst(h, m, loc, [], st);
    assert [Expr(Some(loc), Unreachable)] == [Expr(Some(loc), Unreachable)] + [];
  }

  /** A trap with a drop behind it leaves the price of that. */
  lemma {:induction false} TrapThenDrop(h: Host, m: Module, loc: nat, st: State)
    requires st.fuel > 0
    ensures var code := [Expr(Some(loc), Unreachable)] + [Expr(Some(loc + 1), Drop)];
            ExecSeq(h, m, code, st).tag.Trap? && BehindSeq(h, m, code, st) == 3
  {
    TrapFirst(h, m, loc, [Expr(Some(loc + 1), Drop)], st);
  }

  lemma TrapFirst(h: Host, m: Module, loc: nat, rest: seq<Expr>, st: State)
    requires st.fuel > 0
    ensures var code := [Expr(Some(loc), Unreachable)] + rest;
            ExecSeq(h, m, code, st).tag.Trap? && BehindSeq(h, m, code, st) == SegCost(rest)
  {
    var trap := Expr(Some(loc), Unreachable);
    ExecStraight(h, m, Unreachable, Tick(Unreachable, st));
    assert ExecExpr(h, m, trap, st).tag.Trap? && BehindExpr(h, m, trap, st) == 0;
    assert ([trap] + rest)[1..] == rest;
  }

  /** Every metered run, however it stops or is cut, is the plain run of the same length or is out of gas. */
  lemma SameRun(h: Host, m: Module, k: nat, s: State, scratch: seq<Value>, gas: int)
    requires ReadyModule(m) && 0 < gas < TWO63
    ensures
      var o := ExecCall(h, m, Inside(k), s);
      var i := ExecCall(h, InjectModule(m), Inside(k), Metered(s, scratch, gas));
      i.tag.NoGas? || (HasGas(i.st) && i == Outcome(o.tag, Metered(o.st, scratch, Gas(i.st))))
  {
    CallAgrees(h, m, Inside(k), s, scratch, gas);
  }

  /** Pay before execute.  Fuel counts parsed instructions, so s.fuel picks any point of any metered run:
      up to there the prices of the instructions executed are covered by the gas already taken, and gas is
      positive unless the run is over for want of it. */
  lemma PaysFirst(h: Host, m: Module, k: nat, s: State, scratch: seq<Value>, gas: int)
    requires ReadyModule(m) && 0 < gas < TWO63
    ensures
      var i := ExecCall(h, InjectModule(m), Inside(k), Metered(s, scratch, gas));
      HasGas(i.st) && i.st.spent - s.spent <= gas - Gas(i.st) && (!i.tag.NoGas? ==> Gas(i.st) > 0)
  {
    CallAgrees(h, m, Inside(k), s, scratch, gas);
  }

  // ---------- metered code always stops ----------

  function Size(code: seq<Expr>): nat {
    if code == [] then 0 else SizeExpr(code[0]) + Size(code[1..])
  }

  function SizeExpr(e: Expr): nat {
    match e.op
    case Block(_, body) => 1 + Size(body)
    case Loop(_, body) => 1 + Size(body)
    case If(_, thn, els) => 1 + Size(thn) + Size(els)
    case _ => 1
  }

  /** Every function body is smaller than n. */
  predicate SmallerThan(m: Module, n: nat) {
    forall k :: 0 <= k < |m.funcs| ==> Size(m.funcs[k].body) < n
  }

  /** The steps of a run are bounded by the size of the code and n times what it spends, because every
      jump and every call has a price.  A run that ends by jumping has n steps to spare. */
  ghost predicate Bounded(st: State, o: Outcome, size: nat, n: nat) {
    st.fuel - o.st.fuel + (if o.tag.Branch? || o.tag.Ret? then n else 0) <=
    size + n * (o.st.spent - st.spent)
  }

  lemma BoundedChain(st: State, o: Outcome, o': Outcome, a: nat, b: nat, n: nat)
    requires Bounded(st, o, a, n) && Bounded(o.st, o', b, n) && o.tag.Next?
    ensures Bounded(st, o', a + b, n)
  {
    assert n * (o'.st.spent - st.spent) == n * (o.st.spent - st.spent) + n * (o'.st.spent - o.st.spent);
  }

  lemma {:induction false} StepsBounded(h: Host, m: Module, code: seq<Expr>, nl: nat, st: State, n: nat)
    requires ReadyFuncs(m) && SmallerThan(m, n) && ReadyBody(code, nl) && Size(code) < n
    ensures Bounded(st, ExecSeq(h, m, code, st), Size(code), n)
    decreases st.fuel, 1, code, 0
  {
    if code != [] {
      var o := ExecExpr(h, m, code[0], st);
      StepsBoundedExpr(h, m, code[0], nl, st, n);
      if o.tag.Next? {
        StepsBounded(h, m, code[1..], nl, o.st, n);
        BoundedChain(st, o, ExecSeq(h, m, code[1..], o.st), SizeExpr(code[0]), Size(code[1..]), n);
      }
    }
  }

  /** Closing a block or a call does not lengthen a run. */
  lemma BoundedClose(st: State, o: Outcome, st': State, o': Outcome, size: nat, n: nat)
    requires Bounded(st, o, size, n)
    requires st'.fuel == st.fuel && st'.spent == st.spent
    requires o'.st.fuel == o.st.fuel && o'.st.spent == o.st.spent
    requires o'.tag.Branch? || o'.tag.Ret? ==> o.tag.Branch? || o.tag.Ret?
    ensures Bounded(st', o', size, n)
  {
  }

  lemma {:induction false} StepsBoundedExpr(h: Host, m: Module, e: Expr, nl: nat, st: State, n: nat)
    requires ReadyFuncs(m) && SmallerThan(m, n) && ReadyExpr(e, nl) && SizeExpr(e) < n
    ensures Bounded(st, ExecExpr(h, m, e, st), SizeExpr(e), n)
    decreases st.fuel, 1, e, 3
  {
    if st.fuel > 0 {
      var o := ExecExpr(h, m, e, st);
      StepsBoundedOp(h, m, e, nl, Tick(e.op, st), n);
      BoundedAfterTick(st, Tick(e.op, st), o, SizeExpr(e), Price(e.op), n);
    }
  }

  lemma BoundedAfterTick(st: State, st': State, o: Outcome, size: nat, p: nat, n: nat)
    requires size > 0 && Bounded(st', o, size - 1 + n * p, n)
    requires st'.fuel == st.fuel - 1 && st'.spent == st.spent + p
    ensures Bounded(st, o, size, n)
  {
    assert n * (o.st.spent - st.spent) == n * (o.st.spent - st'.spent) + n * p;
  }

  /** After the tick: one step and the price of e are already accounted for. */
  lemma {:induction false} StepsBoundedOp(h: Host, m: Module, e: Expr, nl: nat, st: State, n: nat)
    requires ReadyFuncs(m) && SmallerThan(m, n) && ReadyExpr(e, nl) && SizeExpr(e) < n
    ensures Bounded(st, ExecOp(h, m, e.op, st), SizeExpr(e) - 1 + n * Price(e.op), n)
    decreases st.fuel, 1, e, 2
  {
    var o := ExecOp(h, m, e.op, st);
    JumpsCost(e.op, n);
    if e.op.Block? || e.op.If? {
      StepsBoundedBlock(h, m, e, nl, st, n);
      BoundedMore(st, o, SizeExpr(e) - 1, SizeExpr(e) - 1 + n * Price(e.op), n);
    } else if e.op.Loop? {
      StepsBoundedLoop(h, m, e, nl, st, n);
      BoundedMore(st, o, SizeExpr(e) - 1, SizeExpr(e) - 1 + n * Price(e.op), n);
    } else if IsPlain(e.op) {
      StepsBoundedFlat(h, m, e, st, n);
      BoundedMore(st, o, 0, SizeExpr(e) - 1 + n * Price(e.op), n);
    } else {
      if e.op.Call? { StepsBoundedDirect(h, m, e, st, n); }
      else if e.op.CallIndirect? { StepsBoundedIndirect(h, m, e, st, n); }
      else { StepsBoundedFlat(h, m, e, st, n); }
      BoundedMore(st, o, n, SizeExpr(e) - 1 + n * Price(e.op), n);
    }
  }

  lemma StepsBoundedFlat(h: Host, m: Module, e: Expr, st: State, n: nat)
    requires IsPlain(e.op) || e.op.Br? || e.op.BrIf? || e.op.BrTable? || e.op.Return?
    ensures Bounded(st, ExecOp(h, m, e.op, st), if IsPlain(e.op) then 0 else n, n)
  {
    if IsPlain(e.op) { ExecStraight(h, m, e.op, st); }
  }

  lemma {:induction false} StepsBoundedDirect(h: Host, m: Module, e: Expr, st: State, n: nat)
    requires e.op.Call? && ReadyFuncs(m) && SmallerThan(m, n)
    ensures Bounded(st, ExecOp(h, m, e.op, st), n, n)
    decreases st.fuel, 1, e, 1
  {
    StepsBoundedCall(h, m, ResolveFunc(m, e.op.f), st, n);
  }

  lemma BoundedMore(st: State, o: Outcome, size: nat, more: nat, n: nat)
    requires Bounded(st, o, size, n) && size <= more
    ensures Bounded(st, o, more, n)
  {
  }

  /** Every jump and every call has a positive price. */
  lemma JumpsCost(op: Op, n: nat)
    ensures n * Price(op) >= 0
    ensures Jumps(op) ==> Price(op) >= 2 && n * Price(op) >= n
  {
    if Jumps(op) {
      assert n * Price(op) == n + n * (Price(op) - 1);
    }
  }

  /** Branches, calls and returns. */
  predicate Jumps(op: Op) { Closes(op) && !op.Block? && !op.Loop? && !op.If? }

  /** The segment that ends in a jump or a call has a charge in front of it that includes its price. */
  lemma {:induction false} JumpCharged(info: ImportsInfo, code: seq<Expr>, k: nat)
    requires k < |code| && Jumps(code[k].op) && forall j | 0 <= j < k :: !Closes(code[j].op)
    ensures SegCost(code) >= Price(code[k].op) > 0
    ensures InjectSeq(info, code) == Charge(info, SegCost(code)) + InjectBody(info, code)
  {
    JumpsCost(code[k].op, 1);
    if k > 0 { JumpCharged(info, code[1..], k - 1); }
  }

  lemma {:induction false} StepsBoundedIndirect(h: Host, m: Module, e: Expr, st: State, n: nat)
    requires e.op.CallIndirect? && ReadyFuncs(m) && SmallerThan(m, n)
    ensures Bounded(st, ExecOp(h, m, e.op, st), n, n)
    decreases st.fuel, 1, e, 1
  {
    var s := st.stack;
    if s != [] && Top(s).I32? && 0 <= Top(s).n < |m.table| && m.table[Top(s).n].Some? {
      StepsBoundedCall(h, m, ResolveFunc(m, m.table[Top(s).n].value), st.(stack := Under(s, 1)), n);
    }
  }

  lemma {:induction false} StepsBoundedBlock(h: Host, m: Module, e: Expr, nl: nat, st: State, n: nat)
    requires e.op.Block? || e.op.If?
    requires ReadyFuncs(m) && SmallerThan(m, n) && ReadyExpr(e, nl) && SizeExpr(e) < n
    ensures Bounded(st, ExecOp(h, m, e.op, st), SizeExpr(e) - 1, n)
    decreases st.fuel, 1, e, 1
  {
    if e.op.Block? {
      StepsBoundedNested(h, m, e.op.body, st.stack, |e.op.results|, nl, st, n);
    } else if st.stack != [] && Top(st.stack).I32? {
      var body := if Top(st.stack).n != 0 then e.op.thn else e.op.els;
      StepsBoundedNested(h, m, body, Under(st.stack, 1), |e.op.results|, nl, st, n);
      BoundedMore(st, ExecOp(h, m, e.op, st), Size(body), SizeExpr(e) - 1, n);
    }
  }

  lemma {:induction false} StepsBoundedNested(h: Host, m: Module, body: seq<Expr>, outer: seq<Value>, arity: nat,
                                              nl: nat, st: State, n: nat)
    requires ReadyFuncs(m) && SmallerThan(m, n) && Ready(body, nl) && Size(body) < n
    ensures Bounded(st, ExecSeq(h, m, body, st.(stack := [])), Size(body), n)
    ensures Bounded(st, CloseBlock(outer, arity, ExecSeq(h, m, body, st.(stack := []))), Size(body), n)
    decreases st.fuel, 1, body, 1
  {
    var inner := st.(stack := []);
    var o := ExecSeq(h, m, body, inner);
    StepsBounded(h, m, body, nl, inner, n);
    BoundedClose(inner, o, st, o, Size(body), n);
    BoundedClose(inner, o, st, CloseBlock(outer, arity, o), Size(body), n);
  }

  lemma {:induction false} StepsBoundedLoop(h: Host, m: Module, e: Expr, nl: nat, st: State, n: nat)
    requires e.op.Loop? && ReadyFuncs(m) && SmallerThan(m, n) && ReadyExpr(e, nl) && SizeExpr(e) < n
    ensures Bounded(st, ExecOp(h, m, e.op, st), Size(e.op.body), n)
    decreases st.fuel, 1, e, 1
  {
    StepsBoundedNested(h, m, e.op.body, st.stack, |e.op.results|, nl, st, n);
    var o := ExecSeq(h, m, e.op.body, st.(stack := []));
    if o.tag == Branch(0) && o.st.fuel > 0 {
      var again := o.st.(stack := st.stack, fuel := o.st.fuel - 1);
      StepsBoundedLoop(h, m, e, nl, again, n);
      BoundedTwice(st, o, again, ExecOp(h, m, e.op, again), Size(e.op.body), n);
    }
  }

  lemma BoundedTwice(st: State, o: Outcome, again: State, r: Outcome, size: nat, n: nat)
    requires Bounded(st, o, size, n) && o.tag.Branch? && size < n
    requires again.fuel == o.st.fuel - 1 && again.spent == o.st.spent
    requires Bounded(again, r, size, n)
    ensures Bounded(st, r, size, n)
  {
    assert n * (r.st.spent - st.spent) == n * (o.st.spent - st.spent) + n * (r.st.spent - again.spent);
  }

  lemma {:induction false} StepsBoundedCall(h: Host, m: Module, callee: Callee, st: State, n: nat)
    requires ReadyFuncs(m) && SmallerThan(m, n)
    ensures Bounded(st, ExecCall(h, m, callee, st), n, n)
    ensures var o := ExecCall(h, m, callee, st); !o.tag.Branch? && !o.tag.Ret?
    decreases st.fuel, 0
  {
    if callee.Inside? && callee.k < |m.funcs| && st.fuel > 0 &&
       |m.funcs[callee.k].sig.params| <= |st.stack| {
      var fn := m.funcs[callee.k];
      StepsBounded(h, m, fn.body, NumLocals(fn), Entry(fn, st), n);
    }
  }

  /** Metered code always stops: with gas units of gas, a metered call finishes, traps or runs out of gas
      within n * (gas + 1) parsed instructions, jumps and calls, n being larger than any function body.
      Gas is a bound on time even where the plain code loops or recurses for ever. */
  lemma {:induction false} MeteredRunsStop(h: Host, m: Module, k: nat, s: State, scratch: seq<Value>, gas: int, n: nat)
    requires ReadyModule(m) && SmallerThan(m, n) && 0 < gas < TWO63
    requires s.fuel > n * (gas + 1)
    ensures !ExecCall(h, InjectModule(m), Inside(k), Metered(s, scratch, gas)).tag.Cut?
  {
    var o := ExecCall(h, m, Inside(k), s);
    CallAgrees(h, m, Inside(k), s, scratch, gas);
    StepsBoundedCall(h, m, Inside(k), s, n);
    SpentGrowsCall(h, m, Inside(k), s);
    if o.tag.Cut? && o.st.spent - s.spent <= gas {
      MulMonotone(n, o.st.spent - s.spent, gas);
    }
  }

  lemma MulMonotone(n: nat, a: int, b: int)
    requires a <= b
    ensures n * a <= n * b && n * (b + 1) == n * b + n
  {
  }

  /** Without the meter nothing bounds a run: a loop that jumps back is cut at every length. */
  lemma {:induction false} PlainLoopNeverStops(h: Host, m: Module, loc: nat, st: State)
    requires st.stack == []
    ensures ExecOp(h, m, Loop([], [Expr(Some(loc), Br(0))]), st).tag.Cut?
    decreases st.fuel
  {
    var body := [Expr(Some(loc), Br(0))];
    assert body == [body[0]] + [];
    ExecCons(h, m, body[0], [], st.(stack := []));
    if st.fuel > 1 {
      var o := ExecSeq(h, m, body, st.(stack := []));
      assert o.tag == Branch(0);
      PlainLoopNeverStops(h, m, loc, o.st.(stack := st.stack, fuel := o.st.fuel - 1));
    }
  }

  // ---------- when code is ready ----------

  /** Local indices are in range. */
  predicate LocalsInRange(code: seq<Expr>, n: nat) {
    code == [] || (LocalsInRangeExpr(code[0], n) && LocalsInRange(code[1..], n))
  }

  predicate LocalsInRangeExpr(e: Expr, n: nat) {
    match e.op
    case LocalGet(x) => x < n
    case LocalSet(x) => x < n
    case LocalTee(x) => x < n
    case Block(_, body) => LocalsInRange(body, n)
    case Loop(_, body) => LocalsInRange(body, n)
    case If(_, thn, els) => LocalsInRange(thn, n) && LocalsInRange(els, n)
    case _ => true
  }

  lemma CostFits(op: Op)
    ensures Price(op) <= UNPRICED
  {
  }

  lemma {:induction false} SegCostFits(code: seq<Expr>)
    ensures SegCost(code) <= UNPRICED * Size(code)
  {
    if code != [] {
      CostFits(code[0].op);
      SegCostFits(code[1..]);
      assert UNPRICED * Size(code) == UNPRICED * SizeExpr(code[0]) + UNPRICED * Size(code[1..]);
    }
  }

  /** Any parsed function of fewer than 2^31 instructions with valid local indices is ready. */
  lemma {:induction false} ShortCodeIsReady(code: seq<Expr>, n: nat)
    requires Parsed(code) && LocalsInRange(code, n) && Size(code) <= 0x8000_0000
    ensures Ready(code, n) && ReadyBody(code, n)
    decreases code
  {
    SegCostFits(code);
    if code != [] {
      ShortCodeIsReady(code[1..], n);
      ShortExprIsReady(code[0], n);
    }
  }

  lemma {:induction false} ShortExprIsReady(e: Expr, n: nat)
    requires ParsedExpr(e) && LocalsInRangeExpr(e, n) && SizeExpr(e) <= 0x8000_0000
    ensures ReadyExpr(e, n)
    decreases e
  {
    match e.op
    case Block(_, body) => ShortCodeIsReady(body, n);
    case Loop(_, body) => ShortCodeIsReady(body, n);
    case If(_, thn, els) => ShortCodeIsReady(thn, n); ShortCodeIsReady(els, n);
    case _ =>
  }
}
