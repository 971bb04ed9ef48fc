/** The conflict fields of a call (decodeConflictFields in src/executor/TransactionExecutor.cpp): keys made of a slot
    and, for arguments, the encoded bytes at a path into the parameters. */
module ConflictFields {
  import opened Scale
  import opened ScaleLength
  import opened ScaleValues
  import opened WasmConflicts

  const ALL: nat := 0
  const LEN: nat := 1
  const ENV: nat := 2
  const VAR: nat := 3

  const CALLER: nat := 0
  const ORIGIN: nat := 1
  const NOW: nat := 2
  const BLOCK_NUMBER: nat := 3
  const ADDR: nat := 4

  datatype ConflictField = ConflictField(kind: nat, accessPath: seq<nat>, slot: nat)

  /** What a call brings along: data begins with the four bytes of the selector. */
  datatype Call = Call(data: bytes, sender: bytes, origin: bytes, to: bytes, toHash: nat, now: bytes, number: bytes)

  /** A key, no key, or a read past the end of the data. */
  datatype Key = Key(bytes: bytes) | NoKey | Overrun

  function NotFound(o: Outcome): Key { if o.OutOfBounds? then Overrun else NoKey }

  // ---------- the argument at a path ----------

  /** Past the components from the i-th up to the segment. */
  function Skip(cs: seq<ParameterAbi>, i: nat, segment: nat, s: bytes, pos: nat): Outcome
    requires i <= segment <= |cs|
    decreases segment - i
  {
    if i == segment then Found(pos)
    else
      var l := Length(cs[i], s, pos);
      if !l.Found? then l else Skip(cs, i + 1, segment, s, Wrap32(pos + l.value))
  }

  /** The key of the argument that the path, from its i-th segment on, leads to. */
  function ArgumentKey(cs: seq<ParameterAbi>, path: seq<nat>, i: nat, s: bytes, pos: nat): Key
    requires i < |path|
    decreases |path| - i
  {
    if path[i] >= |cs| then NoKey
    else
      var here := Skip(cs, 0, path[i], s, pos);
      if !here.Found? then NotFound(here)
      else if i + 1 < |path| then ArgumentKey(cs[path[i]].components, path, i + 1, s, here.value)
      else
        var l := Length(cs[path[i]], s, here.value);
        if !l.Found? then NotFound(l)
        else if here.value + l.value > |s| then Overrun
        else Key(s[here.value..here.value + l.value])
  }

  method VarKey(inputs: seq<ParameterAbi>, accessPath: seq<nat>, inputData: bytes) returns (key: Key)
    requires accessPath != []
    ensures key == ArgumentKey(inputs, accessPath, 0, inputData, 0)
  {
    var components, startPos: nat := inputs, 0;
    var paramAbi := ParameterAbi("", []);
    for k := 0 to |accessPath|
      invariant k < |accessPath| ==>
        ArgumentKey(inputs, accessPath, 0, inputData, 0) == ArgumentKey(components, accessPath, k, inputData, startPos)
      invariant k == |accessPath| ==>
        ArgumentKey(inputs, accessPath, 0, inputData, 0) ==
          var l := Length(paramAbi, inputData, startPos);
          if !l.Found? then NotFound(l)
          else if startPos + l.value > |inputData| then Overrun
          else Key(inputData[startPos..startPos + l.value])
    {
      var segment := accessPath[k];
      if segment >= |components| {
        return NoKey;
      }
      ghost var from := startPos;
      for i := 0 to segment
        invariant Skip(components, 0, segment, inputData, from) == Skip(components, i, segment, inputData, startPos)
      {
        var length := ScaleEncodingLength(components[i], inputData, startPos);
        if !length.Found? {
          return NotFound(length);
        }
        startPos := Wrap32(startPos + length.value);
      }
      paramAbi := components[segment];
      components := paramAbi.components;
    }
    var length := ScaleEncodingLength(paramAbi, inputData, startPos);
    if !length.Found? {
      return NotFound(length);
    }
    if startPos + length.value > |inputData| {
      return Overrun;
    }
    return Key(inputData[startPos..startPos + length.value]);
  }

  // ---------- what the key is ----------

  /** The path leads through plain tuples. */
  predicate Leads(ts: seq<Type>, path: seq<nat>, i: nat)
    requires i < |path|
    decreases |path| - i
  {
    path[i] < |ts| && (i + 1 < |path| ==> ts[path[i]].Tuple? && Leads(ts[path[i]].ts, path, i + 1))
  }

  function TypeAt(ts: seq<Type>, path: seq<nat>, i: nat): Type
    requires i < |path| && Leads(ts, path, i)
    decreases |path| - i
  {
    if i + 1 == |path| then ts[path[i]] else TypeAt(ts[path[i]].ts, path, i + 1)
  }

  predicate AllTyped(vs: seq<Value>, ts: seq<Type>) {
    |vs| == |ts| && forall i: nat :: i < |ts| ==> HasType(vs[i], ts[i])
  }

  function ValueAt(vs: seq<Value>, ts: seq<Type>, path: seq<nat>, i: nat): (v: Value)
    requires i < |path| && Leads(ts, path, i) && AllTyped(vs, ts)
    ensures HasType(v, TypeAt(ts, path, i))
    decreases |path| - i
  {
    if i + 1 == |path| then vs[path[i]] else ValueAt(vs[path[i]].vs, ts[path[i]].ts, path, i + 1)
  }

  /** Skipping parameters whose encodings stand one behind the other leads to the place of the one wanted. */
  lemma {:induction false} SkipExact(
    cs: seq<ParameterAbi>, es: seq<bytes>, i: nat, segment: nat, s: bytes, pos: nat)
    requires i <= segment <= |es| && EachFits(cs, es, s, pos)
    requires pos + |ConcatAll(es)| < U32
    ensures Skip(cs, i, segment, s, pos + |Concat(es, i)|) == Found(pos + |Concat(es, segment)|)
    decreases segment - i
  {
    if i < segment {
      var here := pos + |Concat(es, i)|;
      NextPlace(cs, es, i, s, pos);
      SkipExact(cs, es, i + 1, segment, s, pos);
      SkipStep(cs, i, segment, s, here, |es[i]|);
    }
  }

  lemma {:induction false} NextPlace(cs: seq<ParameterAbi>, es: seq<bytes>, i: nat, s: bytes, pos: nat)
    requires i < |es| && EachFits(cs, es, s, pos) && pos + |ConcatAll(es)| < U32
    ensures Length(cs[i], s, pos + |Concat(es, i)|) == Found(|es[i]|)
    ensures |Concat(es, i + 1)| == |Concat(es, i)| + |es[i]| && pos + |Concat(es, i + 1)| < U32
  {
    assert Fits(cs[i], es, i, s, pos);
    ConcatGrows(es, i + 1, |es|);
  }

  lemma {:induction false} SkipStep(cs: seq<ParameterAbi>, i: nat, segment: nat, s: bytes, pos: nat, n: nat)
    requires i < segment <= |cs| && Length(cs[i], s, pos) == Found(n) && pos + n < U32
    ensures Skip(cs, i, segment, s, pos) == Skip(cs, i + 1, segment, s, pos + n)
  {
  }

  function Encodings(vs: seq<Value>, ts: seq<Type>): seq<bytes>
    requires AllTyped(vs, ts)
  {
    seq(|ts|, i requires 0 <= i < |ts| => Encode(vs[i], ts[i]))
  }

  predicate AllCountable(vs: seq<Value>, ts: seq<Type>) {
    |vs| == |ts| && forall i: nat :: i < |ts| ==> Countable(vs[i], ts[i])
  }

  lemma {:induction false} EncodingsAre(vs: seq<Value>, ts: seq<Type>)
    requires AllTyped(vs, ts) && AllCountable(vs, ts)
    ensures EachEncode(vs, ts, Encodings(vs, ts))
  {
    forall i: nat | i < |vs| ensures Encodes(vs[i], ts[i], Encodings(vs, ts)[i]) { }
  }

  lemma {:induction false} EncodingIs(vs: seq<Value>, ts: seq<Type>, k: nat)
    requires AllTyped(vs, ts) && k < |ts|
    ensures Encodings(vs, ts)[k] == Encode(vs[k], ts[k]) && Components(Tuple(ts))[k] == Render(ts[k])
  {
  }

  lemma StandsSlice(s: bytes, at: nat, e: bytes)
    requires Stands(s, at, e)
    ensures s[at..at + |e|] == e
  {
    forall i | 0 <= i < |e| ensures s[at..at + |e|][i] == e[i] { assert s[at + i] == e[i]; }
  }

  /** A tuple's encoding is that of its components. */
  lemma TupleEncodes(v: Value, t: Type)
    requires t.Tuple? && HasType(v, t) && Countable(v, t)
    ensures AllTyped(v.vs, t.ts) && AllCountable(v.vs, t.ts) && Encode(v, t) == ConcatAll(Encodings(v.vs, t.ts))
  {
    assert Encode(v, t) == EncodeComposite(v, t);
  }

  lemma LastSegment(cs: seq<ParameterAbi>, path: seq<nat>, i: nat, s: bytes, pos: nat, at: nat, e: bytes)
    requires i + 1 == |path| && path[i] < |cs| && Skip(cs, 0, path[i], s, pos) == Found(at)
    requires LengthIs(cs[path[i]], s, at, |e|) && Stands(s, at, e)
    ensures ArgumentKey(cs, path, i, s, pos) == Key(e)
  {
    StandsSlice(s, at, e);
  }

  lemma InnerSegment(cs: seq<ParameterAbi>, path: seq<nat>, i: nat, s: bytes, pos: nat, at: nat)
    requires i + 1 < |path| && path[i] < |cs| && Skip(cs, 0, path[i], s, pos) == Found(at)
    ensures ArgumentKey(cs, path, i, s, pos) == ArgumentKey(cs[path[i]].components, path, i + 1, s, at)
  {
  }

  /** The arguments stand at a position of the data. */
  ghost predicate ArgumentsStand(vs: seq<Value>, ts: seq<Type>, s: bytes, pos: nat) {
    AllTyped(vs, ts) && AllCountable(vs, ts) && Nameable(Tuple(ts)) && |s| < U32 &&
    |ConcatAll(Encodings(vs, ts))| < U32 && Stands(s, pos, ConcatAll(Encodings(vs, ts)))
  }

  /** The k-th encoding stands behind those before it, and is found there. */
  lemma {:induction false} EncodingFound(cs: seq<ParameterAbi>, es: seq<bytes>, k: nat, s: bytes, pos: nat)
    requires k < |es| && EachFits(cs, es, s, pos)
    requires |ConcatAll(es)| < U32 && |s| < U32 && Stands(s, pos, ConcatAll(es))
    ensures var at := pos + |Concat(es, k)|;
      Skip(cs, 0, k, s, pos) == Found(at) && Stands(s, at, es[k]) && LengthIs(cs[k], s, at, |es[k]|) && |es[k]| < U32
  {
    SkipExact(cs, es, 0, k, s, pos);
    StandsEach(es, k, |es|, s, pos);
    assert Fits(cs[k], es, k, s, pos);
  }

  lemma {:induction false} EncodedPlace(
    vs: seq<Value>, ts: seq<Type>, es: seq<bytes>, k: nat, e: bytes, s: bytes, pos: nat)
    requires EachEncode(vs, ts, es) && Nameable(Tuple(ts)) && k < |ts| && e == es[k]
    requires |ConcatAll(es)| < U32 && |s| < U32 && Stands(s, pos, ConcatAll(es))
    ensures var at := pos + |Concat(es, k)|;
      Skip(Components(Tuple(ts)), 0, k, s, pos) == Found(at) && StandsFound(Render(ts[k]), e, s, at)
  {
    ComponentsFit(vs, ts, es, s, pos);
    EncodingFound(Components(Tuple(ts)), es, k, s, pos);
  }

  /** An encoding of 32-bit length stands at a place, and its length is found there. */
  ghost predicate StandsFound(p: ParameterAbi, e: bytes, s: bytes, at: nat) {
    Stands(s, at, e) && LengthIs(p, s, at, |e|) && |e| < U32
  }

  /** The k-th argument stands behind those before it, and is found there. */
  lemma {:induction false} ArgumentStands(vs: seq<Value>, ts: seq<Type>, k: nat, s: bytes, pos: nat) returns (at: nat)
    requires ArgumentsStand(vs, ts, s, pos) && k < |ts|
    ensures Skip(Components(Tuple(ts)), 0, k, s, pos) == Found(at)
    ensures StandsFound(Render(ts[k]), Encode(vs[k], ts[k]), s, at)
  {
    var es := Encodings(vs, ts);
    EncodingsAre(vs, ts);
    EncodingIs(vs, ts, k);
    EncodedPlace(vs, ts, es, k, Encode(vs[k], ts[k]), s, pos);
    at := pos + |Concat(es, k)|;
  }

  /** The key is the encoding of the value at the path. */
  lemma {:induction false} ArgumentKeyExact(vs: seq<Value>, ts: seq<Type>, path: seq<nat>, i: nat, s: bytes, pos: nat)
    requires i < |path| && Leads(ts, path, i) && ArgumentsStand(vs, ts, s, pos)
    ensures ArgumentKey(Components(Tuple(ts)), path, i, s, pos) ==
            Key(Encode(ValueAt(vs, ts, path, i), TypeAt(ts, path, i)))
    decreases |path| - i
  {
    var k, cs := path[i], Components(Tuple(ts));
    var at := ArgumentStands(vs, ts, k, s, pos);
    if i + 1 == |path| {
      LastSegment(cs, path, i, s, pos, at, Encode(vs[k], ts[k]));
    } else {
      InnerSegment(cs, path, i, s, pos, at);
      TupleEncodes(vs[k], ts[k]);
      ArgumentKeyExact(vs[k].vs, ts[k].ts, path, i + 1, s, at);
    }
  }

  lemma {:induction false} ValueAtCountable(vs: seq<Value>, ts: seq<Type>, path: seq<nat>, i: nat)
    requires i < |path| && Leads(ts, path, i) && AllTyped(vs, ts) && AllCountable(vs, ts)
    ensures Countable(ValueAt(vs, ts, path, i), TypeAt(ts, path, i))
    decreases |path| - i
  {
    if i + 1 < |path| { ValueAtCountable(vs[path[i]].vs, ts[path[i]].ts, path, i + 1); }
  }

  /** Two calls get the same key for a path exactly when the values at the path are the same. */
  lemma KeysEqualIff(ts: seq<Type>, path: seq<nat>, vs: seq<Value>, s: bytes, ws: seq<Value>, z: bytes)
    requires 0 < |path| && Leads(ts, path, 0)
    requires ArgumentsStand(vs, ts, s, 0) && ArgumentsStand(ws, ts, z, 0)
    ensures ArgumentKey(Components(Tuple(ts)), path, 0, s, 0) == ArgumentKey(Components(Tuple(ts)), path, 0, z, 0)
            <==> ValueAt(vs, ts, path, 0) == ValueAt(ws, ts, path, 0)
  {
    ArgumentKeyExact(vs, ts, path, 0, s, 0);
    ArgumentKeyExact(ws, ts, path, 0, z, 0);
    ValueAtCountable(vs, ts, path, 0);
    ValueAtCountable(ws, ts, path, 0);
    KeyBound(Components(Tuple(ts)), path, 0, s, 0);
    KeyBound(Components(Tuple(ts)), path, 0, z, 0);
    var t := TypeAt(ts, path, 0);
    var v, w := ValueAt(vs, ts, path, 0), ValueAt(ws, ts, path, 0);
    EncodingsEqualIff(v, w, t, Encode(v, t), Encode(w, t));
  }

  /** Bytes that a value of 32-bit length is encoded in. */
  ghost predicate EncodedAs(v: Value, t: Type, e: bytes) {
    HasType(v, t) && Countable(v, t) && e == Encode(v, t) && |e| < U32
  }

  lemma {:induction false} EncodingsEqualIff(v: Value, w: Value, t: Type, e: bytes, e': bytes)
    requires EncodedAs(v, t, e) && EncodedAs(w, t, e')
    ensures e == e' <==> v == w
  {
    if e == e' { Unique(v, w, t, e, 0); }
  }

  lemma {:induction false} KeyBound(cs: seq<ParameterAbi>, path: seq<nat>, i: nat, s: bytes, pos: nat)
    requires i < |path|
    ensures var key := ArgumentKey(cs, path, i, s, pos); key.Key? ==> |key.bytes| <= |s|
    decreases |path| - i
  {
    if path[i] < |cs| {
      var here := Skip(cs, 0, path[i], s, pos);
      if here.Found? && i + 1 < |path| { KeyBound(cs[path[i]].components, path, i + 1, s, here.value); }
    }
  }

  // ---------- all fields of a function ----------

  datatype Decoded = Fields(fields: seq<Field>) | NotParallel | BeyondData

  /** What the function's author has to see to. */
  predicate PathsOk(f: ConflictField) {
    (f.kind == ENV ==> |f.accessPath| == 1) && (f.kind == VAR ==> f.accessPath != [])
  }

  function FieldKey(f: ConflictField, inputs: seq<ParameterAbi>, call: Call): Key
    requires PathsOk(f)
  {
    if f.kind == ALL || f.kind == LEN then Key([])
    else if f.kind == ENV then
      if f.accessPath[0] == CALLER then Key(call.sender)
      else if f.accessPath[0] == ORIGIN then Key(call.origin)
      else if f.accessPath[0] == NOW then Key(call.now)
      else if f.accessPath[0] == BLOCK_NUMBER then Key(call.number)
      else if f.accessPath[0] == ADDR then Key(call.to)
      else NoKey
    else if f.kind == VAR then ArgumentKey(inputs, f.accessPath, 0, Arguments(call.data), 0)
    else NoKey
  }

  function Arguments(data: bytes): bytes { if |data| < 4 then [] else data[4..] }

  predicate FieldIs(f: ConflictField, inputs: seq<ParameterAbi>, call: Call, field: Field) {
    PathsOk(f) && FieldKey(f, inputs, call) == Key(field.key) && field.slot == (call.toHash + f.slot) % U64
  }

  /** The field names an item of the environment. */
  predicate Reads(f: ConflictField, item: nat) { f.kind == ENV && f.accessPath == [item] }

  /** The data of a call are four bytes that select the function, then the encodings of the arguments. */
  ghost predicate CallWith(call: Call, selector: bytes, vs: seq<Value>, ts: seq<Type>) {
    |selector| == 4 && |call.data| < U32 && AllTyped(vs, ts) && AllCountable(vs, ts) && Nameable(Tuple(ts)) &&
    call.data == selector + ConcatAll(Encodings(vs, ts))
  }

  /** Whatever arguments the call was made with, the key is the encoding of the one at the path. */
  ghost predicate KeyIsArgument(path: seq<nat>, inputs: seq<ParameterAbi>, call: Call, key: bytes) {
    path != [] && forall selector, vs, ts |
      CallWith(call, selector, vs, ts) && inputs == Components(Tuple(ts)) && Leads(ts, path, 0) ::
      key == Encode(ValueAt(vs, ts, path, 0), TypeAt(ts, path, 0))
  }

  /** A field that names an argument has a key, the encoding of the argument, in every call with arguments. */
  lemma {:induction false} VarFieldExact(f: ConflictField, call: Call, selector: bytes, vs: seq<Value>, ts: seq<Type>)
    requires f.kind == VAR && f.accessPath != [] && Leads(ts, f.accessPath, 0) && CallWith(call, selector, vs, ts)
    ensures FieldKey(f, Components(Tuple(ts)), call) ==
            Key(Encode(ValueAt(vs, ts, f.accessPath, 0), TypeAt(ts, f.accessPath, 0)))
  {
    var s := ConcatAll(Encodings(vs, ts));
    assert Arguments(call.data) == s;
    assert Stands(s, 0, s);
    ArgumentKeyExact(vs, ts, f.accessPath, 0, s, 0);
  }

  lemma {:induction false} VarField(f: ConflictField, inputs: seq<ParameterAbi>, call: Call, key: bytes)
    requires f.kind == VAR && f.accessPath != [] && FieldKey(f, inputs, call) == Key(key)
    ensures KeyIsArgument(f.accessPath, inputs, call, key)
  {
    forall selector, vs, ts |
      CallWith(call, selector, vs, ts) && inputs == Components(Tuple(ts)) && Leads(ts, f.accessPath, 0)
      ensures key == Encode(ValueAt(vs, ts, f.accessPath, 0), TypeAt(ts, f.accessPath, 0))
    {
      VarFieldExact(f, call, selector, vs, ts);
    }
  }

  predicate KnownKind(f: ConflictField) {
    f.kind <= VAR && (f.kind == ENV ==> |f.accessPath| == 1 && f.accessPath[0] <= ADDR)
  }

  /** An argument named is one that the call was made with. */
  ghost predicate Answerable(f: ConflictField, inputs: seq<ParameterAbi>, call: Call) {
    KnownKind(f) && (f.kind == VAR ==> f.accessPath != [] && InCall(f.accessPath, inputs, call))
  }

  ghost predicate InCall(path: seq<nat>, inputs: seq<ParameterAbi>, call: Call)
    requires path != []
  {
    exists selector, vs, ts ::
      CallWith(call, selector, vs, ts) && inputs == Components(Tuple(ts)) && Leads(ts, path, 0)
  }

  lemma {:induction false} AnswerableHasKey(f: ConflictField, inputs: seq<ParameterAbi>, call: Call)
    requires Answerable(f, inputs, call)
    ensures PathsOk(f) && FieldKey(f, inputs, call).Key?
  {
    if f.kind == VAR {
      var selector, vs, ts :|
        CallWith(call, selector, vs, ts) && inputs == Components(Tuple(ts)) && Leads(ts, f.accessPath, 0);
      VarFieldExact(f, call, selector, vs, ts);
    }
  }

  lemma {:induction false} ArgumentEncoded(
    path: seq<nat>, call: Call, selector: bytes, vs: seq<Value>, ts: seq<Type>, v: Value, t: Type)
    requires path != [] && Leads(ts, path, 0) && CallWith(call, selector, vs, ts)
    requires v == ValueAt(vs, ts, path, 0) && t == TypeAt(ts, path, 0)
    ensures EncodedAs(v, t, Encode(v, t))
  {
    var s := ConcatAll(Encodings(vs, ts));
    assert Stands(s, 0, s);
    ArgumentKeyExact(vs, ts, path, 0, s, 0);
    KeyBound(Components(Tuple(ts)), path, 0, s, 0);
    ValueAtCountable(vs, ts, path, 0);
  }

  /** A key of a call for the argument at a path, which has the given value and type. */
  ghost predicate KeyOf(key: bytes, path: seq<nat>, call: Call, ts: seq<Type>, v: Value, t: Type) {
    && KeyIsArgument(path, Components(Tuple(ts)), call, key) && Leads(ts, path, 0) && TypeAt(ts, path, 0) == t
    && exists selector, vs :: CallWith(call, selector, vs, ts) && ValueAt(vs, ts, path, 0) == v
  }

  lemma {:induction false} KeyOfArgument(key: bytes, path: seq<nat>, call: Call, ts: seq<Type>, v: Value, t: Type)
    requires KeyOf(key, path, call, ts, v, t)
    ensures EncodedAs(v, t, key)
  {
    var selector, vs :| CallWith(call, selector, vs, ts) && ValueAt(vs, ts, path, 0) == v;
    ArgumentEncoded(path, call, selector, vs, ts, v, t);
  }

  /** Two calls, of one function or of two, get the same key for arguments of one type exactly when these are the
      same. */
  lemma {:induction false} SharedKeyIff(
    key: bytes, path: seq<nat>, call: Call, ts: seq<Type>, v: Value,
    key': bytes, path': seq<nat>, call': Call, ts': seq<Type>, v': Value, t: Type)
    requires KeyOf(key, path, call, ts, v, t) && KeyOf(key', path', call', ts', v', t)
    ensures key == key' <==> v == v'
  {
    KeyOfArgument(key, path, call, ts, v, t);
    KeyOfArgument(key', path', call', ts', v', t);
    EncodingsEqualIff(v, v', t, key, key');
  }

  /** The i-th field is the first without a key. */
  predicate FailsFirst(fs: seq<ConflictField>, inputs: seq<ParameterAbi>, call: Call, i: nat, why: Key) {
    i < |fs| && (forall j | 0 <= j <= i :: PathsOk(fs[j])) && FieldKey(fs[i], inputs, call) == why &&
    forall j | 0 <= j < i :: FieldKey(fs[j], inputs, call).Key?
  }

  method DecodeConflictFields(
    conflictFields: seq<ConflictField>, inputs: seq<ParameterAbi>, call: Call)
    returns (r: Decoded)
    requires forall f | f in conflictFields :: PathsOk(f)
    ensures r.Fields? ==> conflictFields != [] && |r.fields| == |conflictFields|
    ensures r.Fields? ==> forall i | 0 <= i < |conflictFields| :: FieldIs(conflictFields[i], inputs, call, r.fields[i])
    // the key of a whole slot or of its length is empty, that of the environment is the item named
    ensures r.Fields? ==> forall i | 0 <= i < |conflictFields| ::
      (conflictFields[i].kind == ALL || conflictFields[i].kind == LEN ==> r.fields[i].key == []) &&
      (Reads(conflictFields[i], CALLER) ==> r.fields[i].key == call.sender) &&
      (Reads(conflictFields[i], ORIGIN) ==> r.fields[i].key == call.origin) &&
      (Reads(conflictFields[i], NOW) ==> r.fields[i].key == call.now) &&
      (Reads(conflictFields[i], BLOCK_NUMBER) ==> r.fields[i].key == call.number) &&
      (Reads(conflictFields[i], ADDR) ==> r.fields[i].key == call.to)
    // that of an argument is its encoding
    ensures r.Fields? ==> forall i | 0 <= i < |conflictFields| ::
      conflictFields[i].kind == VAR ==> KeyIsArgument(conflictFields[i].accessPath, inputs, call, r.fields[i].key)
    // there is an answer whenever the kinds are known and the paths lead to arguments of the call
    ensures r.Fields? ==> forall f | f in conflictFields :: KnownKind(f)
    ensures conflictFields != [] && (forall f | f in conflictFields :: Answerable(f, inputs, call)) ==> r.Fields?
    ensures r.NotParallel? <==>
            (conflictFields == [] || exists i: nat :: FailsFirst(conflictFields, inputs, call, i, NoKey))
    ensures r.BeyondData? <==> exists i: nat :: FailsFirst(conflictFields, inputs, call, i, Overrun)
  {
    if conflictFields == [] {
      return NotParallel;
    }
    var fields: seq<Field> := [];
    for i := 0 to |conflictFields|
      invariant |fields| == i
      invariant forall j | 0 <= j < i :: FieldIs(conflictFields[j], inputs, call, fields[j])
    {
      var conflictField := conflictFields[i];
      assert forall j | 0 <= j <= i :: conflictFields[j] in conflictFields;
      assert PathsOk(conflictField);
      var slot := (call.toHash + conflictField.slot) % U64;
      var key := Key([]);
      if conflictField.kind == ENV {
        var envKind := conflictField.accessPath[0];
        if envKind == CALLER { key := Key(call.sender); }
        else if envKind == ORIGIN { key := Key(call.origin); }
        else if envKind == NOW { key := Key(call.now); }
        else if envKind == BLOCK_NUMBER { key := Key(call.number); }
        else if envKind == ADDR { key := Key(call.to); }
        else { key := NoKey; }
      } else if conflictField.kind == VAR {
        key := VarKey(inputs, conflictField.accessPath, Arguments(call.data));
      } else if conflictField.kind != ALL && conflictField.kind != LEN {
        key := NoKey;
      }
      assert key == FieldKey(conflictField, inputs, call);
      if !key.Key? && Answerable(conflictField, inputs, call) {
        AnswerableHasKey(conflictField, inputs, call);
        assert false;
      }
      if key.NoKey? {
        assert FailsFirst(conflictFields, inputs, call, i, NoKey);
        return NotParallel;
      }
      if key.Overrun? {
        assert FailsFirst(conflictFields, inputs, call, i, Overrun);
        return BeyondData;
      }
      fields := fields + [Field(slot, key.bytes)];
    }
    forall i | 0 <= i < |conflictFields| && conflictFields[i].kind == VAR
      ensures KeyIsArgument(conflictFields[i].accessPath, inputs, call, fields[i].key)
    {
      assert FieldIs(conflictFields[i], inputs, call, fields[i]);
      VarField(conflictFields[i], inputs, call, fields[i].key);
    }
    return Fields(fields);
  }
}
