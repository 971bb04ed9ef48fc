/** The types and values that arguments have, their names and encodings, and what the length found from a type's
    name has to do with them. */
module ScaleValues {
  import opened Scale
  import opened ScaleLength

  datatype Type =
    | Integer(signed: bool, size: nat)
    | Bool
    | Byte
    | FixedBytes(size: nat)
    | Bytes
    | Text
    | Tuple(ts: seq<Type>)
    | Slice(element: Type)
    | Array(element: Type, count: nat)

  datatype Value = Num(n: int) | Truth(b: bool) | Octets(bs: bytes) | Many(vs: seq<Value>)

  // ---------- names ----------

  /** n in decimal digits. */
  function Dec(n: nat): (s: string)
    ensures |s| > 0
  {
    var d := ['0' + (n % 10) as char];
    if n < 10 then d else Dec(n / 10) + d
  }

  function Name(t: Type): string
    decreases t, 0
  {
    match t
    case Integer(signed, size) => (if signed then "int" else "uint") + Dec(8 * size)
    case Bool => "bool"
    case Byte => "byte"
    case FixedBytes(size) => "bytes" + Dec(size)
    case Bytes => "bytes"
    case Text => "string"
    case Tuple(_) => "tuple"
    case Slice(e) => Render(e).ty + "[" + "]"
    case Array(e, n) => Render(e).ty + "[" + (Dec(n) + "]")
  }

  function Render(t: Type): ParameterAbi
    decreases t, 1
  {
    ParameterAbi(Name(t), Components(t))
  }

  function Components(t: Type): seq<ParameterAbi>
    decreases t, 0
  {
    match t
    case Tuple(ts) => seq(|ts|, i requires 0 <= i < |ts| => Render(ts[i]))
    case Slice(e) => Render(e).components
    case Array(e, _) => Render(e).components
    case _ => []
  }

  /** The numbers in the name fit in 32 bits. */
  predicate Nameable(t: Type) {
    match t
    case Integer(_, size) => 8 * size < U32
    case FixedBytes(size) => size < U32
    case Tuple(ts) => forall i :: 0 <= i < |ts| ==> Nameable(ts[i])
    case Slice(e) => Nameable(e)
    case Array(e, n) => Nameable(e) && n < U32
    case _ => true
  }

  // ---------- values and encodings ----------

  predicate HasType(v: Value, t: Type) {
    match t
    case Integer(signed, size) =>
      v.Num? && if signed then 0 <= 2 * v.n + Pow256(size) < 2 * Pow256(size) else 0 <= v.n < Pow256(size)
    case Bool => v.Truth?
    case Byte => v.Octets? && |v.bs| == 1
    case FixedBytes(size) => v.Octets? && |v.bs| == size
    case Bytes => v.Octets? && ByteCount(|v.bs|) <= 67
    case Text => v.Octets? && ByteCount(|v.bs|) <= 67
    case Tuple(ts) => v.Many? && |v.vs| == |ts| && forall i :: 0 <= i < |ts| ==> HasType(v.vs[i], ts[i])
    case Slice(e) => v.Many? && ByteCount(|v.vs|) <= 67 && forall i :: 0 <= i < |v.vs| ==> HasType(v.vs[i], e)
    case Array(e, n) => v.Many? && |v.vs| == n && forall i :: 0 <= i < |v.vs| ==> HasType(v.vs[i], e)
  }

  /** Dynamic arrays have fewer than 2^32 elements. */
  predicate Countable(v: Value, t: Type) {
    match t
    case Tuple(ts) => v.Many? && |v.vs| == |ts| && forall i :: 0 <= i < |ts| ==> Countable(v.vs[i], ts[i])
    case Slice(e) => v.Many? && |v.vs| < U32 && forall i :: 0 <= i < |v.vs| ==> Countable(v.vs[i], e)
    case Array(e, n) => v.Many? && forall i :: 0 <= i < |v.vs| ==> Countable(v.vs[i], e)
    case _ => true
  }

  /** Two's complement in size bytes. */
  function Complement(n: int, size: nat): nat
    requires n + Pow256(size) >= 0
  {
    if n < 0 then n + Pow256(size) else n
  }

  /** The first k encodings, one behind the other. */
  function Concat(es: seq<bytes>, k: nat): bytes
    requires k <= |es|
  {
    if k == 0 then [] else Concat(es, k - 1) + es[k - 1]
  }

  function ConcatAll(es: seq<bytes>): bytes { Concat(es, |es|) }

  predicate Plain(t: Type) { t.Integer? || t.Bool? || t.Byte? || t.FixedBytes? }

  function EncodePlain(v: Value, t: Type): bytes
    requires Plain(t) && HasType(v, t)
  {
    if t.Integer? then Le(t.size, Complement(v.n, t.size))
    else if t.Bool? then [if v.b then 1 else 0]
    else v.bs
  }

  function EncodeComposite(v: Value, t: Type): bytes
    requires !Plain(t) && HasType(v, t)
    decreases t, 0
  {
    if t.Tuple? then ConcatAll(seq(|t.ts|, i requires 0 <= i < |t.ts| => Encode(v.vs[i], t.ts[i])))
    else if t.Slice? then EncodeCompact(|v.vs|) + ConcatAll(EncodeAll(v.vs, t.element))
    else if t.Array? then ConcatAll(EncodeAll(v.vs, t.element))
    else EncodeCompact(|v.bs|) + v.bs
  }

  function Encode(v: Value, t: Type): bytes
    requires HasType(v, t)
    decreases t, 2
  {
    if Plain(t) then EncodePlain(v, t) else EncodeComposite(v, t)
  }

  function EncodeAll(vs: seq<Value>, t: Type): seq<bytes>
    requires forall i :: 0 <= i < |vs| ==> HasType(vs[i], t)
    decreases t, 3
  {
    seq(|vs|, i requires 0 <= i < |vs| => Encode(vs[i], t))
  }

  // ---------- what the source reads in a name ----------

  lemma {:induction false} DecDigits(n: nat)
    ensures forall i :: 0 <= i < |Dec(n)| ==> IsDigit(Dec(n)[i])
  {
    if n >= 10 { DecDigits(n / 10); }
  }

  lemma {:induction false} DecimalDec(n: nat, s: string, from: nat)
    requires from + |Dec(n)| <= |s| && forall i :: 0 <= i < |Dec(n)| ==> s[from + i] == Dec(n)[i]
    ensures Decimal(s, from, from + |Dec(n)|) == n
  {
    var k := |Dec(n)| - 1;
    assert s[from + k] == Dec(n)[k] == '0' + (n % 10) as char;
    if n >= 10 {
      var d := Dec(n / 10);
      forall i | 0 <= i < |d| ensures s[from + i] == d[i] { assert s[from + i] == Dec(n)[i]; }
      DecimalDec(n / 10, s, from);
    }
  }

  lemma {:induction false} DigitsEnd(s: string, from: nat, end: nat)
    requires from <= end <= |s| && (forall i :: from <= i < end ==> IsDigit(s[i])) && (end < |s| ==> !IsDigit(s[end]))
    ensures SkipDigits(s, from) == end
    decreases end - from
  {
    if from < end { DigitsEnd(s, from + 1, end); }
  }

  /** A number is read back from its decimal digits, when no digit follows. */
  lemma StoulDec(s: string, from: nat, n: nat)
    requires n < U64 && from + |Dec(n)| <= |s| && forall i :: 0 <= i < |Dec(n)| ==> s[from + i] == Dec(n)[i]
    requires from + |Dec(n)| < |s| ==> !IsDigit(s[from + |Dec(n)|])
    ensures Stoul(s, from) == Found(n)
  {
    var end := from + |Dec(n)|;
    DecDigits(n);
    forall i | from <= i < end ensures IsDigit(s[i]) { assert s[from + (i - from)] == Dec(n)[i - from]; }
    assert SkipSpace(s, from) == from;
    DigitsEnd(s, from, end);
    DecimalDec(n, s, from);
  }

  lemma {:induction false} MatchesPrefix(s: string, p: string, i: nat)
    requires i <= |p| <= |s| && forall j :: 0 <= j < |p| ==> s[j] == p[j]
    ensures Matches(s, p, i)
    decreases |p| - i
  {
    if i < |p| { MatchesPrefix(s, p, i + 1); }
  }

  lemma {:induction false} RFindIs(s: string, c: char, k: nat, below: nat)
    requires k < below <= |s| && s[k] == c && forall i :: k < i < below ==> s[i] != c
    ensures RFindBelow(s, c, below) == k
    decreases below
  {
    if k < below - 1 { RFindIs(s, c, k, below - 1); }
  }

  lemma NoBracket(t: Type)
    ensures EndsWithBracket(Name(t)) <==> t.Slice? || t.Array?
  {
    match t
    case Integer(_, size) =>
      DecDigits(8 * size);
      assert IsDigit(Dec(8 * size)[|Dec(8 * size)| - 1]);
    case FixedBytes(size) =>
      DecDigits(size);
      assert IsDigit(Dec(size)[|Dec(size)| - 1]);
    case Slice(e) => assert Name(t)[|Name(t)| - 1] == ']';
    case Array(e, n) => assert Name(t)[|Name(t)| - 1] == ']';
    case _ =>
  }

  // ---------- bytes in their place ----------

  lemma StandsBoth(s: bytes, at: nat, e: bytes, f: bytes)
    requires Stands(s, at, e + f)
    ensures Stands(s, at, e) && Stands(s, at + |e|, f)
  {
    forall i | 0 <= i < |e| ensures s[at + i] == e[i] { assert s[at + i] == (e + f)[i]; }
    forall i | 0 <= i < |f| ensures s[at + |e| + i] == f[i] { assert s[at + (|e| + i)] == (e + f)[|e| + i]; }
  }

  /** The number at the end of a name is found behind the last letter of the word in front. */
  lemma NumberInName(name: string, word: string, n: nat)
    requires |word| > 0 && name == word + Dec(n) && !IsDigit(word[|word| - 1]) && n < U32
    ensures RFind(name, word[|word| - 1]) == |word| - 1 && Number(Stoul(name, |word|)) == Found(n)
  {
    var k := |word| - 1;
    assert name[k] == word[k];
    DecDigits(n);
    forall i | k < i < |name| ensures name[i] != word[k] { assert name[i] == Dec(n)[i - |word|]; }
    RFindIs(name, word[k], k, |name|);
    StoulDec(name, |word|, n);
  }

  // ---------- one lemma for each kind of name ----------

  predicate WordName(ty: string) { StartsWith(ty, "uint") || StartsWith(ty, "int") }

  predicate CountedName(ty: string) { !WordName(ty) && (Is(ty, "string") || Is(ty, "bytes")) }

  predicate SingleName(ty: string) { !WordName(ty) && !CountedName(ty) && (Is(ty, "bool") || Is(ty, "byte")) }

  predicate FixedName(ty: string) {
    !WordName(ty) && !CountedName(ty) && !SingleName(ty) && StartsWith(ty, "bytes")
  }

  predicate TupleName(ty: string) {
    !WordName(ty) && !CountedName(ty) && !SingleName(ty) && !FixedName(ty) && Is(ty, "tuple")
  }

  lemma WordLength(p: ParameterAbi, s: bytes, at: nat, n: nat)
    requires !EndsWithBracket(p.ty) && WordName(p.ty) && Number(Stoul(p.ty, RFind(p.ty, 't') + 1)) == Found(n)
    ensures Length(p, s, at) == Found(n / 8)
  {
    assert LengthOfType(p.ty, p.components, s, at) == LengthOfNamed(p.ty, p.components, s, at);
  }

  lemma CountedLength(p: ParameterAbi, s: bytes, at: nat, n: nat)
    requires !EndsWithBracket(p.ty) && CountedName(p.ty) && Compact(s, at) == Found(n)
    ensures Length(p, s, at) == Found(n + CompactLen(n))
  {
    assert LengthOfType(p.ty, p.components, s, at) == LengthOfNamed(p.ty, p.components, s, at);
  }

  lemma SingleLength(p: ParameterAbi, s: bytes, at: nat)
    requires !EndsWithBracket(p.ty) && SingleName(p.ty)
    ensures Length(p, s, at) == Found(1)
  {
    assert LengthOfType(p.ty, p.components, s, at) == LengthOfNamed(p.ty, p.components, s, at);
  }

  lemma FixedLength(p: ParameterAbi, s: bytes, at: nat, n: nat)
    requires !EndsWithBracket(p.ty) && FixedName(p.ty) && Number(Stoul(p.ty, RFind(p.ty, 's') + 1)) == Found(n)
    ensures Length(p, s, at) == Found(n)
  {
    assert LengthOfType(p.ty, p.components, s, at) == LengthOfNamed(p.ty, p.components, s, at);
  }

  lemma TupleLengthIs(p: ParameterAbi, s: bytes, at: nat)
    requires !EndsWithBracket(p.ty) && TupleName(p.ty)
    ensures Length(p, s, at) == ComponentsLength(p.components, 0, s, at, 0)
  {
    assert LengthOfType(p.ty, p.components, s, at) == LengthOfNamed(p.ty, p.components, s, at);
  }

  lemma SliceLengthIs(p: ParameterAbi, s: bytes, at: nat, n: nat)
    requires EndsWithBracket(p.ty) && RFind(p.ty, '[') == |p.ty| - 2 >= 0 && Compact(s, at) == Found(n)
    ensures Length(p, s, at) ==
      ElementsLength(ParameterAbi(p.ty[..|p.ty| - 2], p.components), s, Wrap64(at + CompactLen(n)), n, CompactLen(n))
  {
    assert LengthOfType(p.ty, p.components, s, at) == LengthOfArray(p.ty, p.components, s, at);
  }

  lemma ArrayLengthIs(p: ParameterAbi, s: bytes, at: nat, left: nat, n: nat)
    requires EndsWithBracket(p.ty) && RFind(p.ty, '[') == left != |p.ty| - 2
    requires Number(Stoul(p.ty, left + 1)) == Found(n)
    ensures Length(p, s, at) == ElementsLength(ParameterAbi(p.ty[..left], p.components), s, at, n, 0)
  {
    assert LengthOfType(p.ty, p.components, s, at) == LengthOfArray(p.ty, p.components, s, at);
  }

  // ---------- the names of the types ----------

  lemma WordNames(signed: bool, size: nat)
    requires 8 * size < U32
    ensures
      var name := Name(Integer(signed, size));
      WordName(name) && RFind(name, 't') >= 0 && Number(Stoul(name, RFind(name, 't') + 1)) == Found(8 * size)
  {
    var name, word := Name(Integer(signed, size)), if signed then "int" else "uint";
    MatchesPrefix(name, word, 0);
    NumberInName(name, word, 8 * size);
  }

  lemma SingleNames()
    ensures SingleName("bool") && SingleName("byte")
  {
    MatchesPrefix("bool", "bool", 0);
    MatchesPrefix("byte", "byte", 0);
  }

  lemma CountedNames()
    ensures CountedName("bytes") && CountedName("string")
  {
    MatchesPrefix("bytes", "bytes", 0);
    MatchesPrefix("string", "string", 0);
  }

  lemma FixedNames(size: nat)
    requires size < U32
    ensures
      var name := Name(FixedBytes(size));
      FixedName(name) && RFind(name, 's') >= 0 && Number(Stoul(name, RFind(name, 's') + 1)) == Found(size)
  {
    var name := Name(FixedBytes(size));
    MatchesPrefix(name, "bytes", 0);
    NumberInName(name, "bytes", size);
    assert name[0] == 'b' && |name| > 5;
  }

  lemma TupleNames()
    ensures TupleName("tuple")
  {
    MatchesPrefix("tuple", "tuple", 0);
  }

  lemma SliceNames(name: string)
    ensures var ty := name + "[" + "]";
            EndsWithBracket(ty) && RFind(ty, '[') == |ty| - 2 == |name| && ty[..|name|] == name
  {
    var ty := name + "[" + "]";
    RFindIs(ty, '[', |name|, |ty|);
  }

  lemma {:induction false} ArrayNames(name: string, n: nat)
    requires n < U32
    ensures
      var ty := name + "[" + (Dec(n) + "]");
      && EndsWithBracket(ty) && RFind(ty, '[') == |name| != |ty| - 2 && ty[..|name|] == name
      && Number(Stoul(ty, |name| + 1)) == Found(n)
  {
    var ty, tail := name + "[" + (Dec(n) + "]"), Dec(n) + "]";
    DecDigits(n);
    forall i | |name| < i < |ty| ensures ty[i] != '[' { assert ty[i] == tail[i - |name| - 1]; }
    RFindIs(ty, '[', |name|, |ty|);
    StoulDec(ty, |name| + 1, n);
  }

  // ---------- sums ----------

  ghost predicate LengthIs(p: ParameterAbi, s: bytes, at: nat, n: nat) { Length(p, s, at) == Found(n) }

  /** The length found for n elements, or for the components from the i-th on. */
  ghost predicate ElementsAre(p: ParameterAbi, s: bytes, at: nat, n: nat, length: nat, total: nat) {
    ElementsLength(p, s, at, n, length) == Found(total)
  }

  ghost predicate ComponentsAre(cs: seq<ParameterAbi>, i: nat, s: bytes, at: nat, length: nat, total: nat)
    requires i <= |cs|
  {
    ComponentsLength(cs, i, s, at, length) == Found(total)
  }

  lemma ElementsStep(p: ParameterAbi, s: bytes, at: nat, n: nat, length: nat, l: nat, total: nat)
    requires n > 0 && LengthIs(p, s, at, l) && at + l < U64 && length + l < U32
    requires ElementsAre(p, s, at + l, n - 1, length + l, total)
    ensures ElementsAre(p, s, at, n, length, total)
  {
  }

  lemma ComponentsStep(cs: seq<ParameterAbi>, i: nat, s: bytes, at: nat, length: nat, l: nat, total: nat)
    requires i < |cs| && LengthIs(cs[i], s, at, l) && at + l < U64 && length + l < U32
    requires ComponentsAre(cs, i + 1, s, at + l, length + l, total)
    ensures ComponentsAre(cs, i, s, at, length, total)
  {
  }

  lemma {:induction false} ConcatGrows(es: seq<bytes>, i: nat, k: nat)
    requires i <= k <= |es|
    ensures |Concat(es, i)| <= |Concat(es, k)|
    decreases k
  {
    if i < k { ConcatGrows(es, i, k - 1); }
  }

  /** Each of the encodings stands behind those before it. */
  lemma {:induction false} StandsEach(es: seq<bytes>, i: nat, k: nat, s: bytes, at: nat)
    requires i < k <= |es| && Stands(s, at, Concat(es, k))
    ensures Stands(s, at + |Concat(es, i)|, es[i]) && Stands(s, at, Concat(es, i)) && |es[i]| <= |Concat(es, k)|
    decreases k
  {
    StandsBoth(s, at, Concat(es, k - 1), es[k - 1]);
    if i < k - 1 { StandsEach(es, i, k - 1, s, at); }
  }

  /** The length of the j-th encoding is found where it stands. */
  ghost predicate Fits(p: ParameterAbi, es: seq<bytes>, j: nat, s: bytes, at: nat)
    requires j < |es|
  {
    LengthIs(p, s, at + |Concat(es, j)|, |es[j]|)
  }

  ghost predicate AllFit(p: ParameterAbi, es: seq<bytes>, s: bytes, at: nat) {
    forall j: nat :: j < |es| ==> Fits(p, es, j, s, at)
  }

  ghost predicate EachFits(cs: seq<ParameterAbi>, es: seq<bytes>, s: bytes, at: nat) {
    |cs| == |es| && forall j: nat :: j < |es| ==> Fits(cs[j], es, j, s, at)
  }

  lemma {:induction false} ElementsSum(p: ParameterAbi, es: seq<bytes>, i: nat, s: bytes, at: nat, length: nat)
    requires i <= |es| && AllFit(p, es, s, at)
    requires length + |ConcatAll(es)| < U32 && at + |ConcatAll(es)| < U64
    ensures ElementsAre(p, s, at + |Concat(es, i)|, |es| - i, length + |Concat(es, i)|, length + |ConcatAll(es)|)
    decreases |es| - i
  {
    if i < |es| {
      var c := |Concat(es, i)|;
      assert Fits(p, es, i, s, at) && |Concat(es, i + 1)| == c + |es[i]|;
      ConcatGrows(es, i + 1, |es|);
      ElementsSum(p, es, i + 1, s, at, length);
      ElementsStep(p, s, at + c, |es| - i, length + c, |es[i]|, length + |ConcatAll(es)|);
    }
  }

  lemma {:induction false} ElementsTotal(p: ParameterAbi, es: seq<bytes>, s: bytes, at: nat, length: nat)
    requires AllFit(p, es, s, at) && length + |ConcatAll(es)| < U32 && at + |ConcatAll(es)| < U64
    ensures ElementsAre(p, s, at, |es|, length, length + |ConcatAll(es)|)
  {
    assert |Concat(es, 0)| == 0;
    ElementsSum(p, es, 0, s, at, length);
  }

  lemma {:induction false} ComponentsSum(cs: seq<ParameterAbi>, es: seq<bytes>, i: nat, s: bytes, at: nat)
    requires i <= |es| && EachFits(cs, es, s, at)
    requires |ConcatAll(es)| < U32 && at + |ConcatAll(es)| < U64
    ensures ComponentsAre(cs, i, s, at + |Concat(es, i)|, |Concat(es, i)|, |ConcatAll(es)|)
    decreases |es| - i
  {
    if i < |es| {
      var c := |Concat(es, i)|;
      assert Fits(cs[i], es, i, s, at) && |Concat(es, i + 1)| == c + |es[i]|;
      ConcatGrows(es, i + 1, |es|);
      ComponentsSum(cs, es, i + 1, s, at);
      ComponentsStep(cs, i, s, at + c, c, |es[i]|, |ConcatAll(es)|);
    }
  }

  lemma TupleSum(cs: seq<ParameterAbi>, es: seq<bytes>, s: bytes, at: nat)
    requires EachFits(cs, es, s, at)
    requires |ConcatAll(es)| < U32 && at + |ConcatAll(es)| < U64
    ensures Length(ParameterAbi("tuple", cs), s, at) == Found(|ConcatAll(es)|)
  {
    ComponentsSum(cs, es, 0, s, at);
    TupleNames();
    TupleLengthIs(ParameterAbi("tuple", cs), s, at);
  }

  lemma ArrayOf(p: ParameterAbi, n: nat, total: nat, s: bytes, at: nat)
    requires n < U32 && ElementsAre(p, s, at, n, 0, total)
    ensures Length(ParameterAbi(p.ty + "[" + (Dec(n) + "]"), p.components), s, at) == Found(total)
  {
    var q := ParameterAbi(p.ty + "[" + (Dec(n) + "]"), p.components);
    ArrayNames(p.ty, n);
    assert ParameterAbi(q.ty[..|p.ty|], q.components) == p;
    ArrayLengthIs(q, s, at, |p.ty|, n);
  }

  lemma ArraySum(e: Type, n: nat, total: nat, s: bytes, at: nat)
    requires n < U32 && ElementsAre(Render(e), s, at, n, 0, total)
    ensures Length(Render(Array(e, n)), s, at) == Found(total)
  {
    ArrayOf(Render(e), n, total, s, at);
    assert Name(Array(e, n)) == Render(e).ty + "[" + (Dec(n) + "]") && Components(Array(e, n)) == Render(e).components;
  }

  lemma SliceOf(p: ParameterAbi, n: nat, total: nat, s: bytes, at: nat)
    requires Compact(s, at) == Found(n) && at + CompactLen(n) < U64
    requires ElementsAre(p, s, at + CompactLen(n), n, CompactLen(n), total)
    ensures Length(ParameterAbi(p.ty + "[" + "]", p.components), s, at) == Found(total)
  {
    var q := ParameterAbi(p.ty + "[" + "]", p.components);
    SliceNames(p.ty);
    assert ParameterAbi(q.ty[..|q.ty| - 2], q.components) == p;
    SliceLengthIs(q, s, at, n);
  }

  lemma SliceSum(e: Type, n: nat, total: nat, s: bytes, at: nat)
    requires Compact(s, at) == Found(n) && at + CompactLen(n) < U64
    requires ElementsAre(Render(e), s, at + CompactLen(n), n, CompactLen(n), total)
    ensures Length(Render(Slice(e)), s, at) == Found(total)
  {
    SliceOf(Render(e), n, total, s, at);
    assert Name(Slice(e)) == Render(e).ty + "[" + "]" && Components(Slice(e)) == Render(e).components;
  }

  // ---------- the length ----------

  predicate Encodes(v: Value, t: Type, e: bytes) { HasType(v, t) && Countable(v, t) && Encode(v, t) == e }

  predicate AllEncode(vs: seq<Value>, t: Type, es: seq<bytes>) {
    |es| == |vs| && forall i: nat {:trigger Encodes(vs[i], t, es[i])} :: i < |vs| ==> Encodes(vs[i], t, es[i])
  }

  predicate EachEncode(vs: seq<Value>, ts: seq<Type>, es: seq<bytes>) {
    |es| == |vs| == |ts| &&
    forall i: nat {:trigger Encodes(vs[i], ts[i], es[i])} :: i < |vs| ==> Encodes(vs[i], ts[i], es[i])
  }

  lemma SliceBytes(n: nat, e: bytes, s: bytes, at: nat)
    requires ByteCount(n) <= 67 && Stands(s, at, EncodeCompact(n) + e)
    ensures Compact(s, at) == Found(Wrap32(n)) && Stands(s, at + CompactLen(n), e)
  {
    StandsBoth(s, at, EncodeCompact(n), e);
    CompactRoundTrip(n, s, at);
  }

  lemma OctetsExact(bs: bytes, t: Type, s: bytes, at: nat)
    requires (t == Bytes || t == Text) && ByteCount(|bs|) <= 67 && |bs| < U32
    requires |s| < U64 && Stands(s, at, EncodeCompact(|bs|) + bs)
    ensures Length(Render(t), s, at) == Found(|EncodeCompact(|bs|)| + |bs|)
  {
    SliceBytes(|bs|, bs, s, at);
    NoBracket(t);
    CountedNames();
    CountedLength(Render(t), s, at, |bs|);
  }

  lemma IntegerExact(signed: bool, size: nat, s: bytes, at: nat)
    requires 8 * size < U32
    ensures Length(Render(Integer(signed, size)), s, at) == Found(size)
  {
    var t := Integer(signed, size);
    NoBracket(t);
    WordNames(signed, size);
    WordLength(ParameterAbi(Name(t), []), s, at, 8 * size);
  }

  lemma FixedExact(size: nat, s: bytes, at: nat)
    requires size < U32
    ensures Length(Render(FixedBytes(size)), s, at) == Found(size)
  {
    var t := FixedBytes(size);
    NoBracket(t);
    FixedNames(size);
    FixedLength(ParameterAbi(Name(t), []), s, at, size);
  }

  lemma SingleExact(t: Type, s: bytes, at: nat)
    requires t == Bool || t == Byte
    ensures Length(Render(t), s, at) == Found(1)
  {
    NoBracket(t);
    SingleNames();
    SingleLength(Render(t), s, at);
  }

  lemma PlainExact(v: Value, t: Type, s: bytes, at: nat)
    requires Plain(t) && HasType(v, t) && Nameable(t)
    ensures LengthIs(Render(t), s, at, |Encode(v, t)|)
  {
    if t.Integer? {
      IntegerExact(t.signed, t.size, s, at);
    } else if t.FixedBytes? {
      FixedExact(t.size, s, at);
    } else {
      SingleExact(t, s, at);
    }
  }

  /** A value of the type, with dynamic arrays short enough, whose encoding stands in its place. */
  ghost predicate Placed(v: Value, t: Type, s: bytes, at: nat) {
    HasType(v, t) && Countable(v, t) && |Encode(v, t)| < U32 && |s| < U64 && Stands(s, at, Encode(v, t))
  }

  /** Wherever a value stands, the length found from the name of its type is that of its encoding. */
  lemma {:induction false} LengthExact(v: Value, t: Type, s: bytes, at: nat)
    requires Placed(v, t, s, at) && Nameable(t)
    ensures LengthIs(Render(t), s, at, |Encode(v, t)|)
    decreases t, 0, 1
  {
    if Plain(t) {
      PlainExact(v, t, s, at);
    } else if t.Tuple? {
      assert Encode(v, t) == EncodeComposite(v, t);
      TupleExact(v.vs, t.ts, seq(|t.ts|, i requires 0 <= i < |t.ts| => Encode(v.vs[i], t.ts[i])), s, at);
    } else {
      CountedExact(v, t, s, at);
    }
  }

  lemma {:induction false} CountedExact(v: Value, t: Type, s: bytes, at: nat)
    requires Placed(v, t, s, at) && Nameable(t) && !Plain(t) && !t.Tuple?
    ensures LengthIs(Render(t), s, at, |Encode(v, t)|)
    decreases t, 0, 0
  {
    assert Encode(v, t) == EncodeComposite(v, t);
    if t.Slice? {
      SliceValueExact(v.vs, t.element, EncodeAll(v.vs, t.element), s, at);
    } else if t.Array? {
      ElementsExact(v.vs, t.element, EncodeAll(v.vs, t.element), s, at, 0);
      ArraySum(t.element, t.count, |Encode(v, t)|, s, at);
    } else {
      OctetsExact(v.bs, t, s, at);
    }
  }

  lemma {:induction false} EncodedExact(v: Value, t: Type, e: bytes, s: bytes, at: nat)
    requires Encodes(v, t, e) && Nameable(t) && |e| < U32 && |s| < U64 && Stands(s, at, e)
    ensures LengthIs(Render(t), s, at, |e|)
    decreases t, 0, 2
  {
    LengthExact(v, t, s, at);
  }

  lemma {:induction false} ComponentExact(vs: seq<Value>, ts: seq<Type>, es: seq<bytes>, i: nat, s: bytes, at: nat)
    requires EachEncode(vs, ts, es) && i < |es| && Nameable(ts[i])
    requires |ConcatAll(es)| < U32 && |s| < U64 && Stands(s, at, ConcatAll(es))
    ensures Fits(Render(ts[i]), es, i, s, at)
    decreases ts, 1
  {
    StandsEach(es, i, |es|, s, at);
    assert Encodes(vs[i], ts[i], es[i]);
    EncodedExact(vs[i], ts[i], es[i], s, at + |Concat(es, i)|);
  }

  lemma {:induction false} ComponentsFit(vs: seq<Value>, ts: seq<Type>, es: seq<bytes>, s: bytes, at: nat)
    requires EachEncode(vs, ts, es) && Nameable(Tuple(ts))
    requires |ConcatAll(es)| < U32 && |s| < U64 && Stands(s, at, ConcatAll(es))
    ensures EachFits(Components(Tuple(ts)), es, s, at)
    decreases ts, 2
  {
    forall i: nat | i < |es| ensures Fits(Components(Tuple(ts))[i], es, i, s, at) {
      ComponentExact(vs, ts, es, i, s, at);
    }
  }

  lemma {:induction false} TupleExact(vs: seq<Value>, ts: seq<Type>, es: seq<bytes>, s: bytes, at: nat)
    requires EachEncode(vs, ts, es) && Nameable(Tuple(ts))
    requires |ConcatAll(es)| < U32 && |s| < U64 && Stands(s, at, ConcatAll(es))
    ensures Length(Render(Tuple(ts)), s, at) == Found(|ConcatAll(es)|)
    decreases ts, 3
  {
    ComponentsFit(vs, ts, es, s, at);
    TupleSum(Components(Tuple(ts)), es, s, at);
  }

  lemma {:induction false} StandsOne(es: seq<bytes>, i: nat, s: bytes, at: nat)
    requires i < |es| && |ConcatAll(es)| < U32 && Stands(s, at, ConcatAll(es))
    ensures Stands(s, at + |Concat(es, i)|, es[i]) && |es[i]| < U32
  {
    StandsEach(es, i, |es|, s, at);
  }

  lemma {:induction false} ElementExact(v: Value, t: Type, es: seq<bytes>, i: nat, s: bytes, at: nat)
    requires Nameable(t) && i < |es| && Encodes(v, t, es[i])
    requires |ConcatAll(es)| < U32 && |s| < U64 && Stands(s, at, ConcatAll(es))
    ensures Fits(Render(t), es, i, s, at)
    decreases t, 1
  {
    var e, here := es[i], at + |Concat(es, i)|;
    StandsOne(es, i, s, at);
    EncodedExact(v, t, e, s, here);
    assert LengthIs(Render(t), s, here, |e|);
  }

  lemma {:induction false} ElementsFit(vs: seq<Value>, t: Type, es: seq<bytes>, s: bytes, at: nat)
    requires Nameable(t) && AllEncode(vs, t, es)
    requires |ConcatAll(es)| < U32 && |s| < U64 && Stands(s, at, ConcatAll(es))
    ensures AllFit(Render(t), es, s, at)
    decreases t, 2
  {
    forall i: nat | i < |es| ensures Fits(Render(t), es, i, s, at) {
      assert Encodes(vs[i], t, es[i]);
      ElementExact(vs[i], t, es, i, s, at);
    }
  }

  lemma {:induction false} ElementsExact(vs: seq<Value>, t: Type, es: seq<bytes>, s: bytes, at: nat, length: nat)
    requires Nameable(t) && AllEncode(vs, t, es)
    requires length + |ConcatAll(es)| < U32 && |s| < U64 && Stands(s, at, ConcatAll(es))
    ensures ElementsAre(Render(t), s, at, |vs|, length, length + |ConcatAll(es)|)
    decreases t, 3
  {
    ElementsFit(vs, t, es, s, at);
    ElementsTotal(Render(t), es, s, at, length);
  }

  lemma {:induction false} SliceValueExact(vs: seq<Value>, e: Type, es: seq<bytes>, s: bytes, at: nat)
    requires Nameable(e) && AllEncode(vs, e, es) && |vs| < U32 && ByteCount(|vs|) <= 67
    requires |EncodeCompact(|vs|) + ConcatAll(es)| < U32 && |s| < U64
    requires Stands(s, at, EncodeCompact(|vs|) + ConcatAll(es))
    ensures LengthIs(Render(Slice(e)), s, at, |EncodeCompact(|vs|) + ConcatAll(es)|)
    decreases e, 5
  {
    SliceBytes(|vs|, ConcatAll(es), s, at);
    SliceExact(vs, e, es, s, at, CompactLen(|vs|));
  }

  lemma {:induction false} SliceExact(vs: seq<Value>, e: Type, es: seq<bytes>, s: bytes, at: nat, c: nat)
    requires Nameable(e) && AllEncode(vs, e, es) && c == CompactLen(|vs|)
    requires c + |ConcatAll(es)| < U32 && |s| < U64 && Compact(s, at) == Found(|vs|) && Stands(s, at + c, ConcatAll(es))
    ensures LengthIs(Render(Slice(e)), s, at, c + |ConcatAll(es)|)
    decreases e, 4
  {
    var n, total := |vs|, c + |ConcatAll(es)|;
    ElementsExact(vs, e, es, s, at + c, c);
    assert at + c <= |s| && ElementsAre(Render(e), s, at + CompactLen(n), n, CompactLen(n), total);
    SliceSum(e, n, total, s, at);
  }

  // ---------- dynamic arrays of 2^32 elements and more ----------

  /** All values of the type are encoded in no bytes. */
  predicate Empty(t: Type) {
    match t
    case Integer(_, size) => size == 0
    case FixedBytes(size) => size == 0
    case Tuple(ts) => forall i :: 0 <= i < |ts| ==> Empty(ts[i])
    case Array(e, n) => n == 0 || Empty(e)
    case _ => false
  }

  lemma ConcatPart(es: seq<bytes>, i: nat)
    requires i < |es|
    ensures |es[i]| <= |ConcatAll(es)|
  {
    assert |Concat(es, i + 1)| == |Concat(es, i)| + |es[i]|;
    ConcatGrows(es, i + 1, |es|);
  }

  lemma {:induction false} ConcatCount(es: seq<bytes>, k: nat)
    requires k <= |es| && forall i :: 0 <= i < |es| ==> |es[i]| > 0
    ensures |Concat(es, k)| >= k
  {
    if k > 0 { ConcatCount(es, k - 1); }
  }

  lemma {:induction false} NotEmpty(v: Value, t: Type)
    requires HasType(v, t) && !Empty(t)
    ensures |Encode(v, t)| > 0
    decreases t
  {
    assert !Plain(t) ==> Encode(v, t) == EncodeComposite(v, t);
    if t.Tuple? {
      var i :| 0 <= i < |t.ts| && !Empty(t.ts[i]);
      NotEmpty(v.vs[i], t.ts[i]);
      ConcatPart(seq(|t.ts|, i requires 0 <= i < |t.ts| => Encode(v.vs[i], t.ts[i])), i);
    } else if t.Array? {
      NotEmpty(v.vs[0], t.element);
      ConcatPart(EncodeAll(v.vs, t.element), 0);
    }
  }

  lemma {:induction false} NoElements(p: ParameterAbi, s: bytes, at: nat, n: nat, length: nat)
    requires LengthIs(p, s, at, 0) && at < U64 && length < U32
    ensures ElementsAre(p, s, at, n, length, length)
    decreases n
  {
    if n > 0 {
      NoElements(p, s, at, n - 1, length);
      ElementsStep(p, s, at, n, length, 0, length);
    }
  }

  lemma {:induction false} NoComponents(cs: seq<ParameterAbi>, k: nat, s: bytes, at: nat)
    requires k <= |cs| && (forall j :: 0 <= j < |cs| ==> LengthIs(cs[j], s, at, 0)) && at < U64
    ensures ComponentsAre(cs, k, s, at, 0, 0)
    decreases |cs| - k
  {
    if k < |cs| {
      assert LengthIs(cs[k], s, at, 0);
      NoComponents(cs, k + 1, s, at);
      ComponentsStep(cs, k, s, at, 0, 0, 0);
    }
  }

  /** The length of a value of an empty type is found to be 0 everywhere. */
  lemma {:induction false} EmptyLength(t: Type, s: bytes, at: nat)
    requires Nameable(t) && Empty(t) && at < U64
    ensures LengthIs(Render(t), s, at, 0)
    decreases t
  {
    if t.Integer? {
      IntegerExact(t.signed, 0, s, at);
    } else if t.FixedBytes? {
      FixedExact(0, s, at);
    } else if t.Tuple? {
      var cs := Components(t);
      forall j | 0 <= j < |cs| ensures LengthIs(cs[j], s, at, 0) { EmptyLength(t.ts[j], s, at); }
      NoComponents(cs, 0, s, at);
      TupleNames();
      TupleLengthIs(ParameterAbi("tuple", cs), s, at);
    } else {
      if t.count > 0 {
        EmptyLength(t.element, s, at);
        NoElements(Render(t.element), s, at, t.count, 0);
      }
      ArraySum(t.element, t.count, 0, s, at);
    }
  }

  /** The count of a dynamic array is cut to 32 bits.  Its length is found exactly when the count fits; when it
      does not, and the total length is below 2^32 all the same, the elements take no bytes. */
  lemma SliceExactIff(vs: seq<Value>, e: Type, s: bytes, at: nat)
    requires HasType(Many(vs), Slice(e)) && Nameable(e) && forall i :: 0 <= i < |vs| ==> Countable(vs[i], e)
    requires |Encode(Many(vs), Slice(e))| < U32 && |s| < U64 && Stands(s, at, Encode(Many(vs), Slice(e)))
    ensures Length(Render(Slice(e)), s, at) == Found(|Encode(Many(vs), Slice(e))|) <==> |vs| < U32
  {
    var v := Many(vs);
    assert Encode(v, Slice(e)) == EncodeComposite(v, Slice(e));
    if |vs| < U32 {
      LengthExact(Many(vs), Slice(e), s, at);
    } else {
      if !Empty(e) {
        forall i | 0 <= i < |vs| ensures |EncodeAll(vs, e)[i]| > 0 { NotEmpty(vs[i], e); }
        ConcatCount(EncodeAll(vs, e), |vs|);
      }
      CutCount(|vs|, e, ConcatAll(EncodeAll(vs, e)), s, at);
    }
  }

  lemma CutIsShorter(n: nat)
    requires n >= U32 && ByteCount(n) <= 67
    ensures CompactLen(Wrap32(n)) < |EncodeCompact(n)|
  {
    Powers();
    ByteCountBound(Wrap32(n), 4);
    ByteCountBound(n, 4);
  }

  lemma CutCount(n: nat, e: Type, rest: bytes, s: bytes, at: nat)
    requires n >= U32 && ByteCount(n) <= 67 && Nameable(e) && Empty(e)
    requires |s| < U64 && Stands(s, at, EncodeCompact(n) + rest)
    ensures exists m: nat :: m < |EncodeCompact(n)| && Length(Render(Slice(e)), s, at) == Found(m)
  {
    SliceBytes(n, rest, s, at);
    CutIsShorter(n);
    EmptySlice(e, Wrap32(n), s, at);
    assert LengthIs(Render(Slice(e)), s, at, CompactLen(Wrap32(n)));
  }

  /** The length found for elements without bytes is that of their count. */
  lemma EmptySlice(e: Type, n: nat, s: bytes, at: nat)
    requires Nameable(e) && Empty(e) && n < U32 && Compact(s, at) == Found(n) && at + CompactLen(n) < U64
    ensures LengthIs(Render(Slice(e)), s, at, CompactLen(n))
  {
    EmptyLength(e, s, at + CompactLen(n));
    ShortCount(n);
    NoElements(Render(e), s, at + CompactLen(n), n, CompactLen(n));
    SliceSum(e, n, CompactLen(n), s, at);
  }

  lemma ShortCount(n: nat)
    requires n < U32
    ensures CompactLen(n) <= 5
  {
    Powers();
    ByteCountBound(n, 4);
  }

  // ---------- an encoding stands for one value ----------

  lemma SameBytes(s: bytes, at: nat, e: bytes, f: bytes)
    requires Stands(s, at, e) && Stands(s, at, f) && |e| == |f|
    ensures e == f
  {
    forall i | 0 <= i < |e| ensures e[i] == f[i] { assert s[at + i] == e[i]; }
  }

  lemma SameInteger(v: Value, w: Value, t: Type)
    requires t.Integer? && HasType(v, t) && HasType(w, t) && Encode(v, t) == Encode(w, t)
    ensures v == w
  {
    LeInjective(t.size, Complement(v.n, t.size), Complement(w.n, t.size));
  }

  lemma LeInjective(k: nat, a: nat, b: nat)
    requires a < Pow256(k) && b < Pow256(k) && Le(k, a) == Le(k, b)
    ensures a == b
  {
    var e := Le(k, a);
    NumLe(k, a, e, 0);
    NumLe(k, b, e, 0);
  }

  lemma SameCount(n: nat, e: bytes, m: nat, f: bytes, s: bytes, at: nat)
    requires n < U32 && m < U32 && ByteCount(n) <= 67 && ByteCount(m) <= 67
    requires Stands(s, at, EncodeCompact(n) + e) && Stands(s, at, EncodeCompact(m) + f)
    ensures n == m && Stands(s, at + CompactLen(n), e) && Stands(s, at + CompactLen(n), f)
  {
    SliceBytes(n, e, s, at);
    SliceBytes(m, f, s, at);
    assert Found(n) == Found(m);
  }

  lemma UniqueScalar(v: Value, w: Value, t: Type, s: bytes, at: nat)
    requires Plain(t) && HasType(v, t) && HasType(w, t)
    requires Stands(s, at, Encode(v, t)) && Stands(s, at, Encode(w, t))
    ensures v == w
  {
    SameBytes(s, at, Encode(v, t), Encode(w, t));
    if t.Integer? { SameInteger(v, w, t); }
  }

  /** Two values of a type whose encodings stand at the same place are the same value. */
  lemma {:induction false} Unique(v: Value, w: Value, t: Type, s: bytes, at: nat)
    requires Placed(v, t, s, at) && Placed(w, t, s, at)
    ensures v == w
    decreases t, 1, 0
  {
    if Plain(t) {
      UniqueScalar(v, w, t, s, at);
    } else if t.Tuple? || t.Array? {
      UniqueFixed(v, w, t, s, at);
    } else {
      UniqueCounted(v, w, t, s, at);
    }
  }

  lemma {:induction false} UniqueFixed(v: Value, w: Value, t: Type, s: bytes, at: nat)
    requires Placed(v, t, s, at) && Placed(w, t, s, at) && (t.Tuple? || t.Array?)
    ensures v == w
    decreases t, 0, 0
  {
    assert Encode(v, t) == EncodeComposite(v, t) && Encode(w, t) == EncodeComposite(w, t);
    if t.Tuple? {
      var es := seq(|t.ts|, i requires 0 <= i < |t.ts| => Encode(v.vs[i], t.ts[i]));
      var fs := seq(|t.ts|, i requires 0 <= i < |t.ts| => Encode(w.vs[i], t.ts[i]));
      UniqueComponents(v.vs, w.vs, t.ts, es, fs, |t.ts|, s, at);
    } else {
      UniqueElements(v.vs, w.vs, t.element, EncodeAll(v.vs, t.element), EncodeAll(w.vs, t.element), |v.vs|, s, at);
    }
  }

  lemma {:induction false} UniqueCounted(v: Value, w: Value, t: Type, s: bytes, at: nat)
    requires Placed(v, t, s, at) && Placed(w, t, s, at) && (t.Slice? || t.Bytes? || t.Text?)
    ensures v == w
    decreases t, 0, 0
  {
    assert Encode(v, t) == EncodeComposite(v, t) && Encode(w, t) == EncodeComposite(w, t);
    if t.Slice? {
      UniqueSlice(v.vs, w.vs, t.element, EncodeAll(v.vs, t.element), EncodeAll(w.vs, t.element), s, at);
    } else {
      UniqueOctets(v.bs, w.bs, s, at);
    }
  }

  lemma {:induction false} UniqueOctets(bs: bytes, cs: bytes, s: bytes, at: nat)
    requires |bs| < U32 && |cs| < U32 && ByteCount(|bs|) <= 67 && ByteCount(|cs|) <= 67
    requires Stands(s, at, EncodeCompact(|bs|) + bs) && Stands(s, at, EncodeCompact(|cs|) + cs)
    ensures bs == cs
  {
    var n := |bs|;
    SameCount(n, bs, |cs|, cs, s, at);
    SameBytes(s, at + CompactLen(n), bs, cs);
  }

  lemma {:induction false} UniqueSlice(
    vs: seq<Value>, ws: seq<Value>, t: Type, es: seq<bytes>, fs: seq<bytes>, s: bytes, at: nat)
    requires AllEncode(vs, t, es) && AllEncode(ws, t, fs) && |s| < U64
    requires |vs| < U32 && |ws| < U32 && ByteCount(|vs|) <= 67 && ByteCount(|ws|) <= 67
    requires |ConcatAll(es)| < U32 && |ConcatAll(fs)| < U32
    requires Stands(s, at, EncodeCompact(|vs|) + ConcatAll(es)) && Stands(s, at, EncodeCompact(|ws|) + ConcatAll(fs))
    ensures vs == ws
    decreases t, 3
  {
    SameCount(|vs|, ConcatAll(es), |ws|, ConcatAll(fs), s, at);
    UniqueElements(vs, ws, t, es, fs, |vs|, s, at + CompactLen(|vs|));
  }

  lemma {:induction false} UniqueElements(
    vs: seq<Value>, ws: seq<Value>, t: Type, es: seq<bytes>, fs: seq<bytes>, k: nat, s: bytes, at: nat)
    requires k <= |vs| == |ws| && AllEncode(vs, t, es) && AllEncode(ws, t, fs)
    requires |s| < U64 && |Concat(es, k)| < U32 && |Concat(fs, k)| < U32
    requires Stands(s, at, Concat(es, k)) && Stands(s, at, Concat(fs, k))
    ensures Concat(es, k) == Concat(fs, k) && forall i :: 0 <= i < k ==> vs[i] == ws[i]
    decreases t, 2, k
  {
    if k > 0 {
      var i := k - 1;
      StandsEach(es, i, k, s, at);
      StandsEach(fs, i, k, s, at);
      UniqueElements(vs, ws, t, es, fs, i, s, at);
      assert Encodes(vs[i], t, es[i]) && Encodes(ws[i], t, fs[i]);
      UniqueEncoded(vs[i], ws[i], t, es[i], fs[i], s, at + |Concat(es, i)|);
    }
  }

  lemma {:induction false} UniqueComponents(
    vs: seq<Value>, ws: seq<Value>, ts: seq<Type>, es: seq<bytes>, fs: seq<bytes>, k: nat, s: bytes, at: nat)
    requires k <= |ts| && EachEncode(vs, ts, es) && EachEncode(ws, ts, fs)
    requires |s| < U64 && |Concat(es, k)| < U32 && |Concat(fs, k)| < U32
    requires Stands(s, at, Concat(es, k)) && Stands(s, at, Concat(fs, k))
    ensures Concat(es, k) == Concat(fs, k) && forall i :: 0 <= i < k ==> vs[i] == ws[i]
    decreases ts, 2, k
  {
    if k > 0 {
      var i := k - 1;
      StandsEach(es, i, k, s, at);
      StandsEach(fs, i, k, s, at);
      UniqueComponents(vs, ws, ts, es, fs, i, s, at);
      assert Encodes(vs[i], ts[i], es[i]) && Encodes(ws[i], ts[i], fs[i]);
      UniqueEncoded(vs[i], ws[i], ts[i], es[i], fs[i], s, at + |Concat(es, i)|);
    }
  }

  lemma {:induction false} UniqueEncoded(v: Value, w: Value, t: Type, e: bytes, f: bytes, s: bytes, at: nat)
    requires Encodes(v, t, e) && Encodes(w, t, f) && |e| < U32 && |f| < U32 && |s| < U64
    requires Stands(s, at, e) && Stands(s, at, f)
    ensures v == w && e == f
    decreases t, 1, 1
  {
    Unique(v, w, t, s, at);
  }
}
