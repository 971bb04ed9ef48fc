/** The length of an encoded value from the name of its type (src/dag/ScaleUtils.cpp, scaleEncodingLength). */
module ScaleLength {
  import opened Scale

  /** The type of a parameter as the contract's ABI names it (src/dag/Abi.h). */
  datatype ParameterAbi = ParameterAbi(ty: string, components: seq<ParameterAbi>)

  // ---------- strings ----------

  /** The last place of a character below k, or -1. */
  function RFindBelow(s: string, c: char, k: nat): (r: int)
    requires k <= |s|
    ensures -1 <= r < k
  {
    if k == 0 then -1 else if s[k - 1] == c then k - 1 else RFindBelow(s, c, k - 1)
  }

  function RFind(s: string, c: char): int { RFindBelow(s, c, |s|) }

  predicate Matches(s: string, p: string, i: nat)
    requires i <= |p|
    decreases |p| - i
  {
    i == |p| || (i < |s| && s[i] == p[i] && Matches(s, p, i + 1))
  }

  predicate StartsWith(s: string, p: string) { Matches(s, p, 0) }

  predicate Is(s: string, name: string) { |s| == |name| && StartsWith(s, name) }

  predicate EndsWithBracket(s: string) { s != "" && s[|s| - 1] == ']' }

  predicate IsDigit(c: char) { '0' <= c <= '9' }

  function DigitOf(c: char): nat {
    if IsDigit(c) then c as int - '0' as int else 0
  }

  /** The place behind the digits that begin at a place. */
  function SkipDigits(s: string, from: nat): (end: nat)
    requires from <= |s|
    ensures from <= end <= |s|
    decreases |s| - from
  {
    if from == |s| || !IsDigit(s[from]) then from else SkipDigits(s, from + 1)
  }

  function Decimal(s: string, from: nat, end: nat): nat
    requires from <= end <= |s|
    decreases end
  {
    if from == end then 0 else 10 * Decimal(s, from, end - 1) + DigitOf(s[end - 1])
  }

  predicate IsSpace(c: char) { c == ' ' || 9 <= c as int <= 13 }

  function SkipSpace(s: string, from: nat): (end: nat)
    requires from <= |s|
    ensures from <= end <= |s|
    decreases |s| - from
  {
    if from < |s| && IsSpace(s[from]) then SkipSpace(s, from + 1) else from
  }

  /** std::stoul on the string from a place on: a number in front; a minus sign wraps around. */
  function Stoul(s: string, from: nat): Outcome
    requires from <= |s|
  {
    var t := SkipSpace(s, from);
    var u := if t < |s| && (s[t] == '-' || s[t] == '+') then t + 1 else t;
    var v := SkipDigits(s, u);
    if v == u || Decimal(s, u, v) >= U64 then Nothing
    else Found(if t < |s| && s[t] == '-' then Wrap64(U64 - Decimal(s, u, v)) else Decimal(s, u, v))
  }

  // ---------- the length, as a function ----------

  /** How deep the first k components nest. */
  function DepthTo(cs: seq<ParameterAbi>, k: nat): nat
    requires k <= |cs|
    decreases cs, k
  {
    if k == 0 then 0
    else var (a, b) := (1 + Depth(cs[k - 1].components), DepthTo(cs, k - 1)); if a > b then a else b
  }

  function Depth(cs: seq<ParameterAbi>): nat
    decreases cs, |cs| + 1
  {
    DepthTo(cs, |cs|)
  }

  lemma {:induction false} DepthBelow(cs: seq<ParameterAbi>, i: nat, k: nat)
    requires i < k <= |cs|
    ensures Depth(cs[i].components) < DepthTo(cs, k)
    decreases k
  {
    if i < k - 1 { DepthBelow(cs, i, k - 1); }
  }

  lemma DepthIn(cs: seq<ParameterAbi>, i: nat)
    requires i < |cs|
    ensures Depth(cs[i].components) < Depth(cs)
  {
    DepthBelow(cs, i, |cs|);
  }

  function Number(o: Outcome): Outcome { if o.Found? then Found(Wrap32(o.value)) else o }

  function Length(p: ParameterAbi, s: bytes, at: nat): Outcome
    decreases Depth(p.components), |p.ty|, 2, 0
  {
    LengthOfType(p.ty, p.components, s, at)
  }

  function LengthOfType(ty: string, cs: seq<ParameterAbi>, s: bytes, at: nat): Outcome
    decreases Depth(cs), |ty|, 1, 0
  {
    if EndsWithBracket(ty) then LengthOfArray(ty, cs, s, at) else LengthOfNamed(ty, cs, s, at)
  }

  function LengthOfArray(ty: string, cs: seq<ParameterAbi>, s: bytes, at: nat): Outcome
    requires EndsWithBracket(ty)
    decreases Depth(cs), |ty|, 0, 0
  {
    var left := RFind(ty, '[');
    if left < 0 then Nothing
    else
      var sub := ParameterAbi(ty[..left], cs);
      if left == |ty| - 2 then
        var count := Compact(s, at);
        if !count.Found? then count
        else ElementsLength(sub, s, Wrap64(at + CompactLen(count.value)), count.value, CompactLen(count.value))
      else
        var count := Number(Stoul(ty, left + 1));
        if !count.Found? then Nothing else ElementsLength(sub, s, at, count.value, 0)
  }

  function LengthOfNamed(ty: string, cs: seq<ParameterAbi>, s: bytes, at: nat): Outcome
    decreases Depth(cs), |ty|, 0, 0
  {
    if StartsWith(ty, "uint") || StartsWith(ty, "int") then
      var digits := Number(Stoul(ty, RFind(ty, 't') + 1));
      if !digits.Found? then Nothing else Found(digits.value / 8)
    else if Is(ty, "string") || Is(ty, "bytes") then
      var count := Compact(s, at);
      if !count.Found? then count else Found(count.value + CompactLen(count.value))
    else if Is(ty, "bool") || Is(ty, "byte") then Found(1)
    else if StartsWith(ty, "bytes") then Number(Stoul(ty, RFind(ty, 's') + 1))
    else if Is(ty, "tuple") then ComponentsLength(cs, 0, s, at, 0)
    else Nothing
  }

  /** n more elements from here on, with length bytes behind: length has 32 bits. */
  function ElementsLength(p: ParameterAbi, s: bytes, at: nat, n: nat, length: nat): Outcome
    decreases Depth(p.components), |p.ty|, 3, n
  {
    if n == 0 then Found(length)
    else
      var l := Length(p, s, at);
      if !l.Found? then l else ElementsLength(p, s, Wrap64(at + l.value), n - 1, Wrap32(length + l.value))
  }

  /** The components from the i-th on. */
  function ComponentsLength(cs: seq<ParameterAbi>, i: nat, s: bytes, at: nat, length: nat): Outcome
    requires i <= |cs|
    decreases Depth(cs), 0, 0, |cs| - i
  {
    if i == |cs| then Found(length)
    else
      DepthIn(cs, i);
      var l := Length(cs[i], s, at);
      if !l.Found? then l else ComponentsLength(cs, i + 1, s, Wrap64(at + l.value), Wrap32(length + l.value))
  }

  // ---------- the length, as the loops find it ----------

  /** The type of an array: its dimension, or its length in front of the elements. */
  method ArrayLength(param: ParameterAbi, encodedBytes: bytes, startPos: nat) returns (r: Outcome)
    requires EndsWithBracket(param.ty)
    ensures r == LengthOfArray(param.ty, param.components, encodedBytes, startPos)
    decreases Depth(param.components), |param.ty|, 0
  {
    var ty := param.ty;
    var pos: nat := startPos;
    var leftBracketPos := RFind(ty, '[');
    if leftBracketPos == -1 {
      return Nothing;
    }
    var size: nat, length: nat := 0, 0;
    if leftBracketPos == |ty| - 2 {
      var compactLength := DecodeCompactInteger(encodedBytes, pos);
      if !compactLength.Found? {
        return compactLength;
      }
      size := compactLength.value;
      length := length + CompactLen(size);
      pos := Wrap64(pos + length);
    } else {
      var dimension := Stoul(ty, leftBracketPos + 1);
      if !dimension.Found? {
        return Nothing;
      }
      size := Wrap32(dimension.value);
    }
    var subParam := ParameterAbi(ty[..leftBracketPos], param.components);
    r := AddElements(subParam, encodedBytes, pos, size, length);
  }

  method AddElements(
    subParam: ParameterAbi, encodedBytes: bytes, startPos: nat, size: nat, prefix: nat)
    returns (r: Outcome)
    ensures r == ElementsLength(subParam, encodedBytes, startPos, size, prefix)
    decreases Depth(subParam.components), |subParam.ty|, 2
  {
    var pos: nat, length: nat := startPos, prefix;
    for i := 0 to size
      invariant ElementsLength(subParam, encodedBytes, startPos, size, prefix) ==
                ElementsLength(subParam, encodedBytes, pos, size - i, length)
    {
      var subTypeLength := ScaleEncodingLength(subParam, encodedBytes, pos);
      if !subTypeLength.Found? {
        return subTypeLength;
      }
      length := Wrap32(length + subTypeLength.value);
      pos := Wrap64(pos + subTypeLength.value);
    }
    return Found(length);
  }

  method TupleLength(components: seq<ParameterAbi>, encodedBytes: bytes, startPos: nat) returns (r: Outcome)
    ensures r == ComponentsLength(components, 0, encodedBytes, startPos, 0)
    decreases Depth(components), 0, 0
  {
    var pos: nat, length: nat := startPos, 0;
    ghost var whole := ComponentsLength(components, 0, encodedBytes, pos, length);
    for i := 0 to |components|
      invariant whole == ComponentsLength(components, i, encodedBytes, pos, length)
    {
      DepthIn(components, i);
      var componentLength := ScaleEncodingLength(components[i], encodedBytes, pos);
      if !componentLength.Found? {
        return componentLength;
      }
      length := Wrap32(length + componentLength.value);
      pos := Wrap64(pos + componentLength.value);
    }
    return Found(length);
  }

  method NamedLength(param: ParameterAbi, encodedBytes: bytes, startPos: nat) returns (r: Outcome)
    ensures r == LengthOfNamed(param.ty, param.components, encodedBytes, startPos)
    decreases Depth(param.components), |param.ty|, 0
  {
    var ty := param.ty;
    if StartsWith(ty, "uint") || StartsWith(ty, "int") {
      var digitsNum := Stoul(ty, RFind(ty, 't') + 1);
      if !digitsNum.Found? {
        return Nothing;
      }
      return Found(Wrap32(digitsNum.value) / 8);
    }
    if Is(ty, "string") || Is(ty, "bytes") {
      var compactLength := DecodeCompactInteger(encodedBytes, startPos);
      if !compactLength.Found? {
        return compactLength;
      }
      return Found(compactLength.value + CompactLen(compactLength.value));
    }
    if Is(ty, "bool") || Is(ty, "byte") {
      return Found(1);
    }
    if StartsWith(ty, "bytes") {
      var digitsNum := Stoul(ty, RFind(ty, 's') + 1);
      if !digitsNum.Found? {
        return Nothing;
      }
      return Found(Wrap32(digitsNum.value));
    }
    if Is(ty, "tuple") {
      r := TupleLength(param.components, encodedBytes, startPos);
      return;
    }
    return Nothing;
  }

  method ScaleEncodingLength(param: ParameterAbi, encodedBytes: bytes, startPos: nat) returns (r: Outcome)
    ensures r == Length(param, encodedBytes, startPos)
    decreases Depth(param.components), |param.ty|, 1
  {
    assert Length(param, encodedBytes, startPos) == LengthOfType(param.ty, param.components, encodedBytes, startPos);
    if EndsWithBracket(param.ty) {
      r := ArrayLength(param, encodedBytes, startPos);
    } else {
      r := NamedLength(param, encodedBytes, startPos);
    }
  }
}
