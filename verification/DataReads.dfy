/** When finding an argument reads the data at all, and when it reads it out of bounds: the sizes are subtracted without
    a test that the position is within the data (src/dag/ScaleUtils.cpp:34, 57, 76, 98). */
module DataReads {
  import opened Scale
  import opened ScaleLength
  import opened ScaleValues
  import opened ConflictFields

  // ---------- types without a count ----------

  /** No part of a value of the type has a count in front. */
  predicate Fixed(t: Type) {
    match t
    case Tuple(ts) => forall i :: 0 <= i < |ts| ==> Fixed(ts[i])
    case Array(e, n) => n == 0 || Fixed(e)
    case Bytes => false
    case Text => false
    case Slice(_) => false
    case _ => true
  }

  /** The length of all values of such a type, in 32 bits. */
  function Width(t: Type): nat
    decreases t, 0
  {
    match t
    case Integer(_, size) => size
    case FixedBytes(size) => size
    case Tuple(ts) => WidthFrom(ts, 0, |ts|, 0)
    case Array(e, n) => if n == 0 then 0 else Times(n, Width(e), 0)
    case _ => 1
  }

  /** The widths of the types from the i-th up to the k-th, added to length. */
  function WidthFrom(ts: seq<Type>, i: nat, k: nat, length: nat): nat
    requires i <= k <= |ts|
    decreases ts, k - i
  {
    if i == k then length else WidthFrom(ts, i + 1, k, Wrap32(length + Width(ts[i])))
  }

  function Times(n: nat, width: nat, length: nat): nat
    decreases n
  {
    if n == 0 then length else Times(n - 1, width, Wrap32(length + width))
  }

  /** The length of a type without a count is found without a look at the data, wherever it is. */
  lemma {:induction false} WidthFound(t: Type, s: bytes, at: nat)
    requires Nameable(t) && Fixed(t)
    ensures LengthIs(Render(t), s, at, Width(t))
    decreases t, 0
  {
    if t.Integer? {
      IntegerExact(t.signed, t.size, s, at);
    } else if t.FixedBytes? {
      FixedExact(t.size, s, at);
    } else if t.Tuple? {
      WidthsFound(t.ts, Components(t), 0, s, at, 0);
      TupleNames();
      TupleLengthIs(ParameterAbi("tuple", Components(t)), s, at);
    } else if t.Array? {
      if t.count > 0 { TimesFound(t.element, t.count, s, at, 0); }
      ArraySum(t.element, t.count, Width(t), s, at);
    } else {
      SingleExact(t, s, at);
    }
  }

  lemma {:induction false} WidthsFound(
    ts: seq<Type>, cs: seq<ParameterAbi>, i: nat, s: bytes, at: nat, length: nat)
    requires |cs| == |ts| && i <= |ts|
    requires forall j: nat | j < |ts| :: Nameable(ts[j]) && Fixed(ts[j]) && cs[j] == Render(ts[j])
    ensures ComponentsAre(cs, i, s, at, length, WidthFrom(ts, i, |ts|, length))
    decreases ts, |ts| - i
  {
    if i < |ts| {
      var l := Width(ts[i]);
      WidthFound(ts[i], s, at);
      assert Length(cs[i], s, at) == Found(l);
      WidthsFound(ts, cs, i + 1, s, Wrap64(at + l), Wrap32(length + l));
    }
  }

  lemma {:induction false} TimesFound(e: Type, n: nat, s: bytes, at: nat, length: nat)
    requires Nameable(e) && Fixed(e)
    ensures ElementsAre(Render(e), s, at, n, length, Times(n, Width(e), length))
    decreases e, 1, n
  {
    if n > 0 {
      WidthFound(e, s, at);
      TimesFound(e, n - 1, s, Wrap64(at + Width(e)), Wrap32(length + Width(e)));
      OneElement(Render(e), n, s, at, length, Width(e), Times(n, Width(e), length));
    }
  }

  lemma OneElement(p: ParameterAbi, n: nat, s: bytes, at: nat, length: nat, l: nat, total: nat)
    requires n > 0 && LengthIs(p, s, at, l) && ElementsAre(p, s, Wrap64(at + l), n - 1, Wrap32(length + l), total)
    ensures ElementsAre(p, s, at, n, length, total)
  {
  }

  // ---------- the first count of a list of parameters ----------

  /** A value of the type begins with a count, which is all that is read of it. */
  predicate Counted(t: Type) { t == Bytes || t == Text || (t.Slice? && Fixed(t.element)) }

  lemma CountedReads(t: Type, s: bytes, at: nat)
    requires Nameable(t) && Counted(t)
    ensures Length(Render(t), s, at) == OutOfBounds <==> at > |s|
  {
    if t.Slice? {
      SliceReads(t.element, s, at);
    } else {
      NoBracket(t);
      CountedNames();
      var p := Render(t);
      assert LengthOfType(p.ty, p.components, s, at) == LengthOfNamed(p.ty, p.components, s, at);
    }
  }

  lemma SliceReads(e: Type, s: bytes, at: nat)
    requires Nameable(e) && Fixed(e)
    ensures Length(Render(Slice(e)), s, at) == OutOfBounds <==> at > |s|
  {
    var n := if Compact(s, at).Found? then Compact(s, at).value else 0;
    TimesFound(e, n, s, Wrap64(at + CompactLen(n)), CompactLen(n));
    SliceOfReads(Render(e), n, Times(n, Width(e), CompactLen(n)), s, at);
    assert Name(Slice(e)) == Render(e).ty + "[" + "]" && Components(Slice(e)) == Render(e).components;
  }

  lemma SliceOfReads(p: ParameterAbi, n: nat, total: nat, s: bytes, at: nat)
    requires Compact(s, at).Found? ==> Compact(s, at).value == n
    requires ElementsAre(p, s, Wrap64(at + CompactLen(n)), n, CompactLen(n), total)
    ensures Length(ParameterAbi(p.ty + "[" + "]", p.components), s, at) == OutOfBounds <==> at > |s|
  {
    var q := ParameterAbi(p.ty + "[" + "]", p.components);
    SliceNames(p.ty);
    assert ParameterAbi(q.ty[..|q.ty| - 2], q.components) == p;
    assert LengthOfType(q.ty, q.components, s, at) == LengthOfArray(q.ty, q.components, s, at);
  }

  /** Parameters without counts in front of the k-th are passed without a look at the data. */
  lemma {:induction false} SkipFixed(ts: seq<Type>, i: nat, k: nat, s: bytes, pos: nat)
    requires i <= k <= |ts| && forall j: nat | j < k :: Nameable(ts[j]) && Fixed(ts[j])
    ensures Skip(Components(Tuple(ts)), i, k, s, pos) == Found(WidthFrom(ts, i, k, pos))
    decreases k - i
  {
    if i < k {
      WidthFound(ts[i], s, pos);
      assert Length(Components(Tuple(ts))[i], s, pos) == Found(Width(ts[i]));
      SkipFixed(ts, i + 1, k, s, Wrap32(pos + Width(ts[i])));
    }
  }

  /** Up to the first parameter with a count, an argument is read out of bounds iff the parameter begins behind the end
      of the data. */
  lemma FirstCountReads(ts: seq<Type>, k: nat, s: bytes, pos: nat)
    requires k < |ts| && Nameable(ts[k]) && Counted(ts[k])
    requires forall j: nat | j < k :: Nameable(ts[j]) && Fixed(ts[j])
    ensures
      var here := Skip(Components(Tuple(ts)), 0, k, s, pos);
      here == Found(WidthFrom(ts, 0, k, pos)) &&
      (Length(Components(Tuple(ts))[k], s, here.value) == OutOfBounds <==> WidthFrom(ts, 0, k, pos) > |s|)
  {
    SkipFixed(ts, 0, k, s, pos);
    CountedReads(ts[k], s, WidthFrom(ts, 0, k, pos));
  }

  /** With no data behind the selector, the key of a string behind a bytes32 is read out of bounds. */
  lemma NoDataOverrun()
    ensures ArgumentKey(Components(Tuple([FixedBytes(32), Text])), [1], 0, [], 0) == Overrun
  {
    var ts := [FixedBytes(32), Text];
    FirstCountReads(ts, 1, [], 0);
    assert WidthFrom(ts, 0, 1, 0) == WidthFrom(ts, 1, 1, Wrap32(0 + Width(ts[0]))) == 32;
  }
}
