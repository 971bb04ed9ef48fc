/** Compact integers of SCALE (src/dag/ScaleUtils.cpp, decodeCompactInteger; appendix A.2.2 of the Polkadot
    Protocol Specification).  Integers have the widths of the source. */
module Scale {
  type byte = x: int | 0 <= x < 256 witness 0
  type bytes = seq<byte>

  const U32: nat := 0x1_0000_0000
  const U64: nat := 0x1_0000_0000_0000_0000

  /** std::optional, and the reads past the end that the source does not guard against. */
  datatype Outcome = Found(value: nat) | Nothing | OutOfBounds

  /** Unsigned arithmetic in 32 and 64 bits. */
  function Wrap32(n: nat): (r: nat)
    ensures r < U32
  {
    if n < U32 then n else Wrap32(n - U32)
  }

  function Wrap64(n: nat): (r: nat)
    ensures r < U64
  {
    if n < U64 then n else Wrap64(n - U64)
  }

  // ---------- little-endian numbers ----------

  /** The number in k bytes from a position on. */
  function Num(s: bytes, at: nat, k: nat): nat
    requires at + k <= |s|
    decreases k
  {
    if k == 0 then 0 else s[at] + 256 * Num(s, at + 1, k - 1)
  }

  function Pow256(k: nat): (p: nat)
    ensures p > 0
  {
    if k == 0 then 1 else 256 * Pow256(k - 1)
  }

  /** The k low bytes of n. */
  function Le(k: nat, n: nat): (s: bytes)
    ensures |s| == k
    decreases k
  {
    if k == 0 then [] else [n % 256] + Le(k - 1, n / 256)
  }

  lemma {:induction false} NumLe(k: nat, n: nat, s: bytes, at: nat)
    requires n < Pow256(k) && at + k <= |s| && forall i :: 0 <= i < k ==> s[at + i] == Le(k, n)[i]
    ensures Num(s, at, k) == n
    decreases k
  {
    if k > 0 {
      assert s[at + 0] == Le(k, n)[0];
      var rest := Le(k - 1, n / 256);
      forall i | 0 <= i < k - 1 ensures s[at + 1 + i] == rest[i] {
        assert s[at + (i + 1)] == Le(k, n)[i + 1];
      }
      NumLe(k - 1, n / 256, s, at + 1);
    }
  }

  lemma {:induction false} NumAppend(s: bytes, at: nat, k: nat)
    requires at + k < |s|
    ensures Num(s, at, k + 1) == Num(s, at, k) + s[at + k] * Pow256(k)
    decreases k
  {
    if k > 0 {
      NumAppend(s, at + 1, k - 1);
      ShiftOut(Num(s, at + 1, k - 1), s[at + k], Pow256(k - 1));
    }
  }

  lemma ShiftOut(n: nat, b: nat, p: nat)
    ensures 256 * (n + b * p) == 256 * n + b * (256 * p)
  {
    assert 256 * (b * p) == b * (256 * p);
  }

  /** One step of a sum of products, kept in 32 bits. */
  lemma WrapStep(n: nat, b: nat, p: nat)
    ensures Wrap32(Wrap32(n) + b * Wrap32(p)) == Wrap32(n + b * p)
  {
    var x, y := Wrap32(n) + b * Wrap32(p), n + b * p;
    WrapIsMod(n);
    WrapIsMod(p);
    WrapIsMod(x);
    WrapIsMod(y);
    ModStep(n, b, p);
  }

  lemma WrapTimes(p: nat)
    ensures Wrap32(256 * Wrap32(p)) == Wrap32(256 * p)
  {
    WrapStep(0, 256, p);
  }

  lemma {:induction false} WrapIsMod(n: nat)
    ensures Wrap32(n) == n % 0x1_0000_0000
  {
    if n >= U32 { WrapIsMod(n - U32); }
  }

  lemma ModStep(n: nat, b: nat, p: nat)
    ensures (n % 0x1_0000_0000 + b * (p % 0x1_0000_0000)) % 0x1_0000_0000 == (n + b * p) % 0x1_0000_0000
  {
    var (q, r) := (p / 0x1_0000_0000, p % 0x1_0000_0000);
    Distribute(b, q, r);
    DropMultiple(n % 0x1_0000_0000 + b * r, n / 0x1_0000_0000 + b * q);
  }

  lemma Distribute(b: nat, q: nat, r: nat)
    ensures b * (0x1_0000_0000 * q + r) == 0x1_0000_0000 * (b * q) + b * r
  {
  }

  lemma DropMultiple(x: nat, k: nat)
    ensures (0x1_0000_0000 * k + x) % 0x1_0000_0000 == x % 0x1_0000_0000
  {
  }

  // ---------- decoding ----------

  /** The length of an encoding, from the mode in its first byte. */
  function SizeOf(first: byte): nat {
    var mode := first % 4;
    if mode == 0 then 1 else if mode == 1 then 2 else if mode == 2 then 4 else first / 4 + 5
  }

  /** The compact integer at a position: its value, in 32 bits. */
  function Compact(s: bytes, at: nat): Outcome {
    if at > |s| then OutOfBounds
    else if at == |s| || |s| - at < SizeOf(s[at]) then Nothing
    else if s[at] % 4 < 3 then Found(Num(s, at, SizeOf(s[at])) / 4)
    else Found(Wrap32(Num(s, at + 1, SizeOf(s[at]) - 1)))
  }

  /** Four-byte mode: the first byte is added up so far. */
  method AddThreeBytes(encodedBytes: bytes, startPos: nat) returns (number: nat)
    requires startPos + 4 <= |encodedBytes|
    ensures number == Num(encodedBytes, startPos, 4)
  {
    number := encodedBytes[startPos];
    var multiplier: nat := 256;
    NumAppend(encodedBytes, startPos, 0);
    for i := 1 to 4
      invariant multiplier == Pow256(i)
      invariant number == Num(encodedBytes, startPos, i) < Pow256(i)
    {
      NumAppend(encodedBytes, startPos, i);
      FitsThree(i, number, encodedBytes[startPos + i]);
      number := Wrap32(number + encodedBytes[startPos + i] * multiplier);
      multiplier := multiplier * 256;
    }
  }

  lemma FitsThree(i: nat, n: nat, b: byte)
    requires 1 <= i < 4 && n < Pow256(i)
    ensures n + b * Pow256(i) < Pow256(i + 1) <= U32
  {
    Powers();
  }

  /** Big-integer mode: multiplier and number wrap around. */
  method AddBigBytes(encodedBytes: bytes, startPos: nat, bytesCount: nat) returns (number: nat)
    requires startPos + bytesCount + 1 <= |encodedBytes|
    ensures number == Wrap32(Num(encodedBytes, startPos + 1, bytesCount))
  {
    number := 0;
    var multiplier: nat := 1;
    for i := 1 to bytesCount + 1
      invariant multiplier == Wrap32(Pow256(i - 1))
      invariant number == Wrap32(Num(encodedBytes, startPos + 1, i - 1))
    {
      NumAppend(encodedBytes, startPos + 1, i - 1);
      WrapStep(Num(encodedBytes, startPos + 1, i - 1), encodedBytes[startPos + i], Pow256(i - 1));
      WrapTimes(Pow256(i - 1));
      number := Wrap32(number + encodedBytes[startPos + i] * multiplier);
      multiplier := Wrap32(256 * multiplier);
    }
  }

  method DecodeCompactInteger(encodedBytes: bytes, startPos: nat) returns (r: Outcome)
    ensures r == Compact(encodedBytes, startPos)
    ensures r == OutOfBounds <==> startPos > |encodedBytes|
  {
    if startPos > |encodedBytes| {
      return OutOfBounds;
    }
    if |encodedBytes| - startPos < 1 {
      return Nothing;
    }
    var firstByte: nat := encodedBytes[startPos];
    var flag := firstByte % 4;
    var number := 0;
    if flag == 0 {
      NumAppend(encodedBytes, startPos, 0);
      number := firstByte / 4;
    } else if flag == 1 {
      if |encodedBytes| - startPos < 2 {
        return Nothing;
      }
      NumAppend(encodedBytes, startPos, 1);
      var secondByte: nat := encodedBytes[startPos + 1];
      number := (firstByte / 4 * 4 + secondByte * 256) / 4;
    } else if flag == 2 {
      if |encodedBytes| - startPos < 4 {
        return Nothing;
      }
      number := AddThreeBytes(encodedBytes, startPos);
      number := number / 4;
    } else {
      var bytesCount := firstByte / 4 + 4;
      if |encodedBytes| - startPos < bytesCount + 1 {
        return Nothing;
      }
      number := AddBigBytes(encodedBytes, startPos, bytesCount);
    }
    return Found(number);
  }

  // ---------- encoding ----------

  /** The least number of bytes that n fits in. */
  function ByteCount(n: nat): (k: nat)
    ensures n < Pow256(k) && (k > 0 ==> n >= Pow256(k - 1))
  {
    if n == 0 then 0 else ByteCount(n / 256) + 1
  }

  lemma {:induction false} ByteCountBound(n: nat, k: nat)
    ensures n < Pow256(k) <==> ByteCount(n) <= k
    decreases k
  {
    if k > 0 { ByteCountBound(n / 256, k - 1); }
  }

  function CompactLen(n: nat): nat {
    if n < 0x40 then 1 else if n < 0x4000 then 2 else if n < 0x4000_0000 then 4 else ByteCount(n) + 1
  }

  /** The encoding of a number that fits in 67 bytes. */
  function EncodeCompact(n: nat): (s: bytes)
    requires ByteCount(n) <= 67
    ensures |s| == CompactLen(n)
  {
    if n < 0x40 then [4 * n]
    else if n < 0x4000 then Le(2, 4 * n + 1)
    else if n < 0x4000_0000 then Le(4, 4 * n + 2)
    else
      Powers();
      ByteCountBound(n, 3);
      [4 * (ByteCount(n) - 4) + 3] + Le(ByteCount(n), n)
  }

  lemma Powers()
    ensures Pow256(1) == 0x100 && Pow256(2) == 0x1_0000 && Pow256(3) == 0x100_0000 && Pow256(4) == U32
  {
    assert Pow256(1) == 256 * Pow256(0);
    assert Pow256(2) == 256 * Pow256(1);
    assert Pow256(3) == 256 * Pow256(2);
    assert Pow256(4) == 256 * Pow256(3);
  }

  /** The bytes e stand at a position of s. */
  predicate Stands(s: bytes, at: nat, e: bytes) {
    at + |e| <= |s| && forall i :: 0 <= i < |e| ==> s[at + i] == e[i]
  }

  lemma ModeBits(n: nat, flag: nat)
    requires flag < 4
    ensures (4 * n + flag) % 256 % 4 == flag
  {
  }

  lemma ModeDecoded(k: nat, n: nat, flag: nat, s: bytes, at: nat)
    requires 0 < k && flag < 3 && 4 * n + flag < Pow256(k)
    requires k == if flag == 0 then 1 else if flag == 1 then 2 else 4
    requires Stands(s, at, Le(k, 4 * n + flag))
    ensures Compact(s, at) == Found(n)
  {
    NumLe(k, 4 * n + flag, s, at);
    ModeBits(n, flag);
    assert s[at + 0] == Le(k, 4 * n + flag)[0];
    ModeDecodes(s, at, k, n, flag);
  }

  lemma ModeDecodes(s: bytes, at: nat, k: nat, n: nat, flag: nat)
    requires at + k <= |s| && flag < 3 && k == if flag == 0 then 1 else if flag == 1 then 2 else 4
    requires s[at] % 4 == flag && Num(s, at, k) == 4 * n + flag
    ensures Compact(s, at) == Found(n)
  {
  }

  lemma BigDecodes(s: bytes, at: nat, k: nat, n: nat)
    requires 4 <= k && at + k + 1 <= |s| && s[at] == 4 * (k - 4) + 3 && Num(s, at + 1, k) == n
    ensures Compact(s, at) == Found(Wrap32(n))
  {
  }

  /** In big-integer mode there are four bytes or more. */
  lemma BigCount(n: nat)
    requires 0x4000_0000 <= n
    ensures ByteCount(n) >= 4
  {
    Powers();
    ByteCountBound(n, 3);
  }

  lemma BigEncoding(n: nat)
    requires 0x4000_0000 <= n && ByteCount(n) <= 67
    ensures
      var (k, e) := (ByteCount(n), EncodeCompact(n));
      4 <= k && |e| == k + 1 && e[0] == 4 * (k - 4) + 3 && e[1..] == Le(k, n)
  {
    BigCount(n);
    assert EncodeCompact(n)[1..] == Le(ByteCount(n), n);
  }

  lemma StandsTail(s: bytes, at: nat, e: bytes)
    requires |e| > 0 && Stands(s, at, e)
    ensures s[at] == e[0] && Stands(s, at + 1, e[1..])
  {
    assert s[at + 0] == e[0];
    forall i | 0 <= i < |e[1..]| ensures s[at + 1 + i] == e[1..][i] { assert s[at + (i + 1)] == e[i + 1]; }
  }

  lemma BigDecoded(n: nat, s: bytes, at: nat)
    requires 0x4000_0000 <= n && ByteCount(n) <= 67 && Stands(s, at, EncodeCompact(n))
    ensures Compact(s, at) == Found(Wrap32(n))
  {
    BigEncoding(n);
    StandsTail(s, at, EncodeCompact(n));
    NumLe(ByteCount(n), n, s, at + 1);
    BigDecodes(s, at, ByteCount(n), n);
  }

  /** Decoding the encoding of n, wherever it stands, gives n in 32 bits. */
  lemma CompactRoundTrip(n: nat, s: bytes, at: nat)
    requires ByteCount(n) <= 67 && Stands(s, at, EncodeCompact(n))
    ensures Compact(s, at) == Found(Wrap32(n))
  {
    if n >= 0x4000_0000 {
      BigDecoded(n, s, at);
    } else {
      Powers();
      SmallEncoding(n);
      var flag := if n < 0x40 then 0 else if n < 0x4000 then 1 else 2;
      ModeDecoded(CompactLen(n), n, flag, s, at);
    }
  }

  lemma SmallEncoding(n: nat)
    requires n < 0x4000_0000 && ByteCount(n) <= 67
    ensures EncodeCompact(n) == Le(CompactLen(n), 4 * n + if n < 0x40 then 0 else if n < 0x4000 then 1 else 2)
  {
    assert Le(1, 4 * n) == [4 * n % 256];
  }

  lemma SmallFirstByte(n: nat)
    requires n < 0x4000_0000 && ByteCount(n) <= 67
    ensures SizeOf(EncodeCompact(n)[0]) == CompactLen(n)
  {
    var flag := if n < 0x40 then 0 else if n < 0x4000 then 1 else 2;
    SmallEncoding(n);
    ModeBits(n, flag);
    assert Le(CompactLen(n), 4 * n + flag)[0] == (4 * n + flag) % 256;
  }

  lemma SizeOfBig(first: byte, k: nat)
    requires 4 <= k && first == 4 * (k - 4) + 3
    ensures SizeOf(first) == k + 1
  {
  }

  lemma BigFirstByte(n: nat)
    requires 0x4000_0000 <= n && ByteCount(n) <= 67
    ensures SizeOf(EncodeCompact(n)[0]) == CompactLen(n)
  {
    BigEncoding(n);
    SizeOfBig(EncodeCompact(n)[0], ByteCount(n));
  }

  /** The first byte of an encoding tells its length. */
  lemma FirstByte(n: nat)
    requires ByteCount(n) <= 67
    ensures SizeOf(EncodeCompact(n)[0]) == |EncodeCompact(n)|
  {
    if n >= 0x4000_0000 {
      BigFirstByte(n);
    } else {
      SmallFirstByte(n);
    }
  }

  /** No proper prefix of an encoding, at the end of the data, is taken for one. */
  lemma CompactPrefix(n: nat, s: bytes, at: nat)
    requires ByteCount(n) <= 67 && at <= |s| && s[at..] < EncodeCompact(n)
    ensures Compact(s, at) == Nothing
  {
    FirstByte(n);
    if at < |s| { assert s[at] == s[at..][0] == EncodeCompact(n)[0]; }
  }
}
