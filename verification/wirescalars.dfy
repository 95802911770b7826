/**
 * Scalars of the Protocol Buffers wire format: base-128 varints, fixed 64-bit values and
 * zigzag integers, with the error results of the generated reader. Bit operations on the
 * 64-bit words are written as the arithmetic they perform.
 */
module WireScalars {

  const TWO_32: int := 0x1_0000_0000
  const TWO_63: int := 0x8000_0000_0000_0000
  const TWO_64: int := 0x1_0000_0000_0000_0000

  type byte = x: int | 0 <= x < 256
  type u32 = x: int | 0 <= x < TWO_32
  type u64 = x: int | 0 <= x < TWO_64
  type i32 = x: int | -0x8000_0000 <= x < 0x8000_0000
  type i64 = x: int | -TWO_63 <= x < TWO_63

  type bytes = seq<byte>

  datatype Error =
    | IntOverflow | UnexpectedEOF | InvalidLength | EndGroup
    | IllegalTag | WrongWireType | IllegalWireType | UnexpectedEndOfGroup

  datatype Result<+T> = Ok(value: T) | Err(error: Error) {
    predicate IsFailure() {
      Err?
    }
    function PropagateFailure<U>(): Result<U>
      requires Err?
    {
      Err(error)
    }
    function Extract(): T
      requires Ok?
    {
      value
    }
  }

  /** A value read from the front of a buffer and the number of bytes it took. */
  datatype Read<+T> = Read(v: T, n: nat)

  // ----- two's complement -----

  function Unsigned64(n: i64): u64 {
    if n >= 0 then n else n + TWO_64
  }

  function Signed64(v: u64): i64 {
    if v < TWO_63 then v else v - TWO_64
  }

  function Signed32(v: u32): i32 {
    if v < 0x8000_0000 then v else v - TWO_32
  }

  // ----- varints -----

  /** Base-128 digits, least significant first, each but the last marked by its top bit. */
  function Varint(v: nat): (s: bytes)
    ensures |s| >= 1
  {
    if v < 128 then [v] else [v % 128 + 128] + Varint(v / 128)
  }

  /** Number of bits of `x`: `bits.Len64`. */
  function BitLen(x: nat): nat {
    if x == 0 then 0 else 1 + BitLen(x / 2)
  }

  /** `sovTypes`: the size of a varint, from the bit length of `x | 1`. */
  function Sov(x: nat): nat {
    (BitLen(if x % 2 == 0 then x + 1 else x) + 6) / 7
  }

  lemma BitLenSeven(x: nat)
    requires x >= 128
    ensures BitLen(x) == 7 + BitLen(x / 128)
  {
    var x1 := x / 2;
    var x2 := x1 / 2;
    var x3 := x2 / 2;
    var x4 := x3 / 2;
    var x5 := x4 / 2;
    var x6 := x5 / 2;
    assert BitLen(x) == 4 + BitLen(x4) by {
      assert BitLen(x1) == 1 + BitLen(x2) && BitLen(x2) == 1 + BitLen(x3) && BitLen(x3) == 1 + BitLen(x4);
    }
    assert BitLen(x4) == 2 + BitLen(x6) && BitLen(x6) == 1 + BitLen(x6 / 2);
    assert x6 / 2 == x / 128;
  }

  /** Exact sizing: the size function is the number of digits written, for every value. */
  lemma {:induction false} SovExact(v: nat)
    ensures Sov(v) == |Varint(v)|
    decreases v
  {
    var odd := if v % 2 == 0 then v + 1 else v;
    if v < 128 {
      SmallBitLen(odd);
    } else {
      var q := v / 128;
      BitLenSeven(odd);
      assert odd / 128 == q;
      var oddq := if q % 2 == 0 then q + 1 else q;
      assert BitLen(q) == 1 + BitLen(q / 2) && BitLen(oddq) == 1 + BitLen(oddq / 2);
      assert q / 2 == oddq / 2;
      SovExact(q);
    }
  }

  lemma SmallBitLen(x: nat)
    requires 0 < x < 128
    ensures 1 <= BitLen(x) <= 7
  {
    var x1 := x / 2;
    var x2 := x1 / 2;
    var x3 := x2 / 2;
    var x4 := x3 / 2;
    var x5 := x4 / 2;
    var x6 := x5 / 2;
    assert x6 <= 1 && x6 / 2 == 0;
    assert BitLen(x6) <= 1;
    assert BitLen(x4) <= 3;
    assert BitLen(x2) <= 5;
  }

  /** Reads a varint of at most `k` bytes; the value is not yet cut to a word. */
  function ReadRaw(s: bytes, k: nat): (r: Result<Read<nat>>)
    ensures r.Ok? ==> 1 <= r.value.n <= |s|
  {
    if k == 0 then Err(IntOverflow)
    else if s == [] then Err(UnexpectedEOF)
    else if s[0] < 128 then Ok(Read(s[0], 1))
    else
      var r :- ReadRaw(s[1..], k - 1);
      Ok(Read(s[0] - 128 + 128 * r.v, 1 + r.n))
  }

  /** The reader's loop stops at shift 64, that is after ten bytes. */
  const MAX_VARINT: nat := 10

  function ReadVarint(s: bytes): (r: Result<Read<nat>>)
    ensures r.Ok? ==> 1 <= r.value.n <= |s|
  {
    ReadRaw(s, MAX_VARINT)
  }

  lemma {:induction false} ReadRawVarint(v: nat, rest: bytes, k: nat)
    requires |Varint(v)| <= k
    ensures ReadRaw(Varint(v) + rest, k) == Ok(Read(v, |Varint(v)|))
    decreases v
  {
    var s := Varint(v) + rest;
    if v >= 128 {
      ReadRawVarint(v / 128, rest, k - 1);
      assert s[1..] == Varint(v / 128) + rest;
    }
  }

  function Pow128(k: nat): nat {
    if k == 0 then 1 else 128 * Pow128(k - 1)
  }

  lemma {:induction false} VarintFits(v: nat, k: nat)
    requires k >= 1 && v < Pow128(k)
    ensures |Varint(v)| <= k
    decreases k
  {
    if v >= 128 {
      assert k > 1;
      VarintFits(v / 128, k - 1);
    }
  }

  lemma Pow128Ten()
    ensures Pow128(10) == 64 * TWO_64
  {
    assert Pow128(1) == 0x80;
    assert Pow128(2) == 0x4000;
    assert Pow128(3) == 0x20_0000;
    assert Pow128(4) == 0x1000_0000;
    assert Pow128(5) == 0x8_0000_0000;
    assert Pow128(6) == 0x400_0000_0000;
    assert Pow128(7) == 0x2_0000_0000_0000;
    assert Pow128(8) == 0x100_0000_0000_0000;
    assert Pow128(9) == 0x8000_0000_0000_0000;
  }

  /** Varint round trip: any 64-bit value is read back, whatever follows it. */
  lemma ReadVarintOf(v: u64, rest: bytes)
    ensures ReadVarint(Varint(v) + rest) == Ok(Read(v, |Varint(v)|))
    ensures |Varint(v)| <= 10
  {
    Pow128Ten();
    VarintFits(v, 10);
    ReadRawVarint(v, rest, 10);
  }

  /** Cuts a value to a 64-bit or a 32-bit word. */
  function Cut(v: nat, wide: bool): nat {
    if wide then v % TWO_64 else v % TWO_32
  }

  /** The reading loop from the point where `count` bytes have added up to `whole`. */
  function Accumulate(s: bytes, k: nat, whole: nat, weight: nat, count: nat): Result<Read<nat>>
    decreases k
  {
    if k == 0 then Err(IntOverflow)
    else if s == [] then Err(UnexpectedEOF)
    else
      var digit := Digit(s[0], weight);
      if s[0] < 128 then Ok(Read(whole + digit, count + 1))
      else Accumulate(s[1..], k - 1, whole + digit, 128 * weight, count + 1)
  }

  function Digit(b: int, weight: nat): nat {
    b % 128 * weight
  }

  lemma {:induction false} AccumulateIsRaw(s: bytes, k: nat, whole: nat, weight: nat, count: nat)
    ensures var raw := ReadRaw(s, k);
            Accumulate(s, k, whole, weight, count)
            == if raw.Ok? then Ok(Read(whole + weight * raw.value.v, count + raw.value.n)) else raw
    decreases k
  {
    if k > 0 && s != [] && s[0] >= 128 {
      var whole', weight', count' := whole + Digit(s[0], weight), 128 * weight, count + 1;
      AccumulateIsRaw(s[1..], k - 1, whole', weight', count');
      AccumulateStep(s, k, whole, weight, count, s[1..], k - 1, whole', weight', count');
      var rest := ReadRaw(s[1..], k - 1);
      if rest.Ok? {
        MoreDigits(s[0], whole, weight, rest.value.v, whole', weight');
      }
    }
  }

  lemma MoreDigits(b: byte, whole: nat, weight: nat, v: nat, whole': nat, weight': nat)
    requires b >= 128 && whole' == whole + Digit(b, weight) && weight' == 128 * weight
    ensures whole' + weight' * v == whole + weight * (b - 128 + 128 * v)
  {
    assert b % 128 == b - 128;
    Distribute(b - 128, weight, v);
  }

  lemma Distribute(d: nat, w: nat, v: nat)
    ensures w * (d + 128 * v) == d * w + 128 * w * v
  {
  }

  lemma AccumulateStep(s: bytes, k: nat, whole: nat, weight: nat, count: nat,
                       s': bytes, k': nat, whole': nat, weight': nat, count': nat)
    requires k > 0 && s != [] && s[0] >= 128
    requires s' == s[1..] && k' == k - 1 && count' == count + 1
    requires whole' == whole + Digit(s[0], weight) && weight' == 128 * weight
    ensures Accumulate(s, k, whole, weight, count) == Accumulate(s', k', whole', weight', count')
  {
  }

  lemma AccumulateLast(s: bytes, k: nat, whole: nat, weight: nat, count: nat, whole': nat, count': nat)
    requires k > 0 && s != [] && s[0] < 128 && whole' == whole + Digit(s[0], weight) && count' == count + 1
    ensures Accumulate(s, k, whole, weight, count) == Ok(Read(whole', count'))
  {
  }

  lemma CutAdd(whole: nat, digit: nat, wide: bool)
    ensures Cut(Cut(whole, wide) + digit, wide) == Cut(whole + digit, wide)
  {
  }

  /** The generated reading loop on a 64-bit or a 32-bit word: shift, mask, or, cut. */
  method DecodeVarint(dAtA: bytes, start: nat, wide: bool) returns (r: Result<Read<nat>>)
    requires start <= |dAtA|
    ensures var want := ReadVarint(dAtA[start..]);
            if want.Ok? then r == Ok(Read(Cut(want.value.v, wide), want.value.n)) else r == want
  {
    var v: nat, index, count: nat, weight: nat, left: nat := 0, start, 0, 1, MAX_VARINT;
    ghost var whole: nat, rest := 0, dAtA[start..];
    AccumulateIsRaw(rest, left, whole, weight, count);
    ghost var target := Accumulate(rest, left, whole, weight, count);
    while true
      invariant start <= index == start + count <= |dAtA| && rest == dAtA[index..]
      invariant v == Cut(whole, wide)
      invariant Accumulate(rest, left, whole, weight, count) == target
      decreases left
    {
      if left == 0 {
        return Err(IntOverflow);
      }
      if index >= |dAtA| {
        return Err(UnexpectedEOF);
      }
      var b: int := dAtA[index];
      var digit := Digit(b, weight);
      CutAdd(whole, digit, wide);
      v := Cut(v + digit, wide);
      index := index + 1;
      ghost var whole' := whole + digit;
      var weight', count', left' := 128 * weight, count + 1, left - 1;
      if b < 128 {
        AccumulateLast(rest, left, whole, weight, count, whole', count');
        return Ok(Read(v, count'));
      }
      AccumulateStep(rest, left, whole, weight, count, rest[1..], left', whole', weight', count');
      whole, weight, count, left, rest := whole', weight', count', left', rest[1..];
    }
  }

  // ----- fixed 64-bit values -----

  /** `n` bytes of `v`, least significant first: `PutUint64` when `n` is 8. */
  function LittleEndian(v: nat, n: nat): (s: bytes)
    ensures |s| == n
  {
    if n == 0 then [] else [v % 256] + LittleEndian(v / 256, n - 1)
  }

  function FromLittleEndian(s: bytes): nat {
    if s == [] then 0 else s[0] + 256 * FromLittleEndian(s[1..])
  }

  function Pow256(k: nat): nat {
    if k == 0 then 1 else 256 * Pow256(k - 1)
  }

  lemma {:induction false} FromLittleEndianOf(v: nat, n: nat)
    requires v < Pow256(n)
    ensures FromLittleEndian(LittleEndian(v, n)) == v
    decreases n
  {
    if n > 0 {
      assert LittleEndian(v, n)[1..] == LittleEndian(v / 256, n - 1);
      FromLittleEndianOf(v / 256, n - 1);
    }
  }

  lemma {:induction false} FromLittleEndianBound(s: bytes)
    ensures FromLittleEndian(s) < Pow256(|s|)
    decreases |s|
  {
    if s != [] {
      FromLittleEndianBound(s[1..]);
    }
  }

  lemma Pow256Eight()
    ensures Pow256(8) == TWO_64
  {
    assert Pow256(1) == 0x100;
    assert Pow256(2) == 0x1_0000;
    assert Pow256(3) == 0x100_0000;
    assert Pow256(4) == 0x1_0000_0000;
    assert Pow256(5) == 0x100_0000_0000;
    assert Pow256(6) == 0x1_0000_0000_0000;
    assert Pow256(7) == 0x100_0000_0000_0000;
  }

  function ReadFixed64(s: bytes): (r: Result<Read<u64>>)
    ensures r.Ok? ==> r.value.n == 8 <= |s|
  {
    if |s| < 8 then Err(UnexpectedEOF) else
      FromLittleEndianBound(s[..8]);
      Pow256Eight();
      Ok(Read(FromLittleEndian(s[..8]), 8))
  }

  lemma ReadFixed64Of(v: u64, rest: bytes)
    ensures ReadFixed64(LittleEndian(v, 8) + rest) == Ok(Read(v, 8))
  {
    Pow256Eight();
    FromLittleEndianOf(v, 8);
    assert (LittleEndian(v, 8) + rest)[..8] == LittleEndian(v, 8);
  }

  // ----- zigzag -----

  /** `(uint64(n) << 1) ^ uint64(n >> 63)`: doubled, and complemented when negative. */
  function Zig64(n: i64): u64 {
    if n >= 0 then (2 * n) % TWO_64 else TWO_64 - 1 - (2 * n) % TWO_64
  }

  /** `(uint32(n) << 1) ^ uint32(n >> 31)`. */
  function Zig32(n: i32): u32 {
    if n >= 0 then (2 * n) % TWO_32 else TWO_32 - 1 - (2 * n) % TWO_32
  }

  /** `(v >> 1) ^ uint64((int64(v & 1) << 63) >> 63)`. */
  function Unzig64(v: u64): i64 {
    Signed64(if v % 2 == 0 then v / 2 else TWO_64 - 1 - v / 2)
  }

  function Unzig32(v: u32): i32 {
    Signed32(if v % 2 == 0 then v / 2 else TWO_32 - 1 - v / 2)
  }

  /**
   * Zigzag interleaves the signs, so it is inverted by its reader, and the 64-bit form
   * used for sizing agrees with the 32-bit form that is written.
   */
  lemma ZigZag(n: i64)
    ensures Zig64(n) == if n >= 0 then 2 * n else -2 * n - 1
    ensures Unzig64(Zig64(n)) == n
    ensures -0x8000_0000 <= n < 0x8000_0000 ==> Zig32(n) == Zig64(n) && Unzig32(Zig32(n)) == n
  {
    ZigZag64(n);
    if -0x8000_0000 <= n < 0x8000_0000 {
      ZigZag32(n);
    }
  }

  lemma ZigZag64(n: i64)
    ensures Zig64(n) == if n >= 0 then 2 * n else -2 * n - 1
    ensures Unzig64(Zig64(n)) == n
  {
  }

  lemma ZigZag32(n: i32)
    ensures Zig32(n) == if n >= 0 then 2 * n else -2 * n - 1
    ensures Unzig32(Zig32(n)) == n
  {
  }

  lemma TwosComplement(n: i64)
    ensures Signed64(Unsigned64(n)) == n
    ensures -0x8000_0000 <= n < 0x8000_0000 ==> Signed32(Unsigned64(n) % TWO_32) == n
  {
  }

  // ----- length-delimited payloads -----

  /** A length prefix; negative lengths and lengths past the end are refused. */
  function ReadLength(s: bytes): (r: Result<Read<nat>>)
    ensures r.Ok? ==> 1 <= r.value.n && r.value.n + r.value.v <= |s|
  {
    var r :- ReadVarint(s);
    var len := Signed64(r.v % TWO_64);
    if len < 0 then Err(InvalidLength)
    else if r.n + len > |s| then Err(UnexpectedEOF)
    else Ok(Read(len, r.n))
  }

  /** A length prefix and its payload; `n` counts both. */
  function ReadBytes(s: bytes): (r: Result<Read<bytes>>)
    ensures r.Ok? ==> 1 <= r.value.n <= |s| && |r.value.v| < r.value.n
  {
    var r :- ReadLength(s);
    Ok(Read(s[r.n..r.n + r.v], r.n + r.v))
  }

  function Delimited(payload: bytes): bytes {
    Varint(|payload|) + payload
  }

  lemma ReadBytesOf(payload: bytes, rest: bytes)
    requires |payload| < TWO_63
    ensures ReadBytes(Delimited(payload) + rest) == Ok(Read(payload, |Delimited(payload)|))
  {
    var head := Varint(|payload|);
    var s := Delimited(payload) + rest;
    assert s == head + (payload + rest);
    ReadVarintOf(|payload|, payload + rest);
    assert s[|head|..|head| + |payload|] == payload;
  }
}
