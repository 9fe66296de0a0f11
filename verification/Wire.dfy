/** Bytes, fixed-width integers and base-128 varints, as the codec and both frame readers use them. */
module Wire {
  type byte = x: int | 0 <= x < 0x100
  type bytes = seq<byte>
  type uint32 = x: int | 0 <= x < 0x1_0000_0000
  type uint64 = x: int | 0 <= x < 0x1_0000_0000_0000_0000
  type int32 = x: int | -0x8000_0000 <= x < 0x8000_0000

  const TWO32 := 0x1_0000_0000
  const TWO64 := 0x1_0000_0000_0000_0000
  const MAX_VARINT_BYTES := 10

  datatype Option<+T> = None | Some(value: T)

  /** The C cast to int32_t of a wider unsigned value: keep 32 bits, read them as two's complement. */
  function ToInt32(v: nat): int32 {
    var low := v % TWO32;
    if low < 0x8000_0000 then low else low - TWO32
  }

  /** The C cast to uint32_t of an int32_t. */
  function ToUint32(v: int32): uint32 {
    if v < 0 then v + TWO32 else v
  }

  /** The uint32 stored in the first four bytes of `b`, least significant byte first. */
  function FromLE32(b: bytes): uint32
    requires |b| >= 4
  {
    (b[0] as int) + 0x100 * (b[1] as int) + 0x1_0000 * (b[2] as int) + 0x100_0000 * (b[3] as int)
  }

  function ToLE32(n: uint32): bytes {
    [n % 0x100, n / 0x100 % 0x100, n / 0x1_0000 % 0x100, n / 0x100_0000]
  }

  lemma LE32RoundTrip(n: uint32, tail: bytes)
    ensures |ToLE32(n)| == 4
    ensures FromLE32(ToLE32(n) + tail) == n
  {
    var b := ToLE32(n);
    assert (b + tail)[..4] == b;
    assert n / 0x100 / 0x100 == n / 0x1_0000;
    assert n / 0x1_0000 / 0x100 == n / 0x100_0000;
  }

  /** A terminated group of at most `limit` base-128 digits at the head of `s`: its value, with
      the least significant digit first, and the number of bytes it takes. */
  function Digits(s: bytes, limit: nat): (r: Option<(nat, nat)>)
    ensures r.Some? ==> 1 <= r.value.1 <= |s| && r.value.1 <= limit
  {
    if limit == 0 || s == [] then None
    else if s[0] < 0x80 then Some((s[0], 1))
    else match Digits(s[1..], limit - 1)
      case None => None
      case Some((v, n)) => Some((s[0] - 0x80 + 0x80 * v, n + 1))
  }

  /** What reading a varint from `s` yields: at most ten bytes, the value modulo 2^64. */
  function Varint(s: bytes): (r: Option<(uint64, nat)>)
    ensures r.Some? ==> 1 <= r.value.1 <= |s|
  {
    match Digits(s, MAX_VARINT_BYTES)
    case None => None
    case Some((v, n)) => Some((v % TWO64, n))
  }

  function PutVarint(v: uint64): (b: bytes)
    decreases v
  {
    if v < 0x80 then [v] else [v % 0x80 + 0x80] + PutVarint(v / 0x80)
  }

  function Pow128(k: nat): (p: nat)
    ensures p >= 1
  {
    if k == 0 then 1 else 0x80 * Pow128(k - 1)
  }

  lemma {:induction false} DigitsSuffix(a: bytes, b: bytes, limit: nat)
    requires Digits(a, limit).Some?
    ensures Digits(a + b, limit) == Digits(a, limit)
  {
    assert (a + b)[0] == a[0];
    if a[0] >= 0x80 {
      assert (a + b)[1..] == a[1..] + b;
      DigitsSuffix(a[1..], b, limit - 1);
    }
  }

  lemma {:induction false} DigitsOfPut(v: uint64, limit: nat, tail: bytes)
    requires limit > 0 && v < Pow128(limit)
    ensures Digits(PutVarint(v) + tail, limit) == Some((v, |PutVarint(v)|))
    decreases v
  {
    var s := PutVarint(v) + tail;
    if v >= 0x80 {
      assert s[0] == v % 0x80 + 0x80;
      assert s[1..] == PutVarint(v / 0x80) + tail;
      assert Pow128(1) == 0x80;
      assert v / 0x80 < Pow128(limit - 1);
      DigitsOfPut(v / 0x80, limit - 1, tail);
    }
  }

  lemma Pow128At(k: nat)
    requires k <= 10
    ensures k == 0 ==> Pow128(k) == 1
    ensures k == 1 ==> Pow128(k) == 0x80
    ensures k == 2 ==> Pow128(k) == 0x4000
    ensures k == 5 ==> Pow128(k) == 0x8_0000_0000
    ensures k == 9 ==> Pow128(k) == 0x8000_0000_0000_0000
    ensures k == 10 ==> Pow128(k) == 0x40_0000_0000_0000_0000
    ensures k <= 9 ==> Pow128(k) <= 0x8000_0000_0000_0000
  {
    assert Pow128(2) == 0x4000;
    assert Pow128(4) == 0x1000_0000;
    assert Pow128(6) == 0x400_0000_0000;
    assert Pow128(8) == 0x100_0000_0000_0000;
  }

  /** Reading undoes writing for every 64-bit value and leaves whatever follows unread. */
  lemma VarintRoundTrip(v: uint64, tail: bytes)
    ensures Varint(PutVarint(v) + tail) == Some((v, |PutVarint(v)|))
    ensures |PutVarint(v)| <= MAX_VARINT_BYTES
  {
    Pow128At(10);
    DigitsOfPut(v, 10, tail);
    DigitsOfPut(v, 10, []);
  }

  lemma VarintSuffix(a: bytes, b: bytes)
    requires Varint(a).Some?
    ensures Varint(a + b) == Varint(a)
  {
    DigitsSuffix(a, b, MAX_VARINT_BYTES);
  }

  /** An int32 written as its five-byte unsigned form or sign-extended to ten bytes reads back the same. */
  lemma Int32RoundTrip(id: int32)
    ensures ToInt32(ToUint32(id)) == id
    ensures ToInt32(if id < 0 then id + TWO64 else id) == id
  {
  }

  lemma {:induction false} PutVarintLength(v: uint64, k: nat)
    requires 1 <= k && v < Pow128(k)
    ensures 1 <= |PutVarint(v)| <= k
    decreases k
  {
    if v >= 0x80 {
      assert Pow128(1) == 0x80;
      PutVarintLength(v / 0x80, k - 1);
    }
  }
}
