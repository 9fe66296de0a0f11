/** What the bytes of a varint and of the two casts mean, position by position. */
module WireLaws {
  import opened Wire

  /** The first `n` bytes of `s` are a whole varint: all but the last have the high bit set. */
  predicate Terminated(s: bytes, n: nat) {
    1 <= n <= |s| && s[n - 1] < 0x80 && forall i :: 0 <= i < n - 1 ==> s[i] >= 0x80
  }

  /** The low seven bits of byte `i` count 128^i times. */
  function Weighted(s: bytes, n: nat): nat
    requires n <= |s|
  {
    if n == 0 then 0 else Weighted(s, n - 1) + s[n - 1] % 0x80 * Pow128(n - 1)
  }

  lemma {:induction false} WeightedHead(s: bytes, n: nat)
    requires 1 <= n <= |s|
    ensures Weighted(s, n) == s[0] % 0x80 + 0x80 * Weighted(s[1..], n - 1)
    decreases n
  {
    if n > 1 {
      WeightedHead(s, n - 1);
      assert s[1..][n - 2] == s[n - 1];
      assert Pow128(n - 1) == 0x80 * Pow128(n - 2);
      Scaled(s[n - 1] % 0x80, Pow128(n - 2), Weighted(s[1..], n - 2));
    } else {
      assert Weighted(s, 0) == 0 && Weighted(s[1..], 0) == 0;
    }
  }

  lemma Scaled(d: nat, w: nat, v: nat)
    ensures 0x80 * (v + d * w) == 0x80 * v + d * (0x80 * w)
  {
  }

  lemma {:induction false} DigitsWeighted(s: bytes, limit: nat, n: nat)
    requires Terminated(s, n) && n <= limit
    ensures Digits(s, limit) == Some((Weighted(s, n), n))
    decreases n
  {
    hide Pow128;
    WeightedHead(s, n);
    if n > 1 {
      assert Terminated(s[1..], n - 1);
      DigitsWeighted(s[1..], limit - 1, n - 1);
    } else {
      assert Weighted(s[1..], 0) == 0;
    }
  }

  lemma {:induction false} DigitsTerminated(s: bytes, limit: nat)
    requires Digits(s, limit).Some?
    ensures Terminated(s, Digits(s, limit).value.1)
    decreases limit
  {
    if s[0] >= 0x80 {
      DigitsTerminated(s[1..], limit - 1);
    }
  }

  /** A varint reads exactly when one of the first ten bytes has the high bit clear; the first such byte ends it,
      and the value is the weighted sum of its low seven bits, modulo 2^64. */
  lemma VarintReads(s: bytes)
    ensures forall n :: n <= 10 && Terminated(s, n) ==> Varint(s) == Some((Weighted(s, n) % TWO64, n))
    ensures Varint(s).Some? <==> exists n :: n <= 10 && Terminated(s, n)
  {
    hide Digits, Weighted;
    forall n | n <= 10 && Terminated(s, n) ensures Varint(s) == Some((Weighted(s, n) % TWO64, n)) {
      DigitsWeighted(s, 10, n);
    }
    if Varint(s).Some? {
      DigitsTerminated(s, MAX_VARINT_BYTES);
    }
  }

  /** What is written is a whole varint of that value, with no byte to spare. */
  lemma VarintLayout(v: uint64)
    ensures var b := PutVarint(v);
            Terminated(b, |b|) && Weighted(b, |b|) == v && (|b| > 1 ==> b[|b| - 1] != 0)
  {
    hide Digits, Weighted;
    PutTerminated(v);
    VarintRoundTrip(v, []);
    assert PutVarint(v) + [] == PutVarint(v);
    Pow128At(10);
    DigitsOfPut(v, 10, []);
    DigitsWeighted(PutVarint(v), 10, |PutVarint(v)|);
  }

  lemma {:induction false} PutTerminated(v: uint64)
    ensures var b := PutVarint(v); Terminated(b, |b|) && (v > 0 ==> b[|b| - 1] != 0) && (|b| > 1 ==> v > 0)
    decreases v
  {
    if v >= 0x80 {
      PutTerminated(v / 0x80);
      var b, c := PutVarint(v), PutVarint(v / 0x80);
      assert forall i :: 1 <= i < |b| ==> b[i] == c[i - 1];
    }
  }

  /** Casting to int32 gives the one value that is the same modulo 2^32, casting to uint32 the remainder. */
  lemma CastsKeepBits(n: nat, w: int32)
    ensures ToInt32(n) == w <==> (w - n) % TWO32 == 0
    ensures ToUint32(w) == w % TWO32
  {
    assert (ToInt32(n) - n) % TWO32 == 0;
    if (w - n) % TWO32 == 0 {
      assert (w - ToInt32(n)) % TWO32 == 0;
    }
  }
}
