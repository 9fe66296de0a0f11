/** The decoder and the encoders in the form the driver runs them: a cursor over a buffer,
    loops that fill a message, and appends to an output string. */
module Codec {
  import opened Wire
  import opened Proto
  import Laws = ProtoLaws
  import DriverMessages

  /** Seven more bits land above the ones read so far; past bit 63 they are lost. */
  lemma ShiftFits(k: nat, d: nat, v: nat)
    requires k <= 9 && d < 0x80 && v < Pow128(k)
    ensures v + d * Pow128(k) % TWO64 < TWO64
    ensures v + d * Pow128(k) % TWO64 == (v + d * Pow128(k)) % TWO64
    ensures k <= 8 ==> v + d * Pow128(k) % TWO64 == v + d * Pow128(k) < Pow128(k + 1)
  {
    Pow128At(9);
    if k <= 8 {
      Pow128Grows(k + 1, 9);
      DigitBelow(d, Pow128(k), v);
    } else {
      LastDigit(d, v);
    }
  }

  lemma DigitBelow(d: nat, w: nat, v: nat)
    requires d < 0x80 && v < w
    ensures 0 <= d * w && v + d * w < 0x80 * w
  {
    assert (0x7f - d) * w >= 0;
  }

  lemma Distribute(w: nat, d: nat, x: nat)
    ensures w * (d + 0x80 * x) == d * w + 0x80 * w * x
  {
    assert w * (d + 0x80 * x) == w * d + w * (0x80 * x);
  }

  lemma TimesNext(next: nat, w: nat, x: nat)
    requires next == 0x80 * w
    ensures next * x == 0x80 * w * x
  {
  }

  lemma LastDigit(d: nat, v: nat)
    requires d < 0x80 && v < 0x8000_0000_0000_0000
    ensures d * 0x8000_0000_0000_0000 % TWO64 == d % 2 * 0x8000_0000_0000_0000
    ensures (v + d * 0x8000_0000_0000_0000) % TWO64 == v + d % 2 * 0x8000_0000_0000_0000
  {
  }

  lemma {:induction false} Pow128Grows(a: nat, b: nat)
    requires a <= b
    ensures Pow128(a) <= Pow128(b)
    decreases b - a
  {
    if a < b {
      Pow128Grows(a + 1, b);
    }
  }

  /** `k` digits worth `v` have been read, `rest` follows, and all of them together are `digits`. */
  ghost predicate ReadSoFar(k: nat, v: nat, rest: bytes, digits: Option<(nat, nat)>) {
    && k <= MAX_VARINT_BYTES
    && (k < MAX_VARINT_BYTES ==> v < Pow128(k))
    && match Digits(rest, MAX_VARINT_BYTES - k)
       case None => digits.None?
       case Some((x, n)) => digits == Some((v + Pow128(k) * x, n + k))
  }

  lemma LastStep(k: nat, v: nat, d: nat, rest: bytes, digits: Option<(nat, nat)>)
    requires rest != [] && rest[0] == d < 0x80 && k < MAX_VARINT_BYTES && ReadSoFar(k, v, rest, digits)
    ensures var bits := d * Pow128(k) % TWO64;
            v + bits < TWO64 && digits.Some? && digits.value.1 == k + 1 && digits.value.0 % TWO64 == v + bits
  {
    hide Pow128;
    ShiftFits(k, d, v);
    Commute(Pow128(k), d);
  }

  lemma Commute(w: nat, d: nat)
    ensures w * d == d * w
  {
  }

  lemma NextStep(k: nat, v: nat, d: nat, rest: bytes, digits: Option<(nat, nat)>)
    requires rest != [] && rest[0] == d + 0x80 && k < MAX_VARINT_BYTES && ReadSoFar(k, v, rest, digits)
    ensures var bits := d * Pow128(k) % TWO64; v + bits < TWO64 && ReadSoFar(k + 1, v + bits, rest[1..], digits)
  {
    hide Digits, Pow128;
    ShiftFits(k, d, v);
    OneDigit(rest, MAX_VARINT_BYTES - k);
    PowNext(k);
    match Digits(rest[1..], MAX_VARINT_BYTES - k - 1) {
      case None =>
      case Some((x, n)) =>
        OneDigit(rest[1..], MAX_VARINT_BYTES - k - 1);
        Distribute(Pow128(k), d, x);
        TimesNext(Pow128(k + 1), Pow128(k), x);
    }
  }

  lemma OneDigit(s: bytes, limit: nat)
    ensures limit == 0 ==> Digits(s, limit).None?
    ensures limit > 0 && s != [] && s[0] >= 0x80 ==>
              Digits(s, limit) == match Digits(s[1..], limit - 1)
                                  case None => None
                                  case Some((v, n)) => Some((s[0] - 0x80 + 0x80 * v, n + 1))
  {
  }

  lemma PowNext(k: nat)
    ensures Pow128(k + 1) == 0x80 * Pow128(k)
  {
  }

  /** Nothing has been read yet. */
  lemma ReadNothing(rest: bytes)
    ensures Pow128(0) == 1 && ReadSoFar(0, 0, rest, Digits(rest, MAX_VARINT_BYTES))
  {
  }

  /** The bytes or the digits have run out. */
  lemma NoMoreDigits(k: nat, v: nat, rest: bytes, digits: Option<(nat, nat)>)
    requires ReadSoFar(k, v, rest, digits) && (k == MAX_VARINT_BYTES || rest == [])
    ensures digits.None?
  {
  }

  lemma DigitsLeft(k: nat, v: nat, rest: bytes, digits: Option<(nat, nat)>)
    requires ReadSoFar(k, v, rest, digits)
    ensures k <= MAX_VARINT_BYTES
  {
  }

  /** The value bits of byte `b`, `weight` = 2^shift places up; bits past the 63rd fall off. */
  function Shifted(b: byte, weight: nat): nat {
    b % 0x80 * weight % TWO64
  }

  lemma DigitStep(k: nat, v: nat, rest: bytes, digits: Option<(nat, nat)>)
    requires rest != [] && k < MAX_VARINT_BYTES && ReadSoFar(k, v, rest, digits)
    ensures var v' := v + Shifted(rest[0], Pow128(k));
            && v' < TWO64
            && if rest[0] < 0x80 then digits.Some? && digits.value.1 == k + 1 && digits.value.0 % TWO64 == v'
               else ReadSoFar(k + 1, v', rest[1..], digits)
  {
    hide Digits, Pow128, ReadSoFar;
    DigitsLeft(k, v, rest, digits);
    if rest[0] < 0x80 {
      LastStep(k, v, rest[0] % 0x80, rest, digits);
    } else {
      NextStep(k, v, rest[0] % 0x80, rest, digits);
    }
  }

  lemma SliceOfSlice(data: bytes, p: nat, end: nat, from: nat, len: nat)
    requires p + from + len <= end <= |data|
    ensures data[p..end][from..from + len] == data[p + from..p + from + len]
  {
    var a, b := data[p..end][from..from + len], data[p + from..p + from + len];
    assert |a| == |b| == len && forall i :: 0 <= i < len ==> a[i] == b[i];
  }

  /** A cursor over data[p..end]; `ok` stays false once a read has failed. */
  class Reader {
    const data: bytes
    const end: nat
    var p: nat
    var ok: bool

    ghost predicate Valid()
      reads this
    {
      p <= end <= |data|
    }

    ghost function Rest(): bytes
      reads this
      requires Valid()
    {
      data[p..end]
    }

    constructor (data: bytes, p: nat, end: nat)
      requires p <= end <= |data|
      ensures Valid() && ok
      ensures this.data == data && this.p == p && this.end == end
    {
      this.data, this.p, this.end, ok := data, p, end, true;
    }

    predicate Done()
      reads this
    {
      p >= end || !ok
    }

    method ReadVarint() returns (v: uint64)
      requires Valid()
      modifies this
      ensures Valid() && p >= old(p) && (old(p) < end ==> p > old(p))
      ensures match Varint(old(Rest()))
              case Some((x, n)) => v == x && p == old(p) + n && ok == old(ok)
              case None => v == 0 && !ok
    {
      hide Digits, Pow128, ReadSoFar, Shifted;
      ghost var start, digits, k := p, Digits(Rest(), MAX_VARINT_BYTES), 0;
      ReadNothing(Rest());
      v := 0;
      var shift, weight := 0, 1;
      while shift < 64 && p < end
        invariant Valid() && p == start + k && ok == old(ok)
        invariant shift == 7 * k && weight == Pow128(k)
        invariant ReadSoFar(k, v, Rest(), digits)
      {
        ghost var before := Rest();
        var b := data[p];
        p := p + 1;
        assert before[0] == b && before[1..] == Rest();
        DigitStep(k, v, before, digits);
        // v |= (b & 0x7f) << shift: the bits do not overlap those already in v.
        v := v + Shifted(b, weight);
        if b < 0x80 {
          return;
        }
        PowNext(k);
        weight, shift, k := weight * 0x80, shift + 7, k + 1;
      }
      DigitsLeft(k, v, Rest(), digits);
      NoMoreDigits(k, v, Rest(), digits);
      ok := false;
      return 0;
    }

    method ReadFixed(width: nat) returns (v: bytes)
      requires Valid()
      modifies this`p, this`ok
      ensures Valid() && |v| == width
      ensures if |old(Rest())| < width then !ok && p == old(p)
              else ok == old(ok) && p == old(p) + width && v == old(Rest())[..width]
    {
      if end - p < width {
        ok := false;
        return seq(width, _ => 0);
      }
      v := data[p..p + width];
      p := p + width;
    }

    /** A reader over the length-delimited bytes that come next, inside this reader's own range. */
    method Sub() returns (r: Reader)
      requires Valid()
      modifies this
      ensures Valid() && p >= old(p)
      ensures fresh(r) && r.Valid() && r.ok && r.data == data && old(p) <= r.p && r.end <= end
      ensures match Varint(old(Rest()))
              case Some((len, n)) =>
                if old(ok) && len <= |old(Rest())| - n
                then ok && p == old(p) + n + len && r.Rest() == old(Rest())[n..n + len]
                else !ok && r.Rest() == []
              case None => !ok && r.Rest() == []
    {
      hide Varint;
      var n := ReadVarint();
      if !ok || n > end - p {
        ok := false;
        r := new Reader(data, p, p);
        return;
      }
      SliceOfSlice(data, old(p), end, p - old(p), n);
      r := new Reader(data, p, p + n);
      p := p + n;
    }

    method Skip(wire: nat, ghost kind: int32, ghost f: int32)
      requires Valid() && !Unpacked(kind, f, wire)
      modifies this
      ensures Valid() && p >= old(p)
      ensures match FieldBody(kind, f, wire, old(Rest()))
              case Some((_, n)) => ok == old(ok) && (ok ==> p == old(p) + n)
              case None => !ok
    {
      match wire
      case 0 =>
        var _ := ReadVarint();
      case 1 =>
        var _ := ReadFixed(8);
      case 2 =>
        var _ := Sub();
      case 5 =>
        var _ := ReadFixed(4);
      case _ =>
        ok := false;
    }

    /** Appends the elements of a repeated scalar to `before`: a packed array, or one element. */
    method Repeated(wire: nat, f: int32, before: seq<bytes>) returns (out: seq<bytes>)
      requires Valid() && (f == 10 || f == 11)
      modifies this
      ensures Valid() && p >= old(p)
      ensures match Values(f, wire, old(Rest()))
              case Some((values, n)) => ok == old(ok) && (ok ==> p == old(p) + n && out == before + values)
              case None => !ok
    {
      hide Varint, ToInt32, Elements, Prepend;
      out := before;
      var width := ElementWidth(f);
      if wire == 2 {
        var s := Sub();
        ghost var all: bytes, got: seq<bytes> := s.Rest(), [];
        PrependNothing(Elements(all, width));
        AllElements(width);
        while !s.Done()
          invariant s.Valid()
          invariant out == before + got
          invariant if s.ok then Elements(all, width) == Prepend(got, Elements(s.Rest(), width))
                    else Elements(all, width).None?
          modifies s
          decreases s.end - s.p, s.ok
        {
          ghost var rest := s.Rest();
          var v := s.ReadFixed(width);
          OneElement(rest, width);
          PrependAll(got);
          if s.ok {
            assert rest[width..] == s.Rest();
            PrependTwice(got, v, Elements(s.Rest(), width));
          }
          out, got := out + [v], got + [v];
        }
        PrependAll(got);
        ok := ok && s.ok;
      } else {
        var v := ReadFixed(width);
        out := out + [v];
      }
    }

    /** The body of the loop over a submessage's fields. */
    method ReadField(kind: int32, m: Msg) returns (m': Msg)
      requires Valid()
      modifies this
      ensures Valid() && p >= old(p) && (old(p) < end ==> p > old(p))
      ensures match Step(kind, m, old(Rest()))
              case Some((next, n)) => ok == old(ok) && (ok ==> p == old(p) + n && m' == next)
              case None => !ok
    {
      ghost var all := Rest();
      var t := ReadVarint();
      assert Varint(all).Some? ==> Rest() == all[Varint(all).value.1..];
      m' := ReadValue(kind, ToInt32(t / 8), t % 8, m);
    }

    method ReadValue(kind: int32, f: int32, w: nat, m: Msg) returns (m': Msg)
      requires Valid()
      modifies this
      ensures Valid() && p >= old(p)
      ensures match Value(kind, f, w, m, old(Rest()))
              case Some((next, n)) => ok == old(ok) && (ok ==> p == old(p) + n && m' == next)
              case None => !ok
    {
      hide Varint, Elements, WithFlag, ToInt32;
      m' := m;
      if f == 1 && w == 0 && kind <= TRACKER_STATUS {
        var v := ReadVarint();
        m' := m.(trackerId := ToInt32(v));
      } else if kind == POSITION && f == 10 {
        var q := Repeated(w, f, m.q);
        m' := m.(q := q);
      } else if kind == POSITION && f == 11 {
        var pos := Repeated(w, f, m.pos);
        m' := m.(pos := pos);
      } else if kind == TRACKER_ADDED && f == 3 && w == 0 {
        var v := ReadVarint();
        m' := m.(role := ToInt32(v));
      } else if kind == TRACKER_ADDED && f == 4 && w == 2 {
        var s := Sub();
        m' := m.(name := s.data[s.p..s.end]);
      } else if kind == TRACKER_STATUS && f == 2 && w == 0 {
        var v := ReadVarint();
        m' := m.(status := ToInt32(v));
      } else if kind == TRACKER_STATUS && f == 3 && w == 5 {
        var v := ReadFixed(4);
        m' := m.(battery := v);
      } else {
        m' := ReadWipValue(kind, f, w, m);
      }
    }

    /** The last branches of the chain: the walk-in-place messages, and every field that is not read. */
    method ReadWipValue(kind: int32, f: int32, w: nat, m: Msg) returns (m': Msg)
      requires Valid()
      requires !(f == 1 && w == 0 && kind <= TRACKER_STATUS)
      requires !(kind == POSITION && (f == 10 || f == 11))
      requires !(kind == TRACKER_ADDED && ((f == 3 && w == 0) || (f == 4 && w == 2)))
      requires !(kind == TRACKER_STATUS && ((f == 2 && w == 0) || (f == 3 && w == 5)))
      modifies this
      ensures Valid() && p >= old(p)
      ensures match Value(kind, f, w, m, old(Rest()))
              case Some((next, n)) => ok == old(ok) && (ok ==> p == old(p) + n && m' == next)
              case None => !ok
    {
      hide Varint, Elements, WithFlag, ToInt32;
      m' := m;
      if kind == WIP_SETTING && w == 0 && 1 <= f <= 5 {
        var v := ReadVarint();
        m' := WithFlag(m, f, v != 0);
      } else if kind == WIP_INFO && f == 2 && w == 5 {
        var v := ReadFixed(4);
        m' := m.(wipX := v);
      } else if kind == WIP_INFO && f == 3 && w == 5 {
        var v := ReadFixed(4);
        m' := m.(wipY := v);
      } else if kind == WIP_INFO && f == 4 && w == 0 {
        var v := ReadVarint();
        m' := m.(wipStatus := ToInt32(v));
      } else {
        NotRead(kind, f, w, m, Rest());
        Skip(w, kind, f);
      }
    }
  }

  function Prepend(head: seq<bytes>, tail: Option<seq<bytes>>): Option<seq<bytes>> {
    match tail
    case None => None
    case Some(values) => Some(head + values)
  }

  lemma PrependNothing(tail: Option<seq<bytes>>)
    ensures Prepend([], tail) == tail
  {
    if tail.Some? {
      assert [] + tail.value == tail.value;
    }
  }

  lemma OneElement(s: bytes, width: nat)
    requires width > 0 && s != []
    ensures Elements(s, width) == if |s| < width then None else Prepend([s[..width]], Elements(s[width..], width))
  {
  }

  lemma AllElements(width: nat)
    requires width > 0
    ensures Elements([], width) == Some([])
  {
  }

  lemma PrependAll(head: seq<bytes>)
    ensures Prepend(head, Some([])) == Some(head) && Prepend(head, None) == None
  {
    assert head + [] == head;
  }

  lemma PrependTwice(head: seq<bytes>, v: bytes, tail: Option<seq<bytes>>)
    ensures Prepend(head, Prepend([v], tail)) == Prepend(head + [v], tail)
  {
    if tail.Some? {
      assert head + ([v] + tail.value) == head + [v] + tail.value;
    }
  }

  /** The message after the value of a field whose tag has been read. */
  ghost function Value(kind: int32, f: int32, wire: nat, m: Msg, s: bytes): Option<(Msg, nat)> {
    match FieldBody(kind, f, wire, s)
    case None => None
    case Some((x, n)) =>
      match Apply(kind, m, x)
      case None => None
      case Some(m') => Some((m', n))
  }

  /** A field that no branch of the decoder reads leaves the message as it is. */
  lemma NotRead(kind: int32, f: int32, w: nat, m: Msg, s: bytes)
    requires !(f == 1 && w == 0 && kind <= TRACKER_STATUS)
    requires !(kind == POSITION && (f == 10 || f == 11))
    requires !(kind == TRACKER_ADDED && ((f == 3 && w == 0) || (f == 4 && w == 2)))
    requires !(kind == TRACKER_STATUS && ((f == 2 && w == 0) || (f == 3 && w == 5)))
    requires !(kind == WIP_SETTING && w == 0 && 1 <= f <= 5)
    requires !(kind == WIP_INFO && (((f == 2 || f == 3) && w == 5) || (f == 4 && w == 0)))
    ensures !Unpacked(kind, f, w)
    ensures Value(kind, f, w, m, s) ==
            match FieldBody(kind, f, w, s) case None => None case Some((_, n)) => Some((m, n))
  {
    hide Varint, ToInt32, WithFlag;
  }

  /** The elements a repeated scalar adds, and the bytes it takes. */
  ghost function Values(f: int32, wire: nat, s: bytes): Option<(seq<bytes>, nat)>
    requires f == 10 || f == 11
  {
    match FieldBody(POSITION, f, wire, s)
    case Some((Raw(_, _, data), n)) =>
      (match RepeatedValues(wire, data, ElementWidth(f))
       case None => None
       case Some(values) => Some((values, n)))
    case _ => None
  }

  /** Reads the payload into a message. Every loop ends because each field takes at least one byte. */
  method DecodePayload(data: bytes) returns (found: bool, m: Msg)
    ensures found == Decode(data).Some?
    ensures found ==> m == Decode(data).value
  {
    hide TopStep;
    m := Blank(NONE);
    var top := new Reader(data, 0, |data|);
    assert top.Rest() == data;
    while !top.Done()
      invariant top.Valid()
      invariant if top.ok then TopFields(Blank(NONE), data) == TopFields(m, top.Rest())
                else TopFields(Blank(NONE), data).None?
      modifies top
      decreases top.end - top.p
    {
      m := DecodeTopField(top, m);
    }
    found := top.ok && m.kind != NONE;
  }

  /** The body of the loop over the top-level fields. */
  method DecodeTopField(top: Reader, m: Msg) returns (m': Msg)
    requires top.Valid() && top.p < top.end
    modifies top
    ensures top.Valid() && top.p > old(top.p)
    ensures match TopStep(m, old(top.Rest()))
            case Some((next, n)) => top.ok == old(top.ok) && (top.ok ==> top.p == old(top.p) + n && m' == next)
            case None => !top.ok
  {
    hide Fields, Varint;
    ghost var all := top.Rest();
    m' := m;
    var tag := top.ReadVarint();
    assert Varint(all).Some? ==> top.Rest() == all[Varint(all).value.1..];
    var field, wire := ToInt32(tag / 8), tag % 8;
    if wire != 2 || field < POSITION || field > WIP_FUNC_STATE_CHANGE {
      top.Skip(wire, NONE, field);
      return;
    }
    var r := top.Sub();
    m' := DecodeSubmessage(r, field);
    top.ok := top.ok && r.ok;
  }

  method DecodeSubmessage(r: Reader, field: int32) returns (m: Msg)
    requires r.Valid() && r.ok
    modifies r
    ensures r.Valid() && r.ok == Fields(field, Blank(field), old(r.Rest())).Some?
    ensures r.ok ==> r.p == r.end && m == Fields(field, Blank(field), old(r.Rest())).value
  {
    hide Step;
    ghost var inner := r.Rest();
    m := Blank(field);
    while !r.Done()
      invariant r.Valid()
      invariant if r.ok then Fields(field, Blank(field), inner) == Fields(field, m, r.Rest())
                else Fields(field, Blank(field), inner).None?
      decreases r.end - r.p
    {
      m := r.ReadField(field, m);
    }
  }

  // The encoders.

  method AppendVarint(out: bytes, value: uint64) returns (out': bytes)
    ensures out' == out + PutVarint(value)
  {
    out' := out;
    var v := value;
    while v >= 0x80
      invariant out' + PutVarint(v) == out + PutVarint(value)
    {
      ghost var before := out';
      assert v % 0x80 + 0x80 < 0x100;
      out' := out' + [v % 0x80 + 0x80];
      assert before + ([v % 0x80 + 0x80] + PutVarint(v / 0x80)) == out' + PutVarint(v / 0x80);
      v := v / 0x80;
    }
    out' := out' + [v];
  }

  method AppendNumber(out: bytes, tag: byte, v: int32) returns (out': bytes)
    ensures out' == out + VarintField(tag, ToUint32(v))
  {
    out' := out;
    if v != 0 {
      out' := AppendVarint(out + [tag], ToUint32(v));
    }
  }

  method AppendFixed(out: bytes, parts: seq<bytes>) returns (out': bytes)
    ensures out' == out + Concat(parts)
  {
    out' := out;
    for i := 0 to |parts|
      invariant out' == out + Concat(parts[..i])
    {
      assert parts[..i + 1] == parts[..i] + [parts[i]];
      ConcatAppend(parts[..i], [parts[i]]);
      assert Concat([parts[i]]) == parts[i];
      out' := out' + parts[i];
    }
    assert parts[..|parts|] == parts;
  }

  method WrapField(field: int32, inner: bytes) returns (out: bytes)
    requires POSITION <= field <= WIP_FUNC_STATE_CHANGE && |inner| < TWO64
    ensures out == Wrap(field, inner)
  {
    out := AppendVarint([], 8 * field + 2);
    out := AppendVarint(out, |inner|);
    out := out + inner;
  }

  method EncodeStatus(id: int32, status: int32) returns (out: bytes)
    ensures out == Laws.StatusBytes(id, status)
    ensures Decode(out) == Some(Blank(TRACKER_STATUS).(trackerId := id, status := status))
  {
    hide Decode, Wrap, VarintField, Blank;
    Laws.StatusRoundTrip(id, status);
    Laws.EncodedNumberSize(0x08, id);
    Laws.EncodedNumberSize(0x10, status);
    assert [] + VarintField(0x08, ToUint32(id)) == VarintField(0x08, ToUint32(id));
    var inner := AppendNumber([], 0x08, id);
    inner := AppendNumber(inner, 0x10, status);
    out := WrapField(TRACKER_STATUS, inner);
  }

  method EncodePosition(id: int32, q: seq<bytes>, pos: seq<bytes>) returns (out: bytes)
    requires |q| == 4 && Widths(q, 8) && |pos| == 3 && Widths(pos, 4)
    ensures out == Laws.PositionBytes(id, q, pos)
    ensures Decode(out) == Some(Blank(POSITION).(trackerId := id, q := q, pos := pos))
  {
    hide Decode, Wrap, VarintField, Blank;
    Laws.PositionRoundTrip(id, q, pos);
    Laws.EncodedNumberSize(0x08, id);
    ConcatLength(q, 8);
    ConcatLength(pos, 4);
    assert [] + VarintField(0x08, ToUint32(id)) == VarintField(0x08, ToUint32(id));
    var inner := AppendNumber([], 0x08, id);
    inner := AppendFixed(inner + [0x52, 32], q);
    inner := AppendFixed(inner + [0x5a, 12], pos);
    out := WrapField(POSITION, inner);
  }

  method EncodeUniverse(yaw: bytes, pos: seq<bytes>) returns (out: bytes)
    requires |yaw| == 4 && |pos| == 3 && Widths(pos, 4)
    ensures out == Laws.UniverseBytes(yaw, pos)
    ensures DriverMessages.ReadUniverse(out) == Some((if yaw == [0, 0, 0, 0x80] then [0, 0, 0, 0] else yaw, pos))
  {
    hide DriverMessages.ReadUniverse, Wrap;
    DriverMessages.UniverseRoundTrip(yaw, pos);
    ConcatLength(pos, 4);
    var inner: bytes := [];
    if !Laws.FloatIsZero(yaw) {
      inner := [0x0d] + yaw;
    }
    inner := AppendFixed(inner + [0x12, 12], pos);
    out := WrapField(UNIVERSE_CHANGE, inner);
  }

  method EncodePathFailed(failed: int32) returns (out: bytes)
    ensures out == Laws.PathFailedBytes(failed)
    ensures DriverMessages.ReadPathFailed(out) == Some(failed)
  {
    hide DriverMessages.ReadPathFailed, Wrap, VarintField;
    DriverMessages.PathFailedRoundTrip(failed);
    Laws.EncodedNumberSize(0x08, failed);
    assert [] + VarintField(0x08, ToUint32(failed)) == VarintField(0x08, ToUint32(failed));
    var inner := AppendNumber([], 0x08, failed);
    out := WrapField(PATH_FAILED, inner);
  }
}
