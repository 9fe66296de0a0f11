/** Laws of the codec: locality, last one wins, unknown fields, packed and unpacked runs, round trips. */
module ProtoLaws {
  import opened Wire
  import opened Proto

  // Locality: a field is read from its own bytes, whatever follows.

  lemma NextFieldSuffix(kind: int32, a: bytes, b: bytes)
    requires NextField(kind, a).Some?
    ensures NextField(kind, a + b) == NextField(kind, a)
  {
    VarintSuffix(a, b);
    var (tag, n) := Varint(a).value;
    assert (a + b)[n..] == a[n..] + b;
    FieldBodySuffix(kind, ToInt32(tag / 8), tag % 8, a[n..], b);
  }

  lemma FieldBodySuffix(kind: int32, f: int32, wire: nat, a: bytes, b: bytes)
    requires FieldBody(kind, f, wire, a).Some?
    ensures FieldBody(kind, f, wire, a + b) == FieldBody(kind, f, wire, a)
  {
    if Unpacked(kind, f, wire) || wire == 1 || wire == 5 {
      var width := if Unpacked(kind, f, wire) then ElementWidth(f) else if wire == 1 then 8 else 4;
      assert (a + b)[..width] == a[..width];
    } else {
      VarintSuffix(a, b);
      if wire == 2 {
        var (len, n) := Varint(a).value;
        assert (a + b)[n..n + len] == a[n..n + len];
      }
    }
  }

  /** `s` splits into fields that end exactly where it does. */
  predicate WholeFields(kind: int32, s: bytes)
    decreases |s|
  {
    s == [] ||
    match NextField(kind, s)
    case None => false
    case Some((_, n)) => WholeFields(kind, s[n..])
  }

  function Then(r: Option<Msg>, kind: int32, s: bytes): Option<Msg> {
    match r
    case None => None
    case Some(m) => Fields(kind, m, s)
  }

  function TopThen(r: Option<Msg>, s: bytes): Option<Msg> {
    match r
    case None => None
    case Some(m) => TopFields(m, s)
  }

  /** Reading two runs of whole fields one after the other is reading their concatenation. */
  lemma {:induction false} FieldsAppend(kind: int32, m: Msg, a: bytes, b: bytes)
    requires WholeFields(kind, a)
    ensures Fields(kind, m, a + b) == Then(Fields(kind, m, a), kind, b)
    decreases |a|
  {
    if a == [] {
      assert a + b == b;
    } else {
      NextFieldSuffix(kind, a, b);
      var (x, n) := NextField(kind, a).value;
      assert (a + b)[n..] == a[n..] + b;
      match Apply(kind, m, x)
      case None =>
      case Some(m') => FieldsAppend(kind, m', a[n..], b);
    }
  }

  lemma {:induction false} TopFieldsAppend(m: Msg, a: bytes, b: bytes)
    requires WholeFields(NONE, a)
    ensures TopFields(m, a + b) == TopThen(TopFields(m, a), b)
    decreases |a|
  {
    if a == [] {
      assert a + b == b;
    } else {
      NextFieldSuffix(NONE, a, b);
      var (x, n) := NextField(NONE, a).value;
      assert (a + b)[n..] == a[n..] + b;
      match TopStep(m, a)
      case None =>
      case Some((m', _)) => TopFieldsAppend(m', a[n..], b);
    }
  }

  /** What the decoder accepts is consumed exactly to its end, at the top level and in every known submessage. */
  lemma {:induction false} AcceptedIsWhole(kind: int32, m: Msg, s: bytes)
    requires Fields(kind, m, s).Some?
    ensures WholeFields(kind, s)
    decreases |s|
  {
    if s != [] {
      var (m', n) := Step(kind, m, s).value;
      AcceptedIsWhole(kind, m', s[n..]);
    }
  }

  predicate SubmessagesWhole(s: bytes)
    decreases |s|
  {
    s == [] ||
    match NextField(NONE, s)
    case None => false
    case Some((x, n)) => (Submessage(x) ==> WholeFields(x.f, x.data)) && SubmessagesWhole(s[n..])
  }

  lemma {:induction false} TopAcceptedIsWhole(m: Msg, s: bytes)
    requires TopFields(m, s).Some?
    ensures WholeFields(NONE, s) && SubmessagesWhole(s)
    decreases |s|
  {
    if s != [] {
      var (x, n) := NextField(NONE, s).value;
      if Submessage(x) {
        AcceptedIsWhole(x.f, Blank(x.f), x.data);
      }
      TopAcceptedIsWhole(TopStep(m, s).value.0, s[n..]);
    }
  }

  // Last one wins.

  /** Where reading starts matters only while no submessage has been read. */
  lemma {:induction false} TopFieldsFrom(m: Msg, s: bytes)
    ensures TopFields(m, s) ==
            match TopFields(Blank(NONE), s)
            case None => None
            case Some(r) => if r.kind == NONE then Some(m) else Some(r)
    decreases |s|
  {
    if s != [] && TopStep(m, s).Some? {
      var (x, n) := NextField(NONE, s).value;
      if Submessage(x) {
        var m' := TopStep(m, s).value.0;
        assert TopStep(Blank(NONE), s) == Some((m', n));
        TopFieldsFrom(m', s[n..]);
      } else {
        TopFieldsFrom(m, s[n..]);
      }
    }
  }

  /** After an accepted payload `a`, a payload `b` that carries a message replaces it, one that
      carries none leaves it, and one that is broken spoils both. */
  lemma LastOneWins(a: bytes, b: bytes)
    requires TopFields(Blank(NONE), a).Some?
    ensures Decode(a + b) ==
            match TopFields(Blank(NONE), b)
            case None => None
            case Some(_) => if Decode(b).Some? then Decode(b) else Decode(a)
  {
    TopAcceptedIsWhole(Blank(NONE), a);
    TopFieldsAppend(Blank(NONE), a, b);
    TopFieldsFrom(TopFields(Blank(NONE), a).value, b);
  }

  // Unknown fields.

  predicate UnknownFields(kind: int32, s: bytes)
    decreases |s|
  {
    s == [] ||
    match NextField(kind, s)
    case None => false
    case Some((x, n)) => !Known(kind, x) && UnknownFields(kind, s[n..])
  }

  predicate UnknownTopFields(s: bytes)
    decreases |s|
  {
    s == [] ||
    match NextField(NONE, s)
    case None => false
    case Some((x, n)) => !Submessage(x) && UnknownTopFields(s[n..])
  }

  lemma {:induction false} UnknownIgnored(kind: int32, m: Msg, u: bytes)
    requires UnknownFields(kind, u)
    ensures WholeFields(kind, u) && Fields(kind, m, u) == Some(m)
    decreases |u|
  {
    if u != [] {
      UnknownIgnored(kind, m, u[NextField(kind, u).value.1..]);
    }
  }

  lemma {:induction false} UnknownTopIgnored(m: Msg, u: bytes)
    requires UnknownTopFields(u)
    ensures WholeFields(NONE, u) && TopFields(m, u) == Some(m)
    decreases |u|
  {
    if u != [] {
      UnknownTopIgnored(m, u[NextField(NONE, u).value.1..]);
    }
  }

  /** Unknown fields at any boundary inside a submessage do not change what it means. */
  lemma UnknownInside(kind: int32, m: Msg, a: bytes, u: bytes, b: bytes)
    requires WholeFields(kind, a) && UnknownFields(kind, u)
    ensures Fields(kind, m, a + u + b) == Fields(kind, m, a + b)
  {
    hide Fields, WholeFields, UnknownFields;
    assert a + u + b == a + (u + b);
    FieldsAppend(kind, m, a, u + b);
    FieldsAppend(kind, m, a, b);
    if Fields(kind, m, a).Some? {
      var m1 := Fields(kind, m, a).value;
      UnknownIgnored(kind, m1, u);
      FieldsAppend(kind, m1, u, b);
    }
  }

  lemma UnknownBetween(a: bytes, u: bytes, b: bytes)
    requires WholeFields(NONE, a) && UnknownTopFields(u)
    ensures Decode(a + u + b) == Decode(a + b)
  {
    hide TopFields, WholeFields, UnknownTopFields;
    var m := Blank(NONE);
    assert a + u + b == a + (u + b);
    TopFieldsAppend(m, a, u + b);
    TopFieldsAppend(m, a, b);
    if TopFields(m, a).Some? {
      var m1 := TopFields(m, a).value;
      UnknownTopIgnored(m1, u);
      TopFieldsAppend(m1, u, b);
    }
  }

  /** A top-level field is read only if it is length-delimited and numbered 1 to 8. */
  lemma TopSkipped(m: Msg, s: bytes, x: Field, n: nat)
    requires s != [] && NextField(0, s) == Some((x, n)) && !(x.Raw? && x.wire == 2 && 1 <= x.f <= 8)
    ensures TopFields(m, s) == TopFields(m, s[n..])
  {
    hide NextField;
  }

  /** A wire type the format does not have spoils the message, unless it stands before an element of `q` or `pos`. */
  lemma BadWireFails(kind: int32, m: Msg, s: bytes, tag: uint64, n: nat)
    requires Varint(s) == Some((tag, n)) && tag % 8 in {3, 4, 6, 7}
    requires !(kind == 1 && (ToInt32(tag / 8) == 10 || ToInt32(tag / 8) == 11))
    ensures Fields(kind, m, s) == None && (kind == 0 ==> TopFields(m, s) == None)
  {
    hide Varint, ToInt32;
    assert NextField(kind, s) == None;
  }

  // One field written, then read.

  lemma ReadVarintField(kind: int32, f: int32, v: uint64, rest: bytes)
    requires 1 <= f <= 15 && !Unpacked(kind, f, 0)
    ensures NextField(kind, [8 * f] + PutVarint(v) + rest) == Some((Number(f, v), 1 + |PutVarint(v)|))
  {
    var s := [8 * f] + PutVarint(v) + rest;
    TagByte(f, 0, s);
    assert s[1..] == PutVarint(v) + rest;
    VarintRoundTrip(v, rest);
  }

  lemma TagByte(f: int32, wire: nat, s: bytes)
    requires 1 <= f <= 15 && wire < 8 && s != [] && s[0] == 8 * f + wire
    ensures Varint(s) == Some((s[0], 1))
    ensures ToInt32(s[0] / 8) == f && s[0] % 8 == wire
  {
    assert (8 * f + wire) / 8 == f && (8 * f + wire) % 8 == wire;
  }

  lemma ReadLengthField(kind: int32, f: int32, data: bytes, rest: bytes)
    requires 1 <= f <= 15 && |data| < TWO64
    ensures NextField(kind, [8 * f + 2] + PutVarint(|data|) + data + rest) ==
            Some((Raw(f, 2, data), 1 + |PutVarint(|data|)| + |data|))
  {
    hide PutVarint, Varint, ToInt32;
    var head := PutVarint(|data|);
    var s := [8 * f + 2] + head + data + rest;
    TagByte(f, 2, s);
    Slices(8 * f + 2, head, data, rest);
    VarintRoundTrip(|data|, data + rest);
  }

  lemma Slices(tag: byte, head: bytes, data: bytes, rest: bytes)
    ensures var s := [tag] + head + data + rest;
            && s[0] == tag && s[1..] == head + (data + rest)
            && s[1..][|head|..|head| + |data|] == data
            && s[1 + |head| + |data|..] == rest
  {
  }

  lemma ReadFixedField(kind: int32, f: int32, wire: nat, data: bytes, rest: bytes)
    requires 1 <= f <= 15 && (wire == 1 || wire == 5)
    requires |data| == if Unpacked(kind, f, wire) then ElementWidth(f) else if wire == 1 then 8 else 4
    ensures NextField(kind, [8 * f + wire] + data + rest) == Some((Raw(f, wire, data), 1 + |data|))
  {
    var s := [8 * f + wire] + data + rest;
    TagByte(f, wire, s);
    assert s[1..] == data + rest;
    assert s[1..][..|data|] == data;
  }

  /** A flag is set by any number but 0. */
  lemma FlagRead(m: Msg, v: uint64, rest: bytes)
    ensures Fields(7, m, [0x08] + PutVarint(v) + rest) == Fields(7, m.(openWip := v != 0), rest)
    ensures Fields(7, m, [0x10] + PutVarint(v) + rest) == Fields(7, m.(outputAsTreadmill := v != 0), rest)
    ensures Fields(7, m, [0x18] + PutVarint(v) + rest) == Fields(7, m.(useLeftHand := v != 0), rest)
    ensures Fields(7, m, [0x20] + PutVarint(v) + rest) == Fields(7, m.(joystickControl := v != 0), rest)
    ensures Fields(7, m, [0x28] + PutVarint(v) + rest) == Fields(7, m.(replaceHandPose := v != 0), rest)
  {
    NumberThen(7, 1, m, v, rest);
    NumberThen(7, 2, m, v, rest);
    NumberThen(7, 3, m, v, rest);
    NumberThen(7, 4, m, v, rest);
    NumberThen(7, 5, m, v, rest);
  }

  /** A number may take more bits than an int32: the lower 32 count. */
  lemma NumberRead(kind: int32, m: Msg, v: uint64, rest: bytes)
    ensures 1 <= kind <= 3 ==>
              Fields(kind, m, [0x08] + PutVarint(v) + rest) == Fields(kind, m.(trackerId := ToInt32(v)), rest)
    ensures Fields(2, m, [0x18] + PutVarint(v) + rest) == Fields(2, m.(role := ToInt32(v)), rest)
    ensures Fields(3, m, [0x10] + PutVarint(v) + rest) == Fields(3, m.(status := ToInt32(v)), rest)
    ensures Fields(6, m, [0x20] + PutVarint(v) + rest) == Fields(6, m.(wipStatus := ToInt32(v)), rest)
  {
    hide ToInt32;
    NumberThen(kind, 1, m, v, rest);
    NumberThen(2, 3, m, v, rest);
    NumberThen(3, 2, m, v, rest);
    NumberThen(6, 4, m, v, rest);
  }

  lemma NumberThen(kind: int32, f: int32, m: Msg, v: uint64, rest: bytes)
    requires 1 <= f <= 5
    ensures Fields(kind, m, [8 * f] + PutVarint(v) + rest) == Then(Apply(kind, m, Number(f, v)), kind, rest)
  {
    hide PutVarint, NextField, Apply;
    var s := [8 * f] + PutVarint(v) + rest;
    ReadVarintField(kind, f, v, rest);
    assert s[1 + |PutVarint(v)|..] == rest;
    FieldThen(kind, m, s, Number(f, v), 1 + |PutVarint(v)|, rest);
  }

  /** A packed array reads exactly when its elements fill it, and then they are its bytes in order. */
  lemma {:induction false} ElementsFill(s: bytes, width: nat)
    requires width == 4 || width == 8
    ensures Elements(s, width).Some? <==> |s| % width == 0
    ensures Elements(s, width).Some? ==>
              var values := Elements(s, width).value; Concat(values) == s && Widths(values, width)
    decreases |s|
  {
    Remainder(|s|, width);
    if |s| >= width {
      ElementsFill(s[width..], width);
      if Elements(s[width..], width).Some? {
        var rest := Elements(s[width..], width).value;
        assert ([s[..width]] + rest)[1..] == rest;
        assert s[..width] + s[width..] == s;
      }
    }
  }

  lemma Remainder(n: nat, width: nat)
    requires width == 4 || width == 8
    ensures n >= width ==> ((n - width) % width == 0 <==> n % width == 0)
    ensures 0 < n < width ==> n % width != 0
  {
    if width == 4 {
      assert n >= 4 ==> (n - 4) % 4 == n % 4;
    } else {
      assert n >= 8 ==> (n - 8) % 8 == n % 8;
    }
  }

  /** A payload without a known submessage carries no message. */
  lemma DecodedKind(s: bytes)
    ensures Decode(s).Some? ==> 1 <= Decode(s).value.kind <= 8
    ensures UnknownTopFields(s) ==> Decode(s) == None
  {
    KindRead(Blank(NONE), s);
    if UnknownTopFields(s) {
      UnknownTopIgnored(Blank(NONE), s);
    }
  }

  lemma {:induction false} KindRead(m: Msg, s: bytes)
    requires 0 <= m.kind <= 8
    ensures TopFields(m, s).Some? ==> 0 <= TopFields(m, s).value.kind <= 8
    decreases |s|
  {
    hide NextField, Fields;
    if s != [] && TopStep(m, s).Some? {
      KindRead(TopStep(m, s).value.0, s[TopStep(m, s).value.1..]);
    }
  }

  // Packed and unpacked runs.

  datatype Run = Packed(values: seq<bytes>) | Single(value: bytes)

  function RunValues(run: Run): seq<bytes> {
    match run
    case Packed(values) => values
    case Single(value) => [value]
  }

  /** A run of the repeated doubles (field 10) or floats (field 11) of a position, correctly typed. */
  function RunBytes(f: int32, run: Run): bytes
    requires f == 10 || f == 11
    requires |Concat(RunValues(run))| < TWO64
  {
    match run
    case Packed(values) => [8 * f + 2] + PutVarint(|Concat(values)|) + Concat(values)
    case Single(value) => [8 * f + if f == 10 then 1 else 5] + value
  }

  predicate ValidRun(f: int32, run: Run) {
    && (f == 10 || f == 11)
    && Widths(RunValues(run), ElementWidth(f))
    && |Concat(RunValues(run))| < TWO64
  }

  predicate ValidRuns(runs: seq<(int32, Run)>) {
    forall k :: 0 <= k < |runs| ==> ValidRun(runs[k].0, runs[k].1)
  }

  function RunsBytes(runs: seq<(int32, Run)>): bytes
    requires ValidRuns(runs)
  {
    if runs == [] then [] else RunBytes(runs[0].0, runs[0].1) + RunsBytes(runs[1..])
  }

  function ValuesOf(f: int32, runs: seq<(int32, Run)>): seq<bytes> {
    if runs == [] then []
    else (if runs[0].0 == f then RunValues(runs[0].1) else []) + ValuesOf(f, runs[1..])
  }

  lemma {:induction false} ElementsOfConcat(values: seq<bytes>, width: nat)
    requires width > 0 && Widths(values, width)
    ensures Elements(Concat(values), width) == Some(values)
  {
    if values != [] {
      var s := Concat(values);
      assert s[..width] == values[0];
      assert s[width..] == Concat(values[1..]);
      ElementsOfConcat(values[1..], width);
      assert [values[0]] + values[1..] == values;
    }
  }

  function Extend(m: Msg, q: seq<bytes>, pos: seq<bytes>): Msg {
    m.(q := m.q + q, pos := m.pos + pos)
  }

  lemma ReadElements(m: Msg, f: int32, wire: nat, data: bytes, s: bytes, n: nat)
    requires f == 10 || f == 11
    requires NextField(POSITION, s) == Some((Raw(f, wire, data), n))
    requires RepeatedValues(wire, data, ElementWidth(f)).Some?
    ensures var values := RepeatedValues(wire, data, ElementWidth(f)).value;
            Fields(POSITION, m, s) ==
            Fields(POSITION, if f == 10 then Extend(m, values, []) else Extend(m, [], values), s[n..])
  {
    assert m.q + [] == m.q && m.pos + [] == m.pos;
  }

  lemma ReadRun(m: Msg, f: int32, run: Run, rest: bytes)
    requires ValidRun(f, run)
    ensures Fields(POSITION, m, RunBytes(f, run) + rest) ==
            Fields(POSITION, Extend(m, ValuesOf(10, [(f, run)]), ValuesOf(11, [(f, run)])), rest)
  {
    hide Fields, NextField, Elements, PutVarint;
    var s, n := RunBytes(f, run) + rest, |RunBytes(f, run)|;
    assert s[n..] == rest;
    match run {
      case Packed(values) =>
        ReadLengthField(POSITION, f, Concat(values), rest);
        ElementsOfConcat(values, ElementWidth(f));
        ReadElements(m, f, 2, Concat(values), s, n);
      case Single(value) =>
        assert RunValues(run)[0] == value;
        ReadFixedField(POSITION, f, if f == 10 then 1 else 5, value, rest);
        ReadElements(m, f, if f == 10 then 1 else 5, value, s, n);
    }
    assert ValuesOf(f, [(f, run)]) == RunValues(run);
    assert ValuesOf(21 - f, [(f, run)]) == [];
  }

  /** Any mix of packed and unpacked runs of `q` and `pos` gives the two sequences in order. */
  lemma {:induction false} MixedRuns(m: Msg, runs: seq<(int32, Run)>, rest: bytes)
    requires ValidRuns(runs)
    ensures Fields(POSITION, m, RunsBytes(runs) + rest) ==
            Fields(POSITION, Extend(m, ValuesOf(10, runs), ValuesOf(11, runs)), rest)
    decreases |runs|
  {
    if runs == [] {
      assert RunsBytes(runs) + rest == rest;
      assert Extend(m, [], []) == m;
    } else {
      var (f, run) := runs[0];
      var first := [(f, run)];
      var tail := RunsBytes(runs[1..]) + rest;
      assert RunsBytes(runs) + rest == RunBytes(f, run) + tail;
      ReadRun(m, f, run, tail);
      assert first + runs[1..] == runs;
      ValuesOfAppend(m, first, runs[1..]);
      MixedRuns(Extend(m, ValuesOf(10, first), ValuesOf(11, first)), runs[1..], rest);
    }
  }

  lemma ValuesOfAppend(m: Msg, first: seq<(int32, Run)>, rest: seq<(int32, Run)>)
    requires |first| == 1
    ensures Extend(Extend(m, ValuesOf(10, first), ValuesOf(11, first)), ValuesOf(10, rest), ValuesOf(11, rest)) ==
            Extend(m, ValuesOf(10, first + rest), ValuesOf(11, first + rest))
  {
    hide Extend;
    assert (first + rest)[1..] == rest && first[1..] == [];
    assert ValuesOf(10, first + rest) == ValuesOf(10, first) + ValuesOf(10, rest);
    assert ValuesOf(11, first + rest) == ValuesOf(11, first) + ValuesOf(11, rest);
    ExtendTwice(m, ValuesOf(10, first), ValuesOf(11, first), ValuesOf(10, rest), ValuesOf(11, rest));
  }

  lemma ExtendTwice(m: Msg, q1: seq<bytes>, pos1: seq<bytes>, q2: seq<bytes>, pos2: seq<bytes>)
    ensures Extend(Extend(m, q1, pos1), q2, pos2) == Extend(m, q1 + q2, pos1 + pos2)
  {
    assert m.q + q1 + q2 == m.q + (q1 + q2) && m.pos + pos1 + pos2 == m.pos + (pos1 + pos2);
  }

  /** A single element of `q` takes eight bytes and one of `pos` four, whatever wire type but 2 its tag has. */
  lemma ElementAnyWire(m: Msg, f: int32, wire: nat, data: bytes, rest: bytes)
    requires wire < 8 && wire != 2 && ((f == 10 && |data| == 8) || (f == 11 && |data| == 4))
    ensures Fields(POSITION, m, [8 * f + wire] + data + rest) ==
            Fields(POSITION, if f == 10 then m.(q := m.q + [data]) else m.(pos := m.pos + [data]), rest)
  {
    hide Varint, ToInt32;
    var s := [8 * f + wire] + data + rest;
    TagByte(f, wire, s);
    assert s[1..] == data + rest && s[1..][..|data|] == data && s[1 + |data|..] == rest;
  }

  // Round trips of the encoders.

  function StatusBytes(id: int32, status: int32): bytes {
    EncodedNumberSize(0x08, id);
    EncodedNumberSize(0x10, status);
    Wrap(TRACKER_STATUS, VarintField(0x08, ToUint32(id)) + VarintField(0x10, ToUint32(status)))
  }

  function PositionBytes(id: int32, q: seq<bytes>, pos: seq<bytes>): bytes
    requires |q| == 4 && Widths(q, 8) && |pos| == 3 && Widths(pos, 4)
  {
    EncodedNumberSize(0x08, id);
    ConcatLength(q, 8);
    ConcatLength(pos, 4);
    Wrap(POSITION, VarintField(0x08, ToUint32(id)) + [0x52, 32] + Concat(q) + [0x5a, 12] + Concat(pos))
  }

  /** Zero and minus zero both compare equal to 0.0f. */
  predicate FloatIsZero(f: bytes) {
    f == [0, 0, 0, 0] || f == [0, 0, 0, 0x80]
  }

  function UniverseBytes(yaw: bytes, pos: seq<bytes>): bytes
    requires |yaw| == 4 && |pos| == 3 && Widths(pos, 4)
  {
    ConcatLength(pos, 4);
    Wrap(UNIVERSE_CHANGE, (if FloatIsZero(yaw) then [] else [0x0d] + yaw) + [0x12, 12] + Concat(pos))
  }

  function PathFailedBytes(failed: int32): bytes {
    EncodedNumberSize(0x08, failed);
    Wrap(PATH_FAILED, VarintField(0x08, ToUint32(failed)))
  }

  lemma DecodeWrapped(kind: int32, inner: bytes)
    requires POSITION <= kind <= WIP_FUNC_STATE_CHANGE && |inner| < TWO64
    ensures Decode(Wrap(kind, inner)) == Fields(kind, Blank(kind), inner)
  {
    ReadLengthField(NONE, kind, inner, []);
    var s := Wrap(kind, inner);
    assert PutVarint(8 * kind + 2) == [8 * kind + 2];
    assert [8 * kind + 2] + PutVarint(|inner|) + inner + [] == s;
    var n := NextField(NONE, s).value.1;
    assert n == |s| && s[n..] == [];
    if Fields(kind, Blank(kind), inner).Some? {
      var m := Fields(kind, Blank(kind), inner).value;
      assert TopFields(m, s[n..]) == Some(m);
      assert m.kind == kind;
    }
  }

  /** Unknown fields inside a wrapped submessage, together with the length they add, are invisible. */
  lemma UnknownInsideWrapped(kind: int32, a: bytes, u: bytes, b: bytes)
    requires POSITION <= kind <= WIP_FUNC_STATE_CHANGE && |a| + |u| + |b| < TWO64
    requires WholeFields(kind, a) && UnknownFields(kind, u)
    ensures Decode(Wrap(kind, a + u + b)) == Decode(Wrap(kind, a + b))
  {
    DecodeWrapped(kind, a + u + b);
    DecodeWrapped(kind, a + b);
    UnknownInside(kind, Blank(kind), a, u, b);
  }

  /** A number field that is left out when zero, read in front of `rest`. */
  lemma ReadNumber(kind: int32, f: int32, m: Msg, v: uint64, rest: bytes)
    requires 1 <= f <= 15 && !Unpacked(kind, f, 0)
    ensures Fields(kind, m, VarintField(8 * f, v) + rest) ==
            if v == 0 then Fields(kind, m, rest) else Then(Apply(kind, m, Number(f, v)), kind, rest)
  {
    hide PutVarint, NextField, Apply;
    if v == 0 {
      assert VarintField(8 * f, v) + rest == rest;
    } else {
      var s := VarintField(8 * f, v) + rest;
      ReadVarintField(kind, f, v, rest);
      assert s == [8 * f] + PutVarint(v) + rest;
      FieldThen(kind, m, s, Number(f, v), 1 + |PutVarint(v)|, rest);
    }
  }

  /** Reading goes on behind the first field. */
  lemma FieldThen(kind: int32, m: Msg, s: bytes, x: Field, n: nat, rest: bytes)
    requires NextField(kind, s) == Some((x, n)) && s[n..] == rest
    ensures Fields(kind, m, s) == Then(Apply(kind, m, x), kind, rest)
  {
    hide NextField, Apply;
  }

  lemma StatusRoundTrip(id: int32, status: int32)
    ensures Decode(StatusBytes(id, status)) == Some(Blank(TRACKER_STATUS).(trackerId := id, status := status))
  {
    var a, b := VarintField(0x08, ToUint32(id)), VarintField(0x10, ToUint32(status));
    EncodedNumberSize(0x08, id);
    EncodedNumberSize(0x10, status);
    DecodeWrapped(TRACKER_STATUS, a + b);
    var m0 := Blank(TRACKER_STATUS);
    ReadNumber(TRACKER_STATUS, 1, m0, ToUint32(id), b);
    assert b + [] == b;
    ReadNumber(TRACKER_STATUS, 2, m0.(trackerId := id), ToUint32(status), []);
    Int32RoundTrip(id);
    Int32RoundTrip(status);
  }

  lemma EncodedNumberSize(tag: byte, v: int32)
    ensures |VarintField(tag, ToUint32(v))| <= 6
  {
    Pow128At(5);
    PutVarintLength(ToUint32(v), 5);
  }

  function PositionRuns(q: seq<bytes>, pos: seq<bytes>): seq<(int32, Run)> {
    [(10, Packed(q)), (11, Packed(pos))]
  }

  lemma PositionRunsBytes(q: seq<bytes>, pos: seq<bytes>)
    requires |q| == 4 && Widths(q, 8) && |pos| == 3 && Widths(pos, 4)
    ensures ValidRuns(PositionRuns(q, pos))
    ensures RunsBytes(PositionRuns(q, pos)) == [0x52, 32] + (Concat(q) + ([0x5a, 12] + Concat(pos)))
  {
    hide Concat;
    ConcatLength(q, 8);
    ConcatLength(pos, 4);
    var runs: seq<(int32, Run)> := PositionRuns(q, pos);
    OneByte(32);
    OneByte(12);
    assert runs[1..] == [runs[1]] && runs[1..][1..] == [];
    assert RunsBytes(runs[1..]) == [0x5a, 12] + Concat(pos);
  }

  lemma OneByte(n: nat)
    requires n < 0x80
    ensures PutVarint(n) == [n]
  {
  }

  lemma PositionValues(q: seq<bytes>, pos: seq<bytes>)
    ensures ValuesOf(10, PositionRuns(q, pos)) == q && ValuesOf(11, PositionRuns(q, pos)) == pos
  {
    var runs: seq<(int32, Run)> := PositionRuns(q, pos);
    assert runs[1..] == [runs[1]] && runs[1..][1..] == [];
    assert ValuesOf(11, runs[1..]) == pos && ValuesOf(10, runs[1..]) == [];
  }

  lemma PositionRoundTrip(id: int32, q: seq<bytes>, pos: seq<bytes>)
    requires |q| == 4 && Widths(q, 8) && |pos| == 3 && Widths(pos, 4)
    ensures Decode(PositionBytes(id, q, pos)) == Some(Blank(POSITION).(trackerId := id, q := q, pos := pos))
  {
    hide Decode, Fields, Concat, RunsBytes, ValuesOf, VarintField, Wrap, PositionRuns;
    var a, runs := VarintField(0x08, ToUint32(id)), PositionRuns(q, pos);
    EncodedNumberSize(0x08, id);
    ConcatLength(q, 8);
    ConcatLength(pos, 4);
    PositionRunsBytes(q, pos);
    PositionValues(q, pos);
    Regroup(a, Concat(q), Concat(pos));
    DecodeWrapped(POSITION, a + RunsBytes(runs));
    PositionFields(id, runs);
    assert [] + q == q && [] + pos == pos;
  }

  lemma Regroup(a: bytes, q: bytes, pos: bytes)
    ensures a + [0x52, 32] + q + [0x5a, 12] + pos == a + ([0x52, 32] + (q + ([0x5a, 12] + pos)))
  {
  }

  lemma PositionFields(id: int32, runs: seq<(int32, Run)>)
    requires ValidRuns(runs)
    ensures Fields(POSITION, Blank(POSITION), VarintField(0x08, ToUint32(id)) + RunsBytes(runs)) ==
            Some(Extend(Blank(POSITION).(trackerId := id), ValuesOf(10, runs), ValuesOf(11, runs)))
  {
    hide RunsBytes, ValuesOf, VarintField, Step, Extend;
    var m1 := Blank(POSITION).(trackerId := id);
    ReadNumber(POSITION, 1, Blank(POSITION), ToUint32(id), RunsBytes(runs));
    Int32RoundTrip(id);
    assert RunsBytes(runs) + [] == RunsBytes(runs);
    MixedRuns(m1, runs, []);
  }

  lemma PathFailedDecodes(failed: int32)
    ensures Decode(PathFailedBytes(failed)) == Some(Blank(PATH_FAILED))
  {
    var a := VarintField(0x08, ToUint32(failed));
    EncodedNumberSize(0x08, failed);
    DecodeWrapped(PATH_FAILED, a);
    assert a + [] == a;
    ReadNumber(PATH_FAILED, 1, Blank(PATH_FAILED), ToUint32(failed), []);
  }

  lemma SkipField(kind: int32, m: Msg, s: bytes, rest: bytes)
    requires s != [] && NextField(kind, s).Some?
    requires !Known(kind, NextField(kind, s).value.0) && s[NextField(kind, s).value.1..] == rest
    ensures Fields(kind, m, s) == Fields(kind, m, rest)
  {
  }

  /** The play space position, which this decoder skips. */
  lemma SkipUniversePos(data: bytes)
    requires |data| == 12
    ensures Fields(UNIVERSE_CHANGE, Blank(UNIVERSE_CHANGE), [0x12, 12] + data) == Some(Blank(UNIVERSE_CHANGE))
  {
    var tail := [0x12, 12] + data;
    assert PutVarint(12) == [12];
    assert tail == [0x12] + PutVarint(12) + data + [];
    ReadLengthField(UNIVERSE_CHANGE, 2, data, []);
    SkipField(UNIVERSE_CHANGE, Blank(UNIVERSE_CHANGE), tail, []);
  }

  lemma UniverseDecodes(yaw: bytes, pos: seq<bytes>)
    requires |yaw| == 4 && |pos| == 3 && Widths(pos, 4)
    ensures Decode(UniverseBytes(yaw, pos)) == Some(Blank(UNIVERSE_CHANGE))
  {
    ConcatLength(pos, 4);
    SkipUniversePos(Concat(pos));
    var tail := [0x12, 12] + Concat(pos);
    var head := if FloatIsZero(yaw) then [] else [0x0d] + yaw;
    assert head + [0x12, 12] + Concat(pos) == head + tail;
    DecodeWrapped(UNIVERSE_CHANGE, head + tail);
    if FloatIsZero(yaw) {
      assert head + tail == tail;
    } else {
      ReadFixedField(UNIVERSE_CHANGE, 1, 5, yaw, tail);
      SkipField(UNIVERSE_CHANGE, Blank(UNIVERSE_CHANGE), head + tail, tail);
    }
  }

  /** No encoder writes more than 56 bytes, far below what the bridge forwards. */
  lemma EncodedSizes(id: int32, v: int32, q: seq<bytes>, pos: seq<bytes>, yaw: bytes)
    requires |q| == 4 && Widths(q, 8) && |pos| == 3 && Widths(pos, 4) && |yaw| == 4
    ensures |StatusBytes(id, v)| <= 14
    ensures |PositionBytes(id, q, pos)| <= 56
    ensures |UniverseBytes(yaw, pos)| <= 21
    ensures |PathFailedBytes(v)| <= 8
  {
    EncodedNumberSize(0x08, id);
    EncodedNumberSize(0x08, v);
    EncodedNumberSize(0x10, v);
    ConcatLength(q, 8);
    ConcatLength(pos, 4);
  }
}
