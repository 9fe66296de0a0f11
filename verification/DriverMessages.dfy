/** What an app that follows the schema reads in the driver's messages. */
module DriverMessages {
  import opened Wire
  import opened Proto
  import opened ProtoLaws

  /** All fields of a message, if they end exactly where its bytes do. */
  function FieldsIn(kind: int32, s: bytes): Option<seq<Field>>
    decreases |s|
  {
    if s == [] then Some([])
    else match NextField(kind, s)
      case None => None
      case Some((x, n)) => Cons(x, FieldsIn(kind, s[n..]))
  }

  function Cons(x: Field, rest: Option<seq<Field>>): Option<seq<Field>> {
    match rest
    case None => None
    case Some(xs) => Some([x] + xs)
  }

  /** The bytes of the one submessage in a payload, if it is of this kind. */
  function InnerOf(kind: int32, payload: bytes): Option<bytes> {
    match FieldsIn(NONE, payload)
    case None => None
    case Some(xs) =>
      if |xs| == 1 && xs[0].Raw? && xs[0].wire == 2 && xs[0].f == kind then Some(xs[0].data) else None
  }

  /** The last number with this field number, or 0. */
  function NumberIn(xs: seq<Field>, f: int32): uint64 {
    if xs == [] then 0
    else
      var n := |xs| - 1;
      if xs[n].Number? && xs[n].f == f then xs[n].v else NumberIn(xs[..n], f)
  }

  /** The last float with this field number, or 0. */
  function FloatIn(xs: seq<Field>, f: int32): bytes {
    if xs == [] then ZERO4
    else
      var n := |xs| - 1;
      if xs[n].Raw? && xs[n].f == f && xs[n].wire == 5 then xs[n].data else FloatIn(xs[..n], f)
  }

  /** All floats with this field number, packed or single, in order. */
  function FloatsIn(xs: seq<Field>, f: int32): Option<seq<bytes>> {
    if xs == [] then Some([])
    else
      var n := |xs| - 1;
      if !(xs[n].Raw? && xs[n].f == f && (xs[n].wire == 2 || xs[n].wire == 5)) then FloatsIn(xs[..n], f)
      else match (FloatsIn(xs[..n], f), RepeatedValues(xs[n].wire, xs[n].data, 4))
        case (Some(before), Some(values)) => Some(before + values)
        case _ => None
  }

  /** The yaw and position of a universe_change. */
  function ReadUniverse(payload: bytes): Option<(bytes, seq<bytes>)> {
    match InnerOf(UNIVERSE_CHANGE, payload)
    case None => None
    case Some(inner) =>
      match FieldsIn(UNIVERSE_CHANGE, inner)
      case None => None
      case Some(xs) =>
        match FloatsIn(xs, 2)
        case None => None
        case Some(pos) => Some((FloatIn(xs, 1), pos))
  }

  /** The reason in a path_failed. */
  function ReadPathFailed(payload: bytes): Option<int32> {
    match InnerOf(PATH_FAILED, payload)
    case None => None
    case Some(inner) =>
      match FieldsIn(PATH_FAILED, inner)
      case None => None
      case Some(xs) => Some(ToInt32(NumberIn(xs, 1)))
  }

  lemma FieldFirst(kind: int32, s: bytes, x: Field, n: nat, rest: bytes)
    requires NextField(kind, s) == Some((x, n)) && s[n..] == rest
    ensures FieldsIn(kind, s) == Cons(x, FieldsIn(kind, rest))
    ensures FieldsIn(kind, rest) == Some([]) ==> FieldsIn(kind, s) == Some([x])
  {
    hide NextField;
    assert [x] + [] == [x];
  }

  lemma NoFields(kind: int32)
    ensures FieldsIn(kind, []) == Some([])
  {
  }

  lemma OnlyField(kind: int32, inner: bytes)
    requires POSITION <= kind <= WIP_FUNC_STATE_CHANGE && |inner| < TWO64
    ensures FieldsIn(NONE, Wrap(kind, inner)) == Some([Raw(kind, 2, inner)])
    ensures InnerOf(kind, Wrap(kind, inner)) == Some(inner)
  {
    hide NextField, FieldsIn;
    ReadLengthField(NONE, kind, inner, []);
    var s := Wrap(kind, inner);
    assert PutVarint(8 * kind + 2) == [8 * kind + 2];
    assert [8 * kind + 2] + PutVarint(|inner|) + inner + [] == s;
    NoFields(NONE);
    FieldFirst(NONE, s, Raw(kind, 2, inner), |s|, []);
  }

  /** A universe_change holds the yaw as a fixed32 unless it is a zero of either sign, the packed position, and
      nothing else. */
  lemma UniverseFields(yaw: bytes, pos: seq<bytes>) returns (inner: bytes)
    requires |yaw| == 4 && |pos| == 3 && Widths(pos, 4)
    ensures FieldsIn(0, UniverseBytes(yaw, pos)) == Some([Raw(4, 2, inner)])
    ensures FieldsIn(4, inner) == Some(if yaw == [0, 0, 0, 0] || yaw == [0, 0, 0, 0x80] then [Raw(2, 2, Concat(pos))]
                                       else [Raw(1, 5, yaw), Raw(2, 2, Concat(pos))])
  {
    hide NextField, FieldsIn, Concat;
    ConcatLength(pos, 4);
    var data := Concat(pos);
    var head := if FloatIsZero(yaw) then [] else [0x0d] + yaw;
    var tail := [0x12, 12] + data;
    inner := head + [0x12, 12] + data;
    assert inner == head + tail;
    OnlyField(UNIVERSE_CHANGE, inner);
    OneByte(12);
    assert tail == [0x12] + PutVarint(12) + data + [];
    ReadLengthField(UNIVERSE_CHANGE, 2, data, []);
    NoFields(UNIVERSE_CHANGE);
    FieldFirst(UNIVERSE_CHANGE, tail, Raw(2, 2, data), |tail|, []);
    if FloatIsZero(yaw) {
      assert inner == tail;
    } else {
      ReadFixedField(UNIVERSE_CHANGE, 1, 5, yaw, tail);
      FieldFirst(UNIVERSE_CHANGE, inner, Raw(1, 5, yaw), 5, tail);
      assert [Raw(1, 5, yaw)] + [Raw(2, 2, data)] == [Raw(1, 5, yaw), Raw(2, 2, data)];
    }
  }

  /** The app reads the play space that was written; a negative zero becomes zero. */
  lemma UniverseRoundTrip(yaw: bytes, pos: seq<bytes>)
    requires |yaw| == 4 && |pos| == 3 && Widths(pos, 4)
    ensures ReadUniverse(UniverseBytes(yaw, pos)) == Some((if yaw == [0, 0, 0, 0x80] then [0, 0, 0, 0] else yaw, pos))
  {
    hide FieldsIn, Concat, Elements;
    var inner := UniverseFields(yaw, pos);
    ElementsOfConcat(pos, 4);
    var xs := FieldsIn(UNIVERSE_CHANGE, inner).value;
    assert [] + pos == pos;
    var head := xs[..|xs| - 1];
    assert xs == head + [Raw(2, 2, Concat(pos))];
    assert FloatsIn(head, 2) == Some([]);
    assert FloatsIn(xs, 2) == Some(pos);
    assert FloatIn(xs, 1) == FloatIn(head, 1);
    assert head != [] ==> head[0] == Raw(1, 5, yaw) && FloatIn(head, 1) == yaw;
    assert InnerOf(UNIVERSE_CHANGE, UniverseBytes(yaw, pos)) == Some(inner);
  }

  lemma PathFailedFields(failed: int32) returns (inner: bytes)
    ensures FieldsIn(0, PathFailedBytes(failed)) == Some([Raw(5, 2, inner)])
    ensures FieldsIn(5, inner) == Some(if failed == 0 then [] else [Number(1, ToUint32(failed))])
  {
    hide NextField, FieldsIn, PutVarint;
    EncodedNumberSize(0x08, failed);
    inner := VarintField(0x08, ToUint32(failed));
    OnlyField(PATH_FAILED, inner);
    NoFields(PATH_FAILED);
    if failed != 0 {
      ReadVarintField(PATH_FAILED, 1, ToUint32(failed), []);
      assert [8] + PutVarint(ToUint32(failed)) + [] == inner;
      FieldFirst(PATH_FAILED, inner, Number(1, ToUint32(failed)), |inner|, []);
    }
  }

  lemma PathFailedRoundTrip(failed: int32)
    ensures ReadPathFailed(PathFailedBytes(failed)) == Some(failed)
  {
    hide FieldsIn;
    var inner := PathFailedFields(failed);
    Int32RoundTrip(failed);
  }

  /** The status of a tracking headset, and of one that does not track, byte by byte. */
  lemma HeadsetStatusBytes()
    ensures StatusBytes(0, 1) == [0x1a, 2, 0x10, 1] && StatusBytes(0, 0) == [0x1a, 0]
  {
    OneByte(0x1a);
    OneByte(2);
    OneByte(1);
    OneByte(0);
  }
}
