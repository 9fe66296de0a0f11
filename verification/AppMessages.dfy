/** The messages of the app, as the schema and a standard proto3 writer have them: default values are left
    out, negative numbers are sign-extended to ten bytes. The decoder reads back what was written. */
module AppMessages {
  import opened Wire
  import opened Proto
  import opened ProtoLaws

  /** One field the writer sets. */
  datatype Put =
    | Int(f: int32, v: int32)
    | Flag(f: int32, on: bool)
    | Float(f: int32, bits: bytes)
    | Text(f: int32, data: bytes)
    | Embedded(f: int32, message: bytes)          // present, even if empty
    | Numbers(f: int32, width: nat, values: seq<bytes>) // packed doubles or floats

  /** The schema numbers no field above 15, and its repeated fields are numbers. */
  predicate Writable(kind: int32, p: Put) {
    1 <= p.f <= 15 &&
    match p
    case Int(f, _) => !Unpacked(kind, f, 0)
    case Flag(f, _) => !Unpacked(kind, f, 0)
    case Float(f, bits) => |bits| == 4 && !Unpacked(kind, f, 5)
    case Text(_, data) => |data| < TWO32
    case Embedded(_, message) => |message| < TWO32
    case Numbers(_, width, values) => Widths(values, width) && |Concat(values)| < TWO32
  }

  predicate AllWritable(kind: int32, puts: seq<Put>) {
    forall k :: 0 <= k < |puts| ==> Writable(kind, puts[k])
  }

  function SignExtended(v: int32): uint64 {
    if v < 0 then v + TWO64 else v
  }

  function Delimited(f: int32, data: bytes): bytes
    requires 1 <= f <= 15 && |data| < TWO32
  {
    [8 * f + 2] + PutVarint(|data|) + data
  }

  function PutBytes(kind: int32, p: Put): bytes
    requires Writable(kind, p)
  {
    match p
    case Int(f, v) => VarintField(8 * f, SignExtended(v))
    case Flag(f, on) => VarintField(8 * f, if on then 1 else 0)
    case Float(f, bits) => if bits == ZERO4 then [] else [8 * f + 5] + bits
    case Text(f, data) => if data == [] then [] else Delimited(f, data)
    case Embedded(f, message) => Delimited(f, message)
    case Numbers(f, _, values) => if values == [] then [] else Delimited(f, Concat(values))
  }

  function Written(kind: int32, puts: seq<Put>): bytes
    requires AllWritable(kind, puts)
  {
    if puts == [] then [] else PutBytes(kind, puts[0]) + Written(kind, puts[1..])
  }

  /** The field that is on the wire, if any. */
  function OnWire(p: Put): Option<Field> {
    match p
    case Int(f, v) => if v == 0 then None else Some(Number(f, SignExtended(v)))
    case Flag(f, on) => if on then Some(Number(f, 1)) else None
    case Float(f, bits) => if bits == ZERO4 then None else Some(Raw(f, 5, bits))
    case Text(f, data) => if data == [] then None else Some(Raw(f, 2, data))
    case Embedded(f, message) => Some(Raw(f, 2, message))
    case Numbers(f, _, values) => if values == [] then None else Some(Raw(f, 2, Concat(values)))
  }

  /** The message after one field. */
  function After(kind: int32, m: Msg, p: Put): Option<Msg> {
    if OnWire(p).None? then Some(m) else Apply(kind, m, OnWire(p).value)
  }

  function AfterAll(kind: int32, m: Msg, puts: seq<Put>): Option<Msg>
    decreases |puts|
  {
    if puts == [] then Some(m)
    else match After(kind, m, puts[0])
      case None => None
      case Some(m') => AfterAll(kind, m', puts[1..])
  }

  lemma ReadDelimited(kind: int32, f: int32, m: Msg, data: bytes, rest: bytes)
    requires 1 <= f <= 15 && |data| < TWO32
    ensures Fields(kind, m, Delimited(f, data) + rest) == Then(Apply(kind, m, Raw(f, 2, data)), kind, rest)
  {
    hide NextField, Apply, PutVarint, Fields;
    var head := PutVarint(|data|);
    ReadLengthField(kind, f, data, rest);
    Slices(8 * f + 2, head, data, rest);
    FieldThen(kind, m, Delimited(f, data) + rest, Raw(f, 2, data), 1 + |head| + |data|, rest);
  }

  lemma ReadFloat(kind: int32, f: int32, m: Msg, bits: bytes, rest: bytes)
    requires 1 <= f <= 15 && |bits| == 4 && !Unpacked(kind, f, 5)
    ensures Fields(kind, m, [8 * f + 5] + bits + rest) == Then(Apply(kind, m, Raw(f, 5, bits)), kind, rest)
  {
    hide NextField, Apply, Fields;
    ReadFixedField(kind, f, 5, bits, rest);
    assert ([8 * f + 5] + bits + rest)[5..] == rest;
    FieldThen(kind, m, [8 * f + 5] + bits + rest, Raw(f, 5, bits), 5, rest);
  }

  lemma ReadPut(kind: int32, m: Msg, p: Put, rest: bytes)
    requires Writable(kind, p)
    ensures Fields(kind, m, PutBytes(kind, p) + rest) == Then(After(kind, m, p), kind, rest)
  {
    hide Fields, Apply, VarintField, Delimited, Concat;
    assert [] + rest == rest;
    match p
    case Int(f, v) => ReadNumber(kind, f, m, SignExtended(v), rest);
    case Flag(f, on) => ReadNumber(kind, f, m, if on then 1 else 0, rest);
    case Float(f, bits) => ReadFloat(kind, f, m, bits, rest);
    case Text(f, data) => ReadDelimited(kind, f, m, data, rest);
    case Embedded(f, message) => ReadDelimited(kind, f, m, message, rest);
    case Numbers(f, _, values) => ReadDelimited(kind, f, m, Concat(values), rest);
  }

  /** Whatever fields are written, in whatever order, the decoder applies exactly those. */
  lemma {:induction false} ReadsWhatWasWritten(kind: int32, m: Msg, puts: seq<Put>)
    requires AllWritable(kind, puts)
    ensures Fields(kind, m, Written(kind, puts)) == AfterAll(kind, m, puts)
    decreases |puts|
  {
    hide PutBytes, After, Step;
    if puts != [] {
      ReadPut(kind, m, puts[0], Written(kind, puts[1..]));
      match After(kind, m, puts[0])
      case None =>
      case Some(m') => ReadsWhatWasWritten(kind, m', puts[1..]);
    }
  }

  lemma {:induction false} WrittenLength(kind: int32, puts: seq<Put>)
    requires AllWritable(kind, puts)
    ensures |Written(kind, puts)| <= |puts| * (TWO32 + 11)
    decreases |puts|
  {
    hide PutBytes;
    if puts != [] {
      PutLength(kind, puts[0]);
      WrittenLength(kind, puts[1..]);
    }
  }

  lemma PutLength(kind: int32, p: Put)
    requires Writable(kind, p)
    ensures |PutBytes(kind, p)| <= TWO32 + 11
  {
    hide PutVarint, Concat;
    match p
    case Int(_, v) => VarintRoundTrip(SignExtended(v), []);
    case Flag(_, on) => VarintRoundTrip(if on then 1 else 0, []);
    case Float(_, _) =>
    case Text(_, data) => VarintRoundTrip(|data|, []);
    case Embedded(_, message) => VarintRoundTrip(|message|, []);
    case Numbers(_, _, values) => VarintRoundTrip(|Concat(values)|, []);
  }

  /** A message of the app: the bytes of a kind and its fields. */
  function AppBytes(kind: int32, puts: seq<Put>): bytes
    requires POSITION <= kind <= WIP_FUNC_STATE_CHANGE && AllWritable(kind, puts) && |puts| <= 5
  {
    WrittenLength(kind, puts);
    Wrap(kind, Written(kind, puts))
  }

  lemma DecodesAs(kind: int32, puts: seq<Put>)
    requires POSITION <= kind <= WIP_FUNC_STATE_CHANGE && AllWritable(kind, puts) && |puts| <= 5
    ensures Decode(AppBytes(kind, puts)) == AfterAll(kind, Blank(kind), puts)
  {
    hide Decode, Wrap;
    WrittenLength(kind, puts);
    DecodeWrapped(kind, Written(kind, puts));
    ReadsWhatWasWritten(kind, Blank(kind), puts);
  }

  lemma Cons(kind: int32, m: Msg, p: Put, rest: seq<Put>, next: Msg)
    requires After(kind, m, p) == Some(next)
    ensures AfterAll(kind, m, [p] + rest) == AfterAll(kind, next, rest)
  {
    hide After;
    assert ([p] + rest)[1..] == rest;
  }

  lemma Last(kind: int32, m: Msg)
    ensures AfterAll(kind, m, []) == Some(m)
  {
  }

  /** The fields of each message, as the schema numbers them. */
  function Position(id: int32, q: seq<bytes>, pos: seq<bytes>): seq<Put> {
    [Int(1, id)] + ([Numbers(10, 8, q)] + ([Numbers(11, 4, pos)] + []))
  }

  function TrackerAdded(id: int32, role: int32, name: bytes): seq<Put> {
    [Int(1, id)] + ([Int(3, role)] + ([Text(4, name)] + []))
  }

  function TrackerStatus(id: int32, status: int32, battery: bytes): seq<Put> {
    [Int(1, id)] + ([Int(2, status)] + ([Float(3, battery)] + []))
  }

  function WipInfo(position: Option<bytes>, x: bytes, y: bytes, status: int32): seq<Put> {
    (if position.None? then [] else [Embedded(1, position.value)])
      + ([Float(2, x)] + ([Float(3, y)] + ([Int(4, status)] + [])))
  }

  function WipSetting(open: bool, treadmill: bool, leftHand: bool, joystick: bool, replaceHand: bool): seq<Put> {
    [Flag(1, open)]
      + ([Flag(2, treadmill)] + ([Flag(3, leftHand)] + ([Flag(4, joystick)] + ([Flag(5, replaceHand)] + []))))
  }

  /** The numbers and types of the schema. */
  lemma SchemaNumbers(id: int32, a: int32, data: bytes, x: bytes, y: bytes, q: seq<bytes>, p: seq<bytes>, on: seq<bool>)
    requires |on| == 5
    ensures Position(id, q, p) == [Int(1, id), Numbers(10, 8, q), Numbers(11, 4, p)]
    ensures TrackerAdded(id, a, data) == [Int(1, id), Int(3, a), Text(4, data)]
    ensures TrackerStatus(id, a, x) == [Int(1, id), Int(2, a), Float(3, x)]
    ensures WipInfo(Some(data), x, y, a) == [Embedded(1, data), Float(2, x), Float(3, y), Int(4, a)]
    ensures WipSetting(on[0], on[1], on[2], on[3], on[4]) ==
            [Flag(1, on[0]), Flag(2, on[1]), Flag(3, on[2]), Flag(4, on[3]), Flag(5, on[4])]
  {
  }

  /** A position with any number of elements, as the app may send it. */
  lemma PositionDecodes(id: int32, q: seq<bytes>, pos: seq<bytes>)
    requires Widths(q, 8) && Widths(pos, 4) && |Concat(q)| < TWO32 && |Concat(pos)| < TWO32
    ensures Decode(AppBytes(1, Position(id, q, pos))) ==
            Some(Blank(POSITION).(trackerId := id, q := q, pos := pos))
  {
    hide AppBytes, Decode, AfterAll, Concat, Elements;
    DecodesAs(POSITION, Position(id, q, pos));
    Int32RoundTrip(id);
    ElementsOfConcat(q, 8);
    ElementsOfConcat(pos, 4);
    assert [] + q == q && [] + pos == pos;
    var m0 := Blank(POSITION);
    var m1 := m0.(trackerId := id);
    var m2 := m1.(q := q);
    var m3 := m2.(pos := pos);
    Cons(POSITION, m0, Int(1, id), [Numbers(10, 8, q)] + ([Numbers(11, 4, pos)] + []), m1);
    Cons(POSITION, m1, Numbers(10, 8, q), [Numbers(11, 4, pos)] + [], m2);
    Cons(POSITION, m2, Numbers(11, 4, pos), [], m3);
    Last(POSITION, m3);
  }

  lemma TrackerAddedDecodes(id: int32, role: int32, name: bytes)
    requires |name| < TWO32
    ensures Decode(AppBytes(2, TrackerAdded(id, role, name))) ==
            Some(Blank(TRACKER_ADDED).(trackerId := id, role := role, name := name))
  {
    hide AppBytes, Decode, AfterAll;
    DecodesAs(TRACKER_ADDED, TrackerAdded(id, role, name));
    Int32RoundTrip(id);
    Int32RoundTrip(role);
    var m0 := Blank(TRACKER_ADDED);
    var m1 := m0.(trackerId := id);
    var m2 := m1.(role := role);
    var m3 := m2.(name := name);
    Cons(TRACKER_ADDED, m0, Int(1, id), [Int(3, role)] + ([Text(4, name)] + []), m1);
    Cons(TRACKER_ADDED, m1, Int(3, role), [Text(4, name)] + [], m2);
    Cons(TRACKER_ADDED, m2, Text(4, name), [], m3);
    Last(TRACKER_ADDED, m3);
  }

  lemma TrackerStatusDecodes(id: int32, status: int32, battery: bytes)
    requires |battery| == 4
    ensures Decode(AppBytes(3, TrackerStatus(id, status, battery))) ==
            Some(Blank(TRACKER_STATUS).(trackerId := id, status := status, battery := battery))
  {
    hide AppBytes, Decode, AfterAll;
    DecodesAs(TRACKER_STATUS, TrackerStatus(id, status, battery));
    Int32RoundTrip(id);
    Int32RoundTrip(status);
    var m0 := Blank(TRACKER_STATUS);
    var m1 := m0.(trackerId := id);
    var m2 := m1.(status := status);
    var m3 := m2.(battery := battery);
    Cons(TRACKER_STATUS, m0, Int(1, id), [Int(2, status)] + ([Float(3, battery)] + []), m1);
    Cons(TRACKER_STATUS, m1, Int(2, status), [Float(3, battery)] + [], m2);
    Cons(TRACKER_STATUS, m2, Float(3, battery), [], m3);
    Last(TRACKER_STATUS, m3);
  }

  /** The embedded position is skipped, whatever it holds, and may be missing. */
  lemma WipInfoDecodes(position: Option<bytes>, x: bytes, y: bytes, status: int32)
    requires (position.Some? ==> |position.value| < TWO32) && |x| == 4 && |y| == 4
    ensures Decode(AppBytes(6, WipInfo(position, x, y, status))) ==
            Some(Blank(WIP_INFO).(wipX := x, wipY := y, wipStatus := status))
  {
    hide AppBytes, Decode, AfterAll;
    DecodesAs(WIP_INFO, WipInfo(position, x, y, status));
    Int32RoundTrip(status);
    var m0 := Blank(WIP_INFO);
    var m2 := m0.(wipX := x);
    var m3 := m2.(wipY := y);
    var m4 := m3.(wipStatus := status);
    var rest := [Float(2, x)] + ([Float(3, y)] + ([Int(4, status)] + []));
    if position.None? {
      assert [] + rest == rest;
    } else {
      Cons(WIP_INFO, m0, Embedded(1, position.value), rest, m0);
    }
    Cons(WIP_INFO, m0, Float(2, x), [Float(3, y)] + ([Int(4, status)] + []), m2);
    Cons(WIP_INFO, m2, Float(3, y), [Int(4, status)] + [], m3);
    Cons(WIP_INFO, m3, Int(4, status), [], m4);
    Last(WIP_INFO, m4);
  }

  lemma WipSettingDecodes(open: bool, treadmill: bool, leftHand: bool, joystick: bool, replaceHand: bool)
    ensures Decode(AppBytes(7, WipSetting(open, treadmill, leftHand, joystick, replaceHand))) ==
            Some(Blank(WIP_SETTING).(openWip := open, outputAsTreadmill := treadmill, useLeftHand := leftHand,
                                     joystickControl := joystick, replaceHandPose := replaceHand))
  {
    hide AppBytes, Decode, AfterAll;
    DecodesAs(WIP_SETTING, WipSetting(open, treadmill, leftHand, joystick, replaceHand));
    var m0 := Blank(WIP_SETTING);
    var m1 := m0.(openWip := open);
    var m2 := m1.(outputAsTreadmill := treadmill);
    var m3 := m2.(useLeftHand := leftHand);
    var m4 := m3.(joystickControl := joystick);
    var m5 := m4.(replaceHandPose := replaceHand);
    Cons(WIP_SETTING, m0, Flag(1, open),
         [Flag(2, treadmill)] + ([Flag(3, leftHand)] + ([Flag(4, joystick)] + ([Flag(5, replaceHand)] + []))), m1);
    Cons(WIP_SETTING, m1, Flag(2, treadmill),
         [Flag(3, leftHand)] + ([Flag(4, joystick)] + ([Flag(5, replaceHand)] + [])), m2);
    Cons(WIP_SETTING, m2, Flag(3, leftHand), [Flag(4, joystick)] + ([Flag(5, replaceHand)] + []), m3);
    Cons(WIP_SETTING, m3, Flag(4, joystick), [Flag(5, replaceHand)] + [], m4);
    Cons(WIP_SETTING, m4, Flag(5, replaceHand), [], m5);
    Last(WIP_SETTING, m5);
  }

  lemma WipFuncStateChangeDecodes(on: bool)
    ensures Decode(AppBytes(8, [Flag(1, on)])) == Some(Blank(WIP_FUNC_STATE_CHANGE))
  {
    hide AppBytes, Decode, AfterAll;
    DecodesAs(WIP_FUNC_STATE_CHANGE, [Flag(1, on)]);
    var m := Blank(WIP_FUNC_STATE_CHANGE);
    assert [Flag(1, on)] + [] == [Flag(1, on)];
    Cons(WIP_FUNC_STATE_CHANGE, m, Flag(1, on), [], m);
    Last(WIP_FUNC_STATE_CHANGE, m);
  }
}
