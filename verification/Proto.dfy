/** The message codec: what a payload means, as functions on byte sequences.
    Doubles and floats stay the bytes they are on the wire. */
module Proto {
  import opened Wire

  const NONE: int32 := 0
  const POSITION: int32 := 1
  const TRACKER_ADDED: int32 := 2
  const TRACKER_STATUS: int32 := 3
  const UNIVERSE_CHANGE: int32 := 4
  const PATH_FAILED: int32 := 5
  const WIP_INFO: int32 := 6
  const WIP_SETTING: int32 := 7
  const WIP_FUNC_STATE_CHANGE: int32 := 8

  const DISCONNECTED: int32 := 0
  const OK: int32 := 1

  const ZERO4: bytes := [0, 0, 0, 0]

  datatype Msg = Msg(
    kind: int32,
    trackerId: int32,
    q: seq<bytes>,      // 8 bytes each
    pos: seq<bytes>,    // 4 bytes each
    role: int32,
    name: bytes,
    status: int32,
    battery: bytes,
    openWip: bool,
    outputAsTreadmill: bool,
    useLeftHand: bool,
    joystickControl: bool,
    replaceHandPose: bool,
    wipX: bytes,
    wipY: bytes,
    wipStatus: int32)

  function Blank(kind: int32): Msg {
    Msg(kind, 0, [], [], 0, [], 0, ZERO4, false, false, false, false, false, ZERO4, ZERO4, 0)
  }

  /** One field of a message: a varint, or the bytes of a fixed-width or length-delimited value. */
  datatype Field = Number(f: int32, v: uint64) | Raw(f: int32, wire: nat, data: bytes)

  /** An unpacked element of a repeated scalar is read at the element's width whatever its wire type. */
  predicate Unpacked(kind: int32, f: int32, wire: nat) {
    kind == POSITION && (f == 10 || f == 11) && wire != 2
  }

  function ElementWidth(f: int32): nat {
    if f == 10 then 8 else 4
  }

  function FixedData(f: int32, wire: nat, width: nat, s: bytes): Option<(Field, nat)> {
    if |s| < width then None else Some((Raw(f, wire, s[..width]), width))
  }

  /** The value of a field whose tag has been read. */
  function FieldBody(kind: int32, f: int32, wire: nat, s: bytes): (r: Option<(Field, nat)>)
    ensures r.Some? ==> r.value.1 <= |s|
  {
    if Unpacked(kind, f, wire) then FixedData(f, wire, ElementWidth(f), s)
    else if wire == 0 then
      match Varint(s)
      case None => None
      case Some((v, n)) => Some((Number(f, v), n))
    else if wire == 1 then FixedData(f, wire, 8, s)
    else if wire == 2 then
      match Varint(s)
      case None => None
      case Some((len, n)) =>
        if len > |s| - n then None else Some((Raw(f, wire, s[n..n + len]), n + len))
    else if wire == 5 then FixedData(f, wire, 4, s)
    else None
  }

  /** The field at the head of `s` and the number of bytes it takes. The field number keeps 32 bits of the tag. */
  function NextField(kind: int32, s: bytes): (r: Option<(Field, nat)>)
    ensures r.Some? ==> 1 <= r.value.1 <= |s|
  {
    match Varint(s)
    case None => None
    case Some((tag, n)) =>
      match FieldBody(kind, ToInt32(tag / 8), tag % 8, s[n..])
      case None => None
      case Some((x, k)) => Some((x, n + k))
  }

  /** A packed array cut into its elements; the length has to fit. */
  function Elements(s: bytes, width: nat): Option<seq<bytes>>
    requires width > 0
  {
    if s == [] then Some([])
    else if |s| < width then None
    else match Elements(s[width..], width)
      case None => None
      case Some(rest) => Some([s[..width]] + rest)
  }

  function RepeatedValues(wire: nat, data: bytes, width: nat): Option<seq<bytes>>
    requires width > 0
  {
    if wire == 2 then Elements(data, width) else Some([data])
  }

  /** Whether the decoder reads this field of a message of this kind; any other field is skipped. */
  predicate Known(kind: int32, x: Field) {
    match x
    case Number(f, _) =>
      || (f == 1 && kind <= TRACKER_STATUS)
      || (kind == TRACKER_ADDED && f == 3)
      || (kind == TRACKER_STATUS && f == 2)
      || (kind == WIP_SETTING && 1 <= f <= 5)
      || (kind == WIP_INFO && f == 4)
    case Raw(f, wire, _) =>
      || (kind == POSITION && (f == 10 || f == 11))
      || (kind == TRACKER_ADDED && f == 4 && wire == 2)
      || (kind == TRACKER_STATUS && f == 3 && wire == 5)
      || (kind == WIP_INFO && (f == 2 || f == 3) && wire == 5)
  }

  function WithFlag(m: Msg, f: int32, on: bool): (r: Msg)
    ensures r.kind == m.kind
  {
    match f
    case 1 => m.(openWip := on)
    case 2 => m.(outputAsTreadmill := on)
    case 3 => m.(useLeftHand := on)
    case 4 => m.(joystickControl := on)
    case _ => m.(replaceHandPose := on)
  }

  /** The message after one field. */
  function Apply(kind: int32, m: Msg, x: Field): (r: Option<Msg>)
    ensures r.Some? ==> r.value.kind == m.kind
    ensures !Known(kind, x) ==> r == Some(m)
  {
    match x {
      case Number(f, v) =>
        if f == 1 && kind <= TRACKER_STATUS then Some(m.(trackerId := ToInt32(v)))
        else if kind == TRACKER_ADDED && f == 3 then Some(m.(role := ToInt32(v)))
        else if kind == TRACKER_STATUS && f == 2 then Some(m.(status := ToInt32(v)))
        else if kind == WIP_SETTING && 1 <= f <= 5 then Some(WithFlag(m, f, v != 0))
        else if kind == WIP_INFO && f == 4 then Some(m.(wipStatus := ToInt32(v)))
        else Some(m)
      case Raw(f, wire, data) =>
        if kind == POSITION && f == 10 then
          match RepeatedValues(wire, data, 8)
          case None => None
          case Some(values) => Some(m.(q := m.q + values))
        else if kind == POSITION && f == 11 then
          match RepeatedValues(wire, data, 4)
          case None => None
          case Some(values) => Some(m.(pos := m.pos + values))
        else if kind == TRACKER_ADDED && f == 4 && wire == 2 then Some(m.(name := data))
        else if kind == TRACKER_STATUS && f == 3 && wire == 5 then Some(m.(battery := data))
        else if kind == WIP_INFO && f == 2 && wire == 5 then Some(m.(wipX := data))
        else if kind == WIP_INFO && f == 3 && wire == 5 then Some(m.(wipY := data))
        else Some(m)
    }
  }

  /** Reads one field into `m`. */
  function Step(kind: int32, m: Msg, s: bytes): (r: Option<(Msg, nat)>)
    ensures r.Some? ==> 1 <= r.value.1 <= |s| && r.value.0.kind == m.kind
  {
    match NextField(kind, s)
    case None => None
    case Some((x, n)) =>
      match Apply(kind, m, x)
      case None => None
      case Some(m') => Some((m', n))
  }

  /** The message after every field of `s`, or None unless the fields end exactly where `s` does. */
  function Fields(kind: int32, m: Msg, s: bytes): (r: Option<Msg>)
    ensures r.Some? ==> r.value.kind == m.kind
    decreases |s|
  {
    if s == [] then Some(m)
    else match Step(kind, m, s)
      case None => None
      case Some((m', n)) => Fields(kind, m', s[n..])
  }

  predicate Submessage(x: Field) {
    x.Raw? && x.wire == 2 && POSITION <= x.f <= WIP_FUNC_STATE_CHANGE
  }

  /** One top-level field: a known submessage replaces the message read so far. */
  function TopStep(m: Msg, s: bytes): (r: Option<(Msg, nat)>)
    ensures r.Some? ==> 1 <= r.value.1 <= |s|
  {
    match NextField(NONE, s)
    case None => None
    case Some((x, n)) =>
      if !Submessage(x) then Some((m, n))
      else match Fields(x.f, Blank(x.f), x.data)
        case None => None
        case Some(m') => Some((m', n))
  }

  function TopFields(m: Msg, s: bytes): Option<Msg>
    decreases |s|
  {
    if s == [] then Some(m)
    else match TopStep(m, s)
      case None => None
      case Some((m', n)) => TopFields(m', s[n..])
  }

  /** The message a payload carries, if it carries one. */
  function Decode(s: bytes): Option<Msg> {
    match TopFields(Blank(NONE), s)
    case None => None
    case Some(m) => if m.kind == NONE then None else Some(m)
  }

  // What the encoders write.

  function VarintField(tag: byte, v: uint64): bytes {
    if v == 0 then [] else [tag] + PutVarint(v)
  }

  function Wrap(field: int32, inner: bytes): bytes
    requires 0 <= field <= WIP_FUNC_STATE_CHANGE && |inner| < TWO64
  {
    PutVarint(8 * field + 2) + PutVarint(|inner|) + inner
  }

  /** Four doubles or three floats as put_fixed lays them out. */
  function Concat(parts: seq<bytes>): bytes {
    if parts == [] then [] else parts[0] + Concat(parts[1..])
  }

  predicate Widths(parts: seq<bytes>, width: nat) {
    forall k :: 0 <= k < |parts| ==> |parts[k]| == width
  }

  lemma {:induction false} ConcatLength(parts: seq<bytes>, width: nat)
    requires Widths(parts, width)
    ensures |Concat(parts)| == width * |parts|
  {
    if parts != [] {
      ConcatLength(parts[1..], width);
      assert width * |parts| == width + width * (|parts| - 1);
    }
  }

  lemma {:induction false} ConcatAppend(a: seq<bytes>, b: seq<bytes>)
    ensures Concat(a + b) == Concat(a) + Concat(b)
  {
    if a == [] {
      assert a + b == b;
    } else {
      assert (a + b)[1..] == a[1..] + b;
      ConcatAppend(a[1..], b);
    }
  }
}
