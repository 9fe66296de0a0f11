/** The handshake with the app: the headset status and the universe, re-sent after drops, reconnects and changes.
    The network thread may close and reopen the connection between any two steps of a frame. */
module Handshake {
  import opened Clock
  import opened Wire
  import opened Client
  import Proto
  import Laws = ProtoLaws
  import Codec
  import DriverMessages

  /** The kind of message the app sees in a payload. */
  function KindOf(payload: bytes): int32 {
    match Proto.Decode(payload)
    case None => Proto.NONE
    case Some(m) => m.kind
  }

  /** One more than the index of the last payload of this kind, or 0. */
  function LastOf(kind: int32, log: seq<bytes>): (n: nat)
    ensures n <= |log|
  {
    if log == [] then 0
    else if KindOf(log[|log| - 1]) == kind then |log|
    else LastOf(kind, log[..|log| - 1])
  }

  lemma {:induction false} LastOfIsLast(kind: int32, log: seq<bytes>)
    ensures var n := LastOf(kind, log);
            (n > 0 ==> KindOf(log[n - 1]) == kind) && (forall k :: n <= k < |log| ==> KindOf(log[k]) != kind)
    decreases |log|
  {
    hide KindOf;
    if log != [] && KindOf(log[|log| - 1]) != kind {
      LastOfIsLast(kind, log[..|log| - 1]);
    }
  }

  lemma LastOfAppend(kind: int32, log: seq<bytes>, payload: bytes)
    ensures LastOf(kind, log + [payload]) == if KindOf(payload) == kind then |log| + 1 else LastOf(kind, log)
  {
    hide KindOf;
    assert (log + [payload])[..|log|] == log;
  }

  /** The play space as it goes on the wire. */
  datatype Universe = Universe(id: uint64, yaw: bytes, pos: seq<bytes>) {
    predicate Valid() {
      |yaw| == 4 && |pos| == 3 && Proto.Widths(pos, 4)
    }
  }

  const RAW_SPACE_POS: seq<bytes> := [Proto.ZERO4, Proto.ZERO4, Proto.ZERO4]

  function HmdStatus(ok: bool): bytes {
    Laws.StatusBytes(0, if ok then Proto.OK else Proto.DISCONNECTED)
  }

  function UniversePayload(u: Universe): bytes
    requires u.Valid()
  {
    Laws.UniverseBytes(u.yaw, u.pos)
  }

  /** The last status the app got is that of the headset, and says whether it tracks. */
  predicate StatusShown(log: seq<bytes>, ok: bool) {
    var n := LastOf(3, log);
    n > 0 && Proto.Decode(log[n - 1]) == Some(Proto.Blank(3).(trackerId := 0, status := if ok then 1 else 0))
  }

  /** The last universe the app got is this one, and it came after the last status. */
  predicate UniverseShown(log: seq<bytes>, u: Universe) {
    var n := LastOf(4, log);
    n > LastOf(3, log) && DriverMessages.ReadUniverse(log[n - 1]) == Some(OnTheWire(u))
  }

  /** A negative zero yaw is left out like a zero. */
  function OnTheWire(u: Universe): (bytes, seq<bytes>) {
    (if u.yaw == [0, 0, 0, 0x80] then [0, 0, 0, 0] else u.yaw, u.pos)
  }

  // What the app reads in the four payloads of the driver.

  lemma StatusRead(ok: bool)
    ensures KindOf(HmdStatus(ok)) == 3 && |HmdStatus(ok)| <= 56
    ensures Proto.Decode(HmdStatus(ok)) == Some(Proto.Blank(3).(trackerId := 0, status := if ok then 1 else 0))
  {
    hide Proto.Decode, Laws.StatusBytes;
    var status := if ok then Proto.OK else Proto.DISCONNECTED;
    Laws.StatusRoundTrip(0, status);
    Laws.EncodedSizes(0, status, SOME_Q, RAW_SPACE_POS, Proto.ZERO4);
  }

  const SOME_Q: seq<bytes> := seq(4, _ => [0, 0, 0, 0, 0, 0, 0, 0])

  lemma UniverseRead(u: Universe)
    requires u.Valid()
    ensures KindOf(UniversePayload(u)) == 4 && |UniversePayload(u)| <= 56
    ensures DriverMessages.ReadUniverse(UniversePayload(u)) == Some(OnTheWire(u))
  {
    hide Proto.Decode, Laws.UniverseBytes, DriverMessages.ReadUniverse;
    Laws.UniverseDecodes(u.yaw, u.pos);
    DriverMessages.UniverseRoundTrip(u.yaw, u.pos);
    Laws.EncodedSizes(0, 0, SOME_Q, u.pos, u.yaw);
  }

  lemma PathFailedRead(failed: int32)
    ensures KindOf(Laws.PathFailedBytes(failed)) == 5 && |Laws.PathFailedBytes(failed)| <= 56
    ensures DriverMessages.ReadPathFailed(Laws.PathFailedBytes(failed)) == Some(failed)
  {
    hide Proto.Decode, Laws.PathFailedBytes, DriverMessages.ReadPathFailed;
    Laws.PathFailedDecodes(failed);
    DriverMessages.PathFailedRoundTrip(failed);
    Laws.EncodedSizes(0, failed, SOME_Q, RAW_SPACE_POS, Proto.ZERO4);
  }

  lemma PositionRead(q: seq<bytes>, pos: seq<bytes>)
    requires |q| == 4 && Proto.Widths(q, 8) && |pos| == 3 && Proto.Widths(pos, 4)
    ensures KindOf(Laws.PositionBytes(0, q, pos)) == 1 && |Laws.PositionBytes(0, q, pos)| <= 56
    ensures Proto.Decode(Laws.PositionBytes(0, q, pos)) == Some(Proto.Blank(1).(trackerId := 0, q := q, pos := pos))
  {
    hide Proto.Decode, Laws.PositionBytes;
    Laws.PositionRoundTrip(0, q, pos);
    Laws.EncodedSizes(0, 0, q, pos, Proto.ZERO4);
  }

  lemma Kinds(ok: bool, u: Universe, failed: int32, q: seq<bytes>, pos: seq<bytes>)
    requires u.Valid() && |q| == 4 && Proto.Widths(q, 8) && |pos| == 3 && Proto.Widths(pos, 4)
    ensures KindOf(HmdStatus(ok)) == 3 && KindOf(UniversePayload(u)) == 4
    ensures KindOf(Laws.PathFailedBytes(failed)) == 5 && KindOf(Laws.PositionBytes(0, q, pos)) == 1
  {
    hide KindOf, HmdStatus, UniversePayload, Laws.PathFailedBytes, Laws.PositionBytes;
    StatusRead(ok);
    UniverseRead(u);
    PathFailedRead(failed);
    PositionRead(q, pos);
  }

  /** Only a status or a universe changes what the app has been shown. */
  lemma Logged(log: seq<bytes>, payload: bytes, u: Universe)
    ensures KindOf(payload) != 3 ==> forall ok :: StatusShown(log, ok) ==> StatusShown(log + [payload], ok)
    ensures KindOf(payload) != 3 && KindOf(payload) != 4 && UniverseShown(log, u) ==>
              UniverseShown(log + [payload], u)
    ensures KindOf(payload) == 3 ==>
              forall ok ::
                Proto.Decode(payload) == Some(Proto.Blank(3).(trackerId := 0, status := if ok then 1 else 0)) ==>
                StatusShown(log + [payload], ok)
    ensures KindOf(payload) == 4 && DriverMessages.ReadUniverse(payload) == Some(OnTheWire(u)) ==>
              UniverseShown(log + [payload], u)
  {
    hide KindOf, OnTheWire, Proto.Decode, DriverMessages.ReadUniverse;
    LastOfAppend(3, log, payload);
    LastOfAppend(4, log, payload);
  }

  /** What one frame reads from SteamVR: the time, the headset's state and pose, the universe id, the chaperone
      lookup. */
  datatype FrameInput = FrameInput(
    now: int, hmdOk: bool, q: seq<bytes>, pos: seq<bytes>, universeId: Option<uint64>, lookup: Option<Universe>)
  {
    predicate Valid() {
      && |q| == 4 && Proto.Widths(q, 8) && |pos| == 3 && Proto.Widths(pos, 4)
      && (lookup.Some? ==> lookup.value.Valid())
    }
  }

  datatype PlaySpace = PlaySpace(universe: Universe, known: bool, fallback: bool, failures: nat, lastSearch: int)

  /** Whether a frame looks the play space up: at most once a second, and not while it is known. */
  predicate Searches(s: PlaySpace, input: FrameInput) {
    && input.universeId.Some?
    && !(s.known && !s.fallback && s.universe.id == input.universeId.value)
    && input.now - s.lastSearch >= SECOND
  }

  /** A search that finds nothing and is not covered by the fallback. */
  predicate Fails(s: PlaySpace, input: FrameInput) {
    Searches(s, input) && input.lookup.None? && !s.fallback
  }

  predicate FallsBack(s: PlaySpace, input: FrameInput, allowed: bool) {
    Fails(s, input) && allowed && s.failures >= 2
  }

  predicate Replaced(s: PlaySpace, input: FrameInput, allowed: bool) {
    (Searches(s, input) && input.lookup.Some?) || FallsBack(s, input, allowed)
  }

  function NextSpace(s: PlaySpace, input: FrameInput, allowed: bool): (r: PlaySpace)
    ensures s.universe.Valid() && input.Valid() ==> r.universe.Valid()
  {
    if !Searches(s, input) then s
    else if input.lookup.Some? then
      PlaySpace(input.lookup.value.(id := input.universeId.value), true, false, 0, input.now)
    else if FallsBack(s, input, allowed) then
      PlaySpace(Universe(input.universeId.value, Proto.ZERO4, RAW_SPACE_POS), true, true, s.failures + 1, input.now)
    else s.(lastSearch := input.now, failures := s.failures + if s.fallback then 0 else 1)
  }

  function SpaceAfter(s: PlaySpace, inputs: seq<FrameInput>, allowed: bool): PlaySpace
    decreases |inputs|
  {
    if inputs == [] then s else SpaceAfter(NextSpace(s, inputs[0], allowed), inputs[1..], allowed)
  }

  /** How often a run of frames reports path_failed. */
  function Reports(s: PlaySpace, inputs: seq<FrameInput>, allowed: bool): nat
    decreases |inputs|
  {
    if inputs == [] then 0
    else (if Fails(s, inputs[0]) && s.failures % 30 == 0 then 1 else 0)
         + Reports(NextSpace(s, inputs[0], allowed), inputs[1..], allowed)
  }

  /** Over any run in which no lookup succeeds and there is no fallback, path_failed goes out once for
      every 30 failed searches, the first at once. */
  lemma {:induction false} OneReportInThirty(s: PlaySpace, inputs: seq<FrameInput>)
    requires !s.fallback && forall k :: 0 <= k < |inputs| ==> inputs[k].lookup.None?
    ensures var e := SpaceAfter(s, inputs, false);
            && e.failures >= s.failures && e.universe == s.universe && e.known == s.known && !e.fallback
            && Reports(s, inputs, false) == (e.failures + 29) / 30 - (s.failures + 29) / 30
    decreases |inputs|
  {
    if inputs != [] {
      OneReportInThirty(NextSpace(s, inputs[0], false), inputs[1..]);
    }
  }

  /** The fallback is raw tracking space, and with the fallback allowed three failed searches end in a known play
      space. */
  predicate FallbackSound(s: PlaySpace) {
    && (s.fallback ==> s.known && s.universe.yaw == Proto.ZERO4 && s.universe.pos == RAW_SPACE_POS)
    && (s.failures >= 3 ==> s.known)
  }

  lemma {:induction false} FallbackSoundAlways(s: PlaySpace, inputs: seq<FrameInput>)
    requires FallbackSound(s)
    ensures FallbackSound(SpaceAfter(s, inputs, true))
    decreases |inputs|
  {
    if inputs != [] {
      FallbackSoundAlways(NextSpace(s, inputs[0], true), inputs[1..]);
    }
  }

  /** How many of the frames look the play space up. */
  function SearchCount(s: PlaySpace, inputs: seq<FrameInput>, allowed: bool): nat
    decreases |inputs|
  {
    if inputs == [] then 0
    else (if Searches(s, inputs[0]) then 1 else 0) + SearchCount(NextSpace(s, inputs[0], allowed), inputs[1..], allowed)
  }

  /** Over every run, searches are at least a second apart. */
  lemma {:induction false} OneSearchASecond(s: PlaySpace, inputs: seq<FrameInput>, allowed: bool)
    ensures SearchCount(s, inputs, allowed) * SECOND <= SpaceAfter(s, inputs, allowed).lastSearch - s.lastSearch
    decreases |inputs|
  {
    if inputs != [] {
      OneSearchASecond(NextSpace(s, inputs[0], allowed), inputs[1..], allowed);
    }
  }

  /** What the last successful lookup of a run gave, with the id it was looked up for, or `start`. */
  function LastFound(s: PlaySpace, inputs: seq<FrameInput>, allowed: bool, start: Option<Universe>): Option<Universe>
    decreases |inputs|
  {
    if inputs == [] then start
    else
      var found := Searches(s, inputs[0]) && inputs[0].lookup.Some?;
      LastFound(NextSpace(s, inputs[0], allowed), inputs[1..], allowed,
                if found then Some(inputs[0].lookup.value.(id := inputs[0].universeId.value)) else start)
  }

  /** Over every run, a known play space that is no fallback is what the last successful lookup gave. */
  lemma {:induction false} KnownIsLastFound(s: PlaySpace, inputs: seq<FrameInput>, allowed: bool,
                                            start: Option<Universe>)
    requires s.known && !s.fallback ==> start == Some(s.universe)
    ensures var e := SpaceAfter(s, inputs, allowed);
            e.known && !e.fallback ==> LastFound(s, inputs, allowed, start) == Some(e.universe)
    decreases |inputs|
  {
    if inputs != [] {
      var found := Searches(s, inputs[0]) && inputs[0].lookup.Some?;
      KnownIsLastFound(NextSpace(s, inputs[0], allowed), inputs[1..], allowed,
                       if found then Some(inputs[0].lookup.value.(id := inputs[0].universeId.value)) else start);
    }
  }

  // What a frame hands to the client.

  datatype Flags = Flags(statusSent: bool, helloSent: bool, lastHmdOk: bool, lastHmdSend: int)

  predicate Reporting(s: PlaySpace, input: FrameInput) {
    Fails(s, input) && s.failures % 30 == 0
  }

  function PathFailed(s: PlaySpace, input: FrameInput, noDefaultFile: bool): seq<bytes> {
    One(Reporting(s, input), Laws.PathFailedBytes(if noDefaultFile then 1 else 2))
  }

  predicate StatusDue(flags: Flags, input: FrameInput) {
    !flags.statusSent || input.hmdOk != flags.lastHmdOk
  }

  predicate UniverseDue(s: PlaySpace, flags: Flags, input: FrameInput) {
    s.known && (StatusDue(flags, input) || !flags.helloSent)
  }

  function One<T>(due: bool, x: T): seq<T> {
    if due then [x] else []
  }

  function Greeting(s: PlaySpace, flags: Flags, input: FrameInput): seq<bytes>
    requires s.universe.Valid()
  {
    One(StatusDue(flags, input), HmdStatus(input.hmdOk))
      + One(UniverseDue(s, flags, input), UniversePayload(s.universe))
  }

  predicate PoseDue(lastHmdSend: int, input: FrameInput) {
    input.now - lastHmdSend >= 10 * MILLISECOND
  }

  function HmdPose(lastHmdSend: int, input: FrameInput): seq<bytes>
    requires input.Valid()
  {
    One(PoseDue(lastHmdSend, input), Laws.PositionBytes(0, input.q, input.pos))
  }

  /** A connected frame, in the order of its sends. `flags` are those after the generation has been noted. */
  function FrameSends(s: PlaySpace, flags: Flags, input: FrameInput, allowed: bool, noDefaultFile: bool): seq<bytes>
    requires s.universe.Valid() && input.Valid()
  {
    PathFailed(s, input, noDefaultFile) + FrameGreeting(s, flags, input, allowed) + HmdPose(flags.lastHmdSend, input)
  }

  /** The status and universe of a frame, after the search for the play space. */
  function FrameGreeting(s: PlaySpace, flags: Flags, input: FrameInput, allowed: bool): seq<bytes>
    requires s.universe.Valid() && input.Valid()
  {
    Greeting(NextSpace(s, input, allowed), flags.(helloSent := flags.helloSent && !Replaced(s, input, allowed)), input)
  }

  /** The client reported this stretch of sends as successful. */
  predicate AllSent(outcomes: seq<bool>, from: nat, count: nat) {
    from + count <= |outcomes| && forall k :: from <= k < from + count ==> outcomes[k]
  }

  /** A new generation starts the handshake over. */
  function Noted(flags: Flags, restarted: bool): Flags {
    if restarted then flags.(statusSent := false, helloSent := false) else flags
  }

  /** What the two sends of a greeting add up to. */
  lemma GreetingSum(s: PlaySpace, flags: Flags, input: FrameInput, attempts: seq<bytes>, outcomes: seq<bool>,
                    status: bool, hello: bool)
    requires s.universe.Valid()
    ensures attempts + One(StatusDue(flags, input), HmdStatus(input.hmdOk))
                     + One(UniverseDue(s, flags, input), UniversePayload(s.universe)) ==
            attempts + Greeting(s, flags, input)
    ensures var after := outcomes + One(StatusDue(flags, input), status) + One(UniverseDue(s, flags, input), hello);
            && outcomes <= after
            && (AllSent(after, |outcomes|, |Greeting(s, flags, input)|) ==>
                  (StatusDue(flags, input) ==> status) && (UniverseDue(s, flags, input) ==> hello))
  {
    hide HmdStatus, UniversePayload;
    var first, second := One(StatusDue(flags, input), status), One(UniverseDue(s, flags, input), hello);
    var after := outcomes + first + second;
    Associate(attempts, One(StatusDue(flags, input), HmdStatus(input.hmdOk)),
              One(UniverseDue(s, flags, input), UniversePayload(s.universe)));
    assert StatusDue(flags, input) ==> after[|outcomes|] == status;
    assert UniverseDue(s, flags, input) ==> after[|outcomes| + |first|] == hello;
  }

  class Provider {
    const client: BridgeClient
    const fallbackAllowed: bool
    const noDefaultFile: bool
    var generation: nat
    var statusSent: bool
    var helloSent: bool
    var lastHmdOk: bool
    var haveUniverse: bool
    var usingFallback: bool
    var failures: nat
    var universe: Universe
    var lastSearch: int
    var lastHmdSend: int

    ghost predicate Valid()
      reads this, client, client.fd
    {
      && client.Valid() && client.limit >= 56
      && universe.Valid()
      && generation <= client.generation
      && (helloSent ==> haveUniverse)
      && |client.attempts| == |client.outcomes|
    }

    /** While the driver has the client's generation, its two flags tell the truth about this connection.
        Between a status and the universe that follows it, `helloSent` may be stale. */
    ghost predicate Synced(between: bool := false)
      reads `generation, `statusSent, `lastHmdOk, `helloSent, `universe, client
    {
      generation == client.generation ==>
        && (statusSent ==> StatusShown(client.accepted, lastHmdOk))
        && (helloSent && !between ==> UniverseShown(client.accepted, universe))
    }

    constructor (client: BridgeClient, fallbackAllowed: bool, noDefaultFile: bool)
      requires client.Valid() && client.limit >= 56 && |client.attempts| == |client.outcomes|
      ensures Valid() && Synced() && this.client == client
      ensures GetFlags() == Flags(false, false, false, 0) && Space() == PlaySpace(universe, false, false, 0, 0)
    {
      this.client, this.fallbackAllowed, this.noDefaultFile := client, fallbackAllowed, noDefaultFile;
      generation, statusSent, helloSent, lastHmdOk := 0, false, false, false;
      haveUniverse, usingFallback, failures := false, false, 0;
      universe := Universe(0, Proto.ZERO4, RAW_SPACE_POS);
      lastSearch, lastHmdSend := 0, 0;
    }

    function GetFlags(): Flags
      reads this
    {
      Flags(statusSent, helloSent, lastHmdOk, lastHmdSend)
    }

    /** Hands the payload to the client. */
    method Send(payload: bytes) returns (ok: bool)
      requires Valid() && |payload| <= 56
      modifies client`attempts, client`outcomes, client`accepted, client`torn, client.fd
      ensures Valid()
      ensures client.attempts == old(client.attempts) + [payload] && client.outcomes == old(client.outcomes) + [ok]
      ensures client.accepted == if ok then old(client.accepted) + [payload] else old(client.accepted)
    {
      hide BridgeClient.Valid;
      ok := client.Send(payload);
    }

    method Interfere(ghost between: bool := false)
      requires Valid() && Synced(between)
      modifies client`fd, client`generation, client`accepted, client`torn, client`announced
      ensures Valid() && Synced(between) && client.generation >= old(client.generation)
      ensures client.generation == old(client.generation) ==> client.accepted == old(client.accepted)
      ensures client.fd == old(client.fd) || client.fd == null || fresh(client.fd)
    {
      client.Reconnect();
    }

    function Space(): (s: PlaySpace)
      reads this
      ensures s.universe == universe && s.failures == failures && s.fallback == usingFallback && s.known == haveUniverse
    {
      PlaySpace(universe, haveUniverse, usingFallback, failures, lastSearch)
    }

    method UpdateUniverse(input: FrameInput)
      requires Valid() && Synced() && input.Valid()
      modifies this`universe, this`haveUniverse, this`usingFallback, this`failures, this`helloSent, this`lastSearch,
               client`attempts, client`outcomes, client`accepted, client`torn, client.fd
      ensures Valid() && Synced()
      ensures Space() == NextSpace(old(Space()), input, fallbackAllowed)
      ensures client.attempts == old(client.attempts) + PathFailed(old(Space()), input, noDefaultFile)
      ensures old(client.outcomes) <= client.outcomes
      ensures helloSent == (old(helloSent) && !Replaced(old(Space()), input, fallbackAllowed))
      // the search, and what it leads to
      ensures var id := input.universeId;
              var searches := && id.Some? && !(old(haveUniverse) && !old(usingFallback) && old(universe).id == id.value)
                              && input.now - old(lastSearch) >= SECOND;
              if !searches then
                Space() == old(Space()) && helloSent == old(helloSent) && client.attempts == old(client.attempts)
              else if input.lookup.Some? then
                && universe == input.lookup.value.(id := id.value) && haveUniverse && !usingFallback && failures == 0
                && lastSearch == input.now && !helloSent && client.attempts == old(client.attempts)
              else if old(usingFallback) then
                Space() == old(Space()).(lastSearch := input.now) && helloSent == old(helloSent)
                && client.attempts == old(client.attempts)
              else
                && failures == old(failures) + 1 && lastSearch == input.now
                && client.attempts == old(client.attempts)
                     + (if old(failures) % 30 == 0 then [Laws.PathFailedBytes(if noDefaultFile then 1 else 2)] else [])
                && (if fallbackAllowed && failures >= 3
                    then haveUniverse && usingFallback && !helloSent
                         && universe == Universe(id.value, [0, 0, 0, 0], [[0, 0, 0, 0], [0, 0, 0, 0], [0, 0, 0, 0]])
                    else haveUniverse == old(haveUniverse) && !usingFallback && universe == old(universe)
                         && helloSent == old(helloSent))
    {
      hide KindOf, HmdStatus, UniversePayload, BridgeClient.Valid, BridgeClient.StreamSound;
      hide Provider.Synced;
      if input.universeId.None? {
        return;
      }
      var id := input.universeId.value;
      if haveUniverse && !usingFallback && universe.id == id {
        return;
      }
      if input.now - lastSearch < SECOND {
        return;
      }
      lastSearch := input.now;
      if input.lookup.Some? {
        Found(input.lookup.value.(id := id));
        return;
      }
      if usingFallback {
        return;
      }
      NotFound(input, id);
    }

    /** The new play space is due to the app; RunFrame sends it. */
    method Found(found: Universe)
      requires Valid() && Synced() && found.Valid()
      modifies this`universe, this`haveUniverse, this`usingFallback, this`failures, this`helloSent
      ensures Valid() && Synced()
      ensures universe == found && haveUniverse && !usingFallback && failures == 0 && !helloSent
    {
      hide StatusShown, UniverseShown, BridgeClient.Valid, BridgeClient.StreamSound;
      universe := found;
      haveUniverse, usingFallback, failures, helloSent := true, false, 0, false;
    }

    /** A search that found nothing, with no fallback in use. */
    method NotFound(input: FrameInput, id: uint64)
      requires Valid() && Synced() && input.Valid() && !usingFallback
      modifies this`universe, this`haveUniverse, this`usingFallback, this`failures, this`helloSent,
               client`attempts, client`outcomes, client`accepted, client`torn, client.fd
      ensures Valid() && Synced()
      ensures failures == old(failures) + 1
      ensures client.attempts == old(client.attempts) + (if old(failures) % 30 == 0
                                                        then [Laws.PathFailedBytes(if noDefaultFile then 1 else 2)]
                                                        else [])
      ensures old(client.outcomes) <= client.outcomes
      ensures if fallbackAllowed && old(failures) >= 2
              then haveUniverse && usingFallback && !helloSent && universe == Universe(id, Proto.ZERO4, RAW_SPACE_POS)
              else haveUniverse == old(haveUniverse) && !usingFallback && helloSent == old(helloSent)
                   && universe == old(universe)
    {
      hide StatusShown, UniverseShown, KindOf, HmdStatus, UniversePayload, BridgeClient.Valid, BridgeClient.StreamSound;
      var before := failures;
      failures := failures + 1;
      if before % 30 == 0 {
        SendPathFailed(input);
      }
      if fallbackAllowed && failures >= 3 {
        universe := Universe(id, Proto.ZERO4, RAW_SPACE_POS);
        haveUniverse, usingFallback, helloSent := true, true, false;
      }
    }

    method SendPathFailed(input: FrameInput)
      requires Valid() && Synced() && input.Valid()
      modifies client`attempts, client`outcomes, client`accepted, client`torn, client.fd
      ensures Valid() && Synced()
      ensures client.attempts == old(client.attempts) + [Laws.PathFailedBytes(if noDefaultFile then 1 else 2)]
      ensures DriverMessages.ReadPathFailed(client.attempts[|old(client.attempts)|]) ==
              Some(if noDefaultFile then 1 else 2)
      ensures old(client.outcomes) <= client.outcomes
    {
      hide Proto.Decode, DriverMessages.ReadPathFailed, LastOf;
      hide StatusShown, UniverseShown, KindOf, BridgeClient.Valid, BridgeClient.StreamSound, Laws.PathFailedBytes;
      var code: int32 := if noDefaultFile then 1 else 2;
      PathFailedRead(code);
      var payload := Codec.EncodePathFailed(code);
      Logged(client.accepted, payload, universe);
      var _ := Send(payload);
    }

    /** One frame. `ran` is false when it found no connection. */
    method RunFrame(input: FrameInput) returns (ran: bool)
      requires Valid() && Synced() && input.Valid()
      modifies this, client, client.fd
      ensures Valid() && Synced()
      ensures client.fd == old(client.fd) || client.fd == null || fresh(client.fd)
      ensures ran == (old(client.fd) != null)
      ensures ran && client.generation == old(client.generation) ==> generation == client.generation
      // what it has sent, and what came of it
      ensures old(client.outcomes) <= client.outcomes
      ensures ran ==> Space() == NextSpace(old(Space()), input, fallbackAllowed)
      ensures ran ==> client.attempts == old(client.attempts)
                        + FrameSends(old(Space()), Noted(old(GetFlags()), generation != old(generation)), input,
                                     fallbackAllowed, noDefaultFile)
      ensures ran ==> lastHmdSend == if PoseDue(old(lastHmdSend), input) then input.now else old(lastHmdSend)
      ensures !ran ==>
                client.attempts == old(client.attempts) && Space() == old(Space()) && GetFlags() == old(GetFlags())
      // what the app has been shown, if the status and universe due were sent
      ensures ran && generation == client.generation
              && AllSent(client.outcomes, |old(client.outcomes)| + |PathFailed(old(Space()), input, noDefaultFile)|,
                         |FrameGreeting(old(Space()), Noted(old(GetFlags()), generation != old(generation)), input,
                                        fallbackAllowed)|) ==>
                var n, k := LastOf(3, client.accepted), LastOf(4, client.accepted);
                && n > 0
                && Proto.Decode(client.accepted[n - 1]) ==
                   Some(Proto.Blank(3).(trackerId := 0, status := if input.hmdOk then 1 else 0))
                && (haveUniverse ==>
                      && k > n
                      && DriverMessages.ReadUniverse(client.accepted[k - 1]) ==
                         Some((if universe.yaw == [0, 0, 0, 0x80] then [0, 0, 0, 0] else universe.yaw, universe.pos)))
    {
      hide StatusShown, UniverseShown, KindOf, HmdStatus, UniversePayload, BridgeClient.Valid, BridgeClient.StreamSound;
      hide LastOf, Proto.Decode, DriverMessages.ReadUniverse;
      hide Provider.Synced, FrameSends, FrameGreeting, PathFailed, AllSent, NextSpace, PoseDue, Noted, Space;
      if client.fd == null {
        return false;
      }
      ran := true;
      Converse(input);
      if generation == client.generation && statusSent && lastHmdOk == input.hmdOk && (haveUniverse ==> helloSent) {
        Shown(input.hmdOk);
      }
    }

    /** A frame that has found a connection. */
    method Converse(input: FrameInput)
      requires Valid() && Synced() && input.Valid() && client.fd != null
      modifies this, client, client.fd
      ensures Valid() && Synced()
      ensures client.fd == old(client.fd) || client.fd == null || fresh(client.fd)
      ensures client.generation == old(client.generation) ==> generation == client.generation
      ensures old(client.outcomes) <= client.outcomes
      ensures Space() == NextSpace(old(Space()), input, fallbackAllowed)
      ensures var noted := Noted(old(GetFlags()), generation != old(generation));
              && client.attempts == old(client.attempts)
                   + FrameSends(old(Space()), noted, input, fallbackAllowed, noDefaultFile)
              && (AllSent(client.outcomes, |old(client.outcomes)| + |PathFailed(old(Space()), input, noDefaultFile)|,
                          |FrameGreeting(old(Space()), noted, input, fallbackAllowed)|) ==>
                    statusSent && lastHmdOk == input.hmdOk && (haveUniverse ==> helloSent))
      ensures lastHmdSend == if PoseDue(old(lastHmdSend), input) then input.now else old(lastHmdSend)
    {
      hide StatusShown, UniverseShown, BridgeClient.Valid, BridgeClient.StreamSound;
      hide Provider.Synced, FrameSends, FrameGreeting, PathFailed, AllSent, NextSpace, PoseDue, Noted, Space;
      ghost var flags := GetFlags();
      NoteGeneration();
      Interfere();
      assert GetFlags() == Noted(flags, generation != old(generation));
      Talk(input);
    }

    /** The sends of a connected frame. */
    method Talk(input: FrameInput)
      requires Valid() && Synced() && input.Valid()
      modifies this`universe, this`haveUniverse, this`usingFallback, this`failures, this`lastSearch
      modifies this`statusSent, this`lastHmdOk, this`helloSent, this`lastHmdSend
      modifies client, client.fd
      ensures Valid() && Synced()
      ensures client.fd == old(client.fd) || client.fd == null || fresh(client.fd)
      ensures AllSent(client.outcomes, |old(client.outcomes)| + |PathFailed(old(Space()), input, noDefaultFile)|,
                      |FrameGreeting(old(Space()), old(GetFlags()), input, fallbackAllowed)|) ==>
                statusSent && lastHmdOk == input.hmdOk && (haveUniverse ==> helloSent)
      ensures Space() == NextSpace(old(Space()), input, fallbackAllowed)
      ensures client.attempts == old(client.attempts)
                + FrameSends(old(Space()), old(GetFlags()), input, fallbackAllowed, noDefaultFile)
      ensures lastHmdSend == if PoseDue(old(lastHmdSend), input) then input.now else old(lastHmdSend)
      ensures old(client.outcomes) <= client.outcomes
    {
      hide StatusShown, UniverseShown, KindOf, BridgeClient.Valid, BridgeClient.StreamSound;
      hide Provider.Synced, NextSpace, Replaced, PathFailed, Greeting, HmdPose, PoseDue, AllSent;
      UpdateUniverse(input);
      assert GetFlags() == old(GetFlags()).(helloSent := helloSent);
      ghost var failed := PathFailed(old(Space()), input, noDefaultFile);
      Associate(old(client.attempts), failed + Greeting(Space(), GetFlags(), input), HmdPose(lastHmdSend, input));
      Associate(old(client.attempts), failed, Greeting(Space(), GetFlags(), input));
      Report(input);
    }

    /** Status, universe and headset pose. */
    method Report(input: FrameInput)
      requires Valid() && Synced() && input.Valid()
      modifies this`statusSent, this`lastHmdOk, this`helloSent, this`lastHmdSend
      modifies client, client.fd
      ensures Valid() && Synced()
      ensures client.fd == old(client.fd) || client.fd == null || fresh(client.fd)
      ensures AllSent(client.outcomes, |old(client.outcomes)|, |Greeting(Space(), old(GetFlags()), input)|) ==>
                statusSent && lastHmdOk == input.hmdOk && (haveUniverse ==> helloSent)
      ensures client.attempts ==
              old(client.attempts) + Greeting(Space(), old(GetFlags()), input) + HmdPose(old(lastHmdSend), input)
      ensures lastHmdSend == if PoseDue(old(lastHmdSend), input) then input.now else old(lastHmdSend)
      ensures old(client.outcomes) <= client.outcomes
    {
      hide StatusShown, UniverseShown, KindOf, BridgeClient.Valid, BridgeClient.StreamSound;
      hide Provider.Synced, Greeting, HmdPose, PoseDue;
      Greet(input);
      SendHmdPose(input);
    }

    /** What the flags mean. */
    lemma Shown(hmdOk: bool)
      requires Valid() && Synced() && generation == client.generation
      requires statusSent && lastHmdOk == hmdOk && (haveUniverse ==> helloSent)
      ensures var n, k := LastOf(3, client.accepted), LastOf(4, client.accepted);
              && n > 0
              && Proto.Decode(client.accepted[n - 1]) ==
                 Some(Proto.Blank(3).(trackerId := 0, status := if hmdOk then 1 else 0))
              && (haveUniverse ==>
                    && k > n
                    && DriverMessages.ReadUniverse(client.accepted[k - 1]) ==
                       Some((if universe.yaw == [0, 0, 0, 0x80] then [0, 0, 0, 0] else universe.yaw, universe.pos)))
    {
      hide LastOf, Proto.Decode, DriverMessages.ReadUniverse;
    }

    /** On a new connection the handshake starts over. The generation is loaded twice. */
    method NoteGeneration()
      requires Valid() && Synced()
      modifies this`generation, this`statusSent, this`helloSent
      modifies client`fd, client`generation, client`accepted, client`torn, client`announced
      ensures Valid() && Synced() && old(client.generation) <= generation <= client.generation
      ensures GetFlags() == Noted(old(GetFlags()), generation != old(generation))
      ensures statusSent == (old(statusSent) && generation == old(generation))
      ensures helloSent == (old(helloSent) && generation == old(generation))
      ensures Space() == old(Space())
      ensures client.fd == old(client.fd) || client.fd == null || fresh(client.fd)
    {
      hide StatusShown, UniverseShown, BridgeClient.Valid, BridgeClient.StreamSound;
      Interfere();
      if client.generation != generation {
        Interfere();
        generation, statusSent, helloSent := client.generation, false, false;
      }
    }

    /** The status if it is due, then the universe if it is due. */
    method Greet(input: FrameInput)
      requires Valid() && Synced() && input.Valid()
      modifies this`statusSent, this`lastHmdOk, this`helloSent
      modifies client, client.fd
      ensures Valid() && Synced()
      ensures client.fd == old(client.fd) || client.fd == null || fresh(client.fd)
      ensures AllSent(client.outcomes, |old(client.outcomes)|, |Greeting(Space(), old(GetFlags()), input)|) ==>
                statusSent && lastHmdOk == input.hmdOk && (haveUniverse ==> helloSent)
      ensures client.attempts == old(client.attempts) + Greeting(Space(), old(GetFlags()), input)
      ensures old(client.outcomes) <= client.outcomes
    {
      hide Provider.Synced, BridgeClient.Valid, BridgeClient.StreamSound, HmdStatus, UniversePayload, AllSent, Greeting;
      hide One;
      Interfere();
      ghost var flags := GetFlags();
      var statusDue := GreetStatus(input);
      GreetUniverse(input, statusDue);
      GreetingSum(Space(), flags, input, old(client.attempts), old(client.outcomes), statusSent, helloSent);
    }

    method GreetStatus(input: FrameInput) returns (due: bool)
      requires Valid() && Synced() && input.Valid()
      modifies this`statusSent, this`lastHmdOk
      modifies client`attempts, client`outcomes, client`accepted, client`torn, client.fd
      ensures Valid() && Synced(due) && due == (!old(statusSent) || input.hmdOk != old(lastHmdOk))
      ensures client.attempts == old(client.attempts) + One(due, HmdStatus(input.hmdOk))
      ensures client.outcomes == old(client.outcomes) + One(due, statusSent)
      ensures lastHmdOk == input.hmdOk && (!due ==> statusSent)
    {
      hide Provider.Synced, BridgeClient.Valid, BridgeClient.StreamSound, HmdStatus;
      hide Proto.Decode, Proto.Blank;
      due := !statusSent || input.hmdOk != lastHmdOk;
      if due {
        SendStatus(input);
      }
    }

    method GreetUniverse(input: FrameInput, statusDue: bool)
      requires Valid() && Synced(statusDue) && input.Valid()
      modifies this`helloSent
      modifies client, client.fd
      ensures Valid() && Synced()
      ensures client.fd == old(client.fd) || client.fd == null || fresh(client.fd)
      ensures var due := haveUniverse && (statusDue || !old(helloSent));
              && client.attempts == old(client.attempts) + One(due, UniversePayload(universe))
              && client.outcomes == old(client.outcomes) + One(due, helloSent)
              && (!due ==> helloSent == old(helloSent))
    {
      hide Provider.Synced, BridgeClient.Valid, BridgeClient.StreamSound, UniversePayload;
      Interfere(statusDue);
      Between(statusDue);
      if haveUniverse && (statusDue || !helloSent) {
        SendUniverse(input);
      }
    }

    /** `helloSent` matters only when it is set. */
    lemma Between(between: bool)
      requires Valid() && Synced(between)
      ensures Synced(true) && (helloSent || Synced())
      ensures !between ==> Synced()
    {
    }

    method SendStatus(input: FrameInput)
      requires Valid() && Synced() && input.Valid()
      modifies `statusSent, `lastHmdOk, client`attempts, client`outcomes, client`accepted, client`torn, client.fd
      ensures Valid() && Synced(true) && lastHmdOk == input.hmdOk
      ensures client.attempts == old(client.attempts) + [HmdStatus(input.hmdOk)]
      ensures client.outcomes == old(client.outcomes) + [statusSent]
      ensures Proto.Decode(client.attempts[|old(client.attempts)|]) ==
              Some(Proto.Blank(3).(trackerId := 0, status := if input.hmdOk then 1 else 0))
    {
      hide Proto.Decode, Proto.Blank, LastOf;
      hide StatusShown, UniverseShown, KindOf, BridgeClient.Valid, Laws.StatusBytes;
      StatusRead(input.hmdOk);
      var payload := Codec.EncodeStatus(0, if input.hmdOk then Proto.OK else Proto.DISCONNECTED);
      Logged(client.accepted, payload, universe);
      statusSent := Send(payload);
      lastHmdOk := input.hmdOk;
    }

    method SendUniverse(input: FrameInput)
      requires Valid() && Synced(true) && input.Valid() && haveUniverse
      modifies `helloSent, client`attempts, client`outcomes, client`accepted, client`torn, client.fd
      ensures Valid() && Synced()
      ensures client.attempts == old(client.attempts) + [UniversePayload(universe)]
      ensures client.outcomes == old(client.outcomes) + [helloSent]
      ensures DriverMessages.ReadUniverse(client.attempts[|old(client.attempts)|]) ==
              Some((if universe.yaw == [0, 0, 0, 0x80] then [0, 0, 0, 0] else universe.yaw, universe.pos))
    {
      hide Proto.Decode, DriverMessages.ReadUniverse, LastOf;
      hide StatusShown, UniverseShown, KindOf, BridgeClient.Valid, Laws.UniverseBytes;
      UniverseRead(universe);
      var payload := Codec.EncodeUniverse(universe.yaw, universe.pos);
      Logged(client.accepted, payload, universe);
      helloSent := Send(payload);
    }

    /** At most every 10 ms. */
    method SendHmdPose(input: FrameInput)
      requires Valid() && Synced() && input.Valid()
      modifies `lastHmdSend, client, client.fd
      ensures Valid() && Synced()
      ensures client.attempts == old(client.attempts) + HmdPose(old(lastHmdSend), input)
      ensures old(client.outcomes) <= client.outcomes
      ensures lastHmdSend == if PoseDue(old(lastHmdSend), input) then input.now else old(lastHmdSend)
      ensures if input.now - old(lastHmdSend) < 10 * MILLISECOND
              then client.attempts == old(client.attempts) && lastHmdSend == old(lastHmdSend)
              else
                && |client.attempts| == |old(client.attempts)| + 1 && lastHmdSend == input.now
                && Proto.Decode(client.attempts[|old(client.attempts)|]) ==
                   Some(Proto.Blank(1).(trackerId := 0, q := input.q, pos := input.pos))
      ensures client.fd == old(client.fd) || client.fd == null || fresh(client.fd)
    {
      hide Proto.Decode, LastOf;
      hide StatusShown, UniverseShown, KindOf, BridgeClient.Valid, BridgeClient.StreamSound, Laws.PositionBytes;
      Interfere();
      if input.now - lastHmdSend >= 10 * MILLISECOND {
        lastHmdSend := input.now;
        PositionRead(input.q, input.pos);
        var payload := Codec.EncodePosition(0, input.q, input.pos);
        Logged(client.accepted, payload, universe);
        var _ := Send(payload);
      }
      Interfere();
    }
  }

  // Runs of frames.

  /** How many of the payloads are of this kind. */
  function Count(kind: int32, log: seq<bytes>): nat {
    if log == [] then 0 else Count(kind, log[..|log| - 1]) + if KindOf(log[|log| - 1]) == kind then 1 else 0
  }

  lemma {:induction false} CountAppend(kind: int32, a: seq<bytes>, b: seq<bytes>)
    ensures Count(kind, a + b) == Count(kind, a) + Count(kind, b)
    decreases |b|
  {
    hide KindOf;
    if b == [] {
      assert a + b == a;
    } else {
      var n := |b| - 1;
      assert (a + b)[..|a| + n] == a + b[..n];
      CountAppend(kind, a, b[..n]);
    }
  }

  lemma CountIf(kind: int32, due: bool, payload: bytes)
    ensures Count(kind, One(due, payload)) == if due && KindOf(payload) == kind then 1 else 0
  {
    hide KindOf;
    assert [payload][..0] == [];
  }

  /** What a frame hands to the client, kind by kind: path_failed when it reports, a status on a new connection or a
      change, a universe with every status and every replacement, a pose every 10 ms. */
  lemma FrameCounts(s: PlaySpace, flags: Flags, restarted: bool, input: FrameInput, allowed: bool, noDefaultFile: bool)
    requires s.universe.Valid() && input.Valid()
    ensures var sends := FrameSends(s, Noted(flags, restarted), input, allowed, noDefaultFile);
            var status := restarted || !flags.statusSent || input.hmdOk != flags.lastHmdOk;
            && Count(5, sends) == (if Reporting(s, input) then 1 else 0)
            && Count(3, sends) == (if status then 1 else 0)
            && Count(4, sends) == (if NextSpace(s, input, allowed).known
                                      && (status || !flags.helloSent || Replaced(s, input, allowed)) then 1 else 0)
            && Count(1, sends) == (if input.now - flags.lastHmdSend >= 10 * MILLISECOND then 1 else 0)
            && |sends| == Count(5, sends) + Count(3, sends) + Count(4, sends) + Count(1, sends)
  {
    hide KindOf, Count, Reporting, NextSpace, Replaced, HmdStatus, UniversePayload;
    hide Laws.PathFailedBytes, Laws.PositionBytes;
    var next, noted := NextSpace(s, input, allowed), Noted(flags, restarted);
    var f := noted.(helloSent := noted.helloSent && !Replaced(s, input, allowed));
    var code: int32 := if noDefaultFile then 1 else 2;
    Kinds(input.hmdOk, next.universe, code, input.q, input.pos);
    forall kind: int32 {
      CountFour(kind, Reporting(s, input), Laws.PathFailedBytes(code), StatusDue(f, input), HmdStatus(input.hmdOk),
                UniverseDue(next, f, input), UniversePayload(next.universe),
                PoseDue(flags.lastHmdSend, input), Laws.PositionBytes(0, input.q, input.pos));
    }
  }

  function KindsOf(log: seq<bytes>): seq<int32> {
    seq(|log|, i requires 0 <= i < |log| => KindOf(log[i]))
  }

  /** And in this order. */
  lemma FrameOrder(s: PlaySpace, flags: Flags, restarted: bool, input: FrameInput, allowed: bool, noDefaultFile: bool)
    requires s.universe.Valid() && input.Valid()
    ensures var status := restarted || !flags.statusSent || input.hmdOk != flags.lastHmdOk;
            var universe := NextSpace(s, input, allowed).known
                            && (status || !flags.helloSent || Replaced(s, input, allowed));
            KindsOf(FrameSends(s, Noted(flags, restarted), input, allowed, noDefaultFile)) ==
            (if Reporting(s, input) then [5] else []) + (if status then [3] else []) + (if universe then [4] else [])
            + if input.now - flags.lastHmdSend >= 10 * MILLISECOND then [1] else []
  {
    hide KindOf, Reporting, NextSpace, Replaced, HmdStatus, UniversePayload, Laws.PathFailedBytes, Laws.PositionBytes;
    var next, noted := NextSpace(s, input, allowed), Noted(flags, restarted);
    var f := noted.(helloSent := noted.helloSent && !Replaced(s, input, allowed));
    var code: int32 := if noDefaultFile then 1 else 2;
    Kinds(input.hmdOk, next.universe, code, input.q, input.pos);
    KindsOfFour(Reporting(s, input), Laws.PathFailedBytes(code), StatusDue(f, input), HmdStatus(input.hmdOk),
                UniverseDue(next, f, input), UniversePayload(next.universe),
                PoseDue(flags.lastHmdSend, input), Laws.PositionBytes(0, input.q, input.pos));
  }

  lemma KindsOfFour(a: bool, x: bytes, b: bool, y: bytes, c: bool, z: bytes, d: bool, w: bytes)
    ensures KindsOf(One(a, x) + (One(b, y) + One(c, z)) + One(d, w)) ==
            (if a then [KindOf(x)] else []) + (if b then [KindOf(y)] else []) + (if c then [KindOf(z)] else [])
            + if d then [KindOf(w)] else []
  {
    hide KindOf;
  }

  lemma CountFour(kind: int32, a: bool, x: bytes, b: bool, y: bytes, c: bool, z: bytes, d: bool, w: bytes)
    ensures Count(kind, One(a, x) + (One(b, y) + One(c, z)) + One(d, w)) ==
            (if a && KindOf(x) == kind then 1 else 0) + (if b && KindOf(y) == kind then 1 else 0)
            + (if c && KindOf(z) == kind then 1 else 0) + if d && KindOf(w) == kind then 1 else 0
  {
    hide KindOf, Count, One;
    CountAppend(kind, One(a, x) + (One(b, y) + One(c, z)), One(d, w));
    CountAppend(kind, One(a, x), One(b, y) + One(c, z));
    CountAppend(kind, One(b, y), One(c, z));
    CountIf(kind, a, x);
    CountIf(kind, b, y);
    CountIf(kind, c, z);
    CountIf(kind, d, w);
  }

  /** On a connection that has had no status yet, path_failed goes out before it exactly when the frame reports. */
  lemma PathFailedFirst(s: PlaySpace, flags: Flags, input: FrameInput, allowed: bool, noDefaultFile: bool)
    requires s.universe.Valid() && input.Valid() && !flags.statusSent
    ensures var sends := FrameSends(s, flags, input, allowed, noDefaultFile);
            if Reporting(s, input)
            then |sends| >= 2 && KindOf(sends[0]) == Proto.PATH_FAILED && KindOf(sends[1]) == Proto.TRACKER_STATUS
            else |sends| >= 1 && KindOf(sends[0]) == Proto.TRACKER_STATUS
  {
    hide KindOf, Reporting, NextSpace, Replaced, HmdPose, HmdStatus, UniversePayload, Laws.PathFailedBytes;
    hide Laws.PositionBytes;
    Kinds(input.hmdOk, s.universe, if noDefaultFile then 1 else 2, input.q, input.pos);
  }

  lemma {:induction false} SpaceOneMore(s: PlaySpace, inputs: seq<FrameInput>, input: FrameInput, allowed: bool)
    ensures SpaceAfter(s, inputs + [input], allowed) == NextSpace(SpaceAfter(s, inputs, allowed), input, allowed)
    ensures Reports(s, inputs + [input], allowed) ==
            Reports(s, inputs, allowed) + if Reporting(SpaceAfter(s, inputs, allowed), input) then 1 else 0
    decreases |inputs|
  {
    hide NextSpace, Fails;
    if inputs == [] {
      assert inputs + [input] == [input] && [input][1..] == [];
    } else {
      assert (inputs + [input])[1..] == inputs[1..] + [input];
      SpaceOneMore(NextSpace(s, inputs[0], allowed), inputs[1..], input, allowed);
    }
  }

  lemma ThirtySearches(s: PlaySpace, e: PlaySpace, inputs: seq<FrameInput>, allowed: bool)
    requires e == SpaceAfter(s, inputs, allowed)
    ensures !allowed && !s.fallback && NoLookups(inputs) ==>
              Reports(s, inputs, allowed) == (e.failures + 29) / 30 - (s.failures + 29) / 30
  {
    hide NextSpace, Fails;
    if !allowed && !s.fallback && NoLookups(inputs) {
      OneReportInThirty(s, inputs);
    }
  }

  predicate NoLookups(inputs: seq<FrameInput>) {
    forall k :: 0 <= k < |inputs| ==> inputs[k].lookup.None?
  }

  /** A frame after anything has happened to the connection: what it does to the play space, and its reports. */
  method AnyFrame(p: Provider, input: FrameInput) returns (ran: bool)
    requires p.Valid() && p.Synced() && input.Valid()
    modifies p, p.client, p.client.fd
    ensures p.Valid() && p.Synced()
    ensures p.client.fd == old(p.client.fd) || p.client.fd == null || fresh(p.client.fd)
    ensures p.Space() == if ran then NextSpace(old(p.Space()), input, p.fallbackAllowed) else old(p.Space())
    ensures Count(5, p.client.attempts) ==
            Count(5, old(p.client.attempts)) + if ran && Reporting(old(p.Space()), input) then 1 else 0
  {
    hide Provider.Synced, BridgeClient.Valid, BridgeClient.StreamSound, Provider.Space;
    hide FrameSends, FrameGreeting, PathFailed, AllSent, NextSpace, Reporting, KindOf, LastOf, Count, Noted;
    hide Proto.Decode, DriverMessages.ReadUniverse;
    p.Interfere();
    ghost var space, flags, generation, before := p.Space(), p.GetFlags(), p.generation, p.client.attempts;
    ran := p.RunFrame(input);
    if ran {
      var f := Noted(flags, p.generation != generation);
      FrameCounts(space, flags, p.generation != generation, input, p.fallbackAllowed, p.noDefaultFile);
      CountAppend(5, before, FrameSends(space, f, input, p.fallbackAllowed, p.noDefaultFile));
    }
  }

  /** Any run of frames, with anything happening to the connection in between. `seen` are the inputs of the frames
      that found a connection: only these move the play space, and path_failed is handed to the client as often as
      Reports says: without lookups and fallback, once for every thirty failed searches. */
  method RunFrames(p: Provider, inputs: seq<FrameInput>) returns (ghost seen: seq<FrameInput>)
    requires p.Valid() && p.Synced() && forall k :: 0 <= k < |inputs| ==> inputs[k].Valid()
    modifies p, p.client, p.client.fd
    ensures p.Valid() && p.Synced()
    ensures p.Space() == SpaceAfter(old(p.Space()), seen, p.fallbackAllowed)
    ensures Count(Proto.PATH_FAILED, p.client.attempts) ==
            Count(Proto.PATH_FAILED, old(p.client.attempts)) + Reports(old(p.Space()), seen, p.fallbackAllowed)
    ensures !p.fallbackAllowed && !old(p.usingFallback) && NoLookups(inputs) ==>
              Count(Proto.PATH_FAILED, p.client.attempts) ==
              Count(Proto.PATH_FAILED, old(p.client.attempts)) + (p.failures + 29) / 30 - (old(p.failures) + 29) / 30
    ensures !old(p.haveUniverse) && p.haveUniverse && !p.usingFallback ==>
              LastFound(old(p.Space()), seen, p.fallbackAllowed, None) == Some(p.universe)
  {
    hide Provider.Synced, BridgeClient.Valid, BridgeClient.StreamSound, Provider.Space;
    hide NextSpace, Reporting, Count, LastFound, SpaceAfter, Reports;
    seen := [];
    NoFrameYet(p.Space(), p.fallbackAllowed);
    for i := 0 to |inputs|
      invariant p.Valid() && p.Synced()
      invariant p.client.fd == old(p.client.fd) || p.client.fd == null || fresh(p.client.fd)
      invariant p.Space() == SpaceAfter(old(p.Space()), seen, p.fallbackAllowed)
      invariant NoLookups(inputs) ==> NoLookups(seen)
      invariant Count(Proto.PATH_FAILED, p.client.attempts) ==
                Count(Proto.PATH_FAILED, old(p.client.attempts)) + Reports(old(p.Space()), seen, p.fallbackAllowed)
    {
      ghost var space := p.Space();
      var ran := AnyFrame(p, inputs[i]);
      if ran {
        SpaceOneMore(old(p.Space()), seen, inputs[i], p.fallbackAllowed);
        seen := seen + [inputs[i]];
      }
    }
    ThirtySearches(old(p.Space()), p.Space(), seen, p.fallbackAllowed);
    FoundInRun(old(p.Space()), p.Space(), seen, p.fallbackAllowed);
  }

  lemma NoFrameYet(s: PlaySpace, allowed: bool)
    ensures SpaceAfter(s, [], allowed) == s && Reports(s, [], allowed) == 0
  {
  }

  lemma FoundInRun(s: PlaySpace, e: PlaySpace, inputs: seq<FrameInput>, allowed: bool)
    requires e == SpaceAfter(s, inputs, allowed)
    ensures !s.known && e.known && !e.fallback ==> LastFound(s, inputs, allowed, None) == Some(e.universe)
  {
    hide NextSpace, Searches;
    if !s.known {
      KnownIsLastFound(s, inputs, allowed, None);
    }
  }
}
