/** A tracker's status over time: messages from the app, the 3 s timeout, and which data counts as fresh. */
module Tracker {
  import opened Clock
  import opened Wire
  import opened Pose
  import opened Plane
  import Proto

  const TIMEOUT := 3 * SECOND
  const FRESH := 500 * MILLISECOND

  datatype PoseFlags = PoseFlags(connected: bool, valid: bool)

  /** What the tracker submits to SteamVR for a status. */
  function FlagsOf(status: int): PoseFlags {
    PoseFlags(status != Proto.DISCONNECTED, status == Proto.OK)
  }

  /** A message whose doubles and floats have been read as reals. */
  datatype Position = Position(pos: seq<real>, q: seq<real>)

  class Tracker {
    const role: int
    var active: bool
    var status: int
    var timedOut: bool
    var position: Vec
    var rotation: Quat
    var universe: Option<Universe>   // the transform attached to the pose, if one has been
    var flags: PoseFlags
    var lastMessage: int
    ghost var lastReal: int          // time of the last message of the app or activation

    /** An OK tracker has a real message behind its time stamp; a timed-out one is disconnected. */
    ghost predicate Valid()
      reads this
    {
      && (status == Proto.OK ==> lastMessage == lastReal)
      && (timedOut ==> status == Proto.DISCONNECTED)
      && flags == FlagsOf(status)
    }

    constructor (role: int, now: int)
      ensures Valid() && !active && status == Proto.OK && lastReal == now
    {
      this.role := role;
      active, status, timedOut := false, Proto.OK, false;
      position, rotation, universe := Vec(0.0, 0.0, 0.0), Quat(1.0, 0.0, 0.0, 0.0), None;
      flags := PoseFlags(true, true);
      lastMessage, lastReal := now, now;
    }

    method Activate(now: int)
      requires Valid()
      modifies `active, `lastMessage, `lastReal
      ensures Valid() && active && lastReal == lastMessage == now
    {
      active, lastMessage, lastReal := true, now, now;
    }

    method Deactivate()
      requires Valid()
      modifies `active
      ensures Valid() && !active
    {
      active := false;
    }

    /** A position applies what it carries; it restores OK after a timeout, and only then. */
    method OnPosition(m: Position, u: Option<Universe>, now: int)
      requires Valid()
      modifies `position, `rotation, `universe, `status, `timedOut, `flags, `lastMessage, `lastReal
      ensures Valid()
      ensures !active ==> status == old(status) && timedOut == old(timedOut) && lastMessage == old(lastMessage)
                          && position == old(position) && rotation == old(rotation) && universe == old(universe)
                          && flags == old(flags) && lastReal == old(lastReal)
      ensures active ==>
                && position == (if |m.pos| == 3 then Vec(m.pos[0], m.pos[1], m.pos[2]) else old(position))
                && rotation == (if |m.q| == 4 then Quat(m.q[0], m.q[1], m.q[2], m.q[3]) else old(rotation))
                && universe == (if u.Some? then u else old(universe))
                && status == (if old(timedOut) then Proto.OK else old(status))
                && !timedOut && lastMessage == lastReal == now
                && flags.connected == (status != 0) && flags.valid == (status == 1)
    {
      if !active {
        return;
      }
      if |m.pos| == 3 {
        position := Vec(m.pos[0], m.pos[1], m.pos[2]);
      }
      if |m.q| == 4 {
        rotation := Quat(m.q[0], m.q[1], m.q[2], m.q[3]);
      }
      if timedOut {
        timedOut := false;
        status := Proto.OK;
      }
      if u.Some? {
        universe := u;
      }
      Submit(now);
      lastReal := now;
    }

    method OnStatus(newStatus: int, now: int)
      requires Valid()
      modifies `status, `timedOut, `flags, `lastMessage, `lastReal
      ensures Valid()
      ensures if active then status == newStatus && !timedOut && lastMessage == lastReal == now
              else status == old(status) && timedOut == old(timedOut) && lastMessage == old(lastMessage)
                   && lastReal == old(lastReal) && flags == old(flags)
      // only a disconnected tracker is not connected, and only an OK one has a valid pose
      ensures active ==> flags.connected == (newStatus != 0) && flags.valid == (newStatus == 1)
    {
      if !active {
        return;
      }
      status, timedOut := newStatus, false;
      Submit(now);
      lastReal := now;
    }

    /** Three seconds of silence disconnect the tracker. Refreshing the time stamp does not make it fresh. */
    method CheckTimeout(now: int)
      requires Valid()
      modifies `status, `timedOut, `flags, `lastMessage
      ensures Valid()
      ensures var fires := old(active) && now - old(lastMessage) >= 3 * SECOND;
              && status == (if fires then 0 else old(status))
              && timedOut == (fires || old(timedOut))
              && lastMessage == (if fires then now else old(lastMessage))
              && flags == (if fires then PoseFlags(false, false) else old(flags))
    {
      if !active || now - lastMessage < TIMEOUT {
        return;
      }
      status, timedOut := Proto.DISCONNECTED, true;
      Submit(now);
    }

    method Submit(now: int)
      modifies `flags, `lastMessage
      ensures flags == FlagsOf(status) && lastMessage == now
    {
      flags := FlagsOf(status);
      lastMessage := now;
    }

    /** The floor direction this tracker faces, if its pose is fresh. */
    function Facing(hypot: (real, real) -> real, now: int): Option<(real, real)>
      reads this
    {
      if active && status == Proto.OK && now - lastMessage <= FRESH
      then var a := FloorAxis(rotation); Level(a.0, a.1, hypot(a.0, a.1))
      else None
    }

    /** A direction only ever comes from what the app sent at most 500 ms ago. */
    method FloorForward(hypot: (real, real) -> real, now: int) returns (f: Option<(real, real)>)
      requires Valid()
      ensures f == Facing(hypot, now)
      ensures f.Some? ==> active && status == 1 && now - lastReal <= 500 * MILLISECOND
      // the forward vector from above, made a unit vector, unless it is almost vertical
      ensures var a := FloorAxis(rotation);
              var len := hypot(a.0, a.1);
              && (f.Some? <==> active && status == 1 && now - lastMessage <= 500 * MILLISECOND && len >= 0.3)
              && (f.Some? ==> f.value.0 * len == a.0 && f.value.1 * len == a.1)
      ensures IsHypot(hypot) && f.Some? ==> UnitPair(f.value)
    {
      if !active || status != Proto.OK || now - lastMessage > FRESH {
        return None;
      }
      var x, z := FloorAxis(rotation).0, FloorAxis(rotation).1;
      var len := hypot(x, z);
      LevelUnitIf(hypot, x, z);
      if len < 0.3 {
        return None;
      }
      f := Some((x / len, z / len));
      Quotient(x, len, x / len);
      Quotient(z, len, z / len);
    }
  }

  lemma LevelUnitIf(hypot: (real, real) -> real, x: real, z: real)
    ensures IsHypot(hypot) && Level(x, z, hypot(x, z)).Some? ==> UnitPair(Level(x, z, hypot(x, z)).value)
  {
    if IsHypot(hypot) {
      LevelIsUnit(x, z, hypot(x, z));
    }
  }

  // Whole runs, on the part of the state that decides the status.

  datatype Event = PositionAt(now: int) | StatusAt(status: int, now: int) | CheckAt(now: int)

  datatype Standing = Standing(status: int, timedOut: bool, lastMessage: int, lastReal: int)

  /** One event of an activated tracker, as the three methods above have it. */
  function Next(s: Standing, e: Event): Standing {
    match e
    case PositionAt(now) => Standing(if s.timedOut then Proto.OK else s.status, false, now, now)
    case StatusAt(status, now) => Standing(status, false, now, now)
    case CheckAt(now) =>
      if now - s.lastMessage < TIMEOUT then s else Standing(Proto.DISCONNECTED, true, now, s.lastReal)
  }

  function AfterEvents(s: Standing, events: seq<Event>): Standing
  {
    if events == [] then s else Next(AfterEvents(s, events[..|events| - 1]), events[|events| - 1])
  }

  /** The methods run an event exactly as Next does. */
  method Handle(t: Tracker, e: Event, m: Position, u: Option<Universe>)
    requires t.Valid() && t.active
    modifies t
    ensures t.Valid() && t.active
    ensures Standing(t.status, t.timedOut, t.lastMessage, t.lastReal) ==
            Next(old(Standing(t.status, t.timedOut, t.lastMessage, t.lastReal)), e)
  {
    match e
    case PositionAt(now) => t.OnPosition(m, u, now);
    case StatusAt(status, now) => t.OnStatus(status, now);
    case CheckAt(now) => t.CheckTimeout(now);
  }

  predicate Sound(s: Standing) {
    (s.status == Proto.OK ==> s.lastMessage == s.lastReal) && (s.timedOut ==> s.status == Proto.DISCONNECTED)
  }

  lemma {:induction false} SoundAlways(s: Standing, events: seq<Event>)
    requires Sound(s)
    ensures Sound(AfterEvents(s, events))
    decreases |events|
  {
    if events != [] {
      SoundAlways(s, events[..|events| - 1]);
    }
  }

  /** A timeout has struck since the last status message or the start. */
  function TimedOutSince(s: Standing, events: seq<Event>): bool
  {
    if events == [] then s.timedOut
    else
      var n := |events| - 1;
      var before := AfterEvents(s, events[..n]);
      match events[n]
      case PositionAt(_) => TimedOutSince(s, events[..n])
      case StatusAt(_, _) => false
      case CheckAt(now) => TimedOutSince(s, events[..n]) || now - before.lastMessage >= TIMEOUT
  }

  /** The status the app last reported, or the one at the start. */
  function LastReported(s: Standing, events: seq<Event>): int
  {
    if events == [] then s.status
    else
      var n := |events| - 1;
      if events[n].StatusAt? then events[n].status else LastReported(s, events[..n])
  }

  /** Over every run: while no timeout has struck since the app's last status, that status stands, however
      many positions arrive; once one has, positions make the tracker OK and silence disconnects it,
      whatever the app had reported. */
  lemma {:induction false} StatusFollows(s: Standing, events: seq<Event>)
    requires Sound(s)
    ensures var e := AfterEvents(s, events);
            && (!TimedOutSince(s, events) ==> e.status == LastReported(s, events) && !e.timedOut)
            && (TimedOutSince(s, events) ==> e.status == if e.timedOut then Proto.DISCONNECTED else Proto.OK)
    decreases |events|
  {
    if events != [] {
      var n := |events| - 1;
      StatusFollows(s, events[..n]);
      SoundAlways(s, events[..n]);
    }
  }

  /** A reported fault does not survive a timeout: error, three seconds of silence, one position, and the tracker is
      OK. */
  lemma FaultForgotten(s: Standing, t: int)
    ensures var events := [StatusAt(3, t), CheckAt(t + TIMEOUT), PositionAt(t + TIMEOUT + MILLISECOND)];
            AfterEvents(s, events).status == Proto.OK && LastReported(s, events) == 3
  {
    var events := [StatusAt(3, t), CheckAt(t + TIMEOUT), PositionAt(t + TIMEOUT + MILLISECOND)];
    assert events[..2] == [StatusAt(3, t), CheckAt(t + TIMEOUT)];
    assert events[..2][..1] == [StatusAt(3, t)];
    assert events[..2][..1][..0] == [];
    assert AfterEvents(s, events[..2][..1]) == Standing(3, false, t, t);
    assert LastReported(s, events[..2][..1]) == 3;
    assert AfterEvents(s, events[..2]).timedOut;
  }
}
