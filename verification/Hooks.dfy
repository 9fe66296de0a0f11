/** Walk-in-place injection into a hand controller's stick: the recorded real values, the override, and the
    list of stick components whose hand is not known yet. Stick values are reals; each call is one step. */
module Hooks {
  import opened Wire
  import opened Plane

  type Handle = nat // 0 is no handle

  datatype Stick = Stick(
    owner: nat, container: nat,
    x: Handle, y: Handle, touch: Handle,
    realX: real, realY: real, realTouch: bool)
  {
    predicate Complete() {
      owner != 0 && x != 0 && y != 0
    }

    predicate Has(h: Handle) {
      h != 0 && (h == x || h == y)
    }
  }

  const NO_STICK := Stick(0, 0, 0, 0, 0, 0.0, 0.0, false)

  /** No two captured components share a handle. */
  predicate Distinct(sticks: seq<Stick>)
    requires |sticks| == 2
  {
    var a, b := sticks[0], sticks[1];
    && (a.x != 0 ==> a.x != a.y && a.x != b.x && a.x != b.y)
    && (a.y != 0 ==> a.y != b.x && a.y != b.y)
    && (b.x != 0 ==> b.x != b.y)
    && (a.touch != 0 ==> a.touch != b.touch)
  }

  /** What the hooks write to the host. */
  datatype Call = Scalar(h: Handle, v: real) | Boolean(h: Handle, on: bool)

  /** Which stick is overridden, and the vector injected into it. */
  datatype Injected = Off | On(hand: nat, x: real, y: real)

  /** The steering rule: a deflected real stick sets the direction, a centred one leaves it to `dir`. */
  function Injection(s: Stick, len: real, speed: real, dirX: real, dirY: real): (real, real) {
    if len > 0.15 then (s.realX / len * speed, s.realY / len * speed) else (dirX * speed, dirY * speed)
  }

  predicate Engages(sticks: seq<Stick>, hand: int, speed: real)
    requires |sticks| == 2
  {
    speed > 0.0 && 0 <= hand <= 1 && sticks[hand].Complete()
  }

  function StickCalls(s: Stick, x: real, y: real, touch: bool): seq<Call> {
    [Scalar(s.x, x), Scalar(s.y, y)] + if s.touch != 0 then [Boolean(s.touch, touch)] else []
  }

  /** The override after Drive, whatever it was before. */
  function Driven(sticks: seq<Stick>, hypot: (real, real) -> real, hand: int, speed: real, dirX: real,
                  dirY: real): (r: Injected)
    requires |sticks| == 2
    ensures Fits(r)
  {
    if !Engages(sticks, hand, speed) then Off
    else
      var s := sticks[hand];
      var v := Injection(s, hypot(s.realX, s.realY), speed, dirX, dirY);
      On(hand, v.0, v.1)
  }

  /** Where the injected vector points: a deflected stick's vector is stretched to the speed; a centred stick leaves the
      direction to the caller. */
  lemma DrivenAims(sticks: seq<Stick>, hypot: (real, real) -> real, hand: int, speed: real, dirX: real, dirY: real)
    requires |sticks| == 2
    ensures speed <= 0.0 || hand < 0 || hand > 1 || sticks[hand].owner == 0 || sticks[hand].x == 0
            || sticks[hand].y == 0 ==>
              Driven(sticks, hypot, hand, speed, dirX, dirY) == Off
    ensures speed > 0.0 && 0 <= hand <= 1 && sticks[hand].owner != 0 && sticks[hand].x != 0 && sticks[hand].y != 0 ==>
              var s, o := sticks[hand], Driven(sticks, hypot, hand, speed, dirX, dirY);
              var len := hypot(s.realX, s.realY);
              && o.On? && o.hand == hand
              && (len > 0.15 ==> o.x * len == s.realX * speed && o.y * len == s.realY * speed)
              && (len <= 0.15 && UnitVector(dirX, dirY) ==>
                    o.x * dirY == o.y * dirX && o.x * dirX + o.y * dirY == speed)
  {
    var o := Driven(sticks, hypot, hand, speed, dirX, dirY);
    if o.On? {
      var s := sticks[hand];
      var len := hypot(s.realX, s.realY);
      if len > 0.15 {
        Stretched(s.realX, len, speed, s.realX / len, o.x);
        Stretched(s.realY, len, speed, s.realY / len, o.y);
      } else if UnitVector(dirX, dirY) {
        Along(dirX, dirY, speed, o.x, o.y);
      }
    }
  }

  predicate Fits(i: Injected) {
    i.On? ==> i.hand < 2
  }

  /** The override ends, or moves to the other hand. */
  predicate Releases(before: Injected, after: Injected) {
    before.On? && (after.Off? || after.hand != before.hand)
  }

  /** The writes that lead from one override to the next: the old stick is released before another is driven. */
  function Writes(sticks: seq<Stick>, before: Injected, after: Injected): seq<Call>
    requires |sticks| == 2 && Fits(before) && Fits(after)
  {
    if before == after then []
    else
      (if Releases(before, after)
       then var s := sticks[before.hand]; StickCalls(s, s.realX, s.realY, s.realTouch)
       else [])
      + (if after.On? then StickCalls(sticks[after.hand], after.x, after.y, true) else [])
  }

  function WithScalar(s: Stick, h: Handle, v: real): Stick {
    if !s.Has(h) then s else if h == s.x then s.(realX := v) else s.(realY := v)
  }

  function WithTouch(s: Stick, h: Handle, on: bool): Stick {
    if h != 0 && h == s.touch then s.(realTouch := on) else s
  }

  function RecordScalar(sticks: seq<Stick>, h: Handle, v: real): seq<Stick>
    requires |sticks| == 2
  {
    [WithScalar(sticks[0], h, v), WithScalar(sticks[1], h, v)]
  }

  function RecordTouch(sticks: seq<Stick>, h: Handle, on: bool): seq<Stick>
    requires |sticks| == 2
  {
    [WithTouch(sticks[0], h, on), WithTouch(sticks[1], h, on)]
  }

  // What the host shows.

  datatype Host = Host(scalars: map<Handle, real>, touches: map<Handle, bool>) {
    predicate Scalar(h: Handle, v: real) {
      h in scalars && scalars[h] == v
    }

    predicate Touch(h: Handle, on: bool) {
      h in touches && touches[h] == on
    }
  }

  /** The captured components updated or released since their capture. */
  datatype Told = Told(axes: set<Handle>, touches: set<Handle>)

  /** The host shows the stick's real values, as far as it has been told any. */
  predicate ShowsReal(host: Host, told: Told, s: Stick) {
    && (s.x in told.axes ==> host.Scalar(s.x, s.realX))
    && (s.y in told.axes ==> host.Scalar(s.y, s.realY))
    && (s.touch in told.touches ==> host.Touch(s.touch, s.realTouch))
  }

  predicate ShowsInjected(host: Host, s: Stick, x: real, y: real) {
    s.Complete() && host.Scalar(s.x, x) && host.Scalar(s.y, y) && (s.touch != 0 ==> host.Touch(s.touch, true))
  }

  predicate Shows(host: Host, told: Told, sticks: seq<Stick>, i: nat, now: Injected)
    requires |sticks| == 2 && i < 2
  {
    if now.On? && now.hand == i then ShowsInjected(host, sticks[i], now.x, now.y) else ShowsReal(host, told, sticks[i])
  }

  /** The promise: the injected vector on the overridden stick, the real values everywhere else. */
  predicate Coherent(sticks: seq<Stick>, now: Injected, host: Host, told: Told) {
    && |sticks| == 2 && Fits(now) && Distinct(sticks)
    && 0 !in told.axes && 0 !in told.touches
    && Shows(host, told, sticks, 0, now)
    && Shows(host, told, sticks, 1, now)
  }

  lemma CoherentBasics(sticks: seq<Stick>, now: Injected, host: Host, told: Told)
    requires Coherent(sticks, now, host, told)
    ensures |sticks| == 2 && Fits(now) && Distinct(sticks) && (now.On? ==> sticks[now.hand].Complete())
  {
  }

  lemma AtMostOneHas(sticks: seq<Stick>, h: Handle)
    requires |sticks| == 2 && Distinct(sticks)
    ensures !(sticks[0].Has(h) && sticks[1].Has(h))
    ensures !(h != 0 && sticks[0].touch == h && sticks[1].touch == h)
  {
  }

  predicate WithholdsScalar(sticks: seq<Stick>, now: Injected, h: Handle)
    requires |sticks| == 2 && Fits(now)
  {
    now.On? && sticks[now.hand].Has(h)
  }

  predicate WithholdsTouch(sticks: seq<Stick>, now: Injected, h: Handle)
    requires |sticks| == 2 && Fits(now)
  {
    now.On? && h != 0 && sticks[now.hand].touch == h
  }

  lemma ScalarKeeps(sticks: seq<Stick>, now: Injected, host: Host, told: Told, h: Handle, v: real)
    requires Coherent(sticks, now, host, told)
    ensures Coherent(RecordScalar(sticks, h, v), now,
                     if WithholdsScalar(sticks, now, h) then host else host.(scalars := host.scalars[h := v]),
                     ToldAxis(told, h, WithholdsScalar(sticks, now, h)))
  {
    AtMostOneHas(sticks, h);
  }

  lemma TouchKeeps(sticks: seq<Stick>, now: Injected, host: Host, told: Told, h: Handle, on: bool)
    requires Coherent(sticks, now, host, told)
    ensures Coherent(RecordTouch(sticks, h, on), now,
                     if WithholdsTouch(sticks, now, h) then host else host.(touches := host.touches[h := on]),
                     ToldTouch(told, h, WithholdsTouch(sticks, now, h)))
  {
    AtMostOneHas(sticks, h);
  }

  function WriteStick(host: Host, s: Stick, x: real, y: real, touch: bool): Host {
    Host(host.scalars[s.x := x][s.y := y], if s.touch != 0 then host.touches[s.touch := touch] else host.touches)
  }

  function TellStick(told: Told, s: Stick): Told {
    Told(told.axes + {s.x, s.y}, if s.touch != 0 then told.touches + {s.touch} else told.touches)
  }

  /** A stick that is released is told its real values. */
  function ToldBy(sticks: seq<Stick>, told: Told, before: Injected, after: Injected): Told
    requires |sticks| == 2 && Fits(before)
  {
    if Releases(before, after) then TellStick(told, sticks[before.hand]) else told
  }

  function ToldAxis(told: Told, h: Handle, withheld: bool): Told {
    if h == 0 || withheld then told else told.(axes := told.axes + {h})
  }

  function ToldTouch(told: Told, h: Handle, withheld: bool): Told {
    if h == 0 || withheld then told else told.(touches := told.touches + {h})
  }

  /** Releasing, or having nothing to release. */
  lemma Through(sticks: seq<Stick>, told: Told, before: Injected, after: Injected, written: seq<Call>)
    requires |sticks| == 2 && Fits(before) && after == Off
    ensures Writes(sticks, before, after) ==
            if before.Off? then [] else var s := sticks[before.hand]; StickCalls(s, s.realX, s.realY, s.realTouch)
    ensures forall t :: ToldBy(sticks, t, before, after) == if before.Off? then t else TellStick(t, sticks[before.hand])
    ensures written + [] == written
  {
    hide StickCalls, TellStick;
  }

  /** Going on to a stick after releasing the other one, if there was one. */
  lemma Via(sticks: seq<Stick>, told: Told, before: Injected, between: Injected, after: Injected, written: seq<Call>)
    requires |sticks| == 2 && Fits(before) && Fits(after) && after.On?
    requires between == if before.On? && before.hand != after.hand then Off else before
    ensures written + Writes(sticks, before, between)
                    + (if between == after then [] else StickCalls(sticks[after.hand], after.x, after.y, true)) ==
            written + Writes(sticks, before, after)
    ensures ToldBy(sticks, told, before, between) == ToldBy(sticks, told, before, after)
    ensures between == before ==> Writes(sticks, before, between) == [] && ToldBy(sticks, told, before, between) == told
    ensures written + [] == written
  {
    hide StickCalls, TellStick;
    var s := if before.On? then sticks[before.hand] else sticks[after.hand];
    var a := if between == before then [] else StickCalls(s, s.realX, s.realY, s.realTouch);
    var b := if between == after then [] else StickCalls(sticks[after.hand], after.x, after.y, true);
    assert Writes(sticks, before, between) == a && Writes(sticks, before, after) == a + b;
    assert written + a + b == written + (a + b);
  }

  lemma ReleaseKeeps(sticks: seq<Stick>, now: Injected, host: Host, told: Told)
    requires Coherent(sticks, now, host, told) && now.On?
    ensures var s := sticks[now.hand];
            Coherent(sticks, Off, WriteStick(host, s, s.realX, s.realY, s.realTouch), TellStick(told, s))
  {
  }

  lemma InjectKeeps(sticks: seq<Stick>, now: Injected, host: Host, told: Told, hand: nat, x: real, y: real)
    requires Coherent(sticks, now, host, told) && hand < 2 && sticks[hand].Complete()
    requires now.On? ==> now.hand == hand
    ensures Coherent(sticks, On(hand, x, y), WriteStick(host, sticks[hand], x, y, true), told)
  {
  }

  /** A component created by some driver: its interface object, its device, its handle, and which part of a stick it
      is. */
  datatype Pending = Pending(owner: nat, container: nat, handle: Handle, axis: char)

  const MAX_PENDING := 64
  const LEFT_HAND: int := 1
  const RIGHT_HAND: int := 2

  predicate EndsWith(s: string, suffix: string) {
    |s| >= |suffix| && s[|s| - |suffix|..] == suffix
  }

  /** 'x', 'y', 't', or ' ' for a component that is no part of a stick. */
  function AxisOf(name: string, boolean: bool): char {
    if boolean then
      if EndsWith(name, "/input/joystick/touch") || EndsWith(name, "/input/thumbstick/touch") then 't' else ' '
    else if EndsWith(name, "/input/joystick/y") || EndsWith(name, "/input/thumbstick/y") then 'y'
    else if EndsWith(name, "/input/joystick/x") || EndsWith(name, "/input/thumbstick/x") then 'x'
    else ' '
  }

  /** One more component on the list, at the cost of the oldest if the list is full. */
  function Remembered(pending: seq<Pending>, p: Pending): seq<Pending> {
    (if |pending| >= MAX_PENDING then pending[1..] else pending) + [p]
  }

  function HandOf(role: int): int {
    if role == LEFT_HAND then 0 else if role == RIGHT_HAND then 1 else -1
  }

  function Capture(s: Stick, p: Pending): Stick {
    var t := s.(owner := p.owner, container := p.container);
    if p.axis == 'x' then t.(x := p.handle) else if p.axis == 'y' then t.(y := p.handle) else t.(touch := p.handle)
  }

  function Assign(sticks: seq<Stick>, p: Pending, role: Option<int>): (r: seq<Stick>)
    requires |sticks| == 2
    ensures |r| == 2
  {
    if role.Some? && HandOf(role.value) >= 0
    then sticks[HandOf(role.value) := Capture(sticks[HandOf(role.value)], p)]
    else sticks
  }

  function AssignAll(sticks: seq<Stick>, todo: seq<Pending>, roles: seq<Option<int>>): (r: seq<Stick>)
    requires |sticks| == 2 && |todo| == |roles|
    ensures |r| == 2
  {
    if todo == [] then sticks
    else
      var n := |todo| - 1;
      Assign(AssignAll(sticks, todo[..n], roles[..n]), todo[n], roles[n])
  }

  /** The entries whose role could not be read. */
  function Kept(todo: seq<Pending>, roles: seq<Option<int>>): (k: seq<Pending>)
    requires |todo| == |roles|
    ensures |k| <= |todo|
  {
    if todo == [] then []
    else
      var n := |todo| - 1;
      Kept(todo[..n], roles[..n]) + if roles[n].None? then [todo[n]] else []
  }

  /** Some step of the assignment completed a stick. */
  predicate CompletedIn(sticks: seq<Stick>, todo: seq<Pending>, roles: seq<Option<int>>)
    requires |sticks| == 2 && |todo| == |roles|
  {
    todo != [] &&
    var n := |todo| - 1;
    var before := AssignAll(sticks, todo[..n], roles[..n]);
    var after := Assign(before, todo[n], roles[n]);
    || CompletedIn(sticks, todo[..n], roles[..n])
    || (!before[0].Complete() && after[0].Complete())
    || (!before[1].Complete() && after[1].Complete())
  }

  lemma NoneYet(sticks: seq<Stick>)
    requires |sticks| == 2
    ensures AssignAll(sticks, [], []) == sticks && Kept([], []) == [] && !CompletedIn(sticks, [], [])
  {
  }

  lemma OneMore(sticks: seq<Stick>, todo: seq<Pending>, roles: seq<Option<int>>, i: nat)
    requires |sticks| == 2 && i < |todo| == |roles|
    ensures var before := AssignAll(sticks, todo[..i], roles[..i]);
            var after := Assign(before, todo[i], roles[i]);
            && AssignAll(sticks, todo[..i + 1], roles[..i + 1]) == after
            && Kept(todo[..i + 1], roles[..i + 1]) ==
              Kept(todo[..i], roles[..i]) + (if roles[i].None? then [todo[i]] else [])
            && (CompletedIn(sticks, todo[..i + 1], roles[..i + 1]) <==>
                  || CompletedIn(sticks, todo[..i], roles[..i])
                  || (!before[0].Complete() && after[0].Complete())
                  || (!before[1].Complete() && after[1].Complete()))
  {
    assert todo[..i + 1][..i] == todo[..i] && roles[..i + 1][..i] == roles[..i];
  }

  /** The captures leave the overridden stick's handles alone and create no clash. */
  predicate CaptureSafe(before: seq<Stick>, after: seq<Stick>, now: Injected) {
    && |before| == 2 && |after| == 2 && Fits(now)
    && Distinct(after)
    && (now.On? ==>
          var b, a := before[now.hand], after[now.hand];
          a.Complete() && a.x == b.x && a.y == b.y && a.touch == b.touch)
  }

  /** Capturing does not touch the recorded values. */
  predicate SameReals(before: seq<Stick>, after: seq<Stick>)
    requires |before| == 2 && |after| == 2
  {
    forall i :: 0 <= i < 2 ==>
      before[i].realX == after[i].realX && before[i].realY == after[i].realY
      && before[i].realTouch == after[i].realTouch
  }

  /** A newly captured component has not been told anything yet: what it showed before is not recorded. */
  function StillTold(before: seq<Stick>, after: seq<Stick>, told: Told): Told
    requires |before| == 2 && |after| == 2
  {
    Told(
      set h | h in told.axes && forall i :: 0 <= i < 2 ==>
        (after[i].x == h ==> before[i].x == h) && (after[i].y == h ==> before[i].y == h),
      set h | h in told.touches && forall i :: 0 <= i < 2 ==> (after[i].touch == h ==> before[i].touch == h))
  }

  lemma {:induction false} AssignKeepsReals(sticks: seq<Stick>, todo: seq<Pending>, roles: seq<Option<int>>)
    requires |sticks| == 2 && |todo| == |roles|
    ensures SameReals(sticks, AssignAll(sticks, todo, roles))
    decreases |todo|
  {
    if todo != [] {
      AssignKeepsReals(sticks, todo[..|todo| - 1], roles[..|todo| - 1]);
    }
  }

  lemma CaptureKeeps(before: seq<Stick>, after: seq<Stick>, now: Injected, host: Host, told: Told)
    requires |before| == 2 && |after| == 2 && SameReals(before, after)
    ensures Coherent(before, now, host, told) && CaptureSafe(before, after, now) ==>
              Coherent(after, now, host, StillTold(before, after, told))
  {
  }

  class State {
    const hypot: (real, real) -> real
    const ownInterface: nat
    var sticks: seq<Stick>
    var overriding: int
    var writtenX: real
    var writtenY: real
    var pending: seq<Pending>
    var foreignComponents: nat
    var host: Host             // what the host shows
    ghost var calls: seq<Call> // everything written to the host, in order
    ghost var told: Told

    ghost predicate Valid()
      reads this
    {
      -1 <= overriding <= 1 && Coherent(sticks, Override(), host, told)
    }

    predicate Shaped()
      reads this
    {
      |sticks| == 2 && -1 <= overriding <= 1
    }

    function Override(): Injected
      reads this
    {
      if overriding < 0 then Off else On(overriding, writtenX, writtenY)
    }

    constructor (hypot: (real, real) -> real, ownInterface: nat)
      ensures Valid() && sticks == [NO_STICK, NO_STICK] && Override() == Off && pending == []
      ensures host == Host(map[], map[]) && told == Told({}, {}) && calls == []
    {
      this.hypot, this.ownInterface := hypot, ownInterface;
      sticks, overriding, writtenX, writtenY := [NO_STICK, NO_STICK], -1, 0.0, 0.0;
      pending, foreignComponents := [], 0;
      host, calls, told := Host(map[], map[]), [], Told({}, {});
    }

    method HostScalar(h: Handle, v: real)
      modifies `host, `calls
      ensures host == old(host).(scalars := old(host).scalars[h := v]) && calls == old(calls) + [Scalar(h, v)]
    {
      host, calls := host.(scalars := host.scalars[h := v]), calls + [Scalar(h, v)];
    }

    method HostTouch(h: Handle, on: bool)
      modifies `host, `calls
      ensures host == old(host).(touches := old(host).touches[h := on]) && calls == old(calls) + [Boolean(h, on)]
    {
      host, calls := host.(touches := host.touches[h := on]), calls + [Boolean(h, on)];
    }

    /** Another driver updates an axis: recorded if it belongs to a captured stick, and withheld while
        that stick is overridden. */
    method UpdateScalar(h: Handle, v: real) returns (withheld: bool)
      requires Valid()
      modifies `sticks, `host, `calls, `told
      ensures Valid() && Override() == old(Override())
      ensures sticks == RecordScalar(old(sticks), h, v)
      ensures withheld == WithholdsScalar(old(sticks), Override(), h)
      ensures calls == old(calls) + if withheld then [] else [Scalar(h, v)]
      ensures host == if withheld then old(host) else old(host).(scalars := old(host).scalars[h := v])
      ensures told == ToldAxis(old(told), h, withheld)
    {
      hide Coherent;
      CoherentBasics(sticks, Override(), host, told);
      ScalarKeeps(sticks, Override(), host, told, h, v);
      AtMostOneHas(sticks, h);
      for i := 0 to 2
        modifies `sticks
        invariant sticks == [if i > 0 then WithScalar(old(sticks)[0], h, v) else old(sticks)[0],
                             if i > 1 then WithScalar(old(sticks)[1], h, v) else old(sticks)[1]]
        invariant forall j :: 0 <= j < i && j == overriding ==> !old(sticks)[j].Has(h)
      {
        var isX, isY := h == sticks[i].x, h == sticks[i].y;
        if h == 0 || (!isX && !isY) {
          continue;
        }
        sticks := sticks[i := if isX then sticks[i].(realX := v) else sticks[i].(realY := v)];
        if overriding == i {
          assert old(sticks)[i].Has(h) && sticks == RecordScalar(old(sticks), h, v);
          return true;
        }
      }
      HostScalar(h, v);
      told := ToldAxis(told, h, false);
      withheld := false;
    }

    method UpdateTouch(h: Handle, on: bool) returns (withheld: bool)
      requires Valid()
      modifies `sticks, `host, `calls, `told
      ensures Valid() && Override() == old(Override())
      ensures sticks == RecordTouch(old(sticks), h, on)
      ensures withheld == WithholdsTouch(old(sticks), Override(), h)
      ensures calls == old(calls) + if withheld then [] else [Boolean(h, on)]
      ensures host == if withheld then old(host) else old(host).(touches := old(host).touches[h := on])
      ensures told == ToldTouch(old(told), h, withheld)
    {
      hide Coherent;
      CoherentBasics(sticks, Override(), host, told);
      TouchKeeps(sticks, Override(), host, told, h, on);
      AtMostOneHas(sticks, h);
      for i := 0 to 2
        modifies `sticks
        invariant sticks == [if i > 0 then WithTouch(old(sticks)[0], h, on) else old(sticks)[0],
                             if i > 1 then WithTouch(old(sticks)[1], h, on) else old(sticks)[1]]
        invariant forall j :: 0 <= j < i && j == overriding ==> h == 0 || old(sticks)[j].touch != h
      {
        if h == 0 || h != sticks[i].touch {
          continue;
        }
        sticks := sticks[i := sticks[i].(realTouch := on)];
        if overriding == i {
          assert old(sticks)[i].touch == h && sticks == RecordTouch(old(sticks), h, on);
          return true;
        }
      }
      HostTouch(h, on);
      told := ToldTouch(told, h, false);
      withheld := false;
    }

    /** Drives a stick, or releases the driven one when speed <= 0. */
    method Drive(hand: int, speed: real, dirX: real := 0.0, dirY: real := 1.0)
      requires Shaped()
      modifies `overriding, `writtenX, `writtenY, `host, `calls, `told
      ensures Shaped()
      ensures old(Valid()) ==> Valid()
      ensures Override() == Driven(sticks, hypot, hand, speed, dirX, dirY)
      ensures calls == old(calls) + Writes(sticks, old(Override()), Override())
      ensures told == ToldBy(sticks, old(told), old(Override()), Override())
      // where the injected vector points
      ensures speed <= 0.0 || hand < 0 || hand > 1 || sticks[hand].owner == 0 || sticks[hand].x == 0
              || sticks[hand].y == 0 ==>
                Override() == Off
      ensures speed > 0.0 && 0 <= hand <= 1 && sticks[hand].owner != 0 && sticks[hand].x != 0 && sticks[hand].y != 0 ==>
                var s, o := sticks[hand], Override();
                var len := hypot(s.realX, s.realY);
                && o.On? && o.hand == hand
                && (len > 0.15 ==> o.x * len == s.realX * speed && o.y * len == s.realY * speed)
                && (len <= 0.15 && UnitVector(dirX, dirY) ==>
                      o.x * dirY == o.y * dirX && o.x * dirX + o.y * dirY == speed)
      decreases speed > 0.0
    {
      hide Coherent, StickCalls, State.Valid, Writes, ToldBy, TellStick, UnitVector;
      DrivenAims(sticks, hypot, hand, speed, dirX, dirY);
      ghost var before, written := Override(), calls;
      var current := overriding;
      if speed <= 0.0 || hand < 0 || hand > 1 || !sticks[hand].Complete() {
        if current >= 0 {
          Release();
        }
        Through(sticks, told, before, Off, written);
        return;
      }
      if current >= 0 && current != hand {
        Drive(current, 0.0);
      }
      ghost var between := Override();
      var s := sticks[hand];
      var len := hypot(s.realX, s.realY);
      var x, y := dirX * speed, dirY * speed;
      if len > 0.15 {
        x, y := s.realX / len * speed, s.realY / len * speed;
      }
      Inject(hand, x, y);
      Via(sticks, old(told), before, between, Override(), written);
    }

    /** The last part of Drive: nothing to write if the stick already shows this vector. */
    method Inject(hand: nat, x: real, y: real)
      requires Shaped() && hand < 2 && sticks[hand].Complete()
      requires overriding < 0 || overriding == hand
      modifies `overriding, `writtenX, `writtenY, `host, `calls
      ensures Shaped()
      ensures old(Valid()) ==> Valid()
      ensures Override() == On(hand, x, y)
      ensures calls == old(calls)
                + if old(Override()) == On(hand, x, y) then [] else StickCalls(sticks[hand], x, y, true)
    {
      hide Coherent;
      if overriding == hand && x == writtenX && y == writtenY {
        return;
      }
      if Valid() {
        InjectKeeps(sticks, Override(), host, told, hand, x, y);
      }
      overriding, writtenX, writtenY := hand, x, y;
      WriteBoth(sticks[hand], x, y, true);
    }

    /** The two axes, and touch if it is captured. */
    method WriteBoth(s: Stick, x: real, y: real, touch: bool)
      modifies `host, `calls
      ensures host == WriteStick(old(host), s, x, y, touch)
      ensures calls == old(calls) + StickCalls(s, x, y, touch)
    {
      HostScalar(s.x, x);
      HostScalar(s.y, y);
      if s.touch != 0 {
        HostTouch(s.touch, touch);
      }
    }

    /** The first branch of Drive: updates pass through again, and the real values are written back. */
    method Release()
      requires Shaped() && overriding >= 0
      modifies `overriding, `host, `calls, `told
      ensures overriding == -1 && Shaped()
      ensures old(Valid()) ==> Valid()
      ensures calls == old(calls) + StickCalls(sticks[old(overriding)], sticks[old(overriding)].realX,
                                               sticks[old(overriding)].realY, sticks[old(overriding)].realTouch)
      ensures var s := sticks[old(overriding)]; host == WriteStick(old(host), s, s.realX, s.realY, s.realTouch)
      ensures told == TellStick(old(told), sticks[old(overriding)])
    {
      hide Coherent;
      if Valid() {
        ReleaseKeeps(sticks, Override(), host, told);
      }
      var s := sticks[overriding];
      overriding := -1;
      WriteBoth(s, s.realX, s.realY, s.realTouch);
      told := TellStick(told, s);
    }

    /** A driver has created an input component; its hand is not known yet. */
    method Remember(self: nat, container: nat, name: Option<string>, h: Handle, boolean: bool)
      modifies `pending, `foreignComponents
      ensures foreignComponents == old(foreignComponents) + if name.Some? && self != ownInterface then 1 else 0
      ensures pending ==
              if name.None? || AxisOf(name.value, boolean) == ' ' then old(pending)
              else Remembered(old(pending), Pending(self, container, h, AxisOf(name.value, boolean)))
    {
      if name.None? {
        return;
      }
      if self != ownInterface {
        foreignComponents := foreignComponents + 1;
      }
      var axis := ' ';
      if boolean {
        if EndsWith(name.value, "/input/joystick/touch") || EndsWith(name.value, "/input/thumbstick/touch") {
          axis := 't';
        }
      } else {
        if EndsWith(name.value, "/input/joystick/x") || EndsWith(name.value, "/input/thumbstick/x") {
          axis := 'x';
        }
        if EndsWith(name.value, "/input/joystick/y") || EndsWith(name.value, "/input/thumbstick/y") {
          axis := 'y';
        }
      }
      if axis == ' ' {
        return;
      }
      if |pending| >= MAX_PENDING {
        pending := pending[1..]; // the oldest may never be resolved
      }
      pending := pending + [Pending(self, container, h, axis)];
    }

    /** Gives remembered components to a hand once their device's role can be read. `roles` is what the
        property reads give; `arrived` is what other threads remember while the list is being worked on. */
    method ResolvePending(roles: seq<Option<int>>, arrived: seq<Pending>) returns (completed: bool)
      requires Shaped() && |roles| == |pending|
      modifies `sticks, `pending, `told
      ensures Shaped()
      ensures sticks == AssignAll(old(sticks), old(pending), roles)
      ensures pending == arrived + Kept(old(pending), roles)
      ensures completed <==> CompletedIn(old(sticks), old(pending), roles)
      ensures old(Valid()) && CaptureSafe(old(sticks), sticks, Override()) ==> Valid()
      ensures told == StillTold(old(sticks), sticks, old(told))
    {
      hide Coherent, CaptureSafe, AssignAll, Kept, CompletedIn;
      var todo := pending;
      pending := arrived;
      completed := false;
      var keep: seq<Pending> := [];
      NoneYet(sticks);
      for i := 0 to |todo|
        modifies `sticks
        invariant sticks == AssignAll(old(sticks), todo[..i], roles[..i])
        invariant keep == Kept(todo[..i], roles[..i])
        invariant completed <==> CompletedIn(old(sticks), todo[..i], roles[..i])
      {
        var p := todo[i];
        OneMore(old(sticks), todo, roles, i);
        if roles[i].None? {
          keep := keep + [p];
          continue;
        }
        var hand := HandOf(roles[i].value);
        if hand < 0 {
          continue;
        }
        var was := sticks[hand].Complete();
        sticks := sticks[hand := Capture(sticks[hand], p)];
        completed := completed || (!was && sticks[hand].Complete());
      }
      assert todo[..|todo|] == todo && roles[..|todo|] == roles;
      if keep != [] {
        pending := pending + keep;
      }
      AssignKeepsReals(old(sticks), todo, roles);
      CaptureKeeps(old(sticks), sticks, Override(), host, told);
      told := StillTold(old(sticks), sticks, told);
    }
  }
}
