/** Whole runs of the override, the length of what it injects, and what resolving the pending list conserves. */
module HookLaws {
  import opened Wire
  import opened Hooks
  import opened Plane

  /** One call of another driver's update, or of the frame thread's Drive. */
  datatype Event =
    | Axis(h: Handle, v: real)
    | Touched(h: Handle, on: bool)
    | Drove(hand: int, speed: real, dirX: real, dirY: real)

  function SticksAfter(sticks: seq<Stick>, events: seq<Event>): (r: seq<Stick>)
    requires |sticks| == 2
    ensures |r| == 2
  {
    if events == [] then sticks
    else
      var n := |events| - 1;
      var before := SticksAfter(sticks, events[..n]);
      match events[n]
      case Axis(h, v) => RecordScalar(before, h, v)
      case Touched(h, on) => RecordTouch(before, h, on)
      case Drove(_, _, _, _) => before
  }

  function OverrideAfter(sticks: seq<Stick>, now: Injected, hypot: (real, real) -> real,
                         events: seq<Event>): (r: Injected)
    requires |sticks| == 2 && Fits(now)
    ensures Fits(r)
  {
    if events == [] then now
    else
      var n := |events| - 1;
      match events[n]
      case Drove(hand, speed, dx, dy) => Driven(SticksAfter(sticks, events[..n]), hypot, hand, speed, dx, dy)
      case _ => OverrideAfter(sticks, now, hypot, events[..n])
  }

  /** The last value some driver sent for an axis, or `start`. */
  function LastAxis(events: seq<Event>, h: Handle, start: real): real {
    if events == [] then start
    else
      var n := |events| - 1;
      if events[n].Axis? && events[n].h == h then events[n].v else LastAxis(events[..n], h, start)
  }

  function LastTouched(events: seq<Event>, h: Handle, start: bool): bool {
    if events == [] then start
    else
      var n := |events| - 1;
      if events[n].Touched? && events[n].h == h then events[n].on else LastTouched(events[..n], h, start)
  }

  /** The stick with the last values sent to each of its captured components. */
  function Recorded(s: Stick, events: seq<Event>): Stick {
    s.(realX := if s.x == 0 then s.realX else LastAxis(events, s.x, s.realX),
       realY := if s.y == 0 then s.realY else LastAxis(events, s.y, s.realY),
       realTouch := if s.touch == 0 then s.realTouch else LastTouched(events, s.touch, s.realTouch))
  }

  /** A run changes no handle, and the recorded values are the last ones sent. */
  lemma {:induction false} RecordsLast(sticks: seq<Stick>, events: seq<Event>, i: nat)
    requires |sticks| == 2 && Distinct(sticks) && i < 2
    ensures SticksAfter(sticks, events)[i] == Recorded(sticks[i], events)
    decreases |events|
  {
    if events != [] {
      RecordsLast(sticks, events[..|events| - 1], i);
    }
  }

  /** What the host has been told since the capture. */
  function ToldAfter(sticks: seq<Stick>, now: Injected, hypot: (real, real) -> real, told: Told,
                     events: seq<Event>): Told
    requires |sticks| == 2 && Fits(now)
  {
    if events == [] then told
    else
      var n := |events| - 1;
      var t := ToldAfter(sticks, now, hypot, told, events[..n]);
      var s, o := SticksAfter(sticks, events[..n]), OverrideAfter(sticks, now, hypot, events[..n]);
      match events[n]
      case Axis(h, _) => ToldAxis(t, h, WithholdsScalar(s, o, h))
      case Touched(h, _) => ToldTouch(t, h, WithholdsTouch(s, o, h))
      case Drove(_, _, _, _) => ToldBy(s, t, o, OverrideAfter(sticks, now, hypot, events))
  }

  predicate IsOn(o: Injected, i: nat) {
    o.On? && o.hand == i
  }

  /** Some update of the run was for this component. */
  predicate UpdatedIn(events: seq<Event>, h: Handle, touch: bool) {
    exists k :: 0 <= k < |events| && !events[k].Drove? && events[k].Touched? == touch && events[k].h == h
  }

  /** Stick `i` was overridden at some point of the run. */
  predicate OverriddenIn(sticks: seq<Stick>, now: Injected, hypot: (real, real) -> real, events: seq<Event>, i: nat)
    requires |sticks| == 2 && Fits(now)
  {
    IsOn(OverrideAfter(sticks, now, hypot, events), i)
    || (events != [] && OverriddenIn(sticks, now, hypot, events[..|events| - 1], i))
  }

  predicate Tells(told: Told, s: Stick, all: bool, events: seq<Event>) {
    && (s.x != 0 && (all || UpdatedIn(events, s.x, false)) ==> s.x in told.axes)
    && (s.y != 0 && (all || UpdatedIn(events, s.y, false)) ==> s.y in told.axes)
    && (s.touch != 0 && (all || UpdatedIn(events, s.touch, true)) ==> s.touch in told.touches)
  }

  /** Whatever was withheld has been told by the time the override is over. */
  lemma {:induction false} TellsAll(
      sticks: seq<Stick>, now: Injected, hypot: (real, real) -> real, told: Told, events: seq<Event>, i: nat)
    requires |sticks| == 2 && Fits(now) && Distinct(sticks) && i < 2
    ensures IsOn(OverrideAfter(sticks, now, hypot, events), i) ||
            Tells(ToldAfter(sticks, now, hypot, told, events), sticks[i], OverriddenIn(sticks, now, hypot, events, i),
                  events)
    decreases |events|
  {
    hide Driven;
    if events != [] {
      var n := |events| - 1;
      TellsAll(sticks, now, hypot, told, events[..n], i);
      RecordsLast(sticks, events[..n], 0);
      RecordsLast(sticks, events[..n], 1);
      TellsOneMore(sticks[i], SticksAfter(sticks, events[..n]), i, OverrideAfter(sticks, now, hypot, events[..n]),
                   OverrideAfter(sticks, now, hypot, events), ToldAfter(sticks, now, hypot, told, events[..n]),
                   OverriddenIn(sticks, now, hypot, events[..n], i), events);
    }
  }

  lemma TellsOneMore(
      s: Stick, sticks: seq<Stick>, i: nat, before: Injected, after: Injected, told: Told, all: bool,
      events: seq<Event>)
    requires |sticks| == 2 && Fits(before) && i < 2 && events != []
    requires sticks[i].x == s.x && sticks[i].y == s.y && sticks[i].touch == s.touch && Distinct(sticks)
    requires IsOn(before, i) || Tells(told, s, all, events[..|events| - 1])
    requires IsOn(before, i) ==> all
    requires !events[|events| - 1].Drove? ==> after == before
    ensures var t := match events[|events| - 1]
                     case Axis(h, _) => ToldAxis(told, h, WithholdsScalar(sticks, before, h))
                     case Touched(h, _) => ToldTouch(told, h, WithholdsTouch(sticks, before, h))
                     case Drove(_, _, _, _) => ToldBy(sticks, told, before, after);
            IsOn(after, i) || Tells(t, s, all, events)
  {
    AtMostOneHas(sticks, s.x);
    AtMostOneHas(sticks, s.y);
    AtMostOneHas(sticks, s.touch);
    assert events == events[..|events| - 1] + [events[|events| - 1]];
  }

  /** The host shows the last values sent, of all captured components or of those updated in the run. */
  predicate ShowsLast(host: Host, s: Stick, all: bool, events: seq<Event>) {
    && (s.x != 0 && (all || UpdatedIn(events, s.x, false)) ==> host.Scalar(s.x, LastAxis(events, s.x, s.realX)))
    && (s.y != 0 && (all || UpdatedIn(events, s.y, false)) ==> host.Scalar(s.y, LastAxis(events, s.y, s.realY)))
    && (s.touch != 0 && (all || UpdatedIn(events, s.touch, true)) ==>
          host.Touch(s.touch, LastTouched(events, s.touch, s.realTouch)))
  }

  /** The promise over a run, in terms of its events alone: the overridden stick shows the injected vector and
      touch; every other stick shows the last value sent to each captured component that was updated in the run,
      and to all of them if it was overridden at any point. */
  predicate Promised(sticks: seq<Stick>, now: Injected, hypot: (real, real) -> real, events: seq<Event>, host: Host)
    requires |sticks| == 2 && Fits(now)
  {
    var o := OverrideAfter(sticks, now, hypot, events);
    forall i :: 0 <= i < 2 ==>
      if IsOn(o, i) then ShowsInjected(host, sticks[i], o.x, o.y)
      else ShowsLast(host, sticks[i], OverriddenIn(sticks, now, hypot, events, i), events)
  }

  lemma CoherentMeansPromised(
      sticks: seq<Stick>, now: Injected, hypot: (real, real) -> real, told: Told, events: seq<Event>, host: Host)
    requires |sticks| == 2 && Fits(now) && Distinct(sticks)
    requires Coherent(SticksAfter(sticks, events), OverrideAfter(sticks, now, hypot, events), host,
                      ToldAfter(sticks, now, hypot, told, events))
    ensures Promised(sticks, now, hypot, events, host)
  {
    hide OverrideAfter, ToldAfter, SticksAfter, LastAxis, LastTouched, OverriddenIn, UpdatedIn;
    RecordsLast(sticks, events, 0);
    RecordsLast(sticks, events, 1);
    TellsAll(sticks, now, hypot, told, events, 0);
    TellsAll(sticks, now, hypot, told, events, 1);
  }

  /** The promise spelled out, component by component. */
  lemma PromisedMeans(sticks: seq<Stick>, now: Injected, hypot: (real, real) -> real, events: seq<Event>, host: Host,
                      i: nat)
    requires |sticks| == 2 && Fits(now) && i < 2 && Promised(sticks, now, hypot, events, host)
    ensures var s, o := sticks[i], OverrideAfter(sticks, now, hypot, events);
            if o.On? && o.hand == i then
              && s.owner != 0 && s.x != 0 && s.y != 0
              && s.x in host.scalars && host.scalars[s.x] == o.x && s.y in host.scalars && host.scalars[s.y] == o.y
              && (s.touch != 0 ==> s.touch in host.touches && host.touches[s.touch])
            else
              var all := OverriddenIn(sticks, now, hypot, events, i);
              && (s.x != 0 && (all || UpdatedIn(events, s.x, false)) ==>
                    s.x in host.scalars && host.scalars[s.x] == LastAxis(events, s.x, s.realX))
              && (s.y != 0 && (all || UpdatedIn(events, s.y, false)) ==>
                    s.y in host.scalars && host.scalars[s.y] == LastAxis(events, s.y, s.realY))
              && (s.touch != 0 && (all || UpdatedIn(events, s.touch, true)) ==>
                    s.touch in host.touches && host.touches[s.touch] == LastTouched(events, s.touch, s.realTouch))
  {
    hide OverrideAfter, LastAxis, LastTouched, OverriddenIn, UpdatedIn;
  }

  /** Any run of real updates and Drive calls keeps the promise. */
  method Run(g: State, events: seq<Event>)
    requires g.Valid()
    modifies g
    ensures g.Valid() && |old(g.sticks)| == 2
    ensures g.sticks == SticksAfter(old(g.sticks), events)
    ensures g.Override() == OverrideAfter(old(g.sticks), old(g.Override()), g.hypot, events)
    ensures g.told == ToldAfter(old(g.sticks), old(g.Override()), g.hypot, old(g.told), events)
    ensures Promised(old(g.sticks), old(g.Override()), g.hypot, events, g.host)
  {
    hide Coherent, Driven, Promised;
    CoherentBasics(g.sticks, g.Override(), g.host, g.told);
    for i := 0 to |events|
      invariant g.Valid()
      invariant g.sticks == SticksAfter(old(g.sticks), events[..i])
      invariant g.Override() == OverrideAfter(old(g.sticks), old(g.Override()), g.hypot, events[..i])
      invariant g.told == ToldAfter(old(g.sticks), old(g.Override()), g.hypot, old(g.told), events[..i])
    {
      assert events[..i + 1][..i] == events[..i];
      match events[i]
      case Axis(h, v) =>
        var _ := g.UpdateScalar(h, v);
      case Touched(h, on) =>
        var _ := g.UpdateTouch(h, on);
      case Drove(hand, speed, dx, dy) =>
        g.Drive(hand, speed, dx, dy);
    }
    assert events[..|events|] == events;
    CoherentMeansPromised(old(g.sticks), old(g.Override()), g.hypot, old(g.told), events, g.host);
  }

  // The injected vector.

  /** Steered by the real stick or centred, the injected vector has the speed as its length. */
  lemma InjectedLength(s: Stick, len: real, speed: real, dirX: real, dirY: real)
    requires IsLength(len, s.realX, s.realY) && UnitVector(dirX, dirY)
    ensures var v := Injection(s, len, speed, dirX, dirY); Sq(v.0) + Sq(v.1) == Sq(speed)
  {
    hide Sq;
    var v := Injection(s, len, speed, dirX, dirY);
    if len > 0.15 {
      var a, b := s.realX / len, s.realY / len;
      Normalised(s.realX, s.realY, len, a, b);
      ScaledUnit(a, b, speed, v.0, v.1);
    } else {
      ScaledUnit(dirX, dirY, speed, v.0, v.1);
    }
  }

  /** A deflected stick's vector is the real one stretched to the speed: same direction, same sense. */
  lemma InjectedDirection(s: Stick, len: real, speed: real, dirX: real, dirY: real)
    requires len > 0.15 && speed > 0.0
    ensures var v := Injection(s, len, speed, dirX, dirY);
            v.0 * len == s.realX * speed && v.1 * len == s.realY * speed
    ensures var v := Injection(s, len, speed, dirX, dirY);
            v.0 * s.realY == v.1 * s.realX && (s.realX > 0.0 ==> v.0 > 0.0) && (s.realX < 0.0 ==> v.0 < 0.0)
                                           && (s.realY > 0.0 ==> v.1 > 0.0) && (s.realY < 0.0 ==> v.1 < 0.0)
  {
    var v := Injection(s, len, speed, dirX, dirY);
    Stretched(s.realX, len, speed, s.realX / len, v.0);
    Stretched(s.realY, len, speed, s.realY / len, v.1);
    Parallel(s.realX, s.realY, v.0, v.1, len, speed);
  }

  /** A centred stick leaves the direction to the caller's unit vector: the injected one points along it, in the same
      sense, and is as long as the speed. */
  lemma InjectedCentred(s: Stick, len: real, speed: real, dirX: real, dirY: real)
    requires len <= 0.15 && UnitVector(dirX, dirY)
    ensures var v := Injection(s, len, speed, dirX, dirY); v.0 * dirY == v.1 * dirX && v.0 * dirX + v.1 * dirY == speed
  {
    var v := Injection(s, len, speed, dirX, dirY);
    Along(dirX, dirY, speed, v.0, v.1);
  }

  lemma Parallel(x: real, y: real, vx: real, vy: real, len: real, speed: real)
    requires len > 0.0 && vx * len == x * speed && vy * len == y * speed
    ensures vx * y == vy * x
  {
    assert vx * y * len == x * speed * y == vy * x * len;
    assert (vx * y - vy * x) * len == 0.0;
  }

  // The pending list.

  /** Where the kept entries stood. */
  function KeptAt(roles: seq<Option<int>>): seq<nat> {
    if roles == [] then []
    else
      var n := |roles| - 1;
      KeptAt(roles[..n]) + if roles[n].None? then [n] else []
  }

  /** `kept` are the entries among the first `n` with an unreadable role, in their old order; `at` says where they
      stood. */
  predicate Picks(todo: seq<Pending>, roles: seq<Option<int>>, n: nat, at: seq<nat>, kept: seq<Pending>)
    requires n <= |todo| == |roles|
  {
    && |at| == |kept|
    && (forall i :: 0 <= i < |at| ==> at[i] < n && roles[at[i]].None? && kept[i] == todo[at[i]])
    && (forall i, j :: 0 <= i < j < |at| ==> at[i] < at[j])
    && (forall m :: 0 <= m < n && roles[m].None? ==> m in at)
  }

  lemma PicksOneMore(todo: seq<Pending>, roles: seq<Option<int>>, n: nat, at: seq<nat>, kept: seq<Pending>)
    requires n < |todo| == |roles| && Picks(todo, roles, n, at, kept)
    ensures roles[n].Some? ==> Picks(todo, roles, n + 1, at, kept)
    ensures roles[n].None? ==> Picks(todo, roles, n + 1, at + [n], kept + [todo[n]])
  {
    assert (at + [n])[|at|] == n;
    assert forall m :: m in at ==> m in at + [n];
  }

  lemma PicksNone(todo: seq<Pending>, roles: seq<Option<int>>)
    requires |todo| == |roles|
    ensures Picks(todo, roles, 0, KeptAt(roles[..0]), Kept(todo[..0], roles[..0]))
  {
  }

  lemma KeptAtOneMore(roles: seq<Option<int>>, n: nat)
    requires n < |roles|
    ensures KeptAt(roles[..n + 1]) == KeptAt(roles[..n]) + if roles[n].None? then [n] else []
  {
    assert roles[..n + 1][..n] == roles[..n];
  }

  lemma {:induction false} PicksFirst(todo: seq<Pending>, roles: seq<Option<int>>, n: nat)
    requires n <= |todo| == |roles|
    ensures Picks(todo, roles, n, KeptAt(roles[..n]), Kept(todo[..n], roles[..n]))
    decreases n
  {
    hide Picks, Kept, KeptAt, AssignAll, Assign, CompletedIn;
    if n == 0 {
      PicksNone(todo, roles);
    } else {
      PicksFirst(todo, roles, n - 1);
      var at, kept := KeptAt(roles[..n - 1]), Kept(todo[..n - 1], roles[..n - 1]);
      PicksOneMore(todo, roles, n - 1, at, kept);
      OneMore(NO_STICKS, todo, roles, n - 1);
      KeptAtOneMore(roles, n - 1);
      assert at + [] == at && kept + [] == kept;
    }
  }

  const NO_STICKS := [NO_STICK, NO_STICK]

  /** The kept entries are exactly those with an unreadable role, in their old order. */
  lemma KeptInOrder(todo: seq<Pending>, roles: seq<Option<int>>)
    requires |todo| == |roles|
    ensures Picks(todo, roles, |todo|, KeptAt(roles), Kept(todo, roles))
  {
    PicksFirst(todo, roles, |todo|);
    assert todo[..|todo|] == todo && roles[..|todo|] == roles;
  }

  predicate Claims(p: Pending, role: Option<int>, hand: nat, axis: char) {
    role == Some(if hand == 0 then 1 else 2) && (axis == 't' ==> p.axis != 'x' && p.axis != 'y')
    && (axis != 't' ==> p.axis == axis)
  }

  /** The handle of the last entry that claims this part of a stick, or the old one. */
  function LastClaim(todo: seq<Pending>, roles: seq<Option<int>>, hand: nat, axis: char, old_: Handle): Handle
    requires |todo| == |roles|
  {
    if todo == [] then old_
    else
      var n := |todo| - 1;
      if Claims(todo[n], roles[n], hand, axis) then todo[n].handle
      else LastClaim(todo[..n], roles[..n], hand, axis, old_)
  }

  /** The last entry of this hand. */
  function LastOfHand(todo: seq<Pending>, roles: seq<Option<int>>, hand: nat): Option<Pending>
    requires |todo| == |roles|
  {
    if todo == [] then None
    else
      var n := |todo| - 1;
      if roles[n] == Some(if hand == 0 then 1 else 2) then Some(todo[n]) else LastOfHand(todo[..n], roles[..n], hand)
  }

  /** The owner and the device of a stick are those of the last entry of its hand; each handle is that of the last
      entry that claims it; the recorded values stay. */
  lemma {:induction false} AssignsLast(sticks: seq<Stick>, todo: seq<Pending>, roles: seq<Option<int>>, hand: nat)
    requires |sticks| == 2 && |todo| == |roles| && hand < 2
    ensures var s, t := sticks[hand], AssignAll(sticks, todo, roles)[hand];
            && t.x == LastClaim(todo, roles, hand, 'x', s.x)
            && t.y == LastClaim(todo, roles, hand, 'y', s.y)
            && t.touch == LastClaim(todo, roles, hand, 't', s.touch)
            && (match LastOfHand(todo, roles, hand)
                case None => t == s
                case Some(p) => t.owner == p.owner && t.container == p.container)
            && t.realX == s.realX && t.realY == s.realY && t.realTouch == s.realTouch
    decreases |todo|
  {
    if todo != [] {
      var n := |todo| - 1;
      AssignsLast(sticks, todo[..n], roles[..n], hand);
    }
  }

  /** A name decides the part of a stick: whatever precedes it, the x or y axis of a joystick or thumbstick if it is a
      scalar, its touch if it is a boolean; any other component is no part of a stick. */
  lemma AxisOfIff(name: string, boolean: bool)
    ensures AxisOf(name, boolean) == 'x' <==>
            !boolean && exists p :: name == p + "/input/joystick/x" || name == p + "/input/thumbstick/x"
    ensures AxisOf(name, boolean) == 'y' <==>
            !boolean && exists p :: name == p + "/input/joystick/y" || name == p + "/input/thumbstick/y"
    ensures AxisOf(name, boolean) == 't' <==>
            boolean && exists p :: name == p + "/input/joystick/touch" || name == p + "/input/thumbstick/touch"
    ensures AxisOf(name, boolean) in {'x', 'y', 't', ' '}
  {
    hide Hooks.EndsWith;
    EndsWithIff(name, "/input/joystick/x");
    EndsWithIff(name, "/input/thumbstick/x");
    EndsWithIff(name, "/input/joystick/y");
    EndsWithIff(name, "/input/thumbstick/y");
    EndsWithIff(name, "/input/joystick/touch");
    EndsWithIff(name, "/input/thumbstick/touch");
  }

  lemma EndsWithIff(name: string, suffix: string)
    requires suffix != []
    ensures Hooks.EndsWith(name, suffix) <==> exists p :: name == p + suffix
    ensures Hooks.EndsWith(name, suffix) ==> name != [] && name[|name| - 1] == suffix[|suffix| - 1]
  {
    if Hooks.EndsWith(name, suffix) {
      assert name == name[..|name| - |suffix|] + suffix;
    }
  }

  predicate RealComponents(todo: seq<Pending>) {
    forall k :: 0 <= k < |todo| ==> todo[k].owner != 0 && todo[k].handle != 0
  }

  /** With real handles and interfaces, the result says whether some stick is complete now that was not before,
      and no stick ever becomes incomplete. */
  lemma {:induction false} CompletedMeansNewlyComplete(sticks: seq<Stick>, todo: seq<Pending>, roles: seq<Option<int>>)
    requires |sticks| == 2 && |todo| == |roles| && RealComponents(todo)
    ensures var after := AssignAll(sticks, todo, roles);
            && (forall i :: 0 <= i < 2 && sticks[i].Complete() ==> after[i].Complete())
            && (CompletedIn(sticks, todo, roles) <==>
                exists i :: 0 <= i < 2 && !sticks[i].Complete() && after[i].Complete())
    decreases |todo|
  {
    if todo != [] {
      var n := |todo| - 1;
      CompletedMeansNewlyComplete(sticks, todo[..n], roles[..n]);
      var before := AssignAll(sticks, todo[..n], roles[..n]);
      var after := AssignAll(sticks, todo, roles);
      assert forall i :: 0 <= i < 2 && before[i].Complete() ==> after[i].Complete();
    }
  }

  /** What happens to the list: a component is created, or the list is worked on. `arrived` is what the
      creations during that work have put on the empty list. */
  datatype ListEvent = Created(p: Pending) | Resolved(roles: seq<Option<int>>, arrived: seq<Pending>)

  predicate PossibleNext(pending: seq<Pending>, e: ListEvent) {
    e.Resolved? ==> |e.roles| == |pending|
  }

  function ListNext(pending: seq<Pending>, e: ListEvent): seq<Pending>
    requires PossibleNext(pending, e)
  {
    match e
    case Created(p) => Remembered(pending, p)
    case Resolved(roles, arrived) => arrived + Kept(pending, roles)
  }

  predicate PossibleRun(pending: seq<Pending>, events: seq<ListEvent>)
    decreases |events|
  {
    events == [] || (PossibleNext(pending, events[0]) && PossibleRun(ListNext(pending, events[0]), events[1..]))
  }

  /** The list never exceeds its bound during the run. */
  predicate StaysWithin(pending: seq<Pending>, events: seq<ListEvent>)
    requires PossibleRun(pending, events)
    decreases |events|
  {
    |pending| <= MAX_PENDING && (events == [] || StaysWithin(ListNext(pending, events[0]), events[1..]))
  }

  /** What arrived while the list was worked on fits beside the entries with an unreadable role. */
  predicate LeavesRoom(e: ListEvent) {
    e.Resolved? ==> |e.arrived| + |KeptAt(e.roles)| <= MAX_PENDING
  }

  /** Over every run of creations and of work on the list: it stays within 64 exactly when it starts so and, each
      time it is worked on, what arrived meanwhile fits beside the entries whose role could not be read. */
  lemma {:induction false} PendingBounded(pending: seq<Pending>, events: seq<ListEvent>)
    requires PossibleRun(pending, events)
    ensures StaysWithin(pending, events) <==>
            |pending| <= MAX_PENDING && forall k :: 0 <= k < |events| ==> LeavesRoom(events[k])
    decreases |events|
  {
    hide Picks, KeptAt, Kept;
    if events != [] {
      var next := ListNext(pending, events[0]);
      if events[0].Resolved? {
        KeptLength(pending, events[0].roles);
      }
      assert events == [events[0]] + events[1..];
      PendingBounded(next, events[1..]);
    }
  }

  lemma KeptLength(todo: seq<Pending>, roles: seq<Option<int>>)
    requires |todo| == |roles|
    ensures |Kept(todo, roles)| == |KeptAt(roles)|
  {
    hide KeptAt, Kept;
    KeptInOrder(todo, roles);
  }

  function CreatedIn(events: seq<ListEvent>): seq<Pending> {
    if events == [] then []
    else (if events[0].Created? then [events[0].p] else []) + CreatedIn(events[1..])
  }

  /** However many components are created, the newest stay: a list over the bound stays as long as it is, a shorter
      one grows to 64 at most. Only work on it shortens it. */
  lemma {:induction false} CreationsNeverShrink(pending: seq<Pending>, events: seq<ListEvent>)
    requires PossibleRun(pending, events) && forall k :: 0 <= k < |events| ==> events[k].Created?
    ensures |CreatedIn(events)| == |events|
    ensures var all := pending + CreatedIn(events);
            var n := if |pending| >= 64 then |pending| else if |all| <= 64 then |all| else 64;
            AfterList(pending, events) == all[|all| - n..]
    decreases |events|
  {
    hide Remembered;
    if events == [] {
      assert pending + [] == pending;
    } else {
      CreationsNeverShrink(ListNext(pending, events[0]), events[1..]);
      NewestStay(pending, events[0].p, CreatedIn(events[1..]));
    }
  }

  lemma NewestStay(pending: seq<Pending>, p: Pending, rest: seq<Pending>)
    ensures var next := Remembered(pending, p);
            var more, all := next + rest, pending + ([p] + rest);
            var n := if |pending| >= 64 then |pending| else if |all| <= 64 then |all| else 64;
            && n == (if |next| >= 64 then |next| else if |more| <= 64 then |more| else 64)
            && n <= |more| && more[|more| - n..] == all[|all| - n..]
  {
    var next := Remembered(pending, p);
    assert pending + ([p] + rest) == (if |pending| >= MAX_PENDING then pending[..1] else []) + (next + rest);
  }

  function AfterList(pending: seq<Pending>, events: seq<ListEvent>): seq<Pending>
    requires PossibleRun(pending, events)
    decreases |events|
  {
    if events == [] then pending else AfterList(ListNext(pending, events[0]), events[1..])
  }

  /** The two methods do to the list what the run laws reason about. */
  method HandleList(g: State, e: ListEvent, name: string, boolean: bool)
    requires g.Shaped() && PossibleNext(g.pending, e)
    requires e.Created? ==> AxisOf(name, boolean) == e.p.axis != ' '
    modifies g
    ensures g.Shaped() && g.pending == ListNext(old(g.pending), e)
  {
    hide AxisOf, Kept;
    match e
    case Created(p) => g.Remember(p.owner, p.container, Some(name), p.handle, boolean);
    case Resolved(roles, arrived) =>
      var _ := g.ResolvePending(roles, arrived);
  }

  /** The bound can be broken from a list within it: a full list of unreadable roles plus one new component. */
  lemma PendingCanExceed(p: Pending)
    ensures var todo, roles := seq(MAX_PENDING, _ => p), seq(MAX_PENDING, _ => None);
            |[p] + Kept(todo, roles)| == MAX_PENDING + 1
  {
    AllKept(seq(MAX_PENDING, _ => p), seq(MAX_PENDING, _ => None));
  }

  lemma {:induction false} AllKept(todo: seq<Pending>, roles: seq<Option<int>>)
    requires |todo| == |roles| && forall k :: 0 <= k < |roles| ==> roles[k].None?
    ensures Kept(todo, roles) == todo
    decreases |todo|
  {
    if todo != [] {
      var n := |todo| - 1;
      AllKept(todo[..n], roles[..n]);
    }
  }
}
