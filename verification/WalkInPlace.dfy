/** Walk-in-place: the app's settings and speed, the two outputs (a hand controller's stick or the treadmill
    device), and what bounds the override in time. */
module WalkInPlace {
  import opened Wire
  import opened Clock
  import opened Plane
  import opened Pose
  import Hooks
  import HookLaws
  import Proto
  import Tracker

  const OUTPUT_INTERVAL := 10 * MILLISECOND
  const SILENCE := SECOND
  const THRESHOLD := 0.03
  const STOP_WALKING := 0
  const STOPPED := 2
  const WALKING := 3

  // The treadmill's stick.

  datatype Deck = Deck(active: bool, connected: bool, x: real, y: real)

  function WithStick(d: Deck, x: real, y: real): Deck {
    if d.active then d.(x := x, y := y) else d
  }

  function WithConnected(d: Deck, connected: bool): Deck {
    var e := d.(connected := connected);
    if connected then e else WithStick(e, 0.0, 0.0)
  }

  /** Whether this value is told to the host. */
  predicate Tells(d: Deck, x: real, y: real) {
    d.active && !(x == d.x && y == d.y)
  }

  class Treadmill {
    const hypot: (real, real) -> real
    var active: bool
    var connected: bool
    var lastX: real
    var lastY: real
    var shown: Option<(real, real, bool)> // what the host was last told of the stick

    /** The host shows the last value, or it has been told nothing and the last value is the centre. */
    predicate Valid()
      reads this
    {
      shown == Some((lastX, lastY, hypot(lastX, lastY) > THRESHOLD)) || (shown == None && lastX == lastY == 0.0)
    }

    function View(): Deck
      reads this
    {
      Deck(active, connected, lastX, lastY)
    }

    constructor (hypot: (real, real) -> real, active: bool)
      ensures Valid() && View() == Deck(active, false, 0.0, 0.0)
    {
      this.hypot, this.active, connected, lastX, lastY, shown := hypot, active, false, 0.0, 0.0, None;
    }

    /** Activation creates the components anew, but keeps the last value: the host shows it exactly when it is the
        centre. */
    method Activate()
      modifies `active, `shown
      ensures View() == old(View()).(active := true) && shown == None
      ensures Valid() <==> old(lastX) == old(lastY) == 0.0
    {
      active, shown := true, None;
    }

    method Deactivate()
      modifies `active
      ensures View() == old(View()).(active := false) && Valid() == old(Valid())
    {
      active := false;
    }

    method SetConnected(connected: bool)
      modifies this
      ensures View() == WithConnected(old(View()), connected)
      ensures this.connected == connected && active == old(active)
      ensures if connected || !active then lastX == old(lastX) && lastY == old(lastY) else lastX == lastY == 0.0
      ensures Valid() == (old(Valid()) || (!connected && Tells(old(View()), 0.0, 0.0)))
    {
      this.connected := connected;
      if !active {
        return;
      }
      if !connected {
        SetStick(0.0, 0.0);
      }
    }

    /** A repeated value is left out: the host keeps showing the last value if it did, and shows it again
        once another value is told. */
    method SetStick(x: real, y: real)
      modifies `lastX, `lastY, `shown
      ensures View() == WithStick(old(View()), x, y)
      ensures if active then lastX == x && lastY == y else lastX == old(lastX) && lastY == old(lastY)
      ensures shown == if active && (x != old(lastX) || y != old(lastY)) then Some((x, y, hypot(x, y) > 0.03))
                       else old(shown)
      ensures Valid() == (old(Valid()) || Tells(old(View()), x, y))
    {
      if !active || (x == lastX && y == lastY) {
        return;
      }
      lastX, lastY := x, y;
      shown := Some((x, y, hypot(x, y) > THRESHOLD));
    }
  }

  // The state and its steps.

  /** `driven` is the hand whose stick is overridden, or -1. */
  datatype Walk = Walk(
    open: bool, asTreadmill: bool, joystickControl: bool, walking: bool, hand: nat, speed: real,
    lastInfo: int, lastOutput: int, deck: Option<Deck>, driven: int)

  datatype Message =
    | Setting(joystickControl: bool, useLeftHand: bool, openWip: bool, outputAsTreadmill: bool)
    | Info(x: real, status: int)
    | Other

  /** How SteamVR answers when the treadmill is added. */
  datatype Reply = Rejected | Accepted(activated: bool)

  predicate UsesTreadmill(installed: bool, w: Walk) {
    w.asTreadmill || !installed
  }

  function OnSetting(installed: bool, reply: Reply, w: Walk, m: Message): Walk
    requires m.Setting?
  {
    var v := w.(joystickControl := m.joystickControl, hand := if m.useLeftHand then 0 else 1);
    if m.openWip == w.open && m.outputAsTreadmill == w.asTreadmill then v
    else WithMode(installed, reply, v, m.openWip, m.outputAsTreadmill)
  }

  function WithMode(installed: bool, reply: Reply, w: Walk, open: bool, asTreadmill: bool): Walk {
    var u := w.(open := open, asTreadmill := asTreadmill, speed := 0.0, walking := false, driven := -1);
    u.(deck := Connected(u.deck, u.open && UsesTreadmill(installed, u), reply))
  }

  /** The treadmill is added when it is first needed. */
  function Connected(deck: Option<Deck>, on: bool, reply: Reply): Option<Deck> {
    var d := if on && deck.None? && reply.Accepted? then Some(Deck(reply.activated, false, 0.0, 0.0)) else deck;
    if d.None? then None else Some(WithConnected(d.value, on))
  }

  function Clamp(x: real): real {
    if x < 0.0 then 0.0 else if x > 1.0 then 1.0 else x
  }

  function OnInfo(w: Walk, m: Message, now: int): Walk
    requires m.Info?
  {
    w.(lastInfo := now,
       speed := if m.status == STOPPED then 0.0 else Clamp(m.x),
       walking := m.status == WALKING || (w.walking && m.status != STOP_WALKING && m.status != STOPPED))
  }

  function OnMessage(installed: bool, reply: Reply, w: Walk, m: Message, now: int): Walk {
    match m
    case Setting(_, _, _, _) => OnSetting(installed, reply, w, m)
    case Info(_, _) => OnInfo(w, m, now)
    case Other => w
  }

  function Received(installed: bool, reply: Reply, w: Walk, messages: seq<Message>, now: int): Walk {
    if messages == [] then w
    else
      var n := |messages| - 1;
      OnMessage(installed, reply, Received(installed, reply, w, messages[..n], now), messages[n], now)
  }

  /** What is put out: the speed, or 0. */
  function OutputSpeed(w: Walk, connected: bool): real {
    if w.open && connected && (!w.joystickControl || w.walking) && w.speed > THRESHOLD then w.speed else 0.0
  }

  /** `captured`: the stick of the chosen hand is complete. */
  function Update(installed: bool, w: Walk, connected: bool, captured: bool, now: int): Walk {
    if now - w.lastOutput < OUTPUT_INTERVAL then w
    else
      var v := w.(lastOutput := now, speed := if now - w.lastInfo > SILENCE then 0.0 else w.speed);
      Emit(installed, v, connected, captured)
  }

  function Emit(installed: bool, w: Walk, connected: bool, captured: bool): Walk {
    var s := OutputSpeed(w, connected);
    if UsesTreadmill(installed, w)
    then w.(deck := if w.deck.None? then None else Some(WithStick(w.deck.value, 0.0, s)))
    else w.(driven := if s > 0.0 && captured then w.hand else -1)
  }

  /** One frame. The connection is looked at twice: before the messages and at the output. */
  datatype Frame = Frame(
    now: int, connected: bool, messages: seq<Message>, reply: Reply, connectedAtOutput: bool, captured: bool)

  function AfterFrame(installed: bool, w: Walk, f: Frame): Walk {
    Update(installed, if f.connected then Received(installed, f.reply, w, f.messages, f.now) else w,
           f.connectedAtOutput, f.captured, f.now)
  }

  /** The direction of the first waist tracker that has a fresh one. */
  function FirstFacing(trackers: seq<Tracker.Tracker>, hypot: (real, real) -> real, now: int): Option<(real, real)>
    reads trackers
  {
    if trackers == [] then None
    else if trackers[0].role == 0 && trackers[0].Facing(hypot, now).Some? then trackers[0].Facing(hypot, now)
    else FirstFacing(trackers[1..], hypot, now)
  }

  lemma {:induction false} FirstFacingAt(trackers: seq<Tracker.Tracker>, hypot: (real, real) -> real, now: int, i: nat)
    requires i < |trackers| && trackers[i].role == 0 && trackers[i].Facing(hypot, now).Some?
    requires forall j :: 0 <= j < i && trackers[j].role == 0 ==> trackers[j].Facing(hypot, now).None?
    ensures FirstFacing(trackers, hypot, now) == trackers[i].Facing(hypot, now)
    decreases i
  {
    if i > 0 {
      FirstFacingAt(trackers[1..], hypot, now, i - 1);
    }
  }

  class Walker {
    const installed: bool
    const waistDirection: bool
    const hooks: Hooks.State
    const floatOf: bytes -> real
    var treadmill: Treadmill?
    var open: bool
    var asTreadmill: bool
    var joystickControl: bool
    var walking: bool
    var hand: nat
    var speed: real
    var lastInfo: int
    var lastOutput: int
    var lastResolve: int

    predicate Shaped()
      reads this, hooks
    {
      hand < 2 && hooks.Shaped()
    }

    /** The host shows the treadmill's last value, if there is a treadmill. */
    predicate TreadmillShown()
      reads `treadmill, treadmill
    {
      treadmill != null ==> treadmill.Valid()
    }

    function TreadmillView(): Option<Deck>
      reads `treadmill, treadmill
    {
      if treadmill == null then None else Some(treadmill.View())
    }

    function View(): Walk
      reads this, hooks, treadmill
    {
      Walk(open, asTreadmill, joystickControl, walking, hand, speed, lastInfo, lastOutput, TreadmillView(),
           hooks.overriding)
    }

    constructor (installed: bool, waistDirection: bool, hooks: Hooks.State, floatOf: bytes -> real)
      requires hooks.Shaped()
      ensures Shaped() && TreadmillShown() && this.hooks == hooks && this.installed == installed
      ensures View() == Walk(false, false, false, false, 0, 0.0, 0, 0, None, hooks.overriding)
    {
      this.installed, this.waistDirection, this.hooks, this.floatOf := installed, waistDirection, hooks, floatOf;
      treadmill, open, asTreadmill, joystickControl, walking := null, false, false, false, false;
      hand, speed, lastInfo, lastOutput, lastResolve := 0, 0.0, 0, 0, 0;
    }

    function Meaning(m: Proto.Msg): Message {
      if m.kind == Proto.WIP_SETTING then Setting(m.joystickControl, m.useLeftHand, m.openWip, m.outputAsTreadmill)
      else if m.kind == Proto.WIP_INFO then Info(floatOf(m.wipX), m.wipStatus)
      else Other
    }

    function Meanings(messages: seq<Proto.Msg>): (r: seq<Message>)
      ensures |r| == |messages|
    {
      seq(|messages|, i requires 0 <= i < |messages| => Meaning(messages[i]))
    }

    method OnWipSetting(m: Proto.Msg, reply: Reply)
      requires Shaped() && m.kind == Proto.WIP_SETTING
      modifies `joystickControl, `hand, `open, `asTreadmill, `speed, `walking, `treadmill, hooks, treadmill
      ensures Shaped() && (treadmill == old(treadmill) || (old(treadmill) == null && fresh(treadmill)))
      ensures View() == OnSetting(installed, reply, old(View()), Meaning(m))
      ensures hand == (if m.useLeftHand then 0 else 1) && joystickControl == m.joystickControl
      ensures open == m.openWip && asTreadmill == m.outputAsTreadmill
      ensures if m.openWip == old(open) && m.outputAsTreadmill == old(asTreadmill)
              then speed == old(speed) && walking == old(walking) && hooks.Override() == old(hooks.Override())
              else speed == 0.0 && !walking && hooks.Override() == Hooks.Off
                   && (treadmill != null ==> treadmill.connected == (open && (asTreadmill || !installed)))
      ensures hooks.Override() == old(hooks.Override()) || hooks.Override() == Hooks.Off
      ensures old(hooks.Valid()) ==> hooks.Valid()
      ensures hooks.told == Hooks.ToldBy(hooks.sticks, old(hooks.told), old(hooks.Override()), hooks.Override())
      ensures old(TreadmillShown()) ==> TreadmillShown()
      ensures hooks.sticks == old(hooks.sticks) && hooks.pending == old(hooks.pending)
    {
      hide Hooks.State.Valid, WithMode, View, TreadmillShown;
      Choose(m.joystickControl, m.useLeftHand);
      ModesShown();
      if m.openWip != open || m.outputAsTreadmill != asTreadmill {
        ChangeMode(m.openWip, m.outputAsTreadmill, reply);
      }
    }

    method Choose(joystickControl: bool, useLeftHand: bool)
      requires Shaped()
      modifies `joystickControl, `hand
      ensures Shaped()
      ensures View() == old(View()).(joystickControl := joystickControl, hand := if useLeftHand then 0 else 1)
      ensures hand == (if useLeftHand then 0 else 1) && this.joystickControl == joystickControl
    {
      this.joystickControl := joystickControl;
      hand := if useLeftHand then 0 else 1;
    }

    lemma ModesShown()
      ensures View().open == open && View().asTreadmill == asTreadmill
    {
    }

    /** A change of mode stops walking and releases the stick first. */
    method ChangeMode(openWip: bool, outputAsTreadmill: bool, reply: Reply)
      requires Shaped()
      modifies `open, `asTreadmill, `speed, `walking, `treadmill, hooks, treadmill
      ensures Shaped() && (treadmill == old(treadmill) || (old(treadmill) == null && fresh(treadmill)))
      ensures View() == WithMode(installed, reply, old(View()), openWip, outputAsTreadmill)
      ensures open == openWip && asTreadmill == outputAsTreadmill && speed == 0.0 && !walking
      ensures hand == old(hand) && joystickControl == old(joystickControl)
      ensures treadmill != null ==> treadmill.connected == (open && (asTreadmill || !installed))
      ensures hooks.Override() == Hooks.Off
      ensures old(hooks.Valid()) ==> hooks.Valid()
      ensures hooks.told == Hooks.ToldBy(hooks.sticks, old(hooks.told), old(hooks.Override()), hooks.Override())
      ensures old(TreadmillShown()) ==> TreadmillShown()
      ensures hooks.sticks == old(hooks.sticks) && hooks.pending == old(hooks.pending)
    {
      hide Hooks.State.Valid, Connected, TreadmillShown, View;
      Stop(openWip, outputAsTreadmill);
      ModesShown();
      ConnectTreadmill(open && (asTreadmill || !installed), reply);
    }

    /** The first half of a change of mode: nothing is put out any more. */
    method Stop(openWip: bool, outputAsTreadmill: bool)
      requires Shaped()
      modifies `open, `asTreadmill, `speed, `walking, hooks
      ensures Shaped() && hooks.Override() == Hooks.Off
      ensures open == openWip && asTreadmill == outputAsTreadmill && speed == 0.0 && !walking
      ensures View() == old(View()).(open := openWip, asTreadmill := outputAsTreadmill, speed := 0.0, walking := false,
                                     driven := -1)
      ensures old(hooks.Valid()) ==> hooks.Valid()
      ensures hooks.told == Hooks.ToldBy(hooks.sticks, old(hooks.told), old(hooks.Override()), hooks.Override())
      ensures hooks.sticks == old(hooks.sticks) && hooks.pending == old(hooks.pending)
    {
      hide Hooks.Coherent, Hooks.Writes, Hooks.ToldBy, Hooks.State.Valid, TreadmillView;
      open := openWip;
      asTreadmill := outputAsTreadmill;
      speed := 0.0;
      walking := false;
      hooks.Drive(-1, 0.0);
    }

    method ConnectTreadmill(on: bool, reply: Reply)
      modifies `treadmill, treadmill
      ensures treadmill == old(treadmill) || (old(treadmill) == null && fresh(treadmill))
      ensures old(TreadmillShown()) ==> TreadmillShown()
      ensures View() == old(View()).(deck := Connected(old(View()).deck, on, reply))
      ensures treadmill != null ==> treadmill.connected == on
      ensures treadmill == null <==> old(treadmill) == null && !(on && reply.Accepted?)
      ensures treadmill != null && old(treadmill) == null ==>
                treadmill.active == reply.activated && treadmill.lastX == treadmill.lastY == 0.0
    {
      if on && treadmill == null {
        match reply
        case Rejected =>
        case Accepted(activated) => treadmill := new Treadmill(hooks.hypot, activated);
      }
      if treadmill != null {
        treadmill.SetConnected(on);
      }
    }

    method OnWipInfo(m: Proto.Msg, now: int)
      requires m.kind == Proto.WIP_INFO
      modifies `lastInfo, `speed, `walking
      ensures View() == OnInfo(old(View()), Meaning(m), now)
      ensures lastInfo == now && 0.0 <= speed <= 1.0
      ensures m.wipStatus == 2 ==> speed == 0.0
      ensures m.wipStatus != 2 && 0.0 <= floatOf(m.wipX) <= 1.0 ==> speed == floatOf(m.wipX)
      ensures m.wipStatus != 2 && floatOf(m.wipX) < 0.0 ==> speed == 0.0
      ensures m.wipStatus != 2 && floatOf(m.wipX) > 1.0 ==> speed == 1.0
      ensures walking == (m.wipStatus == 3 || (old(walking) && m.wipStatus != 0 && m.wipStatus != 2))
    {
      lastInfo := now;
      speed := Clamp(floatOf(m.wipX));
      if m.wipStatus == WALKING {
        walking := true;
      }
      if m.wipStatus == STOP_WALKING || m.wipStatus == STOPPED {
        walking := false;
      }
      if m.wipStatus == STOPPED {
        speed := 0.0;
      }
    }

    /** The stick direction that moves the player where the waist tracker faces. `axis` is the -Z axis of the
        reference device in raw space, if its pose can be read. */
    method WaistStickDirection(trackers: seq<Tracker.Tracker>, axis: Option<(real, real)>, universe: Option<Universe>,
                               now: int)
      returns (dir: (real, real))
      requires forall t :: t in trackers ==> t.Valid()
      ensures dir == StickDirection(FirstFacing(trackers, hooks.hypot, now), axis, universe, hooks.hypot)
      ensures IsHypot(hooks.hypot) ==> UnitPair(dir)
    {
      hide IsHypot, UnitPair, StickDirection;
      var waist: Option<(real, real)> := None;
      assert trackers[0..] == trackers;
      for i := 0 to |trackers|
        invariant waist.None?
        invariant FirstFacing(trackers, hooks.hypot, now) == FirstFacing(trackers[i..], hooks.hypot, now)
      {
        assert trackers[i..][1..] == trackers[i + 1..];
        if trackers[i].role == 0 {
          waist := trackers[i].FloorForward(hooks.hypot, now);
          if waist.Some? {
            break;
          }
        }
      }
      dir := StickDirection(waist, axis, universe, hooks.hypot);
      if IsHypot(hooks.hypot) {
        StickDirectionIsUnit(waist, axis, universe, hooks.hypot);
      }
    }

    method UpdateWalkInPlace(
        trackers: seq<Tracker.Tracker>, axis: Option<(real, real)>, universe: Option<Universe>, connected: bool,
        roles: seq<Option<int>>, arrived: seq<Hooks.Pending>, now: int)
      requires Shaped() && |roles| == |hooks.pending|
      requires forall t :: t in trackers ==> t.Valid()
      modifies this, hooks, treadmill
      ensures Shaped() && treadmill == old(treadmill)
      ensures View() == Update(installed, old(View()), connected, hooks.sticks[hand].Complete(), now)
      // a driven stick shows the speed, whichever way it is steered
      ensures now - old(lastOutput) >= OUTPUT_INTERVAL && !UsesTreadmill(installed, View()) && IsHypot(hooks.hypot)
              && hooks.Override().On? ==>
                Sq(hooks.Override().x) + Sq(hooks.Override().y) == Sq(OutputSpeed(View(), connected))
      ensures old(hooks.Valid()) && Hooks.CaptureSafe(old(hooks.sticks), hooks.sticks, old(hooks.Override())) ==>
                hooks.Valid()
      // a deflected stick sets the direction, otherwise the waist does
      ensures now - old(lastOutput) >= 10 * MILLISECOND && !asTreadmill && installed && IsHypot(hooks.hypot)
              && hooks.Override().On? ==>
                Follows(hooks.Override(), hooks.sticks, hooks.hypot, waistDirection,
                        FirstFacing(trackers, hooks.hypot, now), Reference(axis, universe, hooks.hypot), speed)
      ensures now - old(lastOutput) >= 10 * MILLISECOND && (asTreadmill || !installed) && treadmill != null
              && treadmill.active ==>
                && treadmill.lastX == 0.0
                && treadmill.lastY ==
                   if open && connected && (!joystickControl || walking) && speed > 0.03 then speed else 0.0
      ensures |old(hooks.sticks)| == 2
              && hooks.told ==
                Hooks.ToldBy(hooks.sticks, Hooks.StillTold(old(hooks.sticks), hooks.sticks, old(hooks.told)),
                                            old(hooks.Override()), hooks.Override())
      ensures old(TreadmillShown()) ==> TreadmillShown()
      // once a second the remembered components are given to the hands
      ensures lastResolve == if now - old(lastResolve) > SECOND then now else old(lastResolve)
      ensures if installed && now - old(lastResolve) > SECOND
              then |old(hooks.sticks)| == 2 && |old(hooks.pending)| == |roles|
                   && hooks.sticks == Hooks.AssignAll(old(hooks.sticks), old(hooks.pending), roles)
                   && hooks.pending == arrived + Hooks.Kept(old(hooks.pending), roles)
              else hooks.sticks == old(hooks.sticks) && hooks.pending == old(hooks.pending)
    {
      hide Hooks.Coherent, Hooks.CaptureSafe, Hooks.State.Valid, IsHypot, OutputSpeed, UsesTreadmill, Update, Follows;
      hide Hooks.AssignAll, Hooks.Kept, Hooks.ToldBy, Hooks.StillTold, TreadmillShown;
      ResolveHands(roles, arrived, now);
      PutOut(trackers, axis, universe, connected, now);
    }

    /** The rest of it: an output every 10 ms. */
    method PutOut(
        trackers: seq<Tracker.Tracker>, axis: Option<(real, real)>, universe: Option<Universe>, connected: bool,
        now: int)
      requires Shaped()
      requires forall t :: t in trackers ==> t.Valid()
      modifies `lastOutput, `speed, hooks, treadmill
      ensures Shaped() && hooks.sticks == old(hooks.sticks) && hooks.pending == old(hooks.pending)
      ensures if now - old(lastOutput) < 10 * MILLISECOND
              then lastOutput == old(lastOutput) && speed == old(speed) && hooks.Override() == old(hooks.Override())
              else lastOutput == now && speed == if now - lastInfo > SECOND then 0.0 else old(speed)
      ensures View() == Update(installed, old(View()), connected, hooks.sticks[hand].Complete(), now)
      ensures now - old(lastOutput) >= OUTPUT_INTERVAL && !UsesTreadmill(installed, View()) && IsHypot(hooks.hypot)
              && hooks.Override().On? ==>
                Sq(hooks.Override().x) + Sq(hooks.Override().y) == Sq(OutputSpeed(View(), connected))
      // a deflected stick sets the direction, otherwise the waist does
      ensures now - old(lastOutput) >= 10 * MILLISECOND && !asTreadmill && installed && IsHypot(hooks.hypot)
              && hooks.Override().On? ==>
                Follows(hooks.Override(), hooks.sticks, hooks.hypot, waistDirection,
                        FirstFacing(trackers, hooks.hypot, now), Reference(axis, universe, hooks.hypot), speed)
      ensures now - old(lastOutput) >= 10 * MILLISECOND && (asTreadmill || !installed) && treadmill != null
              && treadmill.active ==>
                && treadmill.lastX == 0.0
                && treadmill.lastY ==
                   if open && connected && (!joystickControl || walking) && speed > 0.03 then speed else 0.0
      ensures old(hooks.Valid()) ==> hooks.Valid()
      ensures hooks.told == Hooks.ToldBy(hooks.sticks, old(hooks.told), old(hooks.Override()), hooks.Override())
      ensures old(TreadmillShown()) ==> TreadmillShown()
    {
      hide Hooks.State.Valid, Hooks.TellStick, IsHypot, OutputSpeed, UsesTreadmill, Follows, TreadmillShown;
      if now - lastOutput < OUTPUT_INTERVAL {
        return;
      }
      lastOutput := now;
      if now - lastInfo > SILENCE {
        speed := 0.0;
      }
      Output(trackers, axis, universe, connected, now);
    }

    method ResolveHands(roles: seq<Option<int>>, arrived: seq<Hooks.Pending>, now: int)
      requires hooks.Shaped() && |roles| == |hooks.pending|
      modifies `lastResolve, hooks
      ensures hooks.Shaped() && hooks.Override() == old(hooks.Override())
      ensures hooks.overriding == old(hooks.overriding)
      ensures old(hooks.Valid()) && Hooks.CaptureSafe(old(hooks.sticks), hooks.sticks, hooks.Override()) ==>
                hooks.Valid()
      ensures |old(hooks.sticks)| == 2
              && hooks.told == Hooks.StillTold(old(hooks.sticks), hooks.sticks, old(hooks.told))
      ensures lastResolve == if now - old(lastResolve) > SECOND then now else old(lastResolve)
      ensures if installed && now - old(lastResolve) > SECOND
              then hooks.sticks == Hooks.AssignAll(old(hooks.sticks), old(hooks.pending), roles)
                   && hooks.pending == arrived + Hooks.Kept(old(hooks.pending), roles)
              else hooks.sticks == old(hooks.sticks) && hooks.pending == old(hooks.pending)
    {
      hide Hooks.Coherent, Hooks.CaptureSafe, Hooks.AssignAll, Hooks.Kept, Hooks.CompletedIn;
      if now - lastResolve > SECOND {
        lastResolve := now;
        if installed {
          var _ := hooks.ResolvePending(roles, arrived);
        }
      }
    }

    method Output(
        trackers: seq<Tracker.Tracker>, axis: Option<(real, real)>, universe: Option<Universe>, connected: bool,
        now: int)
      requires Shaped()
      requires forall t :: t in trackers ==> t.Valid()
      modifies hooks, treadmill
      ensures Shaped()
      ensures View() == Emit(installed, old(View()), connected, hooks.sticks[hand].Complete())
      // a deflected stick sets the direction, otherwise the waist does
      ensures !asTreadmill && installed && IsHypot(hooks.hypot)
              && hooks.Override().On? ==>
                Follows(hooks.Override(), hooks.sticks, hooks.hypot, waistDirection,
                        FirstFacing(trackers, hooks.hypot, now), Reference(axis, universe, hooks.hypot), speed)
      ensures (asTreadmill || !installed) && treadmill != null && treadmill.active ==>
                && treadmill.lastX == 0.0
                && treadmill.lastY ==
                   if open && connected && (!joystickControl || walking) && speed > 0.03 then speed else 0.0
      ensures hooks.sticks == old(hooks.sticks) && hooks.pending == old(hooks.pending)
      ensures !UsesTreadmill(installed, View()) && IsHypot(hooks.hypot) && hooks.Override().On? ==>
                Sq(hooks.Override().x) + Sq(hooks.Override().y) == Sq(OutputSpeed(View(), connected))
      ensures old(hooks.Valid()) ==> hooks.Valid()
      ensures hooks.told == Hooks.ToldBy(hooks.sticks, old(hooks.told), old(hooks.Override()), hooks.Override())
      ensures old(TreadmillShown()) ==> TreadmillShown()
    {
      hide Hooks.Coherent, Hooks.State.Valid, IsHypot, Sq, Treadmill.Valid, Treadmill.View, Follows;
      hide FirstFacing, Reference, Hooks.TellStick, Tracker.Tracker.Valid, Tracker.Tracker.Facing;
      var output := open && connected && (!joystickControl || walking);
      var out := if output && speed > THRESHOLD then speed else 0.0;
      assert out == OutputSpeed(View(), connected);
      if asTreadmill || !installed {
        if treadmill != null {
          treadmill.SetStick(0.0, out);
        }
        return;
      }
      DriveStick(trackers, axis, universe, out, now);
    }

    method DriveStick(
        trackers: seq<Tracker.Tracker>, axis: Option<(real, real)>, universe: Option<Universe>, out: real, now: int)
      requires hand < 2 && hooks.Shaped()
      requires forall t :: t in trackers ==> t.Valid()
      modifies hooks
      ensures hooks.Shaped() && hooks.sticks == old(hooks.sticks) && hooks.pending == old(hooks.pending)
      ensures hooks.overriding == if out > 0.0 && hooks.sticks[hand].Complete() then hand else -1
      ensures hooks.sticks[hand].Complete() <==>
              hooks.sticks[hand].owner != 0 && hooks.sticks[hand].x != 0 && hooks.sticks[hand].y != 0
      ensures IsHypot(hooks.hypot) ==>
                Follows(hooks.Override(), hooks.sticks, hooks.hypot, waistDirection,
                        FirstFacing(trackers, hooks.hypot, now), Reference(axis, universe, hooks.hypot), out)
      ensures IsHypot(hooks.hypot) && hooks.Override().On? ==>
                Sq(hooks.Override().x) + Sq(hooks.Override().y) == Sq(out)
      ensures old(hooks.Valid()) ==> hooks.Valid()
      ensures hooks.told == Hooks.ToldBy(hooks.sticks, old(hooks.told), old(hooks.Override()), hooks.Override())
    {
      hide Hooks.Coherent, Hooks.Writes, Hooks.State.Valid, IsHypot, UnitPair, UnitVector, Sq, Follows, Hooks.Driven;
      hide StickDirection, Reference, FirstFacing;
      var dir := (0.0, 1.0);
      ForwardIsUnit();
      if out > 0.0 && waistDirection {
        dir := WaistStickDirection(trackers, axis, universe, now);
      }
      hooks.Drive(hand, out, dir.0, dir.1);
      DrivenLength(hooks.sticks, hooks.hypot, hand, out, dir);
      if IsHypot(hooks.hypot) {
        FirstFacingUnit(trackers, hooks.hypot, now);
        DrivenFollows(hooks.sticks, hooks.hypot, hand, out, waistDirection,
                      FirstFacing(trackers, hooks.hypot, now), axis, universe);
      }
    }

    method HandleMessage(m: Proto.Msg, reply: Reply, now: int)
      requires Shaped()
      modifies this, hooks, treadmill
      ensures Shaped() && (treadmill == old(treadmill) || (old(treadmill) == null && fresh(treadmill)))
      ensures View() == OnMessage(installed, reply, old(View()), Meaning(m), now)
      // a wip_setting and a wip_info are taken over, any other message is left to the trackers
      ensures m.kind == 7 ==>
                && open == m.openWip && asTreadmill == m.outputAsTreadmill && joystickControl == m.joystickControl
                && hand == (if m.useLeftHand then 0 else 1)
      ensures m.kind == 6 ==>
                && lastInfo == now && (m.wipStatus == 2 ==> speed == 0.0)
                && (m.wipStatus != 2 && 0.0 <= floatOf(m.wipX) <= 1.0 ==> speed == floatOf(m.wipX))
                && walking == (m.wipStatus == 3 || (old(walking) && m.wipStatus != 0 && m.wipStatus != 2))
      ensures m.kind != 6 && m.kind != 7 ==> View() == old(View())
      ensures hooks.Override() == old(hooks.Override()) || hooks.Override() == Hooks.Off
      ensures old(hooks.Valid()) ==> hooks.Valid()
      ensures hooks.told == Hooks.ToldBy(hooks.sticks, old(hooks.told), old(hooks.Override()), hooks.Override())
      ensures old(TreadmillShown()) ==> TreadmillShown()
      ensures hooks.sticks == old(hooks.sticks) && hooks.pending == old(hooks.pending)
      ensures lastResolve == old(lastResolve)
    {
      hide Hooks.State.Valid, OnSetting, OnInfo, TreadmillShown, Treadmill.View;
      if m.kind == Proto.WIP_SETTING {
        OnWipSetting(m, reply);
      } else if m.kind == Proto.WIP_INFO {
        OnWipInfo(m, now);
      }
    }

    /** The loop over the messages of a frame. */
    method HandleMessages(messages: seq<Proto.Msg>, reply: Reply, now: int)
      requires Shaped()
      modifies this, hooks, treadmill
      ensures Shaped() && (treadmill == old(treadmill) || fresh(treadmill))
      ensures View() == Received(installed, reply, old(View()), Meanings(messages), now)
      ensures hooks.Override() == old(hooks.Override()) || hooks.Override() == Hooks.Off
      ensures old(hooks.Valid()) ==> hooks.Valid()
      ensures hooks.told == Hooks.ToldBy(hooks.sticks, old(hooks.told), old(hooks.Override()), hooks.Override())
      ensures old(TreadmillShown()) ==> TreadmillShown()
      ensures hooks.sticks == old(hooks.sticks) && hooks.pending == old(hooks.pending)
      ensures lastResolve == old(lastResolve)
    {
      hide Hooks.State.Valid, View, OnMessage, Meaning, TreadmillShown;
      ghost var all := Meanings(messages);
      for i := 0 to |messages|
        invariant Shaped() && lastResolve == old(lastResolve)
        invariant hooks.pending == old(hooks.pending) && hooks.sticks == old(hooks.sticks)
        invariant old(hooks.Valid()) ==> hooks.Valid()
        invariant hooks.told == Hooks.ToldBy(hooks.sticks, old(hooks.told), old(hooks.Override()), hooks.Override())
        invariant old(TreadmillShown()) ==> TreadmillShown()
        invariant hooks.Override() == old(hooks.Override()) || hooks.Override() == Hooks.Off
        invariant treadmill == old(treadmill) || fresh(treadmill)
        invariant View() == Received(installed, reply, old(View()), all[..i], now)
      {
        assert all[..i + 1][..i] == all[..i] && all[..i + 1][i] == Meaning(messages[i]);
        HandleMessage(messages[i], reply, now);
      }
      assert all[..|messages|] == all;
    }

    /** The part of RunFrame that concerns walk-in-place. */
    method RunFrame(
        connected: bool, messages: seq<Proto.Msg>, reply: Reply, connectedAtOutput: bool,
        trackers: seq<Tracker.Tracker>, axis: Option<(real, real)>, universe: Option<Universe>,
        roles: seq<Option<int>>, arrived: seq<Hooks.Pending>, now: int)
      requires Shaped() && |roles| == |hooks.pending|
      requires forall t :: t in trackers ==> t.Valid()
      modifies this, hooks, treadmill
      ensures Shaped()
      ensures View() == AfterFrame(installed, old(View()),
                                   Frame(now, connected, Meanings(messages), reply, connectedAtOutput,
                                         hooks.sticks[hand].Complete()))
      ensures old(hooks.Valid()) && Hooks.CaptureSafe(old(hooks.sticks), hooks.sticks, old(hooks.Override())) ==>
                hooks.Valid()
      ensures |old(hooks.sticks)| == 2
      ensures var was, now := old(hooks.Override()), hooks.Override();
              || ToldVia(old(hooks.sticks), hooks.sticks, old(hooks.told), hooks.told, was, was, now)
              || ToldVia(old(hooks.sticks), hooks.sticks, old(hooks.told), hooks.told, was, Hooks.Off, now)
      ensures old(TreadmillShown()) ==> TreadmillShown()
      ensures lastResolve == if now - old(lastResolve) > SECOND then now else old(lastResolve)
      ensures if installed && now - old(lastResolve) > SECOND
              then |old(hooks.sticks)| == 2 && |old(hooks.pending)| == |roles|
                   && hooks.sticks == Hooks.AssignAll(old(hooks.sticks), old(hooks.pending), roles)
                   && hooks.pending == arrived + Hooks.Kept(old(hooks.pending), roles)
              else hooks.sticks == old(hooks.sticks) && hooks.pending == old(hooks.pending)
    {
      hide Hooks.CaptureSafe, Hooks.State.Valid, View, IsHypot, Update, Received, TreadmillShown;
      hide Hooks.AssignAll, Hooks.Kept, Hooks.TellStick;
      if connected {
        HandleMessages(messages, reply, now);
      }
      ghost var released := hooks.Override();
      UpdateWalkInPlace(trackers, axis, universe, connectedAtOutput, roles, arrived, now);
      StillSafe(old(hooks.sticks), hooks.sticks, old(hooks.Override()), released);
    }
  }

  /** What the host is told in a frame: a change of mode may release the stick (`mid` is the override after the
      messages), captures come next, then the output releases or drives. */
  predicate ToldVia(
      before: seq<Hooks.Stick>, after: seq<Hooks.Stick>, told: Hooks.Told, toldNow: Hooks.Told,
      was: Hooks.Injected, mid: Hooks.Injected, now: Hooks.Injected)
    requires |before| == 2 && |after| == 2 && Hooks.Fits(was) && Hooks.Fits(mid)
  {
    toldNow == Hooks.ToldBy(after, Hooks.StillTold(before, after, Hooks.ToldBy(before, told, was, mid)), mid, now)
  }

  lemma StillSafe(before: seq<Hooks.Stick>, after: seq<Hooks.Stick>, was: Hooks.Injected, now: Hooks.Injected)
    requires now == was || now == Hooks.Off
    ensures Hooks.CaptureSafe(before, after, was) ==> Hooks.CaptureSafe(before, after, now)
  {
  }

  /** A vector injected into a deflected stick is the real one stretched to the speed. Injected into a centred stick and
      put on the reference axes, it is the waist direction times the speed; without a waist direction or a reference it
      is straight ahead. */
  predicate Follows(
      o: Hooks.Injected, sticks: seq<Hooks.Stick>, hypot: (real, real) -> real, waistDirection: bool,
      waist: Option<(real, real)>, reference: Option<(real, real)>, speed: real)
    requires |sticks| == 2 && Hooks.Fits(o)
  {
    o.On? ==>
      var s := sticks[o.hand];
      var len := hypot(s.realX, s.realY);
      if len > 0.15 then o.x * len == s.realX * speed && o.y * len == s.realY * speed
      else if !waistDirection || waist.None? || reference.None? then o.x == 0.0 && o.y == speed
      else
        var (w, r) := (waist.value, reference.value);
        o.x * -r.1 + o.y * r.0 == w.0 * speed && o.x * r.0 + o.y * r.1 == w.1 * speed
  }

  lemma DrivenFollows(
      sticks: seq<Hooks.Stick>, hypot: (real, real) -> real, hand: nat, speed: real, waistDirection: bool,
      waist: Option<(real, real)>, axis: Option<(real, real)>, universe: Option<Universe>)
    requires |sticks| == 2 && hand < 2 && IsHypot(hypot) && (waist.Some? ==> UnitPair(waist.value))
    ensures var d := if speed > 0.0 && waistDirection then StickDirection(waist, axis, universe, hypot) else (0.0, 1.0);
            Follows(Hooks.Driven(sticks, hypot, hand, speed, d.0, d.1), sticks, hypot, waistDirection, waist,
                    Reference(axis, universe, hypot), speed)
  {
    hide IsHypot, StickDirection, Reference, UnitPair, Hooks.Driven, UnitVector, Follows;
    var d := if speed > 0.0 && waistDirection then StickDirection(waist, axis, universe, hypot) else (0.0, 1.0);
    var r := Reference(axis, universe, hypot);
    var o := Hooks.Driven(sticks, hypot, hand, speed, d.0, d.1);
    DrivenHand(sticks, hypot, hand, speed, d);
    if o.Off? || hypot(sticks[hand].realX, sticks[hand].realY) > 0.15 {
      DeflectedIs(sticks, hypot, hand, speed, d);
      DeflectedFollows(o, sticks, hypot, waistDirection, waist, r, speed);
    } else {
      StickDirectionRecombines(waist, axis, universe, hypot);
      CentredIs(sticks, hypot, hand, speed, d);
      CentredFollows(o, sticks, hypot, waistDirection, waist, r, speed, d);
    }
  }

  lemma DeflectedFollows(
      o: Hooks.Injected, sticks: seq<Hooks.Stick>, hypot: (real, real) -> real, waistDirection: bool,
      waist: Option<(real, real)>, reference: Option<(real, real)>, speed: real)
    requires |sticks| == 2 && Hooks.Fits(o)
    requires o.On? ==>
               var s := sticks[o.hand];
               var len := hypot(s.realX, s.realY);
               len > 0.15 && o.x * len == s.realX * speed && o.y * len == s.realY * speed
    ensures Follows(o, sticks, hypot, waistDirection, waist, reference, speed)
  {
  }

  lemma CentredFollows(
      o: Hooks.Injected, sticks: seq<Hooks.Stick>, hypot: (real, real) -> real, waistDirection: bool,
      waist: Option<(real, real)>, reference: Option<(real, real)>, speed: real, d: (real, real))
    requires |sticks| == 2 && Hooks.Fits(o) && o.On? && o.x == d.0 * speed && o.y == d.1 * speed
    requires hypot(sticks[o.hand].realX, sticks[o.hand].realY) <= 0.15
    requires if !waistDirection || waist.None? || reference.None? then o.x == 0.0 && o.y == speed
             else d.0 * -reference.value.1 + d.1 * reference.value.0 == waist.value.0
                  && d.0 * reference.value.0 + d.1 * reference.value.1 == waist.value.1
    ensures Follows(o, sticks, hypot, waistDirection, waist, reference, speed)
  {
    if waistDirection && waist.Some? && reference.Some? {
      CentredOnAxes(d, waist.value, reference.value, speed, o.x, o.y);
    }
  }

  lemma DrivenHand(sticks: seq<Hooks.Stick>, hypot: (real, real) -> real, hand: nat, speed: real, d: (real, real))
    requires |sticks| == 2 && hand < 2
    ensures var o := Hooks.Driven(sticks, hypot, hand, speed, d.0, d.1); o.On? ==> o.hand == hand && speed > 0.0
  {
  }

  lemma DeflectedIs(sticks: seq<Hooks.Stick>, hypot: (real, real) -> real, hand: nat, speed: real, d: (real, real))
    requires |sticks| == 2 && hand < 2
    ensures var s, o := sticks[hand], Hooks.Driven(sticks, hypot, hand, speed, d.0, d.1);
            var len := hypot(s.realX, s.realY);
            o.On? && len > 0.15 ==> o.x * len == s.realX * speed && o.y * len == s.realY * speed
  {
    hide UnitVector, Hooks.Injection;
    Hooks.DrivenAims(sticks, hypot, hand, speed, d.0, d.1);
  }

  lemma CentredIs(sticks: seq<Hooks.Stick>, hypot: (real, real) -> real, hand: nat, speed: real, d: (real, real))
    requires |sticks| == 2 && hand < 2 && hypot(sticks[hand].realX, sticks[hand].realY) <= 0.15
    ensures var o := Hooks.Driven(sticks, hypot, hand, speed, d.0, d.1);
            && (o.On? ==> speed > 0.0 && o.x == d.0 * speed && o.y == d.1 * speed)
            && (o.On? && d == (0.0, 1.0) ==> o.x == 0.0 && o.y == speed)
  {
  }

  lemma CentredOnAxes(d: (real, real), w: (real, real), r: (real, real), speed: real, x: real, y: real)
    requires x == d.0 * speed && y == d.1 * speed
    requires d.0 * -r.1 + d.1 * r.0 == w.0 && d.0 * r.0 + d.1 * r.1 == w.1
    ensures x * -r.1 + y * r.0 == w.0 * speed && x * r.0 + y * r.1 == w.1 * speed
  {
    Scaled(d.0, -r.1, d.1, r.0, w.0, speed, x, y);
    Scaled(d.0, r.0, d.1, r.1, w.1, speed, x, y);
  }

  lemma Scaled(a: real, p: real, b: real, q: real, sum: real, k: real, ak: real, bk: real)
    requires a * p + b * q == sum && ak == a * k && bk == b * k
    ensures ak * p + bk * q == sum * k
  {
    assert a * k * p + b * k * q == (a * p + b * q) * k;
  }

  lemma {:induction false} FirstFacingUnit(trackers: seq<Tracker.Tracker>, hypot: (real, real) -> real, now: int)
    requires IsHypot(hypot)
    ensures FirstFacing(trackers, hypot, now).Some? ==> UnitPair(FirstFacing(trackers, hypot, now).value)
    decreases |trackers|
  {
    hide UnitPair, IsHypot;
    if trackers != [] {
      var a := FloorAxis(trackers[0].rotation);
      Tracker.LevelUnitIf(hypot, a.0, a.1);
      FirstFacingUnit(trackers[1..], hypot, now);
    }
  }

  lemma DrivenLength(sticks: seq<Hooks.Stick>, hypot: (real, real) -> real, hand: nat, speed: real, dir: (real, real))
    requires |sticks| == 2 && hand < 2
    ensures var o := Hooks.Driven(sticks, hypot, hand, speed, dir.0, dir.1);
            IsHypot(hypot) && UnitPair(dir) && o.On? ==> Sq(o.x) + Sq(o.y) == Sq(speed)
  {
    hide Sq;
    if IsHypot(hypot) && UnitPair(dir) {
      var s := sticks[hand];
      HookLaws.InjectedLength(s, hypot(s.realX, s.realY), speed, dir.0, dir.1);
    }
  }
}
