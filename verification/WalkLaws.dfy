/** Walk-in-place over whole runs: when a stick is overridden, for how long, and that the two outputs exclude each
    other. */
module WalkLaws {
  import opened Wire
  import opened Clock
  import opened WalkInPlace

  /** A frame, or SteamVR activating or deactivating the treadmill. */
  datatype Event = Framed(f: Frame) | Activated | Deactivated

  function AfterEvent(installed: bool, w: Walk, e: Event): Walk {
    match e
    case Framed(f) => AfterFrame(installed, w, f)
    case Activated => if w.deck.None? then w else w.(deck := Some(w.deck.value.(active := true)))
    case Deactivated => if w.deck.None? then w else w.(deck := Some(w.deck.value.(active := false)))
  }

  function AfterRun(installed: bool, w: Walk, events: seq<Event>): Walk {
    if events == [] then w
    else AfterEvent(installed, AfterRun(installed, w, events[..|events| - 1]), events[|events| - 1])
  }

  /** Nothing is put out yet. */
  predicate Idle(w: Walk) {
    w.driven == -1 && w.hand < 2 && 0.0 <= w.speed <= 1.0 && w.deck.None?
  }

  predicate InOrder(events: seq<Event>) {
    forall i, j :: 0 <= i < j < |events| && events[i].Framed? && events[j].Framed? ==>
      events[i].f.now <= events[j].f.now
  }

  predicate HasInfo(f: Frame) {
    f.connected && exists i :: 0 <= i < |f.messages| && f.messages[i].Info?
  }

  // One step.

  /** An output that is due overrides a stick exactly when walk-in-place is open and injects, the app is connected,
      walking if the stick asks for it, heard within a second and faster than the threshold, and the stick is
      captured. */
  lemma DrivenExactlyWhen(installed: bool, w: Walk, connected: bool, captured: bool, now: int)
    requires now - w.lastOutput >= 10 * MILLISECOND && (w.driven >= 0 ==> installed && !w.asTreadmill)
    ensures var v := Update(installed, w, connected, captured, now);
            v.driven >= 0 <==>
              && w.open && installed && !w.asTreadmill && connected && captured
              && (w.joystickControl ==> w.walking) && now - w.lastInfo <= SECOND && w.speed > 0.03
    ensures var v := Update(installed, w, connected, captured, now);
            v.driven >= 0 ==> v.driven == w.hand && v.speed == w.speed
  {
  }

  /** And one on the treadmill puts the speed on its y axis, under the same condition, and centres its x axis. */
  lemma TreadmillExactlyWhen(installed: bool, w: Walk, connected: bool, captured: bool, now: int)
    requires now - w.lastOutput >= 10 * MILLISECOND && (w.asTreadmill || !installed) && w.deck.Some?
    ensures var v := Update(installed, w, connected, captured, now);
            && v.driven == w.driven && v.deck.Some? && (!w.deck.value.active ==> v.deck == w.deck)
            && (w.deck.value.active ==>
                  && v.deck.value.x == 0.0
                  && (v.deck.value.y != 0.0 <==>
                        && w.open && connected && (w.joystickControl ==> w.walking) && now - w.lastInfo <= SECOND
                        && w.speed > 0.03)
                  && (v.deck.value.y != 0.0 ==> v.deck.value.y == w.speed))
  {
  }

  /** The app repeats its settings; repeating them never disturbs anything. */
  lemma RepeatedSetting(installed: bool, reply: Reply, again: Reply, w: Walk, m: Message)
    requires m.Setting?
    ensures var v := OnSetting(installed, reply, w, m); OnSetting(installed, again, v, m) == v
  {
    hide WithMode;
    ModeSet(installed, reply, w.(joystickControl := m.joystickControl, hand := if m.useLeftHand then 0 else 1),
            m.openWip, m.outputAsTreadmill);
  }

  lemma ModeSet(installed: bool, reply: Reply, w: Walk, open: bool, asTreadmill: bool)
    ensures var v := WithMode(installed, reply, w, open, asTreadmill);
            v.open == open && v.asTreadmill == asTreadmill && v.joystickControl == w.joystickControl && v.hand == w.hand
  {
  }

  predicate Sound(installed: bool, w: Walk) {
    && w.hand < 2 && 0.0 <= w.speed <= 1.0 && -1 <= w.driven <= 1
    && (w.driven >= 0 ==> w.open && !UsesTreadmill(installed, w))
  }

  predicate StickMoved(w: Walk) {
    w.deck.Some? && (w.deck.value.x != 0.0 || w.deck.value.y != 0.0)
  }

  predicate DeckSound(installed: bool, w: Walk) {
    StickMoved(w) ==> w.deck.value.active && UsesTreadmill(installed, w) && w.open
  }

  /** Messages never start an override, nor an output to the treadmill. */
  predicate Quieter(w: Walk, v: Walk, now: int) {
    && v.lastOutput == w.lastOutput
    && (v.lastInfo == w.lastInfo || v.lastInfo == now)
    && (v.driven == w.driven || v.driven == -1)
    && (StickMoved(v) ==> StickMoved(w))
  }

  lemma MessageKeeps(installed: bool, reply: Reply, w: Walk, m: Message, now: int)
    requires Sound(installed, w)
    ensures var v := OnMessage(installed, reply, w, m, now);
            Sound(installed, v) && Quieter(w, v, now) && (DeckSound(installed, w) ==> DeckSound(installed, v))
    ensures var v := OnMessage(installed, reply, w, m, now);
            !m.Info? ==> v.lastInfo == w.lastInfo
  {
  }

  lemma {:induction false} MessagesKeep(installed: bool, reply: Reply, w: Walk, ms: seq<Message>, now: int)
    requires Sound(installed, w)
    ensures var v := Received(installed, reply, w, ms, now);
            Sound(installed, v) && Quieter(w, v, now) && (DeckSound(installed, w) ==> DeckSound(installed, v))
    ensures var v := Received(installed, reply, w, ms, now);
            (forall i :: 0 <= i < |ms| ==> !ms[i].Info?) ==> v.lastInfo == w.lastInfo
    decreases |ms|
  {
    hide OnMessage, Sound, DeckSound, StickMoved;
    if ms != [] {
      var n := |ms| - 1;
      MessagesKeep(installed, reply, w, ms[..n], now);
      MessageKeeps(installed, reply, Received(installed, reply, w, ms[..n], now), ms[n], now);
    }
  }

  lemma UpdateKeeps(installed: bool, w: Walk, connected: bool, captured: bool, now: int)
    requires Sound(installed, w)
    ensures var v := Update(installed, w, connected, captured, now);
            && Sound(installed, v) && (DeckSound(installed, w) ==> DeckSound(installed, v))
            && v.lastInfo == w.lastInfo
            && (v.driven >= 0 ==>
                  || (v.lastOutput == now && connected && now - v.lastInfo <= SILENCE)
                  || (v.lastOutput == w.lastOutput && v.driven == w.driven && now - v.lastOutput < OUTPUT_INTERVAL))
  {
  }

  /** Messages that are no wip_info keep the speed and the walking flag, or clear both with a change of mode. */
  lemma {:induction false} NoInfo(installed: bool, reply: Reply, w: Walk, ms: seq<Message>, now: int)
    requires forall i :: 0 <= i < |ms| ==> !ms[i].Info?
    ensures var v := Received(installed, reply, w, ms, now);
            && v.lastInfo == w.lastInfo && v.lastOutput == w.lastOutput
            && ((v.speed == w.speed && v.walking == w.walking) || (v.speed == 0.0 && !v.walking))
    decreases |ms|
  {
    if ms != [] {
      NoInfo(installed, reply, w, ms[..|ms| - 1], now);
    }
  }

  lemma {:induction false} ReceivedAppend(installed: bool, reply: Reply, w: Walk, a: seq<Message>, b: seq<Message>,
                                          now: int)
    ensures Received(installed, reply, w, a + b, now) ==
              Received(installed, reply, Received(installed, reply, w, a, now), b, now)
    decreases |b|
  {
    hide OnMessage;
    if b == [] {
      assert a + b == a;
    } else {
      var n := |b| - 1;
      assert (a + b)[..|a| + n] == a + b[..n] && (a + b)[|a| + n] == b[n];
      ReceivedAppend(installed, reply, w, a, b[..n], now);
    }
  }

  /** The last wip_info of a frame decides: after a stop nothing is put out, unless only the walking flag
      was cleared and the stick does not ask for it. */
  lemma StopObeyed(installed: bool, w: Walk, f: Frame, a: seq<Message>, info: Message, b: seq<Message>)
    requires f.connected && f.messages == a + [info] + b && info.Info? && forall i :: 0 <= i < |b| ==> !b[i].Info?
    requires f.now - w.lastOutput >= OUTPUT_INTERVAL && Sound(installed, w)
    requires info.status == STOPPED || (info.status == STOP_WALKING && AfterFrame(installed, w, f).joystickControl)
    ensures AfterFrame(installed, w, f).driven == -1
    ensures var v := AfterFrame(installed, w, f);
            StickMoved(v) ==> !v.deck.value.active || !UsesTreadmill(installed, v)
  {
    hide StickMoved;
    var u := Received(installed, f.reply, w, a, f.now);
    MessagesKeep(installed, f.reply, w, a, f.now);
    ReceivedAppend(installed, f.reply, w, a + [info], b, f.now);
    assert (a + [info])[..|a|] == a;
    var v := OnInfo(u, info, f.now);
    NoInfo(installed, f.reply, v, b, f.now);
    MessagesKeep(installed, f.reply, w, f.messages, f.now);
    NothingOut(installed, Received(installed, f.reply, w, f.messages, f.now), f.connectedAtOutput, f.captured, f.now);
  }

  lemma NothingOut(installed: bool, w: Walk, connected: bool, captured: bool, now: int)
    requires Sound(installed, w) && now - w.lastOutput >= OUTPUT_INTERVAL
    requires w.speed <= THRESHOLD || (w.joystickControl && !w.walking)
    ensures var v := Update(installed, w, connected, captured, now);
            && v.driven == -1 && v.joystickControl == w.joystickControl
            && (StickMoved(v) ==> !v.deck.value.active || !UsesTreadmill(installed, v))
  {
  }

  // Whole runs.

  /** The output of frame `k` was made while connected. */
  predicate OutputAt(events: seq<Event>, k: nat, time: int) {
    k < |events| && events[k].Framed? && events[k].f.connectedAtOutput && events[k].f.now == time
  }

  /** While a stick is overridden: the last output was at most 10 ms before the latest frame, while connected,
      and at most a second after the app was last heard. */
  ghost predicate Backed(w: Walk, events: seq<Event>) {
    w.driven >= 0 ==>
      && (exists k: nat :: OutputAt(events, k, w.lastOutput))
      && w.lastOutput - w.lastInfo <= SILENCE
      && (forall k :: 0 <= k < |events| && events[k].Framed? ==> events[k].f.now - w.lastOutput < OUTPUT_INTERVAL)
  }

  lemma FrameBacked(installed: bool, w: Walk, events: seq<Event>, f: Frame)
    requires Sound(installed, w) && Backed(w, events) && InOrder(events + [Framed(f)])
    ensures var v := AfterFrame(installed, w, f);
            Sound(installed, v) && Backed(v, events + [Framed(f)])
            && (DeckSound(installed, w) ==> DeckSound(installed, v))
    ensures !HasInfo(f) ==> AfterFrame(installed, w, f).lastInfo == w.lastInfo
    ensures AfterFrame(installed, w, f).lastInfo == w.lastInfo || AfterFrame(installed, w, f).lastInfo == f.now
  {
    hide Received, Update, Sound, DeckSound, StickMoved;
    var all := events + [Framed(f)];
    var u := if f.connected then Received(installed, f.reply, w, f.messages, f.now) else w;
    if f.connected {
      MessagesKeep(installed, f.reply, w, f.messages, f.now);
    }
    UpdateKeeps(installed, u, f.connectedAtOutput, f.captured, f.now);
    var v := AfterFrame(installed, w, f);
    if v.driven >= 0 {
      assert all[|events|] == Framed(f);
      if v.lastOutput == f.now && f.connectedAtOutput && f.now - v.lastInfo <= SILENCE {
        assert OutputAt(all, |events|, v.lastOutput);
        assert forall k :: 0 <= k < |all| && all[k].Framed? ==> all[k].f.now <= f.now;
      } else {
        var k: nat :| OutputAt(events, k, w.lastOutput);
        assert all[k] == events[k];
        assert OutputAt(all, k, v.lastOutput);
        assert forall j :: 0 <= j < |events| ==> all[j] == events[j];
      }
    }
  }

  /** Over every run. */
  lemma {:induction false} RunBacked(installed: bool, w: Walk, events: seq<Event>)
    requires Idle(w) && InOrder(events)
    ensures var v := AfterRun(installed, w, events);
            Sound(installed, v) && Backed(v, events) && (Deactivated !in events ==> DeckSound(installed, v))
    decreases |events|
  {
    hide AfterFrame, Sound, DeckSound, Backed, InOrder;
    if events == [] {
      IdleSound(installed, w);
    } else {
      var n := |events| - 1;
      var u := AfterRun(installed, w, events[..n]);
      assert events == events[..n] + [events[n]];
      Prefix(events, n);
      RunBacked(installed, w, events[..n]);
      match events[n]
      case Framed(f) => FrameBacked(installed, u, events[..n], f);
      case Activated => DeviceKeeps(installed, u, events[..n], Activated);
      case Deactivated => DeviceKeeps(installed, u, events[..n], Deactivated);
    }
  }

  lemma IdleSound(installed: bool, w: Walk)
    requires Idle(w)
    ensures Sound(installed, w) && Backed(w, []) && DeckSound(installed, w)
  {
  }

  lemma Prefix(events: seq<Event>, n: nat)
    requires InOrder(events) && n <= |events|
    ensures InOrder(events[..n])
  {
  }

  lemma DeviceKeeps(installed: bool, w: Walk, events: seq<Event>, e: Event)
    requires !e.Framed? && Sound(installed, w) && Backed(w, events)
    ensures var v := AfterEvent(installed, w, e);
            Sound(installed, v) && Backed(v, events + [e])
            && (e.Activated? && DeckSound(installed, w) ==> DeckSound(installed, v))
  {
    var all := events + [e];
    if w.driven >= 0 {
      var k: nat :| OutputAt(events, k, w.lastOutput);
      assert all[k] == events[k];
      assert OutputAt(all, k, w.lastOutput);
    }
    assert forall j :: 0 <= j < |events| ==> all[j] == events[j];
  }

  /** Over every run a stick is overridden only while walk-in-place is open and injects, less than 1010 ms after
      the app was last heard, and less than 10 ms after an output made while connected. */
  lemma OverrideIsRecent(installed: bool, w: Walk, events: seq<Event>, k: nat)
    requires Idle(w) && InOrder(events) && k < |events| && events[k].Framed?
    ensures var v := AfterRun(installed, w, events);
            v.driven >= 0 ==>
              && v.open && !UsesTreadmill(installed, v) && 0.0 <= v.speed <= 1.0
              && events[k].f.now < v.lastInfo + SILENCE + OUTPUT_INTERVAL
              && exists j: nat :: OutputAt(events, j, v.lastOutput) && events[k].f.now - v.lastOutput < OUTPUT_INTERVAL
  {
    RunBacked(installed, w, events);
  }

  /** The latest time the app was heard, as far as the messages tell. */
  lemma {:induction false} HeardNoLaterThan(installed: bool, w: Walk, events: seq<Event>, last: int)
    requires Idle(w) && InOrder(events) && w.lastInfo <= last
    requires forall k :: 0 <= k < |events| && events[k].Framed? && HasInfo(events[k].f) ==> events[k].f.now <= last
    ensures AfterRun(installed, w, events).lastInfo <= last
    decreases |events|
  {
    hide HasInfo, AfterFrame;
    if events != [] {
      var n := |events| - 1;
      Prefix(events, n);
      HeardNoLaterThan(installed, w, events[..n], last);
      RunBacked(installed, w, events[..n]);
      assert events == events[..n] + [events[n]];
      if events[n].Framed? {
        FrameBacked(installed, AfterRun(installed, w, events[..n]), events[..n], events[n].f);
      }
    }
  }

  /** Some frame ran at most `gap` before time `t`, and none after it. */
  predicate RanWithin(events: seq<Event>, gap: int, t: int, k: nat) {
    k < |events| && events[k].Framed? && t - gap <= events[k].f.now <= t
  }

  /** The override ends within 1010 ms and one frame gap of the last word of the app. */
  lemma EndsAfterSilence(installed: bool, w: Walk, events: seq<Event>, last: int, gap: int, t: int, k: nat)
    requires Idle(w) && InOrder(events) && w.lastInfo <= last
    requires forall j :: 0 <= j < |events| && events[j].Framed? && HasInfo(events[j].f) ==> events[j].f.now <= last
    requires RanWithin(events, gap, t, k) && t >= last + SILENCE + OUTPUT_INTERVAL + gap
    ensures AfterRun(installed, w, events).driven == -1
  {
    hide HasInfo, AfterFrame;
    RunBacked(installed, w, events);
    HeardNoLaterThan(installed, w, events, last);
  }

  /** And within 10 ms and one frame gap of a disconnect that lasts. */
  lemma EndsAfterDisconnect(installed: bool, w: Walk, events: seq<Event>, last: int, gap: int, t: int, k: nat)
    requires Idle(w) && InOrder(events)
    requires forall j :: 0 <= j < |events| && events[j].Framed? && events[j].f.connectedAtOutput ==>
               events[j].f.now <= last
    requires RanWithin(events, gap, t, k) && t >= last + OUTPUT_INTERVAL + gap
    ensures AfterRun(installed, w, events).driven == -1
  {
    hide AfterFrame;
    RunBacked(installed, w, events);
  }

  // When the app was heard. A message waits in the queue until a connected frame handles it, also across a disconnect.

  /** `received(k, i)` is the time message `i` of frame `k` was queued: not before any earlier connected frame, each
      of which took everything queued by then. */
  predicate Timed(events: seq<Event>, received: (nat, nat) -> int) {
    forall k, i ::
      0 <= k < |events| && events[k].Framed? && events[k].f.connected && 0 <= i < |events[k].f.messages| ==>
      forall j :: 0 <= j < k && events[j].Framed? && events[j].f.connected ==> events[j].f.now <= received(k, i)
  }

  /** Message `i` of frame `k` is a wip_info that is handled. */
  predicate InfoAt(events: seq<Event>, k: nat, i: nat) {
    && k < |events| && events[k].Framed? && events[k].f.connected
    && i < |events[k].f.messages| && events[k].f.messages[i].Info?
  }

  /** Frame `k` handles the last wip_info of the run. */
  ghost predicate LastInfoAt(events: seq<Event>, k: nat, i: nat) {
    InfoAt(events, k, i) && forall j: nat, n: nat :: InfoAt(events, j, n) ==> j <= k
  }

  /** No speed and no override without a wip_info, and `lastInfo` is when the last one was handled. */
  ghost predicate HeardOf(w: Walk, events: seq<Event>) {
    w.driven >= 0 || w.speed > 0.0 ==>
      exists k: nat, i: nat :: LastInfoAt(events, k, i) && w.lastInfo == events[k].f.now
  }

  predicate Silent(ms: seq<Message>) {
    forall i :: 0 <= i < |ms| ==> !ms[i].Info?
  }

  lemma FrameHeard(installed: bool, w: Walk, events: seq<Event>, f: Frame)
    requires Sound(installed, w) && HeardOf(w, events)
    ensures HeardOf(AfterFrame(installed, w, f), events + [Framed(f)])
  {
    hide Received, Update, Sound;
    var all := events + [Framed(f)];
    var v := AfterFrame(installed, w, f);
    assert all[|events|] == Framed(f) && forall j :: 0 <= j < |events| ==> all[j] == events[j];
    var u := if f.connected then Received(installed, f.reply, w, f.messages, f.now) else w;
    if f.connected {
      MessagesKeep(installed, f.reply, w, f.messages, f.now);
      InfosTell(installed, f.reply, w, f.messages, f.now);
    }
    UpdateKeeps(installed, u, f.connectedAtOutput, f.captured, f.now);
    SpeedStays(installed, u, f.connectedAtOutput, f.captured, f.now);
    if f.connected && !Silent(f.messages) {
      var i: nat :| i < |f.messages| && f.messages[i].Info?;
      assert InfoAt(all, |events|, i);
      assert LastInfoAt(all, |events|, i);
    } else if v.driven >= 0 || v.speed > 0.0 {
      if f.connected {
        NoInfo(installed, f.reply, w, f.messages, f.now);
      }
      var k: nat, i: nat :| LastInfoAt(events, k, i) && w.lastInfo == events[k].f.now;
      assert InfoAt(all, k, i);
      assert forall j: nat, n: nat :: InfoAt(all, j, n) ==> InfoAt(events, j, n);
      assert LastInfoAt(all, k, i);
    }
  }

  /** With a wip_info among them, the messages set the time of the last one. */
  lemma {:induction false} InfosTell(installed: bool, reply: Reply, w: Walk, ms: seq<Message>, now: int)
    ensures !Silent(ms) ==> Received(installed, reply, w, ms, now).lastInfo == now
    decreases |ms|
  {
    if ms != [] {
      var n := |ms| - 1;
      InfosTell(installed, reply, w, ms[..n], now);
      assert ms == ms[..n] + [ms[n]];
    }
  }

  lemma SpeedStays(installed: bool, w: Walk, connected: bool, captured: bool, now: int)
    ensures var v := Update(installed, w, connected, captured, now);
            && v.lastInfo == w.lastInfo && (v.speed == w.speed || v.speed == 0.0)
            && (v.driven >= 0 ==> w.driven >= 0 || w.speed > 0.0)
  {
  }

  lemma {:induction false} RunHeard(installed: bool, w: Walk, events: seq<Event>)
    requires Idle(w) && w.speed == 0.0
    ensures Sound(installed, AfterRun(installed, w, events)) && HeardOf(AfterRun(installed, w, events), events)
    decreases |events|
  {
    hide AfterFrame, Sound;
    if events == [] {
      IdleSound(installed, w);
    } else {
      var n := |events| - 1;
      var u := AfterRun(installed, w, events[..n]);
      RunHeard(installed, w, events[..n]);
      RunMatches(installed, w, events);
      assert events == events[..n] + [events[n]];
      match events[n]
      case Framed(f) => FrameHeard(installed, u, events[..n], f);
      case _ => DeviceHeard(installed, u, events[..n], events[n]);
    }
  }

  lemma DeviceHeard(installed: bool, w: Walk, events: seq<Event>, e: Event)
    requires !e.Framed? && HeardOf(w, events)
    ensures HeardOf(AfterEvent(installed, w, e), events + [e])
  {
    var all := events + [e];
    assert forall j :: 0 <= j < |events| ==> all[j] == events[j];
    assert forall j: nat, n: nat :: InfoAt(all, j, n) <==> InfoAt(events, j, n);
    if w.driven >= 0 || w.speed > 0.0 {
      var k: nat, i: nat :| LastInfoAt(events, k, i) && w.lastInfo == events[k].f.now;
      assert LastInfoAt(all, k, i);
    }
  }

  /** A connected frame ran at most `gap` before this one. */
  predicate Prompt(events: seq<Event>, k: nat, gap: int)
    requires k < |events| && events[k].Framed?
  {
    exists j :: 0 <= j < k && events[j].Framed? && events[j].f.connected && events[k].f.now - events[j].f.now <= gap
  }

  /** A handled message is surely at most `gap` old exactly when a connected frame ran at most that long before. */
  lemma FreshIffPrompt(events: seq<Event>, k: nat, i: nat, gap: int)
    requires InOrder(events) && InfoAt(events, k, i)
    ensures Prompt(events, k, gap) <==>
              forall received: (nat, nat) -> int :: Timed(events, received) ==> events[k].f.now - received(k, i) <= gap
  {
    if !Prompt(events, k, gap) {
      var late := (a: nat, b: nat) => if a == k then events[k].f.now - gap - 1
                                      else if a < |events| && events[a].Framed? then events[a].f.now else 0;
      assert Timed(events, late);
      assert events[k].f.now - late(k, i) > gap;
    }
  }

  /** Over every run an override is backed by the last wip_info handled. Counted from its receipt, it is less than
      1010 ms old plus the gap between the connected frames around its handling. */
  lemma BackedByReceipt(
      installed: bool, w: Walk, events: seq<Event>, received: (nat, nat) -> int, gap: int, n: nat)
    requires Idle(w) && w.speed == 0.0 && InOrder(events) && Timed(events, received)
    requires n < |events| && events[n].Framed? && AfterRun(installed, w, events).driven >= 0
    ensures exists k: nat, i: nat ::
              && LastInfoAt(events, k, i) && AfterRun(installed, w, events).lastInfo == events[k].f.now
              && events[n].f.now < events[k].f.now + SILENCE + OUTPUT_INTERVAL
              && (Prompt(events, k, gap) ==> events[n].f.now < received(k, i) + SILENCE + OUTPUT_INTERVAL + gap)
  {
    hide AfterFrame;
    RunHeard(installed, w, events);
    OverrideIsRecent(installed, w, events, n);
    var k: nat, i: nat :| LastInfoAt(events, k, i) && AfterRun(installed, w, events).lastInfo == events[k].f.now;
    assert InfoAt(events, k, i);
  }

  /** Counted from the last receipt, the override ends within 1010 ms, one frame gap, and one gap between the
      connected frames around the handling. */
  lemma EndsAfterLastReceipt(
      installed: bool, w: Walk, events: seq<Event>, received: (nat, nat) -> int, last: int, gap: int, t: int, k: nat)
    requires Idle(w) && InOrder(events) && Timed(events, received) && w.lastInfo <= last + gap
    requires forall j: nat, i: nat :: InfoAt(events, j, i) ==> received(j, i) <= last && Prompt(events, j, gap)
    requires RanWithin(events, gap, t, k) && t >= last + gap + SILENCE + OUTPUT_INTERVAL + gap
    ensures AfterRun(installed, w, events).driven == -1
  {
    hide AfterFrame;
    forall j | 0 <= j < |events| && events[j].Framed? && HasInfo(events[j].f)
      ensures events[j].f.now <= last + gap
    {
      var i: nat :| i < |events[j].f.messages| && events[j].f.messages[i].Info?;
      assert InfoAt(events, j, i);
    }
    EndsAfterSilence(installed, w, events, last + gap, gap, t, k);
  }

  /** Frames at these times, all of them without a connection. */
  function Outage(times: seq<int>): (events: seq<Event>)
    ensures |events| == |times|
    ensures forall i :: 0 <= i < |times| ==> events[i] == Framed(Frame(times[i], false, [], Rejected, false, true))
  {
    seq(|times|, i requires 0 <= i < |times| => Framed(Frame(times[i], false, [], Rejected, false, true)))
  }

  predicate Ready(w: Walk, before: int) {
    w.open && !w.asTreadmill && w.hand == 1 && !w.joystickControl && w.driven == -1 && w.lastOutput <= before
  }

  lemma {:induction false} OutageKeeps(w: Walk, first: Event, times: seq<int>, before: int)
    requires forall i :: 0 <= i < |times| ==> times[i] <= before
    requires Ready(AfterRun(true, w, [first]), before)
    ensures Ready(AfterRun(true, w, [first] + Outage(times)), before)
    decreases |times|
  {
    if times == [] {
      assert [first] + Outage(times) == [first];
    } else {
      var n := |times| - 1;
      OutageKeeps(w, first, times[..n], before);
      assert [first] + Outage(times) == [first] + Outage(times[..n]) + [Outage(times)[n]];
      OneMore(true, w, [first] + Outage(times[..n]), Outage(times)[n]);
    }
  }

  /** Across an outage there is no such bound: a wip_info queued just before it is handled after it, and counts as
      fresh, however long the outage was and whatever frames ran meanwhile. */
  lemma FreshAfterOutage(w: Walk, times: seq<int>, outage: int)
    requires w == Walk(false, false, false, false, 0, 0.0, 0, 0, None, -1) && outage >= OUTPUT_INTERVAL
    requires forall i, j :: 0 <= i < j < |times| ==> times[i] <= times[j]
    requires forall i :: 0 <= i < |times| ==> SECOND <= times[i] <= SECOND + outage - OUTPUT_INTERVAL
    ensures var first := Framed(Frame(SECOND, true, [Setting(false, false, true, false)], Rejected, true, true));
            var last := Framed(Frame(SECOND + outage, true, [Info(0.5, WALKING)], Rejected, true, true));
            var events := [first] + Outage(times) + [last];
            && InOrder(events) && Timed(events, (k, i) => SECOND)
            && InfoAt(events, |times| + 1, 0) && AfterRun(true, w, events).driven == 1
  {
    hide AfterFrame;
    var m1, m2 := Setting(false, false, true, false), Info(0.5, WALKING);
    var first := Frame(SECOND, true, [m1], Rejected, true, true);
    var last := Frame(SECOND + outage, true, [m2], Rejected, true, true);
    var before := [Framed(first)] + Outage(times);
    FirstFrame(w, first);
    OutageKeeps(w, Framed(first), times, SECOND + outage - OUTPUT_INTERVAL);
    LastFrame(AfterRun(true, w, before), last);
    OneMore(true, w, before, Framed(last));
  }

  lemma FirstFrame(w: Walk, f: Frame)
    requires w == Walk(false, false, false, false, 0, 0.0, 0, 0, None, -1)
    requires f == Frame(SECOND, true, [Setting(false, false, true, false)], Rejected, true, true)
    ensures Ready(AfterRun(true, w, [Framed(f)]), SECOND)
  {
    OneMessage(true, Rejected, w, f.messages[0], SECOND);
    assert [] + [Framed(f)] == [Framed(f)];
    OneMore(true, w, [], Framed(f));
  }

  lemma LastFrame(w: Walk, f: Frame)
    requires Ready(w, f.now - OUTPUT_INTERVAL)
    requires f == Frame(f.now, true, [Info(0.5, WALKING)], Rejected, true, true)
    ensures AfterFrame(true, w, f).driven == 1
  {
    OneMessage(true, Rejected, w, f.messages[0], f.now);
  }

  lemma OneMessage(installed: bool, reply: Reply, w: Walk, m: Message, now: int)
    ensures Received(installed, reply, w, [m], now) == OnMessage(installed, reply, w, m, now)
  {
    hide OnMessage;
    assert [m][..0] == [];
    assert Received(installed, reply, w, [], now) == w;
  }

  // The two outputs.

  predicate ChangesMode(w: Walk, m: Message) {
    m.Setting? && !(m.openWip == w.open && m.outputAsTreadmill == w.asTreadmill)
  }

  /** The treadmill would not take a value, and its stick is not centred. */
  predicate CannotCentre(w: Walk) {
    StickMoved(w) && !w.deck.value.active
  }

  /** A change of mode away from the treadmill leaves its stick moved exactly when the treadmill is inactive and
      moved. */
  lemma ModeChangeCentres(installed: bool, reply: Reply, w: Walk, m: Message)
    requires ChangesMode(w, m)
    ensures var v := OnSetting(installed, reply, w, m);
            !(v.open && UsesTreadmill(installed, v)) ==> (StickMoved(v) <==> CannotCentre(w))
  {
  }

  /** Whether the last change of mode among the messages found the treadmill inactive and moved, or `start`. */
  predicate StrandedBy(installed: bool, reply: Reply, w: Walk, ms: seq<Message>, now: int, start: bool)
  {
    if ms == [] then start
    else
      var n := |ms| - 1;
      var u := Received(installed, reply, w, ms[..n], now);
      if ChangesMode(u, ms[n]) then CannotCentre(u) else StrandedBy(installed, reply, w, ms[..n], now, start)
  }

  /** Whether the last change of mode in the run did. */
  predicate Stranded(installed: bool, w: Walk, events: seq<Event>)
  {
    events != [] &&
    var n := |events| - 1;
    match events[n]
    case Framed(f) =>
      if f.connected
      then StrandedBy(installed, f.reply, AfterRun(installed, w, events[..n]), f.messages, f.now,
                      Stranded(installed, w, events[..n]))
      else Stranded(installed, w, events[..n])
    case _ => Stranded(installed, w, events[..n])
  }

  /** While injecting, the treadmill's stick is moved exactly when the last change of mode stranded it. */
  predicate Matches(installed: bool, w: Walk, stranded: bool) {
    w.open && !UsesTreadmill(installed, w) ==> (StickMoved(w) <==> stranded)
  }

  lemma MessageMatches(installed: bool, reply: Reply, w: Walk, m: Message, now: int, stranded: bool)
    requires Matches(installed, w, stranded)
    ensures Matches(installed, OnMessage(installed, reply, w, m, now),
                    if ChangesMode(w, m) then CannotCentre(w) else stranded)
  {
    if ChangesMode(w, m) {
      ModeChangeCentres(installed, reply, w, m);
    }
  }

  lemma {:induction false} MessagesMatch(installed: bool, reply: Reply, w: Walk, ms: seq<Message>, now: int,
                                         start: bool)
    requires Matches(installed, w, start)
    ensures Matches(installed, Received(installed, reply, w, ms, now), StrandedBy(installed, reply, w, ms, now, start))
    decreases |ms|
  {
    hide OnMessage, Matches, ChangesMode, CannotCentre;
    if ms != [] {
      var n := |ms| - 1;
      MessagesMatch(installed, reply, w, ms[..n], now, start);
      MessageMatches(installed, reply, Received(installed, reply, w, ms[..n], now), ms[n], now,
                     StrandedBy(installed, reply, w, ms[..n], now, start));
    }
  }

  lemma UpdateMatches(installed: bool, w: Walk, connected: bool, captured: bool, now: int, stranded: bool)
    requires Matches(installed, w, stranded)
    ensures Matches(installed, Update(installed, w, connected, captured, now), stranded)
  {
  }

  lemma {:induction false} RunMatches(installed: bool, w: Walk, events: seq<Event>)
    requires Idle(w)
    ensures var v := AfterRun(installed, w, events);
            Sound(installed, v) && Matches(installed, v, Stranded(installed, w, events))
    decreases |events|
  {
    hide Update, Received, StrandedBy;
    if events != [] {
      var n := |events| - 1;
      RunMatches(installed, w, events[..n]);
      var u := AfterRun(installed, w, events[..n]);
      match events[n]
      case Framed(f) =>
        var r := if f.connected then Received(installed, f.reply, u, f.messages, f.now) else u;
        if f.connected {
          MessagesKeep(installed, f.reply, u, f.messages, f.now);
          MessagesMatch(installed, f.reply, u, f.messages, f.now, Stranded(installed, w, events[..n]));
        }
        UpdateKeeps(installed, r, f.connectedAtOutput, f.captured, f.now);
        UpdateMatches(installed, r, f.connectedAtOutput, f.captured, f.now, Stranded(installed, w, events));
      case _ =>
    }
  }

  /** Over every run, a hand's stick is overridden while the treadmill's is moved exactly when it is overridden
      and the last change of mode was made while the treadmill was inactive with its stick moved. */
  lemma BothIff(installed: bool, w: Walk, events: seq<Event>)
    requires Idle(w)
    ensures var v := AfterRun(installed, w, events);
            v.driven >= 0 && StickMoved(v) <==> v.driven >= 0 && Stranded(installed, w, events)
  {
    RunMatches(installed, w, events);
  }

  /** So without a deactivation it never is ... */
  lemma NeverBoth(installed: bool, w: Walk, events: seq<Event>)
    requires Idle(w) && InOrder(events) && Deactivated !in events
    ensures var v := AfterRun(installed, w, events);
            !(v.driven >= 0 && StickMoved(v)) && !(v.driven >= 0 && Stranded(installed, w, events))
  {
    RunBacked(installed, w, events);
    BothIff(installed, w, events);
  }

  /** ... and after a deactivation the treadmill's last value can stay while a hand's stick is driven. */
  lemma BothAfterDeactivation(w: Walk)
    requires w == Walk(false, false, false, false, 0, 0.0, 0, 0, None, -1)
    ensures var first := Frame(SECOND, true, [Setting(false, false, true, true), Info(0.5, WALKING)], Accepted(true),
                               true, true);
            var second := Frame(2 * SECOND, true, [Setting(false, false, true, false), Info(0.5, WALKING)], Rejected,
                                true, true);
            var v := AfterRun(true, w, [Framed(first), Deactivated, Framed(second)]);
            v.driven == 1 && StickMoved(v)
  {
    var m1, m2 := [Setting(false, false, true, true), Info(0.5, WALKING)],
          [Setting(false, false, true, false), Info(0.5, WALKING)];
    var first := Frame(SECOND, true, m1, Accepted(true), true, true);
    var second := Frame(2 * SECOND, true, m2, Rejected, true, true);
    TwoMessages(true, Accepted(true), w, m1[0], m1[1], SECOND);
    var a := AfterFrame(true, w, first);
    assert a.deck == Some(Deck(true, true, 0.0, 0.5)) && a.open && a.asTreadmill;
    var b := AfterEvent(true, a, Deactivated);
    TwoMessages(true, Rejected, b, m2[0], m2[1], 2 * SECOND);
    assert AfterRun(true, w, []) == w;
    OneMore(true, w, [], Framed(first));
    OneMore(true, w, [Framed(first)], Deactivated);
    OneMore(true, w, [Framed(first), Deactivated], Framed(second));
    assert [Framed(first), Deactivated] + [Framed(second)] == [Framed(first), Deactivated, Framed(second)];
    assert [Framed(first)] + [Deactivated] == [Framed(first), Deactivated] && [] + [Framed(first)] == [Framed(first)];
    var c := OnSetting(true, Rejected, b, m2[0]);
    assert c.deck == Some(Deck(false, false, 0.0, 0.5)) && c.open && c.hand == 1;
    assert OnInfo(c, m2[1], 2 * SECOND).speed == 0.5;
  }

  lemma TwoMessages(installed: bool, reply: Reply, w: Walk, m: Message, n: Message, now: int)
    ensures Received(installed, reply, w, [m, n], now) ==
            OnMessage(installed, reply, OnMessage(installed, reply, w, m, now), n, now)
  {
    hide OnMessage;
    assert [m, n][..1] == [m] && [m][..0] == [];
    assert Received(installed, reply, w, [], now) == w;
    assert Received(installed, reply, w, [m], now) == OnMessage(installed, reply, w, m, now);
  }

  lemma OneMore(installed: bool, w: Walk, events: seq<Event>, e: Event)
    ensures AfterRun(installed, w, events + [e]) == AfterEvent(installed, AfterRun(installed, w, events), e)
  {
    assert (events + [e])[..|events|] == events;
  }
}
