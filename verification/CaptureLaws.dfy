/** How long a hand controller's stick can stay uncaptured: runs of component creations and frames. */
module CaptureLaws {
  import opened Wire
  import opened Clock
  import opened Hooks
  import opened HookLaws
  import WalkInPlace
  import Proto
  import Tracker
  import Pose

  datatype Hands = Hands(sticks: seq<Stick>, pending: seq<Pending>, lastResolve: int)

  /** A component is created, or a frame runs. `role` is what the property reads give in that frame; `arrived` is what
      is created while the list is worked on. */
  datatype Event = Created(p: Pending) | Framed(now: int, role: Pending -> Option<int>, arrived: seq<Pending>)

  function RolesOf(pending: seq<Pending>, role: Pending -> Option<int>): (r: seq<Option<int>>)
    ensures |r| == |pending| && forall i :: 0 <= i < |r| ==> r[i] == role(pending[i])
  {
    seq(|pending|, i requires 0 <= i < |pending| => role(pending[i]))
  }

  /** With the hooks installed. */
  function Next(h: Hands, e: Event): (n: Hands)
    requires |h.sticks| == 2
    ensures |n.sticks| == 2
  {
    match e
    case Created(p) => h.(pending := Remembered(h.pending, p))
    case Framed(now, role, arrived) =>
      if now - h.lastResolve <= SECOND then h
      else
        var roles := RolesOf(h.pending, role);
        Hands(AssignAll(h.sticks, h.pending, roles), arrived + Kept(h.pending, roles), now)
  }

  function After(h: Hands, events: seq<Event>): (n: Hands)
    requires |h.sticks| == 2
    ensures |n.sticks| == 2
    decreases |events|
  {
    if events == [] then h else After(Next(h, events[0]), events[1..])
  }

  function HandsOf(w: WalkInPlace.Walker): Hands
    reads w, w.hooks
  {
    Hands(w.hooks.sticks, w.hooks.pending, w.lastResolve)
  }

  /** The program does to the hands what the laws below reason about. */
  method Handle(
      w: WalkInPlace.Walker, e: Event, name: string, boolean: bool, connected: bool, messages: seq<Proto.Msg>,
      reply: WalkInPlace.Reply, trackers: seq<Tracker.Tracker>, axis: Option<(real, real)>,
      universe: Option<Pose.Universe>)
    requires w.Shaped() && w.installed && forall t :: t in trackers ==> t.Valid()
    requires e.Created? ==> AxisOf(name, boolean) == e.p.axis != ' '
    modifies w, w.hooks, w.treadmill
    ensures w.Shaped() && |old(w.hooks.sticks)| == 2
    ensures HandsOf(w) == Next(old(HandsOf(w)), e)
  {
    hide AxisOf, AssignAll, Kept, State.Valid, WalkInPlace.Received, WalkInPlace.Update, WalkInPlace.ToldVia;
    match e
    case Created(p) => w.hooks.Remember(p.owner, p.container, Some(name), p.handle, boolean);
    case Framed(now, role, arrived) =>
      w.RunFrame(connected, messages, reply, connected, trackers, axis, universe, RolesOf(w.hooks.pending, role),
                 arrived, now);
  }

  function HandleFor(s: Stick, axis: char): Handle {
    if axis == 'x' then s.x else if axis == 'y' then s.y else s.touch
  }

  function PartOf(p: Pending): char {
    if p.axis == 'x' || p.axis == 'y' then p.axis else 't'
  }

  function Creations(events: seq<Event>): nat {
    if events == [] then 0 else (if events[0].Created? then 1 else 0) + Creations(events[1..])
  }

  /** Every frame reads this role for the component's device. */
  predicate Reads(events: seq<Event>, p: Pending, hand: nat) {
    forall k :: 0 <= k < |events| && events[k].Framed? ==> events[k].role(p) == Some(if hand == 0 then 1 else 2)
  }

  /** The claim that counts stands at or behind any other. */
  lemma {:induction false} LastClaimFrom(
      todo: seq<Pending>, roles: seq<Option<int>>, hand: nat, axis: char, was: Handle, i: nat)
    returns (j: nat)
    requires i < |todo| == |roles| && Claims(todo[i], roles[i], hand, axis)
    ensures i <= j < |todo| && Claims(todo[j], roles[j], hand, axis)
    ensures LastClaim(todo, roles, hand, axis, was) == todo[j].handle
    decreases |todo|
  {
    var n := |todo| - 1;
    if Claims(todo[n], roles[n], hand, axis) {
      j := n;
    } else {
      j := LastClaimFrom(todo[..n], roles[..n], hand, axis, was, i);
    }
  }

  /** A creation moves the list by one place at most, and drops nothing that has room behind it. */
  lemma StaysListed(pending: seq<Pending>, p: Pending, i: nat) returns (j: nat)
    requires i < |pending| && |pending| - i < 64
    ensures var next := Remembered(pending, p);
            && j < |next| && next[j] == pending[i] && |next| - j == |pending| - i + 1
            && next[j..] == pending[i..] + [p]
  {
    j := if |pending| >= 64 then i - 1 else i;
    var next := Remembered(pending, p);
    assert next[j..] == pending[i..] + [p];
  }

  /** A component on the list whose role is readable is captured by the first frame more than a second after the last
      time the list was worked on, unless so many others are created meanwhile that it is dropped, or a later one of
      the same part takes its place. */
  lemma {:induction false} CapturedBy(h: Hands, events: seq<Event>, i: nat, hand: nat, k: nat)
    returns (n: nat, q: Pending)
    requires |h.sticks| == 2 && i < |h.pending| && hand < 2 && Reads(events, h.pending[i], hand)
    requires |h.pending| - i + Creations(events) <= 64
    requires k < |events| && events[k].Framed? && events[k].now - h.lastResolve > SECOND
    ensures n <= k + 1 && PartOf(q) == PartOf(h.pending[i])
    ensures q in h.pending[i..] || Event.Created(q) in events[..n]
    ensures HandleFor(After(h, events[..n]).sticks[hand], PartOf(q)) == q.handle
    decreases |events|
  {
    hide AssignAll, Kept, Remembered;
    var p, next := h.pending[i], Next(h, events[0]);
    match events[0]
    case Created(c) =>
      var j := StaysListed(h.pending, c, i);
      n, q := CapturedBy(next, events[1..], j, hand, k - 1);
      n := n + 1;
      Shift(h, events, n);
      assert q in next.pending[j..] ==> q in h.pending[i..] || q == c;
    case Framed(now, role, arrived) =>
      if now - h.lastResolve <= SECOND {
        n, q := CapturedBy(next, events[1..], i, hand, k - 1);
        n := n + 1;
        Shift(h, events, n);
      } else {
        var roles := RolesOf(h.pending, role);
        var j := LastClaimFrom(h.pending, roles, hand, PartOf(p), HandleFor(h.sticks[hand], PartOf(p)), i);
        AssignsLast(h.sticks, h.pending, roles, hand);
        n, q := 1, h.pending[j];
        assert q == h.pending[i..][j - i];
        Shift(h, events, 1);
        assert After(next, []) == next && events[1..1] == [];
      }
  }

  lemma Shift(h: Hands, events: seq<Event>, n: nat)
    requires |h.sticks| == 2 && 1 <= n <= |events|
    ensures After(h, events[..n]) == After(Next(h, events[0]), events[1..n])
    ensures events[1..n] == events[1..][..n - 1]
    ensures forall c :: c in events[1..n] ==> c in events[..n]
    ensures events[0] in events[..n]
  {
    hide Next;
    assert events[..n][1..] == events[1..n] && events[..n][0] == events[0];
  }

  predicate Real(p: Pending) {
    p.owner != 0 && p.handle != 0
  }

  predicate AllReal(pending: seq<Pending>, events: seq<Event>) {
    && (forall k :: 0 <= k < |pending| ==> Real(pending[k]))
    && (forall k :: 0 <= k < |events| && events[k].Created? ==> Real(events[k].p))
    && (forall k, j :: 0 <= k < |events| && events[k].Framed? && 0 <= j < |events[k].arrived| ==>
          Real(events[k].arrived[j]))
  }

  lemma StayReal(h: Hands, events: seq<Event>)
    requires |h.sticks| == 2 && events != [] && AllReal(h.pending, events)
    ensures AllReal(Next(h, events[0]).pending, events[1..])
  {
    if events[0].Framed? && events[0].now - h.lastResolve > SECOND {
      KeptInOrder(h.pending, RolesOf(h.pending, events[0].role));
    }
  }

  lemma {:induction false} StaysComplete(h: Hands, events: seq<Event>, hand: nat)
    requires |h.sticks| == 2 && hand < 2 && h.sticks[hand].Complete() && AllReal(h.pending, events)
    ensures After(h, events).sticks[hand].Complete()
    decreases |events|
  {
    hide AssignAll, Kept, Remembered, Stick.Complete;
    if events != [] {
      StayReal(h, events);
      if events[0].Framed? {
        CompletedMeansNewlyComplete(h.sticks, h.pending, RolesOf(h.pending, events[0].role));
      }
      StaysComplete(Next(h, events[0]), events[1..], hand);
    }
  }

  /** The x and the y of a controller both on the list: its stick is complete once a frame has run more than a second
      after the list was last worked on, and stays so. */
  lemma {:induction false} CompleteAfter(h: Hands, events: seq<Event>, ix: nat, iy: nat, hand: nat, k: nat)
    requires |h.sticks| == 2 && hand < 2 && AllReal(h.pending, events)
    requires ix < |h.pending| && h.pending[ix].axis == 'x' && Reads(events, h.pending[ix], hand)
    requires iy < |h.pending| && h.pending[iy].axis == 'y' && Reads(events, h.pending[iy], hand)
    requires |h.pending| - ix + Creations(events) <= 64 && |h.pending| - iy + Creations(events) <= 64
    requires k < |events| && events[k].Framed? && events[k].now - h.lastResolve > SECOND
    ensures After(h, events).sticks[hand].Complete()
    decreases |events|
  {
    hide AssignAll, Kept, Remembered, Stick.Complete;
    var next := Next(h, events[0]);
    StayReal(h, events);
    match events[0]
    case Created(c) =>
      var jx := StaysListed(h.pending, c, ix);
      var jy := StaysListed(h.pending, c, iy);
      CompleteAfter(next, events[1..], jx, jy, hand, k - 1);
    case Framed(now, role, arrived) =>
      if now - h.lastResolve <= SECOND {
        CompleteAfter(next, events[1..], ix, iy, hand, k - 1);
      } else {
        CompleteNow(h.sticks, h.pending, RolesOf(h.pending, role), ix, iy, hand);
        StaysComplete(next, events[1..], hand);
      }
  }

  lemma CompleteNow(sticks: seq<Stick>, todo: seq<Pending>, roles: seq<Option<int>>, ix: nat, iy: nat, hand: nat)
    requires |sticks| == 2 && |todo| == |roles| && hand < 2 && forall k :: 0 <= k < |todo| ==> Real(todo[k])
    requires ix < |todo| && Claims(todo[ix], roles[ix], hand, 'x')
    requires iy < |todo| && Claims(todo[iy], roles[iy], hand, 'y')
    ensures AssignAll(sticks, todo, roles)[hand].Complete()
  {
    hide AssignAll;
    AssignsLast(sticks, todo, roles, hand);
    var jx := LastClaimFrom(todo, roles, hand, 'x', sticks[hand].x, ix);
    var jy := LastClaimFrom(todo, roles, hand, 'y', sticks[hand].y, iy);
    LastOfHandReal(todo, roles, hand, ix);
  }

  lemma {:induction false} LastOfHandReal(todo: seq<Pending>, roles: seq<Option<int>>, hand: nat, i: nat)
    requires |todo| == |roles| && forall k :: 0 <= k < |todo| ==> Real(todo[k])
    requires i < |todo| && roles[i] == Some(if hand == 0 then 1 else 2)
    ensures LastOfHand(todo, roles, hand).Some? && Real(LastOfHand(todo, roles, hand).value)
    decreases |todo|
  {
    var n := |todo| - 1;
    if roles[n] != Some(if hand == 0 then 1 else 2) {
      LastOfHandReal(todo[..n], roles[..n], hand, i);
    }
  }

  /** In time: with a frame in every stretch of `gap`, a stick whose two axes are on the list and whose role is readable
      is complete within a second and `gap`. */
  lemma CompleteInTime(
      h: Hands, events: seq<Event>, ix: nat, iy: nat, hand: nat, start: int, gap: int, t: int, k: nat)
    requires |h.sticks| == 2 && hand < 2 && AllReal(h.pending, events) && h.lastResolve <= start
    requires ix < |h.pending| && h.pending[ix].axis == 'x' && Reads(events, h.pending[ix], hand)
    requires iy < |h.pending| && h.pending[iy].axis == 'y' && Reads(events, h.pending[iy], hand)
    requires |h.pending| - ix + Creations(events) <= 64 && |h.pending| - iy + Creations(events) <= 64
    requires k < |events| && events[k].Framed? && t - gap <= events[k].now <= t && t > start + SECOND + gap
    ensures var s := After(h, events).sticks[hand]; s.owner != 0 && s.x != 0 && s.y != 0
  {
    CompleteAfter(h, events, ix, iy, hand, k);
  }
}
