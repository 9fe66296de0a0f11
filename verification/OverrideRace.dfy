/** The override under full interleaving: every atomic load and store of the frame thread and of any
    number of hook threads is a step of its own. Stored values are counted, so that "a value or a
    later one" is a comparison of numbers. */
module OverrideRace {
  import opened Wire

  datatype Hand = Left | Right

  datatype Axis = X | Y | Touch

  /** A component of a stick. */
  datatype Part = Part(hand: Hand, axis: Axis)

  /** One component: the values drivers have stored so far, and ghost notes about what became of them. */
  datatype Cell = Cell(
    stores: nat,     // the newest real value is number `stores`; number 0 is the initial one
    shown: int,      // the number of the real value the host shows, or -1 for an injected value
    newest: bool,    // the last host write was of the value that was the newest at that moment
    swallowed: nat,  // the highest number withheld from the host
    writtenBack: nat // the number the last release wrote back
  )

  /** An update call in progress: it has stored value `k`, then has found that it must forward it. */
  datatype Hook = Stored(c: Part, k: nat) | Forwarding(c: Part, k: nat)

  /** Release and injection go through the components of a stick in order; `axis` is the next one. */
  datatype Frame =
    | Idle
    | Releasing(hand: Hand, axis: Axis, loaded: Option<nat>) // `loaded` is the value about to be written
    | Injecting(hand: Hand, axis: Axis)

  datatype State = State(
    overriding: Option<Hand>,
    cells: map<Part, Cell>,
    hooks: map<nat, Hook>, // by thread
    frame: Frame,
    touches: set<Hand>)    // the sticks whose touch component has been captured

  predicate Captured(s: State, c: Part) {
    c.axis.Touch? ==> c.hand in s.touches
  }

  /** The component after this one, if the stick has more. */
  function Following(s: State, hand: Hand, axis: Axis): Option<Axis> {
    match axis
    case X => Some(Y)
    case Y => if hand in s.touches then Some(Touch) else None
    case Touch => None
  }

  datatype Action =
    | Store(thread: nat, c: Part) | LoadFlag(thread: nat) | Forward(thread: nat)
    | ClearFlag | LoadReal | WriteBack | SetFlag(hand: Hand) | WriteInjected

  ghost predicate Enabled(s: State, a: Action) {
    (forall c: Part :: c in s.cells) &&
    match a
    case Store(t, c) => t !in s.hooks && Captured(s, c)
    case LoadFlag(t) => t in s.hooks && s.hooks[t].Stored?
    case Forward(t) => t in s.hooks && s.hooks[t].Forwarding?
    case ClearFlag => s.frame.Idle? && s.overriding.Some?
    case LoadReal => s.frame.Releasing? && s.frame.loaded.None?
    case WriteBack => s.frame.Releasing? && s.frame.loaded.Some?
    case SetFlag(hand) => s.frame.Idle? && (s.overriding == None || s.overriding == Some(hand))
    case WriteInjected => s.frame.Injecting?
  }

  function Show(cell: Cell, k: nat): Cell {
    cell.(shown := k, newest := k == cell.stores)
  }

  function Max(a: nat, b: nat): nat {
    if a < b then b else a
  }

  ghost function Step(s: State, a: Action): State
    requires Enabled(s, a)
  {
    match a
    case Store(t, c) =>
      var cell := s.cells[c].(stores := s.cells[c].stores + 1);
      s.(cells := s.cells[c := cell], hooks := s.hooks[t := Stored(c, cell.stores)])
    case LoadFlag(t) =>
      var c, k := s.hooks[t].c, s.hooks[t].k;
      if s.overriding == Some(c.hand)
      then s.(hooks := s.hooks - {t}, cells := s.cells[c := s.cells[c].(swallowed := Max(s.cells[c].swallowed, k))])
      else s.(hooks := s.hooks[t := Forwarding(c, k)])
    case Forward(t) =>
      var c, k := s.hooks[t].c, s.hooks[t].k;
      s.(hooks := s.hooks - {t}, cells := s.cells[c := Show(s.cells[c], k)])
    case ClearFlag => s.(overriding := None, frame := Releasing(s.overriding.value, X, None))
    case LoadReal =>
      var c := Part(s.frame.hand, s.frame.axis);
      s.(frame := s.frame.(loaded := Some(s.cells[c].stores)))
    case WriteBack =>
      var c, k := Part(s.frame.hand, s.frame.axis), s.frame.loaded.value;
      s.(cells := s.cells[c := Show(s.cells[c], k).(writtenBack := k)],
         frame := match Following(s, s.frame.hand, s.frame.axis)
                  case None => Idle
                  case Some(axis) => Releasing(s.frame.hand, axis, None))
    case SetFlag(hand) => s.(overriding := Some(hand), frame := Injecting(hand, X))
    case WriteInjected =>
      var c := Part(s.frame.hand, s.frame.axis);
      s.(cells := s.cells[c := s.cells[c].(shown := -1, newest := true)],
         frame := match Following(s, s.frame.hand, s.frame.axis)
                  case None => Idle
                  case Some(axis) => Injecting(s.frame.hand, axis))
  }

  ghost predicate Possible(s: State, run: seq<Action>)
    decreases |run|
  {
    run == [] || (Enabled(s, run[0]) && Possible(Step(s, run[0]), run[1..]))
  }

  ghost function After(s: State, run: seq<Action>): State
    requires Possible(s, run)
    decreases |run|
  {
    if run == [] then s else After(Step(s, run[0]), run[1..])
  }

  ghost predicate Initial(s: State) {
    && s.overriding == None && s.hooks == map[] && s.frame == Idle
    && forall c: Part :: c in s.cells && s.cells[c] == Cell(0, 0, true, 0, 0)
  }

  predicate NotBefore(a: Axis, b: Axis) {
    a == b || b.X? || a.Touch?
  }

  /** A release of this component is under way and has not written it yet. */
  predicate DueBack(s: State, c: Part) {
    s.frame.Releasing? && s.frame.hand == c.hand && NotBefore(c.axis, s.frame.axis) && Captured(s, c)
  }

  /** The release has loaded this value of `c` and is about to write it. */
  predicate AboutToWrite(s: State, c: Part) {
    s.frame.Releasing? && s.frame.hand == c.hand && s.frame.axis == c.axis && s.frame.loaded.Some?
  }

  predicate Held(s: State, t: nat, c: Part, k: nat) {
    t in s.hooks && s.hooks[t].c == c && s.hooks[t].k == k
  }

  /** The newest value of `c` is still on its way: a call holds it, or an override or release covers it. */
  ghost predicate OnItsWay(s: State, c: Part)
    requires c in s.cells
  {
    || s.overriding == Some(c.hand)
    || (DueBack(s, c) && !(AboutToWrite(s, c) && s.frame.loaded.value != s.cells[c].stores))
    || exists t :: Held(s, t, c, s.cells[c].stores)
  }

  ghost predicate FrameSound(s: State) {
    && (s.frame.Releasing? ==> s.overriding == None && Captured(s, Part(s.frame.hand, s.frame.axis)))
    && (s.frame.Injecting? ==> s.overriding == Some(s.frame.hand) && Captured(s, Part(s.frame.hand, s.frame.axis)))
    && (forall t :: t in s.hooks ==> Captured(s, s.hooks[t].c))
  }

  ghost predicate CellSound(s: State, c: Part)
    requires c in s.cells
  {
    var cell := s.cells[c];
    && cell.swallowed <= cell.stores
    && (!Captured(s, c) ==> cell.swallowed == 0)
    && (forall t :: t in s.hooks && s.hooks[t].c == c ==> s.hooks[t].k <= cell.stores)
    && (AboutToWrite(s, c) ==> cell.swallowed <= s.frame.loaded.value <= cell.stores)
    && (s.overriding != Some(c.hand) && !DueBack(s, c) ==> cell.writtenBack >= cell.swallowed)
    && (!cell.newest ==> cell.shown < cell.stores)
    && (cell.newest && cell.shown != cell.stores ==> Captured(s, c) && OnItsWay(s, c))
  }

  ghost predicate Invariant(s: State) {
    FrameSound(s) && forall c: Part :: c in s.cells && CellSound(s, c)
  }

  lemma FrameStep(s: State, a: Action)
    requires FrameSound(s) && Enabled(s, a)
    ensures FrameSound(Step(s, a))
  {
  }

  lemma AfterStore(s: State, a: Action, c: Part)
    requires Enabled(s, a) && FrameSound(s) && CellSound(s, c) && a.Store?
    ensures c in Step(s, a).cells && CellSound(Step(s, a), c)
  {
    var n := Step(s, a);
    assert a.c == c ==> Held(n, a.thread, c, n.cells[c].stores);
    assert forall u, k :: Held(s, u, c, k) ==> Held(n, u, c, k);
  }

  lemma AfterHook(s: State, a: Action, c: Part)
    requires Enabled(s, a) && FrameSound(s) && CellSound(s, c) && (a.LoadFlag? || a.Forward?)
    ensures c in Step(s, a).cells && CellSound(Step(s, a), c)
  {
    var n := Step(s, a);
    assert forall u, k :: u != a.thread && Held(s, u, c, k) ==> Held(n, u, c, k);
    if a.LoadFlag? {
      assert forall k :: s.overriding != Some(c.hand) && Held(s, a.thread, c, k) ==> Held(n, a.thread, c, k);
    }
  }

  lemma AfterFrame(s: State, a: Action, c: Part)
    requires Enabled(s, a) && FrameSound(s) && CellSound(s, c)
    requires a.ClearFlag? || a.LoadReal? || a.WriteBack? || a.SetFlag? || a.WriteInjected?
    ensures c in Step(s, a).cells && CellSound(Step(s, a), c)
  {
    var n := Step(s, a);
    assert forall u, k :: Held(s, u, c, k) ==> Held(n, u, c, k);
  }

  lemma CellStep(s: State, a: Action, c: Part)
    requires Enabled(s, a) && FrameSound(s) && CellSound(s, c)
    ensures c in Step(s, a).cells && CellSound(Step(s, a), c)
  {
    hide CellSound, FrameSound, Step;
    match a
    case Store(_, _) => AfterStore(s, a, c);
    case LoadFlag(_) => AfterHook(s, a, c);
    case Forward(_) => AfterHook(s, a, c);
    case _ => AfterFrame(s, a, c);
  }

  lemma {:induction false} InvariantAlways(s: State, run: seq<Action>)
    requires Invariant(s) && Possible(s, run)
    ensures Invariant(After(s, run))
    decreases |run|
  {
    hide CellSound, FrameSound;
    if run != [] {
      FrameStep(s, run[0]);
      forall c: Part ensures c in Step(s, run[0]).cells && CellSound(Step(s, run[0]), c) {
        CellStep(s, run[0], c);
      }
      InvariantAlways(Step(s, run[0]), run[1..]);
    }
  }

  lemma InitialSound(s: State)
    requires Initial(s)
    ensures Invariant(s)
  {
  }

  /** No withheld update is ever forgotten: whenever a stick is neither overridden nor still to be written
      back, the last release has written, for each of its components, the newest value withheld so far
      or one stored later. */
  lemma NoLostUpdate(start: State, run: seq<Action>)
    requires Initial(start) && Possible(start, run)
    ensures var s := After(start, run);
            forall c: Part :: c in s.cells && s.overriding != Some(c.hand) && !DueBack(s, c) ==>
              s.cells[c].writtenBack >= s.cells[c].swallowed
  {
    InitialSound(start);
    InvariantAlways(start, run);
  }

  predicate Quiet(s: State) {
    s.hooks == map[] && s.frame.Idle? && s.overriding == None
  }

  /** The invariant behind ShowsNewestIff: once everything is quiet, the host shows the newest value of a component
      exactly when the last write was of the value that was the newest at that moment. */
  lemma QuietShows(start: State, run: seq<Action>, c: Part)
    requires Initial(start) && Possible(start, run) && Quiet(After(start, run))
    ensures var s := After(start, run);
            c in s.cells && (s.cells[c].shown == s.cells[c].stores <==> s.cells[c].newest)
  {
    InitialSound(start);
    InvariantAlways(start, run);
    assert CellSound(After(start, run), c);
  }

  // The same in terms of the schedule.

  lemma {:induction false} Split(s: State, a: seq<Action>, b: seq<Action>)
    requires Possible(s, a + b)
    ensures Possible(s, a) && Possible(After(s, a), b) && After(s, a + b) == After(After(s, a), b)
    decreases |a|
  {
    hide Step, Enabled;
    if a == [] {
      assert a + b == b;
    } else {
      assert (a + b)[1..] == a[1..] + b;
      Split(Step(s, a[0]), a[1..], b);
    }
  }

  /** This step writes component `c` to the host. */
  ghost predicate WritesHost(s: State, a: Action, c: Part) {
    Enabled(s, a) &&
    match a
    case Forward(t) => s.hooks[t].c == c
    case WriteBack => c == Part(s.frame.hand, s.frame.axis)
    case WriteInjected => c == Part(s.frame.hand, s.frame.axis)
    case _ => false
  }

  ghost predicate NoWrites(s: State, run: seq<Action>, c: Part)
    requires Possible(s, run)
    decreases |run|
  {
    run == [] || (!WritesHost(s, run[0], c) && NoWrites(Step(s, run[0]), run[1..], c))
  }

  /** The step `fix` determines the value that `write` writes: the updating thread's store, or the release's load. */
  predicate Fixes(fix: Action, write: Action, c: Part) {
    match write
    case Forward(t) => fix == Store(t, c)
    case WriteBack => fix == LoadReal
    case _ => false
  }

  /** A step that would determine it anew. */
  predicate Refixes(a: Action, write: Action) {
    match write
    case Forward(t) => a.Store? && a.thread == t
    case WriteBack => a.LoadReal?
    case _ => false
  }

  /** A run around the last write of a component: what comes before its value is determined, between that and the
      write, and after the write. */
  datatype LastWrite = LastWrite(before: seq<Action>, fix: Action, between: seq<Action>, write: Action,
                                 after: seq<Action>)

  ghost predicate IsLastWrite(start: State, run: seq<Action>, c: Part, l: LastWrite)
    requires Possible(start, run)
  {
    && Fixes(l.fix, l.write, c)
    && (forall k :: 0 <= k < |l.between| ==> !Refixes(l.between[k], l.write))
    && var head := l.before + ([l.fix] + l.between);
       && run == head + ([l.write] + l.after)
       && Possible(start, head) && WritesHost(After(start, head), l.write, c)
       && Possible(Step(After(start, head), l.write), l.after)
       && NoWrites(Step(After(start, head), l.write), l.after, c)
  }

  /** No driver stores a value of `c`. */
  predicate NoStore(run: seq<Action>, c: Part) {
    forall k :: 0 <= k < |run| ==> !(run[k].Store? && run[k].c == c)
  }

  lemma {:induction false} StoresGrow(s: State, run: seq<Action>, c: Part)
    requires Possible(s, run) && c in s.cells
    ensures c in After(s, run).cells && After(s, run).cells[c].stores >= s.cells[c].stores
    ensures After(s, run).cells[c].stores == s.cells[c].stores <==> NoStore(run, c)
    decreases |run|
  {
    if run != [] {
      StoresGrow(Step(s, run[0]), run[1..], c);
      assert run == [run[0]] + run[1..];
    }
  }

  lemma {:induction false} NoWritesKeep(s: State, run: seq<Action>, c: Part)
    requires Possible(s, run) && c in s.cells && NoWrites(s, run, c)
    ensures c in After(s, run).cells
    ensures After(s, run).cells[c].shown == s.cells[c].shown && After(s, run).cells[c].newest == s.cells[c].newest
    decreases |run|
  {
    if run != [] {
      NoWritesKeep(Step(s, run[0]), run[1..], c);
    }
  }

  /** The value a thread holds, or the release has loaded, stays until it is determined anew. */
  lemma {:induction false} HeldUntil(s: State, run: seq<Action>, t: nat)
    requires Possible(s, run) && forall k :: 0 <= k < |run| ==> !Refixes(run[k], Forward(t))
    ensures t in After(s, run).hooks ==>
              t in s.hooks && After(s, run).hooks[t].c == s.hooks[t].c && After(s, run).hooks[t].k == s.hooks[t].k
    decreases |run|
  {
    if run != [] {
      HeldUntil(Step(s, run[0]), run[1..], t);
      assert !Refixes(run[0], Forward(t));
    }
  }

  predicate HasLoaded(s: State) {
    s.frame.Releasing? && s.frame.loaded.Some?
  }

  lemma {:induction false} LoadedUntil(s: State, run: seq<Action>)
    requires Possible(s, run) && forall k :: 0 <= k < |run| ==> !Refixes(run[k], WriteBack)
    ensures HasLoaded(After(s, run)) ==> After(s, run).frame == s.frame
    decreases |run|
  {
    if run != [] {
      LoadedUntil(Step(s, run[0]), run[1..]);
      assert !Refixes(run[0], WriteBack);
    }
  }

  /** The value written is the newest exactly when none was stored since it was determined. */
  lemma WriteNewest(s: State, fix: Action, between: seq<Action>, write: Action, c: Part)
    requires Possible(s, [fix] + between) && Fixes(fix, write, c)
    requires forall k :: 0 <= k < |between| ==> !Refixes(between[k], write)
    requires WritesHost(After(s, [fix] + between), write, c)
    ensures var n := Step(After(s, [fix] + between), write);
            c in n.cells && (n.cells[c].newest <==> NoStore(between, c))
  {
    assert ([fix] + between)[1..] == between;
    var s1 := Step(s, fix);
    StoresGrow(s1, between, c);
    match write
    case Forward(t) => HeldUntil(s1, between, t);
    case WriteBack => LoadedUntil(s1, between);
  }

  lemma LastWriteDecides(start: State, run: seq<Action>, c: Part, l: LastWrite)
    requires Initial(start) && Possible(start, run) && Quiet(After(start, run)) && IsLastWrite(start, run, c, l)
    ensures var s := After(start, run);
            c in s.cells && (s.cells[c].shown == s.cells[c].stores <==> NoStore(l.between, c))
  {
    hide Step, Enabled, Initial, Fixes, Refixes, WritesHost, NoStore, Quiet;
    QuietShows(start, run, c);
    var head := l.before + ([l.fix] + l.between);
    Split(start, head, [l.write] + l.after);
    Split(start, l.before, [l.fix] + l.between);
    WriteNewest(After(start, l.before), l.fix, l.between, l.write, c);
    assert ([l.write] + l.after)[1..] == l.after;
    NoWritesKeep(Step(After(start, head), l.write), l.after, c);
  }

  lemma {:induction false} FindLastWrite(s: State, run: seq<Action>, c: Part)
    returns (head: seq<Action>, write: Action, after: seq<Action>)
    requires Possible(s, run) && !NoWrites(s, run, c)
    ensures run == head + ([write] + after) && Possible(s, head)
    ensures WritesHost(After(s, head), write, c) && Possible(Step(After(s, head), write), after)
    ensures NoWrites(Step(After(s, head), write), after, c)
    decreases |run|
  {
    hide Step, Enabled;
    var next := Step(s, run[0]);
    if NoWrites(next, run[1..], c) {
      head, write, after := [], run[0], run[1..];
      assert WritesHost(s, run[0], c);
    } else {
      var h;
      h, write, after := FindLastWrite(next, run[1..], c);
      head := [run[0]] + h;
      assert head[1..] == h;
      assert run == head + ([write] + after);
    }
  }

  lemma {:induction false} FindFix(run: seq<Action>, write: Action)
    returns (before: seq<Action>, fix: Action, between: seq<Action>)
    requires exists k :: 0 <= k < |run| && Refixes(run[k], write)
    ensures run == before + ([fix] + between) && Refixes(fix, write)
    ensures forall k :: 0 <= k < |between| ==> !Refixes(between[k], write)
    decreases |run|
  {
    hide Refixes;
    if exists k :: 0 <= k < |run[1..]| && Refixes(run[1..][k], write) {
      before, fix, between := FindFix(run[1..], write);
      before := [run[0]] + before;
    } else {
      before, fix, between := [], run[0], run[1..];
      assert forall k :: 1 <= k < |run| ==> run[k] == run[1..][k - 1];
    }
  }

  /** Every write of a real value has a step before it that determined the value. */
  lemma FixExists(start: State, head: seq<Action>, write: Action, c: Part)
    requires Initial(start) && Possible(start, head) && WritesHost(After(start, head), write, c)
             && !write.WriteInjected?
    ensures exists k :: 0 <= k < |head| && Refixes(head[k], write)
  {
    if forall k :: 0 <= k < |head| ==> !Refixes(head[k], write) {
      match write
      case Forward(t) => HeldUntil(start, head, t);
      case WriteBack => LoadedUntil(start, head);
    }
  }

  lemma FixIsOfCell(start: State, before: seq<Action>, fix: Action, between: seq<Action>, write: Action, c: Part)
    requires Possible(start, before + ([fix] + between)) && Refixes(fix, write)
    requires forall k :: 0 <= k < |between| ==> !Refixes(between[k], write)
    requires WritesHost(After(start, before + ([fix] + between)), write, c)
    ensures Fixes(fix, write, c)
  {
    Split(start, before, [fix] + between);
    assert ([fix] + between)[1..] == between;
    if write.Forward? {
      HeldUntil(Step(After(start, before), fix), between, write.thread);
    }
  }

  /** A run that ends quiet after some write of `c` has a last one, and it is of a real value. */
  lemma LastWriteExists(start: State, run: seq<Action>, c: Part) returns (l: LastWrite)
    requires Initial(start) && Possible(start, run) && Quiet(After(start, run)) && !NoWrites(start, run, c)
    ensures IsLastWrite(start, run, c, l)
  {
    hide Step, Enabled, Initial, Fixes, Refixes, NoWrites, Quiet;
    var head, write, after := FindLastWrite(start, run, c);
    NotInjectedLast(start, run, head, write, after, c);
    FixExists(start, head, write, c);
    var before, fix, between := FindFix(head, write);
    FixIsOfCell(start, before, fix, between, write, c);
    l := LastWrite(before, fix, between, write, after);
  }

  lemma NotInjectedLast(start: State, run: seq<Action>, head: seq<Action>, write: Action, after: seq<Action>, c: Part)
    requires Initial(start) && Possible(start, run) && Quiet(After(start, run)) && run == head + ([write] + after)
    requires Possible(start, head) && WritesHost(After(start, head), write, c)
    requires Possible(Step(After(start, head), write), after) && NoWrites(Step(After(start, head), write), after, c)
    ensures !write.WriteInjected?
  {
    QuietShows(start, run, c);
    Split(start, head, [write] + after);
    assert ([write] + after)[1..] == after;
    NoWritesKeep(Step(After(start, head), write), after, c);
  }

  /** Once everything is quiet, the host shows the newest real value of a component exactly when it was never
      written, or no driver stored a value between the step that determined the last one written (its store, or
      the release's load) and the write. */
  lemma ShowsNewestIff(start: State, run: seq<Action>, c: Part)
    requires Initial(start) && Possible(start, run) && Quiet(After(start, run))
    ensures var s := After(start, run);
            c in s.cells && (s.cells[c].shown == s.cells[c].stores <==>
              NoWrites(start, run, c) || exists l :: IsLastWrite(start, run, c, l) && NoStore(l.between, c))
  {
    hide Step, Enabled, IsLastWrite, NoStore;
    QuietShows(start, run, c);
    if NoWrites(start, run, c) {
      NoWritesKeep(start, run, c);
    } else {
      var l := LastWriteExists(start, run, c);
      LastWriteDecides(start, run, c, l);
      forall k | IsLastWrite(start, run, c, k)
        ensures var s := After(start, run);
                c in s.cells && (s.cells[c].shown == s.cells[c].stores <==> NoStore(k.between, c))
      {
        LastWriteDecides(start, run, c, k);
      }
    }
  }

  // The other side: what an overridden stick shows.

  /** The override still has to write this component. */
  predicate InjectDue(s: State, c: Part) {
    s.frame.Injecting? && s.frame.hand == c.hand && NotBefore(c.axis, s.frame.axis) && Captured(s, c)
  }

  /** Without a write of `c`, an override that begins is not yet through with it. */
  lemma {:induction false} BeginsDue(s: State, run: seq<Action>, c: Part)
    requires Possible(s, run) && NoWrites(s, run, c) && Captured(s, c)
    requires s.overriding == Some(c.hand) ==> InjectDue(s, c)
    ensures After(s, run).overriding == Some(c.hand) ==> InjectDue(After(s, run), c)
    decreases |run|
  {
    if run != [] {
      BeginsDue(Step(s, run[0]), run[1..], c);
    }
  }

  lemma {:induction false} TouchesStay(s: State, run: seq<Action>)
    requires Possible(s, run)
    ensures After(s, run).touches == s.touches
    decreases |run|
  {
    if run != [] {
      TouchesStay(Step(s, run[0]), run[1..]);
    }
  }

  /** The last write of `c` in the run is this one. */
  ghost predicate EndsWith(start: State, run: seq<Action>, c: Part, head: seq<Action>, write: Action,
                           after: seq<Action>)
    requires Possible(start, run)
  {
    && run == head + ([write] + after) && Possible(start, head) && WritesHost(After(start, head), write, c)
    && Possible(Step(After(start, head), write), after) && NoWrites(Step(After(start, head), write), after, c)
  }

  lemma EndShows(start: State, run: seq<Action>, c: Part, head: seq<Action>, write: Action, after: seq<Action>)
    requires Initial(start) && Possible(start, run) && EndsWith(start, run, c, head, write, after)
    ensures c in After(start, run).cells
    ensures After(start, run).cells[c].shown == -1 <==> write.WriteInjected?
    ensures write.WriteBack? && Captured(start, c) && After(start, run).overriding == Some(c.hand) ==>
              InjectDue(After(start, run), c)
  {
    Split(start, head, [write] + after);
    assert ([write] + after)[1..] == after;
    InitialSound(start);
    InvariantAlways(start, head);
    NoWritesKeep(Step(After(start, head), write), after, c);
    if write.WriteBack? && Captured(start, c) {
      TouchesStay(start, head);
      BeginsDue(Step(After(start, head), write), after, c);
    }
  }

  /** With the frame thread idle during an override, the overridden stick shows the injected value of a component
      exactly when its last write is the injection; otherwise it is the forward of an update that had loaded the
      flag before the override, and nothing corrects it while the injected vector stays the same. */
  lemma ShowsInjectedIff(start: State, run: seq<Action>, c: Part)
    requires Initial(start) && Possible(start, run) && Captured(start, c)
    requires After(start, run).frame.Idle? && After(start, run).overriding == Some(c.hand)
    ensures c in After(start, run).cells
    ensures After(start, run).cells[c].shown == -1 <==>
              exists head, after :: EndsWith(start, run, c, head, WriteInjected, after)
    ensures After(start, run).cells[c].shown != -1 <==>
              exists head, t, after :: EndsWith(start, run, c, head, Forward(t), after)
  {
    hide Step, Enabled, Initial, EndsWith;
    if NoWrites(start, run, c) {
      Unwritten(start, run, c);
    } else {
      var head, write, after := FindLastWrite(start, run, c);
      assert EndsWith(start, run, c, head, write, after) by { EndsIs(start, run, c, head, write, after); }
      EndShows(start, run, c, head, write, after);
      WriteKinds(start, run, c, head, write, after);
      forall h, a | EndsWith(start, run, c, h, WriteInjected, a) ensures After(start, run).cells[c].shown == -1 {
        EndShows(start, run, c, h, WriteInjected, a);
      }
      forall h, t, a | EndsWith(start, run, c, h, Forward(t), a) ensures After(start, run).cells[c].shown != -1 {
        EndShows(start, run, c, h, Forward(t), a);
      }
    }
  }

  lemma EndsIs(start: State, run: seq<Action>, c: Part, head: seq<Action>, write: Action, after: seq<Action>)
    requires Possible(start, run)
    requires run == head + ([write] + after) && Possible(start, head) && WritesHost(After(start, head), write, c)
    requires Possible(Step(After(start, head), write), after) && NoWrites(Step(After(start, head), write), after, c)
    ensures EndsWith(start, run, c, head, write, after)
  {
  }

  lemma WriteKinds(start: State, run: seq<Action>, c: Part, head: seq<Action>, write: Action, after: seq<Action>)
    requires Possible(start, run) && EndsWith(start, run, c, head, write, after)
    ensures write.Forward? || write.WriteBack? || write.WriteInjected?
  {
  }

  /** An override that is through with a component has written it. */
  lemma Unwritten(start: State, run: seq<Action>, c: Part)
    requires Initial(start) && Possible(start, run) && Captured(start, c) && NoWrites(start, run, c)
    ensures After(start, run).frame.Idle? ==> After(start, run).overriding != Some(c.hand)
  {
    BeginsDue(start, run, c);
  }

  ghost predicate LeadsTo(s: State, t: State) {
    exists run :: Possible(s, run) && After(s, run) == t
  }

  lemma Arrived(s: State)
    ensures LeadsTo(s, s)
  {
    assert Possible(s, []) && After(s, []) == s;
  }

  lemma OneMore(s: State, a: Action, t: State)
    requires Enabled(s, a) && LeadsTo(Step(s, a), t)
    ensures LeadsTo(s, t)
  {
    hide Step;
    var run :| Possible(Step(s, a), run) && After(Step(s, a), run) == t;
    assert ([a] + run)[1..] == run;
    assert Possible(s, [a] + run) && After(s, [a] + run) == t;
  }

  /** An update has been withheld during an override, and the release has just loaded it. */
  ghost function JustLoaded(start: State): State {
    start.(frame := Releasing(Left, X, Some(1)),
           cells := start.cells[Part(Left, X) := Cell(1, -1, true, 1, 0)][Part(Left, Y) := Cell(0, -1, true, 0, 0)])
  }

  /** Quiet again, with a newer value stored than the one the host shows. */
  ghost function Stale(start: State): State {
    start.(cells := start.cells[Part(Left, X) := Cell(2, 1, false, 1, 1)][Part(Left, Y) := Cell(0, 0, true, 0, 0)])
  }

  lemma ReachLoaded(start: State, t: State)
    requires Initial(start) && start.touches == {} && LeadsTo(JustLoaded(start), t)
    ensures LeadsTo(start, t)
  {
    hide LeadsTo;
    var s1 := Step(start, SetFlag(Left));
    var s2 := Step(s1, WriteInjected);
    var s3 := Step(s2, WriteInjected);
    var s4 := Step(s3, Store(0, Part(Left, X)));
    var s5 := Step(s4, LoadFlag(0));
    var s6 := Step(s5, ClearFlag);
    assert Step(s6, LoadReal) == JustLoaded(start);
    OneMore(s6, LoadReal, t);
    OneMore(s5, ClearFlag, t);
    OneMore(s4, LoadFlag(0), t);
    OneMore(s3, Store(0, Part(Left, X)), t);
    OneMore(s2, WriteInjected, t);
    OneMore(s1, WriteInjected, t);
    OneMore(start, SetFlag(Left), t);
  }

  lemma Overtake(start: State)
    requires Initial(start) && start.touches == {}
    ensures LeadsTo(JustLoaded(start), Stale(start))
  {
    hide LeadsTo;
    var s0, t := JustLoaded(start), Stale(start);
    var s1 := Step(s0, Store(0, Part(Left, X)));
    var s2 := Step(s1, LoadFlag(0));
    var s3 := Step(s2, Forward(0));
    var s4 := Step(s3, WriteBack);
    var s5 := Step(s4, LoadReal);
    assert Step(s5, WriteBack) == t;
    Arrived(t);
    OneMore(s5, WriteBack, t);
    OneMore(s4, LoadReal, t);
    OneMore(s3, WriteBack, t);
    OneMore(s2, Forward(0), t);
    OneMore(s1, LoadFlag(0), t);
    OneMore(s0, Store(0, Part(Left, X)), t);
  }

  /** Even a single updating thread can leave the host stale: its update is stored and forwarded between
      the release's load and its write-back, which then puts the older value on top. */
  lemma OlderWriteBackWins(start: State)
    requires Initial(start) && start.touches == {}
    ensures LeadsTo(start, Stale(start)) && Quiet(Stale(start))
    ensures Stale(start).cells[Part(Left, X)].shown < Stale(start).cells[Part(Left, X)].stores
  {
    Overtake(start);
    ReachLoaded(start, Stale(start));
  }

  /** During an override, with nothing in progress, the stick shows a real value. */
  ghost function Shadowed(start: State): State {
    start.(overriding := Some(Left),
           cells := start.cells[Part(Left, X) := Cell(1, 1, true, 0, 0)][Part(Left, Y) := Cell(0, -1, true, 0, 0)])
  }

  /** It happens: an update finds the flag clear, the override sets it and writes, the update is forwarded on top. */
  lemma ForwardOverInjection(start: State)
    requires Initial(start) && start.touches == {}
    ensures LeadsTo(start, Shadowed(start))
    ensures var s := Shadowed(start);
            s.hooks == map[] && s.frame.Idle? && s.overriding == Some(Left) && s.cells[Part(Left, X)].shown == 1
  {
    hide LeadsTo;
    var t := Shadowed(start);
    var s1 := Step(start, Store(0, Part(Left, X)));
    var s2 := Step(s1, LoadFlag(0));
    var s3 := Step(s2, SetFlag(Left));
    var s4 := Step(s3, WriteInjected);
    var s5 := Step(s4, WriteInjected);
    assert Step(s5, Forward(0)) == t;
    Arrived(t);
    OneMore(s5, Forward(0), t);
    OneMore(s4, WriteInjected, t);
    OneMore(s3, WriteInjected, t);
    OneMore(s2, SetFlag(Left), t);
    OneMore(s1, LoadFlag(0), t);
    OneMore(start, Store(0, Part(Left, X)), t);
  }
}
