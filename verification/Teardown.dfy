/** The end of a bridge session: two threads share `closing`, and each may be the one that ends the session. */
module Teardown {
  /** pipe_to_sock. */
  datatype Reader =
    | Checking
    | Starting                  // saw `closing` clear, has not issued the read yet
    | Reading(cancelled: bool)
    | Sending
    | Ending                    // about to exchange `closing`
    | Shutting                  // the exchange won
    | Cancelling
    | Exited

  /** main: sock_to_pipe and what follows it. */
  datatype Main =
    | Looking                   // at the top of the loop, about to look at `closing`
    | Receiving                 // blocked in recv
    | Issuing                   // has a whole frame, has not issued the write yet
    | Writing(cancelled: bool)  // blocked in the pipe write
    | EndingToo
    | ShuttingToo
    | CancellingToo
    | Waiting                   // waiting for the reader, 100 ms at a time
    | Joined
    | PipeClosed
    | Done

  datatype State = State(
    closing: bool,
    shut: bool,                 // the socket has been shut down
    reader: Reader,
    main: Main,
    shutdowns: nat,             // how often the shutdown-and-cancel block has been entered
    lateReads: nat)             // reads that delivered a message after `closing` was set

  const INITIAL := State(false, false, Checking, Looking, 0, 0)

  /** What a thread's next turn brings: a message to forward or a call that is done, a malformed message, an error,
      or nothing yet. */
  datatype Outcome = Forward | Malformed | Failure | Nothing

  datatype Action = ReaderTurn(outcome: Outcome) | MainTurn(outcome: Outcome) | MainStep | Cancel

  /** CancelIoEx: the calls pending on the pipe return. */
  function CancelRead(r: Reader): Reader {
    if r.Reading? then Reading(true) else r
  }

  function CancelWrite(m: Main): Main {
    if m.Writing? then Writing(true) else m
  }

  predicate InLoop(m: Main) {
    m.Looking? || m.Receiving? || m.Issuing? || m.Writing?
  }

  predicate Enabled(s: State, a: Action) {
    match a
    case ReaderTurn(outcome) =>
      (match s.reader
       case Exited => false
       case Reading(cancelled) => !(cancelled && outcome.Nothing?) // a cancelled read returns
       case Sending => outcome.Forward? || outcome.Failure?
       case _ => true)
    case MainTurn(outcome) =>
      (match s.main
       case Looking => true
       case Receiving => !outcome.Malformed? && !(s.shut && outcome.Nothing?) // a shut socket does not block
       case Issuing => true
       case Writing(cancelled) => !outcome.Malformed? && !(cancelled && outcome.Nothing?)
       case _ => false)
    case MainStep =>
      !InLoop(s.main) && !s.main.Done? && (s.main.Waiting? ==> s.reader.Exited?)
    case Cancel => s.main.Waiting? && !s.reader.Exited?
  }

  function Step(s: State, a: Action): State
    requires Enabled(s, a)
  {
    match a
    case ReaderTurn(outcome) =>
      (match s.reader
       case Checking => s.(reader := if s.closing then Ending else Starting)
       case Starting => s.(reader := Reading(false))
       case Reading(_) =>
         if outcome.Nothing? then s
         else if outcome.Failure? then s.(reader := Ending)
         else s.(reader := if outcome.Forward? then Sending else Checking,
                 lateReads := s.lateReads + if s.closing then 1 else 0)
       case Sending => s.(reader := if outcome.Failure? then Ending else Checking)
       case Ending =>
         if s.closing then s.(reader := Exited)
         else s.(closing := true, reader := Shutting, shutdowns := s.shutdowns + 1)
       case Shutting => s.(shut := true, reader := Cancelling)
       case Cancelling => s.(reader := Exited, main := CancelWrite(s.main)))
    case MainTurn(outcome) =>
      (match s.main
       case Looking => s.(main := if s.closing then EndingToo else Receiving)
       case Receiving =>
         if outcome.Nothing? then s else s.(main := if outcome.Failure? then EndingToo else Issuing)
       case Issuing => s.(main := Writing(false))
       case Writing(_) =>
         if outcome.Nothing? then s else s.(main := if outcome.Failure? then EndingToo else Looking))
    case MainStep =>
      (match s.main
       case EndingToo =>
         if s.closing then s.(main := Waiting)
         else s.(closing := true, main := ShuttingToo, shutdowns := s.shutdowns + 1)
       case ShuttingToo => s.(shut := true, main := CancellingToo)
       case CancellingToo => s.(main := Waiting, reader := CancelRead(s.reader))
       case Waiting => s.(main := Joined)
       case Joined => s.(main := PipeClosed)
       case PipeClosed => s.(main := Done))
    case Cancel => s.(reader := CancelRead(s.reader))
  }

  predicate Possible(s: State, run: seq<Action>)
    decreases |run|
  {
    run == [] || (Enabled(s, run[0]) && Possible(Step(s, run[0]), run[1..]))
  }

  function After(s: State, run: seq<Action>): State
    requires Possible(s, run)
    decreases |run|
  {
    if run == [] then s else After(Step(s, run[0]), run[1..])
  }

  ghost predicate Invariant(s: State) {
    && s.shutdowns == (if s.closing then 1 else 0)
    && (s.reader.Shutting? || s.reader.Cancelling? || s.reader.Exited? ==> s.closing)
    && (!InLoop(s.main) && !s.main.EndingToo? ==> s.closing)
    && (s.main.Joined? || s.main.PipeClosed? || s.main.Done? ==> s.reader.Exited?)
    && (s.closing ==> s.shut || s.reader.Shutting? || s.main.ShuttingToo?)
    && s.lateReads <= 1
    && (!s.closing ==> s.lateReads == 0)
    && (s.reader.Starting? || s.reader.Reading? ==> s.lateReads == 0)
  }

  lemma StepKeepsInvariant(s: State, a: Action)
    requires Invariant(s) && Enabled(s, a)
    ensures Invariant(Step(s, a))
  {
  }

  lemma {:induction false} InvariantAlways(s: State, run: seq<Action>)
    requires Invariant(s) && Possible(s, run)
    ensures Invariant(After(s, run))
    decreases |run|
  {
    if run != [] {
      StepKeepsInvariant(s, run[0]);
      InvariantAlways(Step(s, run[0]), run[1..]);
    }
  }

  /** In every interleaving the shutdown block is entered at most once, and once by the end of the session;
      at most one message is read after `closing` is set; the pipe and the socket are closed only when
      the reader has exited. */
  lemma TeardownSafe(run: seq<Action>)
    requires Possible(INITIAL, run)
    ensures var s := After(INITIAL, run);
            && s.shutdowns <= 1 && (s.main.Done? ==> s.shutdowns == 1)
            && s.lateReads <= 1
            && (s.main.PipeClosed? || s.main.Done? ==> s.reader.Exited?)
  {
    InvariantAlways(INITIAL, run);
  }

  /** Neither thread is on its way out. */
  predicate Relaying(s: State) {
    && !s.closing && !s.shut && InLoop(s.main) && (s.main.Writing? ==> !s.main.cancelled)
    && (s.reader.Checking? || s.reader.Starting? || s.reader == Reading(false) || s.reader.Sending?)
  }

  predicate Fails(a: Action) {
    (a.ReaderTurn? || a.MainTurn?) && a.outcome.Failure?
  }

  /** Only a failed call ends a session: without one, whatever is relayed or dropped as malformed, both threads go
      on. */
  lemma {:induction false} OnlyErrorsEnd(s: State, run: seq<Action>)
    requires Relaying(s) && Possible(s, run) && forall k :: 0 <= k < |run| ==> !Fails(run[k])
    ensures Relaying(After(s, run))
    decreases |run|
  {
    if run != [] {
      assert !Fails(run[0]);
      OnlyErrorsEnd(Step(s, run[0]), run[1..]);
    }
  }

  // The reader's exit.

  /** The turns the reader still needs once `closing` is set. */
  function Rank(r: Reader): nat {
    match r
    case Exited => 0
    case Cancelling => 1
    case Shutting => 2
    case Ending => 3
    case Checking => 4
    case Sending => 5
    case Reading(_) => 6
    case Starting => 7
  }

  /** How often the main thread's cancel is later followed by a turn of the reader. */
  function FairRounds(run: seq<Action>, cancelled: bool): nat
    decreases |run|
  {
    if run == [] then 0
    else match run[0]
      case Cancel => FairRounds(run[1..], true)
      case ReaderTurn(_) => (if cancelled then 1 else 0) + FairRounds(run[1..], false)
      case _ => FairRounds(run[1..], cancelled)
  }

  /** Once the session is closing, every cancel that is followed by a turn of the reader brings it
      closer to its exit, even if its read starts after an earlier cancel. */
  lemma {:induction false} CancelLoopProgress(s: State, run: seq<Action>, cancelled: bool)
    requires s.closing && Possible(s, run)
    requires cancelled ==> s.reader != Reading(false)
    ensures After(s, run).closing
    ensures Rank(After(s, run).reader) + FairRounds(run, cancelled) <= Rank(s.reader)
    decreases |run|
  {
    if run != [] {
      var t := Step(s, run[0]);
      var c := match run[0] case Cancel => true case ReaderTurn(_) => false case _ => cancelled;
      CancelLoopProgress(t, run[1..], c);
    }
  }

  /** The repeated-cancel loop ends: after as many fair rounds as the reader has turns left, at most
      seven, the reader has exited, and no schedule holds more rounds than that. */
  lemma CancelLoopEnds(s: State, run: seq<Action>)
    requires s.closing && Possible(s, run)
    ensures FairRounds(run, false) <= 7
    ensures FairRounds(run, false) == Rank(s.reader) ==> After(s, run).reader.Exited?
  {
    CancelLoopProgress(s, run, false);
  }

  /** One cancel is not enough: a reader that saw `closing` clear just before can still block afterwards. */
  lemma ReadAfterCancel()
    ensures exists run ::
              Possible(INITIAL, run) && After(INITIAL, run) == State(true, true, Reading(false), Waiting, 1, 0)
  {
    hide Possible, After;
    var s1 := Step(INITIAL, ReaderTurn(Nothing));
    var s2 := Step(s1, MainTurn(Nothing));
    var s3 := Step(s2, MainTurn(Failure));
    var s4 := Step(s3, MainStep);
    var s5 := Step(s4, MainStep);
    var s6 := Step(s5, MainStep);
    Stays(s6, ReaderTurn(Nothing));
    var r := Prepend(s5, MainStep, [ReaderTurn(Nothing)]);
    r := Prepend(s4, MainStep, r);
    r := Prepend(s3, MainStep, r);
    r := Prepend(s2, MainTurn(Failure), r);
    r := Prepend(s1, MainTurn(Nothing), r);
    r := Prepend(INITIAL, ReaderTurn(Nothing), r);
  }

  lemma Stays(s: State, a: Action)
    requires Enabled(s, a)
    ensures Possible(s, [a]) && After(s, [a]) == Step(s, a)
  {
  }

  function Prepend(s: State, a: Action, run: seq<Action>): (r: seq<Action>)
    requires Enabled(s, a) && Possible(Step(s, a), run)
    ensures r != [] && Possible(s, r) && After(s, r) == After(Step(s, a), run)
  {
    assert ([a] + run)[1..] == run;
    [a] + run
  }

  // The main thread's way out of its loop.

  /** The turns of the main thread that got something done. */
  function TurnsDone(run: seq<Action>): nat
    decreases |run|
  {
    if run == [] then 0
    else (if run[0].MainTurn? && !run[0].outcome.Nothing? then 1 else 0) + TurnsDone(run[1..])
  }

  /** The turns the main thread still needs to leave its loop once `closing` is set. */
  function LoopRank(m: Main): nat {
    match m
    case Looking => 1
    case Writing(_) => 2
    case Issuing => 3
    case Receiving => 4
    case _ => 0
  }

  /** Once the session is closing the main thread leaves its loop after at most four turns that get something done. */
  lemma {:induction false} MainLeaves(s: State, run: seq<Action>)
    requires s.closing && Possible(s, run)
    ensures LoopRank(After(s, run).main) + TurnsDone(run) <= LoopRank(s.main) <= 4
    ensures InLoop(s.main) && TurnsDone(run) == LoopRank(s.main) ==> !InLoop(After(s, run).main)
    decreases |run|
  {
    if run != [] {
      MainLeaves(Step(s, run[0]), run[1..]);
    }
  }

  /** Its turns may bring nothing exactly while it waits in a write that no cancel has hit, or in a receive on a
      socket that is not shut yet. */
  lemma MainWaitsIff(s: State)
    requires InLoop(s.main)
    ensures (Enabled(s, MainTurn(Nothing)) && Step(s, MainTurn(Nothing)) == s) <==>
            s.main == Writing(false) || (s.main.Receiving? && !s.shut)
  {
  }

  /** If the reader ends the session just before the main thread issues its write, nothing cancels that write any
      more: the session waits until the app takes the message or closes the pipe. */
  lemma WriteAfterCancel()
    ensures var hung := State(true, true, Exited, Writing(false), 1, 0);
            && (exists run :: Possible(INITIAL, run) && After(INITIAL, run) == hung)
            && (forall a :: Enabled(hung, a) ==> a.MainTurn?)
  {
    hide Possible, After;
    var s1 := Step(INITIAL, MainTurn(Nothing));
    var s2 := Step(s1, MainTurn(Forward));
    var s3 := Step(s2, ReaderTurn(Nothing));
    var s4 := Step(s3, ReaderTurn(Nothing));
    var s5 := Step(s4, ReaderTurn(Failure));
    var s6 := Step(s5, ReaderTurn(Nothing));
    var s7 := Step(s6, ReaderTurn(Nothing));
    var s8 := Step(s7, ReaderTurn(Nothing));
    Stays(s8, MainTurn(Nothing));
    var r := Prepend(s7, ReaderTurn(Nothing), [MainTurn(Nothing)]);
    r := Prepend(s6, ReaderTurn(Nothing), r);
    r := Prepend(s5, ReaderTurn(Nothing), r);
    r := Prepend(s4, ReaderTurn(Failure), r);
    r := Prepend(s3, ReaderTurn(Nothing), r);
    r := Prepend(s2, ReaderTurn(Nothing), r);
    r := Prepend(s1, MainTurn(Forward), r);
    r := Prepend(INITIAL, MainTurn(Nothing), r);
  }

  // The end.

  function MainRank(m: Main): nat {
    match m
    case Receiving => 10
    case Issuing => 9
    case Writing(_) => 8
    case Looking => 7
    case EndingToo => 6
    case ShuttingToo => 5
    case CancellingToo => 4
    case Waiting => 3
    case Joined => 2
    case PipeClosed => 1
    case Done => 0
  }

  function Distance(s: State): nat {
    2 * (MainRank(s.main) + Rank(s.reader)) + if s.reader == Reading(false) then 1 else 0
  }

  /** A step that brings a closing session nearer to its end. A pending write is taken by the app. */
  function Onward(s: State): Action {
    if s.reader.Shutting? || s.reader.Cancelling? then ReaderTurn(Nothing)
    else if s.main.Receiving? then MainTurn(Failure)
    else if InLoop(s.main) then MainTurn(Forward)
    else if s.main.Waiting? && s.reader == Reading(false) then Cancel
    else if s.main.Waiting? && !s.reader.Exited? then ReaderTurn(Failure)
    else MainStep
  }

  lemma OnwardWorks(s: State)
    requires s.closing && Invariant(s) && !s.main.Done?
    ensures Enabled(s, Onward(s))
    ensures var t := Step(s, Onward(s)); t.closing && Invariant(t) && Distance(t) < Distance(s)
  {
    StepKeepsInvariant(s, Onward(s));
  }

  /** Every session that is closing can be brought to its end. */
  lemma {:induction false} FinishWorks(s: State) returns (run: seq<Action>)
    requires s.closing && Invariant(s)
    ensures Possible(s, run) && After(s, run).main.Done? && After(s, run).reader.Exited?
    decreases Distance(s)
  {
    if s.main.Done? {
      run := [];
    } else {
      hide Invariant, Step, Enabled;
      OnwardWorks(s);
      var rest := FinishWorks(Step(s, Onward(s)));
      run := Prepend(s, Onward(s), rest);
    }
  }
}
