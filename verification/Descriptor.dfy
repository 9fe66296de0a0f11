/** Two threads and one socket descriptor: the network thread opens, publishes, reads and closes it,
    the frame thread sends on it, and the rest of the process opens and closes descriptors of its own. */
module Descriptor {
  datatype Owner = Connection(k: nat) | Elsewhere

  datatype Lock = Free | NetworkHolds | FrameHolds

  /** Where the network thread is in its loop, with the descriptor it works on. */
  datatype Network =
    | Idle
    | Connected(fd: nat)   // connect returned, nothing announced yet
    | Announced(fd: nat)   // generation incremented
    | Reading(fd: nat)     // descriptor published
    | Leaving(fd: nat)     // read loop left, about to take the lock
    | Holding(fd: nat)     // lock taken
    | Cleared(fd: nat)     // published descriptor cleared
    | Closed               // descriptor closed, lock still held

  /** Where the frame thread is. `seen` is the connection whose descriptor made the frame go on. */
  datatype Frame =
    | Outside
    | Seen(seen: nat)
    | Entered              // send took the lock
    | Loaded(fd: nat)      // the published descriptor was loaded
    | Broken(fd: nat)      // the write failed, about to shut the socket down

  datatype State = State(
    table: map<nat, Owner>,  // the open descriptors of the process
    connections: nat,        // how many connections there have been
    generation: nat,
    published: int,          // the descriptor, or -1
    lock: Lock,
    network: Network,
    frame: Frame,
    noted: bool)             // every generation read after a connection was seen was at least that connection's

  datatype Action =
    | Connect(fd: nat) | Announce | Publish | Leave | LockToClose | Clear | Close | Unlock
    | CheckConnected | LoadGeneration | EnterSend | LoadDescriptor | Write(whole: bool) | Shutdown
    | OpenElsewhere(fd: nat) | CloseElsewhere(fd: nat)

  const INITIAL := State(map[], 0, 0, -1, Free, Idle, Outside, true)

  predicate Enabled(s: State, a: Action) {
    match a
    case Connect(fd) => s.network.Idle? && fd !in s.table
    case Announce => s.network.Connected?
    case Publish => s.network.Announced?
    case Leave => s.network.Reading?
    case LockToClose => s.network.Leaving? && s.lock.Free?
    case Clear => s.network.Holding?
    case Close => s.network.Cleared?
    case Unlock => s.network.Closed?
    case CheckConnected => s.frame.Outside?
    case LoadGeneration => s.frame.Seen?
    case EnterSend => s.frame.Outside? && s.lock.Free?
    case LoadDescriptor => s.frame.Entered?
    case Write(_) => s.frame.Loaded?
    case Shutdown => s.frame.Broken?
    case OpenElsewhere(fd) => fd !in s.table
    case CloseElsewhere(fd) => fd in s.table && s.table[fd].Elsewhere?
  }

  function Step(s: State, a: Action): State
    requires Enabled(s, a)
  {
    match a
    case Connect(fd) =>
      s.(table := s.table[fd := Connection(s.connections + 1)], connections := s.connections + 1,
         network := Connected(fd))
    case Announce => s.(generation := s.generation + 1, network := Announced(s.network.fd))
    case Publish => s.(published := s.network.fd, network := Reading(s.network.fd))
    case Leave => s.(network := Leaving(s.network.fd))
    case LockToClose => s.(lock := NetworkHolds, network := Holding(s.network.fd))
    case Clear => s.(published := -1, network := Cleared(s.network.fd))
    case Close => s.(table := s.table - {s.network.fd}, network := Closed)
    case Unlock => s.(lock := Free, network := Idle)
    case CheckConnected => if s.published < 0 then s else s.(frame := Seen(s.connections))
    case LoadGeneration => s.(frame := Outside, noted := s.noted && s.generation >= s.frame.seen)
    case EnterSend => s.(lock := FrameHolds, frame := Entered)
    case LoadDescriptor =>
      if s.published < 0 then s.(lock := Free, frame := Outside) else s.(frame := Loaded(s.published))
    case Write(whole) => if whole then s.(lock := Free, frame := Outside) else s.(frame := Broken(s.frame.fd))
    case Shutdown => s.(lock := Free, frame := Outside)
    case OpenElsewhere(fd) => s.(table := s.table[fd := Elsewhere])
    case CloseElsewhere(fd) => s.(table := s.table - {fd})
  }

  /** The state after a run, as long as each action is possible in turn. */
  predicate Possible(s: State, run: seq<Action>)
    decreases |run|
  {
    run == [] || (Enabled(s, run[0]) && Possible(Step(s, run[0]), run[1..]))
  }

  function After(s: State, run: seq<Action>): State
    requires Possible(s, run)
    decreases |run|
  {
    if run == [] then s else After(Step(s, run[0]), run[1..])
  }

  /** The descriptor a send or shutdown would touch now. */
  predicate Touches(s: State, fd: nat) {
    (s.frame.Loaded? || s.frame.Broken?) && s.frame.fd == fd
  }

  ghost predicate Invariant(s: State) {
    && (s.lock.FrameHolds? <==> s.frame.Entered? || s.frame.Loaded? || s.frame.Broken?)
    && (s.lock.NetworkHolds? <==> s.network.Holding? || s.network.Cleared? || s.network.Closed?)
    && (!s.network.Idle? && !s.network.Closed? ==>
          s.network.fd in s.table && s.table[s.network.fd] == Connection(s.connections))
    && (s.network.Reading? || s.network.Leaving? || s.network.Holding? ==> s.published == s.network.fd)
    && (s.published >= 0 ==> s.network.Reading? || s.network.Leaving? || s.network.Holding?)
    && s.generation == s.connections - (if s.network.Connected? then 1 else 0)
    && (s.frame.Loaded? || s.frame.Broken? ==>
          s.published == s.frame.fd && (s.network.Reading? || s.network.Leaving?))
    && (s.frame.Seen? ==> s.frame.seen <= s.generation)
    && s.noted
  }

  lemma StepKeepsInvariant(s: State, a: Action)
    requires Invariant(s) && Enabled(s, a)
    ensures Invariant(Step(s, a))
  {
  }

  lemma {:induction false} InvariantAlways(s: State, run: seq<Action>)
    requires Invariant(s) && Possible(s, run)
    ensures Invariant(After(s, run))
    decreases |run|
  {
    if run != [] {
      StepKeepsInvariant(s, run[0]);
      InvariantAlways(Step(s, run[0]), run[1..]);
    }
  }

  /** In every interleaving, a send or shutdown touches only the descriptor of the connection that is
      open now, never a closed or reused number; and a frame that saw a connection has read a
      generation at least as new. */
  lemma NoStaleDescriptor(run: seq<Action>)
    requires Possible(INITIAL, run)
    ensures var s := After(INITIAL, run);
            && (forall fd :: Touches(s, fd) ==>
                  fd in s.table && s.table[fd] == Connection(s.connections) && s.published == fd)
            && s.noted
  {
    InvariantAlways(INITIAL, run);
  }
}
