/** The driver's TCP client: all-or-nothing sends, the incremental frame reader, and the message queue. */
module Client {
  import opened Wire
  import opened Framing
  import opened Transport
  import Proto
  import Codec

  const MAX_FRAME := 65536
  const CHUNK := 8192

  /** The messages the decodable payloads carry, in order. */
  function Messages(payloads: seq<bytes>): seq<Proto.Msg> {
    if payloads == [] then []
    else (match Proto.Decode(payloads[0]) case None => [] case Some(m) => [m]) + Messages(payloads[1..])
  }

  lemma {:induction false} MessagesAppend(a: seq<bytes>, b: seq<bytes>)
    ensures Messages(a + b) == Messages(a) + Messages(b)
  {
    hide Proto.Decode;
    if a == [] {
      assert a + b == b;
    } else {
      assert (a + b)[1..] == a[1..] + b;
      MessagesAppend(a[1..], b);
    }
  }

  /** What one turn of the read loop gets from the kernel. The sequence ends when the client is stopped. */
  datatype ReadEvent = Quiet | Chunk(data: bytes) | Ended

  predicate FromKernel(events: seq<ReadEvent>) {
    forall k :: 0 <= k < |events| && events[k].Chunk? ==> 1 <= |events[k].data| <= CHUNK
  }

  /** All bytes received before the connection ends. */
  function StreamOf(events: seq<ReadEvent>): bytes {
    if events == [] || events[0].Ended? then []
    else (if events[0].Chunk? then events[0].data else []) + StreamOf(events[1..])
  }

  datatype ReadExit = Stopped | ConnectionEnded | BadLength

  class BridgeClient {
    ghost const limit: nat         // no payload handed to Send is longer
    var fd: Sink?                  // null while not connected
    var generation: nat
    var queue: seq<Proto.Msg>
    ghost var drained: seq<Proto.Msg>  // every message handed out so far
    ghost var accepted: seq<bytes>     // the payloads for which Send returned true on this connection
    ghost var torn: bytes
    ghost var attempts: seq<bytes>     // every payload handed to Send, in order
    ghost var outcomes: seq<bool>      // what Send returned for each
    var announced: bool            // a connection is announced but its descriptor is not yet published

    /** The stream holds exactly the accepted frames, in order, and perhaps a torn one; then it is closed. */
    ghost predicate StreamSound()
      reads this, fd
    {
      && limit < TWO32
      && (fd != null ==>
            && Within(limit, accepted)
            && fd.sent == FrameAll(accepted) + torn
            && Torn(limit, torn)
            && (torn != [] ==> fd.shut))
    }

    ghost function Delivered(): seq<Proto.Msg>
      reads this
    {
      drained + queue
    }

    constructor (limit: nat)
      requires limit < TWO32
      ensures Valid() && fd == null && this.limit == limit
      ensures Delivered() == [] && generation == 0 && attempts == [] && outcomes == []
    {
      this.limit := limit;
      fd, generation, queue, announced := null, 0, [], false;
      drained, accepted, torn, attempts, outcomes := [], [], [], [], [];
    }

    /** The network thread announces a new connection before it publishes the descriptor. */
    method Announce()
      requires limit < TWO32 && fd == null
      modifies this`generation, this`accepted, this`torn, this`announced
      ensures StreamSound() && announced && accepted == [] && torn == [] && generation == old(generation) + 1
    {
      generation, accepted, torn, announced := generation + 1, [], [], true;
    }

    method Publish()
      requires StreamSound() && fd == null && announced && accepted == [] && torn == []
      modifies this`fd, this`announced
      ensures fresh(fd) && fd != null && StreamSound() && !announced
    {
      var sink := new Sink();
      fd, announced := sink, false;
      NothingTorn(limit);
    }

    method Disconnect()
      requires StreamSound()
      modifies this`fd
      ensures fd == null && StreamSound()
    {
      fd := null;
    }

    ghost predicate Valid()
      reads this, fd
    {
      StreamSound() && (announced ==> fd == null && accepted == [] && torn == [])
    }

    /** Whatever the network thread may do to the connection between two steps of a frame. */
    method Reconnect()
      requires Valid()
      modifies this`fd, this`generation, this`accepted, this`torn, this`announced
      ensures Valid() && generation >= old(generation)
      ensures generation == old(generation) ==> accepted == old(accepted)
      ensures fd == old(fd) || fd == null || fresh(fd)
    {
      var steps: nat :| true;
      while steps > 0
        invariant Valid() && generation >= old(generation)
        invariant generation == old(generation) ==> accepted == old(accepted)
        invariant fd == old(fd) || fd == null || fresh(fd)
      {
        steps := steps - 1;
        if fd != null {
          Disconnect();
        } else if announced {
          Publish();
        } else {
          Announce();
        }
      }
    }

    /** Non-blocking: the frame is taken whole, or the message is dropped, or the connection is shut down. */
    method Send(payload: bytes) returns (ok: bool)
      requires Valid() && |payload| <= limit
      modifies this`accepted, this`torn, this`attempts, this`outcomes, fd
      ensures Valid()
      ensures attempts == old(attempts) + [payload] && outcomes == old(outcomes) + [ok]
      // the whole frame is offered in one write, and its result decides
      ensures fd != null ==> exists r {:trigger old(fd.taken) + [r]} ::
                && fd.offers == old(fd.offers) + [Frame(payload)] && fd.taken == old(fd.taken) + [r]
                && (ok <==> r == |Frame(payload)|)
                && (fd.shut <==> old(fd.shut) || (r != |Frame(payload)| && r != -1))
      ensures accepted == if ok then old(accepted) + [payload] else old(accepted)
      ensures fd == null ==> !ok
      ensures fd != null && old(fd.shut) ==> !ok && fd.shut
    {
      hide Frame, Torn;
      attempts := attempts + [payload];
      if fd == null {
        outcomes := outcomes + [false];
        return false;
      }
      var frame := Frame(payload);
      ghost var before := fd.sent;
      var r := fd.Write(frame);
      if r == |frame| {
        assert frame[..r] == frame;
        FrameAllSnoc(accepted, payload);
        assert torn == [] ==> before == FrameAll(accepted);
        accepted, outcomes := accepted + [payload], outcomes + [true];
        return true;
      }
      outcomes := outcomes + [false];
      if r == -1 {
        return false;
      }
      // Nothing whole can follow a torn frame.
      if r > 0 {
        assert torn == [] ==> before == FrameAll(accepted);
        torn := frame[..r];
        CutShort(limit, payload, torn);
      }
      fd.Shutdown();
      ok := false;
    }

    method Drain() returns (out: seq<Proto.Msg>)
      modifies this`queue, this`drained
      ensures out == old(queue) && queue == [] && drained == old(drained) + out
      ensures Delivered() == old(Delivered())
    {
      out, queue := queue, [];
      drained := drained + out;
    }

    /** Takes the lock, which the frame thread may have held to drain the queue, and appends. */
    method Push(m: Proto.Msg)
      modifies this`queue, this`drained
      ensures Delivered() == old(Delivered()) + [m]
    {
      if * {
        var _ := Drain();
      }
      queue := queue + [m];
    }

    /** Handles every whole frame in the buffer. */
    method TakeFrames(buf: bytes) returns (off: nat, bad: bool)
      modifies this`queue, this`drained
      ensures var s := ScanFrames(MAX_FRAME, buf);
              && bad == s.bad
              && off <= |buf| && buf[off..] == s.rest
              && Delivered() == old(Delivered()) + Messages(s.frames)
    {
      hide FromLE32, Proto.Decode, ScanFrames;
      off := 0;
      ghost var taken: seq<bytes> := [];
      NothingTaken(buf);
      while |buf| - off >= 4
        invariant TakenSoFar(buf, off, taken)
        invariant Delivered() == old(Delivered()) + Messages(taken)
      {
        var n := FromLE32(buf[off..]);
        if n > MAX_FRAME {
          TakeNoMore(buf, off, taken);
          return off, true;
        }
        if |buf| - off < 4 + n {
          break;
        }
        var payload := buf[off + 4..off + 4 + n];
        TakeOne(buf, off, taken, payload);
        var found, m := Codec.DecodePayload(payload);
        if found {
          Push(m);
        }
        taken := taken + [payload];
        off := off + 4 + n;
      }
      TakeNoMore(buf, off, taken);
      bad := false;
    }

    /** Splits the stream into frames and queues what they carry, however the bytes are chunked. `peak` is the
        largest size the buffer has had. */
    method ReadLoop(events: seq<ReadEvent>) returns (exit: ReadExit, leftover: bytes, ghost peak: nat)
      requires FromKernel(events)
      modifies this`queue, this`drained
      ensures var s := ScanFrames(65536, StreamOf(events));
              && Delivered() == old(Delivered()) + Messages(s.frames)
              && (exit == BadLength <==> s.bad)
              && (!s.bad ==> leftover == s.rest && |leftover| <= 65539)
      ensures peak == PeakOf([], events) <= 73731
    {
      hide Proto.Decode, ScanFrames, StreamOf, PeakOf, Messages, Fed;
      var buf: bytes := [];
      ghost var seen: bytes := [];
      peak := 0;
      NothingFed(events);
      var i := 0;
      while i < |events|
        invariant i <= |events| && Fed(events, i, seen, buf, peak)
        invariant Delivered() == old(Delivered()) + Messages(ScanFrames(MAX_FRAME, seen).frames)
      {
        match events[i] {
          case Quiet =>
            FedQuiet(events, i, seen, buf, peak);
          case Ended =>
            FedAll(events, i, seen, buf, peak);
            exit, leftover := ConnectionEnded, buf;
            return;
          case Chunk(data) =>
            FedChunk(events, i, seen, buf, peak, data);
            buf := buf + data;
            peak := Max(peak, |buf|);
            seen := seen + data;
            var off, bad := TakeFrames(buf);
            if bad {
              exit, leftover := BadLength, buf;
              return;
            }
            buf := buf[off..];
        }
        i := i + 1;
      }
      FedAll(events, i, seen, buf, peak);
      exit, leftover := Stopped, buf;
    }
  }

  /** After `i` events: `seen` has been received, `buf` is what it leaves over, `peak` the largest buffer so far. */
  ghost predicate Fed(events: seq<ReadEvent>, i: nat, seen: bytes, buf: bytes, peak: nat) {
    && i <= |events|
    && StreamOf(events) == seen + StreamOf(events[i..])
    && ScanFrames(MAX_FRAME, seen) == Scan(ScanFrames(MAX_FRAME, seen).frames, buf, false)
    && |buf| <= 65539 && peak <= 73731
    && PeakOf([], events) == Max(peak, PeakOf(buf, events[i..]))
  }

  lemma NothingFed(events: seq<ReadEvent>)
    ensures Fed(events, 0, [], [], 0) && Messages(ScanFrames(MAX_FRAME, []).frames) == []
  {
    assert [] + StreamOf(events) == StreamOf(events) && events[0..] == events;
  }

  lemma FedQuiet(events: seq<ReadEvent>, i: nat, seen: bytes, buf: bytes, peak: nat)
    requires Fed(events, i, seen, buf, peak) && i < |events| && events[i].Quiet?
    ensures Fed(events, i + 1, seen, buf, peak)
  {
    hide ScanFrames;
    assert events[i..][1..] == events[i + 1..];
    NextEvent(events[i..], buf, seen);
  }

  lemma FedAll(events: seq<ReadEvent>, i: nat, seen: bytes, buf: bytes, peak: nat)
    requires Fed(events, i, seen, buf, peak) && (i == |events| || events[i].Ended?)
    ensures ScanFrames(MAX_FRAME, StreamOf(events)) == ScanFrames(MAX_FRAME, seen)
    ensures ScanFrames(MAX_FRAME, seen).rest == buf && !ScanFrames(MAX_FRAME, seen).bad && |buf| <= 65539
    ensures peak == PeakOf([], events) <= 73731
  {
    hide ScanFrames;
    assert seen + [] == seen;
    if i < |events| {
      NextEvent(events[i..], buf, seen);
    }
  }

  lemma FedChunk(events: seq<ReadEvent>, i: nat, seen: bytes, buf: bytes, peak: nat, data: bytes)
    requires FromKernel(events) && Fed(events, i, seen, buf, peak) && i < |events| && events[i] == Chunk(data)
    ensures var s, t := ScanFrames(MAX_FRAME, seen), ScanFrames(MAX_FRAME, buf + data);
            && ScanFrames(MAX_FRAME, seen + data).frames == s.frames + t.frames
            && Messages(s.frames + t.frames) == Messages(s.frames) + Messages(t.frames)
            && if t.bad
               then
                 && ScanFrames(MAX_FRAME, StreamOf(events)).bad
                 && ScanFrames(MAX_FRAME, StreamOf(events)).frames == s.frames + t.frames
                 && Max(peak, |buf + data|) == PeakOf([], events) <= 73731
               else Fed(events, i + 1, seen + data, t.rest, Max(peak, |buf + data|))
  {
    hide ScanFrames, StreamOf, Messages;
    assert events[i..][1..] == events[i + 1..];
    NextEvent(events[i..], buf, seen);
    AfterChunk(seen, data, StreamOf(events[i + 1..]));
  }

  function Max(a: nat, b: nat): nat {
    if a < b then b else a
  }

  /** The largest buffer the reader needs: what the chunks before left over, plus a chunk. */
  function PeakOf(rest: bytes, events: seq<ReadEvent>): nat
    decreases |events|
  {
    if events == [] || events[0].Ended? then 0
    else if events[0].Quiet? then PeakOf(rest, events[1..])
    else
      var buf := rest + events[0].data;
      var s := ScanFrames(MAX_FRAME, buf);
      Max(|buf|, if s.bad then 0 else PeakOf(s.rest, events[1..]))
  }

  lemma StreamHead(events: seq<ReadEvent>)
    requires events != []
    ensures StreamOf(events) ==
            match events[0]
            case Ended => []
            case Quiet => [] + StreamOf(events[1..])
            case Chunk(data) => data + StreamOf(events[1..])
  {
  }

  lemma Associate<T>(a: seq<T>, b: seq<T>, c: seq<T>)
    ensures a + (b + c) == a + b + c && a + [] == a
  {
  }

  lemma NextBytes(events: seq<ReadEvent>, seen: bytes)
    requires events != []
    ensures seen + StreamOf(events) ==
            match events[0]
            case Ended => seen
            case Quiet => seen + StreamOf(events[1..])
            case Chunk(data) => seen + data + StreamOf(events[1..])
    ensures events[0].Chunk? ==> seen + (events[0].data + StreamOf(events[1..])) == seen + StreamOf(events)
  {
    hide ScanFrames, PeakOf, StreamOf;
    StreamHead(events);
    Associate(seen, if events[0].Chunk? then events[0].data else [], StreamOf(events[1..]));
  }

  lemma NextPeak(events: seq<ReadEvent>, rest: bytes)
    requires events != []
    ensures PeakOf(rest, events) ==
            match events[0]
            case Ended => 0
            case Quiet => PeakOf(rest, events[1..])
            case Chunk(data) =>
              var s := ScanFrames(MAX_FRAME, rest + data);
              Max(|rest + data|, if s.bad then 0 else PeakOf(s.rest, events[1..]))
  {
    hide ScanFrames, StreamOf;
  }

  lemma NextEvent(events: seq<ReadEvent>, rest: bytes, seen: bytes)
    requires events != []
    ensures seen + StreamOf(events) ==
            match events[0]
            case Ended => seen
            case Quiet => seen + StreamOf(events[1..])
            case Chunk(data) => seen + data + StreamOf(events[1..])
    ensures events[0].Chunk? ==> seen + (events[0].data + StreamOf(events[1..])) == seen + StreamOf(events)
    ensures PeakOf(rest, events) ==
            match events[0]
            case Ended => 0
            case Quiet => PeakOf(rest, events[1..])
            case Chunk(data) =>
              var s := ScanFrames(MAX_FRAME, rest + data);
              Max(|rest + data|, if s.bad then 0 else PeakOf(s.rest, events[1..]))
  {
    hide ScanFrames, StreamOf, PeakOf;
    NextBytes(events, seen);
    NextPeak(events, rest);
  }

  /** The frames `taken` end at `off`, and the rest of the buffer is still to be scanned. */
  ghost predicate TakenSoFar(buf: bytes, off: nat, taken: seq<bytes>) {
    && off <= |buf|
    && var t := ScanFrames(MAX_FRAME, buf[off..]);
       ScanFrames(MAX_FRAME, buf) == Scan(taken + t.frames, t.rest, t.bad)
  }

  lemma NothingTaken(buf: bytes)
    ensures TakenSoFar(buf, 0, [])
  {
    assert buf[0..] == buf && [] + ScanFrames(MAX_FRAME, buf).frames == ScanFrames(MAX_FRAME, buf).frames;
  }

  lemma TakeOne(buf: bytes, off: nat, taken: seq<bytes>, payload: bytes)
    requires TakenSoFar(buf, off, taken) && |buf| - off >= 4
    requires var n := FromLE32(buf[off..]);
             n <= MAX_FRAME && |buf| - off >= 4 + n && payload == buf[off + 4..off + 4 + n]
    ensures TakenSoFar(buf, off + 4 + FromLE32(buf[off..]), taken + [payload])
    ensures Messages(taken + [payload]) ==
            Messages(taken) + (match Proto.Decode(payload) case None => [] case Some(m) => [m])
  {
    hide FromLE32, Proto.Decode;
    var here, n := buf[off..], FromLE32(buf[off..]);
    assert here[4..4 + n] == payload && here[4 + n..] == buf[off + 4 + n..];
    var t := ScanFrames(MAX_FRAME, here[4 + n..]);
    assert taken + ([payload] + t.frames) == taken + [payload] + t.frames;
    MessagesAppend(taken, [payload]);
    assert Messages([payload][1..]) == [];
  }

  lemma TakeNoMore(buf: bytes, off: nat, taken: seq<bytes>)
    requires TakenSoFar(buf, off, taken)
    requires |buf| - off >= 4 ==> FromLE32(buf[off..]) > MAX_FRAME || |buf| - off < 4 + FromLE32(buf[off..])
    ensures ScanFrames(MAX_FRAME, buf) ==
            Scan(taken, buf[off..], |buf| - off >= 4 && FromLE32(buf[off..]) > MAX_FRAME)
  {
    hide FromLE32;
    assert taken + [] == taken;
  }

  /** The effect of one more chunk, given only what the earlier ones left over. */
  lemma AfterChunk(seen: bytes, data: bytes, later: bytes)
    requires !ScanFrames(MAX_FRAME, seen).bad
    ensures var s := ScanFrames(MAX_FRAME, seen);
            var t := ScanFrames(MAX_FRAME, s.rest + data);
            && ScanFrames(MAX_FRAME, seen + data) == Scan(s.frames + t.frames, t.rest, t.bad)
            && Messages(s.frames + t.frames) == Messages(s.frames) + Messages(t.frames)
            && (t.bad ==> ScanFrames(MAX_FRAME, seen + (data + later)).bad)
            && (t.bad ==> ScanFrames(MAX_FRAME, seen + (data + later)).frames == s.frames + t.frames)
            && (!t.bad ==> |t.rest| <= 65539)
  {
    hide ScanFrames, Messages;
    var s := ScanFrames(MAX_FRAME, seen);
    var t := ScanFrames(MAX_FRAME, s.rest + data);
    ScanAppend(MAX_FRAME, seen, data);
    if t.bad {
      ScanAppend(MAX_FRAME, seen + data, later);
      assert seen + (data + later) == seen + data + later;
    }
    MessagesAppend(s.frames, t.frames);
    ScanWithin(MAX_FRAME, seen + data);
  }

  /** The frame reader fed chunk by chunk, keeping only what the previous chunks left over. */
  function InChunks(limit: nat, rest: bytes, chunks: seq<bytes>): Scan
    decreases |chunks|
  {
    if chunks == [] then Scan([], rest, false)
    else
      var s := ScanFrames(limit, rest + chunks[0]);
      if s.bad then s
      else
        var t := InChunks(limit, s.rest, chunks[1..]);
        Scan(s.frames + t.frames, t.rest, t.bad)
  }

  /** However a stream is split into chunks, the frames, the stop at a bad length and the leftover
      are those of one pass over all of it. */
  lemma {:induction false} ChunkingIndependent(limit: nat, rest: bytes, chunks: seq<bytes>)
    requires ScanFrames(limit, rest) == Scan([], rest, false)
    ensures var c, s := InChunks(limit, rest, chunks), ScanFrames(limit, rest + Proto.Concat(chunks));
            c.frames == s.frames && c.bad == s.bad && (!s.bad ==> c.rest == s.rest)
    decreases |chunks|
  {
    hide FromLE32;
    if chunks == [] {
      assert rest + [] == rest;
    } else {
      var more := Proto.Concat(chunks[1..]);
      var s := ScanFrames(limit, rest + chunks[0]);
      assert rest + Proto.Concat(chunks) == rest + chunks[0] + more;
      ScanAppend(limit, rest + chunks[0], more);
      if !s.bad {
        RestIsIncomplete(limit, rest + chunks[0]);
        ChunkingIndependent(limit, s.rest, chunks[1..]);
      }
    }
  }

  lemma {:induction false} RestIsIncomplete(limit: nat, s: bytes)
    requires !ScanFrames(limit, s).bad
    ensures var r := ScanFrames(limit, s).rest; ScanFrames(limit, r) == Scan([], r, false)
    decreases |s|
  {
    hide FromLE32;
    if |s| >= 4 && FromLE32(s) <= limit && |s| >= 4 + FromLE32(s) {
      RestIsIncomplete(limit, s[4 + FromLE32(s)..]);
    }
  }
}
