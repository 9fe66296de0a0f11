/** The bridge: re-framing the driver's stream into pipe messages, and the app's messages into a stream. */
module Bridge {
  import opened Wire
  import opened Framing
  import opened Transport

  const MAX_PAYLOAD := 2044
  const MAX_MSG := MAX_PAYLOAD + 4
  const PIPE_BUFFER := 4096

  function PipeMessages(payloads: seq<bytes>): (m: seq<bytes>)
    requires Within(MAX_PAYLOAD, payloads)
  {
    seq(|payloads|, k requires 0 <= k < |payloads| => Frame(payloads[k]))
  }

  /** Fills buf[off..off + len], or reports that the connection ended first. */
  method RecvAll(sock: Source, buf: array<byte>, off: nat, len: nat) returns (ok: bool)
    requires off + len <= buf.Length
    modifies sock, buf
    ensures buf[..off] == old(buf[..off])
    ensures ok ==> old(sock.unread) == buf[off..off + len] + sock.unread && sock.ended == old(sock.ended)
    ensures !ok ==> sock.ended && |sock.unread| <= |old(sock.unread)| < |sock.unread| + len
  {
    var at: nat, left: nat := off, len;
    while left > 0
      invariant off <= at && at + left == off + len
      invariant buf[..off] == old(buf[..off])
      invariant old(sock.unread) == buf[off..at] + sock.unread && sock.ended == old(sock.ended)
    {
      var r := sock.Recv(left);
      if r == [] {
        return false;
      }
      ghost var before := buf[off..at];
      forall i | 0 <= i < |r| {
        buf[at + i] := r[i];
      }
      assert buf[off..at + |r|] == before + r;
      at, left := at + |r|, left - |r|;
    }
    ok := true;
  }

  datatype Exit = Closing | RecvEnded | Oversized | WriteFailed

  /** Relays the driver's frames until the session ends: whole frames, each in one write. `closesAt` is the turn of
      the loop that finds `closing` set. Each way out says how far the relay has come: to that turn, to the end of
      what can be received, to a bad length, or to a write that was reported as failed. */
  method SockToPipe(sock: Source, pipe: Pipe, closesAt: nat) returns (exit: Exit, ghost relayed: seq<bytes>)
    modifies sock, pipe
    ensures Within(MAX_PAYLOAD, relayed)
    ensures pipe.written == old(pipe.written) + PipeMessages(relayed)
    ensures relayed <= ScanFrames(2044, old(sock.unread)).frames
    ensures exit == Closing ==> |relayed| == closesAt
    ensures exit == RecvEnded ==>
              sock.ended && (sock.unread == [] ==> relayed == ScanFrames(2044, old(sock.unread)).frames)
    ensures exit == Oversized ==>
              ScanFrames(2044, old(sock.unread)).bad
              && relayed == ScanFrames(2044, old(sock.unread)).frames
    ensures exit == WriteFailed ==> old(pipe.results) < pipe.results && !pipe.results[|pipe.results| - 1]
  {
    hide FromLE32, Frame, ScanFrames, PipeMessages;
    NoFrames(ScanFrames(MAX_PAYLOAD, sock.unread).frames, pipe.written);
    var buf := new byte[MAX_MSG](_ => 0);
    relayed := [];
    exit := Closing;
    var turn := 0;
    while true
      invariant fresh(buf) && Within(MAX_PAYLOAD, relayed) && |relayed| == turn <= closesAt
      invariant pipe.written == old(pipe.written) + PipeMessages(relayed) && old(pipe.results) <= pipe.results
      invariant var now, all := ScanFrames(MAX_PAYLOAD, sock.unread), ScanFrames(MAX_PAYLOAD, old(sock.unread));
                all.frames == relayed + now.frames && all.bad == now.bad
      decreases |sock.unread|
    {
      if turn == closesAt {
        return;
      }
      ghost var stream := sock.unread;
      var ok := RecvAll(sock, buf, 0, 4);
      if !ok {
        NoWholeFrame(stream, relayed, sock.unread);
        exit := RecvEnded;
        return;
      }
      var header := buf[..4];
      assert buf[0..4] == header;
      var len := FromLE32(header);
      HeaderAppend(header, sock.unread);
      if len > MAX_PAYLOAD {
        OversizedHeader(stream, relayed);
        exit := Oversized;
        return;
      }
      ghost var body := sock.unread;
      ok := RecvAll(sock, buf, 4, len);
      if !ok {
        NoWholeFrame(stream, relayed, sock.unread);
        exit := RecvEnded;
        return;
      }
      ghost var payload := buf[4..4 + len];
      WholeFrame(stream, header, payload, sock.unread);
      assert buf[..len + 4] == header + payload;
      assert buf[..4] == header;
      ghost var before := pipe.written;
      var delivered := pipe.Write(buf[..len + 4]);
      if pipe.written != before {
        PipeMessagesAppend(relayed, payload, old(pipe.written));
        Shift(relayed, payload, ScanFrames(MAX_PAYLOAD, sock.unread).frames);
        relayed := relayed + [payload];
      }
      if !delivered {
        exit := WriteFailed;
        return;
      }
      turn := turn + 1;
    }
  }

  /** The bytes that are left hold no whole frame, if the missing ones never come. */
  lemma NoWholeFrame(stream: bytes, relayed: seq<bytes>, unread: bytes)
    requires |stream| < |unread| + 4 || (|stream| >= 4 && |stream| < |unread| + 4 + FromLE32(stream))
    ensures unread == [] ==> relayed + ScanFrames(MAX_PAYLOAD, stream).frames == relayed
  {
    hide FromLE32, ScanFrames;
    if unread == [] {
      ScanStops(MAX_PAYLOAD, stream);
    }
  }

  lemma NoFrames(frames: seq<bytes>, written: seq<bytes>)
    ensures [] + frames == frames && written + PipeMessages([]) == written
  {
  }

  lemma Shift(relayed: seq<bytes>, payload: bytes, later: seq<bytes>)
    ensures relayed + ([payload] + later) == relayed + [payload] + later
  {
  }

  lemma OversizedHeader(stream: bytes, relayed: seq<bytes>)
    requires |stream| >= 4 && FromLE32(stream) > MAX_PAYLOAD
    ensures ScanFrames(MAX_PAYLOAD, stream).bad && relayed + ScanFrames(MAX_PAYLOAD, stream).frames == relayed
  {
    hide FromLE32, ScanFrames;
    ScanStops(MAX_PAYLOAD, stream);
  }

  lemma WholeFrame(stream: bytes, header: bytes, payload: bytes, rest: bytes)
    requires |header| == 4 && FromLE32(header) == |payload| <= MAX_PAYLOAD
    requires stream == header + (payload + rest)
    ensures ScanFrames(MAX_PAYLOAD, stream) ==
            var tail := ScanFrames(MAX_PAYLOAD, rest); Scan([payload] + tail.frames, tail.rest, tail.bad)
    ensures |payload| <= MAX_PAYLOAD && Frame(payload) == header + payload
  {
    hide FromLE32;
    HeaderAppend(header, payload + rest);
    HeaderAppend(header, payload);
    HeadFrame(header + payload);
    assert (header + payload)[4..4 + |payload|] == payload;
    assert stream[4..4 + |payload|] == payload && stream[4 + |payload|..] == rest;
  }

  lemma PipeMessagesAppend(payloads: seq<bytes>, payload: bytes, written: seq<bytes>)
    requires Within(MAX_PAYLOAD, payloads) && |payload| <= MAX_PAYLOAD
    ensures Within(MAX_PAYLOAD, payloads + [payload])
    ensures written + PipeMessages(payloads + [payload]) == written + PipeMessages(payloads) + [Frame(payload)]
  {
    hide Frame;
    assert PipeMessages(payloads + [payload]) == PipeMessages(payloads) + [Frame(payload)];
  }

  /** What reading the pipe gives: a message, or an error (also when a message does not fit the buffer). */
  datatype PipeRead = Message(data: bytes) | ReadError

  predicate Delivers(r: PipeRead) {
    r.Message? && |r.data| <= PIPE_BUFFER
  }

  predicate WellFormed(data: bytes): (yes: bool)
    ensures yes ==> |data| >= 4
  {
    |data| >= 4 && FromLE32(data) == |data| - 4
  }

  /** The payloads of the messages whose header matches their size, up to the first read error. */
  function AppPayloads(inbox: seq<PipeRead>): (p: seq<bytes>)
    ensures Within(PIPE_BUFFER - 4, p)
  {
    if inbox == [] || !Delivers(inbox[0]) then []
    else (if WellFormed(inbox[0].data) then [inbox[0].data[4..]] else []) + AppPayloads(inbox[1..])
  }

  /** A message is well formed exactly when it is the frame of a payload. */
  lemma WellFormedIff(data: bytes)
    ensures |data| <= PIPE_BUFFER && WellFormed(data) ==> Framable(data[4..]) && data == Frame(data[4..])
    ensures forall payload :: Framable(payload) && data == Frame(payload) ==> WellFormed(data) && data[4..] == payload
  {
    hide FromLE32;
    if |data| <= PIPE_BUFFER && WellFormed(data) {
      WellFormedIsFrame(data);
    }
    forall payload | Framable(payload) && data == Frame(payload)
      ensures WellFormed(data) && data[4..] == payload
    {
      FrameHead(payload, []);
      assert data + [] == data;
    }
  }

  /** Framed messages all arrive, in order, until a read fails. */
  lemma {:induction false} FramedArrive(payloads: seq<bytes>, after: seq<PipeRead>)
    requires Within(4092, payloads)
    ensures AppPayloads(seq(|payloads|, i requires 0 <= i < |payloads| => Message(Frame(payloads[i]))) + after) ==
            payloads + AppPayloads(after)
    decreases |payloads|
  {
    hide WellFormed, AppPayloads, Frame;
    var all := seq(|payloads|, i requires 0 <= i < |payloads| => Message(Frame(payloads[i]))) + after;
    if payloads == [] {
      assert all == after && [] + AppPayloads(after) == AppPayloads(after);
    } else {
      var p := payloads[0];
      var tail := seq(|payloads| - 1, i requires 0 <= i < |payloads| - 1 => Message(Frame(payloads[1..][i]))) + after;
      WellFormedIff(Frame(p));
      FrameLayout(p);
      assert all[0] == Message(Frame(p)) && all[1..] == tail;
      NextMessage(all, tail, []);
      FramedArrive(payloads[1..], after);
      Prefixed(p, payloads, AppPayloads(after), AppPayloads(all), AppPayloads(tail));
    }
  }

  lemma Prefixed(p: bytes, payloads: seq<bytes>, after: seq<bytes>, all: seq<bytes>, tail: seq<bytes>)
    requires payloads != [] && p == payloads[0] && [] + all == [] + [p] + tail && tail == payloads[1..] + after
    ensures all == payloads + after
  {
    assert [] + all == all && [] + [p] + tail == [p] + tail;
    assert payloads == [p] + payloads[1..];
    assert [p] + (payloads[1..] + after) == [p] + payloads[1..] + after;
  }

  /** A malformed message vanishes without disturbing its neighbours. */
  lemma {:induction false} MalformedVanishes(before: seq<PipeRead>, data: bytes, after: seq<PipeRead>)
    requires forall k :: 0 <= k < |before| ==> Delivers(before[k])
    requires |data| <= PIPE_BUFFER && !WellFormed(data)
    ensures AppPayloads(before + [Message(data)] + after) == AppPayloads(before) + AppPayloads(after)
  {
    hide WellFormed, AppPayloads;
    var all := before + [Message(data)] + after;
    if before == [] {
      assert all[0] == Message(data) && all[1..] == after;
      NextMessage(all, after, []);
      assert AppPayloads(before) == [] by { NoMessages(); }
      assert [] + AppPayloads(all) == AppPayloads(all);
    } else {
      var tail := before[1..] + [Message(data)] + after;
      assert all[0] == before[0] && all[1..] == tail;
      MalformedVanishes(before[1..], data, after);
      NextMessage(all, tail, []);
      NextMessage(before, before[1..], []);
      Reassociate(if WellFormed(before[0].data) then [] + [before[0].data[4..]] else [],
                  AppPayloads(before[1..]), AppPayloads(after), AppPayloads(all), AppPayloads(before));
    }
  }

  lemma NoMessages()
    ensures AppPayloads([]) == []
  {
  }

  lemma Reassociate(head: seq<bytes>, tail: seq<bytes>, after: seq<bytes>, all: seq<bytes>, before: seq<bytes>)
    requires [] + all == head + (tail + after) && [] + before == head + tail
    ensures all == before + after
  {
    assert [] + all == all && [] + before == before;
    assert head + (tail + after) == head + tail + after;
  }

  /** The pipe's reader ends when it finds `closing` set, when a read fails or nothing is left to read, or when a
      send is cut short. */
  datatype PipeExit = ClosingSeen | ReadEnded | SendFailed

  /** Relays the app's messages until the session ends: the stream gets the frames of a prefix of the well-formed
      messages, and at most one torn frame after them. `closesAt` is the turn that finds `closing` set. Each way
      out says how far the relay has come: over the messages read before that turn, over all of them, or to a
      write that did not take everything. */
  method PipeToSock(inbox: seq<PipeRead>, sock: Sink, closesAt: nat)
    returns (exit: PipeExit, ghost relayed: seq<bytes>, ghost torn: bytes)
    modifies sock
    ensures relayed <= AppPayloads(inbox) && Within(4092, relayed)
    ensures sock.sent == old(sock.sent) + FrameAll(relayed) + torn
    ensures Torn(PIPE_BUFFER - 4, torn) && (exit != SendFailed ==> torn == [])
    ensures exit == ClosingSeen ==>
              closesAt < |inbox| && AppPayloads(inbox) == relayed + AppPayloads(inbox[closesAt..])
    ensures exit == ReadEnded ==> relayed == AppPayloads(inbox)
    ensures exit == SendFailed ==>
              && |sock.taken| == |old(sock.taken)| + |relayed| + 1
              && |sock.offers| == |old(sock.offers)| + |relayed| + 1
              && sock.taken[|sock.taken| - 1] != |sock.offers[|sock.offers| - 1]|
  {
    hide WellFormed, Frame, Torn, AppPayloads, FrameAll;
    relayed, torn := [], [];
    NothingTorn(PIPE_BUFFER - 4);
    NothingSent(sock.sent);
    var i := 0;
    while i < |inbox|
      invariant i <= |inbox| && i <= closesAt && torn == [] && Within(PIPE_BUFFER - 4, relayed)
      invariant AppPayloads(inbox) == relayed + AppPayloads(inbox[i..])
      invariant sock.sent == old(sock.sent) + FrameAll(relayed)
      invariant |sock.taken| == |old(sock.taken)| + |relayed| && |sock.offers| == |old(sock.offers)| + |relayed|
    {
      if i == closesAt {
        exit := ClosingSeen;
        return;
      }
      if !Delivers(inbox[i]) {
        NoMoreMessages(inbox[i..], relayed);
        exit := ReadEnded;
        return;
      }
      var data := inbox[i].data;
      ghost var rest := inbox[i..];
      i := i + 1;
      NextMessage(rest, inbox[i..], relayed);
      if !WellFormed(data) {
        continue;
      }
      ghost var payload := data[4..];
      WellFormedIsFrame(data);
      var r := sock.Write(data);
      if r != |data| {
        torn := if r > 0 then data[..r] else [];
        CutShort(PIPE_BUFFER - 4, payload, torn);
        exit := SendFailed;
        return;
      }
      assert data[..r] == data;
      OneMoreFrame(old(sock.sent), relayed, payload);
      relayed := relayed + [payload];
    }
    NoMoreMessages(inbox[i..], relayed);
    exit := ReadEnded;
  }

  lemma NoMoreMessages(rest: seq<PipeRead>, relayed: seq<bytes>)
    requires rest == [] || !Delivers(rest[0])
    ensures relayed + AppPayloads(rest) == relayed
  {
  }

  lemma NothingSent(sent: bytes)
    ensures sent + FrameAll([]) == sent && sent + FrameAll([]) + [] == sent
  {
  }

  /** The message at the head of the rest: its payload comes next, or it vanishes. */
  lemma NextMessage(rest: seq<PipeRead>, tail: seq<PipeRead>, relayed: seq<bytes>)
    requires rest != [] && Delivers(rest[0]) && tail == rest[1..]
    ensures relayed + AppPayloads(rest) ==
            (if WellFormed(rest[0].data) then relayed + [rest[0].data[4..]] else relayed) + AppPayloads(tail)
  {
    hide WellFormed;
    if WellFormed(rest[0].data) {
      assert relayed + ([rest[0].data[4..]] + AppPayloads(tail)) == relayed + [rest[0].data[4..]] + AppPayloads(tail);
    } else {
      assert [] + AppPayloads(tail) == AppPayloads(tail);
    }
  }

  lemma OneMoreFrame(before: bytes, relayed: seq<bytes>, payload: bytes)
    requires Within(PIPE_BUFFER - 4, relayed) && |payload| <= PIPE_BUFFER - 4
    ensures Within(PIPE_BUFFER - 4, relayed + [payload])
    ensures before + FrameAll(relayed) + Frame(payload) == before + FrameAll(relayed + [payload])
  {
    hide Frame, FrameAll;
    FrameAllSnoc(relayed, payload);
  }

  lemma WellFormedIsFrame(data: bytes)
    requires WellFormed(data) && |data| <= PIPE_BUFFER
    ensures Framable(data[4..]) && Frame(data[4..]) == data
  {
    hide FromLE32;
    HeadFrame(data);
    assert data[4..4 + FromLE32(data)] == data[4..];
    assert data[..4 + FromLE32(data)] == data;
  }
}
