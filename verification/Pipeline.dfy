/** Both directions end to end: driver, TCP, bridge, pipe. */
module Pipeline {
  import opened Wire
  import opened Framing
  import opened Transport
  import opened Bridge
  import opened Client

  /** The payloads whose send was reported as successful. */
  function Picked(payloads: seq<bytes>, sent: seq<bool>): seq<bytes>
    requires |payloads| == |sent|
  {
    if payloads == [] then []
    else (if sent[0] then [payloads[0]] else []) + Picked(payloads[1..], sent[1..])
  }

  lemma {:induction false} PickedSnoc(payloads: seq<bytes>, sent: seq<bool>, p: bytes, ok: bool)
    requires |payloads| == |sent|
    ensures Picked(payloads + [p], sent + [ok]) == Picked(payloads, sent) + if ok then [p] else []
  {
    if payloads == [] {
      assert Picked([p][1..], [ok][1..]) == [];
    } else {
      assert (payloads + [p])[1..] == payloads[1..] + [p] && (sent + [ok])[1..] == sent[1..] + [ok];
      PickedSnoc(payloads[1..], sent[1..], p, ok);
    }
  }

  /** A connection of the driver, and any run of full, dropped, partial and failed sends on it. */
  method SendAll(client: BridgeClient, payloads: seq<bytes>) returns (sent: seq<bool>)
    requires client.Valid() && client.fd == null && Within(client.limit, payloads)
    modifies client
    ensures client.fd != null && fresh(client.fd) && client.Valid() && |sent| == |payloads|
    ensures client.attempts == old(client.attempts) + payloads && client.outcomes == old(client.outcomes) + sent
    ensures client.accepted == Picked(payloads, sent)
  {
    hide Frame, Torn, Picked;
    client.Announce();
    client.Publish();
    sent := [];
    NothingPicked();
    var i := 0;
    while i < |payloads|
      invariant i <= |payloads| && |sent| == i
      invariant client.fd != null && fresh(client.fd) && client.Valid()
      invariant client.accepted == Picked(payloads[..i], sent)
      invariant client.attempts == old(client.attempts) + payloads[..i]
                && client.outcomes == old(client.outcomes) + sent
    {
      var ok := client.Send(payloads[i]);
      assert payloads[..i + 1] == payloads[..i] + [payloads[i]];
      PickedSnoc(payloads[..i], sent, payloads[i], ok);
      sent, i := sent + [ok], i + 1;
    }
    assert payloads[..i] == payloads;
  }

  lemma NothingPicked()
    ensures Picked([], []) == []
  {
  }

  /** One connection of the driver, any part of the stream reaching the bridge. The app reads, in order and each
      whole, a prefix of the payloads whose send succeeded: all of them if the whole stream arrives and the bridge
      relays to its end. The bridge never sees an oversized length. */
  method DriverToApp(client: BridgeClient, payloads: seq<bytes>, closesAt: nat)
    returns (sent: seq<bool>, arrived: bytes, source: Source, pipe: Pipe, exit: Exit, count: nat)
    requires client.Valid() && client.fd == null && client.limit == MAX_PAYLOAD && Within(MAX_PAYLOAD, payloads)
    modifies client
    ensures fresh(pipe) && fresh(source) && client.fd != null && |sent| == |payloads|
    ensures client.attempts == old(client.attempts) + payloads && client.outcomes == old(client.outcomes) + sent
    ensures client.accepted == Picked(payloads, sent)
    ensures count <= |Picked(payloads, sent)| && Within(MAX_PAYLOAD, Picked(payloads, sent)[..count])
    ensures pipe.written == PipeMessages(Picked(payloads, sent)[..count])
    ensures arrived <= client.fd.sent
    ensures exit == RecvEnded && source.unread == [] && arrived == client.fd.sent ==> count == |Picked(payloads, sent)|
    ensures exit == Closing ==> count == closesAt
    ensures exit == WriteFailed ==> pipe.results != [] && !pipe.results[|pipe.results| - 1]
    ensures exit != Oversized
  {
    hide Frame, Torn, ScanFrames, Picked;
    sent := SendAll(client, payloads);
    var stream := client.fd.sent;
    var n: nat :| n <= |stream|;
    arrived := stream[..n];
    source := new Source(arrived);
    TornPrefix(MAX_PAYLOAD, client.accepted, client.torn, arrived);
    pipe := new Pipe();
    ghost var relayed: seq<bytes>;
    exit, relayed := SockToPipe(source, pipe, closesAt);
    count := |pipe.written|;
    assert relayed == client.accepted[..count];
    assert [] + PipeMessages(relayed) == PipeMessages(relayed);
  }

  /** `received` is any prefix of a stream of accepted frames that may end in a torn one. */
  lemma TornPrefix(limit: nat, payloads: seq<bytes>, torn: bytes, received: bytes)
    requires Within(limit, payloads) && Torn(limit, torn) && received <= FrameAll(payloads) + torn
    ensures ScanFrames(limit, received).frames <= payloads
    ensures received == FrameAll(payloads) + torn ==> ScanFrames(limit, received).frames == payloads
    ensures !ScanFrames(limit, received).bad
  {
    hide Frame, ScanFrames;
    var next :| Framable(next) && |next| <= limit && torn <= Frame(next) && |torn| < |Frame(next)|;
    ReceivedIsPrefix(limit, payloads, next, torn, received);
    ScanTorn(limit, next, torn);
    ScanFramed(limit, payloads, torn);
    assert payloads + [] == payloads;
  }

  lemma {:induction false} ScanLimits(payloads: seq<bytes>)
    requires Within(PIPE_BUFFER - 4, payloads)
    ensures Within(MAX_FRAME, payloads)
  {
  }

  lemma TornLimits(torn: bytes)
    requires Torn(PIPE_BUFFER - 4, torn)
    ensures Torn(MAX_FRAME, torn)
  {
  }

  /** One connection of the app, any part of the stream reaching the driver in any chunks. The driver queues, in
      order, what a prefix of the well-formed pipe messages decodes to: all of them if the bridge relays to the end
      and the whole stream arrives. No length it sees is too large. */
  method AppToDriver(inbox: seq<PipeRead>, client: BridgeClient, closesAt: nat)
    returns (relay: PipeExit, sock: Sink, events: seq<ReadEvent>, exit: ReadExit, count: nat)
    modifies client`queue, client`drained
    ensures fresh(sock) && FromKernel(events) && StreamOf(events) <= sock.sent
    ensures count <= |AppPayloads(inbox)|
    ensures client.Delivered() == old(client.Delivered()) + Messages(AppPayloads(inbox)[..count])
    ensures relay == ReadEnded && StreamOf(events) == sock.sent ==> count == |AppPayloads(inbox)|
    ensures relay == ClosingSeen && StreamOf(events) == sock.sent ==>
              closesAt < |inbox| && AppPayloads(inbox) == AppPayloads(inbox)[..count] + AppPayloads(inbox[closesAt..])
    ensures exit != BadLength
  {
    hide Frame, Torn, ScanFrames, Messages, StreamOf, AppPayloads;
    sock := new Sink();
    ghost var relayed, torn;
    relay, relayed, torn := PipeToSock(inbox, sock, closesAt);
    assert [] + FrameAll(relayed) + torn == FrameAll(relayed) + torn;
    NothingArrives(sock.sent);
    events :| FromKernel(events) && StreamOf(events) <= sock.sent;
    ScanLimits(relayed);
    TornLimits(torn);
    TornPrefix(MAX_FRAME, relayed, torn, StreamOf(events));
    var leftover;
    ghost var peak;
    exit, leftover, peak := client.ReadLoop(events);
    count := |ScanFrames(MAX_FRAME, StreamOf(events)).frames|;
    assert ScanFrames(MAX_FRAME, StreamOf(events)).frames == AppPayloads(inbox)[..count];
  }

  lemma NothingArrives(sent: bytes)
    ensures FromKernel([]) && StreamOf([]) <= sent
  {
  }
}
