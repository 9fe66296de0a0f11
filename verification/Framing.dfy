/** Length-prefixed frames on a byte stream, as a one-pass parser with a limit on the payload length. */
module Framing {
  import opened Wire

  /** The whole payloads at the head of a stream, what is left, and whether a length over the limit stopped the scan. */
  datatype Scan = Scan(frames: seq<bytes>, rest: bytes, bad: bool)

  function ScanFrames(limit: nat, s: bytes): Scan
    decreases |s|
  {
    if |s| < 4 then Scan([], s, false)
    else
      var n := FromLE32(s);
      if n > limit then Scan([], s, true)
      else if |s| < 4 + n then Scan([], s, false)
      else
        var tail := ScanFrames(limit, s[4 + n..]);
        Scan([s[4..4 + n]] + tail.frames, tail.rest, tail.bad)
  }

  predicate Framable(payload: bytes) {
    |payload| < TWO32
  }

  function Frame(payload: bytes): bytes
    requires Framable(payload)
  {
    ToLE32(|payload|) + payload
  }

  /** On the wire a frame is the length, least significant byte first, and then the payload. */
  lemma FrameLayout(payload: bytes)
    requires Framable(payload)
    ensures var f := Frame(payload);
            && |f| == 4 + |payload| && f[4..] == payload
            && |payload| ==
               (f[0] as int) + 0x100 * (f[1] as int) + 0x1_0000 * (f[2] as int) + 0x100_0000 * (f[3] as int)
  {
    hide ToLE32;
    LE32RoundTrip(|payload|, payload);
  }

  predicate Within(limit: nat, payloads: seq<bytes>) {
    forall k :: 0 <= k < |payloads| ==> |payloads[k]| <= limit && Framable(payloads[k])
  }

  function FrameAll(payloads: seq<bytes>): bytes
    requires forall k :: 0 <= k < |payloads| ==> Framable(payloads[k])
  {
    if payloads == [] then [] else Frame(payloads[0]) + FrameAll(payloads[1..])
  }

  lemma ScanStep(limit: nat, s: bytes, n: nat)
    requires |s| >= 4 && FromLE32(s) == n <= limit && |s| >= 4 + n
    ensures ScanFrames(limit, s) ==
            var tail := ScanFrames(limit, s[4 + n..]); Scan([s[4..4 + n]] + tail.frames, tail.rest, tail.bad)
  {
    hide FromLE32;
  }

  lemma ScanStops(limit: nat, s: bytes)
    requires |s| >= 4 ==> FromLE32(s) > limit || |s| < 4 + FromLE32(s)
    ensures ScanFrames(limit, s) == Scan([], s, |s| >= 4 && FromLE32(s) > limit)
  {
    hide FromLE32;
  }

  /** More bytes extend the result; after a bad length they change nothing. */
  lemma {:induction false} ScanAppend(limit: nat, a: bytes, b: bytes)
    ensures var s := ScanFrames(limit, a);
            var t := ScanFrames(limit, s.rest + b);
            ScanFrames(limit, a + b) ==
            if s.bad then Scan(s.frames, s.rest + b, true) else Scan(s.frames + t.frames, t.rest, t.bad)
    decreases |a|
  {
    hide FromLE32, ScanFrames;
    if |a| >= 4 {
      HeaderAppend(a, b);
    }
    var n := if |a| >= 4 then FromLE32(a) else 0;
    if |a| >= 4 && n <= limit && |a| >= 4 + n {
      ScanStep(limit, a, n);
      ScanStep(limit, a + b, n);
      assert (a + b)[4..4 + n] == a[4..4 + n] && (a + b)[4 + n..] == a[4 + n..] + b;
      ScanAppend(limit, a[4 + n..], b);
      var u := ScanFrames(limit, a[4 + n..]);
      var t := ScanFrames(limit, u.rest + b);
      assert [a[4..4 + n]] + (u.frames + t.frames) == [a[4..4 + n]] + u.frames + t.frames;
    } else {
      ScanStops(limit, a);
      var t := ScanFrames(limit, a + b);
      assert [] + t.frames == t.frames;
      if |a| >= 4 && n > limit {
        ScanStops(limit, a + b);
      }
    }
  }

  lemma {:induction false} ScanWithin(limit: nat, s: bytes)
    requires limit < TWO32
    ensures Within(limit, ScanFrames(limit, s).frames)
    ensures !ScanFrames(limit, s).bad ==> |ScanFrames(limit, s).rest| <= limit + 3
    decreases |s|
  {
    hide FromLE32;
    if |s| >= 4 && FromLE32(s) <= limit && |s| >= 4 + FromLE32(s) {
      ScanWithin(limit, s[4 + FromLE32(s)..]);
    }
  }

  /** The scan loses nothing: framing what it found and adding what is left gives the stream back. */
  lemma {:induction false} ScanConserves(limit: nat, s: bytes)
    requires limit < TWO32
    ensures Within(limit, ScanFrames(limit, s).frames)
    ensures FrameAll(ScanFrames(limit, s).frames) + ScanFrames(limit, s).rest == s
    decreases |s|
  {
    hide FromLE32, Frame;
    ScanWithin(limit, s);
    var n := if |s| >= 4 then FromLE32(s) else 0;
    if |s| >= 4 && n <= limit && |s| >= 4 + n {
      ScanConserves(limit, s[4 + n..]);
      HeadFrame(s);
      var tail := ScanFrames(limit, s[4 + n..]);
      FrameAllCons(s[4..4 + n], tail.frames);
      Join(s, 4 + n, FrameAll(tail.frames), tail.rest);
    }
  }

  lemma Join(s: bytes, k: nat, a: bytes, b: bytes)
    requires k <= |s| && a + b == s[k..]
    ensures s[..k] + a + b == s
  {
    assert s[..k] + a + b == s[..k] + (a + b);
  }

  lemma FrameAllCons(payload: bytes, payloads: seq<bytes>)
    requires Framable(payload) && forall k :: 0 <= k < |payloads| ==> Framable(payloads[k])
    ensures FrameAll([payload] + payloads) == Frame(payload) + FrameAll(payloads)
  {
    assert ([payload] + payloads)[1..] == payloads;
  }

  lemma HeaderBytes(s: bytes)
    requires |s| >= 4
    ensures ToLE32(FromLE32(s)) == s[..4]
  {
    var b0: int, b1: int, b2: int, b3: int := s[0], s[1], s[2], s[3];
    var n := b0 + 0x100 * (b1 + 0x100 * (b2 + 0x100 * b3));
    assert n / 0x100 == b1 + 0x100 * (b2 + 0x100 * b3);
    assert n / 0x1_0000 == n / 0x100 / 0x100 == b2 + 0x100 * b3;
    assert n / 0x100_0000 == n / 0x1_0000 / 0x100 == b3;
  }

  lemma HeadFrame(s: bytes)
    requires |s| >= 4 && |s| >= 4 + FromLE32(s)
    ensures Frame(s[4..4 + FromLE32(s)]) == s[..4 + FromLE32(s)]
  {
    hide FromLE32, ToLE32;
    HeaderBytes(s);
  }

  lemma HeaderAppend(a: bytes, b: bytes)
    requires |a| >= 4
    ensures FromLE32(a + b) == FromLE32(a)
  {
  }

  lemma FrameHead(payload: bytes, more: bytes)
    requires Framable(payload)
    ensures var s, n := Frame(payload) + more, |payload|;
            |s| >= 4 + n && FromLE32(s) == n && s[4..4 + n] == payload && s[4 + n..] == more
  {
    hide FromLE32, ToLE32;
    LE32RoundTrip(|payload|, payload + more);
    assert Frame(payload) + more == ToLE32(|payload|) + (payload + more);
  }

  /** Scanning what was framed finds exactly the payloads, then whatever follows. */
  lemma {:induction false} ScanFramed(limit: nat, payloads: seq<bytes>, tail: bytes)
    requires Within(limit, payloads)
    ensures var t := ScanFrames(limit, tail);
            ScanFrames(limit, FrameAll(payloads) + tail) == Scan(payloads + t.frames, t.rest, t.bad)
    decreases |payloads|
  {
    hide FromLE32, Frame, FrameAll, ScanFrames;
    var s := FrameAll(payloads) + tail;
    var t := ScanFrames(limit, tail);
    if payloads == [] {
      FrameAllNone(tail);
      assert [] + t.frames == t.frames;
    } else {
      var more := FrameAll(payloads[1..]) + tail;
      FrameAllFirst(payloads, tail);
      FrameHead(payloads[0], more);
      ScanStep(limit, s, |payloads[0]|);
      ScanFramed(limit, payloads[1..], tail);
      Regroup(payloads, t.frames);
    }
  }

  lemma FrameAllNone(tail: bytes)
    ensures FrameAll([]) + tail == tail
  {
  }

  lemma FrameAllFirst(payloads: seq<bytes>, tail: bytes)
    requires payloads != [] && forall k :: 0 <= k < |payloads| ==> Framable(payloads[k])
    ensures FrameAll(payloads) + tail == Frame(payloads[0]) + (FrameAll(payloads[1..]) + tail)
  {
    hide Frame;
  }

  lemma Regroup(payloads: seq<bytes>, more: seq<bytes>)
    requires payloads != []
    ensures [payloads[0]] + (payloads[1..] + more) == payloads + more
  {
  }

  /** A frame that has not arrived completely yields nothing. */
  lemma ScanTorn(limit: nat, payload: bytes, torn: bytes)
    requires Framable(payload) && |payload| <= limit
    requires torn <= Frame(payload) && |torn| < |Frame(payload)|
    ensures ScanFrames(limit, torn) == Scan([], torn, false)
  {
    hide ToLE32;
    if |torn| >= 4 {
      LE32RoundTrip(|payload|, payload);
      assert torn == Frame(payload)[..|torn|];
      assert FromLE32(torn) == FromLE32(Frame(payload)) == |payload|;
    }
  }

  /** Any part of the stream that gets through carries a prefix of the payloads, each one whole,
      and never a bad length. The last frame sent may be torn. */
  lemma ReceivedIsPrefix(limit: nat, payloads: seq<bytes>, next: bytes, torn: bytes, received: bytes)
    requires Within(limit, payloads) && Framable(next) && |next| <= limit
    requires torn <= Frame(next) && |torn| < |Frame(next)|
    requires received <= FrameAll(payloads) + torn
    ensures ScanFrames(limit, received).frames <= payloads
    ensures !ScanFrames(limit, received).bad
  {
    hide FrameAll, ScanFrames, Frame;
    var stream := FrameAll(payloads) + torn;
    ScanTorn(limit, next, torn);
    ScanFramed(limit, payloads, torn);
    assert payloads + [] == payloads;
    assert stream == received + stream[|received|..];
    ScanAppend(limit, received, stream[|received|..]);
  }

  lemma {:induction false} FrameAllAppend(a: seq<bytes>, b: seq<bytes>)
    requires forall k :: 0 <= k < |a| ==> Framable(a[k])
    requires forall k :: 0 <= k < |b| ==> Framable(b[k])
    ensures FrameAll(a + b) == FrameAll(a) + FrameAll(b)
  {
    hide Frame;
    if a == [] {
      assert a + b == b;
    } else {
      assert (a + b)[1..] == a[1..] + b;
      FrameAllAppend(a[1..], b);
      assert Frame(a[0]) + (FrameAll(a[1..]) + FrameAll(b)) == Frame(a[0]) + FrameAll(a[1..]) + FrameAll(b);
    }
  }

  lemma FrameAllSnoc(payloads: seq<bytes>, payload: bytes)
    requires Framable(payload) && forall k :: 0 <= k < |payloads| ==> Framable(payloads[k])
    ensures FrameAll(payloads + [payload]) == FrameAll(payloads) + Frame(payload)
  {
    hide Frame, FrameAll;
    FrameAllAppend(payloads, [payload]);
    FrameAllOne(payload);
  }

  lemma FrameAllOne(payload: bytes)
    requires Framable(payload)
    ensures FrameAll([payload]) == Frame(payload)
  {
    hide Frame;
    assert [payload][1..] == [];
    assert FrameAll([payload]) == Frame(payload) + FrameAll([]);
  }

  /** A frame cut short by a failed send. */
  ghost predicate Torn(limit: nat, torn: bytes) {
    exists next :: Framable(next) && |next| <= limit && torn <= Frame(next) && |torn| < |Frame(next)|
  }

  lemma CutShort(limit: nat, payload: bytes, torn: bytes)
    requires Framable(payload) && |payload| <= limit && torn <= Frame(payload) && |torn| < |Frame(payload)|
    ensures Torn(limit, torn)
  {
    hide Frame;
  }

  lemma NothingTorn(limit: nat)
    ensures Torn(limit, [])
  {
    assert [] <= Frame([]) && Framable([]);
  }
}
