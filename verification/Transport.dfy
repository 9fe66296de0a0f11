/** What the two programs may assume of the kernel. Each call below may do anything its contract allows. */
module Transport {
  import opened Wire

  /** The sending half of a TCP connection: the bytes it has taken, in order. A shut-down socket takes no more. */
  class Sink {
    var sent: bytes
    var shut: bool
    ghost var offers: seq<bytes> // what each write offered
    ghost var taken: seq<int>    // what each write returned

    constructor ()
      ensures sent == [] && !shut && offers == [] && taken == []
    {
      sent, shut, offers, taken := [], false, [], [];
    }

    /** The number of bytes taken, or a negative number: -1 for a full buffer, -2 for any other error. */
    method Write(data: bytes) returns (r: int)
      modifies this`sent, this`offers, this`taken
      ensures r <= |data| && (shut ==> r == -2)
      ensures offers == old(offers) + [data] && taken == old(taken) + [r]
      ensures sent == if r > 0 then old(sent) + data[..r] else old(sent)
    {
      r := -2;
      if !shut {
        r :| -2 <= r <= |data|;
      }
      offers, taken := offers + [data], taken + [r];
      if r > 0 {
        sent := sent + data[..r];
      }
    }

    method Shutdown()
      modifies this`shut
      ensures shut
    {
      shut := true;
    }
  }

  /** The receiving half: the bytes that will still arrive before the connection ends. */
  class Source {
    var unread: bytes
    ghost var ended: bool // some read has returned nothing

    constructor (arriving: bytes)
      ensures unread == arriving && !ended
    {
      unread, ended := arriving, false;
    }

    /** At most `max` bytes; none means the connection has ended or failed. */
    method Recv(max: nat) returns (data: bytes)
      modifies this
      ensures |data| <= max && old(unread) == data + unread && ended == (old(ended) || data == [])
    {
      var n: nat :| n <= max && n <= |unread|;
      data, unread := unread[..n], unread[n..];
      ended := ended || data == [];
    }
  }

  /** The app's end of the pipe: one entry per write. A message-mode write is never split. */
  class Pipe {
    var written: seq<bytes>
    ghost var results: seq<bool> // what each write reported

    constructor ()
      ensures written == [] && results == []
    {
      written, results := [], [];
    }

    /** A write that is reported as failed may or may not have been delivered. */
    method Write(message: bytes) returns (ok: bool)
      modifies this
      ensures written == old(written) || written == old(written) + [message]
      ensures ok ==> written == old(written) + [message]
      ensures results == old(results) + [ok]
    {
      ok := *;
      results := results + [ok];
      var delivered := *;
      if ok || delivered {
        written := written + [message];
      }
    }
  }
}
