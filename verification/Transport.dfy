/**
 A byte connection and the loops of the bridge over it. What can go wrong on a connection is
 a script fixed beforehand: the code that uses the connection reads it nowhere and cannot
 change it, so a promise that depends on the script depends on the environment alone.
 */
module Transport {
  import opened Bytes
  import opened Frames

  datatype Call = Deadline | Reading | Writing

  /** A call of this kind fails once so many bytes have been read and written. */
  datatype Fault = Fault(call: Call, read: nat, written: nat)

  /**
   `incoming` is all that the peer ever sends and `faults` are the calls that fail, for
   whatever reason: an error, a deadline, a Close by another goroutine. `lawful` says that
   Write never reports a count outside what it was given, and `empties` bounds the reads that
   report neither a byte nor an error.
   */
  datatype Script = Script(incoming: bytes, faults: set<Fault>, lawful: bool, empties: nat)

  /** Some call fails at or before this point of both streams. */
  ghost predicate Hit(script: Script, read: nat, written: nat) {
    exists f :: f in script.faults && f.read <= read && f.written <= written
  }

  /** No call fails while at most so many bytes have been read. */
  ghost predicate ReadsCalmly(script: Script, read: nat) {
    forall f :: f in script.faults ==> f.read > read
  }

  /** No call fails while at most so many bytes have been written. */
  ghost predicate WritesCalmly(script: Script, written: nat) {
    forall f :: f in script.faults ==> f.written > written
  }

  /** A net.Conn as the goroutine that uses it sees it; `open` until this program closes it. */
  class Conn {
    const script: Script
    var pos: nat                // bytes of the incoming stream already read
    var sent: bytes             // bytes delivered to the peer
    var open: bool
    var empties: nat            // empty reads to come

    ghost predicate Valid()
      reads this
    {
      pos <= |script.incoming|
    }

    predicate Failing(call: Call)
      reads this
    {
      !open || Fault(call, pos, |sent|) in script.faults
    }

    /** What of the incoming stream is still to be read. */
    function Rest(): bytes
      reads this
      requires Valid()
    {
      script.incoming[pos..]
    }

    constructor (script: Script)
      ensures Valid() && pos == 0 && sent == [] && open && this.script == script
    {
      this.script := script;
      pos, sent, open, empties := 0, [], true, script.empties;
    }

    method Close()
      modifies `open
      ensures !open
    {
      open := false;
    }

    /** Setting a deadline, of either kind, can only fail. */
    method SetDeadline() returns (err: bool)
      ensures err <==> Failing(Deadline)
    {
      err := Failing(Deadline);
    }

    /** A chunk of any size; an error may come with bytes, and the last bytes with the error. */
    method Read(max: nat) returns (chunk: bytes, err: bool)
      requires Valid() && max > 0
      modifies `pos, `empties
      ensures Valid() && pos == old(pos) + |chunk| && |chunk| <= max
      ensures chunk == script.incoming[old(pos)..pos]
      ensures !err ==> |chunk| > 0 || empties < old(empties)
      ensures empties <= old(empties)
      ensures old(Failing(Reading)) || old(pos) == |script.incoming| ==> err
      ensures err ==> old(Failing(Reading)) || pos == |script.incoming|
      ensures !old(open) ==> chunk == []
    {
      var failing := Failing(Reading);
      var k: int := *;
      k := if !open || k < 0 then 0 else if k > max then max else k;
      k := if k > |script.incoming| - pos then |script.incoming| - pos else k;
      if !failing && k == 0 {
        if empties > 0 {
          empties := empties - 1;
        } else if pos < |script.incoming| {
          k := 1;
        }
      }
      var endsHere: bool := *;
      err := failing || pos == |script.incoming| || (endsHere && pos + k == |script.incoming|);
      chunk := script.incoming[pos..pos + k];
      pos := pos + k;
    }

    /** Any number of bytes goes out, at least one unless the call fails; n is what is reported. */
    method Write(p: bytes) returns (n: int, err: bool, ghost delivered: nat)
      requires p != []
      modifies `sent
      ensures delivered <= |p| && sent == old(sent) + p[..delivered]
      ensures old(Failing(Writing)) ==> err || n <= 0 || n > |p|
      ensures !old(Failing(Writing)) ==> !err && n == delivered > 0
      ensures script.lawful ==> 0 <= n <= |p|
      ensures !old(open) ==> delivered == 0
    {
      var failing := Failing(Writing);
      var k: int := *;
      k := if !open || k < 0 then 0 else if k > |p| then |p| else k;
      k := if !failing && k == 0 then 1 else k;
      delivered := k;
      sent := sent + p[..k];
      err, n := false, k;
      if failing {
        err := *;
        var claimed: int := *;
        n := if script.lawful && !(0 <= claimed <= |p|) then 0 else claimed;
        err := err || 0 < n <= |p|;
      }
    }
  }

  /** One read into buf[n..hi]; k bytes of the stream go there. */
  method ReadSome(c: Conn, buf: array<byte>, n: nat, hi: nat) returns (k: nat, err: bool)
    requires c.Valid() && n < hi <= buf.Length
    modifies buf, c`pos, c`empties
    ensures c.Valid() && k <= hi - n && k <= |old(c.Rest())| && c.pos == old(c.pos) + k
    ensures buf[..] == old(buf[..])[..n] + old(c.Rest())[..k] + old(buf[..])[n + k..]
    ensures c.Rest() == old(c.Rest())[k..]
    ensures c.empties <= old(c.empties) && (!err ==> k > 0 || c.empties < old(c.empties))
    ensures err && c.open ==> Hit(c.script, c.pos, |c.sent|) || c.Rest() == []
  {
    ghost var at := Fault(Reading, c.pos, |c.sent|);
    ghost var before := c.pos;
    var chunk;
    chunk, err := c.Read(hi - n);
    k := |chunk|;
    Slices(c.script.incoming, before, k);
    assert chunk == c.script.incoming[before..][..k];
    Copy(buf, n, chunk);
  }

  /** A range filled up to n, with k more bytes of the stream written behind. */
  lemma FillMore(before: bytes, stream: bytes, lo: nat, n: nat, k: nat)
    requires lo <= n && n + k <= |before| && n - lo + k <= |stream|
    ensures var was := before[..lo] + stream[..n - lo] + before[n..];
            was[..n] + stream[n - lo..][..k] + was[n + k..] ==
            before[..lo] + stream[..n + k - lo] + before[n + k..]
    ensures stream[n - lo..][k..] == stream[n + k - lo..]
  {
    NextChunk(stream, n - lo, k);
    Spliced(before[..lo], stream[..n - lo], before, n, stream[n - lo..][..k]);
  }

  /** What the range holds once it is filled up to n; nothing around it has changed. */
  lemma Filled(before: bytes, stream: bytes, lo: nat, n: nat, hi: nat)
    requires lo <= n <= hi <= |before| && n - lo <= |stream|
    ensures var now := before[..lo] + stream[..n - lo] + before[n..];
            && now[..lo] == before[..lo] && now[hi..] == before[hi..]
            && (n == hi ==> now[lo..hi] == stream[..hi - lo])
  {
  }

  /** io.ReadFull into buf[lo..hi]: chunks of any size, until the range is full or a read fails. */
  method ReadFull(c: Conn, buf: array<byte>, lo: nat, hi: nat) returns (err: bool)
    requires c.Valid() && lo <= hi <= buf.Length
    modifies buf, c`pos, c`empties
    ensures c.Valid() && old(c.pos) <= c.pos
    ensures buf[..][..lo] == old(buf[..])[..lo] && buf[..][hi..] == old(buf[..])[hi..]
    ensures !err ==> c.pos == old(c.pos) + (hi - lo) && hi - lo <= |old(c.Rest())|
    ensures !err ==> buf[..][lo..hi] == old(c.Rest())[..hi - lo] && c.Rest() == old(c.Rest())[hi - lo..]
    ensures err ==> c.pos < old(c.pos) + (hi - lo)
    ensures err && c.open ==> Hit(c.script, c.pos, |c.sent|) || |old(c.Rest())| < hi - lo
  {
    var n := lo;
    err := false;
    ghost var before := buf[..];
    ghost var stream := c.Rest();
    while n < hi && !err
      invariant lo <= n <= hi && c.Valid() && c.pos == old(c.pos) + (n - lo)
      invariant n - lo <= |stream| && c.Rest() == stream[n - lo..]
      invariant buf[..] == before[..lo] + stream[..n - lo] + before[n..]
      invariant err && c.open ==> Hit(c.script, c.pos, |c.sent|) || c.Rest() == []
      decreases hi - n, c.empties, !err
    {
      var k;
      k, err := ReadSome(c, buf, n, hi);
      FillMore(before, stream, lo, n, k);
      n := n + k;
    }
    err := n < hi;
    Filled(before, stream, lo, n, hi);
  }

  /** A new buffer with `prefix` copied in, and the next n bytes of the stream behind it. */
  method ReadBehind(c: Conn, prefix: bytes, n: nat) returns (buffer: bytes, err: bool)
    requires c.Valid()
    modifies c`pos, c`empties
    ensures c.Valid() && old(c.pos) <= c.pos
    ensures !err ==> c.pos == old(c.pos) + n && n <= |old(c.Rest())|
    ensures !err ==> buffer == prefix + old(c.Rest())[..n] && c.Rest() == old(c.Rest())[n..]
    ensures err ==> c.pos < old(c.pos) + n
    ensures err && c.open ==> Hit(c.script, c.pos, |c.sent|) || |old(c.Rest())| < n
  {
    var buf := new byte[|prefix| + n];
    Copy(buf, 0, prefix);
    assert buf[..][..|prefix|] == prefix;
    err := ReadFull(c, buf, |prefix|, buf.Length);
    buffer := buf[..];
    Rejoined(buffer, |prefix|, |buffer|);
    assert buffer[|prefix|..] == buffer[|prefix|..|buffer|];
  }

  method Copy(buf: array<byte>, at: nat, data: bytes)
    requires at + |data| <= buf.Length
    modifies buf
    ensures buf[..] == old(buf[..])[..at] + data + old(buf[..])[at + |data|..]
  {
    ghost var before := buf[..];
    var i := 0;
    while i < |data|
      invariant 0 <= i <= |data|
      invariant buf[..] == before[..at] + data[..i] + before[at + i..]
    {
      buf[at + i] := data[i];
      i := i + 1;
    }
  }

  /** The write loop of exchange: short writes continue, a nonsensical count is an error. */
  method WriteRequest(c: Conn, request: bytes) returns (err: bool)
    modifies c`sent
    ensures !err ==> c.sent == old(c.sent) + request
    ensures old(c.sent) <= c.sent <= old(c.sent) + request
    ensures err && c.open ==> Hit(c.script, c.pos, |c.sent|)
  {
    var remaining := request;
    while |remaining| > 0
      invariant |remaining| <= |request| && remaining == request[|request| - |remaining|..]
      invariant c.sent == old(c.sent) + request[..|request| - |remaining|]
    {
      ghost var at := Fault(Writing, c.pos, |c.sent|);
      var n, failed, delivered := c.Write(remaining);
      var done := |request| - |remaining|;
      assert request[..done] + remaining[..delivered] == request[..done + delivered];
      if failed {
        return true;
      }
      if n <= 0 || n > |remaining| {
        return true;
      }
      remaining := remaining[n..];
    }
    return false;
  }

  /**
   One request and its reply (openssh/agent.go:174-213). It succeeds with exactly the next
   frame of the agent; and it succeeds whenever there is one and no call fails on the way.
   */
  method Exchange(c: Conn, request: bytes) returns (reply: bytes, err: bool)
    requires c.Valid()
    modifies c`pos, c`empties, c`sent
    ensures c.Valid() && old(c.pos) <= c.pos
    ensures !err ==> c.sent == old(c.sent) + request
    ensures !err ==> Next(Responses, old(c.Rest())) == Some(reply) && c.pos == old(c.pos) + |reply|
    ensures err ==> reply == FAILURE_FRAME
    ensures old(c.sent) <= c.sent <= old(c.sent) + request
    ensures c.pos != old(c.pos) ==> c.sent == old(c.sent) + request
    ensures !err ==> c.open
    ensures err && c.open ==> Hit(c.script, c.pos, |c.sent|) || Next(Responses, old(c.Rest())).None?
  {
    ghost var stream := c.Rest();
    err := c.SetDeadline();
    if err {
      return FAILURE_FRAME, true;
    }
    err := WriteRequest(c, request);
    if err {
      return FAILURE_FRAME, true;
    }
    err := c.SetDeadline();
    if err {
      return FAILURE_FRAME, true;
    }
    reply, err := ReadReply(c);
  }

  /** agent.go:196-212 */
  method ReadReply(c: Conn) returns (reply: bytes, err: bool)
    requires c.Valid()
    modifies c`pos, c`empties
    ensures c.Valid() && old(c.pos) <= c.pos
    ensures !err ==> Next(Responses, old(c.Rest())) == Some(reply) && c.pos == old(c.pos) + |reply|
    ensures err ==> reply == FAILURE_FRAME
    ensures err && c.open ==> Hit(c.script, c.pos, |c.sent|) || Next(Responses, old(c.Rest())).None?
  {
    ghost var stream := c.Rest();
    var header;
    header, err := ReadBehind(c, [], 4);
    if err {
      FrameNeeds(Responses, stream, 4);
      return FAILURE_FRAME, true;
    }
    assert header == stream[..4];
    var payloadLength := DecodeU32(header);
    if payloadLength == 0 || payloadLength > MAX_RESPONSE_PAYLOAD {
      NoFrame(Responses, stream);
      return FAILURE_FRAME, true;
    }
    reply, err := ReadBehind(c, header, payloadLength);
    if err {
      FrameNeeds(Responses, stream, 4 + payloadLength);
      return FAILURE_FRAME, true;
    }
    NextChunk(stream, 4, payloadLength);
    FrameRead(Responses, stream);
    if !ValidResponse(reply) {
      return FAILURE_FRAME, true;
    }
  }
}
