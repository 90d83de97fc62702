/**
 Agent message framing: a four-byte big-endian payload length, then the payload.
 A stream is cut into frames greedily; `Split` is the cut every reader must agree on.
 */
module Frames {
  import opened Bytes

  const MAX_MESSAGE := 16383             // AgentMaxMessageLength, prefix included
  const MAX_REQUEST_PAYLOAD := 16379     // AgentMaxMessageLength-4
  const MAX_RESPONSE_PAYLOAD := 262144   // AgentMaxResponseLength, prefix excluded
  const AGENT_FAILURE: byte := 5

  /** genericFailResponse and agentFailure. */
  const FAILURE_FRAME: bytes := [0, 0, 0, 1, 5]

  function Frame(payload: bytes): (f: bytes)
    requires |payload| < U32_LIMIT
    ensures |f| == 4 + |payload| && f[4..] == payload
  {
    EncodeU32(|payload|) + payload
  }

  predicate ValidFrame(frame: bytes, maxPayload: nat) {
    && |frame| >= 5
    && |frame| - 4 <= maxPayload
    && DecodeU32(frame[..4]) == (|frame| - 4) % U32_LIMIT
  }

  predicate ValidRequest(frame: bytes) {
    ValidFrame(frame, MAX_REQUEST_PAYLOAD)
  }

  predicate ValidResponse(frame: bytes) {
    && ValidFrame(frame, MAX_RESPONSE_PAYLOAD)
    && (frame[4] == AGENT_FAILURE ==> |frame| == 5)
  }

  lemma HeadDecides(frame: bytes, head: bytes)
    requires |frame| >= |head|
    ensures frame == head + frame[|head|..] <==> frame[..|head|] == head
  {
    Rejoined(frame, |head|, |frame|);
  }

  /** A frame is accepted exactly when it is the framing of its own, bounded, non-empty payload. */
  lemma ValidFrameExact(frame: bytes, maxPayload: nat)
    requires maxPayload < U32_LIMIT
    ensures ValidFrame(frame, maxPayload) <==>
            |frame| >= 5 && |frame| - 4 <= maxPayload && frame == Frame(frame[4..])
  {
    if |frame| >= 5 && |frame| - 4 <= maxPayload {
      DecodeOfEncode(|frame| - 4);
      EncodeOfDecode(frame[..4]);
      HeadDecides(frame, EncodeU32(|frame| - 4));
    }
  }

  /** Framing a payload within bounds yields a valid request. */
  lemma FrameIsRequest(payload: bytes)
    requires 1 <= |payload| <= MAX_REQUEST_PAYLOAD
    ensures ValidRequest(Frame(payload))
  {
    ValidFrameExact(Frame(payload), MAX_REQUEST_PAYLOAD);
  }

  lemma FailureFrameIsResponse()
    ensures ValidResponse(FAILURE_FRAME)
  {
    assert FAILURE_FRAME[..4] == [0, 0, 0, 1];
    BigEndianOfFour(FAILURE_FRAME[..4]);
  }

  /** The framing itself: the length of the payload as a word, then the payload. */
  lemma FrameSpelled(payload: bytes)
    requires |payload| < 0x1_0000_0000
    ensures Frame(payload) == EncodeU32(|payload|) + payload
    ensures FAILURE_FRAME == [0, 0, 0, 1, 5]
  {
  }

  /** Any request of 1 to 16379 bytes is valid, and nothing else is. */
  lemma RequestExact(frame: bytes)
    ensures ValidRequest(frame) <==> 5 <= |frame| <= 16383 && frame[..4] == EncodeU32(|frame| - 4)
  {
    ValidFrameExact(frame, MAX_REQUEST_PAYLOAD);
    if 5 <= |frame| <= 16383 {
      Rejoined(frame, 4, |frame|);
    }
  }

  /** Any reply of 1 to 262144 bytes is valid, except failures of more than their type byte. */
  lemma ResponseExact(frame: bytes)
    ensures ValidResponse(frame) <==>
            && 5 <= |frame| <= 262148 && frame[..4] == EncodeU32(|frame| - 4)
            && (frame[4] == 5 ==> |frame| == 5)
  {
    ValidFrameExact(frame, MAX_RESPONSE_PAYLOAD);
    if 5 <= |frame| <= 262148 {
      Rejoined(frame, 4, |frame|);
    }
  }

  /** The same of payloads. */
  lemma FramedExact(payload: bytes)
    requires |payload| < 0x1_0000_0000
    ensures ValidRequest(Frame(payload)) <==> 1 <= |payload| <= 16379
    ensures ValidResponse(Frame(payload)) <==> 1 <= |payload| <= 262144 && (payload[0] == 5 ==> |payload| == 1)
  {
    RequestExact(Frame(payload));
    ResponseExact(Frame(payload));
    if payload != [] {
      assert Frame(payload)[4] == payload[0];
    }
  }

  /** No proper truncation of a valid frame is a valid frame. */
  lemma TruncatedFrameInvalid(frame: bytes, cut: nat, maxPayload: nat)
    requires ValidFrame(frame, maxPayload) && maxPayload < U32_LIMIT && cut < |frame|
    ensures !ValidFrame(frame[..cut], maxPayload)
  {
    if cut >= 5 {
      assert frame[..cut][..4] == frame[..4];
    }
  }

  // ----- streams -----

  datatype Direction = Requests | Responses

  predicate Valid(dir: Direction, frame: bytes) {
    match dir
    case Requests => ValidRequest(frame)
    case Responses => ValidResponse(frame)
  }

  function MaxPayload(dir: Direction): nat {
    if dir.Requests? then MAX_REQUEST_PAYLOAD else MAX_RESPONSE_PAYLOAD
  }

  /** The frame a stream starts with, when it starts with a complete acceptable one. */
  function Next(dir: Direction, stream: bytes): (f: Option<bytes>)
    ensures f.Some? ==> Valid(dir, f.value) && f.value <= stream && |f.value| >= 5
  {
    if |stream| < 4 then None else
      var n := DecodeU32(stream[..4]);
      if n < 1 || n > MaxPayload(dir) || |stream| < 4 + n then None else
        var f := stream[..4 + n];
        assert f[..4] == stream[..4];
        if Valid(dir, f) then Some(f) else None
  }

  /** Where no acceptable length or no complete frame stands, none starts. */
  lemma NoFrame(dir: Direction, stream: bytes)
    requires |stream| < 4 || DecodeU32(stream[..4]) < 1 || DecodeU32(stream[..4]) > MaxPayload(dir)
             || |stream| < 4 + DecodeU32(stream[..4])
    ensures Next(dir, stream).None?
  {
  }

  /** A frame needs its length, and as many bytes as the length says. */
  lemma FrameNeeds(dir: Direction, stream: bytes, n: nat)
    requires n == 4 || (|stream| >= 4 && n == 4 + DecodeU32(stream[..4]))
    ensures |stream| < n ==> Next(dir, stream).None?
    ensures Next(dir, stream).Some? ==> n <= |Next(dir, stream).value|
  {
  }

  /** Where the length is acceptable and the bytes are there, only a malformed reply is no frame. */
  lemma FrameRead(dir: Direction, stream: bytes)
    requires |stream| >= 4 && 1 <= DecodeU32(stream[..4]) <= MaxPayload(dir)
    requires |stream| >= 4 + DecodeU32(stream[..4])
    ensures var f := stream[..4 + DecodeU32(stream[..4])];
            && Next(dir, stream) == (if Valid(dir, f) then Some(f) else None)
            && (dir == Requests ==> Valid(dir, f))
  {
    var f := stream[..4 + DecodeU32(stream[..4])];
    assert f[..4] == stream[..4];
  }

  function Split(dir: Direction, stream: bytes): (fs: seq<bytes>)
    ensures forall f :: f in fs ==> Valid(dir, f)
    decreases |stream|
  {
    var f := Next(dir, stream);
    if f.None? then [] else [f.value] + Split(dir, stream[|f.value|..])
  }

  /** A valid frame at the head of a stream is what Next finds, whatever follows. */
  lemma NextOfFrame(dir: Direction, f: bytes, rest: bytes)
    requires Valid(dir, f)
    ensures Next(dir, f + rest) == Some(f)
  {
    assert (f + rest)[..4] == f[..4];
    assert (f + rest)[..|f|] == f;
  }

  lemma SplitOfFrame(dir: Direction, f: bytes, rest: bytes)
    requires Valid(dir, f)
    ensures Split(dir, f + rest) == [f] + Split(dir, rest)
  {
    NextOfFrame(dir, f, rest);
    assert (f + rest)[|f|..] == rest;
  }

  /** Splitting undoes concatenation, and the rest of the stream is split on its own. */
  lemma {:induction false} SplitOfConcat(dir: Direction, fs: seq<bytes>, rest: bytes)
    requires forall f :: f in fs ==> Valid(dir, f)
    ensures Split(dir, Concat(fs) + rest) == fs + Split(dir, rest)
  {
    if fs == [] {
      assert Concat(fs) + rest == rest;
    } else {
      assert Concat(fs) + rest == fs[0] + (Concat(fs[1..]) + rest);
      SplitOfFrame(dir, fs[0], Concat(fs[1..]) + rest);
      SplitOfConcat(dir, fs[1..], rest);
      assert fs == [fs[0]] + fs[1..];
    }
  }

  /** What is left of the stream once no frame starts. */
  function Leftover(dir: Direction, stream: bytes): bytes
    decreases |stream|
  {
    var f := Next(dir, stream);
    if f.None? then stream else Leftover(dir, stream[|f.value|..])
  }

  lemma SplitUnfolds(dir: Direction, stream: bytes)
    requires Next(dir, stream).Some?
    ensures var f := Next(dir, stream).value;
            && Split(dir, stream) == [f] + Split(dir, stream[|f|..])
            && Leftover(dir, stream) == Leftover(dir, stream[|f|..])
  {
  }

  lemma {:induction false} SplitAndLeftover(dir: Direction, stream: bytes)
    ensures stream == Concat(Split(dir, stream)) + Leftover(dir, stream)
    ensures Next(dir, Leftover(dir, stream)).None?
    decreases |stream|
  {
    var f := Next(dir, stream);
    if f.Some? {
      var rest := stream[|f.value|..];
      SplitAndLeftover(dir, rest);
      SplitUnfolds(dir, stream);
      ConcatCons(f.value, Split(dir, rest));
      Rejoined(stream, |f.value|, |stream|);
      Regrouped(f.value, Concat(Split(dir, rest)), Leftover(dir, rest));
    } else {
      assert Concat([]) == [];
    }
  }

  /** The frames found are a prefix of the stream, and they stop only where no frame starts. */
  lemma SplitIsPrefix(dir: Direction, stream: bytes)
    ensures Concat(Split(dir, stream)) <= stream
    ensures Next(dir, stream[|Concat(Split(dir, stream))|..]).None?
  {
    SplitAndLeftover(dir, stream);
    assert stream[|Concat(Split(dir, stream))|..] == Leftover(dir, stream);
  }

  /** Frames that make up the head of a stream are the first frames of its split. */
  lemma FramesAtHead(dir: Direction, fs: seq<bytes>, stream: bytes)
    requires forall f :: f in fs ==> Valid(dir, f)
    requires Concat(fs) <= stream
    ensures fs <= Split(dir, stream)
    ensures Split(dir, stream)[|fs|..] == Split(dir, stream[|Concat(fs)|..])
  {
    var rest := stream[|Concat(fs)|..];
    assert stream == Concat(fs) + rest;
    SplitOfConcat(dir, fs, rest);
  }

  /** Behind fewer frames than a stream has, another one starts. */
  lemma NextBehind(dir: Direction, fs: seq<bytes>, stream: bytes)
    requires forall f :: f in fs ==> Valid(dir, f)
    requires Concat(fs) <= stream && |fs| < |Split(dir, stream)|
    ensures Next(dir, stream[|Concat(fs)|..]).Some?
  {
    FramesAtHead(dir, fs, stream);
    assert |Split(dir, stream)[|fs|..]| > 0;
  }
}
