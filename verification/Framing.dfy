/** Frames over a byte stream. The stream splits sends and receives arbitrarily and interrupts calls;
    what arrives is the bytes in order, then the end of the connection or an error. */
module Framing {
  import opened Words
  import opened Wire

  const MAGIC := 0x314C5443
  const VERSION := 1
  const HEADER_BYTES := 24
  const MAX_PAYLOAD := 64 * 1024 * 1024

  datatype Frame = Frame(kind: U16, requestId: U64, payload: Bytes)

  predicate Sendable(f: Frame) {
    |f.payload| <= MAX_PAYLOAD
  }

  // ---- The two ends of a connection ----

  /** How a connection ends once everything sent has arrived. */
  datatype Ending = Shutdown | Broken

  /** Each plan entry decides one call: 0 interrupts it, k moves at most k bytes; behind the plan a
      call moves all it can. */
  function Moved(plan: seq<nat>, wanted: nat): (n: nat)
    ensures n <= wanted
    ensures n == 0 && wanted > 0 ==> plan != [] && plan[0] == 0
  {
    if plan == [] || plan[0] > wanted then wanted else plan[0]
  }

  class Sender {
    /** What the connection has accepted. */
    var wire: Bytes
    /** How much it accepts before it breaks. */
    const capacity: nat
    var plan: seq<nat>

    constructor (capacity: nat, plan: seq<nat>)
      ensures wire == [] && this.capacity == capacity && this.plan == plan
    {
      wire, this.capacity, this.plan := [], capacity, plan;
    }

    /** `send`: -1 is an interrupted call, -2 any other failure. */
    method Send(data: Bytes) returns (result: int)
      requires data != []
      modifies this
      ensures result == -2 || result == -1 || 0 < result <= |data|
      ensures wire == old(wire) + if result > 0 then data[..result] else []
      ensures result == -2 <==> |old(wire)| >= capacity
      ensures result > 0 ==> |wire| <= capacity
      ensures result == -1 ==> |plan| < |old(plan)|
      ensures |plan| <= |old(plan)|
    {
      if |wire| >= capacity {
        return -2;
      }
      var wanted := if |data| <= capacity - |wire| then |data| else capacity - |wire|;
      var n := Moved(plan, wanted);
      if plan != [] {
        plan := plan[1..];
      }
      if n == 0 {
        return -1;
      }
      wire := wire + data[..n];
      return n;
    }

    /** `send_all`: everything is sent, or the connection broke on the way. */
    method SendAll(data: Bytes) returns (ok: bool)
      requires |wire| <= capacity
      modifies this
      ensures |wire| <= capacity
      ensures ok <==> |old(wire)| + |data| <= capacity
      ensures ok ==> wire == old(wire) + data
      ensures !ok ==> wire == old(wire) + data[..capacity - |old(wire)|]
    {
      var sent := 0;
      while sent < |data|
        invariant 0 <= sent <= |data| && wire == old(wire) + data[..sent] && |wire| <= capacity
        decreases |data| - sent, |plan|
      {
        var result := Send(data[sent..]);
        if result < 0 {
          if result == -1 {
            continue;
          }
          return false;
        }
        assert data[..sent] + data[sent..][..result] == data[..sent + result];
        sent := sent + result;
      }
      return true;
    }

    /** `send_frame`: header, then payload. */
    method SendFrame(f: Frame) returns (ok: bool)
      requires |wire| <= capacity
      modifies this
      ensures |wire| <= capacity
      ensures ok <==> Sendable(f) && |old(wire)| + |Encode(f)| <= capacity
      ensures ok ==> wire == old(wire) + Encode(f)
      ensures !Sendable(f) ==> wire == old(wire)
      ensures !ok && Sendable(f) ==> wire == old(wire) + Encode(f)[..capacity - |old(wire)|]
    {
      if |f.payload| > MAX_PAYLOAD {
        return false;
      }
      ghost var before, room := wire, capacity - |wire|;
      var header := MakeHeader(f);
      hide Header;
      ok := SendAll(header);
      if ok && f.payload != [] {
        assert before + header + f.payload == before + Encode(f);
        ok := SendAll(f.payload);
        if !ok {
          assert before + header + f.payload[..room - |header|] == before + Encode(f)[..room];
        }
      } else if !ok {
        assert header[..room] == Encode(f)[..room];
      }
    }
  }

  class Receiver {
    /** What has been sent and not been read. */
    var incoming: Bytes
    const ending: Ending
    var plan: seq<nat>

    constructor (incoming: Bytes, ending: Ending, plan: seq<nat>)
      ensures this.incoming == incoming && this.ending == ending && this.plan == plan
    {
      this.incoming, this.ending, this.plan := incoming, ending, plan;
    }

    /** `recv`: 0 is the end of the stream, -1 an interrupted call, -2 any other failure. */
    method Recv(wanted: nat) returns (result: int, data: Bytes)
      requires wanted > 0
      modifies this
      ensures result > 0 ==> result <= wanted && |data| == result && old(incoming) == data + incoming
      ensures result <= 0 ==> data == [] && incoming == old(incoming)
      ensures result == 0 <==> old(incoming) == [] && ending.Shutdown?
      ensures result == -2 <==> old(incoming) == [] && ending.Broken?
      ensures result >= -2 && (result == -1 ==> |plan| < |old(plan)|)
    {
      if incoming == [] {
        return if ending.Shutdown? then 0 else -2, [];
      }
      var n := Moved(plan, if wanted <= |incoming| then wanted else |incoming|);
      if plan != [] {
        plan := plan[1..];
      }
      if n == 0 {
        return -1, [];
      }
      data := incoming[..n];
      incoming := incoming[n..];
      return n, data;
    }

    /** `receive_exact`. */
    method ReceiveExact(bytes: nat) returns (status: Status, data: Bytes)
      modifies this
      ensures status == Ok <==> |old(incoming)| >= bytes
      ensures status == Ok ==> |data| == bytes && old(incoming) == data + incoming
      ensures status != Ok ==> incoming == [] && status == if ending.Shutdown? then Closed else Failed
    {
      data := [];
      while |data| < bytes
        invariant |data| <= bytes && old(incoming) == data + incoming
        decreases bytes - |data|, |plan|
      {
        var result, part := Recv(bytes - |data|);
        if result == 0 {
          return Closed, data;
        }
        if result < 0 {
          if result == -1 {
            continue;
          }
          return Failed, data;
        }
        data := data + part;
      }
      return Ok, data;
    }

    /** `receive_frame`: what it returns and leaves unread depends on the bytes only, not on how they
        are split. */
    method ReceiveFrame() returns (r: Received)
      modifies this
      ensures r == Decode(old(incoming), ending).0
      ensures r.Got? ==>
                incoming == Decode(old(incoming), ending).1 && |incoming| < |old(incoming)| && Sendable(r.frame)
    {
      ghost var all := incoming;
      var status, header := ReceiveExact(HEADER_BYTES);
      if status == Closed {
        return CleanClose;
      }
      if status == Failed {
        return Refused(StreamFailed);
      }
      assert all[..HEADER_BYTES] == header && all[HEADER_BYTES..] == incoming;
      HeaderFields(all, header);
      if At(header, 0, 4) != MAGIC {
        return Refused(BadMagic);
      }
      if At(header, 4, 2) != VERSION {
        return Refused(BadVersion);
      }
      var payloadBytes := At(header, 16, 8);
      if payloadBytes > MAX_PAYLOAD {
        return Refused(TooLong);
      }
      var kind, requestId := At(header, 6, 2), At(header, 8, 8);
      Limits();
      var payload := [];
      if payloadBytes != 0 {
        var rest := incoming;
        status, payload := ReceiveExact(payloadBytes);
        if status != Ok {
          return Refused(if status == Closed then ClosedInPayload else StreamFailed);
        }
        assert rest[..payloadBytes] == payload && rest[payloadBytes..] == incoming;
      }
      return Got(Frame(kind, requestId, payload));
    }
  }

  datatype Status = Ok | Closed | Failed

  datatype Problem = StreamFailed | BadMagic | BadVersion | TooLong | ClosedInPayload

  datatype Received = Got(frame: Frame) | CleanClose | Refused(problem: Problem)

  // ---- What the bytes of a stream mean ----

  function Header(f: Frame): (h: Bytes)
    ensures |h| == HEADER_BYTES
  {
    Write(MAGIC, 4) + Write(VERSION, 2) + Write(f.kind, 2) + Write(f.requestId, 8) + Write(|f.payload|, 8)
  }

  function Encode(f: Frame): Bytes {
    Header(f) + f.payload
  }

  /** The header buffer, field by field. */
  method MakeHeader(f: Frame) returns (header: Bytes)
    ensures header == Header(f)
  {
    hide Write;
    var buffer := new U8[HEADER_BYTES];
    ghost var done: Bytes := [];
    done := PutField(buffer, done, 0, MAGIC, 4);
    done := PutField(buffer, done, 4, VERSION, 2);
    done := PutField(buffer, done, 6, f.kind, 2);
    done := PutField(buffer, done, 8, f.requestId, 8);
    done := PutField(buffer, done, 16, |f.payload|, 8);
    assert done == Header(f);
    header := buffer[..];
  }

  method PutField(buffer: array<U8>, ghost done: Bytes, o: nat, v: nat, n: nat) returns (ghost more: Bytes)
    requires o + n <= buffer.Length && |done| == o && buffer[..o] == done
    modifies buffer
    ensures more == done + Write(v, n) && |more| == o + n && buffer[..o + n] == more
  {
    hide Write;
    Put(buffer, o, v, n);
    more := done + Write(v, n);
  }

  /** The first frame of a stream and what follows it. */
  function Decode(s: Bytes, ending: Ending): (r: (Received, Bytes)) {
    if |s| < HEADER_BYTES then (if ending.Shutdown? then CleanClose else Refused(StreamFailed), [])
    else if At(s, 0, 4) != MAGIC then (Refused(BadMagic), [])
    else if At(s, 4, 2) != VERSION then (Refused(BadVersion), [])
    else
      var n := At(s, 16, 8);
      if n > MAX_PAYLOAD then (Refused(TooLong), [])
      else if |s| < HEADER_BYTES + n then (Refused(if ending.Shutdown? then ClosedInPayload else StreamFailed), [])
      else
        Limits();
        (Got(Frame(At(s, 6, 2), At(s, 8, 8), s[HEADER_BYTES..HEADER_BYTES + n])), s[HEADER_BYTES + n..])
  }

  lemma HeaderFields(s: Bytes, header: Bytes)
    requires |s| >= HEADER_BYTES && header == s[..HEADER_BYTES]
    ensures At(header, 0, 4) == At(s, 0, 4) && At(header, 4, 2) == At(s, 4, 2) && At(header, 6, 2) == At(s, 6, 2)
    ensures At(header, 8, 8) == At(s, 8, 8) && At(header, 16, 8) == At(s, 16, 8)
  {
    hide Read;
    assert header[0..4] == s[0..4] && header[4..6] == s[4..6] && header[6..8] == s[6..8];
    assert header[8..16] == s[8..16] && header[16..24] == s[16..24];
  }

  lemma FieldsOfHeader(f: Frame, s: Bytes)
    requires Sendable(f) && |s| >= HEADER_BYTES && s[..HEADER_BYTES] == Header(f)
    ensures At(s, 0, 4) == MAGIC && At(s, 4, 2) == VERSION && At(s, 6, 2) == f.kind && At(s, 8, 8) == f.requestId
    ensures At(s, 16, 8) == |f.payload|
  {
    hide Read, Write;
    Limits();
    assert s[0..4] == Write(MAGIC, 4) && s[4..6] == Write(VERSION, 2) && s[6..8] == Write(f.kind, 2);
    assert s[8..16] == Write(f.requestId, 8) && s[16..24] == Write(|f.payload|, 8);
    ReadWrite(MAGIC, 4);
    ReadWrite(VERSION, 2);
    ReadWrite(f.kind, 2);
    ReadWrite(f.requestId, 8);
    ReadWrite(|f.payload|, 8);
  }

  /** A sent frame is received as it was, and nothing behind it is touched. */
  lemma DecodeInvertsEncode(f: Frame, rest: Bytes, ending: Ending)
    requires Sendable(f)
    ensures Decode(Encode(f) + rest, ending) == (Got(f), rest)
  {
    var s := Encode(f) + rest;
    assert s[..HEADER_BYTES] == Header(f);
    FieldsOfHeader(f, s);
    hide Read, Write, Header, At;
    assert s[HEADER_BYTES..HEADER_BYTES + |f.payload|] == f.payload && s[HEADER_BYTES + |f.payload|..] == rest;
  }

  /** Only encodings are received as frames. */
  lemma EncodeInvertsDecode(s: Bytes, ending: Ending)
    requires Decode(s, ending).0.Got?
    ensures var f := Decode(s, ending).0.frame; Sendable(f) && s == Encode(f) + Decode(s, ending).1
  {
    var f, n := Decode(s, ending).0.frame, At(s, 16, 8);
    WriteRead(s[0..4]);
    WriteRead(s[4..6]);
    WriteRead(s[6..8]);
    WriteRead(s[8..16]);
    WriteRead(s[16..24]);
    hide Read, Write;
    assert |f.payload| == n;
    assert Header(f) == s[0..4] + s[4..6] + s[6..8] + s[8..16] + s[16..24];
    HeaderParts(s);
    hide Decode, Header, At;
    assert s == s[..24] + s[24..24 + n] + s[24 + n..];
  }

  lemma HeaderParts(s: Bytes)
    requires |s| >= HEADER_BYTES
    ensures s[0..4] + s[4..6] + s[6..8] + s[8..16] + s[16..24] == s[..24]
  {}

  /** A close is taken as clean exactly when less than a header was left to read: a connection that
      ends inside a header is not told apart from one that ends between two frames. */
  lemma CleanCloseExactly(s: Bytes, ending: Ending)
    ensures Decode(s, ending).0.CleanClose? <==> |s| < HEADER_BYTES && ending.Shutdown?
  {}

  /** A truncated header that passes for a clean close. */
  lemma TruncatedHeaderLooksClean(f: Frame, n: nat)
    requires 0 < n < HEADER_BYTES
    ensures Encode(f)[..n] != [] && Decode(Encode(f)[..n], Shutdown).0 == CleanClose
  {}

  function EncodeAll(frames: seq<Frame>): Bytes {
    if frames == [] then [] else Encode(frames[0]) + EncodeAll(frames[1..])
  }

  lemma {:induction false} EncodeAllConcat(a: seq<Frame>, b: seq<Frame>)
    ensures EncodeAll(a + b) == EncodeAll(a) + EncodeAll(b)
  {
    if a == [] {
      assert a + b == b;
    } else {
      assert (a + b)[1..] == a[1..] + b;
      EncodeAllConcat(a[1..], b);
    }
  }

  ghost predicate AllSendable(frames: seq<Frame>) {
    forall k | 0 <= k < |frames| :: Sendable(frames[k])
  }

  // ---- Whole connections ----

  /** The frames a stream holds until something that is no frame. */
  ghost function FramesOf(s: Bytes, ending: Ending): (frames: seq<Frame>)
    decreases |s|
  {
    var d := Decode(s, ending);
    if d.0.Got? then [d.0.frame] + FramesOf(d.1, ending) else []
  }

  /** What comes after them. */
  ghost function EndOf(s: Bytes, ending: Ending): (r: Received)
    ensures !r.Got?
    decreases |s|
  {
    var d := Decode(s, ending);
    if d.0.Got? then EndOf(d.1, ending) else d.0
  }

  lemma {:induction false} FramesOfEncoded(frames: seq<Frame>)
    requires AllSendable(frames)
    ensures FramesOf(EncodeAll(frames), Shutdown) == frames && EndOf(EncodeAll(frames), Shutdown) == CleanClose
  {
    hide Encode, Decode;
    NextFrame(frames, 0);
    assert frames[0..] == frames;
    if frames != [] {
      FramesOfEncoded(frames[1..]);
    }
  }

  /** Main result: whatever the two plans split and interrupt, the frames received until the clean
      close are the frames sent, in order. */
  method Transfer(frames: seq<Frame>, sendPlan: seq<nat>, receivePlan: seq<nat>, capacity: nat)
    returns (sent: bool, received: seq<Frame>, last: Received)
    requires AllSendable(frames) && |EncodeAll(frames)| <= capacity
    ensures sent && received == frames && last == CleanClose
  {
    hide *;
    var sender := new Sender(capacity, sendPlan);
    sent := SendFrames(frames, sender);
    assert sender.wire == EncodeAll(frames);
    var receiver := new Receiver(sender.wire, Shutdown, receivePlan);
    received, last := ReceiveFrames(receiver);
    FramesOfEncoded(frames);
  }

  /** One frame over a connection on which nothing else is under way: however the calls of the two ends
      are split and interrupted, it arrives as it was sent. */
  method Deliver(f: Frame) returns (arrived: Frame)
    requires Sendable(f)
    ensures arrived == f
  {
    assert HEADER_BYTES == 24;
    hide *;
    var sendPlan: seq<nat>, receivePlan: seq<nat> := *, *;
    var sender := new Sender(HEADER_BYTES + |f.payload|, sendPlan);
    var sent := sender.SendFrame(f);
    EncodedLength(f);
    assert sender.wire == Encode(f) + [];
    var receiver := new Receiver(sender.wire, Shutdown, receivePlan);
    DecodeInvertsEncode(f, [], Shutdown);
    var received := receiver.ReceiveFrame();
    arrived := received.frame;
  }

  lemma EncodedLength(f: Frame)
    ensures |Encode(f)| == HEADER_BYTES + |f.payload|
  {}

  method SendFrames(frames: seq<Frame>, sender: Sender) returns (sent: bool)
    requires AllSendable(frames) && |sender.wire| + |EncodeAll(frames)| <= sender.capacity
    modifies sender
    ensures sent && sender.wire == old(sender.wire) + EncodeAll(frames)
  {
    hide Encode;
    sent := true;
    for k := 0 to |frames|
      invariant sent && sender.wire == old(sender.wire) + EncodeAll(frames[..k]) && |sender.wire| <= sender.capacity
    {
      SendingMore(frames, k);
      sent := sender.SendFrame(frames[k]);
    }
    assert frames[..|frames|] == frames;
  }

  /** Receives until something that is no frame. */
  method ReceiveFrames(receiver: Receiver) returns (received: seq<Frame>, last: Received)
    modifies receiver
    ensures received == FramesOf(old(receiver.incoming), receiver.ending)
    ensures last == EndOf(old(receiver.incoming), receiver.ending)
  {
    hide Decode;
    received := [];
    while true
      invariant FramesOf(old(receiver.incoming), receiver.ending)
             == received + FramesOf(receiver.incoming, receiver.ending)
      invariant EndOf(old(receiver.incoming), receiver.ending) == EndOf(receiver.incoming, receiver.ending)
      decreases |receiver.incoming|
    {
      last := receiver.ReceiveFrame();
      if !last.Got? {
        return;
      }
      received := received + [last.frame];
    }
  }

  lemma SendingMore(frames: seq<Frame>, k: nat)
    requires k < |frames|
    ensures EncodeAll(frames[..k + 1]) == EncodeAll(frames[..k]) + Encode(frames[k])
    ensures |EncodeAll(frames[..k])| + |Encode(frames[k])| <= |EncodeAll(frames)|
  {
    assert frames[..k + 1] == frames[..k] + [frames[k]];
    EncodeAllConcat(frames[..k], [frames[k]]);
    assert [frames[k]][1..] == [];
    EncodeAllConcat(frames[..k + 1], frames[k + 1..]);
    assert frames[..k + 1] + frames[k + 1..] == frames;
  }

  lemma NextFrame(frames: seq<Frame>, k: nat)
    requires k <= |frames| && AllSendable(frames)
    ensures Decode(EncodeAll(frames[k..]), Shutdown)
            == if k == |frames| then (CleanClose, []) else (Got(frames[k]), EncodeAll(frames[k + 1..]))
  {
    if k < |frames| {
      assert frames[k..][1..] == frames[k + 1..];
      DecodeInvertsEncode(frames[k], EncodeAll(frames[k + 1..]), Shutdown);
    } else {
      assert frames[k..] == [];
    }
  }
}
