/** The conversation between client and server: handshake, tensor uploads, layer runs. */
module Remote {
  import opened Words
  import opened Wire
  import opened Framing
  import opened Codecs
  import opened LayerTensors
  import C = Capacity
  import S = TensorStore

  const PING := 1
  const PONG := 2
  const HELLO := 3
  const CAPABILITIES := 4
  const LOAD_TENSOR := 5
  const TENSOR_LOADED := 6
  const RUN_LAYER_RANGE := 13
  const LAYER_RANGE_RESULT := 14
  const ERROR := 255

  // ---- Responses ----

  function EncodeTensorLoaded(s: S.Stored): Bytes {
    Write(s.id, 4) + Write(s.ggufType, 4) + Write(|s.data|, 8) + Write(s.allocationBytes, 8) + Write(s.contentHash, 8)
    + Write(|s.name|, 2) + Write(0, 2) + s.name
  }

  /** What the client checks of a TENSOR_LOADED payload. */
  predicate VerifiesTensor(p: Bytes, ggufType: U32, dataBytes: nat, hash: U64, name: Bytes) {
    && |p| >= 36 && At(p, 4, 4) == ggufType && At(p, 8, 8) == dataBytes && At(p, 24, 8) == hash
    && |p| == 36 + At(p, 32, 2) && p[36..] == name
  }

  /** The client reads back the record's id and sizes, and its checks pass exactly when the record is
      about the tensor that was sent. */
  lemma TensorLoadedVerifies(s: S.Stored, ggufType: U32, dataBytes: nat, hash: U64, name: Bytes)
    requires |s.name| < 0x1_0000 && |s.data| < MODULUS
    ensures var p := EncodeTensorLoaded(s); |p| >= 36 && At(p, 0, 4) == s.id && At(p, 16, 8) == s.allocationBytes
    ensures VerifiesTensor(EncodeTensorLoaded(s), ggufType, dataBytes, hash, name)
            <==> s.ggufType == ggufType && |s.data| == dataBytes && s.contentHash == hash && s.name == name
  {
    hide Write, Read;
    Limits();
    var p := EncodeTensorLoaded(s);
    assert p[0..4] == Write(s.id, 4) && p[16..24] == Write(s.allocationBytes, 8);
    ReadWrite(s.id, 4);
    ReadWrite(s.allocationBytes, 8);
    assert p[4..8] == Write(s.ggufType, 4) && p[8..16] == Write(|s.data|, 8) && p[24..32] == Write(s.contentHash, 8);
    assert p[32..34] == Write(|s.name|, 2) && p[36..] == s.name;
    ReadWrite(s.ggufType, 4);
    ReadWrite(|s.data|, 8);
    ReadWrite(s.contentHash, 8);
    ReadWrite(|s.name|, 2);
  }

  function ResultWords(r: Range, output: seq<U16>): (w: seq<nat>)
    ensures |w| == 4
  {
    [r.firstLayer, r.lastLayer, r.position, |output|]
  }

  function EncodeResult(r: Range, output: seq<U16>, gpuTime: U64): Bytes {
    Each(ResultWords(r, output), 4) + Write(HalvesHash(output), 8) + Write(gpuTime, 8) + Each(output, 2)
  }

  /** The client's checks of a LAYER_RANGE_RESULT payload for request `r`. */
  ghost predicate VerifiesResult(p: Bytes, r: Range, output: seq<U16>) {
    && |output| == |r.input| && |p| == 32 + |output| * 2 && HasWords(p, 0, ResultWords(r, output), 4)
    && HasWords(p, 32, output, 2) && At(p, 16, 8) == HalvesHash(output)
  }

  lemma ResultParts(words: Bytes, hash: Bytes, time: Bytes, output: Bytes)
    requires |words| == 16 && |hash| == 8 && |time| == 8
    ensures var p := words + hash + time + output;
            |p| == 32 + |output| && p[0..16] == words && p[16..24] == hash && p[32..32 + |output|] == output
  {}

  lemma ResultVerifies(r: Range, output: seq<U16>, gpuTime: U64)
    requires |output| == |r.input| < Limit(4)
    ensures VerifiesResult(EncodeResult(r, output, gpuTime), r, output)
  {
    Limits();
    var p := EncodeResult(r, output, gpuTime);
    assert AllFit(ResultWords(r, output), 4) && AllFit(output, 2);
    hide Write, Read, Each, Limit, WordAt, Hash, ResultWords, AllFit, HasWords;
    ResultParts(Each(ResultWords(r, output), 4), Write(HalvesHash(output), 8), Write(gpuTime, 8), Each(output, 2));
    EachIsRead(p, 0, ResultWords(r, output), 4);
    EachIsRead(p, 32, output, 2);
    FieldIs(p, 16, 8, HalvesHash(output));
  }

  // ---- Answers ----

  /** What the device does with one request: whether it can allocate, and what a run gives; None stands
      for any exception of a run whose tensors are all there. */
  datatype Device = Device(memory: bool, allocation: U64, output: Option<seq<U16>>, gpuTime: U64)

  datatype Reason =
    | BadHello | NoCommonVersion | BackendMissing | HelloRequired | Undecoded | NotStored(problem: S.Problem)
    | NotLoaded | WrongShape | RunFailed | Unsupported

  /** An answer before it becomes a frame. */
  datatype Answer =
    | Pong | Capabilities | TensorLoaded(stored: S.Stored) | LayerResult(request: Range, output: seq<U16>, gpuTime: U64)
    | Failure(reason: Reason)

  function KindOf(a: Answer): U16 {
    match a
    case Pong => PONG
    case Capabilities => CAPABILITIES
    case TensorLoaded(_) => TENSOR_LOADED
    case LayerResult(_, _, _) => LAYER_RANGE_RESULT
    case Failure(_) => ERROR
  }

  /** The two versions, the backend and a zero word. */
  function HelloFields(p: Bytes): (w: seq<nat>)
    requires |p| == 8
    ensures |w| == 4
  {
    [At(p, 0, 2), At(p, 2, 2), At(p, 4, 2), At(p, 6, 2)]
  }

  function AnswerHello(p: Bytes): Answer {
    if |p| != 8 || HelloFields(p)[3] != 0 then Failure(BadHello)
    else if HelloFields(p)[0] > VERSION || HelloFields(p)[1] < VERSION then Failure(NoCommonVersion)
    else if HelloFields(p)[2] > 1 then Failure(BackendMissing)
    else Capabilities
  }

  /** A HELLO payload with these fields. */
  function EncodeHello(minimum: nat, maximum: nat, backend: nat): (p: Bytes)
    ensures |p| == 8
  {
    Write(minimum, 2) + Write(maximum, 2) + Write(backend, 2) + Write(0, 2)
  }

  /** The handshake succeeds exactly for version ranges around 1 and the backends auto and GPU. */
  lemma HelloIsAnswered(minimum: U16, maximum: U16, backend: U16)
    ensures AnswerHello(EncodeHello(minimum, maximum, backend)) == Capabilities
            <==> minimum <= VERSION <= maximum && backend <= 1
  {
    hide Write, Read;
    Limits();
    var p := EncodeHello(minimum, maximum, backend);
    FieldIs(p, 0, 2, minimum);
    FieldIs(p, 2, 2, maximum);
    FieldIs(p, 4, 2, backend);
    FieldIs(p, 6, 2, 0);
    assert p[0..2] == Write(minimum, 2) && p[2..4] == Write(maximum, 2);
    assert p[4..6] == Write(backend, 2) && p[6..8] == Write(0, 2);
  }

  /** Nothing else is accepted: eight bytes with a zero word at the end. */
  lemma OnlyHelloIsAnswered(p: Bytes)
    requires AnswerHello(p) == Capabilities
    ensures |p| == 8 && p == EncodeHello(At(p, 0, 2), At(p, 2, 2), At(p, 4, 2))
  {
    WriteRead(p[0..2]);
    WriteRead(p[2..4]);
    WriteRead(p[4..6]);
    WriteRead(p[6..8]);
    hide Write, Read;
    assert p == p[0..2] + p[2..4] + p[4..6] + p[6..8];
  }

  /** The entry check of `run_layer_range` beyond what decoding has checked. */
  predicate RunnableShape(r: Range) {
    r.headDim <= 256 && r.headDim % 2 == 0
  }

  /** The texts of error responses. */
  function ErrorText(r: Reason): Bytes {
    match r
    case BadHello => Ascii("HELLO payload is invalid")
    case NoCommonVersion => Ascii("no compatible protocol version")
    case BackendMissing => Ascii("requested backend is not implemented")
    case HelloRequired => Ascii("HELLO required before this message")
    case Undecoded => Ascii("payload is invalid")
    case NotStored(_) => Ascii("tensor is not stored")
    case NotLoaded => Ascii("remote layer tensor is not loaded")
    case WrongShape => Ascii("GPU layer tensor mismatch")
    case RunFailed => Ascii("layer range run failed")
    case Unsupported => Ascii("unsupported message type")
  }

  lemma ErrorTextIsShort(r: Reason)
    ensures |ErrorText(r)| <= 64
  {}

  function PayloadOf(a: Answer, capabilities: Bytes): Bytes {
    match a
    case Pong => Ascii("citlali-android-pong")
    case Capabilities => capabilities
    case TensorLoaded(stored) => EncodeTensorLoaded(stored)
    case LayerResult(request, output, gpuTime) => EncodeResult(request, output, gpuTime)
    case Failure(reason) => ErrorText(reason)
  }

  // ---- What a request does ----

  /** What the answers on a connection depend on besides requests and device. */
  datatype Conn = Conn(store: S.State, maxBytes: nat, capabilities: Bytes, handshake: bool)

  /** A request and what the device does with it. */
  datatype Call = Call(request: Frame, device: Device)

  datatype Turn = Turn(answer: Answer, after: Conn)

  /** The dimensions a run request asks for; the width is taken from the input, in 32 bits. */
  function DimsOf(r: Range): C.Dims {
    C.Dims(|r.input| % 0x1_0000_0000, r.ffnElements, r.heads, r.kvHeads, r.headDim, r.maxContext)
  }

  ghost predicate DeviceRuns(r: Range, device: Device) {
    device.output.Some? && |device.output.value| == |r.input|
  }

  /** What a decoded run request is answered. */
  ghost function RunAnswer(store: S.State, r: Range, device: Device): Answer {
    if !RunnableShape(r) then Failure(RunFailed)
    else
      match RangeFault(store, DimsOf(r), r.firstLayer, r.lastLayer)
      case Some(fault) => Failure(if fault == Missing then NotLoaded else WrongShape)
      case None =>
        if DeviceRuns(r, device) then LayerResult(r, device.output.value, device.gpuTime) else Failure(RunFailed)
  }

  /** What a decoded tensor is answered, and what becomes of the store. */
  ghost function StoreTurn(c: Conn, t: Tensor, device: Device): Turn {
    match S.RefusalIn(c.store, c.maxBytes, t, device.memory)
    case Some(problem) => Turn(Failure(NotStored(problem)), c)
    case None => Turn(TensorLoaded(S.RecordOf(c.store, t, device.allocation)),
                      c.(store := S.Accepted(c.store, t, device.allocation)))
  }

  ghost function LoadTurn(c: Conn, payload: Bytes, device: Device): Turn {
    if Undecodable(payload) then Turn(Failure(Undecoded), c)
    else
      var t :| ValidTensor(t) && EncodeTensor(t) == payload;
      StoreTurn(c, t, device)
  }

  ghost function RunTurn(c: Conn, payload: Bytes, device: Device): Turn {
    if UndecodableRange(payload) then Turn(Failure(Undecoded), c)
    else
      var r :| ValidRange(r) && EncodeRange(r) == payload;
      Turn(RunAnswer(c.store, r, device), c)
  }

  /** The answer to a request and the connection after it. */
  ghost function Respond(c: Conn, call: Call): Turn {
    var kind, payload := call.request.kind, call.request.payload;
    if kind == PING then Turn(Pong, c)
    else if kind == HELLO then
      Turn(AnswerHello(payload), if AnswerHello(payload).Capabilities? then c.(handshake := true) else c)
    else if !c.handshake then Turn(Failure(HelloRequired), c)
    else if kind == LOAD_TENSOR then LoadTurn(c, payload, call.device)
    else if kind == RUN_LAYER_RANGE then RunTurn(c, payload, call.device)
    else Turn(Failure(Unsupported), c)
  }

  /** A tensor that was encoded is the one that is stored. */
  lemma LoadTurnOf(c: Conn, t: Tensor, device: Device)
    requires ValidTensor(t)
    ensures LoadTurn(c, EncodeTensor(t), device) == StoreTurn(c, t, device)
  {
    hide EncodeTensor, StoreTurn, Hash;
    forall u | ValidTensor(u) && EncodeTensor(u) == EncodeTensor(t) ensures u == t {
      ValidTensorFacts(u);
      ValidTensorFacts(t);
      EncodeTensorInjective(u, t);
    }
  }

  /** A request that was encoded is the one that is run. */
  lemma RunTurnOf(c: Conn, r: Range, device: Device)
    requires ValidRange(r)
    ensures RunTurn(c, EncodeRange(r), device) == Turn(RunAnswer(c.store, r, device), c)
  {
    hide EncodeRange, RunAnswer, Hash, GoodParameters;
    forall u | ValidRange(u) && EncodeRange(u) == EncodeRange(r) ensures u == r {
      EncodeRangeInjective(u, r);
    }
  }

  /** Nothing is stored or run before the handshake, nor by a request of another kind; only HELLO is
      answered with capabilities, and only that completes the handshake. */
  lemma RespondFacts(c: Conn, call: Call)
    ensures var turn, kind := Respond(c, call), call.request.kind;
            && turn.after == c.(store := turn.after.store, handshake := turn.after.handshake)
            && (turn.after.handshake <==> c.handshake || turn.answer.Capabilities?)
            && (turn.answer.Capabilities? ==> kind == HELLO)
            && (turn.answer.TensorLoaded? || turn.after.store != c.store ==> c.handshake && kind == LOAD_TENSOR)
            && (turn.answer.LayerResult? ==> c.handshake && kind == RUN_LAYER_RANGE)
  {
    hide S.RefusalIn, S.RecordOf, S.Accepted, ValidTensor, EncodeTensor, ValidRange, EncodeRange, RangeFault, At;
  }

  function Reply(answer: Answer, request: Frame, capabilities: Bytes): Frame {
    Frame(KindOf(answer), request.requestId, PayloadOf(answer, capabilities))
  }

  /** The connection after a sequence of requests. */
  ghost function After(c: Conn, calls: seq<Call>): Conn {
    if calls == [] then c
    else Respond(After(c, calls[..|calls| - 1]), calls[|calls| - 1]).after
  }

  /** The responses to a sequence of requests. */
  ghost function Replies(c: Conn, calls: seq<Call>): (responses: seq<Frame>)
    ensures |responses| == |calls|
  {
    if calls == [] then []
    else
      var before, last := calls[..|calls| - 1], calls[|calls| - 1];
      Replies(c, before) + [Reply(Respond(After(c, before), last).answer, last.request, c.capabilities)]
  }

  function Requests(calls: seq<Call>): (requests: seq<Frame>)
    ensures |requests| == |calls|
  {
    seq(|calls|, k requires 0 <= k < |calls| => calls[k].request)
  }

  /** Each request with what the device does with it. */
  function CallsOf(requests: seq<Frame>, devices: nat -> Device): (calls: seq<Call>)
    ensures |calls| == |requests|
  {
    seq(|requests|, k requires 0 <= k < |requests| => Call(requests[k], devices(k)))
  }

  lemma OneMoreCall(c: Conn, calls: seq<Call>, call: Call)
    ensures After(c, calls + [call]) == Respond(After(c, calls), call).after
    ensures Replies(c, calls + [call])
            == Replies(c, calls) + [Reply(Respond(After(c, calls), call).answer, call.request, c.capabilities)]
    ensures Requests(calls + [call]) == Requests(calls) + [call.request]
  {
    hide Respond, Reply;
    assert (calls + [call])[..|calls|] == calls;
  }

  lemma OneMoreRequest(requests: seq<Frame>, request: Frame, devices: nat -> Device)
    ensures CallsOf(requests + [request], devices) == CallsOf(requests, devices) + [Call(request, devices(|requests|))]
  {}

  lemma RequestsOfCalls(requests: seq<Frame>, devices: nat -> Device)
    ensures Requests(CallsOf(requests, devices)) == requests
  {}

  /** The responses to the first requests do not depend on the later ones. */
  lemma {:induction false} RepliesPrefix(c: Conn, calls: seq<Call>, n: nat)
    requires n <= |calls|
    ensures Replies(c, calls)[..n] == Replies(c, calls[..n])
  {
    hide Respond, Reply;
    if n < |calls| {
      var m := |calls| - 1;
      RepliesPrefix(c, calls[..m], n);
      assert calls[..m][..n] == calls[..n];
    } else {
      assert calls[..n] == calls;
    }
  }

  /** Every run of the server: each request has one response, with its id, and what is stored or run
      comes after a handshake of the same connection. */
  lemma {:induction false} RunsAreAnswered(c: Conn, calls: seq<Call>)
    requires !c.handshake
    ensures Answered(Requests(calls), Replies(c, calls)) && HandshakeFirst(Requests(calls), Replies(c, calls))
    ensures After(c, calls).handshake ==> HandshakeDone(Requests(calls), Replies(c, calls))
    ensures After(c, calls).capabilities == c.capabilities && After(c, calls).maxBytes == c.maxBytes
  {
    hide Respond, PayloadOf, Answered, HandshakeFirst, HandshakeDone;
    if calls == [] {
      NothingAnswered();
    } else {
      var m := |calls| - 1;
      var before, last := calls[..m], calls[m];
      assert calls == before + [last];
      RunsAreAnswered(c, before);
      OneMoreCall(c, before, last);
      RespondFacts(After(c, before), last);
      var answer := Respond(After(c, before), last).answer;
      NextAnswered(Requests(before), Replies(c, before), last.request, Reply(answer, last.request, c.capabilities),
                   answer, After(c, before).handshake);
    }
  }

  lemma NothingAnswered()
    ensures Answered([], []) && HandshakeFirst([], [])
  {}

  // ---- The server ----

  /** The server: `capabilities` is its encoded self-description. */
  class Server {
    const store: S.TensorStore
    const capabilities: Bytes

    constructor (store: S.TensorStore, capabilities: Bytes)
      requires store.Valid() && 50 <= |capabilities| <= 50 + 0xffff
      ensures Valid() && this.store == store && this.capabilities == capabilities
    {
      this.store, this.capabilities := store, capabilities;
    }

    ghost predicate Valid()
      reads store
    {
      store.Valid() && 50 <= |capabilities| <= 50 + 0xffff
    }

    /** A connection to this server as it is now. */
    ghost function Connection(handshake: bool): Conn
      reads store
    {
      Conn(store.Contents(), store.maxBytes, capabilities, handshake)
    }

    lemma ConnectionFacts(handshake: bool)
      ensures var c := Connection(handshake);
              c.store == store.Contents() && c.capabilities == capabilities && c.handshake == handshake
    {}

    /** The layer loop of a run up to the device: the first layer with a missing or wrong tensor. */
    method CheckRange(d: C.Dims, first: nat, last: nat) returns (fault: Option<Fault>)
      requires Valid() && first <= last
      ensures fault == RangeFault(store.Contents(), d, first, last)
    {
      hide LayerFault, S.Consistent;
      var l := first;
      while l <= last
        invariant first <= l <= last + 1
        invariant RangeFault(store.Contents(), d, first, last) == RangeFault(store.Contents(), d, l, last)
      {
        fault := CheckLayer(store, d, l);
        if fault.Some? {
          return;
        }
        l := l + 1;
      }
      return None;
    }

    method AnswerLoad(payload: Bytes, device: Device) returns (answer: Answer)
      requires Valid()
      modifies store
      ensures Valid() && S.Extends(old(store.names), old(store.tensors), store.names, store.tensors)
      ensures Turn(answer, Connection(true)) == old(LoadTurn(Connection(true), payload, device))
      ensures answer.TensorLoaded? ==> |answer.stored.name| <= 1024
      ensures answer.TensorLoaded? || answer.Failure?
    {
      hide EncodeTensor, ValidTensor, S.RefusalIn, S.RecordOf, S.Accepted, S.SameContent, S.Consistent, Hash, LoadTurn;
      ghost var before := Connection(true);
      UndecodableTurn(before, payload, device);
      var decoded := DecodeLoadTensor(payload);
      if decoded.Err? {
        NothingExtends(store.names, store.tensors);
        return Failure(Undecoded);
      }
      var t := decoded.value;
      ValidTensorFacts(t);
      LoadTurnOf(before, t, device);
      var outcome := store.Store(t, device.memory, device.allocation);
      if outcome.Rejected? {
        return Failure(NotStored(outcome.problem));
      }
      return TensorLoaded(outcome.tensor);
    }

    method AnswerRun(payload: Bytes, device: Device) returns (answer: Answer)
      requires Valid()
      ensures Turn(answer, Connection(true)) == RunTurn(Connection(true), payload, device)
      ensures answer.LayerResult? ==>
                |answer.output| == |answer.request.input| && EncodeRange(answer.request) == payload
      ensures answer.LayerResult? || answer.Failure?
    {
      hide EncodeRange, RangeFault, S.Consistent, Hash, GoodParameters, RunTurn;
      UndecodableRun(Connection(true), payload, device);
      var decoded := DecodeRunLayerRange(payload);
      if decoded.Err? {
        return Failure(Undecoded);
      }
      var r := decoded.value;
      RunTurnOf(Connection(true), r, device);
      OrderedRange(r);
      if !RunnableShape(r) {
        return Failure(RunFailed);
      }
      var fault := CheckRange(DimsOf(r), r.firstLayer, r.lastLayer);
      if fault.Some? {
        return Failure(if fault == Some(Missing) then NotLoaded else WrongShape);
      }
      if device.output.None? || |device.output.value| != |r.input| {
        return Failure(RunFailed);
      }
      return LayerResult(r, device.output.value, device.gpuTime);
    }

    /** One request on a connection: the response has the request's id, and nothing is stored or run
        before the handshake of this connection. */
    method Handle(request: Frame, handshake: bool, device: Device)
      returns (response: Frame, handshakeAfter: bool, ghost answer: Answer)
      requires Valid() && Sendable(request)
      modifies if request.kind == LOAD_TENSOR then {store} else {}
      ensures Valid() && S.Extends(old(store.names), old(store.tensors), store.names, store.tensors)
      ensures Turn(answer, Connection(handshakeAfter)) == old(Respond(Connection(handshake), Call(request, device)))
      ensures response == Reply(answer, request, capabilities) && Sendable(response)
      ensures !handshake || request.kind != LOAD_TENSOR ==> unchanged(store) && !answer.TensorLoaded?
      ensures !handshake || request.kind != RUN_LAYER_RANGE ==> !answer.LayerResult?
    {
      hide EncodeRange, LoadTurn, RunTurn, PayloadOf, S.Consistent, S.Extends, HelloFields;
      NothingExtends(store.names, store.tensors);
      handshakeAfter := handshake;
      var a: Answer;
      if request.kind == PING {
        a := Pong;
      } else if request.kind == HELLO {
        a := AnswerHello(request.payload);
        if a.Capabilities? {
          handshakeAfter := true;
        }
      } else if request.kind == LOAD_TENSOR {
        if !handshake {
          a := Failure(HelloRequired);
        } else {
          a := AnswerLoad(request.payload, device);
        }
      } else if request.kind == RUN_LAYER_RANGE {
        if !handshake {
          a := Failure(HelloRequired);
        } else {
          a := AnswerRun(request.payload, device);
        }
      } else {
        a := Failure(if handshake then Unsupported else HelloRequired);
      }
      answer := a;
      AnswerIsSendable(a, capabilities, request.payload);
      response := Frame(KindOf(a), request.requestId, PayloadOf(a, capabilities));
    }

    /** One round of the loop: a request, if one arrives, and its response. */
    method ServeNext(receiver: Receiver, sender: Sender, handshake: bool, device: Device)
      returns (request: Received, handshakeAfter: bool, sent: bool, ghost answer: Answer, ghost response: Frame)
      requires Valid() && |sender.wire| <= sender.capacity
      modifies store, receiver, sender
      ensures Valid() && S.Extends(old(store.names), old(store.tensors), store.names, store.tensors)
      ensures request == Decode(old(receiver.incoming), receiver.ending).0
      ensures !request.Got? ==> unchanged(store) && unchanged(sender) && handshakeAfter == handshake
      ensures request.Got? ==>
                && receiver.incoming == Decode(old(receiver.incoming), receiver.ending).1
                && |receiver.incoming| < |old(receiver.incoming)|
                && Turn(answer, Connection(handshakeAfter))
                   == old(Respond(Connection(handshake), Call(request.frame, device)))
                && response == Reply(answer, request.frame, capabilities) && Sendable(response)
                && |sender.wire| <= sender.capacity
                && (sent <==> |old(sender.wire)| + |Encode(response)| <= sender.capacity)
                && sender.wire == old(sender.wire)
                   + Encode(response)[..CutAt(|old(sender.wire)|, |Encode(response)|, sender.capacity)]
    {
      hide Encode, Decode, Valid, Respond, Reply, S.Extends, S.Consistent;
      answer, response := Pong, Frame(0, 0, []);
      handshakeAfter, sent := handshake, false;
      NothingExtends(store.names, store.tensors);
      request := receiver.ReceiveFrame();
      if request.Got? {
        var frame;
        frame, handshakeAfter, answer := Handle(request.frame, handshake, device);
        response := frame;
        sent := sender.SendFrame(frame);
      }
    }

    /** Serves one connection until it closes, fails or sends something that is no frame; `devices` says
        what the device does with the k-th request. With room on the connection every request is read
        and gets its response; otherwise the responses are cut where the connection broke, and no
        request behind the first unsent response is read. */
    method ServeClient(receiver: Receiver, sender: Sender, devices: nat -> Device)
      returns (clean: bool, ghost requests: seq<Frame>, ghost responses: seq<Frame>)
      requires Valid() && |sender.wire| <= sender.capacity
      modifies store, receiver, sender
      ensures Valid() && S.Extends(old(store.names), old(store.tensors), store.names, store.tensors)
      ensures requests <= FramesOf(old(receiver.incoming), receiver.ending)
      ensures responses == Replies(old(Connection(false)), CallsOf(requests, devices))
      ensures store.Contents() == After(old(Connection(false)), CallsOf(requests, devices)).store
      ensures Answered(requests, responses) && HandshakeFirst(requests, responses) && AllSendable(responses)
      ensures var frames := FramesOf(old(receiver.incoming), receiver.ending);
              var all := Replies(old(Connection(false)), CallsOf(frames, devices));
              if Room(old(sender.wire), all, sender.capacity)
              then && requests == frames && sender.wire == old(sender.wire) + EncodeAll(all)
                   && (clean <==> EndOf(old(receiver.incoming), receiver.ending) == CleanClose)
              else !clean && IsCut(old(sender.wire), all, responses, sender.capacity, sender.wire)
    {
      hide *;
      ConnectionFacts(false);
      ghost var c, wire0, all := Connection(false), sender.wire, FramesOf(receiver.incoming, receiver.ending);
      var handshake, served: nat := false, 0;
      requests := [];
      NothingServed(c, devices, sender.wire, all);
      RoomIs(wire0, Replies(c, CallsOf([], devices)), sender.capacity);
      NothingExtends(store.names, store.tensors);
      while true
        invariant Valid() && S.Extends(old(store.names), old(store.tensors), store.names, store.tensors)
        invariant all == requests + FramesOf(receiver.incoming, receiver.ending) && served == |requests|
        invariant EndOf(old(receiver.incoming), receiver.ending) == EndOf(receiver.incoming, receiver.ending)
        invariant Connection(handshake) == After(c, CallsOf(requests, devices))
        invariant sender.wire == wire0 + EncodeAll(Replies(c, CallsOf(requests, devices)))
        invariant Room(wire0, Replies(c, CallsOf(requests, devices)), sender.capacity)
        invariant AllSendable(Replies(c, CallsOf(requests, devices)))
        decreases |receiver.incoming|
      {
        ghost var sentBefore := Replies(c, CallsOf(requests, devices));
        FrameStep(receiver.incoming, receiver.ending);
        RoomIs(wire0, sentBefore, sender.capacity);
        ServedIsAnswered(c, requests, devices);
        ConnectionFacts(handshake);
        var request, sent;
        ghost var names, tensors, answer, response := store.names, store.tensors, Pong, Frame(0, 0, []);
        request, handshake, sent, answer, response := ServeNext(receiver, sender, handshake, devices(served));
        if !request.Got? {
          responses := sentBefore;
          assert requests == all;
          return request.CleanClose?, requests, responses;
        }
        ExtendsFurther(old(store.names), old(store.tensors), names, tensors, store.names, store.tensors);
        NextServed(c, requests, request.frame, devices, answer, Connection(handshake), response);
        requests, responses := requests + [request.frame], sentBefore + [response];
        served := served + 1;
        ServedIsAnswered(c, requests, devices);
        ConnectionFacts(handshake);
        MoreSendable(sentBefore, response);
        OneMoreSent(wire0, sentBefore, response, sender.capacity);
        if !sent {
          CutShort(c, wire0, requests, all, devices, sentBefore, response, sender.capacity, sender.wire);
          return false, requests, responses;
        }
      }
    }
  }

  /** A whole conversation over a connection that has room for it: whatever the four plans split and
      interrupt, the client receives the responses of the server to its requests, in order. */
  method Converse(server: Server, calls: seq<Call>, room: nat, plans: seq<seq<nat>>)
    returns (received: seq<Frame>, clean: bool)
    requires server.Valid() && AllSendable(Requests(calls)) && |plans| == 4
    requires |EncodeAll(Requests(calls))| <= room
    requires |EncodeAll(Replies(server.Connection(false), calls))| <= room
    modifies server.store
    ensures server.Valid() && clean && received == Replies(old(server.Connection(false)), calls)
    ensures server.store.Contents() == After(old(server.Connection(false)), calls).store
  {
    hide *;
    ghost var c := server.Connection(false);
    var requests := Requests(calls);
    var devices := DevicesOf(calls);
    CallsAgain(calls);
    var sender := new Sender(room, plans[0]);
    var sent := SendFrames(requests, sender);
    assert sender.wire == EncodeAll(requests);
    FramesOfEncoded(requests);
    var receiver := new Receiver(sender.wire, Shutdown, plans[1]);
    var back := new Sender(room, plans[2]);
    ghost var answered, responses;
    RoomIs([], Replies(c, calls), room);
    assert [] + EncodeAll(Replies(c, calls)) == EncodeAll(Replies(c, calls));
    clean, answered, responses := server.ServeClient(receiver, back, devices);
    assert back.wire == EncodeAll(Replies(c, calls));
    FramesOfEncoded(responses);
    var client := new Receiver(back.wire, Shutdown, plans[3]);
    var last;
    received, last := ReceiveFrames(client);
  }

  const IDLE: Device := Device(false, 0, None, 0)

  function DevicesOf(calls: seq<Call>): nat -> Device {
    (k: nat) => if k < |calls| then calls[k].device else IDLE
  }

  lemma CallsAgain(calls: seq<Call>)
    ensures CallsOf(Requests(calls), DevicesOf(calls)) == calls
  {}

  /** A connection that has taken `wire` has room for these responses. */
  ghost predicate Room(wire: Bytes, responses: seq<Frame>, capacity: nat) {
    |wire| + |EncodeAll(responses)| <= capacity
  }

  /** The connection broke while the last of `responses` was sent: all of them but the last fit, and
      what was taken is the beginning of what all responses would have been. */
  ghost predicate IsCut(wire0: Bytes, all: seq<Frame>, responses: seq<Frame>, capacity: nat, wire: Bytes) {
    && responses != [] && Room(wire0, responses[..|responses| - 1], capacity) && !Room(wire0, responses, capacity)
    && |wire| == capacity && wire <= wire0 + EncodeAll(all)
  }

  lemma RoomIs(wire: Bytes, responses: seq<Frame>, capacity: nat)
    ensures Room(wire, responses, capacity) <==> |wire + EncodeAll(responses)| <= capacity
  {}

  lemma OneMoreSent(wire0: Bytes, before: seq<Frame>, response: Frame, capacity: nat)
    ensures Room(wire0, before + [response], capacity) <==> |wire0 + EncodeAll(before)| + |Encode(response)| <= capacity
    ensures wire0 + EncodeAll(before + [response]) == wire0 + EncodeAll(before) + Encode(response)
    ensures Room(wire0, before + [response], capacity) ==>
              Encode(response)[..CutAt(|wire0 + EncodeAll(before)|, |Encode(response)|, capacity)] == Encode(response)
  {
    hide Encode, EncodeAll;
    OneMoreFrame(before, response);
  }

  /** One response for each request, with its id. */
  ghost predicate Answered(requests: seq<Frame>, responses: seq<Frame>) {
    |requests| == |responses| && forall k | 0 <= k < |requests| :: responses[k].requestId == requests[k].requestId
  }

  ghost predicate HandshakeDone(requests: seq<Frame>, responses: seq<Frame>) {
    && |requests| == |responses|
    && exists j :: 0 <= j < |requests| && requests[j].kind == HELLO && responses[j].kind == CAPABILITIES
  }

  /** Whatever was stored or run came after a successful handshake on the same connection. */
  ghost predicate HandshakeFirst(requests: seq<Frame>, responses: seq<Frame>) {
    && |requests| == |responses|
    && forall k | 0 <= k < |responses| && responses[k].kind in {TENSOR_LOADED, LAYER_RANGE_RESULT} ::
         HandshakeDone(requests[..k], responses[..k])
  }

  lemma NothingServed(c: Conn, devices: nat -> Device, wire: Bytes, all: seq<Frame>)
    ensures After(c, CallsOf([], devices)) == c && wire == wire + EncodeAll(Replies(c, CallsOf([], devices)))
    ensures all == [] + all && AllSendable(Replies(c, CallsOf([], devices)))
  {}

  lemma MoreSendable(frames: seq<Frame>, frame: Frame)
    requires AllSendable(frames) && Sendable(frame)
    ensures AllSendable(frames + [frame])
  {}

  lemma NothingExtends(names: map<Bytes, U32>, tensors: map<U32, S.Stored>)
    ensures S.Extends(names, tensors, names, tensors)
  {}

  lemma UndecodableTurn(c: Conn, payload: Bytes, device: Device)
    ensures Undecodable(payload) ==> LoadTurn(c, payload, device) == Turn(Failure(Undecoded), c)
  {}

  lemma UndecodableRun(c: Conn, payload: Bytes, device: Device)
    ensures UndecodableRange(payload) ==> RunTurn(c, payload, device) == Turn(Failure(Undecoded), c)
  {}

  lemma OrderedRange(r: Range)
    requires ValidRange(r)
    ensures r.firstLayer <= r.lastLayer
  {}

  lemma FrameStep(s: Bytes, ending: Ending)
    ensures var d := Decode(s, ending);
            && FramesOf(s, ending) == (if d.0.Got? then [d.0.frame] + FramesOf(d.1, ending) else [])
            && EndOf(s, ending) == if d.0.Got? then EndOf(d.1, ending) else d.0
  {
    hide Decode;
  }

  lemma ServedIsAnswered(c: Conn, requests: seq<Frame>, devices: nat -> Device)
    requires !c.handshake
    ensures var responses := Replies(c, CallsOf(requests, devices));
            Answered(requests, responses) && HandshakeFirst(requests, responses)
  {
    hide Replies, CallsOf, Requests, Answered, HandshakeFirst;
    RequestsOfCalls(requests, devices);
    RunsAreAnswered(c, CallsOf(requests, devices));
  }

  lemma NextServed(
    c: Conn, requests: seq<Frame>, request: Frame, devices: nat -> Device, answer: Answer, after: Conn, response: Frame)
    requires var call := Call(request, devices(|requests|));
             Turn(answer, after) == Respond(After(c, CallsOf(requests, devices)), call)
    requires response == Reply(answer, request, c.capabilities)
    ensures After(c, CallsOf(requests + [request], devices)) == after
    ensures Replies(c, CallsOf(requests + [request], devices)) == Replies(c, CallsOf(requests, devices)) + [response]
  {
    hide Respond, Reply, After, Replies, CallsOf;
    OneMoreRequest(requests, request, devices);
    OneMoreCall(c, CallsOf(requests, devices), Call(request, devices(|requests|)));
  }

  /** A response that does not fit: what is on the wire is the beginning of all responses. */
  lemma CutShort(
    c: Conn, wire0: Bytes, requests: seq<Frame>, all: seq<Frame>, devices: nat -> Device, before: seq<Frame>,
    response: Frame, capacity: nat, wire: Bytes)
    requires requests <= all && Replies(c, CallsOf(requests, devices)) == before + [response]
    requires Room(wire0, before, capacity) && !Room(wire0, before + [response], capacity)
    requires wire == wire0 + EncodeAll(before)
                     + Encode(response)[..CutAt(|wire0 + EncodeAll(before)|, |Encode(response)|, capacity)]
    ensures !Room(wire0, Replies(c, CallsOf(all, devices)), capacity)
    ensures IsCut(wire0, Replies(c, CallsOf(all, devices)), before + [response], capacity, wire)
  {
    hide Encode, EncodeAll, Replies;
    var n := |requests|;
    var replies := Replies(c, CallsOf(all, devices));
    assert CallsOf(all, devices)[..n] == CallsOf(requests, devices);
    RepliesPrefix(c, CallsOf(all, devices), n);
    assert replies == before + [response] + replies[n..];
    EncodeAllConcat(before + [response], replies[n..]);
    OneMoreFrame(before, response);
    assert (before + [response])[..|before|] == before;
    Beginning(wire0, EncodeAll(before), Encode(response), EncodeAll(replies[n..]), capacity, wire);
  }

  /** How much of `bytes` more bytes a connection takes that has taken `taken`. */
  function CutAt(taken: nat, bytes: nat, capacity: nat): (n: nat)
    ensures n <= bytes
  {
    if taken + bytes <= capacity then bytes else if taken <= capacity then capacity - taken else 0
  }

  lemma Beginning(a: Bytes, b: Bytes, c: Bytes, d: Bytes, capacity: nat, wire: Bytes)
    requires |a| + |b| <= capacity < |a| + |b| + |c|
    requires wire == a + b + c[..CutAt(|a + b|, |c|, capacity)]
    ensures |wire| == capacity && wire <= a + (b + c + d)
  {
    assert a + (b + c + d) == a + b + c + d;
    assert wire == (a + b + c + d)[..capacity];
  }

  lemma ExtendsFurther(
    names0: map<Bytes, U32>, tensors0: map<U32, S.Stored>, names1: map<Bytes, U32>, tensors1: map<U32, S.Stored>,
    names2: map<Bytes, U32>, tensors2: map<U32, S.Stored>)
    requires S.Extends(names0, tensors0, names1, tensors1) && S.Extends(names1, tensors1, names2, tensors2)
    ensures S.Extends(names0, tensors0, names2, tensors2)
  {}

  lemma OneMoreFrame(frames: seq<Frame>, f: Frame)
    ensures EncodeAll(frames + [f]) == EncodeAll(frames) + Encode(f)
  {
    hide Encode;
    EncodeAllConcat(frames, [f]);
    assert [f][1..] == [];
    assert EncodeAll([f]) == Encode(f) + EncodeAll([]);
  }

  lemma NextAnswered(
    requests: seq<Frame>, responses: seq<Frame>, request: Frame, response: Frame, answer: Answer, handshake: bool)
    requires Answered(requests, responses) && HandshakeFirst(requests, responses)
    requires handshake ==> HandshakeDone(requests, responses)
    requires response.requestId == request.requestId && response.kind == KindOf(answer)
    requires answer.Capabilities? ==> request.kind == HELLO
    requires answer.TensorLoaded? || answer.LayerResult? ==> handshake
    ensures var rs, ss := requests + [request], responses + [response];
            && Answered(rs, ss) && HandshakeFirst(rs, ss)
            && (handshake || (request.kind == HELLO && answer == Capabilities) ==> HandshakeDone(rs, ss))
  {
    var rs, ss, n := requests + [request], responses + [response], |requests|;
    if handshake {
      var j :| 0 <= j < n && requests[j].kind == HELLO && responses[j].kind == CAPABILITIES;
      assert rs[j] == requests[j] && ss[j] == responses[j];
    } else if answer == Capabilities {
      assert rs[n] == request && ss[n] == response;
    }
    hide HandshakeDone;
    assert rs[..n] == requests && ss[..n] == responses;
    forall k | 0 <= k < |ss| && ss[k].kind in {TENSOR_LOADED, LAYER_RANGE_RESULT}
      ensures HandshakeDone(rs[..k], ss[..k])
    {
      assert rs[..k] == requests[..k] && ss[..k] == responses[..k];
    }
  }

  lemma ValidTensorFacts(t: Tensor)
    requires ValidTensor(t)
    ensures t.contentHash == Hash(t.data) && WithinLimits(t)
  {}

  lemma AnswerIsSendable(a: Answer, capabilities: Bytes, request: Bytes)
    requires |capabilities| <= 50 + 0xffff && |request| <= MAX_PAYLOAD
    requires a.TensorLoaded? ==> |a.stored.name| <= 1024
    requires a.LayerResult? ==> |a.output| == |a.request.input| && EncodeRange(a.request) == request
    ensures |PayloadOf(a, capabilities)| <= MAX_PAYLOAD
  {
    hide Write, Each, Hash;
    if a.Failure? { ErrorTextIsShort(a.reason); }
    hide ErrorText;
  }
}
