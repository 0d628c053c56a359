/** The client side: uploads of whole layers, and runs over ranges of them. */
module RemoteClient {
  import opened Words
  import opened Wire
  import opened Framing
  import opened Codecs
  import opened LayerTensors
  import opened OffloadedRanges
  import opened Remote
  import C = Capacity
  import S = TensorStore
  import H = Half

  /** A tensor of the model file. */
  datatype Source = Source(ggufType: U32, dims: seq<U64>, bytes: Bytes)

  /** `element_count`: the product of the dimensions in 64 bits. */
  function ElementCount(dims: seq<U64>): U64 {
    Product(dims) % MODULUS
  }

  const F32 := 0
  const F16 := 1
  const Q4_K := 12
  const Q6_K := 14

  /** The tensor that an upload describes. */
  function Described(ggufType: U32, dims: seq<U64>, name: Bytes, data: Bytes): Tensor {
    Tensor(ggufType, dims, ElementCount(dims), Hash(data), name, data)
  }

  ghost predicate AllUploaded(names: map<Bytes, U32>, layers: set<nat>) {
    forall l | l in layers :: LayerLoaded(names, l)
  }

  /** The half a float is rounded to. */
  ghost function Narrow(bits: U32): U16 {
    if exists h: U16 :: H.IsRounded(bits, h) then
      var h: U16 :| H.IsRounded(bits, h);
      h
    else 0
  }

  ghost function Narrowed(bytes: Bytes, count: nat): seq<U16>
    requires |bytes| == count * 4
  {
    seq<U16>(count, k requires 0 <= k < count => Narrow(FloatAt(bytes, k)))
  }

  /** What is uploaded of a tensor of the model file; None where the upload is refused at once. */
  ghost function Upload(gguf: map<Bytes, Source>, name: Bytes): Option<Tensor> {
    if name !in gguf then None
    else
      var source := gguf[name];
      if source.ggufType == F32 then
        if |source.bytes| != ElementCount(source.dims) * 4 then None
        else Some(Described(F16, source.dims, name, Each(Narrowed(source.bytes, ElementCount(source.dims)), 2)))
      else if source.ggufType in {F16, Q4_K, Q6_K} then
        Some(Described(source.ggufType, source.dims, name, source.bytes))
      else None
  }

  /** The types by number: floats go out as halves, halves and the two block types as they are, nothing else
      goes out; the hash is that of the bytes that go out. */
  lemma UploadInNumbers(gguf: map<Bytes, Source>, name: Bytes)
    requires name in gguf
    ensures gguf[name].ggufType in {1, 12, 14} ==>
              Upload(gguf, name).Some? && Upload(gguf, name).value.ggufType == gguf[name].ggufType
              && Upload(gguf, name).value.data == gguf[name].bytes
    ensures Upload(gguf, name).Some? ==>
              var t := Upload(gguf, name).value;
              && gguf[name].ggufType in {0, 1, 12, 14} && t.name == name && t.dims == gguf[name].dims
              && t.contentHash == Hash(t.data) && (gguf[name].ggufType == 0 ==> t.ggufType == 1)
              && (gguf[name].ggufType == 0 ==>
                    |gguf[name].bytes| == 4 * t.elementCount && |t.data| == 2 * t.elementCount)
  {
    hide Narrow, Hash, ElementCount;
  }

  /** A tensor that can be encoded and that the server takes. */
  ghost predicate Taken(store: S.State, maxBytes: nat, t: Tensor, device: Device) {
    ValidTensor(t) && |EncodeTensor(t)| <= MAX_PAYLOAD && S.RefusalIn(store, maxBytes, t, device.memory) == None
  }

  /** The store after the first `n` tensors of a layer; None if one of them was not taken. */
  ghost function LayerAfter(
    store: S.State, maxBytes: nat, gguf: map<Bytes, Source>, layer: nat, device: Device, n: nat): Option<S.State>
    requires n <= SUFFIXES
  {
    if n == 0 then Some(store)
    else
      match LayerAfter(store, maxBytes, gguf, layer, device, n - 1)
      case None => None
      case Some(s) => TensorAfter(s, maxBytes, Upload(gguf, TensorName(layer, n - 1)), device)
  }

  ghost function TensorAfter(store: S.State, maxBytes: nat, t: Option<Tensor>, device: Device): Option<S.State> {
    if t.Some? && Taken(store, maxBytes, t.value, device) then Some(S.Accepted(store, t.value, device.allocation))
    else None
  }

  /** The store after the offloaded layers below `layers`. */
  ghost function LoadAfter(
    store: S.State, maxBytes: nat, gguf: map<Bytes, Source>, layers: nat, offloaded: set<nat>, device: Device)
    : Option<S.State>
  {
    if layers == 0 then Some(store)
    else
      match LoadAfter(store, maxBytes, gguf, layers - 1, offloaded, device)
      case None => None
      case Some(s) =>
        if layers - 1 in offloaded then LayerAfter(s, maxBytes, gguf, layers - 1, device, SUFFIXES) else Some(s)
  }

  /** The form in which a tensor of the model file is stored. */
  ghost predicate StoredFrom(store: S.State, gguf: map<Bytes, Source>, name: Bytes) {
    Upload(gguf, name).Some? && FormOf(store, name) == Some(Form(Upload(gguf, name).value.ggufType, gguf[name].dims))
  }

  ghost predicate LayerStored(store: S.State, gguf: map<Bytes, Source>, layer: nat) {
    forall k | 0 <= k < SUFFIXES :: StoredFrom(store, gguf, TensorName(layer, k))
  }

  ghost predicate AllStored(store: S.State, gguf: map<Bytes, Source>, layers: nat, offloaded: set<nat>) {
    forall l | l in offloaded && l < layers :: LayerStored(store, gguf, l)
  }

  /** Matrix `j` of a layer has a block type in the model file, and the shape a run asks for. */
  predicate GgufMatrix(gguf: map<Bytes, Source>, d: C.Dims, layer: nat, j: nat)
    requires j < MATRICES
  {
    var name := TensorName(layer, MatrixOf(d, j).tensor);
    name in gguf && IsMatrix(Form(gguf[name].ggufType, gguf[name].dims), MatrixOf(d, j))
  }

  ghost predicate GgufLayer(gguf: map<Bytes, Source>, d: C.Dims, layer: nat) {
    forall j | 0 <= j < MATRICES :: GgufMatrix(gguf, d, layer, j)
  }

  lemma StoredMatrix(store: S.State, gguf: map<Bytes, Source>, d: C.Dims, layer: nat, j: nat)
    requires j < MATRICES && StoredFrom(store, gguf, TensorName(layer, MatrixOf(d, j).tensor))
    ensures MatrixStored(store, d, layer, j) <==> GgufMatrix(gguf, d, layer, j)
  {
    hide TensorName, MatrixOf, Narrowed, ElementCount, Hash, Each;
  }

  /** A layer that was uploaded from the model file can run exactly when its seven matrices have block
      types and the right shapes there. */
  lemma UploadedLayerRuns(store: S.State, gguf: map<Bytes, Source>, d: C.Dims, layer: nat)
    requires LayerStored(store, gguf, layer)
    ensures LayerFault(store, d, layer) == if GgufLayer(gguf, d, layer) then None else Some(Mismatch)
  {
    hide TensorName, MatrixOf, MatrixStored, GgufMatrix, Upload;
    forall k | 0 <= k < SUFFIXES ensures TensorName(layer, k) in store.names {
      assert StoredFrom(store, gguf, TensorName(layer, k));
    }
    forall j | 0 <= j < MATRICES ensures MatrixStored(store, d, layer, j) <==> GgufMatrix(gguf, d, layer, j) {
      assert StoredFrom(store, gguf, TensorName(layer, MatrixOf(d, j).tensor));
      StoredMatrix(store, gguf, d, layer, j);
    }
  }

  lemma AcceptedForm(s: S.State, maxBytes: nat, t: Tensor, device: Device)
    requires Taken(s, maxBytes, t, device)
    ensures FormOf(S.Accepted(s, t, device.allocation), t.name) == Some(Form(t.ggufType, t.dims))
  {
    hide ValidTensor, EncodeTensor, S.ExpectedBytes;
  }

  lemma FormKept(before: S.State, after: S.State, name: Bytes)
    requires S.Extends(before.names, before.tensors, after.names, after.tensors) && FormOf(before, name).Some?
    ensures FormOf(after, name) == FormOf(before, name)
  {}

  lemma LayerKept(before: S.State, after: S.State, gguf: map<Bytes, Source>, layer: nat)
    requires S.Extends(before.names, before.tensors, after.names, after.tensors) && LayerStored(before, gguf, layer)
    ensures LayerStored(after, gguf, layer)
  {
    hide TensorName, Upload, S.Extends, FormOf;
    forall k | 0 <= k < SUFFIXES ensures StoredFrom(after, gguf, TensorName(layer, k)) {
      assert StoredFrom(before, gguf, TensorName(layer, k));
      FormKept(before, after, TensorName(layer, k));
    }
  }

  datatype RunOutcome = Output(values: seq<U16>) | InvalidRange | NotUploaded | RemoteFailure

  /** A request as it is sent, with the hash of its input. */
  function Sent(r: Range): Range {
    r.(inputHash := HalvesHash(r.input))
  }

  /** What a run sends: one request, or nothing if it does not fit a frame. */
  function RunCalls(id: U64, r: Range, device: Device): seq<Call> {
    if |EncodeRange(Sent(r))| > MAX_PAYLOAD then []
    else [Call(Frame(RUN_LAYER_RANGE, id, EncodeRange(Sent(r))), device)]
  }

  ghost predicate Runs(store: S.State, r: Range, device: Device) {
    && GoodParameters(r, |r.input|) && RunnableShape(r)
    && RangeFault(store, DimsOf(r), r.firstLayer, r.lastLayer).None? && DeviceRuns(r, device)
  }

  /** When a run over uploaded layers gives an output. */
  ghost predicate Succeeds(store: S.State, r: Range, device: Device) {
    Runs(store, r, device) && |EncodeRange(r)| <= MAX_PAYLOAD
  }

  class Client {
    const server: Server
    var nextRequestId: U64
    var uploadedLayers: set<nat>
    /** Whether the handshake of this connection is complete on the server's side. */
    var handshake: bool
    /** The connection when it was opened, and everything sent and received on it since. */
    ghost const initial: Conn
    ghost var calls: seq<Call>
    ghost var replies: seq<Frame>

    constructor (server: Server)
      requires server.Valid()
      ensures Valid() && this.server == server && nextRequestId == 1 && uploadedLayers == {} && !handshake
      ensures initial == server.Connection(false) && calls == []
    {
      this.server, nextRequestId, uploadedLayers, handshake := server, 1, {}, false;
      initial, calls, replies := server.Connection(false), [], [];
    }

    /** Every layer recorded as uploaded has all its tensors in the server's store, and what was received
        is what the server answers to what was sent. */
    ghost predicate Valid()
      reads this, server.store
    {
      && server.Valid() && AllUploaded(server.store.names, uploadedLayers)
      && !initial.handshake && initial.capabilities == server.capabilities
      && server.Connection(handshake) == After(initial, calls) && replies == Replies(initial, calls)
      && AllSendable(Requests(calls)) && AllSendable(replies)
    }

    /** Sends a request and waits for the response, both as bytes that are split and interrupted in any
        way; None is the refusal of an oversized payload. */
    method Exchange(kind: U16, payload: Bytes, device: Device) returns (response: Option<Frame>, ghost answer: Answer)
      requires Valid()
      modifies this`nextRequestId, this`handshake, this`calls, this`replies
      modifies if kind == LOAD_TENSOR then {server.store} else {}
      ensures Valid() && nextRequestId == (old(nextRequestId) + 1) % MODULUS
      ensures S.Extends(old(server.store.names), old(server.store.tensors), server.store.names, server.store.tensors)
      ensures response.None? <==> |payload| > MAX_PAYLOAD
      ensures response.None? ==>
                && unchanged(server.store) && handshake == old(handshake) && calls == old(calls)
                && replies == old(replies) && answer == Pong
      ensures response.Some? ==>
                var call := Call(Frame(kind, old(nextRequestId), payload), device);
                && Turn(answer, server.Connection(handshake)) == old(Respond(server.Connection(handshake), call))
                && response.value == Reply(answer, call.request, server.capabilities)
                && calls == old(calls) + [call] && replies == old(replies) + [response.value]
    {
      hide Respond, Reply, After, Replies, Requests, PayloadOf, S.Consistent, S.Extends, LayerLoaded, AllSendable;
      hide AllUploaded;
      var id := nextRequestId;
      nextRequestId := (nextRequestId + 1) % MODULUS;
      NothingExtends(server.store.names, server.store.tensors);
      if |payload| > MAX_PAYLOAD {
        return None, Pong;
      }
      ghost var names, tensors := server.store.names, server.store.tensors;
      var request, frame := Frame(kind, id, payload), Frame(kind, id, payload);
      var arrived := Deliver(request);
      frame, handshake, answer := server.Handle(arrived, handshake, device);
      var returned := Deliver(frame);
      ghost var call := Call(request, device);
      UploadedKept(names, tensors, server.store.names, server.store.tensors, uploadedLayers);
      OneMoreCall(initial, calls, call);
      MoreSendable(Requests(calls), request);
      MoreSendable(replies, frame);
      calls, replies := calls + [call], replies + [frame];
      response := Some(returned);
    }

    /** The handshake at the start of a connection. */
    method Connect(backend: U16, device: Device) returns (ok: bool)
      requires Valid() && !handshake
      modifies this`nextRequestId, this`handshake, this`calls, this`replies
      ensures Valid() && ok == handshake && (ok <==> backend <= 1)
    {
      hide AnswerHello, PayloadOf, S.Consistent, EncodeHello, LoadTurn, RunTurn, After, Replies, AllUploaded;
      hide AllSendable;
      var payload := EncodeHello(VERSION, VERSION, backend);
      HelloIsAnswered(VERSION, VERSION, backend);
      var id := nextRequestId;
      var response;
      ghost var answer;
      response, answer := Exchange(HELLO, payload, device);
      var f := response.value;
      CapabilitiesPayload(server.capabilities);
      ok := f.kind == CAPABILITIES && f.requestId == id && |f.payload| >= 4;
    }

    lemma ConsistentStore()
      requires Valid()
      ensures S.Consistent(server.store.Contents(), server.store.issued)
    {}

    /** One tensor. It succeeds exactly when the tensor can be encoded and the server takes it. */
    method UploadTensor(ggufType: U32, dims: seq<U64>, name: Bytes, data: Bytes, device: Device) returns (ok: bool)
      requires Valid() && handshake
      modifies this`nextRequestId, this`handshake, this`calls, this`replies, server.store
      ensures Valid() && handshake
      ensures S.Extends(old(server.store.names), old(server.store.tensors), server.store.names, server.store.tensors)
      ensures var t, before := Described(ggufType, dims, name, data), old(server.store.Contents());
              && (ok <==> Taken(before, server.store.maxBytes, t, device))
              && server.store.Contents() == if ok then S.Accepted(before, t, device.allocation) else before
    {
      hide ValidTensor, EncodeTensor, EncodeTensorLoaded, Valid, S.Consistent, S.RefusalIn, S.RecordOf, S.Accepted;
      hide Hash;
      hide S.Extends, VerifiesTensor, PayloadOf, LoadTurn, RunTurn, AnswerHello, ElementCount;
      var hash := ContentHash64(data);
      ghost var t := Described(ggufType, dims, name, data);
      TensorOrNothing(t);
      NothingExtends(server.store.names, server.store.tensors);
      var id := nextRequestId;
      var payload, built := MakeLoadTensorPayload(ggufType, dims, ElementCount(dims), name, data, hash);
      if !built {
        return false;
      }
      if |payload| <= MAX_PAYLOAD {
        ConsistentStore();
        UploadAnswer(server.Connection(true), server.store.issued, t, device);
      }
      var response;
      ghost var answer;
      response, answer := Exchange(LOAD_TENSOR, payload, device);
      if response.None? {
        return false;
      }
      var f := response.value;
      if f.kind != TENSOR_LOADED || f.requestId != id {
        return false;
      }
      LoadedPayload(answer.stored, server.capabilities);
      ok := VerifiesTensor(f.payload, ggufType, |data|, hash, name);
    }

    /** One tensor of the model file. */
    method UploadNamed(gguf: map<Bytes, Source>, name: Bytes, device: Device) returns (ok: bool)
      requires Valid() && handshake
      modifies this`nextRequestId, this`handshake, this`calls, this`replies, server.store
      ensures Valid() && handshake
      ensures S.Extends(old(server.store.names), old(server.store.tensors), server.store.names, server.store.tensors)
      ensures var after := TensorAfter(old(server.store.Contents()), server.store.maxBytes, Upload(gguf, name), device);
              ok == after.Some? && server.store.Contents() == if ok then after.value else old(server.store.Contents())
    {
      hide Valid, Hash, S.Consistent, S.Accepted, Taken, Described, S.Extends, Each, Narrowed;
      NothingExtends(server.store.names, server.store.tensors);
      if name !in gguf {
        return false;
      }
      var source := gguf[name];
      var kind, bytes := source.ggufType, source.bytes;
      if kind == F32 {
        if |bytes| != ElementCount(source.dims) * 4 {
          return false;
        }
        bytes := HalvesOfFloats(bytes, ElementCount(source.dims));
        kind := F16;
      } else if kind != F16 && kind != Q4_K && kind != Q6_K {
        return false;
      }
      ok := UploadTensor(kind, source.dims, name, bytes, device);
    }

    /** `upload_layer`: all eleven tensors, or an exception; only then is the layer recorded. */
    method UploadLayer(gguf: map<Bytes, Source>, layer: nat, device: Device) returns (ok: bool)
      requires Valid() && handshake
      modifies this`nextRequestId, this`handshake, this`calls, this`replies, this`uploadedLayers, server.store
      ensures Valid() && handshake
      ensures S.Extends(old(server.store.names), old(server.store.tensors), server.store.names, server.store.tensors)
      ensures uploadedLayers == if ok then old(uploadedLayers) + {layer} else old(uploadedLayers)
      ensures var before := old(server.store.Contents());
              var after := LayerAfter(before, server.store.maxBytes, gguf, layer, device, SUFFIXES);
              ok == after.Some? && (ok ==> server.store.Contents() == after.value)
      ensures ok ==> LayerStored(server.store.Contents(), gguf, layer)
    {
      hide LayerAfter, TensorAfter, Upload, FirstStored, LayerStored, AllUploaded, After, Replies, Requests;
      hide AllSendable;
      hide S.Consistent, S.Extends, TensorName;
      ghost var start, most := server.store.Contents(), server.store.maxBytes;
      NothingUploaded(start, most, gguf, layer, device);
      NothingExtends(server.store.names, server.store.tensors);
      for k := 0 to SUFFIXES
        invariant Valid() && handshake && uploadedLayers == old(uploadedLayers)
        invariant S.Extends(old(server.store.names), old(server.store.tensors), server.store.names,
                  server.store.tensors)
        invariant LayerAfter(start, most, gguf, layer, device, k) == Some(server.store.Contents())
        invariant FirstStored(server.store.Contents(), gguf, layer, k)
      {
        ghost var before := server.store.Contents();
        var uploaded := UploadNamed(gguf, TensorName(layer, k), device);
        if !uploaded {
          StoppedAt(start, most, gguf, layer, device, k, before, SUFFIXES);
          return false;
        }
        NextUploaded(start, most, gguf, layer, device, k, before, server.store.Contents());
        ExtendsFurther(old(server.store.names), old(server.store.tensors), before.names, before.tensors,
                       server.store.names, server.store.tensors);
      }
      WholeLayer(server.store.Contents(), gguf, layer, uploadedLayers);
      uploadedLayers := uploadedLayers + {layer};
      return true;
    }

    /** A run over a range. For uploaded layers the server never answers that a tensor is missing: it
        runs them, unless parameters or shapes are refused or the device fails. `answer` is the server's
        answer to the request that was sent. */
    method RunLayerRange(r: Range, device: Device) returns (outcome: RunOutcome, ghost answer: Answer)
      requires Valid() && handshake
      modifies this`nextRequestId, this`handshake, this`calls, this`replies
      ensures Valid() && handshake
      ensures outcome.InvalidRange? <==> r.firstLayer > r.lastLayer
      ensures outcome.NotUploaded? <==>
                r.firstLayer <= r.lastLayer && exists l | r.firstLayer <= l <= r.lastLayer :: l !in uploadedLayers
      ensures outcome.InvalidRange? || outcome.NotUploaded? ==>
                calls == old(calls) && nextRequestId == old(nextRequestId)
      ensures !outcome.InvalidRange? && !outcome.NotUploaded? ==>
                && calls == old(calls) + RunCalls(old(nextRequestId), r, device)
                && nextRequestId == (old(nextRequestId) + 1) % MODULUS
                && IsAnswerTo(server.store.Contents(), r, device, answer)
                && outcome == if Succeeds(server.store.Contents(), r, device) then Output(device.output.value)
                              else RemoteFailure
    {
      hide GoodParameters, EncodeRange, EncodeResult, PayloadOf, LayerLoaded, Hash, UndecodableRange, S.Consistent;
      hide Each, Read, HasWords, LoadTurn, RunTurn, RunAnswer, After, Replies, AllSendable, Runs, Succeeds;
      answer := Pong;
      if r.firstLayer > r.lastLayer {
        return InvalidRange, answer;
      }
      for l := r.firstLayer to r.lastLayer + 1
        invariant forall o | r.firstLayer <= o < l :: o in uploadedLayers
      {
        if l !in uploadedLayers {
          return NotUploaded, answer;
        }
      }
      ghost var sent := Sent(r);
      RunIsAnswered(server.Connection(true), r, device);
      RangeLength(r);
      var id := nextRequestId;
      var payload := MakeRunLayerRangePayload(r);
      var response;
      response, answer := Exchange(RUN_LAYER_RANGE, payload, device);
      if response.None? {
        return RemoteFailure, answer;
      }
      var f := response.value;
      if f.kind != LAYER_RANGE_RESULT || f.requestId != id {
        return RemoteFailure, answer;
      }
      ResultPayload(sent, device, server.capabilities);
      var values := ReadResult(f.payload, r, device.output.value);
      outcome := if values.Some? then Output(values.value) else RemoteFailure;
    }

    /** The checks on a result payload. */
    method ReadResult(p: Bytes, r: Range, ghost output: seq<U16>) returns (values: Option<seq<U16>>)
      ensures VerifiesResult(p, r, output) ==> values == Some(output)
    {
      hide Hash, Each, HasWords, Read, ResultWords;
      Limits();
      if VerifiesResult(p, r, output) {
        ResultHeader(p, r, output);
      }
      if |p| < 32 {
        return None;
      }
      var elements := At(p, 12, 4);
      if At(p, 0, 4) != r.firstLayer || At(p, 4, 4) != r.lastLayer || At(p, 8, 4) != r.position
         || elements != |r.input| || |p| != 32 + elements * 2 {
        return None;
      }
      var v := ReadHalves(p, 32, elements);
      if VerifiesResult(p, r, output) {
        SameWords(p, 32, v, output, 2);
        assert v == output;
      }
      var hash := ContentHash64(Each(v, 2));
      if hash != At(p, 16, 8) {
        return None;
      }
      return Some(v);
    }
  }

  ghost predicate FirstStored(store: S.State, gguf: map<Bytes, Source>, layer: nat, n: nat)
    requires n <= SUFFIXES
  {
    forall k | 0 <= k < n :: StoredFrom(store, gguf, TensorName(layer, k))
  }

  lemma UploadedKept(
    names0: map<Bytes, U32>, tensors0: map<U32, S.Stored>, names: map<Bytes, U32>, tensors: map<U32, S.Stored>,
    layers: set<nat>)
    requires S.Extends(names0, tensors0, names, tensors) && AllUploaded(names0, layers)
    ensures AllUploaded(names, layers)
  {
    hide TensorName;
    forall l | l in layers ensures LayerLoaded(names, l) {
      assert LayerLoaded(names0, l);
    }
  }

  lemma NothingUploaded(store: S.State, maxBytes: nat, gguf: map<Bytes, Source>, layer: nat, device: Device)
    ensures LayerAfter(store, maxBytes, gguf, layer, device, 0) == Some(store) && FirstStored(store, gguf, layer, 0)
  {}

  lemma {:induction false} StoppedAt(
    start: S.State, maxBytes: nat, gguf: map<Bytes, Source>, layer: nat, device: Device, k: nat, before: S.State,
    n: nat)
    requires k < n <= SUFFIXES && LayerAfter(start, maxBytes, gguf, layer, device, k) == Some(before)
    requires TensorAfter(before, maxBytes, Upload(gguf, TensorName(layer, k)), device).None?
    ensures LayerAfter(start, maxBytes, gguf, layer, device, n).None?
  {
    hide TensorAfter, TensorName, Upload;
    if k + 1 < n {
      StoppedAt(start, maxBytes, gguf, layer, device, k, before, n - 1);
    }
  }

  lemma NextUploaded(
    start: S.State, maxBytes: nat, gguf: map<Bytes, Source>, layer: nat, device: Device, k: nat, before: S.State,
    after: S.State)
    requires k < SUFFIXES && LayerAfter(start, maxBytes, gguf, layer, device, k) == Some(before)
    requires TensorAfter(before, maxBytes, Upload(gguf, TensorName(layer, k)), device) == Some(after)
    requires FirstStored(before, gguf, layer, k) && S.Extends(before.names, before.tensors, after.names, after.tensors)
    ensures LayerAfter(start, maxBytes, gguf, layer, device, k + 1) == Some(after)
    ensures FirstStored(after, gguf, layer, k + 1)
  {
    hide TensorName, FormOf, S.Accepted, S.Extends, Taken;
    var t := Upload(gguf, TensorName(layer, k)).value;
    UploadIsNamed(gguf, TensorName(layer, k));
    AcceptedForm(before, maxBytes, t, device);
    hide Upload;
    forall j | 0 <= j < k + 1 ensures StoredFrom(after, gguf, TensorName(layer, j)) {
      if j < k {
        assert StoredFrom(before, gguf, TensorName(layer, j));
        FormKept(before, after, TensorName(layer, j));
      }
    }
  }

  lemma UploadIsNamed(gguf: map<Bytes, Source>, name: Bytes)
    requires Upload(gguf, name).Some?
    ensures Upload(gguf, name).value.name == name && name in gguf && Upload(gguf, name).value.dims == gguf[name].dims
  {
    hide Narrowed, Each, Hash, ElementCount;
  }

  lemma WholeLayer(store: S.State, gguf: map<Bytes, Source>, layer: nat, layers: set<nat>)
    requires FirstStored(store, gguf, layer, SUFFIXES) && AllUploaded(store.names, layers)
    ensures LayerStored(store, gguf, layer) && AllUploaded(store.names, layers + {layer})
  {
    hide TensorName, Upload;
    forall k | 0 <= k < SUFFIXES ensures TensorName(layer, k) in store.names {
      assert StoredFrom(store, gguf, TensorName(layer, k));
    }
  }

  lemma {:induction false} LoadStopped(
    start: S.State, maxBytes: nat, gguf: map<Bytes, Source>, l: nat, layers: nat, offloaded: set<nat>, device: Device)
    requires l <= layers && LoadAfter(start, maxBytes, gguf, l, offloaded, device).None?
    ensures LoadAfter(start, maxBytes, gguf, layers, offloaded, device).None?
  {
    hide LayerAfter;
    if l < layers {
      LoadStopped(start, maxBytes, gguf, l, layers - 1, offloaded, device);
    }
  }

  lemma StillStored(before: S.State, after: S.State, gguf: map<Bytes, Source>, l: nat, offloaded: set<nat>)
    requires AllStored(before, gguf, l, offloaded) && LayerStored(after, gguf, l)
    requires S.Extends(before.names, before.tensors, after.names, after.tensors)
    ensures AllStored(after, gguf, l + 1, offloaded)
  {
    hide LayerStored, S.Extends;
    forall o | o in offloaded && o < l + 1 ensures LayerStored(after, gguf, o) {
      if o < l {
        LayerKept(before, after, gguf, o);
      }
    }
  }

  /** The server's answer to a run over uploaded layers. */
  lemma RunIsAnswered(c: Conn, r: Range, device: Device)
    requires forall l | r.firstLayer <= l <= r.lastLayer :: LayerLoaded(c.store.names, l)
    ensures |EncodeRange(Sent(r))| <= MAX_PAYLOAD ==>
              var turn := RunTurn(c, EncodeRange(Sent(r)), device);
              && turn.after == c && IsAnswerTo(c.store, r, device, turn.answer)
              && if Runs(c.store, r, device)
                 then DeviceRuns(r, device) && turn.answer == LayerResult(Sent(r), device.output.value, device.gpuTime)
                 else turn.answer.Failure?
    ensures Succeeds(c.store, r, device) <==> Runs(c.store, r, device) && |EncodeRange(r)| <= MAX_PAYLOAD
  {
    RangeLength(r);
    hide EncodeRange, GoodParameters, LayerLoaded, LayerFits, Hash, Each;
    if |r.input| >= 0x1_0000_0000 {
      return;
    }
    RangeOrNothing(r, Sent(r));
    SameParametersSent(r);
    LoadedRangeFault(c.store, DimsOf(r), r.firstLayer, r.lastLayer);
    if GoodParameters(r, |r.input|) {
      RunTurnOf(c, Sent(r), device);
    } else {
      UndecodableRun(c, EncodeRange(Sent(r)), device);
    }
    hide RunTurn, RangeFault;
  }

  /** Two bytes for each element: longer vectors do not fit a frame. */
  lemma RangeLength(r: Range)
    ensures |EncodeRange(Sent(r))| == |EncodeRange(r)| == RANGE_FIXED + |r.input| * 2
    ensures |EncodeRange(r)| <= MAX_PAYLOAD ==> |r.input| < 0x1_0000_0000
  {}

  lemma SameParametersSent(r: Range)
    ensures GoodParameters(Sent(r), |r.input|) == GoodParameters(r, |r.input|) && DimsOf(Sent(r)) == DimsOf(r)
  {}

  /** The server's answer to an upload: it takes the tensor or fails, and the record it answers passes
      the client's checks. */
  lemma UploadAnswer(c: Conn, issued: seq<U32>, t: Tensor, device: Device)
    requires 1 <= |t.dims| <= 8 && 1 <= |t.name| <= 1024 && S.Consistent(c.store, issued)
    requires |EncodeTensor(t)| <= MAX_PAYLOAD && t.contentHash == Hash(t.data)
    ensures var turn := LoadTurn(c, EncodeTensor(t), device);
            if Taken(c.store, c.maxBytes, t, device)
            then && turn.answer.TensorLoaded? && turn.after == c.(store := S.Accepted(c.store, t, device.allocation))
                 && VerifiesTensor(EncodeTensorLoaded(turn.answer.stored), t.ggufType, |t.data|, t.contentHash, t.name)
            else turn.answer.Failure? && turn.after == c
  {
    hide ValidTensor, EncodeTensor, LoadTurn, S.Accepted, S.RecordOf, S.RefusalIn, Hash, EncodeTensorLoaded;
    hide VerifiesTensor;
    hide S.Consistent, Undecodable;
    TensorOrNothing(t);
    if !ValidTensor(t) {
      UndecodableTurn(c, EncodeTensor(t), device);
    } else {
      LoadTurnOf(c, t, device);
      if Taken(c.store, c.maxBytes, t, device) {
        S.AcceptedRecord(c.store, issued, c.maxBytes, t, device.memory, device.allocation);
        TensorLoadedVerifies(S.RecordOf(c.store, t, device.allocation), t.ggufType, |t.data|, t.contentHash, t.name);
      }
    }
  }

  lemma CapabilitiesPayload(capabilities: Bytes)
    ensures PayloadOf(Capabilities, capabilities) == capabilities
  {}

  lemma LoadedPayload(s: S.Stored, capabilities: Bytes)
    ensures PayloadOf(TensorLoaded(s), capabilities) == EncodeTensorLoaded(s)
  {
    hide EncodeTensorLoaded;
  }

  lemma ResultHeader(p: Bytes, r: Range, output: seq<U16>)
    requires VerifiesResult(p, r, output)
    ensures |p| >= 32 && At(p, 0, 4) == r.firstLayer && At(p, 4, 4) == r.lastLayer && At(p, 8, 4) == r.position
    ensures At(p, 12, 4) == |output|
  {
    hide Read, Hash, Each;
    var w := ResultWords(r, output);
    WordOf(p, 0, w, 0, 4);
    WordOf(p, 0, w, 1, 4);
    WordOf(p, 0, w, 2, 4);
    WordOf(p, 0, w, 3, 4);
  }

  lemma ResultPayload(r: Range, device: Device, capabilities: Bytes)
    requires |r.input| < 0x1_0000_0000
    ensures device.output.Some? && |device.output.value| == |r.input| ==>
              VerifiesResult(PayloadOf(LayerResult(r, device.output.value, device.gpuTime), capabilities), r,
                             device.output.value)
  {
    Limits();
    hide EncodeResult, VerifiesResult, Limit;
    if device.output.Some? && |device.output.value| == |r.input| {
      ResultVerifies(r, device.output.value, device.gpuTime);
    }
  }

  /** A payload of the client stands for its request or for none. */
  lemma RangeOrNothing(r: Range, sent: Range)
    requires |r.input| < 0x1_0000_0000 && sent == r.(inputHash := HalvesHash(r.input))
    ensures if GoodParameters(r, |r.input|) then ValidRange(sent) else UndecodableRange(EncodeRange(sent))
  {
    Limits();
    hide Hash, Each, EncodeRange, Limit, RangeWords;
    if !GoodParameters(r, |r.input|) {
      forall u | ValidRange(u) ensures EncodeRange(u) != EncodeRange(sent) {
        if EncodeRange(u) == EncodeRange(sent) {
          EncodeRangeInjective(u, sent);
        }
      }
    }
  }

  /** A payload of the client stands for its tensor or for none. */
  lemma TensorOrNothing(t: Tensor)
    ensures WithinLimits(t) ==> ValidTensor(t) || Undecodable(EncodeTensor(t))
    ensures ValidTensor(t) ==> WithinLimits(t)
    ensures |t.data| > MAX_PAYLOAD ==> |EncodeTensor(t)| > MAX_PAYLOAD
  {
    hide TensorFixed, Each, Hash;
    if WithinLimits(t) && !ValidTensor(t) {
      forall u | ValidTensor(u) ensures EncodeTensor(u) != EncodeTensor(t) {
        if EncodeTensor(u) == EncodeTensor(t) {
          EncodeTensorInjective(t, u);
        }
      }
    }
  }

  // ---- One forward pass ----

  /** The hidden state behind the ranges run so far. */
  function Latest(request: Range, ran: seq<Ran>): seq<U16> {
    if ran == [] then request.input
    else if ran[|ran| - 1].outcome.Output? then ran[|ran| - 1].outcome.values
    else []
  }

  /** Part of a pass: the requests of the remote ranges, each with the answer and the outcome. */
  datatype Ran = Ran(request: Range, answer: Answer, outcome: RunOutcome)

  /** What the server answers to a request over uploaded layers. */
  ghost predicate IsAnswerTo(store: S.State, r: Range, device: Device, answer: Answer) {
    && answer != Failure(NotLoaded)
    && (GoodParameters(r, |r.input|) && |EncodeRange(r)| <= MAX_PAYLOAD ==> answer == RunAnswer(store, Sent(r), device))
  }

  /** Range `k` of the pass: it carries what the local layers made of the output before it, is answered
      by the server, and gives the device's output exactly when nothing but a missing layer could not
      prevent it. */
  ghost predicate RanRight(
    store: S.State, runs: seq<(nat, nat)>, request: Range, devices: nat -> Device, locals: (nat, seq<U16>) -> seq<U16>,
    ran: seq<Ran>, k: nat)
    requires k < |ran| <= |runs|
  {
    var r := ran[k].request;
    && r.firstLayer == runs[k].0 && r.lastLayer == runs[k].1
    && r == request.(firstLayer := r.firstLayer, lastLayer := r.lastLayer,
        input := locals(k, Latest(request, ran[..k])))
    && IsAnswerTo(store, r, devices(k), ran[k].answer)
    && ran[k].outcome == (if Succeeds(store, r, devices(k)) then Output(devices(k).output.value) else RemoteFailure)
    && (k > 0 ==> ran[k - 1].outcome.Output?)
  }

  /** A pass runs all its ranges, or stops at the first that fails. */
  ghost predicate PassIsRight(
    store: S.State, runs: seq<(nat, nat)>, request: Range, devices: nat -> Device, locals: (nat, seq<U16>) -> seq<U16>,
    ran: seq<Ran>)
  {
    && |ran| <= |runs| && (forall k | 0 <= k < |ran| :: RanRight(store, runs, request, devices, locals, ran, k))
    && (|ran| < |runs| ==> ran != [] && ran[|ran| - 1].outcome.RemoteFailure?)
  }

  /** The id `k` requests later. */
  function NthId(id: U64, k: nat): U64 {
    (id + k) % MODULUS
  }

  lemma NextId(id: U64, k: nat)
    ensures NthId(id, 0) == id && NthId(id, k + 1) == (NthId(id, k) + 1) % MODULUS
  {}

  lemma LatestIs(request: Range, ran: seq<Ran>, next: Ran)
    ensures Latest(request, []) == request.input
    ensures next.outcome.Output? ==> Latest(request, ran + [next]) == next.outcome.values
  {}

  /** What a pass sends. */
  function PassCalls(id: U64, ran: seq<Ran>, devices: nat -> Device): seq<Call> {
    if ran == [] then []
    else
      var m := |ran| - 1;
      PassCalls(id, ran[..m], devices) + RunCalls(NthId(id, m), ran[m].request, devices(m))
  }

  /** The remote ranges of one forward pass: `locals` is what the local layers before each range make of
      the hidden state. After a successful load no range is refused because a layer was not uploaded, on
      either side: each gives the device's output, unless parameters or shapes are refused or the
      device fails. */
  method OffloadedPass(client: Client, layers: U32, offloaded: set<nat>, request: Range, devices: nat -> Device,
                       locals: (nat, seq<U16>) -> seq<U16>)
    returns (ok: bool, x: seq<U16>, ghost ran: seq<Ran>)
    requires client.Valid() && (offloaded != {} ==> client.handshake)
    requires forall l | l in offloaded && l < layers :: l in client.uploadedLayers
    modifies client`nextRequestId, client`handshake, client`calls, client`replies
    ensures client.Valid() && client.handshake == old(client.handshake)
    ensures var runs := OffloadRuns(offloaded, layers, 0);
            PassIsRight(client.server.store.Contents(), runs, request, devices, locals, ran)
    ensures client.calls == old(client.calls) + PassCalls(old(client.nextRequestId), ran, devices)
    ensures ok <==> forall k | 0 <= k < |ran| :: ran[k].outcome.Output?
    ensures ok ==> |ran| == |OffloadRuns(offloaded, layers, 0)|
    ensures ok ==> x == Latest(request, ran)
  {
    hide Client.Valid, EncodeRange, Succeeds, IsAnswerTo, S.Consistent, RanRight, Respond, OffloadRuns, AllUploaded;
    hide PassCalls, RunCalls, NthId, Latest;
    ran, x, ok := [], request.input, true;
    var runs := OffloadRuns(offloaded, layers, 0);
    RunsAreMaximal(offloaded, layers, 0);
    NoPassCalls(client.nextRequestId, devices, client.calls);
    NextId(client.nextRequestId, 0);
    LatestIs(request, [], Ran(request, Pong, RemoteFailure));
    ghost var store := client.server.store.Contents();
    for k := 0 to |runs|
      invariant client.Valid() && client.handshake == old(client.handshake) && |ran| == k && ok
      invariant client.nextRequestId == NthId(old(client.nextRequestId), k)
      invariant client.calls == old(client.calls) + PassCalls(old(client.nextRequestId), ran, devices)
      invariant x == Latest(request, ran) && forall j | 0 <= j < k :: ran[j].outcome.Output?
      invariant forall j | 0 <= j < k :: RanRight(store, runs, request, devices, locals, ran, j)
    {
      assert IsMaximalRun(offloaded, layers, runs[k]) && runs[k].0 in offloaded;
      hide IsMaximalRun;
      var r := request.(firstLayer := runs[k].0, lastLayer := runs[k].1, input := locals(k, x));
      var outcome;
      ghost var answer;
      outcome, answer := client.RunLayerRange(r, devices(k));
      RanMore(store, runs, request, devices, locals, ran, Ran(r, answer, outcome));
      NextId(old(client.nextRequestId), k);
      LatestIs(request, ran, Ran(r, answer, outcome));
      PassCallsMore(old(client.nextRequestId), ran, Ran(r, answer, outcome), devices);
      ran := ran + [Ran(r, answer, outcome)];
      if !outcome.Output? {
        assert !ran[k].outcome.Output?;
        return false, x, ran;
      }
      x := outcome.values;
    }
  }

  lemma NoPassCalls(id: U64, devices: nat -> Device, calls: seq<Call>)
    ensures calls == calls + PassCalls(id, [], devices)
  {}

  lemma PassCallsMore(id: U64, ran: seq<Ran>, next: Ran, devices: nat -> Device)
    ensures PassCalls(id, ran + [next], devices)
            == PassCalls(id, ran, devices) + RunCalls(NthId(id, |ran|), next.request, devices(|ran|))
  {
    hide RunCalls;
    assert (ran + [next])[..|ran|] == ran;
  }

  lemma RanMore(
    store: S.State, runs: seq<(nat, nat)>, request: Range, devices: nat -> Device, locals: (nat, seq<U16>) -> seq<U16>,
    ran: seq<Ran>, next: Ran)
    requires |ran| < |runs| && forall j | 0 <= j < |ran| :: RanRight(store, runs, request, devices, locals, ran, j)
    requires ran != [] ==> ran[|ran| - 1].outcome.Output?
    requires var run, r, device := runs[|ran|], next.request, devices(|ran|);
             && r == request.(firstLayer := r.firstLayer, lastLayer := r.lastLayer,
                              input := locals(|ran|, Latest(request, ran)))
             && r.firstLayer == run.0 && r.lastLayer == run.1 && IsAnswerTo(store, r, device, next.answer)
             && next.outcome == if Succeeds(store, r, device) then Output(device.output.value) else RemoteFailure
    ensures forall j | 0 <= j <= |ran| :: RanRight(store, runs, request, devices, locals, ran + [next], j)
  {
    hide Succeeds, IsAnswerTo, Latest;
    var more := ran + [next];
    forall j | 0 <= j <= |ran| ensures RanRight(store, runs, request, devices, locals, more, j) {
      if j < |ran| {
        assert RanRight(store, runs, request, devices, locals, ran, j) && more[..j] == ran[..j];
      } else {
        assert more[..j] == ran;
      }
    }
  }

  lemma NarrowIs(bits: U32, h: U16)
    requires H.IsRounded(bits, h)
    ensures Narrow(bits) == h
  {
    hide H.RoundsTo, H.FloatMagnitude;
    forall g: U16 | H.IsRounded(bits, g) ensures g == h {
      if bits % 0x8000_0000 < H.FLOAT_INFINITY {
        var m := H.FloatMagnitude(bits % 0x8000_0000);
        H.RoundingIsMonotone(m, m, g % 0x8000, h % 0x8000);
        H.RoundingIsMonotone(m, m, h % 0x8000, g % 0x8000);
      }
    }
  }

  /** The halves of an array of floats, rounded one by one. */
  method HalvesOfFloats(bytes: Bytes, count: nat) returns (half: Bytes)
    requires |bytes| == count * 4
    ensures |half| == count * 2 && half == Each(Narrowed(bytes, count), 2)
    ensures forall k | 0 <= k < count :: RoundedAt(bytes, half, k)
  {
    hide H.IsRounded, Read, Write, Each, Narrow;
    Limits();
    half := [];
    NoneOfEach(Narrowed(bytes, count), 2);
    for k := 0 to count
      invariant |half| == k * 2 && forall j | 0 <= j < k :: RoundedAt(bytes, half, j)
      invariant half == Each(Narrowed(bytes, count)[..k], 2)
    {
      var h := H.FloatToHalfBits(FloatAt(bytes, k));
      NarrowIs(FloatAt(bytes, k), h);
      EachMore(Narrowed(bytes, count), k, 2);
      ghost var before := half;
      half := half + Write(h, 2);
      forall j | 0 <= j < k + 1 ensures RoundedAt(bytes, half, j) {
        if j < k {
          assert RoundedAt(bytes, before, j);
          assert half[j * 2..j * 2 + 2] == before[j * 2..j * 2 + 2];
        } else {
          assert half[k * 2..k * 2 + 2] == Write(h, 2);
          ReadWrite(h, 2);
        }
      }
    }
    assert Narrowed(bytes, count)[..count] == Narrowed(bytes, count);
  }

  function FloatAt(bytes: Bytes, k: nat): (f: U32)
    requires k * 4 + 4 <= |bytes|
  {
    Limits();
    At(bytes, k * 4, 4)
  }

  ghost predicate RoundedAt(bytes: Bytes, half: Bytes, k: nat) {
    && k * 4 + 4 <= |bytes| && k * 2 + 2 <= |half| && At(half, k * 2, 2) < 0x1_0000
    && H.IsRounded(FloatAt(bytes, k), At(half, k * 2, 2))
  }
}
