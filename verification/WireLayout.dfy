/** What stands where on the wire, in numbers. */
module WireLayout {
  import opened Words
  import opened Wire
  import opened Framing
  import opened Codecs
  import opened Remote
  import LayerTensors
  import S = TensorStore

  function FourByteWord(b0: nat, b1: nat, b2: nat, b3: nat): nat {
    b0 + 0x100 * b1 + 0x1_0000 * b2 + 0x100_0000 * b3
  }

  /** Words are read low byte first. */
  lemma LittleEndian(b: Bytes, o: nat)
    ensures o + 2 <= |b| ==> At(b, o, 2) == b[o] as int + 0x100 * b[o + 1] as int
    ensures o + 4 <= |b| ==> At(b, o, 4) == FourByteWord(b[o], b[o + 1], b[o + 2], b[o + 3])
    ensures o + 8 <= |b| ==> At(b, o, 8) == At(b, o, 4) + 0x1_0000_0000 * At(b, o + 4, 4)
  {
    if o + 8 <= |b| {
      FourBytes(b, o);
      FourBytes(b, o + 4);
      EightBytes(b, o);
    } else if o + 4 <= |b| {
      FourBytes(b, o);
    }
    if o + 2 <= |b| {
      TwoBytes(b, o);
    }
    hide Read;
  }

  lemma FirstByteOf(b: Bytes)
    requires b != []
    ensures Read(b) == b[0] + 0x100 * Read(b[1..]) && Read([]) == 0
  {}

  lemma TwoBytes(b: Bytes, o: nat)
    requires o + 2 <= |b|
    ensures At(b, o, 2) == b[o] as int + 0x100 * b[o + 1] as int
  {
    var w := b[o..o + 2];
    FirstByteOf(w);
    FirstByteOf(w[1..]);
    hide Read;
    assert w[1..][1..] == [];
  }

  lemma FourBytes(b: Bytes, o: nat)
    requires o + 4 <= |b|
    ensures At(b, o, 4) == FourByteWord(b[o], b[o + 1], b[o + 2], b[o + 3])
  {
    var w := b[o..o + 4];
    FirstByteOf(w);
    FirstByteOf(w[1..]);
    hide Read;
    assert w[1..][1..] == b[o + 2..o + 4];
    TwoBytes(b, o + 2);
  }

  lemma EightBytes(b: Bytes, o: nat)
    requires o + 8 <= |b|
    ensures At(b, o, 8) == At(b, o, 4) + 0x1_0000_0000 * At(b, o + 4, 4)
  {
    var w := b[o..o + 8];
    FirstByteOf(w);
    FirstByteOf(w[1..]);
    FirstByteOf(w[2..]);
    FirstByteOf(w[3..]);
    FourBytes(b, o);
    hide Read;
    assert w[1..][1..] == w[2..] && w[2..][1..] == w[3..] && w[3..][1..] == b[o + 4..o + 8];
  }

  /** A frame: the letters CTL1, version, kind, request id and length of the payload, then the payload. */
  lemma FrameLayout(f: Frame)
    requires |f.payload| <= 67108864
    ensures Sendable(f)
    ensures var b := Encode(f);
            && |b| == 24 + |f.payload| && b[0..4] == [0x43, 0x54, 0x4c, 0x31] && b[4..6] == [1, 0]
            && At(b, 6, 2) == f.kind && At(b, 8, 8) == f.requestId && At(b, 16, 8) == |f.payload|
            && b[24..] == f.payload
  {
    var b := Encode(f);
    assert b[..HEADER_BYTES] == Header(f);
    FieldsOfHeader(f, b);
    FirstFields(f);
    hide Header, Read;
    assert b[0..4] == Header(f)[0..4] && b[4..6] == Header(f)[4..6];
  }

  /** Longer payloads are refused. */
  lemma PayloadLimit(f: Frame, t: Tensor)
    ensures Sendable(f) <==> |f.payload| <= 67108864
    ensures ValidTensor(t) ==> 1 <= |t.dims| <= 8 && 1 <= |t.name| <= 1024 && 1 <= |t.data| <= 67108864
  {
    hide Hash;
  }

  lemma FirstFields(f: Frame)
    ensures Header(f)[0..4] == [0x43, 0x54, 0x4c, 0x31] && Header(f)[4..6] == [1, 0]
  {
    MagicBytes();
    hide Write;
  }

  lemma MagicBytes()
    ensures Write(MAGIC, 4) == [0x43, 0x54, 0x4c, 0x31] && Write(VERSION, 2) == [1, 0]
  {
    assert Write(0x31, 1) == [0x31] && Write(0x314c, 2) == [0x4c, 0x31] && Write(0x314c54, 3) == [0x54, 0x4c, 0x31];
  }

  /** The request of a run. */
  lemma RangeLayout(r: Range)
    requires |r.input| < 0x1_0000_0000
    ensures var b := EncodeRange(r);
            && |b| == 52 + 2 * |r.input|
            && At(b, 0, 4) == r.firstLayer && At(b, 4, 4) == r.lastLayer && At(b, 8, 4) == r.position
            && At(b, 12, 4) == r.maxContext && At(b, 16, 4) == |r.input| && At(b, 20, 4) == r.ffnElements
            && At(b, 24, 4) == r.heads && At(b, 28, 4) == r.kvHeads && At(b, 32, 4) == r.headDim
            && At(b, 36, 4) == r.epsilon && At(b, 40, 4) == r.theta && At(b, 44, 8) == r.inputHash
  {
    Limits();
    hide EncodeRange, Read, Limit, HasWords;
    var b, w := EncodeRange(r), RangeWords(r);
    RangeFieldsAreEncoding(r, b);
    WordOf(b, 0, w, 0, 4);
    WordOf(b, 0, w, 1, 4);
    WordOf(b, 0, w, 2, 4);
    WordOf(b, 0, w, 3, 4);
    WordOf(b, 0, w, 4, 4);
    WordOf(b, 0, w, 5, 4);
    WordOf(b, 0, w, 6, 4);
    WordOf(b, 0, w, 7, 4);
    WordOf(b, 0, w, 8, 4);
    WordOf(b, 0, w, 9, 4);
    WordOf(b, 0, w, 10, 4);
  }

  lemma RangeInputLayout(r: Range, k: nat)
    requires k < |r.input| < 0x1_0000_0000
    ensures 52 + 2 * k + 2 <= |EncodeRange(r)| && At(EncodeRange(r), 52 + 2 * k, 2) == r.input[k]
  {
    Limits();
    hide EncodeRange, Read, Limit, HasWords, RangeWords;
    RangeFieldsAreEncoding(r, EncodeRange(r));
    WordOf(EncodeRange(r), 52, r.input, k, 2);
  }

  /** A tensor. */
  lemma TensorLayout(t: Tensor)
    requires 1 <= |t.dims| <= 8 && 1 <= |t.name| <= 1024 && |t.data| <= 67108864
    ensures var b, n := EncodeTensor(t), 36 + 8 * |t.dims|;
            && |b| == n + |t.name| + |t.data|
            && At(b, 0, 4) == t.ggufType && At(b, 4, 2) == |t.dims| && At(b, 6, 2) == 0 && At(b, 8, 8) == t.elementCount
            && At(b, 16, 8) == |t.data| && At(b, 24, 8) == t.contentHash && At(b, 32, 2) == |t.name|
            && At(b, 34, 2) == 0 && b[n..n + |t.name|] == t.name && b[n + |t.name|..] == t.data
  {
    hide EncodeTensor, Read, HasWords;
    TensorFieldsAreEncoding(t, EncodeTensor(t));
  }

  lemma TensorDimensionLayout(t: Tensor, k: nat)
    requires 1 <= |t.dims| <= 8 && 1 <= |t.name| <= 1024 && |t.data| <= 67108864 && k < |t.dims|
    ensures 36 + 8 * k + 8 <= |EncodeTensor(t)| && At(EncodeTensor(t), 36 + 8 * k, 8) == t.dims[k]
  {
    hide EncodeTensor, Read, HasWords, FixedFields;
    TensorFieldsAreEncoding(t, EncodeTensor(t));
    WordOf(EncodeTensor(t), 36, t.dims, k, 8);
  }

  /** The record of a stored tensor. */
  lemma LoadedLayout(s: S.Stored)
    requires |s.name| < 0x1_0000 && |s.data| < 0x1_0000_0000_0000_0000
    ensures var b := EncodeTensorLoaded(s);
            && |b| == 36 + |s.name| && At(b, 0, 4) == s.id && At(b, 4, 4) == s.ggufType && At(b, 8, 8) == |s.data|
            && At(b, 16, 8) == s.allocationBytes && At(b, 24, 8) == s.contentHash && At(b, 32, 2) == |s.name|
            && At(b, 34, 2) == 0 && b[36..] == s.name
  {
    hide Write, Read;
    Limits();
    var b := EncodeTensorLoaded(s);
    LoadedParts(Write(s.id, 4), Write(s.ggufType, 4), Write(|s.data|, 8), Write(s.allocationBytes, 8),
                Write(s.contentHash, 8), Write(|s.name|, 2), Write(0, 2), s.name);
    FieldIs(b, 0, 4, s.id);
    FieldIs(b, 4, 4, s.ggufType);
    FieldIs(b, 8, 8, |s.data|);
    FieldIs(b, 16, 8, s.allocationBytes);
    FieldIs(b, 24, 8, s.contentHash);
    FieldIs(b, 32, 2, |s.name|);
    FieldIs(b, 34, 2, 0);
  }

  lemma LoadedParts(
    id: Bytes, kind: Bytes, n: Bytes, allocation: Bytes, hash: Bytes, length: Bytes, zero: Bytes, name: Bytes)
    requires |id| == |kind| == 4 && |n| == |allocation| == |hash| == 8 && |length| == |zero| == 2
    ensures var b := id + kind + n + allocation + hash + length + zero + name;
            && |b| == 36 + |name| && b[0..4] == id && b[4..8] == kind && b[8..16] == n && b[16..24] == allocation
            && b[24..32] == hash && b[32..34] == length && b[34..36] == zero && b[36..] == name
  {}

  /** The result of a run. */
  lemma ResultLayout(r: Range, output: seq<U16>, gpuTime: U64)
    requires |output| < 0x1_0000_0000
    ensures var b := EncodeResult(r, output, gpuTime);
            && |b| == 32 + 2 * |output| && At(b, 0, 4) == r.firstLayer && At(b, 4, 4) == r.lastLayer
            && At(b, 8, 4) == r.position && At(b, 12, 4) == |output| && At(b, 16, 8) == Hash(b[32..])
            && At(b, 24, 8) == gpuTime
  {
    Limits();
    var b, w := EncodeResult(r, output, gpuTime), ResultWords(r, output);
    assert AllFit(w, 4) by { hide Limit; }
    hide Write, Read, Each, Limit, HasWords, ResultWords, Hash;
    ResultParts(Each(w, 4), Write(HalvesHash(output), 8), Write(gpuTime, 8), Each(output, 2));
    ResultTime(Each(w, 4), Write(HalvesHash(output), 8), Write(gpuTime, 8), Each(output, 2));
    EachIsRead(b, 0, w, 4);
    WordOf(b, 0, w, 0, 4);
    WordOf(b, 0, w, 1, 4);
    WordOf(b, 0, w, 2, 4);
    WordOf(b, 0, w, 3, 4);
    FieldIs(b, 16, 8, HalvesHash(output));
    FieldIs(b, 24, 8, gpuTime);
    ResultWordsAre(r, output);
  }

  lemma ResultWordsAre(r: Range, output: seq<U16>)
    ensures var w := ResultWords(r, output);
            w[0] == r.firstLayer && w[1] == r.lastLayer && w[2] == r.position && w[3] == |output|
  {}

  lemma ResultTime(words: Bytes, hash: Bytes, time: Bytes, output: Bytes)
    requires |words| == 16 && |hash| == 8 && |time| == 8
    ensures var p := words + hash + time + output; p[24..32] == time && p[32..] == output
  {}

  /** The handshake. */
  lemma HelloLayout(minimum: U16, maximum: U16, backend: U16)
    ensures var b := EncodeHello(minimum, maximum, backend);
            At(b, 0, 2) == minimum && At(b, 2, 2) == maximum && At(b, 4, 2) == backend && At(b, 6, 2) == 0
  {
    Limits();
    var b, zero := EncodeHello(minimum, maximum, backend), Write(0, 2);
    assert b[6..8] == zero;
    hide Write, Read;
    assert b[0..2] == Write(minimum, 2) && b[2..4] == Write(maximum, 2);
    assert b[4..6] == Write(backend, 2);
    FieldIs(b, 0, 2, minimum);
    FieldIs(b, 2, 2, maximum);
    FieldIs(b, 4, 2, backend);
    FieldIs(b, 6, 2, 0);
  }

  // ---- Requests and responses by number ----

  /** The kinds of responses, and which requests they answer. */
  lemma KindsInNumbers(c: Conn, request: Frame, device: Device)
    ensures var answer := Respond(c, Call(request, device)).answer;
            var kind := Reply(answer, request, c.capabilities).kind;
            && (kind == 2 <==> request.kind == 1) && (kind == 4 ==> request.kind == 3)
            && (kind == 6 ==> request.kind == 5 && c.handshake) && (kind == 14 ==> request.kind == 13 && c.handshake)
            && kind in {2, 4, 6, 14, 255}
            && (request.kind == 1 ==> Reply(answer, request, c.capabilities).payload == Ascii("citlali-android-pong"))
  {
    RespondFacts(c, Call(request, device));
    LoadAnswers(c, request.payload, device);
    RunAnswers(c, request.payload, device);
    hide LoadTurn, RunTurn, EncodeTensorLoaded, EncodeResult, ErrorText, Ascii;
  }

  lemma LoadAnswers(c: Conn, payload: Bytes, device: Device)
    ensures var answer := LoadTurn(c, payload, device).answer; answer.TensorLoaded? || answer.Failure?
  {
    hide S.RefusalIn, S.RecordOf, S.Accepted, ValidTensor, EncodeTensor, Undecodable;
  }

  lemma RunAnswers(c: Conn, payload: Bytes, device: Device)
    ensures var answer := RunTurn(c, payload, device).answer; answer.LayerResult? || answer.Failure?
  {
    hide ValidRange, EncodeRange, UndecodableRange, LayerTensors.RangeFault;
  }

  /** A float that is positive, infinite or not a number with a clear sign bit. */
  predicate Positive(bits: U32) {
    0 < bits < 0x8000_0000
  }

  /** A run request with good parameters and stored tensors is run exactly when its head dimension is an
      even number from 2 to 256. */
  lemma EvenHeadsRun(c: Conn, id: U64, r: Range, device: Device)
    requires c.handshake && r.firstLayer <= r.lastLayer && r.position < r.maxContext && 0 < |r.input| < 0x1_0000_0000
    requires r.ffnElements > 0 && r.heads > 0 && r.kvHeads > 0 && r.headDim > 0 && r.heads % r.kvHeads == 0
    requires Positive(r.epsilon) && Positive(r.theta) && r.inputHash == HalvesHash(r.input)
    requires LayerTensors.RangeFault(c.store, DimsOf(r), r.firstLayer, r.lastLayer).None?
    requires device.output.Some? && |device.output.value| == |r.input|
    ensures var answer := Respond(c, Call(Frame(13, id, EncodeRange(r)), device)).answer;
            if r.headDim % 2 == 0 && 2 <= r.headDim <= 256
            then answer == LayerResult(r, device.output.value, device.gpuTime)
            else answer.Failure?
  {
    GoodRangeIsValid(r);
    RangeIsAnswered(c, id, r, device);
    hide Respond, EncodeRange, LayerTensors.RangeFault, HalvesHash, ValidRange, DimsOf, Positive;
  }

  lemma RangeIsAnswered(c: Conn, id: U64, r: Range, device: Device)
    requires c.handshake && ValidRange(r)
    ensures Respond(c, Call(Frame(13, id, EncodeRange(r)), device)).answer == RunAnswer(c.store, r, device)
  {
    RunTurnOf(c, r, device);
    hide RunTurn, RunAnswer, EncodeRange, ValidRange;
  }

  lemma GoodRangeIsValid(r: Range)
    requires r.firstLayer <= r.lastLayer && r.position < r.maxContext && 0 < |r.input| < 0x1_0000_0000
    requires r.ffnElements > 0 && r.heads > 0 && r.kvHeads > 0 && r.headDim > 0 && r.heads % r.kvHeads == 0
    requires Positive(r.epsilon) && Positive(r.theta) && r.inputHash == HalvesHash(r.input)
    ensures ValidRange(r)
  {
    Limits();
    hide Hash, Each, Limit;
  }
}
