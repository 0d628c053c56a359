/** The payloads of LOAD_TENSOR and RUN_LAYER_RANGE: how the client writes them and how the server
    reads them. */
module Codecs {
  import opened Words
  import opened Wire
  import Framing

  const MAX_U64 := 0xffff_ffff_ffff_ffff

  datatype DecodeError =
    | TooShort | ReservedNotZero | BadRank | BadName | BadDataLength | LengthMismatch | BadDimensions
    | CountMismatch | HashMismatch | BadParameters

  datatype Result<+T> = Ok(value: T) | Err(error: DecodeError)

  // ---- Arrays of words ----

  /** Words of `n` bytes one after the other. */
  function Each(vs: seq<nat>, n: nat): (b: Bytes)
    ensures |b| == |vs| * n
  {
    if vs == [] then [] else Each(vs[..|vs| - 1], n) + Write(vs[|vs| - 1], n)
  }

  ghost predicate AllFit(vs: seq<nat>, n: nat) {
    forall k | 0 <= k < |vs| :: vs[k] < Limit(n)
  }

  /** Word `k` of an array of words of `n` bytes that starts at `o`. */
  function WordAt(b: Bytes, o: nat, k: nat, n: nat): nat {
    if o + k * n + n <= |b| then At(b, o + k * n, n) else 0
  }

  ghost predicate HasWords(b: Bytes, o: nat, vs: seq<nat>, n: nat) {
    o + |vs| * n <= |b| && forall k | 0 <= k < |vs| :: WordAt(b, o, k, n) == vs[k]
  }

  lemma WordAtIs(b: Bytes, o: nat, k: nat, n: nat, v: nat)
    requires o + k * n + n <= |b| && v < Limit(n)
    ensures WordAt(b, o, k, n) == v <==> b[o + k * n..o + k * n + n] == Write(v, n)
    ensures WordAt(b, o, k, n) < Limit(n)
  {
    hide Read, Write, Limit;
    var at := o + k * n;
    ReadWrite(v, n);
    WriteRead(b[at..at + n]);
  }

  /** The last word follows the others. */
  lemma LastWord(b: Bytes, o: nat, m: nat, n: nat, whole: Bytes, init: Bytes, last: Bytes)
    requires |init| == m * n && |last| == n && o + m * n + n <= |b| && whole == init + last
    ensures o + (m + 1) * n <= |b| && (m + 1) * n == m * n + n
    ensures b[o..o + (m + 1) * n] == whole <==> b[o..o + m * n] == init && b[o + m * n..o + m * n + n] == last
  {
    var mid := o + m * n;
    assert b[o..mid + n] == b[o..mid] + b[mid..mid + n];
    assert b[o..mid + n][..m * n] == b[o..mid] && b[o..mid + n][m * n..] == b[mid..mid + n];
  }

  /** Words that are read one by one are exactly an encoded array. */
  lemma {:induction false} EachIsRead(b: Bytes, o: nat, vs: seq<nat>, n: nat)
    requires AllFit(vs, n) && o + |vs| * n <= |b|
    ensures b[o..o + |vs| * n] == Each(vs, n) <==> HasWords(b, o, vs, n)
  {
    if vs == [] {
      assert b[o..o] == [];
    } else {
      var m := |vs| - 1;
      var init, last := vs[..m], vs[m];
      assert |vs| * n == m * n + n;
      EachIsRead(b, o, init, n);
      LastWord(b, o, m, n, Each(vs, n), Each(init, n), Write(last, n));
      WordAtIs(b, o, m, n, last);
      hide Write, Each, WordAt, Limit;
      HasOneMoreWord(b, o, vs, n);
    }
  }

  lemma HasOneMoreWord(b: Bytes, o: nat, vs: seq<nat>, n: nat)
    requires vs != [] && o + |vs| * n <= |b| && o + (|vs| - 1) * n <= |b|
    ensures var m := |vs| - 1; HasWords(b, o, vs, n) <==> HasWords(b, o, vs[..m], n) && WordAt(b, o, m, n) == vs[m]
  {
    hide WordAt;
    var m := |vs| - 1;
    assert forall k | 0 <= k < m :: vs[..m][k] == vs[k];
  }

  // ---- LOAD_TENSOR ----

  datatype Tensor = Tensor(
    ggufType: U32, dims: seq<U64>, elementCount: U64, contentHash: U64, name: Bytes, data: Bytes)

  function Product(dims: seq<U64>): nat {
    if dims == [] then 1 else Product(dims[..|dims| - 1]) * dims[|dims| - 1]
  }

  predicate WithinLimits(t: Tensor) {
    1 <= |t.dims| <= 8 && 1 <= |t.name| <= 1024 && |t.data| <= Framing.MAX_PAYLOAD
  }

  ghost predicate ValidTensor(t: Tensor) {
    && WithinLimits(t) && t.data != []
    && (forall k | 0 <= k < |t.dims| :: t.dims[k] > 0)
    && Product(t.dims) == t.elementCount && t.contentHash == Hash(t.data)
  }

  const TENSOR_FIXED := 36

  function TensorFixed(ggufType: nat, rank: nat, count: nat, dataBytes: nat, hash: nat, nameBytes: nat): (b: Bytes)
    ensures |b| == TENSOR_FIXED
  {
    Write(ggufType, 4) + Write(rank, 2) + Write(0, 2) + Write(count, 8) + Write(dataBytes, 8) + Write(hash, 8)
    + Write(nameBytes, 2) + Write(0, 2)
  }

  function EncodeTensor(t: Tensor): Bytes {
    TensorFixed(t.ggufType, |t.dims|, t.elementCount, |t.data|, t.contentHash, |t.name|)
    + Each(t.dims, 8) + t.name + t.data
  }

  /** `make_load_tensor_payload`: None is the refusal of oversized metadata. */
  method MakeLoadTensorPayload(ggufType: U32, dims: seq<U64>, count: U64, name: Bytes, data: Bytes, hash: U64)
    returns (payload: Bytes, ok: bool)
    ensures ok <==> 1 <= |dims| <= 8 && 1 <= |name| <= 1024
    ensures ok ==> payload == EncodeTensor(Tensor(ggufType, dims, count, hash, name, data))
  {
    payload := [];
    if |dims| == 0 || |dims| > 8 || name == [] || |name| > 1024 {
      return payload, false;
    }
    hide TensorFixed, Each;
    var fixed := AppendFixed(ggufType, |dims|, count, |data|, hash, |name|);
    payload := AppendDimensions(fixed, dims);
    payload := payload + name;
    payload := payload + data;
    ok := true;
  }

  method AppendFixed(ggufType: nat, rank: nat, count: nat, dataBytes: nat, hash: nat, nameBytes: nat)
    returns (payload: Bytes)
    ensures payload == TensorFixed(ggufType, rank, count, dataBytes, hash, nameBytes)
  {
    hide Write;
    payload := Write(ggufType, 4);
    payload := payload + Write(rank, 2);
    payload := payload + Write(0, 2);
    payload := payload + Write(count, 8);
    payload := payload + Write(dataBytes, 8);
    payload := payload + Write(hash, 8);
    payload := payload + Write(nameBytes, 2);
    payload := payload + Write(0, 2);
  }

  method AppendDimensions(before: Bytes, dims: seq<U64>) returns (payload: Bytes)
    ensures payload == before + Each(dims, 8)
  {
    hide Write, Each;
    payload := before;
    NoneOfEach(dims, 8);
    for k := 0 to |dims|
      invariant payload == before + Each(dims[..k], 8)
    {
      EachMore(dims, k, 8);
      payload := payload + Write(dims[k], 8);
    }
    assert dims[..|dims|] == dims;
  }

  lemma NoneOfEach(vs: seq<nat>, n: nat)
    ensures Each(vs[..0], n) == []
  {
    assert vs[..0] == [];
  }

  /** What reading a payload at its offsets gives. */
  ghost predicate TensorFields(t: Tensor, b: Bytes) {
    var dimsEnd := TENSOR_FIXED + |t.dims| * 8;
    && |b| == dimsEnd + |t.name| + |t.data|
    && FixedFields(b, t.ggufType, |t.dims|, t.elementCount, |t.data|, t.contentHash, |t.name|)
    && HasWords(b, TENSOR_FIXED, t.dims, 8)
    && b[dimsEnd..dimsEnd + |t.name|] == t.name && b[dimsEnd + |t.name|..] == t.data
  }

  ghost predicate FixedFields(
    b: Bytes, ggufType: nat, rank: nat, count: nat, dataBytes: nat, hash: nat, nameBytes: nat)
  {
    && |b| >= TENSOR_FIXED && At(b, 0, 4) == ggufType && At(b, 4, 2) == rank && At(b, 6, 2) == 0 && At(b, 8, 8) == count
    && At(b, 16, 8) == dataBytes && At(b, 24, 8) == hash && At(b, 32, 2) == nameBytes && At(b, 34, 2) == 0
  }

  lemma FixedIsRead(b: Bytes, ggufType: nat, rank: nat, count: nat, dataBytes: nat, hash: nat, nameBytes: nat)
    requires |b| >= TENSOR_FIXED
    requires ggufType < Limit(4) && rank < Limit(2) && count < Limit(8) && dataBytes < Limit(8) && hash < Limit(8)
    requires nameBytes < Limit(2)
    ensures b[..TENSOR_FIXED] == TensorFixed(ggufType, rank, count, dataBytes, hash, nameBytes)
            <==> FixedFields(b, ggufType, rank, count, dataBytes, hash, nameBytes)
  {
    hide Read, Write, Limit;
    FieldIs(b, 0, 4, ggufType);
    FieldIs(b, 4, 2, rank);
    FieldIs(b, 6, 2, 0);
    FieldIs(b, 8, 8, count);
    FieldIs(b, 16, 8, dataBytes);
    FieldIs(b, 24, 8, hash);
    FieldIs(b, 32, 2, nameBytes);
    FieldIs(b, 34, 2, 0);
    FixedParts(b[..TENSOR_FIXED], Write(ggufType, 4), Write(rank, 2), Write(0, 2), Write(count, 8), Write(dataBytes, 8),
               Write(hash, 8), Write(nameBytes, 2), Write(0, 2));
    assert forall i, j | 0 <= i <= j <= TENSOR_FIXED :: b[..TENSOR_FIXED][i..j] == b[i..j];
  }

  lemma FieldIs(b: Bytes, o: nat, n: nat, v: nat)
    requires o + n <= |b| && v < Limit(n)
    ensures At(b, o, n) == v <==> b[o..o + n] == Write(v, n)
  {
    ReadWrite(v, n);
    WriteRead(b[o..o + n]);
  }

  lemma FixedParts(f: Bytes, p0: Bytes, p1: Bytes, p2: Bytes, p3: Bytes, p4: Bytes, p5: Bytes, p6: Bytes, p7: Bytes)
    requires |f| == 36 && |p0| == 4 && |p1| == 2 && |p2| == 2 && |p3| == 8
    requires |p4| == 8 && |p5| == 8 && |p6| == 2 && |p7| == 2
    ensures f == p0 + p1 + p2 + p3 + p4 + p5 + p6 + p7 <==>
            && f[0..4] == p0 && f[4..6] == p1 && f[6..8] == p2 && f[8..16] == p3 && f[16..24] == p4 && f[24..32] == p5
            && f[32..34] == p6 && f[34..36] == p7
  {
    if f[0..4] == p0 && f[4..6] == p1 && f[6..8] == p2 && f[8..16] == p3 && f[16..24] == p4 && f[24..32] == p5
       && f[32..34] == p6 && f[34..36] == p7 {
      assert f == f[0..4] + f[4..6] + f[6..8] + f[8..16] + f[16..24] + f[24..32] + f[32..34] + f[34..36];
    }
  }

  /** Reading the fields at their offsets is the same as being the encoding. */
  lemma TensorFieldsAreEncoding(t: Tensor, b: Bytes)
    requires WithinLimits(t)
    ensures TensorFields(t, b) <==> b == EncodeTensor(t)
  {
    Limits();
    hide Write, Read, Each, Limit, WordAt, TensorFixed, FixedFields;
    var r, n, d := |t.dims| * 8, |t.name|, |t.data|;
    var fixed := TensorFixed(t.ggufType, |t.dims|, t.elementCount, d, t.contentHash, n);
    if |b| == TENSOR_FIXED + r + n + d {
      FixedIsRead(b, t.ggufType, |t.dims|, t.elementCount, d, t.contentHash, n);
      EachIsRead(b, TENSOR_FIXED, t.dims, 8);
      TensorParts(b, fixed, Each(t.dims, 8), t.name, t.data);
      hide HasWords;
    }
  }

  lemma TensorParts(b: Bytes, fixed: Bytes, dims: Bytes, name: Bytes, data: Bytes)
    requires |fixed| == TENSOR_FIXED && |b| == TENSOR_FIXED + |dims| + |name| + |data|
    ensures var d := TENSOR_FIXED + |dims|; var n := d + |name|;
            b == fixed + dims + name + data <==>
            b[..TENSOR_FIXED] == fixed && b[TENSOR_FIXED..d] == dims && b[d..n] == name && b[n..] == data
  {
    var d := TENSOR_FIXED + |dims|;
    var n := d + |name|;
    assert b == b[..TENSOR_FIXED] + b[TENSOR_FIXED..d] + b[d..n] + b[n..];
    var whole := fixed + dims + name + data;
    assert whole[..TENSOR_FIXED] == fixed && whole[TENSOR_FIXED..d] == dims && whole[d..n] == name
           && whole[n..] == data;
  }

  /** A tensor within the limits of the client is determined by its payload, valid or not. */
  lemma EncodeTensorInjective(t: Tensor, u: Tensor)
    requires WithinLimits(t) && WithinLimits(u) && EncodeTensor(t) == EncodeTensor(u)
    ensures t == u
  {
    var b := EncodeTensor(t);
    TensorFieldsAreEncoding(t, b);
    TensorFieldsAreEncoding(u, b);
    hide EncodeTensor, WithinLimits, WordAt;
    assert |t.dims| == |u.dims|;
    forall k | 0 <= k < |t.dims| ensures t.dims[k] == u.dims[k] {
      assert WordAt(b, TENSOR_FIXED, k, 8) == t.dims[k] && WordAt(b, TENSOR_FIXED, k, 8) == u.dims[k];
    }
  }

  /** No valid tensor has this payload. */
  ghost predicate Undecodable(b: Bytes) {
    forall t | ValidTensor(t) :: EncodeTensor(t) != b
  }

  /** Dimensions of a product that fits leave room for each partial product. */
  lemma {:induction false} PartialProduct(dims: seq<U64>, k: nat)
    requires k <= |dims| && forall j | 0 <= j < |dims| :: dims[j] > 0
    ensures 1 <= Product(dims[..k]) <= Product(dims)
    decreases |dims|
  {
    if k < |dims| {
      var m := |dims| - 1;
      assert dims[..m][..k] == dims[..k];
      PartialProduct(dims[..m], k);
      Enlarges(Product(dims[..m]), dims[m]);
    } else {
      assert dims[..k] == dims;
      if dims != [] {
        var m := |dims| - 1;
        PartialProduct(dims[..m], m);
        assert dims[..m][..m] == dims[..m];
        Enlarges(Product(dims[..m]), dims[m]);
      }
    }
  }

  lemma Enlarges(p: nat, d: nat)
    requires d > 0
    ensures p <= p * d
  {}

  /** The overflow check before the multiplication is exact. */
  lemma OverflowCheck(p: nat, d: nat)
    requires d > 0
    ensures p > MAX_U64 / d <==> p * d > MAX_U64
  {
    var q := MAX_U64 / d;
    assert q * d <= MAX_U64 < (q + 1) * d by { assert MAX_U64 == q * d + MAX_U64 % d; }
    if p > q {
      Scales(q + 1, p, d);
    } else {
      Scales(p, q, d);
    }
  }

  /** Dimensions that are not zero and have a product of 64 bits. */
  ghost predicate GoodDimensions(dims: seq<U64>) {
    (forall k | 0 <= k < |dims| :: dims[k] > 0) && Product(dims) <= MAX_U64
  }

  lemma SameWords(b: Bytes, o: nat, vs: seq<nat>, us: seq<nat>, n: nat)
    requires HasWords(b, o, vs, n) && HasWords(b, o, us, n) && |vs| <= |us|
    ensures vs == us[..|vs|]
  {
    hide WordAt;
    forall k | 0 <= k < |vs| ensures vs[k] == us[k] {
      assert WordAt(b, o, k, n) == vs[k] && WordAt(b, o, k, n) == us[k];
    }
  }

  lemma MoreWords(b: Bytes, o: nat, vs: seq<nat>, v: nat, n: nat)
    requires HasWords(b, o, vs, n) && o + |vs| * n + n <= |b| && WordAt(b, o, |vs|, n) == v
    ensures HasWords(b, o, vs + [v], n)
  {
    hide WordAt;
    assert (|vs| + 1) * n == |vs| * n + n;
  }

  /** A zero dimension or an overflowing partial product cannot be repaired by later dimensions. */
  lemma BadPrefix(dims: seq<U64>, prefix: seq<U64>, d: U64)
    requires |prefix| < |dims| && dims[..|prefix|] == prefix && dims[|prefix|] == d
    requires d == 0 || Product(prefix) * d > MAX_U64
    ensures !GoodDimensions(dims)
  {
    if GoodDimensions(dims) {
      var i := |prefix|;
      assert dims[..i + 1][..i] == prefix;
      PartialProduct(dims, i + 1);
      assert false;
    }
  }

  /** The dimension loop: it refuses exactly when a dimension is zero or the product overflows. */
  method ReadDimensions(bytes: Bytes, rank: nat) returns (r: Result<seq<U64>>)
    requires TENSOR_FIXED + rank * 8 <= |bytes|
    ensures r.Ok? ==> |r.value| == rank && HasWords(bytes, TENSOR_FIXED, r.value, 8) && GoodDimensions(r.value)
    ensures r.Err? ==>
              forall dims: seq<U64> | |dims| == rank && HasWords(bytes, TENSOR_FIXED, dims, 8) :: !GoodDimensions(dims)
  {
    hide WordAt, HasWords;
    var dims: seq<U64>, calculated, cursor := [], 1, TENSOR_FIXED;
    NoWords(bytes, TENSOR_FIXED, 8);
    var i := 0;
    while i < rank
      invariant i <= rank && |dims| == i && cursor == TENSOR_FIXED + i * 8
      invariant HasWords(bytes, TENSOR_FIXED, dims, 8) && GoodDimensions(dims) && calculated == Product(dims)
    {
      var dimension := DimensionAt(bytes, cursor, i);
      cursor := cursor + 8;
      if dimension == 0 || calculated > MAX_U64 / dimension {
        if dimension != 0 { OverflowCheck(calculated, dimension); }
        forall all: seq<U64> | |all| == rank && HasWords(bytes, TENSOR_FIXED, all, 8) ensures !GoodDimensions(all) {
          SameWords(bytes, TENSOR_FIXED, dims, all, 8);
          WordOf(bytes, TENSOR_FIXED, all, i, 8);
          BadPrefix(all, dims, dimension);
        }
        return Err(BadDimensions);
      }
      OverflowCheck(calculated, dimension);
      MoreWords(bytes, TENSOR_FIXED, dims, dimension, 8);
      assert (dims + [dimension])[..i] == dims;
      dims := dims + [dimension];
      calculated := calculated * dimension;
      i := i + 1;
    }
    return Ok(dims);
  }

  function DimensionAt(bytes: Bytes, cursor: nat, i: nat): (d: U64)
    requires cursor == TENSOR_FIXED + i * 8 && cursor + 8 <= |bytes|
    ensures d == WordAt(bytes, TENSOR_FIXED, i, 8)
  {
    Limits();
    At(bytes, cursor, 8)
  }

  lemma NoWords(b: Bytes, o: nat, n: nat)
    requires o <= |b|
    ensures HasWords(b, o, [], n)
  {}

  lemma WordOf(b: Bytes, o: nat, vs: seq<nat>, k: nat, n: nat)
    requires HasWords(b, o, vs, n) && k < |vs|
    ensures WordAt(b, o, k, n) == vs[k]
  {}

  /** `decode_load_tensor_payload` accepts exactly the payloads of valid tensors, and returns the tensor
      that was encoded. */
  method DecodeLoadTensor(bytes: Bytes) returns (r: Result<Tensor>)
    ensures r.Ok? ==> ValidTensor(r.value) && EncodeTensor(r.value) == bytes
    ensures r.Err? ==> Undecodable(bytes)
  {
    Limits();
    hide EncodeTensor, Hash, Read, WordAt, HasWords;
    // The tensor that was encoded, if there is one.
    ghost var t: Tensor;
    if !Undecodable(bytes) {
      t :| ValidTensor(t) && EncodeTensor(t) == bytes;
      TensorFieldsAreEncoding(t, bytes);
    }
    if |bytes| < TENSOR_FIXED {
      return Err(TooShort);
    }
    var ggufType, rank, reserved0 := At(bytes, 0, 4), At(bytes, 4, 2), At(bytes, 6, 2);
    var elementCount, dataBytes, contentHash := At(bytes, 8, 8), At(bytes, 16, 8), At(bytes, 24, 8);
    var nameBytes, reserved1 := At(bytes, 32, 2), At(bytes, 34, 2);
    if reserved0 != 0 || reserved1 != 0 {
      return Err(ReservedNotZero);
    }
    if rank == 0 || rank > 8 {
      return Err(BadRank);
    }
    if nameBytes == 0 || nameBytes > 1024 {
      return Err(BadName);
    }
    if dataBytes == 0 || dataBytes > Framing.MAX_PAYLOAD {
      return Err(BadDataLength);
    }
    var metadataBytes := TENSOR_FIXED + rank * 8 + nameBytes;
    if metadataBytes > |bytes| || dataBytes != |bytes| - metadataBytes {
      return Err(LengthMismatch);
    }
    var dims := ReadDimensions(bytes, rank);
    if dims.Err? {
      return Err(BadDimensions);
    }
    if !Undecodable(bytes) {
      SameWords(bytes, TENSOR_FIXED, dims.value, t.dims, 8);
      assert dims.value == t.dims;
    }
    if Product(dims.value) != elementCount {
      return Err(CountMismatch);
    }
    var cursor := TENSOR_FIXED + rank * 8;
    var name := bytes[cursor..cursor + nameBytes];
    cursor := cursor + nameBytes;
    var data := bytes[cursor..];
    var hash := ContentHash64(data);
    if hash != contentHash {
      return Err(HashMismatch);
    }
    var tensor := Tensor(ggufType, dims.value, elementCount, contentHash, name, data);
    TensorFieldsAreEncoding(tensor, bytes);
    return Ok(tensor);
  }

  // ---- RUN_LAYER_RANGE ----

  /** Epsilon and theta are float bits. */
  datatype Range = Range(
    firstLayer: U32, lastLayer: U32, position: U32, maxContext: U32, ffnElements: U32, heads: U32, kvHeads: U32,
    headDim: U32, epsilon: U32, theta: U32, inputHash: U64, input: seq<U16>)

  const RANGE_FIXED := 52

  /** `value <= 0` for float bits: a zero, or a negative number that is not a NaN. A NaN is not. */
  predicate NotPositive(bits: U32) {
    bits % 0x8000_0000 == 0 || (bits / 0x8000_0000 == 1 && bits % 0x8000_0000 <= 0x7f80_0000)
  }

  predicate GoodParameters(r: Range, hidden: nat) {
    && r.firstLayer <= r.lastLayer && r.maxContext != 0 && r.position < r.maxContext
    && hidden != 0 && r.ffnElements != 0 && r.heads != 0 && r.kvHeads != 0 && r.headDim != 0
    && r.heads % r.kvHeads == 0 && !NotPositive(r.epsilon) && !NotPositive(r.theta)
  }

  /** The parameters that the decoder takes: positive dimensions, whole groups of heads, positive floats. */
  lemma ParametersInNumbers(r: Range, hidden: nat)
    ensures GoodParameters(r, hidden)
            <==> && r.firstLayer <= r.lastLayer && 0 <= r.position < r.maxContext
                 && hidden > 0 && r.ffnElements > 0 && r.heads > 0 && r.kvHeads > 0 && r.headDim > 0
                 && r.heads % r.kvHeads == 0 && PositiveOrNaN(r.epsilon) && PositiveOrNaN(r.theta)
  {
    FloatSign(r.epsilon);
    FloatSign(r.theta);
    hide NotPositive, PositiveOrNaN;
  }

  /** A clear sign bit and not all bits clear, or a NaN of either sign. */
  predicate PositiveOrNaN(bits: U32) {
    1 <= bits <= 0x7fff_ffff || bits > 0xff80_0000
  }

  lemma FloatSign(bits: U32)
    ensures NotPositive(bits) <==> !PositiveOrNaN(bits)
  {}

  /** The hash of a vector of halves is the hash of its bytes in memory. */
  function HalvesHash(v: seq<U16>): U64 {
    Hash(Each(v, 2))
  }

  ghost predicate ValidRange(r: Range) {
    |r.input| < Limit(4) && GoodParameters(r, |r.input|) && r.inputHash == HalvesHash(r.input)
  }

  /** The eleven 32-bit fields in wire order. */
  function RangeWords(r: Range): (w: seq<nat>)
    ensures |w| == 11
  {
    [r.firstLayer, r.lastLayer, r.position, r.maxContext, |r.input|, r.ffnElements, r.heads, r.kvHeads, r.headDim,
     r.epsilon, r.theta]
  }

  function EncodeRange(r: Range): Bytes {
    Each(RangeWords(r), 4) + Write(r.inputHash, 8) + Each(r.input, 2)
  }

  /** Appends each word of a vector. */
  method AppendHalves(before: Bytes, v: seq<U16>) returns (payload: Bytes)
    ensures payload == before + Each(v, 2)
  {
    hide Write, Each;
    payload := before;
    NoneOfEach(v, 2);
    for k := 0 to |v|
      invariant payload == before + Each(v[..k], 2)
    {
      EachMore(v, k, 2);
      payload := payload + Write(v[k], 2);
    }
    assert v[..|v|] == v;
  }

  /** `make_run_layer_range_payload`: the hash is computed here; nothing is refused. */
  method MakeRunLayerRangePayload(r: Range) returns (payload: Bytes)
    ensures payload == EncodeRange(r.(inputHash := HalvesHash(r.input)))
  {
    hide Write, Each, Hash;
    payload := [];
    var words := RangeWords(r);
    NoneOfEach(words, 4);
    for k := 0 to 11
      invariant payload == Each(words[..k], 4)
    {
      EachMore(words, k, 4);
      payload := payload + Write(words[k], 4);
    }
    assert words[..11] == words;
    var hash := ContentHash64(Each(r.input, 2));
    payload := payload + Write(hash, 8);
    payload := AppendHalves(payload, r.input);
  }

  lemma EachMore(vs: seq<nat>, k: nat, n: nat)
    requires k < |vs|
    ensures Each(vs[..k + 1], n) == Each(vs[..k], n) + Write(vs[k], n)
  {
    hide Write;
    assert vs[..k + 1][..k] == vs[..k];
  }

  ghost predicate RangeFields(r: Range, b: Bytes) {
    && |b| == RANGE_FIXED + |r.input| * 2
    && HasWords(b, 0, RangeWords(r), 4) && At(b, 44, 8) == r.inputHash && HasWords(b, RANGE_FIXED, r.input, 2)
  }

  lemma RangeFieldsAreEncoding(r: Range, b: Bytes)
    requires |r.input| < Limit(4)
    ensures RangeFields(r, b) <==> b == EncodeRange(r)
  {
    Limits();
    hide Write, Read, Each, Limit, WordAt;
    if |b| == RANGE_FIXED + |r.input| * 2 {
      RangeWordsFit(r);
      assert AllFit(r.input, 2);
      EachIsRead(b, 0, RangeWords(r), 4);
      FieldIs(b, 44, 8, r.inputHash);
      EachIsRead(b, RANGE_FIXED, r.input, 2);
      hide RangeWords, HasWords;
      RangeParts(b, Each(RangeWords(r), 4), Write(r.inputHash, 8), Each(r.input, 2));
    }
  }

  lemma RangeWordsFit(r: Range)
    requires |r.input| < Limit(4)
    ensures AllFit(RangeWords(r), 4)
  {
    Limits();
    hide Limit;
  }

  lemma RangeParts(b: Bytes, words: Bytes, hash: Bytes, input: Bytes)
    requires |words| == 44 && |hash| == 8 && |b| == RANGE_FIXED + |input|
    ensures b == words + hash + input <==> b[0..44] == words && b[44..52] == hash && b[52..52 + |input|] == input
  {
    assert b == b[0..44] + b[44..52] + b[52..52 + |input|];
    var whole := words + hash + input;
    assert whole[0..44] == words && whole[44..52] == hash && whole[52..52 + |input|] == input;
  }

  ghost predicate UndecodableRange(b: Bytes) {
    forall r | ValidRange(r) :: EncodeRange(r) != b
  }

  lemma EncodeRangeInjective(r: Range, s: Range)
    requires |r.input| < Limit(4) && |s.input| < Limit(4) && EncodeRange(r) == EncodeRange(s)
    ensures r == s
  {
    var b := EncodeRange(r);
    RangeFieldsAreEncoding(r, b);
    RangeFieldsAreEncoding(s, b);
    hide EncodeRange;
    SameWords(b, 0, RangeWords(r), RangeWords(s), 4);
    assert RangeWords(s)[..11] == RangeWords(s);
    SameRangeWords(r, s);
    SameWords(b, RANGE_FIXED, r.input, s.input, 2);
    assert s.input[..|s.input|] == s.input;
  }

  lemma SameRangeWords(r: Range, s: Range)
    requires RangeWords(r) == RangeWords(s)
    ensures |r.input| == |s.input|
    ensures r == s.(inputHash := r.inputHash, input := r.input)
  {
    var a, b := RangeWords(r), RangeWords(s);
    assert a[0] == b[0] && a[1] == b[1] && a[2] == b[2] && a[3] == b[3] && a[4] == b[4] && a[5] == b[5];
    assert a[6] == b[6] && a[7] == b[7] && a[8] == b[8] && a[9] == b[9] && a[10] == b[10];
  }

  /** The input loop. */
  method ReadHalves(bytes: Bytes, o: nat, n: nat) returns (v: seq<U16>)
    requires o + n * 2 <= |bytes|
    ensures |v| == n && HasWords(bytes, o, v, 2)
  {
    hide WordAt, HasWords;
    v := [];
    NoWords(bytes, o, 2);
    for i := 0 to n
      invariant |v| == i && HasWords(bytes, o, v, 2)
    {
      var half := HalfOf(bytes, o, i);
      MoreWords(bytes, o, v, half, 2);
      v := v + [half];
    }
  }

  function HalfOf(bytes: Bytes, o: nat, i: nat): (h: U16)
    requires o + i * 2 + 2 <= |bytes|
    ensures h == WordAt(bytes, o, i, 2)
  {
    Limits();
    At(bytes, o + i * 2, 2)
  }

  function WordsFrom(bytes: Bytes): (w: seq<U32>)
    requires |bytes| >= RANGE_FIXED
    ensures |w| == 11 && HasWords(bytes, 0, w, 4)
  {
    Limits();
    seq<U32>(11, k requires 0 <= k < 11 => At(bytes, k * 4, 4))
  }

  /** `decode_run_layer_range_payload` accepts exactly the payloads of valid requests, and returns the
      request that was encoded. */
  method DecodeRunLayerRange(bytes: Bytes) returns (r: Result<Range>)
    ensures r.Ok? ==> ValidRange(r.value) && EncodeRange(r.value) == bytes
    ensures r.Err? ==> UndecodableRange(bytes)
  {
    Limits();
    hide EncodeRange, Hash, Read, WordAt, HasWords, Limit, GoodParameters, Each;
    // The request that was encoded, if there is one.
    ghost var t: Range;
    if !UndecodableRange(bytes) {
      t :| ValidRange(t) && EncodeRange(t) == bytes;
      RangeFieldsAreEncoding(t, bytes);
    }
    if |bytes| < RANGE_FIXED {
      return Err(TooShort);
    }
    var w := WordsFrom(bytes);
    var hidden: nat := w[4];
    var request := Range(w[0], w[1], w[2], w[3], w[5], w[6], w[7], w[8], w[9], w[10], At(bytes, 44, 8), []);
    if !UndecodableRange(bytes) {
      SameWords(bytes, 0, w, RangeWords(t), 4);
      assert RangeWords(t)[..11] == RangeWords(t);
      SameParameters(request, t, w, hidden);
    }
    if !GoodParameters(request, hidden) {
      return Err(BadParameters);
    }
    if RANGE_FIXED + hidden * 2 != |bytes| {
      return Err(LengthMismatch);
    }
    var input := ReadHalves(bytes, RANGE_FIXED, hidden);
    if !UndecodableRange(bytes) {
      SameWords(bytes, RANGE_FIXED, input, t.input, 2);
      assert input == t.input;
    }
    var hash := ContentHash64(Each(input, 2));
    if hash != request.inputHash {
      return Err(HashMismatch);
    }
    var whole := request.(input := input);
    assert RangeWords(whole) == w;
    GoodWithInput(request, whole, hidden);
    RangeFieldsAreEncoding(whole, bytes);
    return Ok(whole);
  }

  lemma SameParameters(request: Range, t: Range, w: seq<U32>, hidden: nat)
    requires |w| == 11 && RangeWords(t) == w && hidden == w[4]
    requires request == Range(w[0], w[1], w[2], w[3], w[5], w[6], w[7], w[8], w[9], w[10], request.inputHash, [])
    ensures hidden == |t.input| && GoodParameters(request, hidden) == GoodParameters(t, |t.input|)
  {
    var a := RangeWords(t);
    assert a[0] == w[0] && a[1] == w[1] && a[2] == w[2] && a[3] == w[3] && a[4] == w[4] && a[5] == w[5];
    assert a[6] == w[6] && a[7] == w[7] && a[8] == w[8] && a[9] == w[9] && a[10] == w[10];
  }

  lemma GoodWithInput(request: Range, whole: Range, hidden: nat)
    requires whole == request.(input := whole.input) && GoodParameters(request, hidden)
    ensures GoodParameters(whole, hidden)
  {}
}
