/** Loading a model some of whose layers are offloaded: the checks of the model file, the uploads, then
    the objects of both machines. */
module Loading {
  import opened Words
  import opened Transformer
  import opened LayerExecution
  import opened OffloadedRanges
  import opened RemoteClient
  import opened RemoteLink
  import C = Capacity
  import Codecs
  import L = LayerTensors
  import Q = QwenModel
  import R = LayerRunner
  import Remote
  import S = TensorStore

  // ---- The checks of the model file ----

  /** The dimensions of a configuration are 32-bit words. */
  predicate InWords(s: Shape) {
    s.hidden < C.TWO32 && s.heads < C.TWO32 && s.kvHeads < C.TWO32 && s.headDim < C.TWO32 && s.ffn < C.TWO32
  }

  function Columns(dims: seq<U64>): nat { if dims == [] then 0 else dims[0] }

  function Rows(dims: seq<U64>): nat { if |dims| < 2 then 1 else dims[1] }

  /** Columns and rows that loading asks of tensor `k` of an offloaded layer. It does not look at the two
      head norms, since no buffer of theirs is on this machine. */
  function Expected(s: Shape, k: nat): Option<(nat, nat)>
    requires k < L.SUFFIXES
  {
    if k == 0 || k == 7 then Some((s.hidden, 1))
    else if k == 1 then Some((s.hidden, s.QSize()))
    else if k == 2 || k == 3 then Some((s.hidden, s.KvSize()))
    else if k == 4 then Some((s.QSize(), s.hidden))
    else if k == 8 || k == 9 then Some((s.hidden, s.ffn))
    else if k == 10 then Some((s.ffn, s.hidden))
    else None
  }

  predicate TensorFits(gguf: map<Bytes, Source>, s: Shape, layer: nat, k: nat)
    requires k < L.SUFFIXES
  {
    var name := L.TensorName(layer, k);
    Expected(s, k).Some? ==>
      name in gguf && Expected(s, k).value == (Columns(gguf[name].dims), Rows(gguf[name].dims))
  }

  /** The nine tensors of a layer that are looked at have the expected shapes. */
  ghost predicate LayerFits(gguf: map<Bytes, Source>, s: Shape, layer: nat) {
    forall k | 0 <= k < L.SUFFIXES :: TensorFits(gguf, s, layer, k)
  }

  const BIASES := 7

  function BiasName(layer: nat, j: nat): Bytes
    requires j < BIASES
  {
    Ascii("blk." + L.Decimal(layer) + "."
          + ["attn_q.bias", "attn_k.bias", "attn_v.bias", "attn_output.bias", "ffn_gate.bias", "ffn_up.bias",
             "ffn_down.bias"][j])
  }

  function BiasPart(j: nat): Part
    requires j < BIASES
  {
    [AttnQBias, AttnKBias, AttnVBias, AttnOBias, FfnGateBias, FfnUpBias, FfnDownBias][j]
  }

  ghost predicate Unbiased(gguf: map<Bytes, Source>, layer: nat) {
    forall j | 0 <= j < BIASES :: BiasName(layer, j) !in gguf
  }

  /** The names of the seven biases. */
  lemma BiasNamesInFull(l: nat)
    ensures BiasName(l, 0) == L.Named(l, "attn_q.bias") && BiasName(l, 1) == L.Named(l, "attn_k.bias")
    ensures BiasName(l, 2) == L.Named(l, "attn_v.bias") && BiasName(l, 3) == L.Named(l, "attn_output.bias")
    ensures BiasName(l, 4) == L.Named(l, "ffn_gate.bias") && BiasName(l, 5) == L.Named(l, "ffn_up.bias")
    ensures BiasName(l, 6) == L.Named(l, "ffn_down.bias")
  {
    hide Ascii, L.Decimal;
  }

  /** The norms of a layer that passes are single rows of the model's width. */
  lemma NormShapes(gguf: map<Bytes, Source>, s: Shape, l: nat)
    requires LayerFits(gguf, s, l) && s.hidden > 0
    ensures L.Named(l, "attn_norm.weight") in gguf && IsRow(gguf[L.Named(l, "attn_norm.weight")].dims, s.hidden)
    ensures L.Named(l, "ffn_norm.weight") in gguf && IsRow(gguf[L.Named(l, "ffn_norm.weight")].dims, s.hidden)
  {
    L.NamesInFull(l);
    hide L.TensorName, L.Named;
    assert TensorFits(gguf, s, l, 0) && TensorFits(gguf, s, l, 7);
  }

  predicate IsRow(dims: seq<U64>, n: nat) {
    |dims| > 0 && dims[0] == n && (|dims| == 1 || dims[1] == 1)
  }

  method HasBias(gguf: map<Bytes, Source>, layer: nat) returns (found: bool)
    ensures found <==> !Unbiased(gguf, layer)
  {
    hide BiasName;
    for j := 0 to BIASES
      invariant forall i | 0 <= i < j :: BiasName(layer, i) !in gguf
    {
      if BiasName(layer, j) in gguf {
        return true;
      }
    }
    return false;
  }

  method CheckShapes(gguf: map<Bytes, Source>, s: Shape, layer: nat) returns (fit: bool)
    ensures fit <==> LayerFits(gguf, s, layer)
  {
    hide TensorFits;
    for k := 0 to L.SUFFIXES
      invariant forall i | 0 <= i < k :: TensorFits(gguf, s, layer, i)
    {
      if !TensorFits(gguf, s, layer, k) {
        return false;
      }
    }
    return true;
  }

  /** An optional tensor of a layer is part of the model exactly when it is in the file. */
  ghost predicate DescribesLayer(gguf: map<Bytes, Source>, w: Weights, l: nat) {
    && (forall j | 0 <= j < BIASES :: BiasPart(j) in w.present <==> BiasName(l, j) in gguf)
    && (QNorm in w.present <==> L.TensorName(l, 5) in gguf) && (KNorm in w.present <==> L.TensorName(l, 6) in gguf)
  }

  ghost predicate Describes(gguf: map<Bytes, Source>, model: Model) {
    forall l | 0 <= l < |model.layers| :: DescribesLayer(gguf, model.layers[l], l)
  }

  /** A layer without biases that was uploaded is a layer in remote form. */
  lemma UploadedForm(store: S.State, gguf: map<Bytes, Source>, w: Weights, l: nat)
    requires DescribesLayer(gguf, w, l) && Unbiased(gguf, l) && LayerStored(store, gguf, l)
    ensures RemoteForm(w)
  {
    hide L.TensorName, BiasName, Upload;
    assert StoredFrom(store, gguf, L.TensorName(l, 5)) && StoredFrom(store, gguf, L.TensorName(l, 6));
    UploadIsNamed(gguf, L.TensorName(l, 5));
    UploadIsNamed(gguf, L.TensorName(l, 6));
    forall j | 0 <= j < BIASES ensures BiasPart(j) !in w.present {
      assert BiasName(l, j) !in gguf;
    }
    assert BiasPart(0) == AttnQBias && BiasPart(1) == AttnKBias && BiasPart(2) == AttnVBias && BiasPart(3) == AttnOBias;
    assert BiasPart(4) == FfnGateBias && BiasPart(5) == FfnUpBias && BiasPart(6) == FfnDownBias;
  }

  // ---- The uploads ----

  /** The offloaded layers below `layers` pass the checks, and every upload succeeds. */
  ghost predicate LayersLoad(
    store: S.State, maxBytes: nat, gguf: map<Bytes, Source>, s: Shape, layers: nat, offloaded: set<nat>,
    device: Remote.Device)
  {
    && LoadAfter(store, maxBytes, gguf, layers, offloaded, device).Some?
    && forall l | l in offloaded && l < layers :: Unbiased(gguf, l) && LayerFits(gguf, s, l)
  }

  /** The layer loop of loading for the offloaded layers: for each the bias check, the uploads, then the
      shape checks. */
  method LoadLayers(client: Client, gguf: map<Bytes, Source>, s: Shape, layers: nat, offloaded: set<nat>,
                    device: Remote.Device)
    returns (ok: bool)
    requires client.Valid() && (offloaded != {} ==> client.handshake)
    modifies client`nextRequestId, client`handshake, client`calls, client`replies, client`uploadedLayers,
        client.server.store
    ensures client.Valid() && client.handshake == old(client.handshake)
    ensures var before, most := old(client.server.store.Contents()), client.server.store.maxBytes;
            && (ok <==> LayersLoad(before, most, gguf, s, layers, offloaded, device))
            && (ok ==> LoadAfter(before, most, gguf, layers, offloaded, device) == Some(client.server.store.Contents()))
    ensures ok ==> AllStored(client.server.store.Contents(), gguf, layers, offloaded)
    ensures ok ==> forall l | l in offloaded && l < layers :: l in client.uploadedLayers
  {
    hide Client.Valid, LayerAfter, LayerStored, S.Extends, S.Consistent, Unbiased, LayerFits;
    ghost var start, most := client.server.store.Contents(), client.server.store.maxBytes;
    for l := 0 to layers
      invariant client.Valid() && client.handshake == old(client.handshake)
      invariant LoadAfter(start, most, gguf, l, offloaded, device) == Some(client.server.store.Contents())
      invariant AllStored(client.server.store.Contents(), gguf, l, offloaded)
      invariant forall o | o in offloaded && o < l ::
                  o in client.uploadedLayers && Unbiased(gguf, o) && LayerFits(gguf, s, o)
    {
      if l in offloaded {
        var biased := HasBias(gguf, l);
        if biased {
          return false;
        }
        ghost var before := client.server.store.Contents();
        var uploaded := client.UploadLayer(gguf, l, device);
        if !uploaded {
          LoadStopped(start, most, gguf, l + 1, layers, offloaded, device);
          return false;
        }
        var fit := CheckShapes(gguf, s, l);
        if !fit {
          return false;
        }
        StillStored(before, client.server.store.Contents(), gguf, l, offloaded);
      }
    }
    return true;
  }

  /** Where a name came from: the store before, or a tensor of the layer that is being uploaded. */
  ghost predicate FromLayer(name: Bytes, layer: nat) {
    exists k: nat :: k < L.SUFFIXES && name == L.TensorName(layer, k)
  }

  lemma {:induction false} LayerNames(
    store: S.State, maxBytes: nat, gguf: map<Bytes, Source>, layer: nat, device: Remote.Device, n: nat, after: S.State,
    name: Bytes)
    requires n <= L.SUFFIXES && LayerAfter(store, maxBytes, gguf, layer, device, n) == Some(after)
             && name in after.names
    ensures name in store.names || FromLayer(name, layer)
  {
    hide L.TensorName, Upload, Taken;
    if n > 0 {
      var before := LayerAfter(store, maxBytes, gguf, layer, device, n - 1).value;
      UploadIsNamed(gguf, L.TensorName(layer, n - 1));
      if name in before.names {
        LayerNames(store, maxBytes, gguf, layer, device, n - 1, before, name);
      }
    }
  }

  ghost predicate FromOffloaded(name: Bytes, layers: nat, offloaded: set<nat>) {
    exists l: nat :: l < layers && l in offloaded && FromLayer(name, l)
  }

  lemma {:induction false} LoadNames(
    store: S.State, maxBytes: nat, gguf: map<Bytes, Source>, layers: nat, offloaded: set<nat>, device: Remote.Device,
    after: S.State, name: Bytes)
    requires LoadAfter(store, maxBytes, gguf, layers, offloaded, device) == Some(after) && name in after.names
    ensures name in store.names || FromOffloaded(name, layers, offloaded)
  {
    hide LayerAfter, FromLayer;
    if layers > 0 {
      var l := layers - 1;
      var before := LoadAfter(store, maxBytes, gguf, l, offloaded, device).value;
      if l in offloaded && name !in before.names {
        LayerNames(before, maxBytes, gguf, l, device, L.SUFFIXES, after, name);
      } else {
        LoadNames(store, maxBytes, gguf, l, offloaded, device, before, name);
        if name !in store.names {
          var o: nat :| o < l && o in offloaded && FromLayer(name, o);
        }
      }
    }
  }

  ghost predicate OffloadedInRemoteForm(model: Model, offloaded: set<nat>) {
    forall l | l in offloaded && l < |model.layers| :: RemoteForm(model.layers[l])
  }

  lemma LoadedForm(store: S.State, gguf: map<Bytes, Source>, model: Model, offloaded: set<nat>)
    requires Describes(gguf, model) && AllStored(store, gguf, |model.layers|, offloaded)
    requires forall l | l in offloaded && l < |model.layers| :: Unbiased(gguf, l)
    ensures OffloadedInRemoteForm(model, offloaded)
  {
    hide LayerStored, DescribesLayer, Unbiased, RemoteForm;
    forall l | l in offloaded && l < |model.layers| ensures RemoteForm(model.layers[l]) {
      UploadedForm(store, gguf, model.layers[l], l);
    }
  }

  /** What is stored stays the model's. */
  lemma StillRunnable(
    store: S.State, maxBytes: nat, gguf: map<Bytes, Source>, model: Model, offloaded: set<nat>, device: Remote.Device,
    after: S.State)
    requires R.Runnable(model, store.names) && OffloadedInRemoteForm(model, offloaded)
    requires LoadAfter(store, maxBytes, gguf, |model.layers|, offloaded, device) == Some(after)
    ensures R.Runnable(model, after.names)
  {
    hide LoadAfter, L.TensorName, RemoteForm;
    forall l: nat | L.LayerLoaded(after.names, l) ensures l < |model.layers| && RemoteForm(model.layers[l]) {
      if !L.LayerLoaded(store.names, l) {
        var j: nat :| j < L.SUFFIXES && L.TensorName(l, j) !in store.names;
        var name := L.TensorName(l, j);
        LoadNames(store, maxBytes, gguf, |model.layers|, offloaded, device, after, name);
        var o: nat :| o < |model.layers| && o in offloaded && FromLayer(name, o);
        var k: nat :| k < L.SUFFIXES && name == L.TensorName(o, k);
        L.NamesAreDistinct(l, o, j, k);
      }
    }
  }

  // ---- What a loaded model still lacks ----

  /** The tensor that matrix `j` of a run is. */
  function MatrixTensor(j: nat): (k: nat)
    requires j < L.MATRICES
    ensures k < L.SUFFIXES
  {
    [1, 2, 3, 4, 8, 9, 10][j]
  }

  predicate BlockMatrix(gguf: map<Bytes, Source>, layer: nat, j: nat)
    requires j < L.MATRICES
  {
    var name := L.TensorName(layer, MatrixTensor(j));
    name in gguf && gguf[name].ggufType in {Q4_K, Q6_K} && |gguf[name].dims| == 2
  }

  /** The seven matrices of a layer are two-dimensional and of block types in the file. */
  ghost predicate BlockMatrices(gguf: map<Bytes, Source>, layer: nat) {
    forall j | 0 <= j < L.MATRICES :: BlockMatrix(gguf, layer, j)
  }

  /** Behind the checks of loading, a run's shape checks ask no more than that, unless the number of
      query elements wraps. */
  lemma CheckedMatrix(gguf: map<Bytes, Source>, s: Shape, maxContext: nat, l: nat, j: nat)
    requires InWords(s) && LayerFits(gguf, s, l) && j < L.MATRICES
    ensures s.QSize() < C.TWO32 ==>
              (GgufMatrix(gguf, R.DimsOf(s, s.hidden, maxContext), l, j) <==> BlockMatrix(gguf, l, j))
    ensures s.QSize() >= C.TWO32 ==> !GgufMatrix(gguf, R.DimsOf(s, s.hidden, maxContext), l, 0)
  {
    hide L.TensorName, R.DimsOf, RawShape.QSize, RawShape.KvSize, C.Dims.QElements, C.Dims.KvElements;
    DimsInWords(s, maxContext);
    assert TensorFits(gguf, s, l, MatrixTensor(j)) && TensorFits(gguf, s, l, 1);
  }

  lemma DimsInWords(s: Shape, maxContext: nat)
    requires InWords(s)
    ensures var d := R.DimsOf(s, s.hidden, maxContext);
            && d.hidden == s.hidden && d.ffn == s.ffn
            && (s.QSize() < C.TWO32 ==> d.QElements() == s.QSize() && d.KvElements() == s.KvSize())
            && (s.QSize() >= C.TWO32 ==> d.QElements() < s.QSize())
  {
    FewerKeys(s);
    Word(s.hidden);
    Word(s.ffn);
    Word(s.heads);
    Word(s.kvHeads);
    Word(s.headDim);
    Word(s.QSize());
    Word(s.KvSize());
  }

  lemma Word(n: nat)
    ensures if n < C.TWO32 then n % C.TWO32 == n else n % C.TWO32 < n
  {}

  lemma FewerKeys(s: Shape)
    ensures s.KvSize() <= s.QSize()
  {
    C.DivisorIsSmaller(s.kvHeads, s.heads);
    Scales(s.kvHeads, s.heads, s.headDim);
  }

  lemma CheckedLayer(gguf: map<Bytes, Source>, s: Shape, maxContext: nat, l: nat)
    requires InWords(s) && LayerFits(gguf, s, l)
    ensures GgufLayer(gguf, R.DimsOf(s, s.hidden, maxContext), l)
            <==> s.QSize() < C.TWO32 && BlockMatrices(gguf, l)
  {
    hide GgufMatrix, BlockMatrix, LayerFits, InWords, R.DimsOf;
    forall j | 0 <= j < L.MATRICES
      ensures s.QSize() < C.TWO32 ==>
                (GgufMatrix(gguf, R.DimsOf(s, s.hidden, maxContext), l, j) <==> BlockMatrix(gguf, l, j))
    {
      CheckedMatrix(gguf, s, maxContext, l, j);
    }
    CheckedMatrix(gguf, s, maxContext, l, 0);
  }

  /** What is left to ask once loading has succeeded: requests of the model are acceptable, and the
      matrices of the offloaded layers are two-dimensional and of block types. */
  ghost predicate FileReady(gguf: map<Bytes, Source>, s: Shape, maxContext: nat, layers: nat, offloaded: set<nat>) {
    forall l | l in offloaded && l < layers ::
      Acceptable(s, s.hidden, maxContext) && s.QSize() < C.TWO32 && BlockMatrices(gguf, l)
  }

  lemma ReadyAsInFile(m: Q.QwenModel, gguf: map<Bytes, Source>)
    requires AllStored(m.remote.store.Contents(), gguf, |m.model.layers|, m.offloaded) && InWords(m.model.shape)
    requires forall l | l in m.offloaded && l < |m.model.layers| ::
               l in m.client.uploadedLayers && LayerFits(gguf, m.model.shape, l)
    ensures m.OffloadReady() <==> FileReady(gguf, m.model.shape, m.maxContext, |m.model.layers|, m.offloaded)
  {
    hide LayerStored, GgufLayer, L.LayerFault, Acceptable, R.DimsOf, BlockMatrices, InWords, LayerFits;
    var s := m.model.shape;
    var d := R.DimsOf(s, s.hidden, m.maxContext);
    forall l | l in m.offloaded && l < |m.model.layers|
      ensures m.RemoteReady(l)
              <==> Acceptable(s, s.hidden, m.maxContext) && s.QSize() < C.TWO32 && BlockMatrices(gguf, l)
    {
      UploadedLayerRuns(m.remote.store.Contents(), gguf, d, l);
      CheckedLayer(gguf, s, m.maxContext, l);
    }
  }

  /** When loading succeeds: every offloaded index is a layer, the handshake succeeds if it is needed,
      and the offloaded layers load. */
  ghost predicate Loadable(
    store: S.State, maxBytes: nat, gguf: map<Bytes, Source>, s: Shape, layers: nat, offloaded: set<nat>, backend: U16,
    device: Remote.Device)
  {
    && (forall l | l in offloaded :: l < layers) && (offloaded == {} || backend <= 1)
    && LayersLoad(store, maxBytes, gguf, s, layers, offloaded, device)
  }

  /** Index checks, connection and offloaded layers. */
  method LoadRemote(client: Client, gguf: map<Bytes, Source>, s: Shape, layers: nat, offloaded: set<nat>, backend: U16,
                    device: Remote.Device)
    returns (ok: bool)
    requires client.Valid() && !client.handshake
    modifies client`nextRequestId, client`handshake, client`calls, client`replies, client`uploadedLayers,
        client.server.store
    ensures client.Valid() && (ok && offloaded != {} ==> client.handshake)
    ensures var before, most := old(client.server.store.Contents()), client.server.store.maxBytes;
            && (ok <==> Loadable(before, most, gguf, s, layers, offloaded, backend, device))
            && (ok ==> LoadAfter(before, most, gguf, layers, offloaded, device) == Some(client.server.store.Contents()))
    ensures ok ==> AllStored(client.server.store.Contents(), gguf, layers, offloaded)
    ensures ok ==> forall l | l in offloaded :: l in client.uploadedLayers
  {
    hide Client.Valid, LoadAfter, AllStored, LayersLoad, S.Consistent;
    if !forall l | l in offloaded :: l < layers {
      return false;
    }
    if offloaded != {} {
      var connected := client.Connect(backend, device);
      if !connected {
        return false;
      }
    }
    ok := LoadLayers(client, gguf, s, layers, offloaded, device);
  }

  /** Loading. On the loaded model a forward pass finds every offloaded layer ready exactly when the
      matrices in the file are two-dimensional and of block types, and requests are acceptable. */
  method Load(client: Client, gguf: map<Bytes, Source>, model: Model, maxContext: U32, offloaded: set<nat>,
              backend: U16, upload: Remote.Device, device: R.Device)
    returns (loaded: Option<Q.QwenModel>)
    requires client.Valid() && !client.handshake && R.ObeysBarriers(device)
    requires Fits(model) && model.shape.hidden > 0 && InWords(model.shape) && |model.layers| < Q.WORDS
    requires Describes(gguf, model) && R.Runnable(model, client.server.store.names)
    modifies client`nextRequestId, client`handshake, client`calls, client`replies, client`uploadedLayers,
        client.server.store
    ensures client.Valid()
    ensures loaded.Some? <==> Loadable(old(client.server.store.Contents()), client.server.store.maxBytes, gguf,
                                       model.shape, |model.layers|, offloaded, backend, upload)
    ensures loaded.Some? ==>
              var m := loaded.value;
              && (forall o | o in m.Footprint() :: fresh(o))
              && m.Valid() && m.model == model && m.maxContext == maxContext && m.offloaded == offloaded
              && m.client == client && m.remote.store == client.server.store && m.remote.device == device
              && (m.OffloadReady() <==> FileReady(gguf, model.shape, maxContext, |model.layers|, offloaded))
  {
    hide Client.Valid, LoadAfter, AllStored, Fits, R.Runnable, R.ObeysBarriers, S.Consistent, FileReady, InWords;
    hide Q.QwenModel.OffloadReady, Q.QwenModel.Shaped, Q.QwenModel.Separate, OffloadedInRemoteForm, Describes;
    hide Unbiased, LayerFits;
    ghost var before := client.server.store.Contents();
    var ok := LoadRemote(client, gguf, model.shape, |model.layers|, offloaded, backend, upload);
    if !ok {
      return None;
    }
    ghost var after := client.server.store.Contents();
    LoadedForm(after, gguf, model, offloaded);
    StillRunnable(before, client.server.store.maxBytes, gguf, model, offloaded, upload, after);
    client.ConsistentStore();
    var runner := new R.Runner(model, device, client.server.store);
    var m := new Q.QwenModel(model, maxContext, offloaded, client, runner);
    ReadyAsInFile(m, gguf);
    forall o | o in m.Footprint() ensures fresh(o) {
      if o != runner {
        assert o in m.Footprint() - {runner};
      }
    }
    loaded := Some(m);
  }

  // ---- Loading and one pass ----

  /** When a range of a loaded model succeeds, in terms of the model file. */
  ghost predicate FileRuns(gguf: map<Bytes, Source>, s: Shape, r: Codecs.Range, device: Remote.Device) {
    && Acceptable(s, s.hidden, r.maxContext) && s.QSize() < C.TWO32
    && (forall l | r.firstLayer <= l <= r.lastLayer :: BlockMatrices(gguf, l)) && Remote.DeviceRuns(r, device)
  }

  /** A request of the loaded configuration, with its width. */
  ghost predicate IsRequestOf(s: Shape, r: Codecs.Range) {
    && r == RequestOf(s, r.firstLayer, r.lastLayer, r.position, r.maxContext, r.input) && |r.input| == s.hidden
    && r.firstLayer <= r.lastLayer && r.position < r.maxContext
  }

  lemma FileRunsExactly(store: S.State, gguf: map<Bytes, Source>, s: Shape, r: Codecs.Range, device: Remote.Device)
    requires InWords(s) && IsRequestOf(s, r)
    requires forall l | r.firstLayer <= l <= r.lastLayer :: LayerStored(store, gguf, l) && LayerFits(gguf, s, l)
    ensures Succeeds(store, r, device) <==> FileRuns(gguf, s, r, device)
  {
    RequestIsGood(s, r.firstLayer, r.lastLayer, r.position, r.maxContext, r.input);
    SucceedsIs(store, r, device);
    hide InWords, LayerStored, LayerFits, Succeeds, Acceptable, BlockMatrices, L.RangeFault, L.LayerFault, GgufLayer;
    hide RequestOf, R.DimsOf, Remote.DimsOf, Codecs.GoodParameters, Remote.RunnableShape, Codecs.EncodeRange;
    var d := R.DimsOf(s, s.hidden, r.maxContext);
    L.RangeRuns(store, d, r.firstLayer, r.lastLayer);
    forall l | r.firstLayer <= l <= r.lastLayer
      ensures L.LayerFault(store, d, l).None? <==> s.QSize() < C.TWO32 && BlockMatrices(gguf, l)
    {
      UploadedLayerRuns(store, gguf, d, l);
      CheckedLayer(gguf, s, r.maxContext, l);
    }
  }

  lemma PassOverFile(
    store: S.State, gguf: map<Bytes, Source>, s: Shape, layers: U32, offloaded: set<nat>, request: Codecs.Range,
    devices: nat -> Remote.Device, locals: (nat, Vec) -> Vec, ran: seq<Ran>)
    requires InWords(s) && AllStored(store, gguf, layers, offloaded) && request.position < request.maxContext
    requires forall l | l in offloaded && l < layers :: LayerFits(gguf, s, l)
    requires request == RequestOf(s, 0, 0, request.position, request.maxContext, request.input)
    requires forall k: nat, v: Vec :: |locals(k, v)| == s.hidden
    requires PassIsRight(store, OffloadRuns(offloaded, layers, 0), request, devices, locals, ran)
    ensures forall k | 0 <= k < |ran| :: ran[k].outcome.Output? <==> FileRuns(gguf, s, ran[k].request, devices(k))
  {
    hide LayerStored, LayerFits, Succeeds, FileRuns, IsAnswerTo, OffloadRuns, InWords;
    var runs := OffloadRuns(offloaded, layers, 0);
    RunsAreMaximal(offloaded, layers, 0);
    forall k | 0 <= k < |ran| ensures ran[k].outcome.Output? <==> FileRuns(gguf, s, ran[k].request, devices(k)) {
      assert RanRight(store, runs, request, devices, locals, ran, k) && IsMaximalRun(offloaded, layers, runs[k]);
      FileRunsExactly(store, gguf, s, ran[k].request, devices(k));
    }
  }

  /** Loading and one pass. Once loading succeeds, a range fails only because requests of the model are
      not acceptable, for a matrix that is not two-dimensional or not of a block type in the model file,
      because the number of query elements wraps, or because the device fails. */
  method LoadAndPass(client: Client, gguf: map<Bytes, Source>, s: Shape, layers: U32, offloaded: set<nat>, backend: U16,
                     upload: Remote.Device, position: U32, maxContext: U32, input: Vec, devices: nat -> Remote.Device,
                     locals: (nat, Vec) -> Vec)
    returns (loaded: bool, ok: bool, ghost ran: seq<Ran>)
    requires client.Valid() && !client.handshake && InWords(s) && position < maxContext
    requires forall k: nat, v: Vec :: |locals(k, v)| == s.hidden
    modifies client`nextRequestId, client`handshake, client`calls, client`replies, client`uploadedLayers,
        client.server.store
    ensures client.Valid()
    ensures loaded <==> Loadable(old(client.server.store.Contents()), client.server.store.maxBytes, gguf, s, layers,
                                 offloaded, backend, upload)
    ensures loaded ==>
              var runs := OffloadRuns(offloaded, layers, 0);
              PassIsRight(client.server.store.Contents(), runs, RequestOf(s, 0, 0, position, maxContext, input),
                          devices, locals, ran)
    ensures loaded ==>
              forall k | 0 <= k < |ran| :: ran[k].outcome.Output? <==> FileRuns(gguf, s, ran[k].request, devices(k))
    ensures loaded ==> (ok <==> forall k | 0 <= k < |ran| :: ran[k].outcome.Output?)
  {
    LoadableFits(client.server.store.Contents(), client.server.store.maxBytes, gguf, s, layers, offloaded, backend,
                 upload);
    RequestHas(s, 0, 0, position, maxContext, input);
    hide *;
    ran, ok := [], false;
    loaded := LoadRemote(client, gguf, s, layers, offloaded, backend, upload);
    if loaded {
      var request := RequestOf(s, 0, 0, position, maxContext, input);
      var x;
      ok, x, ran := OffloadedPass(client, layers, offloaded, request, devices, locals);
      PassOverFile(client.server.store.Contents(), gguf, s, layers, offloaded, request, devices, locals, ran);
    }
  }

  lemma LoadableFits(
    store: S.State, maxBytes: nat, gguf: map<Bytes, Source>, s: Shape, layers: nat, offloaded: set<nat>, backend: U16,
    device: Remote.Device)
    ensures Loadable(store, maxBytes, gguf, s, layers, offloaded, backend, device) ==>
              forall l | l in offloaded && l < layers :: Unbiased(gguf, l) && LayerFits(gguf, s, l)
  {}
}
