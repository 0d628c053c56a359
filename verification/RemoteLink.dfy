/** The link between a model and the remote machine: a range goes out as a request, is decoded, dispatched
    and run over there, and its result comes back. */
module RemoteLink {
  import opened Words
  import opened Transformer
  import opened Codecs
  import Framing
  import C = Capacity
  import L = LayerTensors
  import R = LayerRunner
  import Remote
  import RemoteClient
  import S = TensorStore

  /** The request for a range of a model's layers. */
  function RequestOf(s: Shape, first: U32, last: U32, position: U32, maxContext: U32, input: Vec): Range {
    Range(first, last, position, maxContext, s.ffn % C.TWO32, s.heads % C.TWO32, s.kvHeads % C.TWO32,
          s.headDim % C.TWO32, s.epsilon, s.theta, 0, input)
  }

  /** What both sides ask of a request of the model before any layer is looked at: it fits a frame, and
      its dimensions pass the decoder and the entry check of a run. */
  predicate Acceptable(s: Shape, width: nat, maxContext: nat) {
    && RANGE_FIXED + width * 2 <= Framing.MAX_PAYLOAD && R.Admitted(s, width, maxContext)
    && s.heads % C.TWO32 != 0 && s.ffn % C.TWO32 != 0 && !NotPositive(s.theta)
  }

  /** A layer was uploaded, and is stored as requests of the model need it. */
  ghost predicate LayerReady(client: RemoteClient.Client, runner: R.Runner, l: nat, d: C.Dims)
    reads client`uploadedLayers, runner.store
  {
    l in client.uploadedLayers && runner.Ready(l, d)
  }

  ghost predicate Accepts(
    client: RemoteClient.Client, runner: R.Runner, first: nat, last: nat, maxContext: nat, width: nat)
    reads client`uploadedLayers, runner.store
  {
    && Acceptable(runner.model.shape, width, maxContext)
    && forall l | first <= l <= last ::
         LayerReady(client, runner, l, R.DimsOf(runner.model.shape, width, maxContext))
  }

  lemma RequestIsGood(s: Shape, first: U32, last: U32, position: U32, maxContext: U32, input: Vec)
    requires first <= last && position < maxContext
    ensures var r := RequestOf(s, first, last, position, maxContext, input);
            && (GoodParameters(r, |input|) && Remote.RunnableShape(r) && |EncodeRange(r)| <= Framing.MAX_PAYLOAD
                <==> Acceptable(s, |input|, maxContext))
            && Remote.DimsOf(r) == R.DimsOf(s, |input|, maxContext)
  {
    hide RequestOf, EncodeRange, NotPositive, GoodParameters, Remote.RunnableShape, C.Dims.Admissible;
    hide R.DimsOf, Remote.DimsOf;
    var r := RequestOf(s, first, last, position, maxContext, input);
    RequestHas(s, first, last, position, maxContext, input);
    RequestDims(s, first, last, position, maxContext, input);
    RemoteClient.RangeLength(r);
    if |input| < 0x1_0000_0000 {
      GoodExactly(r);
    }
  }

  lemma RequestDims(s: Shape, first: U32, last: U32, position: U32, maxContext: U32, input: Vec)
    ensures Remote.DimsOf(RequestOf(s, first, last, position, maxContext, input)) == R.DimsOf(s, |input|, maxContext)
  {
    SmallWord(maxContext);
  }

  lemma SmallWord(n: U32)
    ensures n % C.TWO32 == n
  {}

  lemma GoodExactly(r: Range)
    requires r.firstLayer <= r.lastLayer && r.position < r.maxContext && |r.input| < 0x1_0000_0000
    ensures GoodParameters(r, |r.input|) && Remote.RunnableShape(r)
            <==> && Remote.DimsOf(r).Admissible() && r.heads != 0 && r.ffnElements != 0
                 && !NotPositive(r.epsilon) && !NotPositive(r.theta)
  {
    hide NotPositive;
  }

  /** The client gets the runner's output exactly when the runner is asked for it and gives one. */
  lemma AnsweredRuns(
    runner: R.Runner, first: U32, last: U32, position: U32, maxContext: U32, input: Vec, device: Remote.Device)
    requires first <= last && position < maxContext
    ensures var s := runner.model.shape;
            var r := RequestOf(s, first, last, position, maxContext, input);
            RemoteClient.Succeeds(runner.store.Contents(), r, device)
            <==> && Acceptable(s, |input|, maxContext) && runner.Accepts(first, last, position, maxContext, |input|)
                 && device.output.Some? && |device.output.value| == |input|
  {
    var s := runner.model.shape;
    var r := RequestOf(s, first, last, position, maxContext, input);
    hide *;
    RequestHas(s, first, last, position, maxContext, input);
    RequestIsGood(s, first, last, position, maxContext, input);
    AcceptableIsAdmitted(s, |input|, maxContext);
    ReadyExactly(runner, first, last, R.DimsOf(s, |input|, maxContext));
    SucceedsIs(runner.store.Contents(), r, device);
    AcceptsIs(runner, first, last, position, maxContext, |input|);
  }

  lemma ReadyExactly(runner: R.Runner, first: nat, last: nat, d: C.Dims)
    ensures runner.RangeReady(first, last, d) <==> L.RangeFault(runner.store.Contents(), d, first, last).None?
  {
    hide L.LayerFault, L.RangeFault;
    L.RangeRuns(runner.store.Contents(), d, first, last);
    forall l | first <= l <= last
      ensures runner.Ready(l, d) <==> L.LayerFault(runner.store.Contents(), d, l).None?
    {
    }
  }

  lemma SucceedsIs(store: S.State, r: Range, device: Remote.Device)
    ensures RemoteClient.Succeeds(store, r, device)
            <==> && GoodParameters(r, |r.input|) && Remote.RunnableShape(r) && |EncodeRange(r)| <= Framing.MAX_PAYLOAD
                 && L.RangeFault(store, Remote.DimsOf(r), r.firstLayer, r.lastLayer).None?
                 && device.output.Some? && |device.output.value| == |r.input|
  {
    hide GoodParameters, Remote.RunnableShape, EncodeRange, L.RangeFault, Remote.DimsOf;
  }

  lemma AcceptsIs(runner: R.Runner, first: nat, last: nat, position: nat, maxContext: nat, width: nat)
    requires first <= last && position < maxContext
    ensures runner.Accepts(first, last, position, maxContext, width)
            <==> && R.Admitted(runner.model.shape, width, maxContext)
                 && runner.RangeReady(first, last, R.DimsOf(runner.model.shape, width, maxContext))
  {
    hide R.Admitted, R.DimsOf, R.Runner.RangeReady;
  }

  /** With good parameters otherwise, both sides accept exactly the even head dimensions from 2 to 256. */
  lemma EvenHeadsAreAcceptable(s: Shape, width: nat, maxContext: nat)
    requires 0 < width <= 33554406 && s.headDim < C.TWO32 && 0 < s.heads < C.TWO32 && 0 < s.kvHeads < C.TWO32
    requires 0 < s.ffn < C.TWO32 && 0 < s.epsilon < 0x8000_0000 && 0 < s.theta < 0x8000_0000
    ensures Acceptable(s, width, maxContext) <==> s.headDim % 2 == 0 && 2 <= s.headDim <= 256
  {
    SmallWord(width);
    SmallWord(s.headDim);
    SmallWord(s.heads);
    SmallWord(s.kvHeads);
    SmallWord(s.ffn);
  }

  lemma AcceptableIsAdmitted(s: Shape, width: nat, maxContext: nat)
    ensures Acceptable(s, width, maxContext) ==> R.Admitted(s, width, maxContext)
  {}

  /** The request arrives and the runner takes it. */
  lemma AcceptedExactly(
    client: RemoteClient.Client, runner: R.Runner, first: nat, last: nat, position: nat, maxContext: nat, width: nat)
    requires first <= last && position < maxContext
    ensures Accepts(client, runner, first, last, maxContext, width)
            <==> && Acceptable(runner.model.shape, width, maxContext)
                 && (forall l | first <= l <= last :: l in client.uploadedLayers)
                 && runner.Accepts(first, last, position, maxContext, width)
  {
    AcceptableIsAdmitted(runner.model.shape, width, maxContext);
    hide Acceptable, R.DimsOf, R.Admitted, R.Runner.Ready;
    var d := R.DimsOf(runner.model.shape, width, maxContext);
    if Accepts(client, runner, first, last, maxContext, width) {
      forall l | first <= l <= last ensures l in client.uploadedLayers && runner.Ready(l, d) {
        assert LayerReady(client, runner, l, d);
      }
    }
  }

  /** One range over the link, on caches that hold the earlier positions of `tokens`: the result is what
      starting afresh computes. It fails exactly when the request is not acceptable, a layer was not
      uploaded or cannot run, or something else goes wrong over there. */
  method ContinueRange(client: RemoteClient.Client, runner: R.Runner, first: U32, last: U32, position: U32,
                       maxContext: U32, input: Vec, ghost tokens: seq<nat>)
    returns (output: Option<Vec>)
    requires client.Valid() && client.handshake && runner.Valid() && runner.store == client.server.store
    requires Fits(runner.model) && first <= last < |runner.model.layers| && position < |tokens|
    requires position < maxContext && input == Hidden(runner.model, tokens, first, position)
    requires R.RangeHeld(runner.model, tokens, R.Sizing(first, last + 1, maxContext, runner.model.shape.KvSize()),
                         position, runner.runtimes, runner.Caches())
    modifies runner, client`nextRequestId, client`handshake, client`calls, client`replies
    ensures client.Valid() && client.handshake && runner.Valid()
    ensures var accepted := Accepts(client, runner, first, last, maxContext, |input|);
            && (output.Some? <==> accepted && !runner.device.fails(old(runner.submissions)))
            && old(runner.submissions) <= runner.submissions <= old(runner.submissions) + 1
            && (accepted ==> runner.submissions == old(runner.submissions) + 1)
    ensures output.Some? ==>
              var z := R.Sizing(first, last + 1, maxContext, runner.model.shape.KvSize());
              && output.value == Hidden(runner.model, tokens, last + 1, position)
              && R.RangeHeld(runner.model, tokens, z, position + 1, runner.runtimes, runner.Caches())
              && R.OthersHeld(runner.model, tokens, z, old(runner.runtimes), old(runner.Caches()), runner.runtimes,
                              runner.Caches())
  {
    hide *;
    var r := RequestOf(runner.model.shape, first, last, position, maxContext, input);
    RequestHas(runner.model.shape, first, last, position, maxContext, input);
    HiddenShape(runner.model, tokens, first, position);
    HiddenShape(runner.model, tokens, last + 1, position);
    AcceptedExactly(client, runner, first, last, position, maxContext, |input|);
    // Whether the request gets past both sides to the runner, and what the runner then makes of it.
    var arrives := Acceptable(runner.model.shape, |input|, maxContext)
                   && forall l | first <= l <= last :: l in client.uploadedLayers;
    var made: Option<Vec> := None;
    if arrives {
      made := runner.ContinueRange(first, last, position, maxContext, input, tokens);
    }
    var gpuTime: U64 := *;
    var device := Remote.Device(false, 0, made, gpuTime);
    AnsweredRuns(runner, first, last, position, maxContext, input, device);
    var outcome;
    ghost var answer;
    outcome, answer := client.RunLayerRange(r, device);
    output := if outcome.Output? then Some(outcome.values) else None;
  }

  lemma RequestHas(s: Shape, first: U32, last: U32, position: U32, maxContext: U32, input: Vec)
    ensures var r := RequestOf(s, first, last, position, maxContext, input);
            && r.firstLayer == first && r.lastLayer == last && r.position == position && r.maxContext == maxContext
            && r.input == input && r.heads == s.heads % C.TWO32 && r.ffnElements == s.ffn % C.TWO32
            && r.epsilon == s.epsilon && r.theta == s.theta
  {}
}
