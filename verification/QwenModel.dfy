/** The model object: one token at a time through local and offloaded layers, with caches. */
module QwenModel {
  import opened Words
  import opened Transformer
  import opened Attention
  import opened LayerExecution
  import opened OffloadedRanges
  import RemoteClient
  import RemoteLink
  import Remote = LayerRunner

  // ---- The model ----

  /** The flat caches of a local layer start with the keys and values of positions 0..n-1. */
  ghost predicate LocalHolds(model: Model, tokens: seq<nat>, l: nat, n: nat, kCells: Vec, vCells: Vec)
    requires l < |model.layers| && n <= |tokens|
  {
    && Cached(kCells, model.shape.KvSize(), Keys(model, tokens, l, n))
    && Cached(vCells, model.shape.KvSize(), Values(model, tokens, l, n))
  }

  const WORDS := 0x1_0000_0000

  /** A key and a value cache of its own for every local layer; new buffers hold anything. */
  method NewCaches(layers: nat, offloaded: set<nat>, cells: nat)
    returns (ks: map<nat, array<U16>>, vs: map<nat, array<U16>>)
    ensures (forall o: nat :: o in ks <==> o < layers && o !in offloaded) && ks.Keys == vs.Keys
    ensures forall o | o in ks :: ks[o].Length == cells && vs[o].Length == cells && fresh(ks[o]) && fresh(vs[o])
    ensures forall o, p | o in ks && p in ks :: ks[o] != vs[p] && (o != p ==> ks[o] != ks[p] && vs[o] != vs[p])
  {
    ks, vs := map[], map[];
    for l := 0 to layers
      invariant (forall o: nat :: o in ks <==> o < l && o !in offloaded) && ks.Keys == vs.Keys
      invariant forall o | o in ks :: ks[o].Length == cells && vs[o].Length == cells && fresh(ks[o]) && fresh(vs[o])
      invariant forall o, p | o in ks && p in ks :: ks[o] != vs[p] && (o != p ==> ks[o] != ks[p] && vs[o] != vs[p])
    {
      if l !in offloaded {
        var kc, vc := new U16[cells], new U16[cells];
        ks, vs := ks[l := kc], vs[l := vc];
      }
    }
  }

  /** What a forward pass returns: the sampled token, or one of its exceptions. */
  datatype Forwarded = Next(token: int) | Inadmissible | RemoteFailed

  class QwenModel {
    const model: Model
    const maxContext: nat
    const offloaded: set<nat>
    /** The connection to the remote machine, and the runner behind it. */
    const client: RemoteClient.Client
    const remote: Remote.Runner
    /** Caches of the layers that run here; an offloaded layer has none. */
    const kCaches: map<nat, array<U16>>
    const vCaches: map<nat, array<U16>>
    const scores: array<Score>
    const attnOut: array<U16>
    var x: Vec
    var norm: Vec
    var q: Vec
    var k: Vec
    var v: Vec
    var attnProj: Vec
    var gate: Vec
    var up: Vec
    var ffAct: Vec
    var ffOut: Vec
    /** The layer ranges sent to the remote machine so far. */
    ghost var remoteRanges: seq<(nat, nat)>

    /** Allocates a cache for every local layer; new buffers hold anything. */
    constructor (model: Model, maxContext: U32, offloaded: set<nat>, client: RemoteClient.Client, remote: Remote.Runner)
      requires Fits(model) && model.shape.hidden > 0 && remote.model == model && remote.Valid()
      requires |model.layers| < WORDS && client.Valid() && remote.store == client.server.store
      requires offloaded != {} ==> client.handshake
      ensures Valid() && this.model == model && this.maxContext == maxContext
      ensures this.offloaded == offloaded && this.client == client && this.remote == remote
      ensures forall o | o in Footprint() - {remote} :: fresh(o)
    {
      hide RemoteClient.Client.Valid, Remote.Runner.Valid, Fits;
      var ks, vs := NewCaches(|model.layers|, offloaded, maxContext * model.shape.KvSize());
      var out := new U16[model.shape.QSize()];
      this.model, this.maxContext, this.offloaded := model, maxContext, offloaded;
      this.client, this.remote := client, remote;
      kCaches, vCaches, attnOut := ks, vs, out;
      scores := new Score[model.shape.heads * maxContext];
      x, norm, q, k, v, attnProj, gate, up, ffAct, ffOut := [], [], [], [], [], [], [], [], [], [];
      remoteRanges := [];
    }

    predicate IsLocal(l: nat) {
      l < |model.layers| && l !in offloaded
    }

    ghost predicate Shaped() {
      && Fits(model) && model.shape.hidden > 0 && maxContext < WORDS && |model.layers| < WORDS
      && (forall l: nat :: IsLocal(l) <==> l in kCaches) && kCaches.Keys == vCaches.Keys
      && (forall l | l in kCaches :: l in vCaches && kCaches[l].Length == maxContext * model.shape.KvSize()
                                  && vCaches[l].Length == maxContext * model.shape.KvSize())
      && scores.Length == model.shape.heads * maxContext && attnOut.Length == model.shape.QSize()
    }

    ghost predicate Separate()
      requires kCaches.Keys == vCaches.Keys
    {
      && (forall l, o | l in kCaches && o in kCaches && l != o ::
            kCaches[l] != kCaches[o] && vCaches[l] != vCaches[o])
      && (forall l, o | l in kCaches && o in kCaches :: kCaches[l] != vCaches[o])
      && (forall l | l in kCaches :: kCaches[l] != attnOut && vCaches[l] != attnOut)
    }

    ghost predicate Valid()
      reads client, client.server.store, remote.store
    {
      Shaped() && Separate() && Connected()
    }

    /** The client speaks to the machine of the runner; with offloaded layers the handshake is done. */
    ghost predicate Connected()
      reads client, client.server.store, remote.store
    {
      && remote.model == model && remote.Valid() && client.Valid() && remote.store == client.server.store
      && (offloaded != {} ==> client.handshake)
    }

    /** The remote machine takes requests of this model, and layer `l` is stored there as they need it. */
    ghost predicate RemoteReady(l: nat)
      reads client`uploadedLayers, remote.store
    {
      && RemoteLink.Acceptable(model.shape, model.shape.hidden, maxContext)
      && RemoteLink.LayerReady(client, remote, l, Remote.DimsOf(model.shape, model.shape.hidden, maxContext))
    }

    ghost predicate RangeReady(first: nat, last: nat)
      reads client`uploadedLayers, remote.store
    {
      forall l | first <= l <= last :: RemoteReady(l)
    }

    ghost predicate OffloadReady()
      reads client`uploadedLayers, remote.store
    {
      forall l | l in offloaded && l < |model.layers| :: RemoteReady(l)
    }

    /** Nothing goes wrong on the remote machine in these requests. */
    ghost predicate NoFailure(from: nat, to: nat) {
      forall k | from <= k < to :: !remote.device.fails(k)
    }

    /** Every offloaded layer can run, and nothing went wrong in these requests. */
    ghost predicate Reliable(from: nat, to: nat)
      reads client`uploadedLayers, remote.store
    {
      OffloadReady() && NoFailure(from, to)
    }

    lemma ReliableConcat(a: nat, b: nat, c: nat)
      requires a <= b <= c
      ensures Reliable(a, c) <==> Reliable(a, b) && Reliable(b, c)
    {
      hide OffloadReady;
    }

    ghost function CacheObjects(): set<object> {
      (set l | l in kCaches :: kCaches[l]) + (set l | l in vCaches :: vCaches[l])
    }

    ghost function Footprint(): set<object> {
      {this, remote, scores, attnOut} + CacheObjects()
    }

    /** The cache of layer `l`, on whichever machine it lives, holds positions 0..n-1 of `tokens`. */
    ghost predicate LayerHolds(tokens: seq<nat>, l: nat, n: nat)
      requires Shaped() && l < |model.layers| && n <= |tokens|
      reads remote, CacheObjects()
    {
      if l in offloaded then Remote.Holds(model, tokens, l, n, maxContext, remote.runtimes, remote.Caches())
      else LocalHolds(model, tokens, l, n, kCaches[l][..], vCaches[l][..])
    }

    ghost predicate CachesHold(tokens: seq<nat>, n: nat)
      requires Shaped() && n <= |tokens|
      reads remote, CacheObjects()
    {
      forall l | 0 <= l < |model.layers| :: LayerHolds(tokens, l, n)
    }

    /** Before position 0 nothing is asked of the caches: an earlier conversation cannot matter. */
    lemma AnyCachesWillDo(tokens: seq<nat>)
      requires Valid()
      ensures CachesHold(tokens, 0)
    {}

    /** Norm, projections, head norms and rotary embedding into `q`, `k` and `v`. */
    method Project(w: Weights, position: nat)
      modifies this`norm, this`q, this`k, this`v
      ensures q == Query(model, w, x, position) && k == Key(model, w, x, position) && v == Value(w, x)
    {
      norm := w.run(AttnNorm, x);
      q := IfPresent(w, AttnQBias, w.run(AttnQ, norm));
      k := IfPresent(w, AttnKBias, w.run(AttnK, norm));
      v := IfPresent(w, AttnVBias, w.run(AttnV, norm));
      q := IfPresent(w, QNorm, q);
      k := IfPresent(w, KNorm, k);
      q := model.ops.rope(q, model.shape.heads, position);
      k := model.ops.rope(k, model.shape.kvHeads, position);
    }

    /** Output projection, residual, feed-forward block and second residual. */
    method Finish(w: Weights)
      modifies this`attnProj, this`norm, this`gate, this`up, this`ffAct, this`ffOut, this`x
      ensures x == FeedForward(model, w, AttentionBlock(model, w, old(x), attnOut[..]))
    {
      attnProj := IfPresent(w, AttnOBias, w.run(AttnO, attnOut[..]));
      x := model.ops.add(x, attnProj);
      norm := w.run(FfnNorm, x);
      gate := IfPresent(w, FfnGateBias, w.run(FfnGate, norm));
      up := IfPresent(w, FfnUpBias, w.run(FfnUp, norm));
      ffAct := model.ops.swiglu(gate, up);
      ffOut := IfPresent(w, FfnDownBias, w.run(FfnDown, ffAct));
      x := model.ops.add(x, ffOut);
    }

    /** Stores this position's row in both caches of the layer and attends over rows 0..position. */
    method StoreAndAttend(l: nat, position: nat, ghost keys: seq<Vec>, ghost values: seq<Vec>)
      requires Shaped() && Separate() && IsLocal(l) && position < maxContext
      requires |k| == |v| == model.shape.KvSize() && |keys| == |values| == position
      requires Cached(kCaches[l][..], model.shape.KvSize(), keys)
          && Cached(vCaches[l][..], model.shape.KvSize(), values)
      modifies kCaches[l], vCaches[l], scores, attnOut
      ensures Cached(kCaches[l][..], model.shape.KvSize(), keys + [k])
      ensures Cached(vCaches[l][..], model.shape.KvSize(), values + [v])
      ensures attnOut[..] == Mixed(model, Scores(model, q, keys + [k]), values + [v])
    {
      var kv := model.shape.KvSize();
      RowsFit(position, maxContext, kv);
      StoreRow(k, kCaches[l], position, kv, keys);
      StoreRow(v, vCaches[l], position, kv, values);
      hide Cached, Row, Mixed, Scores;
      AttentionScores(model, q, kCaches[l], scores, position, maxContext, keys + [k]);
      AttentionValues(model, scores[..], vCaches[l], attnOut, position, maxContext,
                      Scores(model, q, keys + [k]), values + [v]);
    }

    /** One local layer. */
    method RunLocalLayer(l: nat, position: nat, ghost tokens: seq<nat>)
      requires Valid() && IsLocal(l) && position < maxContext && position < |tokens|
      requires x == Hidden(model, tokens, l, position) && LayerHolds(tokens, l, position)
      modifies this`norm, this`q, this`k, this`v, this`attnProj, this`gate, this`up, this`ffAct, this`ffOut, this`x
      modifies kCaches[l], vCaches[l], scores, attnOut
      ensures x == Hidden(model, tokens, l + 1, position) && LayerHolds(tokens, l, position + 1)
    {
      ghost var h, keys, values := x, Keys(model, tokens, l, position), Values(model, tokens, l, position);
      HiddenShape(model, tokens, l, position);
      LayerShapes(model, l, h, position);
      HiddenStep(model, tokens, l + 1, position);
      Project(model.layers[l], position);
      assert Keys(model, tokens, l, position + 1) == keys + [k];
      assert Values(model, tokens, l, position + 1) == values + [v];
      hide Query, Key, Value, Mixed, Scores, FeedForward, AttentionBlock, Cached, Fits, Hidden, Keys, Values;
      StoreAndAttend(l, position, keys, values);
      Finish(model.layers[l]);
    }

    ghost function Range(first: nat, last: nat): Remote.Sizing {
      Remote.Sizing(first, last + 1, maxContext, model.shape.KvSize())
    }

    /** One range of offloaded layers: X goes to the remote machine as a request and comes back. */
    method RunRemoteRange(first: nat, last: nat, position: nat, ghost tokens: seq<nat>) returns (ok: bool)
      requires Valid() && first <= last < |model.layers| && position < maxContext && position < |tokens|
      requires Remote.RangeHeld(model, tokens, Range(first, last), position, remote.runtimes, remote.Caches())
      requires x == Hidden(model, tokens, first, position) && offloaded != {}
      modifies this`x, this`remoteRanges, remote, client`nextRequestId, client`handshake, client`calls, client`replies
      ensures Valid() && OneMoreRequest(old(remote.submissions), first, last)
      ensures ok <==> RangeReady(first, last) && !remote.device.fails(old(remote.submissions))
      ensures ok ==> x == Hidden(model, tokens, last + 1, position)
      ensures ok ==>
                && Remote.RangeHeld(model, tokens, Range(first, last), position + 1, remote.runtimes, remote.Caches())
                && Remote.OthersHeld(model, tokens, Range(first, last), old(remote.runtimes), old(remote.Caches()),
                                     remote.runtimes, remote.Caches())
      ensures remoteRanges == old(remoteRanges) + [(first, last)]
    {
      hide Valid, Shaped, Separate, Connected, Hidden, Fits, CacheSlots, RangeReady, RemoteReady, OffloadReady;
      hide NoFailure, Remote.RangeHeld, Remote.OthersHeld, Remote.Runner.Valid, Remote.Runner.Caches;
      hide RemoteLink.Accepts, RemoteClient.Client.Valid;
      ConnectedFacts();
      HiddenShape(model, tokens, first, position);
      AcceptedRange(first, last);
      var output := RemoteLink.ContinueRange(client, remote, first, last, position, maxContext, x, tokens);
      remoteRanges := remoteRanges + [(first, last)];
      if output.Some? {
        x := output.value;
      }
      ok := output.Some?;
      StillValid();
    }

    lemma StillValid()
      requires Shaped() && Separate() && remote.model == model && remote.Valid() && client.Valid() && client.handshake
      requires remote.store == client.server.store
      ensures Valid()
    {
      hide Shaped, Separate, Remote.Runner.Valid, RemoteClient.Client.Valid;
    }

    lemma ConnectedFacts()
      requires Valid() && offloaded != {}
      ensures Shaped() && Separate() && Fits(model) && maxContext < WORDS && |model.layers| < WORDS
      ensures remote.model == model && remote.Valid() && client.Valid() && remote.store == client.server.store
      ensures client.handshake
    {}

    lemma AcceptedRange(first: nat, last: nat)
      requires first <= last && remote.model == model
      ensures RemoteLink.Accepts(client, remote, first, last, maxContext, model.shape.hidden)
              <==> RangeReady(first, last)
    {
      hide RemoteLink.Acceptable, Remote.DimsOf, RemoteLink.LayerReady;
      var d := Remote.DimsOf(model.shape, model.shape.hidden, maxContext);
      forall l | first <= l <= last
        ensures RemoteReady(l) <==> && RemoteLink.Acceptable(model.shape, model.shape.hidden, maxContext)
                                    && RemoteLink.LayerReady(client, remote, l, d)
      {
      }
      assert RemoteReady(first) ==> RemoteLink.Acceptable(model.shape, model.shape.hidden, maxContext);
    }

    /** A range that is ready reaches the remote runner as one request, any other as one or none. */
    ghost predicate OneMoreRequest(requests: nat, first: nat, last: nat)
      reads client`uploadedLayers, remote, remote.store
    {
      && requests <= remote.submissions <= requests + 1
      && (RangeReady(first, last) ==> remote.submissions == requests + 1)
    }

    /** Layers below `done` hold this position, the others only the earlier ones. */
    ghost predicate Progress(tokens: seq<nat>, done: nat, position: nat)
      requires Shaped() && position < |tokens|
      reads remote, CacheObjects()
    {
      forall l | 0 <= l < |model.layers| :: LayerProgress(tokens, l, done, position)
    }

    ghost predicate LayerProgress(tokens: seq<nat>, l: nat, done: nat, position: nat)
      requires Shaped() && l < |model.layers| && position < |tokens|
      reads remote, CacheObjects()
    {
      LayerHolds(tokens, l, if l < done then position + 1 else position)
    }

    method StepLocal(l: nat, position: nat, ghost tokens: seq<nat>)
      requires Valid() && IsLocal(l) && position < maxContext && position < |tokens|
      requires x == Hidden(model, tokens, l, position) && Progress(tokens, l, position)
      modifies this`norm, this`q, this`k, this`v, this`attnProj, this`gate, this`up, this`ffAct, this`ffOut, this`x
      modifies kCaches[l], vCaches[l], scores, attnOut
      ensures Valid() && x == Hidden(model, tokens, l + 1, position) && Progress(tokens, l + 1, position)
    {
      hide Hidden, Fits, LocalHolds, Remote.Holds, Remote.Runner.Valid, RemoteReady;
      assert LayerProgress(tokens, l, l, position);
      RunLocalLayer(l, position, tokens);
      ghost var done := l + 1;
      forall o | 0 <= o < |model.layers| ensures LayerProgress(tokens, o, done, position) {
        assert old(LayerProgress(tokens, o, l, position));
      }
    }

    method StepRemote(first: nat, last: nat, position: nat, ghost tokens: seq<nat>) returns (ok: bool)
      requires Valid() && first <= last < |model.layers| && position < maxContext && position < |tokens|
      requires forall l | first <= l <= last :: l in offloaded
      requires x == Hidden(model, tokens, first, position) && Progress(tokens, first, position)
      modifies this`x, this`remoteRanges, remote, client`nextRequestId, client`handshake, client`calls, client`replies
      ensures Valid() && OneMoreRequest(old(remote.submissions), first, last)
      ensures ok <==> RangeReady(first, last) && !remote.device.fails(old(remote.submissions))
      ensures ok ==> x == Hidden(model, tokens, last + 1, position) && Progress(tokens, last + 1, position)
      ensures remoteRanges == old(remoteRanges) + [(first, last)]
    {
      hide Hidden, Fits, LocalHolds, Remote.Holds, Remote.Runner.Valid, RemoteReady, Connected, OneMoreRequest;
      assert first in offloaded;
      assert Remote.RangeHeld(model, tokens, Range(first, last), position, remote.runtimes, remote.Caches()) by {
        forall l | first <= l < last + 1
          ensures Remote.Holds(model, tokens, l, position, maxContext, remote.runtimes, remote.Caches())
        {
          assert LayerProgress(tokens, l, first, position);
        }
      }
      ok := RunRemoteRange(first, last, position, tokens);
      if ok {
        ghost var done := last + 1;
        forall o | 0 <= o < |model.layers| ensures LayerProgress(tokens, o, done, position) {
          assert old(LayerProgress(tokens, o, first, position));
        }
      }
    }

    /** What the caches hold does not depend on the tokens that follow. */
    lemma LayerHoldsIsCausal(tokens: seq<nat>, more: seq<nat>, l: nat, n: nat)
      requires Shaped() && l < |model.layers| && n <= |tokens|
      ensures LayerHolds(tokens, l, n) <==> LayerHolds(tokens + more, l, n)
    {
      hide Cached, Fits, Shaped;
      CachesAreCausal(model, tokens, more, l, n);
    }

    lemma CachesHoldIsCausal(tokens: seq<nat>, more: seq<nat>, n: nat)
      requires Shaped() && n <= |tokens| && CachesHold(tokens, n)
      ensures CachesHold(tokens + more, n)
    {
      hide LayerHolds, Shaped;
      forall l | 0 <= l < |model.layers| ensures LayerHolds(tokens + more, l, n) {
        LayerHoldsIsCausal(tokens, more, l, n);
      }
    }

    /** Runs one token through every layer. With the caches holding the earlier tokens, the final hidden
        state is the one computed from scratch on the earlier tokens and this one, and the caches then
        hold this position too. The pass fails exactly when the token or position is out of range, when
        the remote machine refuses an offloaded layer, or when something else goes wrong there. */
    method ForwardToken(token: int, position: nat, computeLogits: bool, ghost earlier: seq<nat>)
      returns (r: Forwarded)
      requires Valid() && |earlier| == position && CachesHold(earlier, position)
      modifies Footprint(), client`nextRequestId, client`handshake, client`calls, client`replies
      ensures Valid() && old(remote.submissions) <= remote.submissions
      ensures r.Inadmissible? <==> !(position < maxContext && 0 <= token < model.vocabSize)
      ensures r.Next? <==> !r.Inadmissible? && Reliable(old(remote.submissions), remote.submissions)
      ensures r.Next? ==> x == Hidden(model, earlier + [token], |model.layers|, position)
      ensures r.Next? ==> CachesHold(earlier + [token], position + 1)
      ensures r.Next? ==>
                if computeLogits then r.token >= 0 && IsGreedyChoice(model.logits(model.outputNorm(x)), r.token)
                else r.token == -1
      ensures r.Next? ==> remoteRanges == old(remoteRanges) + OffloadRuns(offloaded, |model.layers|, 0)
      ensures !r.Inadmissible? ==> RequestsBelong(old(remoteRanges), old(remote.submissions))
      ensures OffloadRuns(offloaded, |model.layers|, 0) == [] ==> !r.RemoteFailed?
      ensures r.Inadmissible? ==> CachesHold(earlier, position)
    {
      hide Shaped, CachesHold, LayerHolds, OffloadRuns, Hidden, IsGreedyChoice, Valid, Reliable, RequestsBelong;
      hide Footprint;
      if position >= maxContext || token < 0 || token >= model.vocabSize {
        return Inadmissible;
      }
      OwnObjects();
      ghost var tokens: seq<nat> := earlier + [token];
      ValidIsShaped();
      CachesHoldIsCausal(earlier, [token], position);
      ghost var ranges, requests := remoteRanges, remote.submissions;
      var ok := RunLayers(token, position, tokens);
      NoRunsNoFailure(ranges, requests);
      if !ok {
        return RemoteFailed;
      }
      if !computeLogits {
        return Next(-1);
      }
      var best := SampleNext();
      r := Next(best);
    }

    /** Final norm, output layer and greedy sampling. */
    method SampleNext() returns (best: nat)
      modifies this`norm
      ensures IsGreedyChoice(model.logits(model.outputNorm(x)), best)
    {
      norm := model.outputNorm(x);
      best := SampleGreedy(model.logits(norm));
    }

    /** The ranges sent since then are the first of the pass; each reaches the remote runner once, unless
        a layer is not ready. */
    ghost predicate RequestsBelong(ranges: seq<(nat, nat)>, requests: nat)
      reads this`remoteRanges, client`uploadedLayers, remote, remote.store
    {
      && ranges <= remoteRanges <= ranges + OffloadRuns(offloaded, |model.layers|, 0)
      && remote.submissions <= requests + |remoteRanges| - |ranges|
      && (OffloadReady() ==> remote.submissions == requests + |remoteRanges| - |ranges|)
    }

    /** With nothing offloaded nothing is sent, and nothing can go wrong. */
    lemma NoRunsNoFailure(ranges: seq<(nat, nat)>, requests: nat)
      ensures RequestsBelong(ranges, requests) && OffloadRuns(offloaded, |model.layers|, 0) == [] ==>
                Reliable(requests, remote.submissions)
    {
      hide RemoteReady;
      if OffloadRuns(offloaded, |model.layers|, 0) == [] {
        forall l: nat | l < |model.layers| ensures l !in offloaded {
          RunsCoverOffloadedLayers(offloaded, |model.layers|, 0, l);
        }
      }
    }

    /** All layers below `layer` have run, and those of them that are offloaded are ready. */
    ghost predicate ReadyBelow(layer: nat)
      reads client`uploadedLayers, remote.store
    {
      forall l | l in offloaded && l < layer :: RemoteReady(l)
    }

    /** A pass that began with `ranges0` and `requests0` has got to `layer` without a failure. */
    ghost predicate UnderWay(
      layer: nat, ranges0: seq<(nat, nat)>, requests0: nat, ranges: seq<(nat, nat)>, requests: nat)
      requires layer <= |model.layers|
      reads client`uploadedLayers, remote.store
    {
      && ranges0 <= ranges && requests == requests0 + |ranges| - |ranges0|
      && ranges + OffloadRuns(offloaded, |model.layers|, layer) == ranges0 + OffloadRuns(offloaded, |model.layers|, 0)
      && ReadyBelow(layer) && NoFailure(requests0, requests)
    }

    lemma PassStarts()
      ensures UnderWay(0, remoteRanges, remote.submissions, remoteRanges, remote.submissions)
    {
      hide OffloadRuns;
    }

    lemma LocalDone(layer: nat, ranges0: seq<(nat, nat)>, requests0: nat, ranges: seq<(nat, nat)>, requests: nat)
      requires layer < |model.layers| && layer !in offloaded && UnderWay(layer, ranges0, requests0, ranges, requests)
      ensures UnderWay(layer + 1, ranges0, requests0, ranges, requests)
    {
      hide OffloadRuns, RemoteReady, NoFailure;
      RunsStep(offloaded, |model.layers|, layer);
    }

    /** Behind a range the pass goes on, or it has failed for one of the two reasons. */
    lemma RangeDone(
      layer: nat, last: nat, ranges0: seq<(nat, nat)>, requests0: nat, ranges: seq<(nat, nat)>, requests: nat)
      requires layer < |model.layers| && layer in offloaded && last == RunEnd(offloaded, |model.layers|, layer)
      requires UnderWay(layer, ranges0, requests0, ranges, requests)
      requires remoteRanges == ranges + [(layer, last)] && OneMoreRequest(requests, layer, last)
      ensures requests0 <= remote.submissions
      ensures if RangeReady(layer, last) && !remote.device.fails(requests)
              then UnderWay(last + 1, ranges0, requests0, remoteRanges, remote.submissions)
              else !Reliable(requests0, remote.submissions) && RequestsBelong(ranges0, requests0)
    {
      hide OffloadRuns, RemoteReady, RunEnd;
      RunsStep(offloaded, |model.layers|, layer);
      RunEndIsMaximal(offloaded, |model.layers|, layer);
      var rest := OffloadRuns(offloaded, |model.layers|, last + 1);
      assert remoteRanges + rest == ranges + ([(layer, last)] + rest);
    }

    lemma PassDone(ranges0: seq<(nat, nat)>, requests0: nat)
      requires UnderWay(|model.layers|, ranges0, requests0, remoteRanges, remote.submissions)
      ensures requests0 <= remote.submissions && Reliable(requests0, remote.submissions)
      ensures RequestsBelong(ranges0, requests0)
      ensures remoteRanges == ranges0 + OffloadRuns(offloaded, |model.layers|, 0)
    {
      RunsStep(offloaded, |model.layers|, |model.layers|);
      hide OffloadRuns, RemoteReady;
    }

    lemma OwnObjects()
      ensures {this, remote, scores, attnOut} <= Footprint() && this !in CacheObjects()
    {}

    lemma OwnCaches(l: nat)
      requires Shaped() && IsLocal(l)
      ensures l in kCaches && l in vCaches && kCaches[l] in Footprint() && vCaches[l] in Footprint()
    {}

    /** Embedding and the layer loop: local layers one by one, runs of offloaded layers in one request. */
    method RunLayers(token: nat, position: nat, ghost tokens: seq<nat>) returns (ok: bool)
      requires Valid() && position < maxContext && position < |tokens| && tokens[position] == token
      requires CachesHold(tokens, position)
      modifies Footprint(), client`nextRequestId, client`handshake, client`calls, client`replies
      ensures Valid() && old(remote.submissions) <= remote.submissions
      ensures ok <==> Reliable(old(remote.submissions), remote.submissions)
      ensures ok ==> x == Hidden(model, tokens, |model.layers|, position) && CachesHold(tokens, position + 1)
      ensures ok ==> remoteRanges == old(remoteRanges) + OffloadRuns(offloaded, |model.layers|, 0)
      ensures RequestsBelong(old(remoteRanges), old(remote.submissions))
    {
      hide Shaped, CachesHold, LayerHolds, OffloadRuns, Hidden, Valid, RunEnd, Progress, RangeReady, OneMoreRequest;
      hide UnderWay, Reliable, RequestsBelong, Footprint;
      ValidIsShaped();
      OwnObjects();
      NoProgress(tokens, position);
      HiddenStart(model, tokens, position);
      PassStarts();
      x := model.embed(token);
      var layer := 0;
      while layer < |model.layers|
        invariant layer <= |model.layers| && Valid()
        invariant x == Hidden(model, tokens, layer, position) && Progress(tokens, layer, position)
        invariant UnderWay(layer, old(remoteRanges), old(remote.submissions), remoteRanges, remote.submissions)
      {
        if layer in offloaded {
          var last := EndOfRun(layer);
          ghost var ranges, requests := remoteRanges, remote.submissions;
          var done := StepRemote(layer, last, position, tokens);
          RangeDone(layer, last, old(remoteRanges), old(remote.submissions), ranges, requests);
          if !done {
            return false;
          }
          layer := last;
        } else {
          OwnCaches(layer);
          StepLocal(layer, position, tokens);
          LocalDone(layer, old(remoteRanges), old(remote.submissions), remoteRanges, remote.submissions);
        }
        layer := layer + 1;
      }
      CompleteProgress(tokens, position);
      PassDone(old(remoteRanges), old(remote.submissions));
      ok := true;
    }

    /** The last layer of the run of offloaded layers that starts at `layer`. */
    method EndOfRun(layer: nat) returns (last: nat)
      requires layer < |model.layers| && layer in offloaded
      ensures last == RunEnd(offloaded, |model.layers|, layer)
      ensures layer <= last < |model.layers| && forall l | layer <= l <= last :: l in offloaded
    {
      last := layer;
      while last + 1 < |model.layers| && last + 1 in offloaded
        invariant layer <= last < |model.layers| && (forall l | layer <= l <= last :: l in offloaded)
        invariant RunEnd(offloaded, |model.layers|, last) == RunEnd(offloaded, |model.layers|, layer)
      {
        last := last + 1;
      }
    }

    lemma ValidIsShaped()
      requires Valid()
      ensures Shaped()
    {}

    lemma CompleteProgress(tokens: seq<nat>, position: nat)
      requires Shaped() && position < |tokens| && Progress(tokens, |model.layers|, position)
      ensures CachesHold(tokens, position + 1)
    {
      hide LayerHolds, Shaped;
      var filled := position + 1;
      forall l | 0 <= l < |model.layers| ensures LayerHolds(tokens, l, filled) {
        assert LayerProgress(tokens, l, |model.layers|, position);
      }
    }

    lemma NoProgress(tokens: seq<nat>, position: nat)
      requires Shaped() && position < |tokens| && CachesHold(tokens, position)
      ensures Progress(tokens, 0, position)
    {
      hide LayerHolds, Shaped;
      forall l | 0 <= l < |model.layers| ensures LayerProgress(tokens, l, 0, position) {
        assert LayerHolds(tokens, l, position);
      }
    }
  }

  /** First index of the largest finite logit. */
  method SampleGreedy(logits: seq<Logit>) returns (best: nat)
    ensures IsGreedyChoice(logits, best)
  {
    var value := NotFinite;
    best := 0;
    for i := 0 to |logits|
      invariant value.NotFinite? ==> best == 0 && forall j | 0 <= j < i :: logits[j].NotFinite?
      invariant value.Finite? ==>
                  && best < i && logits[best] == value
                  && (forall j | 0 <= j < i && logits[j].Finite? :: logits[j].value <= value.value)
                  && (forall j | 0 <= j < best && logits[j].Finite? :: logits[j].value < value.value)
    {
      if logits[i].Finite? && (value.NotFinite? || logits[i].value > value.value) {
        value, best := logits[i], i;
      }
    }
  }
}
