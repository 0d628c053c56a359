/** The inference session: prompt text in, greedy continuation out. */
module Session {
  import opened Words
  import opened ByteTable
  import Bpe
  import opened ChatTemplate
  import T = Tokenizer
  import opened Transformer
  import O = OffloadedRanges
  import Q = QwenModel

  datatype StopReason = Eos | MaxNewTokens | ContextLimit

  datatype GenerationResult = GenerationResult(text: Bytes, generatedTokens: nat, stopReason: StopReason)

  /** The exceptions of a generation. */
  datatype Failure = NoTokens | TooLong | TokenOutOfRange | RemoteFailed

  datatype Outcome = Done(result: GenerationResult) | Failed(why: Failure)

  // ---- What greedy decoding means ----

  /** `next` is the greedy choice after `fed`, computed from scratch. */
  ghost predicate IsNext(m: Model, fed: seq<nat>, next: nat) {
    fed != [] && IsGreedyChoice(m.logits(m.outputNorm(Hidden(m, fed, |m.layers|, |fed| - 1))), next)
  }

  /** Each generated token is the greedy choice after the prompt and the tokens generated before. */
  ghost predicate IsContinuation(m: Model, prompt: seq<nat>, generated: seq<nat>) {
    forall k | 0 <= k < |generated| :: IsNext(m, prompt + generated[..k], generated[k])
  }

  /** The continuation stops at the limit, or before the first end-of-text token. */
  ghost predicate IsGeneration(m: Model, prompt: seq<nat>, eos: int, limit: nat, generated: seq<nat>) {
    && IsContinuation(m, prompt, generated) && |generated| <= limit
    && (forall k | 0 <= k < |generated| :: generated[k] != eos)
    && (|generated| < limit ==> eos >= 0 && IsNext(m, prompt + generated, eos))
  }

  lemma NextIsUnique(m: Model, fed: seq<nat>, a: nat, b: nat)
    requires IsNext(m, fed, a) && IsNext(m, fed, b)
    ensures a == b
  {
    hide Hidden;
    GreedyChoiceUnique(m.logits(m.outputNorm(Hidden(m, fed, |m.layers|, |fed| - 1))), a, b);
  }

  lemma {:induction false} ContinuationsAgree(m: Model, prompt: seq<nat>, a: seq<nat>, b: seq<nat>, n: nat)
    requires IsContinuation(m, prompt, a) && IsContinuation(m, prompt, b) && n <= |a| && n <= |b|
    ensures a[..n] == b[..n]
  {
    hide IsNext;
    if n > 0 {
      ContinuationsAgree(m, prompt, a, b, n - 1);
      NextIsUnique(m, prompt + a[..n - 1], a[n - 1], b[n - 1]);
      assert a[..n] == a[..n - 1] + [a[n - 1]] && b[..n] == b[..n - 1] + [b[n - 1]];
    }
  }

  /** Two generations from one prompt that cannot both be right unless they agree to the end. */
  lemma ShorterGenerationStops(m: Model, prompt: seq<nat>, eos: int, limit: nat, a: seq<nat>, b: seq<nat>)
    requires IsGeneration(m, prompt, eos, limit, a) && IsGeneration(m, prompt, eos, limit, b)
    ensures |a| >= |b|
  {
    hide IsNext;
    var n := |a|;
    if n < |b| {
      ContinuationsAgree(m, prompt, a, b, n);
      assert a[..n] == a;
      NextIsUnique(m, prompt + a, eos, b[n]);
      assert false;
    }
  }

  /** The prompt, the end-of-text id and the limit determine the generated tokens: nothing that
      happened before in the session, and no choice of offloaded layers, has an influence. */
  lemma GenerationIsDetermined(m: Model, prompt: seq<nat>, eos: int, limit: nat, a: seq<nat>, b: seq<nat>)
    requires IsGeneration(m, prompt, eos, limit, a) && IsGeneration(m, prompt, eos, limit, b)
    ensures a == b
  {
    ShorterGenerationStops(m, prompt, eos, limit, a, b);
    ShorterGenerationStops(m, prompt, eos, limit, b, a);
    ContinuationsAgree(m, prompt, a, b, |a|);
    assert a[..|a|] == a && b[..|b|] == b;
  }

  // ---- The session ----

  ghost predicate AllInRange(tokens: seq<int>, size: nat) {
    forall k | 0 <= k < |tokens| :: 0 <= tokens[k] < size
  }

  lemma RangeStep(tokens: seq<int>, i: nat, size: nat)
    requires i < |tokens|
    ensures AllInRange(tokens[..i], size) ==> (AllInRange(tokens[..i + 1], size) <==> 0 <= tokens[i] < size)
    ensures AllInRange(tokens, size) ==> 0 <= tokens[i] < size
  {}

  ghost function FailureOf(tokens: seq<int>, limit: nat, maxContext: nat, vocabSize: nat): Option<Failure> {
    if tokens == [] then Some(NoTokens)
    else if |tokens| + limit >= maxContext then Some(TooLong)
    else if !AllInRange(tokens, vocabSize) then Some(TokenOutOfRange)
    else None
  }

  /** What the generation loop has produced so far, and the token it emits next. */
  ghost predicate SoFar(
    m: Model, vocab: seq<Bytes>, eos: int, prompt: seq<nat>, generated: seq<nat>, pieces: seq<Bytes>, next: int)
  {
    && |pieces| == |generated| && 0 <= next < m.vocabSize
    && (forall k | 0 <= k < |pieces| :: pieces[k] == T.TokenBytes(vocab, generated[k]))
    && (forall k | 0 <= k < |generated| :: generated[k] != eos)
    && IsContinuation(m, prompt, generated) && IsNext(m, prompt + generated, next)
  }

  lemma OneMore(
    m: Model, vocab: seq<Bytes>, eos: int, prompt: seq<nat>, generated: seq<nat>, pieces: seq<Bytes>, next: nat,
    sampled: int)
    requires SoFar(m, vocab, eos, prompt, generated, pieces, next) && next != eos
    requires 0 <= sampled < m.vocabSize && IsNext(m, prompt + generated + [next], sampled)
    ensures SoFar(m, vocab, eos, prompt, generated + [next], pieces + [T.TokenBytes(vocab, next)], sampled)
  {
    hide IsNext, T.TokenBytes;
    var longer := generated + [next];
    assert prompt + longer == prompt + generated + [next];
    forall k | 0 <= k < |longer| ensures IsNext(m, prompt + longer[..k], longer[k]) {
      if k < |generated| {
        assert longer[..k] == generated[..k];
      } else {
        assert longer[..k] == generated;
      }
    }
  }

  /** The answer of the session when no exception ends it. */
  ghost predicate IsAnswer(
    m: Model, vocab: seq<Bytes>, eos: int, prompt: seq<nat>, limit: nat, r: GenerationResult, generated: seq<nat>,
    pieces: seq<Bytes>)
  {
    && IsGeneration(m, prompt, eos, limit, generated)
    && r.generatedTokens == |generated| == |pieces| && r.text == Bpe.Flatten(pieces)
    && (forall k | 0 <= k < |pieces| :: pieces[k] == T.TokenBytes(vocab, generated[k]))
    && r.stopReason == if |generated| < limit then Eos else MaxNewTokens
  }

  lemma SoFarIsAnswer(
    m: Model, vocab: seq<Bytes>, eos: int, prompt: seq<nat>, generated: seq<nat>, pieces: seq<Bytes>, next: int,
    limit: nat, r: GenerationResult)
    requires SoFar(m, vocab, eos, prompt, generated, pieces, next) && |generated| <= limit
    requires |generated| < limit ==> next == eos
    requires r == GenerationResult(Bpe.Flatten(pieces), |generated|, if |generated| < limit then Eos else MaxNewTokens)
    ensures IsAnswer(m, vocab, eos, prompt, limit, r, generated, pieces)
  {
    hide IsNext, T.TokenBytes;
  }

  /** What has been reported when a generation is cut short: tokens of the continuation, decoded. */
  ghost predicate IsReported(
    m: Model, vocab: seq<Bytes>, eos: int, prompt: seq<nat>, generated: seq<nat>, pieces: seq<Bytes>)
  {
    && |pieces| == |generated| && IsContinuation(m, prompt, generated)
    && (forall k | 0 <= k < |pieces| :: pieces[k] == T.TokenBytes(vocab, generated[k]))
    && (forall k | 0 <= k < |generated| :: generated[k] != eos)
  }

  lemma ReportedMore(
    m: Model, vocab: seq<Bytes>, eos: int, prompt: seq<nat>, generated: seq<nat>, pieces: seq<Bytes>, next: nat)
    requires SoFar(m, vocab, eos, prompt, generated, pieces, next) && next != eos
    ensures IsReported(m, vocab, eos, prompt, generated + [next], pieces + [T.TokenBytes(vocab, next)])
  {
    hide IsNext, T.TokenBytes;
    var longer := generated + [next];
    forall k | 0 <= k < |longer| ensures IsNext(m, prompt + longer[..k], longer[k]) {
      if k < |generated| {
        assert longer[..k] == generated[..k];
      } else {
        assert longer[..k] == generated;
      }
    }
  }

  lemma FlattenMore(pieces: seq<Bytes>, piece: Bytes)
    ensures Bpe.Flatten(pieces + [piece]) == Bpe.Flatten(pieces) + piece
  {
    Bpe.FlattenConcat(pieces, [piece]);
    assert [piece][1..] == [];
  }

  /** The calls of the forward pass: which token was fed at which position. */
  datatype Feed = Feed(token: int, position: nat)

  ghost predicate FedInOrder(feeds: seq<Feed>, tokens: seq<int>) {
    |feeds| == |tokens| && forall k | 0 <= k < |feeds| :: feeds[k] == Feed(tokens[k], k)
  }

  lemma AppendLast(a: seq<nat>, b: seq<nat>, last: nat)
    ensures a + (b + [last]) == a + b + [last]
  {}

  lemma FedMore(feeds: seq<Feed>, tokens: seq<int>, token: int, position: nat)
    requires FedInOrder(feeds, tokens) && position == |tokens|
    ensures FedInOrder(feeds + [Feed(token, position)], tokens + [token])
  {}

  class Session {
    const tokenizer: T.Tokenizer
    const model: Q.QwenModel
    var history: seq<Turn>
    /** The forward passes of the latest generation. */
    ghost var feeds: seq<Feed>

    constructor (tokenizer: T.Tokenizer, model: Q.QwenModel)
      ensures this.tokenizer == tokenizer && this.model == model && history == []
    {
      this.tokenizer, this.model := tokenizer, model;
      history, feeds := [], [];
    }

    /** The three objects are separate, and the output layer gives one logit for each token. */
    ghost predicate Valid()
      reads tokenizer, model.client, model.client.server.store, model.remote.store
    {
      && tokenizer.Valid() && model.Valid()
      && tokenizer !in model.Footprint() && this !in model.Footprint()
      && (forall x: Vec :: |model.model.logits(x)| == model.model.vocabSize)
    }

    /** The ids of a prompt, for the tokenizer as it is now. */
    ghost predicate IsEncoding(text: Bytes, tokens: seq<int>)
      reads tokenizer
    {
      exists merged :: Bpe.IsMerged(tokenizer.merges, T.InitialPieces(tokenizer.tokenToId, text, 0), merged)
                       && tokens == tokenizer.BosPrefix(true) + T.PieceIds(tokenizer.tokenToId, tokenizer.unkId, merged)
    }

    lemma EncodingIsUnique(text: Bytes, a: seq<int>, b: seq<int>)
      requires IsEncoding(text, a) && IsEncoding(text, b)
      ensures a == b
    {
      var pieces := T.InitialPieces(tokenizer.tokenToId, text, 0);
      var p :| Bpe.IsMerged(tokenizer.merges, pieces, p)
               && a == tokenizer.BosPrefix(true) + T.PieceIds(tokenizer.tokenToId, tokenizer.unkId, p);
      var q :| Bpe.IsMerged(tokenizer.merges, pieces, q)
               && b == tokenizer.BosPrefix(true) + T.PieceIds(tokenizer.tokenToId, tokenizer.unkId, q);
      hide Bpe.IsMerged, T.PieceIds;
      Bpe.MergedIsUnique(tokenizer.merges, pieces, p, q);
    }

    /** One forward pass of the loop: what is fed joins the history that the caches hold. */
    method Step(token: int, position: nat, computeLogits: bool, ghost fed: seq<nat>) returns (r: Q.Forwarded)
      requires Valid() && |fed| == position < model.maxContext && model.CachesHold(fed, position)
      requires FedInOrder(feeds, fed)
      modifies this`feeds, model.Footprint()
      modifies model.client`nextRequestId, model.client`handshake, model.client`calls, model.client`replies
      ensures Valid() && FedInOrder(feeds, fed + [token]) && Requests() >= old(Requests())
      ensures r.Inadmissible? <==> !(0 <= token < model.model.vocabSize)
      ensures r.Next? <==> 0 <= token < model.model.vocabSize && model.Reliable(old(Requests()), Requests())
      ensures r.Next? ==> model.CachesHold(fed + [token], position + 1)
      ensures r.Next? && computeLogits ==>
                0 <= r.token < model.model.vocabSize && IsNext(model.model, fed + [token], r.token)
    {
      hide FedInOrder, Hidden, Fits, Q.QwenModel.CachesHold, O.OffloadRuns, T.Tokenizer.Valid, Q.QwenModel.Valid;
      hide Q.QwenModel.Reliable;
      r := model.ForwardToken(token, position, computeLogits, fed);
      FedMore(feeds, fed, token, position);
      feeds := feeds + [Feed(token, position)];
    }

    lemma ModelIsShaped()
      requires Valid()
      ensures model.Shaped() && tokenizer !in model.Footprint() && this !in model.Footprint()
      ensures model.client !in model.Footprint() && model.remote.store !in model.Footprint()
    {
      hide T.Tokenizer.Valid, Q.QwenModel.Shaped, Q.QwenModel.Separate, Q.QwenModel.Connected;
    }

    lemma NothingFed(tokens: seq<int>)
      requires Valid()
      ensures model.CachesHold(tokens[..0], 0) && FedInOrder([], tokens[..0])
              && AllInRange(tokens[..0], model.model.vocabSize)
    {
      hide T.Tokenizer.Valid, Q.QwenModel.CachesHold;
      model.AnyCachesWillDo(tokens[..0]);
    }

    /** Requests to the remote machine so far. */
    ghost function Requests(): nat
      reads model.remote
    {
      model.remote.submissions
    }

    /** Feeds the prompt; only the last token asks for logits. */
    method Prefill(tokens: seq<int>) returns (next: Q.Forwarded)
      requires Valid() && 0 < |tokens| <= model.maxContext
      modifies this`feeds, model.Footprint()
      modifies model.client`nextRequestId, model.client`handshake, model.client`calls, model.client`replies
      ensures Valid() && Requests() >= old(Requests())
      ensures next.Inadmissible? ==> !AllInRange(tokens, model.model.vocabSize)
      ensures next.RemoteFailed? ==> !model.Reliable(old(Requests()), Requests())
      ensures next.Next? ==>
                && AllInRange(tokens, model.model.vocabSize) && model.Reliable(old(Requests()), Requests())
                && FedInOrder(feeds, tokens) && model.CachesHold(tokens, |tokens|)
                && 0 <= next.token < model.model.vocabSize && IsNext(model.model, tokens, next.token)
    {
      hide IsNext, FedInOrder, Valid, Q.QwenModel.Shaped, Q.QwenModel.CachesHold, Q.QwenModel.Reliable;
      hide Q.QwenModel.Footprint;
      feeds := [];
      ModelIsShaped();
      NothingFed(tokens);
      next := Q.Next(0);
      var position := 0;
      ghost var start := Requests();
      for i := 0 to |tokens|
        invariant position == i && Valid() && next.Next? && AllInRange(tokens[..i], model.model.vocabSize)
        invariant start <= Requests() && (i > 0 ==> model.Reliable(start, Requests()))
                  && (i == 0 ==> start == Requests())
        invariant model.CachesHold(tokens[..i], i) && FedInOrder(feeds, tokens[..i])
        invariant i == |tokens| ==>
                    0 <= next.token < model.model.vocabSize && IsNext(model.model, tokens[..i], next.token)
      {
        ghost var before := Requests();
        RangeStep(tokens, i, model.model.vocabSize);
        next := Step(tokens[i], position, i == |tokens| - 1, tokens[..i]);
        model.ReliableConcat(start, before, Requests());
        if !next.Next? {
          return;
        }
        assert tokens[..i] + [tokens[i]] == tokens[..i + 1];
        position := position + 1;
      }
      assert tokens[..|tokens|] == tokens;
    }

    lemma NothingReported(prompt: seq<nat>)
      ensures Reported(prompt, [], [])
    {}

    ghost predicate Pending(prompt: seq<nat>, generated: seq<nat>, pieces: seq<Bytes>, next: int)
      reads tokenizer
    {
      SoFar(model.model, tokenizer.vocab, tokenizer.eosId, prompt, generated, pieces, next)
    }

    lemma PendingFacts(prompt: seq<nat>, generated: seq<nat>, pieces: seq<Bytes>, next: int)
      requires Pending(prompt, generated, pieces, next)
      ensures 0 <= next < model.model.vocabSize
      ensures SoFar(model.model, tokenizer.vocab, tokenizer.eosId, prompt, generated, pieces, next)
    {
      hide IsContinuation, IsNext, T.TokenBytes;
    }

    /** The answer for the tokenizer as it is now. */
    ghost predicate Answered(r: GenerationResult, prompt: seq<nat>, limit: nat, generated: seq<nat>, pieces: seq<Bytes>)
      reads tokenizer
    {
      IsAnswer(model.model, tokenizer.vocab, tokenizer.eosId, prompt, limit, r, generated, pieces)
    }

    /** What has been reported, for the tokenizer as it is now. */
    ghost predicate Reported(prompt: seq<nat>, generated: seq<nat>, pieces: seq<Bytes>)
      reads tokenizer
    {
      IsReported(model.model, tokenizer.vocab, tokenizer.eosId, prompt, generated, pieces)
    }

    /** The generation loop behind the prefill; it ends early when the remote machine fails. */
    method Continue(ghost prompt: seq<nat>, start: nat, limit: U32, first: int)
      returns (ok: bool, result: GenerationResult, ghost generated: seq<nat>, pieces: seq<Bytes>)
      requires Valid() && |prompt| == start && start + limit < model.maxContext
      requires FedInOrder(feeds, prompt) && model.CachesHold(prompt, start) && Pending(prompt, [], [], first)
      modifies this`feeds, model.Footprint()
      modifies model.client`nextRequestId, model.client`handshake, model.client`calls, model.client`replies
      ensures Valid() && Requests() >= old(Requests())
      ensures ok ==> Answered(result, prompt, limit, generated, pieces) && FedInOrder(feeds, prompt + generated)
      ensures !ok ==> Reported(prompt, generated, pieces) && !model.Reliable(old(Requests()), Requests())
      ensures ok && old(Requests()) < Requests() ==> model.Reliable(old(Requests()), Requests())
    {
      hide Valid, Q.QwenModel.Shaped, Q.QwenModel.CachesHold, T.TokenBytes, SoFar, IsAnswer, IsReported, FedInOrder;
      hide Q.QwenModel.Reliable, Q.QwenModel.Footprint;
      ModelIsShaped();
      ghost var before := Requests();
      ok := true;
      result := GenerationResult([], 0, MaxNewTokens);
      generated, pieces := [], [];
      var next, position := first, start;
      assert prompt + [] == prompt;
      var i := 0;
      while i < limit
        invariant 0 <= i <= limit && Valid() && |generated| == |pieces| == i && position == start + i
        invariant ok && before <= Requests() && (before < Requests() ==> model.Reliable(before, Requests()))
        invariant result == GenerationResult(Bpe.Flatten(pieces), i, MaxNewTokens)
        invariant Pending(prompt, generated, pieces, next)
        invariant FedInOrder(feeds, prompt + generated) && model.CachesHold(prompt + generated, position)
      {
        if next == tokenizer.eosId {
          result := result.(stopReason := Eos);
          break;
        }
        ghost var requests := Requests();
        ok, result, generated, pieces, next := Emit(prompt, generated, pieces, next, position, result);
        model.ReliableConcat(before, requests, Requests());
        if !ok {
          return;
        }
        position := position + 1;
        if position >= model.maxContext {
          result := result.(stopReason := ContextLimit);
          break;
        }
        i := i + 1;
      }
      SoFarIsAnswer(model.model, tokenizer.vocab, tokenizer.eosId, prompt, generated, pieces, next, limit, result);
    }

    method DecodeToken(token: int) returns (piece: Bytes)
      requires Valid()
      ensures piece == T.TokenBytes(tokenizer.vocab, token)
    {
      hide T.TokenBytes;
      piece := tokenizer.DecodeToken(token);
    }

    /** One round of the loop: decode, report, feed back. */
    method Emit(ghost prompt: seq<nat>, ghost generated0: seq<nat>, pieces0: seq<Bytes>, token: int, position: nat,
                result0: GenerationResult)
      returns (ok: bool, result: GenerationResult, ghost generated: seq<nat>, pieces: seq<Bytes>, next: int)
      requires Valid() && token != tokenizer.eosId && Pending(prompt, generated0, pieces0, token)
      requires |prompt + generated0| == position < model.maxContext
      requires FedInOrder(feeds, prompt + generated0) && model.CachesHold(prompt + generated0, position)
      requires result0.text == Bpe.Flatten(pieces0)
      modifies this`feeds, model.Footprint()
      modifies model.client`nextRequestId, model.client`handshake, model.client`calls, model.client`replies
      ensures Valid() && generated == generated0 + [token] && |pieces| == |pieces0| + 1 && Requests() >= old(Requests())
      ensures ok <==> model.Reliable(old(Requests()), Requests())
      ensures IsReported(model.model, old(tokenizer.vocab), old(tokenizer.eosId), prompt, generated, pieces)
      ensures ok ==> SoFar(model.model, old(tokenizer.vocab), old(tokenizer.eosId), prompt, generated, pieces, next)
      ensures ok ==> FedInOrder(feeds, prompt + generated) && model.CachesHold(prompt + generated, position + 1)
      ensures result == GenerationResult(Bpe.Flatten(pieces), result0.generatedTokens + 1, result0.stopReason)
    {
      hide IsNext, T.TokenBytes, SoFar, IsReported, IsContinuation, Bpe.Flatten, Pending, FedInOrder, T.Tokenizer.Valid;
      hide Q.QwenModel.Valid, Q.QwenModel.CachesHold, Q.QwenModel.LayerHolds, Q.QwenModel.Shaped, Q.QwenModel.Reliable;
      PendingFacts(prompt, generated0, pieces0, token);
      ghost var m, vocab, eos := model.model, tokenizer.vocab, tokenizer.eosId;
      var piece := DecodeToken(token);
      pieces := pieces0 + [piece];
      FlattenMore(pieces0, piece);
      result := GenerationResult(result0.text + piece, result0.generatedTokens + 1, result0.stopReason);
      generated := generated0 + [token];
      AppendLast(prompt, generated0, token);
      ReportedMore(m, vocab, eos, prompt, generated0, pieces0, token);
      var sampled := Step(token, position, true, prompt + generated0);
      ok, next := sampled.Next?, 0;
      if ok {
        next := sampled.token;
        OneMore(m, vocab, eos, prompt, generated0, pieces0, token, next);
      }
    }

    /** The failure, or the generated tokens, depend on the encoded prompt only, unless the remote machine
        fails; then what was reported is the beginning of the continuation. */
    ghost predicate IsOutcome(
      outcome: Outcome, tokens: seq<int>, limit: nat, generated: seq<nat>, pieces: seq<Bytes>)
      reads this`feeds, tokenizer
    {
      match FailureOf(tokens, limit, model.maxContext, model.model.vocabSize)
      case Some(why) => outcome == Failed(why) || (why == TokenOutOfRange && outcome == Failed(RemoteFailed))
      case None =>
        if outcome == Failed(RemoteFailed) then Reported(tokens, generated, pieces)
        else && outcome.Done? && Answered(outcome.result, tokens, limit, generated, pieces)
             && FedInOrder(feeds, tokens + generated) && |tokens + generated| < model.maxContext
    }

    /** The three failures in numbers: an empty prompt, one that leaves no room for the limit, or a token
        that is none; the answer's text and counts otherwise. */
    lemma OutcomesInNumbers(
      outcome: Outcome, tokens: seq<int>, limit: nat, generated: seq<nat>, pieces: seq<Bytes>)
      requires IsOutcome(outcome, tokens, limit, generated, pieces)
      ensures outcome == Failed(NoTokens) <==> |tokens| == 0
      ensures outcome == Failed(TooLong) <==> |tokens| > 0 && |tokens| + limit >= model.maxContext
      ensures outcome == Failed(TokenOutOfRange) ==>
                exists k :: 0 <= k < |tokens| && (tokens[k] < 0 || tokens[k] >= model.model.vocabSize)
      ensures outcome.Done? ==>
                && |tokens| > 0 && |tokens| + limit < model.maxContext && |generated| <= limit
                && outcome.result.generatedTokens == |generated| && outcome.result.text == Bpe.Flatten(pieces)
                && (outcome.result.stopReason == Eos <==> |generated| < limit)
                && (outcome.result.stopReason == MaxNewTokens <==> |generated| == limit)
    {
      hide IsContinuation, IsNext, IsReported, FedInOrder, T.TokenBytes, Bpe.Flatten;
    }

    /** A generation fails on the remote machine exactly when something went wrong there. */
    ghost predicate BlamesRemote(outcome: Outcome, from: nat, to: nat)
      reads model.client`uploadedLayers, model.remote.store
    {
      && (outcome == Failed(RemoteFailed) ==> !model.Reliable(from, to))
      && (outcome.Done? ==> model.Reliable(from, to))
    }

    /** One generation for an encoded prompt. */
    method Generate(tokens: seq<int>, limit: U32)
      returns (outcome: Outcome, ghost generated: seq<nat>, pieces: seq<Bytes>)
      requires Valid()
      modifies this`feeds, model.Footprint()
      modifies model.client`nextRequestId, model.client`handshake, model.client`calls, model.client`replies
      ensures Valid() && Requests() >= old(Requests())
      ensures IsOutcome(outcome, tokens, limit, generated, pieces)
      ensures BlamesRemote(outcome, old(Requests()), Requests())
    {
      hide Q.QwenModel.Valid, T.Tokenizer.Valid, Q.QwenModel.CachesHold, IsNext, IsReported, IsAnswer;
      hide Q.QwenModel.Reliable;
      generated, pieces := [], [];
      if tokens == [] {
        return Failed(NoTokens), generated, pieces;
      }
      if |tokens| + limit >= model.maxContext {
        return Failed(TooLong), generated, pieces;
      }
      ghost var start := Requests();
      var next := Prefill(tokens);
      if !next.Next? {
        if AllInRange(tokens, model.model.vocabSize) {
          NothingReported(tokens);
        }
        return Failed(if next.Inadmissible? then TokenOutOfRange else RemoteFailed), generated, pieces;
      }
      outcome, generated, pieces := Finish(tokens, limit, next.token, start);
    }

    /** The loop behind a prefill whose requests began at `start`. */
    method Finish(tokens: seq<nat>, limit: U32, first: int, ghost start: nat)
      returns (outcome: Outcome, ghost generated: seq<nat>, pieces: seq<Bytes>)
      requires Valid() && tokens != [] && |tokens| + limit < model.maxContext
          && AllInRange(tokens, model.model.vocabSize)
      requires FedInOrder(feeds, tokens) && model.CachesHold(tokens, |tokens|)
      requires 0 <= first < model.model.vocabSize && IsNext(model.model, tokens, first)
      requires start <= Requests() && model.Reliable(start, Requests())
      modifies this`feeds, model.Footprint()
      modifies model.client`nextRequestId, model.client`handshake, model.client`calls, model.client`replies
      ensures Valid() && Requests() >= start && IsOutcome(outcome, tokens, limit, generated, pieces)
      ensures BlamesRemote(outcome, start, Requests())
    {
      hide IsNext, SoFar, IsReported, IsAnswer, IsOutcome, BlamesRemote, Pending, Answered, Reported, FedInOrder;
      hide Valid, AllInRange, Q.QwenModel.CachesHold, Q.QwenModel.LayerHolds, Q.QwenModel.Shaped, Q.QwenModel.Reliable;
      ghost var requests := Requests();
      FirstPending(tokens, first);
      var ok, result;
      ok, result, generated, pieces := Continue(tokens, |tokens|, limit, first);
      model.ReliableConcat(start, requests, Requests());
      outcome := if ok then Done(result) else Failed(RemoteFailed);
      OutcomeFits(ok, result, tokens, limit, generated, pieces);
      Blamed(ok, result, start, Requests());
    }

    lemma FirstPending(prompt: seq<nat>, first: int)
      requires 0 <= first < model.model.vocabSize && IsNext(model.model, prompt, first)
      ensures Pending(prompt, [], [], first)
    {
      hide IsNext;
      assert prompt + [] == prompt;
    }

    lemma OutcomeFits(
      ok: bool, result: GenerationResult, tokens: seq<nat>, limit: nat, generated: seq<nat>, pieces: seq<Bytes>)
      requires tokens != [] && |tokens| + limit < model.maxContext && AllInRange(tokens, model.model.vocabSize)
      requires if ok then Answered(result, tokens, limit, generated, pieces) && FedInOrder(feeds, tokens + generated)
               else Reported(tokens, generated, pieces)
      ensures IsOutcome(if ok then Done(result) else Failed(RemoteFailed), tokens, limit, generated, pieces)
    {
      hide IsContinuation, IsNext, T.TokenBytes, FedInOrder, IsReported;
    }

    lemma Blamed(ok: bool, result: GenerationResult, from: nat, to: nat)
      requires if ok then model.Reliable(from, to) else !model.Reliable(from, to)
      ensures BlamesRemote(if ok then Done(result) else Failed(RemoteFailed), from, to)
    {
      hide Q.QwenModel.Reliable;
    }

    /** One generation for a prompt text. */
    method GenerateFromPromptText(promptText: Bytes, limit: U32)
      returns (outcome: Outcome, ghost tokens: seq<int>, ghost generated: seq<nat>, pieces: seq<Bytes>)
      requires Valid()
      modifies this`feeds, model.Footprint()
      modifies model.client`nextRequestId, model.client`handshake, model.client`calls, model.client`replies
      ensures Valid() && IsEncoding(promptText, tokens) && Requests() >= old(Requests())
      ensures IsOutcome(outcome, tokens, limit, generated, pieces)
      ensures BlamesRemote(outcome, old(Requests()), Requests())
    {
      hide Q.QwenModel.Valid, T.Tokenizer.Valid, Bpe.IsMerged, IsOutcome, BlamesRemote;
      ghost var merged;
      var ids;
      ids, merged := tokenizer.Encode(promptText, true);
      tokens := ids;
      outcome, generated, pieces := Generate(ids, limit);
    }

    /** One turn of a conversation: the user's message stays in the history even when generation fails. */
    method ChatOnceResult(userMessage: Bytes, limit: U32)
      returns (outcome: Outcome, ghost tokens: seq<int>, ghost generated: seq<nat>, ghost pieces: seq<Bytes>)
      requires Valid()
      modifies this`feeds, this`history, model.Footprint()
      modifies model.client`nextRequestId, model.client`handshake, model.client`calls, model.client`replies
      ensures Valid() && IsEncoding(ChatPrompt(old(history) + [Turn(Ascii("user"), userMessage)]), tokens)
      ensures IsOutcome(outcome, tokens, limit, generated, pieces)
      ensures BlamesRemote(outcome, old(Requests()), Requests())
      ensures history == old(history) + [Turn(Ascii("user"), userMessage)]
                         + if outcome.Done? then [Turn(Ascii("assistant"), outcome.result.text)] else []
    {
      hide Valid, IsOutcome, BlamesRemote, IsEncoding, Ascii, ChatPrompt, Messages, Q.QwenModel.Footprint;
      ModelIsShaped();
      history := history + [Turn(Ascii("user"), userMessage)];
      var prompt := ApplyChatTemplate(history, true);
      outcome, tokens, generated, pieces := GenerateFromPromptText(prompt, limit);
      if outcome.Done? {
        history := history + [Turn(Ascii("assistant"), outcome.result.text)];
      }
    }
  }
}
