# Citlali inference engine: a model in Dafny

A model of a GGUF transformer inference engine with a CUDA host and an Android/Vulkan helper device,
and proofs about it. `dafny verify dfyconfig.toml` checks the whole project.

| file | what it models |
|---|---|
| `Transformer.dfy` | the decoder stack as a function of the whole token sequence: the reference everything else is compared with |
| `Attention.dfy`, `OffloadedRanges.dfy`, `QwenModel.dfy` | one token at a time on the host: flat caches, grouped-query attention, offloaded layer ranges, greedy sampling |
| `LayerTensors.dfy`, `LayerRecording.dfy`, `LayerExecution.dfy`, `LayerRunner.dfy` | the helper device: tensor names and shape checks, recorded commands and barriers, every execution they allow, caches kept between requests |
| `Capacity.dfy` | sizes of the helper's buffers against every range bound to them |
| `Schedules.dfy`, `Reduction.dfy` | programs whose steps run in any order their synchronisation allows; the tree reduction of the matrix kernels |
| `Quant.dfy`, `PackedBlocks.dfy`, `MatVec.dfy`, `LayerMatrices.dfy`, `Half.dfy` | Q4_K, Q6_K and Q8_0 blocks and what packed codes decode to, matrix-vector kernels and shaders, the shaders' view of stored matrices, the FP16 conversions |
| `ByteTable.dfy`, `Bpe.dfy`, `Tokenizer.dfy`, `TextCutting.dfy` | byte alphabet, merge rules and merge loop, encoding and decoding, how texts are cut |
| `ChatTemplate.dfy`, `Session.dfy` | conversation to prompt, prompt to greedy continuation |
| `Wire.dfy`, `Framing.dfy`, `Codecs.dfy`, `WireLayout.dfy` | little-endian words and content hash, frames over a byte stream, payloads, what stands where on the wire |
| `TensorStore.dfy`, `Remote.dfy`, `RemoteClient.dfy`, `RemoteLink.dfy`, `Loading.dfy` | the helper's tensor store, its dispatch loop, the client, the link between the model and the runner behind it, and loading with offloaded layers |

How things are represented:

* A cache, a score buffer and an attention output are arrays of cells that keep whatever they held
  before; a vector is a sequence of 16-bit words. Norms, linear layers, rotary embedding, activation,
  the scaled dot product and the softmax-weighted sum are parameters of the model: nothing is known
  about them but the lengths of their results.
* A GPU command list is a sequence of work items and barriers. Each item reads all its inputs at one
  moment and writes all its outputs at a later one, and other items may run in between. What a barrier
  orders follows the section "Execution and Memory Dependencies" of the Vulkan 1.1 specification: both
  stage masks and both access masks have to cover the pair.
* A GPU thread reduction has separate load and store steps for each thread, which interleave freely
  between two barriers.
* Shifts, masks and bitwise or of disjoint fields by constants are written as division, remainder and
  sum. Machine words are bounded integers; where the original wraps, the remainder is written out.
* A socket is a byte sequence together with a plan that says how much each call moves and which calls
  are interrupted.
* The forward pass reaches the helper through the client: a range is encoded, framed, sent as bytes,
  received, decoded and dispatched to the runner, and its result comes back the same way. The runner's
  result is handed to the server as the device's output of that request. A model with nothing
  offloaded has a client too, which it never uses.
* An exception of the original is an error result.

Where the code does less than its comments or callers expect, the model follows the code and the exact
condition is proved:

* `Framing.CleanCloseExactly`: the comment at android/src/protocol.cpp:172-176 takes a closed peer for a
  clean end; a connection that closes inside a header is reported as clean too.
* `TensorStore.FlatSizeCheck`: the byte count of F32 and F16 tensors is computed in 64 bits that wrap, so
  a tensor far too short passes exactly when its true size needs more than 64 bits and agrees in the low
  ones.
* `LayerRecording.ReadBackIsUncovered`: the host reads X once the fence is signalled, but no barrier leads
  to the host stage, so by the rules the other accesses follow the last write is not made visible to it;
  `LayerRecording.ReadBackNeedsBarrier` says which barrier would do that.
* `RemoteClient.UploadedLayerRuns`, `Loading.CheckedLayer`: a layer whose matrices are F16 or F32 is
  uploaded and loaded without complaint, but every run over it is refused; loading compares the first two
  dimensions, and it does not look at the head norms of offloaded layers, since they have no buffer here.
* `Tokenizer.MergingKeepsTextExactly`: the line feed that separates the parts of a rule's key is ambiguous
  for a vocabulary that has no piece for the line feed. Merging then keeps every text exactly when the
  vocabulary gives every other byte a piece that starts with `<`; `Tokenizer.LineFeedBreaksMerging` has a
  text and rules for each of the others.
* `Capacity.ScoresExactly`: the size of the score buffer wraps at 64 bits; `Capacity.WrappedScoresAreShort`
  gives admissible dimensions whose scores do not fit although every bound range does.
* `Capacity.FreshBuffersFitExactly`: rotated keys are written to a buffer sized for queries. That fits
  without wrap-around of `heads * head_dim`, and `Capacity.WrappedHeadsAreUnsound` gives dimensions with
  wrap-around for which it does not; `Capacity.WrappedOffsetMissesSlot` gives some for which everything
  fits but a row is copied to a wrong place, and `Capacity.RightSlotExactly` says when it is not.
* `Half.NarrowingLosesNaN`: a NaN becomes an infinity of the same sign.

## Model

| member | source | states |
|---|---|---|
| Schedules.AnyAllowedOrderAgrees | android/src/vulkan_context_layer.cpp:155-207 | when every conflicting pair of steps is ordered, all orders the synchronisation allows end in one memory, that of program order |
| Transformer.HiddenIsCausal | src/compute/cuda/kernels.cu:605-649 | tokens fed later never change the hidden state of an earlier position, in any layer |
| Transformer.CachesAreCausal | src/compute/cuda/kernels.cu:524-533 | nor the keys and values cached for earlier positions |
| Transformer.CacheRow | src/compute/cuda/kernels.cu:524-533 | cache row t holds the key and value of position t |
| Transformer.LayerShapes | src/model/qwen_model.cpp:156-173 | the shape checks of loading give queries, keys and values of the sizes the caches are built for |
| Transformer.HiddenShape | src/model/qwen_model.cpp:156-173 | every hidden state has the model's width |
| Transformer.GreedyChoiceUnique | src/model/qwen_model.cpp:448-465 | greedy sampling has one answer |
| Transformer.GreedyTies | src/model/qwen_model.cpp:448-465 | of equal largest logits the first is taken, what is not finite does not count, and the choice is 0 if nothing is finite |
| Transformer.GroupScores | src/compute/cuda/kernels.cu:562-600 | query heads share key heads in consecutive groups: head `i` of group `kv` is scored with its own slice of the query and slice `kv` of the key |
| Transformer.GroupValues | src/compute/cuda/kernels.cu:613-648 | and mixes slice `kv` of the values, component by component |
| Transformer.ProjectionOrder | src/model/qwen_model.cpp:306-330 | a present bias is added directly behind its matrix, a present head norm follows, the rotation comes last; values get neither |
| Transformer.BlockOrder | src/model/qwen_model.cpp:347-375 | both residuals add onto the block's input, biases directly behind their matrices, and the feed-forward block works on the norm of the first block's result |
| LayerRecording.RecordedAt | android/src/vulkan_context_layer.cpp:236-452 | where each layer's commands stand in the recorded list |
| LayerRecording.StepFootprint | android/src/vulkan_context_layer.cpp:283-452 | a compute command writes no cache slot and reads only those of its own layer up to this position; a copy reads scratch and writes this position's slot of its own layer |
| LayerRecording.GroupIsIndependent | android/src/vulkan_context_layer.cpp:291-296 | commands without a barrier between them do not conflict |
| LayerRecording.BarrierFollows | android/src/vulkan_context_layer.cpp:155-190 | which barrier comes next after each command, and each command's stage |
| LayerRecording.NoHazard | android/src/vulkan_context_layer.cpp:236-452 | for any number of layers, every two conflicting commands are separated by a barrier that covers their stages and accesses |
| LayerRecording.ReadBackIsUncovered | android/src/vulkan_context_layer.cpp:457-484 | no recorded barrier makes any write of X visible to the host that reads it back |
| LayerRecording.ReadBackNeedsBarrier | android/src/vulkan_context_layer.cpp:452-484 | one more barrier at the end orders the read-back exactly when it leads from shader writes to host reads |
| LayerExecution.OverlapIsInvisible | android/src/vulkan_context_layer.cpp:155-207 | without races, commands that overlap in any way the barriers allow leave the memory of running them one by one |
| LayerExecution.ProgramOrderIsExecution | android/src/vulkan_context_layer.cpp:155-207 | program order is one of the executions |
| LayerExecution.RecordedRaceFree | android/src/vulkan_context_layer.cpp:236-452 | the recorded list has no race |
| LayerExecution.LayerInOrder | android/src/vulkan_context_layer.cpp:283-452 | one layer's commands, in spite of reused buffers, compute the layer function on the cache slots and store this position's key and value |
| LayerExecution.RangeInOrder | android/src/vulkan_context_layer.cpp:236-452 | a range of layers is their composition |
| LayerExecution.AnyExecutionRunsLayers | android/src/vulkan_context_layer.cpp:236-452 | every execution the barriers allow runs the layers one after the other and changes no cache slot but this position's |
| Attention.FlatInjective | src/compute/cuda/kernels.cu:528-531 | different (line, column) pairs have different flat indices, so threads write different cells |
| Attention.StoreRow | src/compute/cuda/kernels.cu:524-533 | the row of `position` is stored and every other row keeps its cells |
| Attention.WindowIsHead | src/compute/cuda/kernels.cu:579-588 | the kernel's index base selects the head's slice of the cached row |
| Attention.BlockScoreMeaning | src/compute/cuda/kernels.cu:562-600 | a thread block computes the score of its query head against the key head it shares |
| Attention.AttentionScores | src/compute/cuda/kernels.cu:545-602 | lines 0..position of each head's scores, whatever the buffer held before |
| Attention.ThreadValueMeaning | src/compute/cuda/kernels.cu:613-648 | a thread reads only this step's scores and rows 0..position of its value head |
| Attention.AttentionValues | src/compute/cuda/kernels.cu:605-649 | the whole attention output |
| LayerRunner.RangeAgrees | android/src/vulkan_context_layer.cpp:236-452 | on caches with the earlier positions, a run over a range gives the hidden state computed from scratch and extends exactly these caches |
| LayerRunner.PreparedRangeAgrees | android/src/vulkan_context_layer.cpp:268-275 | resizing caches loses only those of layers that were sized differently, so the result still holds for caches in use |
| LayerRunner.SubmissionMeaning | android/src/vulkan_context_layer.cpp:457-483 | what X and the cache slots hold after the upload and any allowed execution of the submission |
| LayerRunner.Runner.EnsureRuntime | android/src/vulkan_context_layer.cpp:268-275 | a layer's cache survives when its context length and width are unchanged; no other layer's is touched |
| LayerRunner.Runner.RecordRange | android/src/vulkan_context_layer.cpp:236-452 | the command list of the range, or a stop at the first layer with a missing tensor or a matrix of the wrong type or shape |
| LayerRunner.Runner.RunLayerRange | android/src/vulkan_context_layer.cpp:20-483 | a run succeeds exactly when range, position and dimensions are admitted, every layer is stored in the right shapes and nothing else goes wrong; its output and caches |
| LayerRunner.Runner.Submit | android/src/vulkan_context_layer.cpp:457-483 | the submitted list runs the layers |
| LayerRunner.Runner.ContinueRange | android/src/vulkan_context_layer.cpp:20-483 | a run that continues a sequence gives the from-scratch hidden state and leaves other layers' caches valid, under the same exact condition |
| RemoteLink.RequestIsGood | src/model/qwen_model.cpp:287-298 | a request of the model passes frame limit, decoder and entry check exactly when its dimensions do, and asks for the model's dimensions |
| RemoteLink.EvenHeadsAreAcceptable | android/src/vulkan_context_layer.cpp:31-37 | with good parameters otherwise, decoder and entry check accept exactly the even head dimensions from 2 to 256 |
| RemoteLink.AnsweredRuns | src/remote/remote_client.cpp:439-484 | the client gets an output exactly when the runner accepts the request and gives one of the right length |
| RemoteLink.ContinueRange | src/remote/remote_client.cpp:439-498 | one range over client, bytes, server and runner: the from-scratch hidden state and the range's caches one position longer, under an exact condition; other layers' caches stay valid |
| OffloadedRanges.RunEndIsMaximal | src/model/qwen_model.cpp:281-286 | a run of offloaded layers ends before a local layer or at the end |
| OffloadedRanges.RunsAreMaximal | src/model/qwen_model.cpp:278-304 | the remote ranges are maximal runs, ascending and disjoint |
| OffloadedRanges.RunsCoverOffloadedLayers | src/model/qwen_model.cpp:278-304 | exactly the offloaded layers lie in a remote range |
| QwenModel.QwenModel.constructor | src/model/qwen_model.cpp:95-181 | each local layer gets caches of its own; an offloaded layer has none here |
| QwenModel.QwenModel.AnyCachesWillDo | src/runtime/session.cpp:69-74 | at position 0 nothing is asked of the caches, so nothing of an earlier conversation matters |
| QwenModel.QwenModel.CachesHoldIsCausal | src/model/qwen_model.cpp:278-376 | caches stay right when the sequence grows |
| QwenModel.QwenModel.Project | src/model/qwen_model.cpp:306-330 | norm, projections, optional biases and head norms, rotary embedding |
| QwenModel.QwenModel.StoreAndAttend | src/model/qwen_model.cpp:331-332 | keys and values are stored before attention reads them |
| QwenModel.QwenModel.Finish | src/model/qwen_model.cpp:347-375 | output projection, residuals and feed-forward block |
| QwenModel.QwenModel.RunLocalLayer | src/model/qwen_model.cpp:305-376 | one local layer equals the from-scratch layer and extends its cache |
| QwenModel.QwenModel.RunRemoteRange | src/model/qwen_model.cpp:280-304 | one remote range, over client, bytes, server and runner, equals the from-scratch layers; it fails exactly when requests of the model are not acceptable, a layer was not uploaded or cannot run, or something else goes wrong over there |
| QwenModel.QwenModel.RunLayers | src/model/qwen_model.cpp:278-376 | layers 0..L-1 in order, each once, whatever set is offloaded; the ranges sent are the maximal runs; the loop stops exactly at a remote failure |
| QwenModel.QwenModel.ForwardToken | src/model/qwen_model.cpp:239-418 | incremental decoding equals recomputation from scratch for every offload set and every earlier cache content, encoding, dispatch and decoding of the remote ranges included; the two admission checks; when exactly a pass fails, never on the remote machine with nothing offloaded; the sampled token |
| QwenModel.SampleGreedy | src/model/qwen_model.cpp:448-465 | first index of the largest finite logit, 0 if none is finite |
| ByteTable.Utf8Injective | src/tokenizer/tokenizer.cpp:24-46 | different code points of one or two bytes have different UTF-8 |
| ByteTable.ByteEncoderSize | src/tokenizer/tokenizer.cpp:103-109 | a character's first byte tells its length |
| ByteTable.Alphabet | src/tokenizer/tokenizer.cpp:64-88 | the character of every byte: itself exactly for 33-126, 161-172 and 174-255; the others are 256 onwards in ascending order |
| ByteTable.SpaceAndLineFeed | src/tokenizer/tokenizer.cpp:64-88 | space, line feed and exclamation mark as byte-level vocabularies have them |
| ByteTable.ByteEncoderInjective | src/tokenizer/tokenizer.cpp:64-88 | different bytes have different characters |
| ByteTable.ByteEncoderCharacters | src/tokenizer/tokenizer.cpp:64-88 | characters are free of line feeds, and `<` stands for itself only |
| ByteTable.BuildByteEncoder | src/tokenizer/tokenizer.cpp:64-88 | the filled table |
| ByteTable.BuildByteDecoder | src/tokenizer/tokenizer.cpp:90-100 | the inverse table: both directions |
| ByteTable.ParseInvertsEncode | src/tokenizer/tokenizer.cpp:326-345 | reading characters one by one gives back exactly the encoded bytes |
| ByteTable.EncodeBytesConcat | src/tokenizer/tokenizer.cpp:281-283 | merging pieces is concatenating their bytes |
| ByteTable.EncodeBytesCharacters | src/tokenizer/tokenizer.cpp:254-257 | an encoded text has no line feed, and `<` only where the text has it |
| Bpe.SplitOnce | src/tokenizer/tokenizer.cpp:14-22 | a line is split at its first space |
| Bpe.LoadMerges | src/tokenizer/tokenizer.cpp:154-168 | rules with ranks counted over well-formed lines, later lines replacing earlier ones |
| Bpe.PairKeyInjective | src/tokenizer/tokenizer.cpp:257-267 | the line-feed separator makes keys of newline-free pieces unambiguous |
| Bpe.RuleMeaning | src/tokenizer/tokenizer.cpp:154-168 | a rule found for two such pieces comes from a line with exactly these parts and merges exactly them |
| Bpe.LoadedRulesAreSound | src/tokenizer/tokenizer.cpp:154-168 | all loaded rules merge what their key says |
| Bpe.LineFeedRule | src/tokenizer/tokenizer.cpp:154-168 | a key of line feeds only is ambiguous, but all its readings merge to the same line feeds |
| Bpe.ApartKeepsText | src/tokenizer/tokenizer.cpp:240-285 | the whole loop keeps the concatenation of pieces that start with `<` or are line feeds only |
| Bpe.ConfusedMerge | src/tokenizer/tokenizer.cpp:252-283 | what the loop makes of a line feed and two copies of a piece under two rules |
| Bpe.FindBest | src/tokenizer/tokenizer.cpp:252-278 | the leftmost pair of lowest rank, or that there is none |
| Bpe.BestIsUnique | src/tokenizer/tokenizer.cpp:252-278 | there is one such pair |
| Bpe.MergePieces | src/tokenizer/tokenizer.cpp:240-285 | the in-place loop ends and equals the recursive merge of the best pair |
| Bpe.MergedIsUnique | src/tokenizer/tokenizer.cpp:240-285 | that recursion has one result |
| Bpe.MergedIsFinal | src/tokenizer/tokenizer.cpp:276-278 | no adjacent pair of the result can be merged |
| Bpe.MergeAtKeepsText | src/tokenizer/tokenizer.cpp:281-283 | one merge of regular pieces keeps the concatenation |
| Bpe.MergedKeepsText | src/tokenizer/tokenizer.cpp:240-285 | the whole loop keeps the concatenation of regular pieces, and a piece it creates has no `<` |
| Tokenizer.BytePieceIsRegular | src/tokenizer/tokenizer.cpp:173-192 | only a line feed for which the vocabulary has no piece gives a piece that merging may confuse |
| Tokenizer.InitialIsRegular | src/tokenizer/tokenizer.cpp:195-215 | the pieces that encoding starts from are regular for every text, unless the text has a line feed and the vocabulary none |
| Tokenizer.EncodingKeepsText | src/tokenizer/tokenizer.cpp:226-285 | so merging keeps what the initial pieces spell, for any loaded rules, if the text has no line feed or the vocabulary has a piece for it |
| Tokenizer.LineFeedBreaksMerging | src/tokenizer/tokenizer.cpp:257-283 | for every vocabulary without a line feed piece and every other byte whose piece does not start with `<`: two rules and a text of three bytes whose merged pieces spell another text |
| Tokenizer.MergingKeepsTextExactly | src/tokenizer/tokenizer.cpp:226-283 | merging keeps what the initial pieces spell, for all texts and all rule lists, exactly when the vocabulary has a line feed piece or gives every other byte a piece that starts with `<` |
| Tokenizer.SpecialBytes | src/tokenizer/tokenizer.cpp:113-117 | special tokens are `<\|...\|>` with `>` at the end only |
| Tokenizer.OneSpecialMatches | src/tokenizer/tokenizer.cpp:118-123 | at most one special token starts at a position, so the list order does not matter |
| Tokenizer.IsSpecialAt | src/tokenizer/tokenizer.cpp:112-125 | a special token that starts here, if there is one |
| Tokenizer.InitialAtoms | src/tokenizer/tokenizer.cpp:195-215 | the pieces a text is cut into are known special tokens and single bytes of the rest |
| Tokenizer.UnmarkedIsPlainText | src/tokenizer/tokenizer.cpp:254-255 | the leading-`<` guard keeps special tokens and `<` itself out of merges |
| Tokenizer.MergedAtoms | src/tokenizer/tokenizer.cpp:240-285 | whatever the rules do, the merged pieces still come from the same text and are in the vocabulary |
| Tokenizer.TextPieceIsPlain | src/tokenizer/tokenizer.cpp:312-370 | neither the `<\|..\|>` filter nor the `<0xXX>` branch can apply to a piece that came from text |
| Tokenizer.GoodPieceDecodes | src/tokenizer/tokenizer.cpp:365-373 | the id of such a piece decodes to the text it came from |
| Tokenizer.HexShape | src/tokenizer/tokenizer.cpp:181-189 | a `<0xXX>` fallback piece is never merged, is no special token and decodes to its byte |
| TextCutting.HexPieceBytes | src/tokenizer/tokenizer.cpp:181-185 | the characters of a `<0xXX>` piece: capital hexadecimal digits, high one first |
| TextCutting.HexPieceIsRead | src/tokenizer/tokenizer.cpp:312-323 | and what any such piece is read as: digits of both cases, other characters count as zero |
| TextCutting.DroppedExactly | src/tokenizer/tokenizer.cpp:368-370 | decoding drops exactly what begins with `<\|` and ends with `\|>` |
| TextCutting.SpecialNames | src/tokenizer/tokenizer.cpp:112-117 | the special tokens by name |
| TextCutting.Markers | src/tokenizer/tokenizer.cpp:112-117 | both chat markers are among them |
| TextCutting.StretchIsCut | src/tokenizer/tokenizer.cpp:195-215 | a stretch of text without special tokens is cut into the pieces of its bytes, wherever it stands |
| TextCutting.MarkerIsCut | src/tokenizer/tokenizer.cpp:195-215 | a special token of the vocabulary is one piece wherever it stands |
| TextCutting.LettersAreEncoded | src/tokenizer/tokenizer.cpp:226-292 | without rules, a text is encoded as the ids of its bytes' characters |
| TextCutting.ExclamationMark | src/tokenizer/tokenizer.cpp:226-292 | "!" is encoded as the id of "!" |
| TextCutting.RuleIsApplied | src/tokenizer/tokenizer.cpp:154-283 | with the rule line `a b` the text `ab` is the piece `ab` |
| TextCutting.LeftmostFirst | src/tokenizer/tokenizer.cpp:252-283 | with the rule `a a` the text `aaa` becomes `aa` and `a` |
| TextCutting.EarlierRuleFirst | src/tokenizer/tokenizer.cpp:154-278 | with the rules `b c` and then `a b` the text `abc` becomes `a` and `bc` |
| Tokenizer.RoundTrip | src/tokenizer/tokenizer.cpp:226-382 | decoding an encoding gives the text with its known special tokens erased, for every byte string and every vocabulary that has a piece for each byte (its character or `<0xXX>`) and every merge result |
| Tokenizer.Tokenizer.LoadFromGguf | src/tokenizer/tokenizer.cpp:130-170 | consistent tables, sound rules, defaults of missing entries; an empty vocabulary is refused |
| Tokenizer.Tokenizer.ByteToTokenPiece | src/tokenizer/tokenizer.cpp:173-192 | character, `<0xXX>` piece or raw byte, in this order of preference |
| Tokenizer.Tokenizer.CutText | src/tokenizer/tokenizer.cpp:195-215 | the cursor loop cuts the text at known special tokens |
| Tokenizer.Tokenizer.Encode | src/tokenizer/tokenizer.cpp:226-292 | ids of the merged pieces behind the optional start token, and the round trip for closed vocabularies |
| Tokenizer.Tokenizer.DecodeByteLevelPiece | src/tokenizer/tokenizer.cpp:311-346 | the bytes of a piece, or the piece itself when it cannot be read to the end |
| Tokenizer.Tokenizer.DecodeToken | src/tokenizer/tokenizer.cpp:358-373 | nothing for ids out of range, empty and special tokens |
| Tokenizer.Tokenizer.Decode | src/tokenizer/tokenizer.cpp:376-382 | concatenation over the ids |
| ChatTemplate.ApplyChatTemplate | src/tokenizer/tokenizer.cpp:385-400 | the loop over the messages |
| ChatTemplate.FirstMessage | src/tokenizer/tokenizer.cpp:385-400 | the prompt of a first message, written out |
| ChatTemplate.NextMessage | src/tokenizer/tokenizer.cpp:385-400 | one more message stands behind all earlier ones and in front of the start of the answer |
| ChatTemplate.MessageIsCut | src/tokenizer/tokenizer.cpp:195-215 | a message is cut into its two markers and the bytes of everything else |
| ChatTemplate.PromptIsCut | src/tokenizer/tokenizer.cpp:195-215 | so is the whole prompt, for any vocabulary with both markers and any conversation whose roles and texts hold no special token |
| Session.GenerationIsDetermined | src/runtime/session.cpp:61-104 | encoded prompt, end id and limit determine the generated tokens: not the session's past, not the set of offloaded layers |
| Session.ContinuationsAgree | src/runtime/session.cpp:78-99 | greedy continuations of one prompt agree as far as both go |
| Session.Session.EncodingIsUnique | src/runtime/session.cpp:62 | a prompt has one encoding |
| Session.Session.Prefill | src/runtime/session.cpp:69-74 | feeds the prompt at 0,1,2,...; fails only on a token out of range or on the remote machine; ends with the greedy choice after the prompt |
| Session.Session.Continue | src/runtime/session.cpp:77-103 | at most `limit` tokens, none of them the end token, text equal to the joined pieces, Eos exactly when stopping early, ContextLimit never; a remote failure leaves the beginning of the continuation reported |
| Session.Session.Emit | src/runtime/session.cpp:84-93 | one round: decode, report, feed back |
| Session.Session.GenerateFromPromptText | src/runtime/session.cpp:61-104 | the three failures in order, or the greedy continuation of the from-scratch model with positions consecutive and below the context length, or a remote failure, which happens exactly when something went wrong on the remote machine |
| Session.Session.ChatOnceResult | src/runtime/session.cpp:44-53 | prompt of the whole history; a failed turn, also one that fails remotely, leaves the user's message in it |
| Session.Session.OutcomesInNumbers | src/runtime/session.cpp:61-103 | which outcome is which failure, and when the stop reason is which |
| Half.HalvesAreOrdered | src/compute/common/dtype.cpp:76-132 | larger codes are larger numbers |
| Half.KnownMagnitudes | src/compute/common/dtype.cpp:76-132 | one, the largest finite half and the smallest halves and floats, as numbers |
| Half.RoundedIsNearest | src/compute/common/dtype.cpp:136-176 | round to nearest, ties away from zero (section 4.3.1 of IEEE 754-2008), for every finite float: no half is nearer |
| Half.RoundingIsMonotone | src/compute/common/dtype.cpp:136-176 | rounding is monotone and has one result |
| Half.HalfRoundsToItself | src/compute/common/dtype.cpp:136-176 | a half is its own rounding |
| Half.NarrowingInvertsWidening | src/compute/common/dtype.cpp:76-176 | narrowing undoes widening on every half that is not a NaN |
| Half.NarrowingLosesNaN | src/compute/common/dtype.cpp:164-166 | a NaN comes back as an infinity |
| Half.Normalise | src/compute/common/dtype.cpp:100-115 | the loop ends with the hidden bit in place; the unsigned exponent has wrapped below zero by the number of shifts |
| Half.HalfBitsToFloat | src/compute/common/dtype.cpp:76-132 | same sign, exactly the same value; NaN payloads are kept |
| Half.FloatToHalfBits | src/compute/common/dtype.cpp:136-176 | same sign, magnitude between the two midpoints around the result; from 65520 on infinity |
| Half.BFloat16ToHalfBits | src/compute/common/dtype.cpp:67-72 | the float whose upper half it is, rounded |
| Half.TinyRounds | src/compute/common/dtype.cpp:146-148 | the cut-off for zero |
| Half.SubnormalRounds | src/compute/common/dtype.cpp:150-160 | shift and carry in the subnormal range |
| Half.NormalRounds | src/compute/common/dtype.cpp:169-174 | truncation and carry, also across exponents |
| Half.HugeRounds | src/compute/common/dtype.cpp:164-166 | overflow to infinity |
| Quant.ElementBlockFits | src/compute/common/dtype.cpp:55-64 | the block of every element lies inside the computed byte count |
| Quant.SizesInNumbers | src/compute/common/dtype.cpp:28-64 | byte counts of whole blocks, and of one element more |
| Quant.ScalesRoundTrip | src/model/weight_loader.cpp:28-37 | any sixteen 6-bit codes survive packing into twelve bytes |
| Quant.ScaleAreaRoundTrip | src/model/weight_loader.cpp:28-37 | any twelve bytes are the packing of the codes read from them |
| Quant.KnownScales | src/model/weight_loader.cpp:28-37 | sixteen codes and their twelve bytes |
| Quant.Q4Pair | src/model/weight_loader.cpp:193-220 | the two values a host step scatters are what the gather formula gives at their indices |
| Quant.Q6Quad | src/model/weight_loader.cpp:273-309 | the same for the four values of a Q6_K step |
| Quant.DequantQ8 | src/model/weight_loader.cpp:116-143 | every element below `count` narrowed to FP16, each written once, reading only inside the tensor's bytes |
| Quant.DequantQ4 | src/model/weight_loader.cpp:147-227 | scatter equals gather for every count, each element narrowed to FP16 and written once |
| Quant.DequantQ6 | src/model/weight_loader.cpp:230-315 | scatter equals gather for every count, each element narrowed to FP16 and written once |
| PackedBlocks.Q4IsDecoded | src/compute/cuda/kernels.cu:195-234 | element `i` of a packed Q4_K block: `d * scale * code - dmin * min`, in the 6-bit pair and the 4-bit code that were packed for it |
| PackedBlocks.Q6IsDecoded | src/compute/cuda/kernels.cu:134-193 | element `i` of a packed Q6_K block: `d * scale * (code - 32)`, with a signed scale for each sixteen elements |
| PackedBlocks.Q4TensorDecoded | src/model/weight_loader.cpp:147-227 | what the host loop leaves for each element of a tensor of packed blocks |
| PackedBlocks.Q6TensorDecoded | src/model/weight_loader.cpp:230-315 | the same for Q6_K |
| PackedBlocks.Q8TensorDecoded | src/model/weight_loader.cpp:116-143 | the same for Q8_0: `d * code`, codes signed |
| PackedBlocks.EveryQ4Block | src/model/weight_loader.cpp:147-227 | any 144 bytes are a packed Q4_K block, so nothing is left out by speaking of packed ones |
| PackedBlocks.EveryQ6Block | src/model/weight_loader.cpp:230-315 | any 210 bytes are a packed Q6_K block |
| PackedBlocks.EveryQ8Block | src/model/weight_loader.cpp:116-143 | any 34 bytes are a packed Q8_0 block |
| Reduction.SumPointwise | src/compute/cuda/kernels.cu:401-406 | adding the upper half onto the lower half keeps the sum |
| Reduction.NoRaceInARound | src/compute/cuda/kernels.cu:401-406 | between two barriers different threads touch different locations |
| Reduction.ReductionIsHazardFree | android/shaders/q4k_matvec.comp:92-108 | all conflicting steps are ordered; the second row's stores do not race with the read of the first row's result, nor the results with the store of the output word |
| Reduction.RoundsEffect | src/compute/cuda/kernels.cu:401-406 | the rounds leave the sum of a power-of-two number of values |
| Reduction.ReductionUnderAnySchedule | android/shaders/q4k_matvec.comp:92-108 | under every interleaving the barriers allow, each row's result is the sum of all threads' values |
| Reduction.PairUnderAnySchedule | android/shaders/q4k_matvec.comp:92-114 | so is each half of the output word that the first thread packs at the end |
| Reduction.ThreadsPartition | src/compute/cuda/kernels.cu:387-389 | the strided loops of all threads take every column exactly once, for any number of columns |
| MatVec.ThreadLoop | src/compute/cuda/kernels.cu:195-234 | a thread's block loop sums its stride of weight times input |
| MatVec.RowKernelIsDot | src/compute/cuda/kernels.cu:195-291 | a thread block leaves the dot product of dequantised row and input, under any interleaving |
| MatVec.KernelProduct | src/compute/cuda/kernels.cu:195-291 | all thread blocks together, each in any allowed order: every row's half is its dot product, rounded once |
| PackedBlocks.Q4MatrixRow | src/compute/cuda/kernels.cu:195-250 | a row's dot product, as the kernels compute it, is the sum of the written-out weights times the inputs |
| PackedBlocks.Q6MatrixRow | src/compute/cuda/kernels.cu:253-291 | the same for Q6_K |
| MatVec.PlainThreadLoop | src/compute/cuda/kernels.cu:382-394 | a thread of the FP16 kernel sums every 256th product, for any number of columns |
| MatVec.PlainKernelProduct | src/compute/cuda/kernels.cu:382-450 | the same for FP16 weights and any number of columns |
| MatVec.EmbedIsElement | src/compute/cuda/kernels.cu:340-379 | the embedding kernel reads the element of its token's row |
| MatVec.EmbedGrid | src/compute/cuda/kernels.cu:340-379 | the grid writes the row of the token, each element narrowed to FP16, and nothing behind it |
| MatVec.LoadByteReads | android/shaders/q4k_matvec.comp:23-26 | word-addressed loads give the bytes |
| MatVec.WordsInMemory | android/shaders/q4k_matvec.comp:25-40 | a word holds four bytes, and two halves of an input, each low part first |
| MatVec.ShaderDecodesSame | android/shaders/q6k_matvec.comp:41-64 | word-addressed decoding equals byte-addressed decoding |
| MatVec.LoadsSameInput | android/shaders/q4k_matvec.comp:34-38 | packed input halves are the input |
| MatVec.ShaderLoop | android/shaders/q4k_matvec.comp:62-90 | a shader thread sums the same stride, with offsets that do not wrap below 4 GiB |
| MatVec.ShaderThread | android/shaders/q4k_matvec.comp:57-93 | and zero for a row past the end |
| MatVec.PairKernelIsDot | android/shaders/q4k_matvec.comp:57-114 | a work group packs the dot products of its two rows, from one shared array, zero for a row past the end |
| MatVec.OutputIsRead | android/shaders/q4k_matvec.comp:102-114 | the packed word of a work group is read back as the two rows' halves by the next shader |
| MatVec.WholeProduct | android/shaders/q4k_matvec.comp:57-114 | all groups together, each in any order its barriers allow, write the whole product, one half a row, also for an odd number of rows |
| MatVec.WordsCoverMatrix | android/src/vulkan_context_layer.cpp:209-220 | for any matrix: whole words cover a Q4_K matrix always, a Q6_K matrix exactly when its number of blocks is even |
| LayerMatrices.MatrixShapes | android/src/vulkan_context_layer.cpp:259-265 | the seven matrices of an admitted run have an even number of rows, and columns in whole blocks |
| LayerMatrices.StoredMatrixIsCovered | android/src/vulkan_context_layer.cpp:209-265 | so every matrix that a run accepts from the store lies in whole words, and its offsets do not wrap |
| Wire.ReadWrite | android/src/protocol.cpp:19-61 | reading a written word gives it back |
| Wire.WriteRead | android/src/protocol.cpp:19-61 | writing a read word gives its bytes back |
| Wire.Put | android/src/protocol.cpp:19-36 | a word is written in place and the rest of the buffer kept |
| Wire.ContentHash64 | android/src/protocol.cpp:346-360 | the hash loop |
| Wire.HashStep | android/src/protocol.cpp:354-357 | a further byte: exclusive or, bit by bit, on the low byte of the hash, then multiplication by 1099511628211 modulo 2^64 |
| Wire.ByteXorIs | android/src/protocol.cpp:355 | the bits determine the result of the exclusive or |
| Wire.PublishedHashes | android/src/protocol.cpp:346-360 | published 64-bit FNV-1a values of the empty string, "a" and "fo" |
| Wire.ScaleIsInjective | android/src/protocol.cpp:356 | multiplication by the odd prime is invertible modulo 2^64 |
| Wire.HashFromIsInjective | android/src/protocol.cpp:354-357 | different states stay different over equal data |
| Wire.HashDetectsOneByte | android/src/protocol.cpp:346-360 | two strings of one length that differ in exactly one byte have different hashes |
| Framing.Sender.SendAll | android/src/protocol.cpp:128-162 | everything is sent, or exactly what the connection took before it broke, however calls are split or interrupted |
| Framing.Sender.SendFrame | android/src/protocol.cpp:236-265 | header and payload, or a refusal that sends nothing |
| Framing.Receiver.ReceiveExact | android/src/protocol.cpp:84-125 | exactly the next bytes, or the end of the stream |
| Framing.Receiver.ReceiveFrame | android/src/protocol.cpp:166-233 | result and rest depend on the bytes only, not on how they arrive; every error case |
| Framing.MakeHeader | src/remote/remote_client.cpp:253-258 | the header buffer field by field |
| Framing.DecodeInvertsEncode | src/remote/remote_client.cpp:248-284 | a sent frame is received as it was and nothing behind it is touched |
| Framing.EncodeInvertsDecode | android/src/protocol.cpp:166-233 | only encodings are accepted |
| Framing.CleanCloseExactly | android/src/protocol.cpp:172-176 | a close counts as clean exactly when less than a header was left |
| Framing.TruncatedHeaderLooksClean | android/src/protocol.cpp:172-176 | any proper start of a header passes for a clean close |
| Framing.Transfer | android/src/protocol.cpp:84-265 | for any frames and any two segmentations, the frames received until the clean close are the frames sent, in order |
| Framing.ReceiveFrames | android/src/tcp_server.cpp:139-149 | all frames of a stream up to what is no frame, and what that is |
| Framing.FramesOfEncoded | src/remote/remote_client.cpp:248-284 | the frames of a stream of encoded frames are these frames, and then it is closed |
| Codecs.EachIsRead | android/src/protocol.cpp:437-453 | an array is encoded exactly when its words read back one by one |
| Codecs.MakeLoadTensorPayload | src/remote/remote_client.cpp:304-329 | the client's payload, or the refusal of oversized metadata |
| Codecs.OverflowCheck | android/src/protocol.cpp:442-447 | the division test refuses exactly the products that overflow |
| Codecs.ReadDimensions | android/src/protocol.cpp:431-453 | refuses exactly when a dimension is zero or the whole product exceeds 64 bits |
| Codecs.DecodeLoadTensor | android/src/protocol.cpp:363-476 | accepts exactly the client's encodings of valid tensors and returns that tensor |
| Codecs.EncodeTensorInjective | src/remote/remote_client.cpp:304-329 | a payload determines its tensor |
| Codecs.MakeRunLayerRangePayload | src/remote/remote_client.cpp:331-359 | the client's payload with the hash of the input |
| Codecs.DecodeRunLayerRange | android/src/protocol.cpp:501-573 | accepts exactly the encodings of valid requests and returns that request; a NaN parameter is not refused |
| Codecs.EncodeRangeInjective | src/remote/remote_client.cpp:331-359 | a payload determines its request |
| Codecs.ParametersInNumbers | android/src/protocol.cpp:542-550 | the parameters that the decoder takes: positive dimensions, whole groups of heads, floats that are positive or not a number |
| WireLayout.LittleEndian | android/src/protocol.cpp:38-61 | words are read low byte first |
| WireLayout.FrameLayout | src/remote/remote_client.cpp:248-261 | the header of a frame: the letters CTL1, version, kind, request id and length, each at its offset; then the payload |
| WireLayout.PayloadLimit | android/include/citlali_remote/protocol.h:10-13 | frames up to 64 MiB can be sent, and no longer ones; the limits of a tensor's metadata |
| WireLayout.RangeLayout | src/remote/remote_client.cpp:331-359 | each field of a run request at its offset |
| WireLayout.RangeInputLayout | src/remote/remote_client.cpp:357 | and each element of its input |
| WireLayout.TensorLayout | src/remote/remote_client.cpp:304-329 | each field of a tensor at its offset |
| WireLayout.TensorDimensionLayout | src/remote/remote_client.cpp:323-325 | and each dimension |
| WireLayout.LoadedLayout | android/src/protocol.cpp:479-498 | the record of a stored tensor |
| WireLayout.ResultLayout | android/src/protocol.cpp:576-594 | the result of a run, with the hash of the output bytes behind it |
| WireLayout.HelloLayout | src/remote/remote_client.cpp:295-302 | the handshake request |
| TensorStore.BlockSizeCheckIsExact | android/src/vulkan_context_tensor.cpp:21-34 | for block types the wrapping size computation accepts exactly the true size |
| TensorStore.FlatSizeCheck | android/src/vulkan_context_tensor.cpp:36-43 | for F32 and F16 a wrong size passes exactly when the true one needs more than 64 bits |
| TensorStore.WrappedSizePasses | android/src/vulkan_context_tensor.cpp:36-43 | four bytes sent as 2^62 + 1 floats decode as a valid tensor, and any store with room keeps them |
| TensorStore.SizesInNumbers | android/src/vulkan_context_tensor.cpp:22-48 | the types by number, and the sizes that a store with room takes |
| TensorStore.TensorStore.Store | android/src/vulkan_context_tensor.cpp:7-178 | the first refusal in order, without change; an identical reload returns the stored record without change; a new name gets a new id |
| TensorStore.TensorStore.StoreRun | android/src/vulkan_context_tensor.cpp:51-178 | over any run ids are distinct for distinct names, never reused, also when the counter wraps, and everything stored stays |
| TensorStore.TensorStore.SingleByteChangeConflicts | android/src/vulkan_context_tensor.cpp:57-66 | a reload that differs in a single byte is refused although contents are not compared |
| Remote.TensorLoadedVerifies | src/remote/remote_client.cpp:412-428 | the server's record passes the client's checks exactly when it is about the tensor that was sent |
| Remote.ResultVerifies | src/remote/remote_client.cpp:468-484 | the server's result passes the client's checks |
| LayerTensors.NamesAreDistinct | src/remote/remote_client.cpp:521-522 | different layers have different tensor names |
| LayerTensors.NamesInFull | src/remote/remote_client.cpp:517-523 | the eleven names of a layer |
| LayerTensors.FindTensors | android/src/vulkan_context_layer.cpp:239-258 | a layer is found exactly when all its eleven tensors are stored |
| LayerTensors.CheckShapes | android/src/vulkan_context_layer.cpp:223-265 | the seven matrices have a block type and the columns and rows of the request |
| LayerTensors.RangeRuns | android/src/vulkan_context_layer.cpp:236-265 | a range passes exactly when each of its layers does |
| LayerTensors.LoadedRangeFault | android/src/vulkan_context_layer.cpp:236-265 | with all tensors stored only shapes can be wrong |
| LayerTensors.ExtendedLayer | android/src/vulkan_context_tensor.cpp:144-178 | a layer that can run still can when more tensors are stored |
| Remote.LoadTurnOf | android/src/tcp_server.cpp:203-239 | the tensor that was encoded is the one that is stored |
| Remote.RunTurnOf | android/src/tcp_server.cpp:250-295 | the request that was encoded is the one that is run |
| Remote.RespondFacts | android/src/tcp_server.cpp:152-304 | nothing is stored or run before the handshake or by a request of another kind, and only HELLO completes the handshake |
| WireLayout.KindsInNumbers | android/include/citlali_remote/protocol.h:15-25 | the numbers of the response kinds, and which request kinds they answer |
| WireLayout.EvenHeadsRun | android/src/vulkan_context_layer.cpp:31-37 | a run request with good parameters and stored tensors is run exactly when its head dimension is an even number from 2 to 256 |
| Remote.RunsAreAnswered | android/src/tcp_server.cpp:137-331 | in every run each request has one response, with its id, and what is stored or run comes after a handshake of the same connection |
| Remote.RepliesPrefix | android/src/tcp_server.cpp:137-331 | responses do not depend on later requests |
| Remote.Server.CheckRange | android/src/vulkan_context_layer.cpp:236-265 | the first layer of a range with a missing or wrong tensor decides the answer |
| Remote.Server.AnswerLoad | android/src/tcp_server.cpp:203-239 | the answer and the new store are the function of the payload that the decoder and the store define, for every payload |
| Remote.Server.AnswerRun | android/src/tcp_server.cpp:250-295 | the answer to every request, valid or not: entry check, missing tensors, wrong shapes, device, in this order |
| Remote.Server.Handle | android/src/tcp_server.cpp:152-304 | one response with the request's id, determined by connection, request and device; nothing is stored or run before a successful handshake of this connection |
| Remote.Server.ServeNext | android/src/tcp_server.cpp:139-310 | one round: a frame, its response, or the end of the connection |
| Remote.Server.ServeClient | android/src/tcp_server.cpp:137-331 | over any connection: the requests are the frames of the stream, each answered in order by the response its predecessors determine; with room all responses are on the wire and the exit is clean exactly when the stream closes with less than a header left; otherwise the wire holds the beginning of these responses up to where it broke; stores and runs only behind a handshake, tensors never lost |
| Remote.Converse | android/src/tcp_server.cpp:137-331 | a whole conversation over two byte streams, split and interrupted in any way: the client receives exactly the server's responses to its requests, in order |
| Framing.Deliver | src/remote/remote_client.cpp:248-284 | one frame on an idle connection arrives as it was sent, however both ends split and interrupt their calls |
| RemoteClient.Client.Exchange | src/remote/remote_client.cpp:402-411 | request and response as bytes, one after the other; ids count up; the response is the server's to this request on this connection, and everything received so far is what the server answers to everything sent |
| Remote.HelloIsAnswered | android/src/tcp_server.cpp:163-193 | the handshake succeeds exactly for version ranges around the server's version and for the backends auto and GPU |
| Remote.OnlyHelloIsAnswered | android/src/protocol.cpp:268-293 | and for no other payload |
| RemoteClient.Client.Connect | src/remote/remote_client.cpp:371-396 | succeeds exactly for the backends the server has |
| RemoteClient.Client.UploadTensor | src/remote/remote_client.cpp:398-437 | succeeds exactly when the tensor is valid, fits a frame and the server takes it, and what is stored then |
| RemoteClient.Client.UploadLayer | src/remote/remote_client.cpp:515-555 | succeeds exactly when all eleven uploads in turn do; then the layer is recorded and stored as the model file has it |
| RemoteClient.UploadedLayerRuns | android/src/vulkan_context_layer.cpp:223-265 | an uploaded layer can run exactly when its seven matrices are Q4_K or Q6_K in the model file and have the right shapes |
| Loading.StillRunnable | src/model/qwen_model.cpp:119-139 | loading stores nothing but tensors of the offloaded layers |
| Loading.UploadedForm | src/model/qwen_model.cpp:119-138 | an offloaded layer that passes the bias check and is uploaded has the form the helper computes with |
| Loading.BiasNamesInFull | src/model/qwen_model.cpp:120-126 | the names of the seven biases that an offloaded layer must not have |
| Loading.NormShapes | src/model/qwen_model.cpp:156-167 | the norms of a layer that passes are single rows of the model's width |
| Loading.LoadLayers | src/model/qwen_model.cpp:97-174 | the layer loop succeeds exactly when no offloaded layer has a bias in the file, every upload succeeds and the nine tensors that are looked at have the configured shapes; then all are recorded and stored as the model file has them |
| Loading.CheckedLayer | src/model/qwen_model.cpp:156-173 | behind these checks a run's own shape checks pass exactly when the seven matrices are two-dimensional and Q4_K or Q6_K, and the number of query elements is a 32-bit word |
| Loading.ReadyAsInFile | src/model/qwen_model.cpp:119-174 | so a loaded model finds its offloaded layers ready exactly when that holds of all of them and requests of the model are acceptable |
| Loading.Load | src/model/qwen_model.cpp:58-181 | loading succeeds exactly when every offloaded index is a layer, the handshake succeeds if it is needed, no bias is in the file for an offloaded layer, every upload succeeds and the shapes are right; it gives a model on which the forward pass is proved, with offloaded layers ready under the condition above |
| RemoteClient.OffloadedPass | src/model/qwen_model.cpp:278-304 | each remote range carries what the local layers made of the output before it; after a successful load no range is refused for a missing layer by either side, and each gives the device's output exactly when parameters, shapes and device allow; the pass stops at the first that fails |
| Loading.LoadAndPass | src/model/qwen_model.cpp:58-304 | loading and a pass together, in terms of the model file: once loaded, a range fails exactly when requests of the model are not acceptable, a matrix of the range is not two-dimensional or not Q4_K or Q6_K, the number of query elements is no 32-bit word, or the device fails |
| RemoteClient.Client.RunLayerRange | src/remote/remote_client.cpp:439-498 | for uploaded layers the server never answers that a tensor is missing; the request sent, the server's answer to it, and exactly when the output is the device's |
| RemoteClient.HalvesOfFloats | src/remote/remote_client.cpp:535-543 | each float of an F32 tensor is rounded to its half |
| RemoteClient.UploadInNumbers | src/remote/remote_client.cpp:528-552 | floats go out as halves; halves, Q4_K and Q6_K as they are; nothing else goes out; the hash is that of the bytes that go out |
| Capacity.RightSlotExactly | android/src/vulkan_context_layer.cpp:354-371 | the row of a position is copied to its own place exactly when the cache reaches that far |
| Capacity.NeededInNumbers | android/src/vulkan_context.cpp:432-470 | the size of each buffer for one set of dimensions, in bytes |
| Capacity.UnwrappedIsSound | android/src/vulkan_context_layer.cpp:29-39 | where the products of vectors and cache do not wrap every admissible request is sound and copies its row to the place of its position; the score buffer has its true size if that product does not wrap either |
| Capacity.ScoresExactly | android/src/vulkan_context.cpp:432-470 | the score buffer has its true size exactly when that is a 64-bit number |
| Capacity.WrappedScoresAreShort | android/src/vulkan_context.cpp:432-470 | admissible dimensions for which every bound range fits and the score buffer is smaller than its scores |
| Capacity.WrappedHeadsAreUnsound | android/src/vulkan_context_layer.cpp:29-39 | admissible dimensions whose keys do not fit the buffer of queries |
| Capacity.WrappedOffsetMissesSlot | android/src/vulkan_context_layer.cpp:357 | admissible dimensions whose copy fits the cache but lands at a wrong offset, because the product wraps |
| Capacity.SoundRequestFits | android/src/vulkan_context_layer.cpp:283-452 | buffers sized for a sound request hold every range bound or copied |
| Capacity.FreshBuffersFitExactly | android/src/vulkan_context.cpp:447-462 | on buffers allocated for the request that condition, with the copy offset as the code computes it, is also necessary |
| Capacity.Buffers.EnsureExecutionRuntime | android/src/vulkan_context.cpp:432-470 | every scratch buffer reaches its size and none shrinks |
| Capacity.Buffers.EnsureLayer | android/src/vulkan_context_layer.cpp:268-275 | a layer's caches always have room for what the layer was last sized for |
| Capacity.Buffers.PrepareRun | android/src/vulkan_context_layer.cpp:20-452 | whatever requests came before, every range of a sound request lies inside its buffer |

## Left out

- Floating-point accuracy of norms, rotary embedding, softmax, activation and sums: these are uninterpreted, or exact over the reals.
- MatVec.RowKernelIsDot: sums are exact, although the order of additions differs from a sequential sum; which half a sum is rounded to is a parameter of `MatVec.KernelProduct`.
- MatVec.PairKernelIsDot: sums are exact, as above; which half a sum is rounded to is a parameter of `MatVec.WholeProduct`.
- MatVec.ShaderLoop: assumes at most 4 GiB of weights and that whole words cover them; `LayerMatrices.StoredMatrixIsCovered` shows both for every matrix of a run whose dimensions are multiples of 256, as block-quantised rows are.
- Quant.DequantQ4: products and differences are exact; the narrowing to FP16 is a parameter, which is `Half.FloatToHalfBits` in the original; the same holds for the other two formats.
- MatVec.EmbedGrid: which half an element is narrowed to is a parameter.
- Tokenizer.RoundTrip: asks for a vocabulary with a piece for each byte and every merge result; without them unknown pieces become the unknown id and text is lost.
- Tokenizer.Tokenizer.LoadFromGguf: asks for fewer than 2^31 tokens and merge lines, so that ids and ranks fit their type.
- Remote.Server.Handle: error texts are shortened, and what the device computes for a run is a parameter; in `RemoteLink.ContinueRange` it is what `LayerRunner` computes.
- RemoteClient.Client.Exchange: the connection does not break; a broken one is among the failures of `LayerRunner.Runner.RunLayerRange`.
- LayerRunner.Runner.Submit: takes for granted that the host sees the last write of X, which no recorded barrier provides; so do `LayerRunner.SubmissionMeaning` and everything above them.
- LayerRunner.Runner.RunLayerRange: the run's dimensions are those of the model, which `RemoteLink.RequestOf` sends; transport, decoding, allocation and device failures of a request are one parameter, after which the caches hold anything.
- Loading.Load: the model has the optional tensors of the file and dimensions of 32 bits, as reading the configuration gives them; the weights of local layers, embedding and output are taken to be loaded with the right shapes; weight buffers of the helper are taken to hold what the model's layers compute with, and tensors stored before belong to the same model.
- Capacity.Buffers.PrepareRun: allocations succeed; tensor shapes are checked in `LayerTensors`.
- QwenModel.QwenModel.StoreAndAttend: indices are unbounded; the CUDA kernels compute them in 32-bit `int`, so the model speaks for context lengths with `max_context * kv_size` and `heads * max_context` below 2^31, and the embedding for `vocab_size * hidden` below 2^31.
- LayerExecution.AnyExecutionRunsLayers: a command reads all inputs at one moment and writes all outputs at another; weight buffers are read only and left out of memory.
- Reading GGUF files, loading weights onto the host's GPU, command line, console output and statistics.
- Vulkan instance, device, pipeline and descriptor management; sockets, Winsock and connection set-up.
- Capability details in the HELLO response, whose bytes are a parameter.
- Other quantised formats, other backends, and the probe and benchmark programs.
