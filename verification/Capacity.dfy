/** How large the device buffers of a layer run are, and what is bound to it. Allocations are assumed to
    succeed. Element counts are 32-bit products and byte counts 64-bit products, both of which wrap. */
module Capacity {
  import opened Words

  const TWO32 := 0x1_0000_0000
  const TWO64 := 0x1_0000_0000_0000_0000

  datatype Name = X | Norm | Q | K | V | Attention | Projection | Gate | Up | Activation | FfnOutput | Scores

  /** The dimensions of one request. */
  datatype Dims = Dims(hidden: U32, ffn: U32, heads: U32, kvHeads: U32, headDim: U32, maxContext: U32) {
    function QElements(): U32 { heads * headDim % TWO32 }

    function KvElements(): U32 { kvHeads * headDim % TWO32 }

    function CacheBytes(): U64 { CacheBytesOf(maxContext, KvElements()) }

    /** Where in a cache the row of a position is copied to. */
    function CopyOffset(position: nat): U64 { position * (KvElements() * 2) % TWO64 }

    function ScoreBytes(): U64 { heads * maxContext % TWO64 * 4 % TWO64 }

    /** The entry check of a run. */
    predicate Admissible() {
      hidden != 0 && kvHeads != 0 && heads % kvHeads == 0 && 0 < headDim <= 256 && headDim % 2 == 0
    }

    /** The size each scratch buffer is brought to at least. */
    function Needed(n: Name): nat {
      match n
      case X => hidden * 2
      case Norm => hidden * 2
      case Q => QElements() * 2
      case K => KvElements() * 2
      case V => KvElements() * 2
      case Attention => QElements() * 2
      case Projection => if hidden * 2 > QElements() * 2 then hidden * 2 else QElements() * 2
      case Gate => ffn * 2
      case Up => ffn * 2
      case Activation => ffn * 2
      case FfnOutput => hidden * 2
      case Scores => ScoreBytes()
    }
  }

  function CacheBytesOf(maxContext: U32, kvElements: U32): U64 {
    maxContext * (kvElements * 2) % TWO64
  }

  /** The buffers for a model with 32 query and 8 key/value heads of 128, in bytes. */
  lemma NeededInNumbers()
    ensures var d := Dims(4096, 12288, 32, 8, 128, 2048);
            && d.Needed(X) == d.Needed(Norm) == d.Needed(Q) == d.Needed(Attention) == d.Needed(Projection) == 8192
            && d.Needed(FfnOutput) == 8192 && d.Needed(K) == d.Needed(V) == 2048
            && d.Needed(Gate) == d.Needed(Up) == d.Needed(Activation) == 24576 && d.Needed(Scores) == 262144
            && d.CacheBytes() == 4194304 && d.CopyOffset(3) == 6144
  {}

  // ---- What a layer binds ----

  datatype Target = Scratch(name: Name) | KeyCache | ValueCache

  /** The first `bytes` bytes of a buffer; for a copy, the end of the copied range. */
  datatype Range = Range(target: Target, bytes: nat)

  /** Every range bound to a dispatch or copied by the commands of one layer, in recording order. */
  function LayerRanges(d: Dims, position: nat): seq<Range> {
    var h, q, kv, f := d.hidden * 2, d.QElements() * 2, d.KvElements() * 2, d.ffn * 2;
    [Range(Scratch(X), h), Range(Scratch(Norm), h),
     Range(Scratch(Norm), h), Range(Scratch(Q), q), Range(Scratch(K), kv), Range(Scratch(V), kv),
     Range(Scratch(Q), q), Range(Scratch(K), kv),
     Range(Scratch(Q), q), Range(Scratch(Projection), q), Range(Scratch(K), kv), Range(Scratch(Attention), kv),
     Range(Scratch(Attention), kv), Range(KeyCache, d.CopyOffset(position) + kv),
     Range(Scratch(V), kv), Range(ValueCache, d.CopyOffset(position) + kv),
     Range(Scratch(Projection), q), Range(KeyCache, d.CacheBytes()), Range(Scratch(Scores), d.ScoreBytes()),
     Range(Scratch(Scores), d.ScoreBytes()), Range(ValueCache, d.CacheBytes()), Range(Scratch(Attention), q),
     Range(Scratch(Attention), q), Range(Scratch(Projection), h), Range(Scratch(X), h), Range(Scratch(Projection), h),
     Range(Scratch(X), h), Range(Scratch(Norm), h), Range(Scratch(Norm), h), Range(Scratch(Gate), f),
     Range(Scratch(Up), f),
     Range(Scratch(Gate), f), Range(Scratch(Up), f), Range(Scratch(Activation), f),
     Range(Scratch(Activation), f), Range(Scratch(FfnOutput), h), Range(Scratch(X), h), Range(Scratch(FfnOutput), h)]
  }

  /** A layer's caches: what they were last sized for, and their capacities. */
  datatype Runtime = Runtime(maxContext: U32, kvElements: U32, keys: Option<nat>, values: Option<nat>)

  ghost predicate Fits(r: Range, scratch: map<Name, nat>, runtime: Runtime) {
    match r.target
    case Scratch(n) => n in scratch && r.bytes <= scratch[n]
    case KeyCache => runtime.keys.Some? && r.bytes <= runtime.keys.value
    case ValueCache => runtime.values.Some? && r.bytes <= runtime.values.value
  }

  ghost predicate AllFit(d: Dims, position: nat, scratch: map<Name, nat>, runtime: Runtime) {
    forall k | 0 <= k < |LayerRanges(d, position)| :: Fits(LayerRanges(d, position)[k], scratch, runtime)
  }

  /** The condition on a request: the rotated keys fit the attention buffer, which is sized for
      queries, and the copied row lies inside the cache. */
  predicate Sound(d: Dims, position: nat) {
    d.KvElements() <= d.QElements() && d.CopyOffset(position) + d.KvElements() * 2 <= d.CacheBytes()
  }

  /** The row of `position` lies inside the cache at its own place. */
  predicate RightSlot(d: Dims, position: nat) {
    && d.CopyOffset(position) == position * (d.KvElements() * 2)
    && position * (d.KvElements() * 2) + d.KvElements() * 2 <= d.CacheBytes()
  }

  /** The row of a position lies at its own place exactly when the cache reaches that far. */
  lemma RightSlotExactly(d: Dims, position: nat)
    ensures RightSlot(d, position) <==> (position + 1) * (d.KvElements() * 2) <= d.CacheBytes()
  {
    hide Dims.KvElements;
    NextRow(position, d.KvElements() * 2);
    WrapsBelow(position * (d.KvElements() * 2));
  }

  lemma NextRow(position: nat, row: nat)
    ensures (position + 1) * row == position * row + row
  {}

  lemma WrapsBelow(n: nat)
    ensures n < TWO64 ==> n % TWO64 == n
  {}

  /** Where the products of the vectors and the cache do not wrap, every admissible request is sound and
      copies to the place of its position; the scores have their true size if their product does not. */
  lemma UnwrappedIsSound(d: Dims, position: nat)
    requires d.Admissible() && position < d.maxContext && d.heads > 0
    requires d.heads * d.headDim < TWO32 && d.maxContext * (d.KvElements() * 2) < TWO64
    ensures Sound(d, position) && RightSlot(d, position)
    ensures d.heads * d.maxContext * 4 < TWO64 ==> d.ScoreBytes() == d.heads * d.maxContext * 4
  {
    FewerKeysThanQueries(d);
    ScoresExactly(d);
    hide Dims.KvElements, Dims.QElements;
    RowInside(position, d.maxContext, d.KvElements());
  }

  /** The buffer of scores has its true size exactly when that is a 64-bit number. */
  lemma ScoresExactly(d: Dims)
    ensures d.ScoreBytes() == d.heads * d.maxContext * 4 <==> d.heads * d.maxContext * 4 < TWO64
  {
    ScoresFit(d.heads * d.maxContext);
  }

  lemma ScoresFit(n: nat)
    ensures n % TWO64 * 4 % TWO64 == n * 4 <==> n * 4 < TWO64
  {}

  /** It need not be one: these dimensions are admissible, every bound range fits, and the buffer of scores
      is smaller than its scores. */
  lemma WrappedScoresAreShort()
    ensures var d := Dims(4096, 1, 0x7fff_ffff, 1, 2, 0xffff_ffff);
            && d.Admissible() && Sound(d, 0xffff_fffe) && RightSlot(d, 0xffff_fffe)
            && d.ScoreBytes() < d.heads * d.maxContext * 4
  {}

  /** With wrap-around a sound request can still copy to a wrong place: this one fits, but its offset is
      no multiple of a row. */
  lemma WrappedOffsetMissesSlot()
    ensures var d := Dims(4096, 1, 0x4000_0001, 0x4000_0001, 2, 0xffff_ffff);
            && d.Admissible() && Sound(d, 0xffff_fffe) && !RightSlot(d, 0xffff_fffe)
            && d.CopyOffset(0xffff_fffe) % (d.KvElements() * 2) != 0
  {}

  lemma FewerKeysThanQueries(d: Dims)
    requires d.heads > 0 && d.kvHeads > 0 && d.heads % d.kvHeads == 0 && d.heads * d.headDim < TWO32
    ensures d.KvElements() <= d.QElements()
  {
    DivisorIsSmaller(d.kvHeads, d.heads);
    Scales(d.kvHeads, d.heads, d.headDim);
    Unwrapped(d.kvHeads * d.headDim);
    Unwrapped(d.heads * d.headDim);
  }

  lemma DivisorIsSmaller(k: nat, n: nat)
    requires k > 0 && n > 0 && n % k == 0
    ensures k <= n
  {}

  lemma Unwrapped(n: nat)
    ensures n < TWO32 ==> n % TWO32 == n
  {}

  lemma RowInside(position: nat, maxContext: U32, kvElements: U32)
    requires position < maxContext && maxContext * (kvElements * 2) < TWO64
    ensures position * (kvElements * 2) + kvElements * 2 <= CacheBytesOf(maxContext, kvElements)
    ensures position * (kvElements * 2) % TWO64 == position * (kvElements * 2)
  {
    var kv := kvElements * 2;
    Scales(position + 1, maxContext, kv);
    assert (position + 1) * kv == position * kv + kv;
  }

  /** With wrap-around it need not be: these admissible dimensions ask for 16 query elements and 272
      key elements. */
  lemma WrappedHeadsAreUnsound()
    ensures var d := Dims(4096, 1, 0x8000_0008, 136, 2, 1);
            d.Admissible() && d.QElements() == 16 && d.KvElements() == 272 && !Sound(d, 0)
  {}

  /** Sizes that a call leaves: at least what is needed now, and never less than before. */
  ghost predicate Enough(d: Dims, scratch: map<Name, nat>) {
    forall n: Name :: n in scratch && scratch[n] >= d.Needed(n)
  }

  ghost predicate Grown(before: map<Name, nat>, after: map<Name, nat>) {
    forall n | n in before :: n in after && after[n] >= before[n]
  }

  ghost predicate Sized(d: Dims, names: set<Name>, scratch: map<Name, nat>) {
    forall n | n in names :: n in scratch && scratch[n] >= d.Needed(n)
  }

  lemma NothingSized(d: Dims, scratch: map<Name, nat>)
    ensures Sized(d, {}, scratch) && Grown(scratch, scratch)
  {}

  lemma AllSized(d: Dims, names: set<Name>, scratch: map<Name, nat>)
    requires X in names && Norm in names && Q in names && K in names && V in names && Attention in names
    requires Projection in names && Gate in names && Up in names && Activation in names
    requires FfnOutput in names && Scores in names
    requires Sized(d, names, scratch)
    ensures Enough(d, scratch)
  {
    hide Dims.Needed;
    forall n: Name ensures n in names {
      match n
      case X =>
      case Norm =>
      case Q =>
      case K =>
      case V =>
      case Attention =>
      case Projection =>
      case Gate =>
      case Up =>
      case Activation =>
      case FfnOutput =>
      case Scores =>
    }
  }

  predicate CachesSized(r: Runtime) {
    && r.keys.Some? && r.values.Some? && r.keys.value >= CacheBytesOf(r.maxContext, r.kvElements)
    && r.values.value >= CacheBytesOf(r.maxContext, r.kvElements)
  }

  lemma SoundRequestFits(d: Dims, position: nat, scratch: map<Name, nat>, runtime: Runtime)
    requires Sound(d, position) && Enough(d, scratch) && CachesSized(runtime)
    requires runtime.maxContext == d.maxContext && runtime.kvElements == d.KvElements()
    ensures AllFit(d, position, scratch, runtime)
  {
    hide Dims.QElements, Dims.KvElements, Dims.ScoreBytes, CacheBytesOf;
  }

  /** On buffers allocated for this very request the condition is also necessary. */
  lemma FreshBuffersFitExactly(d: Dims, position: nat, scratch: map<Name, nat>, runtime: Runtime)
    requires forall n: Name :: n in scratch && scratch[n] == d.Needed(n)
    requires runtime == Runtime(d.maxContext, d.KvElements(), Some(d.CacheBytes()), Some(d.CacheBytes()))
    ensures AllFit(d, position, scratch, runtime) <==> Sound(d, position)
  {
    if AllFit(d, position, scratch, runtime) {
      assert Fits(LayerRanges(d, position)[11], scratch, runtime);
      assert Fits(LayerRanges(d, position)[13], scratch, runtime);
    } else if Sound(d, position) {
      SoundRequestFits(d, position, scratch, runtime);
    }
    hide Dims.QElements, Dims.KvElements, Dims.ScoreBytes, CacheBytesOf;
  }

  // ---- The bookkeeping ----

  /** `ensure_gpu_buffer`: keeps a buffer that is large enough, replaces any other. */
  function Ensured(capacity: Option<nat>, bytes: nat): (r: nat)
    ensures r >= bytes && (capacity.Some? ==> r >= capacity.value)
  {
    if capacity.Some? && capacity.value >= bytes then capacity.value else bytes
  }

  class Buffers {
    var scratch: map<Name, nat>
    var layers: map<nat, Runtime>

    constructor ()
      ensures Valid() && scratch == map[] && layers == map[]
    {
      scratch, layers := map[], map[];
    }

    /** Every layer's caches are large enough for what the layer was last sized for. */
    ghost predicate Valid()
      reads this
    {
      forall l | l in layers :: CachesSized(layers[l])
    }

    /** `ensure_gpu_buffer` on a scratch buffer, with the buffers in `done` already sized. */
    method Ensure(n: Name, d: Dims, ghost done: set<Name>, ghost before: map<Name, nat>)
      requires Sized(d, done, scratch) && Grown(before, scratch)
      modifies this`scratch
      ensures Sized(d, done + {n}, scratch) && Grown(before, scratch)
    {
      hide Dims.Needed;
      scratch := scratch[n := Ensured(if n in scratch then Some(scratch[n]) else None, d.Needed(n))];
    }

    method EnsureExecutionRuntime(d: Dims)
      modifies this`scratch
      ensures Enough(d, scratch) && Grown(old(scratch), scratch)
    {
      ghost var before := scratch;
      NothingSized(d, scratch);
      hide *;
      ghost var done: set<Name> := {};
      Ensure(X, d, done, before);
      done := done + {X};
      Ensure(Norm, d, done, before);
      done := done + {Norm};
      Ensure(Q, d, done, before);
      done := done + {Q};
      Ensure(K, d, done, before);
      done := done + {K};
      Ensure(V, d, done, before);
      done := done + {V};
      Ensure(Attention, d, done, before);
      done := done + {Attention};
      Ensure(Projection, d, done, before);
      done := done + {Projection};
      Ensure(Gate, d, done, before);
      done := done + {Gate};
      Ensure(Up, d, done, before);
      done := done + {Up};
      Ensure(Activation, d, done, before);
      done := done + {Activation};
      Ensure(FfnOutput, d, done, before);
      done := done + {FfnOutput};
      Ensure(Scores, d, done, before);
      done := done + {Scores};
      AllSized(d, done, scratch);
    }

    /** Sizes a layer's caches when the context length or the key width changed. */
    method EnsureLayer(l: nat, d: Dims)
      requires Valid()
      modifies this`layers
      ensures Valid() && layers.Keys == old(layers.Keys) + {l}
      ensures layers[l].maxContext == d.maxContext && layers[l].kvElements == d.KvElements()
      ensures forall o | o in old(layers) && o != l :: layers[o] == old(layers[o])
    {
      hide Dims.KvElements, CacheBytesOf;
      var r := if l in layers then layers[l] else Runtime(0, 0, None, None);
      if l !in layers || r.maxContext != d.maxContext || r.kvElements != d.KvElements() {
        r := Runtime(d.maxContext, d.KvElements(),
                     Some(Ensured(r.keys, d.CacheBytes())), Some(Ensured(r.values, d.CacheBytes())));
      }
      layers := layers[l := r];
    }

    /** The bookkeeping of one run. Whatever requests came before, every range that a sound request
        binds or copies lies inside its buffer. */
    method PrepareRun(first: nat, last: nat, position: nat, d: Dims) returns (ok: bool)
      requires Valid()
      modifies this
      ensures Valid() && Grown(old(scratch), scratch)
      ensures ok <==> first <= last && position < d.maxContext && d.Admissible()
      ensures ok && Sound(d, position) ==>
                forall l | first <= l <= last :: l in layers && AllFit(d, position, scratch, layers[l])
    {
      hide AllFit, Dims.KvElements, Dims.QElements, CacheBytesOf, Dims.Needed;
      if first > last || position >= d.maxContext || !d.Admissible() {
        return false;
      }
      EnsureExecutionRuntime(d);
      for l := first to last + 1
        invariant Valid() && Enough(d, scratch) && Grown(old(scratch), scratch)
        invariant forall o | first <= o < l ::
                    o in layers && layers[o].maxContext == d.maxContext && layers[o].kvElements == d.KvElements()
      {
        EnsureLayer(l, d);
      }
      if Sound(d, position) {
        forall l | first <= l <= last ensures AllFit(d, position, scratch, layers[l]) {
          SoundRequestFits(d, position, scratch, layers[l]);
        }
      }
      return true;
    }
  }
}
