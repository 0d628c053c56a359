/** The decoder stack as a function of the whole token sequence.

    Norms, linear layers, rotary embedding, activation and softmax are parameters: nothing is known
    about them but the lengths of their results. What is fixed here is which value reaches which
    position, so that running token by token with caches can be compared with starting afresh. */
module Transformer {
  import opened Words

  /** FP16 cells as raw bits; attention scores are FP32 bits. */
  type Vec = seq<U16>
  type Score = U32

  /** The dimensions of a model; `epsilon` of its norms and `theta` of its rotary embedding are floats as bits. */
  datatype RawShape = RawShape(
    hidden: nat, heads: nat, kvHeads: nat, headDim: nat, ffn: nat, epsilon: U32, theta: U32) {
    predicate Valid() {
      kvHeads > 0 && heads > 0 && heads % kvHeads == 0
    }

    function QSize(): nat { heads * headDim }

    function KvSize(): nat { kvHeads * headDim }

    /** The key/value head that a query head shares (grouped-query attention). */
    function KvHead(head: nat): nat
      requires Valid() && head < heads
    {
      GroupPositive();
      head / (heads / kvHeads)
    }

    lemma GroupPositive()
      requires Valid()
      ensures heads / kvHeads > 0
    {}

    lemma KvHeadInRange(head: nat)
      requires Valid() && head < heads
      ensures KvHead(head) < kvHeads
    {
      var group := heads / kvHeads;
      assert head / group < kvHeads by {
        assert heads == group * kvHeads;
        assert head == group * (head / group) + head % group;
      }
    }
  }

  type Shape = s: RawShape | s.Valid() witness RawShape(1, 1, 1, 1, 1, 1, 1)

  /** Position-independent arithmetic shared by all layers. `mix` turns the scores of one head over
      positions 0..p and one value component over the same positions into one output component. */
  datatype Kernels = Kernels(
    add: (Vec, Vec) -> Vec,
    rope: (Vec, nat, nat) -> Vec,
    swiglu: (Vec, Vec) -> Vec,
    dot: (Vec, Vec) -> Score,
    mix: (seq<Score>, Vec) -> U16)

  type Map = Vec -> Vec

  /** The tensors of a layer. Biases and head norms are optional. */
  datatype Part =
    | AttnNorm | AttnQ | AttnQBias | AttnK | AttnKBias | AttnV | AttnVBias | AttnO | AttnOBias | QNorm | KNorm
    | FfnNorm | FfnGate | FfnGateBias | FfnUp | FfnUpBias | FfnDown | FfnDownBias

  /** Which tensors a layer has, and what applying one to a vector gives. */
  datatype Weights = Weights(present: set<Part>, run: (Part, Vec) -> Vec)

  datatype Model = Model(
    shape: Shape,
    ops: Kernels,
    layers: seq<Weights>,
    vocabSize: nat,
    embed: nat -> Vec,
    outputNorm: Map,
    logits: Vec -> seq<Logit>)

  /** A float as greedy sampling sees it. */
  datatype Logit = Finite(value: real) | NotFinite

  function IfPresent(w: Weights, part: Part, x: Vec): Vec {
    if part in w.present then w.run(part, x) else x
  }

  // ---- One layer at one position ----

  function Query(m: Model, w: Weights, h: Vec, pos: nat): Vec {
    m.ops.rope(IfPresent(w, QNorm, IfPresent(w, AttnQBias, w.run(AttnQ, w.run(AttnNorm, h)))), m.shape.heads, pos)
  }

  function Key(m: Model, w: Weights, h: Vec, pos: nat): Vec {
    m.ops.rope(IfPresent(w, KNorm, IfPresent(w, AttnKBias, w.run(AttnK, w.run(AttnNorm, h)))), m.shape.kvHeads, pos)
  }

  function Value(w: Weights, h: Vec): Vec {
    IfPresent(w, AttnVBias, w.run(AttnV, w.run(AttnNorm, h)))
  }

  /** Components `head * dim ..` of a vector laid out head by head. */
  function HeadSlice(v: Vec, head: nat, dim: nat): Vec {
    if head * dim + dim <= |v| then v[head * dim..head * dim + dim] else []
  }

  /** One component of each row, in row order. */
  function Column(rows: seq<Vec>, i: nat): Vec {
    if rows == [] then [] else (if i < |rows[0]| then [rows[0][i]] else []) + Column(rows[1..], i)
  }

  function HeadScores(m: Model, q: Vec, keys: seq<Vec>, head: nat): (s: seq<Score>)
    requires head < m.shape.heads
    ensures |s| == |keys|
  {
    seq<Score>(|keys|, t requires 0 <= t < |keys| =>
      m.ops.dot(HeadSlice(q, head, m.shape.headDim), HeadSlice(keys[t], m.shape.KvHead(head), m.shape.headDim)))
  }

  function Scores(m: Model, q: Vec, keys: seq<Vec>): (s: seq<seq<Score>>)
    ensures |s| == m.shape.heads
  {
    seq(m.shape.heads, head requires 0 <= head < m.shape.heads => HeadScores(m, q, keys, head))
  }

  lemma ScoreAt(m: Model, q: Vec, keys: seq<Vec>, head: nat, t: nat)
    requires head < m.shape.heads && t < |keys|
    ensures |Scores(m, q, keys)[head]| == |keys|
    ensures Scores(m, q, keys)[head][t] ==
            m.ops.dot(HeadSlice(q, head, m.shape.headDim), HeadSlice(keys[t], m.shape.KvHead(head), m.shape.headDim))
  {}

  /** Output component `j` of the attention: head `j / headDim`, component `j % headDim`. */
  function MixedComponent(m: Model, scores: seq<seq<Score>>, values: seq<Vec>, j: nat): U16
    requires |scores| == m.shape.heads && j < m.shape.QSize()
  {
    HeadOfComponent(m.shape, j);
    var head, dim := j / m.shape.headDim, j % m.shape.headDim;
    m.ops.mix(scores[head], Column(values, m.shape.KvHead(head) * m.shape.headDim + dim))
  }

  lemma HeadOfComponent(s: Shape, j: nat)
    requires j < s.QSize()
    ensures s.headDim > 0 && j / s.headDim < s.heads
  {
    assert s.headDim > 0;
    assert j == s.headDim * (j / s.headDim) + j % s.headDim;
  }

  function Mixed(m: Model, scores: seq<seq<Score>>, values: seq<Vec>): (r: Vec)
    requires |scores| == m.shape.heads
    ensures |r| == m.shape.QSize()
  {
    seq(m.shape.QSize(), j requires 0 <= j < m.shape.QSize() => MixedComponent(m, scores, values, j))
  }

  // ---- Grouped-query attention, written out ----

  /** `w` is the `n` components of `v` from `from` on. */
  ghost predicate IsWindow(v: Vec, from: nat, n: nat, w: Vec) {
    from + n <= |v| && w == v[from..from + n]
  }

  /** Query heads share key/value heads in consecutive groups: head `i` of group `kv` is scored against
      head `kv` of each key. */
  lemma GroupScores(m: Model, q: Vec, keys: seq<Vec>, kv: nat, i: nat, head: nat, t: nat)
    requires kv < m.shape.kvHeads && i < m.shape.heads / m.shape.kvHeads && t < |keys|
    requires head == kv * (m.shape.heads / m.shape.kvHeads) + i
    requires |q| == m.shape.QSize() && |keys[t]| == m.shape.KvSize()
    ensures head < m.shape.heads
    ensures exists a, b ::
              && IsWindow(q, head * m.shape.headDim, m.shape.headDim, a)
              && IsWindow(keys[t], kv * m.shape.headDim, m.shape.headDim, b)
              && Scores(m, q, keys)[head][t] == m.ops.dot(a, b)
  {
    GroupHead(m.shape, kv, i);
    HeadInside(head, m.shape.heads, m.shape.headDim);
    HeadInside(kv, m.shape.kvHeads, m.shape.headDim);
    hide RawShape.KvHead;
    ScoreAt(m, q, keys, head, t);
    assert IsWindow(q, head * m.shape.headDim, m.shape.headDim, HeadSlice(q, head, m.shape.headDim));
    assert IsWindow(keys[t], kv * m.shape.headDim, m.shape.headDim, HeadSlice(keys[t], kv, m.shape.headDim));
  }

  /** Component `c` of each row. */
  ghost predicate IsColumn(rows: seq<Vec>, c: nat, column: Vec) {
    |column| == |rows| && forall t | 0 <= t < |rows| :: c < |rows[t]| && column[t] == rows[t][c]
  }

  /** And mixes head `kv` of the values, component by component. */
  lemma GroupValues(
    m: Model, scores: seq<seq<Score>>, values: seq<Vec>, kv: nat, i: nat, head: nat, dim: nat, column: Vec)
    requires kv < m.shape.kvHeads && i < m.shape.heads / m.shape.kvHeads && dim < m.shape.headDim
    requires head == kv * (m.shape.heads / m.shape.kvHeads) + i
    requires |scores| == m.shape.heads && IsColumn(values, kv * m.shape.headDim + dim, column)
    ensures head < m.shape.heads && head * m.shape.headDim + dim < |Mixed(m, scores, values)|
    ensures Mixed(m, scores, values)[head * m.shape.headDim + dim] == m.ops.mix(scores[head], column)
  {
    hide RawShape.KvHead, Column, Mixed, IsColumn;
    GroupHead(m.shape, kv, i);
    HeadInside(head, m.shape.heads, m.shape.headDim);
    ColumnIs(values, kv * m.shape.headDim + dim, column);
    MixedAt(m, scores, values, kv, head, dim);
  }

  lemma MixedAt(m: Model, scores: seq<seq<Score>>, values: seq<Vec>, kv: nat, head: nat, dim: nat)
    requires |scores| == m.shape.heads && head < m.shape.heads && dim < m.shape.headDim && m.shape.KvHead(head) == kv
    ensures head * m.shape.headDim + dim < |Mixed(m, scores, values)|
    ensures Mixed(m, scores, values)[head * m.shape.headDim + dim]
            == m.ops.mix(scores[head], Column(values, kv * m.shape.headDim + dim))
  {
    hide RawShape.KvHead, Column;
    HeadInside(head, m.shape.heads, m.shape.headDim);
    Quotient(head, m.shape.headDim, dim);
    var j := head * m.shape.headDim + dim;
    assert Mixed(m, scores, values)[j] == MixedComponent(m, scores, values, j);
  }

  /** The query head `i` of group `kv`. */
  lemma GroupHead(s: Shape, kv: nat, i: nat)
    requires kv < s.kvHeads && i < s.heads / s.kvHeads
    ensures var head := kv * (s.heads / s.kvHeads) + i; head < s.heads && s.KvHead(head) == kv
  {
    var g := s.heads / s.kvHeads;
    assert s.heads == s.kvHeads * g;
    HeadInside(kv, s.kvHeads, g);
    Quotient(kv, g, i);
  }

  lemma HeadInside(head: nat, heads: nat, n: nat)
    requires head < heads
    ensures head * n + n <= heads * n
  {
    Scales(head + 1, heads, n);
    assert (head + 1) * n == head * n + n;
  }

  lemma {:induction false} ColumnIs(rows: seq<Vec>, c: nat, column: Vec)
    requires IsColumn(rows, c, column)
    ensures Column(rows, c) == column
  {
    if rows != [] {
      ColumnIs(rows[1..], c, column[1..]);
      assert column == [column[0]] + column[1..];
    }
  }

  function AttentionBlock(m: Model, w: Weights, h: Vec, attended: Vec): Vec {
    m.ops.add(h, IfPresent(w, AttnOBias, w.run(AttnO, attended)))
  }

  function FeedForward(m: Model, w: Weights, a: Vec): Vec {
    var n := w.run(FfnNorm, a);
    var act := m.ops.swiglu(IfPresent(w, FfnGateBias, w.run(FfnGate, n)), IfPresent(w, FfnUpBias, w.run(FfnUp, n)));
    m.ops.add(a, IfPresent(w, FfnDownBias, w.run(FfnDown, act)))
  }

  /** One layer, given the keys and values of positions 0..pos. */
  function LayerOutput(
    m: Model, w: Weights, h: Vec, pos: nat, keys: seq<Vec>, values: seq<Vec>): Vec
  {
    var attended := Mixed(m, Scores(m, Query(m, w, h, pos), keys), values);
    FeedForward(m, w, AttentionBlock(m, w, h, attended))
  }

  // ---- One layer, written out ----

  /** A bias comes directly behind its matrix, the head norm behind it, the rotation last; values get
      neither head norm nor rotation. A part that is absent is left out. */
  lemma ProjectionOrder(m: Model, w: Weights, h: Vec, pos: nat)
    ensures var x := w.run(AttnNorm, h);
            var q := if AttnQBias in w.present then w.run(AttnQBias, w.run(AttnQ, x)) else w.run(AttnQ, x);
            var k := if AttnKBias in w.present then w.run(AttnKBias, w.run(AttnK, x)) else w.run(AttnK, x);
            && Query(m, w, h, pos) == m.ops.rope(if QNorm in w.present then w.run(QNorm, q) else q, m.shape.heads, pos)
            && Key(m, w, h, pos) == m.ops.rope(if KNorm in w.present then w.run(KNorm, k) else k, m.shape.kvHeads, pos)
            && Value(w, h) == if AttnVBias in w.present then w.run(AttnVBias, w.run(AttnV, x)) else w.run(AttnV, x)
  {}

  /** Both residuals add onto the block's input; the second block works on the norm of the first's result. */
  lemma BlockOrder(m: Model, w: Weights, h: Vec, attended: Vec)
    ensures var o := w.run(AttnO, attended);
            AttentionBlock(m, w, h, attended) == m.ops.add(h, if AttnOBias in w.present then w.run(AttnOBias, o) else o)
    ensures var n := w.run(FfnNorm, h);
            var gate := if FfnGateBias in w.present then w.run(FfnGateBias, w.run(FfnGate, n)) else w.run(FfnGate, n);
            var up := if FfnUpBias in w.present then w.run(FfnUpBias, w.run(FfnUp, n)) else w.run(FfnUp, n);
            var down := w.run(FfnDown, m.ops.swiglu(gate, up));
            FeedForward(m, w, h)
            == m.ops.add(h, if FfnDownBias in w.present then w.run(FfnDownBias, down) else down)
  {}

  // ---- The stack from scratch ----

  /** The hidden state at position `p` after the first `l` layers, recomputed from the tokens. */
  ghost function Hidden(m: Model, tokens: seq<nat>, l: nat, p: nat): Vec
    requires l <= |m.layers| && p < |tokens|
    decreases l, 0, p
  {
    if l == 0 then m.embed(tokens[p])
    else LayerOutput(m, m.layers[l - 1], Hidden(m, tokens, l - 1, p), p,
                     Keys(m, tokens, l - 1, p + 1), Values(m, tokens, l - 1, p + 1))
  }

  lemma HiddenStart(m: Model, tokens: seq<nat>, p: nat)
    requires p < |tokens|
    ensures Hidden(m, tokens, 0, p) == m.embed(tokens[p])
  {}

  lemma HiddenStep(m: Model, tokens: seq<nat>, l: nat, p: nat)
    requires 0 < l <= |m.layers| && p < |tokens|
    ensures Hidden(m, tokens, l, p) ==
            LayerOutput(m, m.layers[l - 1], Hidden(m, tokens, l - 1, p), p,
                        Keys(m, tokens, l - 1, p + 1), Values(m, tokens, l - 1, p + 1))
  {}

  /** The keys layer `l` derives from positions 0..n-1. */
  ghost function Keys(m: Model, tokens: seq<nat>, l: nat, n: nat): (k: seq<Vec>)
    requires l < |m.layers| && n <= |tokens|
    ensures |k| == n
    decreases l, 1, n
  {
    if n == 0 then []
    else Keys(m, tokens, l, n - 1) + [Key(m, m.layers[l], Hidden(m, tokens, l, n - 1), n - 1)]
  }

  ghost function Values(m: Model, tokens: seq<nat>, l: nat, n: nat): (v: seq<Vec>)
    requires l < |m.layers| && n <= |tokens|
    ensures |v| == n
    decreases l, 1, n
  {
    if n == 0 then []
    else Values(m, tokens, l, n - 1) + [Value(m.layers[l], Hidden(m, tokens, l, n - 1))]
  }

  /** Causality: later tokens change nothing at earlier positions. */
  lemma {:induction false} HiddenIsCausal(m: Model, tokens: seq<nat>, more: seq<nat>, l: nat, p: nat)
    requires l <= |m.layers| && p < |tokens|
    ensures Hidden(m, tokens + more, l, p) == Hidden(m, tokens, l, p)
    decreases l, 0, p
  {
    hide LayerOutput;
    if l == 0 {
      assert (tokens + more)[p] == tokens[p];
    } else {
      HiddenIsCausal(m, tokens, more, l - 1, p);
      CachesAreCausal(m, tokens, more, l - 1, p + 1);
      HiddenStep(m, tokens, l, p);
      HiddenStep(m, tokens + more, l, p);
    }
  }

  lemma {:induction false} CachesAreCausal(m: Model, tokens: seq<nat>, more: seq<nat>, l: nat, n: nat)
    requires l < |m.layers| && n <= |tokens|
    ensures Keys(m, tokens + more, l, n) == Keys(m, tokens, l, n)
    ensures Values(m, tokens + more, l, n) == Values(m, tokens, l, n)
    decreases l, 1, n
  {
    hide LayerOutput, Key, Value;
    if n > 0 {
      CachesAreCausal(m, tokens, more, l, n - 1);
      HiddenIsCausal(m, tokens, more, l, n - 1);
    }
  }

  lemma {:induction false} CacheRow(m: Model, tokens: seq<nat>, l: nat, n: nat, t: nat)
    requires l < |m.layers| && t < n <= |tokens|
    ensures Keys(m, tokens, l, n)[t] == Key(m, m.layers[l], Hidden(m, tokens, l, t), t)
    ensures Values(m, tokens, l, n)[t] == Value(m.layers[l], Hidden(m, tokens, l, t))
  {
    hide LayerOutput, Key, Value;
    if t < n - 1 {
      CacheRow(m, tokens, l, n - 1, t);
    }
  }

  // ---- Shapes ----

  ghost predicate Produces(w: Weights, part: Part, inLen: nat, outLen: nat) {
    forall x: Vec | |x| == inLen :: |w.run(part, x)| == outLen
  }

  ghost predicate ProducesIfPresent(w: Weights, part: Part, len: nat) {
    part in w.present ==> Produces(w, part, len, len)
  }

  /** What the shape checks of loading a layer leave known. */
  ghost predicate LayerFits(m: Model, w: Weights) {
    && Produces(w, AttnNorm, m.shape.hidden, m.shape.hidden)
    && Produces(w, AttnK, m.shape.hidden, m.shape.KvSize())
    && ProducesIfPresent(w, AttnKBias, m.shape.KvSize()) && ProducesIfPresent(w, KNorm, m.shape.KvSize())
    && Produces(w, AttnV, m.shape.hidden, m.shape.KvSize()) && ProducesIfPresent(w, AttnVBias, m.shape.KvSize())
    && Produces(w, AttnQ, m.shape.hidden, m.shape.QSize())
    && ProducesIfPresent(w, AttnQBias, m.shape.QSize()) && ProducesIfPresent(w, QNorm, m.shape.QSize())
    && Produces(w, AttnO, m.shape.QSize(), m.shape.hidden) && ProducesIfPresent(w, AttnOBias, m.shape.hidden)
  }

  ghost predicate Fits(m: Model) {
    && (forall l | 0 <= l < |m.layers| :: LayerFits(m, m.layers[l]))
    && (forall t: nat :: |m.embed(t)| == m.shape.hidden)
    && (forall a: Vec, b: Vec :: |m.ops.add(a, b)| == |a|)
    && (forall a: Vec, h: nat, p: nat :: |m.ops.rope(a, h, p)| == |a|)
  }

  lemma LayerShapes(m: Model, l: nat, h: Vec, pos: nat)
    requires Fits(m) && l < |m.layers| && |h| == m.shape.hidden
    ensures |Query(m, m.layers[l], h, pos)| == m.shape.QSize()
    ensures |Key(m, m.layers[l], h, pos)| == m.shape.KvSize()
    ensures |Value(m.layers[l], h)| == m.shape.KvSize()
  {
    var w := m.layers[l];
    assert LayerFits(m, w);
  }

  lemma OutputShape(
    m: Model, l: nat, h: Vec, pos: nat, keys: seq<Vec>, values: seq<Vec>)
    requires Fits(m) && l < |m.layers| && |h| == m.shape.hidden
    ensures |LayerOutput(m, m.layers[l], h, pos, keys, values)| == m.shape.hidden
  {}

  lemma {:induction false} HiddenShape(m: Model, tokens: seq<nat>, l: nat, p: nat)
    requires Fits(m) && l <= |m.layers| && p < |tokens|
    ensures |Hidden(m, tokens, l, p)| == m.shape.hidden
  {
    if l > 0 {
      HiddenShape(m, tokens, l - 1, p);
      OutputShape(m, l - 1, Hidden(m, tokens, l - 1, p), p,
                  Keys(m, tokens, l - 1, p + 1), Values(m, tokens, l - 1, p + 1));
    }
  }

  // ---- Greedy decoding ----

  /** `best` is the first index whose logit is the largest finite one; 0 when none is finite. */
  ghost predicate IsGreedyChoice(logits: seq<Logit>, best: nat) {
    if forall i | 0 <= i < |logits| :: logits[i].NotFinite? then best == 0
    else
      && best < |logits| && logits[best].Finite?
      && (forall i | 0 <= i < |logits| && logits[i].Finite? :: logits[i].value <= logits[best].value)
      && (forall i | 0 <= i < best && logits[i].Finite? :: logits[i].value < logits[best].value)
  }

  /** Ties go to the first, what is not finite does not count, and without a finite logit the choice is 0. */
  lemma GreedyTies(a: real, b: real)
    requires a < b
    ensures IsGreedyChoice([NotFinite, Finite(a), Finite(b), NotFinite, Finite(b)], 2)
    ensures IsGreedyChoice([NotFinite, NotFinite], 0)
  {
    assert [NotFinite, Finite(a), Finite(b), NotFinite, Finite(b)][2] == Finite(b);
  }

  lemma GreedyChoiceUnique(logits: seq<Logit>, a: nat, b: nat)
    requires IsGreedyChoice(logits, a) && IsGreedyChoice(logits, b)
    ensures a == b
  {}
}
