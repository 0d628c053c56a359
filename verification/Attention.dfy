/** The CUDA cache and attention kernels over flat arrays.

    Each kernel is a grid of independent threads, written as a `forall` statement: the verifier
    demands that no two threads write the same cell. The contracts tie the flat index arithmetic to
    rows of keys and values, one row a position. */
module Attention {
  import opened Words
  import opened Transformer

  /** Row `t` of a cache whose rows are `width` cells wide. */
  function Row(cells: Vec, width: nat, t: nat): Vec {
    if t * width + width <= |cells| then cells[t * width..t * width + width] else []
  }

  /** The first rows of the cache are `rows`; later rows may hold anything. */
  ghost predicate Cached(cells: Vec, width: nat, rows: seq<Vec>) {
    forall t | 0 <= t < |rows| :: |rows[t]| == width && Row(cells, width, t) == rows[t]
  }

  lemma {:induction false} RowsFit(t: nat, n: nat, width: nat)
    requires t < n
    ensures t * width + width <= n * width
    decreases n
  {
    assert n * width == (n - 1) * width + width;
    if t < n - 1 {
      RowsFit(t, n - 1, width);
    }
  }

  lemma RowsDisjoint(t: nat, s: nat, width: nat, i: nat)
    requires i < width && t != s
    ensures !(t * width <= s * width + i < t * width + width)
  {
    if t < s { RowsFit(t, s, width); } else { RowsFit(s, t, width); }
  }

  /** Flat index of entry `j` of line `i`; distinct entries have distinct indices. */
  function Flat(i: nat, width: nat, j: nat): nat {
    i * width + j
  }

  lemma FlatInjective(width: nat)
    ensures forall i: nat, j: nat, i': nat, j': nat {:trigger Flat(i, width, j), Flat(i', width, j')} ::
              j < width && j' < width && Flat(i, width, j) == Flat(i', width, j') ==> i == i' && j == j'
  {
    forall i: nat, j: nat, i': nat, j': nat
      | j < width && j' < width && Flat(i, width, j) == Flat(i', width, j')
      ensures i == i' && j == j'
    {
      if i != i' {
        RowsDisjoint(i, i', width, j');
      }
    }
  }

  lemma FlatInRange(i: nat, n: nat, width: nat, j: nat)
    requires i < n && j < width
    ensures Flat(i, width, j) < n * width
  {
    RowsFit(i, n, width);
  }

  /** `store_kv_kernel`: writes row `position`, and every other row stays as it was. */
  method StoreRow(source: Vec, cache: array<U16>, position: nat, width: nat, ghost rows: seq<Vec>)
    requires |source| == width && position * width + width <= cache.Length
    requires |rows| == position && Cached(cache[..], width, rows)
    modifies cache
    ensures forall t: nat | t != position :: Row(cache[..], width, t) == old(Row(cache[..], width, t))
    ensures Cached(cache[..], width, rows + [source])
  {
    ghost var was := cache[..];
    var base := position * width;
    forall i | 0 <= i < width {
      cache[base + i] := source[i];
    }
    RowIsStored(was, cache[..], position, width, source, rows);
  }

  lemma RowIsStored(was: Vec, now: Vec, position: nat, width: nat, source: Vec, rows: seq<Vec>)
    requires |now| == |was| && |source| == width && position * width + width <= |now|
    requires |rows| == position && Cached(was, width, rows)
    requires now[position * width..position * width + width] == source
    requires forall c | 0 <= c < |was| && !(position * width <= c < position * width + width) :: now[c] == was[c]
    ensures forall t: nat | t != position :: Row(now, width, t) == Row(was, width, t)
    ensures Cached(now, width, rows + [source])
  {
    assert Row(now, width, position) == source;
    forall t: nat | t != position ensures Row(now, width, t) == Row(was, width, t) {
      OtherRowKept(was, now, position, width, t);
    }
    hide Row;
  }

  lemma OtherRowKept(was: Vec, now: Vec, position: nat, width: nat, t: nat)
    requires |now| == |was| && t != position
    requires forall c | 0 <= c < |was| && !(position * width <= c < position * width + width) :: now[c] == was[c]
    ensures Row(now, width, t) == Row(was, width, t)
  {
    if t < position { RowsFit(t, position, width); } else { RowsFit(position, t, width); }
  }

  /** First cell of a key/value head at a position, as the kernels compute it. */
  function HeadBase(s: Shape, t: nat, kvHead: nat): nat {
    (t * s.kvHeads + kvHead) * s.headDim
  }

  function Window(cells: Vec, start: nat, len: nat): Vec {
    if start + len <= |cells| then cells[start..start + len] else []
  }

  lemma HeadBaseSplits(s: Shape, t: nat, kvHead: nat)
    ensures HeadBase(s, t, kvHead) == t * s.KvSize() + kvHead * s.headDim
  {
    assert (t * s.kvHeads) * s.headDim == t * (s.kvHeads * s.headDim);
  }

  /** The window a kernel reads is that head of that row. */
  lemma WindowIsHead(cells: Vec, s: Shape, t: nat, kvHead: nat)
    requires kvHead < s.kvHeads && t * s.KvSize() + s.KvSize() <= |cells|
    ensures Window(cells, HeadBase(s, t, kvHead), s.headDim) == HeadSlice(Row(cells, s.KvSize(), t), kvHead, s.headDim)
  {
    var base, from := t * s.KvSize(), kvHead * s.headDim;
    RowsFit(kvHead, s.kvHeads, s.headDim);
    HeadBaseSplits(s, t, kvHead);
    WindowInRow(cells, base, s.KvSize(), from, s.headDim);
    assert Row(cells, s.KvSize(), t) == cells[base..base + s.KvSize()];
    assert |cells[base..base + s.KvSize()]| == s.KvSize();
  }

  lemma WindowInRow(cells: Vec, base: nat, width: nat, from: nat, len: nat)
    requires from + len <= width && base + width <= |cells|
    ensures cells[base..base + width][from..from + len] == Window(cells, base + from, len)
  {
    var row := cells[base..base + width];
    var a, b := row[from..from + len], cells[base + from..base + from + len];
    forall i | 0 <= i < len ensures a[i] == b[i] {
      assert a[i] == row[from + i] == cells[base + (from + i)];
    }
  }

  /** The score one thread block computes. */
  function BlockScore(m: Model, q: Vec, kCells: Vec, head: nat, t: nat): Score
    requires head < m.shape.heads
  {
    m.ops.dot(HeadSlice(q, head, m.shape.headDim),
              Window(kCells, HeadBase(m.shape, t, m.shape.KvHead(head)), m.shape.headDim))
  }

  lemma BlockScoreMeaning(m: Model, q: Vec, kCells: Vec, keys: seq<Vec>, head: nat, t: nat)
    requires head < m.shape.heads && t < |keys| && |keys| * m.shape.KvSize() <= |kCells|
    requires Cached(kCells, m.shape.KvSize(), keys)
    ensures BlockScore(m, q, kCells, head, t) == Scores(m, q, keys)[head][t]
  {
    m.shape.KvHeadInRange(head);
    RowsFit(t, |keys|, m.shape.KvSize());
    WindowIsHead(kCells, m.shape, t, m.shape.KvHead(head));
    ScoreAt(m, q, keys, head, t);
    hide Scores, Window, HeadSlice, HeadBase, Row;
  }

  /** `attention_scores_kernel`: one score for each head and each position up to the current one. */
  method AttentionScores(
    m: Model, q: Vec, kCache: array<U16>, scores: array<Score>, position: nat, maxContext: nat, ghost keys: seq<Vec>)
    requires kCache.Length == maxContext * m.shape.KvSize() && scores.Length == m.shape.heads * maxContext
    requires position < maxContext
    requires |keys| == position + 1 && Cached(kCache[..], m.shape.KvSize(), keys)
    modifies scores
    ensures forall head | 0 <= head < m.shape.heads ::
              Line(scores[..], maxContext, position, head) == Scores(m, q, keys)[head]
  {
    hide BlockScore, Scores, Line, Flat;
    forall head, t | 0 <= head < m.shape.heads && 0 <= t <= position
      ensures Flat(head, maxContext, t) < scores.Length
    {
      FlatInRange(head, m.shape.heads, maxContext, t);
    }
    FlatInjective(maxContext);
    var kCells := kCache[..];
    forall head, t | 0 <= head < m.shape.heads && 0 <= t <= position {
      scores[Flat(head, maxContext, t)] := BlockScore(m, q, kCells, head, t);
    }
    assert |keys| * m.shape.KvSize() <= |kCells| by {
      if position + 1 < maxContext { RowsFit(position + 1, maxContext, m.shape.KvSize()); }
    }
    forall head | 0 <= head < m.shape.heads
      ensures Line(scores[..], maxContext, position, head) == Scores(m, q, keys)[head]
    {
      forall t | 0 <= t <= position
        ensures Flat(head, maxContext, t) < scores.Length
        ensures |Scores(m, q, keys)[head]| == position + 1
        ensures scores[Flat(head, maxContext, t)] == Scores(m, q, keys)[head][t]
      {
        ScoreAt(m, q, keys, head, t);
        BlockScoreMeaning(m, q, kCells, keys, head, t);
      }
      ScoreAt(m, q, keys, head, position);
      LineMeaning(scores[..], maxContext, position, head, Scores(m, q, keys)[head]);
    }
  }

  /** The scores of one head over positions 0..position. */
  function Line(scores: seq<Score>, maxContext: nat, position: nat, head: nat): seq<Score> {
    if head * maxContext + position + 1 <= |scores|
    then scores[head * maxContext..head * maxContext + position + 1] else []
  }

  lemma LineMeaning(scores: seq<Score>, maxContext: nat, position: nat, head: nat, line: seq<Score>)
    requires |line| == position + 1
    requires forall t | 0 <= t <= position ::
               Flat(head, maxContext, t) < |scores| && scores[Flat(head, maxContext, t)] == line[t]
    ensures Line(scores, maxContext, position, head) == line
  {
    assert Flat(head, maxContext, position) < |scores|;
    forall t | 0 <= t <= position ensures scores[head * maxContext + t] == line[t] {
      assert Flat(head, maxContext, t) == head * maxContext + t;
    }
  }

  function CellAt(cells: Vec, i: nat): U16 {
    if i < |cells| then cells[i] else 0
  }

  /** One value component over positions 0..n-1, addressed in the flat cache. */
  function FlatColumn(vCells: Vec, s: Shape, n: nat, kvHead: nat, dim: nat): (c: Vec)
    ensures |c| == n
  {
    seq<U16>(n, t requires 0 <= t < n => CellAt(vCells, HeadBase(s, t, kvHead) + dim))
  }

  lemma {:induction false} ColumnAt(rows: seq<Vec>, i: nat)
    requires forall t | 0 <= t < |rows| :: i < |rows[t]|
    ensures |Column(rows, i)| == |rows|
    ensures forall t | 0 <= t < |rows| :: Column(rows, i)[t] == rows[t][i]
  {
    if rows != [] {
      ColumnAt(rows[1..], i);
    }
  }

  lemma FlatColumnMeaning(vCells: Vec, s: Shape, values: seq<Vec>, kvHead: nat, dim: nat)
    requires kvHead < s.kvHeads && dim < s.headDim && |values| * s.KvSize() <= |vCells|
    requires Cached(vCells, s.KvSize(), values)
    ensures FlatColumn(vCells, s, |values|, kvHead, dim) == Column(values, kvHead * s.headDim + dim)
  {
    hide HeadBase, RawShape.KvSize, CellAt, Cached;
    var i := kvHead * s.headDim + dim;
    forall t | 0 <= t < |values|
      ensures i < |values[t]| && CellAt(vCells, HeadBase(s, t, kvHead) + dim) == values[t][i]
    {
      HeadCell(vCells, s, values, kvHead, dim, t, i);
    }
    ColumnAt(values, i);
  }

  lemma HeadCell(vCells: Vec, s: Shape, values: seq<Vec>, kvHead: nat, dim: nat, t: nat, i: nat)
    requires kvHead < s.kvHeads && dim < s.headDim && |values| * s.KvSize() <= |vCells|
    requires Cached(vCells, s.KvSize(), values) && t < |values| && i == kvHead * s.headDim + dim
    ensures i < |values[t]| && CellAt(vCells, HeadBase(s, t, kvHead) + dim) == values[t][i]
  {
    hide HeadBase, RawShape.KvSize, Cached;
    ColumnInRow(s, kvHead, dim);
    HeadBaseSplits(s, t, kvHead);
    RowCell(vCells, s.KvSize(), values, t, i);
  }

  lemma ColumnInRow(s: Shape, kvHead: nat, dim: nat)
    requires kvHead < s.kvHeads && dim < s.headDim
    ensures kvHead * s.headDim + dim < s.KvSize()
  {
    RowsFit(kvHead, s.kvHeads, s.headDim);
  }

  lemma RowCell(cells: Vec, width: nat, rows: seq<Vec>, t: nat, i: nat)
    requires t < |rows| && i < width && Cached(cells, width, rows) && |rows| * width <= |cells|
    ensures t * width + i < |cells| && |rows[t]| == width && cells[t * width + i] == rows[t][i]
  {
    RowsFit(t, |rows|, width);
    assert Row(cells, width, t)[i] == cells[t * width + i];
  }

  /** The output component one thread computes. */
  function ThreadValue(
    m: Model, scores: seq<Score>, vCells: Vec, position: nat, maxContext: nat, head: nat, dim: nat): U16
    requires head < m.shape.heads
  {
    m.ops.mix(Line(scores, maxContext, position, head),
              FlatColumn(vCells, m.shape, position + 1, m.shape.KvHead(head), dim))
  }

  lemma ThreadValueMeaning(
    m: Model, scores: seq<Score>, vCells: Vec, position: nat, maxContext: nat, head: nat, dim: nat,
    lines: seq<seq<Score>>, values: seq<Vec>)
    requires head < m.shape.heads && dim < m.shape.headDim && |lines| == m.shape.heads
    requires Line(scores, maxContext, position, head) == lines[head]
    requires |values| == position + 1 && |values| * m.shape.KvSize() <= |vCells|
    requires Cached(vCells, m.shape.KvSize(), values)
    ensures Flat(head, m.shape.headDim, dim) < m.shape.QSize()
    ensures ThreadValue(m, scores, vCells, position, maxContext, head, dim)
         == Mixed(m, lines, values)[Flat(head, m.shape.headDim, dim)]
  {
    var j := Flat(head, m.shape.headDim, dim);
    FlatInRange(head, m.shape.heads, m.shape.headDim, dim);
    FlatDivides(head, m.shape.headDim, dim);
    m.shape.KvHeadInRange(head);
    FlatColumnMeaning(vCells, m.shape, values, m.shape.KvHead(head), dim);
    assert Mixed(m, lines, values)[j] == MixedComponent(m, lines, values, j);
  }

  lemma FlatDivides(i: nat, width: nat, j: nat)
    requires j < width
    ensures Flat(i, width, j) / width == i && Flat(i, width, j) % width == j
  {
    Quotient(i, width, j);
  }

  /** `attention_values_kernel`: softmax-weighted values, one component a thread. */
  method AttentionValues(
    m: Model, scores: seq<Score>, vCache: array<U16>, output: array<U16>, position: nat, maxContext: nat,
    ghost lines: seq<seq<Score>>, ghost values: seq<Vec>)
    requires vCache.Length == maxContext * m.shape.KvSize() && output.Length == m.shape.QSize()
    requires position < maxContext && |lines| == m.shape.heads
    requires forall head | 0 <= head < m.shape.heads :: Line(scores, maxContext, position, head) == lines[head]
    requires |values| == position + 1 && Cached(vCache[..], m.shape.KvSize(), values)
    requires vCache != output
    modifies output
    ensures output[..] == Mixed(m, lines, values)
  {
    hide ThreadValue, Mixed, Line, Flat;
    var vCells, s := vCache[..], m.shape;
    assert |values| * s.KvSize() <= |vCells| by {
      if position + 1 < maxContext { RowsFit(position + 1, maxContext, s.KvSize()); }
    }
    forall head, dim | 0 <= head < s.heads && 0 <= dim < s.headDim
      ensures Flat(head, s.headDim, dim) < output.Length
    {
      FlatInRange(head, s.heads, s.headDim, dim);
    }
    FlatInjective(s.headDim);
    forall head, dim | 0 <= head < s.heads && 0 <= dim < s.headDim {
      output[Flat(head, s.headDim, dim)] := ThreadValue(m, scores, vCells, position, maxContext, head, dim);
    }
    ComponentsMeaning(m, scores, vCells, output[..], position, maxContext, lines, values);
  }

  lemma ComponentsMeaning(
    m: Model, scores: seq<Score>, vCells: Vec, output: Vec, position: nat, maxContext: nat, lines: seq<seq<Score>>,
    values: seq<Vec>)
    requires |lines| == m.shape.heads && |output| == m.shape.QSize()
    requires forall head | 0 <= head < m.shape.heads :: Line(scores, maxContext, position, head) == lines[head]
    requires |values| == position + 1 && |values| * m.shape.KvSize() <= |vCells|
    requires Cached(vCells, m.shape.KvSize(), values)
    requires forall head, dim | 0 <= head < m.shape.heads && 0 <= dim < m.shape.headDim ::
               && Flat(head, m.shape.headDim, dim) < |output|
               && output[Flat(head, m.shape.headDim, dim)]
                  == ThreadValue(m, scores, vCells, position, maxContext, head, dim)
    ensures output == Mixed(m, lines, values)
  {
    hide ThreadValue, Mixed, Line, Flat, Cached, RawShape.QSize, RawShape.KvSize;
    var s := m.shape;
    forall j | 0 <= j < s.QSize() ensures output[j] == Mixed(m, lines, values)[j] {
      HeadOfComponent(s, j);
      var head, dim := j / s.headDim, j % s.headDim;
      FlatOfComponent(s, j);
      assert Flat(head, s.headDim, dim) == j;
      ThreadValueMeaning(m, scores, vCells, position, maxContext, head, dim, lines, values);
    }
  }

  lemma FlatOfComponent(s: Shape, j: nat)
    requires s.headDim > 0
    ensures Flat(j / s.headDim, s.headDim, j % s.headDim) == j
  {}
}
