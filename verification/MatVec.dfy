/** Matrix-vector products over quantised rows: what one GPU thread adds up, reading bytes (CUDA) or
    32-bit words (Vulkan), and that a work group returns the dot product of the row with the input. */
module MatVec {
  import opened Words
  import opened Quant
  import opened Schedules
  import opened Reduction

  datatype Format = Q4 | Q6

  function BytesPerBlock(f: Format): nat {
    if f.Q4? then 144 else 210
  }

  const THREADS := 256

  function InBlock(f: Format, h: Widen, bytes: Bytes, block: nat, tid: nat): real
    requires block + BytesPerBlock(f) <= |bytes| && tid < 256
  {
    if f.Q4? then Q4InBlock(h, bytes, block, tid) else Q6InBlock(h, bytes, block, tid)
  }

  /** The value the host dequantiser computes for element `k`, before it rounds to FP16. */
  function Element(f: Format, h: Widen, bytes: Bytes, k: nat): real
    requires (k / 256 + 1) * BytesPerBlock(f) <= |bytes|
  {
    if f.Q4? then Q4Element(h, bytes, k) else Q6Element(h, bytes, k)
  }

  lemma ElementInBlock(f: Format, h: Widen, bytes: Bytes, k: nat)
    requires (k / 256 + 1) * BytesPerBlock(f) <= |bytes|
    ensures Element(f, h, bytes, k) == InBlock(f, h, bytes, k / 256 * BytesPerBlock(f), k % 256)
  {
    hide Q4InBlock, Q6InBlock;
  }

  // ---- Matrices ----

  /** A matrix of `rows` rows, each of `blocks` whole blocks. */
  datatype Matrix = Matrix(f: Format, bytes: Bytes, rows: nat, blocks: nat) {
    ghost predicate Valid() {
      |bytes| == rows * blocks * BytesPerBlock(f)
    }

    function Columns(): nat {
      blocks * 256
    }

    /** Number of the block `b` of row `r`. */
    function BlockNumber(r: nat, b: nat): nat {
      r * blocks + b
    }

    lemma BlockInside(r: nat, b: nat)
      requires Valid() && r < rows && b < blocks
      ensures (BlockNumber(r, b) + 1) * BytesPerBlock(f) <= |bytes|
    {
      var n := BlockNumber(r, b);
      assert n + 1 <= rows * blocks by { NextFits(r, rows, blocks, b); }
      Scales(n + 1, rows * blocks, BytesPerBlock(f));
    }

    /** Flat index of an entry: rows follow each other without gaps. */
    function Index(r: nat, c: nat): nat {
      r * Columns() + c
    }

    lemma IndexBlock(r: nat, c: nat)
      requires c < Columns()
      ensures Index(r, c) / 256 == BlockNumber(r, c / 256) && Index(r, c) % 256 == c % 256
    {
      assert r * Columns() == r * blocks * 256;
      assert Index(r, c) == BlockNumber(r, c / 256) * 256 + c % 256;
    }

    /** Weight times input, column by column. */
    function Products(h: Widen, x: seq<U16>, r: nat): (p: seq<real>)
      requires Valid() && r < rows && |x| == Columns()
      ensures |p| == Columns()
    {
      seq(Columns(), c requires 0 <= c < Columns() => ProductAt(h, x, r, c))
    }

    function ProductAt(h: Widen, x: seq<U16>, r: nat, c: nat): real
      requires Valid() && r < rows && |x| == Columns() && c < Columns()
    {
      IndexBlock(r, c);
      BlockInside(r, c / 256);
      Element(f, h, bytes, Index(r, c)) * h(x[c])
    }

    lemma ProductOfBlock(h: Widen, x: seq<U16>, r: nat, b: nat, tid: nat)
      requires Valid() && r < rows && |x| == Columns() && b < blocks && tid < 256
      ensures (BlockNumber(r, b) + 1) * BytesPerBlock(f) <= |bytes|
      ensures Products(h, x, r)[b * 256 + tid]
              == InBlock(f, h, bytes, BlockNumber(r, b) * BytesPerBlock(f), tid) * h(x[b * 256 + tid])
    {
      hide Element, InBlock, BlockNumber, Index, Valid;
      var c := b * 256 + tid;
      assert c / 256 == b && c % 256 == tid;
      IndexBlock(r, c);
      BlockInside(r, b);
      ElementInBlock(f, h, bytes, Index(r, c));
    }

    /** Row `r` of dequantise-then-multiply. */
    function Dot(h: Widen, x: seq<U16>, r: nat): real
      requires Valid() && r < rows && |x| == Columns()
    {
      Sum(Products(h, x, r))
    }
  }

  lemma NextFits(r: nat, rows: nat, blocks: nat, b: nat)
    requires r < rows && b < blocks
    ensures r * blocks + b + 1 <= rows * blocks
  {
    assert (rows - r - 1) * blocks >= 0;
    assert rows * blocks == r * blocks + blocks + (rows - r - 1) * blocks;
  }

  // ---- One CUDA thread ----

  /** The block loop of a `matvec_q4k_kernel` or `matvec_q6k_kernel` thread. */
  method ThreadLoop(m: Matrix, h: Widen, x: seq<U16>, row: nat, tid: nat) returns (sum: real)
    requires m.Valid() && row < m.rows && |x| == m.Columns() && tid < THREADS
    ensures sum == Strided(m.Products(h, x, row), tid, THREADS)
  {
    hide Matrix.Valid, Matrix.Products, InBlock;
    var rowWeight := row * m.blocks * BytesPerBlock(m.f);
    sum := 0.0;
    var b := 0;
    while b < m.blocks
      invariant b <= m.blocks
      invariant sum + Strided(m.Products(h, x, row), b * 256 + tid, THREADS)
             == Strided(m.Products(h, x, row), tid, THREADS)
    {
      var block := rowWeight + b * BytesPerBlock(m.f);
      m.ProductOfBlock(h, x, row, b, tid);
      Distribute(row * m.blocks, b, BytesPerBlock(m.f));
      assert (b + 1) * 256 + tid == b * 256 + tid + THREADS;
      sum := sum + InBlock(m.f, h, m.bytes, block, tid) * h(x[b * 256 + tid]);
      b := b + 1;
    }
  }

  /** What the threads of a group have summed. */
  function Partials(m: Matrix, h: Widen, x: seq<U16>, row: nat): (r: seq<real>)
    requires m.Valid() && |x| == m.Columns()
    ensures |r| == THREADS
  {
    if row < m.rows then ThreadSums(m.Products(h, x, row), 0, THREADS, THREADS)
    else seq(THREADS, t => 0.0)
  }

  lemma PartialsTotal(m: Matrix, h: Widen, x: seq<U16>, row: nat)
    requires m.Valid() && |x| == m.Columns()
    ensures Sum(Partials(m, h, x, row)) == if row < m.rows then m.Dot(h, x, row) else 0.0
  {
    if row < m.rows {
      ThreadSumsTotal(m.Products(h, x, row), THREADS);
    } else {
      AllZero(Partials(m, h, x, row));
    }
  }

  lemma ThreadCountIsPowerOfTwo()
    ensures PowerOfTwo(THREADS)
  {
    assert PowerOfTwo(8) && PowerOfTwo(128);
  }

  /** Main result for CUDA: a thread block of 256 threads leaves the exact dot product of its row with
      the input, however its threads interleave between barriers. */
  lemma RowKernelIsDot(m: Matrix, h: Widen, x: seq<U16>, row: nat, mem: Memory, order: seq<nat>)
    requires m.Valid() && |x| == m.Columns() && row < m.rows
    requires var p := Program(1, THREADS); Allowed(|p|, Before(p), order)
    ensures var acts := Actions([Partials(m, h, x, row)], Program(1, THREADS));
            && Within(order, |acts|)
            && var end := ExecuteInOrder(mem, acts, order);
               Result(0) in end && end[Result(0)] == m.Dot(h, x, row)
  {
    hide Matrix.Valid, Partials, Program, Execute, ExecuteInOrder, Sum;
    ThreadCountIsPowerOfTwo();
    PartialsTotal(m, h, x, row);
    ReductionUnderAnySchedule([Partials(m, h, x, row)], THREADS, mem, order);
  }

  /** Some allowed run of a thread block on these values leaves a result that is stored as `half`. */
  ghost predicate RowWrites(partials: seq<real>, n: Narrow, half: U16) {
    exists mem: Memory, order: seq<nat>, result: real :: RowRun(partials, mem, order, result) && half == n(result)
  }

  ghost predicate RowRun(partials: seq<real>, mem: Memory, order: seq<nat>, result: real) {
    var p := Program(1, THREADS);
    && Allowed(|p|, Before(p), order) && Within(order, |p|)
    && var end := ExecuteInOrder(mem, Actions([partials], p), order);
       Result(0) in end && result == end[Result(0)]
  }

  lemma RowWritesSum(partials: seq<real>, n: Narrow, half: U16)
    requires |partials| == THREADS && RowWrites(partials, n, half)
    ensures half == n(Sum(partials))
  {
    hide Program, Execute, ExecuteInOrder, Sum;
    var mem, order, result :| RowRun(partials, mem, order, result) && half == n(result);
    ThreadCountIsPowerOfTwo();
    ReductionUnderAnySchedule([partials], THREADS, mem, order);
  }

  /** All thread blocks of `matvec_q4k_kernel` or `matvec_q6k_kernel`: each row's half is its dot product,
      rounded once. */
  lemma KernelProduct(m: Matrix, h: Widen, n: Narrow, x: seq<U16>, output: seq<U16>, row: nat)
    requires m.Valid() && |x| == m.Columns() && |output| == m.rows && row < m.rows
    requires forall r | 0 <= r < m.rows :: RowWrites(Partials(m, h, x, r), n, output[r])
    ensures output[row] == n(m.Dot(h, x, row))
  {
    hide Matrix.Valid, Partials, RowWrites, Matrix.Dot;
    RowWritesSum(Partials(m, h, x, row), n, output[row]);
    PartialsTotal(m, h, x, row);
  }

  // ---- FP16 weights ----

  /** Weight times input for a row of FP16 weights. */
  function PlainProducts(h: Widen, weights: seq<U16>, x: seq<U16>, row: nat): (p: seq<real>)
    requires row * |x| + |x| <= |weights|
    ensures |p| == |x|
  {
    seq(|x|, c requires 0 <= c < |x| => h(weights[row * |x| + c]) * h(x[c]))
  }

  /** The loop of a `matvec_fp16_kernel` thread: every 256th column, for any number of columns. */
  method PlainThreadLoop(h: Widen, weights: seq<U16>, x: seq<U16>, row: nat, tid: nat) returns (sum: real)
    requires row * |x| + |x| <= |weights| && tid < THREADS
    ensures sum == ThreadSums(PlainProducts(h, weights, x, row), 0, THREADS, THREADS)[tid]
  {
    hide PlainProducts;
    ghost var p := PlainProducts(h, weights, x, row);
    var rowWeight := row * |x|;
    sum := 0.0;
    var i := tid;
    while i < |x|
      invariant sum + Strided(p, i, THREADS) == Strided(p, tid, THREADS)
    {
      PlainProductAt(h, weights, x, row, i);
      sum := sum + h(weights[rowWeight + i]) * h(x[i]);
      i := i + THREADS;
    }
  }

  lemma PlainProductAt(h: Widen, weights: seq<U16>, x: seq<U16>, row: nat, c: nat)
    requires row * |x| + |x| <= |weights| && c < |x|
    ensures PlainProducts(h, weights, x, row)[c] == h(weights[row * |x| + c]) * h(x[c])
  {}

  /** All thread blocks of `matvec_fp16_kernel`: whatever the number of columns and however threads
      interleave, each row's half is its dot product, rounded once. */
  lemma PlainKernelProduct(h: Widen, n: Narrow, weights: seq<U16>, x: seq<U16>, output: seq<U16>, row: nat)
    requires |weights| == |output| * |x| && row < |output|
    requires forall r | 0 <= r < |output| ::
               r * |x| + |x| <= |weights|
               && RowWrites(ThreadSums(PlainProducts(h, weights, x, r), 0, THREADS, THREADS), n, output[r])
    ensures row * |x| + |x| <= |weights| && output[row] == n(Sum(PlainProducts(h, weights, x, row)))
  {
    hide PlainProducts, RowWrites, ThreadSums, Sum;
    assert row * |x| + |x| <= |weights|;
    var p := PlainProducts(h, weights, x, row);
    RowWritesSum(ThreadSums(p, 0, THREADS, THREADS), n, output[row]);
    ThreadSumsTotal(p, THREADS);
  }

  // ---- Embedding ----

  /** `embed_q6k_kernel`: the thread of `index` finds the element of its token's row. */
  lemma EmbedIsElement(m: Matrix, h: Widen, token: nat, index: nat)
    requires m.Valid() && m.f.Q6? && token < m.rows && index < m.Columns()
    ensures var block := token * m.blocks * 210 + index / 256 * 210;
            && block + 210 <= |m.bytes| && (m.Index(token, index) / 256 + 1) * 210 <= |m.bytes|
            && Q6InBlock(h, m.bytes, block, index % 256) == Q6Element(h, m.bytes, m.Index(token, index))
  {
    hide Matrix.Valid, Q6InBlock;
    m.BlockInside(token, index / 256);
    m.IndexBlock(token, index);
    Distribute(token * m.blocks, index / 256, 210);
  }

  /** The first `k` cells hold the elements of the token's row, rounded to FP16. */
  ghost predicate Embedded(m: Matrix, h: Widen, n: Narrow, token: nat, out: seq<U16>, k: nat) {
    k <= |out| && forall i: nat | i < k :: EmbeddedAt(m, h, n, token, out, i)
  }

  ghost predicate EmbeddedAt(m: Matrix, h: Widen, n: Narrow, token: nat, out: seq<U16>, i: nat)
    requires i < |out|
  {
    && (m.Index(token, i) / 256 + 1) * 210 <= |m.bytes|
    && out[i] == n(Q6Element(h, m.bytes, m.Index(token, i)))
  }

  /** One thread of the grid; those past the row write nothing. */
  method EmbedThread(m: Matrix, h: Widen, n: Narrow, token: nat, out: array<U16>, index: nat)
    requires m.Valid() && m.f.Q6? && token < m.rows && m.Columns() <= out.Length
    modifies out
    ensures index < m.Columns() ==> EmbeddedAt(m, h, n, token, out[..], index)
    ensures forall i | 0 <= i < out.Length && (i != index || index >= m.Columns()) :: out[i] == old(out[i])
  {
    hide Matrix.Valid, Q6InBlock, Q6Element;
    if index >= m.Columns() {
      return;
    }
    EmbedIsElement(m, h, token, index);
    var block := token * m.blocks * 210 + index / 256 * 210;
    out[index] := n(Q6InBlock(h, m.bytes, block, index % 256));
  }

  /** The grid of blocks of 256 threads: the row of the token, rounded once, and nothing behind it. Every
      thread writes its own cell, so their order does not matter. */
  method EmbedGrid(m: Matrix, h: Widen, n: Narrow, token: nat, out: array<U16>)
    requires m.Valid() && m.f.Q6? && token < m.rows && m.Columns() <= out.Length
    modifies out
    ensures Embedded(m, h, n, token, out[..], m.Columns())
    ensures out[m.Columns()..] == old(out[m.Columns()..])
  {
    hide Matrix.Valid, Q6Element;
    var grid := (m.Columns() + THREADS - 1) / THREADS;
    var index := 0;
    while index < grid * THREADS
      invariant index <= grid * THREADS
      invariant Embedded(m, h, n, token, out[..], if index < m.Columns() then index else m.Columns())
      invariant out[m.Columns()..] == old(out[m.Columns()..])
    {
      ghost var before := out[..];
      EmbedThread(m, h, n, token, out, index);
      KeptEmbedded(m, h, n, token, before, out[..], index);
      index := index + 1;
    }
  }

  lemma KeptEmbedded(m: Matrix, h: Widen, n: Narrow, token: nat, before: seq<U16>, after: seq<U16>, index: nat)
    requires |after| == |before| >= m.Columns()
    requires Embedded(m, h, n, token, before, if index < m.Columns() then index else m.Columns())
    requires index < m.Columns() ==> EmbeddedAt(m, h, n, token, after, index)
    requires forall i | 0 <= i < |after| && (i != index || index >= m.Columns()) :: after[i] == before[i]
    ensures Embedded(m, h, n, token, after, if index + 1 < m.Columns() then index + 1 else m.Columns())
  {
    hide Q6Element, Matrix.Index;
    var k := if index + 1 < m.Columns() then index + 1 else m.Columns();
    forall i: nat | i < k ensures EmbeddedAt(m, h, n, token, after, i) {
      if i != index {
        assert EmbeddedAt(m, h, n, token, before, i);
      }
    }
  }

  // ---- Word-addressed shaders ----

  /** Byte `o` of little-endian words: `(words[o >> 2] >> (8 * (o & 3))) & 0xff`. */
  function LoadByte(words: seq<U32>, o: nat): (b: U8)
    requires o / 4 < |words|
  {
    var w: nat := words[o / 4];
    if o % 4 == 0 then w % 0x100 else if o % 4 == 1 then w / 0x100 % 0x100
    else if o % 4 == 2 then w / 0x100 / 0x100 % 0x100 else w / 0x100 / 0x100 / 0x100
  }

  function Word(b0: nat, b1: nat, b2: nat, b3: nat): (w: U32)
    requires b0 < 0x100 && b1 < 0x100 && b2 < 0x100 && b3 < 0x100
  {
    b0 + 0x100 * (b1 + 0x100 * (b2 + 0x100 * b3))
  }

  /** The whole words of a buffer that holds these bytes. */
  function WordsOf(bytes: Bytes): (words: seq<U32>)
    ensures |words| == |bytes| / 4
  {
    seq<U32>(|bytes| / 4, w requires 0 <= w < |bytes| / 4 =>
      Word(bytes[4 * w], bytes[4 * w + 1], bytes[4 * w + 2], bytes[4 * w + 3]))
  }

  /** A word holds four bytes, and two halves of an input, each low part first. */
  lemma WordsInMemory(bytes: Bytes, x: seq<U16>, w: nat)
    ensures w < |bytes| / 4 ==>
              WordsOf(bytes)[w] as int
              == bytes[4 * w] as int + 0x100 * bytes[4 * w + 1] as int + 0x1_0000 * bytes[4 * w + 2] as int
                 + 0x100_0000 * bytes[4 * w + 3] as int
    ensures w < |x| / 2 ==> HalvesOf(x)[w] as int == x[2 * w] as int + 0x1_0000 * x[2 * w + 1] as int
  {}

  lemma LoadByteReads(bytes: Bytes, o: nat)
    requires o / 4 < |bytes| / 4
    ensures o < |bytes| && LoadByte(WordsOf(bytes), o) == bytes[o]
  {
    var w := o / 4;
    var b0, b1, b2, b3 := bytes[4 * w], bytes[4 * w + 1], bytes[4 * w + 2], bytes[4 * w + 3];
    assert WordsOf(bytes)[w] == Word(b0, b1, b2, b3);
    WordDigits(b0, b1, b2, b3);
    hide Word, WordsOf;
  }

  lemma WordDigits(b0: nat, b1: nat, b2: nat, b3: nat)
    requires b0 < 0x100 && b1 < 0x100 && b2 < 0x100 && b3 < 0x100
    ensures var w := Word(b0, b1, b2, b3);
            && w % 0x100 == b0 && w / 0x100 % 0x100 == b1 && w / 0x100 / 0x100 % 0x100 == b2
            && w / 0x100 / 0x100 / 0x100 == b3
  {
    var w2 := b2 + 0x100 * b3;
    var w1 := b1 + 0x100 * w2;
    LowByte(b0, w1);
    LowByte(b1, w2);
    LowByte(b2, b3);
  }

  lemma LowByte(low: nat, high: nat)
    requires low < 0x100
    ensures (low + 0x100 * high) % 0x100 == low && (low + 0x100 * high) / 0x100 == high
  {}

  /** `words` give the bytes of a block. */
  ghost predicate Addressable(words: seq<U32>, bytes: Bytes, block: nat, n: nat) {
    block + n <= |bytes| && forall o: nat | block <= o < block + n :: o / 4 < |words| && LoadByte(words, o) == bytes[o]
  }

  function LoadHalf(words: seq<U32>, o: nat): (h: U16)
    requires (o + 1) / 4 < |words|
  {
    var low: nat, high: nat := LoadByte(words, o), LoadByte(words, o + 1);
    low + high * 0x100
  }

  /** `get_scale_min` of the shader. */
  function LoadScaleMin(words: seq<U32>, o: nat, j: nat): ScaleMin
    requires (o + 11) / 4 < |words| && j < 8
  {
    if j < 4 then ScaleMin(LoadByte(words, o + j) % 64, LoadByte(words, o + j + 4) % 64)
    else ScaleMin(LoadByte(words, o + j + 4) % 16 + LoadByte(words, o + j - 4) / 64 * 16,
                  LoadByte(words, o + j + 4) / 16 + LoadByte(words, o + j) / 64 * 16)
  }

  /** The Q4_K element a shader thread decodes. */
  function Q4FromWords(h: Widen, words: seq<U32>, block: nat, tid: nat): real
    requires (block + 143) / 4 < |words| && tid < 256
  {
    var super, offset := tid / 64, tid % 64;
    var high := offset >= 32;
    var s := LoadScaleMin(words, block + 4, super * 2 + if high then 1 else 0);
    var packed := LoadByte(words, block + 16 + super * 32 + offset % 32);
    var q := if high then packed / 16 else packed % 16;
    Q4Value(h, LoadHalf(words, block), LoadHalf(words, block + 2), s, q)
  }

  /** The Q6_K element a shader thread decodes. */
  function Q6FromWords(h: Widen, words: seq<U32>, block: nat, index: nat): real
    requires (block + 209) / 4 < |words| && index < 256
  {
    var half, inHalf := index / 128, index % 128;
    var part, item := inHalf / 32, inHalf % 32;
    var qlByte := LoadByte(words, block + half * 64 + part % 2 * 32 + item);
    var qhByte := LoadByte(words, block + 128 + half * 32 + item);
    var low4 := if part < 2 then qlByte % 16 else qlByte / 16;
    var quant := low4 + TwoBits(qhByte, part) * 16 - 32;
    var scale := Signed(LoadByte(words, block + 192 + half * 8 + item / 16 + part * 2));
    Q6Value(h, LoadHalf(words, block + 208), scale, quant)
  }

  function FromWords(f: Format, h: Widen, words: seq<U32>, block: nat, tid: nat): real
    requires (block + BytesPerBlock(f) - 1) / 4 < |words| && tid < 256
  {
    if f.Q4? then Q4FromWords(h, words, block, tid) else Q6FromWords(h, words, block, tid)
  }

  /** The shader decodes what the byte-addressed kernel decodes. */
  lemma ShaderDecodesSame(f: Format, h: Widen, words: seq<U32>, bytes: Bytes, block: nat, tid: nat)
    requires Addressable(words, bytes, block, BytesPerBlock(f)) && tid < 256
    ensures (block + BytesPerBlock(f) - 1) / 4 < |words|
    ensures FromWords(f, h, words, block, tid) == InBlock(f, h, bytes, block, tid)
  {
    LoadsByte(words, bytes, block, BytesPerBlock(f), BytesPerBlock(f) - 1);
    if f.Q4? {
      Q4DecodesSame(h, words, bytes, block, tid);
    } else {
      Q6DecodesSame(h, words, bytes, block, tid);
    }
    hide Q4FromWords, Q6FromWords, Q4InBlock, Q6InBlock;
  }

  lemma LoadsByte(words: seq<U32>, bytes: Bytes, block: nat, n: nat, i: nat)
    requires Addressable(words, bytes, block, n) && i < n
    ensures (block + i) / 4 < |words| && block + i < |bytes| && LoadByte(words, block + i) == bytes[block + i]
  {
    hide LoadByte;
    var o := block + i;
    assert o / 4 < |words| && LoadByte(words, o) == bytes[o];
  }

  lemma LoadsSameHalf(words: seq<U32>, bytes: Bytes, block: nat, n: nat, i: nat)
    requires Addressable(words, bytes, block, n) && i + 1 < n
    ensures (block + i + 1) / 4 < |words| && block + i + 2 <= |bytes|
    ensures LoadHalf(words, block + i) == HalfAt(bytes, block + i)
  {
    LoadsByte(words, bytes, block, n, i);
    LoadsByte(words, bytes, block, n, i + 1);
    hide LoadByte;
  }

  lemma Q4DecodesSame(h: Widen, words: seq<U32>, bytes: Bytes, block: nat, tid: nat)
    requires Addressable(words, bytes, block, 144) && tid < 256
    ensures (block + 143) / 4 < |words| && Q4FromWords(h, words, block, tid) == Q4InBlock(h, bytes, block, tid)
  {
    hide LoadByte, LoadHalf, HalfAt, LoadScaleMin, ScaleMinAt, Q4Value, Addressable;
    var super, offset := tid / 64, tid % 64;
    LoadsByte(words, bytes, block, 144, 143);
    LoadsSameHalf(words, bytes, block, 144, 0);
    LoadsSameHalf(words, bytes, block, 144, 2);
    LoadsSameScales(words, bytes, block, super * 2 + if offset >= 32 then 1 else 0);
    LoadsByte(words, bytes, block, 144, 16 + super * 32 + offset % 32);
  }

  lemma Q6DecodesSame(h: Widen, words: seq<U32>, bytes: Bytes, block: nat, index: nat)
    requires Addressable(words, bytes, block, 210) && index < 256
    ensures (block + 209) / 4 < |words| && Q6FromWords(h, words, block, index) == Q6InBlock(h, bytes, block, index)
  {
    hide LoadByte, LoadHalf, HalfAt, Signed, TwoBits, Q6Value, Addressable;
    var half, inHalf := index / 128, index % 128;
    var part, item := inHalf / 32, inHalf % 32;
    LoadsByte(words, bytes, block, 210, half * 64 + part % 2 * 32 + item);
    LoadsByte(words, bytes, block, 210, 128 + half * 32 + item);
    LoadsByte(words, bytes, block, 210, 192 + half * 8 + item / 16 + part * 2);
    LoadsByte(words, bytes, block, 210, 209);
    LoadsSameHalf(words, bytes, block, 210, 208);
  }

  lemma LoadsSameScales(words: seq<U32>, bytes: Bytes, block: nat, j: nat)
    requires Addressable(words, bytes, block, 144) && j < 8
    ensures (block + 15) / 4 < |words| && LoadScaleMin(words, block + 4, j) == ScaleMinAt(bytes, block + 4, j)
  {
    LoadsByte(words, bytes, block, 144, 15);
    LoadsByte(words, bytes, block, 144, 4 + j);
    if j < 4 {
      LoadsByte(words, bytes, block, 144, 4 + j + 4);
    } else {
      LoadsByte(words, bytes, block, 144, 4 + j + 4);
      LoadsByte(words, bytes, block, 144, 4 + j - 4);
    }
    hide LoadByte, Addressable;
  }

  /** The whole words of the bound range cover every byte exactly when the number of bytes is a
      multiple of four; the descriptor range is the tensor's exact byte count. */
  ghost predicate EveryByteInAWord(m: Matrix) {
    forall o: nat | o < |m.bytes| :: o / 4 < |WordsOf(m.bytes)|
  }

  /** A Q4_K matrix is always covered; a Q6_K matrix exactly when it has an even number of blocks. */
  lemma WordsCoverMatrix(m: Matrix)
    requires m.Valid()
    ensures EveryByteInAWord(m) <==> m.f.Q4? || m.rows * m.blocks % 2 == 0
  {
    var n := m.rows * m.blocks;
    if m.f.Q4? {
      assert |m.bytes| == n * 36 * 4;
    } else if n % 2 == 0 {
      assert |m.bytes| == n / 2 * 105 * 4;
    } else {
      var o := |m.bytes| - 1;
      assert n == n / 2 * 2 + 1;
      assert |m.bytes| == n / 2 * 105 * 4 + 210;
      assert o / 4 == |m.bytes| / 4;
    }
  }

  /** The packed halves of the input: two to a word. */
  function HalvesOf(x: seq<U16>): (words: seq<U32>)
    ensures |words| == |x| / 2
  {
    seq<U32>(|x| / 2, w requires 0 <= w < |x| / 2 =>
      var low: nat, high: nat := x[2 * w], x[2 * w + 1]; low + high * 0x1_0000)
  }

  function LoadInputHalf(words: seq<U32>, index: nat): U16
    requires index / 2 < |words|
  {
    if index % 2 == 0 then words[index / 2] % 0x1_0000 else words[index / 2] / 0x1_0000
  }

  lemma LoadsSameInput(x: seq<U16>, index: nat)
    requires |x| % 2 == 0 && index < |x|
    ensures index / 2 < |x| / 2 && LoadInputHalf(HalvesOf(x), index) == x[index]
  {
    var w := index / 2;
    var low: nat, high: nat := x[2 * w], x[2 * w + 1];
    assert HalvesOf(x)[w] == low + high * 0x1_0000;
  }

  lemma BlockIsAddressable(m: Matrix, r: nat, b: nat)
    requires m.Valid() && EveryByteInAWord(m) && r < m.rows && b < m.blocks
    ensures Addressable(WordsOf(m.bytes), m.bytes, m.BlockNumber(r, b) * BytesPerBlock(m.f), BytesPerBlock(m.f))
  {
    var block, words := m.BlockNumber(r, b) * BytesPerBlock(m.f), WordsOf(m.bytes);
    m.BlockInside(r, b);
    hide LoadByte, WordsOf, Matrix.Valid;
    forall o: nat | block <= o < block + BytesPerBlock(m.f)
      ensures o / 4 < |words| && LoadByte(words, o) == m.bytes[o]
    {
      LoadByteReads(m.bytes, o);
    }
  }

  function Wrap32(n: nat): U32 {
    n % 0x1_0000_0000
  }

  lemma ShaderProduct(m: Matrix, h: Widen, x: seq<U16>, row: nat, b: nat, tid: nat, rowOffset: nat, block: nat)
    requires m.Valid() && EveryByteInAWord(m) && |m.bytes| <= 0x1_0000_0000 && |x| == m.Columns()
    requires row < m.rows && b < m.blocks && tid < THREADS
    requires rowOffset == Wrap32(row * m.blocks * BytesPerBlock(m.f))
    requires block == Wrap32(rowOffset + b * BytesPerBlock(m.f))
    ensures (block + BytesPerBlock(m.f) - 1) / 4 < |WordsOf(m.bytes)| && (b * 256 + tid) / 2 < |HalvesOf(x)|
    ensures m.Products(h, x, row)[b * 256 + tid]
            == FromWords(m.f, h, WordsOf(m.bytes), block, tid) * h(LoadInputHalf(HalvesOf(x), b * 256 + tid))
  {
    hide Matrix.Valid, Matrix.Products, InBlock, FromWords, LoadInputHalf, EveryByteInAWord, Addressable, WordsOf,
         HalvesOf, Wrap32, BytesPerBlock, Matrix.BlockNumber;
    OffsetDoesNotWrap(m, row, b, rowOffset, block);
    BlockIsAddressable(m, row, b);
    ShaderDecodesSame(m.f, h, WordsOf(m.bytes), m.bytes, block, tid);
    LoadsSameInput(x, b * 256 + tid);
    m.ProductOfBlock(h, x, row, b, tid);
  }

  /** The block loop of a shader thread. Offsets are 32-bit words that wrap; below 4 GiB of weights
      they do not. */
  method ShaderLoop(words: seq<U32>, inputWords: seq<U32>, blocksPerRow: nat, row: nat, tid: nat, f: Format, h: Widen,
                    ghost m: Matrix, ghost x: seq<U16>) returns (sum: real)
    requires m.Valid() && m.f == f && EveryByteInAWord(m) && |m.bytes| <= 0x1_0000_0000 && |x| == m.Columns()
    requires words == WordsOf(m.bytes) && inputWords == HalvesOf(x) && blocksPerRow == m.blocks
    requires row < m.rows && tid < THREADS
    ensures sum == Strided(m.Products(h, x, row), tid, THREADS)
  {
    hide Matrix.Valid, Matrix.Products, FromWords, LoadInputHalf, EveryByteInAWord, Wrap32, BytesPerBlock, WordsOf;
    hide HalvesOf;
    ghost var p := m.Products(h, x, row);
    var rowOffset := Wrap32(row * blocksPerRow * BytesPerBlock(f));
    sum := 0.0;
    var b := 0;
    while b < blocksPerRow
      invariant b <= blocksPerRow && sum + Strided(p, b * 256 + tid, THREADS) == Strided(p, tid, THREADS)
    {
      var block := Wrap32(rowOffset + b * BytesPerBlock(f));
      ShaderProduct(m, h, x, row, b, tid, rowOffset, block);
      sum := sum + FromWords(f, h, words, block, tid) * h(LoadInputHalf(inputWords, b * 256 + tid));
      b := b + 1;
    }
  }

  /** What a shader thread stores for a row of its pair: nothing is read for a row past the end. */
  method ShaderThread(words: seq<U32>, inputWords: seq<U32>, inFeatures: nat, outFeatures: nat, row: nat, tid: nat,
                      f: Format, h: Widen, ghost m: Matrix, ghost x: seq<U16>) returns (sum: real)
    requires m.Valid() && m.f == f && EveryByteInAWord(m) && |m.bytes| <= 0x1_0000_0000 && |x| == m.Columns()
    requires words == WordsOf(m.bytes) && inputWords == HalvesOf(x) && inFeatures == m.Columns()
             && outFeatures == m.rows
    requires tid < THREADS
    ensures sum == Partials(m, h, x, row)[tid]
  {
    hide Matrix.Valid, Matrix.Products, EveryByteInAWord, WordsOf, HalvesOf;
    sum := 0.0;
    if row < outFeatures {
      sum := ShaderLoop(words, inputWords, inFeatures / 256, row, tid, f, h, m, x);
      assert Partials(m, h, x, row)[tid] == Strided(m.Products(h, x, row), tid, THREADS);
    }
  }

  lemma OffsetDoesNotWrap(m: Matrix, row: nat, b: nat, rowOffset: nat, block: nat)
    requires m.Valid() && |m.bytes| <= 0x1_0000_0000 && row < m.rows && b < m.blocks
    requires rowOffset == Wrap32(row * m.blocks * BytesPerBlock(m.f))
    requires block == Wrap32(rowOffset + b * BytesPerBlock(m.f))
    ensures block == m.BlockNumber(row, b) * BytesPerBlock(m.f)
  {
    hide Matrix.Valid, Wrap32, BytesPerBlock;
    m.BlockInside(row, b);
    var n, first, step := BytesPerBlock(m.f), row * m.blocks * BytesPerBlock(m.f), b * BytesPerBlock(m.f);
    Distribute(row * m.blocks, b, n);
    assert n > 0 by { BlocksAreNotEmpty(m.f); }
    NoWrap(first, step, n);
  }

  lemma Distribute(a: nat, b: nat, n: nat)
    ensures (a + b) * n == a * n + b * n && (a + b + 1) * n == a * n + b * n + n
  {}

  lemma BlocksAreNotEmpty(f: Format)
    ensures BytesPerBlock(f) > 0
  {}

  lemma NoWrap(first: nat, step: nat, n: nat)
    requires first + step + n <= 0x1_0000_0000 && n > 0
    ensures Wrap32(Wrap32(first) + step) == first + step
  {}

  /** Row `r` of dequantise-then-multiply, zero past the end. */
  function RowOrZero(m: Matrix, h: Widen, x: seq<U16>, r: nat): real
    requires m.Valid() && |x| == m.Columns()
  {
    if r < m.rows then m.Dot(h, x, r) else 0.0
  }

  /** The values of the threads of a work group for its two rows. */
  function PairPartials(m: Matrix, h: Widen, x: seq<U16>, group: nat): (r: seq<seq<real>>)
    requires m.Valid() && |x| == m.Columns()
    ensures |r| == 2 && |r[0]| == |r[1]| == THREADS
  {
    [Partials(m, h, x, 2 * group), Partials(m, h, x, 2 * group + 1)]
  }

  /** Main result for the shaders: a work group stores the dot products of its two rows, zero standing
      for a row past the end, although both reductions use one shared array. */
  lemma PairKernelIsDot(m: Matrix, h: Widen, x: seq<U16>, group: nat, mem: Memory, order: seq<nat>)
    requires m.Valid() && |x| == m.Columns()
    requires var p := PairProgram(THREADS); Allowed(|p|, Before(p), order)
    ensures var acts := Actions(PairPartials(m, h, x, group), PairProgram(THREADS));
            && Within(order, |acts|)
            && var end := ExecuteInOrder(mem, acts, order);
               && Low in end && end[Low] == RowOrZero(m, h, x, 2 * group)
               && High in end && end[High] == RowOrZero(m, h, x, 2 * group + 1)
  {
    hide Matrix.Valid, Partials, PairProgram, Execute, ExecuteInOrder, Sum;
    ThreadCountIsPowerOfTwo();
    PartialsTotal(m, h, x, 2 * group);
    PartialsTotal(m, h, x, 2 * group + 1);
    PairUnderAnySchedule(PairPartials(m, h, x, group), THREADS, mem, order);
  }

  /** The word a work group writes: `row_half_bits[0] | (row_half_bits[1] << 16U)`. */
  function OutputWord(n: Narrow, first: real, second: real): (w: U32)
    ensures w % 0x1_0000 == n(first) && w / 0x1_0000 == n(second)
  {
    var low: nat, high: nat := n(first), n(second);
    low + high * 0x1_0000
  }

  /** The next shader reads the two halves back at the indices of the two rows. */
  lemma OutputIsRead(n: Narrow, output: seq<U32>, group: nat, first: real, second: real)
    requires group < |output| && output[group] == OutputWord(n, first, second)
    ensures LoadInputHalf(output, 2 * group) == n(first) && LoadInputHalf(output, 2 * group + 1) == n(second)
  {
    hide OutputWord;
    assert 2 * group / 2 == group && (2 * group + 1) / 2 == group;
  }

  /** Some allowed run of a work group stores this output word. */
  ghost predicate GroupWrites(partials: seq<seq<real>>, n: Narrow, word: U32) {
    exists mem: Memory, order: seq<nat>, low: real, high: real ::
      GroupRun(partials, mem, order, low, high) && word == OutputWord(n, low, high)
  }

  ghost predicate GroupRun(partials: seq<seq<real>>, mem: Memory, order: seq<nat>, low: real, high: real) {
    var p := PairProgram(THREADS);
    && Allowed(|p|, Before(p), order) && Within(order, |p|)
    && var end := ExecuteInOrder(mem, Actions(partials, p), order);
       Low in end && low == end[Low] && High in end && high == end[High]
  }

  lemma GroupWritesDots(m: Matrix, h: Widen, n: Narrow, x: seq<U16>, group: nat, word: U32)
    requires m.Valid() && |x| == m.Columns() && GroupWrites(PairPartials(m, h, x, group), n, word)
    ensures word == OutputWord(n, RowOrZero(m, h, x, 2 * group), RowOrZero(m, h, x, 2 * group + 1))
  {
    hide Matrix.Valid, PairProgram, Execute, ExecuteInOrder, RowOrZero, PairPartials, OutputWord, Actions;
    var mem, order, low, high :| GroupRun(PairPartials(m, h, x, group), mem, order, low, high)
      && word == OutputWord(n, low, high);
    PairKernelIsDot(m, h, x, group, mem, order);
  }

  /** All work groups together, each running in any order its barriers allow, write the product of
      matrix and vector, one half a row. */
  lemma WholeProduct(m: Matrix, h: Widen, n: Narrow, x: seq<U16>, output: seq<U32>, row: nat)
    requires m.Valid() && |x| == m.Columns() && |output| == (m.rows + 1) / 2 && row < m.rows
    requires forall g | 0 <= g < |output| :: GroupWrites(PairPartials(m, h, x, g), n, output[g])
    ensures row / 2 < |output| && LoadInputHalf(output, row) == n(m.Dot(h, x, row))
  {
    hide Matrix.Valid, OutputWord, LoadInputHalf, Matrix.Dot, GroupWrites, PairPartials;
    var g := Group(row, m.rows);
    GroupWritesDots(m, h, n, x, g, output[g]);
    OutputIsRead(n, output, g, RowOrZero(m, h, x, 2 * g), RowOrZero(m, h, x, 2 * g + 1));
  }

  /** The work group of a row. */
  function Group(row: nat, rows: nat): (g: nat)
    requires row < rows
    ensures g == row / 2 && g < (rows + 1) / 2 && (row == 2 * g || row == 2 * g + 1)
  {
    row / 2
  }
}
