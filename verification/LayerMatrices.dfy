/** The matrices of a layer run as the shaders see them: whole 32-bit words of exactly the stored bytes. */
module LayerMatrices {
  import opened Words
  import opened LayerTensors
  import C = Capacity
  import Codecs
  import M = MatVec
  import Quant
  import Wire
  import S = TensorStore

  /** Rows consist of whole blocks: what every block-quantised model file has. */
  predicate WholeBlocks(d: C.Dims) {
    d.hidden % 256 == 0 && d.QElements() % 256 == 0 && d.ffn % 256 == 0
  }

  /** A stored tensor as a shader reads it: `in_features / 256` blocks a row. */
  function ShaderView(s: S.Stored, m: Matrix): M.Matrix {
    M.Matrix(if s.ggufType == 12 then M.Q4 else M.Q6, s.data, m.rows, m.columns / 256)
  }

  /** Every matrix of a run has an even number of rows, and columns in whole blocks. */
  lemma MatrixShapes(d: C.Dims, j: nat)
    requires d.Admissible() && WholeBlocks(d) && j < MATRICES
    ensures MatrixOf(d, j).columns % 256 == 0 && MatrixOf(d, j).rows % 2 == 0
  {
    EvenKeys(d);
    MultipleIsEven(d.hidden);
    MultipleIsEven(d.ffn);
    MultipleIsEven(d.QElements());
    hide C.Dims.QElements, C.Dims.KvElements;
  }

  lemma EvenKeys(d: C.Dims)
    requires d.Admissible()
    ensures d.KvElements() % 2 == 0
  {
    EvenProduct(d.kvHeads, d.headDim);
  }

  lemma MultipleIsEven(n: nat)
    ensures n % 256 == 0 ==> n % 2 == 0
  {
    if n % 256 == 0 {
      Doubled(n / 256 * 128);
    }
  }

  lemma Doubled(k: nat)
    ensures k * 2 % 2 == 0
  {}

  lemma EvenProduct(heads: nat, headDim: nat)
    requires headDim % 2 == 0
    ensures heads * headDim % C.TWO32 % 2 == 0
  {
    assert heads * headDim == heads * (headDim / 2) * 2;
    EvenRemainder(heads * (headDim / 2));
  }

  lemma EvenRemainder(n: nat)
    ensures n * 2 % C.TWO32 % 2 == 0
  {}

  /** The byte count the store checked is that of the rows. */
  lemma StoredSize(s: S.Stored, m: Matrix)
    requires S.FromPayload(s) && IsMatrix(Form(s.ggufType, s.dims), m) && m.columns % 256 == 0
    ensures |s.data| == m.rows * (m.columns / 256) * Quant.BlockBytes(S.TypeOf(s.ggufType))
  {
    hide Wire.Hash;
    var t := S.TypeOf(s.ggufType);
    S.BlockSizeCheckIsExact(t, s.elementCount, |s.data|);
    ProductOfTwo(s.dims, m);
    RowBlocks(m.columns, m.rows);
    hide S.ExpectedBytes;
  }

  lemma ProductOfTwo(dims: seq<U64>, m: Matrix)
    requires dims == [m.columns, m.rows]
    ensures Codecs.Product(dims) == m.columns * m.rows
  {
    assert dims[..1] == [m.columns] && dims[..1][..0] == [];
    assert Codecs.Product([m.columns]) == m.columns;
  }

  lemma RowBlocks(columns: nat, rows: nat)
    requires columns % 256 == 0
    ensures (columns * rows + 255) / 256 == rows * (columns / 256)
  {
    assert columns * rows == rows * (columns / 256) * 256;
  }

  /** Every matrix of a layer that a run accepts meets what the shaders need: all its bytes lie in whole
      words, and offsets do not wrap. */
  lemma StoredMatrixIsCovered(s: S.Stored, d: C.Dims, j: nat)
    requires d.Admissible() && WholeBlocks(d) && j < MATRICES
    requires S.FromPayload(s) && IsMatrix(Form(s.ggufType, s.dims), MatrixOf(d, j))
    ensures var m := ShaderView(s, MatrixOf(d, j));
            && m.Valid() && m.rows == MatrixOf(d, j).rows && m.Columns() == MatrixOf(d, j).columns
            && M.EveryByteInAWord(m) && |m.bytes| <= 0x1_0000_0000
  {
    var matrix := MatrixOf(d, j);
    MatrixShapes(d, j);
    StoredSize(s, matrix);
    hide MatrixOf, WholeBlocks;
    var m := ShaderView(s, matrix);
    EvenBlocks(matrix.rows, m.blocks);
    assert m.Valid();
    M.WordsCoverMatrix(m);
  }

  lemma EvenBlocks(rows: nat, blocks: nat)
    requires rows % 2 == 0
    ensures rows * blocks % 2 == 0
  {
    assert rows * blocks == rows / 2 * blocks * 2;
  }
}
