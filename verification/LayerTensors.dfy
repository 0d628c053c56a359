/** The tensors of a layer: their names in the store, and the checks a run makes before it uses them. */
module LayerTensors {
  import opened Words
  import S = TensorStore
  import C = Capacity

  const SUFFIXES := 11

  function Suffix(k: nat): string
    requires k < SUFFIXES
  {
    ["attn_norm.weight", "attn_q.weight", "attn_k.weight", "attn_v.weight", "attn_output.weight", "attn_q_norm.weight",
     "attn_k_norm.weight", "ffn_norm.weight", "ffn_gate.weight", "ffn_up.weight", "ffn_down.weight"][k]
  }

  function Decimal(n: nat): (s: string)
    ensures s != []
  {
    var digit := ["0", "1", "2", "3", "4", "5", "6", "7", "8", "9"][n % 10];
    if n < 10 then digit else Decimal(n / 10) + digit
  }

  function TensorName(layer: nat, k: nat): Bytes
    requires k < SUFFIXES
  {
    Ascii("blk." + Decimal(layer) + "." + Suffix(k))
  }

  function Named(layer: nat, what: string): Bytes {
    Ascii("blk." + Decimal(layer) + "." + what)
  }

  /** The names of a layer's tensors. */
  lemma NamesInFull(l: nat)
    ensures TensorName(l, 0) == Named(l, "attn_norm.weight") && TensorName(l, 1) == Named(l, "attn_q.weight")
    ensures TensorName(l, 2) == Named(l, "attn_k.weight") && TensorName(l, 3) == Named(l, "attn_v.weight")
    ensures TensorName(l, 4) == Named(l, "attn_output.weight") && TensorName(l, 5) == Named(l, "attn_q_norm.weight")
    ensures TensorName(l, 6) == Named(l, "attn_k_norm.weight") && TensorName(l, 7) == Named(l, "ffn_norm.weight")
    ensures TensorName(l, 8) == Named(l, "ffn_gate.weight") && TensorName(l, 9) == Named(l, "ffn_up.weight")
    ensures TensorName(l, 10) == Named(l, "ffn_down.weight")
  {
    hide Ascii, Decimal;
  }

  /** Layer numbers are decimal. */
  lemma LayerNumber()
    ensures Decimal(0) == "0" && Decimal(7) == "7" && Decimal(27) == "27" && Decimal(103) == "103"
  {
    assert Decimal(2) == "2" && Decimal(1) == "1";
    assert Decimal(10) == Decimal(1) + "0" == "10";
  }

  /** All tensors of a layer are stored. */
  ghost predicate LayerLoaded(names: map<Bytes, U32>, layer: nat) {
    forall k | 0 <= k < SUFFIXES :: TensorName(layer, k) in names
  }

  /** Names of different layers are different: a decimal number has no dot. */
  lemma NamesAreDistinct(a: nat, b: nat, j: nat, k: nat)
    requires j < SUFFIXES && k < SUFFIXES && TensorName(a, j) == TensorName(b, k)
    ensures a == b
  {
    hide Suffix;
    DigitsOnly(a);
    DigitsOnly(b);
    var s, t := "blk." + Decimal(a) + "." + Suffix(j), "blk." + Decimal(b) + "." + Suffix(k);
    assert forall i | 0 <= i < |Decimal(a)| :: s[4 + i] == Decimal(a)[i];
    assert forall i | 0 <= i < |Decimal(b)| :: t[4 + i] == Decimal(b)[i];
    assert s[4 + |Decimal(a)|] == '.' && t[4 + |Decimal(b)|] == '.';
    forall i | 0 <= i < |Decimal(a)| && i < |Decimal(b)| ensures Decimal(a)[i] == Decimal(b)[i] {
      SameText(s, t, 4 + i);
    }
    if |Decimal(a)| != |Decimal(b)| {
      var n := if |Decimal(a)| < |Decimal(b)| then |Decimal(a)| else |Decimal(b)|;
      SameText(s, t, 4 + n);
      assert false;
    }
    assert Decimal(a) == Decimal(b);
    DecimalInjective(a, b);
  }

  lemma SameText(s: string, t: string, i: nat)
    requires Ascii(s) == Ascii(t) && i < |s| && i < |t| && s[i] as int < 256 && t[i] as int < 256
    ensures s[i] == t[i]
  {
    assert Ascii(s)[i] == Ascii(t)[i];
  }

  lemma {:induction false} DigitsOnly(n: nat)
    ensures forall i | 0 <= i < |Decimal(n)| :: '0' <= Decimal(n)[i] <= '9'
  {
    if n >= 10 {
      DigitsOnly(n / 10);
    }
  }

  lemma {:induction false} DecimalInjective(a: nat, b: nat)
    requires Decimal(a) == Decimal(b)
    ensures a == b
  {
    DecimalParts(a);
    DecimalParts(b);
    if a >= 10 && b >= 10 {
      assert Decimal(a)[..|Decimal(a)| - 1] == Decimal(a / 10) && Decimal(b)[..|Decimal(b)| - 1] == Decimal(b / 10);
      DecimalInjective(a / 10, b / 10);
    }
  }

  lemma DecimalParts(n: nat)
    ensures Decimal(n)[|Decimal(n)| - 1] as int == '0' as int + n % 10
    ensures if n < 10 then |Decimal(n)| == 1 else |Decimal(n)| == |Decimal(n / 10)| + 1 > 1
  {}

  // ---- Shapes ----

  const MATRICES := 7

  /** A matrix that a run multiplies by: which of the layer's tensors it is, and its dimensions. */
  datatype Matrix = Matrix(tensor: nat, columns: U32, rows: U32)

  /** Q, K, V, O, gate, up and down, as the dimensions of a request ask for them. */
  function MatrixOf(d: C.Dims, j: nat): (m: Matrix)
    requires j < MATRICES
    ensures m.tensor < SUFFIXES
  {
    if j == 0 then Matrix(1, d.hidden, d.QElements())
    else if j == 1 then Matrix(2, d.hidden, d.KvElements())
    else if j == 2 then Matrix(3, d.hidden, d.KvElements())
    else if j == 3 then Matrix(4, d.QElements(), d.hidden)
    else if j == 4 then Matrix(8, d.hidden, d.ffn)
    else if j == 5 then Matrix(9, d.hidden, d.ffn)
    else Matrix(10, d.ffn, d.hidden)
  }

  /** A tensor as far as a run looks at it. */
  datatype Form = Form(ggufType: U32, dims: seq<U64>)

  /** `require_matrix`: a block type, two dimensions, and these. */
  predicate IsMatrix(f: Form, m: Matrix) {
    (f.ggufType == 12 || f.ggufType == 14) && f.dims == [m.columns, m.rows]
  }

  /** What is stored under a name, if anything. */
  function FormOf(store: S.State, name: Bytes): Option<Form> {
    if name in store.names && store.names[name] in store.tensors then
      var s := store.tensors[store.names[name]];
      Some(Form(s.ggufType, s.dims))
    else None
  }

  predicate MatrixStored(store: S.State, d: C.Dims, layer: nat, j: nat)
    requires j < MATRICES
  {
    var f := FormOf(store, TensorName(layer, MatrixOf(d, j).tensor));
    f.Some? && IsMatrix(f.value, MatrixOf(d, j))
  }

  ghost predicate LayerFits(store: S.State, d: C.Dims, layer: nat) {
    forall j | 0 <= j < MATRICES :: MatrixStored(store, d, layer, j)
  }

  datatype Fault = Missing | Mismatch

  /** Why a layer cannot run, if it cannot: first all its tensors are looked up, then shapes are checked. */
  ghost function LayerFault(store: S.State, d: C.Dims, layer: nat): Option<Fault> {
    if !LayerLoaded(store.names, layer) then Some(Missing)
    else if !LayerFits(store, d, layer) then Some(Mismatch)
    else None
  }

  /** The problem of the first layer that has one. */
  ghost function RangeFault(store: S.State, d: C.Dims, first: nat, last: nat): Option<Fault>
    decreases last + 1 - first
  {
    if first > last then None
    else if LayerFault(store, d, first).Some? then LayerFault(store, d, first)
    else RangeFault(store, d, first + 1, last)
  }

  /** A range can run exactly when each of its layers can. */
  lemma {:induction false} RangeRuns(store: S.State, d: C.Dims, first: nat, last: nat)
    ensures RangeFault(store, d, first, last).None?
            <==> forall l | first <= l <= last :: LayerFault(store, d, l).None?
    decreases last + 1 - first
  {
    hide LayerFault;
    if first <= last && LayerFault(store, d, first).None? {
      RangeRuns(store, d, first + 1, last);
    }
  }

  /** If all layers are loaded, at most shapes are wrong. */
  lemma {:induction false} LoadedRangeFault(store: S.State, d: C.Dims, first: nat, last: nat)
    requires forall l | first <= l <= last :: LayerLoaded(store.names, l)
    ensures RangeFault(store, d, first, last) != Some(Missing)
    decreases last + 1 - first
  {
    hide LayerLoaded, LayerFits;
    if first <= last {
      LoadedRangeFault(store, d, first + 1, last);
    }
  }

  /** Looks up the eleven tensors of a layer. */
  method FindTensors(store: S.TensorStore, layer: nat) returns (found: bool)
    ensures found <==> LayerLoaded(store.names, layer)
  {
    hide TensorName;
    for k := 0 to SUFFIXES
      invariant forall j | 0 <= j < k :: TensorName(layer, j) in store.names
    {
      if TensorName(layer, k) !in store.names {
        return false;
      }
    }
    return true;
  }

  /** The seven shape checks of a layer. */
  method CheckShapes(store: S.TensorStore, d: C.Dims, layer: nat) returns (fit: bool)
    requires store.Valid() && LayerLoaded(store.names, layer)
    ensures fit <==> LayerFits(store.Contents(), d, layer)
  {
    hide TensorName, IsMatrix, S.Consistent;
    for j := 0 to MATRICES
      invariant forall i | 0 <= i < j :: MatrixStored(store.Contents(), d, layer, i)
    {
      var m := MatrixOf(d, j);
      var name := TensorName(layer, m.tensor);
      S.NamedRecord(store.Contents(), store.issued, name);
      var tensor := store.tensors[store.names[name]];
      if !IsMatrix(Form(tensor.ggufType, tensor.dims), m) {
        assert !MatrixStored(store.Contents(), d, layer, j);
        return false;
      }
    }
    return true;
  }

  /** All checks of a layer. */
  method CheckLayer(store: S.TensorStore, d: C.Dims, layer: nat) returns (fault: Option<Fault>)
    requires store.Valid()
    ensures fault == LayerFault(store.Contents(), d, layer)
  {
    hide LayerLoaded, LayerFits, S.Consistent;
    var found := FindTensors(store, layer);
    if !found {
      return Some(Missing);
    }
    var fit := CheckShapes(store, d, layer);
    fault := if fit then None else Some(Mismatch);
  }

  /** Layers stay as they are while the store grows. */
  lemma ExtendedLayer(before: S.State, after: S.State, d: C.Dims, layer: nat)
    requires S.Extends(before.names, before.tensors, after.names, after.tensors)
    requires LayerFault(before, d, layer).None?
    ensures LayerFault(after, d, layer).None?
  {
    hide TensorName, MatrixOf, IsMatrix;
    forall k | 0 <= k < SUFFIXES ensures TensorName(layer, k) in after.names {
      assert TensorName(layer, k) in before.names;
    }
    forall j | 0 <= j < MATRICES ensures MatrixStored(after, d, layer, j) {
      assert MatrixStored(before, d, layer, j);
    }
  }
}
