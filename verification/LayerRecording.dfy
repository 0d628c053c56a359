/** The command list one call of the Vulkan layer runner records.

    Each layer is 20 dispatches and copies over scratch buffers that all layers share, separated by
    14 pipeline barriers. The module gives the list and proves that its barriers order every pair of
    commands that touch the same buffer; the host's read of the result is the one access they leave
    out. */
module LayerRecording {
  import opened Schedules
  import opened Transformer

  datatype Loc =
    | X | Norm | Q | K | V | Attention | Projection | Gate | Up | Activation | FfnOutput | ScoreBuffer
    | KSlot(layer: nat, slot: nat)
    | VSlot(layer: nat, slot: nat)

  datatype Content = Half(cells: Vec) | Float(rows: seq<seq<Score>>)

  type Memory = map<Loc, Content>

  datatype Stage = Compute | Transfer | Host

  datatype Access = ShaderRead | ShaderWrite | TransferRead | TransferWrite | HostRead | HostWrite

  datatype Item =
    | Work(stage: Stage, action: Action<Loc, Content>)
    | Barrier(srcStages: set<Stage>, srcAccess: set<Access>, dstStages: set<Stage>, dstAccess: set<Access>)
  {
    /** What the item does to memory; a barrier does nothing. */
    function Step(): Action<Loc, Content> {
      if Work? then action else Action({}, {}, m => map[])
    }
  }

  function ReadAccess(s: Stage): Access {
    match s
    case Compute => ShaderRead
    case Transfer => TransferRead
    case Host => HostRead
  }

  function WriteAccess(s: Stage): Access {
    match s
    case Compute => ShaderWrite
    case Transfer => TransferWrite
    case Host => HostWrite
  }

  function HalfAt(m: Memory, l: Loc): Vec {
    if l in m && m[l].Half? then m[l].cells else []
  }

  function RowsAt(m: Memory, l: Loc): seq<seq<Score>> {
    if l in m && m[l].Float? then m[l].rows else []
  }

  // ---- The commands ----

  function Unary(a: Loc, out: Loc, f: Map): Action<Loc, Content> {
    Action({a}, {out}, m => map[out := Half(f(HalfAt(m, a)))])
  }

  function Binary(a: Loc, b: Loc, out: Loc, f: (Vec, Vec) -> Vec): Action<Loc, Content> {
    Action({a, b}, {out}, m => map[out := Half(f(HalfAt(m, a), HalfAt(m, b)))])
  }

  function SlotRows(m: Memory, slots: seq<Loc>): (rows: seq<Vec>)
    ensures |rows| == |slots|
  {
    seq(|slots|, t requires 0 <= t < |slots| => HalfAt(m, slots[t]))
  }

  function KeySlots(l: nat, n: nat): (s: seq<Loc>)
    ensures |s| == n && forall t | 0 <= t < n :: s[t] == KSlot(l, t)
  {
    seq(n, t requires 0 <= t < n => KSlot(l, t))
  }

  function ValueSlots(l: nat, n: nat): (s: seq<Loc>)
    ensures |s| == n && forall t | 0 <= t < n :: s[t] == VSlot(l, t)
  {
    seq(n, t requires 0 <= t < n => VSlot(l, t))
  }

  function Elements(s: seq<Loc>): set<Loc> {
    set l | l in s
  }

  function ScoresCommand(model: Model, l: nat, pos: nat): Action<Loc, Content> {
    Action({Projection} + Elements(KeySlots(l, pos + 1)), {ScoreBuffer},
           m => map[ScoreBuffer := Float(Scores(model, HalfAt(m, Projection), SlotRows(m, KeySlots(l, pos + 1))))])
  }

  function MixScores(model: Model, scores: seq<seq<Score>>, values: seq<Vec>): Vec {
    if |scores| == model.shape.heads then Mixed(model, scores, values) else []
  }

  function ValuesCommand(model: Model, l: nat, pos: nat): Action<Loc, Content> {
    Action({ScoreBuffer} + Elements(ValueSlots(l, pos + 1)), {Attention},
           m => map[Attention := Half(MixScores(model, RowsAt(m, ScoreBuffer), SlotRows(m, ValueSlots(l, pos + 1))))])
  }

  function Dispatch(a: Action<Loc, Content>): Item {
    Work(Compute, a)
  }

  function Copy(from: Loc, to: Loc): Item {
    Work(Transfer, Unary(from, to, Identity()))
  }

  function ComputeBarrier(): Item {
    Barrier({Compute}, {ShaderWrite}, {Compute, Transfer}, {ShaderRead, ShaderWrite, TransferRead})
  }

  function TransferBarrier(): Item {
    Barrier({Transfer}, {TransferWrite}, {Compute}, {ShaderRead})
  }

  function Linear(w: Weights, part: Part): Map {
    x => w.run(part, x)
  }

  function Rotate(model: Model, heads: nat, pos: nat): Map {
    x => model.ops.rope(x, heads, pos)
  }

  function Identity(): Map {
    x => x
  }

  const LAYER_ITEMS: nat := 34

  /** The commands recorded for layer `l` at position `pos`, in recording order. */
  function LayerItems(model: Model, l: nat, pos: nat): (items: seq<Item>)
    requires l < |model.layers|
    ensures |items| == LAYER_ITEMS
  {
    var w, ops, shape := model.layers[l], model.ops, model.shape;
    [ Dispatch(Unary(X, Norm, Linear(w, AttnNorm))),
      ComputeBarrier(),
      Dispatch(Unary(Norm, Q, Linear(w, AttnQ))),
      Dispatch(Unary(Norm, K, Linear(w, AttnK))),
      Dispatch(Unary(Norm, V, Linear(w, AttnV))),
      ComputeBarrier(),
      Dispatch(Unary(Q, Q, Linear(w, QNorm))),
      Dispatch(Unary(K, K, Linear(w, KNorm))),
      ComputeBarrier(),
      Dispatch(Unary(Q, Projection, Rotate(model, shape.heads, pos))),
      Dispatch(Unary(K, Attention, Rotate(model, shape.kvHeads, pos))),
      ComputeBarrier(),
      Copy(Attention, KSlot(l, pos)),
      Copy(V, VSlot(l, pos)),
      TransferBarrier(),
      Dispatch(ScoresCommand(model, l, pos)),
      ComputeBarrier(),
      Dispatch(ValuesCommand(model, l, pos)),
      ComputeBarrier(),
      Dispatch(Unary(Attention, Projection, Linear(w, AttnO))),
      ComputeBarrier(),
      Dispatch(Binary(X, Projection, X, ops.add)),
      ComputeBarrier(),
      Dispatch(Unary(X, Norm, Linear(w, FfnNorm))),
      ComputeBarrier(),
      Dispatch(Unary(Norm, Gate, Linear(w, FfnGate))),
      Dispatch(Unary(Norm, Up, Linear(w, FfnUp))),
      ComputeBarrier(),
      Dispatch(Binary(Gate, Up, Activation, ops.swiglu)),
      ComputeBarrier(),
      Dispatch(Unary(Activation, FfnOutput, Linear(w, FfnDown))),
      ComputeBarrier(),
      Dispatch(Binary(X, FfnOutput, X, ops.add)),
      ComputeBarrier() ]
  }

  /** The whole command list of the layers `first .. first + n - 1`. */
  function Recorded(model: Model, first: nat, n: nat, pos: nat): (items: seq<Item>)
    requires first + n <= |model.layers|
    ensures |items| == LAYER_ITEMS * n
    decreases n
  {
    if n == 0 then [] else LayerItems(model, first, pos) + Recorded(model, first + 1, n - 1, pos)
  }

  lemma {:induction false} RecordedAt(model: Model, first: nat, n: nat, pos: nat, a: nat, r: nat)
    requires first + n <= |model.layers| && a < n && r < LAYER_ITEMS
    ensures LAYER_ITEMS * a + r < LAYER_ITEMS * n
    ensures Recorded(model, first, n, pos)[LAYER_ITEMS * a + r] == LayerItems(model, first + a, pos)[r]
    decreases n
  {
    hide LayerItems;
    if a > 0 {
      RecordedAt(model, first + 1, n - 1, pos, a - 1, r);
    }
  }

  // ---- Hazards ----

  /** Barrier `b` makes command `a` happen, and its writes visible, before command `c`. */
  predicate Covers(b: Item, a: Item, c: Item)
    requires b.Barrier? && a.Work? && c.Work?
  {
    && a.stage in b.srcStages && c.stage in b.dstStages
    && (!(a.action.outputs !! c.action.inputs) ==>
          WriteAccess(a.stage) in b.srcAccess && ReadAccess(c.stage) in b.dstAccess)
    && (!(a.action.outputs !! c.action.outputs) ==>
          WriteAccess(a.stage) in b.srcAccess && WriteAccess(c.stage) in b.dstAccess)
  }

  ghost predicate Synchronised(items: seq<Item>, i: nat, j: nat) {
    && i < j < |items| && items[i].Work? && items[j].Work?
    && exists k :: i < k < j && items[k].Barrier? && Covers(items[k], items[i], items[j])
  }

  /** The barrier that follows item `r` of a layer. */
  function NextBarrier(r: nat): (b: nat)
    requires r < LAYER_ITEMS
    ensures r <= b < LAYER_ITEMS
  {
    if r <= 1 then 1 else if r <= 5 then 5 else if r <= 8 then 8 else if r <= 11 then 11
    else if r <= 14 then 14 else if r <= 16 then 16 else if r <= 18 then 18 else if r <= 20 then 20
    else if r <= 22 then 22 else if r <= 24 then 24 else if r <= 27 then 27 else if r <= 29 then 29
    else if r <= 31 then 31 else 33
  }

  lemma BarrierFollows(model: Model, l: nat, pos: nat, r: nat)
    requires l < |model.layers| && r < LAYER_ITEMS
    ensures var items := LayerItems(model, l, pos);
            && items[NextBarrier(r)] == (if r == 12 || r == 13 || r == 14 then TransferBarrier() else ComputeBarrier())
            && (items[r].Work? ==> r < NextBarrier(r))
            && (items[r].Work? ==> items[r].stage == (if r == 12 || r == 13 then Transfer else Compute))
  {
    if r < 17 { EarlyBarrier(model, l, pos, r); } else { LateBarrier(model, l, pos, r); }
    hide LayerItems;
  }

  lemma EarlyBarrier(model: Model, l: nat, pos: nat, r: nat)
    requires l < |model.layers| && r < 17
    ensures var items := LayerItems(model, l, pos);
            && items[NextBarrier(r)] == (if r == 12 || r == 13 || r == 14 then TransferBarrier() else ComputeBarrier())
            && (items[r].Work? ==> r < NextBarrier(r))
            && (items[r].Work? ==> items[r].stage == (if r == 12 || r == 13 then Transfer else Compute))
  {
    hide Unary, Binary, ScoresCommand, ValuesCommand;
  }

  lemma LateBarrier(model: Model, l: nat, pos: nat, r: nat)
    requires l < |model.layers| && 17 <= r < LAYER_ITEMS
    ensures var items := LayerItems(model, l, pos);
            && items[NextBarrier(r)] == ComputeBarrier()
            && (items[r].Work? ==> r < NextBarrier(r) && items[r].stage == Compute)
  {
    hide Unary, Binary, ScoresCommand, ValuesCommand;
  }

  /** Commands recorded between the same two barriers touch different buffers. */
  lemma GroupIsIndependent(model: Model, l: nat, pos: nat, r: nat, s: nat)
    requires l < |model.layers| && r < LAYER_ITEMS && r < s < NextBarrier(r)
    ensures var items := LayerItems(model, l, pos); !Conflict(items[r].Step(), items[s].Step())
  {}

  predicate IsSlot(o: Loc) {
    o.KSlot? || o.VSlot?
  }

  /** Compute commands write no cache slot and read only those of their own layer up to this position;
      copies write only this position's slots of their own layer and read only scratch. */
  lemma StepFootprint(model: Model, l: nat, pos: nat, r: nat)
    requires l < |model.layers| && r < LAYER_ITEMS && LayerItems(model, l, pos)[r].Work?
    ensures var item := LayerItems(model, l, pos)[r];
            if item.stage == Transfer
            then (item.action.outputs == {KSlot(l, pos)} || item.action.outputs == {VSlot(l, pos)})
                 && (item.action.inputs == {Attention} || item.action.inputs == {V})
            else && (forall o | o in item.action.outputs :: !IsSlot(o))
                 && (forall o | o in item.action.inputs && IsSlot(o) :: o.layer == l && o.slot <= pos)
  {}

  /** No two commands of the list, however many layers it spans, race on a buffer. */
  lemma NoHazard(model: Model, first: nat, n: nat, pos: nat, i: nat, j: nat)
    requires first + n <= |model.layers| && i < j < LAYER_ITEMS * n
    requires var items := Recorded(model, first, n, pos); Conflict(items[i].Step(), items[j].Step())
    ensures Synchronised(Recorded(model, first, n, pos), i, j)
  {
    hide LayerItems, Recorded;
    var items := Recorded(model, first, n, pos);
    var a, r, b, s := i / LAYER_ITEMS, i % LAYER_ITEMS, j / LAYER_ITEMS, j % LAYER_ITEMS;
    RecordedAt(model, first, n, pos, a, r);
    RecordedAt(model, first, n, pos, b, s);
    assert items[i].Work? && items[j].Work?;
    var k := LAYER_ITEMS * a + NextBarrier(r);
    RecordedAt(model, first, n, pos, a, NextBarrier(r));
    BarrierFollows(model, first + a, pos, r);
    BarrierFollows(model, first + b, pos, s);
    StepFootprint(model, first + a, pos, r);
    StepFootprint(model, first + b, pos, s);
    if j <= k {
      assert a == b;
      if s < NextBarrier(r) {
        GroupIsIndependent(model, first + a, pos, r, s);
      }
      assert false;
    }
    assert Covers(items[k], items[i], items[j]);
  }

  // ---- The host ----

  /** The host's read of the result once the fence is signalled. */
  function ReadBack(): Item {
    Work(Host, Action({X}, {}, m => map[]))
  }

  /** What writes X: the two residual additions of each layer. */
  lemma WritersOfX(model: Model, l: nat, pos: nat, r: nat)
    requires l < |model.layers| && r < LAYER_ITEMS
    ensures var item := LayerItems(model, l, pos)[r];
            && (X in item.Step().outputs <==> r == 21 || r == 32)
            && (X in item.Step().outputs ==> item.Work? && item.stage == Compute)
            && (item.Barrier? ==> Host !in item.dstStages)
  {}

  /** No recorded barrier makes a write of X visible to the host. */
  lemma ReadBackIsUncovered(model: Model, first: nat, n: nat, pos: nat, i: nat, k: nat)
    requires first + n <= |model.layers| && i < LAYER_ITEMS * n && k < LAYER_ITEMS * n
    requires var items := Recorded(model, first, n, pos); X in items[i].Step().outputs && items[k].Barrier?
    ensures var items := Recorded(model, first, n, pos);
            && items[i].Work? && Conflict(items[i].Step(), ReadBack().Step())
            && !Covers(items[k], items[i], ReadBack())
  {
    hide LayerItems, Recorded;
    RecordedAt(model, first, n, pos, i / LAYER_ITEMS, i % LAYER_ITEMS);
    RecordedAt(model, first, n, pos, k / LAYER_ITEMS, k % LAYER_ITEMS);
    WritersOfX(model, first + i / LAYER_ITEMS, pos, i % LAYER_ITEMS);
    WritersOfX(model, first + k / LAYER_ITEMS, pos, k % LAYER_ITEMS);
  }

  /** A barrier at the end that makes shader writes visible to host reads. */
  predicate MakesVisible(b: Item) {
    b.Barrier? && Compute in b.srcStages && ShaderWrite in b.srcAccess && Host in b.dstStages && HostRead in b.dstAccess
  }

  /** One more barrier at the end would order the read-back exactly when it leads from shader writes to
      host reads. */
  lemma ReadBackNeedsBarrier(model: Model, first: nat, n: nat, pos: nat, b: Item)
    requires 0 < n && first + n <= |model.layers| && b.Barrier?
    ensures var items := Recorded(model, first, n, pos) + [b, ReadBack()];
            MakesVisible(b) <==>
            forall i | 0 <= i < LAYER_ITEMS * n && X in items[i].Step().outputs ::
              Synchronised(items, i, LAYER_ITEMS * n + 1)
  {
    hide LayerItems, Recorded;
    var recorded, m := Recorded(model, first, n, pos), LAYER_ITEMS * n;
    var items := recorded + [b, ReadBack()];
    forall i | 0 <= i < m && X in items[i].Step().outputs
      ensures MakesVisible(b) <==> Synchronised(items, i, m + 1)
    {
      RecordedAt(model, first, n, pos, i / LAYER_ITEMS, i % LAYER_ITEMS);
      WritersOfX(model, first + i / LAYER_ITEMS, pos, i % LAYER_ITEMS);
      forall k | i < k < m && items[k].Barrier? ensures !Covers(items[k], items[i], items[m + 1]) {
        ReadBackIsUncovered(model, first, n, pos, i, k);
      }
      assert Covers(items[m], items[i], items[m + 1]) <==> MakesVisible(b);
    }
    RecordedAt(model, first, n, pos, n - 1, 32);
    WritersOfX(model, first + n - 1, pos, 32);
    assert items[LAYER_ITEMS * (n - 1) + 32] == recorded[LAYER_ITEMS * (n - 1) + 32];
  }
}
