/** What a recorded command list computes.

    A command in flight first reads its inputs and later writes its outputs; other commands may run
    in between unless a barrier forbids it. The main result says that every such execution of the
    recorded list leaves in X the composition of the layers and in each cache slot of this position
    the new key or value. */
module LayerExecution {
  import opened Schedules
  import opened Transformer
  import opened LayerRecording

  // ---- Overlapping commands ----

  /** Memory while commands overlap: the buffers, and the results commands have not yet written. */
  datatype Cell = Mem(loc: Loc) | Held(command: nat, loc: Loc)

  type Flight = map<Cell, Content>

  function Visible(m: Flight): Memory {
    map c | c in m && c.Mem? :: c.loc := m[c]
  }

  function ResultsOf(m: Flight, i: nat): Memory {
    map c | c in m && c.Held? && c.command == i :: c.loc := m[c]
  }

  function Landed(m: Memory): Flight {
    map l | l in m :: Mem(l) := m[l]
  }

  function Pending(m: Memory, i: nat): Flight {
    map l | l in m :: Held(i, l) := m[l]
  }

  function ReadEvent(i: nat, a: Action<Loc, Content>): Action<Cell, Content> {
    Action(set l | l in a.inputs :: Mem(l), set l | l in a.outputs :: Held(i, l),
           (m: Flight) => Pending(a.effect(Visible(m)), i))
  }

  function WriteEvent(i: nat, a: Action<Loc, Content>): Action<Cell, Content> {
    Action(set l | l in a.outputs :: Held(i, l), set l | l in a.outputs :: Mem(l),
           (m: Flight) => Landed(ResultsOf(m, i)))
  }

  /** Event 2i is the read of command i, event 2i + 1 its write. */
  function Events(items: seq<Item>): (e: seq<Action<Cell, Content>>)
    ensures |e| == 2 * |items|
  {
    seq(2 * |items|, k requires 0 <= k < 2 * |items| =>
      if k % 2 == 0 then ReadEvent(k / 2, items[k / 2].Step()) else WriteEvent(k / 2, items[k / 2].Step()))
  }

  /** A command reads before it writes; a barrier orders all events of the commands it covers. */
  ghost function EventOrder(items: seq<Item>): Order {
    (e: nat, f: nat) => (e / 2 == f / 2 && e < f) || Synchronised(items, e / 2, f / 2)
  }

  ghost predicate RaceFree(items: seq<Item>) {
    forall i, j | 0 <= i < j < |items| && Conflict(items[i].Step(), items[j].Step()) :: Synchronised(items, i, j)
  }

  lemma EventsConflict(i: nat, a: Action<Loc, Content>, j: nat, b: Action<Loc, Content>)
    requires i != j && !Conflict(a, b)
    ensures !Conflict(ReadEvent(i, a), ReadEvent(j, b)) && !Conflict(ReadEvent(i, a), WriteEvent(j, b))
    ensures !Conflict(WriteEvent(i, a), ReadEvent(j, b)) && !Conflict(WriteEvent(i, a), WriteEvent(j, b))
  {}

  lemma EventsHazardFree(items: seq<Item>)
    requires RaceFree(items)
    ensures HazardFree(Events(items), EventOrder(items))
  {
    var events, before := Events(items), EventOrder(items);
    forall e, f | 0 <= e < f < |events| && Conflict(events[e], events[f]) ensures before(e, f) {
      var i, j := e / 2, f / 2;
      if i != j && !Conflict(items[i].Step(), items[j].Step()) {
        EventsConflict(i, items[i].Step(), j, items[j].Step());
      }
    }
  }

  ghost predicate Complete(a: Action<Loc, Content>) {
    forall m :: a.effect(m).Keys == a.outputs
  }

  lemma ReadStep(m: Flight, i: nat, a: Action<Loc, Content>)
    requires Complete(a)
    ensures Apply(m, ReadEvent(i, a)) == m + Pending(a.effect(Restrict(Visible(m), a.inputs)), i)
  {
    var read := ReadEvent(i, a);
    assert Visible(Restrict(m, read.inputs)) == Restrict(Visible(m), a.inputs);
    var out := a.effect(Restrict(Visible(m), a.inputs));
    assert Restrict(Pending(out, i), read.outputs) == Pending(out, i);
  }

  lemma HeldResults(m: Flight, i: nat, a: Action<Loc, Content>, out: Memory)
    requires out.Keys == a.outputs
    ensures ResultsOf(Restrict(m + Pending(out, i), WriteEvent(i, a).inputs), i) == out
  {
    hide ResultsOf;
    var held := Restrict(m + Pending(out, i), WriteEvent(i, a).inputs);
    forall l ensures (l in ResultsOf(held, i) <==> l in out) && (l in out ==> ResultsOf(held, i)[l] == out[l]) {
      ResultAt(held, i, l);
      assert Held(i, l) in held <==> l in out;
    }
  }

  lemma ResultAt(held: Flight, i: nat, l: Loc)
    ensures l in ResultsOf(held, i) <==> Held(i, l) in held
    ensures l in ResultsOf(held, i) ==> ResultsOf(held, i)[l] == held[Held(i, l)]
  {
    if Held(i, l) in held {
      assert Held(i, l).loc == l;
    }
  }

  lemma WriteStep(m: Flight, i: nat, a: Action<Loc, Content>, out: Memory)
    requires out.Keys == a.outputs
    ensures Apply(m + Pending(out, i), WriteEvent(i, a)) == m + Pending(out, i) + Landed(out)
  {
    HeldResults(m, i, a, out);
    assert Restrict(Landed(out), WriteEvent(i, a).outputs) == Landed(out);
    hide ResultsOf, Pending, Landed;
  }

  lemma VisibleAt(m: Flight, l: Loc)
    ensures l in Visible(m) <==> Mem(l) in m
    ensures l in Visible(m) ==> Visible(m)[l] == m[Mem(l)]
  {
    if Mem(l) in m {
      assert Mem(l).loc == l;
    }
  }

  lemma LandedIsVisible(m: Flight, i: nat, out: Memory)
    ensures Visible(m + Pending(out, i) + Landed(out)) == Visible(m) + out
  {
    hide Visible;
    var m1 := m + Pending(out, i);
    var m2 := m1 + Landed(out);
    var v, w := Visible(m2), Visible(m) + out;
    forall l ensures (l in v <==> l in w) && (l in v ==> v[l] == w[l]) {
      VisibleAt(m2, l);
      VisibleAt(m, l);
      assert Mem(l) in Landed(out) <==> l in out;
      assert Mem(l) in m1 <==> Mem(l) in m;
    }
  }

  /** A command whose write follows its read at once acts as one step. */
  lemma ReadThenWrite(m: Flight, i: nat, a: Action<Loc, Content>)
    requires Complete(a)
    ensures Visible(Apply(Apply(m, ReadEvent(i, a)), WriteEvent(i, a))) == Apply(Visible(m), a)
  {
    var out := a.effect(Restrict(Visible(m), a.inputs));
    assert Restrict(out, a.outputs) == out;
    ReadStep(m, i, a);
    WriteStep(m, i, a, out);
    LandedIsVisible(m, i, out);
  }

  function Steps(items: seq<Item>): (s: seq<Action<Loc, Content>>)
    ensures |s| == |items|
  {
    seq(|items|, k requires 0 <= k < |items| => items[k].Step())
  }

  ghost predicate AllComplete(items: seq<Item>) {
    forall k | 0 <= k < |items| :: Complete(items[k].Step())
  }

  lemma {:induction false} EventsInProgramOrder(m: Flight, items: seq<Item>, k: nat)
    requires AllComplete(items) && k <= |items|
    ensures Visible(Execute(m, Events(items)[2 * k..])) == Execute(Visible(m), Steps(items)[k..])
    decreases |items| - k
  {
    hide Apply, ReadEvent, WriteEvent, Visible;
    if k < |items| {
      var events, steps := Events(items), Steps(items);
      var read, write := events[2 * k], events[2 * k + 1];
      assert read == ReadEvent(k, items[k].Step()) && write == WriteEvent(k, items[k].Step());
      assert events[2 * k..][1..][1..] == events[2 * (k + 1)..];
      assert events[2 * k..][1..][0] == write;
      assert steps[k..][1..] == steps[k + 1..];
      ReadThenWrite(m, k, items[k].Step());
      EventsInProgramOrder(Apply(Apply(m, read), write), items, k + 1);
    }
  }

  /** An execution of the list: some order of its events that the barriers allow. */
  ghost predicate IsExecution(items: seq<Item>, order: seq<nat>) {
    Allowed(2 * |items|, EventOrder(items), order)
  }

  lemma ProgramOrderIsExecution(items: seq<Item>)
    ensures IsExecution(items, Iota(0, 2 * |items|))
  {
    var order, before := Iota(0, 2 * |items|), EventOrder(items);
    forall p, q | 0 <= p < q < |order| ensures !before(order[q], order[p]) {
      assert order[q] == q && order[p] == p;
    }
    hide Iota, EventOrder;
  }

  function Outcome(items: seq<Item>, order: seq<nat>, mem: Memory): Memory
    requires Within(order, 2 * |items|)
  {
    Visible(ExecuteInOrder(Landed(mem), Events(items), order))
  }

  lemma VisibleLanded(mem: Memory)
    ensures Visible(Landed(mem)) == mem
  {
    forall l ensures (l in Visible(Landed(mem)) <==> l in mem) {
      VisibleAt(Landed(mem), l);
    }
  }

  /** Overlap and reordering are invisible in a list without races. */
  lemma OverlapIsInvisible(items: seq<Item>, order: seq<nat>, mem: Memory)
    requires RaceFree(items) && AllComplete(items) && IsExecution(items, order)
    ensures Within(order, 2 * |items|)
    ensures Outcome(items, order, mem) == Execute(mem, Steps(items))
  {
    EventsHazardFree(items);
    AnyAllowedOrderAgrees(Landed(mem), Events(items), EventOrder(items), order);
    EventsInProgramOrder(Landed(mem), items, 0);
    assert Events(items)[0..] == Events(items) && Steps(items)[0..] == Steps(items);
    VisibleLanded(mem);
    hide Events, Steps, Execute, ExecuteInOrder, Visible, Landed, RaceFree, AllComplete, HazardFree, IsExecution;
  }

  // ---- One layer in recording order ----

  lemma UnaryStep(mem: Memory, a: Loc, out: Loc, f: Map)
    ensures Apply(mem, Unary(a, out, f)) == mem[out := Half(f(HalfAt(mem, a)))]
  {
    assert HalfAt(Restrict(mem, {a}), a) == HalfAt(mem, a);
  }

  lemma BinaryStep(mem: Memory, a: Loc, b: Loc, out: Loc, f: (Vec, Vec) -> Vec)
    ensures Apply(mem, Binary(a, b, out, f)) == mem[out := Half(f(HalfAt(mem, a), HalfAt(mem, b)))]
  {
    assert HalfAt(Restrict(mem, {a, b}), a) == HalfAt(mem, a);
    assert HalfAt(Restrict(mem, {a, b}), b) == HalfAt(mem, b);
  }

  lemma BarrierStep(mem: Memory, b: Item)
    requires b.Barrier?
    ensures Apply(mem, b.Step()) == mem
  {}

  lemma SlotRowsRestrict(mem: Memory, keys: set<Loc>, slots: seq<Loc>)
    requires forall l | l in slots :: l in keys
    ensures SlotRows(Restrict(mem, keys), slots) == SlotRows(mem, slots)
  {
    forall t | 0 <= t < |slots| ensures HalfAt(Restrict(mem, keys), slots[t]) == HalfAt(mem, slots[t]) {
      assert slots[t] in slots;
    }
  }

  lemma ScoresStep(model: Model, mem: Memory, l: nat, pos: nat)
    ensures Apply(mem, ScoresCommand(model, l, pos)) ==
            mem[ScoreBuffer := Float(Scores(model, HalfAt(mem, Projection), SlotRows(mem, KeySlots(l, pos + 1))))]
  {
    hide Scores;
    var slots := KeySlots(l, pos + 1);
    SlotRowsRestrict(mem, {Projection} + Elements(slots), slots);
  }

  lemma ValuesStep(model: Model, mem: Memory, l: nat, pos: nat)
    ensures Apply(mem, ValuesCommand(model, l, pos)) ==
            mem[Attention := Half(MixScores(model, RowsAt(mem, ScoreBuffer), SlotRows(mem, ValueSlots(l, pos + 1))))]
  {
    hide MixScores;
    var slots := ValueSlots(l, pos + 1);
    SlotRowsRestrict(mem, {ScoreBuffer} + Elements(slots), slots);
  }

  /** Memory after the first `k` items of a list, run in recording order. */
  function After(items: seq<Item>, k: nat, mem: Memory): Memory
    requires k <= |items|
  {
    if k == 0 then mem else Apply(After(items, k - 1, mem), items[k - 1].Step())
  }

  lemma {:induction false} AfterIsExecute(items: seq<Item>, k: nat, mem: Memory)
    requires k <= |items|
    ensures Execute(After(items, k, mem), Steps(items)[k..]) == Execute(mem, Steps(items))
  {
    hide Apply;
    if k == 0 {
      assert Steps(items)[0..] == Steps(items);
    } else {
      AfterIsExecute(items, k - 1, mem);
      assert Steps(items)[k - 1..][1..] == Steps(items)[k..];
    }
  }

  /** Memory as the sequential semantics needs it: every scratch buffer, and the cache slots. */
  datatype Machine = Machine(
    x: Vec, norm: Vec, q: Vec, k: Vec, v: Vec, attention: Vec, projection: Vec,
    gate: Vec, up: Vec, activation: Vec, ffnOutput: Vec, scores: seq<seq<Score>>, slots: Memory)
  {
    function Get(l: Loc): Vec {
      match l
      case X => x
      case Norm => norm
      case Q => q
      case K => k
      case V => v
      case Attention => attention
      case Projection => projection
      case Gate => gate
      case Up => up
      case Activation => activation
      case FfnOutput => ffnOutput
      case ScoreBuffer => []
      case _ => HalfAt(slots, l)
    }

    function Put(l: Loc, cells: Vec): Machine {
      match l
      case X => this.(x := cells)
      case Norm => this.(norm := cells)
      case Q => this.(q := cells)
      case K => this.(k := cells)
      case V => this.(v := cells)
      case Attention => this.(attention := cells)
      case Projection => this.(projection := cells)
      case Gate => this.(gate := cells)
      case Up => this.(up := cells)
      case Activation => this.(activation := cells)
      case FfnOutput => this.(ffnOutput := cells)
      case ScoreBuffer => this.(scores := [])
      case _ => this.(slots := slots[l := Half(cells)])
    }
  }

  function CacheSlots(mem: Memory): Memory {
    map o | o in mem && (o.KSlot? || o.VSlot?) :: mem[o]
  }

  function MachineOf(mem: Memory): Machine {
    Machine(HalfAt(mem, X), HalfAt(mem, Norm), HalfAt(mem, Q), HalfAt(mem, K), HalfAt(mem, V),
            HalfAt(mem, Attention), HalfAt(mem, Projection), HalfAt(mem, Gate), HalfAt(mem, Up),
            HalfAt(mem, Activation), HalfAt(mem, FfnOutput), RowsAt(mem, ScoreBuffer), CacheSlots(mem))
  }

  lemma CacheSlotsUpdate(mem: Memory, l: Loc, c: Content)
    ensures CacheSlots(mem[l := c]) == if l.KSlot? || l.VSlot? then CacheSlots(mem)[l := c] else CacheSlots(mem)
  {}

  lemma HalfAtUpdate(mem: Memory, l: Loc, cells: Vec, o: Loc)
    ensures HalfAt(mem[l := Half(cells)], o) == if o == l then cells else HalfAt(mem, o)
  {}

  lemma RowsAtUpdate(mem: Memory, l: Loc, cells: Vec)
    ensures RowsAt(mem[l := Half(cells)], ScoreBuffer) == if l == ScoreBuffer then [] else RowsAt(mem, ScoreBuffer)
  {}

  lemma MachineUpdate(mem: Memory, l: Loc, cells: Vec)
    ensures MachineOf(mem[l := Half(cells)]) == MachineOf(mem).Put(l, cells)
  {
    var mem' := mem[l := Half(cells)];
    hide HalfAt, CacheSlots, RowsAt;
    CacheSlotsUpdate(mem, l, Half(cells));
    RowsAtUpdate(mem, l, cells);
    forall o ensures HalfAt(mem', o) == if o == l then cells else HalfAt(mem, o) {
      HalfAtUpdate(mem, l, cells, o);
    }
  }

  lemma MachineGet(mem: Memory, l: Loc)
    requires l != ScoreBuffer
    ensures MachineOf(mem).Get(l) == HalfAt(mem, l)
  {}

  /** `Put` and `Get` at the fixed buffers, one equation each. */
  lemma BufferFacts()
    ensures forall m: Machine, c: Vec {:trigger m.Put(X, c)} :: m.Put(X, c) == m.(x := c)
    ensures forall m: Machine, c: Vec {:trigger m.Put(Norm, c)} :: m.Put(Norm, c) == m.(norm := c)
    ensures forall m: Machine, c: Vec {:trigger m.Put(Q, c)} :: m.Put(Q, c) == m.(q := c)
    ensures forall m: Machine, c: Vec {:trigger m.Put(K, c)} :: m.Put(K, c) == m.(k := c)
    ensures forall m: Machine, c: Vec {:trigger m.Put(V, c)} :: m.Put(V, c) == m.(v := c)
    ensures forall m: Machine, c: Vec {:trigger m.Put(Attention, c)} :: m.Put(Attention, c) == m.(attention := c)
    ensures forall m: Machine, c: Vec {:trigger m.Put(Projection, c)} :: m.Put(Projection, c) == m.(projection := c)
    ensures forall m: Machine, c: Vec {:trigger m.Put(Gate, c)} :: m.Put(Gate, c) == m.(gate := c)
    ensures forall m: Machine, c: Vec {:trigger m.Put(Up, c)} :: m.Put(Up, c) == m.(up := c)
    ensures forall m: Machine, c: Vec {:trigger m.Put(Activation, c)} :: m.Put(Activation, c) == m.(activation := c)
    ensures forall m: Machine, c: Vec {:trigger m.Put(FfnOutput, c)} :: m.Put(FfnOutput, c) == m.(ffnOutput := c)
    ensures forall m: Machine, l: nat, t: nat, c: Vec {:trigger m.Put(KSlot(l, t), c)} ::
              m.Put(KSlot(l, t), c) == m.(slots := m.slots[KSlot(l, t) := Half(c)])
    ensures forall m: Machine, l: nat, t: nat, c: Vec {:trigger m.Put(VSlot(l, t), c)} ::
              m.Put(VSlot(l, t), c) == m.(slots := m.slots[VSlot(l, t) := Half(c)])
    ensures forall m: Machine {:trigger m.Get(X)} :: m.Get(X) == m.x
    ensures forall m: Machine {:trigger m.Get(Norm)} :: m.Get(Norm) == m.norm
    ensures forall m: Machine {:trigger m.Get(Q)} :: m.Get(Q) == m.q
    ensures forall m: Machine {:trigger m.Get(K)} :: m.Get(K) == m.k
    ensures forall m: Machine {:trigger m.Get(V)} :: m.Get(V) == m.v
    ensures forall m: Machine {:trigger m.Get(Attention)} :: m.Get(Attention) == m.attention
    ensures forall m: Machine {:trigger m.Get(Projection)} :: m.Get(Projection) == m.projection
    ensures forall m: Machine {:trigger m.Get(Gate)} :: m.Get(Gate) == m.gate
    ensures forall m: Machine {:trigger m.Get(Up)} :: m.Get(Up) == m.up
    ensures forall m: Machine {:trigger m.Get(Activation)} :: m.Get(Activation) == m.activation
    ensures forall m: Machine {:trigger m.Get(FfnOutput)} :: m.Get(FfnOutput) == m.ffnOutput
  {}

  /** The machine after the first `k` items. */
  function Reached(items: seq<Item>, k: nat, mem: Memory): Machine
    requires k <= |items|
  {
    MachineOf(After(items, k, mem))
  }

  lemma ReachedUnary(items: seq<Item>, k: nat, mem: Memory, a: Loc, out: Loc, f: Map)
    requires k < |items| && items[k].Step() == Unary(a, out, f) && a != ScoreBuffer
    ensures var m := Reached(items, k, mem); Reached(items, k + 1, mem) == m.Put(out, f(m.Get(a)))
  {
    var m := After(items, k, mem);
    UnaryStep(m, a, out, f);
    MachineGet(m, a);
    MachineUpdate(m, out, f(HalfAt(m, a)));
    hide MachineOf, HalfAt;
  }

  lemma ReachedBinary(
    items: seq<Item>, k: nat, mem: Memory, a: Loc, b: Loc, out: Loc, f: (Vec, Vec) -> Vec)
    requires k < |items| && items[k].Step() == Binary(a, b, out, f) && a != ScoreBuffer && b != ScoreBuffer
    ensures var m := Reached(items, k, mem); Reached(items, k + 1, mem) == m.Put(out, f(m.Get(a), m.Get(b)))
  {
    var m := After(items, k, mem);
    BinaryStep(m, a, b, out, f);
    MachineGet(m, a);
    MachineGet(m, b);
    MachineUpdate(m, out, f(HalfAt(m, a), HalfAt(m, b)));
    hide MachineOf, HalfAt;
  }

  lemma ReachedBarrier(items: seq<Item>, k: nat, mem: Memory)
    requires k < |items| && items[k].Barrier?
    ensures Reached(items, k + 1, mem) == Reached(items, k, mem)
  {
    BarrierStep(After(items, k, mem), items[k]);
  }

  lemma SlotRowsOfMachine(mem: Memory, slots: seq<Loc>)
    requires forall l | l in slots :: l.KSlot? || l.VSlot?
    ensures SlotRows(mem, slots) == SlotRows(CacheSlots(mem), slots)
  {
    forall t | 0 <= t < |slots| ensures HalfAt(mem, slots[t]) == HalfAt(CacheSlots(mem), slots[t]) {
      assert slots[t] in slots;
    }
  }

  lemma ReachedScores(model: Model, items: seq<Item>, k: nat, mem: Memory, l: nat, pos: nat)
    requires k < |items| && items[k].Step() == ScoresCommand(model, l, pos)
    ensures var m := Reached(items, k, mem);
            Reached(items, k + 1, mem) ==
              m.(scores := Scores(model, m.projection, SlotRows(m.slots, KeySlots(l, pos + 1))))
  {
    hide Scores, SlotRows, KeySlots, CacheSlots, After, MachineOf, HalfAt, RowsAt, ScoresCommand, Apply;
    var m := After(items, k, mem);
    AfterNext(items, k, mem);
    ScoresStep(model, m, l, pos);
    SlotRowsOfMachine(m, KeySlots(l, pos + 1));
    var rows := Scores(model, HalfAt(m, Projection), SlotRows(m, KeySlots(l, pos + 1)));
    MachineParts(m);
    MachineScores(m, rows);
  }

  lemma MachineScores(mem: Memory, rows: seq<seq<Score>>)
    ensures MachineOf(mem[ScoreBuffer := Float(rows)]) == MachineOf(mem).(scores := rows)
  {
    hide CacheSlots;
    CacheSlotsUpdate(mem, ScoreBuffer, Float(rows));
  }

  lemma MachineParts(mem: Memory)
    ensures var m := MachineOf(mem);
            m.projection == HalfAt(mem, Projection) && m.scores == RowsAt(mem, ScoreBuffer)
                && m.slots == CacheSlots(mem)
  {
    hide HalfAt, CacheSlots, RowsAt;
  }

  lemma ReachedValues(model: Model, items: seq<Item>, k: nat, mem: Memory, l: nat, pos: nat)
    requires k < |items| && items[k].Step() == ValuesCommand(model, l, pos)
    ensures var m := Reached(items, k, mem);
            Reached(items, k + 1, mem) ==
              m.(attention := MixScores(model, m.scores, SlotRows(m.slots, ValueSlots(l, pos + 1))))
  {
    hide MixScores, SlotRows, ValueSlots, CacheSlots, After, MachineOf, HalfAt, RowsAt, ValuesCommand, Apply;
    var m := After(items, k, mem);
    AfterNext(items, k, mem);
    ValuesStep(model, m, l, pos);
    SlotRowsOfMachine(m, ValueSlots(l, pos + 1));
    var cells := MixScores(model, RowsAt(m, ScoreBuffer), SlotRows(m, ValueSlots(l, pos + 1)));
    MachineParts(m);
    MachineUpdate(m, Attention, cells);
  }

  lemma AfterNext(items: seq<Item>, k: nat, mem: Memory)
    requires k < |items|
    ensures After(items, k + 1, mem) == Apply(After(items, k, mem), items[k].Step())
  {}

  /** A layer as remote layers are: no biases, and norms for the heads of queries and keys. */
  predicate RemoteForm(w: Weights) {
    && w.present !! {AttnQBias, AttnKBias, AttnVBias, AttnOBias, FfnGateBias, FfnUpBias, FfnDownBias}
    && QNorm in w.present && KNorm in w.present
  }

  lemma ProjectSteps(model: Model, l: nat, pos: nat)
    requires l < |model.layers|
    ensures var items, w := LayerItems(model, l, pos), model.layers[l];
            && items[0].Step() == Unary(X, Norm, Linear(w, AttnNorm))
            && items[1].Barrier?
            && items[2].Step() == Unary(Norm, Q, Linear(w, AttnQ))
            && items[3].Step() == Unary(Norm, K, Linear(w, AttnK))
            && items[4].Step() == Unary(Norm, V, Linear(w, AttnV))
            && items[5].Barrier?
  {
    hide Unary, Binary, ScoresCommand, ValuesCommand;
  }

  lemma RotateSteps(model: Model, l: nat, pos: nat)
    requires l < |model.layers|
    ensures var items, w, shape := LayerItems(model, l, pos), model.layers[l], model.shape;
            && items[6].Step() == Unary(Q, Q, Linear(w, QNorm))
            && items[7].Step() == Unary(K, K, Linear(w, KNorm))
            && items[8].Barrier?
            && items[9].Step() == Unary(Q, Projection, Rotate(model, shape.heads, pos))
            && items[10].Step() == Unary(K, Attention, Rotate(model, shape.kvHeads, pos))
            && items[11].Barrier?
  {
    hide Unary, Binary, ScoresCommand, ValuesCommand;
  }

  lemma AttendSteps(model: Model, l: nat, pos: nat)
    requires l < |model.layers|
    ensures var items := LayerItems(model, l, pos);
            && items[12].Step() == Unary(Attention, KSlot(l, pos), Identity())
            && items[13].Step() == Unary(V, VSlot(l, pos), Identity())
            && items[14].Barrier?
            && items[15].Step() == ScoresCommand(model, l, pos)
            && items[16].Barrier?
            && items[17].Step() == ValuesCommand(model, l, pos)
            && items[18].Barrier?
  {
    hide Unary, Binary, ScoresCommand, ValuesCommand;
  }

  lemma ResidualSteps(model: Model, l: nat, pos: nat)
    requires l < |model.layers|
    ensures var items, w, ops := LayerItems(model, l, pos), model.layers[l], model.ops;
            && items[19].Step() == Unary(Attention, Projection, Linear(w, AttnO))
            && items[20].Barrier?
            && items[21].Step() == Binary(X, Projection, X, ops.add)
            && items[22].Barrier?
            && items[23].Step() == Unary(X, Norm, Linear(w, FfnNorm))
            && items[24].Barrier?
  {
    hide Unary, Binary, ScoresCommand, ValuesCommand;
  }

  lemma FeedForwardSteps(model: Model, l: nat, pos: nat)
    requires l < |model.layers|
    ensures var items, w, ops := LayerItems(model, l, pos), model.layers[l], model.ops;
            && items[25].Step() == Unary(Norm, Gate, Linear(w, FfnGate))
            && items[26].Step() == Unary(Norm, Up, Linear(w, FfnUp))
            && items[27].Barrier?
            && items[28].Step() == Binary(Gate, Up, Activation, ops.swiglu)
            && items[29].Barrier?
            && items[30].Step() == Unary(Activation, FfnOutput, Linear(w, FfnDown))
            && items[31].Barrier?
            && items[32].Step() == Binary(X, FfnOutput, X, ops.add)
            && items[33].Barrier?
  {
    hide Unary, Binary, ScoresCommand, ValuesCommand;
  }

  /** The layer functions without bias terms, in the form the commands compute them. */
  lemma WithoutBias(model: Model, w: Weights, h: Vec, pos: nat)
    requires RemoteForm(w)
    ensures Query(model, w, h, pos)
            == Rotate(model, model.shape.heads, pos)(Linear(w, QNorm)(w.run(AttnQ, w.run(AttnNorm, h))))
    ensures Key(model, w, h, pos)
            == Rotate(model, model.shape.kvHeads, pos)(Linear(w, KNorm)(w.run(AttnK, w.run(AttnNorm, h))))
    ensures Value(w, h) == w.run(AttnV, w.run(AttnNorm, h))
  {}

  lemma FeedForwardWithoutBias(model: Model, w: Weights, x: Vec, attended: Vec)
    requires RemoteForm(w)
    ensures AttentionBlock(model, w, x, attended) == model.ops.add(x, w.run(AttnO, attended))
    ensures FeedForward(model, w, x) ==
            model.ops.add(x, w.run(FfnDown, model.ops.swiglu(
              w.run(FfnGate, w.run(FfnNorm, x)), w.run(FfnUp, w.run(FfnNorm, x)))))
  {}

  lemma ProjectInOrder(model: Model, l: nat, pos: nat, mem: Memory)
    requires l < |model.layers|
    ensures var items, w := LayerItems(model, l, pos), model.layers[l];
            var m, m' := Reached(items, 0, mem), Reached(items, 6, mem);
            var n := w.run(AttnNorm, m.x);
            && m'.x == m.x && m'.slots == m.slots
            && m'.q == w.run(AttnQ, n) && m'.k == w.run(AttnK, n) && m'.v == w.run(AttnV, n)
  {
    var items, w := LayerItems(model, l, pos), model.layers[l];
    BufferFacts();
    hide LayerItems, Apply, Unary, Reached, MachineOf, Machine.Put, Machine.Get;
    ProjectSteps(model, l, pos);
    ReachedUnary(items, 0, mem, X, Norm, Linear(w, AttnNorm));
    ReachedBarrier(items, 1, mem);
    ReachedUnary(items, 2, mem, Norm, Q, Linear(w, AttnQ));
    ReachedUnary(items, 3, mem, Norm, K, Linear(w, AttnK));
    ReachedUnary(items, 4, mem, Norm, V, Linear(w, AttnV));
    ReachedBarrier(items, 5, mem);
  }

  lemma RotateInOrder(model: Model, l: nat, pos: nat, mem: Memory)
    requires l < |model.layers|
    ensures var w, shape, items := model.layers[l], model.shape, LayerItems(model, l, pos);
            var m, m' := Reached(items, 6, mem), Reached(items, 12, mem);
            && m'.x == m.x && m'.v == m.v && m'.slots == m.slots
            && m'.projection == Rotate(model, shape.heads, pos)(Linear(w, QNorm)(m.q))
            && m'.attention == Rotate(model, shape.kvHeads, pos)(Linear(w, KNorm)(m.k))
  {
    var items, w, shape := LayerItems(model, l, pos), model.layers[l], model.shape;
    BufferFacts();
    hide LayerItems, Apply, Unary, Reached, Machine.Put, Machine.Get, Rotate;
    RotateSteps(model, l, pos);
    ReachedUnary(items, 6, mem, Q, Q, Linear(w, QNorm));
    ReachedUnary(items, 7, mem, K, K, Linear(w, KNorm));
    ReachedBarrier(items, 8, mem);
    ReachedUnary(items, 9, mem, Q, Projection, Rotate(model, shape.heads, pos));
    ReachedUnary(items, 10, mem, K, Attention, Rotate(model, shape.kvHeads, pos));
    ReachedBarrier(items, 11, mem);
  }

  lemma AttentionInOrder(model: Model, l: nat, pos: nat, mem: Memory)
    requires l < |model.layers|
    ensures var items := LayerItems(model, l, pos);
            var m, m' := Reached(items, 12, mem), Reached(items, 19, mem);
            && m'.x == m.x
            && m'.slots == m.slots[KSlot(l, pos) := Half(m.attention)][VSlot(l, pos) := Half(m.v)]
            && m'.attention == Mixed(model, Scores(model, m.projection, SlotRows(m'.slots, KeySlots(l, pos + 1))),
                                     SlotRows(m'.slots, ValueSlots(l, pos + 1)))
  {
    var items := LayerItems(model, l, pos);
    BufferFacts();
    hide LayerItems, Apply, Unary, Reached, Machine.Put, Machine.Get, ScoresCommand, ValuesCommand;
    hide Scores, Mixed, SlotRows, KeySlots, ValueSlots;
    AttendSteps(model, l, pos);
    ReachedUnary(items, 12, mem, Attention, KSlot(l, pos), Identity());
    ReachedUnary(items, 13, mem, V, VSlot(l, pos), Identity());
    ReachedBarrier(items, 14, mem);
    ReachedScores(model, items, 15, mem, l, pos);
    ReachedBarrier(items, 16, mem);
    ReachedValues(model, items, 17, mem, l, pos);
    ReachedBarrier(items, 18, mem);
  }

  lemma ResidualInOrder(model: Model, l: nat, pos: nat, mem: Memory)
    requires l < |model.layers|
    ensures var items, w, ops := LayerItems(model, l, pos), model.layers[l], model.ops;
            var m, m' := Reached(items, 19, mem), Reached(items, 25, mem);
            var x := ops.add(m.x, w.run(AttnO, m.attention));
            m'.x == x && m'.norm == w.run(FfnNorm, x) && m'.slots == m.slots
  {
    var items, w, ops := LayerItems(model, l, pos), model.layers[l], model.ops;
    BufferFacts();
    hide LayerItems, Apply, Unary, Binary, Reached, Machine.Put, Machine.Get;
    ResidualSteps(model, l, pos);
    ReachedUnary(items, 19, mem, Attention, Projection, Linear(w, AttnO));
    ReachedBarrier(items, 20, mem);
    ReachedBinary(items, 21, mem, X, Projection, X, ops.add);
    ReachedBarrier(items, 22, mem);
    ReachedUnary(items, 23, mem, X, Norm, Linear(w, FfnNorm));
    ReachedBarrier(items, 24, mem);
  }

  lemma FeedForwardInOrder(model: Model, l: nat, pos: nat, mem: Memory)
    requires l < |model.layers|
    ensures var items, w, ops := LayerItems(model, l, pos), model.layers[l], model.ops;
            var m, m' := Reached(items, 25, mem), Reached(items, LAYER_ITEMS, mem);
            && m'.x == ops.add(m.x, w.run(FfnDown, ops.swiglu(w.run(FfnGate, m.norm), w.run(FfnUp, m.norm))))
            && m'.slots == m.slots
  {
    var items, w, ops := LayerItems(model, l, pos), model.layers[l], model.ops;
    BufferFacts();
    hide LayerItems, Apply, Unary, Binary, Reached, Machine.Put, Machine.Get;
    FeedForwardSteps(model, l, pos);
    ReachedUnary(items, 25, mem, Norm, Gate, Linear(w, FfnGate));
    ReachedUnary(items, 26, mem, Norm, Up, Linear(w, FfnUp));
    ReachedBarrier(items, 27, mem);
    ReachedBinary(items, 28, mem, Gate, Up, Activation, ops.swiglu);
    ReachedBarrier(items, 29, mem);
    ReachedUnary(items, 30, mem, Activation, FfnOutput, Linear(w, FfnDown));
    ReachedBarrier(items, 31, mem);
    ReachedBinary(items, 32, mem, X, FfnOutput, X, ops.add);
    ReachedBarrier(items, 33, mem);
  }

  /** In recording order a layer computes `LayerOutput` and fills its two slots of this position. */
  lemma LayerInOrder(model: Model, l: nat, pos: nat, mem: Memory)
    requires l < |model.layers| && RemoteForm(model.layers[l])
    ensures var w, m, m' := model.layers[l], MachineOf(mem), MachineOf(Execute(mem, Steps(LayerItems(model, l, pos))));
            && m'.slots == m.slots[KSlot(l, pos) := Half(Key(model, w, m.x, pos))][VSlot(l, pos) := Half(Value(w, m.x))]
            && m'.x == LayerOutput(model, w, m.x, pos, SlotRows(m'.slots, KeySlots(l, pos + 1)),
                                   SlotRows(m'.slots, ValueSlots(l, pos + 1)))
  {
    var items, w, m := LayerItems(model, l, pos), model.layers[l], MachineOf(mem);
    AfterIsExecute(items, LAYER_ITEMS, mem);
    assert Steps(items)[LAYER_ITEMS..] == [];
    assert MachineOf(Execute(mem, Steps(items))) == Reached(items, LAYER_ITEMS, mem);
    assert Reached(items, 0, mem) == m;
    WithoutBias(model, w, m.x, pos);
    var r := Reached(items, 19, mem);
    FeedForwardWithoutBias(model, w, m.x, r.attention);
    FeedForwardWithoutBias(model, w, AttentionBlock(model, w, m.x, r.attention), []);
    ProjectInOrder(model, l, pos, mem);
    RotateInOrder(model, l, pos, mem);
    AttentionInOrder(model, l, pos, mem);
    ResidualInOrder(model, l, pos, mem);
    FeedForwardInOrder(model, l, pos, mem);
    hide LayerItems, Steps, Execute, Reached, MachineOf, Key, Value, Query, FeedForward, AttentionBlock, RemoteForm;
    hide Scores, Mixed, SlotRows, KeySlots, ValueSlots, Rotate;
  }

  // ---- A range of layers ----

  /** The cache slots once layer `l` has stored its key and value for position `pos`. */
  ghost function FillSlots(model: Model, l: nat, pos: nat, x: Vec, slots: Memory): Memory
    requires l < |model.layers|
  {
    slots[KSlot(l, pos) := Half(Key(model, model.layers[l], x, pos))][VSlot(l, pos) := Half(Value(model.layers[l], x))]
  }

  ghost function LayerFromSlots(model: Model, l: nat, pos: nat, x: Vec, slots: Memory): Vec
    requires l < |model.layers|
  {
    LayerOutput(model, model.layers[l], x, pos, SlotRows(slots, KeySlots(l, pos + 1)),
        SlotRows(slots, ValueSlots(l, pos + 1)))
  }

  /** The hidden state and the cache slots after layers `first .. first + n - 1`, one at a time. */
  ghost function RunLayers(model: Model, first: nat, n: nat, pos: nat, x: Vec, slots: Memory): (Vec, Memory)
    requires first + n <= |model.layers|
    decreases n
  {
    if n == 0 then (x, slots)
    else
      var slots' := FillSlots(model, first, pos, x, slots);
      RunLayers(model, first + 1, n - 1, pos, LayerFromSlots(model, first, pos, x, slots'), slots')
  }

  ghost predicate RangeInRemoteForm(model: Model, first: nat, n: nat)
    requires first + n <= |model.layers|
  {
    forall l | first <= l < first + n :: RemoteForm(model.layers[l])
  }

  lemma StepsConcat(a: seq<Item>, b: seq<Item>)
    ensures Steps(a + b) == Steps(a) + Steps(b)
  {}

  lemma {:induction false} RangeInOrder(model: Model, first: nat, n: nat, pos: nat, mem: Memory)
    requires first + n <= |model.layers| && RangeInRemoteForm(model, first, n)
    ensures var m' := MachineOf(Execute(mem, Steps(Recorded(model, first, n, pos))));
            (m'.x, m'.slots) == RunLayers(model, first, n, pos, MachineOf(mem).x, MachineOf(mem).slots)
    decreases n
  {
    hide LayerItems, MachineOf, LayerOutput, Key, Value, SlotRows, KeySlots, ValueSlots, Apply;
    if n > 0 {
      var layer, rest := LayerItems(model, first, pos), Recorded(model, first + 1, n - 1, pos);
      StepsConcat(layer, rest);
      ExecuteConcat(mem, Steps(layer), Steps(rest));
      LayerInOrder(model, first, pos, mem);
      RangeInOrder(model, first + 1, n - 1, pos, Execute(mem, Steps(layer)));
      hide Steps, Execute;
    }
  }

  lemma StepsComplete(model: Model, l: nat, pos: nat, r: nat)
    requires l < |model.layers| && r < LAYER_ITEMS
    ensures Complete(LayerItems(model, l, pos)[r].Step())
  {
    hide Linear, Rotate, Complete;
    if r < 17 { EarlyStepsComplete(model, l, pos, r); } else { LateStepsComplete(model, l, pos, r); }
    hide LayerItems;
  }

  lemma EarlyStepsComplete(model: Model, l: nat, pos: nat, r: nat)
    requires l < |model.layers| && r < 17
    ensures Complete(LayerItems(model, l, pos)[r].Step())
  {
    hide Unary, Binary, ScoresCommand, ValuesCommand, Complete;
    KindsAreComplete();
    SlotCommandsAreComplete(model, l, pos);
    BarrierIsComplete(LayerItems(model, l, pos)[r]);
  }

  /** Every kind of command writes all its outputs. */
  lemma KindsAreComplete()
    ensures forall a: Loc, out: Loc, f: Map {:trigger Unary(a, out, f)} :: Complete(Unary(a, out, f))
    ensures forall a: Loc, b: Loc, out: Loc, f: (Vec, Vec) -> Vec {:trigger Binary(a, b, out, f)} ::
              Complete(Binary(a, b, out, f))
  {}

  lemma BarrierIsComplete(item: Item)
    ensures item.Barrier? ==> Complete(item.Step())
  {}

  lemma SlotCommandsAreComplete(model: Model, l: nat, pos: nat)
    ensures Complete(ScoresCommand(model, l, pos)) && Complete(ValuesCommand(model, l, pos))
  {}

  lemma LateStepsComplete(model: Model, l: nat, pos: nat, r: nat)
    requires l < |model.layers| && 17 <= r < LAYER_ITEMS
    ensures Complete(LayerItems(model, l, pos)[r].Step())
  {
    hide Unary, Binary, ScoresCommand, ValuesCommand, Complete;
    KindsAreComplete();
    SlotCommandsAreComplete(model, l, pos);
    BarrierIsComplete(LayerItems(model, l, pos)[r]);
  }

  lemma RecordedComplete(model: Model, first: nat, n: nat, pos: nat)
    requires first + n <= |model.layers|
    ensures AllComplete(Recorded(model, first, n, pos))
  {
    hide LayerItems, Recorded, Complete;
    forall i | 0 <= i < LAYER_ITEMS * n ensures Complete(Recorded(model, first, n, pos)[i].Step()) {
      var a, r := i / LAYER_ITEMS, i % LAYER_ITEMS;
      RecordedAt(model, first, n, pos, a, r);
      StepsComplete(model, first + a, pos, r);
    }
  }

  lemma RecordedRaceFree(model: Model, first: nat, n: nat, pos: nat)
    requires first + n <= |model.layers|
    ensures RaceFree(Recorded(model, first, n, pos))
  {
    hide Recorded, Conflict, Synchronised;
    var items := Recorded(model, first, n, pos);
    forall i, j | 0 <= i < j < |items| && Conflict(items[i].Step(), items[j].Step()) ensures Synchronised(items, i, j) {
      NoHazard(model, first, n, pos, i, j);
    }
  }

  /** Main result: whatever overlap and order the barriers allow, the recorded list runs the layers
      one after the other and touches no cache slot but those of this position. */
  lemma AnyExecutionRunsLayers(model: Model, first: nat, n: nat, pos: nat, order: seq<nat>, mem: Memory)
    requires first + n <= |model.layers| && RangeInRemoteForm(model, first, n)
    requires IsExecution(Recorded(model, first, n, pos), order)
    ensures Within(order, 2 * |Recorded(model, first, n, pos)|)
    ensures var m' := MachineOf(Outcome(Recorded(model, first, n, pos), order, mem));
            (m'.x, m'.slots) == RunLayers(model, first, n, pos, MachineOf(mem).x, MachineOf(mem).slots)
  {
    hide Recorded, MachineOf, RunLayers, Execute, Steps, IsExecution, Outcome;
    RecordedRaceFree(model, first, n, pos);
    RecordedComplete(model, first, n, pos);
    OverlapIsInvisible(Recorded(model, first, n, pos), order, mem);
    RangeInOrder(model, first, n, pos, mem);
  }
}
