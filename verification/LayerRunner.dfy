/** The remote machine's layer runner: it keeps a key/value cache for each layer between calls. */
module LayerRunner {
  import opened Words
  import opened Schedules
  import opened Transformer
  import opened LayerRecording
  import opened LayerExecution
  import C = Capacity
  import Codecs
  import L = LayerTensors
  import S = TensorStore

  // ---- Cache slots against recomputation ----

  /** The slots of layer `l` hold the keys and values of the first `n` positions of `tokens`. */
  ghost predicate SlotsHold(model: Model, tokens: seq<nat>, l: nat, n: nat, slots: Memory) {
    && l < |model.layers| && n <= |tokens|
    && SlotRows(slots, KeySlots(l, n)) == Keys(model, tokens, l, n)
    && SlotRows(slots, ValueSlots(l, n)) == Values(model, tokens, l, n)
  }

  ghost predicate SameLayerSlots(l: nat, a: Memory, b: Memory) {
    forall t: nat :: HalfAt(a, KSlot(l, t)) == HalfAt(b, KSlot(l, t))
        && HalfAt(a, VSlot(l, t)) == HalfAt(b, VSlot(l, t))
  }

  lemma SlotsHoldFrame(model: Model, tokens: seq<nat>, l: nat, n: nat, a: Memory, b: Memory)
    requires SlotsHold(model, tokens, l, n, a) && SameLayerSlots(l, a, b)
    ensures SlotsHold(model, tokens, l, n, b)
  {
    hide Keys, Values, HalfAt;
    assert SlotRows(b, KeySlots(l, n)) == SlotRows(a, KeySlots(l, n));
    assert SlotRows(b, ValueSlots(l, n)) == SlotRows(a, ValueSlots(l, n));
  }

  /** Writing the slots of position `p` extends what the cache holds by one position. */
  lemma SlotsExtend(model: Model, tokens: seq<nat>, l: nat, p: nat, slots: Memory)
    requires p < |tokens| && SlotsHold(model, tokens, l, p, slots)
    ensures SlotsHold(model, tokens, l, p + 1, FillSlots(model, l, p, Hidden(model, tokens, l, p), slots))
  {
    hide Key, Value, Hidden;
    var slots' := FillSlots(model, l, p, Hidden(model, tokens, l, p), slots);
    var ks, vs := SlotRows(slots', KeySlots(l, p + 1)), SlotRows(slots', ValueSlots(l, p + 1));
    forall t | 0 <= t < p + 1
      ensures ks[t] == Keys(model, tokens, l, p + 1)[t] && vs[t] == Values(model, tokens, l, p + 1)[t]
    {
      if t < p {
        assert ks[t] == SlotRows(slots, KeySlots(l, p))[t];
        assert vs[t] == SlotRows(slots, ValueSlots(l, p))[t];
      }
    }
  }

  lemma LayerAgrees(model: Model, tokens: seq<nat>, l: nat, p: nat, slots: Memory)
    requires p < |tokens| && SlotsHold(model, tokens, l, p, slots)
    ensures var h := Hidden(model, tokens, l, p);
            LayerFromSlots(model, l, p, h, FillSlots(model, l, p, h, slots)) == Hidden(model, tokens, l + 1, p)
  {
    SlotsExtend(model, tokens, l, p, slots);
    HiddenStep(model, tokens, l + 1, p);
    hide LayerOutput, Hidden, FillSlots, SlotRows, KeySlots, ValueSlots;
  }

  lemma FillKeepsOthers(model: Model, l: nat, p: nat, x: Vec, slots: Memory, o: nat)
    requires l < |model.layers| && o != l
    ensures SameLayerSlots(o, slots, FillSlots(model, l, p, x, slots))
  {}

  ghost predicate RangeHolds(model: Model, tokens: seq<nat>, first: nat, n: nat, count: nat, slots: Memory) {
    forall l | first <= l < first + n :: SlotsHold(model, tokens, l, count, slots)
  }

  ghost predicate OthersKept(first: nat, n: nat, a: Memory, b: Memory) {
    forall l: nat | !(first <= l < first + n) :: SameLayerSlots(l, a, b)
  }

  lemma FillRange(model: Model, tokens: seq<nat>, first: nat, n: nat, p: nat, x: Vec, slots: Memory)
    requires first < |model.layers| && 0 < n && RangeHolds(model, tokens, first, n, p, slots)
    ensures RangeHolds(model, tokens, first + 1, n - 1, p, FillSlots(model, first, p, x, slots))
  {
    var slots' := FillSlots(model, first, p, x, slots);
    hide SlotsHold, FillSlots, SameLayerSlots;
    forall l | first + 1 <= l < first + n ensures SlotsHold(model, tokens, l, p, slots') {
      FillKeepsOthers(model, first, p, x, slots, l);
      SlotsHoldFrame(model, tokens, l, p, slots, slots');
    }
  }

  lemma OthersKeptCompose(model: Model, first: nat, n: nat, p: nat, x: Vec, a: Memory, c: Memory)
    requires first < |model.layers| && 0 < n && OthersKept(first + 1, n - 1, FillSlots(model, first, p, x, a), c)
    ensures OthersKept(first, n, a, c)
  {
    var b := FillSlots(model, first, p, x, a);
    hide FillSlots;
    forall l: nat | !(first <= l < first + n) ensures SameLayerSlots(l, a, c) {
      FillKeepsOthers(model, first, p, x, a, l);
      assert SameLayerSlots(l, b, c);
    }
  }

  /** A range of layers run on caches that hold positions 0..p-1 computes what starting afresh
      computes, leaves caches that hold positions 0..p, and keeps the caches of other layers. */
  lemma {:induction false} RangeAgrees(model: Model, tokens: seq<nat>, first: nat, n: nat, p: nat, slots: Memory)
    requires first + n <= |model.layers| && p < |tokens| && RangeHolds(model, tokens, first, n, p, slots)
    ensures var r := RunLayers(model, first, n, p, Hidden(model, tokens, first, p), slots);
            && r.0 == Hidden(model, tokens, first + n, p)
            && RangeHolds(model, tokens, first, n, p + 1, r.1)
            && OthersKept(first, n, slots, r.1)
    decreases n
  {
    hide SlotsHold, SameLayerSlots, Hidden, FillSlots, LayerFromSlots;
    if n == 0 {
      SameSlotsReflexive(slots);
    } else {
      var x := Hidden(model, tokens, first, p);
      var slots' := FillSlots(model, first, p, x, slots);
      LayerAgrees(model, tokens, first, p, slots);
      SlotsExtend(model, tokens, first, p, slots);
      FillRange(model, tokens, first, n, p, x, slots);
      RangeAgrees(model, tokens, first + 1, n - 1, p, slots');
      var end := RunLayers(model, first + 1, n - 1, p, Hidden(model, tokens, first + 1, p), slots').1;
      assert SameLayerSlots(first, slots', end);
      SlotsHoldFrame(model, tokens, first, p + 1, slots', end);
      OthersKeptCompose(model, first, n, p, x, slots, end);
    }
  }

  lemma SameSlotsReflexive(slots: Memory)
    ensures forall l: nat :: SameLayerSlots(l, slots, slots)
  {}

  // ---- The runner ----

  /** Bookkeeping of one layer's cache: what it was last sized for and how many cells it has room for. */
  datatype Runtime = Runtime(maxContext: nat, kvElements: nat, capacity: Option<nat>)

  predicate SizedFor(runtimes: map<nat, Runtime>, l: nat, maxContext: nat, kvElements: nat) {
    l in runtimes && runtimes[l].maxContext == maxContext && runtimes[l].kvElements == kvElements
  }

  predicate IsSlotOf(o: Loc, l: nat) {
    (o.KSlot? || o.VSlot?) && o.layer == l
  }

  /** Memory after layer `l` got new cache buffers, whose content is whatever `residue` says. */
  function Reallocated(mem: Memory, l: nat, residue: Memory): Memory {
    (map o | o in mem && !IsSlotOf(o, l) :: mem[o]) + (map o | o in residue && IsSlotOf(o, l) :: residue[o])
  }

  /** Memory whose scratch buffers hold whatever `residue` says and whose X holds the input. */
  function Uploaded(mem: Memory, residue: Memory, input: Vec): Memory {
    CacheSlots(mem) + (map o | o in residue && !o.KSlot? && !o.VSlot? :: residue[o]) + map[X := Half(input)]
  }

  lemma ReallocatedKeepsOthers(mem: Memory, l: nat, residue: Memory, o: nat)
    requires o != l
    ensures SameLayerSlots(o, CacheSlots(mem), CacheSlots(Reallocated(mem, l, residue)))
  {}

  lemma UploadedMachine(mem: Memory, residue: Memory, input: Vec)
    ensures HalfAt(Uploaded(mem, residue, input), X) == input
    ensures CacheSlots(Uploaded(mem, residue, input)) == CacheSlots(mem)
  {}

  lemma RecordedNone(model: Model, first: nat, pos: nat)
    requires first <= |model.layers|
    ensures Recorded(model, first, 0, pos) == []
  {}

  lemma {:induction false} RecordedSnoc(model: Model, first: nat, n: nat, pos: nat)
    requires first + n + 1 <= |model.layers|
    ensures Recorded(model, first, n + 1, pos) == Recorded(model, first, n, pos) + LayerItems(model, first + n, pos)
    decreases n
  {
    hide LayerItems;
    if n == 0 {
      assert Recorded(model, first + 1, 0, pos) == [];
    } else {
      RecordedSnoc(model, first + 1, n - 1, pos);
    }
  }

  /** The layers `first ..< end` are being sized for these dimensions. */
  datatype Sizing = Sizing(first: nat, end: nat, maxContext: nat, kvElements: nat)

  ghost predicate SameRuntime(o: nat, a: map<nat, Runtime>, b: map<nat, Runtime>) {
    (o in a <==> o in b) && (o in a ==> a[o] == b[o])
  }

  /** What sizing layers may change: their own bookkeeping, and the caches of those that were sized
      differently before. */
  ghost predicate Prepared(
    z: Sizing, runtimes0: map<nat, Runtime>, caches0: Memory, runtimes: map<nat, Runtime>, caches: Memory)
  {
    && (forall o: nat | z.first <= o < z.end :: SizedFor(runtimes, o, z.maxContext, z.kvElements))
    && (forall o: nat | !(z.first <= o < z.end) :: SameRuntime(o, runtimes0, runtimes))
    && (forall o: nat | !(z.first <= o < z.end) || SizedFor(runtimes0, o, z.maxContext, z.kvElements) ::
          SameLayerSlots(o, caches0, caches))
  }

  lemma PreparedNothing(first: nat, maxContext: nat, kvElements: nat, runtimes: map<nat, Runtime>, caches: Memory)
    ensures Prepared(Sizing(first, first, maxContext, kvElements), runtimes, caches, runtimes, caches)
  {
    SameSlotsReflexive(caches);
    hide SameLayerSlots;
  }

  lemma PreparedStep(
    z: Sizing, runtimes0: map<nat, Runtime>, caches0: Memory,
    runtimes1: map<nat, Runtime>, caches1: Memory, runtimes2: map<nat, Runtime>, caches2: Memory)
    requires z.first <= z.end && Prepared(z, runtimes0, caches0, runtimes1, caches1)
    requires Prepared(Sizing(z.end, z.end + 1, z.maxContext, z.kvElements), runtimes1, caches1, runtimes2, caches2)
    ensures Prepared(z.(end := z.end + 1), runtimes0, caches0, runtimes2, caches2)
  {
    var z' := z.(end := z.end + 1);
    forall o: nat | z'.first <= o < z'.end ensures SizedFor(runtimes2, o, z.maxContext, z.kvElements) {
      if o < z.end {
        assert SameRuntime(o, runtimes1, runtimes2) && SizedFor(runtimes1, o, z.maxContext, z.kvElements);
      }
    }
    forall o: nat | !(z'.first <= o < z'.end) ensures SameRuntime(o, runtimes0, runtimes2) {
      assert SameRuntime(o, runtimes0, runtimes1) && SameRuntime(o, runtimes1, runtimes2);
    }
    forall o: nat | !(z'.first <= o < z'.end) || SizedFor(runtimes0, o, z.maxContext, z.kvElements)
      ensures SameLayerSlots(o, caches0, caches2)
    {
      assert SameLayerSlots(o, caches0, caches1);
      if o == z.end { assert SameRuntime(o, runtimes0, runtimes1); }
      assert SameLayerSlots(o, caches1, caches2);
    }
  }

  /** The cache of one layer as a caller relies on it: filled for `n` positions and, once in use, not
      to be resized. */
  ghost predicate Holds(
    model: Model, tokens: seq<nat>, l: nat, n: nat, maxContext: nat, runtimes: map<nat, Runtime>, caches: Memory)
  {
    SlotsHold(model, tokens, l, n, caches) && (n > 0 ==> SizedFor(runtimes, l, maxContext, model.shape.KvSize()))
  }

  lemma HoldsNothing(
    model: Model, tokens: seq<nat>, l: nat, maxContext: nat, runtimes: map<nat, Runtime>, caches: Memory)
    requires l < |model.layers|
    ensures Holds(model, tokens, l, 0, maxContext, runtimes, caches)
  {}

  ghost predicate RangeHeld(
    model: Model, tokens: seq<nat>, z: Sizing, n: nat, runtimes: map<nat, Runtime>, caches: Memory)
  {
    forall l | z.first <= l < z.end :: Holds(model, tokens, l, n, z.maxContext, runtimes, caches)
  }

  ghost predicate OthersHeld(
    model: Model, tokens: seq<nat>, z: Sizing,
    runtimes0: map<nat, Runtime>, caches0: Memory, runtimes: map<nat, Runtime>, caches: Memory)
  {
    forall l: nat, n: nat | !(z.first <= l < z.end) && Holds(model, tokens, l, n, z.maxContext, runtimes0, caches0) ::
      Holds(model, tokens, l, n, z.maxContext, runtimes, caches)
  }

  /** A run over a prepared range: correct output, the range's caches one position longer, every
      other layer's cache as it was. */
  lemma PreparedRangeAgrees(
    model: Model, tokens: seq<nat>, z: Sizing, p: nat,
    runtimes0: map<nat, Runtime>, caches0: Memory, runtimes: map<nat, Runtime>, prepared: Memory)
    requires z.first < z.end <= |model.layers| && p < |tokens| && z.kvElements == model.shape.KvSize()
    requires RangeHeld(model, tokens, z, p, runtimes0, caches0)
    requires Prepared(z, runtimes0, caches0, runtimes, prepared)
    ensures var r := RunLayers(model, z.first, z.end - z.first, p, Hidden(model, tokens, z.first, p), prepared);
            && r.0 == Hidden(model, tokens, z.end, p)
            && RangeHeld(model, tokens, z, p + 1, runtimes, r.1)
            && OthersHeld(model, tokens, z, runtimes0, caches0, runtimes, r.1)
  {
    var n := z.end - z.first;
    hide SlotsHold, SameLayerSlots, Hidden, RunLayers, SizedFor, SameRuntime;
    forall l: nat | z.first <= l < z.first + n ensures SlotsHold(model, tokens, l, p, prepared) {
      assert Holds(model, tokens, l, p, z.maxContext, runtimes0, caches0);
      if p > 0 {
        SlotsHoldFrame(model, tokens, l, p, caches0, prepared);
      } else {
        HoldsNothing(model, tokens, l, z.maxContext, runtimes, prepared);
      }
    }
    RangeAgrees(model, tokens, z.first, n, p, prepared);
    var r := RunLayers(model, z.first, n, p, Hidden(model, tokens, z.first, p), prepared);
    forall l: nat, k: nat | !(z.first <= l < z.end) && Holds(model, tokens, l, k, z.maxContext, runtimes0, caches0)
      ensures Holds(model, tokens, l, k, z.maxContext, runtimes, r.1)
    {
      assert SameRuntime(l, runtimes0, runtimes) && SameLayerSlots(l, caches0, prepared);
      SlotsHoldFrame(model, tokens, l, k, caches0, prepared);
      SlotsHoldFrame(model, tokens, l, k, prepared, r.1);
      SizedForFrame(l, z.maxContext, z.kvElements, runtimes0, runtimes);
    }
  }

  lemma SizedForFrame(l: nat, maxContext: nat, kv: nat, a: map<nat, Runtime>, b: map<nat, Runtime>)
    requires SameRuntime(l, a, b)
    ensures SizedFor(a, l, maxContext, kv) <==> SizedFor(b, l, maxContext, kv)
  {}

  lemma SubmissionMeaning(
    model: Model, first: nat, n: nat, position: nat, mem: Memory, residue: Memory, input: Vec, order: seq<nat>)
    requires first + n <= |model.layers| && RangeInRemoteForm(model, first, n)
    requires IsExecution(Recorded(model, first, n, position), order)
    ensures Within(order, 2 * |Recorded(model, first, n, position)|)
    ensures var m := Outcome(Recorded(model, first, n, position), order, Uploaded(mem, residue, input));
            (HalfAt(m, X), CacheSlots(m)) == RunLayers(model, first, n, position, input, CacheSlots(mem))
  {
    UploadedMachine(mem, residue, input);
    var start := Uploaded(mem, residue, input);
    hide Recorded, Outcome, Uploaded, RunLayers, RangeInRemoteForm, IsExecution, CacheSlots, HalfAt;
    AnyExecutionRunsLayers(model, first, n, position, order, start);
  }

  /** The layers in a store are layers of the model, without biases. */
  ghost predicate Runnable(model: Model, names: map<Bytes, U32>) {
    forall l: nat | L.LayerLoaded(names, l) :: l < |model.layers| && RemoteForm(model.layers[l])
  }

  lemma RunnableLayer(model: Model, store: S.State, d: C.Dims, l: nat)
    requires Runnable(model, store.names) && L.LayerFault(store, d, l).None?
    ensures l < |model.layers| && RemoteForm(model.layers[l])
  {
    hide L.LayerLoaded, L.LayerFits, RemoteForm;
  }

  /** How the device orders the events of its k-th request, what new memory contains, and whether
      anything goes wrong that does not depend on the request's dimensions and tensors. */
  datatype Device = Device(schedule: (nat, seq<Item>) -> seq<nat>, residue: nat -> Memory, fails: nat -> bool)

  /** The device executes each submission in some order its barriers allow. */
  ghost predicate ObeysBarriers(device: Device) {
    forall k: nat, items: seq<Item> :: IsExecution(items, device.schedule(k, items))
  }

  /** A request of the model's dimensions, in 32-bit words; the width is taken from the input. */
  function DimsOf(s: Shape, width: nat, maxContext: nat): C.Dims {
    C.Dims(width % C.TWO32, s.ffn % C.TWO32, s.heads % C.TWO32, s.kvHeads % C.TWO32, s.headDim % C.TWO32,
           maxContext % C.TWO32)
  }

  /** The entry check of a run beyond its range and position. */
  predicate Admitted(s: Shape, width: nat, maxContext: nat) {
    DimsOf(s, width, maxContext).Admissible() && !Codecs.NotPositive(s.epsilon)
  }

  class Runner {
    const model: Model
    const device: Device
    const store: S.TensorStore
    var mem: Memory
    var runtimes: map<nat, Runtime>
    var commands: seq<Item>
    var submissions: nat

    ghost predicate Valid()
      reads store
    {
      store.Valid() && Runnable(model, store.names) && ObeysBarriers(device)
    }

    /** All tensors of a layer are stored, with the shapes a run asks for. */
    ghost predicate Ready(l: nat, d: C.Dims)
      reads store
    {
      L.LayerFault(store.Contents(), d, l).None?
    }

    ghost predicate RangeReady(first: nat, last: nat, d: C.Dims)
      reads store
    {
      forall l | first <= l <= last :: Ready(l, d)
    }

    /** What a run over a range of the model asks for before the device comes in. */
    ghost predicate Accepts(first: nat, last: nat, position: nat, maxContext: nat, width: nat)
      reads store
    {
      && first <= last && position < maxContext && Admitted(model.shape, width, maxContext)
      && RangeReady(first, last, DimsOf(model.shape, width, maxContext))
    }

    ghost function Caches(): Memory
      reads this
    {
      CacheSlots(mem)
    }

    constructor (model: Model, device: Device, store: S.TensorStore)
      requires store.Valid() && Runnable(model, store.names) && ObeysBarriers(device)
      ensures Valid() && this.model == model && this.device == device && this.store == store && runtimes == map[]
    {
      this.model, this.device, this.store := model, device, store;
      mem, runtimes, commands, submissions := map[], map[], [], 0;
    }

    /** Sizes the cache of one layer; only a layer sized differently before can lose its cache. */
    method EnsureRuntime(l: nat, maxContext: nat)
      modifies this`mem, this`runtimes
      ensures Prepared(Sizing(l, l + 1, maxContext, model.shape.KvSize()), old(runtimes), old(Caches()),
                       runtimes, Caches())
    {
      var kv := model.shape.KvSize();
      var r := if l in runtimes then runtimes[l] else Runtime(0, 0, None);
      SameSlotsReflexive(Caches());
      if l !in runtimes || r.maxContext != maxContext || r.kvElements != kv {
        var cells := C.Ensured(r.capacity, maxContext * kv);
        if r.capacity != Some(cells) {
          r := r.(capacity := Some(cells));
          forall o: nat | o != l
            ensures SameLayerSlots(o, Caches(), CacheSlots(Reallocated(mem, l, device.residue(submissions))))
          {
            ReallocatedKeepsOthers(mem, l, device.residue(submissions), o);
          }
          mem := Reallocated(mem, l, device.residue(submissions));
        }
        runtimes := runtimes[l := r.(maxContext := maxContext, kvElements := kv)];
      }
    }

    /** Checks, sizes and records one layer after the other; stops at a layer with a missing tensor or a
        wrong shape. */
    method RecordRange(first: nat, last: nat, position: nat, maxContext: nat, d: C.Dims)
      returns (ok: bool, ghost end: nat)
      requires Valid() && first <= last
      modifies this`mem, this`runtimes, this`commands
      ensures Valid()
      ensures ok <==> RangeReady(first, last, d)
      ensures first <= end <= last + 1
      ensures Prepared(Sizing(first, end, maxContext, model.shape.KvSize()), old(runtimes), old(Caches()),
                       runtimes, Caches())
      ensures ok ==> end == last + 1 && last < |model.layers| && RangeInRemoteForm(model, first, last - first + 1)
      ensures ok ==> commands == Recorded(model, first, last - first + 1, position)
    {
      hide SameLayerSlots, CacheSlots, SizedFor, Recorded, Prepared, LayerItems, ObeysBarriers, L.LayerFault, Runnable;
      hide RemoteForm;
      hide S.Consistent;
      PreparedNothing(first, maxContext, model.shape.KvSize(), runtimes, Caches());
      commands := [];
      var l := first;
      while l <= last
        invariant first <= l <= last + 1 && Valid()
        invariant forall o | first <= o < l :: Ready(o, d) && o < |model.layers| && RemoteForm(model.layers[o])
        invariant l == first ==> commands == []
        invariant l == first || l <= |model.layers|
        invariant l > first ==> commands == Recorded(model, first, l - first, position)
        invariant Prepared(Sizing(first, l, maxContext, model.shape.KvSize()), old(runtimes), old(Caches()),
                           runtimes, Caches())
      {
        var fault := L.CheckLayer(store, d, l);
        if fault.Some? {
          assert !Ready(l, d);
          return false, l;
        }
        RunnableLayer(model, store.Contents(), d, l);
        ghost var before, runtimes1 := Caches(), runtimes;
        EnsureRuntime(l, maxContext);
        PreparedStep(Sizing(first, l, maxContext, model.shape.KvSize()), old(runtimes), old(Caches()),
                     runtimes1, before, runtimes, Caches());
        RecordedNone(model, first, position);
        RecordedSnoc(model, first, l - first, position);
        commands := commands + LayerItems(model, l, position);
        l := l + 1;
      }
      return true, l;
    }

    /** Runs layers `first ..= last` for one position. `prepared` is what the caches held once every
        layer of the range was sized; `end` is where preparing stopped. When the device fails, the
        caches hold anything. */
    method RunLayerRange(first: nat, last: nat, position: nat, maxContext: nat, input: Vec)
      returns (output: Option<Vec>, ghost prepared: Memory, ghost end: nat)
      requires Valid()
      modifies this
      ensures Valid() && submissions == old(submissions) + 1
      ensures output.Some? <==>
                Accepts(first, last, position, maxContext, |input|) && !device.fails(old(submissions))
      ensures output.Some? ==>
                && end == last + 1 && last < |model.layers|
                && (output.value, Caches()) == RunLayers(model, first, last - first + 1, position, input, prepared)
      ensures !Accepts(first, last, position, maxContext, |input|) ==> prepared == Caches()
      ensures first <= end
      ensures Prepared(Sizing(first, end, maxContext, model.shape.KvSize()), old(runtimes), old(Caches()),
                       runtimes, prepared)
    {
      prepared, end := Caches(), first;
      PreparedNothing(first, maxContext, model.shape.KvSize(), runtimes, prepared);
      hide Prepared, SameLayerSlots, CacheSlots, RunLayers, Recorded, RangeInRemoteForm, Runnable, ObeysBarriers;
      hide S.Consistent;
      hide RangeReady, Admitted, DimsOf, Valid, SameRuntime, SizedFor;
      var request := submissions;
      submissions := submissions + 1;
      if first > last || position >= maxContext || !Admitted(model.shape, |input|, maxContext) {
        return None, prepared, first;
      }
      output, prepared, end := RunAccepted(first, last, position, maxContext, input, request);
    }

    /** The run behind the entry check. */
    method RunAccepted(first: nat, last: nat, position: nat, maxContext: nat, input: Vec, request: nat)
      returns (output: Option<Vec>, ghost prepared: Memory, ghost end: nat)
      requires Valid() && first <= last
      modifies this`mem, this`runtimes, this`commands
      ensures Valid() && first <= end
      ensures var ready := RangeReady(first, last, DimsOf(model.shape, |input|, maxContext));
              (output.Some? <==> ready && !device.fails(request)) && (!ready ==> prepared == Caches())
      ensures output.Some? ==>
                && end == last + 1 && last < |model.layers|
                && (output.value, Caches()) == RunLayers(model, first, last - first + 1, position, input, prepared)
      ensures Prepared(Sizing(first, end, maxContext, model.shape.KvSize()), old(runtimes), old(Caches()),
                       runtimes, prepared)
    {
      hide Prepared, SameLayerSlots, CacheSlots, RunLayers, Recorded, RangeInRemoteForm, Runnable, ObeysBarriers;
      hide S.Consistent;
      hide RangeReady, DimsOf;
      var ok;
      ok, end := RecordRange(first, last, position, maxContext, DimsOf(model.shape, |input|, maxContext));
      prepared := Caches();
      if !ok {
        return None, prepared, end;
      }
      output := Submit(first, last - first + 1, position, input, request);
    }

    /** Uploads the input, lets the device run the recorded commands and reads X back; the host is taken
        to see the last write of X, which no recorded barrier provides. */
    method Submit(first: nat, n: nat, position: nat, input: Vec, request: nat) returns (output: Option<Vec>)
      requires Valid() && first + n <= |model.layers| && RangeInRemoteForm(model, first, n)
      requires commands == Recorded(model, first, n, position)
      modifies this`mem
      ensures Valid() && (output.Some? <==> !device.fails(request))
      ensures output.Some? ==>
                (output.value, Caches()) == RunLayers(model, first, n, position, input, old(Caches()))
    {
      if device.fails(request) {
        mem := device.residue(request);
        return None;
      }
      hide Recorded, Outcome, Uploaded, RunLayers, RangeInRemoteForm, IsExecution, CacheSlots, S.Consistent, Runnable;
      hide Within;
      var order := device.schedule(request, commands);
      var start := Uploaded(mem, device.residue(request), input);
      SubmissionMeaning(model, first, n, position, mem, device.residue(request), input, order);
      mem := Outcome(commands, order, start);
      output := Some(HalfAt(mem, X));
    }

    /** `RunLayerRange` on caches that hold the earlier positions of `tokens`: the result is what
        starting afresh computes. */
    method ContinueRange(first: nat, last: nat, position: nat, maxContext: nat, input: Vec, ghost tokens: seq<nat>)
      returns (output: Option<Vec>)
      requires Valid() && first <= last < |model.layers| && position < |tokens|
      requires input == Hidden(model, tokens, first, position)
      requires RangeHeld(model, tokens, Sizing(first, last + 1, maxContext, model.shape.KvSize()), position,
                         runtimes, Caches())
      modifies this
      ensures Valid() && submissions == old(submissions) + 1
      ensures output.Some? <==>
                Accepts(first, last, position, maxContext, |input|) && !device.fails(old(submissions))
      ensures output.Some? ==> output.value == Hidden(model, tokens, last + 1, position)
      ensures output.Some? ==>
                var z := Sizing(first, last + 1, maxContext, model.shape.KvSize());
                && RangeHeld(model, tokens, z, position + 1, runtimes, Caches())
                && OthersHeld(model, tokens, z, old(runtimes), old(Caches()), runtimes, Caches())
    {
      hide RangeHeld, OthersHeld, Prepared, RunLayers, Hidden, CacheSlots, Runnable, ObeysBarriers, S.Consistent;
      hide Accepts;
      ghost var runtimes0, caches0 := runtimes, Caches();
      ghost var prepared, end;
      output, prepared, end := RunLayerRange(first, last, position, maxContext, input);
      if output.Some? {
        PreparedRangeAgrees(model, tokens, Sizing(first, last + 1, maxContext, model.shape.KvSize()), position,
                            runtimes0, caches0, runtimes, prepared);
      }
    }
  }
}
