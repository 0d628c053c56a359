/** The sum of one value per thread, as the matrix kernels form it: every thread stores its value in
    shared memory, then the upper half is added onto the lower half until one value is left, with a
    barrier after each round. A work group may do this for several rows one after the other in the
    same shared array, and at the end its first thread may store two results as one word. Loads and
    stores are separate steps, so threads interleave freely between barriers. Addition is exact. */
module Reduction {
  import opened Schedules

  /** `Low` and `High` are what the halves of the group's output word are rounded from. */
  datatype Loc = Shared(i: nat) | Register(thread: nat) | Result(row: nat) | Low | High

  type Memory = map<Loc, real>

  datatype Op = Init | Load(stride: nat) | Store(stride: nat) | Publish | Pack

  /** One step of one thread. Barriers separate steps of different (row, level). */
  datatype Step = Step(thread: nat, row: nat, level: nat, op: Op)

  // ---- Sums ----

  function Sum(v: seq<real>): real {
    if v == [] then 0.0 else v[0] + Sum(v[1..])
  }

  lemma {:induction false} SumConcat(a: seq<real>, b: seq<real>)
    ensures Sum(a + b) == Sum(a) + Sum(b)
  {
    if a == [] {
      assert a + b == b;
    } else {
      assert (a + b)[1..] == a[1..] + b;
      SumConcat(a[1..], b);
    }
  }

  function AddPointwise(a: seq<real>, b: seq<real>): (r: seq<real>)
    requires |a| == |b|
    ensures |r| == |a|
  {
    seq(|a|, t requires 0 <= t < |a| => a[t] + b[t])
  }

  lemma {:induction false} SumPointwise(a: seq<real>, b: seq<real>)
    requires |a| == |b|
    ensures Sum(AddPointwise(a, b)) == Sum(a) + Sum(b)
  {
    if a != [] {
      assert AddPointwise(a, b)[1..] == AddPointwise(a[1..], b[1..]);
      SumPointwise(a[1..], b[1..]);
    }
  }

  predicate PowerOfTwo(n: nat) {
    n == 1 || (n > 0 && n % 2 == 0 && PowerOfTwo(n / 2))
  }

  /** The upper half added onto the lower half. */
  function Halved(v: seq<real>): (r: seq<real>)
    requires |v| % 2 == 0
    ensures |r| == |v| / 2
  {
    AddPointwise(v[..|v| / 2], v[|v| / 2..])
  }

  lemma HalvingKeepsSum(v: seq<real>)
    requires |v| % 2 == 0
    ensures Sum(Halved(v)) == Sum(v)
  {
    var h := |v| / 2;
    SumPointwise(v[..h], v[h..]);
    SumConcat(v[..h], v[h..]);
    assert v[..h] + v[h..] == v;
  }

  // ---- The program ----

  function InitSteps(row: nat, threads: nat): (p: seq<Step>)
    ensures |p| == threads
  {
    seq(threads, t requires 0 <= t < threads => Step(t, row, 0, Init))
  }

  /** The threads from `t` on add the element `stride` further up. */
  function LevelSteps(row: nat, level: nat, stride: nat, t: nat): seq<Step>
    requires t <= stride
    decreases stride - t
  {
    if t == stride then []
    else [Step(t, row, level, Load(stride)), Step(t, row, level, Store(stride))] + LevelSteps(row, level, stride, t + 1)
  }

  /** The rounds for `width` remaining values, then thread 0 takes the result. */
  function Rounds(row: nat, level: nat, width: nat): seq<Step>
    decreases width
  {
    var stride := width / 2;
    if stride == 0 then [Step(0, row, level, Publish)]
    else LevelSteps(row, level, stride, 0) + Rounds(row, level + 1, stride)
  }

  function RowProgram(row: nat, threads: nat): seq<Step> {
    InitSteps(row, threads) + Rounds(row, 1, threads)
  }

  function Program(rows: nat, threads: nat): seq<Step> {
    if rows == 0 then [] else Program(rows - 1, threads) + RowProgram(rows - 1, threads)
  }

  /** Two rows, and behind the last barrier the first thread's store of the output word. */
  function PairProgram(threads: nat): seq<Step> {
    Program(2, threads) + [PackStep()]
  }

  function PackStep(): Step {
    Step(0, 2, 0, Pack)
  }

  /** What a step does; `partials[row][t]` is the value of thread `t` for a row. */
  function ActionOf(partials: seq<seq<real>>, s: Step): Action<Loc, real> {
    match s.op
    case Init =>
      Action({}, {Shared(s.thread)}, (m: Memory) =>
        if s.row < |partials| && s.thread < |partials[s.row]| then map[Shared(s.thread) := partials[s.row][s.thread]]
        else map[])
    case Load(stride) =>
      Action({Shared(s.thread), Shared(s.thread + stride)}, {Register(s.thread)}, (m: Memory) =>
        if Shared(s.thread) in m && Shared(s.thread + stride) in m
        then map[Register(s.thread) := m[Shared(s.thread)] + m[Shared(s.thread + stride)]] else map[])
    case Store(_) =>
      Action({Register(s.thread)}, {Shared(s.thread)}, (m: Memory) =>
        if Register(s.thread) in m then map[Shared(s.thread) := m[Register(s.thread)]] else map[])
    case Publish =>
      Action({Shared(0)}, {Result(s.row)}, (m: Memory) =>
        if Shared(0) in m then map[Result(s.row) := m[Shared(0)]] else map[])
    case Pack =>
      Action({Result(0), Result(1)}, {Low, High}, (m: Memory) =>
        if Result(0) in m && Result(1) in m then map[Low := m[Result(0)], High := m[Result(1)]] else map[])
  }

  function Actions(partials: seq<seq<real>>, p: seq<Step>): (acts: seq<Action<Loc, real>>)
    ensures |acts| == |p|
  {
    seq(|p|, k requires 0 <= k < |p| => ActionOf(partials, p[k]))
  }

  // ---- Synchronisation ----

  predicate Earlier(a: Step, b: Step) {
    a.row < b.row || (a.row == b.row && a.level < b.level)
  }

  /** Program order within a thread, and the barriers. */
  predicate Ordered(p: seq<Step>, i: nat, j: nat) {
    i < j < |p| && (p[i].thread == p[j].thread || Earlier(p[i], p[j]))
  }

  function Before(p: seq<Step>): Order {
    (i: nat, j: nat) => Ordered(p, i, j)
  }

  function StrideAt(threads: nat, level: nat): nat {
    if level == 0 then threads else StrideAt(threads, level - 1) / 2
  }

  /** The round a step belongs to fixes its stride, and only threads below the stride take part. */
  predicate InItsRound(threads: nat, s: Step) {
    match s.op
    case Init => s.level == 0
    case Load(stride) => s.level > 0 && stride == StrideAt(threads, s.level) && s.thread < stride
    case Store(stride) => s.level > 0 && stride == StrideAt(threads, s.level) && s.thread < stride
    case Publish => s.level > 0 && StrideAt(threads, s.level) == 0 && s.thread == 0
    case Pack => s.level == 0 && s.thread == 0
  }

  /** Between two barriers, different threads touch different locations. */
  lemma NoRaceInARound(partials: seq<seq<real>>, threads: nat, a: Step, b: Step)
    requires InItsRound(threads, a) && InItsRound(threads, b)
    requires a.row == b.row && a.level == b.level && a.thread != b.thread
    ensures !Conflict(ActionOf(partials, a), ActionOf(partials, b))
  {}

  ghost predicate AllInRound(threads: nat, p: seq<Step>) {
    forall k | 0 <= k < |p| :: InItsRound(threads, p[k])
  }

  ghost predicate NeverEarlier(a: seq<Step>, b: seq<Step>) {
    forall i, j | 0 <= i < |a| && 0 <= j < |b| :: !Earlier(b[j], a[i])
  }

  ghost predicate InBarrierOrder(p: seq<Step>) {
    forall i, j | 0 <= i < j < |p| :: !Earlier(p[j], p[i])
  }

  lemma BarrierOrderConcat(a: seq<Step>, b: seq<Step>)
    requires InBarrierOrder(a) && InBarrierOrder(b) && NeverEarlier(a, b)
    ensures InBarrierOrder(a + b)
  {}

  ghost predicate AllAt(p: seq<Step>, row: nat, level: nat) {
    forall k | 0 <= k < |p| :: p[k].row == row && p[k].level == level
  }

  ghost predicate AllFrom(p: seq<Step>, row: nat, level: nat) {
    forall k | 0 <= k < |p| :: p[k].row == row && p[k].level >= level
  }

  lemma {:induction false} LevelFacts(threads: nat, row: nat, level: nat, stride: nat, t: nat)
    requires t <= stride && level > 0 && stride == StrideAt(threads, level)
    ensures var p := LevelSteps(row, level, stride, t); AllAt(p, row, level) && AllInRound(threads, p)
    decreases stride - t
  {
    if t < stride {
      LevelFacts(threads, row, level, stride, t + 1);
    }
  }

  lemma {:induction false} RoundFacts(threads: nat, row: nat, level: nat, width: nat)
    requires level > 0 && width == StrideAt(threads, level - 1)
    ensures var p := Rounds(row, level, width); AllFrom(p, row, level) && AllInRound(threads, p) && InBarrierOrder(p)
    decreases width
  {
    hide InItsRound;
    var stride := width / 2;
    if stride > 0 {
      LevelFacts(threads, row, level, stride, 0);
      RoundFacts(threads, row, level + 1, stride);
      BarrierOrderConcat(LevelSteps(row, level, stride, 0), Rounds(row, level + 1, stride));
    } else {
      assert InItsRound(threads, Step(0, row, level, Publish)) by { PublishFits(threads, row, level); }
    }
  }

  lemma PublishFits(threads: nat, row: nat, level: nat)
    requires level > 0 && StrideAt(threads, level) == 0
    ensures InItsRound(threads, Step(0, row, level, Publish))
  {}

  ghost predicate RowsBelow(p: seq<Step>, rows: nat) {
    forall k | 0 <= k < |p| :: p[k].row < rows
  }

  lemma InitsComeFirst(row: nat, threads: nat, rounds: seq<Step>)
    requires AllFrom(rounds, row, 1)
    ensures NeverEarlier(InitSteps(row, threads), rounds) && InBarrierOrder(InitSteps(row, threads))
  {}

  lemma RowsInOrder(before: seq<Step>, after: seq<Step>, row: nat)
    requires RowsBelow(before, row) && forall k | 0 <= k < |after| :: after[k].row == row
    ensures NeverEarlier(before, after)
  {}

  lemma InitsInRound(row: nat, threads: nat)
    ensures AllInRound(threads, InitSteps(row, threads))
  {}

  lemma {:induction false} ProgramFacts(rows: nat, threads: nat)
    ensures var p := Program(rows, threads); RowsBelow(p, rows) && AllInRound(threads, p) && InBarrierOrder(p)
  {
    hide Rounds, Earlier, InItsRound;
    if rows > 0 {
      var row := rows - 1;
      ProgramFacts(row, threads);
      RoundFacts(threads, row, 1, threads);
      var inits, rounds := InitSteps(row, threads), Rounds(row, 1, threads);
      InitsInRound(row, threads);
      assert NeverEarlier(inits, rounds) && InBarrierOrder(inits) by { InitsComeFirst(row, threads, rounds); }
      BarrierOrderConcat(inits, rounds);
      RowsInOrder(Program(row, threads), inits + rounds, row);
      BarrierOrderConcat(Program(row, threads), inits + rounds);
    }
  }

  lemma PairFacts(threads: nat)
    ensures var p := PairProgram(threads); AllInRound(threads, p) && InBarrierOrder(p)
  {
    ProgramFacts(2, threads);
    hide Program;
    RowsInOrder(Program(2, threads), [PackStep()], 2);
    BarrierOrderConcat(Program(2, threads), [PackStep()]);
  }

  /** No pair of conflicting steps is left unordered; in particular the next row's first store does
      not race with the read of the previous row's result, nor the stores of results with the store of
      the word. */
  lemma ReductionIsHazardFree(partials: seq<seq<real>>, rows: nat, threads: nat)
    ensures var p := Program(rows, threads); HazardFree(Actions(partials, p), Before(p))
    ensures var p := PairProgram(threads); HazardFree(Actions(partials, p), Before(p))
  {
    hide Program, PairProgram, InItsRound, Actions;
    ProgramFacts(rows, threads);
    RoundsAreHazardFree(partials, threads, Program(rows, threads));
    PairFacts(threads);
    RoundsAreHazardFree(partials, threads, PairProgram(threads));
  }

  lemma RoundsAreHazardFree(partials: seq<seq<real>>, threads: nat, p: seq<Step>)
    requires AllInRound(threads, p) && InBarrierOrder(p)
    ensures HazardFree(Actions(partials, p), Before(p))
  {
    hide InItsRound, ActionOf;
    var acts := Actions(partials, p);
    forall i, j | 0 <= i < j < |acts| && Conflict(acts[i], acts[j]) ensures Before(p)(i, j) {
      assert !Earlier(p[j], p[i]);
      if !Earlier(p[i], p[j]) && p[i].thread != p[j].thread {
        NoRaceInARound(partials, threads, p[i], p[j]);
      }
    }
  }

  // ---- The result of program order ----

  /** The first |v| shared cells hold `v`. */
  ghost predicate Holds(mem: Memory, v: seq<real>) {
    forall i: nat | i < |v| :: Shared(i) in mem && mem[Shared(i)] == v[i]
  }

  ghost predicate SameResults(a: Memory, b: Memory) {
    forall r: nat :: Result(r) in a ==> Result(r) in b && b[Result(r)] == a[Result(r)]
  }

  function Run(partials: seq<seq<real>>, mem: Memory, p: seq<Step>): Memory {
    Execute(mem, Actions(partials, p))
  }

  lemma RunConcat(partials: seq<seq<real>>, mem: Memory, a: seq<Step>, b: seq<Step>)
    ensures Run(partials, mem, a + b) == Run(partials, Run(partials, mem, a), b)
  {
    assert Actions(partials, a + b) == Actions(partials, a) + Actions(partials, b);
    ExecuteConcat(mem, Actions(partials, a), Actions(partials, b));
  }

  lemma RunOne(partials: seq<seq<real>>, mem: Memory, s: Step)
    ensures Run(partials, mem, [s]) == Apply(mem, ActionOf(partials, s))
  {
    var acts := Actions(partials, [s]);
    assert acts[0] == ActionOf(partials, s) && acts[1..] == [];
    assert Execute(Apply(mem, acts[0]), acts[1..]) == Apply(mem, acts[0]);
  }

  lemma {:induction false} InitEffect(partials: seq<seq<real>>, row: nat, mem: Memory, n: nat)
    requires row < |partials| && n <= |partials[row]|
    ensures var after := Run(partials, mem, InitSteps(row, n));
            Holds(after, partials[row][..n]) && SameResults(mem, after)
    decreases n
  {
    if n > 0 {
      var last := Step(n - 1, row, 0, Init);
      var before := Run(partials, mem, InitSteps(row, n - 1));
      InitEffect(partials, row, mem, n - 1);
      assert InitSteps(row, n) == InitSteps(row, n - 1) + [last];
      RunConcat(partials, mem, InitSteps(row, n - 1), [last]);
      RunOne(partials, before, last);
      assert Holds(Apply(before, ActionOf(partials, last)), partials[row][..n]);
    }
  }

  /** The cells when the threads below `t` have done their round. */
  function Partway(v: seq<real>, t: nat): (r: seq<real>)
    requires |v| % 2 == 0 && t <= |v| / 2
    ensures |r| == |v|
  {
    Halved(v)[..t] + v[t..]
  }

  lemma ThreadEffect(partials: seq<seq<real>>, row: nat, level: nat, mem: Memory, v: seq<real>, t: nat)
    requires |v| % 2 == 0 && t < |v| / 2 && Holds(mem, Partway(v, t))
    ensures var after := Run(partials, mem, [Step(t, row, level, Load(|v| / 2)), Step(t, row, level, Store(|v| / 2))]);
            Holds(after, Partway(v, t + 1)) && SameResults(mem, after)
  {
    var stride := |v| / 2;
    var load, store := Step(t, row, level, Load(stride)), Step(t, row, level, Store(stride));
    RunConcat(partials, mem, [load], [store]);
    RunOne(partials, mem, load);
    var loaded := Apply(mem, ActionOf(partials, load));
    RunOne(partials, loaded, store);
    assert [load] + [store] == [load, store];
    assert mem[Shared(t)] == v[t] && mem[Shared(t + stride)] == v[t + stride] by {
      assert Partway(v, t)[t] == v[t] && Partway(v, t)[t + stride] == v[t + stride];
    }
    assert loaded[Register(t)] == v[t] + v[t + stride] == Halved(v)[t];
    var after := Apply(loaded, ActionOf(partials, store));
    forall i: nat | i < |v| ensures Shared(i) in after && after[Shared(i)] == Partway(v, t + 1)[i] {
      assert i != t ==> Partway(v, t + 1)[i] == Partway(v, t)[i];
    }
  }

  lemma {:induction false} LevelEffect(
    partials: seq<seq<real>>, row: nat, level: nat, mem: Memory, v: seq<real>, t: nat)
    requires |v| % 2 == 0 && t <= |v| / 2 && Holds(mem, Partway(v, t))
    ensures var after := Run(partials, mem, LevelSteps(row, level, |v| / 2, t));
            Holds(after, Halved(v)) && SameResults(mem, after)
    decreases |v| / 2 - t
  {
    var stride := |v| / 2;
    if t == stride {
      forall i: nat | i < stride ensures Partway(v, t)[i] == Halved(v)[i] {}
    } else {
      var pair := [Step(t, row, level, Load(stride)), Step(t, row, level, Store(stride))];
      ThreadEffect(partials, row, level, mem, v, t);
      RunConcat(partials, mem, pair, LevelSteps(row, level, stride, t + 1));
      hide Partway, Halved, Run;
      LevelEffect(partials, row, level, Run(partials, mem, pair), v, t + 1);
    }
  }

  lemma {:induction false} RoundsEffect(partials: seq<seq<real>>, row: nat, level: nat, mem: Memory, v: seq<real>)
    requires PowerOfTwo(|v|) && Holds(mem, v)
    ensures var after := Run(partials, mem, Rounds(row, level, |v|));
            && Result(row) in after && after[Result(row)] == Sum(v)
            && forall r: nat | r != row && Result(r) in mem :: Result(r) in after && after[Result(r)] == mem[Result(r)]
    decreases |v|
  {
    var stride := |v| / 2;
    if stride == 0 {
      RunOne(partials, mem, Step(0, row, level, Publish));
      assert v[1..] == [];
    } else {
      var steps := LevelSteps(row, level, stride, 0);
      assert Partway(v, 0) == v;
      LevelEffect(partials, row, level, mem, v, 0);
      HalvingKeepsSum(v);
      RunConcat(partials, mem, steps, Rounds(row, level + 1, stride));
      hide Partway, Halved, Run;
      RoundsEffect(partials, row, level + 1, Run(partials, mem, steps), Halved(v));
    }
  }

  ghost predicate HasSums(partials: seq<seq<real>>, rows: nat, mem: Memory)
    requires rows <= |partials|
  {
    forall r | 0 <= r < rows :: Result(r) in mem && mem[Result(r)] == Sum(partials[r])
  }

  lemma {:induction false} ProgramEffect(partials: seq<seq<real>>, rows: nat, threads: nat, mem: Memory)
    requires rows <= |partials| && PowerOfTwo(threads)
    requires forall r | 0 <= r < |partials| :: |partials[r]| == threads
    ensures HasSums(partials, rows, Run(partials, mem, Program(rows, threads)))
  {
    if rows > 0 {
      var row := rows - 1;
      ProgramEffect(partials, row, threads, mem);
      var m1 := Run(partials, mem, Program(row, threads));
      RunConcat(partials, mem, Program(row, threads), RowProgram(row, threads));
      RunConcat(partials, m1, InitSteps(row, threads), Rounds(row, 1, threads));
      InitEffect(partials, row, m1, threads);
      assert partials[row][..threads] == partials[row];
      RoundsEffect(partials, row, 1, Run(partials, m1, InitSteps(row, threads)), partials[row]);
      hide Run;
    }
  }

  /** Main result: under every interleaving that the barriers allow, each row's result is the sum of
      all its threads' values. */
  lemma ReductionUnderAnySchedule(partials: seq<seq<real>>, threads: nat, mem: Memory, order: seq<nat>)
    requires PowerOfTwo(threads) && forall r | 0 <= r < |partials| :: |partials[r]| == threads
    requires var p := Program(|partials|, threads); Allowed(|p|, Before(p), order)
    ensures var acts := Actions(partials, Program(|partials|, threads));
            Within(order, |acts|) && HasSums(partials, |partials|, ExecuteInOrder(mem, acts, order))
  {
    var p := Program(|partials|, threads);
    ReductionIsHazardFree(partials, |partials|, threads);
    AnyAllowedOrderAgrees(mem, Actions(partials, p), Before(p), order);
    ProgramEffect(partials, |partials|, threads, mem);
  }

  /** The same for two rows, with the halves of the output word. */
  lemma PairUnderAnySchedule(partials: seq<seq<real>>, threads: nat, mem: Memory, order: seq<nat>)
    requires PowerOfTwo(threads) && |partials| == 2 && forall r | 0 <= r < |partials| :: |partials[r]| == threads
    requires var p := PairProgram(threads); Allowed(|p|, Before(p), order)
    ensures var acts := Actions(partials, PairProgram(threads));
            && Within(order, |acts|)
            && var end := ExecuteInOrder(mem, acts, order);
               Low in end && end[Low] == Sum(partials[0]) && High in end && end[High] == Sum(partials[1])
  {
    hide Program, Execute, ExecuteInOrder, ActionOf;
    var p := PairProgram(threads);
    ReductionIsHazardFree(partials, 2, threads);
    AnyAllowedOrderAgrees(mem, Actions(partials, p), Before(p), order);
    ProgramEffect(partials, 2, threads, mem);
    RunConcat(partials, mem, Program(2, threads), [PackStep()]);
    PackEffect(partials, Run(partials, mem, Program(2, threads)));
  }

  lemma PackEffect(partials: seq<seq<real>>, mem: Memory)
    requires |partials| == 2 && HasSums(partials, 2, mem)
    ensures var end := Run(partials, mem, [PackStep()]);
            Low in end && end[Low] == Sum(partials[0]) && High in end && end[High] == Sum(partials[1])
  {
    hide Sum, Run;
    RunOne(partials, mem, PackStep());
    assert Result(0) in mem && Result(1) in mem;
  }

  // ---- Which elements a thread sums ----

  /** The elements of thread `t`: `t`, `t + step`, `t + 2 * step`, ... */
  function Strided(v: seq<real>, t: nat, step: nat): real
    requires step > 0
    decreases |v| - t
  {
    if t >= |v| then 0.0 else v[t] + Strided(v, t + step, step)
  }

  function ThreadSums(v: seq<real>, from: nat, threads: nat, step: nat): (r: seq<real>)
    requires step > 0
    ensures |r| == threads
  {
    seq(threads, t requires 0 <= t < threads => Strided(v, from + t, step))
  }

  /** The strided loops of all threads together take every element exactly once. */
  lemma {:induction false} ThreadsPartition(v: seq<real>, from: nat, threads: nat)
    requires threads > 0
    ensures Sum(ThreadSums(v, from, threads, threads)) == Sum(if from <= |v| then v[from..] else [])
    decreases |v| - from
  {
    if from >= |v| {
      var here := ThreadSums(v, from, threads, threads);
      forall k | 0 <= k < threads ensures here[k] == 0.0 {
        assert here[k] == Strided(v, from + k, threads);
      }
      AllZero(here);
    } else {
      ThreadsPartition(v, from + 1, threads);
      var here, next := ThreadSums(v, from, threads, threads), ThreadSums(v, from + 1, threads, threads);
      var last := Strided(v, from + threads, threads);
      assert next == here[1..] + [last];
      SumConcat(here[1..], [last]);
      assert [last][1..] == [];
      assert here[0] == Strided(v, from, threads) == v[from] + last;
      assert v[from..][1..] == v[from + 1..];
    }
  }

  lemma {:induction false} AllZero(v: seq<real>)
    requires forall k | 0 <= k < |v| :: v[k] == 0.0
    ensures Sum(v) == 0.0
  {
    if v != [] {
      AllZero(v[1..]);
    }
  }

  lemma ThreadSumsTotal(v: seq<real>, threads: nat)
    requires threads > 0
    ensures Sum(ThreadSums(v, 0, threads, threads)) == Sum(v)
  {
    ThreadsPartition(v, 0, threads);
    assert v[0..] == v;
  }
}
