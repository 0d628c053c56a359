/** Work that runs in any order its synchronisation allows.

    An action reads some locations and writes some locations of a shared memory. A program is a
    sequence of actions together with a relation `before` that says which pairs its barriers order.
    When every conflicting pair is ordered, every order the relation allows ends in the memory that
    program order ends in. Both the GPU thread reductions and the recorded Vulkan command list are
    instances. */
module Schedules {

  datatype Action<!L, !V> = Action(inputs: set<L>, outputs: set<L>, effect: map<L, V> -> map<L, V>)

  type Order = (nat, nat) -> bool

  function Restrict<L, V>(m: map<L, V>, keys: set<L>): map<L, V> {
    map l | l in m && l in keys :: m[l]
  }

  /** One action: its effect sees only what it reads and changes only what it writes. */
  function Apply<L, V>(mem: map<L, V>, a: Action<L, V>): map<L, V> {
    mem + Restrict(a.effect(Restrict(mem, a.inputs)), a.outputs)
  }

  function Execute<L, V>(mem: map<L, V>, acts: seq<Action<L, V>>): map<L, V>
    decreases |acts|
  {
    if acts == [] then mem else Execute(Apply(mem, acts[0]), acts[1..])
  }

  predicate Within(order: seq<nat>, n: nat) {
    forall k | 0 <= k < |order| :: order[k] < n
  }

  /** Runs `acts` in the order given by a sequence of indices. */
  function ExecuteInOrder<L, V>(mem: map<L, V>, acts: seq<Action<L, V>>, order: seq<nat>): map<L, V>
    requires Within(order, |acts|)
    decreases |order|
  {
    if order == [] then mem else ExecuteInOrder(Apply(mem, acts[order[0]]), acts, order[1..])
  }

  ghost predicate Conflict<L, V>(a: Action<L, V>, b: Action<L, V>) {
    !(a.outputs !! b.outputs) || !(a.outputs !! b.inputs) || !(a.inputs !! b.outputs)
  }

  /** Every conflicting pair is ordered by the synchronisation. */
  ghost predicate HazardFree<L, V>(acts: seq<Action<L, V>>, before: Order) {
    forall i, j | 0 <= i < j < |acts| && Conflict(acts[i], acts[j]) :: before(i, j)
  }

  /** `order` runs every action once and never runs a later action of an ordered pair first. */
  ghost predicate Allowed(n: nat, before: Order, order: seq<nat>) {
    && multiset(order) == multiset(Iota(0, n))
    && Respects(before, order)
  }

  ghost predicate Respects(before: Order, order: seq<nat>) {
    forall p, q | 0 <= p < q < |order| :: !before(order[q], order[p])
  }

  function Iota(lo: nat, hi: nat): (s: seq<nat>)
    requires lo <= hi
    ensures |s| == hi - lo
    ensures forall k | 0 <= k < |s| :: s[k] == lo + k
    decreases hi - lo
  {
    if lo == hi then [] else [lo] + Iota(lo + 1, hi)
  }

  lemma ApplyCommutes<L, V>(mem: map<L, V>, a: Action<L, V>, b: Action<L, V>)
    requires !Conflict(a, b)
    ensures Apply(Apply(mem, a), b) == Apply(Apply(mem, b), a)
  {
    var ra, rb := Restrict(mem, a.inputs), Restrict(mem, b.inputs);
    assert Restrict(Apply(mem, a), b.inputs) == rb;
    assert Restrict(Apply(mem, b), a.inputs) == ra;
    var ea, eb := Restrict(a.effect(ra), a.outputs), Restrict(b.effect(rb), b.outputs);
    assert mem + ea + eb == mem + eb + ea;
  }

  lemma ExecuteHead<L, V>(mem: map<L, V>, acts: seq<Action<L, V>>, i: nat, rest: seq<nat>)
    requires i < |acts| && Within(rest, |acts|)
    ensures ExecuteInOrder(mem, acts, [i] + rest) == ExecuteInOrder(Apply(mem, acts[i]), acts, rest)
  {
    assert ([i] + rest)[1..] == rest;
  }

  /** An action that conflicts with none of the actions run before it may run first. */
  lemma {:induction false} MoveToFront<L, V>(
    mem: map<L, V>, acts: seq<Action<L, V>>, prefix: seq<nat>, i: nat, suffix: seq<nat>)
    requires i < |acts| && Within(prefix, |acts|) && Within(suffix, |acts|)
    requires forall k | 0 <= k < |prefix| :: !Conflict(acts[i], acts[prefix[k]])
    ensures ExecuteInOrder(mem, acts, prefix + [i] + suffix) == ExecuteInOrder(mem, acts, [i] + prefix + suffix)
    decreases |prefix|
  {
    hide ExecuteInOrder, Apply, Conflict;
    if prefix == [] {
      assert prefix + [i] + suffix == [i] + prefix + suffix;
    } else {
      var j, rest := prefix[0], prefix[1..];
      assert prefix + [i] + suffix == [j] + (rest + [i] + suffix);
      assert [i] + rest + suffix == [i] + (rest + suffix);
      assert [i] + prefix + suffix == [i] + ([j] + (rest + suffix));
      ExecuteHead(mem, acts, j, rest + [i] + suffix);
      MoveToFront(Apply(mem, acts[j]), acts, rest, i, suffix);
      ExecuteHead(Apply(mem, acts[j]), acts, i, rest + suffix);
      ApplyCommutes(mem, acts[i], acts[j]);
      ExecuteHead(mem, acts, i, [j] + (rest + suffix));
      ExecuteHead(Apply(mem, acts[i]), acts, j, rest + suffix);
    }
  }

  /** Facts about an order that still has to run the actions from `lo` on. */
  ghost predicate Remaining(order: seq<nat>, lo: nat, n: nat) {
    lo <= n && multiset(order) == multiset(Iota(lo, n))
  }

  lemma RemainingRange(order: seq<nat>, lo: nat, n: nat)
    requires Remaining(order, lo, n)
    ensures forall k | 0 <= k < |order| :: lo <= order[k] < n
    ensures lo == n ==> order == []
    ensures lo < n ==> lo in order
  {
    forall k | 0 <= k < |order| ensures lo <= order[k] < n {
      assert order[k] in multiset(order);
      assert order[k] in Iota(lo, n);
    }
    if lo == n {
      assert |order| == |multiset(order)|;
    } else {
      assert Iota(lo, n)[0] in multiset(Iota(lo, n));
      assert lo in multiset(order);
    }
  }

  lemma RemainingWithout(order: seq<nat>, k: nat, lo: nat, n: nat)
    requires Remaining(order, lo, n) && lo < n && k < |order| && order[k] == lo
    ensures Remaining(order[..k] + order[k + 1..], lo + 1, n)
  {
    assert order == order[..k] + [lo] + order[k + 1..];
    assert multiset(order) == multiset(order[..k]) + multiset{lo} + multiset(order[k + 1..]);
    assert Iota(lo, n) == [lo] + Iota(lo + 1, n);
    assert multiset(Iota(lo, n)) == multiset{lo} + multiset(Iota(lo + 1, n));
    assert multiset(order[..k] + order[k + 1..]) == multiset(order[..k]) + multiset(order[k + 1..]);
    assert multiset(order[..k] + order[k + 1..]) == multiset(order) - multiset{lo};
    assert multiset(Iota(lo + 1, n)) == multiset(Iota(lo, n)) - multiset{lo};
  }

  lemma RespectsWithout(before: Order, order: seq<nat>, k: nat)
    requires Respects(before, order) && k < |order|
    ensures Respects(before, order[..k] + order[k + 1..])
  {
    var rest := order[..k] + order[k + 1..];
    forall p, q | 0 <= p < q < |rest| ensures !before(rest[q], rest[p]) {
      var p', q' := if p < k then p else p + 1, if q < k then q else q + 1;
      assert rest[p] == order[p'] && rest[q] == order[q'];
    }
  }

  /** The first remaining action conflicts with nothing an allowed order runs before it. */
  lemma BringFirstToFront<L, V>(
    mem: map<L, V>, acts: seq<Action<L, V>>, before: Order, lo: nat, order: seq<nat>, k: nat)
    requires HazardFree(acts, before) && Respects(before, order) && Within(order, |acts|)
    requires lo < |acts| && k < |order| && order[k] == lo
    requires forall p | 0 <= p < k :: lo < order[p]
    ensures Within([lo] + (order[..k] + order[k + 1..]), |acts|)
    ensures ExecuteInOrder(mem, acts, order) == ExecuteInOrder(mem, acts, [lo] + (order[..k] + order[k + 1..]))
  {
    hide ExecuteInOrder, Conflict;
    var prefix, suffix := order[..k], order[k + 1..];
    forall p | 0 <= p < |prefix| ensures !Conflict(acts[lo], acts[prefix[p]]) {
      assert !before(order[k], order[p]);
    }
    MoveToFront(mem, acts, prefix, lo, suffix);
    assert order == prefix + [lo] + suffix;
    assert [lo] + prefix + suffix == [lo] + (prefix + suffix);
  }

  lemma FirstRemaining(before: Order, order: seq<nat>, lo: nat, n: nat) returns (k: nat, rest: seq<nat>)
    requires Respects(before, order) && Remaining(order, lo, n) && lo < n
    ensures k < |order| && order[k] == lo && Within(order, n)
    ensures forall p | 0 <= p < k :: lo < order[p]
    ensures rest == order[..k] + order[k + 1..] && Respects(before, rest) && Remaining(rest, lo + 1, n)
  {
    RemainingRange(order, lo, n);
    k :| 0 <= k < |order| && order[k] == lo;
    rest := order[..k] + order[k + 1..];
    RemainingWithout(order, k, lo, n);
    RespectsWithout(before, order, k);
    RemainingRange(rest, lo + 1, n);
    forall p | 0 <= p < k ensures lo < order[p] {
      assert rest[p] == order[p];
    }
  }

  lemma {:induction false} ReorderTail<L, V>(
    mem: map<L, V>, acts: seq<Action<L, V>>, before: Order, lo: nat, order: seq<nat>)
    requires HazardFree(acts, before) && Respects(before, order) && Remaining(order, lo, |acts|)
    ensures Within(order, |acts|)
    ensures ExecuteInOrder(mem, acts, order) == Execute(mem, acts[lo..])
    decreases |acts| - lo
  {
    hide HazardFree, Respects, Remaining, Apply;
    if lo == |acts| {
      RemainingRange(order, lo, |acts|);
    } else {
      RemainingBounds(order, lo, |acts|);
      var k, rest := FirstRemaining(before, order, lo, |acts|);
      BringFirstToFront(mem, acts, before, lo, order, k);
      ReorderTail(Apply(mem, acts[lo]), acts, before, lo + 1, rest);
      ExecuteHead(mem, acts, lo, rest);
      hide ExecuteInOrder;
      assert acts[lo..][1..] == acts[lo + 1..];
    }
  }

  lemma RemainingBounds(order: seq<nat>, lo: nat, n: nat)
    requires Remaining(order, lo, n)
    ensures lo <= n
  {}

  /** Main result: a hazard-free program has one outcome, whatever allowed order it runs in. */
  lemma AnyAllowedOrderAgrees<L, V>(
    mem: map<L, V>, acts: seq<Action<L, V>>, before: Order, order: seq<nat>)
    requires HazardFree(acts, before) && Allowed(|acts|, before, order)
    ensures Within(order, |acts|)
    ensures ExecuteInOrder(mem, acts, order) == Execute(mem, acts)
  {
    ReorderTail(mem, acts, before, 0, order);
    assert acts[0..] == acts;
  }

  lemma {:induction false} ExecuteConcat<L, V>(mem: map<L, V>, a: seq<Action<L, V>>, b: seq<Action<L, V>>)
    ensures Execute(mem, a + b) == Execute(Execute(mem, a), b)
    decreases |a|
  {
    if a == [] {
      assert a + b == b;
    } else {
      assert (a + b)[1..] == a[1..] + b;
      ExecuteConcat(Apply(mem, a[0]), a[1..], b);
    }
  }
}
