/** Which layers are offloaded together: the ranges a forward pass sends to the remote machine. */
module OffloadedRanges {
  /** Last layer of the run of offloaded layers that starts at `i`. */
  function RunEnd(offloaded: set<nat>, layers: nat, i: nat): (last: nat)
    requires i < layers && i in offloaded
    ensures i <= last < layers
    decreases layers - i
  {
    if i + 1 < layers && i + 1 in offloaded then RunEnd(offloaded, layers, i + 1) else i
  }

  /** The ranges a forward pass sends to the remote machine, from layer `i` on. */
  function OffloadRuns(offloaded: set<nat>, layers: nat, i: nat): seq<(nat, nat)>
    requires i <= layers
    decreases layers - i
  {
    if i == layers then []
    else if i in offloaded then
      var last := RunEnd(offloaded, layers, i);
      [(i, last)] + OffloadRuns(offloaded, layers, last + 1)
    else OffloadRuns(offloaded, layers, i + 1)
  }

  lemma RunsStep(offloaded: set<nat>, layers: nat, i: nat)
    requires i <= layers
    ensures OffloadRuns(offloaded, layers, i) ==
            if i == layers then []
            else if i in offloaded then
              [(i, RunEnd(offloaded, layers, i))] + OffloadRuns(offloaded, layers, RunEnd(offloaded, layers, i) + 1)
            else OffloadRuns(offloaded, layers, i + 1)
  {}

  ghost predicate IsMaximalRun(offloaded: set<nat>, layers: nat, r: (nat, nat)) {
    && r.0 <= r.1 < layers && (forall l | r.0 <= l <= r.1 :: l in offloaded)
    && (r.0 > 0 ==> r.0 - 1 !in offloaded) && (r.1 + 1 < layers ==> r.1 + 1 !in offloaded)
  }

  lemma {:induction false} RunEndIsMaximal(offloaded: set<nat>, layers: nat, i: nat)
    requires i < layers && i in offloaded
    ensures var last := RunEnd(offloaded, layers, i);
            (forall l | i <= l <= last :: l in offloaded) && (last + 1 < layers ==> last + 1 !in offloaded)
    decreases layers - i
  {
    if i + 1 < layers && i + 1 in offloaded {
      RunEndIsMaximal(offloaded, layers, i + 1);
    }
  }

  ghost predicate AreMaximalRuns(offloaded: set<nat>, layers: nat, from: nat, runs: seq<(nat, nat)>) {
    && (forall k | 0 <= k < |runs| :: from <= runs[k].0 && IsMaximalRun(offloaded, layers, runs[k]))
    && (forall j, k | 0 <= j < k < |runs| :: runs[j].1 < runs[k].0)
  }

  /** The ranges are maximal runs of offloaded layers, in ascending order. */
  lemma {:induction false} RunsAreMaximal(offloaded: set<nat>, layers: nat, i: nat)
    requires i <= layers && (i == 0 || i == layers || i !in offloaded || i - 1 !in offloaded)
    ensures AreMaximalRuns(offloaded, layers, i, OffloadRuns(offloaded, layers, i))
    decreases layers - i
  {
    if i < layers && i in offloaded {
      var last := RunEnd(offloaded, layers, i);
      RunEndIsMaximal(offloaded, layers, i);
      RunsAreMaximal(offloaded, layers, last + 1);
      assert IsMaximalRun(offloaded, layers, (i, last));
    } else if i < layers {
      RunsAreMaximal(offloaded, layers, i + 1);
    }
  }

  ghost predicate Covered(runs: seq<(nat, nat)>, l: nat) {
    exists k :: 0 <= k < |runs| && runs[k].0 <= l <= runs[k].1
  }

  lemma CoveredCons(r: (nat, nat), rest: seq<(nat, nat)>, l: nat)
    ensures Covered([r] + rest, l) <==> r.0 <= l <= r.1 || Covered(rest, l)
  {
    var runs := [r] + rest;
    if r.0 <= l <= r.1 {
      assert runs[0] == r;
    } else if Covered(rest, l) {
      var k :| 0 <= k < |rest| && rest[k].0 <= l <= rest[k].1;
      assert runs[k + 1] == rest[k];
    }
  }

  /** The ranges cover exactly the offloaded layers. */
  lemma {:induction false} RunsCoverOffloadedLayers(offloaded: set<nat>, layers: nat, i: nat, l: nat)
    requires i <= l < layers
    ensures l in offloaded <==> Covered(OffloadRuns(offloaded, layers, i), l)
    decreases layers - i
  {
    hide Covered;
    if i in offloaded {
      var last := RunEnd(offloaded, layers, i);
      RunEndIsMaximal(offloaded, layers, i);
      CoveredCons((i, last), OffloadRuns(offloaded, layers, last + 1), l);
      if l > last {
        RunsCoverOffloadedLayers(offloaded, layers, last + 1, l);
      }
    } else if l > i {
      RunsCoverOffloadedLayers(offloaded, layers, i + 1, l);
    } else {
      RunsStartLater(offloaded, layers, i + 1, l);
    }
  }

  lemma {:induction false} RunsStartLater(offloaded: set<nat>, layers: nat, i: nat, l: nat)
    requires l < i <= layers
    ensures !Covered(OffloadRuns(offloaded, layers, i), l)
    decreases layers - i
  {
    if i < layers && i in offloaded {
      var last := RunEnd(offloaded, layers, i);
      CoveredCons((i, last), OffloadRuns(offloaded, layers, last + 1), l);
      RunsStartLater(offloaded, layers, last + 1, l);
    } else if i < layers {
      RunsStartLater(offloaded, layers, i + 1, l);
    }
  }
}
