/** Byte-pair merging: loading the rules, and the greedy loop that applies them. */
module Bpe {
  import opened Words
  import opened ByteTable

  datatype MergeRule = MergeRule(merged: Bytes, rank: nat)

  type Merges = map<Bytes, MergeRule>

  const INT_MAX := 0x7fff_ffff
  const SPACE: U8 := 32

  // ---- Rules ----

  function PairKey(a: Bytes, b: Bytes): Bytes {
    a + [NEWLINE] + b
  }

  /** Splits a line at its first space. */
  function SplitOnce(line: Bytes): (r: Option<(Bytes, Bytes)>)
    ensures r.Some? ==> SPACE !in r.value.0 && line == r.value.0 + [SPACE] + r.value.1
    ensures r.None? ==> SPACE !in line
  {
    if line == [] then None
    else if line[0] == SPACE then
      assert line == [] + [SPACE] + line[1..];
      Some(([], line[1..]))
    else
      var r := SplitOnce(line[1..]);
      assert line == [line[0]] + line[1..];
      if r.None? then None else Some(([line[0]] + r.value.0, r.value.1))
  }

  /** How many of the lines have two parts; the rank the next such line gets. */
  function Ranked(lines: seq<Bytes>): (n: nat)
    ensures n <= |lines|
  {
    if lines == [] then 0
    else Ranked(lines[..|lines| - 1]) + if SplitOnce(lines[|lines| - 1]).Some? then 1 else 0
  }

  /** The rule table of a list of lines; a later line replaces an earlier one with the same key. */
  function MergesOf(lines: seq<Bytes>): Merges {
    if lines == [] then map[]
    else
      var init, pair := lines[..|lines| - 1], SplitOnce(lines[|lines| - 1]);
      if pair.None? then MergesOf(init)
      else MergesOf(init)[PairKey(pair.value.0, pair.value.1) := MergeRule(pair.value.0 + pair.value.1, Ranked(init))]
  }

  lemma SplitCons(c: U8, rest: Bytes)
    ensures c == SPACE ==> SplitOnce([c] + rest) == Some(([], rest))
    ensures c != SPACE && SplitOnce(rest).Some? ==>
              SplitOnce([c] + rest) == Some(([c] + SplitOnce(rest).value.0, SplitOnce(rest).value.1))
  {
    assert ([c] + rest)[1..] == rest;
  }

  lemma MergesMore(init: seq<Bytes>, line: Bytes)
    requires SplitOnce(line).Some?
    ensures var pair := SplitOnce(line).value;
            MergesOf(init + [line])
            == MergesOf(init)[PairKey(pair.0, pair.1) := MergeRule(pair.0 + pair.1, Ranked(init))]
    ensures MergesOf([]) == map[] && Ranked([]) == 0 && Ranked(init + [line]) == Ranked(init) + 1
  {
    assert (init + [line])[..|init|] == init;
  }

  method LoadMerges(lines: seq<Bytes>) returns (merges: Merges)
    ensures merges == MergesOf(lines)
  {
    merges := map[];
    var rank := 0;
    for i := 0 to |lines|
      invariant rank == Ranked(lines[..i]) && merges == MergesOf(lines[..i])
    {
      assert lines[..i + 1][..i] == lines[..i];
      var pair := SplitOnce(lines[i]);
      if pair.None? {
        continue;
      }
      merges := merges[PairKey(pair.value.0, pair.value.1) := MergeRule(pair.value.0 + pair.value.1, rank)];
      rank := rank + 1;
    }
    assert lines[..|lines|] == lines;
  }

  /** A line feed separates a key unambiguously as long as the parts looked up have none. */
  lemma PairKeyInjective(a: Bytes, b: Bytes, c: Bytes, d: Bytes)
    requires NEWLINE !in a && NEWLINE !in b && PairKey(a, b) == PairKey(c, d)
    ensures a == c && b == d
  {
    var key := PairKey(a, b);
    assert key[|a|] == NEWLINE && key[|c|] == NEWLINE;
    assert |c| == |a| by {
      assert forall k | 0 <= k < |a| :: key[k] == a[k];
      assert forall k | |a| < k < |key| :: key[k] == b[k - |a| - 1];
    }
    assert a == key[..|a|] && c == key[..|c|];
    assert b == key[|a| + 1..] && d == key[|c| + 1..];
  }

  /** A rule found for two pieces without line feeds merges exactly these pieces, and its rank is the
      number of two-part lines before the line it comes from. */
  lemma {:induction false} RuleMeaning(lines: seq<Bytes>, a: Bytes, b: Bytes)
    requires NEWLINE !in a && NEWLINE !in b && PairKey(a, b) in MergesOf(lines)
    ensures MergesOf(lines)[PairKey(a, b)].merged == a + b
    ensures exists k :: 0 <= k < |lines| && SplitOnce(lines[k]) == Some((a, b))
                     && MergesOf(lines)[PairKey(a, b)].rank == Ranked(lines[..k])
  {
    var n := |lines| - 1;
    var init, pair := lines[..n], SplitOnce(lines[n]);
    if pair.Some? && PairKey(pair.value.0, pair.value.1) == PairKey(a, b) {
      PairKeyInjective(a, b, pair.value.0, pair.value.1);
      assert SplitOnce(lines[n]) == Some((a, b));
    } else {
      RuleMeaning(init, a, b);
      var k :| 0 <= k < n && SplitOnce(init[k]) == Some((a, b))
          && MergesOf(init)[PairKey(a, b)].rank == Ranked(init[..k]);
      assert init[k] == lines[k] && init[..k] == lines[..k];
    }
  }

  lemma {:induction false} RanksBelow(lines: seq<Bytes>, key: Bytes)
    requires key in MergesOf(lines)
    ensures MergesOf(lines)[key].rank < |lines|
  {
    var n := |lines| - 1;
    var pair := SplitOnce(lines[n]);
    if !(pair.Some? && PairKey(pair.value.0, pair.value.1) == key) {
      RanksBelow(lines[..n], key);
    }
  }

  // ---- Keys of line feeds ----

  /** Nothing but line feeds. */
  ghost predicate OnlyLineFeeds(p: Bytes) {
    forall k | 0 <= k < |p| :: p[k] == NEWLINE
  }

  lemma SameLineFeeds(p: Bytes, q: Bytes)
    requires OnlyLineFeeds(p) && OnlyLineFeeds(q) && |p| == |q|
    ensures p == q
  {}

  lemma KeyOfLineFeeds(a: Bytes, b: Bytes)
    ensures |PairKey(a, b)| == |a + b| + 1
    ensures OnlyLineFeeds(PairKey(a, b)) <==> OnlyLineFeeds(a + b)
  {
    var key, text := PairKey(a, b), a + b;
    if OnlyLineFeeds(key) {
      forall k | 0 <= k < |text| ensures text[k] == NEWLINE {
        assert text[k] == key[if k < |a| then k else k + 1];
      }
    }
    if OnlyLineFeeds(text) {
      forall k | 0 <= k < |key| ensures key[k] == NEWLINE {
        assert k == |a| || key[k] == text[if k < |a| then k else k - 1];
      }
    }
  }

  /** A key of line feeds is ambiguous, yet all its readings merge to the same line feeds. */
  lemma {:induction false} LineFeedRule(lines: seq<Bytes>, a: Bytes, b: Bytes)
    requires OnlyLineFeeds(a) && OnlyLineFeeds(b) && PairKey(a, b) in MergesOf(lines)
    ensures MergesOf(lines)[PairKey(a, b)].merged == a + b
  {
    var n := |lines| - 1;
    var pair := SplitOnce(lines[n]);
    if pair.Some? && PairKey(pair.value.0, pair.value.1) == PairKey(a, b) {
      KeyOfLineFeeds(a, b);
      KeyOfLineFeeds(pair.value.0, pair.value.1);
      SameLineFeeds(a + b, pair.value.0 + pair.value.1);
    } else {
      LineFeedRule(lines[..n], a, b);
    }
  }

  // ---- One merge ----

  predicate StartsWithLess(p: Bytes) {
    p != [] && p[0] == LESS
  }

  predicate MergeableAt(m: Merges, pieces: seq<Bytes>, i: nat)
    requires i + 1 < |pieces|
  {
    !StartsWithLess(pieces[i]) && !StartsWithLess(pieces[i + 1]) && PairKey(pieces[i], pieces[i + 1]) in m
  }

  function RankAt(m: Merges, pieces: seq<Bytes>, i: nat): nat
    requires i + 1 < |pieces| && MergeableAt(m, pieces, i)
  {
    m[PairKey(pieces[i], pieces[i + 1])].rank
  }

  /** `i` is the leftmost of the mergeable pairs of lowest rank. */
  ghost predicate IsBest(m: Merges, pieces: seq<Bytes>, i: nat) {
    && i + 1 < |pieces| && MergeableAt(m, pieces, i)
    && forall j: nat | j + 1 < |pieces| && MergeableAt(m, pieces, j) ::
         RankAt(m, pieces, i) <= RankAt(m, pieces, j) && (j < i ==> RankAt(m, pieces, i) < RankAt(m, pieces, j))
  }

  ghost predicate NothingToMerge(m: Merges, pieces: seq<Bytes>) {
    forall j: nat | j + 1 < |pieces| :: !MergeableAt(m, pieces, j)
  }

  lemma BestIsUnique(m: Merges, pieces: seq<Bytes>, i: nat, j: nat)
    requires IsBest(m, pieces, i) && IsBest(m, pieces, j)
    ensures i == j
  {}

  /** Replaces pair `i` by its merge. */
  function MergeAt(m: Merges, pieces: seq<Bytes>, i: nat): (r: seq<Bytes>)
    requires i + 1 < |pieces| && MergeableAt(m, pieces, i)
    ensures |r| == |pieces| - 1
  {
    pieces[..i] + [m[PairKey(pieces[i], pieces[i + 1])].merged] + pieces[i + 2..]
  }

  ghost predicate RanksFit(m: Merges) {
    forall key | key in m :: m[key].rank < INT_MAX
  }

  /** The scan for the best pair: `best == |pieces|` when there is none. */
  method FindBest(m: Merges, pieces: seq<Bytes>) returns (best: nat)
    requires RanksFit(m)
    ensures best == |pieces| ==> NothingToMerge(m, pieces)
    ensures best != |pieces| ==> IsBest(m, pieces, best)
  {
    var bestRank := INT_MAX;
    best := |pieces|;
    var i := 0;
    while i + 1 < |pieces|
      invariant i <= |pieces|
      invariant best == |pieces| ==>
                  bestRank == INT_MAX && forall j: nat | j < i && j + 1 < |pieces| :: !MergeableAt(m, pieces, j)
      invariant best != |pieces| ==>
                  && best < i && best + 1 < |pieces| && MergeableAt(m, pieces, best)
                  && bestRank == RankAt(m, pieces, best)
                  && forall j: nat | j < i && j + 1 < |pieces| && MergeableAt(m, pieces, j) ::
                       bestRank <= RankAt(m, pieces, j) && (j < best ==> bestRank < RankAt(m, pieces, j))
    {
      if StartsWithLess(pieces[i]) || StartsWithLess(pieces[i + 1]) {
        i := i + 1;
        continue;
      }
      var key := PairKey(pieces[i], pieces[i + 1]);
      if key in m && m[key].rank < bestRank {
        bestRank, best := m[key].rank, i;
      }
      i := i + 1;
    }
  }

  // ---- The whole loop ----

  /** `result` is reached from `pieces` by merging the best pair until none is left. */
  ghost predicate IsMerged(m: Merges, pieces: seq<Bytes>, result: seq<Bytes>)
    decreases |pieces|
  {
    if NothingToMerge(m, pieces) then result == pieces
    else exists i: nat :: IsBest(m, pieces, i) && IsMerged(m, MergeAt(m, pieces, i), result)
  }

  lemma {:induction false} MergedIsUnique(m: Merges, pieces: seq<Bytes>, a: seq<Bytes>, b: seq<Bytes>)
    requires IsMerged(m, pieces, a) && IsMerged(m, pieces, b)
    ensures a == b
    decreases |pieces|
  {
    if !NothingToMerge(m, pieces) {
      var i: nat :| IsBest(m, pieces, i) && IsMerged(m, MergeAt(m, pieces, i), a);
      var j: nat :| IsBest(m, pieces, j) && IsMerged(m, MergeAt(m, pieces, j), b);
      BestIsUnique(m, pieces, i, j);
      MergedIsUnique(m, MergeAt(m, pieces, i), a, b);
    }
  }

  lemma {:induction false} MergedIsFinal(m: Merges, pieces: seq<Bytes>, result: seq<Bytes>)
    requires IsMerged(m, pieces, result)
    ensures NothingToMerge(m, result)
    decreases |pieces|
  {
    if !NothingToMerge(m, pieces) {
      var i: nat :| IsBest(m, pieces, i) && IsMerged(m, MergeAt(m, pieces, i), result);
      MergedIsFinal(m, MergeAt(m, pieces, i), result);
    }
  }

  /** A step in front of a merge sequence. */
  lemma MergedStep(m: Merges, pieces: seq<Bytes>, i: nat, result: seq<Bytes>)
    requires IsBest(m, pieces, i) && IsMerged(m, MergeAt(m, pieces, i), result)
    ensures IsMerged(m, pieces, result)
  {}

  /** The loop of `encode`: it edits the piece list in place until no pair can be merged. */
  method MergePieces(m: Merges, initial: seq<Bytes>) returns (pieces: seq<Bytes>)
    requires RanksFit(m)
    ensures IsMerged(m, initial, pieces)
  {
    pieces := initial;
    while |pieces| > 1
      invariant forall result :: IsMerged(m, pieces, result) ==> IsMerged(m, initial, result)
      decreases |pieces|
    {
      var best := FindBest(m, pieces);
      if best == |pieces| {
        break;
      }
      var merged := m[PairKey(pieces[best], pieces[best + 1])].merged;
      ghost var before := pieces;
      pieces := pieces[best := merged];
      pieces := pieces[..best + 1] + pieces[best + 2..];
      assert pieces == MergeAt(m, before, best);
      forall result | IsMerged(m, pieces, result) ensures IsMerged(m, before, result) {
        MergedStep(m, before, best, result);
      }
    }
    assert NothingToMerge(m, pieces);
    assert IsMerged(m, pieces, pieces);
  }

  // ---- What merging keeps ----

  /** Rules found for pieces without line feeds merge exactly these pieces. */
  ghost predicate SoundRules(m: Merges) {
    forall a: Bytes, b: Bytes | NEWLINE !in a && NEWLINE !in b && PairKey(a, b) in m :: m[PairKey(a, b)].merged == a + b
  }

  lemma LoadedRulesAreSound(lines: seq<Bytes>)
    ensures SoundRules(MergesOf(lines))
  {
    forall a: Bytes, b: Bytes | NEWLINE !in a && NEWLINE !in b && PairKey(a, b) in MergesOf(lines)
      ensures MergesOf(lines)[PairKey(a, b)].merged == a + b
    {
      RuleMeaning(lines, a, b);
    }
  }

  function Flatten(pieces: seq<Bytes>): Bytes {
    if pieces == [] then [] else pieces[0] + Flatten(pieces[1..])
  }

  lemma {:induction false} FlattenConcat(a: seq<Bytes>, b: seq<Bytes>)
    ensures Flatten(a + b) == Flatten(a) + Flatten(b)
  {
    if a == [] {
      assert a + b == b;
    } else {
      assert (a + b)[1..] == a[1..] + b;
      FlattenConcat(a[1..], b);
    }
  }

  /** A piece that is set apart by its leading `<`, or has neither `<` nor a line feed. */
  predicate Regular(p: Bytes) {
    StartsWithLess(p) || (LESS !in p && NEWLINE !in p)
  }

  lemma FlattenJoin(before: seq<Bytes>, a: Bytes, b: Bytes, after: seq<Bytes>)
    ensures Flatten(before + [a, b] + after) == Flatten(before + [a + b] + after)
  {
    FlattenConcat(before + [a, b], after);
    FlattenConcat(before, [a, b]);
    FlattenConcat(before + [a + b], after);
    FlattenConcat(before, [a + b]);
    assert Flatten([a, b]) == a + b by {
      assert [a, b][1..] == [b] && [b][1..] == [];
      assert Flatten([b]) == b;
    }
    assert Flatten([a + b]) == a + b by { assert [a + b][1..] == []; }
  }

  ghost predicate AllRegular(pieces: seq<Bytes>) {
    forall k | 0 <= k < |pieces| :: Regular(pieces[k])
  }

  /** The piece was there before, or has no `<`. */
  ghost predicate OldOrPlain(p: Bytes, pieces: seq<Bytes>) {
    p in pieces || LESS !in p
  }

  lemma RuleAt(m: Merges, pieces: seq<Bytes>, i: nat)
    requires SoundRules(m) && AllRegular(pieces) && i + 1 < |pieces| && MergeableAt(m, pieces, i)
    ensures MergeAt(m, pieces, i) == pieces[..i] + [pieces[i] + pieces[i + 1]] + pieces[i + 2..]
    ensures Regular(pieces[i] + pieces[i + 1]) && LESS !in pieces[i] + pieces[i + 1]
  {
    assert Regular(pieces[i]) && Regular(pieces[i + 1]);
  }

  lemma MergeAtKeepsText(m: Merges, pieces: seq<Bytes>, i: nat)
    requires SoundRules(m) && AllRegular(pieces) && i + 1 < |pieces| && MergeableAt(m, pieces, i)
    ensures Flatten(MergeAt(m, pieces, i)) == Flatten(pieces)
  {
    hide Flatten, MergeAt, SoundRules, AllRegular, MergeableAt;
    RuleAt(m, pieces, i);
    SplitAtPair(pieces, i);
    FlattenJoin(pieces[..i], pieces[i], pieces[i + 1], pieces[i + 2..]);
  }

  lemma SplitAtPair(pieces: seq<Bytes>, i: nat)
    requires i + 1 < |pieces|
    ensures pieces == pieces[..i] + [pieces[i], pieces[i + 1]] + pieces[i + 2..]
  {}

  lemma MergeAtStaysRegular(m: Merges, pieces: seq<Bytes>, i: nat)
    requires SoundRules(m) && AllRegular(pieces) && i + 1 < |pieces| && MergeableAt(m, pieces, i)
    ensures AllRegular(MergeAt(m, pieces, i))
    ensures forall p | p in MergeAt(m, pieces, i) :: OldOrPlain(p, pieces)
  {
    RuleAt(m, pieces, i);
    var r := MergeAt(m, pieces, i);
    hide MergeAt, Regular, SoundRules;
    forall k | 0 <= k < |r| ensures Regular(r[k]) && OldOrPlain(r[k], pieces) {
      assert r[k] == if k < i then pieces[k] else if k == i then pieces[i] + pieces[i + 1] else pieces[k + 1];
    }
  }

  /** Merging keeps the text the pieces spell, and every piece it creates is free of `<`. */
  lemma {:induction false} MergedKeepsText(m: Merges, pieces: seq<Bytes>, result: seq<Bytes>)
    requires SoundRules(m) && AllRegular(pieces) && IsMerged(m, pieces, result)
    ensures Flatten(result) == Flatten(pieces)
    ensures forall p | p in result :: OldOrPlain(p, pieces)
    decreases |pieces|
  {
    if !NothingToMerge(m, pieces) {
      var i: nat :| IsBest(m, pieces, i) && IsMerged(m, MergeAt(m, pieces, i), result);
      MergeAtKeepsText(m, pieces, i);
      MergeAtStaysRegular(m, pieces, i);
      MergedKeepsText(m, MergeAt(m, pieces, i), result);
      hide MergeAt, SoundRules, AllRegular, IsMerged, IsBest;
    }
  }

  // ---- Vocabularies without a line feed ----

  /** A piece that is set apart by its leading `<`, or consists of line feeds. */
  ghost predicate Apart(p: Bytes) {
    StartsWithLess(p) || OnlyLineFeeds(p)
  }

  ghost predicate AllApart(pieces: seq<Bytes>) {
    forall k | 0 <= k < |pieces| :: Apart(pieces[k])
  }

  lemma ApartMerge(lines: seq<Bytes>, pieces: seq<Bytes>, i: nat)
    requires AllApart(pieces) && i + 1 < |pieces| && MergeableAt(MergesOf(lines), pieces, i)
    ensures MergeAt(MergesOf(lines), pieces, i) == pieces[..i] + [pieces[i] + pieces[i + 1]] + pieces[i + 2..]
    ensures AllApart(MergeAt(MergesOf(lines), pieces, i))
    ensures Flatten(MergeAt(MergesOf(lines), pieces, i)) == Flatten(pieces)
  {
    assert Apart(pieces[i]) && Apart(pieces[i + 1]);
    LineFeedRule(lines, pieces[i], pieces[i + 1]);
    assert OnlyLineFeeds(pieces[i] + pieces[i + 1]);
    hide MergesOf, Flatten, OnlyLineFeeds;
    var r := MergeAt(MergesOf(lines), pieces, i);
    forall k | 0 <= k < |r| ensures Apart(r[k]) {
      assert r[k] == if k < i then pieces[k] else if k == i then pieces[i] + pieces[i + 1] else pieces[k + 1];
    }
    SplitAtPair(pieces, i);
    FlattenJoin(pieces[..i], pieces[i], pieces[i + 1], pieces[i + 2..]);
  }

  /** When only line feeds can merge, merging keeps the text. */
  lemma {:induction false} ApartKeepsText(lines: seq<Bytes>, pieces: seq<Bytes>, result: seq<Bytes>)
    requires AllApart(pieces) && IsMerged(MergesOf(lines), pieces, result)
    ensures Flatten(result) == Flatten(pieces)
    decreases |pieces|
  {
    var m := MergesOf(lines);
    hide MergesOf, AllApart, MergeAt, Flatten;
    if !NothingToMerge(m, pieces) {
      var i: nat :| IsBest(m, pieces, i) && IsMerged(m, MergeAt(m, pieces, i), result);
      ApartMerge(lines, pieces, i);
      ApartKeepsText(lines, MergeAt(m, pieces, i), result);
    }
  }

  /** Two rules that read a key with two line feeds in two ways: `\n c` makes `\nc`, and then the line
      ` c\nc` takes `\nc` and `c` for its own parts. */
  function ConfusingLines(c: Bytes): seq<Bytes> {
    [[NEWLINE, SPACE] + c, [SPACE] + c + [NEWLINE] + c]
  }

  lemma TwoRules(first: Bytes, second: Bytes)
    requires SplitOnce(first).Some? && SplitOnce(second).Some?
    ensures var a, b := SplitOnce(first).value, SplitOnce(second).value;
            MergesOf([first, second])
            == map[PairKey(a.0, a.1) := MergeRule(a.0 + a.1, 0)][PairKey(b.0, b.1) := MergeRule(b.0 + b.1, 1)]
  {
    hide MergesOf, SplitOnce, Ranked, PairKey;
    MergesMore([], first);
    MergesMore([first], second);
    assert [] + [first] == [first] && [first] + [second] == [first, second];
  }

  ghost predicate Confused(m: Merges, c: Bytes) {
    && m.Keys == {[NEWLINE, NEWLINE] + c, [NEWLINE] + c + [NEWLINE] + c}
    && m[[NEWLINE, NEWLINE] + c] == MergeRule([NEWLINE] + c, 0)
    && m[[NEWLINE] + c + [NEWLINE] + c] == MergeRule(c + [NEWLINE] + c, 1)
  }

  lemma ConfusedRules(c: Bytes)
    requires c != []
    ensures Confused(MergesOf(ConfusingLines(c)), c)
  {
    hide SplitOnce, MergesOf;
    var first, second := [NEWLINE, SPACE] + c, [SPACE] + c + [NEWLINE] + c;
    SplitCons(SPACE, c);
    SplitCons(NEWLINE, [SPACE] + c);
    SplitCons(SPACE, c + [NEWLINE] + c);
    assert [NEWLINE] + ([SPACE] + c) == first && [SPACE] + (c + [NEWLINE] + c) == second;
    assert [NEWLINE] + [] == [NEWLINE];
    TwoRules(first, second);
    var k0, k1 := PairKey([NEWLINE], c), PairKey([], c + [NEWLINE] + c);
    assert k0 == [NEWLINE, NEWLINE] + c && k1 == [NEWLINE] + c + [NEWLINE] + c;
    assert |k0| != |k1|;
    assert [] + (c + [NEWLINE] + c) == c + [NEWLINE] + c;
  }

  /** What becomes of a line feed and two copies of an unmarked piece under these rules. */
  lemma ConfusedMerge(m: Merges, c: Bytes)
    requires Confused(m, c) && c != [] && c[0] != NEWLINE && !StartsWithLess(c)
    ensures IsMerged(m, [[NEWLINE], c, c], [c + [NEWLINE] + c])
    ensures Flatten([c + [NEWLINE] + c]) != Flatten([[NEWLINE], c, c])
  {
    FirstConfusion(m, c);
    SecondConfusion(m, c);
    MergedStep(m, [[NEWLINE] + c, c], 0, [c + [NEWLINE] + c]);
    MergedStep(m, [[NEWLINE], c, c], 0, [c + [NEWLINE] + c]);
    hide IsMerged, IsBest, MergeAt, Confused;
    assert [[NEWLINE], c, c][0] == [NEWLINE];
    assert Flatten([[NEWLINE], c, c])[0] == NEWLINE;
    assert Flatten([c + [NEWLINE] + c])[0] == c[0];
  }

  lemma FirstConfusion(m: Merges, c: Bytes)
    requires Confused(m, c) && c != [] && c[0] != NEWLINE && !StartsWithLess(c)
    ensures var p: seq<Bytes> := [[NEWLINE], c, c]; IsBest(m, p, 0) && MergeAt(m, p, 0) == [[NEWLINE] + c, c]
  {
    var p: seq<Bytes> := [[NEWLINE], c, c];
    assert PairKey([NEWLINE], c) == [NEWLINE, NEWLINE] + c;
    var k := PairKey(c, c);
    assert k[0] == c[0] && ([NEWLINE, NEWLINE] + c)[0] == NEWLINE && ([NEWLINE] + c + [NEWLINE] + c)[0] == NEWLINE;
    assert !MergeableAt(m, p, 1);
  }

  lemma SecondConfusion(m: Merges, c: Bytes)
    requires Confused(m, c) && c != [] && c[0] != NEWLINE && !StartsWithLess(c)
    ensures var p: seq<Bytes> := [[NEWLINE] + c, c];
            && IsBest(m, p, 0) && MergeAt(m, p, 0) == [c + [NEWLINE] + c]
            && IsMerged(m, MergeAt(m, p, 0), [c + [NEWLINE] + c])
  {
    var p: seq<Bytes> := [[NEWLINE] + c, c];
    assert PairKey([NEWLINE] + c, c) == [NEWLINE] + c + [NEWLINE] + c;
    assert NothingToMerge(m, [c + [NEWLINE] + c]);
  }
}
