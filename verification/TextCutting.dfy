/** How the tokenizer cuts a text: special tokens whole, everything else byte by byte. */
module TextCutting {
  import opened Words
  import opened ByteTable
  import opened Bpe
  import opened Tokenizer

  /** The text holds no special token of the vocabulary. */
  ghost predicate Unmarked(ids: map<Bytes, nat>, t: Bytes) {
    forall pos: nat | pos < |t| :: TheSpecialAt(ids, t, pos) == None
  }

  function BytePieces(ids: map<Bytes, nat>, t: Bytes): (p: seq<Bytes>)
    ensures |p| == |t|
  {
    seq(|t|, i requires 0 <= i < |t| => BytePiece(ids, t[i]))
  }

  /** Behind its first character a special token has neither `<` nor a line feed. */
  ghost predicate PlainInside(b: Bytes) {
    forall i | 0 < i < |b| :: b[i] != LESS && b[i] != NEWLINE
  }

  lemma SpecialInside(k: nat)
    requires k < |Specials()|
    ensures PlainInside(Special(k))
  {
    if k < 3 { FirstInside(k); } else if k < 5 { SecondInside(k); } else if k < 7 { ThirdInside(k); }
    if 7 <= k < 10 { FourthInside(k); } else if k >= 10 { LastInside(k); }
    hide PlainInside;
  }

  lemma FirstInside(k: nat)
    requires k < 3
    ensures PlainInside(Special(k))
  {}

  lemma SecondInside(k: nat)
    requires 3 <= k < 5
    ensures PlainInside(Special(k))
  {}

  lemma ThirdInside(k: nat)
    requires 5 <= k < 7
    ensures PlainInside(Special(k))
  {}

  lemma FourthInside(k: nat)
    requires 7 <= k < 10
    ensures PlainInside(Special(k))
  {}

  lemma LastInside(k: nat)
    requires 10 <= k < |Specials()|
    ensures PlainInside(Special(k))
  {}

  /** A special token does not begin in a text without one and end behind it, if a line feed or `<` follows. */
  lemma NothingCrosses(ids: map<Bytes, nat>, before: Bytes, t: Bytes, after: Bytes, pos: nat)
    requires Unmarked(ids, t) && pos < |t| && after != [] && (after[0] == NEWLINE || after[0] == LESS)
    ensures TheSpecialAt(ids, before + t + after, |before| + pos) == None
  {
    var text, at := before + t + after, |before| + pos;
    if TheSpecialAt(ids, text, at).Some? {
      var token := TheSpecialAt(ids, text, at).value;
      var k: nat :| k < |Specials()| && token == Special(k);
      SpecialInside(k);
      hide Special, Specials, IsSpecial;
      TokenStays(before, t, after, pos, token);
      NoToken(ids, t, pos, token);
      assert false;
    }
  }

  lemma TokenStays(before: Bytes, t: Bytes, after: Bytes, pos: nat, token: Bytes)
    requires MatchesAt(before + t + after, |before| + pos, token) && PlainInside(token) && pos < |t|
    requires after != [] && (after[0] == NEWLINE || after[0] == LESS)
    ensures MatchesAt(t, pos, token)
  {
    if pos + |token| > |t| {
      CrossingCharacter(before, t, after, pos, token);
      assert false;
    }
    var text, at := before + t + after, |before| + pos;
    assert text[at..at + |token|] == t[pos..pos + |token|];
  }

  lemma CrossingCharacter(before: Bytes, t: Bytes, after: Bytes, pos: nat, token: Bytes)
    requires MatchesAt(before + t + after, |before| + pos, token) && pos < |t| < pos + |token| && after != []
    ensures token[|t| - pos] == after[0]
  {
    var text, at := before + t + after, |before| + pos;
    assert text[at..at + |token|][|t| - pos] == after[0];
  }

  lemma NoToken(ids: map<Bytes, nat>, t: Bytes, pos: nat, token: Bytes)
    requires Unmarked(ids, t) && pos < |t|
    ensures !KnownSpecialAt(ids, t, pos, token)
  {
    assert TheSpecialAt(ids, t, pos) == None;
  }

  /** A stretch without special tokens is cut into bytes. */
  lemma {:induction false} StretchIsCut(ids: map<Bytes, nat>, before: Bytes, t: Bytes, after: Bytes, pos: nat)
    requires Unmarked(ids, t) && pos <= |t| && after != [] && (after[0] == NEWLINE || after[0] == LESS)
    ensures InitialPieces(ids, before + t + after, |before| + pos)
            == BytePieces(ids, t[pos..]) + InitialPieces(ids, before + t + after, |before + t|)
    decreases |t| - pos
  {
    hide InitialPieces, Unmarked, BytePiece;
    if pos < |t| {
      NothingCrosses(ids, before, t, after, pos);
      OneCut(ids, before + t + after, |before| + pos);
      StretchIsCut(ids, before, t, after, pos + 1);
      assert t[pos..] == [t[pos]] + t[pos + 1..];
    }
  }

  /** A marker of the vocabulary is one piece wherever it stands. */
  lemma MarkerIsCut(ids: map<Bytes, nat>, before: Bytes, marker: Bytes, after: Bytes)
    requires IsSpecial(marker) && marker in ids && marker != []
    ensures InitialPieces(ids, before + marker + after, |before|)
            == [marker] + InitialPieces(ids, before + marker + after, |before + marker|)
  {
    var text := before + marker + after;
    hide InitialPieces, IsSpecial;
    assert text[|before|..|before| + |marker|] == marker;
    assert KnownSpecialAt(ids, text, |before|, marker);
    TheOneSpecial(ids, text, |before|, marker);
    OneCut(ids, text, |before|);
  }

  lemma TheOneSpecial(ids: map<Bytes, nat>, text: Bytes, pos: nat, token: Bytes)
    requires KnownSpecialAt(ids, text, pos, token)
    ensures TheSpecialAt(ids, text, pos) == Some(token)
  {
    hide KnownSpecialAt;
    var t := TheSpecialAt(ids, text, pos);
    assert t.Some?;
    KnownSpecialIsUnique(ids, text, pos, t.value, token);
  }

  /** The special tokens by name. */
  lemma SpecialNames()
    ensures |Specials()| == 14 && IsSpecial(Ascii("<|endoftext|>"))
    ensures IsSpecial(Ascii("<|object_ref_start|>")) && IsSpecial(Ascii("<|object_ref_end|>"))
    ensures IsSpecial(Ascii("<|box_start|>")) && IsSpecial(Ascii("<|box_end|>"))
    ensures IsSpecial(Ascii("<|quad_start|>")) && IsSpecial(Ascii("<|quad_end|>"))
    ensures IsSpecial(Ascii("<|vision_start|>")) && IsSpecial(Ascii("<|vision_end|>"))
    ensures IsSpecial(Ascii("<|vision_pad|>")) && IsSpecial(Ascii("<|image_pad|>")) && IsSpecial(Ascii("<|video_pad|>"))
  {
    hide Ascii;
    assert Special(0) == Ascii("<|endoftext|>") && Special(3) == Ascii("<|object_ref_start|>");
    assert Special(4) == Ascii("<|object_ref_end|>") && Special(5) == Ascii("<|box_start|>");
    assert Special(6) == Ascii("<|box_end|>") && Special(7) == Ascii("<|quad_start|>");
    assert Special(8) == Ascii("<|quad_end|>") && Special(9) == Ascii("<|vision_start|>");
    assert Special(10) == Ascii("<|vision_end|>") && Special(11) == Ascii("<|vision_pad|>");
    assert Special(12) == Ascii("<|image_pad|>") && Special(13) == Ascii("<|video_pad|>");
  }

  lemma Markers()
    ensures IsSpecial(Ascii("<|im_start|>")) && IsSpecial(Ascii("<|im_end|>"))
    ensures Ascii("<|im_start|>") != [] && Ascii("<|im_end|>") != []
  {
    assert Special(1) == Ascii("<|im_start|>") && Special(2) == Ascii("<|im_end|>");
    assert |Specials()| == 14;
    hide Special, Specials, Ascii;
  }

  /** A stretch without `<` is cut into bytes whatever follows. */
  lemma {:induction false} PlainIsCut(ids: map<Bytes, nat>, before: Bytes, t: Bytes, after: Bytes, pos: nat)
    requires LESS !in t && pos <= |t|
    ensures InitialPieces(ids, before + t + after, |before| + pos)
            == BytePieces(ids, t[pos..]) + InitialPieces(ids, before + t + after, |before + t|)
    decreases |t| - pos
  {
    hide InitialPieces, BytePiece, TheSpecialAt;
    if pos < |t| {
      NothingSpecial(ids, before + t + after, |before| + pos);
      OneCut(ids, before + t + after, |before| + pos);
      PlainIsCut(ids, before, t, after, pos + 1);
      assert t[pos..] == [t[pos]] + t[pos + 1..];
    }
  }

  lemma UnmarkedIs(ids: map<Bytes, nat>, t: Bytes)
    requires forall pos: nat | pos < |t| :: TheSpecialAt(ids, t, pos) == None
    ensures Unmarked(ids, t)
  {}

  lemma NothingAtEnd(ids: map<Bytes, nat>, before: Bytes, t: Bytes, pos: nat)
    requires Unmarked(ids, t) && pos < |t|
    ensures TheSpecialAt(ids, before + t, |before| + pos) == None
  {
    hide Unmarked, IsSpecial;
    var text, at := before + t, |before| + pos;
    if TheSpecialAt(ids, text, at).Some? {
      var token := TheSpecialAt(ids, text, at).value;
      assert text[at..at + |token|] == t[pos..pos + |token|];
      NoToken(ids, t, pos, token);
      assert false;
    }
  }

  lemma PartStands(text: Bytes, at: nat, a: Bytes, b: Bytes)
    requires Stands(text, at, a + b)
    ensures Stands(text, at, a) && Stands(text, at + |a|, b)
  {
    assert text[at..at + |a|] == text[at..at + |a + b|][..|a|];
    assert text[at + |a|..at + |a| + |b|] == text[at..at + |a + b|][|a|..];
  }

  lemma Whole(text: Bytes)
    ensures Stands(text, 0, text)
  {}

  lemma Around(text: Bytes, at: nat, t: Bytes)
    requires Stands(text, at, t)
    ensures text == text[..at] + t + text[at + |t|..] && |text[..at] + t| == at + |t|
  {}

  lemma MarkerAt(ids: map<Bytes, nat>, text: Bytes, at: nat, marker: Bytes)
    requires IsSpecial(marker) && marker in ids && marker != [] && Stands(text, at, marker)
    ensures InitialPieces(ids, text, at) == [marker] + InitialPieces(ids, text, at + |marker|)
  {
    hide *;
    Around(text, at, marker);
    MarkerIsCut(ids, text[..at], marker, text[at + |marker|..]);
  }

  lemma PlainAt(ids: map<Bytes, nat>, text: Bytes, at: nat, t: Bytes)
    requires LESS !in t && Stands(text, at, t)
    ensures InitialPieces(ids, text, at) == BytePieces(ids, t) + InitialPieces(ids, text, at + |t|)
  {
    hide *;
    Around(text, at, t);
    PlainIsCut(ids, text[..at], t, text[at + |t|..], 0);
    assert t[0..] == t;
  }

  lemma StretchAt(ids: map<Bytes, nat>, text: Bytes, at: nat, t: Bytes)
    requires Unmarked(ids, t) && Stands(text, at, t) && at + |t| < |text|
    requires text[at + |t|] == NEWLINE || text[at + |t|] == LESS
    ensures InitialPieces(ids, text, at) == BytePieces(ids, t) + InitialPieces(ids, text, at + |t|)
  {
    hide *;
    Around(text, at, t);
    StretchIsCut(ids, text[..at], t, text[at + |t|..], 0);
    assert t[0..] == t;
  }

  // ---- Text without rules ----

  lemma PlainText(ids: map<Bytes, nat>, text: Bytes)
    requires LESS !in text
    ensures InitialPieces(ids, text, 0) == BytePieces(ids, text)
  {
    hide *;
    Whole(text);
    PlainAt(ids, text, 0, text);
    EndOfText(ids, text);
    assert BytePieces(ids, text) + [] == BytePieces(ids, text);
  }

  /** A vocabulary that has the letters of a text encodes it, without rules, as the ids of these letters. */
  lemma LettersAreEncoded(ids: map<Bytes, nat>, unk: int, text: Bytes, merged: seq<Bytes>, k: nat)
    requires LESS !in text && k < |text| && forall i | 0 <= i < |text| :: Letter(text[i]) in ids
    requires IsMerged(MergesOf([]), InitialPieces(ids, text, 0), merged)
    ensures |PieceIds(ids, unk, merged)| == |text| && PieceIds(ids, unk, merged)[k] == ids[Letter(text[k])]
  {
    hide InitialPieces, ByteEncoder, Letter;
    PlainText(ids, text);
    Alphabet(text[k]);
  }

  /** With the one rule line `a b`, the text `ab` is one piece. */
  lemma RuleIsApplied(ids: map<Bytes, nat>, unk: int, a: U8, b: U8, merged: seq<Bytes>)
    requires 33 <= a <= 126 && 33 <= b <= 126 && a != LESS && b != LESS
    requires [a] in ids && [b] in ids && [a, b] in ids
    requires IsMerged(MergesOf([[a, 32, b]]), InitialPieces(ids, [a, b], 0), merged)
    ensures merged == [[a, b]] && PieceIds(ids, unk, merged) == [ids[[a, b]]]
  {
    hide InitialPieces, ByteEncoder;
    PlainText(ids, [a, b]);
    Alphabet(a);
    Alphabet(b);
    assert BytePieces(ids, [a, b]) == [[a], [b]];
    PairMerges(a, b);
    MergedIsUnique(MergesOf([[a, 32, b]]), [[a], [b]], merged, [[a, b]]);
  }

  lemma PairMerges(a: U8, b: U8)
    requires 33 <= a <= 126 && 33 <= b <= 126 && a != LESS && b != LESS
    ensures IsMerged(MergesOf([[a, 32, b]]), [[a], [b]], [[a, b]])
  {
    var line := [a, 32, b];
    SplitCons(SPACE, [b]);
    SplitCons(a, [SPACE, b]);
    assert [SPACE] + [b] == [SPACE, b] && [a] + [SPACE, b] == line && [a] + [] == [a];
    MergesMore([], line);
    assert [] + [line] == [line];
    var m := MergesOf([line]);
    hide MergesOf, SplitOnce, Ranked;
    assert PairKey([a], [b]) in m && m[PairKey([a], [b])].merged == [a] + [b] == [a, b];
    assert IsBest(m, [[a], [b]], 0) && MergeAt(m, [[a], [b]], 0) == [[a, b]];
    assert NothingToMerge(m, [[a, b]]);
    MergedStep(m, [[a], [b]], 0, [[a, b]]);
  }

  /** Of equal pairs the leftmost is merged first: with the rule `a a` the text `aaa` is `aa` and `a`. */
  lemma LeftmostFirst(ids: map<Bytes, nat>, a: U8, merged: seq<Bytes>)
    requires 33 <= a <= 126 && a != LESS && [a] in ids
    requires IsMerged(MergesOf([[a, 32, a]]), InitialPieces(ids, [a, a, a], 0), merged)
    ensures merged == [[a, a], [a]]
  {
    hide InitialPieces, ByteEncoder, IsMerged, MergesOf;
    PlainText(ids, [a, a, a]);
    Alphabet(a);
    assert BytePieces(ids, [a, a, a]) == [[a], [a], [a]];
    TripleMerges(a);
    MergedIsUnique(MergesOf([[a, 32, a]]), [[a], [a], [a]], merged, [[a, a], [a]]);
  }

  lemma OneRule(a: U8, b: U8)
    requires a != 32
    ensures MergesOf([[a, 32, b]]) == map[[a, 10, b] := MergeRule([a, b], 0)]
  {
    SplitCons(SPACE, [b]);
    SplitCons(a, [SPACE, b]);
    assert [SPACE] + [b] == [SPACE, b] && [a] + [SPACE, b] == [a, 32, b] && [a] + [] == [a];
    MergesMore([], [a, 32, b]);
    assert [] + [[a, 32, b]] == [[a, 32, b]];
    hide MergesOf, SplitOnce, Ranked;
    assert PairKey([a], [b]) == [a, 10, b] && [a] + [b] == [a, b];
  }

  lemma TripleMerges(a: U8)
    requires 33 <= a <= 126 && a != LESS
    ensures IsMerged(MergesOf([[a, 32, a]]), [[a], [a], [a]], [[a, a], [a]])
  {
    OneRule(a, a);
    var m := MergesOf([[a, 32, a]]);
    hide MergesOf;
    assert PairKey([a], [a]) == [a, 10, a] && PairKey([a, a], [a]) == [a, a, 10, a];
    assert |[a, a, 10, a]| != |[a, 10, a]|;
    assert IsBest(m, [[a], [a], [a]], 0) && MergeAt(m, [[a], [a], [a]], 0) == [[a, a], [a]];
    assert NothingToMerge(m, [[a, a], [a]]);
    MergedStep(m, [[a], [a], [a]], 0, [[a, a], [a]]);
  }

  /** An earlier rule goes before one further left: with `b c` and then `a b` the text `abc` is `a` and `bc`. */
  lemma EarlierRuleFirst(ids: map<Bytes, nat>, a: U8, b: U8, c: U8, merged: seq<Bytes>)
    requires 33 <= a <= 126 && 33 <= b <= 126 && 33 <= c <= 126 && a != b && b != c && LESS !in [a, b, c]
    requires [a] in ids && [b] in ids && [c] in ids
    requires IsMerged(MergesOf([[b, 32, c], [a, 32, b]]), InitialPieces(ids, [a, b, c], 0), merged)
    ensures merged == [[a], [b, c]]
  {
    hide InitialPieces, ByteEncoder, IsMerged, MergesOf;
    assert a in [a, b, c] && b in [a, b, c] && c in [a, b, c];
    PlainText(ids, [a, b, c]);
    Alphabet(a);
    Alphabet(b);
    Alphabet(c);
    assert BytePieces(ids, [a, b, c]) == [[a], [b], [c]];
    RanksDecide(a, b, c);
    MergedIsUnique(MergesOf([[b, 32, c], [a, 32, b]]), [[a], [b], [c]], merged, [[a], [b, c]]);
  }

  lemma TwoRuleLines(a: U8, b: U8, c: U8)
    requires a != 32 && b != 32 && a != b
    ensures MergesOf([[b, 32, c], [a, 32, b]])
            == map[[b, 10, c] := MergeRule([b, c], 0), [a, 10, b] := MergeRule([a, b], 1)]
  {
    SplitCons(SPACE, [b]);
    SplitCons(a, [SPACE, b]);
    SplitCons(SPACE, [c]);
    SplitCons(b, [SPACE, c]);
    assert [SPACE] + [b] == [SPACE, b] && [a] + [SPACE, b] == [a, 32, b] && [a] + [] == [a];
    assert [SPACE] + [c] == [SPACE, c] && [b] + [SPACE, c] == [b, 32, c] && [b] + [] == [b];
    hide SplitOnce;
    TwoRules([b, 32, c], [a, 32, b]);
    hide MergesOf;
    assert PairKey([a], [b]) == [a, 10, b] && PairKey([b], [c]) == [b, 10, c];
    assert [a] + [b] == [a, b] && [b] + [c] == [b, c];
  }

  lemma RanksDecide(a: U8, b: U8, c: U8)
    requires 33 <= a <= 126 && 33 <= b <= 126 && 33 <= c <= 126 && a != b && b != c
    requires a != LESS && b != LESS && c != LESS
    ensures IsMerged(MergesOf([[b, 32, c], [a, 32, b]]), [[a], [b], [c]], [[a], [b, c]])
  {
    TwoRuleLines(a, b, c);
    var m := MergesOf([[b, 32, c], [a, 32, b]]);
    hide MergesOf;
    var p: seq<Bytes> := [[a], [b], [c]];
    assert PairKey([a], [b]) == [a, 10, b] && PairKey([b], [c]) == [b, 10, c] && [a, 10, b][0] != [b, 10, c][0];
    assert PairKey([a], [b, c]) == [a, 10, b, c];
    assert MergeableAt(m, p, 0) && RankAt(m, p, 0) == 1 && MergeableAt(m, p, 1) && RankAt(m, p, 1) == 0;
    assert IsBest(m, p, 1) && MergeAt(m, p, 1) == [[a], [b, c]];
    assert NothingToMerge(m, [[a], [b, c]]);
    MergedStep(m, p, 1, [[a], [b, c]]);
  }

  /** The text "!" in such a vocabulary. */
  lemma ExclamationMark(ids: map<Bytes, nat>, unk: int, merged: seq<Bytes>)
    requires [33] in ids && IsMerged(MergesOf([]), InitialPieces(ids, [33], 0), merged)
    ensures PieceIds(ids, unk, merged) == [ids[[33]]]
  {
    hide InitialPieces, IsMerged, MergesOf;
    LettersAreEncoded(ids, unk, [33], merged, 0);
  }

  lemma HexPrefix()
    ensures Ascii("<0x") == [60, 48, 120]
  {}

  /** A `<0xXX>` piece, character by character. */
  lemma HexPieceBytes(b: U8)
    ensures HexPiece(b) == [60, 48, 120] + [DigitByte(b / 16), DigitByte(b % 16), 62]
  {
    HexPrefix();
    DigitBytes(b / 16);
    DigitBytes(b % 16);
    DigitText(HexDigit(b / 16), HexDigit(b % 16));
    hide Ascii, HexDigit, DigitByte;
  }

  /** Digits and capital letters. */
  function DigitByte(n: nat): U8
    requires n < 16
  {
    if n < 10 then 48 + n else 55 + n
  }

  lemma DigitText(a: char, b: char)
    requires a as int < 128 && b as int < 128
    ensures Ascii([a, b, '>']) == [a as int, b as int, 62]
  {}

  lemma DigitBytes(n: nat)
    requires n < 16
    ensures HexDigit(n) as int == DigitByte(n) && DigitByte(n) < 128
  {}

  /** Digits of both cases are read, other characters as zero. */
  lemma HexPieceIsRead(d: U8, e: U8)
    ensures var token := [60, 48, 120, d, e, 62]; PieceBytes(token) == [HexDigitValue(d) * 16 + HexDigitValue(e)]
  {
    var token := [60, 48, 120, d, e, 62];
    HexPrefix();
    DigitIsRead(d);
    DigitIsRead(e);
    hide Ascii, HexValue, HexDigitValue, ParseBytes;
    assert token[..3] == [60, 48, 120];
  }

  lemma DigitIsRead(c: U8)
    ensures HexValue(c) == HexDigitValue(c)
  {}

  function HexDigitValue(c: U8): (v: nat)
    ensures v < 16
  {
    if c in [48, 49, 50, 51, 52, 53, 54, 55, 56, 57] then c - 48
    else if c in [65, 66, 67, 68, 69, 70] then 10 + (c - 65)
    else if c in [97, 98, 99, 100, 101, 102] then 10 + (c - 97)
    else 0
  }

  /** A token is dropped when it is decoded exactly if it begins with `<|` and ends with `|>`. */
  lemma DroppedExactly(token: Bytes)
    ensures LooksSpecial(token)
            <==> && |token| >= 3 && token[0] == 60 && token[1] == 124
                 && token[|token| - 2] == 124 && token[|token| - 1] == 62
  {
    assert Ascii("<|") == [60, 124] && Ascii("|>") == [124, 62];
    hide Ascii;
    if |token| >= 3 {
      assert token[..2] == [token[0], token[1]];
      assert token[|token| - 2..] == [token[|token| - 2], token[|token| - 1]];
    }
  }
}
