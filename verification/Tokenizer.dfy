/** The tokenizer: special tokens, byte pieces, merging, and the way back to text. */
module Tokenizer {
  import opened Words
  import opened ByteTable
  import opened Bpe

  // ---- Special tokens ----

  /** The list that `is_special_at` goes through. */
  function Specials(): seq<string> {
    [
      "<|endoftext|>", "<|im_start|>", "<|im_end|>", "<|object_ref_start|>", "<|object_ref_end|>",
      "<|box_start|>", "<|box_end|>", "<|quad_start|>", "<|quad_end|>", "<|vision_start|>",
      "<|vision_end|>", "<|vision_pad|>", "<|image_pad|>", "<|video_pad|>"
    ]
  }

  function Special(k: nat): Bytes
    requires k < |Specials()|
  {
    Ascii(Specials()[k])
  }

  predicate MatchesAt(text: Bytes, pos: nat, token: Bytes) {
    pos + |token| <= |text| && text[pos..pos + |token|] == token
  }

  ghost predicate IsSpecial(token: Bytes) {
    exists k: nat :: k < |Specials()| && token == Special(k)
  }

  /** `<|...|>`, with `>` at its end only. */
  ghost predicate IsMarked(s: string) {
    && |s| >= 5 && s[0] == '<' && s[1] == '|' && s[|s| - 2] == '|' && s[|s| - 1] == '>'
    && forall i | 0 <= i < |s| - 1 :: s[i] != '>' && s[i] as int < 128
  }

  lemma SpecialShape(k: nat)
    requires k < |Specials()|
    ensures IsMarked(Specials()[k])
  {
    if k < 7 { EarlySpecialShape(k); } else { LateSpecialShape(k); }
    hide IsMarked;
  }

  lemma EarlySpecialShape(k: nat)
    requires k < 7
    ensures IsMarked(Specials()[k])
  {}

  lemma LateSpecialShape(k: nat)
    requires 7 <= k < |Specials()|
    ensures IsMarked(Specials()[k])
  {}

  /** `<|` in front and `|>` at the end: the shape `decode_token` drops. */
  predicate LooksSpecial(token: Bytes) {
    |token| >= 3 && token[..2] == Ascii("<|") && token[|token| - 2..] == Ascii("|>")
  }

  ghost predicate EndsAtFirstGreater(b: Bytes) {
    |b| >= 5 && b[|b| - 1] == 62 && forall i | 0 <= i < |b| - 1 :: b[i] != 62
  }

  lemma MarkedBytes(s: string)
    requires IsMarked(s)
    ensures LooksSpecial(Ascii(s)) && StartsWithLess(Ascii(s)) && EndsAtFirstGreater(Ascii(s))
  {
    var b := Ascii(s);
    assert b[0] == 60 && b[1] == 124 && b[|s| - 2] == 124 && b[|s| - 1] == 62;
    assert Ascii("<|") == [60, 124] && Ascii("|>") == [124, 62];
  }

  lemma SpecialBytes(k: nat)
    requires k < |Specials()|
    ensures LooksSpecial(Special(k)) && StartsWithLess(Special(k)) && EndsAtFirstGreater(Special(k))
  {
    hide Ascii, LooksSpecial, StartsWithLess, EndsAtFirstGreater, IsMarked;
    SpecialShape(k);
    MarkedBytes(Specials()[k]);
  }

  /** At most one special token starts at a position. */
  lemma OneSpecialMatches(text: Bytes, pos: nat, j: nat, k: nat)
    requires j < |Specials()| && k < |Specials()| && MatchesAt(text, pos, Special(j))
             && MatchesAt(text, pos, Special(k))
    ensures Special(j) == Special(k)
  {
    SpecialBytes(j);
    SpecialBytes(k);
    var a, b := Special(j), Special(k);
    hide Special, Specials;
    assert |b| <= |a| by {
      assert forall i | 0 <= i < |a| && i < |b| :: a[i] == text[pos + i] == b[i];
    }
    assert |a| <= |b| by {
      assert forall i | 0 <= i < |a| && i < |b| :: a[i] == text[pos + i] == b[i];
    }
  }

  /** `is_special_at`: the first list entry that matches. */
  method IsSpecialAt(text: Bytes, pos: nat) returns (special: Option<Bytes>)
    ensures special.Some? ==> IsSpecial(special.value) && MatchesAt(text, pos, special.value) && special.value != []
    ensures special.None? ==> forall token | IsSpecial(token) :: !MatchesAt(text, pos, token)
  {
    hide Special;
    for k := 0 to |Specials()|
      invariant forall j: nat | j < k :: !MatchesAt(text, pos, Special(j))
    {
      if MatchesAt(text, pos, Special(k)) {
        SpecialBytes(k);
        return Some(Special(k));
      }
    }
    return None;
  }

  // ---- Tables ----

  /** What loading fills in. */
  datatype Tables = Tables(vocab: seq<Bytes>, ids: map<Bytes, nat>, merges: Merges) {
    /** The id map inverts the vocabulary list; of equal entries the last one counts. */
    ghost predicate Consistent() {
      && (forall i | 0 <= i < |vocab| :: vocab[i] in ids)
      && (forall p | p in ids :: ids[p] < |vocab| && vocab[ids[p]] == p)
    }

    /** The vocabulary has a piece for every byte, and every merge result. */
    ghost predicate Closed() {
      && (forall b: U8 :: ByteEncoder(b) in ids || HexPiece(b) in ids)
      && (forall key | key in merges :: merges[key].merged in ids)
    }
  }

  function HexDigit(n: nat): char
    requires n < 16
  {
    "0123456789ABCDEF"[n]
  }

  /** The `<0xXX>` piece of a byte. */
  function HexPiece(b: U8): Bytes {
    Ascii("<0x") + Ascii([HexDigit(b / 16), HexDigit(b % 16), '>'])
  }

  function BytePiece(ids: map<Bytes, nat>, b: U8): Bytes {
    if ByteEncoder(b) in ids then ByteEncoder(b)
    else if HexPiece(b) in ids then HexPiece(b)
    else [b]
  }

  /** A special token of the vocabulary that starts at `pos`. */
  ghost predicate KnownSpecialAt(ids: map<Bytes, nat>, text: Bytes, pos: nat, token: Bytes) {
    IsSpecial(token) && token in ids && MatchesAt(text, pos, token) && token != []
  }

  lemma KnownSpecialIsUnique(ids: map<Bytes, nat>, text: Bytes, pos: nat, a: Bytes, b: Bytes)
    requires KnownSpecialAt(ids, text, pos, a) && KnownSpecialAt(ids, text, pos, b)
    ensures a == b
  {
    var j: nat :| j < |Specials()| && a == Special(j);
    var k: nat :| k < |Specials()| && b == Special(k);
    OneSpecialMatches(text, pos, j, k);
  }

  ghost function TheSpecialAt(ids: map<Bytes, nat>, text: Bytes, pos: nat): (r: Option<Bytes>)
    ensures r.Some? ==> KnownSpecialAt(ids, text, pos, r.value)
    ensures r.None? ==> forall token :: !KnownSpecialAt(ids, text, pos, token)
  {
    if exists token :: KnownSpecialAt(ids, text, pos, token) then
      var token :| KnownSpecialAt(ids, text, pos, token); Some(token)
    else None
  }

  /** The text with every known special token erased, scanning from `pos`. */
  ghost function Erased(ids: map<Bytes, nat>, text: Bytes, pos: nat): Bytes
    decreases |text| - pos
  {
    if pos >= |text| then []
    else match TheSpecialAt(ids, text, pos)
      case Some(token) => Erased(ids, text, pos + |token|)
      case None => [text[pos]] + Erased(ids, text, pos + 1)
  }

  ghost function InitialPieces(ids: map<Bytes, nat>, text: Bytes, pos: nat): seq<Bytes>
    decreases |text| - pos
  {
    if pos >= |text| then []
    else match TheSpecialAt(ids, text, pos)
      case Some(token) => [token] + InitialPieces(ids, text, pos + |token|)
      case None => [BytePiece(ids, text[pos])] + InitialPieces(ids, text, pos + 1)
  }

  // ---- Decoding ----

  function HexValue(c: U8): (v: nat)
    ensures v < 16
  {
    if 48 <= c <= 57 then c - 48
    else if 65 <= c <= 70 then c - 55
    else if 97 <= c <= 102 then c - 87
    else 0
  }

  predicate LooksHex(token: Bytes) {
    |token| == 6 && token[..3] == Ascii("<0x") && token[5] == 62
  }

  /** The bytes a vocabulary entry stands for. */
  function PieceBytes(token: Bytes): Bytes {
    if LooksHex(token) then [HexValue(token[3]) * 16 + HexValue(token[4])]
    else
      var parsed := ParseBytes(token);
      if parsed.ok then parsed.bytes else token
  }

  function TokenBytes(vocab: seq<Bytes>, id: int): Bytes {
    if id < 0 || id >= |vocab| then []
    else if vocab[id] == [] || LooksSpecial(vocab[id]) then []
    else PieceBytes(vocab[id])
  }

  function DecodeIds(vocab: seq<Bytes>, ids: seq<int>): Bytes {
    if ids == [] then [] else TokenBytes(vocab, ids[0]) + DecodeIds(vocab, ids[1..])
  }

  /** Of equal entries the last one has the id. */
  ghost predicate LastCounts(vocab: seq<Bytes>, ids: map<Bytes, nat>) {
    forall i | 0 <= i < |vocab| :: vocab[i] in ids && ids[vocab[i]] >= i
  }

  function PieceIds(ids: map<Bytes, nat>, unk: int, pieces: seq<Bytes>): (r: seq<int>)
    ensures |r| == |pieces|
  {
    seq(|pieces|, i requires 0 <= i < |pieces| => if pieces[i] in ids then ids[pieces[i]] else unk)
  }

  // ---- Round trip ----

  /** What a piece came from: a special token, a byte spelt in hexadecimal, or some bytes of the text. */
  datatype Atom = SpecialAtom(token: Bytes) | HexAtom(byte: U8) | TextAtom(bytes: Bytes) {
    function Piece(): Bytes {
      match this
      case SpecialAtom(token) => token
      case HexAtom(byte) => HexPiece(byte)
      case TextAtom(bytes) => EncodeBytes(bytes)
    }

    function Plain(): Bytes {
      match this
      case SpecialAtom(_) => []
      case HexAtom(byte) => [byte]
      case TextAtom(bytes) => bytes
    }

    /** A text atom with `<` is that single byte; all kinds are in the vocabulary. */
    ghost predicate Good(ids: map<Bytes, nat>) {
      && Piece() in ids
      && (SpecialAtom? ==> IsSpecial(token))
      && (TextAtom? ==> bytes != [] && (bytes == [LESS] || LESS !in bytes))
    }
  }

  function Pieces(atoms: seq<Atom>): (p: seq<Bytes>)
    ensures |p| == |atoms|
  {
    seq(|atoms|, i requires 0 <= i < |atoms| => atoms[i].Piece())
  }

  function Plain(atoms: seq<Atom>): Bytes {
    if atoms == [] then [] else atoms[0].Plain() + Plain(atoms[1..])
  }

  ghost predicate AllGood(ids: map<Bytes, nat>, atoms: seq<Atom>) {
    forall i | 0 <= i < |atoms| :: atoms[i].Good(ids)
  }

  lemma ConsAtom(ids: map<Bytes, nat>, a: Atom, rest: seq<Atom>)
    requires a.Good(ids) && AllGood(ids, rest)
    ensures Pieces([a] + rest) == [a.Piece()] + Pieces(rest)
    ensures Plain([a] + rest) == a.Plain() + Plain(rest) && AllGood(ids, [a] + rest)
  {
    hide Atom.Good, Atom.Piece, Atom.Plain;
    assert ([a] + rest)[1..] == rest;
  }

  lemma OneCut(ids: map<Bytes, nat>, text: Bytes, pos: nat)
    requires pos < |text|
    ensures match TheSpecialAt(ids, text, pos)
            case Some(token) =>
              && InitialPieces(ids, text, pos) == [token] + InitialPieces(ids, text, pos + |token|)
              && Erased(ids, text, pos) == Erased(ids, text, pos + |token|)
            case None =>
              && InitialPieces(ids, text, pos) == [BytePiece(ids, text[pos])] + InitialPieces(ids, text, pos + 1)
              && Erased(ids, text, pos) == [text[pos]] + Erased(ids, text, pos + 1)
  {
    hide KnownSpecialAt, BytePiece;
  }

  // ---- What merging keeps of any text ----

  /** The vocabulary has a piece for the line feed. */
  predicate HasLineFeed(ids: map<Bytes, nat>) {
    ByteEncoder(NEWLINE) in ids || HexPiece(NEWLINE) in ids
  }

  /** Only a line feed without a piece of its own gives a piece that is not regular. */
  lemma BytePieceIsRegular(ids: map<Bytes, nat>, b: U8)
    ensures Regular(BytePiece(ids, b)) <==> b != NEWLINE || HasLineFeed(ids)
  {
    ByteEncoderCharacters(b);
    HexStartsWithLess(b);
    hide ByteEncoder, HexPiece;
  }

  lemma HexStartsWithLess(b: U8)
    ensures StartsWithLess(HexPiece(b))
  {}

  /** The pieces that encoding starts from are regular, unless the text has a line feed and the
      vocabulary has none. */
  lemma {:induction false} InitialIsRegular(ids: map<Bytes, nat>, text: Bytes, pos: nat)
    requires NEWLINE !in text || HasLineFeed(ids)
    ensures AllRegular(InitialPieces(ids, text, pos))
    decreases |text| - pos
  {
    hide BytePiece, HasLineFeed, Regular, KnownSpecialAt;
    if pos < |text| {
      match TheSpecialAt(ids, text, pos)
      case Some(token) =>
        SpecialIsMarked(ids, text, pos, token);
        InitialIsRegular(ids, text, pos + |token|);
      case None =>
        BytePieceIsRegular(ids, text[pos]);
        InitialIsRegular(ids, text, pos + 1);
    }
  }

  lemma SpecialIsMarked(ids: map<Bytes, nat>, text: Bytes, pos: nat, token: Bytes)
    requires KnownSpecialAt(ids, text, pos, token)
    ensures token != [] && Regular(token) && Apart(token)
    ensures pos < |text| && text[pos] == LESS
  {
    var k: nat :| k < |Specials()| && token == Special(k);
    SpecialBytes(k);
    hide Special, Specials;
    assert text[pos] == token[0];
  }

  /** So merging keeps what the initial pieces spell. */
  lemma EncodingKeepsText(ids: map<Bytes, nat>, m: Merges, text: Bytes, merged: seq<Bytes>)
    requires SoundRules(m) && (NEWLINE !in text || HasLineFeed(ids))
    requires IsMerged(m, InitialPieces(ids, text, 0), merged)
    ensures Flatten(merged) == Flatten(InitialPieces(ids, text, 0))
  {
    hide InitialPieces, SoundRules, IsMerged, AllRegular, HasLineFeed;
    InitialIsRegular(ids, text, 0);
    MergedKeepsText(m, InitialPieces(ids, text, 0), merged);
  }

  /** Merging keeps what the initial pieces of any text spell, under any rule list. */
  ghost predicate KeepsEveryText(ids: map<Bytes, nat>) {
    forall text: Bytes, lines: seq<Bytes>, merged: seq<Bytes> | TextMerges(ids, text, lines, merged) ::
      Flatten(merged) == Flatten(InitialPieces(ids, text, 0))
  }

  ghost predicate TextMerges(ids: map<Bytes, nat>, text: Bytes, lines: seq<Bytes>, merged: seq<Bytes>) {
    IsMerged(MergesOf(lines), InitialPieces(ids, text, 0), merged)
  }

  /** Every other byte has a piece that merging leaves alone: no character, but a hexadecimal piece. */
  ghost predicate OthersAreMarked(ids: map<Bytes, nat>) {
    forall b: U8 | b != NEWLINE :: StartsWithLess(BytePiece(ids, b))
  }

  /** A loaded vocabulary keeps every text exactly when it has a piece for the line feed, or when no
      other byte takes part in merging. */
  lemma MergingKeepsTextExactly(ids: map<Bytes, nat>)
    ensures KeepsEveryText(ids) <==> HasLineFeed(ids) || OthersAreMarked(ids)
  {
    hide InitialPieces, MergesOf, IsMerged, Flatten, BytePiece, HasLineFeed;
    if HasLineFeed(ids) || OthersAreMarked(ids) {
      forall text: Bytes, lines: seq<Bytes>, merged: seq<Bytes> | TextMerges(ids, text, lines, merged)
        ensures Flatten(merged) == Flatten(InitialPieces(ids, text, 0))
      {
        if HasLineFeed(ids) {
          LoadedRulesAreSound(lines);
          EncodingKeepsText(ids, MergesOf(lines), text, merged);
        } else {
          InitialIsApart(ids, text, 0);
          ApartKeepsText(lines, InitialPieces(ids, text, 0), merged);
        }
      }
    } else {
      var b: U8 :| b != NEWLINE && !StartsWithLess(BytePiece(ids, b));
      LineFeedBreaksMerging(ids, b);
      var c := BytePiece(ids, b);
      assert TextMerges(ids, [NEWLINE, b, b], ConfusingLines(c), [c + [NEWLINE] + c]);
    }
  }

  lemma {:induction false} InitialIsApart(ids: map<Bytes, nat>, text: Bytes, pos: nat)
    requires !HasLineFeed(ids) && OthersAreMarked(ids)
    ensures AllApart(InitialPieces(ids, text, pos))
    decreases |text| - pos
  {
    hide BytePiece, HasLineFeed, KnownSpecialAt, Apart;
    if pos < |text| {
      match TheSpecialAt(ids, text, pos)
      case Some(token) =>
        SpecialIsMarked(ids, text, pos, token);
        InitialIsApart(ids, text, pos + |token|);
      case None =>
        ByteIsApart(ids, text[pos]);
        InitialIsApart(ids, text, pos + 1);
    }
  }

  lemma ByteIsApart(ids: map<Bytes, nat>, b: U8)
    requires !HasLineFeed(ids) && OthersAreMarked(ids)
    ensures Apart(BytePiece(ids, b))
  {
    hide ByteEncoder, HexPiece;
  }

  /** Any vocabulary without a piece for the line feed, and any other byte whose piece is not marked: a
      line feed and that byte twice become something else under two rules. */
  lemma LineFeedBreaksMerging(ids: map<Bytes, nat>, b: U8)
    requires !HasLineFeed(ids) && b != NEWLINE && !StartsWithLess(BytePiece(ids, b))
    ensures var text, c := [NEWLINE, b, b], BytePiece(ids, b);
            && InitialPieces(ids, text, 0) == [[NEWLINE], c, c]
            && IsMerged(MergesOf(ConfusingLines(c)), InitialPieces(ids, text, 0), [c + [NEWLINE] + c])
            && Flatten([c + [NEWLINE] + c]) != Flatten(InitialPieces(ids, text, 0))
  {
    var c := BytePiece(ids, b);
    UnmarkedPiece(ids, b);
    PlainCut(ids, b);
    hide *;
    ConfusedRules(c);
    ConfusedMerge(MergesOf(ConfusingLines(c)), c);
  }

  lemma UnmarkedPiece(ids: map<Bytes, nat>, b: U8)
    requires b != NEWLINE && !StartsWithLess(BytePiece(ids, b))
    ensures var c := BytePiece(ids, b); c != [] && c[0] != NEWLINE && b != LESS
  {
    ByteEncoderCharacters(b);
    HexStartsWithLess(b);
    hide ByteEncoder, HexPiece;
  }

  lemma PlainCut(ids: map<Bytes, nat>, b: U8)
    requires !HasLineFeed(ids) && b != LESS
    ensures var c := BytePiece(ids, b); InitialPieces(ids, [NEWLINE, b, b], 0) == [[NEWLINE], c, c]
  {
    var text := [NEWLINE, b, b];
    assert text[0] == NEWLINE != LESS;
    hide *;
    UnlistedLineFeed(ids);
    forall k: nat | k < 3 ensures TheSpecialAt(ids, text, k) == None {
      assert k == 0 || text[k] == b;
      NothingSpecial(ids, text, k);
    }
    OneCut(ids, text, 0);
    OneCut(ids, text, 1);
    OneCut(ids, text, 2);
    EndOfText(ids, text);
  }

  lemma NothingSpecial(ids: map<Bytes, nat>, text: Bytes, pos: nat)
    requires pos < |text| && text[pos] != LESS
    ensures TheSpecialAt(ids, text, pos) == None
  {
    hide *;
    if TheSpecialAt(ids, text, pos).Some? {
      SpecialIsMarked(ids, text, pos, TheSpecialAt(ids, text, pos).value);
      assert false;
    }
  }

  lemma UnlistedLineFeed(ids: map<Bytes, nat>)
    requires !HasLineFeed(ids)
    ensures BytePiece(ids, NEWLINE) == [NEWLINE]
  {
    hide ByteEncoder, HexPiece;
  }

  /** The pieces a text is cut into come from atoms whose text is the text without special tokens. */
  lemma {:induction false} InitialAtoms(t: Tables, text: Bytes, pos: nat) returns (atoms: seq<Atom>)
    requires t.Closed()
    ensures Pieces(atoms) == InitialPieces(t.ids, text, pos)
    ensures Plain(atoms) == Erased(t.ids, text, pos) && AllGood(t.ids, atoms)
    decreases |text| - pos
  {
    hide *;
    if pos >= |text| {
      NoAtoms(t.ids, text, pos);
      return [];
    }
    OneCut(t.ids, text, pos);
    match TheSpecialAt(t.ids, text, pos)
    case Some(token) =>
      KnownIsGood(t.ids, text, pos, token);
      var rest := InitialAtoms(t, text, pos + |token|);
      ConsAtom(t.ids, SpecialAtom(token), rest);
      assert [] + Plain(rest) == Plain(rest);
      atoms := [SpecialAtom(token)] + rest;
    case None =>
      var b := text[pos];
      var atom := ByteAtom(t.ids, b);
      ByteIsGood(t, b);
      var rest := InitialAtoms(t, text, pos + 1);
      ConsAtom(t.ids, atom, rest);
      atoms := [atom] + rest;
  }

  lemma NoAtoms(ids: map<Bytes, nat>, text: Bytes, pos: nat)
    requires pos >= |text|
    ensures Pieces([]) == InitialPieces(ids, text, pos) == [] && Plain([]) == Erased(ids, text, pos) && AllGood(ids, [])
  {}

  function ByteAtom(ids: map<Bytes, nat>, b: U8): Atom {
    if ByteEncoder(b) in ids then TextAtom([b]) else HexAtom(b)
  }

  lemma ByteIsGood(t: Tables, b: U8)
    requires t.Closed()
    ensures var atom := ByteAtom(t.ids, b);
            atom.Good(t.ids) && atom.Piece() == BytePiece(t.ids, b) && atom.Plain() == [b]
  {
    SingleCharacter(b);
    hide EncodeBytes, ByteEncoder, HexPiece;
  }

  lemma KnownIsGood(ids: map<Bytes, nat>, text: Bytes, pos: nat, token: Bytes)
    requires KnownSpecialAt(ids, text, pos, token)
    ensures SpecialAtom(token).Good(ids) && token != []
    ensures SpecialAtom(token).Piece() == token && SpecialAtom(token).Plain() == []
  {}

  lemma {:induction false} PlainConcat(a: seq<Atom>, b: seq<Atom>)
    ensures Plain(a + b) == Plain(a) + Plain(b)
  {
    if a == [] {
      assert a + b == b;
    } else {
      assert (a + b)[1..] == a[1..] + b;
      PlainConcat(a[1..], b);
    }
  }

  lemma SingleCharacter(b: U8)
    ensures EncodeBytes([b]) == ByteEncoder(b)
  {
    assert [b][1..] == [];
  }

  lemma HexDigitValue(n: nat)
    requires n < 16
    ensures HexDigit(n) as int < 128 && HexValue(HexDigit(n) as int) == n
  {}

  /** A hexadecimal piece starts with `<`, is no special token, and spells its byte. */
  lemma HexShape(b: U8)
    ensures StartsWithLess(HexPiece(b)) && LooksHex(HexPiece(b)) && !LooksSpecial(HexPiece(b))
    ensures PieceBytes(HexPiece(b)) == [b]
  {
    hide HexDigit, HexValue, ParseBytes;
    HexDigitValue(b / 16);
    HexDigitValue(b % 16);
    var piece := HexPiece(b);
    assert Ascii("<0x") == [60, 48, 120] && Ascii("<|") == [60, 124];
    assert piece[..3] == Ascii("<0x") && piece[5] == 62;
    assert piece[..2][1] == 48;
    assert piece[3] == HexDigit(b / 16) as int && piece[4] == HexDigit(b % 16) as int;
  }

  /** Only text without `<` is ever merged. */
  lemma UnmarkedIsPlainText(ids: map<Bytes, nat>, a: Atom)
    requires a.Good(ids) && !StartsWithLess(a.Piece())
    ensures a.TextAtom? && LESS !in a.bytes && NEWLINE !in a.Piece()
  {
    hide Special, Specials, LooksSpecial, ByteEncoder, EncodeBytes, HexPiece;
    SingleCharacter(LESS);
    ByteEncoderCharacters(LESS);
    if a.HexAtom? {
      HexShape(a.byte);
      assert false;
    }
    if a.SpecialAtom? {
      var k: nat :| k < |Specials()| && a.token == Special(k);
      SpecialBytes(k);
      assert false;
    }
    EncodeBytesCharacters(a.bytes);
  }

  /** The atoms after one merge: two text atoms become one. */
  function Joined(atoms: seq<Atom>, i: nat): seq<Atom>
    requires i + 1 < |atoms| && atoms[i].TextAtom? && atoms[i + 1].TextAtom?
  {
    atoms[..i] + [TextAtom(atoms[i].bytes + atoms[i + 1].bytes)] + atoms[i + 2..]
  }

  lemma JoinedPlain(atoms: seq<Atom>, i: nat)
    requires i + 1 < |atoms| && atoms[i].TextAtom? && atoms[i + 1].TextAtom?
    ensures Plain(Joined(atoms, i)) == Plain(atoms)
  {
    var before, a, b, after := atoms[..i], atoms[i], atoms[i + 1], atoms[i + 2..];
    assert atoms == (before + [a, b]) + after;
    PlainConcat(before + [a, b], after);
    PlainConcat(before, [a, b]);
    var c := TextAtom(a.bytes + b.bytes);
    PlainConcat(before + [c], after);
    PlainConcat(before, [c]);
    assert [a, b][1..] == [b] && [b][1..] == [] && [c][1..] == [];
    assert Plain([b]) == b.bytes && Plain([c]) == c.bytes && Plain([a, b]) == a.bytes + b.bytes;
  }

  /** A rule that applies to two atoms joins their texts. */
  lemma RuleJoinsText(t: Tables, a: Atom, b: Atom)
    requires t.Closed() && SoundRules(t.merges) && a.Good(t.ids) && b.Good(t.ids)
    requires !StartsWithLess(a.Piece()) && !StartsWithLess(b.Piece()) && PairKey(a.Piece(), b.Piece()) in t.merges
    ensures a.TextAtom? && b.TextAtom?
    ensures var c := TextAtom(a.bytes + b.bytes);
            c.Good(t.ids) && t.merges[PairKey(a.Piece(), b.Piece())].merged == c.Piece()
  {
    hide Special, Specials, IsSpecial, ByteEncoder, EncodeBytes, StartsWithLess;
    UnmarkedIsPlainText(t.ids, a);
    UnmarkedIsPlainText(t.ids, b);
    EncodeBytesConcat(a.bytes, b.bytes);
    assert t.merges[PairKey(a.Piece(), b.Piece())].merged == a.Piece() + b.Piece();
  }

  lemma JoinedMatchesMerge(t: Tables, atoms: seq<Atom>, i: nat)
    requires t.Closed() && SoundRules(t.merges) && AllGood(t.ids, atoms)
    requires i + 1 < |atoms| && MergeableAt(t.merges, Pieces(atoms), i)
    ensures atoms[i].TextAtom? && atoms[i + 1].TextAtom?
    ensures Pieces(Joined(atoms, i)) == MergeAt(t.merges, Pieces(atoms), i)
    ensures AllGood(t.ids, Joined(atoms, i))
  {
    hide Tables.Closed, SoundRules, Atom.Piece, Atom.Good, PairKey, StartsWithLess;
    RuleJoinsText(t, atoms[i], atoms[i + 1]);
    var next := Joined(atoms, i);
    forall k | 0 <= k < |next| ensures next[k].Good(t.ids) {
      assert next[k] == if k < i then atoms[k] else if k == i then next[i] else atoms[k + 1];
    }
  }

  /** Whatever order the rules impose, the merged pieces still come from the same text. */
  lemma {:induction false} MergedAtoms(t: Tables, atoms: seq<Atom>, result: seq<Bytes>) returns (merged: seq<Atom>)
    requires t.Closed() && SoundRules(t.merges) && AllGood(t.ids, atoms)
    requires IsMerged(t.merges, Pieces(atoms), result)
    ensures Pieces(merged) == result && Plain(merged) == Plain(atoms) && AllGood(t.ids, merged)
    decreases |atoms|
  {
    hide SoundRules, MergeAt, AllGood, Plain, Pieces;
    if NothingToMerge(t.merges, Pieces(atoms)) {
      return atoms;
    }
    var i: nat :| IsBest(t.merges, Pieces(atoms), i) && IsMerged(t.merges, MergeAt(t.merges, Pieces(atoms), i), result);
    hide IsBest, IsMerged;
    JoinedMatchesMerge(t, atoms, i);
    JoinedPlain(atoms, i);
    merged := MergedAtoms(t, Joined(atoms, i), result);
  }

  /** The id of a piece decodes to the text the piece came from: a special token to nothing. */
  lemma GoodPieceDecodes(t: Tables, a: Atom)
    requires t.Consistent() && a.Good(t.ids)
    ensures TokenBytes(t.vocab, t.ids[a.Piece()]) == a.Plain()
  {
    var piece := a.Piece();
    assert t.vocab[t.ids[piece]] == piece;
    hide Special, Specials, ByteEncoder, ParseBytes, HexPiece;
    if a.SpecialAtom? {
      var k: nat :| k < |Specials()| && a.token == Special(k);
      SpecialBytes(k);
    } else if a.HexAtom? {
      HexShape(a.byte);
    } else {
      TextPieceIsPlain(a.bytes);
      ParseInvertsEncode(a.bytes);
    }
  }

  /** The `<|..|>` filter and the `<0xXX>` branch cannot apply to a piece that came from text. */
  lemma TextPieceIsPlain(bytes: Bytes)
    requires bytes != [] && (bytes == [LESS] || LESS !in bytes)
    ensures EncodeBytes(bytes) != [] && !LooksSpecial(EncodeBytes(bytes)) && !LooksHex(EncodeBytes(bytes))
  {
    var piece := EncodeBytes(bytes);
    EncodeBytesCharacters(bytes);
    MarkedPieces(piece);
    SingleCharacter(LESS);
    ByteEncoderCharacters(LESS);
    hide EncodeBytes, LooksSpecial, LooksHex, ByteEncoder;
  }

  lemma MarkedPieces(piece: Bytes)
    ensures LooksSpecial(piece) || LooksHex(piece) ==> |piece| >= 3 && piece[0] == LESS
  {
    assert Ascii("<|")[0] == LESS && Ascii("<0x")[0] == LESS;
    assert |piece| >= 3 ==> piece[..2][0] == piece[0] && piece[..3][0] == piece[0];
  }

  lemma {:induction false} GoodPiecesDecode(t: Tables, unk: int, atoms: seq<Atom>)
    requires t.Consistent() && AllGood(t.ids, atoms)
    ensures DecodeIds(t.vocab, PieceIds(t.ids, unk, Pieces(atoms))) == Plain(atoms)
  {
    if atoms != [] {
      var ids := PieceIds(t.ids, unk, Pieces(atoms));
      hide TokenBytes, Tables.Consistent, Atom.Plain;
      GoodPieceDecodes(t, atoms[0]);
      assert ids[0] == t.ids[atoms[0].Piece()];
      hide Atom.Good, Atom.Piece;
      assert ids[1..] == PieceIds(t.ids, unk, Pieces(atoms[1..]));
      hide Pieces, PieceIds;
      GoodPiecesDecode(t, unk, atoms[1..]);
    }
  }

  /** Decoding the ids of the merged pieces gives the text back, with its known special tokens erased. */
  lemma RoundTrip(t: Tables, text: Bytes, unk: int, merged: seq<Bytes>)
    requires t.Consistent() && t.Closed() && SoundRules(t.merges)
    requires IsMerged(t.merges, InitialPieces(t.ids, text, 0), merged)
    ensures DecodeIds(t.vocab, PieceIds(t.ids, unk, merged)) == Erased(t.ids, text, 0)
  {
    var initial := InitialAtoms(t, text, 0);
    hide *;
    var atoms := MergedAtoms(t, initial, merged);
    GoodPiecesDecode(t, unk, atoms);
  }

  // ---- The tokenizer object ----

  /** The metadata entries that loading reads. */
  datatype Gguf = Gguf(
    tokens: seq<Bytes>, merges: seq<Bytes>,
    bos: Option<U64>, eos: Option<U64>, pad: Option<U64>, unk: Option<U64>, addBos: Option<bool>)

  /** Conversion to a signed 32-bit word. */
  function ToInt32(x: U64): (r: int)
    ensures -INT_MAX - 1 <= r <= INT_MAX && (x - r) % 0x1_0000_0000 == 0
  {
    var low := x % 0x1_0000_0000;
    if low <= INT_MAX then low else low - 0x1_0000_0000
  }

  function IdOr(entry: Option<U64>, default: int): int {
    if entry.Some? then ToInt32(entry.value) else default
  }

  lemma LoadedRanksFit(lines: seq<Bytes>)
    requires |lines| < INT_MAX
    ensures RanksFit(MergesOf(lines))
  {
    forall key | key in MergesOf(lines) ensures MergesOf(lines)[key].rank < INT_MAX {
      RanksBelow(lines, key);
    }
  }

  class Tokenizer {
    const encoder: seq<Bytes>
    const decoder: map<Bytes, U8>
    var vocab: seq<Bytes>
    var tokenToId: map<Bytes, nat>
    var merges: Merges
    var bosId: int
    var eosId: int
    var padId: int
    var unkId: int
    var addBosToken: bool

    constructor ()
      ensures Valid() && vocab == [] && merges == map[]
      ensures bosId == 151643 && eosId == 151645 && padId == 151643 && unkId == 0 && !addBosToken
    {
      var e := BuildByteEncoder();
      var d := BuildByteDecoder();
      encoder, decoder := e, d;
      vocab, tokenToId, merges := [], map[], map[];
      bosId, eosId, padId, unkId, addBosToken := 151643, 151645, 151643, 0, false;
    }

    ghost predicate GoodByteTables() {
      |encoder| == 256 && (forall b: U8 :: encoder[b] == ByteEncoder(b)) && IsByteDecoder(decoder)
    }

    ghost predicate Valid()
      reads this
    {
      GoodByteTables() && Loaded().Consistent() && RanksFit(merges) && SoundRules(merges)
    }

    ghost function Loaded(): Tables
      reads this
    {
      Tables(vocab, tokenToId, merges)
    }

    /** Fills the tables; an empty vocabulary is refused. */
    method LoadFromGguf(gguf: Gguf) returns (ok: bool)
      requires Valid() && |gguf.tokens| <= INT_MAX && |gguf.merges| < INT_MAX
      modifies this
      ensures ok <==> gguf.tokens != []
      ensures vocab == gguf.tokens
      ensures ok ==> Valid() && merges == MergesOf(gguf.merges) && LastCounts(vocab, tokenToId)
      ensures ok ==> bosId == IdOr(gguf.bos, old(bosId)) && eosId == IdOr(gguf.eos, old(eosId))
                     && padId == IdOr(gguf.pad, old(padId)) && unkId == IdOr(gguf.unk, old(unkId))
                     && addBosToken == (gguf.addBos == Some(true))
      ensures !ok ==> unchanged(`tokenToId, `merges, `bosId, `eosId, `padId, `unkId, `addBosToken)
    {
      vocab := gguf.tokens;
      if vocab == [] {
        return false;
      }
      IndexTokens();
      hide GoodByteTables, ToInt32, IdOr, MergesOf, RanksFit, SoundRules, Tables.Consistent, LastCounts;
      bosId, eosId := IdOr(gguf.bos, bosId), IdOr(gguf.eos, eosId);
      padId, unkId := IdOr(gguf.pad, padId), IdOr(gguf.unk, unkId);
      addBosToken := gguf.addBos == Some(true);
      merges := LoadMerges(gguf.merges);
      LoadedRulesAreSound(gguf.merges);
      LoadedRanksFit(gguf.merges);
      return true;
    }

    /** Fills the id map. */
    method IndexTokens()
      modifies this`tokenToId
      ensures Loaded().Consistent() && LastCounts(vocab, tokenToId)
    {
      tokenToId := map[];
      for i := 0 to |vocab|
        invariant forall j | 0 <= j < i :: vocab[j] in tokenToId && tokenToId[vocab[j]] >= j
        invariant forall p | p in tokenToId :: tokenToId[p] < i && vocab[tokenToId[p]] == p
      {
        tokenToId := tokenToId[vocab[i] := i];
      }
    }

    method ByteToTokenPiece(b: U8) returns (piece: Bytes)
      requires GoodByteTables()
      ensures piece == BytePiece(tokenToId, b)
    {
      if encoder[b] in tokenToId {
        return encoder[b];
      }
      var fallback := Ascii("<0x") + Ascii([HexDigit(b / 16), HexDigit(b % 16), '>']);
      if fallback in tokenToId {
        return fallback;
      }
      return [b];
    }

    /** Cuts the text at the special tokens of the vocabulary; every other byte is a piece. */
    method CutText(text: Bytes) returns (pieces: seq<Bytes>)
      requires GoodByteTables()
      ensures pieces == InitialPieces(tokenToId, text, 0)
    {
      hide *;
      pieces := [];
      var i := 0;
      assert InitialPieces(tokenToId, text, |text|) == [] by { EndOfText(tokenToId, text); }
      while i < |text|
        invariant i <= |text| && pieces + InitialPieces(tokenToId, text, i) == InitialPieces(tokenToId, text, 0)
      {
        var special := IsSpecialAt(text, i);
        if special.Some? && special.value in tokenToId {
          CutSpecial(tokenToId, text, i, special.value);
          pieces := pieces + [special.value];
          i := i + |special.value|;
        } else {
          CutByte(tokenToId, text, i, special);
          var piece := ByteToTokenPiece(text[i]);
          pieces := pieces + [piece];
          i := i + 1;
        }
      }
    }

    function TokenIdOrUnk(token: Bytes): int
      reads this
    {
      if token in tokenToId then tokenToId[token] else unkId
    }

    ghost function BosPrefix(addBos: bool): seq<int>
      reads this
    {
      if addBos && addBosToken && bosId >= 0 then [bosId] else []
    }

    /** The ids of the merged pieces of the text. When the vocabulary has all byte pieces and merge
        results, decoding them gives the text back without its special tokens. */
    method Encode(text: Bytes, addBos: bool) returns (ids: seq<int>, ghost merged: seq<Bytes>)
      requires Valid()
      ensures IsMerged(merges, InitialPieces(tokenToId, text, 0), merged)
      ensures ids == BosPrefix(addBos) + PieceIds(tokenToId, unkId, merged)
      ensures Loaded().Closed() ==>
                DecodeIds(vocab, ids) == DecodeIds(vocab, BosPrefix(addBos)) + Erased(tokenToId, text, 0)
    {
      hide *;
      ValidParts();
      ids := BosIds(addBos);
      ghost var prefix := ids;
      var pieces := MergedPieces(text);
      merged := pieces;
      var rest := PieceIdsOf(pieces);
      ids := ids + rest;
      DecodeIdsConcat(vocab, prefix, rest);
      if Loaded().Closed() {
        RoundTrip(Loaded(), text, unkId, merged);
      }
    }

    method BosIds(addBos: bool) returns (ids: seq<int>)
      ensures ids == BosPrefix(addBos)
    {
      ids := [];
      if addBos && addBosToken && bosId >= 0 {
        ids := ids + [bosId];
      }
    }

    lemma ValidParts()
      requires Valid()
      ensures GoodByteTables() && Loaded().Consistent() && RanksFit(merges) && SoundRules(merges)
      ensures Loaded().vocab == vocab && Loaded().ids == tokenToId && Loaded().merges == merges
    {}

    method MergedPieces(text: Bytes) returns (pieces: seq<Bytes>)
      requires GoodByteTables() && RanksFit(merges)
      ensures IsMerged(merges, InitialPieces(tokenToId, text, 0), pieces)
    {
      hide *;
      pieces := CutText(text);
      pieces := MergePieces(merges, pieces);
    }

    method PieceIdsOf(pieces: seq<Bytes>) returns (ids: seq<int>)
      ensures ids == PieceIds(tokenToId, unkId, pieces)
    {
      ids := [];
      for k := 0 to |pieces|
        invariant |ids| == k && ids == PieceIds(tokenToId, unkId, pieces)[..k]
      {
        ids := ids + [TokenIdOrUnk(pieces[k])];
      }
    }

    method DecodeByteLevelPiece(token: Bytes) returns (bytes: Bytes)
      requires GoodByteTables()
      ensures bytes == PieceBytes(token)
    {
      if LooksHex(token) {
        return [HexValue(token[3]) * 16 + HexValue(token[4])];
      }
      var parsed := ReadCharacters(token);
      return if parsed.ok then parsed.bytes else token;
    }

    /** The cursor loop over the characters of a piece. */
    method ReadCharacters(token: Bytes) returns (parsed: Parse)
      requires IsByteDecoder(decoder)
      ensures parsed.ok == ParseBytes(token).ok
      ensures parsed.ok ==> parsed.bytes == ParseBytes(token).bytes
    {
      hide *;
      var bytes := [];
      var i := 0;
      NothingParsed(token);
      while i < |token|
        invariant i <= |token| && Parsed(token, bytes, i)
      {
        var n := Utf8CharSize(token[i]);
        if i + n > |token| {
          ParseStops(decoder, token, bytes, i, n);
          return Parse(false, bytes);
        }
        var piece := token[i..i + n];
        if piece !in decoder {
          ParseStops(decoder, token, bytes, i, n);
          return Parse(false, bytes);
        }
        ParseStep(decoder, token, bytes, i, n);
        bytes := bytes + [decoder[piece]];
        i := i + n;
      }
      ParsedAtEnd(token, bytes);
      return Parse(true, bytes);
    }

    function TokenPiece(id: int): Bytes
      reads this
    {
      if id < 0 || id >= |vocab| then [] else vocab[id]
    }

    method DecodeToken(id: int) returns (text: Bytes)
      requires GoodByteTables()
      ensures text == TokenBytes(vocab, id)
    {
      var token := TokenPiece(id);
      if token == [] {
        return [];
      }
      if LooksSpecial(token) {
        return [];
      }
      text := DecodeByteLevelPiece(token);
    }

    method Decode(tokens: seq<int>) returns (text: Bytes)
      requires GoodByteTables()
      ensures text == DecodeIds(vocab, tokens)
    {
      hide TokenBytes;
      text := [];
      for k := 0 to |tokens|
        invariant text + DecodeIds(vocab, tokens[k..]) == DecodeIds(vocab, tokens)
      {
        var piece := DecodeToken(tokens[k]);
        assert tokens[k..][1..] == tokens[k + 1..];
        text := text + piece;
      }
    }
  }

  /** Reading on from `i` behind `bytes` gives what reading the whole token gives. */
  ghost predicate Parsed(token: Bytes, bytes: Bytes, i: nat)
    requires i <= |token|
  {
    var rest := ParseBytes(token[i..]);
    ParseBytes(token).ok == rest.ok && ParseBytes(token).bytes == bytes + rest.bytes
  }

  lemma NothingParsed(token: Bytes)
    ensures Parsed(token, [], 0)
  {
    hide ParseBytes;
    assert token[0..] == token;
  }

  /** A character that is in the table is read. */
  lemma ParseStep(decoder: map<Bytes, U8>, token: Bytes, bytes: Bytes, i: nat, n: nat)
    requires IsByteDecoder(decoder) && i < |token| && Parsed(token, bytes, i)
    requires n == Utf8CharSize(token[i]) && i + n <= |token| && token[i..i + n] in decoder
    ensures Parsed(token, bytes + [decoder[token[i..i + n]]], i + n)
  {
    hide Utf8CharSize, CharByte, IsByteDecoder, ByteEncoder;
    var rest, piece := token[i..], token[i..i + n];
    DecoderLookup(decoder, piece);
    assert rest[..n] == piece && rest[n..] == token[i + n..];
    var after := ParseBytes(rest[n..]);
    assert ParseBytes(rest) == Parse(after.ok, [decoder[piece]] + after.bytes);
    hide ParseBytes;
    assert bytes + ([decoder[piece]] + after.bytes) == bytes + [decoder[piece]] + after.bytes;
  }

  /** A character that is cut off or not in the table stops the reading. */
  lemma ParseStops(decoder: map<Bytes, U8>, token: Bytes, bytes: Bytes, i: nat, n: nat)
    requires IsByteDecoder(decoder) && i < |token| && Parsed(token, bytes, i) && n == Utf8CharSize(token[i])
    requires i + n > |token| || token[i..i + n] !in decoder
    ensures !ParseBytes(token).ok
  {
    hide Utf8CharSize, CharByte, IsByteDecoder, ByteEncoder;
    var rest := token[i..];
    if i + n <= |token| {
      assert rest[..n] == token[i..i + n];
      DecoderLookup(decoder, token[i..i + n]);
    }
    assert ParseBytes(rest) == Parse(false, []);
    hide ParseBytes;
  }

  lemma ParsedAtEnd(token: Bytes, bytes: Bytes)
    requires Parsed(token, bytes, |token|)
    ensures ParseBytes(token) == Parse(true, bytes)
  {
    hide CharByte, Utf8CharSize;
  }

  lemma EndOfText(ids: map<Bytes, nat>, text: Bytes)
    ensures InitialPieces(ids, text, |text|) == []
  {}

  lemma CutSpecial(ids: map<Bytes, nat>, text: Bytes, i: nat, special: Bytes)
    requires IsSpecial(special) && special in ids && MatchesAt(text, i, special) && special != []
    ensures i + |special| <= |text|
    ensures InitialPieces(ids, text, i) == [special] + InitialPieces(ids, text, i + |special|)
  {
    hide *;
    KnownFits(ids, text, i, special);
    OneCut(ids, text, i);
    KnownSpecialIsUnique(ids, text, i, special, TheSpecialAt(ids, text, i).value);
  }

  lemma KnownFits(ids: map<Bytes, nat>, text: Bytes, i: nat, special: Bytes)
    requires IsSpecial(special) && special in ids && MatchesAt(text, i, special) && special != []
    ensures i + |special| <= |text| && i < |text| && KnownSpecialAt(ids, text, i, special)
    ensures TheSpecialAt(ids, text, i).Some?
  {
    hide IsSpecial;
  }

  lemma CutByte(ids: map<Bytes, nat>, text: Bytes, i: nat, special: Option<Bytes>)
    requires i < |text|
    requires special.None? ==> forall token | IsSpecial(token) :: !MatchesAt(text, i, token)
    requires special.Some? ==> IsSpecial(special.value) && MatchesAt(text, i, special.value) && special.value !in ids
    ensures InitialPieces(ids, text, i) == [BytePiece(ids, text[i])] + InitialPieces(ids, text, i + 1)
  {
    var known := TheSpecialAt(ids, text, i);
    hide BytePiece, Special, Specials;
    if known.Some? && special.Some? {
      var j: nat :| j < |Specials()| && known.value == Special(j);
      var k: nat :| k < |Specials()| && special.value == Special(k);
      OneSpecialMatches(text, i, j, k);
    }
  }

  lemma {:induction false} DecodeIdsConcat(vocab: seq<Bytes>, a: seq<int>, b: seq<int>)
    ensures DecodeIds(vocab, a + b) == DecodeIds(vocab, a) + DecodeIds(vocab, b)
  {
    if a == [] {
      assert a + b == b;
    } else {
      assert (a + b)[1..] == a[1..] + b;
      DecodeIdsConcat(vocab, a[1..], b);
    }
  }

  lemma DecoderLookup(decoder: map<Bytes, U8>, piece: Bytes)
    requires IsByteDecoder(decoder)
    ensures CharByte(piece) == if piece in decoder then decoder[piece] else -1
  {
    hide DecodeChar, ByteEncoder;
    var c := CharByte(piece);
    if piece in decoder {
      DecodeCharInverts(decoder[piece]);
    }
  }
}
