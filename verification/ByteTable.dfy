/** The byte-level alphabet of the tokenizer: every byte has a printable UTF-8 character of its own. */
module ByteTable {
  import opened Words

  const NEWLINE: U8 := 10
  const LESS: U8 := 60

  /** UTF-8 of a code point (`append_utf8` onto an empty string). */
  function Utf8(cp: nat): (r: Bytes)
    requires cp < 0x11_0000
    ensures 1 <= |r| <= 4
  {
    if cp <= 0x7f then [cp]
    else if cp <= 0x7ff then [0xc0 + cp / 0x40, 0x80 + cp % 0x40]
    else if cp <= 0xffff then [0xe0 + cp / 0x1000, 0x80 + cp / 0x40 % 0x40, 0x80 + cp % 0x40]
    else [0xf0 + cp / 0x4_0000, 0x80 + cp / 0x1000 % 0x40, 0x80 + cp / 0x40 % 0x40, 0x80 + cp % 0x40]
  }

  /** Length of a UTF-8 character by its first byte; 1 for a byte that starts none. */
  function Utf8CharSize(c: U8): (n: nat)
    ensures 1 <= n <= 4
  {
    if c / 0x80 == 0 then 1
    else if c / 0x20 == 0x6 then 2
    else if c / 0x10 == 0xe then 3
    else if c / 0x8 == 0x1e then 4
    else 1
  }

  lemma Utf8Injective(a: nat, b: nat)
    requires a < 0x800 && b < 0x800 && Utf8(a) == Utf8(b)
    ensures a == b
  {
    if a > 0x7f && b > 0x7f {
      assert Utf8(a)[0] == Utf8(b)[0] && Utf8(a)[1] == Utf8(b)[1];
      assert a == a / 0x40 * 0x40 + a % 0x40 && b == b / 0x40 * 0x40 + b % 0x40;
    } else if a <= 0x7f && b <= 0x7f {
      assert Utf8(a)[0] == Utf8(b)[0];
    }
  }

  predicate Displayable(b: int) {
    33 <= b <= 126 || 0xA1 <= b <= 0xAC || 0xAE <= b <= 0xFF
  }

  /** How many bytes below `b` have no displayable character. */
  function Displaced(b: nat): (n: nat)
    ensures n <= b
  {
    if b == 0 then 0 else Displaced(b - 1) + if Displayable(b - 1) then 0 else 1
  }

  function CodePoint(b: U8): (cp: nat)
    ensures cp < 0x200
  {
    if Displayable(b) then b else 256 + Displaced(b)
  }

  /** The character that stands for a byte. */
  function ByteEncoder(b: U8): (r: Bytes)
    ensures 1 <= |r| <= 2
  {
    Utf8(CodePoint(b))
  }

  /** The first byte of a character tells its length. */
  lemma ByteEncoderSize(b: U8)
    ensures Utf8CharSize(ByteEncoder(b)[0]) == |ByteEncoder(b)|
  {}

  lemma {:induction false} DisplacedGrows(a: nat, b: nat)
    requires a < b && !Displayable(a)
    ensures Displaced(a) < Displaced(b)
    decreases b
  {
    if a < b - 1 {
      DisplacedGrows(a, b - 1);
    }
  }

  /** Different bytes have different characters. */
  lemma ByteEncoderInjective(a: U8, b: U8)
    requires ByteEncoder(a) == ByteEncoder(b)
    ensures a == b
  {
    Utf8Injective(CodePoint(a), CodePoint(b));
    if !Displayable(a) && !Displayable(b) {
      if a < b { DisplacedGrows(a, b); } else if b < a { DisplacedGrows(b, a); }
    }
  }

  /** Characters of bytes are free of line feeds, and `<` stands for itself only. */
  lemma ByteEncoderCharacters(b: U8)
    ensures NEWLINE !in ByteEncoder(b)
    ensures LESS in ByteEncoder(b) <==> b == LESS
    ensures b == LESS ==> ByteEncoder(b) == [LESS]
  {
    if !Displayable(b) {
      assert CodePoint(b) >= 256;
    }
  }

  // ---- The alphabet in numbers ----

  /** Printable ASCII stands for itself, printable Latin-1 is the two bytes of its own code point, and the
      68 others take the code points from 256 on. */
  function Letter(b: U8): Bytes {
    if 33 <= b <= 126 then [b]
    else if 161 <= b <= 172 || 174 <= b <= 191 then [0xC2, b]
    else if b >= 192 then [0xC3, b - 64]
    else if b <= 32 then [0xC4, 0x80 + b]
    else if b <= 157 then [0xC4, b + 34]
    else if b <= 160 then [0xC5, b - 30]
    else [0xC5, 0x83]
  }

  /** How many bytes below `b` are displaced: 33 controls and space, 34 from delete on, and one more. */
  lemma {:induction false} DisplacedIs(b: nat)
    requires b <= 256
    ensures Displaced(b) == if b <= 33 then b else if b <= 127 then 33 else if b <= 161 then b - 94
                            else if b <= 173 then 67 else 68
  {
    if b > 0 {
      DisplacedIs(b - 1);
    }
  }

  /** The character of every byte, byte by byte. */
  lemma Alphabet(b: U8)
    ensures ByteEncoder(b) == Letter(b)
    ensures ByteEncoder(b) == Utf8(b) <==> !(b <= 32 || 127 <= b <= 160 || b == 173)
  {
    hide Displaced;
    DisplacedIs(b);
    if !(b <= 32 || 127 <= b <= 160 || b == 173) {
      LatinLetter(b);
    }
  }

  lemma LatinLetter(b: U8)
    requires b <= 126 || b >= 161
    ensures Utf8(b) == if b <= 126 then [b] else if b <= 191 then [0xC2, b] else [0xC3, b - 64]
  {}

  /** Space and line feed become the letters that byte-level vocabularies are known by. */
  lemma SpaceAndLineFeed()
    ensures ByteEncoder(32) == [0xC4, 0xA0] && ByteEncoder(10) == [0xC4, 0x8A] && ByteEncoder(33) == [33]
  {
    hide Utf8, ByteEncoder;
    Alphabet(32);
    Alphabet(10);
    Alphabet(33);
  }

  lemma NoneDisplaced()
    ensures Displaced(0) == 0
  {}

  lemma TableEntry(b: U8)
    ensures ByteEncoder(b) == Utf8(if Displayable(b) then b else 256 + Displaced(b))
    ensures Displaced(b + 1) == Displaced(b) + (if Displayable(b) then 0 else 1) && Displaced(b) <= b
  {
    hide Utf8;
  }

  /** The table as it is filled: displayable bytes keep their code, the others get 256, 257, ... */
  method BuildByteEncoder() returns (table: seq<Bytes>)
    ensures |table| == 256 && forall b: U8 :: table[b] == ByteEncoder(b)
  {
    hide Utf8, ByteEncoder, Displaced;
    NoneDisplaced();
    var used: set<int> := {};
    for b := 33 to 127
      invariant forall c :: c in used <==> 33 <= c < b
    {
      used := used + {b};
    }
    for b := 0xA1 to 0xAD
      invariant forall c :: c in used <==> 33 <= c <= 126 || 0xA1 <= c < b
    {
      used := used + {b};
    }
    for b := 0xAE to 0x100
      invariant forall c :: c in used <==> 33 <= c <= 126 || 0xA1 <= c <= 0xAC || 0xAE <= c < b
    {
      used := used + {b};
    }
    var n := 0;
    table := [];
    for b := 0 to 256
      invariant n == Displaced(b) && |table| == b
      invariant forall c: U8 | c < b :: table[c] == ByteEncoder(c)
    {
      TableEntry(b);
      var cp := b;
      if b !in used {
        cp := 256 + n;
        n := n + 1;
      }
      table := table + [Utf8(cp)];
    }
  }

  /** The inverse table. */
  ghost predicate IsByteDecoder(decoder: map<Bytes, U8>) {
    && (forall b: U8 :: ByteEncoder(b) in decoder && decoder[ByteEncoder(b)] == b)
    && (forall piece | piece in decoder :: piece == ByteEncoder(decoder[piece]))
  }

  method BuildByteDecoder() returns (decoder: map<Bytes, U8>)
    ensures IsByteDecoder(decoder)
  {
    var encoder := BuildByteEncoder();
    decoder := map[];
    for b := 0 to 256
      invariant forall c: U8 | c < b :: ByteEncoder(c) in decoder && decoder[ByteEncoder(c)] == c
      invariant forall piece | piece in decoder :: piece == ByteEncoder(decoder[piece])
    {
      forall c: U8 | c < b ensures ByteEncoder(c) != ByteEncoder(b) {
        if ByteEncoder(c) == ByteEncoder(b) {
          ByteEncoderInjective(c, b);
        }
      }
      decoder := decoder[encoder[b] := b];
    }
  }

  /** The byte a character stands for, if it stands for one. */
  function DecodeChar(piece: Bytes, b: nat): (r: int)
    requires b <= 256
    ensures r == -1 <==> forall c: U8 | c < b :: ByteEncoder(c) != piece
    ensures r != -1 ==> 0 <= r < b && ByteEncoder(r) == piece
  {
    if b == 0 then -1
    else if ByteEncoder(b - 1) == piece then b - 1
    else DecodeChar(piece, b - 1)
  }

  // ---- Byte strings ----

  function EncodeBytes(bs: Bytes): Bytes {
    if bs == [] then [] else ByteEncoder(bs[0]) + EncodeBytes(bs[1..])
  }

  /** The byte of a character, -1 for a string that is no character of the table. */
  function CharByte(piece: Bytes): (r: int)
    ensures r == -1 || 0 <= r < 256
  {
    DecodeChar(piece, 256)
  }

  /** The bytes read so far, and whether the whole token could be read. */
  datatype Parse = Parse(ok: bool, bytes: Bytes)

  /** Reads characters one after the other, up to one that stands for no byte. */
  function ParseBytes(token: Bytes): (r: Parse)
    decreases |token|
  {
    if token == [] then Parse(true, [])
    else
      var n := Utf8CharSize(token[0]);
      if n > |token| || CharByte(token[..n]) == -1 then Parse(false, [])
      else
        var rest := ParseBytes(token[n..]);
        Parse(rest.ok, [CharByte(token[..n])] + rest.bytes)
  }

  lemma DecodeCharInverts(b: U8)
    ensures CharByte(ByteEncoder(b)) == b
  {
    var c := CharByte(ByteEncoder(b));
    hide ByteEncoder, DecodeChar;
    assert c != -1;
    ByteEncoderInjective(c, b);
  }

  /** Parsing reads back exactly the bytes that were encoded. */
  lemma {:induction false} ParseInvertsEncode(bs: Bytes)
    ensures ParseBytes(EncodeBytes(bs)) == Parse(true, bs)
  {
    hide ByteEncoder, CharByte, Utf8CharSize;
    if bs != [] {
      var token, c := EncodeBytes(bs), ByteEncoder(bs[0]);
      ByteEncoderSize(bs[0]);
      DecodeCharInverts(bs[0]);
      ParseInvertsEncode(bs[1..]);
      assert token[0] == c[0] && token[..|c|] == c && token[|c|..] == EncodeBytes(bs[1..]);
      assert [bs[0]] + bs[1..] == bs;
    }
  }

  lemma {:induction false} EncodeBytesConcat(a: Bytes, b: Bytes)
    ensures EncodeBytes(a + b) == EncodeBytes(a) + EncodeBytes(b)
  {
    if a == [] {
      assert a + b == b;
    } else {
      assert (a + b)[1..] == a[1..] + b;
      EncodeBytesConcat(a[1..], b);
    }
  }

  /** An encoded byte string has no line feed, and has `<` only where the bytes have it. */
  lemma {:induction false} EncodeBytesCharacters(bs: Bytes)
    ensures NEWLINE !in EncodeBytes(bs)
    ensures LESS in EncodeBytes(bs) <==> LESS in bs
    ensures bs != [] ==> EncodeBytes(bs) != []
  {
    if bs != [] {
      ByteEncoderCharacters(bs[0]);
      EncodeBytesCharacters(bs[1..]);
      assert bs == [bs[0]] + bs[1..];
    }
  }
}
