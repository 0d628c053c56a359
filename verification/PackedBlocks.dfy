/** Quantised blocks written from their codes: what dequantising them gives, in plain numbers. */
module PackedBlocks {
  import opened Words
  import opened Quant
  import opened MatVec
  import opened Reduction

  /** Low byte first. */
  function HalfBytes(h: U16): (b: Bytes)
    ensures |b| == 2
  {
    [h % 0x100, h / 0x100]
  }

  lemma HalfIsRead(h: U16, bytes: Bytes, o: nat)
    requires o + 2 <= |bytes| && bytes[o..o + 2] == HalfBytes(h)
    ensures HalfAt(bytes, o) == h
  {
    assert bytes[o] == bytes[o..o + 2][0] && bytes[o + 1] == bytes[o..o + 2][1];
  }

  /** The byte of a signed 8-bit number, in two's complement. */
  function SignedByte(v: int): U8
    requires -128 <= v < 128
  {
    if v >= 0 then v else v + 256
  }

  lemma StandsAt(bytes: Bytes, o: nat, part: Bytes, i: nat)
    requires Stands(bytes, o, part) && i < |part|
    ensures bytes[o + i] == part[i]
  {
    assert bytes[o..o + |part|][i] == bytes[o + i];
  }

  lemma Inside(bytes: Bytes, o: nat, before: Bytes, part: Bytes, after: Bytes)
    requires Stands(bytes, o, before + part + after)
    ensures Stands(bytes, o + |before|, part)
  {
    var whole, n := before + part + after, |before|;
    SliceOfSlice(bytes, o, |whole|, n, n + |part|);
    assert whole[n..n + |part|] == part;
  }

  lemma SliceOfSlice(bytes: Bytes, o: nat, size: nat, from: nat, to: nat)
    requires o + size <= |bytes| && from <= to <= size
    ensures bytes[o..o + size][from..to] == bytes[o + from..o + to]
  {
    var inner, direct := bytes[o..o + size][from..to], bytes[o + from..o + to];
    assert forall i | 0 <= i < to - from :: inner[i] == direct[i];
    assert inner == direct;
  }

  // ---- Q4_K ----

  /** A scale, a scale of minima, eight pairs of 6-bit codes for 32 elements each, and a 4-bit code for
      each element. */
  datatype Q4Block = Q4Block(d: U16, dMin: U16, pairs: seq<ScaleMin>, codes: seq<nat>) {
    ghost predicate Valid() {
      SixBitPairs(pairs) && |codes| == 256 && forall k | 0 <= k < 256 :: codes[k] < 16
    }

    /** A byte holds the codes of two elements that are 32 apart. */
    function Nibbles(): (b: Bytes)
      requires Valid()
      ensures |b| == 128
    {
      seq<U8>(128, k requires 0 <= k < 128 => codes[k / 32 * 64 + k % 32] + 16 * codes[k / 32 * 64 + k % 32 + 32])
    }

    function Pack(): (b: Bytes)
      requires Valid()
      ensures |b| == 144
    {
      HalfBytes(d) + HalfBytes(dMin) + PackScales(pairs) + Nibbles()
    }

    /** Scale times code minus minimum. */
    function Weight(h: Widen, i: nat): real
      requires Valid() && i < 256
    {
      h(d) * pairs[i / 32].scale as real * codes[i] as real - h(dMin) * pairs[i / 32].min as real
    }
  }

  lemma Q4Parts(b: Q4Block, bytes: Bytes, o: nat)
    requires b.Valid() && Stands(bytes, o, b.Pack())
    ensures Stands(bytes, o, HalfBytes(b.d)) && Stands(bytes, o + 2, HalfBytes(b.dMin))
    ensures Stands(bytes, o + 4, PackScales(b.pairs)) && Stands(bytes, o + 16, b.Nibbles())
  {
    hide HalfBytes, PackScales, Q4Block.Nibbles;
    var d, m, s, q := HalfBytes(b.d), HalfBytes(b.dMin), PackScales(b.pairs), b.Nibbles();
    assert b.Pack() == [] + d + (m + s + q) == d + m + (s + q) == (d + m) + s + q == (d + m + s) + q + [];
    Inside(bytes, o, [], d, m + s + q);
    Inside(bytes, o, d, m, s + q);
    Inside(bytes, o, d + m, s, q);
    Inside(bytes, o, d + m + s, q, []);
  }

  lemma PairIsRead(pairs: seq<ScaleMin>, bytes: Bytes, o: nat, j: nat)
    requires SixBitPairs(pairs) && Stands(bytes, o, PackScales(pairs)) && j < 8
    ensures ScaleMinAt(bytes, o, j) == pairs[j]
  {
    var area := PackScales(pairs);
    ScalesRoundTrip(pairs);
    assert UnpackScales(area)[j] == ScaleMinAt(area, 0, j);
    hide PackScales;
    StandsAt(bytes, o, area, j);
    StandsAt(bytes, o, area, j + 4);
    if j >= 4 {
      StandsAt(bytes, o, area, j - 4);
    }
  }

  lemma NibblesAreRead(b: Q4Block, super: nat, i: nat)
    requires b.Valid() && super < 4 && i < 32
    ensures b.Nibbles()[super * 32 + i] % 16 == b.codes[super * 64 + i]
    ensures b.Nibbles()[super * 32 + i] / 16 == b.codes[super * 64 + 32 + i]
  {
    var k := super * 32 + i;
    assert k / 32 == super && k % 32 == i;
    JoinDigits(b.codes[super * 64 + i], b.codes[super * 64 + 32 + i], 16);
  }

  /** Element `i` of a packed Q4_K block: scale times code minus minimum. */
  lemma Q4IsDecoded(h: Widen, b: Q4Block, bytes: Bytes, o: nat, i: nat)
    requires b.Valid() && Stands(bytes, o, b.Pack()) && i < 256
    ensures o + 144 <= |bytes|
    ensures Q4InBlock(h, bytes, o, i)
            == h(b.d) * b.pairs[i / 32].scale as real * b.codes[i] as real
               - h(b.dMin) * b.pairs[i / 32].min as real
  {
    hide Q4InBlock, Stands, Q4Block.Pack;
    Q4Digits(i);
    Q4StripeIsDecoded(h, b, bytes, o, i / 64, i % 64 / 32, i % 32, i);
  }

  lemma Q4StripeIsDecoded(h: Widen, b: Q4Block, bytes: Bytes, o: nat, super: nat, half: nat, r: nat, i: nat)
    requires b.Valid() && Stands(bytes, o, b.Pack()) && super < 4 && half < 2 && r < 32
    requires i == super * 64 + half * 32 + r
    ensures o + 144 <= |bytes|
    ensures Q4InBlock(h, bytes, o, i)
            == h(b.d) * b.pairs[super * 2 + half].scale as real * b.codes[i] as real
               - h(b.dMin) * b.pairs[super * 2 + half].min as real
  {
    hide Q4InBlock, HalfAt, ScaleMinAt, HalfBytes, PackScales, Q4Block.Nibbles, Q4Block.Pack, SixBitPairs;
    Q4Parts(b, bytes, o);
    HalfIsRead(b.d, bytes, o);
    HalfIsRead(b.dMin, bytes, o + 2);
    PairIsRead(b.pairs, bytes, o + 4, super * 2 + half);
    StandsAt(bytes, o + 16, b.Nibbles(), super * 32 + r);
    NibblesAreRead(b, super, r);
    Q4InStripe(h, bytes, o, super, r, half);
  }

  lemma Q4Digits(i: nat)
    requires i < 256
    ensures var super, half, r := i / 64, i % 64 / 32, i % 32;
            super < 4 && half < 2 && i == super * 64 + half * 32 + r && i / 32 == super * 2 + half
  {}

  /** Any 144 bytes are a block of this kind. */
  lemma EveryQ4Block(bytes: Bytes) returns (b: Q4Block)
    requires |bytes| == 144
    ensures b.Valid() && b.Pack() == bytes
  {
    var area, qs := bytes[4..16], bytes[16..144];
    b := Q4Block(HalfAt(bytes, 0), HalfAt(bytes, 2), UnpackScales(area), NibblesOf(qs));
    ScaleAreaRoundTrip(area);
    HalfIsWritten(bytes, 0);
    HalfIsWritten(bytes, 2);
    hide PackScales, UnpackScales, HalfBytes, HalfAt, Q4Block.Nibbles, SixBitPairs, NibblesOf;
    NibblesAreWritten(b, qs);
    assert bytes == bytes[0..2] + bytes[2..4] + area + qs;
  }

  function NibblesOf(qs: Bytes): (codes: seq<nat>)
    requires |qs| == 128
    ensures |codes| == 256 && forall k | 0 <= k < 256 :: codes[k] < 16
  {
    seq<nat>(256, k requires 0 <= k < 256 =>
      if k % 64 < 32 then qs[k / 64 * 32 + k % 32] % 16 else qs[k / 64 * 32 + k % 32] / 16)
  }

  lemma NibblesAreWritten(b: Q4Block, qs: Bytes)
    requires |qs| == 128 && b.Valid() && b.codes == NibblesOf(qs)
    ensures b.Nibbles() == qs
  {
    hide NibblesOf, SixBitPairs;
    forall k | 0 <= k < 128 ensures b.Nibbles()[k] == qs[k] {
      NibbleIndex(k);
      NibblePair(qs, k, k / 32 * 64 + k % 32);
    }
  }

  lemma NibblePair(qs: Bytes, k: nat, low: nat)
    requires |qs| == 128 && k < 128 && low + 32 < 256 && low % 64 < 32 && (low + 32) % 64 >= 32
    requires low / 64 * 32 + low % 32 == k && (low + 32) / 64 * 32 + (low + 32) % 32 == k
    ensures NibblesOf(qs)[low] == qs[k] % 16 && NibblesOf(qs)[low + 32] == qs[k] / 16
  {}

  lemma NibbleIndex(k: nat)
    requires k < 128
    ensures var low := k / 32 * 64 + k % 32;
            && low + 32 < 256 && low % 64 < 32 && low / 64 * 32 + low % 32 == k
            && (low + 32) % 64 >= 32 && (low + 32) / 64 * 32 + (low + 32) % 32 == k
  {}

  lemma HalfIsWritten(bytes: Bytes, o: nat)
    requires o + 2 <= |bytes|
    ensures HalfBytes(HalfAt(bytes, o)) == bytes[o..o + 2]
  {
    LowByte(bytes[o], bytes[o + 1]);
  }

  lemma LowByte(low: nat, high: nat)
    requires low < 0x100
    ensures (low + high * 0x100) % 0x100 == low && (low + high * 0x100) / 0x100 == high
  {}

  // ---- Q6_K ----

  /** Low and high bits of a 6-bit code for each element, a signed scale for each sixteen, and a scale. */
  datatype Q6Block = Q6Block(d: U16, scales: seq<int>, codes: seq<int>) {
    ghost predicate Valid() {
      && |scales| == 16 && (forall k | 0 <= k < 16 :: -128 <= scales[k] < 128)
      && |codes| == 256 && (forall k | 0 <= k < 256 :: 0 <= codes[k] < 64)
    }

    /** The low four bits: a byte holds those of two elements that are 64 apart. */
    function Low(): (b: Bytes)
      requires Valid()
      ensures |b| == 128
    {
      seq<U8>(128, k requires 0 <= k < 128 =>
        codes[k / 64 * 128 + k % 64] % 16 + 16 * (codes[k / 64 * 128 + k % 64 + 64] % 16))
    }

    /** The high two bits: a byte holds those of four elements that are 32 apart. */
    function High(): (b: Bytes)
      requires Valid()
      ensures |b| == 64
    {
      seq<U8>(64, k requires 0 <= k < 64 => HighByte(k / 32 * 128 + k % 32))
    }

    function HighByte(e: nat): U8
      requires Valid() && e < 160
    {
      codes[e] / 16 + 4 * (codes[e + 32] / 16 + 4 * (codes[e + 64] / 16 + 4 * (codes[e + 96] / 16)))
    }

    function ScaleBytes(): (b: Bytes)
      requires Valid()
      ensures |b| == 16
    {
      seq<U8>(16, k requires 0 <= k < 16 => SignedByte(scales[k]))
    }

    function Pack(): (b: Bytes)
      requires Valid()
      ensures |b| == 210
    {
      Low() + High() + ScaleBytes() + HalfBytes(d)
    }

    /** Both scales times the code minus 32. */
    function Weight(h: Widen, i: nat): real
      requires Valid() && i < 256
    {
      h(d) * scales[i / 16] as real * (codes[i] - 32) as real
    }
  }

  lemma Q6Parts(b: Q6Block, bytes: Bytes, o: nat)
    requires b.Valid() && Stands(bytes, o, b.Pack())
    ensures Stands(bytes, o, b.Low()) && Stands(bytes, o + 128, b.High())
    ensures Stands(bytes, o + 192, b.ScaleBytes()) && Stands(bytes, o + 208, HalfBytes(b.d))
  {
    hide HalfBytes, Q6Block.Low, Q6Block.High, Q6Block.ScaleBytes;
    var l, g, s, d := b.Low(), b.High(), b.ScaleBytes(), HalfBytes(b.d);
    assert b.Pack() == [] + l + (g + s + d) == l + g + (s + d) == (l + g) + s + d == (l + g + s) + d + [];
    Inside(bytes, o, [], l, g + s + d);
    Inside(bytes, o, l, g, s + d);
    Inside(bytes, o, l + g, s, d);
    Inside(bytes, o, l + g + s, d, []);
  }

  lemma LowIsRead(b: Q6Block, half: nat, part: nat, r: nat)
    requires b.Valid() && half < 2 && part < 4 && r < 32
    ensures var byte := b.Low()[half * 64 + part % 2 * 32 + r];
            (if part < 2 then byte % 16 else byte / 16) == b.codes[half * 128 + part * 32 + r] % 16
  {
    var k, e := half * 64 + part % 2 * 32 + r, half * 128 + part % 2 * 32 + r;
    assert k / 64 == half && k % 64 == part % 2 * 32 + r;
    JoinDigits(b.codes[e] % 16, b.codes[e + 64] % 16, 16);
  }

  lemma HighIsRead(b: Q6Block, half: nat, part: nat, r: nat)
    requires b.Valid() && half < 2 && part < 4 && r < 32
    ensures TwoBits(b.High()[half * 32 + r], part) == b.codes[half * 128 + part * 32 + r] / 16
  {
    var k, e := half * 32 + r, half * 128 + r;
    assert k / 32 == half && k % 32 == r;
    FourDigits(b.codes[e] / 16, b.codes[e + 32] / 16, b.codes[e + 64] / 16, b.codes[e + 96] / 16);
  }

  lemma FourDigits(a: nat, b: nat, c: nat, d: nat)
    requires a < 4 && b < 4 && c < 4 && d < 4
    ensures var n := a + 4 * (b + 4 * (c + 4 * d)); n % 4 == a && n / 4 % 4 == b && n / 16 % 4 == c && n / 64 == d
  {}

  lemma SignIsRead(v: int)
    requires -128 <= v < 128
    ensures Signed(SignedByte(v)) == v
  {}

  /** Element `i` of a packed Q6_K block: both scales times the code minus 32. */
  lemma Q6IsDecoded(h: Widen, b: Q6Block, bytes: Bytes, o: nat, i: nat)
    requires b.Valid() && Stands(bytes, o, b.Pack()) && i < 256
    ensures o + 210 <= |bytes|
    ensures Q6InBlock(h, bytes, o, i) == h(b.d) * b.scales[i / 16] as real * (b.codes[i] - 32) as real
  {
    hide Q6InBlock, Stands, Q6Block.Pack;
    Q6Digits(i);
    Q6StripeIsDecoded(h, b, bytes, o, i / 128, i % 128 / 32, i % 32, i);
  }

  lemma Q6Digits(i: nat)
    requires i < 256
    ensures var half, part, r := i / 128, i % 128 / 32, i % 32;
            && half < 2 && part < 4 && i == half * 128 + part * 32 + r && i / 16 == half * 8 + r / 16 + part * 2
  {}

  lemma Q6StripeIsDecoded(h: Widen, b: Q6Block, bytes: Bytes, o: nat, half: nat, part: nat, r: nat, i: nat)
    requires b.Valid() && Stands(bytes, o, b.Pack()) && half < 2 && part < 4 && r < 32
    requires i == half * 128 + part * 32 + r
    ensures o + 210 <= |bytes|
    ensures Q6InBlock(h, bytes, o, i)
            == h(b.d) * b.scales[half * 8 + r / 16 + part * 2] as real * (b.codes[i] - 32) as real
  {
    hide Q6InBlock, HalfAt, HalfBytes, TwoBits, Signed, SignedByte, Stands;
    hide Q6Block.Valid, Q6Block.Pack, Q6Block.Low, Q6Block.High, Q6Block.ScaleBytes;
    var low, high, s := half * 64 + part % 2 * 32 + r, half * 32 + r, half * 8 + r / 16 + part * 2;
    Q6BytesStand(b, bytes, o, low, high, s);
    Q6CodeIsRead(b, half, part, r, bytes[o + low], bytes[o + 128 + high]);
    Q6InHalf(h, bytes, o, half, r, part);
  }

  lemma Q6BytesStand(b: Q6Block, bytes: Bytes, o: nat, low: nat, high: nat, s: nat)
    requires b.Valid() && Stands(bytes, o, b.Pack()) && low < 128 && high < 64 && s < 16
    ensures o + 210 <= |bytes| && |b.scales| == 16 && HalfAt(bytes, o + 208) == b.d
    ensures bytes[o + low] == b.Low()[low] && bytes[o + 128 + high] == b.High()[high]
    ensures Signed(bytes[o + 192 + s]) == b.scales[s]
  {
    hide HalfAt, HalfBytes, Signed, SignedByte, Q6Block.Low, Q6Block.High, Q6Block.Pack;
    Q6Parts(b, bytes, o);
    HalfIsRead(b.d, bytes, o + 208);
    StandsAt(bytes, o, b.Low(), low);
    StandsAt(bytes, o + 128, b.High(), high);
    StandsAt(bytes, o + 192, b.ScaleBytes(), s);
    SignIsRead(b.scales[s]);
  }

  lemma Q6CodeIsRead(b: Q6Block, half: nat, part: nat, r: nat, low: U8, high: U8)
    requires b.Valid() && half < 2 && part < 4 && r < 32
    requires low == b.Low()[half * 64 + part % 2 * 32 + r] && high == b.High()[half * 32 + r]
    ensures half * 128 + part * 32 + r < |b.codes|
    ensures (if part < 2 then low % 16 else low / 16) + TwoBits(high, part) * 16 == b.codes[half * 128 + part * 32 + r]
  {
    hide TwoBits, Q6Block.Low, Q6Block.High;
    LowIsRead(b, half, part, r);
    HighIsRead(b, half, part, r);
  }

  /** Any 210 bytes are a block of this kind. */
  lemma EveryQ6Block(bytes: Bytes) returns (b: Q6Block)
    requires |bytes| == 210
    ensures b.Valid() && b.Pack() == bytes
  {
    var low, high, signs := bytes[..128], bytes[128..192], bytes[192..208];
    b := Q6Block(HalfAt(bytes, 208), SignedOf(signs), CodesOf(low, high));
    HalfIsWritten(bytes, 208);
    CodesAreWritten(b, low, high);
    hide HalfBytes, HalfAt, Q6Block.Low, Q6Block.High, CodesOf, SignedOf, Signed;
    assert b.ScaleBytes() == signs;
    assert bytes == low + high + signs + bytes[208..210];
  }

  function SignedOf(bytes: Bytes): (s: seq<int>)
    ensures |s| == |bytes| && forall k | 0 <= k < |bytes| :: -128 <= s[k] < 128 && SignedByte(s[k]) == bytes[k]
  {
    seq<int>(|bytes|, k requires 0 <= k < |bytes| => Signed(bytes[k]))
  }

  /** The codes whose low bits are in `low` and whose high bits are in `high`. */
  function CodesOf(low: Bytes, high: Bytes): (codes: seq<int>)
    requires |low| == 128 && |high| == 64
    ensures |codes| == 256 && forall k | 0 <= k < 256 :: 0 <= codes[k] < 64
  {
    seq<int>(256, k requires 0 <= k < 256 => CodeAt(low, high, k / 128, k % 128 / 32, k % 32))
  }

  function CodeAt(low: Bytes, high: Bytes, half: nat, part: nat, r: nat): (c: int)
    requires |low| == 128 && |high| == 64 && half < 2 && part < 4 && r < 32
    ensures 0 <= c < 64
    ensures var byte := low[half * 64 + part % 2 * 32 + r];
            c % 16 == (if part < 2 then byte % 16 else byte / 16) && c / 16 == TwoBits(high[half * 32 + r], part)
  {
    var byte := low[half * 64 + part % 2 * 32 + r];
    (if part < 2 then byte % 16 else byte / 16) + TwoBits(high[half * 32 + r], part) * 16
  }

  lemma CodeIs(low: Bytes, high: Bytes, half: nat, part: nat, r: nat)
    requires |low| == 128 && |high| == 64 && half < 2 && part < 4 && r < 32
    ensures CodesOf(low, high)[half * 128 + part * 32 + r] == CodeAt(low, high, half, part, r)
  {
    hide CodeAt;
    var k := half * 128 + part * 32 + r;
    assert k / 128 == half && k % 128 / 32 == part && k % 32 == r;
  }

  lemma CodesAreWritten(b: Q6Block, low: Bytes, high: Bytes)
    requires |low| == 128 && |high| == 64 && b.Valid() && b.codes == CodesOf(low, high)
    ensures b.Low() == low && b.High() == high
  {
    hide CodesOf, Q6Block.Low, Q6Block.High;
    forall k | 0 <= k < 128 ensures b.Low()[k] == low[k] {
      LowIsWritten(b, low, high, k / 64, k % 64 / 32, k % 32, k);
    }
    forall k | 0 <= k < 64 ensures b.High()[k] == high[k] {
      HighIsWritten(b, low, high, k / 32, k % 32, k);
    }
  }

  lemma LowIsWritten(b: Q6Block, low: Bytes, high: Bytes, half: nat, part: nat, r: nat, k: nat)
    requires |low| == 128 && |high| == 64 && b.Valid() && b.codes == CodesOf(low, high)
    requires half < 2 && part < 2 && r < 32 && k == half * 64 + part * 32 + r
    ensures b.Low()[k] == low[k]
  {
    hide CodesOf, CodeAt, Q6Block.Valid;
    CodeIs(low, high, half, part, r);
    CodeIs(low, high, half, part + 2, r);
    assert k / 64 == half && k % 64 == part * 32 + r;
  }

  lemma HighIsWritten(b: Q6Block, low: Bytes, high: Bytes, half: nat, r: nat, k: nat)
    requires |low| == 128 && |high| == 64 && b.Valid() && b.codes == CodesOf(low, high)
    requires half < 2 && r < 32 && k == half * 32 + r
    ensures b.High()[k] == high[k]
  {
    hide CodesOf, CodeAt, Q6Block.Valid, TwoBits;
    CodeIs(low, high, half, 0, r);
    CodeIs(low, high, half, 1, r);
    CodeIs(low, high, half, 2, r);
    CodeIs(low, high, half, 3, r);
    assert k / 32 == half && k % 32 == r;
    FourParts(high[k]);
  }

  lemma FourParts(b: U8)
    ensures b == TwoBits(b, 0) + 4 * (TwoBits(b, 1) + 4 * (TwoBits(b, 2) + 4 * TwoBits(b, 3)))
  {
    var c: nat := b / 4;
    var d: nat := c / 4;
    assert b / 16 == d && b / 64 == d / 4;
  }

  // ---- Q8_0 ----

  /** A scale and a signed code for each of 32 elements. */
  datatype Q8Block = Q8Block(d: U16, codes: seq<int>) {
    ghost predicate Valid() {
      |codes| == 32 && forall k | 0 <= k < 32 :: -128 <= codes[k] < 128
    }

    function Pack(): (b: Bytes)
      requires Valid()
      ensures |b| == 34
    {
      HalfBytes(d) + seq<U8>(32, k requires 0 <= k < 32 => SignedByte(codes[k]))
    }
  }

  // ---- Whole tensors ----

  function Join(parts: seq<Bytes>): Bytes {
    if parts == [] then [] else parts[0] + Join(parts[1..])
  }

  lemma {:induction false} PartStands(parts: seq<Bytes>, n: nat, k: nat)
    requires k < |parts| && forall i | 0 <= i < |parts| :: |parts[i]| == n
    ensures Stands(Join(parts), k * n, parts[k])
  {
    var rest := parts[1..];
    if k > 0 {
      PartStands(rest, n, k - 1);
      NextMultiple(k - 1, n);
      assert rest[k - 1] == parts[k];
      Shifted(parts[0], Join(rest), (k - 1) * n, parts[k]);
    }
  }

  lemma Shifted(first: Bytes, rest: Bytes, o: nat, part: Bytes)
    requires Stands(rest, o, part)
    ensures Stands(first + rest, |first| + o, part)
  {
    assert (first + rest)[|first| + o..|first| + o + |part|] == rest[o..o + |part|];
  }

  function Q4Packed(blocks: seq<Q4Block>): (parts: seq<Bytes>)
    requires forall i | 0 <= i < |blocks| :: blocks[i].Valid()
    ensures |parts| == |blocks| && forall i | 0 <= i < |blocks| :: parts[i] == blocks[i].Pack()
  {
    seq(|blocks|, i requires 0 <= i < |blocks| => blocks[i].Pack())
  }

  function Q6Packed(blocks: seq<Q6Block>): (parts: seq<Bytes>)
    requires forall i | 0 <= i < |blocks| :: blocks[i].Valid()
    ensures |parts| == |blocks| && forall i | 0 <= i < |blocks| :: parts[i] == blocks[i].Pack()
  {
    seq(|blocks|, i requires 0 <= i < |blocks| => blocks[i].Pack())
  }

  function Q8Packed(blocks: seq<Q8Block>): (parts: seq<Bytes>)
    requires forall i | 0 <= i < |blocks| :: blocks[i].Valid()
    ensures |parts| == |blocks| && forall i | 0 <= i < |blocks| :: parts[i] == blocks[i].Pack()
  {
    seq(|blocks|, i requires 0 <= i < |blocks| => blocks[i].Pack())
  }

  /** What `DequantQ4` leaves for element `i` of block `k` of a tensor: scale times code minus minimum. */
  lemma Q4TensorDecoded(h: Widen, n: Narrow, blocks: seq<Q4Block>, k: nat, i: nat, value: U16)
    requires (forall j | 0 <= j < |blocks| :: blocks[j].Valid()) && k < |blocks| && i < 256
    requires Q4Holds(h, n, Join(Q4Packed(blocks)), k * 256 + i, value)
    ensures value == n(h(blocks[k].d) * blocks[k].pairs[i / 32].scale as real * blocks[k].codes[i] as real
                       - h(blocks[k].dMin) * blocks[k].pairs[i / 32].min as real)
  {
    hide Q4InBlock, Stands, Join, Q4Block.Pack, Q4Packed;
    var bytes, e := Join(Q4Packed(blocks)), k * 256 + i;
    PartStands(Q4Packed(blocks), 144, k);
    Q4IsDecoded(h, blocks[k], bytes, k * 144, i);
    assert e / 256 == k && e % 256 == i;
    assert value == n(Q4Element(h, bytes, e));
    assert Q4Element(h, bytes, e)
           == h(blocks[k].d) * blocks[k].pairs[i / 32].scale as real * blocks[k].codes[i] as real
              - h(blocks[k].dMin) * blocks[k].pairs[i / 32].min as real;
  }

  /** What `DequantQ6` leaves: both scales times the code minus 32. */
  lemma Q6TensorDecoded(h: Widen, n: Narrow, blocks: seq<Q6Block>, k: nat, i: nat, value: U16)
    requires (forall j | 0 <= j < |blocks| :: blocks[j].Valid()) && k < |blocks| && i < 256
    requires Q6Holds(h, n, Join(Q6Packed(blocks)), k * 256 + i, value)
    ensures value == n(h(blocks[k].d) * blocks[k].scales[i / 16] as real * (blocks[k].codes[i] - 32) as real)
  {
    hide Q6InBlock, Stands, Join, Q6Block.Pack, Q6Packed;
    var bytes, e := Join(Q6Packed(blocks)), k * 256 + i;
    PartStands(Q6Packed(blocks), 210, k);
    Q6IsDecoded(h, blocks[k], bytes, k * 210, i);
    assert e / 256 == k && e % 256 == i;
    assert value == n(Q6Element(h, bytes, e));
    assert Q6Element(h, bytes, e)
           == h(blocks[k].d) * blocks[k].scales[i / 16] as real * (blocks[k].codes[i] - 32) as real;
  }

  /** What `DequantQ8` leaves: scale times code. */
  lemma Q8TensorDecoded(h: Widen, n: Narrow, blocks: seq<Q8Block>, k: nat, i: nat, value: U16)
    requires (forall j | 0 <= j < |blocks| :: blocks[j].Valid()) && k < |blocks| && i < 32
    requires Q8Holds(h, n, Join(Q8Packed(blocks)), k * 32 + i, value)
    ensures value == n(h(blocks[k].d) * blocks[k].codes[i] as real)
  {
    hide Stands, Join, Q8Block.Pack, Q8Packed, Signed, HalfAt;
    var bytes, e := Join(Q8Packed(blocks)), k * 32 + i;
    PartStands(Q8Packed(blocks), 34, k);
    Q8IsDecoded(blocks[k], bytes, k * 34, i);
    assert e / 32 == k && e % 32 == i;
    assert value == n(Q8Element(h, bytes, e));
    assert Q8Element(h, bytes, e)
           == h(blocks[k].d) * blocks[k].codes[i] as real;
  }

  lemma Q8IsDecoded(b: Q8Block, bytes: Bytes, o: nat, i: nat)
    requires b.Valid() && Stands(bytes, o, b.Pack()) && i < 32
    ensures o + 34 <= |bytes| && HalfAt(bytes, o) == b.d && Signed(bytes[o + 2 + i]) == b.codes[i]
  {
    Inside(bytes, o, [], HalfBytes(b.d), b.Pack()[2..]);
    HalfIsRead(b.d, bytes, o);
    StandsAt(bytes, o, b.Pack(), 2 + i);
    SignIsRead(b.codes[i]);
  }

  lemma EveryQ8Block(bytes: Bytes) returns (b: Q8Block)
    requires |bytes| == 34
    ensures b.Valid() && b.Pack() == bytes
  {
    b := Q8Block(HalfAt(bytes, 0), seq<int>(32, k requires 0 <= k < 32 => Signed(bytes[2 + k])));
    HalfIsWritten(bytes, 0);
    hide HalfBytes, HalfAt;
    assert b.Pack()[2..] == bytes[2..34];
    assert b.Pack() == b.Pack()[..2] + b.Pack()[2..] && bytes == bytes[0..2] + bytes[2..34];
  }

  // ---- Matrices of packed blocks ----

  /** Row `r` of a Q4_K matrix times the input: any products of the written-out weights have its sum. */
  lemma Q4MatrixRow(
    m: Matrix, blocks: seq<Q4Block>, h: Widen, x: seq<U16>, r: nat, p: seq<real>)
    requires m.f.Q4? && m.Valid() && |x| == m.Columns() && r < m.rows
    requires (forall j | 0 <= j < |blocks| :: blocks[j].Valid()) && |blocks| == m.rows * m.blocks
    requires m.bytes == Join(Q4Packed(blocks)) && |p| == m.Columns()
    requires forall c | 0 <= c < |p| :: IsProduct4(blocks, h, x, m.BlockNumber(r, c / 256), c, p[c])
    ensures m.Dot(h, x, r) == Sum(p)
  {
    hide Q4Block.Valid, Sum, Join, Matrix.Products, Matrix.Valid, Matrix.BlockNumber, IsProduct4;
    forall c | 0 <= c < |p| ensures m.Products(h, x, r)[c] == p[c] {
      Q4Product(m, blocks, h, x, r, c / 256, c % 256, p[c]);
    }
    assert m.Products(h, x, r) == p;
  }

  lemma Q4Product(m: Matrix, blocks: seq<Q4Block>, h: Widen, x: seq<U16>, r: nat, b: nat, i: nat, v: real)
    requires m.f.Q4? && m.Valid() && |x| == m.Columns() && r < m.rows && b < m.blocks && i < 256
    requires (forall j | 0 <= j < |blocks| :: blocks[j].Valid()) && m.bytes == Join(Q4Packed(blocks))
    requires IsProduct4(blocks, h, x, m.BlockNumber(r, b), b * 256 + i, v)
    ensures m.Products(h, x, r)[b * 256 + i] == v
  {
    hide Q4Block.Valid, Q4Block.Weight, Q4InBlock, Join, Matrix.Products, Matrix.Valid, Matrix.BlockNumber;
    m.ProductOfBlock(h, x, r, b, i);
    Q4WeightStands(h, blocks, m.BlockNumber(r, b), i);
    assert (b * 256 + i) % 256 == i;
  }

  lemma Q4WeightStands(h: Widen, blocks: seq<Q4Block>, k: nat, i: nat)
    requires (forall j | 0 <= j < |blocks| :: blocks[j].Valid()) && k < |blocks| && i < 256
    ensures var bytes := Join(Q4Packed(blocks));
            k * 144 + 144 <= |bytes| && Q4InBlock(h, bytes, k * 144, i) == blocks[k].Weight(h, i)
  {
    hide Q4Block.Valid, Q4Block.Pack, Q4InBlock, Stands, Join;
    PartStands(Q4Packed(blocks), 144, k);
    Q4IsDecoded(h, blocks[k], Join(Q4Packed(blocks)), k * 144, i);
  }

  /** `v` is weight `c % 256` of block `b` times input `c`. */
  ghost predicate IsProduct4(blocks: seq<Q4Block>, h: Widen, x: seq<U16>, b: nat, c: nat, v: real) {
    && b < |blocks| && blocks[b].Valid() && c < |x|
    && v == blocks[b].Weight(h, c % 256) * h(x[c])
  }

  /** The same for a Q6_K matrix. */
  lemma Q6MatrixRow(
    m: Matrix, blocks: seq<Q6Block>, h: Widen, x: seq<U16>, r: nat, p: seq<real>)
    requires m.f.Q6? && m.Valid() && |x| == m.Columns() && r < m.rows
    requires (forall j | 0 <= j < |blocks| :: blocks[j].Valid()) && |blocks| == m.rows * m.blocks
    requires m.bytes == Join(Q6Packed(blocks)) && |p| == m.Columns()
    requires forall c | 0 <= c < |p| :: IsProduct6(blocks, h, x, m.BlockNumber(r, c / 256), c, p[c])
    ensures m.Dot(h, x, r) == Sum(p)
  {
    hide Q6Block.Valid, Sum, Join, Matrix.Products, Matrix.Valid, Matrix.BlockNumber, IsProduct6;
    forall c | 0 <= c < |p| ensures m.Products(h, x, r)[c] == p[c] {
      Q6Product(m, blocks, h, x, r, c / 256, c % 256, p[c]);
    }
    assert m.Products(h, x, r) == p;
  }

  lemma Q6Product(m: Matrix, blocks: seq<Q6Block>, h: Widen, x: seq<U16>, r: nat, b: nat, i: nat, v: real)
    requires m.f.Q6? && m.Valid() && |x| == m.Columns() && r < m.rows && b < m.blocks && i < 256
    requires (forall j | 0 <= j < |blocks| :: blocks[j].Valid()) && m.bytes == Join(Q6Packed(blocks))
    requires IsProduct6(blocks, h, x, m.BlockNumber(r, b), b * 256 + i, v)
    ensures m.Products(h, x, r)[b * 256 + i] == v
  {
    hide Q6Block.Valid, Q6Block.Weight, Q6InBlock, Join, Matrix.Products, Matrix.Valid, Matrix.BlockNumber;
    m.ProductOfBlock(h, x, r, b, i);
    Q6WeightStands(h, blocks, m.BlockNumber(r, b), i);
    assert (b * 256 + i) % 256 == i;
  }

  lemma Q6WeightStands(h: Widen, blocks: seq<Q6Block>, k: nat, i: nat)
    requires (forall j | 0 <= j < |blocks| :: blocks[j].Valid()) && k < |blocks| && i < 256
    ensures var bytes := Join(Q6Packed(blocks));
            k * 210 + 210 <= |bytes| && Q6InBlock(h, bytes, k * 210, i) == blocks[k].Weight(h, i)
  {
    hide Q6Block.Valid, Q6Block.Pack, Q6InBlock, Stands, Join;
    PartStands(Q6Packed(blocks), 210, k);
    Q6IsDecoded(h, blocks[k], Join(Q6Packed(blocks)), k * 210, i);
  }

  ghost predicate IsProduct6(blocks: seq<Q6Block>, h: Widen, x: seq<U16>, b: nat, c: nat, v: real) {
    && b < |blocks| && blocks[b].Valid() && c < |x|
    && v == blocks[b].Weight(h, c % 256) * h(x[c])
  }
}
