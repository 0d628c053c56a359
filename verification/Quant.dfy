/** Quantised blocks: the host dequantisers, which scatter values block by block, against the value of
    one element, which is what a GPU thread gathers. Arithmetic on weights is exact. */
module Quant {
  import opened Words

  /** The value of FP16 bits. */
  type Widen = U16 -> real

  /** The half a real value is stored as. */
  type Narrow = real -> U16

  // ---- Sizes ----

  datatype GgufType = F32 | F16 | BF16 | Q8_0 | Q4_K | Q6_K | Other

  function BlockSize(t: GgufType): nat {
    match t
    case F32 => 1
    case F16 => 1
    case BF16 => 1
    case Q8_0 => 32
    case Q4_K => 256
    case Q6_K => 256
    case Other => 0
  }

  function BlockBytes(t: GgufType): nat {
    match t
    case F32 => 4
    case F16 => 2
    case BF16 => 2
    case Q8_0 => 2 + 32
    case Q4_K => 2 + 2 + 12 + 128
    case Q6_K => 128 + 64 + 16 + 2
    case Other => 0
  }

  /** `gguf_tensor_nbytes`: whole blocks, the last one possibly not full. */
  function TensorBytes(t: GgufType, elements: nat): nat {
    if t.Other? then 0 else (elements + BlockSize(t) - 1) / BlockSize(t) * BlockBytes(t)
  }

  /** The block of every element lies inside the tensor's bytes. */
  lemma ElementBlockFits(t: GgufType, elements: nat, k: nat)
    requires !t.Other? && k < elements
    ensures (k / BlockSize(t) + 1) * BlockBytes(t) <= TensorBytes(t, elements)
  {
    var last := (elements + BlockSize(t) - 1) / BlockSize(t);
    assert k / BlockSize(t) + 1 <= last;
    hide BlockSize, BlockBytes;
    Scales(k / BlockSize(t) + 1, last, BlockBytes(t));
  }

  /** Byte counts of whole blocks, and of one element more. */
  lemma SizesInNumbers(n: nat)
    ensures TensorBytes(Q4_K, 256 * n) == 144 * n && TensorBytes(Q4_K, 256 * n + 1) == 144 * n + 144
    ensures TensorBytes(Q6_K, 256 * n) == 210 * n && TensorBytes(Q6_K, 256 * n + 1) == 210 * n + 210
    ensures TensorBytes(Q8_0, 32 * n) == 34 * n && TensorBytes(Q8_0, 32 * n + 1) == 34 * n + 34
    ensures TensorBytes(F32, n) == 4 * n && TensorBytes(F16, n) == 2 * n && TensorBytes(BF16, n) == 2 * n
  {
    WholeBlocks(n, 256);
    WholeBlocks(n, 32);
    WholeBlocks(n, 1);
  }

  lemma WholeBlocks(n: nat, size: nat)
    requires size > 0
    ensures (size * n + size - 1) / size == n && (size * n + 1 + size - 1) / size == n + 1
  {
    Quotient(n, size, size - 1);
    Quotient(n + 1, size, 0);
    NextMultiple(n, size);
  }

  function HalfAt(bytes: Bytes, o: nat): U16
    requires o + 2 <= |bytes|
  {
    var low: nat, high: nat := bytes[o], bytes[o + 1];
    low + high * 0x100
  }

  /** A byte as a signed 8-bit number. */
  function Signed(b: U8): int {
    if b < 128 then b else b - 256
  }

  // ---- The packed scales of a Q4_K block ----

  datatype ScaleMin = ScaleMin(scale: nat, min: nat)

  /** `get_q4k_scale_min`: the pair of sub-block `j` in the twelve bytes at `o`. */
  function ScaleMinAt(bytes: Bytes, o: nat, j: nat): (r: ScaleMin)
    requires o + 12 <= |bytes| && j < 8
    ensures r.scale < 64 && r.min < 64
  {
    if j < 4 then ScaleMin(bytes[o + j] % 64, bytes[o + j + 4] % 64)
    else ScaleMin(bytes[o + j + 4] % 16 + bytes[o + j - 4] / 64 * 16, bytes[o + j + 4] / 16 + bytes[o + j] / 64 * 16)
  }

  ghost predicate SixBitPairs(pairs: seq<ScaleMin>) {
    |pairs| == 8 && forall j | 0 <= j < 8 :: pairs[j].scale < 64 && pairs[j].min < 64
  }

  function UnpackScales(area: Bytes): seq<ScaleMin>
    requires |area| == 12
  {
    seq(8, j requires 0 <= j < 8 => ScaleMinAt(area, 0, j))
  }

  /** The inverse packing: the low six bits of the first four pairs, and the others split in two. */
  function PackScales(pairs: seq<ScaleMin>): (area: Bytes)
    requires SixBitPairs(pairs)
    ensures |area| == 12
  {
    seq<U8>(12, k requires 0 <= k < 12 =>
      if k < 4 then pairs[k].scale + pairs[k + 4].scale / 16 * 64
      else if k < 8 then pairs[k - 4].min + pairs[k].min / 16 * 64
      else pairs[k - 4].scale % 16 + pairs[k - 4].min % 16 * 16)
  }

  /** Sixteen codes and their twelve bytes. */
  lemma KnownScales()
    ensures PackScales([ScaleMin(1, 2), ScaleMin(3, 4), ScaleMin(5, 6), ScaleMin(7, 8), ScaleMin(0x19, 0x2a),
                        ScaleMin(0x3b, 0x0c), ScaleMin(0x1d, 0x2e), ScaleMin(0x3f, 0)])
            == [0x41, 0xc3, 0x45, 0xc7, 0x82, 4, 0x86, 8, 0xa9, 0xcb, 0xed, 0x0f]
  {}

  lemma JoinDigits(low: nat, high: nat, base: nat)
    requires low < base && base in {16, 64}
    ensures (low + high * base) % base == low && (low + high * base) / base == high
  {}

  /** Sixteen 6-bit codes and twelve bytes determine each other. */
  lemma ScalesRoundTrip(pairs: seq<ScaleMin>)
    requires SixBitPairs(pairs)
    ensures UnpackScales(PackScales(pairs)) == pairs
  {
    var area := PackScales(pairs);
    forall j | 0 <= j < 8 ensures ScaleMinAt(area, 0, j) == pairs[j] {
      if j < 4 {
        EarlyPair(area, pairs, j);
      } else {
        LatePair(area, pairs, j);
      }
    }
  }

  lemma EarlyPair(area: Bytes, pairs: seq<ScaleMin>, j: nat)
    requires SixBitPairs(pairs) && area == PackScales(pairs) && j < 4
    ensures ScaleMinAt(area, 0, j) == pairs[j]
  {
    JoinDigits(pairs[j].scale, pairs[j + 4].scale / 16, 64);
    JoinDigits(pairs[j].min, pairs[j + 4].min / 16, 64);
  }

  lemma LatePair(area: Bytes, pairs: seq<ScaleMin>, j: nat)
    requires SixBitPairs(pairs) && area == PackScales(pairs) && 4 <= j < 8
    ensures ScaleMinAt(area, 0, j) == pairs[j]
  {
    JoinDigits(pairs[j].scale % 16, pairs[j].min % 16, 16);
    JoinDigits(pairs[j - 4].scale, pairs[j].scale / 16, 64);
    JoinDigits(pairs[j - 4].min, pairs[j].min / 16, 64);
  }

  lemma ScaleAreaRoundTrip(area: Bytes)
    requires |area| == 12
    ensures SixBitPairs(UnpackScales(area)) && PackScales(UnpackScales(area)) == area
  {
    var pairs := UnpackScales(area);
    forall k | 0 <= k < 12 ensures PackScales(pairs)[k] == area[k] {
      if k < 4 {
        JoinDigits(area[k + 8] % 16, area[k] / 64, 16);
      } else if k < 8 {
        JoinDigits(area[k + 4] / 16, area[k] / 64, 16);
      } else {
        JoinDigits(area[k] % 16, area[k - 8] / 64, 16);
        JoinDigits(area[k] / 16, area[k - 4] / 64, 16);
      }
    }
  }

  // ---- One element ----

  function Q4Value(h: Widen, d: U16, dMin: U16, s: ScaleMin, q: nat): real {
    h(d) * s.scale as real * q as real - h(dMin) * s.min as real
  }

  /** Element `tid` of the Q4_K block at `block`, as a thread of `matvec_q4k_kernel` gathers it. */
  function Q4InBlock(h: Widen, bytes: Bytes, block: nat, tid: nat): real
    requires block + 144 <= |bytes| && tid < 256
  {
    var super, offset := tid / 64, tid % 64;
    var high := offset >= 32;
    var s := ScaleMinAt(bytes, block + 4, super * 2 + if high then 1 else 0);
    var packed := bytes[block + 16 + super * 32 + offset % 32];
    var q := if high then packed / 16 else packed % 16;
    Q4Value(h, HalfAt(bytes, block), HalfAt(bytes, block + 2), s, q)
  }

  function Q4Element(h: Widen, bytes: Bytes, k: nat): real
    requires (k / 256 + 1) * 144 <= |bytes|
  {
    Q4InBlock(h, bytes, k / 256 * 144, k % 256)
  }

  function Q6Value(h: Widen, d: U16, scale: int, q: int): real {
    h(d) * scale as real * q as real
  }

  /** Two bits of a byte: `(b >> (2 * part)) & 3`. */
  function TwoBits(b: U8, part: nat): (r: nat)
    requires part < 4
    ensures r < 4
  {
    if part == 0 then b % 4 else if part == 1 then b / 4 % 4 else if part == 2 then b / 16 % 4 else b / 64
  }

  /** `dequant_q6k_value`: element `index` of the Q6_K block at `block`. */
  function Q6InBlock(h: Widen, bytes: Bytes, block: nat, index: nat): real
    requires block + 210 <= |bytes| && index < 256
  {
    var half, inHalf := index / 128, index % 128;
    var part, i := inHalf / 32, inHalf % 32;
    var qlByte := bytes[block + half * 64 + part % 2 * 32 + i];
    var qhByte := bytes[block + 128 + half * 32 + i];
    var low4 := if part < 2 then qlByte % 16 else qlByte / 16;
    var q := low4 + TwoBits(qhByte, part) * 16 - 32;
    var scale := Signed(bytes[block + 192 + half * 8 + i / 16 + part * 2]);
    Q6Value(h, HalfAt(bytes, block + 208), scale, q)
  }

  function Q6Element(h: Widen, bytes: Bytes, k: nat): real
    requires (k / 256 + 1) * 210 <= |bytes|
  {
    Q6InBlock(h, bytes, k / 256 * 210, k % 256)
  }

  function Q8Value(h: Widen, d: U16, q: int): real {
    h(d) * q as real
  }

  function Q8Element(h: Widen, bytes: Bytes, k: nat): real
    requires (k / 32 + 1) * 34 <= |bytes|
  {
    Q8Value(h, HalfAt(bytes, k / 32 * 34), Signed(bytes[k / 32 * 34 + 2 + k % 32]))
  }

  // ---- The host loops ----

  ghost predicate NoRepeats(writes: seq<nat>) {
    forall i, j | 0 <= i < j < |writes| :: writes[i] != writes[j]
  }

  /** Every index below `count`, and no other, was written, each once. */
  ghost predicate WrittenOnce(writes: seq<nat>, count: nat) {
    NoRepeats(writes) && forall k: nat :: k in writes <==> k < count
  }

  lemma OneMoreWrite(writes: seq<nat>, k: nat)
    requires NoRepeats(writes) && k !in writes
    ensures NoRepeats(writes + [k])
  {}

  /** The two elements that byte `i` of super-group `super` of block `b` stands for. */
  lemma Q4Pair(h: Widen, bytes: Bytes, b: nat, super: nat, i: nat)
    requires super < 4 && i < 32 && b * 144 + 144 <= |bytes|
    ensures var low, high := b * 256 + super * 64 + i, b * 256 + super * 64 + i + 32;
            var packed := bytes[b * 144 + 16 + super * 32 + i];
            var d, dMin := HalfAt(bytes, b * 144), HalfAt(bytes, b * 144 + 2);
            && low / 256 == b == high / 256
            && Q4Element(h, bytes, low) == Q4Value(h, d, dMin, ScaleMinAt(bytes, b * 144 + 4, super * 2), packed % 16)
            && Q4Element(h, bytes, high)
                == Q4Value(h, d, dMin, ScaleMinAt(bytes, b * 144 + 4, super * 2 + 1), packed / 16)
  {
    hide Q4InBlock;
    InBlockIndex(b, super * 64 + i);
    InBlockIndex(b, super * 64 + i + 32);
    Q4InStripe(h, bytes, b * 144, super, i, 0);
    Q4InStripe(h, bytes, b * 144, super, i, 1);
  }

  lemma InBlockIndex(b: nat, o: nat)
    requires o < 256
    ensures (b * 256 + o) / 256 == b && (b * 256 + o) % 256 == o
  {}

  lemma Q4InStripe(h: Widen, bytes: Bytes, block: nat, super: nat, i: nat, half: nat)
    requires super < 4 && i < 32 && half < 2 && block + 144 <= |bytes|
    ensures var packed := bytes[block + 16 + super * 32 + i];
            Q4InBlock(h, bytes, block, super * 64 + half * 32 + i)
            == Q4Value(h, HalfAt(bytes, block), HalfAt(bytes, block + 2),
                       ScaleMinAt(bytes, block + 4, super * 2 + half),
                       if half == 0 then packed % 16 else packed / 16)
  {
    hide ScaleMinAt, HalfAt, Q4Value;
    var tid := super * 64 + half * 32 + i;
    assert tid / 64 == super && tid % 64 == half * 32 + i;
  }

  /** The loops have reached element `k`: all of the groups before `base`, and in each stripe of 32
      elements from `base` on the first `i`. */
  predicate Reached(k: nat, base: nat, stripes: nat, i: nat) {
    k < base || base <= k < base + i
    || (stripes > 1 && base + 32 <= k < base + 32 + i)
    || (stripes > 2 && base + 64 <= k < base + 64 + i)
    || (stripes > 3 && base + 96 <= k < base + 96 + i)
  }

  ghost predicate WrittenSoFar(writes: seq<nat>, count: nat, base: nat, stripes: nat, i: nat) {
    NoRepeats(writes) && forall k: nat :: k in writes <==> k < count && Reached(k, base, stripes, i)
  }

  ghost predicate Q4Holds(h: Widen, n: Narrow, bytes: Bytes, k: nat, value: U16) {
    (k / 256 + 1) * 144 <= |bytes| && value == n(Q4Element(h, bytes, k))
  }

  ghost predicate Q4Filled(h: Widen, n: Narrow, bytes: Bytes, out: seq<U16>, base: nat, i: nat) {
    forall k: nat | k < |out| && Reached(k, base, 2, i) :: Q4Holds(h, n, bytes, k, out[k])
  }

  /** The 64 elements of super-group `super`: byte `i` holds elements `i` and `i + 32`. */
  method DequantQ4Group(h: Widen, n: Narrow, bytes: Bytes, out: array<U16>, b: nat, super: nat, ghost before: seq<nat>)
    returns (ghost writes: seq<nat>)
    requires b * 144 + 144 <= |bytes| && super < 4
    requires WrittenSoFar(before, out.Length, b * 256 + super * 64, 2, 0)
    requires Q4Filled(h, n, bytes, out[..], b * 256 + super * 64, 0)
    modifies out
    ensures WrittenSoFar(writes, out.Length, b * 256 + (super + 1) * 64, 2, 0)
    ensures Q4Filled(h, n, bytes, out[..], b * 256 + (super + 1) * 64, 0)
  {
    hide Q4Element, Q4Value, NoRepeats, HalfAt, ScaleMinAt;
    writes := before;
    var block, count := b * 144, out.Length;
    var dAll, dMinAll := HalfAt(bytes, block), HalfAt(bytes, block + 2);
    var low := ScaleMinAt(bytes, block + 4, super * 2);
    var high := ScaleMinAt(bytes, block + 4, super * 2 + 1);
    var q := block + 16 + super * 32;
    ghost var base := b * 256 + super * 64;
    var i := 0;
    while i < 32
      invariant i <= 32 && WrittenSoFar(writes, count, base, 2, i) && Q4Filled(h, n, bytes, out[..], base, i)
    {
      Q4Pair(h, bytes, b, super, i);
      var lowIndex := b * 256 + super * 64 + i;
      var highIndex := lowIndex + 32;
      if lowIndex < count {
        out[lowIndex] := n(Q4Value(h, dAll, dMinAll, low, bytes[q + i] % 16));
        OneMoreWrite(writes, lowIndex);
        writes := writes + [lowIndex];
      }
      if highIndex < count {
        out[highIndex] := n(Q4Value(h, dAll, dMinAll, high, bytes[q + i] / 16));
        OneMoreWrite(writes, highIndex);
        writes := writes + [highIndex];
      }
      i := i + 1;
    }
  }

  method DequantQ4(h: Widen, n: Narrow, bytes: Bytes, count: nat) returns (out: array<U16>, ghost writes: seq<nat>)
    requires |bytes| >= TensorBytes(Q4_K, count)
    ensures fresh(out) && out.Length == count && WrittenOnce(writes, count)
    ensures forall k: nat | k < count :: Q4Holds(h, n, bytes, k, out[k])
  {
    hide Q4Holds, NoRepeats;
    out := new U16[count];
    writes := [];
    assert NoRepeats(writes) by { NoWritesYet(); }
    var blocks := (count + 255) / 256;
    var b := 0;
    while b < blocks
      invariant b <= blocks && WrittenSoFar(writes, count, b * 256, 2, 0) && Q4Filled(h, n, bytes, out[..], b * 256, 0)
    {
      assert b * 144 + 144 <= |bytes| by { ElementBlockFits(Q4_K, count, b * 256); }
      var super := 0;
      while super < 4
        invariant super <= 4 && WrittenSoFar(writes, count, b * 256 + super * 64, 2, 0)
        invariant Q4Filled(h, n, bytes, out[..], b * 256 + super * 64, 0)
      {
        writes := DequantQ4Group(h, n, bytes, out, b, super, writes);
        super := super + 1;
      }
      b := b + 1;
    }
  }

  lemma NoWritesYet()
    ensures NoRepeats([])
  {}

  /** The four elements that byte positions `i` and `i + 32` of a half block stand for. */
  lemma Q6Quad(h: Widen, bytes: Bytes, b: nat, half: nat, i: nat, part: nat)
    requires half < 2 && i < 32 && part < 4 && b * 210 + 210 <= |bytes|
    ensures var k, block := b * 256 + half * 128 + part * 32 + i, b * 210;
            var qlByte := bytes[block + half * 64 + part % 2 * 32 + i];
            var q := (if part < 2 then qlByte % 16 else qlByte / 16)
                     + TwoBits(bytes[block + 128 + half * 32 + i], part) * 16 - 32;
            && k / 256 == b
            && Q6Element(h, bytes, k)
               == Q6Value(h, HalfAt(bytes, block + 208), Signed(bytes[block + 192 + half * 8 + i / 16 + part * 2]), q)
  {
    hide HalfAt, Q6Value, TwoBits, Signed, Q6InBlock;
    var k := b * 256 + half * 128 + part * 32 + i;
    assert k / 256 == b && k % 256 == half * 128 + part * 32 + i;
    Q6InHalf(h, bytes, b * 210, half, i, part);
  }

  lemma Q6InHalf(h: Widen, bytes: Bytes, block: nat, half: nat, i: nat, part: nat)
    requires half < 2 && i < 32 && part < 4 && block + 210 <= |bytes|
    ensures var qlByte := bytes[block + half * 64 + part % 2 * 32 + i];
            var q := (if part < 2 then qlByte % 16 else qlByte / 16)
                     + TwoBits(bytes[block + 128 + half * 32 + i], part) * 16 - 32;
            Q6InBlock(h, bytes, block, half * 128 + part * 32 + i)
            == Q6Value(h, HalfAt(bytes, block + 208), Signed(bytes[block + 192 + half * 8 + i / 16 + part * 2]), q)
  {
    hide HalfAt, Q6Value, TwoBits, Signed;
    var index := half * 128 + part * 32 + i;
    assert index / 128 == half && index % 128 == part * 32 + i;
    assert (part * 32 + i) / 32 == part && (part * 32 + i) % 32 == i;
  }

  ghost predicate Q6Holds(h: Widen, n: Narrow, bytes: Bytes, k: nat, value: U16) {
    (k / 256 + 1) * 210 <= |bytes| && value == n(Q6Element(h, bytes, k))
  }

  ghost predicate Q6Filled(h: Widen, n: Narrow, bytes: Bytes, out: seq<U16>, base: nat, i: nat) {
    forall k: nat | k < |out| && Reached(k, base, 4, i) :: Q6Holds(h, n, bytes, k, out[k])
  }

  /** `out[index] = value` behind the bounds check of the host loops. */
  method PutBelowEnd(out: array<U16>, index: nat, value: U16, ghost before: seq<nat>) returns (ghost writes: seq<nat>)
    requires NoRepeats(before) && index !in before
    modifies out
    ensures NoRepeats(writes) && forall k :: k in writes <==> k in before || (k == index && k < out.Length)
    ensures forall k | 0 <= k < out.Length :: out[k] == if k == index then value else old(out[k])
  {
    writes := before;
    if index < out.Length {
      out[index] := value;
      OneMoreWrite(writes, index);
      writes := writes + [index];
    }
  }

  /** The 128 elements of a half block: each step decodes four of them. */
  method DequantQ6Half(h: Widen, n: Narrow, bytes: Bytes, out: array<U16>, b: nat, half: nat, ghost before: seq<nat>)
    returns (ghost writes: seq<nat>)
    requires b * 210 + 210 <= |bytes| && half < 2
    requires WrittenSoFar(before, out.Length, b * 256 + half * 128, 4, 0)
    requires Q6Filled(h, n, bytes, out[..], b * 256 + half * 128, 0)
    modifies out
    ensures WrittenSoFar(writes, out.Length, b * 256 + (half + 1) * 128, 4, 0)
    ensures Q6Filled(h, n, bytes, out[..], b * 256 + (half + 1) * 128, 0)
  {
    hide NoRepeats, Q6Holds;
    writes := before;
    ghost var base := b * 256 + half * 128;
    var i := 0;
    while i < 32
      invariant i <= 32 && WrittenSoFar(writes, out.Length, base, 4, i) && Q6Filled(h, n, bytes, out[..], base, i)
    {
      writes := DequantQ6Step(h, n, bytes, out, b, half, i, writes);
      i := i + 1;
    }
  }

  lemma Q6QuadHolds(h: Widen, n: Narrow, bytes: Bytes, b: nat, half: nat, i: nat, part: nat)
    requires half < 2 && i < 32 && part < 4 && b * 210 + 210 <= |bytes|
    ensures var k, block := b * 256 + half * 128 + part * 32 + i, b * 210;
            var qlByte := bytes[block + half * 64 + part % 2 * 32 + i];
            var q := (if part < 2 then qlByte % 16 else qlByte / 16)
                     + TwoBits(bytes[block + 128 + half * 32 + i], part) * 16 - 32;
            Q6Holds(h, n, bytes, k,
                    n(Q6Value(h, HalfAt(bytes, block + 208),
                              Signed(bytes[block + 192 + half * 8 + i / 16 + part * 2]), q)))
  {
    hide HalfAt, Q6Value, TwoBits, Signed, Q6Element;
    Q6Quad(h, bytes, b, half, i, part);
  }

  lemma Q6StepHolds(h: Widen, n: Narrow, bytes: Bytes, b: nat, half: nat, i: nat, index: nat, block: nat, group: nat)
    requires half < 2 && i < 32 && b * 210 + 210 <= |bytes|
    requires index == b * 256 + half * 128 + i && block == b * 210 && group == i / 16
    ensures var d := HalfAt(bytes, block + 208);
            var ql, qh, sc := block + half * 64, block + 128 + half * 32, block + 192 + half * 8;
            var q1 := bytes[ql + i] % 16 + TwoBits(bytes[qh + i], 0) * 16 - 32;
            var q2 := bytes[ql + i + 32] % 16 + TwoBits(bytes[qh + i], 1) * 16 - 32;
            var q3 := bytes[ql + i] / 16 + TwoBits(bytes[qh + i], 2) * 16 - 32;
            var q4 := bytes[ql + i + 32] / 16 + TwoBits(bytes[qh + i], 3) * 16 - 32;
            && Q6Holds(h, n, bytes, index, n(Q6Value(h, d, Signed(bytes[sc + group]), q1)))
            && Q6Holds(h, n, bytes, index + 32, n(Q6Value(h, d, Signed(bytes[sc + group + 2]), q2)))
            && Q6Holds(h, n, bytes, index + 64, n(Q6Value(h, d, Signed(bytes[sc + group + 4]), q3)))
            && Q6Holds(h, n, bytes, index + 96, n(Q6Value(h, d, Signed(bytes[sc + group + 6]), q4)))
  {
    hide Q6Holds, Q6Value, HalfAt, Signed, TwoBits;
    Q6QuadHolds(h, n, bytes, b, half, i, 0);
    Q6QuadHolds(h, n, bytes, b, half, i, 1);
    Q6QuadHolds(h, n, bytes, b, half, i, 2);
    Q6QuadHolds(h, n, bytes, b, half, i, 3);
  }

  /** Four values, 32 elements apart. */
  method PutQuad(ghost h: Widen, ghost n: Narrow, ghost bytes: Bytes, out: array<U16>, base: nat, i: nat,
                 v1: U16, v2: U16, v3: U16, v4: U16, ghost before: seq<nat>) returns (ghost writes: seq<nat>)
    requires i < 32 && WrittenSoFar(before, out.Length, base, 4, i) && Q6Filled(h, n, bytes, out[..], base, i)
    requires Q6Holds(h, n, bytes, base + i, v1) && Q6Holds(h, n, bytes, base + i + 32, v2)
    requires Q6Holds(h, n, bytes, base + i + 64, v3) && Q6Holds(h, n, bytes, base + i + 96, v4)
    modifies out
    ensures WrittenSoFar(writes, out.Length, base, 4, i + 1) && Q6Filled(h, n, bytes, out[..], base, i + 1)
  {
    hide Q6Holds, NoRepeats;
    writes := PutBelowEnd(out, base + i, v1, before);
    writes := PutBelowEnd(out, base + i + 32, v2, writes);
    writes := PutBelowEnd(out, base + i + 64, v3, writes);
    writes := PutBelowEnd(out, base + i + 96, v4, writes);
  }

  method DequantQ6Step(h: Widen, n: Narrow, bytes: Bytes, out: array<U16>, b: nat, half: nat, i: nat,
                       ghost before: seq<nat>)
    returns (ghost writes: seq<nat>)
    requires b * 210 + 210 <= |bytes| && half < 2 && i < 32
    requires WrittenSoFar(before, out.Length, b * 256 + half * 128, 4, i)
    requires Q6Filled(h, n, bytes, out[..], b * 256 + half * 128, i)
    modifies out
    ensures WrittenSoFar(writes, out.Length, b * 256 + half * 128, 4, i + 1)
    ensures Q6Filled(h, n, bytes, out[..], b * 256 + half * 128, i + 1)
  {
    hide Q6Holds, Q6Filled, WrittenSoFar, Q6Value, HalfAt, Signed, TwoBits;
    var block := b * 210;
    var d := HalfAt(bytes, block + 208);
    var ql, qh, sc := block + half * 64, block + 128 + half * 32, block + 192 + half * 8;
    var group := i / 16;
    var q1 := bytes[ql + i] % 16 + TwoBits(bytes[qh + i], 0) * 16 - 32;
    var q2 := bytes[ql + i + 32] % 16 + TwoBits(bytes[qh + i], 1) * 16 - 32;
    var q3 := bytes[ql + i] / 16 + TwoBits(bytes[qh + i], 2) * 16 - 32;
    var q4 := bytes[ql + i + 32] / 16 + TwoBits(bytes[qh + i], 3) * 16 - 32;
    var index := b * 256 + half * 128 + i;
    var v1 := n(Q6Value(h, d, Signed(bytes[sc + group]), q1));
    var v2 := n(Q6Value(h, d, Signed(bytes[sc + group + 2]), q2));
    var v3 := n(Q6Value(h, d, Signed(bytes[sc + group + 4]), q3));
    var v4 := n(Q6Value(h, d, Signed(bytes[sc + group + 6]), q4));
    Q6StepHolds(h, n, bytes, b, half, i, index, block, group);
    writes := PutQuad(h, n, bytes, out, b * 256 + half * 128, i, v1, v2, v3, v4, before);
  }

  method DequantQ6(h: Widen, n: Narrow, bytes: Bytes, count: nat) returns (out: array<U16>, ghost writes: seq<nat>)
    requires |bytes| >= TensorBytes(Q6_K, count)
    ensures fresh(out) && out.Length == count && WrittenOnce(writes, count)
    ensures forall k: nat | k < count :: Q6Holds(h, n, bytes, k, out[k])
  {
    hide Q6Holds, NoRepeats;
    out := new U16[count];
    writes := [];
    assert NoRepeats(writes) by { NoWritesYet(); }
    var blocks := (count + 255) / 256;
    var b := 0;
    while b < blocks
      invariant b <= blocks && WrittenSoFar(writes, count, b * 256, 4, 0) && Q6Filled(h, n, bytes, out[..], b * 256, 0)
    {
      assert b * 210 + 210 <= |bytes| by { ElementBlockFits(Q6_K, count, b * 256); }
      var half := 0;
      while half < 2
        invariant half <= 2 && WrittenSoFar(writes, count, b * 256 + half * 128, 4, 0)
        invariant Q6Filled(h, n, bytes, out[..], b * 256 + half * 128, 0)
      {
        writes := DequantQ6Half(h, n, bytes, out, b, half, writes);
        half := half + 1;
      }
      b := b + 1;
    }
  }

  ghost predicate Q8Holds(h: Widen, n: Narrow, bytes: Bytes, k: nat, value: U16) {
    (k / 32 + 1) * 34 <= |bytes| && value == n(Q8Element(h, bytes, k))
  }

  ghost predicate Q8Filled(h: Widen, n: Narrow, bytes: Bytes, out: seq<U16>, base: nat, i: nat) {
    forall k: nat | k < |out| && Reached(k, base, 1, i) :: Q8Holds(h, n, bytes, k, out[k])
  }

  lemma Q8At(h: Widen, n: Narrow, bytes: Bytes, b: nat, i: nat)
    requires i < 32 && b * 34 + 34 <= |bytes|
    ensures Q8Holds(h, n, bytes, b * 32 + i, n(Q8Value(h, HalfAt(bytes, b * 34), Signed(bytes[b * 34 + 2 + i]))))
  {
    hide HalfAt, Signed, Q8Value;
    var k := b * 32 + i;
    assert k / 32 == b && k % 32 == i;
  }

  /** The 32 elements of a block, up to the end of the output. */
  method DequantQ8Block(h: Widen, n: Narrow, bytes: Bytes, out: array<U16>, b: nat, ghost before: seq<nat>)
    returns (ghost writes: seq<nat>)
    requires b * 34 + 34 <= |bytes|
    requires WrittenSoFar(before, out.Length, b * 32, 1, 0) && Q8Filled(h, n, bytes, out[..], b * 32, 0)
    modifies out
    ensures WrittenSoFar(writes, out.Length, (b + 1) * 32, 1, 0) && Q8Filled(h, n, bytes, out[..], (b + 1) * 32, 0)
  {
    hide Q8Holds, Q8Value, NoRepeats, HalfAt, Signed;
    writes := before;
    var block := b * 34;
    var d := HalfAt(bytes, block);
    ghost var base := b * 32;
    var i := 0;
    while i < 32
      invariant i <= 32 && WrittenSoFar(writes, out.Length, base, 1, i) && Q8Filled(h, n, bytes, out[..], base, i)
    {
      var index := b * 32 + i;
      if index >= out.Length {
        break;
      }
      Q8At(h, n, bytes, b, i);
      out[index] := n(Q8Value(h, d, Signed(bytes[block + 2 + i])));
      OneMoreWrite(writes, index);
      writes := writes + [index];
      i := i + 1;
    }
  }

  method DequantQ8(h: Widen, n: Narrow, bytes: Bytes, count: nat) returns (out: array<U16>, ghost writes: seq<nat>)
    requires |bytes| >= TensorBytes(Q8_0, count)
    ensures fresh(out) && out.Length == count && WrittenOnce(writes, count)
    ensures forall k: nat | k < count :: Q8Holds(h, n, bytes, k, out[k])
  {
    hide Q8Holds, NoRepeats;
    out := new U16[count];
    writes := [];
    assert NoRepeats(writes) by { NoWritesYet(); }
    var blocks := (count + 31) / 32;
    var b := 0;
    while b < blocks
      invariant b <= blocks && WrittenSoFar(writes, count, b * 32, 1, 0) && Q8Filled(h, n, bytes, out[..], b * 32, 0)
    {
      assert b * 34 + 34 <= |bytes| by { ElementBlockFits(Q8_0, count, b * 32); }
      writes := DequantQ8Block(h, n, bytes, out, b, writes);
      b := b + 1;
    }
  }
}
