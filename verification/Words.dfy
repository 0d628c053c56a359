/** Unsigned machine words as bounded integers. Shifts and masks by constants are written as division
    and remainder by the corresponding power of two. */
module Words {
  datatype Option<+T> = None | Some(value: T)

  type U8 = x: int | 0 <= x < 0x100
  type U16 = x: int | 0 <= x < 0x1_0000
  type U32 = x: int | 0 <= x < 0x1_0000_0000
  type U64 = x: int | 0 <= x < 0x1_0000_0000_0000_0000

  type Bytes = seq<U8>

  /** The bytes of a text of single-byte characters. */
  function Ascii(s: string): (r: Bytes)
    ensures |r| == |s|
  {
    seq<U8>(|s|, i requires 0 <= i < |s| => s[i] as int % 256)
  }

  /** `part` stands in `bytes` at `o`. */
  ghost predicate Stands(bytes: Bytes, o: nat, part: Bytes) {
    o + |part| <= |bytes| && bytes[o..o + |part|] == part
  }

  function Pow2(n: nat): (r: nat)
    ensures r > 0
  {
    if n == 0 then 1 else 2 * Pow2(n - 1)
  }

  lemma Quotient(i: nat, width: nat, j: nat)
    requires j < width
    ensures (i * width + j) / width == i && (i * width + j) % width == j
  {
    var k := i * width + j;
    var q, r := k / width, k % width;
    assert k == q * width + r;
    Scales(i + 1, q, width);
    Scales(q + 1, i, width);
    NextMultiple(i, width);
    NextMultiple(q, width);
  }

  lemma NextMultiple(i: nat, width: nat)
    ensures (i + 1) * width == i * width + width
  {}

  lemma Scales(a: nat, b: nat, n: nat)
    ensures a <= b ==> a * n <= b * n
  {}
}
