/** Little-endian words, and the content hash that protects payloads. */
module Wire {
  import opened Words

  // ---- Little-endian words ----

  /** One more than the largest word of `n` bytes. */
  function Limit(n: nat): (r: nat)
    ensures r > 0
  {
    if n == 0 then 1 else 0x100 * Limit(n - 1)
  }

  /** The low `n` bytes of a value, low byte first. */
  function Write(v: nat, n: nat): (b: Bytes)
    ensures |b| == n
  {
    if n == 0 then [] else [v % 0x100] + Write(v / 0x100, n - 1)
  }

  function Read(b: Bytes): (v: nat)
    ensures v < Limit(|b|)
  {
    if b == [] then 0 else b[0] + 0x100 * Read(b[1..])
  }

  lemma {:induction false} ReadWrite(v: nat, n: nat)
    requires v < Limit(n)
    ensures Read(Write(v, n)) == v
  {
    if n > 0 {
      ReadWrite(v / 0x100, n - 1);
      assert Write(v, n)[1..] == Write(v / 0x100, n - 1);
    }
  }

  lemma {:induction false} WriteRead(b: Bytes)
    ensures Write(Read(b), |b|) == b
  {
    if b != [] {
      WriteRead(b[1..]);
      SplitByte(b[0], Read(b[1..]));
      assert b == [b[0]] + b[1..];
    }
  }

  lemma SplitByte(low: nat, high: nat)
    requires low < 0x100
    ensures (low + 0x100 * high) % 0x100 == low && (low + 0x100 * high) / 0x100 == high
  {}

  lemma Limits()
    ensures Limit(2) == 0x1_0000 && Limit(4) == 0x1_0000_0000 && Limit(8) == 0x1_0000_0000_0000_0000
  {
    assert Limit(3) == 0x100_0000 && Limit(5) == 0x100_0000_0000 && Limit(6) == 0x1_0000_0000_0000;
  }

  /** The word of `n` bytes at offset `o`. */
  function At(b: Bytes, o: nat, n: nat): (v: nat)
    requires o + n <= |b|
    ensures v < Limit(n)
  {
    Read(b[o..o + n])
  }

  /** Writing a word into a buffer, byte by byte. */
  method Put(output: array<U8>, o: nat, v: nat, n: nat)
    requires o + n <= output.Length
    modifies output
    ensures output[..] == old(output[..o]) + Write(v, n) + old(output[o + n..])
  {
    hide Write;
    var i, rest := 0, v;
    ghost var w, before := Write(v, n), output[..];
    while i < n
      invariant i <= n && w[i..] == Write(rest, n - i)
      invariant output[..] == before[..o] + w[..i] + before[o + i..]
    {
      FirstByte(w, i, rest, n);
      PutByte(before, w, o, i);
      output[o + i] := rest % 0x100;
      rest := rest / 0x100;
      i := i + 1;
    }
    assert w[..n] == w;
  }

  lemma FirstByte(w: Bytes, i: nat, rest: nat, n: nat)
    requires i < n == |w| && w[i..] == Write(rest, n - i)
    ensures w[i] == rest % 0x100 && w[i + 1..] == Write(rest / 0x100, n - (i + 1))
  {
    assert w[i..][0] == w[i] && w[i..][1..] == w[i + 1..];
  }

  lemma PutByte(before: Bytes, w: Bytes, o: nat, i: nat)
    requires i < |w| && o + |w| <= |before|
    ensures (before[..o] + w[..i] + before[o + i..])[o + i := w[i]] == before[..o] + w[..i + 1] + before[o + i + 1..]
  {}

  // ---- The content hash ----

  const MODULUS := 0x1_0000_0000_0000_0000
  const OFFSET_BASIS := 14695981039346656037
  const PRIME := 1099511628211
  /** The inverse of PRIME: PRIME * INVERSE == 1 + WRAPS * MODULUS. */
  const INVERSE := 14886173955864302971
  const WRAPS := 887285111055

  /** Exclusive or of the low `n` bits. */
  function Xor(a: nat, b: nat, n: nat): nat {
    if n == 0 then 0 else (a + b) % 2 + 2 * Xor(a / 2, b / 2, n - 1)
  }

  lemma {:induction false} XorFits(a: nat, b: nat, n: nat)
    ensures Xor(a, b, n) < Pow2(n)
  {
    if n > 0 {
      XorFits(a / 2, b / 2, n - 1);
    }
  }

  /** Equal results on equal second arguments come from equal first arguments, and the other way round. */
  lemma {:induction false} XorCancels(a: nat, b: nat, c: nat, n: nat)
    requires a < Pow2(n) && b < Pow2(n)
    ensures Xor(a, c, n) == Xor(b, c, n) ==> a == b
    ensures Xor(c, a, n) == Xor(c, b, n) ==> a == b
  {
    if n > 0 {
      XorCancels(a / 2, b / 2, c / 2, n - 1);
      XorDigits(a, c, n);
      XorDigits(b, c, n);
      XorDigits(c, a, n);
      XorDigits(c, b, n);
      SameParity(a, b, c);
      hide Xor, Pow2;
    }
  }

  lemma XorDigits(a: nat, b: nat, n: nat)
    requires n > 0
    ensures Xor(a, b, n) % 2 == (a + b) % 2 && Xor(a, b, n) / 2 == Xor(a / 2, b / 2, n - 1)
  {}

  lemma SameParity(a: nat, b: nat, c: nat)
    ensures (a + c) % 2 == (b + c) % 2 && a / 2 == b / 2 ==> a == b
  {}

  /** `hash ^= byte` touches the low byte of the word only. */
  function Mix(hash: U64, b: U8): (r: U64)
  {
    XorFits(hash % 0x100, b, 8);
    assert Pow2(8) == 0x100;
    hash / 0x100 * 0x100 + Xor(hash % 0x100, b, 8)
  }

  /** `hash *= prime` in 64 bits. */
  function Scale(hash: U64): (r: U64) {
    hash * PRIME % MODULUS
  }

  /** `content_hash64` from a given state on. */
  function HashFrom(hash: U64, data: Bytes): U64
    decreases |data|
  {
    if data == [] then hash else HashFrom(Scale(Mix(hash, data[0])), data[1..])
  }

  function Hash(data: Bytes): U64 {
    HashFrom(OFFSET_BASIS, data)
  }

  method ContentHash64(data: Bytes) returns (hash: U64)
    ensures hash == Hash(data)
  {
    hide Scale, Mix;
    hash := OFFSET_BASIS;
    var i := 0;
    assert data[0..] == data;
    while i < |data|
      invariant i <= |data| && HashFrom(hash, data[i..]) == Hash(data)
    {
      assert data[i..][1..] == data[i + 1..];
      hash := Mix(hash, data[i]);
      hash := Scale(hash);
      i := i + 1;
    }
  }

  /** Multiplication by the odd prime is invertible modulo 2^64. */
  lemma ScaleIsInjective(a: U64, b: U64)
    requires Scale(a) == Scale(b)
    ensures a == b
  {
    var k := a * PRIME / MODULUS - b * PRIME / MODULUS;
    var d := a - b;
    assert d * PRIME == k * MODULUS;
    assert d * PRIME * INVERSE == k * INVERSE * MODULUS;
    assert PRIME * INVERSE == 1 + WRAPS * MODULUS;
    assert d == (k * INVERSE - WRAPS * d) * MODULUS;
  }

  lemma MixIsInjective(a: U64, b: U64, x: U8)
    requires Mix(a, x) == Mix(b, x)
    ensures a == b
  {
    MixParts(a, x);
    MixParts(b, x);
    hide Mix;
    assert Pow2(8) == 0x100;
    XorCancels(a % 0x100, b % 0x100, x, 8);
  }

  lemma MixParts(a: U64, x: U8)
    ensures Mix(a, x) / 0x100 == a / 0x100 && Mix(a, x) % 0x100 == Xor(a % 0x100, x, 8)
  {
    XorFits(a % 0x100, x, 8);
    assert Pow2(8) == 0x100;
  }

  lemma MixSeparates(a: U64, x: U8, y: U8)
    requires Mix(a, x) == Mix(a, y)
    ensures x == y
  {
    MixParts(a, x);
    MixParts(a, y);
    hide Mix;
    assert Pow2(8) == 0x100;
    XorCancels(x, y, a % 0x100, 8);
  }

  /** Different states stay different over equal data: hashing permutes the 64-bit states. */
  lemma {:induction false} HashFromIsInjective(a: U64, b: U64, data: Bytes)
    requires HashFrom(a, data) == HashFrom(b, data)
    ensures a == b
    decreases |data|
  {
    hide Scale, Mix;
    if data != [] {
      HashFromIsInjective(Scale(Mix(a, data[0])), Scale(Mix(b, data[0])), data[1..]);
      ScaleIsInjective(Mix(a, data[0]), Mix(b, data[0]));
      MixIsInjective(a, b, data[0]);
    }
  }

  lemma {:induction false} HashFromConcat(hash: U64, a: Bytes, b: Bytes)
    ensures HashFrom(hash, a + b) == HashFrom(HashFrom(hash, a), b)
    decreases |a|
  {
    hide Scale, Mix;
    if a == [] {
      assert a + b == b;
    } else {
      assert (a + b)[1..] == a[1..] + b;
      HashFromConcat(Scale(Mix(hash, a[0])), a[1..], b);
    }
  }

  /** Two strings of one length that differ in exactly one byte have different hashes. */
  lemma HashDetectsOneByte(a: Bytes, b: Bytes, k: nat)
    requires |a| == |b| && k < |a| && a[k] != b[k]
    requires forall i | 0 <= i < |a| && i != k :: a[i] == b[i]
    ensures Hash(a) != Hash(b)
  {
    var before, after := a[..k], a[k + 1..];
    assert a == before + ([a[k]] + after) && b == before + ([b[k]] + after);
    var state := HashFrom(OFFSET_BASIS, before);
    HashFromConcat(OFFSET_BASIS, before, [a[k]] + after);
    HashFromConcat(OFFSET_BASIS, before, [b[k]] + after);
    assert ([a[k]] + after)[1..] == after && ([b[k]] + after)[1..] == after;
    hide Scale, Mix;
    var x, y := Scale(Mix(state, a[k])), Scale(Mix(state, b[k]));
    if HashFrom(x, after) == HashFrom(y, after) {
      HashFromIsInjective(x, y, after);
      ScaleIsInjective(Mix(state, a[k]), Mix(state, b[k]));
      MixSeparates(state, a[k], b[k]);
    }
  }

  // ---- FNV-1a in numbers ----

  /** The bit of worth `place` of `x` is the exclusive or of those of `a` and `b`. */
  ghost predicate XorBit(x: nat, a: nat, b: nat, place: nat)
    requires place > 0
  {
    x / place % 2 == (a / place + b / place) % 2
  }

  /** `x` is the exclusive or of two bytes. */
  ghost predicate IsByteXor(x: nat, a: nat, b: nat) {
    && x < 0x100
    && XorBit(x, a, b, 1) && XorBit(x, a, b, 2) && XorBit(x, a, b, 4) && XorBit(x, a, b, 8)
    && XorBit(x, a, b, 16) && XorBit(x, a, b, 32) && XorBit(x, a, b, 64) && XorBit(x, a, b, 128)
  }

  lemma {:induction false} XorAt(a: nat, b: nat, n: nat, k: nat)
    requires k < n
    ensures XorBit(Xor(a, b, n), a, b, Pow2(k))
  {
    XorDigits(a, b, n);
    if k == 0 {
      return;
    }
    XorAt(a / 2, b / 2, n - 1, k - 1);
    var p := Pow2(k - 1);
    assert Pow2(k) == 2 * p;
    hide Xor, Pow2;
    HalvedBit(Xor(a, b, n), a, b, p);
  }

  lemma HalvedBit(x: nat, a: nat, b: nat, p: nat)
    requires p > 0 && XorBit(x / 2, a / 2, b / 2, p)
    ensures XorBit(x, a, b, 2 * p)
  {
    HalfFirst(x, p);
    HalfFirst(a, p);
    HalfFirst(b, p);
  }

  lemma HalfFirst(x: nat, p: nat)
    requires p > 0
    ensures x / (2 * p) == x / 2 / p
  {
    var q, r := x / 2 / p, x / 2 % p;
    assert x / 2 == q * p + r;
    assert x == q * (2 * p) + (2 * r + x % 2);
    Quotient(q, 2 * p, 2 * r + x % 2);
  }

  lemma Powers()
    ensures Pow2(0) == 1 && Pow2(1) == 2 && Pow2(2) == 4 && Pow2(3) == 8 && Pow2(4) == 16
    ensures Pow2(5) == 32 && Pow2(6) == 64 && Pow2(7) == 128 && Pow2(8) == 0x100
  {
    assert Pow2(1) == 2 * Pow2(0) && Pow2(2) == 2 * Pow2(1) && Pow2(3) == 2 * Pow2(2) && Pow2(4) == 2 * Pow2(3);
  }

  lemma XorOfBytes(a: nat, b: nat)
    ensures IsByteXor(Xor(a, b, 8), a, b)
  {
    hide Xor, Pow2, XorBit;
    Powers();
    XorFits(a, b, 8);
    XorAt(a, b, 8, 0);
    XorAt(a, b, 8, 1);
    XorAt(a, b, 8, 2);
    XorAt(a, b, 8, 3);
    XorAt(a, b, 8, 4);
    XorAt(a, b, 8, 5);
    XorAt(a, b, 8, 6);
    XorAt(a, b, 8, 7);
  }

  /** A further byte: exclusive or on the low byte first, then multiplication in 64 bits. */
  lemma HashStep(data: Bytes, b: U8) returns (x: nat)
    ensures x / 0x100 == Hash(data) / 0x100 && IsByteXor(x % 0x100, Hash(data) % 0x100, b)
    ensures Hash(data + [b]) == x * 1099511628211 % 0x1_0000_0000_0000_0000
  {
    var h := Hash(data);
    x := Mix(h, b);
    MixParts(h, b);
    XorOfBytes(h % 0x100, b);
    HashFromConcat(OFFSET_BASIS, data, [b]);
    LastByte(h, b);
    hide Mix, HashFrom, Xor, IsByteXor;
  }

  lemma LastByte(h: U64, b: U8)
    ensures HashFrom(h, [b]) == Scale(Mix(h, b))
  {
    hide Mix, Scale;
    assert [b][1..] == [];
  }

  /** The published values of FNV-1a, 64 bits: of nothing, of "a" and of "fo". */
  lemma PublishedHashes()
    ensures Hash([]) == 0xcbf29ce484222325
    ensures Hash([0x61]) == 0xaf63dc4c8601ec8c
    ensures Hash([0x66, 0x6f]) == 0x08985907b541d342
  {
    hide Hash;
    EmptyHash();
    HashOfA();
    HashOfFo();
  }

  lemma EmptyHash()
    ensures Hash([]) == 0xcbf29ce484222325
  {}

  lemma HashOfA()
    ensures Hash([0x61]) == 0xaf63dc4c8601ec8c
  {
    hide Hash, Xor;
    EmptyHash();
    SomeXors();
    NextHash([], 0x61, 0xcbf29ce484222325, 0x25, 0x44, 0xaf63dc4c8601ec8c);
    assert [] + [0x61] == [0x61];
  }

  lemma HashOfFo()
    ensures Hash([0x66, 0x6f]) == 0x08985907b541d342
  {
    hide Hash, Xor;
    EmptyHash();
    SomeXors();
    NextHash([], 0x66, 0xcbf29ce484222325, 0x25, 0x43, 0xaf63db4c8601ead9);
    assert [] + [0x66] == [0x66];
    NextHash([0x66], 0x6f, 0xaf63db4c8601ead9, 0xd9, 0xb6, 0x8985907b541d342);
    assert [0x66] + [0x6f] == [0x66, 0x6f];
  }

  lemma SomeXors()
    ensures Xor(0x25, 0x61, 8) == 0x44 && Xor(0x25, 0x66, 8) == 0x43 && Xor(0xd9, 0x6f, 8) == 0xb6
  {
    hide Xor;
    ByteXorIs(0x44, 0x25, 0x61);
    ByteXorIs(0x43, 0x25, 0x66);
    ByteXorIs(0xb6, 0xd9, 0x6f);
  }

  /** The bits determine the byte. */
  lemma ByteXorIs(x: nat, a: nat, b: nat)
    requires IsByteXor(x, a, b)
    ensures x == Xor(a, b, 8)
  {
    hide Xor, Pow2, XorBit;
    Powers();
    forall k: nat | k < 8 ensures XorBit(x, a, b, Pow2(k)) {
      assert k == 0 || k == 1 || k == 2 || k == 3 || k == 4 || k == 5 || k == 6 || k == 7;
    }
    XorFromBits(x, a, b, 8);
  }

  lemma {:induction false} XorFromBits(x: nat, a: nat, b: nat, n: nat)
    requires x < Pow2(n) && forall k: nat | k < n :: XorBit(x, a, b, Pow2(k))
    ensures x == Xor(a, b, n)
  {
    if n > 0 {
      assert XorBit(x, a, b, Pow2(0));
      forall k: nat | k < n - 1 ensures XorBit(x / 2, a / 2, b / 2, Pow2(k)) {
        assert XorBit(x, a, b, Pow2(k + 1));
        HalfFirst(x, Pow2(k));
        HalfFirst(a, Pow2(k));
        HalfFirst(b, Pow2(k));
      }
      XorFromBits(x / 2, a / 2, b / 2, n - 1);
    }
  }

  lemma NextHash(data: Bytes, b: U8, h: U64, byte: nat, low: nat, next: nat)
    requires Hash(data) == h && h % 0x100 == byte && Xor(byte, b, 8) == low
    requires next == (h - byte + low) * 1099511628211 % 0x1_0000_0000_0000_0000
    ensures Hash(data + [b]) == next
  {
    hide HashFrom, Xor;
    HashFromConcat(OFFSET_BASIS, data, [b]);
    LastByte(h, b);
    WholeBytes(h);
  }

  lemma WholeBytes(h: nat)
    ensures h / 0x100 * 0x100 == h - h % 0x100
  {}
}
