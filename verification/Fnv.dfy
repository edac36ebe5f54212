/**
  * The 64-bit FNV-1a hash the ring applies to a key before asking who owns it.
  *
  * Words are integers below 2^64 and multiplication wraps explicitly.
  */
module Fnv {
  import opened Powers

  const WORDS: nat := 0x1_0000_0000_0000_0000
  const OFFSET: nat := 0xcbf29ce484222325
  const PRIME: nat := 0x100000001b3

  /** The prime's inverse modulo 2^64; the code has no use for it, the proofs do. */
  const PRIME_INVERSE: nat := 0xce965057aff6957b

  type Byte = b: nat | b < 256
  type Word = w: nat | w < WORDS witness 0

  function Xor(x: nat, y: nat): nat {
    if x == 0 && y == 0 then 0 else (x + y) % 2 + 2 * Xor(x / 2, y / 2)
  }

  function WrappingMul(x: Word, y: nat): Word {
    (x * y) % WORDS
  }

  /** One round of the loop: xor the byte in, then multiply with wrap-around. */
  function Round(hash: Word, byte: Byte): Word {
    XorFits(hash, byte);
    WrappingMul(Xor(hash, byte), PRIME)
  }

  function Absorb(hash: Word, bytes: seq<Byte>): Word
    decreases |bytes|
  {
    if bytes == [] then hash else Absorb(Round(hash, bytes[0]), bytes[1..])
  }

  function Hash(bytes: seq<Byte>): Word {
    Absorb(OFFSET, bytes)
  }

  /** One round backwards. */
  function Unround(hash: Word, byte: Byte): Word {
    XorFits(WrappingMul(hash, PRIME_INVERSE), byte);
    Xor(WrappingMul(hash, PRIME_INVERSE), byte)
  }

  /** Runs the hash backwards from its end: the state before `bytes` were absorbed. */
  function Unabsorb(hash: Word, bytes: seq<Byte>): Word
    decreases |bytes|
  {
    if bytes == [] then hash else Unround(Unabsorb(hash, bytes[1..]), bytes[0])
  }

  method HashKey(bytes: seq<Byte>) returns (hash: Word)
    ensures hash == Hash(bytes)
  {
    hash := OFFSET;
    for i := 0 to |bytes|
      invariant Absorb(hash, bytes[i..]) == Hash(bytes)
    {
      assert bytes[i..][0] == bytes[i] && bytes[i..][1..] == bytes[i + 1..];
      XorFits(hash, bytes[i]);
      var mixed := Xor(hash, bytes[i]);
      hash := (mixed * PRIME) % WORDS;
    }
    assert bytes[|bytes|..] == [];
  }

  // ---------------------------------------------------------------- xor

  lemma {:induction false} XorBelow(x: nat, y: nat, k: nat)
    requires x < Pow2(k) && y < Pow2(k)
    ensures Xor(x, y) < Pow2(k)
  {
    if x != 0 || y != 0 {
      XorBelow(x / 2, y / 2, k - 1);
    }
  }

  lemma Pow2Grows(k: nat)
    ensures Pow2(k + 8) == 256 * Pow2(k)
  {
    assert Pow2(k + 2) == 4 * Pow2(k);
    assert Pow2(k + 4) == 4 * Pow2(k + 2);
    assert Pow2(k + 6) == 4 * Pow2(k + 4);
    assert Pow2(k + 8) == 4 * Pow2(k + 6);
  }

  lemma WordsIsPow2()
    ensures Pow2(64) == WORDS
  {
    Pow2Grows(0);
    Pow2Grows(8);
    Pow2Grows(16);
    Pow2Grows(24);
    Pow2Grows(32);
    Pow2Grows(40);
    Pow2Grows(48);
    Pow2Grows(56);
  }

  /** Xor with a byte cannot carry out of the 64-bit word. */
  lemma XorFits(x: nat, y: nat)
    requires x < WORDS && y < 256
    ensures Xor(x, y) < WORDS
  {
    WordsIsPow2();
    XorBelow(x, y, 64);
  }

  lemma {:induction false} XorBits(x: nat, y: nat)
    ensures Xor(x, y) % 2 == (x + y) % 2
    ensures Xor(x, y) / 2 == Xor(x / 2, y / 2)
  {
    if x != 0 || y != 0 {
      var low, high := (x + y) % 2, Xor(x / 2, y / 2);
      assert Xor(x, y) == low + 2 * high;
    }
  }

  lemma BitsDetermine(a: nat, b: nat)
    requires a / 2 == b / 2 && a % 2 == b % 2
    ensures a == b
  {}

  lemma ParityCancels(z: nat, x: nat, y: nat)
    requires z % 2 == (x + y) % 2
    ensures (z + y) % 2 == x % 2
  {}

  lemma {:induction false} XorUndone(x: nat, y: nat)
    ensures Xor(Xor(x, y), y) == x
  {
    if x != 0 || y != 0 {
      var z := Xor(x, y);
      XorBits(x, y);
      XorBits(z, y);
      ParityCancels(z, x, y);
      XorUndone(x / 2, y / 2);
      BitsDetermine(Xor(z, y), x);
    }
  }

  // ---------------------------------------------------------------- wrapping multiplication

  lemma RemainderIsUnique(a: int, q: int, r: int, m: int)
    requires 0 <= r < m && a == q * m + r
    ensures a % m == r
  {
    var d := a / m - q;
    assert a == (a / m) * m + a % m;
    assert d * m == r - a % m;
    MultiplesAreApart(d, m);
  }

  lemma MultiplesAreApart(d: int, m: int)
    requires 0 < m
    ensures d == 0 || d * m >= m || d * m <= -m
  {}

  /** Multiplying by x and then by its inverse modulo 2^64 gives the word back. */
  lemma MulUndone(w: Word, x: nat, inverse: nat, k: int)
    requires x * inverse == k * WORDS + 1
    ensures WrappingMul(WrappingMul(w, x), inverse) == w
  {
    var q := (w * x) / WORDS;
    var r := (w * x) % WORDS;
    assert w * x == q * WORDS + r;
    calc {
      r * inverse;
      (w * x - q * WORDS) * inverse;
      w * (x * inverse) - q * inverse * WORDS;
      w * (k * WORDS + 1) - q * inverse * WORDS;
      (w * k - q * inverse) * WORDS + w;
    }
    RemainderIsUnique(r * inverse, w * k - q * inverse, w, WORDS);
  }

  lemma PrimeIsInvertible(w: Word)
    ensures WrappingMul(WrappingMul(w, PRIME), PRIME_INVERSE) == w
    ensures WrappingMul(WrappingMul(w, PRIME_INVERSE), PRIME) == w
  {
    var k := (PRIME * PRIME_INVERSE) / WORDS;
    MulUndone(w, PRIME, PRIME_INVERSE, k);
    MulUndone(w, PRIME_INVERSE, PRIME, k);
  }

  // ---------------------------------------------------------------- the hash

  lemma RoundUndone(hash: Word, byte: Byte)
    ensures Unround(Round(hash, byte), byte) == hash
    ensures Round(Unround(hash, byte), byte) == hash
  {
    XorFits(hash, byte);
    PrimeIsInvertible(Xor(hash, byte));
    XorUndone(hash, byte);
    PrimeIsInvertible(hash);
    XorUndone(WrappingMul(hash, PRIME_INVERSE), byte);
  }

  /** Absorbing any bytes is a bijection of the 64-bit state, with `Unabsorb` as its inverse. */
  lemma {:induction false} AbsorbIsBijective(hash: Word, bytes: seq<Byte>)
    ensures Unabsorb(Absorb(hash, bytes), bytes) == hash
    ensures Absorb(Unabsorb(hash, bytes), bytes) == hash
    decreases |bytes|
  {
    if bytes != [] {
      AbsorbIsBijective(Round(hash, bytes[0]), bytes[1..]);
      RoundUndone(hash, bytes[0]);
      AbsorbIsBijective(hash, bytes[1..]);
      RoundUndone(Unabsorb(hash, bytes[1..]), bytes[0]);
    }
  }

  lemma {:induction false} AbsorbConcat(hash: Word, s: seq<Byte>, t: seq<Byte>)
    ensures Absorb(hash, s + t) == Absorb(Absorb(hash, s), t)
    decreases |s|
  {
    if s == [] {
      assert s + t == t;
    } else {
      assert (s + t)[0] == s[0] && (s + t)[1..] == s[1..] + t;
      AbsorbConcat(Round(hash, s[0]), s[1..], t);
    }
  }

  /** A common suffix neither creates nor removes a collision. */
  lemma SuffixKeepsCollisions(s: seq<Byte>, t: seq<Byte>, u: seq<Byte>)
    ensures Hash(s + u) == Hash(t + u) <==> Hash(s) == Hash(t)
  {
    AbsorbConcat(OFFSET, s, u);
    AbsorbConcat(OFFSET, t, u);
    AbsorbIsBijective(Hash(s), u);
    AbsorbIsBijective(Hash(t), u);
  }

  lemma {:induction false} XorSeparates(hash: nat, a: nat, b: nat)
    requires a != b
    ensures Xor(hash, a) != Xor(hash, b)
    decreases a + b
  {
    if a / 2 != b / 2 {
      XorSeparates(hash / 2, a / 2, b / 2);
    }
  }

  lemma RoundSeparates(hash: Word, a: Byte, b: Byte)
    requires a != b
    ensures Round(hash, a) != Round(hash, b)
  {
    XorFits(hash, a);
    XorFits(hash, b);
    XorSeparates(hash, a, b);
    PrimeIsInvertible(Xor(hash, a));
    PrimeIsInvertible(Xor(hash, b));
  }

  /** Keys that differ in exactly one byte, anywhere, never collide. */
  lemma OneByteChangeSeparates(prefix: seq<Byte>, a: Byte, b: Byte, suffix: seq<Byte>)
    requires a != b
    ensures Hash(prefix + [a] + suffix) != Hash(prefix + [b] + suffix)
  {
    SuffixKeepsCollisions(prefix + [a], prefix + [b], suffix);
    AbsorbConcat(OFFSET, prefix, [a]);
    AbsorbConcat(OFFSET, prefix, [b]);
    RoundSeparates(Hash(prefix), a, b);
    assert [a][1..] == [] && [b][1..] == [];
  }

  // ---------------------------------------------------------------- known values

  function Shifted(h: nat, k: nat): nat {
    if k == 0 then h else 2 * Shifted(h, k - 1)
  }

  lemma {:induction false} XorZero(x: nat)
    ensures Xor(x, 0) == x
  {
    if x != 0 {
      XorZero(x / 2);
    }
  }

  /** Xor with a small number leaves the high bits alone. */
  lemma {:induction false} XorLow(h: nat, a: nat, b: nat, k: nat)
    requires a < Pow2(k) && b < Pow2(k)
    ensures Xor(Shifted(h, k) + a, b) == Shifted(h, k) + Xor(a, b)
  {
    if k == 0 {
      XorZero(h);
    } else {
      var high := Shifted(h, k - 1);
      HalfBelow(a, Pow2(k - 1));
      HalfBelow(b, Pow2(k - 1));
      XorLow(h, a / 2, b / 2, k - 1);
      XorDoubles(high, a, b);
    }
  }

  lemma HalfBelow(a: nat, p: nat)
    requires a < 2 * p
    ensures a / 2 < p
  {}

  lemma XorDoubles(high: nat, a: nat, b: nat)
    requires Xor(high + a / 2, b / 2) == high + Xor(a / 2, b / 2)
    ensures Xor(2 * high + a, b) == 2 * high + Xor(a, b)
  {
    Halves(high, a, b);
    var halfA, halfB, bit := a / 2, b / 2, (a + b) % 2;
    XorUnfolds(2 * high + a, b, high + halfA, halfB, bit);
    XorUnfolds(a, b, halfA, halfB, bit);
  }

  lemma Halves(high: nat, a: nat, b: nat)
    ensures (2 * high + a) / 2 == high + a / 2 && (2 * high + a + b) % 2 == (a + b) % 2
  {}

  lemma XorUnfolds(x: nat, y: nat, halfX: nat, halfY: nat, bit: nat)
    requires halfX == x / 2 && halfY == y / 2 && bit == (x + y) % 2
    ensures Xor(x, y) == bit + 2 * Xor(halfX, halfY)
  {}

  lemma XorByte(h: nat, a: nat, b: nat)
    requires a < 256 && b < 256
    ensures Xor(h * 256 + a, b) == h * 256 + Xor(a, b)
  {
    assert Shifted(h, 1) == 2 * h;
    assert Shifted(h, 2) == 4 * h;
    assert Shifted(h, 3) == 8 * h;
    assert Shifted(h, 4) == 16 * h;
    assert Shifted(h, 5) == 32 * h;
    assert Shifted(h, 6) == 64 * h;
    assert Shifted(h, 7) == 128 * h;
    assert Shifted(h, 8) == 256 * h;
    assert Pow2(4) == 16 && Pow2(8) == 16 * Pow2(4);
    XorLow(h, a, b, 8);
  }

  lemma RoundMixes(hash: Word, high: nat, low: nat, byte: Byte, mixed: Word)
    requires hash == high * 256 + low && low < 256 && mixed == high * 256 + Xor(low, byte)
    ensures Round(hash, byte) == WrappingMul(mixed, PRIME)
  {
    XorByte(high, low, byte);
    assert Xor(hash, byte) == mixed;
  }

  lemma HashOfOne(byte: Byte, start: Word)
    requires start == OFFSET
    ensures Hash([byte]) == Round(start, byte)
  {
    assert [byte][1..] == [];
    assert Absorb(start, [byte]) == Absorb(Round(start, byte), [byte][1..]);
  }

  lemma ProductForA(mixed: Word)
    requires mixed == 0xcbf29ce484222344
    ensures WrappingMul(mixed, PRIME) == 0xaf63dc4c8601ec8c
  {}

  lemma LowByteForA()
    ensures Xor(0x25, 97) == 0x44
  {
    assert Xor(0, 1) == 1;
    assert Xor(1, 3) == 2;
    assert Xor(2, 6) == 4;
    assert Xor(4, 12) == 8;
    assert Xor(9, 24) == 17;
    assert Xor(18, 48) == 34;
  }

  /** The published 64-bit FNV-1a values of the empty string and of the letter a. */
  lemma KnownHashes(a: Byte, start: Word, mixed: Word)
    requires a == 97 && start == OFFSET && mixed == 0xcbf29ce484222344
    ensures Hash([]) == 0xcbf29ce484222325
    ensures Hash([a]) == 0xaf63dc4c8601ec8c
  {
    LowByteForA();
    HashOfOne(a, start);
    RoundMixes(start, 0xcbf29ce4842223, 0x25, a, mixed);
    ProductForA(mixed);
  }
}
