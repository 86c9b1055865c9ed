/**
 The identity hash of `src/credentials.rs`: 64-bit FNV-1a over the bytes of a string, printed as
 sixteen hexadecimal digits. A machine word is a number below 2^64, xor works bit by bit on
 numbers, and multiplication wraps.
 */
module Fnv {

  const TWO64: nat := 0x1_0000_0000_0000_0000

  type Byte = b: nat | b < 256
  type Word = w: nat | w < 0x1_0000_0000_0000_0000

  // --- Exclusive or -----------------------------------------------------------------------------

  function Xor(a: nat, b: nat): nat {
    if a == 0 && b == 0 then 0 else (if a % 2 == b % 2 then 0 else 1) + 2 * Xor(a / 2, b / 2)
  }

  lemma BitAndRest(bit: nat, rest: nat)
    requires bit < 2
    ensures (bit + 2 * rest) % 2 == bit && (bit + 2 * rest) / 2 == rest
  {
  }

  /** The lowest bit of the result, and the result of the remaining bits. */
  lemma XorBits(a: nat, b: nat)
    ensures Xor(a, b) % 2 == if a % 2 == b % 2 then 0 else 1
    ensures Xor(a, b) / 2 == Xor(a / 2, b / 2)
  {
    var bit, rest := if a % 2 == b % 2 then 0 else 1, Xor(a / 2, b / 2);
    assert Xor(a, b) == bit + 2 * rest;
    BitAndRest(bit, rest);
  }

  lemma {:induction false} XorIsInvolution(a: nat, b: nat)
    ensures Xor(Xor(a, b), b) == a
    decreases a + b
  {
    if a + b > 0 {
      var x := Xor(a, b);
      XorBits(a, b);
      XorBits(x, b);
      XorIsInvolution(a / 2, b / 2);
      assert Xor(x, b) / 2 == a / 2 && Xor(x, b) % 2 == a % 2;
    }
  }

  lemma {:induction false} XorIsCommutative(a: nat, b: nat)
    ensures Xor(a, b) == Xor(b, a)
    decreases a + b
  {
    if a + b > 0 {
      XorIsCommutative(a / 2, b / 2);
    }
  }

  function Pow2(n: nat): nat {
    if n == 0 then 1 else 2 * Pow2(n - 1)
  }

  lemma {:induction false} XorFits(a: nat, b: nat, n: nat)
    requires a < Pow2(n) && b < Pow2(n)
    ensures Xor(a, b) < Pow2(n)
  {
    if n > 0 {
      XorFits(a / 2, b / 2, n - 1);
    }
  }

  lemma {:induction false} Pow2Adds(m: nat, n: nat)
    ensures Pow2(m + n) == Pow2(m) * Pow2(n)
  {
    if m > 0 {
      Pow2Adds(m - 1, n);
      assert Pow2(m + n) == 2 * Pow2((m - 1) + n);
    }
  }

  lemma Pow2Of64()
    ensures Pow2(64) == TWO64
  {
    assert Pow2(8) == 256;
    Pow2Adds(8, 8);
    Pow2Adds(16, 16);
    Pow2Adds(32, 32);
  }

  function XorByte(hash: Word, byte: Byte): Word {
    Pow2Of64();
    XorFits(hash, byte, 64);
    Xor(hash, byte)
  }

  // --- Wrapping multiplication ------------------------------------------------------------------

  function WrappingMul(x: Word, y: Word): Word {
    x * y % TWO64
  }

  lemma MulAtLeast(k: int, m: nat)
    requires k >= 1
    ensures k * m >= m
  {
  }

  lemma ModShift(x: nat, z: int, m: nat)
    requires x < m && x + z * m >= 0
    ensures (x + z * m) % m == x
  {
    var y := x + z * m;
    var d := y / m;
    assert (d - z) * m == x - y % m;
    if d > z {
      MulAtLeast(d - z, m);
    } else if d < z {
      MulAtLeast(z - d, m);
    }
  }

  /** Multiplying by p and then by q changes nothing modulo m when p * q leaves remainder one. */
  lemma MulInverse(x: nat, p: nat, q: nat, k: nat, m: nat)
    requires p * q == k * m + 1 && x < m
    ensures (x * p % m) * q % m == x
  {
    var d, r := x * p / m, x * p % m;
    assert x * p == d * m + r;
    calc {
      r * q;
      (x * p - d * m) * q;
      x * (p * q) - d * q * m;
      x + (x * k - d * q) * m;
    }
    ModShift(x, x * k - d * q, m);
  }

  lemma PrimeIsInvertible(x: Word)
    ensures WrappingMul(WrappingMul(x, 0x100000001b3), 0xce965057aff6957b) == x
    ensures WrappingMul(WrappingMul(x, 0xce965057aff6957b), 0x100000001b3) == x
  {
    var k := 0x100000001b3 * 0xce965057aff6957b / TWO64;
    MulInverse(x, 0x100000001b3, 0xce965057aff6957b, k, TWO64);
    MulInverse(x, 0xce965057aff6957b, 0x100000001b3, k, TWO64);
  }

  // --- The hash loop ----------------------------------------------------------------------------

  /** One iteration: xor the byte in, then multiply by the FNV prime. */
  function Step(hash: Word, byte: Byte): Word {
    WrappingMul(XorByte(hash, byte), 0x100000001b3)
  }

  /** The iteration run backwards: multiply by the inverse of the prime modulo 2^64, xor the byte out. */
  function Unstep(hash: Word, byte: Byte): Word {
    XorByte(WrappingMul(hash, 0xce965057aff6957b), byte)
  }

  /** Each step is a bijection on 64-bit words: Unstep is its two-sided inverse. */
  lemma StepIsBijective(hash: Word, byte: Byte)
    ensures Unstep(Step(hash, byte), byte) == hash
    ensures Step(Unstep(hash, byte), byte) == hash
  {
    PrimeIsInvertible(XorByte(hash, byte));
    XorIsInvolution(hash, byte);
    PrimeIsInvertible(hash);
    XorIsInvolution(WrappingMul(hash, 0xce965057aff6957b), byte);
  }

  /** From one state, different bytes lead to different states. */
  lemma StepSeparatesBytes(hash: Word, a: Byte, b: Byte)
    requires Step(hash, a) == Step(hash, b)
    ensures a == b
  {
    PrimeIsInvertible(XorByte(hash, a));
    PrimeIsInvertible(XorByte(hash, b));
    XorIsCommutative(hash, a);
    XorIsCommutative(hash, b);
    XorIsInvolution(a, hash);
    XorIsInvolution(b, hash);
  }

  /** The hash state after feeding the bytes into a given state. */
  function Absorb(hash: Word, bytes: seq<Byte>): Word {
    if bytes == [] then hash else Step(Absorb(hash, bytes[..|bytes| - 1]), bytes[|bytes| - 1])
  }

  lemma {:induction false} AbsorbConcat(hash: Word, a: seq<Byte>, b: seq<Byte>)
    ensures Absorb(hash, a + b) == Absorb(Absorb(hash, a), b)
    decreases |b|
  {
    if b == [] {
      assert a + b == a;
    } else {
      var n := |b| - 1;
      assert (a + b)[..|a + b| - 1] == a + b[..n];
      AbsorbConcat(hash, a, b[..n]);
    }
  }

  /** A common suffix neither merges nor separates states. */
  lemma {:induction false} SuffixKeepsStatesApart(x: Word, y: Word, suffix: seq<Byte>)
    ensures Absorb(x, suffix) == Absorb(y, suffix) <==> x == y
    decreases |suffix|
  {
    if suffix != [] {
      var n := |suffix| - 1;
      SuffixKeepsStatesApart(x, y, suffix[..n]);
      StepIsBijective(Absorb(x, suffix[..n]), suffix[n]);
      StepIsBijective(Absorb(y, suffix[..n]), suffix[n]);
    }
  }

  // --- The printed form -------------------------------------------------------------------------

  function Digit(n: nat): char
    requires n < 16
  {
    "0123456789abcdef"[n]
  }

  /** The lowest n hexadecimal digits of v, with leading zeros. */
  function HexDigits(v: nat, n: nat): (s: string)
    ensures |s| == n
  {
    if n == 0 then "" else HexDigits(v / 16, n - 1) + [Digit(v % 16)]
  }

  function Pow16(n: nat): (p: nat)
    ensures p > 0
  {
    if n == 0 then 1 else 16 * Pow16(n - 1)
  }

  lemma DigitsDiffer(a: nat, b: nat)
    requires a < 16 && b < 16 && Digit(a) == Digit(b)
    ensures a == b
  {
  }

  lemma SameEnds<T>(a: seq<T>, x: T, b: seq<T>, y: T)
    requires a + [x] == b + [y]
    ensures a == b && x == y
  {
    assert |a + [x]| == |a| + 1 && |b + [y]| == |b| + 1;
    assert a == (a + [x])[..|a|] && b == (b + [y])[..|b|];
    assert (a + [x])[|a|] == x && (b + [y])[|b|] == y;
  }

  /** Fixed-width rendering loses nothing of a number that fits. */
  lemma {:induction false} HexDigitsAreInjective(x: nat, y: nat, n: nat)
    requires x < Pow16(n) && y < Pow16(n)
    requires HexDigits(x, n) == HexDigits(y, n)
    ensures x == y
  {
    if n > 0 {
      SameEnds(HexDigits(x / 16, n - 1), Digit(x % 16), HexDigits(y / 16, n - 1), Digit(y % 16));
      DigitsDiffer(x % 16, y % 16);
      HexDigitsAreInjective(x / 16, y / 16, n - 1);
    }
  }

  function Hex(w: Word): string {
    HexDigits(w, 16)
  }

  lemma HexIsInjective(x: Word, y: Word)
    requires Hex(x) == Hex(y)
    ensures x == y
  {
    calc {
      Pow16(16);
      0x1_0000 * Pow16(12);
      0x1_0000_0000 * Pow16(8);
      0x1_0000_0000_0000 * Pow16(4);
      TWO64;
    }
    HexDigitsAreInjective(x, y, 16);
  }

  // --- The hash ---------------------------------------------------------------------------------

  function Fingerprint(bytes: seq<Byte>): string {
    Hex(Absorb(0xcbf29ce484222325, bytes))
  }

  method ShortHash(value: seq<Byte>) returns (digits: string)
    ensures digits == Fingerprint(value)
  {
    var hash: Word := 0xcbf29ce484222325;
    for i := 0 to |value|
      invariant hash == Absorb(0xcbf29ce484222325, value[..i])
    {
      assert value[..i + 1][..i] == value[..i];
      hash := XorByte(hash, value[i]);
      hash := WrappingMul(hash, 0x100000001b3);
    }
    assert value[..|value|] == value;
    digits := Hex(hash);
  }

  /** Two strings with a common suffix collide exactly when their prefixes do, whatever the lengths. */
  lemma CollisionsComeFromPrefixes(a: seq<Byte>, b: seq<Byte>, suffix: seq<Byte>)
    ensures Fingerprint(a + suffix) == Fingerprint(b + suffix) <==> Fingerprint(a) == Fingerprint(b)
  {
    var basis: Word := 0xcbf29ce484222325;
    AbsorbConcat(basis, a, suffix);
    AbsorbConcat(basis, b, suffix);
    SuffixKeepsStatesApart(Absorb(basis, a), Absorb(basis, b), suffix);
    if Fingerprint(a) == Fingerprint(b) {
      HexIsInjective(Absorb(basis, a), Absorb(basis, b));
    }
    if Fingerprint(a + suffix) == Fingerprint(b + suffix) {
      HexIsInjective(Absorb(basis, a + suffix), Absorb(basis, b + suffix));
    }
  }

  /** Equal-length strings that differ in exactly one byte never share a printed hash. */
  lemma OneByteChangesTheHash(a: seq<Byte>, b: seq<Byte>, k: nat)
    requires |a| == |b| && k < |a|
    requires a[..k] == b[..k] && a[k + 1..] == b[k + 1..] && a[k] != b[k]
    ensures Fingerprint(a) != Fingerprint(b)
  {
    var basis: Word := 0xcbf29ce484222325;
    assert a == a[..k + 1] + a[k + 1..] && b == b[..k + 1] + b[k + 1..];
    assert a[..k + 1][..k] == a[..k] && b[..k + 1][..k] == b[..k];
    if Fingerprint(a) == Fingerprint(b) {
      CollisionsComeFromPrefixes(a[..k + 1], b[..k + 1], a[k + 1..]);
      HexIsInjective(Absorb(basis, a[..k + 1]), Absorb(basis, b[..k + 1]));
      StepSeparatesBytes(Absorb(basis, a[..k]), a[k], b[k]);
    }
  }

  /** The text hashed for a credential id: namespace, colon, secret. The id is "cred_" and the digits. */
  function CredentialId(namespace: seq<Byte>, secret: seq<Byte>): string {
    "cred_" + Fingerprint(namespace + [58] + secret)
  }

  /** Two secrets of one namespace that differ in one byte keep apart both as ids and as fingerprints. */
  lemma OneByteChangesTheIdentity(namespace: seq<Byte>, a: seq<Byte>, b: seq<Byte>, k: nat)
    requires |a| == |b| && k < |a|
    requires a[..k] == b[..k] && a[k + 1..] == b[k + 1..] && a[k] != b[k]
    ensures CredentialId(namespace, a) != CredentialId(namespace, b)
    ensures Fingerprint(a) != Fingerprint(b)
  {
    var p := namespace + [58];
    var n := |p| + k;
    assert (p + a)[..n] == p + a[..k] && (p + b)[..n] == p + b[..k];
    assert (p + a)[n + 1..] == a[k + 1..] && (p + b)[n + 1..] == b[k + 1..];
    OneByteChangesTheHash(p + a, p + b, n);
    OneByteChangesTheHash(a, b, k);
    assert CredentialId(namespace, a)[5..] == Fingerprint(p + a);
    assert CredentialId(namespace, b)[5..] == Fingerprint(p + b);
  }
}
