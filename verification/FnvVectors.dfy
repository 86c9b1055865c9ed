/** The published values of the short hash, computed from its definition. */
module FnvVectors {
  import opened Fnv

  // --- Mixing one byte --------------------------------------------------------------------------

  type Bit = n: nat | n < 2

  function Mix(x: Bit, y: Bit): Bit {
    if x == y then 0 else 1
  }

  /** One more bit on the right. */
  lemma XorSnoc(a: nat, b: nat, c: nat, x: Bit, y: Bit, a': nat, b': nat, c': nat)
    requires Xor(a, b) == c && a' == 2 * a + x && b' == 2 * b + y && c' == 2 * c + Mix(x, y)
    ensures Xor(a', b') == c'
  {
    BitAndRest(x, a);
    BitAndRest(y, b);
    XorBits(a', b');
  }

  function Four(a: Bit, b: Bit, c: Bit, d: Bit): nat {
    8 * a + 4 * b + 2 * c + d
  }

  /** Four more bits. */
  lemma XorFour(x: nat, y: nat, z: nat, a: Bit, b: Bit, c: Bit, d: Bit, p: Bit, q: Bit, r: Bit, s: Bit,
                x': nat, y': nat, z': nat)
    requires Xor(x, y) == z
    requires x' == 16 * x + Four(a, b, c, d) && y' == 16 * y + Four(p, q, r, s)
    requires z' == 16 * z + Four(Mix(a, p), Mix(b, q), Mix(c, r), Mix(d, s))
    ensures Xor(x', y') == z'
  {
    var x1, y1, z1 := 2 * x + a, 2 * y + p, 2 * z + Mix(a, p);
    var x2, y2, z2 := 2 * x1 + b, 2 * y1 + q, 2 * z1 + Mix(b, q);
    var x3, y3, z3 := 2 * x2 + c, 2 * y2 + r, 2 * z2 + Mix(c, r);
    XorSnoc(x, y, z, a, p, x1, y1, z1);
    XorSnoc(x1, y1, z1, b, q, x2, y2, z2);
    XorSnoc(x2, y2, z2, c, r, x3, y3, z3);
    XorSnoc(x3, y3, z3, d, s, x', y', z');
  }

  lemma {:induction false} XorZero(a: nat)
    ensures Xor(a, 0) == a
  {
    if a > 0 {
      XorZero(a / 2);
      XorBits(a, 0);
    }
  }

  /** A byte only mixes with the lowest byte of a number, four bits at a time. */
  lemma XorOfByte(high: nat, a: Bit, b: Bit, c: Bit, d: Bit, e: Bit, f: Bit, g: Bit, h: Bit,
                  p: Bit, q: Bit, r: Bit, s: Bit, t: Bit, u: Bit, v: Bit, w: Bit, x: nat, y: nat, z: nat)
    requires x == 256 * high + 16 * Four(a, b, c, d) + Four(e, f, g, h)
    requires y == 16 * Four(p, q, r, s) + Four(t, u, v, w)
    requires z == 256 * high + 16 * Four(Mix(a, p), Mix(b, q), Mix(c, r), Mix(d, s))
                  + Four(Mix(e, t), Mix(f, u), Mix(g, v), Mix(h, w))
    ensures Xor(x, y) == z
  {
    var x1, y1 := 16 * high + Four(a, b, c, d), Four(p, q, r, s);
    var z1 := 16 * high + Four(Mix(a, p), Mix(b, q), Mix(c, r), Mix(d, s));
    XorZero(high);
    XorFour(high, 0, high, a, b, c, d, p, q, r, s, x1, y1, z1);
    XorFour(x1, y1, z1, e, f, g, h, t, u, v, w, x, y, z);
  }

  lemma StepMixes(h: Word, b: Byte, mixed: Word, next: Word, wraps: nat)
    requires Xor(h, b) == mixed && mixed * 0x100000001b3 == wraps * TWO64 + next
    ensures Step(h, b) == next
  {
    Wraps(mixed * 0x100000001b3, wraps, next);
  }

  lemma Wraps(x: nat, wraps: nat, next: Word)
    requires x == wraps * TWO64 + next
    ensures x % TWO64 == next
  {
  }

  // --- The five steps over "hello" --------------------------------------------------------------

  lemma Step1(h: Word, b: Byte, next: Word)
    requires h == 0xcbf29ce484222325 && b == 104 && next == 0xaf63e54c8601fbd7
    ensures Step(h, b) == next
  {
    XorOfByte(0xcbf29ce4842223, 0, 0, 1, 0, 0, 1, 0, 1, 0, 1, 1, 0, 1, 0, 0, 0, h, b, 0xcbf29ce48422234d);
    StepMixes(h, b, 0xcbf29ce48422234d, next, 0xcbf29ce5de);
  }

  lemma Step2(h: Word, b: Byte, next: Word)
    requires h == 0xaf63e54c8601fbd7 && b == 101 && next == 0x08ba5307b55eaf76
    ensures Step(h, b) == next
  {
    XorOfByte(0xaf63e54c8601fb, 1, 1, 0, 1, 0, 1, 1, 1, 0, 1, 1, 0, 0, 1, 0, 1, h, b, 0xaf63e54c8601fbb2);
    StepMixes(h, b, 0xaf63e54c8601fbb2, next, 0xaf63e54db0);
  }

  lemma Step3(h: Word, b: Byte, next: Word)
    requires h == 0x08ba5307b55eaf76 && b == 108 && next == 0x334a30192fe3892e
    ensures Step(h, b) == next
  {
    XorOfByte(0x08ba5307b55eaf, 0, 1, 1, 1, 0, 1, 1, 0, 0, 1, 1, 0, 1, 1, 0, 0, h, b, 0x08ba5307b55eaf1a);
    StepMixes(h, b, 0x08ba5307b55eaf1a, next, 0x8ba5307c4);
  }

  lemma Step4(h: Word, b: Byte, next: Word)
    requires h == 0x334a30192fe3892e && b == 108 && next == 0x0a98fccc5fa23b26
    ensures Step(h, b) == next
  {
    XorOfByte(0x334a30192fe389, 0, 0, 1, 0, 1, 1, 1, 0, 0, 1, 1, 0, 1, 1, 0, 0, h, b, 0x334a30192fe38942);
    StepMixes(h, b, 0x334a30192fe38942, next, 0x334a301987);
  }

  lemma Step5(h: Word, b: Byte, next: Word)
    requires h == 0x0a98fccc5fa23b26 && b == 111 && next == 0xa430d84680aabd0b
    ensures Step(h, b) == next
  {
    XorOfByte(0x0a98fccc5fa23b, 0, 0, 1, 0, 0, 1, 1, 0, 0, 1, 1, 0, 1, 1, 1, 1, h, b, 0x0a98fccc5fa23b49);
    StepMixes(h, b, 0x0a98fccc5fa23b49, next, 0xa98fccc71);
  }

  lemma Takes(basis: Word, bytes: seq<Byte>, n: nat, h: Word, next: Word)
    requires n < |bytes| && Absorb(basis, bytes[..n]) == h && Step(h, bytes[n]) == next
    ensures Absorb(basis, bytes[..n + 1]) == next
  {
    assert bytes[..n + 1][..n] == bytes[..n];
  }

  lemma AbsorbsFive(x: seq<Byte>, h0: Word, h1: Word, h2: Word, h3: Word, h4: Word, h5: Word)
    requires |x| == 5 && Step(h0, x[0]) == h1 && Step(h1, x[1]) == h2 && Step(h2, x[2]) == h3
    requires Step(h3, x[3]) == h4 && Step(h4, x[4]) == h5
    ensures Absorb(h0, x) == h5
  {
    assert x[..0] == [] && x[..5] == x;
    Takes(h0, x, 0, h0, h1);
    Takes(h0, x, 1, h1, h2);
    Takes(h0, x, 2, h2, h3);
    Takes(h0, x, 3, h3, h4);
    Takes(h0, x, 4, h4, h5);
  }

  lemma AbsorbsHello(x: seq<Byte>, h0: Word, h1: Word, h2: Word, h3: Word, h4: Word, h5: Word)
    requires x == [104, 101, 108, 108, 111] && h0 == 0xcbf29ce484222325 && h1 == 0xaf63e54c8601fbd7
    requires h2 == 0x08ba5307b55eaf76 && h3 == 0x334a30192fe3892e && h4 == 0x0a98fccc5fa23b26
             && h5 == 0xa430d84680aabd0b
    ensures Absorb(h0, x) == h5
  {
    Step1(h0, x[0], h1);
    Step2(h1, x[1], h2);
    Step3(h2, x[2], h3);
    Step4(h3, x[3], h4);
    Step5(h4, x[4], h5);
    AbsorbsFive(x, h0, h1, h2, h3, h4, h5);
  }

  // --- Printing ---------------------------------------------------------------------------------

  function DigitValue(c: char): nat {
    if '0' <= c <= '9' then c as int - '0' as int else if 'a' <= c <= 'f' then c as int - 'a' as int + 10 else 0
  }

  predicate IsHex(c: char) {
    '0' <= c <= '9' || 'a' <= c <= 'f'
  }

  /** The number that lower-case hexadecimal digits spell. */
  function HexValue(s: string): nat {
    if s == "" then 0 else 16 * HexValue(s[..|s| - 1]) + DigitValue(s[|s| - 1])
  }

  lemma DigitOf(c: char)
    requires IsHex(c)
    ensures DigitValue(c) < 16 && Digit(DigitValue(c)) == c
  {
  }

  lemma LastDigit(high: nat, low: nat)
    requires low < 16
    ensures (16 * high + low) / 16 == high && (16 * high + low) % 16 == low
  {
  }

  /** Printing inverts reading. */
  lemma {:induction false} HexReads(s: string)
    requires forall i :: 0 <= i < |s| ==> IsHex(s[i])
    ensures HexDigits(HexValue(s), |s|) == s
  {
    if s != "" {
      var init, last := s[..|s| - 1], s[|s| - 1];
      HexReads(init);
      DigitOf(last);
      LastDigit(HexValue(init), DigitValue(last));
      assert s == init + [last];
    }
  }

  lemma Prints(w: Word, s: string)
    requires |s| == 16 && (forall i :: 0 <= i < |s| ==> IsHex(s[i])) && HexValue(s) == w
    ensures Hex(w) == s
  {
    HexReads(s);
  }

  lemma HexValueOfSnoc(s: string, c: char)
    ensures HexValue(s + [c]) == 16 * HexValue(s) + DigitValue(c)
  {
    assert (s + [c])[..|s|] == s;
  }

  function FourDigits(t: string): nat
    requires |t| == 4
  {
    0x1000 * DigitValue(t[0]) + 0x100 * DigitValue(t[1]) + 0x10 * DigitValue(t[2]) + DigitValue(t[3])
  }

  lemma HexValueOfFour(s: string, t: string)
    requires |t| == 4
    ensures HexValue(s + t) == 0x10000 * HexValue(s) + FourDigits(t)
  {
    HexValueOfSnoc(s, t[0]);
    HexValueOfSnoc(s + [t[0]], t[1]);
    HexValueOfSnoc(s + [t[0]] + [t[1]], t[2]);
    HexValueOfSnoc(s + [t[0]] + [t[1]] + [t[2]], t[3]);
    assert s + t == s + [t[0]] + [t[1]] + [t[2]] + [t[3]];
  }

  lemma HexValueOfSixteen(a: string, b: string, c: string, d: string)
    requires |a| == |b| == |c| == |d| == 4
    ensures HexValue(a + b + c + d)
            == 0x1000000000000 * FourDigits(a) + 0x100000000 * FourDigits(b) + 0x10000 * FourDigits(c) + FourDigits(d)
  {
    HexValueOfFour("", a);
    assert "" + a == a;
    HexValueOfFour(a, b);
    HexValueOfFour(a + b, c);
    HexValueOfFour(a + b + c, d);
  }

  // --- The vectors ------------------------------------------------------------------------------

  lemma ReadsBasis(a: string, b: string, c: string, d: string, s: string)
    requires a == "cbf2" && b == "9ce4" && c == "8422" && d == "2325" && s == a + b + c + d
    ensures HexValue(s) == 0xcbf29ce484222325 && |s| == 16 && forall i :: 0 <= i < |s| ==> IsHex(s[i])
  {
    HexValueOfSixteen(a, b, c, d);
    assert FourDigits(a) == 0xcbf2 && FourDigits(b) == 0x9ce4 && FourDigits(c) == 0x8422 && FourDigits(d) == 0x2325;
  }

  lemma ReadsHello(a: string, b: string, c: string, d: string, s: string)
    requires a == "a430" && b == "d846" && c == "80aa" && d == "bd0b" && s == a + b + c + d
    ensures HexValue(s) == 0xa430d84680aabd0b && |s| == 16 && forall i :: 0 <= i < |s| ==> IsHex(s[i])
  {
    HexValueOfSixteen(a, b, c, d);
    assert FourDigits(a) == 0xa430 && FourDigits(b) == 0xd846 && FourDigits(c) == 0x80aa && FourDigits(d) == 0xbd0b;
  }

  /** The empty string hashes to the printed offset basis. */
  lemma EmptyVector(x: seq<Byte>, s: string)
    requires x == [] && s == "cbf29ce484222325"
    ensures Fingerprint(x) == s
  {
    assert s == "cbf2" + "9ce4" + "8422" + "2325";
    ReadsBasis("cbf2", "9ce4", "8422", "2325", s);
    Prints(Absorb(0xcbf29ce484222325, x), s);
  }

  /** The bytes of "hello". */
  lemma HelloVector(x: seq<Byte>, s: string)
    requires x == [104, 101, 108, 108, 111] && s == "a430d84680aabd0b"
    ensures Fingerprint(x) == s
  {
    assert s == "a430" + "d846" + "80aa" + "bd0b";
    ReadsHello("a430", "d846", "80aa", "bd0b", s);
    AbsorbsHello(x, 0xcbf29ce484222325, 0xaf63e54c8601fbd7, 0x08ba5307b55eaf76, 0x334a30192fe3892e, 0x0a98fccc5fa23b26,
                 0xa430d84680aabd0b);
    Prints(Absorb(0xcbf29ce484222325, x), s);
  }
}
