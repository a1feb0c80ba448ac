/** Fixed values of the rollout hash that the web client and the server both promise. */
module FnvVectors {
  import opened Fnv

  /*** One byte into a 32-bit state ***/

  lemma {:induction false} XorZero(a: nat, n: nat)
    requires a < Pow2(n)
    ensures XorBits(a, 0, n) == a
    decreases n
  {
    if n > 0 {
      XorZero(a / 2, n - 1);
    }
  }

  lemma HalfOf(x: nat, low: nat)
    ensures (2 * x + low) / 2 == x + low / 2
  {
  }

  lemma ParityOf(x: nat, low: nat, b: nat)
    ensures (2 * x + low + b) % 2 == (low + b) % 2
  {
  }

  function Shifted(high: nat, k: nat): nat {
    if k == 0 then high else 2 * Shifted(high, k - 1)
  }

  lemma {:induction false} ShiftedIs(high: nat, k: nat)
    ensures Shifted(high, k) == high * Pow2(k)
  {
    if k > 0 {
      ShiftedIs(high, k - 1);
      assert high * (2 * Pow2(k - 1)) == 2 * (high * Pow2(k - 1));
    }
  }

  // A short operand leaves the high bits alone.
  lemma {:induction false} XorLow(high: nat, low: nat, b: nat, k: nat, n: nat)
    requires high < Pow2(n) && low < Pow2(k) && b < Pow2(k)
    ensures XorBits(Shifted(high, k) + low, b, k + n) == Shifted(high, k) + XorBits(low, b, k)
    decreases k
  {
    if k == 0 {
      XorZero(high, n);
    } else {
      var x := Shifted(high, k - 1);
      XorLow(high, low / 2, b / 2, k - 1, n);
      HalfOf(x, low);
      XorBitsStep(2 * x + low, b, x + low / 2, k + n);
      ParityOf(x, low, b);
    }
  }

  lemma XorIsBits(h: Uint32, b: Uint32, n: nat)
    requires n == 32
    ensures Xor(h, b) == XorBits(h, b, n)
  {
  }

  lemma XorByte(high: nat, low: nat, b: Byte, k: nat, n: nat)
    requires Pow2(k) == 256 && Pow2(n) == 0x100_0000 && k + n == 32
    requires high < 0x100_0000 && low < 256
    ensures high * 256 + low < TWO_32 && Xor(high * 256 + low, b) == high * 256 + XorBits(low, b, k)
  {
    ShiftedIs(high, k);
    XorLow(high, low, b, k, n);
    XorIsBits(high * 256 + low, b, k + n);
  }

  /*** Bytes by their bits ***/

  function Cons(bit: bool, rest: nat): nat {
    (if bit then 1 else 0) + 2 * rest
  }

  // The bits of a byte, lowest first.
  datatype Octet = Octet(b0: bool, b1: bool, b2: bool, b3: bool, b4: bool, b5: bool, b6: bool, b7: bool)

  function HighHalf(o: Octet): nat {
    Cons(o.b4, Cons(o.b5, Cons(o.b6, Cons(o.b7, 0))))
  }

  function Value(o: Octet): (v: nat)
    ensures v < 256
  {
    Cons(o.b0, Cons(o.b1, Cons(o.b2, Cons(o.b3, HighHalf(o)))))
  }

  function Xored(a: Octet, b: Octet): Octet {
    Octet(a.b0 != b.b0, a.b1 != b.b1, a.b2 != b.b2, a.b3 != b.b3, a.b4 != b.b4, a.b5 != b.b5, a.b6 != b.b6, a.b7 != b.b7)
  }

  lemma XorCons(a: bool, b: bool, x: nat, y: nat, n: nat)
    ensures XorBits(Cons(a, x), Cons(b, y), n + 1) == Cons(a != b, XorBits(x, y, n))
  {
  }

  lemma XorFour(a0: bool, a1: bool, a2: bool, a3: bool, x: nat, b0: bool, b1: bool, b2: bool, b3: bool, y: nat, n: nat)
    ensures XorBits(Cons(a0, Cons(a1, Cons(a2, Cons(a3, x)))), Cons(b0, Cons(b1, Cons(b2, Cons(b3, y)))), n + 4)
         == Cons(a0 != b0, Cons(a1 != b1, Cons(a2 != b2, Cons(a3 != b3, XorBits(x, y, n)))))
  {
    XorCons(a3, b3, x, y, n);
    XorCons(a2, b2, Cons(a3, x), Cons(b3, y), n + 1);
    XorCons(a1, b1, Cons(a2, Cons(a3, x)), Cons(b2, Cons(b3, y)), n + 2);
    XorCons(a0, b0, Cons(a1, Cons(a2, Cons(a3, x))), Cons(b1, Cons(b2, Cons(b3, y))), n + 3);
  }

  lemma XorNone(n: nat)
    ensures XorBits(0, 0, n) == 0
  {
  }

  lemma XorHigh(a: Octet, b: Octet, n: nat)
    ensures XorBits(HighHalf(a), HighHalf(b), n + 4) == HighHalf(Xored(a, b))
  {
    XorFour(a.b4, a.b5, a.b6, a.b7, 0, b.b4, b.b5, b.b6, b.b7, 0, n);
    XorNone(n);
  }

  lemma XorOctets(a: Octet, b: Octet, n: nat, k: nat)
    requires k == (n + 4) + 4
    ensures XorBits(Value(a), Value(b), k) == Value(Xored(a, b))
  {
    XorHigh(a, b, n);
    XorFour(a.b0, a.b1, a.b2, a.b3, HighHalf(a), b.b0, b.b1, b.b2, b.b3, HighHalf(b), n + 4);
  }

  /*** Rounds on numbers ***/

  // The two widths, kept symbolic.
  predicate Widths(k: nat, n: nat) {
    k >= 8 && k + n == 32 && Pow2(k) == 256 && Pow2(n) == 0x100_0000
  }

  lemma SomeWidths() returns (k: nat, n: nat)
    ensures Widths(k, n)
  {
    k, n := 8, 24;
    assert Pow2(8) == 256;
    assert Pow2(16) == 0x1_0000;
  }

  lemma XorOfByte(high: nat, low: Octet, b: Octet, k: nat, n: nat)
    requires Widths(k, n) && high < 0x100_0000
    ensures high * 256 + Value(low) < TWO_32 && Xor(high * 256 + Value(low), Value(b)) == high * 256 + Value(Xored(low, b))
  {
    XorByte(high, Value(low), Value(b), k, n);
    XorOctets(low, b, k - 8, k);
  }

  lemma StepIs(h: Uint32, b: Byte, x: Uint32, next: Uint32, q: nat)
    requires Xor(h, b) == x && x * PRIME == next + q * TWO_32
    ensures Step(h, b) == next
  {
    ModPlus(next, q);
  }

  // One round, from the high bits and the low byte of the state.
  lemma Round(h: Uint32, b: Byte, high: nat, low: Octet, byte: Octet, next: Uint32, q: nat)
    requires high < 0x100_0000 && h == high * 256 + Value(low) && b == Value(byte)
    requires (high * 256 + Value(Xored(low, byte))) * PRIME == next + q * TWO_32
    ensures Step(h, b) == next
  {
    var k, n := SomeWidths();
    XorOfByte(high, low, byte, k, n);
    StepIs(h, b, high * 256 + Value(Xored(low, byte)), next, q);
  }

  /*** "flag", the separator and an accented identifier ***/

  lemma Flag0(h: Uint32, b: Byte)
    requires h == 0x811c_9dc5 && b == 0x66
    ensures Step(h, b) == 0xe30c_2799
  {
    Round(h, b, 0x81_1c9d, Octet(true, false, true, false, false, false, true, true),
          Octet(false, true, true, false, false, true, true, false), 0xe30c_2799, 0x81_1d68);
  }

  lemma Flag1(h: Uint32, b: Byte)
    requires h == 0xe30c_2799 && b == 0x6c
    ensures Step(h, b) == 0x6122_e6af
  {
    Round(h, b, 0xe3_0c27, Octet(true, false, false, true, true, false, false, true),
          Octet(false, false, true, true, false, true, true, false), 0x6122_e6af, 0xe3_0d8d);
  }

  lemma Flag2(h: Uint32, b: Byte)
    requires h == 0x6122_e6af && b == 0x61
    ensures Step(h, b) == 0xb7f1_564a
  {
    Round(h, b, 0x61_22e6, Octet(true, true, true, true, false, true, false, true),
          Octet(true, false, false, false, false, true, true, false), 0xb7f1_564a, 0x61_237f);
  }

  lemma Flag3(h: Uint32, b: Byte)
    requires h == 0xb7f1_564a && b == 0x67
    ensures Step(h, b) == 0xbdea_a8d7
  {
    Round(h, b, 0xb7_f156, Octet(false, true, false, true, false, false, true, false),
          Octet(true, true, true, false, false, true, true, false), 0xbdea_a8d7, 0xb7_f277);
  }

  lemma Separator(h: Uint32, b: Byte)
    requires h == 0xbdea_a8d7 && b == 0x0
    ensures Step(h, b) == 0xcf67_ca75
  {
    Round(h, b, 0xbd_eaa8, Octet(true, true, true, false, true, false, true, true),
          Octet(false, false, false, false, false, false, false, false), 0xcf67_ca75, 0xbd_ebd3);
  }

  lemma Accented0(h: Uint32, b: Byte)
    requires h == 0xcf67_ca75 && b == 0xc3
    ensures Step(h, b) == 0x3664_1c82
  {
    Round(h, b, 0xcf_67ca, Octet(true, false, true, false, true, true, true, false),
          Octet(true, true, false, false, false, false, true, true), 0x3664_1c82, 0xcf_6911);
  }

  lemma Accented1(h: Uint32, b: Byte)
    requires h == 0x3664_1c82 && b == 0xa9
    ensures Step(h, b) == 0xca98_57b1
  {
    Round(h, b, 0x36_641c, Octet(false, true, false, false, false, false, false, true),
          Octet(true, false, false, true, false, true, false, true), 0xca98_57b1, 0x36_6471);
  }

  // A run of rounds through given states.
  lemma {:induction false} Follows(bytes: Utf8, states: seq<Uint32>)
    requires |states| == |bytes| + 1
    requires forall i :: 0 <= i < |bytes| ==> Step(states[i], bytes[i]) == states[i + 1]
    ensures HashFrom(states[0], bytes) == states[|bytes|]
  {
    if bytes != [] {
      var n := |bytes| - 1;
      forall i | 0 <= i < n ensures Step(states[..n + 1][i], bytes[..n][i]) == states[..n + 1][i + 1] {
        assert Step(states[i], bytes[i]) == states[i + 1];
      }
      Follows(bytes[..n], states[..n + 1]);
    }
  }

  predicate IsFlag(bytes: Utf8) {
    |bytes| == 4 && bytes[0] == 0x66 && bytes[1] == 0x6c && bytes[2] == 0x61 && bytes[3] == 0x67
  }

  // U+00E9 in UTF-8.
  predicate IsAccented(bytes: Utf8) {
    |bytes| == 2 && bytes[0] == 0xc3 && bytes[1] == 0xa9
  }

  lemma HashOfFlag(bytes: Utf8)
    requires IsFlag(bytes)
    ensures HashFrom(OFFSET_BASIS, bytes) == 0xbdea_a8d7
  {
    var states: seq<Uint32> := [OFFSET_BASIS, 0xe30c_2799, 0x6122_e6af, 0xb7f1_564a, 0xbdea_a8d7];
    Flag0(states[0], bytes[0]);
    Flag1(states[1], bytes[1]);
    Flag2(states[2], bytes[2]);
    Flag3(states[3], bytes[3]);
    Follows(bytes, states);
  }

  lemma HashOfAccented(h: Uint32, bytes: Utf8)
    requires h == 0xcf67_ca75 && IsAccented(bytes)
    ensures HashFrom(h, bytes) == 0xca98_57b1
  {
    var states: seq<Uint32> := [h, 0x3664_1c82, 0xca98_57b1];
    Accented0(h, bytes[0]);
    Accented1(states[1], bytes[1]);
    Follows(bytes, states);
  }

  lemma HashOfBoth(key: Utf8, identifier: Utf8)
    requires IsFlag(key) && IsAccented(identifier)
    ensures HashFrom(OFFSET_BASIS, key + [0] + identifier) == 0xca98_57b1
  {
    var h := HashFrom(OFFSET_BASIS, key);
    HashOfFlag(key);
    HashFromAppend(OFFSET_BASIS, key, [0]);
    HashFromOne(h, 0);
    Separator(h, 0);
    HashFromAppend(OFFSET_BASIS, key + [0], identifier);
    HashOfAccented(HashFrom(OFFSET_BASIS, key + [0]), identifier);
  }

  // The flag "flag" puts the identifier U+00E9 into bucket 53, on both sides.
  lemma AccentedBucket(key: Utf8, identifier: Utf8)
    requires IsFlag(key) && IsAccented(identifier)
    ensures BucketOf(key, identifier) == 53
  {
    HashOfBoth(key, identifier);
    BucketIsOfBytes(key, identifier);
    Remainder(HashFrom(OFFSET_BASIS, key + [0] + identifier), 33989815, 53);
  }

  lemma Remainder(h: int, q: int, r: int)
    requires h == 100 * q + r && 0 <= r < 100
    ensures h % 100 == r
  {
  }
}
