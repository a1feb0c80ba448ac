/** FNV-1a as JavaScript computes it, on signed 32-bit integers, against the unsigned definition. */
module Fnv {

  const TWO_31 := 0x8000_0000
  const TWO_32 := 0x1_0000_0000
  const OFFSET_BASIS := 0x811c_9dc5
  const PRIME := 0x0100_0193
  // PRIME * PRIME_INVERSE == 1 modulo 2^32.
  const PRIME_INVERSE := 0x359c_449b

  type Byte = b: int | 0 <= b < 256
  type Uint32 = h: int | 0 <= h < TWO_32

  // A string is its UTF-8 encoding.
  type Utf8 = seq<Byte>

  /*** JavaScript's 32-bit operators on integers ***/

  function ToUint32(n: int): Uint32 {
    n % TWO_32
  }

  function ToInt32(n: int): int {
    var m := n % TWO_32;
    if m >= TWO_31 then m - TWO_32 else m
  }

  function Pow2(n: nat): int {
    if n == 0 then 1 else 2 * Pow2(n - 1)
  }

  // Bitwise exclusive or of the low `n` bits.
  function XorBits(a: nat, b: nat, n: nat): nat
    decreases n, a, b
  {
    if n == 0 then 0 else (a + b) % 2 + 2 * XorBits(a / 2, b / 2, n - 1)
  }

  function BitXor(a: int, b: int): int {
    ToInt32(XorBits(ToUint32(a), ToUint32(b), 32))
  }

  function Imul(a: int, b: int): int {
    ToInt32(ToUint32(a) * ToUint32(b))
  }

  function Bit(a: nat, k: nat): nat
    decreases k
  {
    if k == 0 then a % 2 else Bit(a / 2, k - 1)
  }

  // Bit by bit it is the exclusive or.
  lemma {:induction false} XorBitsAt(a: nat, b: nat, n: nat, k: nat)
    ensures Bit(XorBits(a, b, n), k) == if k < n && Bit(a, k) != Bit(b, k) then 1 else 0
    decreases k
  {
    if n == 0 {
      BitOfZero(k);
    } else {
      LowBit(a, b, XorBits(a / 2, b / 2, n - 1));
      if k > 0 {
        XorBitsAt(a / 2, b / 2, n - 1, k - 1);
      }
    }
  }

  lemma LowBit(a: nat, b: nat, x: nat)
    ensures var v := (a + b) % 2 + 2 * x;
      v / 2 == x && v % 2 == if a % 2 != b % 2 then 1 else 0
  {
  }

  lemma {:induction false} BitOfZero(k: nat)
    ensures Bit(0, k) == 0
  {
    if k > 0 {
      BitOfZero(k - 1);
    }
  }

  lemma {:induction false} XorBitsRange(a: nat, b: nat, n: nat)
    ensures XorBits(a, b, n) < Pow2(n)
    decreases n
  {
    if n > 0 {
      XorBitsRange(a / 2, b / 2, n - 1);
    }
  }

  lemma Parity(a: nat, b: nat)
    ensures (a + b) % 2 == if a % 2 != b % 2 then 1 else 0
  {
  }

  lemma UndoBit(a: nat, b: nat, x: nat)
    ensures var v := (a + b) % 2 + 2 * x;
      v / 2 == x && (v + b) % 2 == a % 2
  {
    var v := (a + b) % 2 + 2 * x;
    LowBit(a, b, x);
    Parity(v, b);
  }

  // Applying the same operand twice gives the value back.
  lemma {:induction false} XorBitsUndo(a: nat, b: nat, n: nat)
    requires a < Pow2(n)
    ensures XorBits(XorBits(a, b, n), b, n) == a
    decreases n
  {
    if n > 0 {
      var y := XorBits(a / 2, b / 2, n - 1);
      XorBitsUndo(a / 2, b / 2, n - 1);
      UndoBit(a, b, y);
      XorBitsStep((a + b) % 2 + 2 * y, b, y, n);
    }
  }

  lemma XorBitsStep(x: nat, b: nat, y: nat, n: nat)
    requires n > 0 && x / 2 == y
    ensures XorBits(x, b, n) == (x + b) % 2 + 2 * XorBits(y, b / 2, n - 1)
  {
  }

  lemma Pow2Of32()
    ensures Pow2(32) == TWO_32
  {
    assert Pow2(8) == 256;
    assert Pow2(16) == 0x1_0000;
    assert Pow2(24) == 0x100_0000;
  }

  /*** The definition: section 2 of draft-eastlake-fnv ***/

  function Xor(h: Uint32, b: Uint32): (r: Uint32) {
    Pow2Of32();
    XorBitsRange(h, b, 32);
    XorBits(h, b, 32)
  }

  function Step(h: Uint32, b: Byte): Uint32 {
    (Xor(h, b) * PRIME) % TWO_32
  }

  function HashFrom(h: Uint32, bytes: Utf8): Uint32 {
    if bytes == [] then h
    else Step(HashFrom(h, bytes[..|bytes| - 1]), bytes[|bytes| - 1])
  }

  function Hash(bytes: Utf8): Uint32 {
    HashFrom(OFFSET_BASIS, bytes)
  }

  // The parts with one zero byte between neighbours, none at the end.
  function Joined(parts: seq<Utf8>): Utf8 {
    if parts == [] then []
    else if |parts| == 1 then parts[0]
    else Joined(parts[..|parts| - 1]) + [0] + parts[|parts| - 1]
  }

  /*** The loop ***/

  // One round of the loop: `hash ^= byte; hash = Math.imul(hash, prime)`.
  function SignedStep(hash: int, b: Byte): int {
    Imul(BitXor(hash, b), PRIME)
  }

  lemma ModOfMod(x: int, y: int)
    ensures ((x % TWO_32) * y) % TWO_32 == (x * y) % TWO_32
  {
    var q := x / TWO_32;
    assert x == q * TWO_32 + x % TWO_32;
    assert x * y == (q * y) * TWO_32 + (x % TWO_32) * y;
    ModPlus((x % TWO_32) * y, q * y);
  }

  lemma ModPlus(x: int, k: int)
    ensures (x + k * TWO_32) % TWO_32 == x % TWO_32
  {
  }

  lemma SignedIsUnsigned(n: int)
    ensures ToUint32(ToInt32(n)) == ToUint32(n)
    ensures 0 <= n < TWO_32 ==> ToUint32(n) == n
  {
  }

  // Read as unsigned, a signed round is the defined one, whatever representative came in.
  lemma SignedStepIsStep(hash: int, b: Byte)
    ensures ToUint32(SignedStep(hash, b)) == Step(ToUint32(hash), b)
  {
    var x := Xor(ToUint32(hash), b);
    SignedIsUnsigned(b);
    SignedIsUnsigned(x);
    SignedIsUnsigned(PRIME);
    assert ToUint32(BitXor(hash, b)) == x;
    SignedIsUnsigned(x * PRIME);
  }

  lemma {:induction false} HashFromAppend(h: Uint32, a: Utf8, b: Utf8)
    ensures HashFrom(h, a + b) == HashFrom(HashFrom(h, a), b)
  {
    if b == [] {
      assert a + b == a;
    } else {
      assert (a + b)[..|a + b| - 1] == a + b[..|b| - 1];
      HashFromAppend(h, a, b[..|b| - 1]);
    }
  }

  lemma HashFromOne(h: Uint32, b: Byte)
    ensures HashFrom(h, [b]) == Step(h, b)
  {
  }

  method Fnv1a(parts: seq<Utf8>) returns (r: Uint32)
    ensures r == Hash(Joined(parts))
  {
    var hash := OFFSET_BASIS;
    SignedIsUnsigned(OFFSET_BASIS);
    for p := 0 to |parts|
      invariant ToUint32(hash) == Hash(Joined(parts[..p]))
    {
      ghost var before := Joined(parts[..p]);
      ghost var sep: Utf8 := if p > 0 then [0] else [];
      if p > 0 {
        SignedStepIsStep(hash, 0);
        HashFromAppend(OFFSET_BASIS, before, [0]);
        HashFromOne(Hash(before), 0);
        hash := BitXor(hash, 0);
        hash := Imul(hash, PRIME);
      }
      var bytes := parts[p];
      assert before + sep + bytes[..0] == before + sep;
      assert p == 0 ==> before + sep == before;
      for i := 0 to |bytes|
        invariant ToUint32(hash) == Hash(before + sep + bytes[..i])
      {
        SignedStepIsStep(hash, bytes[i]);
        assert before + sep + bytes[..i + 1] == (before + sep + bytes[..i]) + [bytes[i]];
        HashFromAppend(OFFSET_BASIS, before + sep + bytes[..i], [bytes[i]]);
        HashFromOne(Hash(before + sep + bytes[..i]), bytes[i]);
        hash := BitXor(hash, bytes[i]);
        hash := Imul(hash, PRIME);
      }
      assert bytes[..|bytes|] == bytes;
      assert parts[..p + 1][..p] == parts[..p];
      assert Joined(parts[..p + 1]) == before + sep + bytes;
    }
    assert parts[..|parts|] == parts;
    r := ToUint32(hash);
  }

  /*** No two hashes meet after a single differing byte ***/

  // The state before a round, from the state after it.
  function Unstep(h: Uint32, b: Byte): Uint32 {
    Xor((h * PRIME_INVERSE) % TWO_32, b)
  }

  lemma XorUndo(h: Uint32, b: Uint32)
    ensures Xor(Xor(h, b), b) == h
  {
    Pow2Of32();
    XorBitsUndo(h, b, 32);
  }

  lemma MulUndo(x: Uint32)
    ensures (((x * PRIME) % TWO_32) * PRIME_INVERSE) % TWO_32 == x
    ensures (((x * PRIME_INVERSE) % TWO_32) * PRIME) % TWO_32 == x
  {
    assert PRIME * PRIME_INVERSE == 1 + 3513497 * TWO_32;
    ModOfMod(x * PRIME, PRIME_INVERSE);
    ModOfMod(x * PRIME_INVERSE, PRIME);
    assert x * PRIME * PRIME_INVERSE == x + (3513497 * x) * TWO_32;
    assert x * PRIME_INVERSE * PRIME == x + (3513497 * x) * TWO_32;
    ModPlus(x, 3513497 * x);
  }

  // For each byte a round is a bijection on the 32-bit states.
  lemma StepIsBijective(h: Uint32, b: Byte)
    ensures Unstep(Step(h, b), b) == h && Step(Unstep(h, b), b) == h
  {
    MulUndo(Xor(h, b));
    XorUndo(h, b);
    XorUndo((h * PRIME_INVERSE) % TWO_32, b);
    MulUndo(h);
  }

  // From different states the same bytes lead to different states.
  lemma {:induction false} SameBytesKeepApart(g: Uint32, h: Uint32, bytes: Utf8)
    requires g != h
    ensures HashFrom(g, bytes) != HashFrom(h, bytes)
  {
    if bytes != [] {
      var n := |bytes| - 1;
      SameBytesKeepApart(g, h, bytes[..n]);
      StepIsBijective(HashFrom(g, bytes[..n]), bytes[n]);
      StepIsBijective(HashFrom(h, bytes[..n]), bytes[n]);
    }
  }

  // Different bytes lead a state to different states.
  lemma DifferentBytesSplit(h: Uint32, b: Byte, c: Byte)
    requires b != c
    ensures Step(h, b) != Step(h, c)
  {
    StepIsBijective(h, b);
    StepIsBijective(h, c);
    MulUndo(Xor(h, b));
    MulUndo(Xor(h, c));
    XorCommutes(h, b, 32);
    XorCommutes(h, c, 32);
    Pow2Of32();
    XorBitsUndo(b, h, 32);
    XorBitsUndo(c, h, 32);
  }

  lemma {:induction false} XorCommutes(a: nat, b: nat, n: nat)
    ensures XorBits(a, b, n) == XorBits(b, a, n)
    decreases n
  {
    if n > 0 {
      XorCommutes(a / 2, b / 2, n - 1);
    }
  }

  // Byte strings of one length that differ in exactly one byte never share a hash.
  lemma OneByteApart(a: Utf8, b: Utf8, k: nat)
    requires |a| == |b| && k < |a| && a[k] != b[k]
    requires forall i :: 0 <= i < |a| && i != k ==> a[i] == b[i]
    ensures Hash(a) != Hash(b)
  {
    var head, tail := a[..k], a[k + 1..];
    assert a == (head + [a[k]]) + tail && b == (head + [b[k]]) + tail;
    var h := Hash(head);
    HashFromAppend(OFFSET_BASIS, head, [a[k]]);
    HashFromAppend(OFFSET_BASIS, head, [b[k]]);
    assert HashFrom(h, [a[k]]) == Step(h, a[k]) && HashFrom(h, [b[k]]) == Step(h, b[k]);
    DifferentBytesSplit(h, a[k], b[k]);
    HashFromAppend(OFFSET_BASIS, head + [a[k]], tail);
    HashFromAppend(OFFSET_BASIS, head + [b[k]], tail);
    SameBytesKeepApart(Step(h, a[k]), Step(h, b[k]), tail);
  }

  /*** Buckets ***/

  function BucketOf(key: Utf8, identifier: Utf8): (b: int)
    ensures 0 <= b < 100
  {
    Hash(Joined([key, identifier])) % 100
  }

  // It is the hash of the bytes of the key, a zero byte and the bytes of the identifier, in that
  // order, each byte once.
  lemma BucketIsOfBytes(key: Utf8, identifier: Utf8)
    ensures BucketOf(key, identifier) == HashFrom(OFFSET_BASIS, key + [0] + identifier) % 100
  {
    assert [key, identifier][..1] == [key];
    assert Joined([key]) == key;
    assert Joined([key, identifier]) == key + [0] + identifier;
  }

  method BucketFor(key: Utf8, identifier: Utf8) returns (b: int)
    ensures b == BucketOf(key, identifier)
  {
    var h := Fnv1a([key, identifier]);
    b := h % 100;
  }

  function InPercent(key: Utf8, identifier: Utf8, percent: real): bool {
    if percent <= 0.0 then false
    else if percent >= 100.0 then true
    else BucketOf(key, identifier) as real < percent
  }

  // The clamps are the rule itself: an identity is in exactly when its bucket is below the
  // percentage, for every real percentage. So a larger rollout holds every smaller one.
  lemma InPercentIsThreshold(key: Utf8, identifier: Utf8, percent: real)
    ensures InPercent(key, identifier, percent) <==> BucketOf(key, identifier) as real < percent
  {
  }

  // The zero byte keeps ("ab", "c") and ("a", "bc") apart: parts free of zero bytes are
  // recovered from the joined bytes.
  lemma JoinedIsInjective(key: Utf8, ident: Utf8, key': Utf8, ident': Utf8)
    requires 0 !in key && 0 !in key'
    requires Joined([key, ident]) == Joined([key', ident'])
    ensures key == key' && ident == ident'
  {
    assert [key, ident][..1] == [key] && [key', ident'][..1] == [key'];
    var a, b := key + [0] + ident, key' + [0] + ident';
    assert a == b;
    assert a[|key|] == 0 && b[|key'|] == 0;
    assert forall i :: 0 <= i < |key| ==> a[i] == key[i] && key[i] in key;
    assert forall i :: 0 <= i < |key'| ==> b[i] == key'[i] && key'[i] in key';
    assert |key| == |key'|;
    assert key == a[..|key|] && key' == b[..|key'|];
    assert ident == a[|key| + 1..] && ident' == b[|key'| + 1..];
  }
}
