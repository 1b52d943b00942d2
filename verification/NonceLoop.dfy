/** The nonce of lib/delegated-native-auth-entry.ts: six bytes folded with JavaScript's 32-bit operators. */
module NonceLoop {
  import opened Bytes

  const TWO_31: int := 0x8000_0000
  const TWO_32: int := 0x1_0000_0000

  /** ToInt32: the value modulo 2^32 as a signed number. */
  function ToInt32(n: int): (r: int)
    ensures -TWO_31 <= r < TWO_31
    ensures (r - n) % TWO_32 == 0
  {
    var m := n % TWO_32;
    if m < TWO_31 then m else m - TWO_32
  }

  /** Bitwise or of two natural numbers, k bits. */
  function OrBits(a: nat, b: nat, k: nat): nat {
    if k == 0 then 0
    else 2 * OrBits(a / 2, b / 2, k - 1) + if a % 2 == 1 || b % 2 == 1 then 1 else 0
  }

  /** The operators << and | on numbers: operands and result are signed 32-bit. */
  function ShiftLeft8(n: int): int {
    ToInt32(ToInt32(n) * 256)
  }

  function Or(a: int, b: int): int {
    ToInt32(OrBits(ToInt32(a) % TWO_32, ToInt32(b) % TWO_32, 32))
  }

  function Pow2(k: nat): (p: nat)
    ensures p > 0
  {
    if k == 0 then 1 else 2 * Pow2(k - 1)
  }

  lemma {:induction false} OrZero(a: nat, k: nat)
    requires a < Pow2(k)
    ensures OrBits(a, 0, k) == a
  {
    if k > 0 {
      OrZero(a / 2, k - 1);
    }
  }

  /** Where one operand only has bits above the other's, or is addition. */
  lemma {:induction false} OrDisjoint(q: nat, b: nat, low: nat, k: nat)
    requires low <= k && q * Pow2(low) < Pow2(k) && b < Pow2(low)
    ensures OrBits(q * Pow2(low), b, k) == q * Pow2(low) + b
  {
    if low == 0 {
      OrZero(q, k);
    } else {
      var half := q * Pow2(low - 1);
      assert q * Pow2(low) == 2 * half;
      OrDisjoint(q, b / 2, low - 1, k - 1);
    }
  }

  lemma Pow2Values()
    ensures Pow2(8) == 256 && Pow2(32) == TWO_32
  {
    assert Pow2(8) == 256;
    assert Pow2(16) == 65536;
    assert Pow2(24) == 16777216;
  }

  lemma ScaledResidue(m: int)
    ensures 256 * m % TWO_32 == 256 * (m % 0x100_0000)
  {
    var q := m / 0x100_0000;
    assert 256 * m == TWO_32 * q + 256 * (m % 0x100_0000);
  }

  lemma SmallerResidue(m: int, n: int)
    requires (m - n) % TWO_32 == 0
    ensures m % 0x100_0000 == n % 0x100_0000
  {
    var k := (m - n) / TWO_32;
    assert m == n + 0x100_0000 * (256 * k);
  }

  lemma ShiftedResidue(n: int)
    ensures ShiftLeft8(n) % TWO_32 == 256 * (n % 0x100_0000)
  {
    ScaledResidue(ToInt32(n));
    SmallerResidue(ToInt32(n), n);
  }

  lemma StepResidue(n: int, b: int)
    ensures (256 * (n % 0x100_0000) + b - (256 * n + b)) % TWO_32 == 0
  {
    var k := n / 0x100_0000;
    assert 256 * (n % 0x100_0000) + b - (256 * n + b) == TWO_32 * -k;
  }

  /** Or-ing a byte into a number whose low eight bits are clear adds it. */
  lemma OrByte(shifted: int, q: nat, b: byte)
    requires ToInt32(shifted) == shifted && shifted % TWO_32 == 256 * q && q < 0x100_0000
    ensures Or(shifted, b) == ToInt32(256 * q + b)
  {
    var or := OrBits(256 * q, b, 32);
    assert or == 256 * q + b by {
      Pow2Values();
      OrDisjoint(q, b, 8, 32);
    }
    assert ToInt32(b) == b;
  }

  /** One step of the loop shifts the byte in, modulo 2^32 and signed. */
  lemma Step(n: int, b: byte)
    ensures Or(ShiftLeft8(n), b) == ToInt32(256 * n + b)
  {
    var q := n % 0x100_0000;
    ShiftedResidue(n);
    SameInt32(ToInt32(n) * 256);
    OrByte(ShiftLeft8(n), q, b);
    StepResidue(n, b);
    SameResidue(256 * q + b, 256 * n + b);
  }

  lemma SameInt32(n: int)
    ensures ToInt32(ToInt32(n)) == ToInt32(n)
  {
  }

  lemma SameResidue(m: int, n: int)
    requires (m - n) % TWO_32 == 0
    ensures ToInt32(m) == ToInt32(n)
  {
  }

  /** The loop, which is meant to stay in the safe integer range. */
  method Nonce(raw: seq<byte>) returns (nonce: int)
    requires |raw| >= 6
    ensures nonce == ToInt32(FromBE(raw[..6]))
    ensures -TWO_31 <= nonce < TWO_31 && (nonce - FromBE(raw[..6])) % TWO_32 == 0
  {
    nonce := 0;
    for i := 0 to 6
      invariant nonce == ToInt32(FromBE(raw[..i]))
    {
      assert raw[..i + 1][..i] == raw[..i];
      Step(nonce, raw[i]);
      Congruent(nonce, FromBE(raw[..i]), raw[i]);
      nonce := Or(ShiftLeft8(nonce), raw[i]);
    }
  }

  lemma Congruent(m: int, n: int, b: int)
    requires m == ToInt32(n)
    ensures ToInt32(256 * m + b) == ToInt32(256 * n + b)
  {
    assert (256 * m + b) % TWO_32 == (256 * n + b) % TWO_32;
  }

  /** The first two of the six bytes are shifted out: two keys get the same nonce exactly when bytes 2 to 5 agree. */
  lemma NonceUsesFourBytes(a: seq<byte>, b: seq<byte>)
    requires |a| >= 6 && |b| >= 6
    ensures ToInt32(FromBE(a[..6])) == ToInt32(FromBE(b[..6])) <==> a[2..6] == b[2..6]
  {
    LastFour(a);
    LastFour(b);
    if ToInt32(FromBE(a[..6])) == ToInt32(FromBE(b[..6])) {
      ToFromBE(a[2..6]);
      ToFromBE(b[2..6]);
    }
  }

  lemma TwoKeysOneNonce()
    ensures var a: seq<byte>, b: seq<byte> := [0, 0, 0, 0, 0, 7], [1, 0, 0, 0, 0, 7];
            a != b && ToInt32(FromBE(a[..6])) == ToInt32(FromBE(b[..6]))
  {
    var a: seq<byte>, b: seq<byte> := [0, 0, 0, 0, 0, 7], [1, 0, 0, 0, 0, 7];
    assert a[0] != b[0] && a[2..6] == [0, 0, 0, 7] == b[2..6];
    hide ToInt32, FromBE;
    NonceUsesFourBytes(a, b);
  }

  lemma LastFour(a: seq<byte>)
    requires |a| >= 6
    ensures FromBE(a[..6]) % TWO_32 == FromBE(a[2..6])
  {
    assert a[..6] == a[..2] + a[2..6];
    FromBEAppend(a[..2], a[2..6]);
    FromBEBound(a[2..6]);
    assert Pow256(4) == TWO_32;
  }
}
