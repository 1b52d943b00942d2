/** ECDSA signatures over P-256: from DER to 64 compact bytes with a low s (lib/webauthn.ts). */
module DerSignature {
  import opened Bytes

  /** The order n of the P-256 group. */
  const ORDER: nat := 0xffffffff00000000ffffffffffffffffbce6faada7179e84f3b9cac2fc632551

  const TWO_256: nat := 0x1_0000000000000000000000000000000000000000000000000000000000000000

  lemma Pow256At32()
    ensures Pow256(32) == TWO_256
  {
    assert Pow256(8) == 0x1_00000000_00000000;
    assert Pow256(16) == 0x1_00000000_00000000_00000000_00000000;
    assert Pow256(24) == 0x1_00000000_00000000_00000000_00000000_00000000_00000000;
  }

  // ---------------------------------------------------------------------------------------------
  // JavaScript big integers as hexadecimal text
  // ---------------------------------------------------------------------------------------------

  /** The number a run of hexadecimal digits denotes, as BigInt("0x" + digits) reads it. */
  function HexNumber(digits: string): nat {
    if digits == "" then 0
    else
      var last := HexValue(digits[|digits| - 1]);
      16 * HexNumber(digits[..|digits| - 1]) + if last.Some? then last.value else 0
  }

  /** BigInt.prototype.toString(16): no leading zeros, and a minus sign on a negative number. */
  function ToString16(n: int): (s: string)
    ensures |s| > 0
    decreases if n < 0 then 1 - n else n
  {
    if n < 0 then "-" + ToString16(-n)
    else if n < 16 then [HexChar(n)]
    else ToString16(n / 16) + [HexChar(n % 16)]
  }

  function Zeros(k: nat): (s: string)
    ensures |s| == k
  {
    seq(k, _ => '0')
  }

  /** String.prototype.padStart(width, "0"). */
  function PadStart(s: string, width: nat): string {
    if |s| >= width then s else Zeros(width - |s|) + s
  }

  /** Exactly w digits, leading zeros included. */
  function FixedHex(n: nat, w: nat): (s: string)
    ensures |s| == w
  {
    if w == 0 then "" else FixedHex(n / 16, w - 1) + [HexChar(n % 16)]
  }

  function Pow16(k: nat): (p: nat)
    ensures p > 0
  {
    if k == 0 then 1 else 16 * Pow16(k - 1)
  }

  lemma {:induction false} Pow16Pow256(k: nat)
    ensures Pow16(2 * k) == Pow256(k)
  {
    if k > 0 {
      Pow16Pow256(k - 1);
      assert Pow16(2 * k) == 16 * (16 * Pow16(2 * k - 2));
    }
  }

  lemma {:induction false} FixedHexZero(w: nat)
    ensures FixedHex(0, w) == Zeros(w)
  {
    if w > 0 {
      FixedHexZero(w - 1);
    }
  }

  /** Printing without leading zeros and padding back is printing at a fixed width. */
  lemma {:induction false} PadStartToString16(n: nat, w: nat)
    requires 1 <= w && n < Pow16(w)
    ensures PadStart(ToString16(n), w) == FixedHex(n, w)
  {
    if n < 16 {
      FixedHexZero(w - 1);
      assert n / 16 == 0 && n % 16 == n;
    } else {
      assert w > 1;
      PadStartToString16(n / 16, w - 1);
      assert PadStart(ToString16(n), w) == PadStart(ToString16(n / 16), w - 1) + [HexChar(n % 16)];
    }
  }

  lemma {:induction false} FromHexAppendPair(s: string, hi: nat, lo: nat)
    requires |s| % 2 == 0 && IsLowerHex(s) && hi < 16 && lo < 16
    ensures FromHex(s + [HexChar(hi), HexChar(lo)]) == FromHex(s) + [16 * hi + lo]
  {
    var t := s + [HexChar(hi), HexChar(lo)];
    if s == "" {
      assert t[2..] == "";
    } else {
      var rest := s[2..];
      assert IsLowerHex(rest);
      LowerDigit(s[0]);
      LowerDigit(s[1]);
      assert t[2..] == rest + [HexChar(hi), HexChar(lo)];
      FromHexAppendPair(rest, hi, lo);
    }
  }

  lemma {:induction false} FixedHexIsLowerHex(n: nat, w: nat)
    ensures IsLowerHex(FixedHex(n, w))
  {
    if w > 0 {
      FixedHexIsLowerHex(n / 16, w - 1);
    }
  }

  lemma TwoDigits(n: nat)
    ensures n / 16 / 16 == n / 256 && 16 * (n / 16 % 16) + n % 16 == n % 256
  {
  }

  /** Reading fixed-width digits back as bytes gives the fixed-width big-endian number. */
  lemma {:induction false} FromHexFixedHex(n: nat, k: nat)
    ensures FromHex(FixedHex(n, 2 * k)) == ToBE(n, k)
  {
    hide HexChar, HexValue, IsLowerHexChar;
    if k > 0 {
      var q := n / 256;
      TwoDigits(n);
      assert FixedHex(n, 2 * k) == FixedHex(q, 2 * k - 2) + [HexChar(n / 16 % 16), HexChar(n % 16)];
      FixedHexIsLowerHex(q, 2 * k - 2);
      FromHexAppendPair(FixedHex(q, 2 * k - 2), n / 16 % 16, n % 16);
      FromHexFixedHex(q, k - 1);
    }
  }

  lemma {:induction false} HexNumberAppend(s: string, hi: nat, lo: nat)
    requires hi < 16 && lo < 16
    ensures HexNumber(s + [HexChar(hi), HexChar(lo)]) == 256 * HexNumber(s) + 16 * hi + lo
  {
    var t := s + [HexChar(hi), HexChar(lo)];
    assert t[..|t| - 1] == s + [HexChar(hi)];
    assert (s + [HexChar(hi)])[..|s|] == s;
  }

  /** The detour from bytes through hexadecimal text to a big integer reads the big-endian number. */
  lemma {:induction false} HexNumberOfBytes(b: seq<byte>)
    ensures HexNumber(ToHex(b)) == FromBE(b)
  {
    if b != [] {
      var init, last := b[..|b| - 1], b[|b| - 1];
      assert b == init + [last];
      ToHexAppend(init, [last]);
      assert ToHex([last]) == [HexChar(last / 16), HexChar(last % 16)];
      HexNumberAppend(ToHex(init), last / 16, last % 16);
      HexNumberOfBytes(init);
    }
  }

  /** BigInt("0x" + b.toString("hex")). */
  function ReadBig(b: seq<byte>): (n: nat)
    ensures n == FromBE(b)
  {
    HexNumberOfBytes(b);
    HexNumber(ToHex(b))
  }

  /** The way back: print, pad to 64 digits, read the digits as bytes. */
  function Print32(n: int): seq<byte> {
    FromHex(PadStart(ToString16(n), 64))
  }

  /** For every number that fits in 32 bytes the detour is fixed-width big-endian. */
  lemma Print32IsBigEndian(n: nat)
    requires n < TWO_256
    ensures Print32(n) == ToBE(n, 32) && FromBE(Print32(n)) == n
  {
    Pow256At32();
    Pow16Pow256(32);
    PadStartToString16(n, 64);
    FromHexFixedHex(n, 32);
    FromToBE(n, 32);
  }

  // ---------------------------------------------------------------------------------------------
  // The parser
  // ---------------------------------------------------------------------------------------------

  /** What the parser takes for one INTEGER at `offset`. An absent length byte makes the end of the
      slice NaN, so the slice is empty, as it is for length 0; BigInt("0x") then throws. */
  function IntegerAt(der: seq<byte>, offset: nat): Option<seq<byte>> {
    if offset + 1 >= |der| then None
    else
      var value := Slice(der, offset + 2, offset + 2 + der[offset + 1]);
      if value == [] then None else Some(value)
  }

  /** The two numbers the parser reads, or None where it throws. Tags and the outer length are not looked at. */
  function Parse(der: seq<byte>): Option<(nat, nat)> {
    var r := IntegerAt(der, 2);
    if r.None? then None
    else
      var rLen: nat := der[3];
      var s := IntegerAt(der, 4 + rLen);
      if s.None? then None else Some((FromBE(r.value), FromBE(s.value)))
  }

  /** The representative of s and n - s that is not above n / 2. */
  function LowS(s: nat): int {
    if s > ORDER / 2 then ORDER - s else s
  }

  function Compact(der: seq<byte>): Option<seq<byte>> {
    var parsed := Parse(der);
    if parsed.None? then None else Some(Print32(parsed.value.0) + Print32(LowS(parsed.value.1)))
  }

  /** The first half of derToCompact: two INTEGERs read with a moving offset. */
  method ReadIntegers(der: seq<byte>) returns (sig: Option<(nat, nat)>)
    ensures sig == Parse(der)
  {
    var offset := 2;
    if offset + 1 >= |der| {
      return None;
    }
    var rLen: nat := der[offset + 1];
    var r := Slice(der, offset + 2, offset + 2 + rLen);
    offset := offset + 2 + rLen;
    if r == [] || offset + 1 >= |der| {
      return None;
    }
    var sLen: nat := der[offset + 1];
    var s := Slice(der, offset + 2, offset + 2 + sLen);
    if s == [] {
      return None;
    }
    return Some((ReadBig(r), ReadBig(s)));
  }

  /** derToCompact, with its reassigned s. */
  method DerToCompact(der: seq<byte>) returns (compact: Option<seq<byte>>)
    ensures compact == Compact(der)
  {
    var sig := ReadIntegers(der);
    if sig.None? {
      return None;
    }
    var rBig, sBig: int := sig.value.0, sig.value.1;
    if sBig > ORDER / 2 {
      sBig := ORDER - sBig;
    }
    var rPadded := Print32(rBig);
    var sPadded := Print32(sBig);
    return Some(rPadded + sPadded);
  }

  /** The output is the canonical compact form of (r, s). */
  predicate IsCompactOf(out: seq<byte>, r: nat, s: nat) {
    |out| == 64 && FromBE(out[..32]) == r && FromBE(out[32..]) == LowS(s)
  }

  /** Whatever the input bytes, the output is right exactly when both numbers are in range:
      r below 2^256 and s not above n. Outside, digits are dropped or a minus sign ends the output. */
  lemma CompactExactlyWhen(der: seq<byte>)
    requires Parse(der).Some?
    ensures Compact(der).Some?
    ensures IsCompactOf(Compact(der).value, Parse(der).value.0, Parse(der).value.1)
            <==> Parse(der).value.0 < TWO_256 && Parse(der).value.1 <= ORDER
    ensures Parse(der).value.0 < TWO_256 && Parse(der).value.1 <= ORDER ==>
              Compact(der).value == ToBE(Parse(der).value.0, 32) + ToBE(LowS(Parse(der).value.1), 32)
  {
    var (r, s) := Parse(der).value;
    var out := Compact(der).value;
    if r < TWO_256 && s <= ORDER {
      Print32IsBigEndian(r);
      Print32IsBigEndian(LowS(s));
      assert out[..32] == Print32(r) && out[32..] == Print32(LowS(s));
    }
    if IsCompactOf(out, r, s) {
      Pow256At32();
      FromBEBound(out[..32]);
    }
  }

  // ---------------------------------------------------------------------------------------------
  // The DER encoding of a signature
  // ---------------------------------------------------------------------------------------------

  /** The contents octets of a non-negative INTEGER (section 8.3 of X.690): as few octets as possible,
      and a zero octet in front where the first bit would otherwise read as a sign. */
  function Magnitude(v: nat): (b: seq<byte>)
    ensures |b| > 0
  {
    if v < 256 then [v] else Magnitude(v / 256) + [v % 256]
  }

  function DerInteger(v: nat): seq<byte> {
    var m := Magnitude(v);
    if m[0] >= 128 then [0] + m else m
  }

  /** SEQUENCE { r INTEGER, s INTEGER } (section 2.2.3 of RFC 3279), in short-form lengths. */
  function DerEncode(r: nat, s: nat): seq<byte>
    requires r < TWO_256 && s < TWO_256
  {
    DerIntegerShape(r);
    DerIntegerShape(s);
    var rb, sb := DerInteger(r), DerInteger(s);
    [0x30, 4 + |rb| + |sb|, 0x02, |rb|] + rb + [0x02, |sb|] + sb
  }

  lemma {:induction false} MagnitudeShape(v: nat, k: nat)
    requires 1 <= k && v < Pow256(k)
    ensures |Magnitude(v)| <= k
    ensures FromBE(Magnitude(v)) == v
    ensures v > 0 ==> Magnitude(v)[0] > 0
  {
    if v < 256 {
      assert Magnitude(v)[..0] == [];
    } else {
      assert k > 1;
      MagnitudeShape(v / 256, k - 1);
      assert Magnitude(v)[..|Magnitude(v)| - 1] == Magnitude(v / 256);
    }
  }

  /** At most 33 octets, the right value, never a sign bit, and no octet that could be left out. */
  lemma DerIntegerShape(v: nat)
    requires v < TWO_256
    ensures 1 <= |DerInteger(v)| <= 33
    ensures FromBE(DerInteger(v)) == v
    ensures DerInteger(v)[0] < 128
    ensures |DerInteger(v)| > 1 && DerInteger(v)[0] == 0 ==> DerInteger(v)[1] >= 128
  {
    Pow256At32();
    MagnitudeShape(v, 32);
    var m := Magnitude(v);
    if m[0] >= 128 {
      FromBEAppend([0], m);
      assert FromBE([0]) == 0;
    } else if |m| > 1 {
      assert v > 0;
    }
  }

  /** The parser on any well-delimited pair of non-empty INTEGERs, minimal or not, whatever follows. */
  lemma ParsePair(head: seq<byte>, rb: seq<byte>, tag: byte, sb: seq<byte>, tail: seq<byte>)
    requires |head| == 3
    requires 0 < |rb| < 256 && 0 < |sb| < 256
    ensures Parse(head + [|rb|] + rb + [tag, |sb|] + sb + tail) == Some((FromBE(rb), FromBE(sb)))
  {
    var der := head + [|rb|] + rb + [tag, |sb|] + sb + tail;
    var o := 4 + |rb|;
    assert der[3] == |rb| && der[o + 1] == |sb|;
    assert IntegerAt(der, 2) == Some(rb) by {
      assert Slice(der, 4, 4 + |rb|) == rb;
    }
    assert IntegerAt(der, o) == Some(sb) by {
      assert Slice(der, o + 2, o + 2 + |sb|) == sb;
    }
  }

  lemma ParseDerEncode(r: nat, s: nat)
    requires r < TWO_256 && s < TWO_256
    ensures Parse(DerEncode(r, s)) == Some((r, s))
  {
    DerIntegerShape(r);
    DerIntegerShape(s);
    var rb, sb := DerInteger(r), DerInteger(s);
    var head: seq<byte> := [0x30, 4 + |rb| + |sb|, 0x02];
    assert DerEncode(r, s) == head + [|rb|] + rb + [0x02, |sb|] + sb + [];
    ParsePair(head, rb, 0x02, sb, []);
  }

  /** Signature components are numbers from 1 to n - 1. */
  predicate InRange(v: nat) {
    1 <= v < ORDER
  }

  /** Every signature becomes 64 bytes: r unchanged and the low representative of s. */
  lemma CompactOfSignature(r: nat, s: nat)
    requires InRange(r) && InRange(s)
    ensures 1 <= LowS(s) <= (ORDER - 1) / 2 && (LowS(s) == s || LowS(s) == ORDER - s)
    ensures Compact(DerEncode(r, s)) == Some(ToBE(r, 32) + ToBE(LowS(s), 32))
  {
    ParseDerEncode(r, s);
    Print32IsBigEndian(r);
    Print32IsBigEndian(LowS(s));
  }

  /** Two signatures have the same compact form exactly when they differ at most in the sign of s. */
  lemma CompactEqualExactlyWhen(r1: nat, s1: nat, r2: nat, s2: nat)
    requires InRange(r1) && InRange(s1) && InRange(r2) && InRange(s2)
    ensures Compact(DerEncode(r1, s1)) == Compact(DerEncode(r2, s2))
            <==> r1 == r2 && (s1 == s2 || s1 == ORDER - s2)
  {
    CompactOfSignature(r1, s1);
    CompactOfSignature(r2, s2);
    if Compact(DerEncode(r1, s1)) == Compact(DerEncode(r2, s2)) {
      var a, b := Compact(DerEncode(r1, s1)).value, Compact(DerEncode(r2, s2)).value;
      assert a[..32] == ToBE(r1, 32) && a[32..] == ToBE(LowS(s1), 32);
      assert b[..32] == ToBE(r2, 32) && b[32..] == ToBE(LowS(s2), 32);
      Pow256At32();
      ToBEInjective(r1, r2, 32);
      ToBEInjective(LowS(s1), LowS(s2), 32);
    }
  }

  /** Reading a compact signature, encoding it again as DER and compacting again changes nothing. */
  lemma CompactIdempotent(r: nat, s: nat)
    requires InRange(r) && InRange(s)
    ensures var out := Compact(DerEncode(r, s)).value;
            |out| == 64 && InRange(FromBE(out[..32])) && InRange(FromBE(out[32..]))
            && Compact(DerEncode(FromBE(out[..32]), FromBE(out[32..]))) == Some(out)
  {
    CompactOfSignature(r, s);
    var out := Compact(DerEncode(r, s)).value;
    assert out[..32] == ToBE(r, 32) && out[32..] == ToBE(LowS(s), 32);
    Pow256At32();
    FromToBE(r, 32);
    FromToBE(LowS(s), 32);
    CompactOfSignature(r, LowS(s));
  }

  lemma {:induction false} FromHexStops(k: nat)
    ensures FromHex(Zeros(2 * k) + "-1") == ZeroBytes(k)
  {
    var s := Zeros(2 * k) + "-1";
    if k > 0 {
      FromHexStops(k - 1);
      assert s[2..] == Zeros(2 * (k - 1)) + "-1";
      assert ZeroBytes(k) == [0] + ZeroBytes(k - 1);
    }
  }

  lemma PrintMinusOne()
    ensures Print32(-1) == ZeroBytes(31)
  {
    hide FromHex, Zeros, ZeroBytes;
    FromHexStops(31);
    assert ToString16(1) == [HexChar(1)] == "1";
    assert ToString16(-1) == "-" + "1" == "-1";
  }

  /** One above the order, s becomes -1, whose minus sign ends the hexadecimal text: 63 bytes come out. */
  lemma CompactAboveOrder()
    ensures Compact(DerEncode(1, ORDER + 1)) == Some(ToBE(1, 32) + ZeroBytes(31))
    ensures !IsCompactOf(Compact(DerEncode(1, ORDER + 1)).value, 1, ORDER + 1)
  {
    hide DerEncode, Parse, Print32, ToBE, ZeroBytes, FromBE;
    ParseDerEncode(1, ORDER + 1);
    Print32IsBigEndian(1);
    PrintMinusOne();
  }
}
