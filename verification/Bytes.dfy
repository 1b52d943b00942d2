/** Bytes, fixed-width big-endian numbers and the two hexadecimal notations the server moves between. */
module Bytes {

  type byte = x: int | 0 <= x < 256

  type Bytes32 = b: seq<byte> | |b| == 32 witness seq(32, _ => 0)

  datatype Option<+T> = None | Some(value: T)

  /** What a parser makes of the front of its input. */
  datatype Decoded<+T> = Fail | Done(item: T, rest: seq<byte>) {
    predicate IsFailure() {
      Fail?
    }

    function PropagateFailure<U>(): Decoded<U>
      requires Fail?
    {
      Fail
    }

    function Extract(): (T, seq<byte>)
      requires Done?
    {
      (item, rest)
    }
  }

  datatype Result<+T> = Ok(value: T) | Err(error: string)

  function ZeroBytes(k: nat): (b: seq<byte>)
    ensures |b| == k && forall i :: 0 <= i < k ==> b[i] == 0
  {
    seq(k, _ => 0)
  }

  lemma SliceOfSlice<T>(s: seq<T>, lo: nat, hi: nat, from: nat, to: nat)
    requires lo <= hi <= |s| && from <= to <= hi - lo
    ensures s[lo..hi][from..to] == s[lo + from..lo + to]
  {
    assert forall k :: 0 <= k < to - from ==> s[lo..hi][from..to][k] == s[lo..hi][from + k] == s[lo + from + k];
  }

  lemma Regroup<T>(a: seq<T>, b: seq<T>, c: seq<T>)
    ensures a + (b + c) == a + b + c
  {
  }

  /** Buffer.slice(start, end) with clamped ends. */
  function Slice(b: seq<byte>, start: nat, end: nat): seq<byte> {
    var e := if end <= |b| then end else |b|;
    if start <= e then b[start..e] else []
  }

  /** What is there of the bytes from start on, before end. */
  lemma SliceHolds(b: seq<byte>, start: nat, end: nat)
    requires start <= end
    ensures |Slice(b, start, end)| == if end <= |b| then end - start else if start <= |b| then |b| - start else 0
    ensures forall k :: 0 <= k < |Slice(b, start, end)| ==> Slice(b, start, end)[k] == b[start + k]
  {
  }

  // ---------------------------------------------------------------------------------------------
  // Big-endian numbers
  // ---------------------------------------------------------------------------------------------

  /** 256 to the power k. */
  function Pow256(k: nat): (p: nat)
    ensures p > 0
  {
    if k == 0 then 1 else 256 * Pow256(k - 1)
  }

  /** The number a byte string denotes, most significant byte first. */
  function FromBE(b: seq<byte>): nat {
    if b == [] then 0 else 256 * FromBE(b[..|b| - 1]) + b[|b| - 1]
  }

  /** The k low-order bytes of n, most significant byte first. */
  function ToBE(n: nat, k: nat): (b: seq<byte>)
    ensures |b| == k
  {
    if k == 0 then [] else ToBE(n / 256, k - 1) + [n % 256]
  }

  lemma {:induction false} FromBEBound(b: seq<byte>)
    ensures FromBE(b) < Pow256(|b|)
  {
    if b != [] {
      FromBEBound(b[..|b| - 1]);
    }
  }

  lemma {:induction false} FromToBE(n: nat, k: nat)
    requires n < Pow256(k)
    ensures FromBE(ToBE(n, k)) == n
  {
    if k > 0 {
      FromToBE(n / 256, k - 1);
      assert ToBE(n, k)[..k - 1] == ToBE(n / 256, k - 1);
    }
  }

  lemma {:induction false} ToFromBE(b: seq<byte>)
    ensures ToBE(FromBE(b), |b|) == b
  {
    if b != [] {
      ToFromBE(b[..|b| - 1]);
      assert b == b[..|b| - 1] + [b[|b| - 1]];
    }
  }

  lemma ToBEInjective(m: nat, n: nat, k: nat)
    requires m < Pow256(k) && n < Pow256(k)
    requires ToBE(m, k) == ToBE(n, k)
    ensures m == n
  {
    FromToBE(m, k);
    FromToBE(n, k);
  }

  lemma MulShift(x: int, y: int)
    ensures 256 * (x * y) == x * (256 * y)
  {
  }

  lemma {:induction false} FromBEAppend(a: seq<byte>, b: seq<byte>)
    ensures FromBE(a + b) == FromBE(a) * Pow256(|b|) + FromBE(b)
  {
    if b == [] {
      assert a + b == a;
    } else {
      var c := b[..|b| - 1];
      FromBEAppend(a, c);
      assert (a + b)[..|a + b| - 1] == a + c;
      MulShift(FromBE(a), Pow256(|c|));
    }
  }

  // ---------------------------------------------------------------------------------------------
  // Lower-case hexadecimal: Buffer.toString("hex") and Buffer.from(s, "hex")
  // ---------------------------------------------------------------------------------------------

  const HEX_CHARS := "0123456789abcdef"

  /** The character class [0-9a-f]. */
  predicate IsLowerHexChar(c: char) {
    '0' <= c <= '9' || 'a' <= c <= 'f'
  }

  predicate IsLowerHex(s: string) {
    forall i :: 0 <= i < |s| ==> IsLowerHexChar(s[i])
  }

  function HexChar(d: nat): (c: char)
    requires d < 16
    ensures IsLowerHexChar(c) && HexValue(c) == Some(d)
  {
    HEX_CHARS[d]
  }

  /** Either case is accepted when reading. */
  function HexValue(c: char): (v: Option<nat>)
    ensures v.Some? ==> v.value < 16
    ensures v.Some? ==> c != '-'
  {
    if '0' <= c <= '9' then Some(c as int - '0' as int)
    else if 'a' <= c <= 'f' then Some(c as int - 'a' as int + 10)
    else if 'A' <= c <= 'F' then Some(c as int - 'A' as int + 10)
    else None
  }

  function ToHex(b: seq<byte>): (s: string)
    ensures |s| == 2 * |b|
    ensures IsLowerHex(s)
  {
    if b == [] then "" else [HexChar(b[0] / 16), HexChar(b[0] % 16)] + ToHex(b[1..])
  }

  /** Reads digit pairs and stops, without an error, at the first pair that is not two digits. */
  function FromHex(s: string): (b: seq<byte>)
    ensures 2 * |b| <= |s|
  {
    if |s| < 2 || HexValue(s[0]).None? || HexValue(s[1]).None? then []
    else [16 * HexValue(s[0]).value + HexValue(s[1]).value] + FromHex(s[2..])
  }

  lemma {:induction false} FromToHex(b: seq<byte>)
    ensures FromHex(ToHex(b)) == b
  {
    hide HexChar, HexValue, IsLowerHexChar;
    if b != [] {
      FromToHex(b[1..]);
      assert ToHex(b)[2..] == ToHex(b[1..]);
      assert b == [b[0]] + b[1..];
    }
  }

  lemma ToHexInjective(a: seq<byte>, b: seq<byte>)
    requires ToHex(a) == ToHex(b)
    ensures a == b
  {
    FromToHex(a);
    FromToHex(b);
  }

  /** Text that is pairs of lower-case digits is the hexadecimal text of exactly one byte string. */
  lemma {:induction false} ToFromHex(s: string)
    requires |s| % 2 == 0 && IsLowerHex(s)
    ensures ToHex(FromHex(s)) == s
  {
    hide HexChar, HexValue, IsLowerHexChar;
    if s != [] {
      var rest := s[2..];
      assert IsLowerHex(rest);
      ToFromHex(rest);
      LowerDigit(s[0]);
      LowerDigit(s[1]);
      var hi, lo := HexValue(s[0]).value, HexValue(s[1]).value;
      assert FromHex(s) == [16 * hi + lo] + FromHex(rest);
      ToHexCons(hi, lo, FromHex(rest));
      assert s == [s[0], s[1]] + rest;
    }
  }

  lemma ToHexCons(hi: nat, lo: nat, b: seq<byte>)
    requires hi < 16 && lo < 16
    ensures ToHex([16 * hi + lo] + b) == [HexChar(hi), HexChar(lo)] + ToHex(b)
  {
    var t: seq<byte> := [16 * hi + lo] + b;
    assert t[0] / 16 == hi && t[0] % 16 == lo;
    assert t[1..] == b;
  }

  lemma LowerDigit(c: char)
    requires IsLowerHexChar(c)
    ensures HexValue(c).Some? && HexChar(HexValue(c).value) == c
  {
  }

  lemma {:induction false} ToHexAppend(a: seq<byte>, b: seq<byte>)
    ensures ToHex(a + b) == ToHex(a) + ToHex(b)
  {
    if a == [] {
      assert a + b == b;
    } else {
      assert (a + b)[1..] == a[1..] + b;
      ToHexAppend(a[1..], b);
    }
  }
}
