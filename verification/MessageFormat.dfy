/** The text a wallet signs for an Ed25519 signer, checked twice: by the submit route in TypeScript and by
    the verifier contract in Rust. */
module MessageFormat {
  import opened Bytes

  const PREFIX := "Stellar Smart Account Auth:\n"
  const PREFIX_LEN: nat := 28
  const PAYLOAD_LEN: nat := 32
  const HEX_LEN: nat := 64
  const TOTAL_LEN: nat := PREFIX_LEN + HEX_LEN

  // ---------------------------------------------------------------------------------------------
  // The submit route
  // ---------------------------------------------------------------------------------------------

  /** The two format gates: length and prefix, then the regular expression on the rest. */
  predicate GateFormat(message: string) {
    && |message| == |PREFIX| + 64
    && message[..|PREFIX|] == PREFIX
    && IsLowerHex(message[|PREFIX|..])
  }

  /** The gates and the comparison with the recomputed digest. */
  predicate GateAccepts(message: string, digest: seq<byte>) {
    GateFormat(message) && message[|PREFIX|..] == ToHex(digest)
  }

  /** For each digest the gate lets exactly one text through. */
  lemma GateExactly(message: string, digest: Bytes32)
    ensures GateAccepts(message, digest) <==> message == PREFIX + ToHex(digest)
  {
    assert |PREFIX| == 28;
    if GateAccepts(message, digest) {
      assert message == message[..28] + message[28..];
    }
    var m := PREFIX + ToHex(digest);
    assert m[..28] == PREFIX && m[28..] == ToHex(digest);
  }

  /** And each well-formed text is let through for exactly one digest. */
  lemma GateFormatNamesOneDigest(message: string, digest: Bytes32)
    requires GateFormat(message)
    ensures |FromHex(message[28..])| == 32
    ensures GateAccepts(message, digest) <==> digest == FromHex(message[28..])
  {
    ToFromHex(message[28..]);
    FromToHex(digest);
  }

  // ---------------------------------------------------------------------------------------------
  // The verifier contract
  // ---------------------------------------------------------------------------------------------

  /** The bytes of an ASCII text; any other character becomes a question mark. */
  function Ascii(s: string): (b: seq<byte>)
    ensures |b| == |s|
  {
    seq(|s|, i requires 0 <= i < |s| => if s[i] < 128 as char then s[i] as int else 0x3f)
  }

  /** UTF-8 (section 3 of RFC 3629). */
  function Utf8Char(c: char): (b: seq<byte>)
    ensures b != [] && (if c as int < 128 then b == [c as int] else b[0] >= 128)
  {
    var n := c as int;
    if n < 0x80 then [n]
    else if n < 0x800 then [0xc0 + n / 64, 0x80 + n % 64]
    else if n < 0x1_0000 then [0xe0 + n / 4096, 0x80 + n / 64 % 64, 0x80 + n % 64]
    else [0xf0 + n / 0x4_0000, 0x80 + n / 4096 % 64, 0x80 + n / 64 % 64, 0x80 + n % 64]
  }

  /** One character of each width. */
  lemma Utf8Widths()
    ensures Utf8Char('$') == [0x24] && Utf8Char('\U{A3}') == [0xc2, 0xa3]
    ensures Utf8Char('\U{20AC}') == [0xe2, 0x82, 0xac] && Utf8Char('\U{10348}') == [0xf0, 0x90, 0x8d, 0x88]
  {
  }

  function Utf8(s: string): seq<byte> {
    if s == "" then [] else Utf8Char(s[0]) + Utf8(s[1..])
  }

  lemma {:induction false} Utf8OfAscii(s: string)
    requires forall i :: 0 <= i < |s| ==> s[i] as int < 128
    ensures Utf8(s) == Ascii(s)
  {
    if s != "" {
      Utf8OfAscii(s[1..]);
      assert Ascii(s) == [s[0] as int] + Ascii(s[1..]);
    }
  }

  lemma {:induction false} AsciiOnly(s: string)
    requires forall b :: b in Utf8(s) ==> b < 128
    ensures forall i :: 0 <= i < |s| ==> s[i] as int < 128
  {
    if s != "" {
      assert Utf8(s)[0] == Utf8Char(s[0])[0] && Utf8(s)[0] in Utf8(s);
      assert forall b :: b in Utf8(s[1..]) ==> b in Utf8(s);
      AsciiOnly(s[1..]);
    }
  }

  const HEX_BYTES: seq<byte> :=
    [0x30, 0x31, 0x32, 0x33, 0x34, 0x35, 0x36, 0x37, 0x38, 0x39, 0x61, 0x62, 0x63, 0x64, 0x65, 0x66]

  /** Two ASCII digits a byte. */
  function HexBytes(src: seq<byte>): (b: seq<byte>)
    ensures |b| == 2 * |src|
  {
    if src == [] then []
    else HexBytes(src[..|src| - 1]) + [HEX_BYTES[src[|src| - 1] / 16], HEX_BYTES[src[|src| - 1] % 16]]
  }

  /** hex_encode: fills the front of `dst` in place and leaves the rest as it was. A shorter buffer panics. */
  method HexEncode(dst: array<byte>, src: seq<byte>)
    requires dst.Length >= 2 * |src|
    modifies dst
    ensures dst[..] == HexBytes(src) + old(dst[2 * |src|..])
  {
    var di := 0;
    for i := 0 to |src|
      invariant di == 2 * i
      invariant dst[..di] == HexBytes(src[..i])
      invariant dst[di..] == old(dst[..])[di..]
    {
      assert src[..i + 1][..i] == src[..i];
      dst[di] := HEX_BYTES[src[i] / 16];
      dst[di + 1] := HEX_BYTES[src[i] % 16];
      di := di + 2;
      assert dst[..di] == HexBytes(src[..i]) + [HEX_BYTES[src[i] / 16], HEX_BYTES[src[i] % 16]];
    }
    assert src[..|src|] == src;
  }

  lemma HexDigitByte(d: nat)
    requires d < 16
    ensures HEX_BYTES[d] == HexChar(d) as int
  {
  }

  lemma AsciiAppend(s: string, t: string)
    ensures Ascii(s + t) == Ascii(s) + Ascii(t)
  {
  }

  lemma HexOfByte(b: byte)
    ensures Ascii(ToHex([b])) == [HEX_BYTES[b / 16], HEX_BYTES[b % 16]]
  {
    HexDigitByte(b / 16);
    HexDigitByte(b % 16);
    assert ToHex([b]) == [HexChar(b / 16), HexChar(b % 16)] + ToHex([]);
  }

  /** The in-place loop and the text conversion produce the same digits. */
  lemma {:induction false} HexBytesIsAsciiHex(src: seq<byte>)
    ensures HexBytes(src) == Ascii(ToHex(src))
  {
    if src != [] {
      hide Ascii, ToHex;
      var init, last := src[..|src| - 1], src[|src| - 1];
      HexBytesIsAsciiHex(init);
      assert src == init + [last];
      ToHexAppend(init, [last]);
      AsciiAppend(ToHex(init), ToHex([last]));
      HexOfByte(last);
    }
  }

  lemma AsciiInjective(s: string, t: string)
    requires forall i :: 0 <= i < |s| ==> s[i] < 128 as char
    requires forall i :: 0 <= i < |t| ==> t[i] < 128 as char
    requires Ascii(s) == Ascii(t)
    ensures s == t
  {
    forall i | 0 <= i < |s|
      ensures s[i] == t[i]
    {
      assert Ascii(s)[i] == Ascii(t)[i];
      assert s[i] as int == t[i] as int;
    }
  }

  lemma HexBytesInjective(a: seq<byte>, b: seq<byte>)
    requires HexBytes(a) == HexBytes(b)
    ensures a == b
  {
    HexBytesIsAsciiHex(a);
    HexBytesIsAsciiHex(b);
    AsciiInjective(ToHex(a), ToHex(b));
    ToHexInjective(a, b);
  }

  /** The byte string the contract asks for. */
  function ExpectedBytes(payload: seq<byte>): seq<byte> {
    Ascii(PREFIX) + HexBytes(payload)
  }

  /** Verifier::verify with its panics as errors. `signatureValid` is the host's Ed25519 answer for the key,
      the message and the signature; the host panics on a bad one. */
  method Verify(payload: seq<byte>, keyData: seq<byte>, message: seq<byte>, signatureValid: bool)
    returns (r: Result<bool>)
    ensures r.Ok? ==> r.value
    ensures r.Ok? <==>
              |keyData| == 32 && |payload| == PAYLOAD_LEN && message == ExpectedBytes(payload) && signatureValid
  {
    if |keyData| != 32 {
      return Err("key_data must be 32 bytes");
    }
    if |message| != TOTAL_LEN {
      return Err("prefixed_message has wrong length");
    }
    if message[0..PREFIX_LEN] != Ascii(PREFIX) {
      return Err("prefixed_message missing required prefix");
    }
    if |payload| != PAYLOAD_LEN {
      return Err("signature_payload must be 32 bytes");
    }
    var expectedHex := new byte[HEX_LEN](_ => 0);
    HexEncode(expectedHex, payload);
    assert expectedHex[..] == HexBytes(payload);
    assert |Ascii(PREFIX)| == PREFIX_LEN;
    assert message == message[0..PREFIX_LEN] + message[PREFIX_LEN..TOTAL_LEN];
    assert ExpectedBytes(payload)[PREFIX_LEN..TOTAL_LEN] == HexBytes(payload);
    if message[PREFIX_LEN..TOTAL_LEN] != expectedHex[..] {
      return Err("prefixed_message hex does not match payload");
    }
    if !signatureValid {
      return Err("invalid signature");
    }
    return Ok(true);
  }

  lemma GateBytes(message: string, digest: seq<byte>)
    requires message == PREFIX + ToHex(digest)
    ensures Ascii(message) == ExpectedBytes(digest)
  {
    HexBytesIsAsciiHex(digest);
    assert Ascii(message) == Ascii(PREFIX) + Ascii(ToHex(digest));
  }

  lemma WantedIsAscii(digest: seq<byte>)
    ensures forall i :: 0 <= i < |PREFIX + ToHex(digest)| ==> (PREFIX + ToHex(digest))[i] as int < 128
  {
    assert forall i :: 0 <= i < |ToHex(digest)| ==> IsLowerHexChar(ToHex(digest)[i]);
    assert forall i :: 0 <= i < |PREFIX| ==> PREFIX[i] as int < 128;
  }

  /** The two implementations agree on every text: it passes the gate for a digest exactly when its bytes are what
      the contract asks for. */
  lemma GateAgreesWithContract(message: string, digest: Bytes32)
    ensures GateAccepts(message, digest) <==> Utf8(message) == ExpectedBytes(digest)
  {
    GateExactly(message, digest);
    var wanted := PREFIX + ToHex(digest);
    GateBytes(wanted, digest);
    WantedIsAscii(digest);
    Utf8OfAscii(wanted);
    if Utf8(message) == ExpectedBytes(digest) {
      assert forall i :: 0 <= i < |wanted| ==> Ascii(wanted)[i] == wanted[i] as int;
      AsciiOnly(message);
      Utf8OfAscii(message);
      AsciiInjective(message, wanted);
    }
  }

  /** One message authorises one payload. */
  lemma ContractMessageNamesOnePayload(p: seq<byte>, q: seq<byte>)
    requires ExpectedBytes(p) == ExpectedBytes(q)
    ensures p == q
  {
    assert ExpectedBytes(p)[|PREFIX|..] == HexBytes(p);
    assert ExpectedBytes(q)[|PREFIX|..] == HexBytes(q);
    HexBytesInjective(p, q);
  }
}
