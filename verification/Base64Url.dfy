/** The two hand-written base64url codecs (lib/webauthn.ts and lib/webauthn-server.ts are the same code)
    and the key data they build: section 5 of RFC 4648 over Node's base64 reader and writer. */
module Base64Url {
  import opened Bytes

  type sextet = x: int | 0 <= x < 64

  function StdChar(d: sextet): (c: char)
    ensures CharValue(c) == Some(d) && c != '=' && c != '-' && c != '_'
  {
    if d < 26 then 'A' + d as char
    else if d < 52 then 'a' + (d - 26) as char
    else if d < 62 then '0' + (d - 52) as char
    else if d == 62 then '+' else '/'
  }

  /** Node's reader takes the symbols of both alphabets. */
  function CharValue(c: char): Option<sextet> {
    if 'A' <= c <= 'Z' then Some(c as int - 'A' as int)
    else if 'a' <= c <= 'z' then Some(c as int - 'a' as int + 26)
    else if '0' <= c <= '9' then Some(c as int - '0' as int + 52)
    else if c == '+' || c == '-' then Some(62)
    else if c == '/' || c == '_' then Some(63)
    else None
  }

  // ---------------------------------------------------------------------------------------------
  // Text: the regular-expression replacements
  // ---------------------------------------------------------------------------------------------

  function Replace(s: string, from: char, to: char): (t: string)
    ensures |t| == |s|
  {
    seq(|s|, i requires 0 <= i < |s| => if s[i] == from then to else s[i])
  }

  function Without(s: string, c: char): string {
    if s == "" then "" else (if s[0] == c then "" else [s[0]]) + Without(s[1..], c)
  }

  // ---------------------------------------------------------------------------------------------
  // Encoding and decoding
  // ---------------------------------------------------------------------------------------------

  /** Three bytes make four symbols, two make three, one makes two. */
  function Unpack(b: seq<byte>): (v: seq<sextet>)
    ensures |v| == |b| + (|b| + 2) / 3
  {
    if b == [] then []
    else if |b| == 1 then [b[0] / 4, b[0] % 4 * 16]
    else if |b| == 2 then [b[0] / 4, b[0] % 4 * 16 + b[1] / 16, b[1] % 16 * 4]
    else [b[0] / 4, b[0] % 4 * 16 + b[1] / 16, b[1] % 16 * 4 + b[2] / 64, b[2] % 64] + Unpack(b[3..])
  }

  function StdText(v: seq<sextet>): string {
    if v == [] then "" else [StdChar(v[0])] + StdText(v[1..])
  }

  function Padding(n: nat): string {
    if n % 3 == 1 then "==" else if n % 3 == 2 then "=" else ""
  }

  /** Buffer.toString("base64"), padding included. */
  function Base64(b: seq<byte>): string {
    StdText(Unpack(b)) + Padding(|b|)
  }

  function ToBase64Url(b: seq<byte>): string {
    Without(Replace(Replace(Base64(b), '+', '-'), '/', '_'), '=')
  }

  /** The symbols of a text; characters that are no symbol are passed over. */
  function Symbols(s: string): seq<sextet> {
    if s == "" then []
    else
      var v := CharValue(s[0]);
      (if v.Some? then [v.value] else []) + Symbols(s[1..])
  }

  /** Four symbols make three bytes, three make two, two make one; a single one left over is dropped. */
  function Pack(v: seq<sextet>): seq<byte> {
    if |v| < 2 then []
    else if |v| == 2 then [Byte0(v[0], v[1])]
    else if |v| == 3 then [Byte0(v[0], v[1]), Byte1(v[1], v[2])]
    else [Byte0(v[0], v[1]), Byte1(v[1], v[2]), Byte2(v[2], v[3])] + Pack(v[4..])
  }

  function Byte0(a: int, b: int): byte
    requires 0 <= a < 64 && 0 <= b < 64
  {
    a * 4 + b / 16
  }

  function Byte1(b: int, c: int): byte
    requires 0 <= b < 64 && 0 <= c < 64
  {
    b % 16 * 16 + c / 4
  }

  function Byte2(c: int, d: int): byte
    requires 0 <= c < 64 && 0 <= d < 64
  {
    c % 4 * 64 + d
  }

  function FromBase64Url(s: string): seq<byte> {
    Pack(Symbols(Replace(Replace(s, '-', '+'), '_', '/')))
  }

  // ---------------------------------------------------------------------------------------------
  // Round trips
  // ---------------------------------------------------------------------------------------------

  function UrlChar(d: sextet): (c: char)
    ensures CharValue(c) == Some(d)
    ensures c != '+' && c != '/' && c != '='
  {
    if d == 62 then '-' else if d == 63 then '_' else StdChar(d)
  }

  function UrlText(v: seq<sextet>): (s: string)
    ensures |s| == |v|
    ensures forall i :: 0 <= i < |v| ==> s[i] == UrlChar(v[i])
  {
    seq(|v|, i requires 0 <= i < |v| => UrlChar(v[i]))
  }

  function Urlify(s: string): string {
    Without(Replace(Replace(s, '+', '-'), '/', '_'), '=')
  }

  lemma {:induction false} WithoutAppend(s: string, t: string, c: char)
    ensures Without(s + t, c) == Without(s, c) + Without(t, c)
  {
    if s == "" {
      assert s + t == t;
    } else {
      var head := if s[0] == c then "" else [s[0]];
      WithoutAppend(s[1..], t, c);
      assert (s + t)[1..] == s[1..] + t;
      assert head + (Without(s[1..], c) + Without(t, c)) == head + Without(s[1..], c) + Without(t, c);
    }
  }

  lemma UrlifyAppend(s: string, t: string)
    ensures Urlify(s + t) == Urlify(s) + Urlify(t)
  {
    assert Replace(s + t, '+', '-') == Replace(s, '+', '-') + Replace(t, '+', '-');
    var s1, t1 := Replace(s, '+', '-'), Replace(t, '+', '-');
    assert Replace(s1 + t1, '/', '_') == Replace(s1, '/', '_') + Replace(t1, '/', '_');
    WithoutAppend(Replace(s1, '/', '_'), Replace(t1, '/', '_'), '=');
  }

  lemma UrlifyChar(d: sextet)
    ensures Urlify([StdChar(d)]) == [UrlChar(d)]
  {
    var t := Replace(Replace([StdChar(d)], '+', '-'), '/', '_');
    assert t == [UrlChar(d)];
    assert Without(t, '=') == [UrlChar(d)] + Without(t[1..], '=');
  }

  lemma UrlifyPadding(n: nat)
    ensures Urlify(Padding(n)) == ""
  {
    var p := Padding(n);
    assert Replace(Replace(p, '+', '-'), '/', '_') == p;
    assert Without("=", '=') == Without("", '=');
    if |p| == 2 {
      assert p[1..] == "=";
    }
  }

  lemma {:induction false} UrlifyStdText(v: seq<sextet>)
    ensures Urlify(StdText(v)) == UrlText(v)
  {
    if v == [] {
      UrlifyPadding(0);
    } else {
      UrlifyStdText(v[1..]);
      UrlifyAppend([StdChar(v[0])], StdText(v[1..]));
      UrlifyChar(v[0]);
      assert UrlText(v) == [UrlChar(v[0])] + UrlText(v[1..]);
    }
  }

  /** The replacements over padded base64 leave exactly the symbols of the URL-safe alphabet. */
  lemma EncodeIsUrlText(b: seq<byte>)
    ensures ToBase64Url(b) == UrlText(Unpack(b))
  {
    UrlifyAppend(StdText(Unpack(b)), Padding(|b|));
    UrlifyPadding(|b|);
    UrlifyStdText(Unpack(b));
  }

  lemma SymbolsIgnoreAlphabet(s: string)
    ensures Symbols(Replace(Replace(s, '-', '+'), '_', '/')) == Symbols(s)
  {
    var t := Replace(Replace(s, '-', '+'), '_', '/');
    if s != "" {
      SymbolsIgnoreAlphabet(s[1..]);
      assert t[1..] == Replace(Replace(s[1..], '-', '+'), '_', '/');
      assert CharValue(t[0]) == CharValue(s[0]);
    }
  }

  lemma {:induction false} SymbolsOfUrlText(v: seq<sextet>)
    ensures Symbols(UrlText(v)) == v
  {
    if v != [] {
      assert UrlText(v)[1..] == UrlText(v[1..]);
      SymbolsOfUrlText(v[1..]);
    }
  }

  lemma {:induction false} PackUnpack(b: seq<byte>)
    ensures Pack(Unpack(b)) == b
  {
    if |b| >= 3 {
      PackUnpack(b[3..]);
      assert Unpack(b)[4..] == Unpack(b[3..]);
      assert b == [b[0], b[1], b[2]] + b[3..];
    }
  }

  /** Decoding undoes encoding for byte strings of every length, and the text is URL-safe and unpadded. */
  lemma DecodeEncode(b: seq<byte>)
    ensures FromBase64Url(ToBase64Url(b)) == b
    ensures forall i :: 0 <= i < |ToBase64Url(b)| ==> ToBase64Url(b)[i] !in {'+', '/', '='}
  {
    EncodeIsUrlText(b);
    SymbolsIgnoreAlphabet(ToBase64Url(b));
    SymbolsOfUrlText(Unpack(b));
    PackUnpack(b);
  }

  lemma Base64Group(a: byte, b: byte, c: byte, rest: seq<byte>)
    ensures Base64([a, b, c] + rest) ==
            [StdChar(a / 4), StdChar(a % 4 * 16 + b / 16), StdChar(b % 16 * 4 + c / 64), StdChar(c % 64)] + Base64(rest)
  {
    hide StdChar, Unpack, StdText;
    UnpackGroup(a, b, c, rest);
    var v := Unpack([a, b, c] + rest);
    StdTextOfTwo(v);
    StdTextOfTwo(v[2..]);
    assert v[2..][2..] == Unpack(rest);
  }

  lemma StdTextCons(v: seq<sextet>)
    requires v != []
    ensures StdText(v) == [StdChar(v[0])] + StdText(v[1..])
  {
  }

  lemma StdTextOfTwo(v: seq<sextet>)
    requires |v| >= 2
    ensures StdText(v) == [StdChar(v[0]), StdChar(v[1])] + StdText(v[2..])
  {
    hide StdChar;
    var tail := v[1..];
    assert tail[0] == v[1] && tail[1..] == v[2..];
    StdTextCons(tail);
    StdTextCons(v);
  }

  lemma FooText()
    ensures StdChar(25) == 'Z' && StdChar(38) == 'm' && StdChar(61) == '9' && StdChar(47) == 'v'
    ensures StdChar(24) == 'Y' && StdChar(32) == 'g' && StdChar(4) == 'E'
  {
  }

  lemma ShortText(a: byte, b: byte)
    ensures Base64([]) == "" && Base64([a]) == [StdChar(a / 4), StdChar(a % 4 * 16)] + "=="
    ensures Base64([a, b]) == [StdChar(a / 4), StdChar(a % 4 * 16 + b / 16), StdChar(b % 16 * 4)] + "="
  {
    hide StdChar;
    var v := Unpack([a, b]);
    StdTextOfTwo(Unpack([a]));
    StdTextOfTwo(v);
    assert v[2..][1..] == [] && StdText(v[2..]) == [StdChar(v[2])] + "";
  }

  /** Test vectors of section 10 of RFC 4648, with their padding. */
  lemma Vectors()
    ensures Base64([0x66, 0x6f, 0x6f]) == "Zm9v"
    ensures Base64([0x66, 0x6f, 0x6f, 0x62]) == "Zm9vYg==" && Base64([0x66, 0x6f, 0x6f, 0x62, 0x61]) == "Zm9vYmE="
  {
    hide Base64, Unpack, StdChar;
    FooText();
    var foo: seq<byte> := [0x66, 0x6f, 0x6f];
    ShortText(0x62, 0x61);
    Base64Group(0x66, 0x6f, 0x6f, []);
    Base64Group(0x66, 0x6f, 0x6f, [0x62]);
    Base64Group(0x66, 0x6f, 0x6f, [0x62, 0x61]);
    assert foo + [] == foo && foo + [0x62] == [0x66, 0x6f, 0x6f, 0x62];
    assert foo + [0x62, 0x61] == [0x66, 0x6f, 0x6f, 0x62, 0x61];
  }

  /** The two symbols in which the alphabets differ, and no padding. */
  lemma UrlVector()
    ensures ToBase64Url([0xfb, 0xff]) == "-_8"
  {
    EncodeIsUrlText([0xfb, 0xff]);
    hide ToBase64Url;
    assert Unpack([0xfb, 0xff]) == [62, 63, 60];
  }

  /** A canonical text (section 3.5 of RFC 4648): only URL-safe symbols, no single symbol left over, and
      the bits that no byte uses are zero. */
  predicate Canonical(s: string) {
    && (forall i :: 0 <= i < |s| ==> CharValue(s[i]).Some? && s[i] != '+' && s[i] != '/')
    && |s| % 4 != 1
    && (|s| % 4 == 2 ==> CharValue(s[|s| - 1]).value % 16 == 0)
    && (|s| % 4 == 3 ==> CharValue(s[|s| - 1]).value % 4 == 0)
  }

  predicate CanonicalSymbols(v: seq<sextet>) {
    && |v| % 4 != 1
    && (|v| % 4 == 2 ==> v[|v| - 1] % 16 == 0)
    && (|v| % 4 == 3 ==> v[|v| - 1] % 4 == 0)
  }

  lemma GroupBack(a: sextet, b: sextet, c: sextet, d: sextet)
    ensures Byte0(a, b) / 4 == a
    ensures Byte0(a, b) % 4 * 16 + Byte1(b, c) / 16 == b
    ensures Byte1(b, c) % 16 * 4 + Byte2(c, d) / 64 == c
    ensures Byte2(c, d) % 64 == d
    ensures b % 16 == 0 ==> Byte0(a, b) % 4 * 16 == b
    ensures c % 4 == 0 ==> Byte1(b, c) % 16 * 4 == c
  {
    assert Byte0(a, b) % 4 == b / 16;
    assert Byte1(b, c) % 16 == c / 4;
  }

  lemma UnpackGroup(a: byte, b: byte, c: byte, rest: seq<byte>)
    ensures Unpack([a, b, c] + rest) == [a / 4, a % 4 * 16 + b / 16, b % 16 * 4 + c / 64, c % 64] + Unpack(rest)
  {
    assert ([a, b, c] + rest)[3..] == rest;
  }

  lemma UnpackPackGroup(a: sextet, b: sextet, c: sextet, d: sextet, v: seq<sextet>)
    ensures Unpack(Pack([a, b, c, d] + v)) == [a, b, c, d] + Unpack(Pack(v))
  {
    var b0, b1, b2 := Byte0(a, b), Byte1(b, c), Byte2(c, d);
    assert Pack([a, b, c, d] + v) == [b0, b1, b2] + Pack(v) by {
      assert ([a, b, c, d] + v)[4..] == v;
    }
    UnpackGroup(b0, b1, b2, Pack(v));
    GroupBack(a, b, c, d);
  }

  lemma {:induction false} UnpackPack(v: seq<sextet>)
    requires CanonicalSymbols(v)
    ensures Unpack(Pack(v)) == v
  {
    hide Byte0, Byte1, Byte2;
    if |v| >= 4 {
      UnpackPack(v[4..]);
      UnpackPackGroup(v[0], v[1], v[2], v[3], v[4..]);
      assert v == [v[0], v[1], v[2], v[3]] + v[4..];
    } else if |v| > 1 {
      GroupBack(v[0], v[1], if |v| == 3 then v[2] else 0, 0);
    }
  }

  lemma CanonicalGroup(group: seq<sextet>, rest: seq<sextet>)
    requires |group| == 4 && CanonicalSymbols(rest)
    ensures CanonicalSymbols(group + rest)
  {
    var v := group + rest;
    if rest != [] {
      assert v[|v| - 1] == rest[|rest| - 1];
    }
  }

  lemma {:induction false} UnpackCanonical(b: seq<byte>)
    ensures CanonicalSymbols(Unpack(b))
  {
    if |b| >= 3 {
      var rest := b[3..];
      UnpackCanonical(rest);
      CanonicalGroup(Unpack(b)[..4], Unpack(rest));
      assert Unpack(b) == Unpack(b)[..4] + Unpack(rest);
    } else if |b| == 2 {
      assert b[1] % 16 * 4 % 4 == 0;
    } else if |b| == 1 {
      assert b[0] % 4 * 16 % 16 == 0;
    }
  }

  lemma UrlCharOfValue(c: char)
    requires CharValue(c).Some? && c != '+' && c != '/'
    ensures UrlChar(CharValue(c).value) == c
  {
  }

  lemma {:induction false} SymbolsOfCanonical(s: string)
    requires forall i :: 0 <= i < |s| ==> CharValue(s[i]).Some? && s[i] != '+' && s[i] != '/'
    ensures |Symbols(s)| == |s| && UrlText(Symbols(s)) == s
  {
    if s != "" {
      SymbolsOfCanonical(s[1..]);
      UrlCharOfValue(s[0]);
      assert UrlText(Symbols(s)) == [s[0]] + UrlText(Symbols(s[1..]));
    }
  }

  lemma CanonicalSymbolsOf(s: string)
    requires Canonical(s)
    ensures CanonicalSymbols(Symbols(s)) && UrlText(Symbols(s)) == s
  {
    SymbolsOfCanonical(s);
    if s != "" {
      assert UrlText(Symbols(s))[|s| - 1] == UrlChar(Symbols(s)[|s| - 1]);
    }
  }

  lemma CanonicalText(v: seq<sextet>)
    requires CanonicalSymbols(v)
    ensures Canonical(UrlText(v))
  {
    if v != [] {
      assert UrlText(v)[|v| - 1] == UrlChar(v[|v| - 1]);
    }
  }

  /** Encoding undoes decoding exactly on the canonical texts. */
  lemma EncodeDecode(s: string)
    ensures ToBase64Url(FromBase64Url(s)) == s <==> Canonical(s)
  {
    var b := FromBase64Url(s);
    EncodeIsUrlText(b);
    SymbolsIgnoreAlphabet(s);
    if Canonical(s) {
      CanonicalSymbolsOf(s);
      UnpackPack(Symbols(s));
    }
    UnpackCanonical(b);
    CanonicalText(Unpack(b));
  }

  lemma DecodeInjective(s: string, t: string)
    requires Canonical(s) && Canonical(t)
    requires FromBase64Url(s) == FromBase64Url(t)
    ensures s == t
  {
    EncodeDecode(s);
    EncodeDecode(t);
  }

  // ---------------------------------------------------------------------------------------------
  // Key data
  // ---------------------------------------------------------------------------------------------

  const PUBKEY_SIZE := 65

  /** Public key and credential id, as the browser (buildKeyData) and registration finish both join them. */
  function BuildKeyData(publicKey: seq<byte>, credentialId: string): seq<byte> {
    publicKey + FromBase64Url(credentialId)
  }

  /** Cutting at 65 recovers both halves, and the halves are all there is: with canonical ids, equal key
      data means the same key and the same credential. */
  lemma KeyDataInjective(p1: seq<byte>, id1: string, p2: seq<byte>, id2: string)
    requires |p1| == PUBKEY_SIZE && |p2| == PUBKEY_SIZE && Canonical(id1) && Canonical(id2)
    ensures BuildKeyData(p1, id1)[..PUBKEY_SIZE] == p1
    ensures ToBase64Url(BuildKeyData(p1, id1)[PUBKEY_SIZE..]) == id1
    ensures BuildKeyData(p1, id1) == BuildKeyData(p2, id2) <==> p1 == p2 && id1 == id2
  {
    EncodeDecode(id1);
    EncodeDecode(id2);
    assert BuildKeyData(p1, id1)[PUBKEY_SIZE..] == FromBase64Url(id1);
    assert BuildKeyData(p2, id2)[..PUBKEY_SIZE] == p2;
    assert BuildKeyData(p2, id2)[PUBKEY_SIZE..] == FromBase64Url(id2);
  }
}
