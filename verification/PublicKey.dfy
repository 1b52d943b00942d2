/** Three ways to read a P-256 public key out of a registration: fixed offsets in authenticator data,
    a byte pattern in the attestation object, and a CBOR decoding of the COSE key. */
module PublicKey {
  import opened Bytes
  import Base64Url

  /** Reading past the end of a buffer gives undefined, which bit operations take for 0. */
  function At(b: seq<byte>, i: nat): byte {
    if i < |b| then b[i] else 0
  }

  function Uncompressed(x: seq<byte>, y: seq<byte>): seq<byte> {
    [0x04] + x + y
  }

  // ---------------------------------------------------------------------------------------------
  // CBOR (section 3 of RFC 8949): integers, byte strings and maps
  // ---------------------------------------------------------------------------------------------

  datatype Item =
    | UInt(n: nat)
    | NInt(m: nat)                      // the number -1 - m
    | ByteStr(bytes: seq<byte>)
    | Map(entries: seq<Entry>)

  datatype Entry = Entry(key: Item, val: Item)

  predicate Valid(i: Item) {
    match i
    case UInt(n) => n < TWO_64
    case NInt(m) => m < TWO_64
    case ByteStr(b) => |b| < TWO_64
    case Map(es) => |es| < TWO_64 && ValidEntries(es)
  }

  predicate ValidEntries(es: seq<Entry>) {
    if es == [] then true
    else
      var e := es[0];
      assert e in es && e.key < e && e.val < e;
      Valid(e.key) && Valid(e.val) && ValidEntries(es[1..])
  }

  const TWO_64: nat := 0x1_0000_0000_0000_0000

  /** 0, 1, 2 or 3: the argument takes 1, 2, 4 or 8 bytes after the initial byte. */
  function SizeClass(n: nat): nat {
    if n < 0x100 then 0 else if n < 0x1_0000 then 1 else if n < 0x1_0000_0000 then 2 else 3
  }

  function Width(c: nat): nat {
    if c == 0 then 1 else if c == 1 then 2 else if c == 2 then 4 else 8
  }

  lemma WidthFits(n: nat)
    requires n < TWO_64
    ensures n < Pow256(Width(SizeClass(n)))
  {
    assert Pow256(1) == 0x100 && Pow256(2) == 0x1_0000 && Pow256(4) == 0x1_0000_0000;
    assert Pow256(8) == TWO_64;
  }

  /** Major type and argument, in the shortest form. */
  function EncodeHead(major: nat, n: nat): (b: seq<byte>)
    requires major < 8 && n < TWO_64
    ensures |b| > 0
  {
    if n < 24 then [32 * major + n] else [32 * major + 24 + SizeClass(n)] + ToBE(n, Width(SizeClass(n)))
  }

  function Encode(i: Item): (b: seq<byte>)
    requires Valid(i)
    ensures |b| > 0
    decreases i
  {
    match i
    case UInt(n) => EncodeHead(0, n)
    case NInt(m) => EncodeHead(1, m)
    case ByteStr(b) => EncodeHead(2, |b|) + b
    case Map(es) => EncodeHead(5, |es|) + EncodeEntries(es)
  }

  function EncodeEntries(es: seq<Entry>): seq<byte>
    requires ValidEntries(es)
    decreases es
  {
    if es == [] then []
    else
      var e := es[0];
      assert e in es && e.key < e && e.val < e;
      Encode(e.key) + Encode(e.val) + EncodeEntries(es[1..])
  }

  function DecodeHead(b: seq<byte>): (d: Decoded<(nat, nat)>)
    ensures d.Done? ==> |d.rest| < |b|
  {
    if b == [] then Fail
    else
      var major, info := b[0] / 32, b[0] % 32;
      if info < 24 then Done((major, info), b[1..])
      else
        var width := Width(info - 24);
        if info > 27 || |b| < 1 + width then Fail
        else Done((major, FromBE(b[1..1 + width])), b[1 + width..])
  }

  function Decode(b: seq<byte>): (d: Decoded<Item>)
    ensures d.Done? ==> |d.rest| < |b|
    decreases |b|, 0
  {
    var ((major, n), rest) :- DecodeHead(b);
    if major == 0 then Done(UInt(n), rest)
    else if major == 1 then Done(NInt(n), rest)
    else if major == 2 then (if |rest| < n then Fail else Done(ByteStr(rest[..n]), rest[n..]))
    else if major == 5 then
      var (es, rest') :- DecodeEntries(n, rest);
      Done(Map(es), rest')
    else Fail
  }

  function DecodeEntries(n: nat, b: seq<byte>): (d: Decoded<seq<Entry>>)
    ensures d.Done? ==> |d.rest| <= |b|
    decreases |b|, 1
  {
    if n == 0 then Done([], b)
    else
      var (key, b1) :- Decode(b);
      var (val, b2) :- Decode(b1);
      var (es, b3) :- DecodeEntries(n - 1, b2);
      Done([Entry(key, val)] + es, b3)
  }

  lemma HeadRoundTrip(major: nat, n: nat, rest: seq<byte>)
    requires major < 8 && n < TWO_64
    ensures DecodeHead(EncodeHead(major, n) + rest) == Done((major, n), rest)
  {
    var b := EncodeHead(major, n) + rest;
    if n >= 24 {
      var width := Width(SizeClass(n));
      WidthFits(n);
      FromToBE(n, width);
      assert b[0] / 32 == major && b[0] % 32 == 24 + SizeClass(n);
      assert b[1..1 + width] == ToBE(n, width);
      assert b[1 + width..] == rest;
    } else {
      assert b[1..] == rest;
    }
  }

  lemma {:induction false} RoundTrip(i: Item, rest: seq<byte>)
    requires Valid(i)
    ensures Decode(Encode(i) + rest) == Done(i, rest)
    decreases i
  {
    match i
    case UInt(n) => HeadRoundTrip(0, n, rest);
    case NInt(m) => HeadRoundTrip(1, m, rest);
    case ByteStr(b) =>
      Regroup(EncodeHead(2, |b|), b, rest);
      HeadRoundTrip(2, |b|, b + rest);
    case Map(es) =>
      Regroup(EncodeHead(5, |es|), EncodeEntries(es), rest);
      HeadRoundTrip(5, |es|, EncodeEntries(es) + rest);
      EntriesRoundTrip(es, rest);
  }

  lemma {:induction false} EntriesRoundTrip(es: seq<Entry>, rest: seq<byte>)
    requires ValidEntries(es)
    ensures DecodeEntries(|es|, EncodeEntries(es) + rest) == Done(es, rest)
    decreases es
  {
    hide Encode, Decode, EncodeHead, DecodeHead;
    if es == [] {
      assert EncodeEntries(es) + rest == rest;
    } else {
      var b2 := EncodeEntries(es[1..]) + rest;
      var b1 := Encode(es[0].val) + b2;
      var e := es[0];
      Regroup(Encode(e.key) + Encode(e.val), EncodeEntries(es[1..]), rest);
      Regroup(Encode(e.key), Encode(e.val), b2);
      assert e in es && e.key < e && e.val < e;
      RoundTrip(e.key, b1);
      RoundTrip(e.val, b2);
      EntriesRoundTrip(es[1..], rest);
      assert es == [es[0]] + es[1..];
    }
  }

  // ---------------------------------------------------------------------------------------------
  // COSE keys: coseEc2ToRawP256Uncompressed
  // ---------------------------------------------------------------------------------------------

  /** The value under a label; a repeated label keeps its last value. */
  function Lookup(es: seq<Entry>, name: Item): Option<Item> {
    if es == [] then None
    else if es[|es| - 1].key == name then Some(es[|es| - 1].val)
    else Lookup(es[..|es| - 1], name)
  }

  /** What is found is under the last entry with that label, and nothing exactly when no entry has it. */
  lemma {:induction false} LookupFindsLast(es: seq<Entry>, name: Item)
    ensures Lookup(es, name).None? <==> forall i :: 0 <= i < |es| ==> es[i].key != name
    ensures Lookup(es, name).Some? ==>
              exists i :: 0 <= i < |es| && es[i] == Entry(name, Lookup(es, name).value)
                          && forall j :: i < j < |es| ==> es[j].key != name
  {
    if es != [] {
      var n := |es| - 1;
      LookupFindsLast(es[..n], name);
      if es[n].key == name {
        assert es[n] == Entry(name, Lookup(es, name).value);
      } else if Lookup(es[..n], name).Some? {
        var i :| 0 <= i < n && es[..n][i] == Entry(name, Lookup(es[..n], name).value)
                 && forall j :: i < j < n ==> es[..n][j].key != name;
        assert es[i] == es[..n][i];
        assert forall j :: i < j < n ==> es[j] == es[..n][j];
      }
    }
  }

  predicate IsCoordinate(v: Option<Item>) {
    v.Some? && v.value.ByteStr? && |v.value.bytes| == 32
  }

  /** None where the reader throws: undecodable or trailing bytes, no map, a coordinate missing or not 32 bytes. */
  function FromCose(cose: seq<byte>): (key: Option<seq<byte>>)
    ensures key.Some? ==> |key.value| == Base64Url.PUBKEY_SIZE && key.value[0] == 0x04
  {
    match Decode(cose)
    case Fail => None
    case Done(item, rest) =>
      if rest != [] || !item.Map? then None
      else
        var x, y := Lookup(item.entries, NInt(1)), Lookup(item.entries, NInt(2));
        if IsCoordinate(x) && IsCoordinate(y) then Some(Uncompressed(x.value.bytes, y.value.bytes)) else None
  }

  /** On every encoded map the reader answers exactly when labels -2 and -3 hold 32 bytes, and with those. */
  lemma FromCoseOfMap(es: seq<Entry>)
    requires Valid(Map(es))
    ensures var x, y := Lookup(es, NInt(1)), Lookup(es, NInt(2));
            FromCose(Encode(Map(es))) ==
              if IsCoordinate(x) && IsCoordinate(y) then Some(Uncompressed(x.value.bytes, y.value.bytes)) else None
  {
    RoundTrip(Map(es), []);
    assert Encode(Map(es)) + [] == Encode(Map(es));
  }

  /** kty 2 (EC2), alg -7 (ES256), crv 1 (P-256), x and y: section 7.1.1 of RFC 9053. */
  function Es256Key(x: Bytes32, y: Bytes32): Item {
    Map([Entry(UInt(1), UInt(2)), Entry(UInt(3), NInt(6)), Entry(NInt(0), UInt(1)),
         Entry(NInt(1), ByteStr(x)), Entry(NInt(2), ByteStr(y))])
  }

  const COSE_PREFIX: seq<byte> := [0xa5, 0x01, 0x02, 0x03, 0x26, 0x20, 0x01, 0x21, 0x58, 0x20]

  /** The 77 bytes of a canonical ES256 key. */
  function CanonicalKey(x: Bytes32, y: Bytes32): (b: seq<byte>)
    ensures |b| == 77
    ensures b[0] == 0xa5
  {
    COSE_PREFIX + x + [0x22, 0x58, 0x20] + y
  }

  lemma EntriesCons(e: Entry, es: seq<Entry>)
    requires Valid(e.key) && Valid(e.val)
    requires ValidEntries(es)
    ensures ValidEntries([e] + es)
    ensures EncodeEntries([e] + es) == Encode(e.key) + Encode(e.val) + EncodeEntries(es)
  {
    assert ([e] + es)[1..] == es;
  }

  lemma ByteString32(b: Bytes32)
    ensures Valid(ByteStr(b)) && Encode(ByteStr(b)) == [0x58, 0x20] + b
  {
    assert ToBE(32, 1) == ToBE(0, 0) + [32];
  }

  lemma CoordinateEntries(x: Bytes32, y: Bytes32)
    ensures var es := [Entry(NInt(1), ByteStr(x)), Entry(NInt(2), ByteStr(y))];
            ValidEntries(es) && EncodeEntries(es) == [0x21, 0x58, 0x20] + x + [0x22, 0x58, 0x20] + y
  {
    ByteString32(x);
    ByteString32(y);
    var ey := Entry(NInt(2), ByteStr(y));
    EntriesCons(ey, []);
    EntriesCons(Entry(NInt(1), ByteStr(x)), [ey]);
    assert [ey] == [ey] + [];
    assert EncodeEntries([ey]) == [0x22] + ([0x58, 0x20] + y);
    assert [Entry(NInt(1), ByteStr(x))] + [ey] == [Entry(NInt(1), ByteStr(x)), ey];
  }

  lemma HeaderEntries(es: seq<Entry>)
    requires ValidEntries(es)
    ensures var all := [Entry(UInt(1), UInt(2))] + ([Entry(UInt(3), NInt(6))] + ([Entry(NInt(0), UInt(1))] + es));
            ValidEntries(all) && EncodeEntries(all) == [0x01, 0x02, 0x03, 0x26, 0x20, 0x01] + EncodeEntries(es)
  {
    var es1 := [Entry(NInt(0), UInt(1))] + es;
    var es2 := [Entry(UInt(3), NInt(6))] + es1;
    EntriesCons(Entry(NInt(0), UInt(1)), es);
    EntriesCons(Entry(UInt(3), NInt(6)), es1);
    EntriesCons(Entry(UInt(1), UInt(2)), es2);
  }

  lemma EncodeMap(es: seq<Entry>)
    requires ValidEntries(es) && |es| == 5
    ensures Valid(Map(es)) && Encode(Map(es)) == [0xa5] + EncodeEntries(es)
  {
  }

  lemma CanonicalKeyBytes(x: Bytes32, y: Bytes32)
    ensures CanonicalKey(x, y) ==
              [0xa5] + ([0x01, 0x02, 0x03, 0x26, 0x20, 0x01] + ([0x21, 0x58, 0x20] + x + [0x22, 0x58, 0x20] + y))
  {
  }

  lemma CanonicalKeyIsCbor(x: Bytes32, y: Bytes32)
    ensures Valid(Es256Key(x, y)) && Encode(Es256Key(x, y)) == CanonicalKey(x, y)
  {
    var coordinates := [Entry(NInt(1), ByteStr(x)), Entry(NInt(2), ByteStr(y))];
    CoordinateEntries(x, y);
    HeaderEntries(coordinates);
    var es := [Entry(UInt(1), UInt(2))] + ([Entry(UInt(3), NInt(6))] + ([Entry(NInt(0), UInt(1))] + coordinates));
    EncodeMap(es);
    CanonicalKeyBytes(x, y);
    assert Es256Key(x, y).entries == es;
  }

  lemma FromCoseCanonical(x: Bytes32, y: Bytes32)
    ensures FromCose(CanonicalKey(x, y)) == Some(Uncompressed(x, y))
  {
    CanonicalKeyIsCbor(x, y);
    var es := Es256Key(x, y).entries;
    FromCoseOfMap(es);
    assert Lookup(es, NInt(2)) == Some(ByteStr(y));
    assert es[..4][3] == es[3];
    assert Lookup(es[..4], NInt(1)) == Some(ByteStr(x));
  }

  // ---------------------------------------------------------------------------------------------
  // Browser paths 2 and 3 of extractPublicKey
  // ---------------------------------------------------------------------------------------------

  /** Path 2: the key follows the credential id, whose length is at 53..55. */
  function FromAuthData(authData: seq<byte>): Option<seq<byte>> {
    var credIdLen: nat := 256 * At(authData, 53) as int + At(authData, 54);
    var cose := Slice(authData, 55 + credIdLen, |authData|);
    if |cose| >= 77 then Some(Uncompressed(cose[10..42], cose[45..77])) else None
  }

  predicate OccursAt(b: seq<byte>, pattern: seq<byte>, i: nat) {
    i + |pattern| <= |b| && b[i..i + |pattern|] == pattern
  }

  /** Buffer.indexOf: the first occurrence at or after `from`. */
  function IndexOf(b: seq<byte>, pattern: seq<byte>, from: nat): (r: Option<nat>)
    ensures r.Some? ==> from <= r.value && OccursAt(b, pattern, r.value)
    ensures forall i :: from <= i && (r.Some? ==> i < r.value) ==> !OccursAt(b, pattern, i)
    decreases |b| - from
  {
    if from + |pattern| > |b| then None
    else if OccursAt(b, pattern, from) then Some(from)
    else IndexOf(b, pattern, from + 1)
  }

  /** Path 3: the coordinates are taken 10 and 45 bytes after the first occurrence of the prefix.
      The slices are clamped and their lengths are not checked. */
  function FromAttestation(att: seq<byte>): Option<seq<byte>> {
    var idx := IndexOf(att, COSE_PREFIX, 0);
    if idx.None? then None
    else
      var start := idx.value + |COSE_PREFIX|;
      Some(Uncompressed(Slice(att, start, start + 32), Slice(att, start + 35, start + 67)))
  }

  /** extractPublicKey. `spki` is the decoded publicKey field and `imported` what the browser's key import and
      export made of it (None where it threw); None in the result is the final throw. */
  function Extract(spki: Option<seq<byte>>, imported: Option<seq<byte>>,
                   authData: Option<seq<byte>>, att: Option<seq<byte>>): Option<seq<byte>> {
    if spki.Some? && IsRawKey(spki.value) then spki
    else if spki.Some? && imported.Some? && IsRawKey(imported.value) then imported
    else if authData.Some? && FromAuthData(authData.value).Some? then FromAuthData(authData.value)
    else if att.Some? then FromAttestation(att.value)
    else None
  }

  predicate IsRawKey(b: seq<byte>) {
    |b| == Base64Url.PUBKEY_SIZE && b[0] == 0x04
  }

  /** Authenticator data with attested credential data (sections 6.1 and 6.5.1 of WebAuthn Level 2). */
  function AuthData(rpIdHash: Bytes32, flags: byte, signCount: nat, aaguid: seq<byte>,
                    credId: seq<byte>, key: seq<byte>, extensions: seq<byte>): seq<byte>
    requires |aaguid| == 16 && |credId| < 65536
  {
    rpIdHash + [flags] + ToBE(signCount, 4) + aaguid + ToBE(|credId|, 2) + credId + key + extensions
  }

  lemma FromAuthDataCanonical(rpIdHash: Bytes32, flags: byte, signCount: nat, aaguid: seq<byte>,
                              credId: seq<byte>, x: Bytes32, y: Bytes32, extensions: seq<byte>)
    requires |aaguid| == 16 && |credId| < 65536
    ensures FromAuthData(AuthData(rpIdHash, flags, signCount, aaguid, credId, CanonicalKey(x, y), extensions))
            == Some(Uncompressed(x, y))
  {
    var key := CanonicalKey(x, y);
    var data := AuthData(rpIdHash, flags, signCount, aaguid, credId, key, extensions);
    var len := ToBE(|credId|, 2);
    assert len == [|credId| / 256, |credId| % 256] by {
      assert ToBE(|credId| / 256, 1) == [|credId| / 256 % 256];
    }
    var front := rpIdHash + [flags] + ToBE(signCount, 4) + aaguid;
    assert data == front + len + credId + key + extensions;
    assert data[53] == len[0] && data[54] == len[1];
    assert Slice(data, 55 + |credId|, |data|) == key + extensions;
    assert (key + extensions)[10..42] == x && (key + extensions)[45..77] == y;
  }

  /** Path 3 answers with what follows the first occurrence, which gives 65 bytes exactly when 67 follow it. */
  lemma FromAttestationShape(att: seq<byte>)
    requires IndexOf(att, COSE_PREFIX, 0).Some?
    ensures var i := IndexOf(att, COSE_PREFIX, 0).value;
            |FromAttestation(att).value| == Base64Url.PUBKEY_SIZE <==> i + 77 <= |att|
  {
  }

  /** The key is the right one when nothing before it looks like the start of a key. */
  lemma FromAttestationCanonical(before: seq<byte>, x: Bytes32, y: Bytes32, after: seq<byte>)
    requires forall i :: 0 <= i < |before| ==> !OccursAt(before + CanonicalKey(x, y) + after, COSE_PREFIX, i)
    ensures FromAttestation(before + CanonicalKey(x, y) + after) == Some(Uncompressed(x, y))
  {
    var key := CanonicalKey(x, y);
    var att := before + key + after;
    var n := |before|;
    assert att[n..n + 77] == key;
    assert att[n..n + 10] == key[..10] == COSE_PREFIX;
    assert OccursAt(att, COSE_PREFIX, n);
    assert IndexOf(att, COSE_PREFIX, 0) == Some(n);
    assert Slice(att, n + 10, n + 42) == key[10..42] == x;
    assert Slice(att, n + 45, n + 77) == key[45..77] == y;
  }

  /** The bytes at i have the fixed part of an encoded ES256 key. */
  predicate KeyAt(att: seq<byte>, i: nat) {
    i + 77 <= |att| && att[i..i + 10] == COSE_PREFIX && att[i + 42..i + 45] == [0x22, 0x58, 0x20]
  }

  /** The key whose encoding starts at i. */
  function ReadAt(att: seq<byte>, i: nat): seq<byte> {
    Uncompressed(Slice(att, i + 10, i + 42), Slice(att, i + 45, i + 77))
  }

  lemma KeyAtExactlyWhen(att: seq<byte>, i: nat, x: seq<byte>, y: seq<byte>)
    requires |x| == |y| == 32
    ensures OccursAt(att, CanonicalKey(x, y), i) <==> KeyAt(att, i) && ReadAt(att, i) == Uncompressed(x, y)
  {
    if i + 77 <= |att| {
      var key := att[i..i + 77];
      SliceOfSlice(att, i, i + 77, 0, 10);
      SliceOfSlice(att, i, i + 77, 10, 42);
      SliceOfSlice(att, i, i + 77, 42, 45);
      SliceOfSlice(att, i, i + 77, 45, 77);
      assert key == key[..10] + key[10..42] + key[42..45] + key[45..];
      assert CanonicalKey(x, y)[..10] == COSE_PREFIX && CanonicalKey(x, y)[10..42] == x;
      assert CanonicalKey(x, y)[42..45] == [0x22, 0x58, 0x20] && CanonicalKey(x, y)[45..] == y;
      UncompressedInjective(key[10..42], key[45..], x, y);
    }
  }

  /** Path 3 gives every key that the attestation object holds. */
  ghost predicate ScanIsRight(att: seq<byte>) {
    forall i: nat, x: Bytes32, y: Bytes32 ::
      OccursAt(att, CanonicalKey(x, y), i) ==> FromAttestation(att) == Some(Uncompressed(x, y))
  }

  /** It does so exactly when all the encoded keys in the object carry the coordinates behind the first occurrence of
      the prefix. */
  lemma FromAttestationExactlyWhen(att: seq<byte>)
    ensures ScanIsRight(att) <==>
            forall i: nat :: KeyAt(att, i) ==>
              var first := IndexOf(att, COSE_PREFIX, 0);
              first.Some? && ReadAt(att, i) == ReadAt(att, first.value)
  {
    forall i: nat | KeyAt(att, i)
      ensures IndexOf(att, COSE_PREFIX, 0).Some?
      ensures FromAttestation(att) == Some(ReadAt(att, IndexOf(att, COSE_PREFIX, 0).value))
    {
      assert OccursAt(att, COSE_PREFIX, i);
    }
    if ScanIsRight(att) {
      forall i: nat | KeyAt(att, i)
        ensures FromAttestation(att) == Some(ReadAt(att, i))
      {
        var x: Bytes32, y: Bytes32 := att[i + 10..i + 42], att[i + 45..i + 77];
        KeyAtExactlyWhen(att, i, x, y);
        assert OccursAt(att, CanonicalKey(x, y), i);
      }
    } else {
      var i: nat, x: Bytes32, y: Bytes32 :|
        OccursAt(att, CanonicalKey(x, y), i) && FromAttestation(att) != Some(Uncompressed(x, y));
      KeyAtExactlyWhen(att, i, x, y);
    }
  }

  lemma UncompressedInjective(x1: seq<byte>, y1: seq<byte>, x2: seq<byte>, y2: seq<byte>)
    requires |x1| == |x2|
    ensures Uncompressed(x1, y1) == Uncompressed(x2, y2) <==> x1 == x2 && y1 == y2
  {
    if Uncompressed(x1, y1) == Uncompressed(x2, y2) {
      var k1, k2, n := Uncompressed(x1, y1), Uncompressed(x2, y2), 1 + |x1|;
      assert k1[1..n] == x1 && k1[n..] == y1;
      assert k2[1..n] == x2 && k2[n..] == y2;
    }
  }

  /** An attestation object of format "none" around authenticator data of 24 to 255 bytes (sections 6.5 and 8.7 of
      WebAuthn Level 2). */
  function NoneObject(authData: seq<byte>): seq<byte>
    requires 24 <= |authData| < 256
  {
    [0xa3, 0x63, 0x66, 0x6d, 0x74, 0x64, 0x6e, 0x6f, 0x6e, 0x65, 0x67, 0x61, 0x74, 0x74, 0x53, 0x74, 0x6d, 0x74, 0xa0,
     0x68, 0x61, 0x75, 0x74, 0x68, 0x44, 0x61, 0x74, 0x61, 0x58, |authData|] + authData
  }

  /** A credential id of 16 bytes that ends with the prefix that the scan looks for. */
  function LookAlikeId(): (id: seq<byte>)
    ensures |id| == 16
  {
    ZeroBytes(6) + COSE_PREFIX
  }

  function LookAlike(x: Bytes32, y: Bytes32): (data: seq<byte>)
    ensures |data| == 148
  {
    AuthData(ZeroBytes(32), 0x41, 0, ZeroBytes(16), LookAlikeId(), CanonicalKey(x, y), [])
  }

  lemma LookAlikeBytes(x: Bytes32, y: Bytes32)
    ensures LookAlike(x, y) ==
            ZeroBytes(32) + [0x41] + ZeroBytes(21) + [16] + ZeroBytes(6) + COSE_PREFIX + CanonicalKey(x, y)
  {
    hide CanonicalKey;
    assert ToBE(16, 2) == [0, 16] by {
      assert ToBE(0, 1) == [0];
    }
    assert ToBE(0, 4) == ZeroBytes(4) by {
      assert ToBE(0, 2) == [0, 0];
    }
    assert ZeroBytes(21) == ZeroBytes(4) + ZeroBytes(16) + [0];
  }

  /** Where the prefix stands first of all in front of a key, what follows it is taken for x. */
  lemma PrefixBeforeKey(front: seq<byte>, x: Bytes32, y: Bytes32)
    requires forall i :: 0 <= i < |front| ==> front[i] != 0xa5
    requires x[0] != 0xa5
    ensures var found := FromAttestation(front + COSE_PREFIX + CanonicalKey(x, y));
            found.Some? && found != Some(Uncompressed(x, y))
  {
    hide CanonicalKey;
    var n := |front|;
    var att := front + COSE_PREFIX + CanonicalKey(x, y);
    assert att[n..n + 10] == COSE_PREFIX;
    assert OccursAt(att, COSE_PREFIX, n);
    var i := IndexOf(att, COSE_PREFIX, 0).value;
    assert att[i] == att[i..i + 10][0] == 0xa5;
    assert FromAttestation(att).value[1] == att[n + 10] == CanonicalKey(x, y)[0];
    assert Uncompressed(x, y)[1] == x[0];
  }

  lemma LookAlikeMisleads(x: Bytes32, y: Bytes32)
    requires x[0] != 0xa5
    ensures var found := FromAttestation(NoneObject(LookAlike(x, y)));
            found.Some? && found != Some(Uncompressed(x, y))
  {
    hide LookAlike, CanonicalKey, FromAttestation;
    LookAlikeBytes(x, y);
    var front := NoneObject(ZeroBytes(148))[..30] + ZeroBytes(32) + [0x41] + ZeroBytes(21) + [16] + ZeroBytes(6);
    assert NoneObject(LookAlike(x, y)) == front + COSE_PREFIX + CanonicalKey(x, y);
    PrefixBeforeKey(front, x, y);
  }

  /** Such a registration misleads the scan, and only the scan: the paths of one function disagree about its key. */
  lemma FromAttestationMisled(x: Bytes32, y: Bytes32)
    requires x[0] != 0xa5
    ensures var data := LookAlike(x, y);
            var att := NoneObject(data);
            && FromAuthData(data) == FromCose(CanonicalKey(x, y)) == Some(Uncompressed(x, y))
            && FromAttestation(att).Some? && FromAttestation(att) != Some(Uncompressed(x, y))
            && Extract(None, None, Some(data), Some(att)) != Extract(None, None, None, Some(att))
  {
    hide FromCose, FromAuthData, FromAttestation, CanonicalKey, NoneObject, AuthData;
    FromCoseCanonical(x, y);
    FromAuthDataCanonical(ZeroBytes(32), 0x41, 0, ZeroBytes(16), LookAlikeId(), x, y, []);
    LookAlikeMisleads(x, y);
  }

  /** All three readers, and every way through extractPublicKey, agree: whether the publicKey field holds the raw key,
      or something the browser imports as this key, or something it does not import as a raw key, or is absent; and
      whatever the other fields hold in the first two cases. */
  lemma ExtractorsAgree(rpIdHash: Bytes32, flags: byte, signCount: nat, aaguid: seq<byte>, credId: seq<byte>,
                        x: Bytes32, y: Bytes32, extensions: seq<byte>, before: seq<byte>, after: seq<byte>,
                        spki: seq<byte>, imported: Option<seq<byte>>, other: Option<seq<byte>>,
                        authData: Option<seq<byte>>, attested: Option<seq<byte>>)
    requires |aaguid| == 16 && |credId| < 65536
    requires |spki| != 65 || spki[0] != 0x04
    requires imported.Some? ==> |imported.value| != 65 || imported.value[0] != 0x04
    requires forall i :: 0 <= i < |before| ==> !OccursAt(before + CanonicalKey(x, y) + after, COSE_PREFIX, i)
    ensures var key := CanonicalKey(x, y);
            var data := AuthData(rpIdHash, flags, signCount, aaguid, credId, key, extensions);
            var att := before + key + after;
            && FromCose(key) == Some(Uncompressed(x, y))
            && Extract(Some(Uncompressed(x, y)), other, authData, attested) == FromCose(key)
            && Extract(Some(spki), Some(Uncompressed(x, y)), authData, attested) == FromCose(key)
            && Extract(Some(spki), imported, Some(data), attested) == FromCose(key)
            && Extract(Some(spki), imported, None, Some(att)) == FromCose(key)
            && Extract(None, None, Some(data), Some(att)) == FromCose(key)
            && Extract(None, None, Some(data), None) == FromCose(key)
            && Extract(None, None, None, Some(att)) == FromCose(key)
  {
    FromCoseCanonical(x, y);
    FromAuthDataCanonical(rpIdHash, flags, signCount, aaguid, credId, x, y, extensions);
    FromAttestationCanonical(before, x, y, after);
  }

  /** Only the scan can answer with anything but 65 bytes that start with 04, and there is no answer exactly when no
      field gives one. */
  lemma ExtractShape(spki: Option<seq<byte>>, imported: Option<seq<byte>>, authData: Option<seq<byte>>,
                     att: Option<seq<byte>>)
    ensures var key := Extract(spki, imported, authData, att);
            && (key.Some? ==> IsRawKey(key.value) || (att.Some? && key == FromAttestation(att.value)))
            && (key.None? <==>
                  && (spki.Some? ==> !IsRawKey(spki.value) && (imported.Some? ==> !IsRawKey(imported.value)))
                  && (authData.Some? ==>
                        var data := authData.value; |data| < 132 + (256 * At(data, 53) as int + At(data, 54)))
                  && (att.Some? ==> forall i: nat :: !OccursAt(att.value, COSE_PREFIX, i)))
  {
  }

  /** One registration gives the browser and the server the same key data. */
  lemma SameKeyDataOnBothSides(rpIdHash: Bytes32, flags: byte, signCount: nat, aaguid: seq<byte>, credentialId: string,
                               x: Bytes32, y: Bytes32, extensions: seq<byte>, att: Option<seq<byte>>)
    requires |aaguid| == 16 && |Base64Url.FromBase64Url(credentialId)| < 65536
    ensures var key, id := CanonicalKey(x, y), Base64Url.FromBase64Url(credentialId);
            var data := AuthData(rpIdHash, flags, signCount, aaguid, id, key, extensions);
            var browser := Extract(None, None, Some(data), att);
            var server := FromCose(key);
            && browser.Some? && server.Some?
            && Base64Url.BuildKeyData(browser.value, credentialId) == Base64Url.BuildKeyData(server.value, credentialId)
            && Base64Url.BuildKeyData(server.value, credentialId) == Uncompressed(x, y) + id
  {
    FromCoseCanonical(x, y);
    FromAuthDataCanonical(rpIdHash, flags, signCount, aaguid, Base64Url.FromBase64Url(credentialId), x, y, extensions);
  }
}
