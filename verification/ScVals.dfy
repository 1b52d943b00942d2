/** The XDR (RFC 4506) encoding of the contract values the routes build and sign, as a printer and a
    parser that are proved inverse to each other in both directions. */
module ScVals {
  import opened Bytes

  const TWO_32: nat := 0x1_0000_0000
  const TWO_63: nat := 0x8000_0000_0000_0000
  const TWO_64: nat := 0x1_0000_0000_0000_0000

  type u32 = x: int | 0 <= x < TWO_32
  type i64 = x: int | -0x8000_0000_0000_0000 <= x < 0x8000_0000_0000_0000

  datatype ScAddress = Account(key: Bytes32) | Contract(id: Bytes32)

  datatype ScVal =
    | Void
    | U32(u: u32)
    | I64(i: i64)
    | Bytes(bytes: seq<byte>)
    | Symbol(name: seq<byte>)
    | NullVec                          // the absent case of the optional array
    | Vec(vals: seq<ScVal>)
    | NullMap
    | Map(entries: seq<ScMapEntry>)
    | Address(address: ScAddress)

  datatype ScMapEntry = ScMapEntry(key: ScVal, val: ScVal)

  const SYMBOL_LIMIT := 32

  /** The values that have an encoding: lengths fit in 32 bits and symbols in 32 bytes. */
  predicate Valid(v: ScVal) {
    match v
    case Bytes(b) => |b| < TWO_32
    case Symbol(s) => |s| <= SYMBOL_LIMIT
    case Vec(vs) => |vs| < TWO_32 && ValidVals(vs)
    case Map(es) => |es| < TWO_32 && ValidEntries(es)
    case _ => true
  }

  predicate ValidVals(vs: seq<ScVal>) {
    vs == [] || (Valid(vs[0]) && ValidVals(vs[1..]))
  }

  predicate ValidEntry(e: ScMapEntry) {
    Valid(e.key) && Valid(e.val)
  }

  predicate ValidEntries(es: seq<ScMapEntry>) {
    es == [] || (ValidEntry(es[0]) && ValidEntries(es[1..]))
  }

  // ---------------------------------------------------------------------------------------------
  // Scalars (sections 4.1, 4.5, 4.10 of RFC 4506)
  // ---------------------------------------------------------------------------------------------

  function EncodeU32(n: u32): (b: seq<byte>)
    ensures |b| == 4
  {
    ToBE(n, 4)
  }

  function DecodeU32(b: seq<byte>): Decoded<u32> {
    if |b| < 4 then Fail
    else
      Pow256At4And8();
      FromBEBound(b[..4]);
      Done(FromBE(b[..4]), b[4..])
  }

  lemma Pow256At4And8()
    ensures Pow256(4) == TWO_32 && Pow256(8) == TWO_64
  {
  }

  lemma U32RoundTrip(n: u32, rest: seq<byte>)
    ensures DecodeU32(EncodeU32(n) + rest) == Done(n, rest)
  {
    Pow256At4And8();
    FromToBE(n, 4);
    assert (EncodeU32(n) + rest)[..4] == EncodeU32(n);
    assert (EncodeU32(n) + rest)[4..] == rest;
  }

  lemma U32Sound(b: seq<byte>)
    requires DecodeU32(b).Done?
    ensures b == EncodeU32(DecodeU32(b).item) + DecodeU32(b).rest
  {
    ToFromBE(b[..4]);
    assert b == b[..4] + b[4..];
  }

  /** Two's complement. */
  function EncodeI64(i: i64): (b: seq<byte>)
    ensures |b| == 8
  {
    ToBE(if i < 0 then i + TWO_64 else i, 8)
  }

  function DecodeI64(b: seq<byte>): Decoded<i64> {
    if |b| < 8 then Fail
    else
      Pow256At4And8();
      FromBEBound(b[..8]);
      var n := FromBE(b[..8]);
      Done(if n < TWO_63 then n else n - TWO_64, b[8..])
  }

  lemma I64RoundTrip(i: i64, rest: seq<byte>)
    ensures DecodeI64(EncodeI64(i) + rest) == Done(i, rest)
  {
    Pow256At4And8();
    FromToBE(if i < 0 then i + TWO_64 else i, 8);
    assert (EncodeI64(i) + rest)[..8] == EncodeI64(i);
    assert (EncodeI64(i) + rest)[8..] == rest;
  }

  lemma I64Sound(b: seq<byte>)
    requires DecodeI64(b).Done?
    ensures b == EncodeI64(DecodeI64(b).item) + DecodeI64(b).rest
  {
    Pow256At4And8();
    FromBEBound(b[..8]);
    ToFromBE(b[..8]);
    assert b == b[..8] + b[8..];
  }

  function Pad(n: nat): (k: nat)
    ensures k < 4 && (4 + n + k) % 4 == 0
  {
    (4 - n % 4) % 4
  }

  /** Variable-length opaque data: length, bytes, zero padding to a multiple of four. */
  function EncodeOpaque(b: seq<byte>): (e: seq<byte>)
    requires |b| < TWO_32
    ensures |e| == 4 + |b| + Pad(|b|) && |e| % 4 == 0
  {
    EncodeU32(|b|) + b + ZeroBytes(Pad(|b|))
  }

  function DecodeOpaque(b: seq<byte>, limit: nat): (d: Decoded<seq<byte>>)
    ensures d.Done? ==> |d.rest| < |b| && |d.item| <= limit && |d.item| < TWO_32
  {
    var (n, rest) :- DecodeU32(b);
    if n > limit || |rest| < n + Pad(n) || rest[n..n + Pad(n)] != ZeroBytes(Pad(n)) then Fail
    else Done(rest[..n], rest[n + Pad(n)..])
  }

  lemma OpaqueRoundTrip(b: seq<byte>, limit: nat, rest: seq<byte>)
    requires |b| < TWO_32 && |b| <= limit
    ensures DecodeOpaque(EncodeOpaque(b) + rest, limit) == Done(b, rest)
  {
    var n, tail := |b|, b + ZeroBytes(Pad(|b|)) + rest;
    assert EncodeOpaque(b) + rest == EncodeU32(n) + tail;
    U32RoundTrip(n, tail);
    assert tail[..n] == b && tail[n..n + Pad(n)] == ZeroBytes(Pad(n)) && tail[n + Pad(n)..] == rest;
  }

  lemma OpaqueSound(b: seq<byte>, limit: nat)
    requires DecodeOpaque(b, limit).Done?
    ensures b == EncodeOpaque(DecodeOpaque(b, limit).item) + DecodeOpaque(b, limit).rest
  {
    U32Sound(b);
    var Done(n, rest) := DecodeU32(b);
    assert rest == rest[..n] + rest[n..n + Pad(n)] + rest[n + Pad(n)..];
  }

  function DecodeFixed32(b: seq<byte>): Decoded<Bytes32> {
    if |b| < 32 then Fail else Done(b[..32], b[32..])
  }

  lemma Fixed32RoundTrip(k: Bytes32, rest: seq<byte>)
    ensures DecodeFixed32(k + rest) == Done(k, rest)
  {
    assert (k + rest)[..32] == k && (k + rest)[32..] == rest;
  }

  // ---------------------------------------------------------------------------------------------
  // Addresses: ACCOUNT (0) with an Ed25519 key (0), or CONTRACT (1)
  // ---------------------------------------------------------------------------------------------

  function EncodeAddress(a: ScAddress): (b: seq<byte>)
    ensures |b| % 4 == 0 && |b| >= 4
  {
    match a
    case Account(key) => EncodeU32(0) + EncodeU32(0) + key
    case Contract(id) => EncodeU32(1) + id
  }

  function DecodeAddress(b: seq<byte>): (d: Decoded<ScAddress>)
    ensures d.Done? ==> |d.rest| < |b|
  {
    var (kind, b1) :- DecodeU32(b);
    if kind == 0 then
      var (keyType, b2) :- DecodeU32(b1);
      if keyType != 0 then Fail
      else
        var (key, b3) :- DecodeFixed32(b2);
        Done(Account(key), b3)
    else if kind == 1 then
      var (id, b2) :- DecodeFixed32(b1);
      Done(Contract(id), b2)
    else Fail
  }

  lemma AddressRoundTrip(a: ScAddress, rest: seq<byte>)
    ensures DecodeAddress(EncodeAddress(a) + rest) == Done(a, rest)
  {
    match a
    case Account(key) =>
      assert EncodeAddress(a) + rest == EncodeU32(0) + (EncodeU32(0) + (key + rest));
      U32RoundTrip(0, EncodeU32(0) + (key + rest));
      U32RoundTrip(0, key + rest);
      Fixed32RoundTrip(key, rest);
    case Contract(id) =>
      assert EncodeAddress(a) + rest == EncodeU32(1) + (id + rest);
      U32RoundTrip(1, id + rest);
      Fixed32RoundTrip(id, rest);
  }

  lemma AddressSound(b: seq<byte>)
    requires DecodeAddress(b).Done?
    ensures b == EncodeAddress(DecodeAddress(b).item) + DecodeAddress(b).rest
  {
    U32Sound(b);
    var Done(kind, b1) := DecodeU32(b);
    if kind == 0 {
      U32Sound(b1);
      var b2 := DecodeU32(b1).rest;
      assert b2 == b2[..32] + b2[32..];
    } else {
      assert b1 == b1[..32] + b1[32..];
    }
  }

  // ---------------------------------------------------------------------------------------------
  // Values
  // ---------------------------------------------------------------------------------------------

  /** The discriminants of SCValType. */
  function Tag(v: ScVal): u32 {
    match v
    case Void => 1
    case U32(_) => 3
    case I64(_) => 6
    case Bytes(_) => 13
    case Symbol(_) => 15
    case NullVec => 16
    case Vec(_) => 16
    case NullMap => 17
    case Map(_) => 17
    case Address(_) => 18
  }

  function Encode(v: ScVal): (b: seq<byte>)
    requires Valid(v)
    ensures |b| >= 4
    decreases v, 1
  {
    EncodeU32(Tag(v)) + Body(v)
  }

  function Body(v: ScVal): seq<byte>
    requires Valid(v)
    decreases v, 0
  {
    match v
    case Void => []
    case U32(u) => EncodeU32(u)
    case I64(i) => EncodeI64(i)
    case Bytes(s) => EncodeOpaque(s)
    case Symbol(s) => EncodeOpaque(s)
    case NullVec => EncodeU32(0)
    case Vec(vs) => EncodeU32(1) + EncodeU32(|vs|) + EncodeVals(vs)
    case NullMap => EncodeU32(0)
    case Map(es) => EncodeU32(1) + EncodeU32(|es|) + EncodeEntries(es)
    case Address(a) => EncodeAddress(a)
  }

  function EncodeVals(vs: seq<ScVal>): seq<byte>
    requires ValidVals(vs)
    decreases vs
  {
    if vs == [] then [] else Encode(vs[0]) + EncodeVals(vs[1..])
  }

  function EncodeEntry(e: ScMapEntry): seq<byte>
    requires ValidEntry(e)
    decreases e
  {
    Encode(e.key) + Encode(e.val)
  }

  function EncodeEntries(es: seq<ScMapEntry>): seq<byte>
    requires ValidEntries(es)
    decreases es
  {
    if es == [] then [] else EncodeEntry(es[0]) + EncodeEntries(es[1..])
  }

  function Decode(b: seq<byte>): (d: Decoded<ScVal>)
    ensures d.Done? ==> |d.rest| < |b|
    decreases |b|, 1
  {
    var (tag, rest) :- DecodeU32(b);
    DecodeBody(tag, rest)
  }

  function DecodeBody(tag: u32, b: seq<byte>): (d: Decoded<ScVal>)
    ensures d.Done? ==> |d.rest| <= |b|
    decreases |b|, 5
  {
    if tag == 1 then Done(Void, b)
    else if tag == 3 then
      var (u, rest) :- DecodeU32(b);
      Done(U32(u), rest)
    else if tag == 6 then
      var (i, rest) :- DecodeI64(b);
      Done(I64(i), rest)
    else if tag == 13 then
      var (s, rest) :- DecodeOpaque(b, TWO_32 - 1);
      Done(Bytes(s), rest)
    else if tag == 15 then
      var (s, rest) :- DecodeOpaque(b, SYMBOL_LIMIT);
      Done(Symbol(s), rest)
    else if tag == 16 then
      var (count, items) :- DecodeCount(b);
      if count.None? then Done(NullVec, items)
      else
        var (vs, rest) :- DecodeVals(count.value, items);
        Done(Vec(vs), rest)
    else if tag == 17 then
      var (count, items) :- DecodeCount(b);
      if count.None? then Done(NullMap, items)
      else
        var (es, rest) :- DecodeEntries(count.value, items);
        Done(Map(es), rest)
    else if tag == 18 then
      var (a, rest) :- DecodeAddress(b);
      Done(Address(a), rest)
    else Fail
  }

  /** The flag of an optional array (section 4.19), 0 or 1, and the element count after a 1. */
  function DecodeCount(b: seq<byte>): (d: Decoded<Option<u32>>)
    ensures d.Done? ==> |d.rest| < |b|
  {
    var (flag, b1) :- DecodeU32(b);
    if flag == 0 then Done(None, b1)
    else if flag == 1 then
      var (n, b2) :- DecodeU32(b1);
      Done(Some(n), b2)
    else Fail
  }

  function DecodeVals(n: nat, b: seq<byte>): (d: Decoded<seq<ScVal>>)
    ensures d.Done? ==> |d.rest| <= |b| && |d.item| == n
    decreases |b|, 2
  {
    if n == 0 then Done([], b)
    else
      var (v, b1) :- Decode(b);
      var (vs, b2) :- DecodeVals(n - 1, b1);
      Done([v] + vs, b2)
  }

  function DecodeEntry(b: seq<byte>): (d: Decoded<ScMapEntry>)
    ensures d.Done? ==> |d.rest| < |b|
    decreases |b|, 2
  {
    var (key, b1) :- Decode(b);
    var (val, b2) :- Decode(b1);
    Done(ScMapEntry(key, val), b2)
  }

  function DecodeEntries(n: nat, b: seq<byte>): (d: Decoded<seq<ScMapEntry>>)
    ensures d.Done? ==> |d.rest| <= |b| && |d.item| == n
    decreases |b|, 3
  {
    if n == 0 then Done([], b)
    else
      var (e, b1) :- DecodeEntry(b);
      var (es, b2) :- DecodeEntries(n - 1, b1);
      Done([e] + es, b2)
  }

  // ---------------------------------------------------------------------------------------------
  // Completeness: the parser reads back what the printer wrote, and stops where it stopped
  // ---------------------------------------------------------------------------------------------

  lemma {:induction false} RoundTrip(v: ScVal, rest: seq<byte>)
    requires Valid(v)
    ensures Decode(Encode(v) + rest) == Done(v, rest)
    decreases v, 1
  {
    assert Encode(v) + rest == EncodeU32(Tag(v)) + (Body(v) + rest);
    U32RoundTrip(Tag(v), Body(v) + rest);
    BodyRoundTrip(v, rest);
  }

  lemma {:induction false} BodyRoundTrip(v: ScVal, rest: seq<byte>)
    requires Valid(v)
    ensures DecodeBody(Tag(v), Body(v) + rest) == Done(v, rest)
    decreases v, 0
  {
    hide EncodeU32, DecodeU32, EncodeI64, DecodeI64, EncodeOpaque, DecodeOpaque, EncodeAddress, DecodeAddress,
         EncodeVals, DecodeVals, EncodeEntries, DecodeEntries;
    match v
    case Void => assert Body(v) + rest == rest;
    case U32(u) => U32RoundTrip(u, rest);
    case I64(i) => I64RoundTrip(i, rest);
    case Bytes(s) => OpaqueRoundTrip(s, TWO_32 - 1, rest);
    case Symbol(s) => OpaqueRoundTrip(s, SYMBOL_LIMIT, rest);
    case NullVec => U32RoundTrip(0, rest);
    case Vec(vs) =>
      CountRoundTrip(|vs|, EncodeVals(vs), rest);
      ValsRoundTrip(vs, rest);
    case NullMap => U32RoundTrip(0, rest);
    case Map(es) =>
      CountRoundTrip(|es|, EncodeEntries(es), rest);
      EntriesRoundTrip(es, rest);
    case Address(a) => AddressRoundTrip(a, rest);
  }

  lemma CountRoundTrip(n: u32, items: seq<byte>, rest: seq<byte>)
    ensures DecodeCount(EncodeU32(1) + EncodeU32(n) + items + rest) == Done(Some(n), items + rest)
  {
    assert EncodeU32(1) + EncodeU32(n) + items + rest == EncodeU32(1) + (EncodeU32(n) + (items + rest));
    U32RoundTrip(1, EncodeU32(n) + (items + rest));
    U32RoundTrip(n, items + rest);
  }

  lemma {:induction false} ValsRoundTrip(vs: seq<ScVal>, rest: seq<byte>)
    requires ValidVals(vs)
    ensures DecodeVals(|vs|, EncodeVals(vs) + rest) == Done(vs, rest)
    decreases vs
  {
    if vs == [] {
      assert EncodeVals(vs) + rest == rest;
    } else {
      var b1 := EncodeVals(vs[1..]) + rest;
      Regroup(Encode(vs[0]), EncodeVals(vs[1..]), rest);
      RoundTrip(vs[0], b1);
      ValsRoundTrip(vs[1..], rest);
      assert vs == [vs[0]] + vs[1..];
    }
  }

  lemma {:induction false} EntryRoundTrip(e: ScMapEntry, rest: seq<byte>)
    requires ValidEntry(e)
    ensures DecodeEntry(EncodeEntry(e) + rest) == Done(e, rest)
    decreases e
  {
    assert EncodeEntry(e) + rest == Encode(e.key) + (Encode(e.val) + rest);
    RoundTrip(e.key, Encode(e.val) + rest);
    RoundTrip(e.val, rest);
  }

  lemma {:induction false} EntriesRoundTrip(es: seq<ScMapEntry>, rest: seq<byte>)
    requires ValidEntries(es)
    ensures DecodeEntries(|es|, EncodeEntries(es) + rest) == Done(es, rest)
    decreases es
  {
    if es == [] {
      assert EncodeEntries(es) + rest == rest;
    } else {
      var b1 := EncodeEntries(es[1..]) + rest;
      Regroup(EncodeEntry(es[0]), EncodeEntries(es[1..]), rest);
      EntryRoundTrip(es[0], b1);
      EntriesRoundTrip(es[1..], rest);
      assert es == [es[0]] + es[1..];
    }
  }

  // ---------------------------------------------------------------------------------------------
  // Soundness: the parser accepts nothing but encodings
  // ---------------------------------------------------------------------------------------------

  lemma {:induction false} Sound(b: seq<byte>)
    requires Decode(b).Done?
    ensures Valid(Decode(b).item)
    ensures b == Encode(Decode(b).item) + Decode(b).rest
    decreases |b|, 1
  {
    U32Sound(b);
    var Done(tag, body) := DecodeU32(b);
    BodySound(tag, body);
    var Done(v, rest) := DecodeBody(tag, body);
    Regroup(EncodeU32(tag), Body(v), rest);
  }

  lemma {:induction false} BodySound(tag: u32, b: seq<byte>)
    requires DecodeBody(tag, b).Done?
    ensures var Done(v, rest) := DecodeBody(tag, b);
            Valid(v) && tag == Tag(v) && b == Body(v) + rest
    decreases |b|, 5
  {
    if tag == 3 {
      U32Sound(b);
    } else if tag == 6 {
      I64Sound(b);
    } else if tag == 13 {
      OpaqueSound(b, TWO_32 - 1);
    } else if tag == 15 {
      OpaqueSound(b, SYMBOL_LIMIT);
    } else if tag == 16 {
      VecSound(b);
    } else if tag == 17 {
      MapSound(b);
    } else if tag == 18 {
      AddressSound(b);
    }
  }

  lemma {:induction false} VecSound(b: seq<byte>)
    requires DecodeBody(16, b).Done?
    ensures var Done(v, rest) := DecodeBody(16, b);
            Valid(v) && Tag(v) == 16 && b == Body(v) + rest
    decreases |b|, 4
  {
    CountSound(b);
    var Done(count, items) := DecodeCount(b);
    if count.Some? {
      ValsSound(count.value, items);
      var Done(vs, rest) := DecodeVals(count.value, items);
      Regroup(EncodeU32(1) + EncodeU32(count.value), EncodeVals(vs), rest);
    }
  }

  lemma {:induction false} MapSound(b: seq<byte>)
    requires DecodeBody(17, b).Done?
    ensures var Done(v, rest) := DecodeBody(17, b);
            Valid(v) && Tag(v) == 17 && b == Body(v) + rest
    decreases |b|, 4
  {
    CountSound(b);
    var Done(count, items) := DecodeCount(b);
    if count.Some? {
      EntriesSound(count.value, items);
      var Done(es, rest) := DecodeEntries(count.value, items);
      Regroup(EncodeU32(1) + EncodeU32(count.value), EncodeEntries(es), rest);
    }
  }

  lemma CountSound(b: seq<byte>)
    requires DecodeCount(b).Done?
    ensures var Done(count, rest) := DecodeCount(b);
            b == (if count.Some? then EncodeU32(1) + EncodeU32(count.value) else EncodeU32(0)) + rest
  {
    U32Sound(b);
    var Done(flag, rest) := DecodeU32(b);
    if flag == 1 {
      U32Sound(rest);
    }
  }

  lemma {:induction false} ValsSound(n: nat, b: seq<byte>)
    requires DecodeVals(n, b).Done?
    ensures var Done(vs, rest) := DecodeVals(n, b);
            ValidVals(vs) && b == EncodeVals(vs) + rest
    decreases |b|, 2
  {
    if n > 0 {
      Sound(b);
      var Done(v, b1) := Decode(b);
      ValsSound(n - 1, b1);
      var Done(vs, rest) := DecodeVals(n - 1, b1);
      ValsCons(v, vs);
      Regroup(Encode(v), EncodeVals(vs), rest);
    }
  }

  lemma ValsCons(v: ScVal, vs: seq<ScVal>)
    requires Valid(v) && ValidVals(vs)
    ensures ValidVals([v] + vs) && EncodeVals([v] + vs) == Encode(v) + EncodeVals(vs)
  {
    assert ([v] + vs)[1..] == vs;
  }

  lemma {:induction false} EntrySound(b: seq<byte>)
    requires DecodeEntry(b).Done?
    ensures var Done(e, rest) := DecodeEntry(b);
            ValidEntry(e) && b == EncodeEntry(e) + rest
    decreases |b|, 2
  {
    Sound(b);
    Sound(Decode(b).rest);
  }

  lemma EntriesCons(e: ScMapEntry, es: seq<ScMapEntry>)
    requires ValidEntry(e) && ValidEntries(es)
    ensures ValidEntries([e] + es) && EncodeEntries([e] + es) == EncodeEntry(e) + EncodeEntries(es)
  {
    assert ([e] + es)[1..] == es;
  }

  lemma {:induction false} EntriesSound(n: nat, b: seq<byte>)
    requires DecodeEntries(n, b).Done?
    ensures var Done(es, rest) := DecodeEntries(n, b);
            ValidEntries(es) && b == EncodeEntries(es) + rest
    decreases |b|, 3
  {
    if n > 0 {
      EntrySound(b);
      var Done(e, b1) := DecodeEntry(b);
      EntriesSound(n - 1, b1);
      var Done(es, rest) := DecodeEntries(n - 1, b1);
      EntriesCons(e, es);
      Regroup(EncodeEntry(e), EncodeEntries(es), rest);
    }
  }

  /** The language of the parser is exactly the encodings: a grammar and its unambiguous printer. */
  lemma DecodeExactly(b: seq<byte>, v: ScVal, rest: seq<byte>)
    ensures Decode(b) == Done(v, rest) <==> Valid(v) && b == Encode(v) + rest
  {
    if Decode(b) == Done(v, rest) {
      Sound(b);
    }
    if Valid(v) && b == Encode(v) + rest {
      RoundTrip(v, rest);
    }
  }

  /** No encoding is the beginning of another one, so neither are two values encoded alike. */
  lemma PrefixFree(v: ScVal, restV: seq<byte>, w: ScVal, restW: seq<byte>)
    requires Valid(v) && Valid(w)
    requires Encode(v) + restV == Encode(w) + restW
    ensures v == w && restV == restW
  {
    RoundTrip(v, restV);
    RoundTrip(w, restW);
  }

  lemma Injective(v: ScVal, w: ScVal)
    requires Valid(v) && Valid(w)
    ensures Encode(v) == Encode(w) <==> v == w
  {
    if Encode(v) == Encode(w) {
      PrefixFree(v, [], w, []);
    }
  }

  lemma AlignedSum(m: nat, n: nat)
    requires m % 4 == 0 && n % 4 == 0
    ensures (m + n) % 4 == 0
  {
  }

  /** Every encoding is a whole number of four-byte units. */
  lemma {:induction false} Aligned(v: ScVal)
    requires Valid(v)
    ensures |Encode(v)| % 4 == 0
    decreases v
  {
    hide EncodeU32, EncodeI64, EncodeOpaque, EncodeAddress, EncodeVals, EncodeEntries;
    match v {
      case Vec(vs) =>
        ValsAligned(vs);
        AlignedSum(8, |EncodeVals(vs)|);
        assert |Body(v)| == 8 + |EncodeVals(vs)|;
      case Map(es) =>
        EntriesAligned(es);
        AlignedSum(8, |EncodeEntries(es)|);
        assert |Body(v)| == 8 + |EncodeEntries(es)|;
      case _ =>
    }
    AlignedSum(4, |Body(v)|);
  }

  lemma {:induction false} ValsAligned(vs: seq<ScVal>)
    requires ValidVals(vs)
    ensures |EncodeVals(vs)| % 4 == 0
    decreases vs
  {
    if vs != [] {
      Aligned(vs[0]);
      ValsAligned(vs[1..]);
      AlignedSum(|Encode(vs[0])|, |EncodeVals(vs[1..])|);
    }
  }

  lemma {:induction false} EntryAligned(e: ScMapEntry)
    requires ValidEntry(e)
    ensures |EncodeEntry(e)| % 4 == 0
    decreases e
  {
    Aligned(e.key);
    Aligned(e.val);
    AlignedSum(|Encode(e.key)|, |Encode(e.val)|);
  }

  lemma {:induction false} EntriesAligned(es: seq<ScMapEntry>)
    requires ValidEntries(es)
    ensures |EncodeEntries(es)| % 4 == 0
    decreases es
  {
    if es != [] {
      EntryAligned(es[0]);
      EntriesAligned(es[1..]);
      AlignedSum(|EncodeEntry(es[0])|, |EncodeEntries(es[1..])|);
    }
  }

  // ---------------------------------------------------------------------------------------------
  // The bytes themselves
  // ---------------------------------------------------------------------------------------------

  lemma SmallU32(n: u32)
    requires n < 256
    ensures EncodeU32(n) == [0, 0, 0, n]
  {
    assert ToBE(0, 3) == [0, 0, 0] by {
      assert ToBE(0, 1) == [0];
    }
  }

  lemma ShortOpaque(b: seq<byte>)
    requires |b| < 4
    ensures EncodeOpaque(b) == [0, 0, 0, |b|] + b + ZeroBytes((4 - |b|) % 4)
  {
    SmallU32(|b|);
  }

  /** The rule ids of every flow but the passkey's, on the wire: a present vector of one U32. */
  lemma RuleIdZeroBytes()
    ensures Valid(Vec([U32(0)]))
    ensures Encode(Vec([U32(0)])) == [0, 0, 0, 16, 0, 0, 0, 1, 0, 0, 0, 1, 0, 0, 0, 3, 0, 0, 0, 0]
  {
    hide EncodeU32;
    SmallU32(0);
    SmallU32(1);
    SmallU32(3);
    SmallU32(16);
    assert [U32(0)][1..] == [];
    assert EncodeVals([U32(0)]) == [0, 0, 0, 3] + [0, 0, 0, 0];
    assert Body(Vec([U32(0)])) == [0, 0, 0, 1] + [0, 0, 0, 1] + ([0, 0, 0, 3] + [0, 0, 0, 0]);
  }

  /** One value of each kind that stands on its own. */
  lemma LeafBytes(key: Bytes32, name: seq<byte>)
    requires |name| == 2
    ensures Encode(Void) == [0, 0, 0, 1] && Encode(NullVec) == [0, 0, 0, 16, 0, 0, 0, 0]
    ensures Encode(I64(-1)) == [0, 0, 0, 6, 255, 255, 255, 255, 255, 255, 255, 255]
    ensures Encode(Bytes(name)) == [0, 0, 0, 13, 0, 0, 0, 2] + name + [0, 0]
    ensures Encode(Symbol(name)) == [0, 0, 0, 15, 0, 0, 0, 2] + name + [0, 0]
    ensures Encode(Address(Account(key))) == [0, 0, 0, 18, 0, 0, 0, 0, 0, 0, 0, 0] + key
    ensures Encode(Address(Contract(key))) == [0, 0, 0, 18, 0, 0, 0, 1] + key
  {
    hide EncodeU32, EncodeOpaque;
    SmallU32(0);
    SmallU32(1);
    SmallU32(6);
    SmallU32(13);
    SmallU32(15);
    SmallU32(16);
    SmallU32(18);
    ShortOpaque(name);
    MinusOneBytes();
  }

  lemma MinusOneBytes()
    ensures EncodeI64(-1) == [255, 255, 255, 255, 255, 255, 255, 255]
  {
    var half: seq<byte> := [255, 255, 255, 255];
    Pow256At4And8();
    assert FromBE(half) == TWO_32 - 1 by {
      assert half[..2] == [255, 255] && half[2..] == [255, 255] && half == half[..2] + half[2..];
      assert [255, 255][..1] == [255] && FromBE([255, 255]) == 0xffff;
      FromBEAppend(half[..2], half[2..]);
    }
    FromBEAppend(half, half);
    ToFromBE(half + half);
  }

  /** A map of one entry. */
  lemma MapBytes(e: ScMapEntry)
    requires ValidEntry(e)
    ensures Valid(Map([e]))
    ensures Encode(Map([e])) == [0, 0, 0, 17, 0, 0, 0, 1, 0, 0, 0, 1] + Encode(e.key) + Encode(e.val)
  {
    hide EncodeU32, Encode;
    SmallU32(1);
    SmallU32(17);
    EntriesCons(e, []);
    assert [e] == [e] + [];
    assert Body(Map([e])) == [0, 0, 0, 1] + [0, 0, 0, 1] + (Encode(e.key) + Encode(e.val));
    OfTagAndBody(Map([e]));
  }

  lemma OfTagAndBody(v: ScVal)
    requires Valid(v)
    ensures Encode(v) == EncodeU32(Tag(v)) + Body(v)
  {
  }
}
