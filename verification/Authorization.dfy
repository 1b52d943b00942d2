/** Soroban authorization entries, the preimage a wallet signs (lib/soroban-auth-payload.ts) and the digest
    the smart account checks (computeAuthDigest in lib/webauthn.ts). */
module Authorization {
  import opened Bytes
  import opened ScVals

  // ---------------------------------------------------------------------------------------------
  // Invocation trees
  // ---------------------------------------------------------------------------------------------

  datatype ContractFn = ContractFn(contract: ScAddress, name: seq<byte>, args: seq<ScVal>)

  datatype Invocation = Invocation(fn: ContractFn, subs: seq<Invocation>)

  predicate ValidFn(f: ContractFn) {
    |f.name| <= SYMBOL_LIMIT && |f.args| < TWO_32 && ValidVals(f.args)
  }

  predicate ValidInvocation(i: Invocation)
    decreases i
  {
    ValidFn(i.fn) && |i.subs| < TWO_32 && ValidInvocations(i.subs)
  }

  predicate ValidInvocations(trees: seq<Invocation>)
    decreases trees
  {
    trees == [] || (ValidInvocation(trees[0]) && ValidInvocations(trees[1..]))
  }

  /** CONTRACT_FN (0), contract address, function name, arguments. */
  function EncodeFn(f: ContractFn): (b: seq<byte>)
    requires ValidFn(f)
    ensures |b| >= 4
  {
    EncodeU32(0) + (EncodeAddress(f.contract) + (EncodeOpaque(f.name) + (EncodeU32(|f.args|) + EncodeVals(f.args))))
  }

  function EncodeInvocation(i: Invocation): (b: seq<byte>)
    requires ValidInvocation(i)
    ensures |b| >= 4
    decreases i
  {
    EncodeFn(i.fn) + (EncodeU32(|i.subs|) + EncodeInvocations(i.subs))
  }

  function EncodeInvocations(trees: seq<Invocation>): seq<byte>
    requires ValidInvocations(trees)
    decreases trees
  {
    if trees == [] then [] else EncodeInvocation(trees[0]) + EncodeInvocations(trees[1..])
  }

  function DecodeFn(b: seq<byte>): (d: Decoded<ContractFn>)
    ensures d.Done? ==> |d.rest| < |b|
  {
    var (kind, b1) :- DecodeU32(b);
    if kind != 0 then Fail
    else
      var (contract, b2) :- DecodeAddress(b1);
      var (name, b3) :- DecodeOpaque(b2, SYMBOL_LIMIT);
      var (n, b4) :- DecodeU32(b3);
      var (args, b5) :- DecodeVals(n, b4);
      Done(ContractFn(contract, name, args), b5)
  }

  function DecodeInvocation(b: seq<byte>): (d: Decoded<Invocation>)
    ensures d.Done? ==> |d.rest| < |b|
    decreases |b|, 0
  {
    var (fn, b1) :- DecodeFn(b);
    var (n, b2) :- DecodeU32(b1);
    var (subs, b3) :- DecodeInvocations(n, b2);
    Done(Invocation(fn, subs), b3)
  }

  function DecodeInvocations(n: nat, b: seq<byte>): (d: Decoded<seq<Invocation>>)
    ensures d.Done? ==> |d.rest| <= |b| && |d.item| == n
    decreases |b|, 1
  {
    if n == 0 then Done([], b)
    else
      var (i, b1) :- DecodeInvocation(b);
      var (trees, b2) :- DecodeInvocations(n - 1, b1);
      Done([i] + trees, b2)
  }

  lemma FnRoundTrip(f: ContractFn, rest: seq<byte>)
    requires ValidFn(f)
    ensures DecodeFn(EncodeFn(f) + rest) == Done(f, rest)
  {
    var b4 := EncodeVals(f.args) + rest;
    var b3 := EncodeU32(|f.args|) + b4;
    var b2 := EncodeOpaque(f.name) + b3;
    var b1 := EncodeAddress(f.contract) + b2;
    assert EncodeFn(f) + rest == EncodeU32(0) + b1;
    U32RoundTrip(0, b1);
    AddressRoundTrip(f.contract, b2);
    OpaqueRoundTrip(f.name, SYMBOL_LIMIT, b3);
    U32RoundTrip(|f.args|, b4);
    ValsRoundTrip(f.args, rest);
  }

  /** Whatever the nesting, the parser reads back the tree and stops where it ends. */
  lemma {:induction false} InvocationRoundTrip(i: Invocation, rest: seq<byte>)
    requires ValidInvocation(i)
    ensures DecodeInvocation(EncodeInvocation(i) + rest) == Done(i, rest)
    decreases i
  {
    var b2 := EncodeInvocations(i.subs) + rest;
    var b1 := EncodeU32(|i.subs|) + b2;
    assert EncodeInvocation(i) + rest == EncodeFn(i.fn) + b1;
    FnRoundTrip(i.fn, b1);
    U32RoundTrip(|i.subs|, b2);
    InvocationsRoundTrip(i.subs, rest);
  }

  lemma {:induction false} InvocationsRoundTrip(trees: seq<Invocation>, rest: seq<byte>)
    requires ValidInvocations(trees)
    ensures DecodeInvocations(|trees|, EncodeInvocations(trees) + rest) == Done(trees, rest)
    decreases trees
  {
    hide EncodeInvocation, DecodeInvocation, EncodeFn, DecodeFn;
    if trees == [] {
      assert EncodeInvocations(trees) + rest == rest;
    } else {
      var b1 := EncodeInvocations(trees[1..]) + rest;
      Regroup(EncodeInvocation(trees[0]), EncodeInvocations(trees[1..]), rest);
      InvocationRoundTrip(trees[0], b1);
      InvocationsRoundTrip(trees[1..], rest);
      assert trees == [trees[0]] + trees[1..];
    }
  }

  lemma FnSound(b: seq<byte>)
    requires DecodeFn(b).Done?
    ensures var Done(f, rest) := DecodeFn(b);
            ValidFn(f) && b == EncodeFn(f) + rest
  {
    U32Sound(b);
    var b1 := DecodeU32(b).rest;
    AddressSound(b1);
    var b2 := DecodeAddress(b1).rest;
    OpaqueSound(b2, SYMBOL_LIMIT);
    var b3 := DecodeOpaque(b2, SYMBOL_LIMIT).rest;
    U32Sound(b3);
    var Done(n, b4) := DecodeU32(b3);
    ValsSound(n, b4);
    var Done(f, rest) := DecodeFn(b);
    assert b4 == EncodeVals(f.args) + rest;
    Regroup(EncodeU32(n), EncodeVals(f.args), rest);
    Regroup(EncodeOpaque(f.name), EncodeU32(n) + EncodeVals(f.args), rest);
    Regroup(EncodeAddress(f.contract), EncodeOpaque(f.name) + (EncodeU32(n) + EncodeVals(f.args)), rest);
    Regroup(EncodeU32(0), EncodeAddress(f.contract) + (EncodeOpaque(f.name) + (EncodeU32(n) + EncodeVals(f.args))),
            rest);
  }

  lemma {:induction false} InvocationSound(b: seq<byte>)
    requires DecodeInvocation(b).Done?
    ensures var Done(i, rest) := DecodeInvocation(b);
            ValidInvocation(i) && b == EncodeInvocation(i) + rest
    decreases |b|, 0
  {
    FnSound(b);
    var b1 := DecodeFn(b).rest;
    U32Sound(b1);
    var Done(n, b2) := DecodeU32(b1);
    InvocationsSound(n, b2);
    var Done(i, rest) := DecodeInvocation(b);
    Regroup(EncodeU32(n), EncodeInvocations(i.subs), rest);
    Regroup(EncodeFn(i.fn), EncodeU32(n) + EncodeInvocations(i.subs), rest);
  }

  lemma InvocationsCons(b: seq<byte>, i: Invocation, b1: seq<byte>, trees: seq<Invocation>, rest: seq<byte>)
    requires ValidInvocation(i) && ValidInvocations(trees)
    requires b == EncodeInvocation(i) + b1 && b1 == EncodeInvocations(trees) + rest
    ensures ValidInvocations([i] + trees) && b == EncodeInvocations([i] + trees) + rest
  {
    assert ([i] + trees)[1..] == trees;
    Regroup(EncodeInvocation(i), EncodeInvocations(trees), rest);
  }

  lemma {:induction false} InvocationsSound(n: nat, b: seq<byte>)
    requires DecodeInvocations(n, b).Done?
    ensures var Done(trees, rest) := DecodeInvocations(n, b);
            ValidInvocations(trees) && b == EncodeInvocations(trees) + rest
    decreases |b|, 1
  {
    hide EncodeInvocation, DecodeInvocation, EncodeFn, DecodeFn;
    if n > 0 {
      InvocationSound(b);
      var Done(i, b1) := DecodeInvocation(b);
      InvocationsSound(n - 1, b1);
      var Done(trees, rest) := DecodeInvocations(n - 1, b1);
      InvocationsCons(b, i, b1, trees, rest);
    }
  }

  /** No tree is encoded as the beginning of another one. */
  lemma InvocationPrefixFree(i: Invocation, restI: seq<byte>, j: Invocation, restJ: seq<byte>)
    requires ValidInvocation(i) && ValidInvocation(j)
    requires EncodeInvocation(i) + restI == EncodeInvocation(j) + restJ
    ensures i == j && restI == restJ
  {
    InvocationRoundTrip(i, restI);
    InvocationRoundTrip(j, restJ);
  }

  lemma FnAligned(f: ContractFn)
    requires ValidFn(f)
    ensures |EncodeFn(f)| % 4 == 0
  {
    hide EncodeU32, EncodeAddress, EncodeOpaque, EncodeVals;
    ValsAligned(f.args);
    AlignedSum(4, |EncodeVals(f.args)|);
    AlignedSum(|EncodeOpaque(f.name)|, 4 + |EncodeVals(f.args)|);
    AlignedSum(4 + |EncodeAddress(f.contract)|, |EncodeOpaque(f.name)| + (4 + |EncodeVals(f.args)|));
  }

  /** Every tree is a whole number of four-byte units, whatever its nesting. */
  lemma {:induction false} InvocationAligned(i: Invocation)
    requires ValidInvocation(i)
    ensures |EncodeInvocation(i)| % 4 == 0
    decreases i
  {
    hide EncodeFn, EncodeU32, EncodeInvocations;
    FnAligned(i.fn);
    InvocationsAligned(i.subs);
    AlignedSum(|EncodeFn(i.fn)| + 4, |EncodeInvocations(i.subs)|);
  }

  lemma {:induction false} InvocationsAligned(trees: seq<Invocation>)
    requires ValidInvocations(trees)
    ensures |EncodeInvocations(trees)| % 4 == 0
    decreases trees
  {
    hide EncodeInvocation;
    if trees != [] {
      InvocationAligned(trees[0]);
      InvocationsAligned(trees[1..]);
      AlignedSum(|EncodeInvocation(trees[0])|, |EncodeInvocations(trees[1..])|);
    }
  }

  // ---------------------------------------------------------------------------------------------
  // Entries
  // ---------------------------------------------------------------------------------------------

  datatype Credentials =
    | SourceAccount
    | AddressCredentials(address: ScAddress, nonce: i64, expirationLedger: u32, signature: ScVal)

  datatype AuthEntry = AuthEntry(credentials: Credentials, root: Invocation)

  predicate ValidAuth(e: AuthEntry) {
    (e.credentials.AddressCredentials? ==> Valid(e.credentials.signature)) && ValidInvocation(e.root)
  }

  function EncodeCredentials(c: Credentials): (b: seq<byte>)
    requires c.AddressCredentials? ==> Valid(c.signature)
  {
    match c
    case SourceAccount => EncodeU32(0)
    case AddressCredentials(a, n, l, s) =>
      EncodeU32(1) + EncodeAddressCredentials(a, n, l, s)
  }

  function EncodeAddressCredentials(a: ScAddress, n: i64, l: u32, s: ScVal): seq<byte>
    requires Valid(s)
  {
    EncodeAddress(a) + (EncodeI64(n) + (EncodeU32(l) + Encode(s)))
  }

  /** SorobanAuthorizationEntry.toXDR. */
  function EncodeAuth(e: AuthEntry): seq<byte>
    requires ValidAuth(e)
  {
    EncodeCredentials(e.credentials) + EncodeInvocation(e.root)
  }

  function DecodeCredentials(b: seq<byte>): Decoded<Credentials> {
    var (kind, b1) :- DecodeU32(b);
    if kind == 0 then Done(SourceAccount, b1)
    else if kind == 1 then DecodeAddressCredentials(b1)
    else Fail
  }

  function DecodeAddressCredentials(b: seq<byte>): (d: Decoded<Credentials>)
    ensures d.Done? ==> d.item.AddressCredentials?
  {
    var (address, b2) :- DecodeAddress(b);
    var (nonce, b3) :- DecodeI64(b2);
    var (ledger, b4) :- DecodeU32(b3);
    var (signature, b5) :- Decode(b4);
    Done(AddressCredentials(address, nonce, ledger, signature), b5)
  }

  /** SorobanAuthorizationEntry.fromXDR: the whole input must be one entry. */
  function AuthFromXdr(b: seq<byte>): Option<AuthEntry> {
    match DecodeCredentials(b)
    case Fail => None
    case Done(credentials, b1) =>
      match DecodeInvocation(b1)
      case Fail => None
      case Done(root, rest) => if rest == [] then Some(AuthEntry(credentials, root)) else None
  }

  lemma CredentialsRoundTrip(c: Credentials, rest: seq<byte>)
    requires c.AddressCredentials? ==> Valid(c.signature)
    ensures DecodeCredentials(EncodeCredentials(c) + rest) == Done(c, rest)
  {
    hide EncodeAddress, DecodeAddress, EncodeI64, DecodeI64, EncodeU32, DecodeU32, Encode, Decode;
    match c
    case SourceAccount => U32RoundTrip(0, rest);
    case AddressCredentials(a, n, l, s) =>
      var b4 := Encode(s) + rest;
      var b3 := EncodeU32(l) + b4;
      var b2 := EncodeI64(n) + b3;
      var b1 := EncodeAddress(a) + b2;
      assert EncodeCredentials(c) + rest == EncodeU32(1) + b1;
      U32RoundTrip(1, b1);
      AddressRoundTrip(a, b2);
      I64RoundTrip(n, b3);
      U32RoundTrip(l, b4);
      RoundTrip(s, rest);
  }

  lemma AddressCredentialsSound(b: seq<byte>)
    requires DecodeAddressCredentials(b).Done?
    ensures var Done(c, rest) := DecodeAddressCredentials(b);
            Valid(c.signature)
            && b == EncodeAddressCredentials(c.address, c.nonce, c.expirationLedger, c.signature) + rest
  {
    AddressSound(b);
    var Done(a, b2) := DecodeAddress(b);
    I64Sound(b2);
    var Done(n, b3) := DecodeI64(b2);
    U32Sound(b3);
    var Done(l, b4) := DecodeU32(b3);
    Sound(b4);
    var Done(s, rest) := Decode(b4);
    Regroup(EncodeU32(l), Encode(s), rest);
    Regroup(EncodeI64(n), EncodeU32(l) + Encode(s), rest);
    Regroup(EncodeAddress(a), EncodeI64(n) + (EncodeU32(l) + Encode(s)), rest);
  }

  lemma CredentialsSound(b: seq<byte>)
    requires DecodeCredentials(b).Done?
    ensures var Done(c, rest) := DecodeCredentials(b);
            (c.AddressCredentials? ==> Valid(c.signature)) && b == EncodeCredentials(c) + rest
  {
    U32Sound(b);
    var Done(kind, b1) := DecodeU32(b);
    if kind == 1 {
      AddressCredentialsSound(b1);
      var Done(c, rest) := DecodeAddressCredentials(b1);
      Regroup(EncodeU32(1), EncodeAddressCredentials(c.address, c.nonce, c.expirationLedger, c.signature), rest);
    }
  }

  /** Printing and parsing entries are inverse in both directions; in particular the clone through XDR
      is the entry itself. */
  lemma AuthExactly(b: seq<byte>, e: AuthEntry)
    ensures AuthFromXdr(b) == Some(e) <==> ValidAuth(e) && b == EncodeAuth(e)
  {
    if AuthFromXdr(b) == Some(e) {
      CredentialsSound(b);
      InvocationSound(DecodeCredentials(b).rest);
      assert EncodeInvocation(e.root) + [] == EncodeInvocation(e.root);
    }
    if ValidAuth(e) && b == EncodeAuth(e) {
      CredentialsRoundTrip(e.credentials, EncodeInvocation(e.root));
      InvocationRoundTrip(e.root, []);
      assert EncodeInvocation(e.root) + [] == EncodeInvocation(e.root);
    }
  }

  lemma CredentialsAligned(c: Credentials)
    requires c.AddressCredentials? ==> Valid(c.signature)
    ensures |EncodeCredentials(c)| % 4 == 0
  {
    hide EncodeU32, EncodeI64, EncodeAddress, Encode;
    if c.AddressCredentials? {
      Aligned(c.signature);
      AlignedSum(16 + |EncodeAddress(c.address)|, |Encode(c.signature)|);
    }
  }

  lemma AuthAligned(e: AuthEntry)
    requires ValidAuth(e)
    ensures |EncodeAuth(e)| % 4 == 0
  {
    CredentialsAligned(e.credentials);
    InvocationAligned(e.root);
    AlignedSum(|EncodeCredentials(e.credentials)|, |EncodeInvocation(e.root)|);
  }

  lemma AuthPrefixFree(e: AuthEntry, restE: seq<byte>, f: AuthEntry, restF: seq<byte>)
    requires ValidAuth(e) && ValidAuth(f)
    requires EncodeAuth(e) + restE == EncodeAuth(f) + restF
    ensures e == f && restE == restF
  {
    var treeE, treeF := EncodeInvocation(e.root) + restE, EncodeInvocation(f.root) + restF;
    Regroup(EncodeCredentials(e.credentials), EncodeInvocation(e.root), restE);
    Regroup(EncodeCredentials(f.credentials), EncodeInvocation(f.root), restF);
    CredentialsRoundTrip(e.credentials, treeE);
    CredentialsRoundTrip(f.credentials, treeF);
    InvocationPrefixFree(e.root, restE, f.root, restF);
  }

  // ---------------------------------------------------------------------------------------------
  // The preimage
  // ---------------------------------------------------------------------------------------------

  datatype Preimage = Preimage(networkId: Bytes32, nonce: i64, expirationLedger: u32, invocation: Invocation)

  /** ENVELOPE_TYPE_SOROBAN_AUTHORIZATION. */
  const ENVELOPE_TYPE: u32 := 9

  function EncodePreimage(p: Preimage): seq<byte>
    requires ValidInvocation(p.invocation)
  {
    EncodeU32(ENVELOPE_TYPE) +
    (p.networkId + (EncodeI64(p.nonce) + (EncodeU32(p.expirationLedger) + EncodeInvocation(p.invocation))))
  }

  function DecodePreimage(b: seq<byte>): Decoded<Preimage> {
    var (envelope, b1) :- DecodeU32(b);
    if envelope != ENVELOPE_TYPE then Fail
    else
      var (networkId, b2) :- DecodeFixed32(b1);
      var (nonce, b3) :- DecodeI64(b2);
      var (ledger, b4) :- DecodeU32(b3);
      var (invocation, b5) :- DecodeInvocation(b4);
      Done(Preimage(networkId, nonce, ledger, invocation), b5)
  }

  lemma PreimageRoundTrip(p: Preimage, rest: seq<byte>)
    requires ValidInvocation(p.invocation)
    ensures DecodePreimage(EncodePreimage(p) + rest) == Done(p, rest)
  {
    hide EncodeU32, DecodeU32, EncodeI64, DecodeI64, DecodeFixed32, EncodeInvocation, DecodeInvocation;
    var b4 := EncodeInvocation(p.invocation) + rest;
    var b3 := EncodeU32(p.expirationLedger) + b4;
    var b2 := EncodeI64(p.nonce) + b3;
    var b1 := p.networkId + b2;
    assert EncodePreimage(p) + rest == EncodeU32(ENVELOPE_TYPE) + b1;
    U32RoundTrip(ENVELOPE_TYPE, b1);
    Fixed32RoundTrip(p.networkId, b2);
    I64RoundTrip(p.nonce, b3);
    U32RoundTrip(p.expirationLedger, b4);
    InvocationRoundTrip(p.invocation, rest);
  }

  lemma PreimagePrefixFree(p: Preimage, restP: seq<byte>, q: Preimage, restQ: seq<byte>)
    requires ValidInvocation(p.invocation) && ValidInvocation(q.invocation)
    requires EncodePreimage(p) + restP == EncodePreimage(q) + restQ
    ensures p == q && restP == restQ
  {
    PreimageRoundTrip(p, restP);
    PreimageRoundTrip(q, restQ);
  }

  /** Two preimages have the same bytes exactly when they agree in all four fields. */
  lemma PreimageInjective(p: Preimage, q: Preimage)
    requires ValidInvocation(p.invocation) && ValidInvocation(q.invocation)
    ensures EncodePreimage(p) == EncodePreimage(q) <==> p == q
  {
    if EncodePreimage(p) == EncodePreimage(q) {
      PreimagePrefixFree(p, [], q, []);
    }
  }

  lemma PreimageAligned(p: Preimage)
    requires ValidInvocation(p.invocation)
    ensures |EncodePreimage(p)| % 4 == 0
  {
    hide EncodeU32, EncodeI64, EncodeInvocation;
    InvocationAligned(p.invocation);
    AlignedSum(48, |EncodeInvocation(p.invocation)|);
  }

  /** What hashSorobanAuthPayload hashes; None where the entry has no address credentials and the accessor throws.
      The hash is an argument: nothing here depends on which one it is. */
  function EntryPreimage(hash: seq<byte> -> Bytes32, e: AuthEntry, passphrase: seq<byte>): Option<Preimage>
    requires ValidAuth(e)
  {
    var clone := AuthFromXdr(EncodeAuth(e));
    if clone.None? || clone.value.credentials.SourceAccount? then None
    else
      var c := clone.value.credentials;
      Some(Preimage(hash(passphrase), c.nonce, c.expirationLedger, clone.value.root))
  }

  lemma EntryPreimageShape(hash: seq<byte> -> Bytes32, e: AuthEntry, passphrase: seq<byte>)
    requires ValidAuth(e)
    ensures var c := e.credentials;
            EntryPreimage(hash, e, passphrase) ==
              if c.SourceAccount? then None else Some(Preimage(hash(passphrase), c.nonce, c.expirationLedger, e.root))
  {
    AuthExactly(EncodeAuth(e), e);
  }

  /** What a signature over an entry pins down: the network, the nonce, the expiry and the whole invocation
      tree, each of them, and nothing else. */
  lemma SamePreimageExactlyWhen(hash: seq<byte> -> Bytes32, e: AuthEntry, net1: seq<byte>,
                                f: AuthEntry, net2: seq<byte>)
    requires ValidAuth(e) && ValidAuth(f) && e.credentials.AddressCredentials? && f.credentials.AddressCredentials?
    ensures var p, q := EntryPreimage(hash, e, net1), EntryPreimage(hash, f, net2);
            && p.Some? && q.Some? && ValidInvocation(p.value.invocation) && ValidInvocation(q.value.invocation)
            && (EncodePreimage(p.value) == EncodePreimage(q.value)
                <==> && hash(net1) == hash(net2)
                     && e.credentials.nonce == f.credentials.nonce
                     && e.credentials.expirationLedger == f.credentials.expirationLedger
                     && e.root == f.root)
  {
    EntryPreimageShape(hash, e, net1);
    EntryPreimageShape(hash, f, net2);
    PreimageInjective(EntryPreimage(hash, e, net1).value, EntryPreimage(hash, f, net2).value);
  }

  function WithSignature(e: AuthEntry, signature: ScVal): AuthEntry
    requires e.credentials.AddressCredentials?
  {
    e.(credentials := e.credentials.(signature := signature))
  }

  /** hashSorobanAuthPayload. */
  function HashAuthPayload(hash: seq<byte> -> Bytes32, e: AuthEntry, passphrase: seq<byte>): Option<Bytes32>
    requires ValidAuth(e)
  {
    EntryPreimageShape(hash, e, passphrase);
    var p := EntryPreimage(hash, e, passphrase);
    if p.None? then None else Some(hash(EncodePreimage(p.value)))
  }

  /** These bytes parse to the preimage of the entry: the network, and the entry's own nonce, expiry and tree. */
  predicate IsPreimageOf(b: seq<byte>, e: AuthEntry, networkId: Bytes32)
    requires e.credentials.AddressCredentials?
  {
    DecodePreimage(b) == Done(Preimage(networkId, e.credentials.nonce, e.credentials.expirationLedger, e.root), [])
  }

  /** What is hashed parses to the network id, the nonce, the expiry and the whole tree; source-account credentials
      are an error. */
  lemma HashedPreimage(hash: seq<byte> -> Bytes32, e: AuthEntry, passphrase: seq<byte>)
    requires ValidAuth(e)
    ensures e.credentials.SourceAccount? <==> HashAuthPayload(hash, e, passphrase).None?
    ensures e.credentials.AddressCredentials? ==>
              exists b :: HashAuthPayload(hash, e, passphrase) == Some(hash(b)) && IsPreimageOf(b, e, hash(passphrase))
  {
    hide DecodePreimage, EncodePreimage;
    EntryPreimageShape(hash, e, passphrase);
    if e.credentials.AddressCredentials? {
      var p := EntryPreimage(hash, e, passphrase).value;
      PreimageRoundTrip(p, []);
      assert EncodePreimage(p) + [] == EncodePreimage(p);
      assert IsPreimageOf(EncodePreimage(p), e, hash(passphrase));
    }
  }

  /** The envelope type, in front of everything. */
  lemma PreimageEnvelope(p: Preimage)
    requires ValidInvocation(p.invocation)
    ensures |EncodePreimage(p)| >= 36
    ensures EncodePreimage(p)[..4] == [0, 0, 0, 9] && EncodePreimage(p)[4..36] == p.networkId
  {
    hide EncodeInvocation, EncodeI64;
    assert ToBE(9, 4) == [0, 0, 0, 9] by {
      assert ToBE(0, 3) == [0, 0, 0];
    }
  }

  // ---------------------------------------------------------------------------------------------
  // The digest: hash(payload || XDR(rule ids))
  // ---------------------------------------------------------------------------------------------

  function RuleIds(ids: seq<u32>): seq<ScVal> {
    if ids == [] then [] else [U32(ids[0])] + RuleIds(ids[1..])
  }

  lemma {:induction false} RuleIdsValid(ids: seq<u32>)
    ensures ValidVals(RuleIds(ids)) && |RuleIds(ids)| == |ids|
  {
    if ids != [] {
      RuleIdsValid(ids[1..]);
      ValsCons(U32(ids[0]), RuleIds(ids[1..]));
    }
  }

  lemma {:induction false} RuleIdsInjective(a: seq<u32>, b: seq<u32>)
    requires RuleIds(a) == RuleIds(b)
    ensures a == b
  {
    RuleIdsValid(a);
    RuleIdsValid(b);
    if a != [] {
      assert RuleIds(a)[0] == RuleIds(b)[0];
      assert RuleIds(a)[1..] == RuleIds(a[1..]) && RuleIds(b)[1..] == RuleIds(b[1..]);
      RuleIdsInjective(a[1..], b[1..]);
      assert a == [a[0]] + a[1..] && b == [b[0]] + b[1..];
    }
  }

  function DigestInput(payload: Bytes32, ids: seq<u32>): seq<byte>
    requires |ids| < TWO_32
  {
    RuleIdsValid(ids);
    payload + Encode(Vec(RuleIds(ids)))
  }

  /** The digest input determines the payload and every rule id, for lists of any length. */
  lemma DigestInputInjective(p: Bytes32, a: seq<u32>, q: Bytes32, b: seq<u32>)
    requires |a| < TWO_32 && |b| < TWO_32
    ensures DigestInput(p, a) == DigestInput(q, b) <==> p == q && a == b
  {
    if DigestInput(p, a) == DigestInput(q, b) {
      RuleIdsValid(a);
      RuleIdsValid(b);
      assert DigestInput(p, a)[..32] == p && DigestInput(q, b)[..32] == q;
      assert DigestInput(p, a)[32..] == Encode(Vec(RuleIds(a))) && DigestInput(q, b)[32..] == Encode(Vec(RuleIds(b)));
      Injective(Vec(RuleIds(a)), Vec(RuleIds(b)));
      RuleIdsInjective(a, b);
    }
  }

  /** computeAuthDigest. */
  function AuthDigest(hash: seq<byte> -> Bytes32, e: AuthEntry, passphrase: seq<byte>, ids: seq<u32>): Option<Bytes32>
    requires ValidAuth(e) && |ids| < TWO_32
  {
    var payload := HashAuthPayload(hash, e, passphrase);
    if payload.None? then None else Some(hash(DigestInput(payload.value, ids)))
  }

  /** The vector of the rule ids. */
  predicate IsRuleIds(v: ScVal, ids: seq<u32>) {
    v.Vec? && |v.vals| == |ids| && forall i :: 0 <= i < |ids| ==> v.vals[i] == U32(ids[i])
  }

  lemma {:induction false} RuleIdAt(ids: seq<u32>, i: nat)
    requires i < |ids|
    ensures |RuleIds(ids)| == |ids| && RuleIds(ids)[i] == U32(ids[i])
  {
    RuleIdsValid(ids);
    if i > 0 {
      RuleIdAt(ids[1..], i - 1);
      assert RuleIds(ids)[i] == RuleIds(ids[1..])[i - 1];
    }
  }

  lemma RuleIdsAre(ids: seq<u32>)
    ensures IsRuleIds(Vec(RuleIds(ids)), ids)
  {
    RuleIdsValid(ids);
    forall i | 0 <= i < |ids|
      ensures RuleIds(ids)[i] == U32(ids[i])
    {
      RuleIdAt(ids, i);
    }
  }

  /** The bytes that are hashed first and last: `b` is the preimage of the entry, and `d` its hash followed by the
      rule ids. */
  predicate Hashes(hash: seq<byte> -> Bytes32, e: AuthEntry, passphrase: seq<byte>, ids: seq<u32>, b: seq<byte>,
                   d: seq<byte>)
    requires e.credentials.AddressCredentials?
  {
    && IsPreimageOf(b, e, hash(passphrase))
    && |d| >= 32 && d[..32] == hash(b)
    && Decode(d[32..]).Done? && Decode(d[32..]).rest == [] && IsRuleIds(Decode(d[32..]).item, ids)
  }

  /** The digest is the hash of the hash of the entry's preimage followed by the rule ids. */
  lemma HashedDigest(hash: seq<byte> -> Bytes32, e: AuthEntry, passphrase: seq<byte>, ids: seq<u32>)
    returns (b: seq<byte>, d: seq<byte>)
    requires ValidAuth(e) && e.credentials.AddressCredentials? && |ids| < TWO_32
    ensures Hashes(hash, e, passphrase, ids, b, d) && AuthDigest(hash, e, passphrase, ids) == Some(hash(d))
  {
    hide HashAuthPayload, IsPreimageOf, Encode, Decode;
    HashedPreimage(hash, e, passphrase);
    b :| HashAuthPayload(hash, e, passphrase) == Some(hash(b)) && IsPreimageOf(b, e, hash(passphrase));
    d := DigestInput(hash(b), ids);
    RuleIdsValid(ids);
    RuleIdsAre(ids);
    RoundTrip(Vec(RuleIds(ids)), []);
    assert d[32..] == Encode(Vec(RuleIds(ids))) + [];
  }

  /** Unless the hash collides on the bytes it is given here, two digests agree exactly when network, nonce, expiry,
      invocation tree and rule ids all do. */
  lemma SameDigestExactlyWhen(hash: seq<byte> -> Bytes32, e: AuthEntry, net1: seq<byte>, ids1: seq<u32>,
                              f: AuthEntry, net2: seq<byte>, ids2: seq<u32>)
    returns (b1: seq<byte>, d1: seq<byte>, b2: seq<byte>, d2: seq<byte>)
    requires ValidAuth(e) && ValidAuth(f) && e.credentials.AddressCredentials? && f.credentials.AddressCredentials?
    requires |ids1| < TWO_32 && |ids2| < TWO_32
    ensures Hashes(hash, e, net1, ids1, b1, d1) && Hashes(hash, f, net2, ids2, b2, d2)
    ensures (hash(b1) == hash(b2) ==> b1 == b2) && (hash(d1) == hash(d2) ==> d1 == d2) ==>
              (AuthDigest(hash, e, net1, ids1) == AuthDigest(hash, f, net2, ids2)
               <==> && hash(net1) == hash(net2) && ids1 == ids2 && e.root == f.root
                    && e.credentials.nonce == f.credentials.nonce
                    && e.credentials.expirationLedger == f.credentials.expirationLedger)
  {
    hide AuthDigest, Encode, Decode, DecodePreimage, EncodePreimage;
    b1, d1 := HashedDigest(hash, e, net1, ids1);
    b2, d2 := HashedDigest(hash, f, net2, ids2);
    if && hash(net1) == hash(net2) && ids1 == ids2 && e.root == f.root
       && e.credentials.nonce == f.credentials.nonce
       && e.credentials.expirationLedger == f.credentials.expirationLedger {
      SameFieldsSameDigest(hash, e, net1, ids1, f, net2);
    }
    if d1 == d2 && b1 == b2 {
      assert IsPreimageOf(b1, e, hash(net1)) && IsPreimageOf(b1, f, hash(net2));
      assert IsRuleIds(Decode(d1[32..]).item, ids1) && IsRuleIds(Decode(d1[32..]).item, ids2);
      assert forall i :: 0 <= i < |ids1| ==> U32(ids1[i]).u == U32(ids2[i]).u;
    }
  }

  lemma SameFieldsSameDigest(hash: seq<byte> -> Bytes32, e: AuthEntry, net1: seq<byte>, ids: seq<u32>, f: AuthEntry,
                             net2: seq<byte>)
    requires ValidAuth(e) && ValidAuth(f) && e.credentials.AddressCredentials? && f.credentials.AddressCredentials?
    requires |ids| < TWO_32 && hash(net1) == hash(net2) && e.root == f.root
    requires e.credentials.nonce == f.credentials.nonce
    requires e.credentials.expirationLedger == f.credentials.expirationLedger
    ensures AuthDigest(hash, e, net1, ids) == AuthDigest(hash, f, net2, ids)
  {
    EntryPreimageShape(hash, e, net1);
    EntryPreimageShape(hash, f, net2);
  }

  /** Setting the signature after hashing, as every route does, changes neither the preimage nor the digest. */
  lemma SignatureIsNotSigned(hash: seq<byte> -> Bytes32, e: AuthEntry, passphrase: seq<byte>, ids: seq<u32>, s: ScVal)
    requires ValidAuth(e) && e.credentials.AddressCredentials? && |ids| < TWO_32 && Valid(s)
    ensures EntryPreimage(hash, WithSignature(e, s), passphrase) == EntryPreimage(hash, e, passphrase)
    ensures AuthDigest(hash, WithSignature(e, s), passphrase, ids) == AuthDigest(hash, e, passphrase, ids)
    ensures AuthDigest(hash, e, passphrase, ids).Some?
  {
    EntryPreimageShape(hash, e, passphrase);
    EntryPreimageShape(hash, WithSignature(e, s), passphrase);
  }
}
