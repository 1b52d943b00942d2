/** What the build and submit routes do with authorization entries: the delegated flow through a classic
    account, and the Phantom flow through a signed text. Entries are objects that the routes change in place. */
module SigningFlows {
  import opened Bytes
  import opened ScVals
  import opened Authorization
  import opened DerSignature
  import opened MessageFormat

  // ---------------------------------------------------------------------------------------------
  // Values the routes build
  // ---------------------------------------------------------------------------------------------

  function Sym(s: string): ScVal {
    Symbol(Ascii(s))
  }

  /** AuthPayload: the rule ids and one signer with its signature data. */
  function AuthPayload(signer: ScVal, sigData: seq<byte>, ids: seq<u32>): ScVal {
    Map([ScMapEntry(Sym("context_rule_ids"), Vec(RuleIds(ids))),
         ScMapEntry(Sym("signers"), Map([ScMapEntry(signer, ScVal.Bytes(sigData))]))])
  }

  function DelegatedSigner(g: ScAddress): ScVal {
    Vec([Sym("Delegated"), Address(g)])
  }

  function ExternalSigner(verifier: ScAddress, keyData: seq<byte>): ScVal {
    Vec([Sym("External"), Address(verifier), ScVal.Bytes(keyData)])
  }

  /** buildDelegatedAuthPayload: no signature data for a delegated signer, rule 0. */
  function DelegatedAuthPayload(g: ScAddress): ScVal {
    AuthPayload(DelegatedSigner(g), [], [0])
  }

  /** The host's format for a classic account's signature. */
  function AccountSignature(key: Bytes32, signature: seq<byte>): ScVal {
    Vec([Map([ScMapEntry(Sym("public_key"), ScVal.Bytes(key)), ScMapEntry(Sym("signature"), ScVal.Bytes(signature))])])
  }

  /** encodeWebAuthnSigData, before printing. */
  function WebAuthnSigData(authenticatorData: seq<byte>, clientData: seq<byte>, signature: seq<byte>): ScVal {
    Map([ScMapEntry(Sym("authenticator_data"), ScVal.Bytes(authenticatorData)),
         ScMapEntry(Sym("client_data"), ScVal.Bytes(clientData)),
         ScMapEntry(Sym("signature"), ScVal.Bytes(signature))])
  }

  /** buildParamsMap and buildWebauthnAccountInitParams: they differ in the signer kind. */
  function AccountInitParams(keyData: seq<byte>, salt: seq<byte>, kind: string): ScVal {
    var signer := Map([ScMapEntry(Sym("key_data"), ScVal.Bytes(keyData)),
                       ScMapEntry(Sym("signer_kind"), Vec([Sym(kind)]))]);
    Map([ScMapEntry(Sym("account_salt"), ScVal.Bytes(salt)),
         ScMapEntry(Sym("signers"), Vec([Vec([Sym("External"), signer])])),
         ScMapEntry(Sym("threshold"), Void)])
  }

  // ---------------------------------------------------------------------------------------------
  // What a reader of these values finds
  // ---------------------------------------------------------------------------------------------

  /** The value under a symbol, the way a contract looks it up. */
  function FieldOf(es: seq<ScMapEntry>, name: seq<byte>): Option<ScVal> {
    if es == [] then None else if es[0].key == Symbol(name) then Some(es[0].val) else FieldOf(es[1..], name)
  }

  function Field(v: ScVal, name: string): Option<ScVal> {
    if v.Map? then FieldOf(v.entries, Ascii(name)) else None
  }

  /** The payload names these rules and exactly one signer, with this signature data. */
  predicate SignedBy(payload: ScVal, signer: ScVal, sigData: seq<byte>, ids: seq<u32>) {
    && payload.Map? && |payload.entries| == 2
    && Field(payload, "context_rule_ids").Some? && IsRuleIds(Field(payload, "context_rule_ids").value, ids)
    && Field(payload, "signers") == Some(Map([ScMapEntry(signer, ScVal.Bytes(sigData))]))
  }

  /** One classic signature, of this key. */
  predicate IsAccountSignature(v: ScVal, key: seq<byte>, signature: seq<byte>) {
    && v.Vec? && |v.vals| == 1 && v.vals[0].Map? && |v.vals[0].entries| == 2
    && Field(v.vals[0], "public_key") == Some(ScVal.Bytes(key))
    && Field(v.vals[0], "signature") == Some(ScVal.Bytes(signature))
  }

  predicate IsSigData(v: ScVal, authenticatorData: seq<byte>, clientData: seq<byte>, signature: seq<byte>) {
    && v.Map? && |v.entries| == 3
    && Field(v, "authenticator_data") == Some(ScVal.Bytes(authenticatorData))
    && Field(v, "client_data") == Some(ScVal.Bytes(clientData))
    && Field(v, "signature") == Some(ScVal.Bytes(signature))
  }

  /** One external signer with these key data, of this kind. */
  predicate IsSignerInit(v: ScVal, keyData: seq<byte>, kind: string) {
    && v.Vec? && |v.vals| == 2 && v.vals[0] == Symbol(Ascii("External"))
    && v.vals[1].Map? && |v.vals[1].entries| == 2
    && Field(v.vals[1], "key_data") == Some(ScVal.Bytes(keyData))
    && Field(v.vals[1], "signer_kind") == Some(Vec([Symbol(Ascii(kind))]))
  }

  /** No threshold, the salt, and that signer alone. */
  predicate IsInitParams(v: ScVal, keyData: seq<byte>, salt: seq<byte>, kind: string) {
    && v.Map? && |v.entries| == 3
    && Field(v, "account_salt") == Some(ScVal.Bytes(salt))
    && Field(v, "threshold") == Some(Void)
    && Field(v, "signers").Some? && Field(v, "signers").value.Vec? && |Field(v, "signers").value.vals| == 1
    && IsSignerInit(Field(v, "signers").value.vals[0], keyData, kind)
  }

  lemma FieldOfTwo(e: ScMapEntry, f: ScMapEntry, name: seq<byte>)
    ensures FieldOf([e, f], name) ==
            if e.key == Symbol(name) then Some(e.val) else if f.key == Symbol(name) then Some(f.val) else None
  {
    assert [e, f][1..] == [f] && [f][1..] == [];
    assert FieldOf([f], name) == if f.key == Symbol(name) then Some(f.val) else None;
  }

  lemma FieldOfThree(e: ScMapEntry, f: ScMapEntry, g: ScMapEntry, name: seq<byte>)
    ensures FieldOf([e, f, g], name) ==
            if e.key == Symbol(name) then Some(e.val) else FieldOf([f, g], name)
  {
    assert [e, f, g][1..] == [f, g];
  }

  lemma AuthPayloadReads(signer: ScVal, sigData: seq<byte>, ids: seq<u32>)
    ensures SignedBy(AuthPayload(signer, sigData, ids), signer, sigData, ids)
  {
    hide FieldOf, IsRuleIds, RuleIds;
    var es := AuthPayload(signer, sigData, ids).entries;
    FieldOfTwo(es[0], es[1], Ascii("context_rule_ids"));
    FieldOfTwo(es[0], es[1], Ascii("signers"));
    assert |Ascii("context_rule_ids")| == 16 && |Ascii("signers")| == 7;
    RuleIdsAre(ids);
  }

  lemma AccountSignatureReads(key: Bytes32, signature: seq<byte>)
    ensures IsAccountSignature(AccountSignature(key, signature), key, signature)
  {
    hide FieldOf;
    var es := AccountSignature(key, signature).vals[0].entries;
    FieldOfTwo(es[0], es[1], Ascii("public_key"));
    FieldOfTwo(es[0], es[1], Ascii("signature"));
    assert |Ascii("public_key")| == 10 && |Ascii("signature")| == 9;
  }

  lemma SigDataReads(authenticatorData: seq<byte>, clientData: seq<byte>, signature: seq<byte>)
    ensures var sigData := WebAuthnSigData(authenticatorData, clientData, signature);
            IsSigData(sigData, authenticatorData, clientData, signature)
  {
    hide FieldOf;
    var es := WebAuthnSigData(authenticatorData, clientData, signature).entries;
    var names := [Ascii("authenticator_data"), Ascii("client_data"), Ascii("signature")];
    assert |names[0]| == 18 && |names[1]| == 11 && |names[2]| == 9;
    FieldOfThree(es[0], es[1], es[2], names[0]);
    FieldOfThree(es[0], es[1], es[2], names[1]);
    FieldOfThree(es[0], es[1], es[2], names[2]);
    FieldOfTwo(es[1], es[2], names[1]);
    FieldOfTwo(es[1], es[2], names[2]);
  }

  lemma SignerInitReads(keyData: seq<byte>, salt: seq<byte>, kind: string)
    ensures IsSignerInit(AccountInitParams(keyData, salt, kind).entries[1].val.vals[0], keyData, kind)
  {
    hide FieldOf;
    var es := AccountInitParams(keyData, salt, kind).entries[1].val.vals[0].vals[1].entries;
    FieldOfTwo(es[0], es[1], Ascii("key_data"));
    FieldOfTwo(es[0], es[1], Ascii("signer_kind"));
    assert |Ascii("key_data")| == 8 && |Ascii("signer_kind")| == 11;
  }

  /** The factory is given the key data and the salt under their names, for one signer of the kind. */
  lemma AccountInitParamsRead(keyData: seq<byte>, salt: seq<byte>, kind: string)
    ensures IsInitParams(AccountInitParams(keyData, salt, kind), keyData, salt, kind)
  {
    hide FieldOf, IsSignerInit;
    SignerInitReads(keyData, salt, kind);
    var es := AccountInitParams(keyData, salt, kind).entries;
    var names := [Ascii("account_salt"), Ascii("signers"), Ascii("threshold")];
    assert |names[0]| == 12 && |names[1]| == 7 && |names[2]| == 9;
    FieldOfThree(es[0], es[1], es[2], names[0]);
    FieldOfThree(es[0], es[1], es[2], names[1]);
    FieldOfThree(es[0], es[1], es[2], names[2]);
    FieldOfTwo(es[1], es[2], names[1]);
    FieldOfTwo(es[1], es[2], names[2]);
  }

  // The contract host rejects a map whose keys do not ascend.

  /** Byte-wise lexicographic order. */
  predicate Less(a: seq<byte>, b: seq<byte>) {
    if a == [] then b != []
    else if b == [] then false
    else a[0] < b[0] || (a[0] == b[0] && Less(a[1..], b[1..]))
  }

  predicate Ascending(es: seq<ScMapEntry>) {
    && (forall i :: 0 <= i < |es| ==> es[i].key.Symbol?)
    && (forall i, j :: 0 <= i < j < |es| ==> Less(es[i].key.name, es[j].key.name))
  }

  lemma AuthPayloadAscends(signer: ScVal, sigData: seq<byte>, ids: seq<u32>)
    ensures AuthPayload(signer, sigData, ids).Map? && Ascending(AuthPayload(signer, sigData, ids).entries)
  {
    assert Ascii("context_rule_ids")[0] == 0x63 && Ascii("signers")[0] == 0x73;
  }

  lemma AccountSignatureAscends(key: Bytes32, signature: seq<byte>)
    ensures Ascending(AccountSignature(key, signature).vals[0].entries)
  {
    assert Ascii("public_key")[0] == 0x70 && Ascii("signature")[0] == 0x73;
  }

  lemma WebAuthnSigDataAscends(authenticatorData: seq<byte>, clientData: seq<byte>, signature: seq<byte>)
    ensures Ascending(WebAuthnSigData(authenticatorData, clientData, signature).entries)
  {
    assert Ascii("authenticator_data")[0] == 0x61 && Ascii("client_data")[0] == 0x63;
    assert Ascii("signature")[0] == 0x73;
  }

  lemma AccountInitParamsAscend(keyData: seq<byte>, salt: seq<byte>, kind: string)
    ensures var params := AccountInitParams(keyData, salt, kind).entries;
            Ascending(params) && Ascending(params[1].val.vals[0].vals[1].entries)
  {
    assert Ascii("account_salt")[0] == 0x61 && Ascii("signers")[0] == 0x73 && Ascii("threshold")[0] == 0x74;
    assert Ascii("key_data")[0] == 0x6b && Ascii("signer_kind")[0] == 0x73;
  }

  lemma PairValid(e: ScMapEntry, f: ScMapEntry)
    requires ScVals.ValidEntry(e) && ScVals.ValidEntry(f)
    ensures Valid(Map([e])) && Valid(Map([e, f]))
  {
    EntriesCons(f, []);
    EntriesCons(e, []);
    EntriesCons(e, [f]);
    assert [f] == [f] + [] && [e] == [e] + [] && [e, f] == [e] + [f];
  }

  lemma ListValid(u: ScVal, v: ScVal, w: ScVal)
    requires Valid(u) && Valid(v) && Valid(w)
    ensures Valid(Vec([u])) && Valid(Vec([u, v])) && Valid(Vec([u, v, w]))
  {
    ValsCons(w, []);
    ValsCons(v, []);
    ValsCons(u, []);
    ValsCons(v, [w]);
    ValsCons(u, [v]);
    ValsCons(u, [v, w]);
    assert [w] == [w] + [] && [v] == [v] + [] && [u] == [u] + [];
    assert [v, w] == [v] + [w] && [u, v] == [u] + [v] && [u, v, w] == [u] + [v, w];
  }

  lemma AuthPayloadValid(signer: ScVal, sigData: seq<byte>, ids: seq<u32>)
    requires Valid(signer) && |sigData| < TWO_32 && |ids| < TWO_32
    ensures Valid(AuthPayload(signer, sigData, ids))
  {
    RuleIdsValid(ids);
    var e := ScMapEntry(signer, ScVal.Bytes(sigData));
    PairValid(e, e);
    PairValid(ScMapEntry(Sym("context_rule_ids"), Vec(RuleIds(ids))), ScMapEntry(Sym("signers"), Map([e])));
  }

  lemma DelegatedAuthPayloadValid(g: ScAddress)
    ensures Valid(DelegatedAuthPayload(g))
  {
    ListValid(Sym("Delegated"), Address(g), Void);
    AuthPayloadValid(DelegatedSigner(g), [], [0]);
  }

  lemma ExternalPayloadValid(verifier: ScAddress, keyData: seq<byte>, sigData: seq<byte>)
    requires |keyData| < TWO_32 && |sigData| < TWO_32
    ensures Valid(AuthPayload(ExternalSigner(verifier, keyData), sigData, [0]))
  {
    ListValid(Sym("External"), Address(verifier), ScVal.Bytes(keyData));
    AuthPayloadValid(ExternalSigner(verifier, keyData), sigData, [0]);
  }

  lemma AccountSignatureValid(key: Bytes32, signature: seq<byte>)
    requires |signature| < TWO_32
    ensures Valid(AccountSignature(key, signature))
  {
    var m := AccountSignature(key, signature).vals[0];
    PairValid(m.entries[0], m.entries[1]);
    ListValid(m, m, m);
  }

  /** The payload on an entry says which rules, which signer and which signature data. */
  lemma AuthPayloadInjective(s1: ScVal, d1: seq<byte>, ids1: seq<u32>, s2: ScVal, d2: seq<byte>, ids2: seq<u32>)
    requires Valid(s1) && |d1| < TWO_32 && |ids1| < TWO_32 && Valid(s2) && |d2| < TWO_32 && |ids2| < TWO_32
    ensures Valid(AuthPayload(s1, d1, ids1)) && Valid(AuthPayload(s2, d2, ids2))
    ensures Encode(AuthPayload(s1, d1, ids1)) == Encode(AuthPayload(s2, d2, ids2))
            <==> s1 == s2 && d1 == d2 && ids1 == ids2
  {
    AuthPayloadValid(s1, d1, ids1);
    AuthPayloadValid(s2, d2, ids2);
    var p, q := AuthPayload(s1, d1, ids1), AuthPayload(s2, d2, ids2);
    Injective(p, q);
    if p == q {
      assert p.entries[0].val == q.entries[0].val;
      assert p.entries[1].val.entries[0] == q.entries[1].val.entries[0];
      RuleIdsInjective(ids1, ids2);
    }
  }

  lemma SigDataValid(authenticatorData: seq<byte>, clientData: seq<byte>, signature: seq<byte>)
    requires |authenticatorData| < TWO_32 && |clientData| < TWO_32 && |signature| < TWO_32
    ensures Valid(WebAuthnSigData(authenticatorData, clientData, signature))
  {
    var e := WebAuthnSigData(authenticatorData, clientData, signature).entries;
    EntriesCons(e[2], []);
    EntriesCons(e[1], [e[2]]);
    EntriesCons(e[0], [e[1], e[2]]);
    assert [e[2]] + [] == [e[2]] && [e[1]] + [e[2]] == [e[1], e[2]] && e == [e[0]] + [e[1], e[2]];
  }

  /** What a passkey puts on an entry: its signature in compact form, inside the signature data, inside the payload. */
  function PasskeyPayload(verifier: ScAddress, keyData: seq<byte>, authenticatorData: seq<byte>, clientData: seq<byte>,
                          compact: seq<byte>, ids: seq<u32>): ScVal
    requires |authenticatorData| < TWO_32 && |clientData| < TWO_32 && |compact| < TWO_32
  {
    SigDataValid(authenticatorData, clientData, compact);
    AuthPayload(ExternalSigner(verifier, keyData), Encode(WebAuthnSigData(authenticatorData, clientData, compact)), ids)
  }

  /** The payload names the verifier and key that signed, and its signature data parse to the three parts. */
  lemma PasskeyPayloadReads(verifier: ScAddress, keyData: seq<byte>, authenticatorData: seq<byte>,
                            clientData: seq<byte>, compact: seq<byte>, ids: seq<u32>) returns (sigData: seq<byte>)
    requires |authenticatorData| < TWO_32 && |clientData| < TWO_32 && |compact| < TWO_32
    ensures SignedBy(PasskeyPayload(verifier, keyData, authenticatorData, clientData, compact, ids),
                     Vec([Symbol(Ascii("External")), Address(verifier), ScVal.Bytes(keyData)]), sigData, ids)
    ensures Decode(sigData).Done? && Decode(sigData).rest == []
    ensures IsSigData(Decode(sigData).item, authenticatorData, clientData, compact)
  {
    hide SignedBy, IsSigData, AuthPayload, WebAuthnSigData, Encode, Decode, Valid;
    SigDataValid(authenticatorData, clientData, compact);
    var v := WebAuthnSigData(authenticatorData, clientData, compact);
    sigData := Encode(v);
    RoundTrip(v, []);
    assert Encode(v) + [] == Encode(v);
    SigDataReads(authenticatorData, clientData, compact);
    AuthPayloadReads(ExternalSigner(verifier, keyData), sigData, ids);
  }

  lemma SigDataInjective(a1: seq<byte>, c1: seq<byte>, s1: seq<byte>, a2: seq<byte>, c2: seq<byte>, s2: seq<byte>)
    requires Valid(WebAuthnSigData(a1, c1, s1)) && Valid(WebAuthnSigData(a2, c2, s2))
    ensures Encode(WebAuthnSigData(a1, c1, s1)) == Encode(WebAuthnSigData(a2, c2, s2))
            <==> a1 == a2 && c1 == c2 && s1 == s2
  {
    hide Encode, Valid;
    var p, q := WebAuthnSigData(a1, c1, s1), WebAuthnSigData(a2, c2, s2);
    Injective(p, q);
    if p == q {
      assert p.entries[0].val == q.entries[0].val && p.entries[1].val == q.entries[1].val;
      assert p.entries[2].val == q.entries[2].val;
    }
  }

  lemma PayloadSame(v1: ScAddress, k1: seq<byte>, d1: seq<byte>, ids1: seq<u32>,
                    v2: ScAddress, k2: seq<byte>, d2: seq<byte>, ids2: seq<u32>)
    requires Valid(AuthPayload(ExternalSigner(v1, k1), d1, ids1))
    requires Valid(AuthPayload(ExternalSigner(v2, k2), d2, ids2))
    ensures Encode(AuthPayload(ExternalSigner(v1, k1), d1, ids1))
            == Encode(AuthPayload(ExternalSigner(v2, k2), d2, ids2))
            <==> v1 == v2 && k1 == k2 && d1 == d2 && ids1 == ids2
  {
    hide Encode, Valid;
    var p, q := AuthPayload(ExternalSigner(v1, k1), d1, ids1), AuthPayload(ExternalSigner(v2, k2), d2, ids2);
    Injective(p, q);
    if p == q {
      assert p.entries[0].val == q.entries[0].val;
      assert p.entries[1].val.entries[0] == q.entries[1].val.entries[0];
      var s, t := ExternalSigner(v1, k1), ExternalSigner(v2, k2);
      assert s.vals[1] == t.vals[1] && s.vals[2] == t.vals[2];
      RuleIdsInjective(ids1, ids2);
    }
  }

  lemma PasskeyPayloadInjective(
    v1: ScAddress, k1: seq<byte>, a1: seq<byte>, c1: seq<byte>, z1: seq<byte>, ids1: seq<u32>,
    v2: ScAddress, k2: seq<byte>, a2: seq<byte>, c2: seq<byte>, z2: seq<byte>, ids2: seq<u32>)
    requires |a1| < TWO_32 && |c1| < TWO_32 && |z1| < TWO_32 && |a2| < TWO_32 && |c2| < TWO_32 && |z2| < TWO_32
    ensures PasskeyPayload(v1, k1, a1, c1, z1, ids1).Map? && Ascending(PasskeyPayload(v1, k1, a1, c1, z1, ids1).entries)
    ensures Valid(PasskeyPayload(v1, k1, a1, c1, z1, ids1)) && Valid(PasskeyPayload(v2, k2, a2, c2, z2, ids2)) ==>
              (Encode(PasskeyPayload(v1, k1, a1, c1, z1, ids1)) == Encode(PasskeyPayload(v2, k2, a2, c2, z2, ids2)) <==>
                 v1 == v2 && k1 == k2 && a1 == a2 && c1 == c2 && z1 == z2 && ids1 == ids2)
  {
    hide WebAuthnSigData, Encode, Valid, AuthPayload;
    SigDataValid(a1, c1, z1);
    SigDataValid(a2, c2, z2);
    SigDataInjective(a1, c1, z1, a2, c2, z2);
    var d1, d2 := Encode(WebAuthnSigData(a1, c1, z1)), Encode(WebAuthnSigData(a2, c2, z2));
    AuthPayloadAscends(ExternalSigner(v1, k1), d1, ids1);
    if Valid(PasskeyPayload(v1, k1, a1, c1, z1, ids1)) && Valid(PasskeyPayload(v2, k2, a2, c2, z2, ids2)) {
      PayloadSame(v1, k1, d1, ids1, v2, k2, d2, ids2);
    }
  }

  /** The bytes a passkey puts on an entry say which verifier, key, authenticator data, client data and rules, and which
      signature up to the sign of its s; the map keys ascend. */
  lemma PasskeyPayloadExactly(
    v1: ScAddress, k1: seq<byte>, a1: seq<byte>, c1: seq<byte>, r1: nat, s1: nat, ids1: seq<u32>,
    v2: ScAddress, k2: seq<byte>, a2: seq<byte>, c2: seq<byte>, r2: nat, s2: nat, ids2: seq<u32>)
    requires InRange(r1) && InRange(s1) && InRange(r2) && InRange(s2)
    requires |a1| < TWO_32 && |c1| < TWO_32 && |a2| < TWO_32 && |c2| < TWO_32
    ensures Compact(DerEncode(r1, s1)).Some? && |Compact(DerEncode(r1, s1)).value| == 64
    ensures Compact(DerEncode(r2, s2)).Some? && |Compact(DerEncode(r2, s2)).value| == 64
    ensures var p1 := PasskeyPayload(v1, k1, a1, c1, Compact(DerEncode(r1, s1)).value, ids1);
            var p2 := PasskeyPayload(v2, k2, a2, c2, Compact(DerEncode(r2, s2)).value, ids2);
            && p1.Map? && Ascending(p1.entries)
            && Ascending(WebAuthnSigData(a1, c1, Compact(DerEncode(r1, s1)).value).entries)
            && (Valid(p1) && Valid(p2) ==>
                  (Encode(p1) == Encode(p2) <==>
                     && v1 == v2 && k1 == k2 && a1 == a2 && c1 == c2 && ids1 == ids2
                     && r1 == r2 && (s1 == s2 || s1 == ORDER - s2)))
  {
    hide Compact, DerEncode, PasskeyPayload, Encode, Valid;
    CompactOfSignature(r1, s1);
    CompactOfSignature(r2, s2);
    CompactEqualExactlyWhen(r1, s1, r2, s2);
    WebAuthnSigDataAscends(a1, c1, Compact(DerEncode(r1, s1)).value);
    PasskeyPayloadInjective(v1, k1, a1, c1, Compact(DerEncode(r1, s1)).value, ids1,
                            v2, k2, a2, c2, Compact(DerEncode(r2, s2)).value, ids2);
  }

  /** The factory's parameters determine key and salt: two accounts are never deployed from the same bytes. The keys of
      both maps ascend. */
  lemma AccountInitParamsInjective(k1: seq<byte>, s1: seq<byte>, k2: seq<byte>, s2: seq<byte>, kind: string)
    ensures AccountInitParams(k1, s1, kind) == AccountInitParams(k2, s2, kind) <==> k1 == k2 && s1 == s2
    ensures var params := AccountInitParams(k1, s1, kind).entries;
            Ascending(params) && Ascending(params[1].val.vals[0].vals[1].entries)
  {
    AccountInitParamsAscend(k1, s1, kind);
    var p, q := AccountInitParams(k1, s1, kind), AccountInitParams(k2, s2, kind);
    if p == q {
      assert p.entries[0].val == q.entries[0].val;
      assert p.entries[1].val.vals[0].vals[1].entries[0].val == q.entries[1].val.vals[0].vals[1].entries[0].val;
    }
  }

  lemma KindsDiffer(k1: seq<byte>, s1: seq<byte>, k2: seq<byte>, s2: seq<byte>)
    ensures AccountInitParams(k1, s1, "Ed25519") != AccountInitParams(k2, s2, "WebAuthn")
  {
    hide IsInitParams;
    AccountInitParamsRead(k1, s1, "Ed25519");
    AccountInitParamsRead(k2, s2, "WebAuthn");
    assert |Ascii("Ed25519")| == 7 && |Ascii("WebAuthn")| == 8;
    if AccountInitParams(k1, s1, "Ed25519") == AccountInitParams(k2, s2, "WebAuthn") {
      OneKind(AccountInitParams(k1, s1, "Ed25519"), k1, s1, "Ed25519", k2, s2, "WebAuthn");
    }
  }

  lemma OneKind(v: ScVal, k1: seq<byte>, s1: seq<byte>, kind1: string, k2: seq<byte>, s2: seq<byte>, kind2: string)
    requires IsInitParams(v, k1, s1, kind1) && IsInitParams(v, k2, s2, kind2)
    ensures k1 == k2 && s1 == s2 && Ascii(kind1) == Ascii(kind2)
  {
    hide Field, Ascii;
  }

  // ---------------------------------------------------------------------------------------------
  // The mutable entry
  // ---------------------------------------------------------------------------------------------

  /** An xdr.SorobanAuthorizationEntry object with its setters on the address credentials. */
  class EntryObject {
    var credentials: Credentials
    var root: Invocation

    constructor (e: AuthEntry)
      ensures Value() == e
    {
      credentials := e.credentials;
      root := e.root;
    }

    function Value(): AuthEntry
      reads this
    {
      AuthEntry(credentials, root)
    }

    method SetExpiration(ledger: u32)
      requires credentials.AddressCredentials?
      modifies this`credentials
      ensures Value() == old(Value()).(credentials := old(credentials).(expirationLedger := ledger))
    {
      credentials := credentials.(expirationLedger := ledger);
    }

    method SetSignature(signature: ScVal)
      requires credentials.AddressCredentials?
      modifies this`credentials
      ensures Value() == WithSignature(old(Value()), signature)
    {
      credentials := credentials.(signature := signature);
    }
  }

  // ---------------------------------------------------------------------------------------------
  // Delegated flow
  // ---------------------------------------------------------------------------------------------

  /** smartAccount.__check_auth(digest). */
  function CheckAuthInvocation(smartAccount: ScAddress, digest: Bytes32): Invocation {
    Invocation(ContractFn(smartAccount, Ascii("__check_auth"), [ScVal.Bytes(digest)]), [])
  }

  /** A call of the smart account's check with this digest as its one argument, and nothing below it. */
  predicate ChecksDigest(i: Invocation, smartAccount: ScAddress, digest: seq<byte>) {
    && i.fn.contract == smartAccount && i.fn.name == Ascii("__check_auth") && i.fn.args == [ScVal.Bytes(digest)]
    && i.subs == []
  }

  lemma CheckAuthValid(smartAccount: ScAddress, digest: Bytes32)
    ensures ValidInvocation(CheckAuthInvocation(smartAccount, digest))
  {
    assert [ScVal.Bytes(digest)][1..] == [];
  }

  /** buildUnsignedDelegatedGCheckAuthEntry, given the nonce its loop computed; None is the length error. */
  function UnsignedCheckAuthEntry(smartAccount: ScAddress, g: ScAddress, payload: seq<byte>, ledger: u32, nonce: i64)
    : Option<AuthEntry>
  {
    if |payload| != 32 then None
    else Some(AuthEntry(AddressCredentials(g, nonce, ledger, Vec([])), CheckAuthInvocation(smartAccount, payload)))
  }

  datatype BuildReply = BuildReply(smartEntryXdr: seq<byte>, preimageXdr: seq<byte>, templateXdr: seq<byte>,
                                   digest: Bytes32, validUntil: u32)

  const LEDGERS_VALID := 60

  /** What build-delegated answers for the entry the simulation returned. */
  function Build(hash: seq<byte> -> Bytes32, passphrase: seq<byte>, simulated: seq<byte>, latestLedger: nat,
                 smartAccount: ScAddress, g: ScAddress, nonce: i64): Result<BuildReply>
  {
    var parsed := AuthFromXdr(simulated);
    if parsed.None? || parsed.value.credentials.SourceAccount? then Err("bad auth entry")
    else if latestLedger + LEDGERS_VALID >= TWO_32 then Err("ledger out of range")
    else
      AuthExactly(simulated, parsed.value);
      var validUntil := latestLedger + LEDGERS_VALID;
      var entry := parsed.value.(credentials := parsed.value.credentials.(expirationLedger := validUntil));
      SignatureIsNotSigned(hash, entry, passphrase, [0], Void);
      var digest := AuthDigest(hash, entry, passphrase, [0]).value;
      DelegatedAuthPayloadValid(g);
      CheckAuthValid(smartAccount, digest);
      var root := CheckAuthInvocation(smartAccount, digest);
      var preimage := Preimage(hash(passphrase), nonce, validUntil, root);
      var template := AuthEntry(AddressCredentials(g, nonce, validUntil, Void), root);
      Ok(BuildReply(EncodeAuth(WithSignature(entry, DelegatedAuthPayload(g))), EncodePreimage(preimage),
                    EncodeAuth(template), digest, validUntil))
  }

  /** POST of build-delegated: the entry's expiry is set, the digest computed, then its signature set. */
  method BuildDelegated(hash: seq<byte> -> Bytes32, passphrase: seq<byte>, simulated: seq<byte>, latestLedger: nat,
                        smartAccount: ScAddress, g: ScAddress, nonce: i64) returns (r: Result<BuildReply>)
    ensures r == Build(hash, passphrase, simulated, latestLedger, smartAccount, g, nonce)
  {
    hide AuthFromXdr;
    var parsed := AuthFromXdr(simulated);
    if parsed.None? || parsed.value.credentials.SourceAccount? {
      return Err("bad auth entry");
    }
    if latestLedger + LEDGERS_VALID >= TWO_32 {
      return Err("ledger out of range");
    }
    AuthExactly(simulated, parsed.value);
    var rawEntry := new EntryObject(parsed.value);
    var validUntil := latestLedger + LEDGERS_VALID;
    rawEntry.SetExpiration(validUntil);
    SignatureIsNotSigned(hash, rawEntry.Value(), passphrase, [0], Void);
    var digest := AuthDigest(hash, rawEntry.Value(), passphrase, [0]).value;
    rawEntry.SetSignature(DelegatedAuthPayload(g));
    CheckAuthValid(smartAccount, digest);
    DelegatedAuthPayloadValid(g);
    var invocation := CheckAuthInvocation(smartAccount, digest);
    var preimage := EncodePreimage(Preimage(hash(passphrase), nonce, validUntil, invocation));
    var template := EncodeAuth(AuthEntry(AddressCredentials(g, nonce, validUntil, Void), invocation));
    return Ok(BuildReply(EncodeAuth(rawEntry.Value()), preimage, template, digest, validUntil));
  }

  /** The entries submit-delegated puts on the transaction. */
  function Submit(smartEntryXdr: seq<byte>, templateXdr: seq<byte>, signature: seq<byte>, key: Bytes32)
    : Result<seq<AuthEntry>>
  {
    var smart, template := AuthFromXdr(smartEntryXdr), AuthFromXdr(templateXdr);
    if smart.None? then Err("bad smart account entry")
    else if |signature| != 64 then Err("expected 64-byte signature")
    else if template.None? || template.value.credentials.SourceAccount? then Err("bad template")
    else Ok([smart.value, WithSignature(template.value, AccountSignature(key, signature))])
  }

  method SubmitDelegated(smartEntryXdr: seq<byte>, templateXdr: seq<byte>, signature: seq<byte>, key: Bytes32)
    returns (r: Result<seq<AuthEntry>>)
    ensures r == Submit(smartEntryXdr, templateXdr, signature, key)
  {
    var smart := AuthFromXdr(smartEntryXdr);
    if smart.None? {
      return Err("bad smart account entry");
    }
    if |signature| != 64 {
      return Err("expected 64-byte signature");
    }
    var template := AuthFromXdr(templateXdr);
    if template.None? || template.value.credentials.SourceAccount? {
      return Err("bad template");
    }
    var gEntry := new EntryObject(template.value);
    gEntry.SetSignature(AccountSignature(key, signature));
    return Ok([smart.value, gEntry.Value()]);
  }

  /** The entry with its new expiry, as build leaves it but for the signature. */
  function Extended(simulated: seq<byte>, latestLedger: nat): AuthEntry
    requires AuthFromXdr(simulated).Some? && AuthFromXdr(simulated).value.credentials.AddressCredentials?
    requires latestLedger + LEDGERS_VALID < TWO_32
  {
    var e := AuthFromXdr(simulated).value;
    e.(credentials := e.credentials.(expirationLedger := latestLedger + LEDGERS_VALID))
  }

  /** The classic account's entry without a signature. */
  function Template(smartAccount: ScAddress, g: ScAddress, nonce: i64, ledger: u32, digest: Bytes32): AuthEntry {
    AuthEntry(AddressCredentials(g, nonce, ledger, Void), CheckAuthInvocation(smartAccount, digest))
  }

  lemma SubmitOfBuild(hash: seq<byte> -> Bytes32, passphrase: seq<byte>, simulated: seq<byte>, latestLedger: nat,
                      smartAccount: ScAddress, g: ScAddress, nonce: i64, signature: seq<byte>, key: Bytes32)
    requires Build(hash, passphrase, simulated, latestLedger, smartAccount, g, nonce).Ok?
    ensures AuthFromXdr(simulated).Some? && AuthFromXdr(simulated).value.credentials.AddressCredentials?
    ensures latestLedger + LEDGERS_VALID < TWO_32
    ensures var entry := Extended(simulated, latestLedger);
            var reply := Build(hash, passphrase, simulated, latestLedger, smartAccount, g, nonce).value;
            var template := Template(smartAccount, g, nonce, reply.validUntil, reply.digest);
            && ValidAuth(entry) && ValidAuth(template)
            && AuthDigest(hash, entry, passphrase, [0]) == Some(reply.digest)
            && reply.validUntil == latestLedger + LEDGERS_VALID
            && reply.preimageXdr == EncodePreimage(Preimage(hash(passphrase), nonce, reply.validUntil, template.root))
            && Submit(reply.smartEntryXdr, reply.templateXdr, signature, key) ==
                 if |signature| != 64 then Err("expected 64-byte signature")
                 else Ok([WithSignature(entry, DelegatedAuthPayload(g)),
                          WithSignature(template, AccountSignature(key, signature))])
  {
    hide AuthFromXdr, HashAuthPayload, EncodeAuth, EncodePreimage, AuthDigest, DelegatedAuthPayload, AccountSignature,
         CheckAuthInvocation;
    AuthExactly(simulated, AuthFromXdr(simulated).value);
    var entry := Extended(simulated, latestLedger);
    DelegatedAuthPayloadValid(g);
    SignatureIsNotSigned(hash, entry, passphrase, [0], DelegatedAuthPayload(g));
    var digest := AuthDigest(hash, entry, passphrase, [0]).value;
    CheckAuthValid(smartAccount, digest);
    var smart := WithSignature(entry, DelegatedAuthPayload(g));
    var template := Template(smartAccount, g, nonce, latestLedger + LEDGERS_VALID, digest);
    AuthExactly(EncodeAuth(smart), smart);
    AuthExactly(EncodeAuth(template), template);
  }

  /** The smart account's entry as submitted: the simulated one, but for an expiry 60 ledgers on and the payload that
      names the delegate under rule 0; and its digest, signature included, is the one that was handed out. */
  ghost predicate SmartEntryAgrees(hash: seq<byte> -> Bytes32, passphrase: seq<byte>, simulated: seq<byte>,
                                   latestLedger: nat, g: ScAddress, reply: BuildReply, final: AuthEntry)
  {
    var e := AuthFromXdr(simulated);
    && e.Some? && e.value.credentials.AddressCredentials?
    && ValidAuth(final) && final.credentials.AddressCredentials?
    && final.root == e.value.root && final.credentials.address == e.value.credentials.address
    && final.credentials.nonce == e.value.credentials.nonce
    && final.credentials.expirationLedger == reply.validUntil == latestLedger + 60
    && SignedBy(final.credentials.signature, Vec([Symbol(Ascii("Delegated")), Address(g)]), [], [0])
    && Ascending(final.credentials.signature.entries)
    && AuthDigest(hash, final, passphrase, [0]) == Some(reply.digest)
  }

  /** The classic account's entry as submitted: it authorises the check of exactly that digest, until the same ledger;
      the bytes it was asked to sign are the preimage that is hashed for it; and it carries the given signature. */
  ghost predicate AccountEntryAgrees(hash: seq<byte> -> Bytes32, passphrase: seq<byte>, smartAccount: ScAddress,
                                     g: ScAddress, nonce: i64, signature: seq<byte>, key: Bytes32, reply: BuildReply,
                                     final: AuthEntry)
  {
    && ValidAuth(final) && final.credentials.AddressCredentials?
    && ChecksDigest(final.root, smartAccount, reply.digest)
    && final.credentials.address == g && final.credentials.nonce == nonce
    && final.credentials.expirationLedger == reply.validUntil
    && IsPreimageOf(reply.preimageXdr, final, hash(passphrase))
    && HashAuthPayload(hash, final, passphrase) == Some(hash(reply.preimageXdr))
    && IsAccountSignature(final.credentials.signature, key, signature)
    && Ascending(final.credentials.signature.vals[0].entries)
  }

  lemma SmartEntryOfBuild(hash: seq<byte> -> Bytes32, passphrase: seq<byte>, simulated: seq<byte>, latestLedger: nat,
                          g: ScAddress, reply: BuildReply)
    requires AuthFromXdr(simulated).Some? && AuthFromXdr(simulated).value.credentials.AddressCredentials?
    requires latestLedger + LEDGERS_VALID < TWO_32 && ValidAuth(Extended(simulated, latestLedger))
    requires AuthDigest(hash, Extended(simulated, latestLedger), passphrase, [0]) == Some(reply.digest)
    requires reply.validUntil == latestLedger + LEDGERS_VALID
    ensures SmartEntryAgrees(hash, passphrase, simulated, latestLedger, g, reply,
                             WithSignature(Extended(simulated, latestLedger), DelegatedAuthPayload(g)))
  {
    hide AuthFromXdr, AuthDigest, AuthPayload, SignedBy, Ascending, Valid, ValidInvocation;
    DelegatedAuthPayloadValid(g);
    AuthPayloadAscends(DelegatedSigner(g), [], [0]);
    AuthPayloadReads(DelegatedSigner(g), [], [0]);
    SignatureIsNotSigned(hash, Extended(simulated, latestLedger), passphrase, [0], DelegatedAuthPayload(g));
  }

  lemma AccountEntryOfBuild(hash: seq<byte> -> Bytes32, passphrase: seq<byte>, smartAccount: ScAddress, g: ScAddress,
                            nonce: i64, signature: seq<byte>, key: Bytes32, reply: BuildReply)
    requires |signature| < TWO_32
    requires var root := CheckAuthInvocation(smartAccount, reply.digest);
             && ValidInvocation(root)
             && reply.preimageXdr == EncodePreimage(Preimage(hash(passphrase), nonce, reply.validUntil, root))
    ensures AccountEntryAgrees(hash, passphrase, smartAccount, g, nonce, signature, key, reply,
                               WithSignature(Template(smartAccount, g, nonce, reply.validUntil, reply.digest),
                                             AccountSignature(key, signature)))
  {
    hide EntryPreimage, EncodePreimage, DecodePreimage, AccountSignature, IsAccountSignature, Ascending, Valid,
         ValidInvocation;
    AccountSignatureValid(key, signature);
    AccountSignatureAscends(key, signature);
    AccountSignatureReads(key, signature);
    var template := Template(smartAccount, g, nonce, reply.validUntil, reply.digest);
    var final := WithSignature(template, AccountSignature(key, signature));
    EntryPreimageShape(hash, final, passphrase);
    var p := Preimage(hash(passphrase), nonce, reply.validUntil, template.root);
    PreimageRoundTrip(p, []);
    assert EncodePreimage(p) + [] == EncodePreimage(p);
  }

  /** From build to submit nothing that was signed or hashed has changed, and exactly the 64-byte signatures
      are accepted. */
  lemma DelegatedAgreement(hash: seq<byte> -> Bytes32, passphrase: seq<byte>, simulated: seq<byte>, latestLedger: nat,
                           smartAccount: ScAddress, g: ScAddress, nonce: i64, signature: seq<byte>, key: Bytes32)
    requires Build(hash, passphrase, simulated, latestLedger, smartAccount, g, nonce).Ok?
    ensures var reply := Build(hash, passphrase, simulated, latestLedger, smartAccount, g, nonce).value;
            var final := Submit(reply.smartEntryXdr, reply.templateXdr, signature, key);
            && (final.Ok? <==> |signature| == 64)
            && (final.Ok? ==>
                  && |final.value| == 2
                  && SmartEntryAgrees(hash, passphrase, simulated, latestLedger, g, reply, final.value[0])
                  && AccountEntryAgrees(hash, passphrase, smartAccount, g, nonce, signature, key, reply,
                                        final.value[1]))
  {
    hide AuthFromXdr, Build, Submit, HashAuthPayload, EntryPreimage, SmartEntryAgrees, AccountEntryAgrees;
    SubmitOfBuild(hash, passphrase, simulated, latestLedger, smartAccount, g, nonce, signature, key);
    if |signature| == 64 {
      var reply := Build(hash, passphrase, simulated, latestLedger, smartAccount, g, nonce).value;
      SmartEntryOfBuild(hash, passphrase, simulated, latestLedger, g, reply);
      AccountEntryOfBuild(hash, passphrase, smartAccount, g, nonce, signature, key, reply);
    }
  }

  /** Build answers for exactly the entries with address credentials, as long as the expiry fits. */
  lemma BuildsExactlyWhen(hash: seq<byte> -> Bytes32, passphrase: seq<byte>, simulated: seq<byte>, latestLedger: nat,
                          smartAccount: ScAddress, g: ScAddress, nonce: i64)
    ensures Build(hash, passphrase, simulated, latestLedger, smartAccount, g, nonce).Ok? <==>
            && latestLedger + 60 < TWO_32
            && exists e :: ValidAuth(e) && e.credentials.AddressCredentials? && simulated == EncodeAuth(e)
  {
    hide AuthFromXdr, EncodeAuth, AuthDigest;
    if AuthFromXdr(simulated).Some? {
      AuthExactly(simulated, AuthFromXdr(simulated).value);
    }
    if e :| ValidAuth(e) && e.credentials.AddressCredentials? && simulated == EncodeAuth(e) {
      AuthExactly(simulated, e);
    }
  }

  /** The library's unsigned entry and the route's template are signed alike when nonce and expiry are the same. */
  lemma UnsignedEntryHasTemplatePreimage(hash: seq<byte> -> Bytes32, passphrase: seq<byte>, smartAccount: ScAddress,
                                         g: ScAddress, digest: Bytes32, ledger: u32, nonce: i64)
    ensures var unsigned := UnsignedCheckAuthEntry(smartAccount, g, digest, ledger, nonce);
            var template := Template(smartAccount, g, nonce, ledger, digest);
            && unsigned.Some? && ValidAuth(unsigned.value) && ValidAuth(template)
            && EntryPreimage(hash, unsigned.value, passphrase) == EntryPreimage(hash, template, passphrase)
            && ChecksDigest(unsigned.value.root, smartAccount, digest)
            && unsigned.value.credentials == AddressCredentials(g, nonce, ledger, Vec([]))
  {
    CheckAuthValid(smartAccount, digest);
    var unsigned := UnsignedCheckAuthEntry(smartAccount, g, digest, ledger, nonce).value;
    EntryPreimageShape(hash, unsigned, passphrase);
    EntryPreimageShape(hash, WithSignature(unsigned, Void), passphrase);
  }

  // ---------------------------------------------------------------------------------------------
  // Phantom flow
  // ---------------------------------------------------------------------------------------------

  /** The entry the submit route puts on the transaction, or why it refuses. */
  function PhantomSubmit(hash: seq<byte> -> Bytes32, passphrase: seq<byte>, verifier: ScAddress, entryXdr: seq<byte>,
                         message: string, signatureHex: string, keyHex: string): Result<AuthEntry>
  {
    if !GateFormat(message) then Err("bad message format")
    else if |signatureHex| != 128 || !IsLowerHex(signatureHex) then Err("bad signature format")
    else if |keyHex| != 64 || !IsLowerHex(keyHex) then Err("bad key format")
    else
      var parsed := AuthFromXdr(entryXdr);
      if parsed.None? || parsed.value.credentials.SourceAccount? then Err("bad auth entry")
      else
        AuthExactly(entryXdr, parsed.value);
        SignatureIsNotSigned(hash, parsed.value, passphrase, [0], Void);
        var digest := AuthDigest(hash, parsed.value, passphrase, [0]).value;
        if message[|PREFIX|..] != ToHex(digest) then Err("signed hash does not match")
        else
          Ok(WithSignature(parsed.value,
                           AuthPayload(ExternalSigner(verifier, FromHex(keyHex)), FromHex(signatureHex), [0])))
  }

  method SubmitPhantom(hash: seq<byte> -> Bytes32, passphrase: seq<byte>, verifier: ScAddress, entryXdr: seq<byte>,
                       message: string, signatureHex: string, keyHex: string) returns (r: Result<AuthEntry>)
    ensures r == PhantomSubmit(hash, passphrase, verifier, entryXdr, message, signatureHex, keyHex)
  {
    if !GateFormat(message) {
      return Err("bad message format");
    }
    if |signatureHex| != 128 || !IsLowerHex(signatureHex) {
      return Err("bad signature format");
    }
    if |keyHex| != 64 || !IsLowerHex(keyHex) {
      return Err("bad key format");
    }
    var parsed := AuthFromXdr(entryXdr);
    if parsed.None? || parsed.value.credentials.SourceAccount? {
      return Err("bad auth entry");
    }
    AuthExactly(entryXdr, parsed.value);
    var entry := new EntryObject(parsed.value);
    SignatureIsNotSigned(hash, entry.Value(), passphrase, [0], Void);
    var digest := AuthDigest(hash, entry.Value(), passphrase, [0]).value;
    if message[|PREFIX|..] != ToHex(digest) {
      return Err("signed hash does not match");
    }
    var signer := ExternalSigner(verifier, FromHex(keyHex));
    entry.SetSignature(AuthPayload(signer, FromHex(signatureHex), [0]));
    return Ok(entry.Value());
  }

  /** Whatever is accepted: the text that was signed is the text of the digest of the entry as submitted, so it is
      what the verifier contract recomputes; the payload on the entry names the verifier with the key in the request,
      byte for byte, as its one signer, with the signature in the request as its data; and apart from its signature
      the entry is the one that was sent. */
  lemma PhantomAgreement(hash: seq<byte> -> Bytes32, passphrase: seq<byte>, verifier: ScAddress, entryXdr: seq<byte>,
                         message: string, signatureHex: string, keyHex: string)
    requires PhantomSubmit(hash, passphrase, verifier, entryXdr, message, signatureHex, keyHex).Ok?
    ensures var final := PhantomSubmit(hash, passphrase, verifier, entryXdr, message, signatureHex, keyHex).value;
            && ValidAuth(final) && AuthDigest(hash, final, passphrase, [0]).Some?
            && message == PREFIX + ToHex(AuthDigest(hash, final, passphrase, [0]).value)
            && Utf8(message) == ExpectedBytes(AuthDigest(hash, final, passphrase, [0]).value)
            && |FromHex(keyHex)| == 32 && ToHex(FromHex(keyHex)) == keyHex
            && |FromHex(signatureHex)| == 64 && ToHex(FromHex(signatureHex)) == signatureHex
            && AuthFromXdr(entryXdr) == Some(WithSignature(final, AuthFromXdr(entryXdr).value.credentials.signature))
            && SignedBy(final.credentials.signature,
                        Vec([Symbol(Ascii("External")), Address(verifier), ScVal.Bytes(FromHex(keyHex))]),
                        FromHex(signatureHex), [0])
            && Ascending(final.credentials.signature.entries)
  {
    hide AuthFromXdr, AuthDigest, Utf8, ToHex, FromHex, IsLowerHex, AuthPayload, Ascending, EncodeAuth, SignedBy, Ascii,
         Valid, GateFormat, ExpectedBytes;
    var parsed := AuthFromXdr(entryXdr).value;
    AuthExactly(entryXdr, parsed);
    HexField(keyHex, 32);
    HexField(signatureHex, 64);
    ExternalPayloadValid(verifier, FromHex(keyHex), FromHex(signatureHex));
    AuthPayloadAscends(ExternalSigner(verifier, FromHex(keyHex)), FromHex(signatureHex), [0]);
    AuthPayloadReads(ExternalSigner(verifier, FromHex(keyHex)), FromHex(signatureHex), [0]);
    var payload := AuthPayload(ExternalSigner(verifier, FromHex(keyHex)), FromHex(signatureHex), [0]);
    SignatureIsNotSigned(hash, parsed, passphrase, [0], payload);
    AcceptedText(message, AuthDigest(hash, parsed, passphrase, [0]).value);
  }

  lemma HexField(s: string, n: nat)
    requires |s| == 2 * n && IsLowerHex(s)
    ensures |FromHex(s)| == n && ToHex(FromHex(s)) == s
  {
    hide FromHex, IsLowerHex;
    ToFromHex(s);
  }

  lemma AcceptedText(message: string, digest: Bytes32)
    requires GateAccepts(message, digest)
    ensures message == PREFIX + ToHex(digest) && Utf8(message) == ExpectedBytes(digest)
  {
    hide GateAccepts, ToHex, Utf8, ExpectedBytes;
    GateExactly(message, digest);
    GateBytes(message, digest);
    WantedIsAscii(digest);
    Utf8OfAscii(message);
  }

  /** A message is accepted for an entry exactly when it is the text of that entry's digest; nothing else in a
      well-formed request matters. */
  lemma PhantomAcceptsExactly(hash: seq<byte> -> Bytes32, passphrase: seq<byte>, verifier: ScAddress, e: AuthEntry,
                              message: string, signature: seq<byte>, key: Bytes32)
    requires ValidAuth(e) && e.credentials.AddressCredentials? && |signature| == 64
    ensures AuthDigest(hash, e, passphrase, [0]).Some?
    ensures PhantomSubmit(hash, passphrase, verifier, EncodeAuth(e), message, ToHex(signature), ToHex(key)).Ok?
            <==> message == PREFIX + ToHex(AuthDigest(hash, e, passphrase, [0]).value)
  {
    AuthExactly(EncodeAuth(e), e);
    SignatureIsNotSigned(hash, e, passphrase, [0], Void);
    GateExactly(message, AuthDigest(hash, e, passphrase, [0]).value);
  }
}
