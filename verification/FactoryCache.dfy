/** Deploying smart accounts through the factory contract: the in-memory cache of the Ed25519 route, with any
    number of server instances over one ledger, and the polling loops of both routes. */
module FactoryCache {
  import opened Bytes
  import opened ScVals
  import MessageFormat
  import OriginChecks
  import SigningFlows

  /** What the routes use of the outside world: a hash, the address the factory assigns to parameters, the classic
      address of a key (None where the conversion throws), and the two relying-party checks as configured. */
  datatype World = World(hash: seq<byte> -> Bytes32, addressOf: ScVal -> string, classic: string -> Option<string>,
                         resolve: (OriginChecks.Headers, Option<string>) -> Result<OriginChecks.Context>,
                         accepts: (OriginChecks.Site, OriginChecks.Context) -> bool)

  /** deriveSalt and deriveWebauthnSalt. */
  function Salt(w: World, keyHex: string, version: string): Bytes32 {
    w.hash(MessageFormat.Utf8(keyHex + version))
  }

  /** get_account_address for an Ed25519 key. */
  function Predict(w: World, keyHex: string): string {
    w.addressOf(SigningFlows.AccountInitParams(FromHex(keyHex), Salt(w, keyHex, "factory-v2"), "Ed25519"))
  }

  /** get_account_address for a passkey's key data. */
  function PredictWebAuthn(w: World, keyDataHex: string): string {
    w.addressOf(SigningFlows.AccountInitParams(FromHex(keyDataHex), Salt(w, keyDataHex, "webauthn-v1"), "WebAuthn"))
  }

  /** Both are the address of parameters in which the contract finds the key bytes, the salt of this text and version,
      and one signer of this kind. */
  lemma PredictedFrom(w: World, hex: string) returns (ed25519: ScVal, webAuthn: ScVal)
    ensures Predict(w, hex) == w.addressOf(ed25519) && PredictWebAuthn(w, hex) == w.addressOf(webAuthn)
    ensures var salt := w.hash(MessageFormat.Utf8(hex + "factory-v2"));
            SigningFlows.IsInitParams(ed25519, FromHex(hex), salt, "Ed25519")
    ensures var salt := w.hash(MessageFormat.Utf8(hex + "webauthn-v1"));
            SigningFlows.IsInitParams(webAuthn, FromHex(hex), salt, "WebAuthn")
  {
    hide SigningFlows.AccountInitParams, SigningFlows.IsInitParams, MessageFormat.Utf8, FromHex;
    ed25519 := SigningFlows.AccountInitParams(FromHex(hex), Salt(w, hex, "factory-v2"), "Ed25519");
    webAuthn := SigningFlows.AccountInitParams(FromHex(hex), Salt(w, hex, "webauthn-v1"), "WebAuthn");
    SigningFlows.AccountInitParamsRead(FromHex(hex), Salt(w, hex, "factory-v2"), "Ed25519");
    SigningFlows.AccountInitParamsRead(FromHex(hex), Salt(w, hex, "webauthn-v1"), "WebAuthn");
  }

  // Addresses that do not collide.

  ghost predicate Injective(f: ScVal -> string) {
    forall x, y :: f(x) == f(y) ==> x == y
  }

  lemma SameAddress(w: World, b1: seq<byte>, b2: seq<byte>)
    requires Injective(w.addressOf)
    ensures PredictWebAuthn(w, ToHex(b1)) == PredictWebAuthn(w, ToHex(b2)) <==> b1 == b2
  {
    FromToHex(b1);
    FromToHex(b2);
    SigningFlows.AccountInitParamsInjective(b1, Salt(w, ToHex(b1), "webauthn-v1"),
                                            b2, Salt(w, ToHex(b2), "webauthn-v1"), "WebAuthn");
  }

  /** The counterpart for Ed25519 keys: here the salt is of the text as it was sent, so that two texts of one key - in
      different case, say - get different addresses unless their salts collide. The two kinds never share one. */
  lemma SameEd25519AddressExactlyWhen(w: World, k1: string, k2: string)
    requires Injective(w.addressOf)
    ensures Predict(w, k1) == Predict(w, k2) <==>
            && FromHex(k1) == FromHex(k2)
            && w.hash(MessageFormat.Utf8(k1 + "factory-v2")) == w.hash(MessageFormat.Utf8(k2 + "factory-v2"))
    ensures IsLowerHex(k1) && IsLowerHex(k2) && |k1| == |k2| == 64 ==>
              (Predict(w, k1) == Predict(w, k2) <==> k1 == k2)
    ensures Predict(w, k1) != PredictWebAuthn(w, k2)
  {
    hide FromHex, IsLowerHex, MessageFormat.Utf8, SigningFlows.AccountInitParams;
    SigningFlows.AccountInitParamsInjective(FromHex(k1), Salt(w, k1, "factory-v2"),
                                            FromHex(k2), Salt(w, k2, "factory-v2"), "Ed25519");
    SigningFlows.KindsDiffer(FromHex(k1), Salt(w, k1, "factory-v2"),
                             FromHex(k2), Salt(w, k2, "webauthn-v1"));
    if IsLowerHex(k1) && IsLowerHex(k2) && |k1| == |k2| == 64 {
      ToFromHex(k1);
      ToFromHex(k2);
    }
  }

  /** Two texts of one key, of the length that both handlers ask for. */
  lemma TwoTextsOneKey(w: World, rest: string)
    requires |rest| == 62 && Injective(w.addressOf)
    ensures |"aa" + rest| == |"AA" + rest| == 64 && FromHex("aa" + rest) == FromHex("AA" + rest)
    ensures Predict(w, "aa" + rest) == Predict(w, "AA" + rest) <==>
            w.hash(MessageFormat.Utf8("aa" + rest + "factory-v2"))
            == w.hash(MessageFormat.Utf8("AA" + rest + "factory-v2"))
  {
    assert ("aa" + rest)[2..] == rest && ("AA" + rest)[2..] == rest;
    hide Predict, MessageFormat.Utf8;
    SameEd25519AddressExactlyWhen(w, "aa" + rest, "AA" + rest);
  }

  // ---------------------------------------------------------------------------------------------
  // Polling
  // ---------------------------------------------------------------------------------------------

  datatype TxStatus = NotFound | Success(returned: Option<string>) | Failed

  const POLLS := 30

  /** The first answer other than NOT_FOUND among polls i to POLLS - 1, or NOT_FOUND. */
  function Settled(answers: nat -> TxStatus, i: nat): TxStatus
    decreases POLLS - i
  {
    if i >= POLLS then NotFound
    else if answers(i) != NotFound then answers(i)
    else Settled(answers, i + 1)
  }

  /** NOT_FOUND means that every one of the polls answered so; anything else is an answer after nothing but
      NOT_FOUND. */
  lemma {:induction false} SettledExactly(answers: nat -> TxStatus, i: nat)
    ensures Settled(answers, i) == NotFound <==> forall k: nat :: i <= k < 30 ==> answers(k) == NotFound
    ensures Settled(answers, i) != NotFound ==>
              exists k: nat :: i <= k < 30 && answers(k) == Settled(answers, i)
                               && forall j: nat :: i <= j < k ==> answers(j) == NotFound
    decreases POLLS - i
  {
    if i < POLLS && answers(i) == NotFound {
      SettledExactly(answers, i + 1);
    }
  }

  // ---------------------------------------------------------------------------------------------
  // The passkey library: deployWebauthnSmartAccount
  // ---------------------------------------------------------------------------------------------

  predicate Acceptable(status: TxStatus, predicted: string) {
    match status
    case NotFound => true
    case Success(returned) => returned in {None, Some(""), Some(predicted)}
    case Failed => false
  }

  /** `deployed` is the ledger's answer before, `simulated` and `sent` whether those calls went well. The answer is
      always the predicted address. It is given exactly when the account was there already, or the transaction was
      sent and did not fail or return another address: 30 polls without an answer count as success. */
  method DeployWebauthn(predicted: string, deployed: bool, simulated: bool, sent: bool, answers: nat -> TxStatus)
    returns (r: Result<(string, bool)>)
    ensures r.Ok? ==> r.value == (predicted, deployed)
    ensures r.Ok? <==> (deployed || (simulated && sent && Acceptable(Settled(answers, 0), predicted)))
  {
    if deployed {
      return Ok((predicted, true));
    }
    if !simulated {
      return Err("create_account simulation failed");
    }
    if !sent {
      return Err("Factory create_account failed");
    }
    var address: Option<string> := None;
    var i := 0;
    while i < POLLS
      invariant 0 <= i <= POLLS
      invariant address == None && Settled(answers, 0) == Settled(answers, i)
    {
      var status := answers(i);
      if status == NotFound {
        i := i + 1;
        continue;
      }
      if status.Success? {
        address := status.returned;
        break;
      }
      return Err("Factory deployment failed");
    }
    var smartAccountAddress := if address.None? || address.value == "" then predicted else address.value;
    if smartAccountAddress != predicted {
      return Err("Deterministic address mismatch");
    }
    return Ok((smartAccountAddress, false));
  }

  // ---------------------------------------------------------------------------------------------
  // The Ed25519 route
  // ---------------------------------------------------------------------------------------------

  datatype CacheEntry = CacheEntry(smartAccount: string, classic: string)

  type Cache = map<string, CacheEntry>

  datatype GetReply = BadKey | NotConfigured | Looked(deployed: bool, address: string) | GetFailed

  /** GET's reply and the cache it leaves. `simulated` says whether the address simulation succeeded. */
  function Get(w: World, configured: bool, cache: Cache, ledger: set<string>, key: string, simulated: bool)
    : (GetReply, Cache)
  {
    if |key| != 64 then (BadKey, cache)
    else if !configured then (NotConfigured, cache)
    else if key in cache then (Looked(true, cache[key].smartAccount), cache)
    else if !simulated then (GetFailed, cache)
    else
      var predicted := Predict(w, key);
      if predicted !in ledger then (Looked(false, predicted), cache)
      else
        var g := w.classic(key);
        if g.None? then (GetFailed, cache)
        else (Looked(true, predicted), cache[key := CacheEntry(predicted, g.value)])
  }

  /** What the network did during one POST: funding, configuration, the simulation (None when it failed; the address
      it returned, itself None when unreadable), sending, and the answers to the polls. */
  datatype Deployment = Deployment(funded: bool, configured: bool, simulated: Option<Option<string>>, sent: bool,
                                   answers: nat -> TxStatus)

  datatype PostReply = BadKeyPost | Existing(entry: CacheEntry) | Created(entry: CacheEntry) | PostFailed

  /** The address a successful deployment reports: the transaction's, or else the simulation's, or else empty. */
  function Reported(d: Deployment): string
    requires Settled(d.answers, 0).Success? && d.simulated.Some?
  {
    var returned := Settled(d.answers, 0).returned;
    if returned.Some? then returned.value
    else if d.simulated.value.Some? then d.simulated.value.value
    else ""
  }

  predicate Succeeds(d: Deployment) {
    d.funded && d.configured && d.simulated.Some? && d.sent && Settled(d.answers, 0).Success?
  }

  function Post(w: World, cache: Cache, key: string, d: Deployment): (PostReply, Cache) {
    if |key| != 64 then (BadKeyPost, cache)
    else
      var g := w.classic(key);
      if g.None? then (PostFailed, cache)
      else if key in cache then (Existing(cache[key]), cache)
      else if !Succeeds(d) then (PostFailed, cache)
      else
        var entry := CacheEntry(Reported(d), g.value);
        (Created(entry), cache[key := entry])
  }

  /** One server process with its module-level map. */
  class Instance {
    const world: World
    var deployedAccounts: Cache

    constructor (w: World)
      ensures world == w && deployedAccounts == map[]
    {
      world := w;
      deployedAccounts := map[];
    }

    method HandleGet(configured: bool, ledger: set<string>, key: string, simulated: bool) returns (reply: GetReply)
      modifies this
      ensures (reply, deployedAccounts) == Get(world, configured, old(deployedAccounts), ledger, key, simulated)
    {
      if |key| != 64 {
        return BadKey;
      }
      if !configured {
        return NotConfigured;
      }
      if key in deployedAccounts {
        return Looked(true, deployedAccounts[key].smartAccount);
      }
      if !simulated {
        return GetFailed;
      }
      var predictedAddress := Predict(world, key);
      var deployed := predictedAddress in ledger;
      if deployed {
        var g := world.classic(key);
        if g.None? {
          return GetFailed;
        }
        deployedAccounts := deployedAccounts[key := CacheEntry(predictedAddress, g.value)];
      }
      return Looked(deployed, predictedAddress);
    }

    /** POST, with its loop of at most 30 polls. */
    method HandlePost(key: string, d: Deployment) returns (reply: PostReply)
      modifies this
      ensures (reply, deployedAccounts) == Post(world, old(deployedAccounts), key, d)
    {
      if |key| != 64 {
        return BadKeyPost;
      }
      var g := world.classic(key);
      if g.None? {
        return PostFailed;
      }
      if key in deployedAccounts {
        return Existing(deployedAccounts[key]);
      }
      if !d.funded || !d.configured || d.simulated.None? || !d.sent {
        return PostFailed;
      }
      var smartAccountAddress := if d.simulated.value.Some? then d.simulated.value.value else "";
      var status := NotFound;
      var i := 0;
      while i < POLLS
        invariant 0 <= i <= POLLS
        invariant status == NotFound && Settled(d.answers, 0) == Settled(d.answers, i)
      {
        status := d.answers(i);
        if status != NotFound {
          break;
        }
        i := i + 1;
      }
      assert status == Settled(d.answers, 0);
      if !status.Success? {
        return PostFailed;
      }
      if status.returned.Some? {
        smartAccountAddress := status.returned.value;
      }
      var entry := CacheEntry(smartAccountAddress, g.value);
      deployedAccounts := deployedAccounts[key := entry];
      return Created(entry);
    }
  }

  // ---------------------------------------------------------------------------------------------
  // Any number of instances over one growing ledger
  // ---------------------------------------------------------------------------------------------

  /** A chain whose factory is deterministic: what it reports for a key is the predicted address, and a settled
      success is on the ledger. */
  predicate Honest(w: World, key: string, d: Deployment, ledger: set<string>) {
    && (d.simulated.Some? && d.simulated.value.Some? ==> d.simulated.value.value == Predict(w, key))
    && (Settled(d.answers, 0).Success? && Settled(d.answers, 0).returned.Some? ==>
          Settled(d.answers, 0).returned.value == Predict(w, key))
    && (Settled(d.answers, 0).Success? ==> Predict(w, key) in ledger)
  }

  /** At least one of the two addresses a deployment reports could be read. */
  predicate Readable(d: Deployment) {
    || (d.simulated.Some? && d.simulated.value.Some?)
    || (Settled(d.answers, 0).Success? && Settled(d.answers, 0).returned.Some?)
  }

  /** On an honest chain the reported address is the predicted one exactly when one of the two was readable. */
  lemma ReportedExactlyWhen(w: World, key: string, d: Deployment, ledger: set<string>)
    requires Succeeds(d) && Honest(w, key, d, ledger) && Predict(w, key) != ""
    ensures Reported(d) == Predict(w, key) <==> Readable(d)
  {
  }

  /** `observed` holds what requests have seen on the ledger and not yet written to their instance's map: other
      requests run between the two. */
  datatype Cluster = Cluster(ledger: set<string>, caches: map<nat, Cache>, observed: set<(nat, string, CacheEntry)>)

  datatype Step =
    | Boot(instance: nat)
    | Deploy(address: string)
    | LookUp(instance: nat, key: string)
    | Settle(instance: nat, key: string, deployment: Deployment)
    | Store(instance: nat, key: string, entry: CacheEntry)

  predicate Enabled(w: World, c: Cluster, s: Step) {
    match s
    case Boot(_) => true
    case Deploy(_) => true
    case LookUp(i, key) => i in c.caches && |key| == 64 && Predict(w, key) in c.ledger && w.classic(key).Some?
    case Settle(i, key, d) =>
      i in c.caches && |key| == 64 && w.classic(key).Some? && Succeeds(d) && Honest(w, key, d, c.ledger)
    case Store(i, key, entry) => i in c.caches && (i, key, entry) in c.observed
  }

  function Next(w: World, c: Cluster, s: Step): Cluster
    requires Enabled(w, c, s)
  {
    match s
    case Boot(i) => c.(caches := c.caches[i := map[]])
    case Deploy(a) => c.(ledger := c.ledger + {a})
    case LookUp(i, key) =>
      c.(observed := c.observed + {(i, key, CacheEntry(Predict(w, key), w.classic(key).value))})
    case Settle(i, key, d) =>
      c.(observed := c.observed + {(i, key, CacheEntry(Reported(d), w.classic(key).value))})
    case Store(i, key, entry) => c.(caches := c.caches[i := c.caches[i][key := entry]])
  }

  /** The entry is for a deployed account and gives its address. */
  predicate Truthful(w: World, ledger: set<string>, key: string, e: CacheEntry) {
    e.smartAccount == Predict(w, key) && Predict(w, key) in ledger && w.classic(key) == Some(e.classic)
  }

  /** The entry is for a deployed account, whose address could not be read. */
  predicate Blank(w: World, ledger: set<string>, key: string, e: CacheEntry) {
    e.smartAccount == "" && Predict(w, key) in ledger && w.classic(key) == Some(e.classic)
  }

  /** Whether blank entries are possible is a question of which deployments have settled. */
  predicate Good(w: World, ledger: set<string>, key: string, e: CacheEntry, blanks: bool) {
    Truthful(w, ledger, key, e) || (blanks && Blank(w, ledger, key, e))
  }

  ghost predicate Inv(w: World, c: Cluster, blanks: bool) {
    && (forall i, key :: i in c.caches && key in c.caches[i] ==> Good(w, c.ledger, key, c.caches[i][key], blanks))
    && (forall o :: o in c.observed ==> Good(w, c.ledger, o.1, o.2, blanks))
  }

  ghost predicate Run(w: World, c: Cluster, steps: seq<Step>, c': Cluster)
    decreases |steps|
  {
    if steps == [] then c' == c
    else Enabled(w, c, steps[0]) && Run(w, Next(w, c, steps[0]), steps[1..], c')
  }

  predicate AllReadable(steps: seq<Step>) {
    forall k :: 0 <= k < |steps| && steps[k].Settle? ==> Readable(steps[k].deployment)
  }

  lemma StepKeepsInv(w: World, c: Cluster, s: Step, blanks: bool)
    requires Inv(w, c, blanks) && Enabled(w, c, s)
    requires blanks || (s.Settle? ==> Readable(s.deployment))
    ensures Inv(w, Next(w, c, s), blanks)
  {
    var c' := Next(w, c, s);
    forall i, key | i in c'.caches && key in c'.caches[i]
      ensures Good(w, c'.ledger, key, c'.caches[i][key], blanks)
    {
      if s.Store? && i == s.instance && key == s.key {
        assert (i, key, s.entry) in c.observed;
      } else {
        assert i in c.caches && key in c.caches[i] && c'.caches[i][key] == c.caches[i][key];
      }
    }
  }

  lemma {:induction false} RunKeepsInv(w: World, c: Cluster, steps: seq<Step>, c': Cluster, blanks: bool)
    requires Inv(w, c, blanks) && Run(w, c, steps, c') && (blanks || AllReadable(steps))
    ensures Inv(w, c', blanks)
    decreases |steps|
  {
    if steps != [] {
      StepKeepsInv(w, c, steps[0], blanks);
      RunKeepsInv(w, Next(w, c, steps[0]), steps[1..], c', blanks);
    }
  }

  /** Over every run of every number of instances, from empty caches: each cached entry is for a key whose predicted
      address is deployed, and it gives that address or none; none only if some deployment settled without a readable
      one. */
  lemma CachesAreTruthful(w: World, ledger: set<string>, steps: seq<Step>, c: Cluster, i: nat, key: string)
    requires Run(w, Cluster(ledger, map[], {}), steps, c) && i in c.caches && key in c.caches[i]
    ensures Truthful(w, c.ledger, key, c.caches[i][key]) || Blank(w, c.ledger, key, c.caches[i][key])
    ensures AllReadable(steps) ==> Truthful(w, c.ledger, key, c.caches[i][key])
  {
    var start := Cluster(ledger, map[], {});
    assert Inv(w, start, true) && Inv(w, start, false);
    RunKeepsInv(w, start, steps, c, true);
    if AllReadable(steps) {
      RunKeepsInv(w, start, steps, c, false);
    }
  }

  /** After any run, GET on any instance answers what it would answer with an empty cache and a working simulation,
      exactly when it does not come upon a cached empty address. */
  lemma WarmGetIsColdGetExactlyWhen(w: World, ledger: set<string>, steps: seq<Step>, c: Cluster, i: nat, key: string,
                                    configured: bool)
    requires Run(w, Cluster(ledger, map[], {}), steps, c) && i in c.caches && Predict(w, key) != ""
    ensures Get(w, configured, c.caches[i], c.ledger, key, true).0 == Get(w, configured, map[], c.ledger, key, true).0
            <==> !(|key| == 64 && configured && key in c.caches[i] && c.caches[i][key].smartAccount == "")
  {
    if key in c.caches[i] {
      CachesAreTruthful(w, ledger, steps, c, i, key);
    }
  }

  /** After any run, what GET answers on any instance: whether the account is on the ledger, with the predicted address
      or the empty one that was cached, or which of the ways to fail it was. An account it found is in the map
      afterwards, where nothing else has changed. */
  lemma GetAnswersForTheLedger(w: World, ledger: set<string>, steps: seq<Step>, c: Cluster, i: nat, key: string,
                               configured: bool, simulated: bool)
    requires Run(w, Cluster(ledger, map[], {}), steps, c) && i in c.caches
    ensures var (reply, cache') := Get(w, configured, c.caches[i], c.ledger, key, simulated);
            var blank := key in c.caches[i] && c.caches[i][key].smartAccount == "";
            && (reply.BadKey? <==> |key| != 64)
            && (reply.NotConfigured? <==> |key| == 64 && !configured)
            && (reply.Looked? ==> (reply.deployed <==> Predict(w, key) in c.ledger)
                                  && reply.address == if blank then "" else Predict(w, key))
            && (reply.GetFailed? <==>
                  && |key| == 64 && configured && key !in c.caches[i]
                  && (!simulated || (Predict(w, key) in c.ledger && w.classic(key).None?)))
            && cache' - {key} == c.caches[i] - {key}
            && (key in cache' <==> key in c.caches[i] || (reply.Looked? && reply.deployed))
            && (key in c.caches[i] ==> cache' == c.caches[i])
            && (key in cache' && key !in c.caches[i] ==> Truthful(w, c.ledger, key, cache'[key]))
    ensures AllReadable(steps) && Predict(w, key) != "" && key in c.caches[i] ==> c.caches[i][key].smartAccount != ""
  {
    hide Run, Predict;
    if key in c.caches[i] {
      CachesAreTruthful(w, ledger, steps, c, i, key);
    }
  }

  /** After any run and on an honest chain, what POST answers: the cached entry for a key that has one, a new entry
      exactly when the whole deployment went through; either is for an account on the ledger, with the key's classic
      address, and is in the map afterwards, where nothing else has changed. */
  lemma PostAnswersForTheLedger(w: World, ledger: set<string>, steps: seq<Step>, c: Cluster, i: nat, key: string,
                                d: Deployment)
    requires Run(w, Cluster(ledger, map[], {}), steps, c) && i in c.caches && Honest(w, key, d, c.ledger)
    ensures var (reply, cache') := Post(w, c.caches[i], key, d);
            && (reply.BadKeyPost? <==> |key| != 64)
            && (reply.Existing? <==> |key| == 64 && w.classic(key).Some? && key in c.caches[i])
            && (reply.Created? <==>
                  && |key| == 64 && w.classic(key).Some? && key !in c.caches[i]
                  && d.funded && d.configured && d.simulated.Some? && d.sent && Settled(d.answers, 0).Success?)
            && (reply.Existing? || reply.Created? ==>
                  && Predict(w, key) in c.ledger && w.classic(key) == Some(reply.entry.classic)
                  && reply.entry.smartAccount in {Predict(w, key), ""}
                  && cache' == c.caches[i][key := reply.entry])
            && (reply.Created? && Readable(d) ==> reply.entry.smartAccount == Predict(w, key))
            && (reply.BadKeyPost? || reply.PostFailed? ==> cache' == c.caches[i])
  {
    hide Run, Predict, Settled;
    if key in c.caches[i] {
      CachesAreTruthful(w, ledger, steps, c, i, key);
    }
  }

  /** On any chain: the address of the transaction comes before that of the simulation, and what one POST created the
      next POST and the next GET on the instance report. */
  lemma CreatedIsReported(w: World, cache: Cache, key: string, d: Deployment, d': Deployment, ledger: set<string>,
                          simulated: bool)
    requires Post(w, cache, key, d).0.Created?
    ensures var (reply, cache') := Post(w, cache, key, d);
            && Settled(d.answers, 0).Success? && d.simulated.Some?
            && (Settled(d.answers, 0).returned.Some? ==>
                  reply.entry.smartAccount == Settled(d.answers, 0).returned.value)
            && (Settled(d.answers, 0).returned.None? && d.simulated.value.Some? ==>
                  reply.entry.smartAccount == d.simulated.value.value)
            && Post(w, cache', key, d') == (Existing(reply.entry), cache')
            && Get(w, true, cache', ledger, key, simulated) == (Looked(true, reply.entry.smartAccount), cache')
  {
  }

  /** GET only ever writes what it saw: handling a whole GET is a lookup followed by a store. */
  lemma GetIsLookUpThenStore(w: World, c: Cluster, i: nat, key: string, configured: bool, simulated: bool)
    requires i in c.caches
    ensures var cache' := Get(w, configured, c.caches[i], c.ledger, key, simulated).1;
            cache' == c.caches[i] ||
              (var seen := LookUp(i, key);
               Enabled(w, c, seen)
               && var c1 := Next(w, c, seen);
               exists e :: Enabled(w, c1, Store(i, key, e))
                           && Next(w, c1, Store(i, key, e)).caches == c.caches[i := cache'])
  {
    var cache' := Get(w, configured, c.caches[i], c.ledger, key, simulated).1;
    if cache' != c.caches[i] {
      var c1 := Next(w, c, LookUp(i, key));
      var e := CacheEntry(Predict(w, key), w.classic(key).value);
      assert Enabled(w, c1, Store(i, key, e));
      assert Next(w, c1, Store(i, key, e)).caches == c.caches[i := cache'];
    }
  }

  /** Likewise POST on an honest chain; and a POST that only saw NOT_FOUND, or a failed transaction, changes nothing. */
  lemma PostIsSettleThenStore(w: World, c: Cluster, i: nat, key: string, d: Deployment)
    requires i in c.caches && Honest(w, key, d, c.ledger)
    ensures var cache' := Post(w, c.caches[i], key, d).1;
            cache' == c.caches[i] ||
              (var settled := Settle(i, key, d);
               Enabled(w, c, settled)
               && var c1 := Next(w, c, settled);
               exists e :: Enabled(w, c1, Store(i, key, e))
                           && Next(w, c1, Store(i, key, e)).caches == c.caches[i := cache'])
  {
    var cache' := Post(w, c.caches[i], key, d).1;
    if cache' != c.caches[i] {
      var c1 := Next(w, c, Settle(i, key, d));
      var e := CacheEntry(Reported(d), w.classic(key).value);
      assert Enabled(w, c1, Store(i, key, e));
      assert Next(w, c1, Store(i, key, e)).caches == c.caches[i := cache'];
    }
  }

  lemma UnsettledPostChangesNothing(w: World, cache: Cache, key: string, d: Deployment)
    requires forall k: nat :: k < POLLS ==> !d.answers(k).Success?
    ensures Post(w, cache, key, d).1 == cache && !Post(w, cache, key, d).0.Created?
  {
    SettledExactly(d.answers, 0);
  }

  /** Where neither address could be read, POST answers and caches the empty address. */
  lemma UnreadableAddressIsCached(w: World, key: string, d: Deployment)
    requires |key| == 64 && w.classic(key).Some? && Succeeds(d) && !Readable(d)
    ensures Post(w, map[], key, d).0 == Created(CacheEntry("", w.classic(key).value))
    ensures Get(w, true, Post(w, map[], key, d).1, {}, key, true).0 == Looked(true, "")
  {
  }
}
