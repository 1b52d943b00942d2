/** Laws of whole passkey requests, over every sequence of them: what a sign-in lists, when each request succeeds, and
    that stored accounts carry the key data, salt and address of their credential. */
module RequestLaws {
  import opened Bytes
  import opened Store
  import opened Ceremony
  import opened ChallengeRuns
  import opened OwnershipRuns
  import opened WholeRequests
  import Base64Url
  import FactoryCache
  import OriginChecks
  import PublicKey

  /** The tables after a sequence of requests, one after the other. */
  function ServeAll(w: FactoryCache.World, db: Db, rqs: seq<Request>): Option<Db>
    decreases |rqs|
  {
    if rqs == [] then Some(db)
    else
      var served := Serve(w, db, rqs[0]);
      if served.None? then None else ServeAll(w, served.value.0, rqs[1..])
  }

  // ---------------------------------------------------------------------------------------------
  // Keys and owners
  // ---------------------------------------------------------------------------------------------

  ghost predicate Sound(db: Db) {
    ForeignKeys(db) && UniqueColumns(db) && OwnersAgree(db)
  }

  /** A whole request is an exclusive run, so what holds in those holds here. */
  lemma ServeKeepsSound(w: FactoryCache.World, db: Db, rq: Request)
    requires Sound(db) && Serve(w, db, rq).Some?
    ensures Sound(Serve(w, db, rq).value.0)
  {
    hide Serve, RunAlone, ForeignKeys, UniqueColumns, OwnersAgree, Exec, Run, ExclusiveRun;
    ServeIsRunAlone(w, db, rq);
    var s := State(db, map[0 := FindSession(rq)], [], []);
    var acts, s' := AloneIsARun(w, s, 0);
    ExclusiveRunKeepsOwners(w, s, acts, s');
  }

  lemma {:induction false} ServeAllKeepsSound(w: FactoryCache.World, db: Db, rqs: seq<Request>)
    requires Sound(db) && ServeAll(w, db, rqs).Some?
    ensures Sound(ServeAll(w, db, rqs).value)
    decreases |rqs|
  {
    if rqs != [] {
      ServeKeepsSound(w, db, rqs[0]);
      ServeAllKeepsSound(w, Serve(w, db, rqs[0]).value.0, rqs[1..]);
    }
  }

  // ---------------------------------------------------------------------------------------------
  // What a sign-in lists
  // ---------------------------------------------------------------------------------------------

  /** On any tables: the list of a successful authentication contains the authenticated account exactly when the
      ownership was transferred or the account was the session user's already. */
  lemma ListedExactlyWhen(w: FactoryCache.World, db: Db, rq: Request)
    requires rq.work.FinishAuth? && Serve(w, db, rq).Some? && Serve(w, db, rq).value.1.reply.Authenticated?
    ensures SessionFor(db, rq.session).Some?
    ensures var (db1, user) := SessionFor(db, rq.session).value;
            var credId := rq.work.credId;
            var reply := Serve(w, db, rq).value.1.reply;
            && reply.credId == credId && credId in db1.credentials && credId in db1.accounts
            && (credId in reply.accounts <==>
                  db1.credentials[credId].userId != user || db1.accounts[credId].userId == user)
            && (credId in reply.accounts ==> reply.accounts[credId] == reply.account)
  {
    hide IsNewest;
  }

  /** After any sequence of whole requests, every successful authentication lists the account it signed in to. */
  lemma SignInListsItsAccount(w: FactoryCache.World, rqs: seq<Request>, db: Db, rq: Request)
    requires ServeAll(w, EMPTY, rqs) == Some(db)
    requires rq.work.FinishAuth? && Serve(w, db, rq).Some? && Serve(w, db, rq).value.1.reply.Authenticated?
    ensures var reply := Serve(w, db, rq).value.1.reply;
            rq.work.credId in reply.accounts && reply.accounts[rq.work.credId] == reply.account
  {
    hide Serve, ServeAll;
    ServeAllKeepsSound(w, EMPTY, rqs);
    ListedExactlyWhen(w, db, rq);
  }

  /** A begin in full: it issues exactly when its context resolves and its id is not taken. The row it leaves is the
      session user's, with that context and five minutes to live; an authentication allows exactly the session user's
      credentials; nothing else changes. */
  lemma BeginOutcome(w: FactoryCache.World, db: Db, rq: Request)
    requires rq.work.Begin? && SessionFor(db, rq.session).Some?
    ensures Serve(w, db, rq).Some?
    ensures var (db1, user) := SessionFor(db, rq.session).value;
            var (db', p) := Serve(w, db, rq).value;
            var work := rq.work;
            var resolved := w.resolve(work.headers, work.body);
            && (p.reply.Issued? <==> resolved.Ok? && work.challengeId !in db1.challenges)
            && (p.reply.Issued? ==>
                  && p.reply.id == work.challengeId
                  && (forall c :: c in p.reply.allow <==>
                        work.purpose.Authentication? && c in db1.credentials && db1.credentials[c].userId == user)
                  && db' == db1.(challenges := db'.challenges) && work.challengeId in db'.challenges
                  && db'.challenges - {work.challengeId} == db1.challenges
                  && db'.challenges[work.challengeId]
                     == Challenge(user, work.purpose, work.challenge, resolved.value.rpId, resolved.value.origin,
                                  work.now, work.now + 300000))
            && (!p.reply.Issued? ==> p.reply.Failed? && db' == db1)
  {
  }

  /** Authentication in full: when it succeeds, and which tables it leaves when it does. */
  lemma SignInOutcome(w: FactoryCache.World, db: Db, rq: Request)
    requires rq.work.FinishAuth? && Serve(w, db, rq).Some? && SessionFor(db, rq.session).Some?
    ensures var (db1, user) := SessionFor(db, rq.session).value;
            var (db', p) := Serve(w, db, rq).value;
            var work := rq.work;
            && (p.reply.Authenticated? <==> CanSignIn(w, db1, work) && work.credId in db1.accounts)
            && db'.credentials.Keys == db1.credentials.Keys && db'.accounts.Keys == db1.accounts.Keys
            && (p.reply.Authenticated? ==>
                  && db'.challenges == db1.challenges - {work.row.value}
                  && db'.accounts[work.credId].(userId := "") == db1.accounts[work.credId].(userId := "")
                  && p.reply.credId == work.credId && p.reply.account == db'.accounts[work.credId]
                  && (forall a :: a in p.reply.accounts <==> a in db'.accounts && db'.accounts[a].userId == user)
                  && (forall a :: a in p.reply.accounts ==> p.reply.accounts[a] == db'.accounts[a])
                  && (forall c :: c in db1.credentials && c != work.credId ==> db'.credentials[c] == db1.credentials[c])
                  && (forall c :: c in db1.accounts && c != work.credId ==> db'.accounts[c] == db1.accounts[c]))
            && (!p.reply.Authenticated? ==>
                  p.reply.Failed? && db'.challenges == db1.challenges && db'.accounts == db1.accounts)
            && db'.users == db1.users && db'.sessions == db1.sessions
            && (if CanSignIn(w, db1, work)
                then db'.credentials[work.credId]
                     == db1.credentials[work.credId].(userId := user, signCount := work.newCounter)
                else db' == db1)
  {
    hide IsNewest;
  }

  // ---------------------------------------------------------------------------------------------
  // Which challenge a sign-in can use
  // ---------------------------------------------------------------------------------------------

  /** A newer sign-in challenge, anybody's, is stored. */
  predicate Shadowed(db: Db, id: string)
    requires id in db.challenges
  {
    exists c :: c in db.challenges && db.challenges[c].purpose.Authentication?
                && db.challenges[c].createdAt > db.challenges[id].createdAt
  }

  predicate Authenticates(w: FactoryCache.World, db: Db, rq: Request) {
    Serve(w, db, rq).Some? && Serve(w, db, rq).value.1.reply.Authenticated?
  }

  /** On any tables, a sign-in with a challenge succeeds exactly when the challenge is stored, for signing in, not
      expired, issued to where the request comes from and not shadowed, the assertion holds, and the passkey and its
      account are known. */
  lemma AuthenticatesExactlyWhen(w: FactoryCache.World, db: Db, rq: Request, id: string)
    requires rq.work.FinishAuth? && rq.work.row == Some(id) && SessionFor(db, rq.session).Some?
    ensures Authenticates(w, db, rq) <==>
            && id in db.challenges && db.challenges[id].purpose.Authentication? && !Shadowed(db, id)
            && db.challenges[id].expiresAt > rq.work.now && OriginAccepted(w, rq.work.site, db.challenges[id])
            && rq.work.verified && rq.work.credId in db.credentials && rq.work.credId in db.accounts
  {
    hide AccountsOf, CredentialsOf;
    var db1 := SessionFor(db, rq.session).value.0;
    assert db1.challenges == db.challenges && db1.credentials == db.credentials && db1.accounts == db.accounts;
  }

  /** Between the statements of other requests it is the same: a sign-in comes to hold a challenge exactly when that
      is stored, for signing in and not shadowed at that moment. */
  lemma ReadsExactlyWhen(s: State, pid: nat, id: string)
    requires pid in s.procs && s.procs[pid].ReadChallenge?
    requires s.procs[pid].rq.work.FinishAuth? && s.procs[pid].rq.work.row == Some(id)
    ensures CanAct(s, Advance(pid)) <==>
            id in s.db.challenges && s.db.challenges[id].purpose.Authentication? && !Shadowed(s.db, id)
  {
  }

  /** The request succeeded with this challenge. */
  predicate Consumes(w: FactoryCache.World, db: Db, rq: Request, id: string) {
    && Serve(w, db, rq).Some? && Serve(w, db, rq).value.1.consumed.Some?
    && Serve(w, db, rq).value.1.consumed.value.id == id
  }

  /** A request leaves every stored challenge as it is, but for the one it consumes. */
  lemma OthersStay(w: FactoryCache.World, db: Db, rq: Request, id: string)
    requires id in db.challenges && Serve(w, db, rq).Some? && !Consumes(w, db, rq, id)
    ensures id in Serve(w, db, rq).value.0.challenges
    ensures Serve(w, db, rq).value.0.challenges[id] == db.challenges[id]
  {
    hide IsNewest, AccountsOf, CredentialsOf, NewAccount, NewCredential, LiveRow;
  }

  lemma ShadowedIsNotConsumed(w: FactoryCache.World, db: Db, rq: Request, id: string)
    requires id in db.challenges && db.challenges[id].purpose.Authentication? && Shadowed(db, id)
    ensures !Consumes(w, db, rq, id)
  {
    hide AccountsOf, CredentialsOf, NewAccount, NewCredential, UpsertAccount;
    if SessionFor(db, rq.session).Some? {
      assert SessionFor(db, rq.session).value.0.challenges == db.challenges;
    }
  }

  /** No request of the sequence succeeds with this challenge. */
  predicate Untouched(w: FactoryCache.World, db: Db, rqs: seq<Request>, id: string)
    decreases |rqs|
  {
    rqs == [] ||
    (&& Serve(w, db, rqs[0]).Some? && !Consumes(w, db, rqs[0], id)
     && Untouched(w, Serve(w, db, rqs[0]).value.0, rqs[1..], id))
  }

  /** The shadow lasts exactly as long as it can: through any sequence of requests in which no success uses the later
      sign-in challenge, none uses the earlier one, and both are still stored. */
  lemma {:induction false} ShadowLasts(w: FactoryCache.World, db: Db, rqs: seq<Request>, earlier: string, later: string)
    requires earlier in db.challenges && db.challenges[earlier].purpose.Authentication?
    requires later in db.challenges && db.challenges[later].purpose.Authentication?
    requires db.challenges[earlier].createdAt < db.challenges[later].createdAt
    requires ServeAll(w, db, rqs).Some? && Untouched(w, db, rqs, later)
    ensures Untouched(w, db, rqs, earlier)
    ensures var db' := ServeAll(w, db, rqs).value;
            && earlier in db'.challenges && db'.challenges[earlier] == db.challenges[earlier]
            && later in db'.challenges && db'.challenges[later] == db.challenges[later]
            && Shadowed(db', earlier)
    decreases |rqs|
  {
    hide Serve, Consumes;
    if rqs != [] {
      ShadowedIsNotConsumed(w, db, rqs[0], earlier);
      OthersStay(w, db, rqs[0], earlier);
      OthersStay(w, db, rqs[0], later);
      ShadowLasts(w, Serve(w, db, rqs[0]).value.0, rqs[1..], earlier, later);
    }
  }

  // Two sign-ins begun one after the other in one session.

  function SignInRow(now: int): Challenge {
    Challenge("u", Authentication, "challenge", "localhost", "http://localhost", now, now + CHALLENGE_TTL_MS)
  }

  function TwoSignIns(): Db {
    Db({"u"}, map["s" := Session("u", 0, SESSION_TTL_MS)], map["a" := SignInRow(0), "b" := SignInRow(1)],
       map["AA" := Credential("u", [], [], [], 0)], map["AA" := Account("u", "", "", "", true, 0)])
  }

  function SignInWith(site: OriginChecks.Site, id: string, verified: bool): Request {
    Request(SessionInput(Some("s"), 2, "", ""), FinishAuth(2, Some(id), site, "AA", verified, 0))
  }

  /** The first of them is refused while the second is stored - it is the second one that is looked up, for which its
      assertion does not hold - and accepted once the second has been used. */
  lemma ShadowedThenAccepted(w: FactoryCache.World, site: OriginChecks.Site)
    requires w.accepts(site, OriginChecks.Context("localhost", "http://localhost"))
    ensures var db := TwoSignIns();
            && Shadowed(db, "a") && !Authenticates(w, db, SignInWith(site, "a", true))
            && Serve(w, db, SignInWith(site, "b", false)).Some?
            && Serve(w, db, SignInWith(site, "b", false)).value.1 == Stopped()
            && Authenticates(w, db, SignInWith(site, "b", true))
            && var db' := Serve(w, db, SignInWith(site, "b", true)).value.0;
            Authenticates(w, db', SignInWith(site, "a", true)) && Consumes(w, db', SignInWith(site, "a", true), "a")
  {
    var db := TwoSignIns();
    assert "b" in db.challenges && db.challenges["b"].createdAt > db.challenges["a"].createdAt;
    AuthenticatesExactlyWhen(w, db, SignInWith(site, "a", true), "a");
    AuthenticatesExactlyWhen(w, db, SignInWith(site, "b", true), "b");
    var db' := Serve(w, db, SignInWith(site, "b", true)).value.0;
    AuthenticatesExactlyWhen(w, db', SignInWith(site, "a", true), "a");
  }

  // ---------------------------------------------------------------------------------------------
  // Key data, salt and address
  // ---------------------------------------------------------------------------------------------

  ghost predicate KeysMatch(w: FactoryCache.World, id: string, cred: Credential, account: Account) {
    && |cred.rawKey| == Base64Url.PUBKEY_SIZE && cred.idBytes == Base64Url.FromBase64Url(id)
    && account.keyDataHex == ToHex(cred.rawKey + cred.idBytes)
    && account.saltHex == ToHex(FactoryCache.Salt(w, account.keyDataHex, "webauthn-v1"))
    && account.address == FactoryCache.PredictWebAuthn(w, account.keyDataHex)
  }

  /** Every stored account carries the key data of its credential, and its salt and address are computed from them. */
  ghost predicate KeyDataHolds(w: FactoryCache.World, db: Db) {
    forall a :: a in db.accounts ==> a in db.credentials && KeysMatch(w, a, db.credentials[a], db.accounts[a])
  }

  ghost predicate KeyDataButFor(w: FactoryCache.World, db: Db, credId: string) {
    forall a :: a in db.accounts && a != credId ==>
      a in db.credentials && KeysMatch(w, a, db.credentials[a], db.accounts[a])
  }

  lemma SameKeyData(k1: seq<byte>, id1: seq<byte>, k2: seq<byte>, id2: seq<byte>)
    requires |k1| == |k2|
    ensures ToHex(k1 + id1) == ToHex(k2 + id2) <==> k1 == k2 && id1 == id2
  {
    if ToHex(k1 + id1) == ToHex(k2 + id2) {
      ToHexInjective(k1 + id1, k2 + id2);
      assert (k1 + id1)[..|k1|] == k1 && (k2 + id2)[..|k1|] == k2;
      assert (k1 + id1)[|k1|..] == id1 && (k2 + id2)[|k1|..] == id2;
    }
  }

  predicate SameKeyAndId(db: Db, c: string, credId: string, rawKey: seq<byte>)
    requires c in db.credentials
  {
    Base64Url.FromBase64Url(c) == Base64Url.FromBase64Url(credId) && db.credentials[c].rawKey == rawKey
  }

  lemma ClashesExactlyWhen(w: FactoryCache.World, db: Db, rq: Request, user: string, rawKey: seq<byte>, c: string)
    requires c in db.accounts && c in db.credentials && KeysMatch(w, c, db.credentials[c], db.accounts[c])
    requires FactoryCache.Injective(w.addressOf) && rq.work.FinishReg? && |rawKey| == Base64Url.PUBKEY_SIZE
    ensures var row := NewAccount(w, rq, user, rawKey);
            && (db.accounts[c].keyDataHex == row.keyDataHex <==> SameKeyAndId(db, c, rq.work.credId, rawKey))
            && (db.accounts[c].address == row.address <==> SameKeyAndId(db, c, rq.work.credId, rawKey))
  {
    hide FactoryCache.PredictWebAuthn, FactoryCache.Salt, Base64Url.FromBase64Url;
    var cred, id := db.credentials[c], Base64Url.FromBase64Url(rq.work.credId);
    SameKeyData(cred.rawKey, cred.idBytes, rawKey, id);
    FactoryCache.SameAddress(w, cred.rawKey + cred.idBytes, rawKey + id);
    if cred.rawKey + cred.idBytes == rawKey + id {
      assert ToHex(cred.rawKey + cred.idBytes) == ToHex(rawKey + id);
    }
  }

  /** The uniqueness constraints reject an account exactly when another account is for the same public key and a
      credential id that decodes to the same bytes. */
  lemma RejectedExactlyWhen(w: FactoryCache.World, db: Db, rq: Request, user: string, rawKey: seq<byte>)
    requires rq.work.FinishReg? && user in db.users
    requires FactoryCache.Injective(w.addressOf) && KeyDataButFor(w, db, rq.work.credId)
    requires rq.work.credId in db.credentials && |rawKey| == Base64Url.PUBKEY_SIZE
    ensures UpsertAccount(db, rq.work.credId, NewAccount(w, rq, user, rawKey)).None? <==>
            exists c :: c in db.accounts && c != rq.work.credId && SameKeyAndId(db, c, rq.work.credId, rawKey)
  {
    hide KeyDataHex, FactoryCache.Salt, FactoryCache.PredictWebAuthn, SameKeyAndId, KeysMatch;
    var row := NewAccount(w, rq, user, rawKey);
    forall c | c in db.accounts && c != rq.work.credId
      ensures (db.accounts[c].keyDataHex == row.keyDataHex || db.accounts[c].address == row.address) <==>
              SameKeyAndId(db, c, rq.work.credId, rawKey)
    {
      ClashesExactlyWhen(w, db, rq, user, rawKey, c);
    }
  }

  ghost predicate CanonicalIds(db: Db) {
    forall a :: a in db.accounts ==> Base64Url.Canonical(a)
  }

  predicate CanonicalRequest(rq: Request) {
    rq.work.FinishReg? ==> Base64Url.Canonical(rq.work.credId)
  }

  /** What sequences of whole requests keep when credential ids are canonical and addresses do not collide. */
  ghost predicate Keyed(w: FactoryCache.World, db: Db) {
    ForeignKeys(db) && KeyDataHolds(w, db) && CanonicalIds(db)
  }

  lemma NeverRejected(w: FactoryCache.World, db: Db, rq: Request, user: string, rawKey: seq<byte>)
    requires rq.work.FinishReg? && user in db.users && rq.work.credId in db.credentials
    requires KeyDataButFor(w, db, rq.work.credId) && CanonicalIds(db) && FactoryCache.Injective(w.addressOf)
    requires |rawKey| == Base64Url.PUBKEY_SIZE && CanonicalRequest(rq)
    ensures UpsertAccount(db, rq.work.credId, NewAccount(w, rq, user, rawKey)).Some?
  {
    hide UpsertAccount, KeysMatch, NewAccount, Base64Url.Canonical, Base64Url.FromBase64Url;
    RejectedExactlyWhen(w, db, rq, user, rawKey);
    forall c | c in db.accounts && c != rq.work.credId
      ensures !SameKeyAndId(db, c, rq.work.credId, rawKey)
    {
      if SameKeyAndId(db, c, rq.work.credId, rawKey) {
        Base64Url.DecodeInjective(c, rq.work.credId);
      }
    }
  }

  lemma NewRowsMatch(w: FactoryCache.World, rq: Request, user: string, rawKey: seq<byte>, created: int)
    requires rq.work.FinishReg? && |rawKey| == Base64Url.PUBKEY_SIZE
    ensures KeysMatch(w, rq.work.credId, NewCredential(rq, user, rawKey),
                      NewAccount(w, rq, user, rawKey).(createdAt := created))
  {
  }

  /** Registration keeps the law, and it succeeds exactly when its checks pass: with canonical ids the account is
      never rejected. */
  lemma RegKeepsKeyed(w: FactoryCache.World, db: Db, rq: Request, user: string)
    requires Keyed(w, db) && FactoryCache.Injective(w.addressOf) && CanonicalRequest(rq) && user in db.users
    requires rq.work.FinishReg? && (rq.work.row.Some? ==> rq.work.row.value in db.challenges)
    ensures var (db', p) := RegWhole(w, db, rq, user);
            KeyDataHolds(w, db') && CanonicalIds(db') && (p.reply.Registered? <==> CanRegister(w, db, rq.work, user))
  {
    hide Base64Url.Canonical, Base64Url.FromBase64Url, PublicKey.FromCose, LiveRow, KeysMatch, NewCredential,
         NewAccount, ForeignKeys;
    if CanRegister(w, db, rq.work, user) {
      var rawKey := PublicKey.FromCose(rq.work.cose).value;
      var db1 := db.(credentials := db.credentials[rq.work.credId := NewCredential(rq, user, rawKey)]);
      NeverRejected(w, db1, rq, user, rawKey);
      var account := NewAccount(w, rq, user, rawKey);
      NewRowsMatch(w, rq, user, rawKey,
                   if rq.work.credId in db.accounts then db.accounts[rq.work.credId].createdAt else account.createdAt);
    }
  }

  lemma SignInLeavesKeys(db: Db, credId: string, counter: int, user: string)
    requires credId in db.credentials
    ensures SameKeys(db, SignedIn(db, credId, counter, user))
  {
  }

  /** A begin or sign-in request changes nothing the law speaks of. */
  lemma OthersLeaveKeys(w: FactoryCache.World, db: Db, rq: Request, user: string)
    requires !rq.work.FinishReg? && ServeAs(w, db, rq, user).Some?
    ensures SameKeys(db, ServeAs(w, db, rq, user).value.0)
  {
    hide CredentialsOf, AccountsOf, NewChallenge, TicketFor, SignedIn;
    if rq.work.FinishAuth? && CanSignIn(w, db, rq.work) {
      SignInLeavesKeys(db, rq.work.credId, rq.work.newCounter, user);
    }
  }

  lemma SameKeysMatch(w: FactoryCache.World, id: string, c: Credential, a: Account, c': Credential, a': Account)
    requires KeysMatch(w, id, c, a)
    requires c'.(userId := "", signCount := 0) == c.(userId := "", signCount := 0)
    requires a'.(userId := "") == a.(userId := "")
    ensures KeysMatch(w, id, c', a')
  {
    assert c'.(userId := "", signCount := 0).rawKey == c'.rawKey && a'.(userId := "").address == a'.address;
  }

  lemma OthersKeepKeyed(w: FactoryCache.World, db: Db, rq: Request, user: string)
    requires KeyDataHolds(w, db) && CanonicalIds(db) && !rq.work.FinishReg?
    requires ServeAs(w, db, rq, user).Some?
    ensures var db' := ServeAs(w, db, rq, user).value.0; KeyDataHolds(w, db') && CanonicalIds(db')
  {
    hide Base64Url.Canonical, ServeAs, KeysMatch;
    OthersLeaveKeys(w, db, rq, user);
    var db' := ServeAs(w, db, rq, user).value.0;
    forall a | a in db'.accounts
      ensures KeysMatch(w, a, db'.credentials[a], db'.accounts[a])
    {
      SameKeysMatch(w, a, db.credentials[a], db.accounts[a], db'.credentials[a], db'.accounts[a]);
    }
  }

  lemma ServeKeepsKeyed(w: FactoryCache.World, db: Db, rq: Request)
    requires Keyed(w, db) && FactoryCache.Injective(w.addressOf) && CanonicalRequest(rq)
    requires Sound(db) && Serve(w, db, rq).Some?
    ensures Keyed(w, Serve(w, db, rq).value.0)
  {
    hide Base64Url.Canonical, ForeignKeys, UniqueColumns, OwnersAgree, KeysMatch, RegWhole, AuthWhole, BeginWhole,
         FactoryCache.Injective;
    ServeKeepsSound(w, db, rq);
    if SessionFor(db, rq.session).Some? {
      var (db1, user) := SessionFor(db, rq.session).value;
      SessionUserExists(db, rq.session);
      if rq.work.FinishReg? {
        RegKeepsKeyed(w, db1, rq, user);
      } else {
        OthersKeepKeyed(w, db1, rq, user);
      }
    }
  }

  /** Over every sequence of whole requests with canonical credential ids: every stored account has the key data of its
      credential, the salt of its key data, and the address predicted from both. */
  lemma {:induction false} KeyDataOverAllRequests(w: FactoryCache.World, db: Db, rqs: seq<Request>)
    requires Keyed(w, db) && Sound(db) && FactoryCache.Injective(w.addressOf) && ServeAll(w, db, rqs).Some?
    requires forall rq :: rq in rqs ==> CanonicalRequest(rq)
    ensures Keyed(w, ServeAll(w, db, rqs).value) && Sound(ServeAll(w, db, rqs).value)
    decreases |rqs|
  {
    hide Serve, Keyed, Sound, CanonicalRequest, FactoryCache.Injective;
    if rqs != [] {
      ServeKeepsSound(w, db, rqs[0]);
      ServeKeepsKeyed(w, db, rqs[0]);
      KeyDataOverAllRequests(w, Serve(w, db, rqs[0]).value.0, rqs[1..]);
    }
  }

  /** What a successful registration leaves. */
  ghost predicate RegisteredRows(w: FactoryCache.World, db: Db, work: Work, user: string, db': Db)
    requires work.FinishReg? && work.row.Some?
  {
    && db'.credentials.Keys == db.credentials.Keys + {work.credId}
    && db'.accounts.Keys == db.accounts.Keys + {work.credId}
    && KeysMatch(w, work.credId, db'.credentials[work.credId], db'.accounts[work.credId])
    && PublicKey.FromCose(work.cose) == Some(db'.credentials[work.credId].rawKey)
    && db'.credentials[work.credId].userId == user && db'.accounts[work.credId].userId == user
    && db'.credentials[work.credId].cosePublicKey == work.cose && db'.credentials[work.credId].signCount == work.counter
    && db'.accounts[work.credId].deployed == work.deployed
    && db'.accounts[work.credId].createdAt
       == (if work.credId in db.accounts then db.accounts[work.credId].createdAt else work.now)
    && (forall c :: c in db.credentials && c != work.credId ==> db'.credentials[c] == db.credentials[c])
    && (forall a :: a in db.accounts && a != work.credId ==> db'.accounts[a] == db.accounts[a])
    && db' == db.(credentials := db'.credentials, accounts := db'.accounts,
                  challenges := db.challenges - {work.row.value})
  }

  lemma RegLeaves(w: FactoryCache.World, db: Db, rq: Request, user: string)
    requires rq.work.FinishReg? && (rq.work.row.Some? ==> rq.work.row.value in db.challenges)
    requires CanRegister(w, db, rq.work, user) && RegWhole(w, db, rq, user).1.reply.Registered?
    ensures RegisteredRows(w, db, rq.work, user, RegWhole(w, db, rq, user).0)
    ensures var (db', p) := RegWhole(w, db, rq, user);
            p.reply.credId == rq.work.credId
            && p.reply.account.(createdAt := 0) == db'.accounts[rq.work.credId].(createdAt := 0)
  {
    var rawKey := PublicKey.FromCose(rq.work.cose).value;
    hide Base64Url.FromBase64Url, FactoryCache.Salt, FactoryCache.PredictWebAuthn, PublicKey.FromCose, KeysMatch;
    var (db', p) := RegWhole(w, db, rq, user);
    NewRowsMatch(w, rq, user, rawKey, db'.accounts[rq.work.credId].createdAt);
  }

  /** Registration in full, after any such sequence: it succeeds exactly when its own checks pass - no uniqueness
      constraint ever turns it away - and leaves the rows it computed, the challenge gone and nothing else changed. */
  lemma RegistrationOutcome(w: FactoryCache.World, rqs: seq<Request>, db: Db, rq: Request)
    requires ServeAll(w, EMPTY, rqs) == Some(db) && (forall r :: r in rqs ==> CanonicalRequest(r))
    requires CanonicalRequest(rq) && FactoryCache.Injective(w.addressOf)
    requires rq.work.FinishReg? && Serve(w, db, rq).Some? && SessionFor(db, rq.session).Some?
    ensures var (db1, user) := SessionFor(db, rq.session).value;
            var (db', p) := Serve(w, db, rq).value;
            && (p.reply.Registered? <==> CanRegister(w, db1, rq.work, user))
            && (if p.reply.Registered?
                then && RegisteredRows(w, db1, rq.work, user, db') && p.reply.credId == rq.work.credId
                     && p.reply.account.(createdAt := 0) == db'.accounts[rq.work.credId].(createdAt := 0)
                else db' == db1)
  {
    hide Base64Url.Canonical, ForeignKeys, UniqueColumns, OwnersAgree, FactoryCache.Injective, KeyDataHolds,
         CanonicalIds, ServeAll, RegWhole, AuthWhole, BeginWhole, RegisteredRows, CanonicalRequest;
    StartIsKeyed(w);
    KeyDataOverAllRequests(w, EMPTY, rqs);
    SessionUserExists(db, rq.session);
    var (db1, user) := SessionFor(db, rq.session).value;
    SessionKeepsKeyed(w, db, db1);
    RegKeepsKeyed(w, db1, rq, user);
    if CanRegister(w, db1, rq.work, user) {
      RegLeaves(w, db1, rq, user);
    } else {
      RegRefused(w, db1, rq, user);
    }
  }

  predicate Registers(w: FactoryCache.World, db: Db, rq: Request) {
    Serve(w, db, rq).Some? && Serve(w, db, rq).value.1.reply.Registered?
  }

  /** A newer registration challenge of the same user is stored. */
  predicate Superseded(db: Db, id: string)
    requires id in db.challenges
  {
    exists c :: c in db.challenges && db.challenges[c].purpose.Registration?
                && db.challenges[c].userId == db.challenges[id].userId
                && db.challenges[c].createdAt > db.challenges[id].createdAt
  }

  /** After any such sequence a registration with a challenge succeeds exactly when the challenge is stored, for
      registering, the session user's and not superseded, not expired and issued to where the request comes from, the
      attestation holds, its key can be read, the deployment went through, and the passkey is nobody else's. */
  lemma RegistersExactlyWhen(w: FactoryCache.World, rqs: seq<Request>, db: Db, rq: Request, id: string)
    requires ServeAll(w, EMPTY, rqs) == Some(db) && (forall r :: r in rqs ==> CanonicalRequest(r))
    requires CanonicalRequest(rq) && FactoryCache.Injective(w.addressOf)
    requires rq.work.FinishReg? && rq.work.row == Some(id) && SessionFor(db, rq.session).Some?
    ensures var user, work := SessionFor(db, rq.session).value.1, rq.work;
            Registers(w, db, rq) <==>
            && id in db.challenges && db.challenges[id].purpose.Registration? && db.challenges[id].userId == user
            && !Superseded(db, id) && db.challenges[id].expiresAt > work.now
            && OriginAccepted(w, work.site, db.challenges[id])
            && work.verified && PublicKey.FromCose(work.cose).Some? && work.ready
            && (work.credId in db.credentials ==> db.credentials[work.credId].userId == user)
  {
    hide ServeAll, CanonicalRequest, RegisteredRows, RegWhole, PublicKey.FromCose, FactoryCache.Injective;
    var db1 := SessionFor(db, rq.session).value.0;
    assert db1.challenges == db.challenges && db1.credentials == db.credentials;
    if Serve(w, db, rq).Some? {
      RegistrationOutcome(w, rqs, db, rq);
    }
  }

  lemma SessionKeepsKeyed(w: FactoryCache.World, db: Db, db1: Db)
    requires Keyed(w, db) && ForeignKeys(db1) && db1 == db.(users := db1.users, sessions := db1.sessions)
    ensures Keyed(w, db1)
  {
  }

  lemma RekeyedMatchesExactlyWhen(w: FactoryCache.World, rq: Request, user: string, rawKey: seq<byte>, cred: Credential,
                                  account: Account)
    requires rq.work.FinishReg? && KeysMatch(w, rq.work.credId, cred, account) && |rawKey| == Base64Url.PUBKEY_SIZE
    ensures KeysMatch(w, rq.work.credId, NewCredential(rq, user, rawKey), account) <==> cred.rawKey == rawKey
  {
    SameKeyData(cred.rawKey, cred.idBytes, rawKey, cred.idBytes);
  }

  lemma RegKeepsKeyDataUnlessRejected(w: FactoryCache.World, db: Db, rq: Request, user: string)
    requires KeyDataHolds(w, db)
    requires rq.work.FinishReg? && (rq.work.row.Some? ==> rq.work.row.value in db.challenges)
    requires CanRegister(w, db, rq.work, user)
    ensures var rawKey := PublicKey.FromCose(rq.work.cose).value;
            var rejected := Enrolled(w, db, rq, user, rawKey).1.None?;
            KeyDataHolds(w, RegWhole(w, db, rq, user).0) <==>
              !(rejected && rq.work.credId in db.accounts && db.credentials[rq.work.credId].rawKey != rawKey)
  {
    hide PublicKey.FromCose, NewAccount, NewCredential, KeysMatch, LiveRow;
    var credId, rawKey := rq.work.credId, PublicKey.FromCose(rq.work.cose).value;
    if Enrolled(w, db, rq, user, rawKey).1.Some? {
      RegLeaves(w, db, rq, user);
    } else if credId in db.accounts {
      RekeyedMatchesExactlyWhen(w, rq, user, rawKey, db.credentials[credId], db.accounts[credId]);
    }
  }

  /** Without canonical ids, a registration that nothing interrupts breaks the law exactly when it changes the key of a
      passkey that has an account and another account is for the new key and an id that decodes alike. */
  lemma RegKeepsKeyDataExactlyWhen(w: FactoryCache.World, db: Db, rq: Request, user: string)
    requires KeyDataHolds(w, db) && FactoryCache.Injective(w.addressOf) && user in db.users
    requires rq.work.FinishReg? && (rq.work.row.Some? ==> rq.work.row.value in db.challenges)
    requires CanRegister(w, db, rq.work, user)
    ensures var credId, rawKey := rq.work.credId, PublicKey.FromCose(rq.work.cose).value;
            KeyDataHolds(w, RegWhole(w, db, rq, user).0) <==>
              !(&& credId in db.accounts && db.credentials[credId].rawKey != rawKey
                && exists c :: c in db.accounts && c != credId && SameKeyAndId(db, c, credId, rawKey))
  {
    hide PublicKey.FromCose, KeysMatch, FactoryCache.Injective, RegWhole, LiveRow, UpsertAccount, NewAccount,
         NewCredential;
    var credId, rawKey := rq.work.credId, PublicKey.FromCose(rq.work.cose).value;
    RegKeepsKeyDataUnlessRejected(w, db, rq, user);
    var db1 := db.(credentials := db.credentials[credId := NewCredential(rq, user, rawKey)]);
    RejectedExactlyWhen(w, db1, rq, user, rawKey);
    assert forall c :: c in db.accounts && c != credId ==>
        (SameKeyAndId(db1, c, credId, rawKey) <==> SameKeyAndId(db, c, credId, rawKey));
  }

  lemma RegRefused(w: FactoryCache.World, db: Db, rq: Request, user: string)
    requires rq.work.FinishReg? && (rq.work.row.Some? ==> rq.work.row.value in db.challenges)
    requires !CanRegister(w, db, rq.work, user)
    ensures RegWhole(w, db, rq, user) == (db, Stopped())
  {
  }

  lemma StartIsKeyed(w: FactoryCache.World)
    ensures Keyed(w, EMPTY) && Sound(EMPTY)
  {
  }

  /** Why canonical ids are asked for: different texts may decode to one id. */
  lemma TwoTextsOneId()
    ensures "AA" != "AB" && Base64Url.FromBase64Url("AA") == Base64Url.FromBase64Url("AB") == [0]
    ensures Base64Url.Canonical("AA") && !Base64Url.Canonical("AB")
  {
    TwoSymbols('A', 'A');
    TwoSymbols('A', 'B');
  }

  lemma TwoSymbols(a: char, b: char)
    requires Base64Url.CharValue(a).Some? && Base64Url.CharValue(b).Some?
    ensures Base64Url.FromBase64Url([a, b]) ==
            [Base64Url.Byte0(Base64Url.CharValue(a).value, Base64Url.CharValue(b).value)]
  {
    hide Base64Url.CharValue, Base64Url.Byte0, Base64Url.Replace;
    Base64Url.SymbolsIgnoreAlphabet([a, b]);
    assert [a, b][1..] == [b] && [b][1..] == "";
    assert Base64Url.Symbols([b]) == [Base64Url.CharValue(b).value];
  }
}
