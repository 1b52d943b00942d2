/** The passkey routes as handlers that change the tables step by step. Each is proved to do what the whole request
    does, and so what its statements do when nothing runs in between. */
module PasskeyServer {
  import opened Bytes
  import opened Store
  import opened Ceremony
  import opened WholeRequests
  import opened RequestLaws
  import Base64Url
  import FactoryCache
  import OriginChecks
  import PublicKey

  /** What a handler promises: run on its own, the request's statements lead to these tables and this reply. */
  ghost predicate Handled(w: FactoryCache.World, before: Db, rq: Request, after: Db, reply: Reply) {
    var end := RunAlone(w, before, FindSession(rq));
    end.Some? && end.value.0 == after && end.value.1.reply == reply
  }

  lemma ServedIsHandled(w: FactoryCache.World, before: Db, rq: Request, after: Db, reply: Reply)
    requires ForeignKeys(before) && Serve(w, before, rq).Some?
    requires Serve(w, before, rq).value.0 == after && Serve(w, before, rq).value.1.reply == reply
    ensures Handled(w, before, rq, after, reply)
  {
    ServeIsRunAlone(w, before, rq);
  }

  class Server {
    const world: FactoryCache.World
    var users: set<string>
    var sessions: map<string, Session>
    var challenges: map<string, Challenge>
    var credentials: map<string, Credential>
    var accounts: map<string, Account>

    function Tables(): Db
      reads this
    {
      Db(users, sessions, challenges, credentials, accounts)
    }

    constructor (w: FactoryCache.World)
      ensures world == w && Tables() == EMPTY
    {
      world := w;
      users, sessions, challenges, credentials, accounts := {}, map[], map[], map[], map[];
    }

    /** getOrCreateSession: the user of a live session, whose expiry slides, or a new user in a new session. */
    method GetOrCreateSession(s: SessionInput) returns (user: Option<string>)
      modifies this`users, this`sessions
      ensures user.Some? <==> SessionFor(old(Tables()), s).Some?
      ensures if user.Some? then SessionFor(old(Tables()), s) == Some((Tables(), user.value))
              else Tables() == old(Tables())
    {
      if s.cookie.Some? && s.cookie.value in sessions {
        var row := sessions[s.cookie.value];
        if row.expiresAt > s.now {
          sessions := sessions[s.cookie.value := row.(expiresAt := s.now + SESSION_TTL_MS)];
          return Some(row.userId);
        }
      }
      if s.freshUser in users || s.freshSession in sessions {
        return None;
      }
      users := users + {s.freshUser};
      sessions := sessions[s.freshSession := Session(s.freshUser, s.now, s.now + SESSION_TTL_MS)];
      return Some(s.freshUser);
    }

    /** findFirst, newest first. */
    method FindNewest(purpose: Purpose, user: Option<string>) returns (answer: Option<string>)
      ensures IsNewest(Tables(), purpose, user, answer)
      ensures answer.Some? ==> answer.value in challenges
    {
      answer := None;
      var rest := challenges.Keys;
      while rest != {}
        invariant rest <= challenges.Keys
        invariant answer.Some? ==> answer.value in challenges && Matches(challenges[answer.value], purpose, user)
        invariant forall c :: c in challenges && c !in rest && Matches(challenges[c], purpose, user) ==>
                    answer.Some? && challenges[c].createdAt <= challenges[answer.value].createdAt
        decreases |rest|
      {
        var id :| id in rest;
        rest := rest - {id};
        if Matches(challenges[id], purpose, user)
           && (answer.None? || challenges[answer.value].createdAt < challenges[id].createdAt) {
          answer := Some(id);
        }
      }
    }

    /** POST of either begin route. */
    method Begin(rq: Request) returns (reply: Reply)
      requires ForeignKeys(Tables()) && rq.work.Begin?
      modifies this`users, this`sessions, this`challenges
      ensures Handled(world, old(Tables()), rq, Tables(), reply)
    {
      ghost var before := Tables();
      reply := Failed;
      var session := GetOrCreateSession(rq.session);
      var context := ContextOf(world, rq.work);
      if session.Some? && context.Ok? {
        var allow := if rq.work.purpose.Authentication? then CredentialsOf(Tables(), session.value) else {};
        if rq.work.challengeId !in challenges {
          var row := Challenge(session.value, rq.work.purpose, rq.work.challenge, context.value.rpId,
                               context.value.origin, rq.work.now, rq.work.now + 5 * 60 * 1000);
          challenges := challenges[rq.work.challengeId := row];
          reply := Issued(rq.work.challengeId, allow);
        }
      }
      ServedIsHandled(world, before, rq, Tables(), reply);
    }

    /** The counter update and, for another session's credential, the transfer of it and its account. */
    method SignIn(credId: string, newCounter: int, sessionUser: string)
      requires credId in credentials
      modifies this`credentials, this`accounts
      ensures Tables() == SignedIn(old(Tables()), credId, newCounter, sessionUser)
    {
      var owner := credentials[credId].userId;
      credentials := credentials[credId := credentials[credId].(signCount := newCounter)];
      if owner != sessionUser {
        credentials := credentials[credId := credentials[credId].(userId := sessionUser)];
        if credId in accounts {
          accounts := accounts[credId := accounts[credId].(userId := sessionUser)];
        }
      }
    }

    /** POST of authentication finish. `verified` is the outcome of the assertion; `row` is the challenge that was
        found. */
    method AuthenticationFinish(s: SessionInput, now: int, site: OriginChecks.Site, credId: string, verified: bool,
                                newCounter: int)
      returns (reply: Reply, row: Option<string>)
      requires ForeignKeys(Tables())
      modifies this
      ensures Handled(world, old(Tables()), Request(s, FinishAuth(now, row, site, credId, verified, newCounter)),
                      Tables(), reply)
    {
      hide IsNewest, SessionFor, AccountsOf, SignedIn, ForeignKeys;
      ghost var before := Tables();
      reply, row := Failed, None;
      var session := GetOrCreateSession(s);
      if session.Some? {
        row := FindNewest(Authentication, None);
        if row.Some? && challenges[row.value].expiresAt > now && OriginAccepted(world, site, challenges[row.value])
           && credId in credentials && verified {
          SignIn(credId, newCounter, session.value);
          if credId in accounts {
            var list := AccountsOf(Tables(), session.value);
            challenges := challenges - {row.value};
            reply := Authenticated(credId, accounts[credId], list);
          }
        }
      }
      ServedIsHandled(world, before, Request(s, FinishAuth(now, row, site, credId, verified, newCounter)),
                      Tables(), reply);
    }

    /** The two upserts of a registration. */
    method Enrol(rq: Request, user: string, rawKey: seq<byte>) returns (account: Option<Account>)
      requires rq.work.FinishReg?
      modifies this`credentials, this`accounts
      ensures (Tables(), account) == Enrolled(world, old(Tables()), rq, user, rawKey)
    {
      var credId := rq.work.credId;
      var credentialIdBytes := Base64Url.FromBase64Url(credId);
      var keyDataHex := ToHex(rawKey + credentialIdBytes);
      var salt := FactoryCache.Salt(world, keyDataHex, "webauthn-v1");
      var predicted := FactoryCache.PredictWebAuthn(world, keyDataHex);
      credentials := credentials[credId := Credential(user, credentialIdBytes, rq.work.cose, rawKey, rq.work.counter)];
      var row := Account(user, keyDataHex, ToHex(salt), predicted, rq.work.deployed, rq.work.now);
      var upserted := UpsertAccount(Tables(), credId, row);
      if upserted.None? {
        return None;
      }
      accounts := upserted.value.accounts;
      return Some(row);
    }

    /** POST of registration finish. `verified` is as above; `ready` says that configuration, prediction and
        deployment went through, and `deployed` what the ledger said of the address last. */
    method RegistrationFinish(s: SessionInput, now: int, site: OriginChecks.Site, credId: string, cose: seq<byte>,
                              verified: bool, counter: int, ready: bool, deployed: bool)
      returns (reply: Reply, row: Option<string>)
      requires ForeignKeys(Tables())
      modifies this
      ensures Handled(world, old(Tables()),
                      Request(s, FinishReg(now, row, site, credId, cose, verified, counter, ready, deployed)),
                      Tables(), reply)
    {
      hide IsNewest, SessionFor, ForeignKeys, PublicKey.FromCose, Enrolled;
      ghost var before := Tables();
      reply, row := Failed, None;
      var session := GetOrCreateSession(s);
      if session.Some? {
        row := FindNewest(Registration, session);
        if row.Some? && challenges[row.value].expiresAt > now && OriginAccepted(world, site, challenges[row.value])
           && verified {
          var rawKey := PublicKey.FromCose(cose);
          if rawKey.Some? && ready && (credId in credentials ==> credentials[credId].userId == session.value) {
            var rq := Request(s, FinishReg(now, row, site, credId, cose, verified, counter, ready, deployed));
            var account := Enrol(rq, session.value, rawKey.value);
            if account.Some? {
              challenges := challenges - {row.value};
              reply := Registered(credId, account.value);
            }
          }
        }
      }
      var work := FinishReg(now, row, site, credId, cose, verified, counter, ready, deployed);
      ServedIsHandled(world, before, Request(s, work), Tables(), reply);
    }
  }
}
