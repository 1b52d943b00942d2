/** Concurrent passkey requests: when the key data of a stored account is that of its credential. */
module KeyDataRuns {
  import opened Bytes
  import opened Store
  import opened Ceremony
  import opened ChallengeRuns
  import opened OwnershipRuns
  import opened RequestLaws
  import Base64Url
  import FactoryCache
  import PublicKey

  // ---------------------------------------------------------------------------------------------
  // Keys in the tables and in the requests have the right size
  // ---------------------------------------------------------------------------------------------

  ghost predicate ShapedCredential(id: string, c: Credential) {
    |c.rawKey| == Base64Url.PUBKEY_SIZE && c.idBytes == Base64Url.FromBase64Url(id)
  }

  ghost predicate Shaped(db: Db) {
    forall c :: c in db.credentials ==> ShapedCredential(c, db.credentials[c])
  }

  predicate KeyShaped(p: Process) {
    p.RegCheckOwner? || p.RegUpsertCredential? || p.RegUpsertAccount? ==> |p.rawKey| == Base64Url.PUBKEY_SIZE
  }

  lemma ExecKeepsKeyShaped(w: FactoryCache.World, db: Db, p: Process)
    requires WellFormed(p) && Enabled(db, p) && KeyShaped(p)
    ensures KeyShaped(Exec(w, db, p).1)
  {
    hide IsNewest, PublicKey.FromCose, AccountsOf, CredentialsOf, NewAccount, NewCredential, NewChallenge,
         InsertUserAndSession, TouchSession, InsertChallenge, DeleteChallenge, SetSignCount, TransferOwner,
         UpsertCredential, UpsertAccount;
  }

  /** What the two upserts do to credentials and accounts. */
  lemma UpsertEffect(w: FactoryCache.World, db: Db, p: Process)
    requires WellFormed(p) && (p.RegUpsertCredential? || p.RegUpsertAccount?)
    ensures var db', credId := Exec(w, db, p).0, p.rq.work.credId;
            var row := NewAccount(w, p.rq, p.ticket.user, p.rawKey);
            if p.RegUpsertCredential? && p.ticket.user in db.users then
              db' == db.(credentials := db.credentials[credId := NewCredential(p.rq, p.ticket.user, p.rawKey)])
            else if p.RegUpsertAccount? && UpsertAccount(db, credId, row).Some? then
              && credId in db.credentials && credId in db'.accounts
              && db' == db.(accounts := db.accounts[credId := db'.accounts[credId]])
              && db'.accounts[credId] == row.(createdAt := db'.accounts[credId].createdAt)
            else db' == db
  {
    hide KeyDataHex, Base64Url.FromBase64Url, FactoryCache.Salt, FactoryCache.PredictWebAuthn;
  }

  lemma ExecKeepsShaped(w: FactoryCache.World, db: Db, p: Process)
    requires WellFormed(p) && Enabled(db, p) && Shaped(db) && KeyShaped(p)
    ensures Shaped(Exec(w, db, p).0)
  {
    hide Exec, Enabled, Base64Url.FromBase64Url, NewAccount;
    var db' := Exec(w, db, p).0;
    if p.RegUpsertCredential? || p.RegUpsertAccount? {
      UpsertEffect(w, db, p);
    } else {
      OnlyRegistrationWritesKeys(w, db, p);
      forall c | c in db'.credentials
        ensures ShapedCredential(c, db'.credentials[c])
      {
        var was, now := db.credentials[c], db'.credentials[c];
        assert now.rawKey == now.(userId := "", signCount := 0).rawKey == was.rawKey;
        assert now.idBytes == now.(userId := "", signCount := 0).idBytes == was.idBytes;
      }
    }
  }

  // ---------------------------------------------------------------------------------------------
  // The key an account was made from
  // ---------------------------------------------------------------------------------------------

  /** Key data, salt and address are those of this key. */
  ghost predicate MadeFrom(w: FactoryCache.World, id: string, a: Account, k: seq<byte>) {
    && |k| == Base64Url.PUBKEY_SIZE && a.keyDataHex == ToHex(k + Base64Url.FromBase64Url(id))
    && a.saltHex == ToHex(FactoryCache.Salt(w, a.keyDataHex, "webauthn-v1"))
    && a.address == FactoryCache.PredictWebAuthn(w, a.keyDataHex)
  }

  /** An account matches its credential exactly when it was made from the credential's key. */
  lemma MatchesExactlyWhen(w: FactoryCache.World, id: string, c: Credential, a: Account, k: seq<byte>)
    requires ShapedCredential(id, c) && MadeFrom(w, id, a, k)
    ensures KeysMatch(w, id, c, a) <==> c.rawKey == k
  {
    hide Base64Url.FromBase64Url, FactoryCache.Salt, FactoryCache.PredictWebAuthn;
    SameKeyData(c.rawKey, c.idBytes, k, c.idBytes);
  }

  lemma NewAccountIsMade(w: FactoryCache.World, rq: Request, user: string, k: seq<byte>, created: int)
    requires rq.work.FinishReg? && |k| == Base64Url.PUBKEY_SIZE
    ensures MadeFrom(w, rq.work.credId, NewAccount(w, rq, user, k).(createdAt := created), k)
  {
  }

  // ---------------------------------------------------------------------------------------------
  // Which statements make key data stale
  // ---------------------------------------------------------------------------------------------

  /** An upsert of a credential with an account, or of an account, that goes through and carries another key than the
      credential has. */
  predicate Stales(w: FactoryCache.World, db: Db, p: Process)
    requires WellFormed(p)
  {
    || (p.RegUpsertCredential? && p.ticket.user in db.users && p.rq.work.credId in db.accounts
        && p.rq.work.credId in db.credentials && db.credentials[p.rq.work.credId].rawKey != p.rawKey)
    || (p.RegUpsertAccount?
        && UpsertAccount(db, p.rq.work.credId, NewAccount(w, p.rq, p.ticket.user, p.rawKey)).Some?
        && db.credentials[p.rq.work.credId].rawKey != p.rawKey)
  }

  /** From tables in which all key data is right, these statements break it and no others do. */
  lemma StalesExactlyWhen(w: FactoryCache.World, db: Db, p: Process)
    requires WellFormed(p) && Enabled(db, p) && KeyDataHolds(w, db) && Shaped(db) && KeyShaped(p)
    ensures KeyDataHolds(w, Exec(w, db, p).0) <==> !Stales(w, db, p)
  {
    hide Exec, Enabled, KeysMatch, NewAccount, NewCredential, UpsertAccount, ShapedCredential;
    var db' := Exec(w, db, p).0;
    if p.RegUpsertCredential? {
      UpsertEffect(w, db, p);
      var c := p.rq.work.credId;
      if c in db.accounts {
        RekeyedMatchesExactlyWhen(w, p.rq, p.ticket.user, p.rawKey, db.credentials[c], db.accounts[c]);
      }
    } else if p.RegUpsertAccount? {
      UpsertEffect(w, db, p);
      var c := p.rq.work.credId;
      if UpsertAccount(db, c, NewAccount(w, p.rq, p.ticket.user, p.rawKey)).Some? {
        NewAccountIsMade(w, p.rq, p.ticket.user, p.rawKey, db'.accounts[c].createdAt);
        MatchesExactlyWhen(w, c, db.credentials[c], db'.accounts[c], p.rawKey);
      }
    } else {
      OnlyRegistrationWritesKeys(w, db, p);
      forall a | a in db'.accounts
        ensures KeysMatch(w, a, db'.credentials[a], db'.accounts[a])
      {
        SameKeysMatch(w, a, db.credentials[a], db.accounts[a], db'.credentials[a], db'.accounts[a]);
      }
    }
  }

  // ---------------------------------------------------------------------------------------------
  // Over runs
  // ---------------------------------------------------------------------------------------------

  /** The tables and requests have keys of the right size, and these are the keys that the accounts were made from. */
  ghost predicate Made(w: FactoryCache.World, s: State, keys: map<string, seq<byte>>) {
    && Shaped(s.db)
    && (forall pid :: pid in s.procs ==> KeyShaped(s.procs[pid]))
    && (forall a :: a in s.db.accounts ==> a in keys && MadeFrom(w, a, s.db.accounts[a], keys[a]))
  }

  /** The keys of the accounts after one more step: an account upsert that goes through brings a new one. */
  function KeysAfter(w: FactoryCache.World, s: State, a: Act, keys: map<string, seq<byte>>): map<string, seq<byte>>
    requires CanAct(s, a)
  {
    if !a.Advance? || !s.procs[a.pid].RegUpsertAccount? then keys
    else
      var p := s.procs[a.pid];
      var row := NewAccount(w, p.rq, p.ticket.user, p.rawKey);
      if UpsertAccount(s.db, p.rq.work.credId, row).None? then keys else keys[p.rq.work.credId := p.rawKey]
  }

  /** For each account, the key that its last upsert in the run carried. */
  function LastKeys(w: FactoryCache.World, s: State, acts: seq<Act>, keys: map<string, seq<byte>>)
    : map<string, seq<byte>>
    decreases |acts|
  {
    if acts == [] || !CanAct(s, acts[0]) then keys
    else LastKeys(w, Apply(w, s, acts[0]), acts[1..], KeysAfter(w, s, acts[0], keys))
  }

  lemma AccountsStayMade(w: FactoryCache.World, db: Db, p: Process, a: string, k: seq<byte>)
    requires WellFormed(p) && Enabled(db, p) && !p.RegUpsertAccount?
    requires a in Exec(w, db, p).0.accounts
    ensures a in db.accounts
    ensures MadeFrom(w, a, db.accounts[a], k) ==> MadeFrom(w, a, Exec(w, db, p).0.accounts[a], k)
  {
    hide Exec, Enabled, Base64Url.FromBase64Url, FactoryCache.Salt, FactoryCache.PredictWebAuthn;
    if p.RegUpsertCredential? {
      UpsertEffect(w, db, p);
    } else {
      OnlyRegistrationWritesKeys(w, db, p);
      var was, now := db.accounts[a], Exec(w, db, p).0.accounts[a];
      assert now.(userId := "") == was.(userId := "");
      assert now.(userId := "").address == now.address && was.(userId := "").address == was.address;
    }
  }

  lemma StepKeepsMade(w: FactoryCache.World, s: State, act: Act, keys: map<string, seq<byte>>)
    requires CanAct(s, act) && Made(w, s, keys)
    ensures Made(w, Apply(w, s, act), KeysAfter(w, s, act, keys))
  {
    hide Exec, Enabled, Shaped, MadeFrom, NewAccount, UpsertAccount;
    if act.Advance? {
      var p := s.procs[act.pid];
      ExecKeepsShaped(w, s.db, p);
      ExecKeepsKeyShaped(w, s.db, p);
      var db', keys' := Exec(w, s.db, p).0, KeysAfter(w, s, act, keys);
      if p.RegUpsertAccount? {
        UpsertEffect(w, s.db, p);
      }
      forall a | a in db'.accounts
        ensures a in keys' && MadeFrom(w, a, db'.accounts[a], keys'[a])
      {
        if !p.RegUpsertAccount? {
          AccountsStayMade(w, s.db, p, a, if a in keys then keys[a] else []);
        } else if a == p.rq.work.credId
                  && UpsertAccount(s.db, a, NewAccount(w, p.rq, p.ticket.user, p.rawKey)).Some? {
          NewAccountIsMade(w, p.rq, p.ticket.user, p.rawKey, db'.accounts[a].createdAt);
        } else {
          assert a in s.db.accounts && db'.accounts[a] == s.db.accounts[a];
        }
      }
    }
  }

  lemma {:induction false} RunKeepsMade(w: FactoryCache.World, s: State, acts: seq<Act>, s': State,
                                        keys: map<string, seq<byte>>)
    requires Made(w, s, keys) && Run(w, s, acts, s')
    ensures Made(w, s', LastKeys(w, s, acts, keys))
    decreases |acts|
  {
    hide Apply, CanAct, KeysAfter, Made;
    if acts != [] {
      StepKeepsMade(w, s, acts[0], keys);
      RunKeepsMade(w, Apply(w, s, acts[0]), acts[1..], s', KeysAfter(w, s, acts[0], keys));
    }
  }

  /** After any interleaving, crashes included: the key data of an account, with its salt and address, is that of its
      credential exactly when the credential has the key that the last upsert of the account carried. */
  lemma KeyDataMatchesExactlyWhen(w: FactoryCache.World, acts: seq<Act>, s: State, a: string)
    requires Run(w, START, acts, s) && a in s.db.accounts
    ensures a in s.db.credentials && a in LastKeys(w, START, acts, map[])
    ensures KeysMatch(w, a, s.db.credentials[a], s.db.accounts[a]) <==>
            s.db.credentials[a].rawKey == LastKeys(w, START, acts, map[])[a]
  {
    hide Run, LastKeys, MadeFrom, KeysMatch, ShapedCredential, UniqueColumns;
    KeysHoldInEveryRun(w, acts, s);
    RunKeepsMade(w, START, acts, s, map[]);
    MatchesExactlyWhen(w, a, s.db.credentials[a], s.db.accounts[a], LastKeys(w, START, acts, map[])[a]);
  }

  ghost predicate KeyDataThroughout(w: FactoryCache.World, s: State, acts: seq<Act>)
    decreases |acts|
  {
    && KeyDataHolds(w, s.db)
    && (acts == [] || (CanAct(s, acts[0]) && KeyDataThroughout(w, Apply(w, s, acts[0]), acts[1..])))
  }

  ghost predicate NeverStales(w: FactoryCache.World, s: State, acts: seq<Act>)
    decreases |acts|
  {
    acts == [] ||
    (&& CanAct(s, acts[0]) && (acts[0].Advance? ==> !Stales(w, s.db, s.procs[acts[0].pid]))
     && NeverStales(w, Apply(w, s, acts[0]), acts[1..]))
  }

  lemma {:induction false} ThroughoutFrom(w: FactoryCache.World, s: State, acts: seq<Act>, s': State,
                                          keys: map<string, seq<byte>>)
    requires KeyDataHolds(w, s.db) && Made(w, s, keys) && Run(w, s, acts, s')
    ensures KeyDataThroughout(w, s, acts) <==> NeverStales(w, s, acts)
    decreases |acts|
  {
    hide Exec, KeyDataHolds, Stales, KeysAfter;
    if acts != [] {
      var a, s1 := acts[0], Apply(w, s, acts[0]);
      StepKeepsMade(w, s, a, keys);
      if a.Advance? {
        StalesExactlyWhen(w, s.db, s.procs[a.pid]);
      }
      if KeyDataHolds(w, s1.db) {
        ThroughoutFrom(w, s1, acts[1..], s', KeysAfter(w, s, a, keys));
      }
    }
  }

  /** All key data is right in every state of a run exactly when none of the staling statements is taken. */
  lemma KeyDataThroughoutExactlyWhen(w: FactoryCache.World, acts: seq<Act>, s: State)
    requires Run(w, START, acts, s)
    ensures KeyDataThroughout(w, START, acts) <==> NeverStales(w, START, acts)
  {
    ThroughoutFrom(w, START, acts, s, map[]);
  }
}
