/** Two ways, from empty tables, to a stored account whose key data is not that of its credential: a server that dies
    between registration's two upserts, and a second id for the same bytes. */
module StaleRuns {
  import opened Bytes
  import opened Store
  import opened Ceremony
  import opened CeremonyOrigins
  import opened ChallengeRuns
  import opened KeyDataRuns
  import opened OriginExamples
  import opened RequestLaws
  import opened RunSteps
  import opened WholeRequests
  import Base64Url
  import FactoryCache
  import PublicKey

  const FIRST_VISIT := SessionInput(None, 0, "u", "u")
  const NEXT_VISIT := SessionInput(Some("u"), 1, "", "")

  /** The user's session is live and no challenge is stored. */
  predicate Idle(db: Db) {
    && "u" in db.users && "u" in db.sessions && db.sessions["u"].userId == "u" && db.sessions["u"].expiresAt > 1
    && db.challenges == map[]
  }

  predicate Begun(db: Db, c: string) {
    && Idle(db.(challenges := map[]))
    && (db.challenges == map[c := RowOf("u", 0)] || db.challenges == map[c := RowOf("u", 1)])
  }

  lemma FirstBegin(w: FactoryCache.World, c: string)
    requires Open(w)
    ensures var served := Serve(w, EMPTY, BeginOf(FIRST_VISIT, c));
            && served.Some? && served.value.1.Finished? && Begun(served.value.0, c)
            && served.value.0.credentials == map[] && served.value.0.accounts == map[]
  {
    hide Serve;
    BeginServed(w, EMPTY, FIRST_VISIT, c);
  }

  lemma NextBegin(w: FactoryCache.World, db: Db, c: string)
    requires Open(w) && Idle(db)
    ensures var served := Serve(w, db, BeginOf(NEXT_VISIT, c));
            && served.Some? && served.value.1.Finished? && Begun(served.value.0, c)
            && served.value.0.credentials == db.credentials && served.value.0.accounts == db.accounts
  {
    hide Serve;
    BeginServed(w, db, NEXT_VISIT, c);
  }

  function Passkey(id: string, key: Key): Credential {
    Credential("u", Base64Url.FromBase64Url(id), key.cose, key.raw, 0)
  }

  /** A registration that is not turned away stores both rows. */
  lemma Enrol(w: FactoryCache.World, db: Db, c: string, id: string, key: Key)
    requires Open(w) && key.Valid() && Begun(db, c) && (id in db.credentials ==> db.credentials[id].userId == "u")
    ensures var served := Serve(w, db, FinishOf("u", c, id, key));
            && served.Some? && served.value.1.Finished?
            && var db', rq := served.value.0, FinishOf("u", c, id, key);
            var stored := db.(credentials := db.credentials[id := Passkey(id, key)]);
            && db'.credentials == stored.credentials
            && if UpsertAccount(stored, id, NewAccount(w, rq, "u", key.raw)).Some? then
                 && Idle(db') && id in db'.accounts && db'.accounts == db.accounts[id := db'.accounts[id]]
                 && MadeFrom(w, id, db'.accounts[id], key.raw)
               else db'.accounts == db.accounts
  {
    hide Serve, NewAccount, MadeFrom, Base64Url.FromBase64Url;
    var rq := FinishOf("u", c, id, key);
    FinishServed(w, db, "u", c, id, key);
    var db' := Serve(w, db, rq).value.0;
    var stored := db.(credentials := db.credentials[id := Passkey(id, key)]);
    var row := NewAccount(w, rq, "u", key.raw);
    assert NewCredential(rq, "u", key.raw) == Passkey(id, key);
    assert UpsertAccount(stored, id, row).Some? <==>
           UpsertAccount(Touched(stored, "u"), id, row).Some?;
    if UpsertAccount(stored, id, row).Some? {
      NewAccountIsMade(w, rq, "u", key.raw, db'.accounts[id].createdAt);
    }
  }

  /** Where there is no account yet, the first registration goes through. */
  lemma FirstEnrol(w: FactoryCache.World, db: Db, c: string, id: string, key: Key)
    requires Open(w) && key.Valid() && Begun(db, c) && db.credentials == map[] && db.accounts == map[]
    ensures var served := Serve(w, db, FinishOf("u", c, id, key));
            && served.Some? && served.value.1.Finished?
            && var db' := served.value.0;
            && Idle(db') && db'.credentials == map[id := Passkey(id, key)]
            && id in db'.accounts && db'.accounts == map[id := db'.accounts[id]]
            && MadeFrom(w, id, db'.accounts[id], key.raw)
  {
    hide Serve, MadeFrom, KeyDataHex, Base64Url.FromBase64Url, FactoryCache.Salt, FactoryCache.PredictWebAuthn;
    Enrol(w, db, c, id, key);
  }

  /** A stored account that was made from another key than its credential has. */
  lemma MadeFromAnotherKey(w: FactoryCache.World, db: Db, id: string, key: Key, k: seq<byte>)
    requires id in db.accounts && MadeFrom(w, id, db.accounts[id], k)
    requires id in db.credentials && db.credentials[id] == Passkey(id, key)
    requires |key.raw| == Base64Url.PUBKEY_SIZE && key.raw != k
    ensures !KeyDataHolds(w, db)
  {
    hide Base64Url.FromBase64Url, MadeFrom, KeysMatch;
    MatchesExactlyWhen(w, id, db.credentials[id], db.accounts[id], k);
  }

  // ---------------------------------------------------------------------------------------------
  // A crash between the upserts
  // ---------------------------------------------------------------------------------------------

  /** A passkey with a canonical id is registered, then registered again by its owner with another key, and the server
      dies after the first upsert: nothing runs any more, and the key data is stale. */
  lemma CrashLeavesStaleKeyData(w: FactoryCache.World, x1: Bytes32, y1: Bytes32, x2: Bytes32, y2: Bytes32)
    returns (acts: seq<Act>, s: State)
    requires Configured(w, PLAIN_ENV) && x1 != x2
    ensures Run(w, START, acts, s) && !KeyDataHolds(w, s.db)
    ensures forall pid :: pid in s.procs ==> s.procs[pid].Finished?
    ensures s.db.accounts.Keys == s.db.credentials.Keys == {"AA"} && Base64Url.Canonical("AA")
  {
    hide Run, Configured, Serve, MadeFrom, KeyDataHolds, Passkey, Begun, Idle, Open, KeyOf, BeginOf, FinishOf,
         Base64Url.FromBase64Url, Base64Url.Canonical, Key.Valid;
    PlainIsOpen(w);
    TwoTextsOneId();
    var key1, key2 := KeyOf(x1, y1), KeyOf(x2, y2);
    DifferentKeys(x1, y1, x2, y2);
    acts, s := [], START;
    EmptyRun(w);
    FirstBegin(w, "1");
    acts, s := Whole(w, acts, s, 0, BeginOf(FIRST_VISIT, "1"));
    FirstEnrol(w, s.db, "1", "AA", key1);
    acts, s := Whole(w, acts, s, 1, FinishOf("u", "1", "AA", key1));
    NextBegin(w, s.db, "2");
    acts, s := Whole(w, acts, s, 2, BeginOf(NEXT_VISIT, "2"));
    acts, s := RekeyCrashes(w, acts, s, key1, key2);
  }

  lemma DifferentKeys(x1: Bytes32, y1: Bytes32, x2: Bytes32, y2: Bytes32)
    requires x1 != x2
    ensures KeyOf(x1, y1).raw != KeyOf(x2, y2).raw
    ensures |KeyOf(x1, y1).raw| == |KeyOf(x2, y2).raw| == Base64Url.PUBKEY_SIZE
  {
    PublicKey.UncompressedInjective(x1, y1, x2, y2);
  }

  lemma RekeyCrashes(w: FactoryCache.World, acts: seq<Act>, s: State, key1: Key, key2: Key)
    returns (acts': seq<Act>, s': State)
    requires Open(w) && Run(w, START, acts, s) && s.procs.Keys == {0, 1, 2} && Begun(s.db, "2")
    requires forall pid :: pid in s.procs ==> s.procs[pid].Finished?
    requires s.db.credentials == map["AA" := Passkey("AA", key1)]
    requires s.db.accounts.Keys == {"AA"} && MadeFrom(w, "AA", s.db.accounts["AA"], key1.raw)
    requires key2.Valid() && key1.raw != key2.raw && |key2.raw| == Base64Url.PUBKEY_SIZE
    ensures Run(w, START, acts', s') && !KeyDataHolds(w, s'.db)
    ensures forall pid :: pid in s'.procs ==> s'.procs[pid].Finished?
    ensures s'.db.accounts.Keys == s'.db.credentials.Keys == {"AA"}
  {
    hide Run, MadeFrom, KeyDataHolds, Base64Url.FromBase64Url;
    acts', s' := OwnerChecked(w, acts, s, 3, "u", "2", "AA", key2);
    var rq, t := FinishOf("u", "2", "AA", key2), s'.procs[3].ticket;
    var db' := UpsertCredential(s'.db, "AA", NewCredential(rq, "u", key2.raw)).value;
    acts', s' := Moved(w, acts', s', 3, db', RegUpsertAccount(rq, t, key2.raw));
    OneStep(w, acts', s', Crash(3));
    acts', s' := acts' + [Crash(3)], Apply(w, s', Crash(3));
    MadeFromAnotherKey(w, s'.db, "AA", key2, key1.raw);
  }

  // ---------------------------------------------------------------------------------------------
  // Two ids for the same bytes
  // ---------------------------------------------------------------------------------------------

  lemma {:induction false} ServeAllAppend(w: FactoryCache.World, db: Db, rqs: seq<Request>, rq: Request)
    requires ServeAll(w, db, rqs).Some? && Serve(w, ServeAll(w, db, rqs).value, rq).Some?
    ensures ServeAll(w, db, rqs + [rq]) == Some(Serve(w, ServeAll(w, db, rqs).value, rq).value.0)
    decreases |rqs|
  {
    hide Serve;
    if rqs == [] {
      assert [rq][1..] == [] && [] + [rq] == [rq];
      assert ServeAll(w, Serve(w, db, rq).value.0, []) == Some(Serve(w, db, rq).value.0);
    } else {
      assert (rqs + [rq])[0] == rqs[0] && (rqs + [rq])[1..] == rqs[1..] + [rq];
      ServeAllAppend(w, Serve(w, db, rqs[0]).value.0, rqs[1..], rq);
    }
  }

  /** Two passkeys are stored, each with its own account. */
  ghost predicate TwoStored(w: FactoryCache.World, db: Db, key1: Key, key2: Key) {
    && db.credentials == map["AA" := Passkey("AA", key1), "AB" := Passkey("AB", key2)]
    && db.accounts.Keys == {"AA", "AB"}
    && MadeFrom(w, "AA", db.accounts["AA"], key1.raw) && MadeFrom(w, "AB", db.accounts["AB"], key2.raw)
  }

  lemma Matches(w: FactoryCache.World, id: string, a: Account, key: Key)
    requires MadeFrom(w, id, a, key.raw)
    ensures KeysMatch(w, id, Passkey(id, key), a)
  {
    hide Base64Url.FromBase64Url, KeysMatch;
    MatchesExactlyWhen(w, id, Passkey(id, key), a, key.raw);
  }

  lemma SecondEnrol(w: FactoryCache.World, db: Db, c: string, key1: Key, key2: Key)
    requires Open(w) && FactoryCache.Injective(w.addressOf) && Begun(db, c) && key2.Valid() && key1.raw != key2.raw
    requires |key2.raw| == Base64Url.PUBKEY_SIZE && db.credentials == map["AA" := Passkey("AA", key1)]
    requires db.accounts.Keys == {"AA"} && MadeFrom(w, "AA", db.accounts["AA"], key1.raw)
    ensures var served := Serve(w, db, FinishOf("u", c, "AB", key2));
            served.Some? && Idle(served.value.0) && TwoStored(w, served.value.0, key1, key2)
  {
    hide Serve, MadeFrom, KeysMatch, FactoryCache.Injective, NewAccount, UpsertAccount, Base64Url.FromBase64Url,
         Key.Valid;
    Enrol(w, db, c, "AB", key2);
    var stored := db.(credentials := db.credentials["AB" := Passkey("AB", key2)]);
    Matches(w, "AA", db.accounts["AA"], key1);
    RejectedExactlyWhen(w, stored, FinishOf("u", c, "AB", key2), "u", key2.raw);
  }

  /** The first passkey is registered again, with the key of the second: its account is turned away. */
  lemma ThirdEnrol(w: FactoryCache.World, db: Db, c: string, key1: Key, key2: Key)
    requires Open(w) && FactoryCache.Injective(w.addressOf) && Begun(db, c) && key2.Valid() && key1.raw != key2.raw
    requires |key2.raw| == Base64Url.PUBKEY_SIZE && TwoStored(w, db, key1, key2)
    ensures var served := Serve(w, db, FinishOf("u", c, "AA", key2));
            served.Some? && !KeyDataHolds(w, served.value.0)
  {
    hide Serve, MadeFrom, KeysMatch, KeyDataHolds, FactoryCache.Injective, NewAccount, UpsertAccount,
         Base64Url.FromBase64Url, Key.Valid;
    Enrol(w, db, c, "AA", key2);
    var stored := db.(credentials := db.credentials["AA" := Passkey("AA", key2)]);
    Matches(w, "AB", db.accounts["AB"], key2);
    TwoTextsOneId();
    RejectedExactlyWhen(w, stored, FinishOf("u", c, "AA", key2), "u", key2.raw);
    assert SameKeyAndId(stored, "AB", "AA", key2.raw);
    MadeFromAnotherKey(w, Serve(w, db, FinishOf("u", c, "AA", key2)).value.0, "AA", key2, key1.raw);
  }

  lemma TwoStoredMatch(w: FactoryCache.World, db: Db, key1: Key, key2: Key)
    requires TwoStored(w, db, key1, key2)
    ensures KeyDataHolds(w, db)
  {
    hide MadeFrom, KeysMatch, Passkey;
    Matches(w, "AA", db.accounts["AA"], key1);
    Matches(w, "AB", db.accounts["AB"], key2);
  }

  /** Whole requests only: a second id for the bytes of the first, then the first again with the key of the second. Up
      to there all key data is right; the last request makes it stale. */
  lemma SecondIdLeavesStaleKeyData(w: FactoryCache.World, x1: Bytes32, y1: Bytes32, x2: Bytes32, y2: Bytes32)
    returns (rqs: seq<Request>, db: Db, rq: Request)
    requires Configured(w, PLAIN_ENV) && FactoryCache.Injective(w.addressOf) && x1 != x2
    ensures ServeAll(w, EMPTY, rqs) == Some(db) && Sound(db) && KeyDataHolds(w, db)
    ensures Serve(w, db, rq).Some? && !KeyDataHolds(w, Serve(w, db, rq).value.0)
  {
    hide Configured, Serve, ServeAll, MadeFrom, KeyDataHolds, Passkey, Begun, Idle, Open, KeyOf, BeginOf, FinishOf,
         TwoStored, Sound, FactoryCache.Injective, Key.Valid;
    PlainIsOpen(w);
    var key1, key2 := KeyOf(x1, y1), KeyOf(x2, y2);
    DifferentKeys(x1, y1, x2, y2);
    rqs, db := FirstTwo(w, key1);
    NextBegin(w, db, "2");
    rqs, db := OneMore(w, rqs, db, BeginOf(NEXT_VISIT, "2"));
    SecondEnrol(w, db, "2", key1, key2);
    rqs, db := OneMore(w, rqs, db, FinishOf("u", "2", "AB", key2));
    NextBegin(w, db, "3");
    SameTwo(w, db, Serve(w, db, BeginOf(NEXT_VISIT, "3")).value.0, key1, key2);
    rqs, db := OneMore(w, rqs, db, BeginOf(NEXT_VISIT, "3"));
    ThirdEnrol(w, db, "3", key1, key2);
    TwoStoredMatch(w, db, key1, key2);
    StartIsKeyed(w);
    ServeAllKeepsSound(w, EMPTY, rqs);
    rq := FinishOf("u", "3", "AA", key2);
  }

  lemma SameTwo(w: FactoryCache.World, db: Db, db': Db, key1: Key, key2: Key)
    requires TwoStored(w, db, key1, key2) && db'.credentials == db.credentials && db'.accounts == db.accounts
    ensures TwoStored(w, db', key1, key2)
  {
  }

  lemma OneMore(w: FactoryCache.World, rqs: seq<Request>, db: Db, rq: Request) returns (rqs': seq<Request>, db': Db)
    requires ServeAll(w, EMPTY, rqs) == Some(db) && Serve(w, db, rq).Some?
    ensures ServeAll(w, EMPTY, rqs') == Some(db') && db' == Serve(w, db, rq).value.0
  {
    hide Serve, ServeAll;
    ServeAllAppend(w, EMPTY, rqs, rq);
    rqs', db' := rqs + [rq], Serve(w, db, rq).value.0;
  }

  lemma FirstTwo(w: FactoryCache.World, key: Key) returns (rqs: seq<Request>, db: Db)
    requires Open(w) && key.Valid()
    ensures ServeAll(w, EMPTY, rqs) == Some(db) && Idle(db) && db.credentials == map["AA" := Passkey("AA", key)]
    ensures db.accounts.Keys == {"AA"} && MadeFrom(w, "AA", db.accounts["AA"], key.raw)
  {
    hide Serve, MadeFrom, Passkey, Begun, Idle, Open, BeginOf, FinishOf, Key.Valid;
    rqs, db := [], EMPTY;
    assert ServeAll(w, EMPTY, []) == Some(EMPTY);
    FirstBegin(w, "1");
    rqs, db := OneMore(w, rqs, db, BeginOf(FIRST_VISIT, "1"));
    FirstEnrol(w, db, "1", "AA", key);
    rqs, db := OneMore(w, rqs, db, FinishOf("u", "1", "AA", key));
  }
}
