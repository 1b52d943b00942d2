/** One run, from empty tables, that ends with a credential and its account in different hands: two sessions register
    the same new passkey, and each checks the owner before the other has stored anything. */
module SplitRun {
  import opened Bytes
  import opened Store
  import opened Ceremony
  import opened CeremonyOrigins
  import opened ChallengeRuns
  import opened OriginExamples
  import opened OwnershipRuns
  import opened RunSteps
  import opened WholeRequests
  import Base64Url
  import FactoryCache

  /** Session, user and challenge share their name, to keep the run short. */
  function FirstBegin(user: string): Request {
    BeginOf(SessionInput(None, 0, user, user), user)
  }

  lemma Begun(w: FactoryCache.World, acts: seq<Act>, s: State, pid: nat, user: string)
    returns (acts': seq<Act>, s': State)
    requires Open(w) && Run(w, START, acts, s) && pid !in s.procs
    requires forall q :: q in s.procs ==> s.procs[q].Finished?
    requires user !in s.db.users && user !in s.db.sessions && user !in s.db.challenges
    ensures Run(w, START, acts', s') && s'.procs.Keys == s.procs.Keys + {pid}
    ensures forall q :: q in s'.procs ==> s'.procs[q].Finished?
    ensures s'.db == s.db.(users := s.db.users + {user},
                           sessions := s.db.sessions[user := Session(user, 0, SESSION_TTL_MS)],
                           challenges := s.db.challenges[user := RowOf(user, 0)])
  {
    hide Run, Serve;
    BeginServed(w, s.db, SessionInput(None, 0, user, user), user);
    acts', s' := Whole(w, acts, s, pid, FirstBegin(user));
  }

  function Ready(user: string, key: Key, t: Ticket): Process {
    RegUpsertCredential(FinishOf(user, user, "AA", key), t, key.raw)
  }

  /** Without any transfer of ownership, and with nothing special configured, the tables end up with an account that
      belongs to one user and whose credential belongs to another. */
  lemma OwnersCanSplit(w: FactoryCache.World, x: Bytes32, y: Bytes32) returns (acts: seq<Act>, s: State)
    requires Configured(w, PLAIN_ENV)
    ensures Run(w, START, acts, s) && !OwnersAgree(s.db)
  {
    hide Run, Configured, Open, KeyOf;
    PlainIsOpen(w);
    var key := KeyOf(x, y);
    acts, s := [], START;
    EmptyRun(w);
    acts, s := Begun(w, acts, s, 0, "u");
    acts, s := Begun(w, acts, s, 1, "v");
    acts, s := OwnerChecked(w, acts, s, 2, "u", "u", "AA", key);
    acts, s := OwnerChecked(w, acts, s, 3, "v", "v", "AA", key);
    acts, s := CredentialsStored(w, acts, s, key, s.procs[2].ticket, s.procs[3].ticket);
    acts, s := AccountStored(w, acts, s, key, s.procs[2].ticket);
  }

  /** Both requests store the credential: the second one owns it then. */
  lemma CredentialsStored(w: FactoryCache.World, acts: seq<Act>, s: State, key: Key, t: Ticket, t': Ticket)
    returns (acts': seq<Act>, s': State)
    requires Run(w, START, acts, s) && {"u", "v"} <= s.db.users && t.user == "u" && t'.user == "v"
    requires 2 in s.procs && s.procs[2] == Ready("u", key, t) && 3 in s.procs && s.procs[3] == Ready("v", key, t')
    ensures Run(w, START, acts', s')
    ensures 2 in s'.procs && s'.procs[2] == RegUpsertAccount(FinishOf("u", "u", "AA", key), t, key.raw)
    ensures s'.db == s.db.(credentials := s'.db.credentials)
    ensures "AA" in s'.db.credentials && s'.db.credentials["AA"].userId == "v"
  {
    hide Run, Base64Url.FromBase64Url;
    var u, v := FinishOf("u", "u", "AA", key), FinishOf("v", "v", "AA", key);
    var db1 := UpsertCredential(s.db, "AA", NewCredential(u, "u", key.raw)).value;
    acts', s' := Moved(w, acts, s, 2, db1, RegUpsertAccount(u, t, key.raw));
    var db2 := UpsertCredential(db1, "AA", NewCredential(v, "v", key.raw)).value;
    acts', s' := Moved(w, acts', s', 3, db2, RegUpsertAccount(v, t', key.raw));
  }

  /** Then the first one stores its account. */
  lemma AccountStored(w: FactoryCache.World, acts: seq<Act>, s: State, key: Key, t: Ticket)
    returns (acts': seq<Act>, s': State)
    requires Run(w, START, acts, s) && "u" in s.db.users && s.db.accounts == map[] && t.user == "u"
    requires 2 in s.procs && s.procs[2] == RegUpsertAccount(FinishOf("u", "u", "AA", key), t, key.raw)
    requires "AA" in s.db.credentials && s.db.credentials["AA"].userId == "v"
    ensures Run(w, START, acts', s') && !OwnersAgree(s'.db)
  {
    hide Run, Base64Url.FromBase64Url, KeyDataHex, FactoryCache.Salt, FactoryCache.PredictWebAuthn;
    var rq := FinishOf("u", "u", "AA", key);
    var account := NewAccount(w, rq, "u", key.raw);
    var db' := UpsertAccount(s.db, "AA", account).value;
    acts', s' := Moved(w, acts, s, 2, db', Consume(rq, t, Registered("AA", account)));
    assert "AA" in s'.db.accounts && s'.db.accounts["AA"].userId == "u";
  }
}
