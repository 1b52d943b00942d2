/** Concurrent passkey requests: foreign keys in every interleaving, and who owns credentials and accounts. */
module OwnershipRuns {
  import opened Bytes
  import opened Store
  import opened Ceremony
  import opened ChallengeRuns
  import FactoryCache

  /** The user a request acts for, once it knows. */
  function UserOf(p: Process): Option<string> {
    match p
    case FindSession(_) => None
    case RefreshSession(_, _, user) => Some(user)
    case CreateSession(_) => None
    case ListCredentials(_, user, _) => Some(user)
    case IssueChallenge(_, user, _, _) => Some(user)
    case ReadChallenge(_, user) => Some(user)
    case Finished(_, _) => None
    case _ => Some(p.ticket.user)
  }

  // ---------------------------------------------------------------------------------------------
  // Foreign keys and unique columns hold in every interleaving
  // ---------------------------------------------------------------------------------------------

  ghost predicate KeysHold(s: State) {
    && ForeignKeys(s.db) && UniqueColumns(s.db)
    && (forall pid :: pid in s.procs ==> WellFormed(s.procs[pid]))
    && (forall pid :: pid in s.procs && UserOf(s.procs[pid]).Some? ==> UserOf(s.procs[pid]).value in s.db.users)
  }

  lemma SessionKeepsForeignKeys(db: Db, user: string, session: string, now: int, expiresAt: int)
    requires ForeignKeys(db)
    ensures var db' := InsertUserAndSession(db, user, session, now, expiresAt); db'.Some? ==> ForeignKeys(db'.value)
  {
  }

  lemma TouchKeepsForeignKeys(db: Db, session: string, expiresAt: int)
    requires ForeignKeys(db)
    ensures var db' := TouchSession(db, session, expiresAt); db'.Some? ==> ForeignKeys(db'.value)
  {
  }

  lemma IssueKeepsForeignKeys(db: Db, id: string, row: Challenge)
    requires ForeignKeys(db)
    ensures var db' := InsertChallenge(db, id, row); db'.Some? ==> ForeignKeys(db'.value)
  {
  }

  lemma DeleteKeepsForeignKeys(db: Db, id: string)
    requires ForeignKeys(db)
    ensures var db' := DeleteChallenge(db, id); db'.Some? ==> ForeignKeys(db'.value)
  {
  }

  lemma CountKeepsForeignKeys(db: Db, cred: string, count: int)
    requires ForeignKeys(db)
    ensures var db' := SetSignCount(db, cred, count); db'.Some? ==> ForeignKeys(db'.value)
  {
  }

  lemma TransferKeepsForeignKeys(db: Db, cred: string, user: string)
    requires ForeignKeys(db)
    ensures var db' := TransferOwner(db, cred, user); db'.Some? ==> ForeignKeys(db'.value)
  {
  }

  lemma CredentialKeepsForeignKeys(db: Db, cred: string, row: Credential)
    requires ForeignKeys(db)
    ensures var db' := UpsertCredential(db, cred, row); db'.Some? ==> ForeignKeys(db'.value)
  {
  }

  lemma AccountKeepsForeignKeys(db: Db, cred: string, row: Account)
    requires ForeignKeys(db)
    ensures var db' := UpsertAccount(db, cred, row); db'.Some? ==> ForeignKeys(db'.value)
  {
  }

  lemma ExecKeepsForeignKeys(w: FactoryCache.World, db: Db, p: Process)
    requires WellFormed(p) && Enabled(db, p) && ForeignKeys(db)
    ensures ForeignKeys(Exec(w, db, p).0)
  {
    hide ForeignKeys, IsNewest, NewAccount, NewCredential, NewChallenge, Served, Checked, AccountsOf, CredentialsOf,
         InsertUserAndSession, TouchSession, InsertChallenge, DeleteChallenge, SetSignCount, TransferOwner,
         UpsertCredential, UpsertAccount;
    match p
    case RefreshSession(rq, session, _) => TouchKeepsForeignKeys(db, session, rq.session.now + SESSION_TTL_MS);
    case CreateSession(rq) =>
      var s := rq.session;
      SessionKeepsForeignKeys(db, s.freshUser, s.freshSession, s.now, s.now + SESSION_TTL_MS);
    case IssueChallenge(rq, user, context, _) =>
      IssueKeepsForeignKeys(db, rq.work.challengeId, NewChallenge(rq, user, context));
    case AuthSetCounter(rq, _, _) => CountKeepsForeignKeys(db, rq.work.credId, rq.work.newCounter);
    case AuthTransfer(rq, ticket) => TransferKeepsForeignKeys(db, rq.work.credId, ticket.user);
    case RegUpsertCredential(rq, ticket, rawKey) =>
      CredentialKeepsForeignKeys(db, rq.work.credId, NewCredential(rq, ticket.user, rawKey));
    case RegUpsertAccount(rq, ticket, rawKey) =>
      AccountKeepsForeignKeys(db, rq.work.credId, NewAccount(w, rq, ticket.user, rawKey));
    case Consume(_, ticket, _) => DeleteKeepsForeignKeys(db, ticket.id);
    case _ =>
  }

  lemma ExecKeepsUsers(w: FactoryCache.World, db: Db, p: Process)
    requires WellFormed(p) && Enabled(db, p) && ForeignKeys(db)
    requires UserOf(p).Some? ==> UserOf(p).value in db.users
    ensures var (db', p') := Exec(w, db, p);
            && db.users <= db'.users
            && (UserOf(p').Some? ==> UserOf(p').value in db'.users)
  {
    hide IsNewest, NewAccount, AccountsOf, CredentialsOf, UniqueColumns;
  }

  lemma ExecKeepsUniqueColumns(w: FactoryCache.World, db: Db, p: Process)
    requires WellFormed(p) && Enabled(db, p) && UniqueColumns(db)
    ensures UniqueColumns(Exec(w, db, p).0)
  {
    hide IsNewest, NewAccount, Served, Checked, AccountsOf, CredentialsOf, ForeignKeys;
  }

  lemma StepKeepsKeys(w: FactoryCache.World, s: State, a: Act)
    requires CanAct(s, a) && KeysHold(s)
    ensures KeysHold(Apply(w, s, a))
  {
    hide Exec, ForeignKeys, UniqueColumns;
    if a.Advance? {
      ExecKeepsForeignKeys(w, s.db, s.procs[a.pid]);
      ExecKeepsUniqueColumns(w, s.db, s.procs[a.pid]);
      ExecKeepsUsers(w, s.db, s.procs[a.pid]);
    }
  }

  lemma {:induction false} RunKeepsKeys(w: FactoryCache.World, s: State, acts: seq<Act>, s': State)
    requires KeysHold(s) && Run(w, s, acts, s')
    ensures KeysHold(s')
    decreases |acts|
  {
    if acts != [] {
      StepKeepsKeys(w, s, acts[0]);
      RunKeepsKeys(w, Apply(w, s, acts[0]), acts[1..], s');
    }
  }

  /** Every session, challenge, credential and account names an existing user, and every account an existing
      credential, and no two accounts share key data or address, whatever is interleaved or crashes - a crash between
      registration's two upserts included. */
  lemma KeysHoldInEveryRun(w: FactoryCache.World, acts: seq<Act>, s: State)
    requires Run(w, START, acts, s)
    ensures ForeignKeys(s.db) && UniqueColumns(s.db)
  {
    StartHolds();
    RunKeepsKeys(w, START, acts, s);
  }

  // ---------------------------------------------------------------------------------------------
  // Which statements part the owner of a credential from the owner of its account
  // ---------------------------------------------------------------------------------------------

  /** A registration's upsert that goes through for a user who is not the owner of the other row. */
  predicate Splits(w: FactoryCache.World, db: Db, p: Process)
    requires WellFormed(p)
  {
    || (p.RegUpsertCredential? && p.ticket.user in db.users
        && p.rq.work.credId in db.accounts && db.accounts[p.rq.work.credId].userId != p.ticket.user)
    || (p.RegUpsertAccount?
        && UpsertAccount(db, p.rq.work.credId, NewAccount(w, p.rq, p.ticket.user, p.rawKey)).Some?
        && db.credentials[p.rq.work.credId].userId != p.ticket.user)
  }

  /** Every other statement keeps the owners together, and these never do. */
  lemma SplitsExactlyWhen(w: FactoryCache.World, db: Db, p: Process)
    requires WellFormed(p) && Enabled(db, p) && OwnersAgree(db)
    ensures OwnersAgree(Exec(w, db, p).0) <==> !Splits(w, db, p)
  {
    hide IsNewest, Served, Checked, AccountsOf, CredentialsOf, KeyDataHex, FactoryCache.Salt,
         FactoryCache.PredictWebAuthn, NewChallenge;
    var db' := Exec(w, db, p).0;
    if p.RegUpsertCredential? || p.RegUpsertAccount? {
      var c := p.rq.work.credId;
      assert c in db'.accounts && c in db'.credentials && Splits(w, db, p) ==>
          db'.accounts[c].userId != db'.credentials[c].userId;
    }
  }

  /** The owners agree in every state of a run. */
  ghost predicate AgreeThroughout(w: FactoryCache.World, s: State, acts: seq<Act>)
    decreases |acts|
  {
    OwnersAgree(s.db) && (acts == [] || (CanAct(s, acts[0]) && AgreeThroughout(w, Apply(w, s, acts[0]), acts[1..])))
  }

  ghost predicate NeverSplits(w: FactoryCache.World, s: State, acts: seq<Act>)
    decreases |acts|
  {
    acts == [] ||
    (&& CanAct(s, acts[0]) && (acts[0].Advance? ==> !Splits(w, s.db, s.procs[acts[0].pid]))
     && NeverSplits(w, Apply(w, s, acts[0]), acts[1..]))
  }

  /** In any interleaving the owners agree all the way exactly when no registration upserts across an owner. */
  lemma {:induction false} AgreeThroughoutExactlyWhen(w: FactoryCache.World, s: State, acts: seq<Act>, s': State)
    requires OwnersAgree(s.db) && Run(w, s, acts, s')
    ensures AgreeThroughout(w, s, acts) <==> NeverSplits(w, s, acts)
    decreases |acts|
  {
    hide Exec, OwnersAgree, Splits;
    if acts != [] {
      var a, s1 := acts[0], Apply(w, s, acts[0]);
      if a.Advance? {
        SplitsExactlyWhen(w, s.db, s.procs[a.pid]);
      }
      if OwnersAgree(s1.db) {
        AgreeThroughoutExactlyWhen(w, s1, acts[1..], s');
      }
    }
  }

  // ---------------------------------------------------------------------------------------------
  // Owners agree when nothing runs between registration's owner check and its second upsert
  // ---------------------------------------------------------------------------------------------

  /** Between the owner check and the end of the account upsert. */
  predicate MidRegistration(p: Process) {
    p.RegUpsertCredential? || p.RegUpsertAccount?
  }

  /** Only the registration in that stretch, if there is one, takes a step; it may crash, and requests may arrive. */
  ghost predicate Exclusive(s: State, a: Act) {
    a.Advance? ==> forall pid :: pid in s.procs && MidRegistration(s.procs[pid]) ==> pid == a.pid
  }

  ghost predicate ExclusiveRun(w: FactoryCache.World, s: State, acts: seq<Act>, s': State)
    decreases |acts|
  {
    if acts == [] then s' == s
    else CanAct(s, acts[0]) && Exclusive(s, acts[0]) && ExclusiveRun(w, Apply(w, s, acts[0]), acts[1..], s')
  }

  predicate OwnedSoFar(db: Db, p: Process)
    requires WellFormed(p)
  {
    && (p.RegUpsertCredential? && p.rq.work.credId in db.credentials ==>
          db.credentials[p.rq.work.credId].userId == p.ticket.user)
    && (p.RegUpsertAccount? ==>
          p.rq.work.credId in db.credentials && db.credentials[p.rq.work.credId].userId == p.ticket.user)
  }

  ghost predicate OwnersHold(s: State) {
    && KeysHold(s) && OwnersAgree(s.db)
    && (forall pid :: pid in s.procs ==> OwnedSoFar(s.db, s.procs[pid]))
  }

  lemma ExecKeepsOwned(w: FactoryCache.World, db: Db, p: Process)
    requires WellFormed(p) && Enabled(db, p) && OwnedSoFar(db, p)
    ensures var (db', p') := Exec(w, db, p); OwnedSoFar(db', p')
  {
    hide IsNewest, AccountsOf, CredentialsOf, NewAccount, NewChallenge;
  }

  lemma OwnedNeverSplits(w: FactoryCache.World, db: Db, p: Process)
    requires WellFormed(p) && ForeignKeys(db) && OwnersAgree(db) && OwnedSoFar(db, p)
    ensures !Splits(w, db, p)
  {
    hide NewAccount;
  }

  lemma StepKeepsOwners(w: FactoryCache.World, s: State, a: Act)
    requires CanAct(s, a) && Exclusive(s, a) && OwnersHold(s)
    ensures OwnersHold(Apply(w, s, a))
  {
    hide Exec, ForeignKeys, UniqueColumns, OwnersAgree;
    StepKeepsKeys(w, s, a);
    if a.Advance? {
      SplitsExactlyWhen(w, s.db, s.procs[a.pid]);
      OwnedNeverSplits(w, s.db, s.procs[a.pid]);
      ExecKeepsOwned(w, s.db, s.procs[a.pid]);
    }
  }

  lemma {:induction false} ExclusiveRunKeepsOwners(w: FactoryCache.World, s: State, acts: seq<Act>, s': State)
    requires OwnersHold(s) && ExclusiveRun(w, s, acts, s')
    ensures OwnersHold(s')
    decreases |acts|
  {
    if acts != [] {
      StepKeepsOwners(w, s, acts[0]);
      ExclusiveRunKeepsOwners(w, Apply(w, s, acts[0]), acts[1..], s');
    }
  }

  /** Every account's credential exists and has the same owner, in every run in which registration's check and two
      upserts are not interleaved with other requests - authentication finishes are, statement by statement. */
  lemma OwnersAgreeInExclusiveRuns(w: FactoryCache.World, acts: seq<Act>, s: State, a: string)
    requires ExclusiveRun(w, START, acts, s) && a in s.db.accounts
    ensures a in s.db.credentials && s.db.accounts[a].userId == s.db.credentials[a].userId
  {
    StartHolds();
    ExclusiveRunKeepsOwners(w, START, acts, s);
  }

  lemma StartHolds()
    ensures OwnersHold(START)
  {
  }

  // ---------------------------------------------------------------------------------------------
  // Only registration writes keys and accounts
  // ---------------------------------------------------------------------------------------------

  /** The same credentials and accounts, but for owners and signature counters. */
  ghost predicate SameKeys(db: Db, db': Db) {
    && db'.credentials.Keys == db.credentials.Keys && db'.accounts.Keys == db.accounts.Keys
    && (forall c :: c in db.credentials ==>
          db'.credentials[c].(userId := "", signCount := 0) == db.credentials[c].(userId := "", signCount := 0))
    && (forall a :: a in db.accounts ==> db'.accounts[a].(userId := "") == db.accounts[a].(userId := ""))
  }

  lemma SetSignCountKeepsKeys(db: Db, cred: string, count: int)
    ensures SetSignCount(db, cred, count).Some? ==> SameKeys(db, SetSignCount(db, cred, count).value)
  {
  }

  lemma TransferKeepsKeys(db: Db, cred: string, user: string)
    ensures TransferOwner(db, cred, user).Some? ==> SameKeys(db, TransferOwner(db, cred, user).value)
  {
  }

  /** No statement but registration's two upserts creates or removes a credential or an account, or changes anything in
      them but the owner and the signature counter. */
  lemma OnlyRegistrationWritesKeys(w: FactoryCache.World, db: Db, p: Process)
    requires WellFormed(p) && Enabled(db, p) && !p.RegUpsertCredential? && !p.RegUpsertAccount?
    ensures SameKeys(db, Exec(w, db, p).0)
  {
    hide IsNewest, Served, Checked, AccountsOf, CredentialsOf, NewAccount, NewCredential, SetSignCount, TransferOwner;
    match p
    case AuthSetCounter(rq, _, _) => SetSignCountKeepsKeys(db, rq.work.credId, rq.work.newCounter);
    case AuthTransfer(rq, ticket) => TransferKeepsKeys(db, rq.work.credId, ticket.user);
    case _ =>
  }

  /** A request with a live session acts for that session's user; one without it acts for a user that is new and owns
      nothing, or stops where the new ids are taken already. */
  lemma SessionOutcome(w: FactoryCache.World, db: Db, rq: Request)
    requires ForeignKeys(db)
    ensures var p := Exec(w, db, FindSession(rq)).1;
            var live := rq.session.cookie.Some? && rq.session.cookie.value in db.sessions
                        && db.sessions[rq.session.cookie.value].expiresAt > rq.session.now;
            var (db', p') := Exec(w, db, p);
            if live then
              var id := rq.session.cookie.value;
              var touched := db.sessions[id].(expiresAt := rq.session.now + 2592000000);
              db' == db.(sessions := db.sessions[id := touched]) && p' == Served(w, rq, touched.userId)
            else if rq.session.freshUser in db.users || rq.session.freshSession in db.sessions then
              p' == Stopped() && db' == db
            else
              var user, id := rq.session.freshUser, rq.session.freshSession;
              var row := Session(user, rq.session.now, rq.session.now + 2592000000);
              && db' == db.(users := db.users + {user}, sessions := db.sessions[id := row])
              && p' == Served(w, rq, user)
              && AccountsOf(db', user) == map[] && CredentialsOf(db', user) == {}
  {
  }
}
