/** A passkey request that nothing interrupts: what its statements amount to in one piece, and what holds over every
    sequence of whole requests. */
module WholeRequests {
  import opened Bytes
  import opened Store
  import opened Ceremony
  import opened ChallengeRuns
  import opened OwnershipRuns
  import FactoryCache
  import PublicKey

  // ---------------------------------------------------------------------------------------------
  // Statement by statement, alone
  // ---------------------------------------------------------------------------------------------

  /** How many statements are left, at most. */
  function Rank(p: Process): nat {
    match p
    case FindSession(_) => 9
    case RefreshSession(_, _, _) => 8
    case CreateSession(_) => 8
    case ListCredentials(_, _, _) => 7
    case IssueChallenge(_, _, _, _) => 6
    case ReadChallenge(_, _) => 7
    case AuthReadCredential(_, _) => 6
    case AuthSetCounter(_, _, _) => 5
    case AuthTransfer(_, _) => 4
    case AuthReadAccount(_, _) => 3
    case AuthList(_, _, _) => 2
    case RegCheckOwner(_, _, _) => 6
    case RegUpsertCredential(_, _, _) => 5
    case RegUpsertAccount(_, _, _) => 4
    case Consume(_, _, _) => 1
    case Finished(_, _) => 0
  }

  lemma ExecAdvances(w: FactoryCache.World, db: Db, p: Process)
    requires WellFormed(p) && Enabled(db, p)
    ensures Rank(Exec(w, db, p).1) < Rank(p)
  {
    hide IsNewest, NewAccount, NewCredential, NewChallenge, AccountsOf, CredentialsOf;
  }

  /** The tables and the process at the end, or None where the request assumes an answer the database does not give. */
  function RunAlone(w: FactoryCache.World, db: Db, p: Process): (r: Option<(Db, Process)>)
    requires WellFormed(p)
    ensures r.Some? ==> r.value.1.Finished?
    decreases Rank(p)
  {
    if p.Finished? then Some((db, p))
    else if !Enabled(db, p) then None
    else
      var (db', p') := Exec(w, db, p);
      ExecAdvances(w, db, p);
      RunAlone(w, db', p')
  }

  /** Running alone is one of the interleavings: the process arrives, and then only it advances. */
  lemma {:induction false} AloneIsARun(w: FactoryCache.World, s: State, pid: nat) returns (acts: seq<Act>, s': State)
    requires pid in s.procs && WellFormed(s.procs[pid]) && RunAlone(w, s.db, s.procs[pid]).Some?
    requires forall q :: q in s.procs && q != pid ==> !MidRegistration(s.procs[q])
    ensures Run(w, s, acts, s') && ExclusiveRun(w, s, acts, s')
    ensures pid in s'.procs && s'.procs == s.procs[pid := s'.procs[pid]]
    ensures (s'.db, s'.procs[pid]) == RunAlone(w, s.db, s.procs[pid]).value
    decreases Rank(s.procs[pid])
  {
    hide Exec, Enabled, WellFormed;
    if s.procs[pid].Finished? {
      acts, s' := [], s;
    } else {
      ExecAdvances(w, s.db, s.procs[pid]);
      var s1 := Apply(w, s, Advance(pid));
      var rest;
      rest, s' := AloneIsARun(w, s1, pid);
      acts := [Advance(pid)] + rest;
      assert acts[1..] == rest;
    }
  }

  // ---------------------------------------------------------------------------------------------
  // The same in one piece
  // ---------------------------------------------------------------------------------------------

  /** getOrCreateSession: the tables after it and the user it answers. */
  function SessionFor(db: Db, s: SessionInput): Option<(Db, string)> {
    if s.cookie.Some? && s.cookie.value in db.sessions && db.sessions[s.cookie.value].expiresAt > s.now then
      var row := db.sessions[s.cookie.value];
      Some((db.(sessions := db.sessions[s.cookie.value := row.(expiresAt := s.now + SESSION_TTL_MS)]), row.userId))
    else if s.freshUser in db.users || s.freshSession in db.sessions then None
    else
      Some((db.(users := db.users + {s.freshUser},
                sessions := db.sessions[s.freshSession := Session(s.freshUser, s.now, s.now + SESSION_TTL_MS)]),
            s.freshUser))
  }

  function BeginWhole(w: FactoryCache.World, db: Db, rq: Request, user: string): (Db, Process)
    requires rq.work.Begin?
  {
    if ContextOf(w, rq.work).Err? || rq.work.challengeId in db.challenges then (db, Stopped())
    else
      (db.(challenges := db.challenges[rq.work.challengeId := NewChallenge(rq, user, ContextOf(w, rq.work).value)]),
       Finished(Issued(rq.work.challengeId, if rq.work.purpose.Authentication? then CredentialsOf(db, user) else {}),
                None))
  }

  /** The finish request gets past the challenge: it found a row, unexpired and issued to where it comes from. */
  predicate LiveRow(w: FactoryCache.World, db: Db, work: Work)
    requires !work.Begin? && (work.row.Some? ==> work.row.value in db.challenges)
  {
    && work.row.Some? && db.challenges[work.row.value].expiresAt > work.now
    && OriginAccepted(w, work.site, db.challenges[work.row.value])
  }

  function TicketFor(db: Db, work: Work, user: string): Ticket
    requires !work.Begin? && work.row.Some? && work.row.value in db.challenges
  {
    Ticket(PurposeOf(work), work.row.value, db.challenges[work.row.value], work.site, user, work.now)
  }

  /** The counter is set and the credential, with its account, moves to the user. */
  function SignedIn(db: Db, credId: string, counter: int, user: string): Db
    requires credId in db.credentials
  {
    var cred := db.credentials[credId];
    db.(credentials := db.credentials[credId := cred.(userId := user, signCount := counter)],
        accounts := if cred.userId != user && credId in db.accounts
                    then db.accounts[credId := db.accounts[credId].(userId := user)] else db.accounts)
  }

  predicate CanSignIn(w: FactoryCache.World, db: Db, work: Work)
    requires work.FinishAuth? && (work.row.Some? ==> work.row.value in db.challenges)
  {
    LiveRow(w, db, work) && work.credId in db.credentials && work.verified
  }

  function AuthWhole(w: FactoryCache.World, db: Db, rq: Request, user: string): (Db, Process)
    requires rq.work.FinishAuth? && (rq.work.row.Some? ==> rq.work.row.value in db.challenges)
  {
    var credId := rq.work.credId;
    if !CanSignIn(w, db, rq.work) then (db, Stopped())
    else
      var db1 := SignedIn(db, credId, rq.work.newCounter, user);
      if credId !in db1.accounts then (db1, Stopped())
      else
        (db1.(challenges := db1.challenges - {rq.work.row.value}),
         Finished(Authenticated(credId, db1.accounts[credId], AccountsOf(db1, user)),
                  Some(TicketFor(db, rq.work, user))))
  }

  predicate CanRegister(w: FactoryCache.World, db: Db, work: Work, user: string)
    requires work.FinishReg? && (work.row.Some? ==> work.row.value in db.challenges)
  {
    && LiveRow(w, db, work) && work.verified && PublicKey.FromCose(work.cose).Some? && work.ready
    && (work.credId in db.credentials ==> db.credentials[work.credId].userId == user)
  }

  /** The two upserts: the tables after them and the account row, or None where the second is rejected. */
  function Enrolled(w: FactoryCache.World, db: Db, rq: Request, user: string, rawKey: seq<byte>): (Db, Option<Account>)
    requires rq.work.FinishReg?
  {
    var db1 := db.(credentials := db.credentials[rq.work.credId := NewCredential(rq, user, rawKey)]);
    var account := NewAccount(w, rq, user, rawKey);
    var db2 := UpsertAccount(db1, rq.work.credId, account);
    if db2.None? then (db1, None) else (db2.value, Some(account))
  }

  function RegWhole(w: FactoryCache.World, db: Db, rq: Request, user: string): (Db, Process)
    requires rq.work.FinishReg? && (rq.work.row.Some? ==> rq.work.row.value in db.challenges)
  {
    if !CanRegister(w, db, rq.work, user) then (db, Stopped())
    else
      var (db1, account) := Enrolled(w, db, rq, user, PublicKey.FromCose(rq.work.cose).value);
      if account.None? then (db1, Stopped())
      else
        (db1.(challenges := db1.challenges - {rq.work.row.value}),
         Finished(Registered(rq.work.credId, account.value), Some(TicketFor(db, rq.work, user))))
  }

  function ServeAs(w: FactoryCache.World, db: Db, rq: Request, user: string): Option<(Db, Process)> {
    if rq.work.Begin? then Some(BeginWhole(w, db, rq, user))
    else if !IsNewest(db, PurposeOf(rq.work), WantedUser(rq.work, user), rq.work.row) then None
    else if rq.work.FinishAuth? then Some(AuthWhole(w, db, rq, user))
    else Some(RegWhole(w, db, rq, user))
  }

  /** A whole request. */
  function Serve(w: FactoryCache.World, db: Db, rq: Request): (r: Option<(Db, Process)>)
    ensures r.Some? ==> r.value.1.Finished?
  {
    var session := SessionFor(db, rq.session);
    if session.None? then Some((db, Stopped())) else ServeAs(w, session.value.0, rq, session.value.1)
  }

  // ---------------------------------------------------------------------------------------------
  // The two agree
  // ---------------------------------------------------------------------------------------------

  lemma OneStatement(w: FactoryCache.World, db: Db, p: Process)
    requires WellFormed(p) && Enabled(db, p)
    ensures var (db', p') := Exec(w, db, p);
            RunAlone(w, db, p) == RunAlone(w, db', p')
  {
  }

  lemma BeginAlone(w: FactoryCache.World, db: Db, rq: Request, user: string)
    requires rq.work.Begin? && user in db.users
    ensures RunAlone(w, db, Served(w, rq, user)) == Some(BeginWhole(w, db, rq, user))
  {
    hide RunAlone, CredentialsOf;
    FinishedAlone(w, db, Stopped());
    if ContextOf(w, rq.work).Ok? {
      var allow := if rq.work.purpose.Authentication? then CredentialsOf(db, user) else {};
      var context := ContextOf(w, rq.work).value;
      OneStatement(w, db, ListCredentials(rq, user, context));
      OneStatement(w, db, IssueChallenge(rq, user, context, allow));
      var (db', p) := BeginWhole(w, db, rq, user);
      FinishedAlone(w, db', p);
    }
  }

  lemma FinishedAlone(w: FactoryCache.World, db: Db, p: Process)
    requires p.Finished?
    ensures RunAlone(w, db, p) == Some((db, p))
  {
  }

  lemma ConsumeAlone(w: FactoryCache.World, db: Db, rq: Request, t: Ticket, reply: Reply)
    requires !rq.work.Begin? && t.id in db.challenges
    ensures RunAlone(w, db, Consume(rq, t, reply)) ==
            Some((db.(challenges := db.challenges - {t.id}), Finished(reply, Some(t))))
  {
  }

  lemma ReadAccountAlone(w: FactoryCache.World, db: Db, rq: Request, t: Ticket)
    requires rq.work.FinishAuth? && t.id in db.challenges
    ensures var credId := rq.work.credId;
            RunAlone(w, db, AuthReadAccount(rq, t)) ==
              if credId !in db.accounts then Some((db, Stopped()))
              else Some((db.(challenges := db.challenges - {t.id}),
                         Finished(Authenticated(credId, db.accounts[credId], AccountsOf(db, t.user)), Some(t))))
  {
    if rq.work.credId in db.accounts {
      var account := db.accounts[rq.work.credId];
      ConsumeAlone(w, db, rq, t, Authenticated(rq.work.credId, account, AccountsOf(db, t.user)));
      assert RunAlone(w, db, AuthReadAccount(rq, t)) == RunAlone(w, db, AuthList(rq, t, account));
    }
  }

  lemma SignInAlone(w: FactoryCache.World, db: Db, rq: Request, t: Ticket)
    requires rq.work.FinishAuth? && rq.work.credId in db.credentials && t.user in db.users
    ensures RunAlone(w, db, AuthSetCounter(rq, t, db.credentials[rq.work.credId].userId)) ==
            RunAlone(w, SignedIn(db, rq.work.credId, rq.work.newCounter, t.user), AuthReadAccount(rq, t))
  {
    var credId, owner := rq.work.credId, db.credentials[rq.work.credId].userId;
    var p := AuthSetCounter(rq, t, owner);
    var counted := SetSignCount(db, credId, rq.work.newCounter).value;
    assert SignedIn(db, credId, rq.work.newCounter, t.user) ==
           (if owner != t.user then TransferOwner(counted, credId, t.user).value else counted);
    if owner != t.user {
      assert RunAlone(w, db, p) == RunAlone(w, counted, AuthTransfer(rq, t));
    }
  }

  lemma AuthAlone(w: FactoryCache.World, db: Db, rq: Request, user: string)
    requires rq.work.FinishAuth? && user in db.users && IsNewest(db, Authentication, None, rq.work.row)
    ensures RunAlone(w, db, ReadChallenge(rq, user)) == Some(AuthWhole(w, db, rq, user))
  {
    hide RunAlone;
    FinishedAlone(w, db, Stopped());
    OneStatement(w, db, ReadChallenge(rq, user));
    if LiveRow(w, db, rq.work) {
      var t := TicketFor(db, rq.work, user);
      OneStatement(w, db, AuthReadCredential(rq, t));
      if CanSignIn(w, db, rq.work) {
        SignInAlone(w, db, rq, t);
        ReadAccountAlone(w, SignedIn(db, rq.work.credId, rq.work.newCounter, user), rq, t);
      }
    }
  }

  lemma RegAlone(w: FactoryCache.World, db: Db, rq: Request, user: string)
    requires rq.work.FinishReg? && user in db.users && IsNewest(db, Registration, Some(user), rq.work.row)
    ensures RunAlone(w, db, ReadChallenge(rq, user)) == Some(RegWhole(w, db, rq, user))
  {
    hide RunAlone, NewAccount, NewCredential, Enrolled, PublicKey.FromCose;
    FinishedAlone(w, db, Stopped());
    OneStatement(w, db, ReadChallenge(rq, user));
    if LiveRow(w, db, rq.work) && rq.work.verified && PublicKey.FromCose(rq.work.cose).Some? && rq.work.ready {
      var t := TicketFor(db, rq.work, user);
      var rawKey := PublicKey.FromCose(rq.work.cose).value;
      OneStatement(w, db, RegCheckOwner(rq, t, rawKey));
      if CanRegister(w, db, rq.work, user) {
        UpsertsAlone(w, db, rq, t, rawKey);
      }
    }
  }

  lemma UpsertsAlone(w: FactoryCache.World, db: Db, rq: Request, t: Ticket, rawKey: seq<byte>)
    requires rq.work.FinishReg? && t.user in db.users && t.id in db.challenges
    ensures var (db1, account) := Enrolled(w, db, rq, t.user, rawKey);
            RunAlone(w, db, RegUpsertCredential(rq, t, rawKey)) ==
              if account.None? then Some((db1, Stopped()))
              else Some((db1.(challenges := db1.challenges - {t.id}),
                         Finished(Registered(rq.work.credId, account.value), Some(t))))
  {
    hide KeyDataHex, FactoryCache.Salt, FactoryCache.PredictWebAuthn;
    var db1 := db.(credentials := db.credentials[rq.work.credId := NewCredential(rq, t.user, rawKey)]);
    var account := NewAccount(w, rq, t.user, rawKey);
    var db2 := UpsertAccount(db1, rq.work.credId, account);
    OneStatement(w, db, RegUpsertCredential(rq, t, rawKey));
    OneStatement(w, db1, RegUpsertAccount(rq, t, rawKey));
    if db2.Some? {
      ConsumeAlone(w, db2.value, rq, t, Registered(rq.work.credId, account));
    }
  }

  lemma SessionAlone(w: FactoryCache.World, db: Db, rq: Request)
    ensures var session := SessionFor(db, rq.session);
            RunAlone(w, db, FindSession(rq)) ==
              if session.None? then Some((db, Stopped()))
              else RunAlone(w, session.value.0, Served(w, rq, session.value.1))
  {
    hide Served, RunAlone;
    OneStatement(w, db, FindSession(rq));
    var s := rq.session;
    if s.cookie.Some? && s.cookie.value in db.sessions && db.sessions[s.cookie.value].expiresAt > s.now {
      OneStatement(w, db, RefreshSession(rq, s.cookie.value, db.sessions[s.cookie.value].userId));
    } else {
      OneStatement(w, db, CreateSession(rq));
      FinishedAlone(w, db, Stopped());
    }
  }

  /** The session's user exists, and the session step touches nothing but users and sessions. */
  lemma SessionUserExists(db: Db, s: SessionInput)
    requires ForeignKeys(db) && SessionFor(db, s).Some?
    ensures var (db1, user) := SessionFor(db, s).value;
            user in db1.users && db1 == db.(users := db1.users, sessions := db1.sessions) && ForeignKeys(db1)
  {
  }

  /** Every request run on its own, statement by statement, does exactly what the whole request says. */
  lemma ServeIsRunAlone(w: FactoryCache.World, db: Db, rq: Request)
    requires ForeignKeys(db)
    ensures RunAlone(w, db, FindSession(rq)) == Serve(w, db, rq)
  {
    hide AuthWhole, RegWhole, BeginWhole, IsNewest, RunAlone;
    SessionAlone(w, db, rq);
    if SessionFor(db, rq.session).Some? {
      SessionUserExists(db, rq.session);
      var (db1, user) := SessionFor(db, rq.session).value;
      WorkAlone(w, db1, rq, user);
    }
  }

  lemma WorkAlone(w: FactoryCache.World, db: Db, rq: Request, user: string)
    requires user in db.users
    ensures RunAlone(w, db, Served(w, rq, user)) == ServeAs(w, db, rq, user)
  {
    hide AuthWhole, RegWhole, BeginWhole, Exec, NewAccount, NewCredential;
    if rq.work.Begin? {
      BeginAlone(w, db, rq, user);
    } else if IsNewest(db, PurposeOf(rq.work), WantedUser(rq.work, user), rq.work.row) {
      if rq.work.FinishAuth? {
        AuthAlone(w, db, rq, user);
      } else {
        RegAlone(w, db, rq, user);
      }
    }
  }
}
