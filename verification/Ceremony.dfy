/** The passkey requests as processes that run one database statement at a time. A request carries what its
    surroundings will answer - clock, random ids, which of several newest rows, the outcome of verification and
    deployment - so a step is a function; a step whose answers the database would not give is not taken. */
module Ceremony {
  import opened Bytes
  import opened Store
  import Base64Url
  import FactoryCache
  import OriginChecks
  import PublicKey

  const SESSION_TTL_MS := 1000 * 60 * 60 * 24 * 30
  const CHALLENGE_TTL_MS := 5 * 60 * 1000

  /** The cookie, the clock and the random ids getOrCreateSession would use. */
  datatype SessionInput = SessionInput(cookie: Option<string>, now: int, freshUser: string, freshSession: string)

  datatype Work =
    /** Both begin routes. */
    | Begin(purpose: Purpose, headers: OriginChecks.Headers, body: Option<string>, challengeId: string,
            challenge: string, now: int)
    /** `row` is the database's choice among the newest challenges; `verified` is the outcome of the assertion. */
    | FinishAuth(now: int, row: Option<string>, site: OriginChecks.Site, credId: string, verified: bool,
                 newCounter: int)
    /** `ready` says that configuration, address prediction and deployment went through. */
    | FinishReg(now: int, row: Option<string>, site: OriginChecks.Site, credId: string, cose: seq<byte>,
                verified: bool, counter: int, ready: bool, deployed: bool)

  datatype Request = Request(session: SessionInput, work: Work)

  /** A challenge row a request has read and found live, and issued to where the request comes from. */
  datatype Ticket = Ticket(purpose: Purpose, id: string, row: Challenge, site: OriginChecks.Site, user: string,
                           now: int)

  datatype Reply =
    | Failed
    | Issued(id: string, allow: set<string>)
    | Registered(credId: string, account: Account)
    | Authenticated(credId: string, account: Account, accounts: map<string, Account>)

  datatype Process =
    | FindSession(rq: Request)
    | RefreshSession(rq: Request, session: string, user: string)
    | CreateSession(rq: Request)
    | ListCredentials(rq: Request, user: string, context: OriginChecks.Context)
    | IssueChallenge(rq: Request, user: string, context: OriginChecks.Context, allow: set<string>)
    | ReadChallenge(rq: Request, user: string)
    | AuthReadCredential(rq: Request, ticket: Ticket)
    | AuthSetCounter(rq: Request, ticket: Ticket, owner: string)
    | AuthTransfer(rq: Request, ticket: Ticket)
    | AuthReadAccount(rq: Request, ticket: Ticket)
    | AuthList(rq: Request, ticket: Ticket, account: Account)
    | RegCheckOwner(rq: Request, ticket: Ticket, rawKey: seq<byte>)
    | RegUpsertCredential(rq: Request, ticket: Ticket, rawKey: seq<byte>)
    | RegUpsertAccount(rq: Request, ticket: Ticket, rawKey: seq<byte>)
    | Consume(rq: Request, ticket: Ticket, reply: Reply)
    | Finished(reply: Reply, consumed: Option<Ticket>)

  function Stopped(): Process {
    Finished(Failed, None)
  }

  // ---------------------------------------------------------------------------------------------
  // Values computed between statements
  // ---------------------------------------------------------------------------------------------

  /** The relying-party id and origin of a begin request, or the error of resolving them. */
  function ContextOf(w: FactoryCache.World, work: Work): Result<OriginChecks.Context>
    requires work.Begin?
  {
    w.resolve(work.headers, work.body)
  }

  /** The origin check of a finish request against the stored row. */
  predicate OriginAccepted(w: FactoryCache.World, site: OriginChecks.Site, row: Challenge) {
    w.accepts(site, OriginChecks.Context(row.rpId, row.origin))
  }

  function Served(w: FactoryCache.World, rq: Request, user: string): Process {
    if !rq.work.Begin? then ReadChallenge(rq, user)
    else if ContextOf(w, rq.work).Err? then Stopped()
    else
      var context := ContextOf(w, rq.work).value;
      if rq.work.purpose.Authentication? then ListCredentials(rq, user, context)
      else IssueChallenge(rq, user, context, {})
  }

  function NewChallenge(rq: Request, user: string, context: OriginChecks.Context): Challenge
    requires rq.work.Begin?
  {
    Challenge(user, rq.work.purpose, rq.work.challenge, context.rpId, context.origin,
              rq.work.now, rq.work.now + CHALLENGE_TTL_MS)
  }

  function PurposeOf(w: Work): Purpose {
    match w
    case Begin(p, _, _, _, _, _) => p
    case FinishAuth(_, _, _, _, _, _) => Authentication
    case FinishReg(_, _, _, _, _, _, _, _, _) => Registration
  }

  /** Registration looks for the session user's newest challenge, authentication for anybody's. */
  function WantedUser(w: Work, user: string): Option<string> {
    if w.FinishReg? then Some(user) else None
  }

  function NewCredential(rq: Request, user: string, rawKey: seq<byte>): Credential
    requires rq.work.FinishReg?
  {
    Credential(user, Base64Url.FromBase64Url(rq.work.credId), rq.work.cose, rawKey, rq.work.counter)
  }

  function KeyDataHex(credId: string, rawKey: seq<byte>): string {
    ToHex(Base64Url.BuildKeyData(rawKey, credId))
  }

  function NewAccount(w: FactoryCache.World, rq: Request, user: string, rawKey: seq<byte>): Account
    requires rq.work.FinishReg?
  {
    var hex := KeyDataHex(rq.work.credId, rawKey);
    Account(user, hex, ToHex(FactoryCache.Salt(w, hex, "webauthn-v1")), FactoryCache.PredictWebAuthn(w, hex),
            rq.work.deployed, rq.work.now)
  }

  /** After the challenge was read: expiry, origin and verification, up to the next statement. */
  function Checked(w: FactoryCache.World, rq: Request, user: string, row: Option<Challenge>): Process
    requires !rq.work.Begin? && row.Some? == rq.work.row.Some?
  {
    if row.None? || row.value.expiresAt <= rq.work.now || !OriginAccepted(w, rq.work.site, row.value) then Stopped()
    else
      var ticket := Ticket(PurposeOf(rq.work), rq.work.row.value, row.value, rq.work.site, user, rq.work.now);
      if rq.work.FinishAuth? then AuthReadCredential(rq, ticket)
      else if !rq.work.verified then Stopped()
      else
        var rawKey := PublicKey.FromCose(rq.work.cose);
        if rawKey.None? || !rq.work.ready then Stopped() else RegCheckOwner(rq, ticket, rawKey.value)
  }

  // ---------------------------------------------------------------------------------------------
  // One statement
  // ---------------------------------------------------------------------------------------------

  /** A process is well-formed when it is at a point its kind of request can reach. */
  predicate WellFormed(p: Process) {
    match p
    case FindSession(_) => true
    case RefreshSession(_, _, _) => true
    case CreateSession(_) => true
    case ListCredentials(rq, _, _) => rq.work.Begin?
    case IssueChallenge(rq, _, _, _) => rq.work.Begin?
    case ReadChallenge(rq, _) => !rq.work.Begin?
    case RegCheckOwner(rq, _, _) => rq.work.FinishReg?
    case RegUpsertCredential(rq, _, _) => rq.work.FinishReg?
    case RegUpsertAccount(rq, _, _) => rq.work.FinishReg?
    case Consume(rq, _, _) => !rq.work.Begin?
    case Finished(_, _) => true
    case _ => p.rq.work.FinishAuth?
  }

  /** A statement that throws ends the request with an error and leaves the tables alone. */
  function After(db: Db, changed: Option<Db>, next: Process): (Db, Process) {
    if changed.None? then (db, Stopped()) else (changed.value, next)
  }

  /** Whether the answers in the request are ones the database can give now. */
  predicate Enabled(db: Db, p: Process)
    requires WellFormed(p)
  {
    !p.Finished? &&
    (p.ReadChallenge? ==> IsNewest(db, PurposeOf(p.rq.work), WantedUser(p.rq.work, p.user), p.rq.work.row))
  }

  function Exec(w: FactoryCache.World, db: Db, p: Process): (r: (Db, Process))
    requires WellFormed(p) && Enabled(db, p)
    ensures WellFormed(r.1)
  {
    match p
    case FindSession(rq) =>
      var cookie := rq.session.cookie;
      if cookie.Some? && cookie.value in db.sessions && db.sessions[cookie.value].expiresAt > rq.session.now
      then (db, RefreshSession(rq, cookie.value, db.sessions[cookie.value].userId))
      else (db, CreateSession(rq))
    case RefreshSession(rq, session, user) =>
      After(db, TouchSession(db, session, rq.session.now + SESSION_TTL_MS), Served(w, rq, user))
    case CreateSession(rq) =>
      var s := rq.session;
      After(db, InsertUserAndSession(db, s.freshUser, s.freshSession, s.now, s.now + SESSION_TTL_MS),
            Served(w, rq, s.freshUser))
    case ListCredentials(rq, user, context) => (db, IssueChallenge(rq, user, context, CredentialsOf(db, user)))
    case IssueChallenge(rq, user, context, allow) =>
      After(db, InsertChallenge(db, rq.work.challengeId, NewChallenge(rq, user, context)),
            Finished(Issued(rq.work.challengeId, allow), None))
    case ReadChallenge(rq, user) =>
      var row := if rq.work.row.None? then None else Some(db.challenges[rq.work.row.value]);
      (db, Checked(w, rq, user, row))
    case AuthReadCredential(rq, ticket) =>
      if rq.work.credId !in db.credentials || !rq.work.verified then (db, Stopped())
      else (db, AuthSetCounter(rq, ticket, db.credentials[rq.work.credId].userId))
    case AuthSetCounter(rq, ticket, owner) =>
      After(db, SetSignCount(db, rq.work.credId, rq.work.newCounter),
            if owner != ticket.user then AuthTransfer(rq, ticket) else AuthReadAccount(rq, ticket))
    case AuthTransfer(rq, ticket) =>
      After(db, TransferOwner(db, rq.work.credId, ticket.user), AuthReadAccount(rq, ticket))
    case AuthReadAccount(rq, ticket) =>
      if rq.work.credId !in db.accounts then (db, Stopped())
      else (db, AuthList(rq, ticket, db.accounts[rq.work.credId]))
    case AuthList(rq, ticket, account) =>
      (db, Consume(rq, ticket, Authenticated(rq.work.credId, account, AccountsOf(db, ticket.user))))
    case RegCheckOwner(rq, ticket, rawKey) =>
      if rq.work.credId in db.credentials && db.credentials[rq.work.credId].userId != ticket.user then (db, Stopped())
      else (db, RegUpsertCredential(rq, ticket, rawKey))
    case RegUpsertCredential(rq, ticket, rawKey) =>
      After(db, UpsertCredential(db, rq.work.credId, NewCredential(rq, ticket.user, rawKey)),
            RegUpsertAccount(rq, ticket, rawKey))
    case RegUpsertAccount(rq, ticket, rawKey) =>
      var account := NewAccount(w, rq, ticket.user, rawKey);
      After(db, UpsertAccount(db, rq.work.credId, account),
            Consume(rq, ticket, Registered(rq.work.credId, account)))
    case Consume(rq, ticket, reply) =>
      After(db, DeleteChallenge(db, ticket.id), Finished(reply, Some(ticket)))
  }
}
