/** The passkey tables (prisma/schema.prisma) and the statements the routes run on them. A statement that the
    database rejects - a missing row, a broken key - throws, which is None here, and changes nothing. */
module Store {
  import opened Bytes

  datatype Purpose = Registration | Authentication

  datatype Session = Session(userId: string, createdAt: int, expiresAt: int)

  datatype Challenge = Challenge(userId: string, purpose: Purpose, challenge: string, rpId: string, origin: string,
                                 createdAt: int, expiresAt: int)

  datatype Credential = Credential(userId: string, idBytes: seq<byte>, cosePublicKey: seq<byte>, rawKey: seq<byte>,
                                   signCount: int)

  datatype Account = Account(userId: string, keyDataHex: string, saltHex: string, address: string, deployed: bool,
                             createdAt: int)

  /** Credentials and accounts are looked up by their unique credential id and are keyed by it here. */
  datatype Db = Db(users: set<string>, sessions: map<string, Session>, challenges: map<string, Challenge>,
                   credentials: map<string, Credential>, accounts: map<string, Account>)

  const EMPTY := Db({}, map[], map[], map[], map[])

  // ---------------------------------------------------------------------------------------------
  // What the schema promises
  // ---------------------------------------------------------------------------------------------

  ghost predicate ForeignKeys(db: Db) {
    && (forall s :: s in db.sessions ==> db.sessions[s].userId in db.users)
    && (forall c :: c in db.challenges ==> db.challenges[c].userId in db.users)
    && (forall c :: c in db.credentials ==> db.credentials[c].userId in db.users)
    && (forall a :: a in db.accounts ==> db.accounts[a].userId in db.users && a in db.credentials)
  }

  ghost predicate UniqueColumns(db: Db) {
    forall a, b :: a in db.accounts && b in db.accounts && a != b ==>
      db.accounts[a].keyDataHex != db.accounts[b].keyDataHex && db.accounts[a].address != db.accounts[b].address
  }

  /** Not promised by the schema: an account belongs to the owner of its credential. */
  ghost predicate OwnersAgree(db: Db) {
    forall a :: a in db.accounts && a in db.credentials ==> db.accounts[a].userId == db.credentials[a].userId
  }

  // ---------------------------------------------------------------------------------------------
  // Statements
  // ---------------------------------------------------------------------------------------------

  /** One transaction. */
  function InsertUserAndSession(db: Db, user: string, session: string, now: int, expiresAt: int): Option<Db> {
    if user in db.users || session in db.sessions then None
    else Some(db.(users := db.users + {user}, sessions := db.sessions[session := Session(user, now, expiresAt)]))
  }

  function TouchSession(db: Db, session: string, expiresAt: int): Option<Db> {
    if session !in db.sessions then None
    else Some(db.(sessions := db.sessions[session := db.sessions[session].(expiresAt := expiresAt)]))
  }

  function InsertChallenge(db: Db, id: string, row: Challenge): Option<Db> {
    if id in db.challenges || row.userId !in db.users then None
    else Some(db.(challenges := db.challenges[id := row]))
  }

  function DeleteChallenge(db: Db, id: string): Option<Db> {
    if id !in db.challenges then None else Some(db.(challenges := db.challenges - {id}))
  }

  function SetSignCount(db: Db, cred: string, count: int): Option<Db> {
    if cred !in db.credentials then None
    else Some(db.(credentials := db.credentials[cred := db.credentials[cred].(signCount := count)]))
  }

  /** One transaction: the credential must exist, its account need not. */
  function TransferOwner(db: Db, cred: string, user: string): Option<Db> {
    if cred !in db.credentials || user !in db.users then None
    else
      Some(db.(credentials := db.credentials[cred := db.credentials[cred].(userId := user)],
               accounts := if cred in db.accounts then db.accounts[cred := db.accounts[cred].(userId := user)]
                           else db.accounts))
  }

  function UpsertCredential(db: Db, cred: string, row: Credential): Option<Db> {
    if row.userId !in db.users then None else Some(db.(credentials := db.credentials[cred := row]))
  }

  /** Key data and address are unique; an update keeps the creation time. */
  function UpsertAccount(db: Db, cred: string, row: Account): Option<Db> {
    if row.userId !in db.users || cred !in db.credentials
       || (exists c :: c in db.accounts && c != cred
                       && (db.accounts[c].keyDataHex == row.keyDataHex || db.accounts[c].address == row.address))
    then None
    else
      var created := if cred in db.accounts then db.accounts[cred].createdAt else row.createdAt;
      Some(db.(accounts := db.accounts[cred := row.(createdAt := created)]))
  }

  /** SELECT of accounts by owner. */
  function AccountsOf(db: Db, user: string): map<string, Account> {
    map c | c in db.accounts && db.accounts[c].userId == user :: db.accounts[c]
  }

  /** SELECT of credential ids by owner. */
  function CredentialsOf(db: Db, user: string): set<string> {
    set c | c in db.credentials && db.credentials[c].userId == user
  }

  predicate Matches(row: Challenge, purpose: Purpose, user: Option<string>) {
    row.purpose == purpose && (user.Some? ==> row.userId == user.value)
  }

  /** findFirst ordered by creation time, descending: any newest matching row may be the answer, and no row
      only when none matches. */
  predicate IsNewest(db: Db, purpose: Purpose, user: Option<string>, answer: Option<string>) {
    match answer
    case None => forall c :: c in db.challenges ==> !Matches(db.challenges[c], purpose, user)
    case Some(id) =>
      && id in db.challenges && Matches(db.challenges[id], purpose, user)
      && (forall c :: c in db.challenges && Matches(db.challenges[c], purpose, user) ==>
            db.challenges[c].createdAt <= db.challenges[id].createdAt)
  }
}
