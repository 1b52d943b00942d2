/** Building single runs from empty tables: a step, a whole request, and a registration up to its first upsert. */
module RunSteps {
  import opened Bytes
  import opened Store
  import opened Ceremony
  import opened CeremonyOrigins
  import opened ChallengeRuns
  import opened OriginExamples
  import opened OwnershipRuns
  import opened WholeRequests
  import FactoryCache
  import OriginChecks
  import PublicKey

  lemma {:induction false} RunAppend(w: FactoryCache.World, s0: State, acts: seq<Act>, s: State, more: seq<Act>,
                                     s': State)
    requires Run(w, s0, acts, s) && Run(w, s, more, s')
    ensures Run(w, s0, acts + more, s')
    decreases |acts|
  {
    hide Exec, CanAct, Apply;
    if acts == [] {
      assert acts + more == more;
    } else {
      assert (acts + more)[0] == acts[0] && (acts + more)[1..] == acts[1..] + more;
      RunAppend(w, Apply(w, s0, acts[0]), acts[1..], s, more, s');
    }
  }

  lemma EmptyRun(w: FactoryCache.World)
    ensures Run(w, START, [], START)
  {
  }

  lemma OneStep(w: FactoryCache.World, acts: seq<Act>, s: State, a: Act)
    requires Run(w, START, acts, s) && CanAct(s, a)
    ensures Run(w, START, acts + [a], Apply(w, s, a))
  {
    hide Exec, CanAct, Apply;
    assert Run(w, s, [a], Apply(w, s, a)) by {
      assert [a][1..] == [];
    }
    RunAppend(w, START, acts, s, [a], Apply(w, s, a));
  }

  /** The process takes one step, which is known. */
  lemma Moved(w: FactoryCache.World, acts: seq<Act>, s: State, pid: nat, db': Db, p': Process)
    returns (acts': seq<Act>, s': State)
    requires Run(w, START, acts, s) && CanAct(s, Advance(pid))
    requires Exec(w, s.db, s.procs[pid]) == (db', p')
    ensures Run(w, START, acts', s') && s'.db == db' && s'.procs == s.procs[pid := p']
  {
    hide Exec, Run;
    OneStep(w, acts, s, Advance(pid));
    acts', s' := acts + [Advance(pid)], Apply(w, s, Advance(pid));
  }

  lemma Arrived(w: FactoryCache.World, acts: seq<Act>, s: State, pid: nat, rq: Request)
    returns (acts': seq<Act>, s': State)
    requires Run(w, START, acts, s) && pid !in s.procs
    ensures Run(w, START, acts', s') && s'.db == s.db && s'.procs == s.procs[pid := FindSession(rq)]
  {
    hide Exec, Run;
    OneStep(w, acts, s, Arrive(pid, rq));
    acts', s' := acts + [Arrive(pid, rq)], Apply(w, s, Arrive(pid, rq));
  }

  /** A request that nothing interrupts. */
  lemma Whole(w: FactoryCache.World, acts: seq<Act>, s: State, pid: nat, rq: Request)
    returns (acts': seq<Act>, s': State)
    requires Run(w, START, acts, s) && pid !in s.procs && Serve(w, s.db, rq).Some?
    requires forall q :: q in s.procs ==> !MidRegistration(s.procs[q])
    ensures Run(w, START, acts', s')
    ensures (s'.db, s'.procs) == (Serve(w, s.db, rq).value.0, s.procs[pid := Serve(w, s.db, rq).value.1])
  {
    hide Run, Serve, RunAlone, ForeignKeys, UniqueColumns, ExclusiveRun;
    KeysHoldInEveryRun(w, acts, s);
    ServeIsRunAlone(w, s.db, rq);
    var s1;
    acts', s1 := Arrived(w, acts, s, pid, rq);
    var more;
    more, s' := AloneIsARun(w, s1, pid);
    RunAppend(w, START, acts', s1, more, s');
    acts' := acts' + more;
    assert s'.procs == s.procs[pid := s'.procs[pid]];
  }

  /** Requests with nothing configured and no headers pass the relying-party checks. */
  predicate Open(w: FactoryCache.World) {
    w.resolve(NO_HEADERS, None) == Ok(PLAIN_CONTEXT) && w.accepts(PLAIN_SITE, PLAIN_CONTEXT)
  }

  lemma PlainIsOpen(w: FactoryCache.World)
    requires Configured(w, PLAIN_ENV)
    ensures Open(w)
  {
    hide Configured;
    PlainRequestsPass(w);
  }

  function BeginOf(s: SessionInput, challengeId: string): Request {
    Request(s, Begin(Registration, NO_HEADERS, None, challengeId, "challenge", s.now))
  }

  function RowOf(user: string, now: int): Challenge {
    Challenge(user, Registration, "challenge", PLAIN_CONTEXT.rpId, PLAIN_CONTEXT.origin, now, now + CHALLENGE_TTL_MS)
  }

  lemma BeginServed(w: FactoryCache.World, db: Db, s: SessionInput, c: string)
    requires Open(w) && SessionFor(db, s).Some? && c !in db.challenges
    ensures var (db1, user) := SessionFor(db, s).value;
            Serve(w, db, BeginOf(s, c)) ==
              Some((db1.(challenges := db1.challenges[c := RowOf(user, s.now)]), Finished(Issued(c, {}), None)))
  {
  }

  /** A passkey's key, as the server receives it and as it stores it. */
  datatype Key = Key(cose: seq<byte>, raw: seq<byte>) {
    predicate Valid() {
      PublicKey.FromCose(cose) == Some(raw)
    }
  }

  function KeyOf(x: Bytes32, y: Bytes32): (key: Key)
    ensures key.Valid() && key.raw == PublicKey.Uncompressed(x, y)
  {
    PublicKey.FromCoseCanonical(x, y);
    Key(PublicKey.CanonicalKey(x, y), PublicKey.Uncompressed(x, y))
  }

  /** The session has the name of its user. */
  function FinishOf(user: string, c: string, id: string, key: Key): Request {
    Request(SessionInput(Some(user), 1, "", ""), FinishReg(1, Some(c), PLAIN_SITE, id, key.cose, true, 0, true, true))
  }

  /** The user's session is live, and of the registration challenges only c is the user's. */
  predicate CanFinish(db: Db, user: string, c: string) {
    && user in db.sessions && db.sessions[user].userId == user && db.sessions[user].expiresAt > 1
    && c in db.challenges && db.challenges[c] in {RowOf(user, 0), RowOf(user, 1)}
    && (forall d :: d in db.challenges && d != c ==> db.challenges[d].userId != user)
  }

  function Touched(db: Db, user: string): Db
    requires user in db.sessions
  {
    db.(sessions := db.sessions[user := db.sessions[user].(expiresAt := 1 + SESSION_TTL_MS)])
  }

  function TicketFrom(db: Db, user: string, c: string): Ticket
    requires c in db.challenges
  {
    Ticket(Registration, c, db.challenges[c], PLAIN_SITE, user, 1)
  }

  lemma IsTheOnlyOne(db: Db, user: string, c: string)
    requires CanFinish(db, user, c)
    ensures IsNewest(db, Registration, Some(user), Some(c))
  {
  }

  /** A finish request comes to the point where it has checked the owner and stores the credential next. */
  lemma OwnerChecked(w: FactoryCache.World, acts: seq<Act>, s: State, pid: nat, user: string, c: string, id: string,
                     key: Key) returns (acts': seq<Act>, s': State)
    requires Open(w) && Run(w, START, acts, s) && pid !in s.procs && key.Valid() && CanFinish(s.db, user, c)
    requires id in s.db.credentials ==> s.db.credentials[id].userId == user
    ensures Run(w, START, acts', s') && s'.db == Touched(s.db, user)
    ensures s'.procs ==
            s.procs[pid := RegUpsertCredential(FinishOf(user, c, id, key), TicketFrom(s.db, user, c), key.raw)]
  {
    hide Run, PublicKey.FromCose, IsNewest;
    var rq, t, db1 := FinishOf(user, c, id, key), TicketFrom(s.db, user, c), Touched(s.db, user);
    IsTheOnlyOne(db1, user, c);
    acts', s' := Arrived(w, acts, s, pid, rq);
    acts', s' := Moved(w, acts', s', pid, s.db, RefreshSession(rq, user, user));
    acts', s' := Moved(w, acts', s', pid, db1, ReadChallenge(rq, user));
    acts', s' := Moved(w, acts', s', pid, db1, RegCheckOwner(rq, t, key.raw));
    acts', s' := Moved(w, acts', s', pid, db1, RegUpsertCredential(rq, t, key.raw));
  }

  /** A finish request that nothing interrupts. */
  lemma FinishServed(w: FactoryCache.World, db: Db, user: string, c: string, id: string, key: Key)
    requires Open(w) && key.Valid() && CanFinish(db, user, c)
    requires id in db.credentials ==> db.credentials[id].userId == user
    ensures var rq := FinishOf(user, c, id, key);
            var (db1, account) := Enrolled(w, Touched(db, user), rq, user, key.raw);
            && Serve(w, db, rq).Some? && Serve(w, db, rq).value.1.Finished?
            && Serve(w, db, rq).value.0 ==
                 if account.None? then db1 else db1.(challenges := db1.challenges - {c})
  {
    hide PublicKey.FromCose, IsNewest, Enrolled;
    IsTheOnlyOne(Touched(db, user), user, c);
  }
}
