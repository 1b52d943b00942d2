/** Concurrent passkey requests, interleaved statement by statement: what happens to the challenges. */
module ChallengeRuns {
  import opened Bytes
  import opened Store
  import opened Ceremony
  import FactoryCache
  import OriginChecks
  import PublicKey

  /** A challenge row as a begin request inserted it. */
  datatype Issue = Issue(id: string, row: Challenge)

  /** A finish request that succeeded, the ticket it held and the row its delete removed. */
  datatype Consumption = Consumption(pid: nat, ticket: Ticket, deleted: Challenge)

  /** The tables, the requests so far, and two logs that only grow. */
  datatype State = State(db: Db, procs: map<nat, Process>, issued: seq<Issue>, consumed: seq<Consumption>)

  const START := State(EMPTY, map[], [], [])

  /** A request may stop anywhere: the server process can die between two statements. */
  datatype Act = Arrive(pid: nat, rq: Request) | Advance(pid: nat) | Crash(pid: nat)

  predicate CanAct(s: State, a: Act) {
    match a
    case Arrive(pid, _) => pid !in s.procs
    case Advance(pid) => pid in s.procs && WellFormed(s.procs[pid]) && Enabled(s.db, s.procs[pid])
    case Crash(pid) => pid in s.procs && !s.procs[pid].Finished?
  }

  function Apply(w: FactoryCache.World, s: State, a: Act): State
    requires CanAct(s, a)
  {
    match a
    case Arrive(pid, rq) => s.(procs := s.procs[pid := FindSession(rq)])
    case Crash(pid) => s.(procs := s.procs[pid := Stopped()])
    case Advance(pid) =>
      var p := s.procs[pid];
      var (db', p') := Exec(w, s.db, p);
      State(db', s.procs[pid := p'],
            if p.IssueChallenge? && p' != Stopped()
            then s.issued + [Issue(p.rq.work.challengeId, NewChallenge(p.rq, p.user, p.context))]
            else s.issued,
            if p.Consume? && p' != Stopped()
            then s.consumed + [Consumption(pid, p.ticket, s.db.challenges[p.ticket.id])]
            else s.consumed)
  }

  ghost predicate Run(w: FactoryCache.World, s: State, acts: seq<Act>, s': State)
    decreases |acts|
  {
    if acts == [] then s' == s
    else CanAct(s, acts[0]) && Run(w, Apply(w, s, acts[0]), acts[1..], s')
  }

  // ---------------------------------------------------------------------------------------------
  // Conservation: every issue is either still in the table or was consumed by one success
  // ---------------------------------------------------------------------------------------------

  function IssuedIds(log: seq<Issue>): (ids: seq<string>)
    ensures |ids| == |log| && forall i :: 0 <= i < |log| ==> ids[i] == log[i].id
  {
    seq(|log|, i requires 0 <= i < |log| => log[i].id)
  }

  function ConsumedIds(log: seq<Consumption>): (ids: seq<string>)
    ensures |ids| == |log| && forall i :: 0 <= i < |log| ==> ids[i] == log[i].ticket.id
  {
    seq(|log|, i requires 0 <= i < |log| => log[i].ticket.id)
  }

  ghost predicate Conserved(s: State) {
    multiset(IssuedIds(s.issued)) == multiset(ConsumedIds(s.consumed)) + multiset(s.db.challenges.Keys)
  }

  /** The three things a statement can do to the challenge table. */
  lemma ChallengeEffect(w: FactoryCache.World, db: Db, p: Process)
    requires WellFormed(p) && Enabled(db, p)
    ensures var (db', p') := Exec(w, db, p);
            if p.IssueChallenge? && p' != Stopped() then
              p.rq.work.challengeId !in db.challenges
              && db'.challenges == db.challenges[p.rq.work.challengeId := NewChallenge(p.rq, p.user, p.context)]
            else if p.Consume? && p' != Stopped() then
              p.ticket.id in db.challenges && db'.challenges == db.challenges - {p.ticket.id}
            else db'.challenges == db.challenges
  {
    hide IsNewest, Checked, Served, AccountsOf, CredentialsOf, NewAccount, NewCredential, NewChallenge, WantedUser;
  }

  lemma IssueConserves(s: State, s': State, issue: Issue)
    requires Conserved(s) && issue.id !in s.db.challenges
    requires s'.issued == s.issued + [issue] && s'.consumed == s.consumed
    requires s'.db.challenges.Keys == s.db.challenges.Keys + {issue.id}
    ensures Conserved(s')
  {
    assert IssuedIds(s'.issued) == IssuedIds(s.issued) + [issue.id];
  }

  lemma ConsumeConserves(s: State, s': State, c: Consumption)
    requires Conserved(s) && c.ticket.id in s.db.challenges
    requires s'.issued == s.issued && s'.consumed == s.consumed + [c]
    requires s'.db.challenges.Keys == s.db.challenges.Keys - {c.ticket.id}
    ensures Conserved(s')
  {
    assert ConsumedIds(s'.consumed) == ConsumedIds(s.consumed) + [c.ticket.id];
    assert s.db.challenges.Keys == s'.db.challenges.Keys + {c.ticket.id};
  }

  lemma StepConserves(w: FactoryCache.World, s: State, a: Act)
    requires CanAct(s, a) && Conserved(s)
    ensures Conserved(Apply(w, s, a))
  {
    hide Exec;
    var s' := Apply(w, s, a);
    if a.Advance? {
      var p := s.procs[a.pid];
      ChallengeEffect(w, s.db, p);
      if p.IssueChallenge? && s'.procs[a.pid] != Stopped() {
        IssueConserves(s, s', Issue(p.rq.work.challengeId, NewChallenge(p.rq, p.user, p.context)));
      } else if p.Consume? && s'.procs[a.pid] != Stopped() {
        ConsumeConserves(s, s', Consumption(a.pid, p.ticket, s.db.challenges[p.ticket.id]));
      } else {
        hide IssuedIds, ConsumedIds;
        assert s'.issued == s.issued && s'.consumed == s.consumed && s'.db.challenges == s.db.challenges;
      }
    }
  }

  /** In every interleaving, crashes included and random ids repeated or not, each time a challenge id was issued is
      matched by one success that consumed it or by its row still being there. */
  lemma {:induction false} ChallengesConserved(w: FactoryCache.World, s: State, acts: seq<Act>, s': State)
    requires Conserved(s) && Run(w, s, acts, s')
    ensures Conserved(s')
    decreases |acts|
  {
    if acts != [] {
      StepConserves(w, s, acts[0]);
      ChallengesConserved(w, Apply(w, s, acts[0]), acts[1..], s');
    }
  }

  // ---------------------------------------------------------------------------------------------
  // Provenance: what a success consumed
  // ---------------------------------------------------------------------------------------------

  function TicketOf(p: Process): Option<Ticket> {
    match p
    case FindSession(_) => None
    case RefreshSession(_, _, _) => None
    case CreateSession(_) => None
    case ListCredentials(_, _, _) => None
    case IssueChallenge(_, _, _, _) => None
    case ReadChallenge(_, _) => None
    case Finished(_, consumed) => consumed
    case _ => Some(p.ticket)
  }

  /** The row was issued by a begin request of the same purpose, it was unexpired by the clock the request read, the
      origin the request came from was accepted against it, and for a registration it was issued to the same user. */
  predicate GoodTicket(w: FactoryCache.World, issued: seq<Issue>, t: Ticket) {
    && Issue(t.id, t.row) in issued
    && t.row.purpose == t.purpose
    && t.row.expiresAt > t.now
    && OriginAccepted(w, t.site, t.row)
    && (t.purpose.Registration? ==> t.row.userId == t.user)
  }

  predicate IsSuccess(r: Reply) {
    r.Registered? || r.Authenticated?
  }

  predicate GoodProcess(w: FactoryCache.World, issued: seq<Issue>, p: Process) {
    && WellFormed(p)
    && (TicketOf(p).Some? ==> GoodTicket(w, issued, TicketOf(p).value))
    && (p.Consume? ==> IsSuccess(p.reply) && p.ticket.purpose == PurposeOf(p.rq.work))
    && (TicketOf(p).Some? && !p.Finished? ==> TicketOf(p).value.purpose == PurposeOf(p.rq.work))
    && (p.Finished? ==> (IsSuccess(p.reply) <==> p.consumed.Some?))
    && (p.ListCredentials? || p.IssueChallenge? ==> ContextOf(w, p.rq.work) == Ok(p.context))
  }

  /** Relying-party id and origin of the row are what begin resolves for some request. */
  ghost predicate ResolvedRow(w: FactoryCache.World, row: Challenge) {
    exists h, b :: w.resolve(h, b) == Ok(OriginChecks.Context(row.rpId, row.origin))
  }

  ghost predicate RowsResolved(w: FactoryCache.World, s: State) {
    forall i :: i in s.issued ==> ResolvedRow(w, i.row)
  }

  ghost predicate RowsIssued(s: State) {
    forall id :: id in s.db.challenges ==> Issue(id, s.db.challenges[id]) in s.issued
  }

  ghost predicate GoodProcesses(w: FactoryCache.World, s: State) {
    forall pid :: pid in s.procs ==> GoodProcess(w, s.issued, s.procs[pid])
  }

  /** The log of consumptions lists exactly the successful finishes, each once. */
  ghost predicate LogMatches(s: State) {
    LogSound(s) && LogComplete(s)
  }

  ghost predicate LogSound(s: State) {
    && (forall k :: 0 <= k < |s.consumed| ==> LoggedFinish(s, s.consumed[k]))
    && (forall k, l :: 0 <= k < l < |s.consumed| ==> s.consumed[k].pid != s.consumed[l].pid)
  }

  ghost predicate LoggedFinish(s: State, c: Consumption) {
    && c.pid in s.procs && s.procs[c.pid].Finished? && s.procs[c.pid].consumed == Some(c.ticket)
    && Issue(c.ticket.id, c.deleted) in s.issued
  }

  ghost predicate LogComplete(s: State) {
    forall pid :: pid in s.procs && s.procs[pid].Finished? && s.procs[pid].consumed.Some? ==>
      exists k :: 0 <= k < |s.consumed| && s.consumed[k].pid == pid
  }

  ghost predicate Inv(w: FactoryCache.World, s: State) {
    Conserved(s) && RowsIssued(s) && RowsResolved(w, s) && GoodProcesses(w, s) && LogMatches(s)
  }

  lemma CheckedIsGood(w: FactoryCache.World, db: Db, issued: seq<Issue>, rq: Request, user: string)
    requires !rq.work.Begin? && IsNewest(db, PurposeOf(rq.work), WantedUser(rq.work, user), rq.work.row)
    requires forall id :: id in db.challenges ==> Issue(id, db.challenges[id]) in issued
    ensures var row := if rq.work.row.None? then None else Some(db.challenges[rq.work.row.value]);
            GoodProcess(w, issued, Checked(w, rq, user, row))
  {
    hide PublicKey.FromCose;
  }

  lemma ProcessStaysGood(w: FactoryCache.World, db: Db, issued: seq<Issue>, p: Process)
    requires WellFormed(p) && Enabled(db, p) && GoodProcess(w, issued, p)
    requires forall id :: id in db.challenges ==> Issue(id, db.challenges[id]) in issued
    ensures GoodProcess(w, issued, Exec(w, db, p).1)
  {
    hide IsNewest, Checked, GoodTicket, AccountsOf, CredentialsOf, NewAccount, NewCredential, NewChallenge,
         TouchSession, InsertUserAndSession, InsertChallenge, SetSignCount, TransferOwner, UpsertCredential,
         UpsertAccount, DeleteChallenge;
    if p.ReadChallenge? {
      CheckedIsGood(w, db, issued, p.rq, p.user);
    }
  }

  lemma StepKeepsRowsIssued(w: FactoryCache.World, s: State, a: Act)
    requires CanAct(s, a) && RowsIssued(s)
    ensures RowsIssued(Apply(w, s, a))
    ensures forall x :: x in s.issued ==> x in Apply(w, s, a).issued
  {
    if a.Advance? {
      ChallengeEffect(w, s.db, s.procs[a.pid]);
    }
  }

  lemma StepKeepsRowsResolved(w: FactoryCache.World, s: State, a: Act)
    requires CanAct(s, a) && RowsResolved(w, s) && GoodProcesses(w, s)
    ensures RowsResolved(w, Apply(w, s, a))
  {
    hide Exec;
    if a.Advance? && s.procs[a.pid].IssueChallenge? {
      var p := s.procs[a.pid];
      assert GoodProcess(w, s.issued, p);
      var row := NewChallenge(p.rq, p.user, p.context);
      assert w.resolve(p.rq.work.headers, p.rq.work.body) == Ok(OriginChecks.Context(row.rpId, row.origin));
    }
  }

  lemma StepKeepsGoodProcesses(w: FactoryCache.World, s: State, a: Act)
    requires CanAct(s, a) && RowsIssued(s) && GoodProcesses(w, s)
    ensures GoodProcesses(w, Apply(w, s, a))
  {
    hide Exec;
    StepKeepsRowsIssued(w, s, a);
    if a.Advance? {
      ProcessStaysGood(w, s.db, s.issued, s.procs[a.pid]);
    }
  }

  lemma StepKeepsLogSound(w: FactoryCache.World, s: State, a: Act)
    requires CanAct(s, a) && RowsIssued(s) && LogSound(s)
    ensures LogSound(Apply(w, s, a))
  {
    hide Exec;
    var s' := Apply(w, s, a);
    StepKeepsRowsIssued(w, s, a);
    if a.Advance? {
      var p := s.procs[a.pid];
      FinishedOnlyByConsuming(w, s.db, p);
      ChallengeEffect(w, s.db, p);
    }
    forall k | 0 <= k < |s'.consumed|
      ensures LoggedFinish(s', s'.consumed[k])
    {
      if k < |s.consumed| {
        assert LoggedFinish(s, s.consumed[k]);
      }
    }
  }

  lemma StepKeepsLogComplete(w: FactoryCache.World, s: State, a: Act)
    requires CanAct(s, a) && LogComplete(s)
    ensures LogComplete(Apply(w, s, a))
  {
    hide Exec;
    var s' := Apply(w, s, a);
    if a.Advance? {
      var p := s.procs[a.pid];
      FinishedOnlyByConsuming(w, s.db, p);
      if p.Consume? && s'.procs[a.pid] != Stopped() {
        assert s'.consumed[|s.consumed|].pid == a.pid;
      }
    }
    forall pid | pid in s'.procs && s'.procs[pid].Finished? && s'.procs[pid].consumed.Some? && pid != a.pid
      ensures exists k :: 0 <= k < |s'.consumed| && s'.consumed[k].pid == pid
    {
      var k :| 0 <= k < |s.consumed| && s.consumed[k].pid == pid;
      assert s'.consumed[k].pid == pid;
    }
  }

  lemma FinishedOnlyByConsuming(w: FactoryCache.World, db: Db, p: Process)
    requires WellFormed(p) && Enabled(db, p)
    ensures var p' := Exec(w, db, p).1;
            p'.Finished? && p'.consumed.Some? <==> p.Consume? && p' != Stopped()
    ensures p.Consume? && Exec(w, db, p).1 != Stopped() ==> Exec(w, db, p).1 == Finished(p.reply, Some(p.ticket))
  {
  }

  lemma StepKeepsInv(w: FactoryCache.World, s: State, a: Act)
    requires CanAct(s, a) && Inv(w, s)
    ensures Inv(w, Apply(w, s, a))
  {
    hide Apply, Exec;
    StepConserves(w, s, a);
    StepKeepsRowsIssued(w, s, a);
    StepKeepsRowsResolved(w, s, a);
    StepKeepsGoodProcesses(w, s, a);
    StepKeepsLogSound(w, s, a);
    StepKeepsLogComplete(w, s, a);
  }

  lemma StartInv(w: FactoryCache.World)
    ensures Inv(w, START)
  {
  }

  lemma {:induction false} RunKeepsInv(w: FactoryCache.World, s: State, acts: seq<Act>, s': State)
    requires Inv(w, s) && Run(w, s, acts, s')
    ensures Inv(w, s')
    decreases |acts|
  {
    if acts != [] {
      StepKeepsInv(w, s, acts[0]);
      RunKeepsInv(w, Apply(w, s, acts[0]), acts[1..], s');
    }
  }

  /** Every success, in every run: it consumed a row that an earlier begin of the same purpose had issued, with a
      relying-party id and origin that begin resolved; unexpired when the clock was read, accepted for the origin the
      request came from, and for a registration issued to the session's user. */
  lemma SuccessConsumedAnIssuedRow(w: FactoryCache.World, acts: seq<Act>, s: State, pid: nat)
    requires Run(w, START, acts, s)
    requires pid in s.procs && s.procs[pid].Finished? && IsSuccess(s.procs[pid].reply)
    ensures s.procs[pid].consumed.Some? && GoodTicket(w, s.issued, s.procs[pid].consumed.value)
    ensures ResolvedRow(w, s.procs[pid].consumed.value.row)
  {
    StartInv(w);
    RunKeepsInv(w, START, acts, s);
    hide Conserved, Run, RowsIssued, LogMatches, ResolvedRow;
    assert GoodProcess(w, s.issued, s.procs[pid]);
  }

  /** Random ids that never repeat. */
  ghost predicate NoIdTwice(issued: seq<Issue>) {
    forall i, j :: 0 <= i < j < |issued| ==> issued[i].id != issued[j].id
  }

  lemma {:induction false} CountAtMostOnce(ids: seq<string>, x: string)
    requires forall i, j :: 0 <= i < j < |ids| ==> ids[i] != ids[j]
    ensures multiset(ids)[x] <= 1
  {
    if ids != [] {
      var init, last := ids[..|ids| - 1], ids[|ids| - 1];
      assert ids == init + [last];
      CountAtMostOnce(init, x);
      if x == last {
        assert x !in init;
      }
    }
  }

  lemma TwiceCountsTwo(ids: seq<string>, i: nat, j: nat)
    requires i < j < |ids| && ids[i] == ids[j]
    ensures multiset(ids)[ids[i]] >= 2
  {
    assert ids == ids[..j] + [ids[j]] + ids[j + 1..];
    assert ids[i] in ids[..j];
  }

  lemma DistinctTickets(s: State, k: nat, l: nat)
    requires Conserved(s) && NoIdTwice(s.issued)
    requires k < l < |s.consumed|
    ensures s.consumed[k].ticket.id != s.consumed[l].ticket.id
  {
    var ids := ConsumedIds(s.consumed);
    CountAtMostOnce(IssuedIds(s.issued), ids[k]);
    if ids[k] == ids[l] {
      TwiceCountsTwo(ids, k, l);
    }
  }

  lemma ConsumedIsGone(s: State, k: nat)
    requires Conserved(s) && NoIdTwice(s.issued) && k < |s.consumed|
    ensures s.consumed[k].ticket.id !in s.db.challenges
  {
    var ids := ConsumedIds(s.consumed);
    CountAtMostOnce(IssuedIds(s.issued), ids[k]);
    assert ids[k] in multiset(ids);
  }

  lemma DeletedIsRead(w: FactoryCache.World, s: State, k: nat)
    requires GoodProcesses(w, s) && LogMatches(s) && NoIdTwice(s.issued) && k < |s.consumed|
    ensures s.consumed[k].deleted == s.consumed[k].ticket.row
  {
    var c := s.consumed[k];
    assert LoggedFinish(s, c) && GoodProcess(w, s.issued, s.procs[c.pid]);
    assert Issue(c.ticket.id, c.deleted) in s.issued && Issue(c.ticket.id, c.ticket.row) in s.issued;
  }

  /** With ids that never repeat, no challenge is consumed by two successful finishes; a consumed challenge is gone
      for good; and the row a success deleted is the row it had read. */
  lemma NoDoubleConsumption(w: FactoryCache.World, acts: seq<Act>, s: State, p: nat, q: nat)
    requires Run(w, START, acts, s) && NoIdTwice(s.issued)
    requires p in s.procs && s.procs[p].Finished? && IsSuccess(s.procs[p].reply)
    requires q in s.procs && s.procs[q].Finished? && IsSuccess(s.procs[q].reply)
    ensures s.procs[p].consumed.Some? && s.procs[q].consumed.Some?
    ensures p != q ==> s.procs[p].consumed.value.id != s.procs[q].consumed.value.id
    ensures s.procs[p].consumed.value.id !in s.db.challenges
    ensures exists k :: 0 <= k < |s.consumed| && s.consumed[k].pid == p
                        && s.consumed[k].deleted == s.procs[p].consumed.value.row
  {
    StartInv(w);
    RunKeepsInv(w, START, acts, s);
    hide Conserved, Run, GoodTicket, RowsIssued, NoIdTwice, ConsumedIds, IssuedIds;
    assert GoodProcess(w, s.issued, s.procs[p]) && GoodProcess(w, s.issued, s.procs[q]);
    var k :| 0 <= k < |s.consumed| && s.consumed[k].pid == p;
    var l :| 0 <= l < |s.consumed| && s.consumed[l].pid == q;
    assert LoggedFinish(s, s.consumed[k]) && LoggedFinish(s, s.consumed[l]);
    if k < l {
      DistinctTickets(s, k, l);
    } else if l < k {
      DistinctTickets(s, l, k);
    }
    ConsumedIsGone(s, k);
    DeletedIsRead(w, s, k);
  }
}
