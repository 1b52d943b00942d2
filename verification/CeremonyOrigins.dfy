/** The passkey requests under the configured relying-party checks: where a successful request came from. */
module CeremonyOrigins {
  import opened Bytes
  import opened Store
  import opened Ceremony
  import opened ChallengeRuns
  import FactoryCache
  import OriginChecks
  import opened OriginExamples

  /** The server resolves contexts and checks origins as configured by these environment variables. */
  ghost predicate Configured(w: FactoryCache.World, env: OriginChecks.Env) {
    && (forall h, b :: w.resolve(h, b) == OriginChecks.Begin(env, h, b))
    && (forall site, issued :: w.accepts(site, issued) ==
          OriginChecks.Finish(env, site.headers, issued, site.clientOrigin, site.body).Ok?)
  }

  /** The client data names the issued origin and no source names an extension, or all sources that name one name the
      same allowlisted extension and the client data its origin. */
  ghost predicate CameFrom(env: OriginChecks.Env, site: OriginChecks.Site, origin: string) {
    && site.clientOrigin.Some?
    && var named := OriginChecks.Named(site.headers, site.clientOrigin, site.body);
    || (named == Ok(None) && site.clientOrigin.value == origin)
    || (exists ext :: OriginChecks.AllName(site.headers, site.clientOrigin, site.body, ext)
                      && ext in OriginChecks.Allowed(env)
                      && OriginChecks.Normalize(site.clientOrigin.value) == OriginChecks.SCHEME + ext)
  }

  lemma AcceptedCameFrom(env: OriginChecks.Env, site: OriginChecks.Site, issued: OriginChecks.Context)
    requires OriginChecks.Finish(env, site.headers, issued, site.clientOrigin, site.body).Ok?
    ensures CameFrom(env, site, issued.origin)
  {
    hide OriginChecks.IdFromUrl, OriginChecks.IdFromHeaders, OriginChecks.IdFromBody, OriginChecks.Trim,
         OriginChecks.Normalize, OriginChecks.Allowed, OriginChecks.Candidates, OriginChecks.RpIds,
         OriginChecks.AllName, OriginChecks.Named, OriginChecks.FinishExtension;
    var named := OriginChecks.Named(site.headers, site.clientOrigin, site.body).value;
    if named.Some? {
      OriginChecks.ExtensionExactlyWhen(env, site.headers, issued, site.clientOrigin.value, site.body, named.value);
    }
  }

  /** Every success, in every interleaving, consumed a row whose relying-party id and origin begin had resolved from the
      configuration, and came from that origin or from an allowlisted extension. */
  lemma SuccessCameFromItsOrigin(w: FactoryCache.World, env: OriginChecks.Env, acts: seq<Act>, s: State, pid: nat)
    requires Configured(w, env) && Run(w, START, acts, s)
    requires pid in s.procs && s.procs[pid].Finished? && IsSuccess(s.procs[pid].reply)
    ensures s.procs[pid].consumed.Some?
    ensures var t := s.procs[pid].consumed.value;
            && (exists h, b :: OriginChecks.Begin(env, h, b) == Ok(OriginChecks.Context(t.row.rpId, t.row.origin)))
            && CameFrom(env, t.site, t.row.origin)
  {
    hide OriginChecks.Begin, OriginChecks.Finish, CameFrom, Run;
    SuccessConsumedAnIssuedRow(w, acts, s, pid);
    var t := s.procs[pid].consumed.value;
    var issued := OriginChecks.Context(t.row.rpId, t.row.origin);
    assert w.accepts(t.site, issued);
    AcceptedCameFrom(env, t.site, issued);
    var h, b :| w.resolve(h, b) == Ok(issued);
    assert OriginChecks.Begin(env, h, b) == Ok(issued);
  }

  /** With nothing configured and no headers, begin issues localhost, and finish accepts it from there. */
  lemma PlainRequestsPass(w: FactoryCache.World)
    requires Configured(w, PLAIN_ENV)
    ensures w.resolve(NO_HEADERS, None) == Ok(PLAIN_CONTEXT) && w.accepts(PLAIN_SITE, PLAIN_CONTEXT)
  {
    PlainContext();
    hide OriginChecks.Begin, OriginChecks.Finish;
    OriginChecks.PlainOrigin(PLAIN_ORIGIN);
    OriginChecks.IssuedContextAcceptedExactlyWhen(PLAIN_ENV, NO_HEADERS, None, NO_HEADERS, OriginChecks.Absent);
  }
}
