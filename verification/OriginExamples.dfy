/** The relying-party checks at single inputs: one that passes, and one for each way in which what begin issues does not
    fit what finish accepts. */
module OriginExamples {
  import opened Bytes
  import opened OriginChecks

  const PLAIN_ENV := Env("", "", "")
  const NO_HEADERS := Headers(None, None, None, None, None, None)
  const PLAIN_ORIGIN := "http" + "://" + "localhost"
  const PLAIN_CONTEXT := Context("localhost", PLAIN_ORIGIN)
  const PLAIN_SITE := Site(NO_HEADERS, Some(PLAIN_ORIGIN), Absent)

  lemma NothingNamed()
    ensures !NamesExtension(NO_HEADERS, None) && Trim("") == ""
  {
  }

  lemma LocalhostName()
    ensures "localhost" + "" == "localhost" && forall i :: 0 <= i < 9 ==> "localhost"[i] != ':'
  {
  }

  lemma AbsentAgrees(origin: string)
    ensures AgreesWith(NO_HEADERS, Absent, origin)
  {
  }

  lemma LocalhostRpId(env: Env)
    requires env.rpId == ""
    ensures RpIdFromRequest(env, NO_HEADERS) == "localhost"
  {
    hide RpIdFromRequest, NamesExtension, Trim;
    NothingNamed();
    LocalhostName();
    HostAndPort(env, NO_HEADERS, "localhost", "");
  }

  /** With nothing configured and no headers, begin issues localhost. */
  lemma PlainContext()
    ensures Begin(PLAIN_ENV, NO_HEADERS, None) == Ok(PLAIN_CONTEXT)
  {
    hide Begin, RpIdFromRequest, NamesExtension, Trim;
    NothingNamed();
    BeginWithoutExtension(PLAIN_ENV, NO_HEADERS);
    LocalhostRpId(PLAIN_ENV);
  }

  /** Finish expects that very origin, and localhost as the one relying-party id. */
  lemma PlainFinish()
    ensures Finish(PLAIN_ENV, NO_HEADERS, PLAIN_CONTEXT, Some(PLAIN_ORIGIN), Absent) ==
            Ok(Expected("http" + "://" + "localhost", {"localhost"}))
  {
    hide Begin, Finish, IdFromUrl, Trim, AgreesWith, IsExtensionId;
    PlainContext();
    PlainOrigin(PLAIN_ORIGIN);
    AbsentAgrees(PLAIN_ORIGIN);
    IssuedContextAcceptedExactlyWhen(PLAIN_ENV, NO_HEADERS, None, NO_HEADERS, Absent);
    LocalhostAlone(Finish(PLAIN_ENV, NO_HEADERS, PLAIN_CONTEXT, Some(PLAIN_ORIGIN), Absent).value.rpIds);
  }

  lemma LocalhostAlone(ids: set<string>)
    ensures IssuedIds("localhost", ids) <==> ids == {"localhost"}
  {
    hide IdFromUrl, Trim, Lower;
    LetterTrims("localhost");
    PlainOrigin("localhost");
  }

  /** The configured origin is an extension's, and no extension is on the allowlist: begin issues a context that finish
      refuses from that very origin. */
  lemma UnlistedExtensionIsRefused(ext: string)
    requires IsExtensionId(ext)
    ensures var env, issued := Env("", "", SCHEME + ext), Context("localhost", SCHEME + ext);
            && Begin(env, NO_HEADERS, None) == Ok(issued)
            && Finish(env, NO_HEADERS, issued, Some(issued.origin), Absent).Err?
  {
    hide Begin, Finish, IdFromUrl, RpIdFromRequest, NamesExtension, AgreesWith, Normalize, Trim, IsExtensionId;
    var env := Env("", "", SCHEME + ext);
    NothingNamed();
    ExtensionText(ext);
    BeginWithoutExtension(env, NO_HEADERS);
    LocalhostRpId(env);
    ExtensionUrlParses(ext);
    AbsentAgrees(SCHEME + ext);
    NothingAllowed(env);
    IssuedContextAcceptedExactlyWhen(env, NO_HEADERS, None, NO_HEADERS, Absent);
  }

  lemma NothingAllowed(env: Env)
    requires env.extensionIds == ""
    ensures Allowed(env) == {}
  {
  }

  lemma ExtensionLetters(ext: string)
    requires IsExtensionId(ext)
    ensures |ext| == 32 && ext[0] !in {'"', '\''} && forall i :: 0 <= i < |ext| ==> ext[i] != ','
  {
  }

  lemma OnlyAllowed(env: Env)
    requires IsExtensionId(env.extensionIds)
    ensures Allowed(env) == {env.extensionIds}
  {
    hide Trim, Lower, StripQuotes, Split, Entries, Allowed, IsExtensionId;
    var ext := env.extensionIds;
    StripKeeps(ext);
    QuotedEntry('"', ext);
    assert Joined([ext]) == ext;
    AllowedExactly(env, [ext], [ext]);
  }

  lemma StripKeeps(ext: string)
    requires IsExtensionId(ext)
    ensures StripQuotes(Trim(ext)) == ext && NoComma(ext)
  {
    hide Trim, Lower, IsExtensionId, Candidates, Normalize;
    ExtensionLetters(ext);
    ExtensionText(ext);
  }

  /** The configured origin is that of an allowlisted extension: finish accepts the context, and expects the extension's
      id in its two forms; the issued id, trimmed and not empty, is neither. */
  lemma ListedExtensionExpectsItself(ext: string)
    requires IsExtensionId(ext)
    ensures var env, issued := Env(ext, "", SCHEME + ext), Context("localhost", SCHEME + ext);
            && Begin(env, NO_HEADERS, None) == Ok(issued) && Trim(issued.rpId) == issued.rpId != ""
            && Finish(env, NO_HEADERS, issued, Some(issued.origin), Absent).Ok?
            && issued.rpId !in Finish(env, NO_HEADERS, issued, Some(issued.origin), Absent).value.rpIds
  {
    hide Begin, Finish, IdFromUrl, RpIdFromRequest, NamesExtension, AgreesWith, Normalize, Trim, Allowed,
         IsExtensionId;
    var env, localhost := Env(ext, "", SCHEME + ext), "localhost";
    NothingNamed();
    ExtensionText(ext);
    BeginWithoutExtension(env, NO_HEADERS);
    LocalhostRpId(env);
    ExtensionUrlParses(ext);
    AbsentAgrees(SCHEME + ext);
    OnlyAllowed(env);
    ExtensionLetters(ext);
    ShortIsNoForm(localhost, ext);
    LetterTrims(localhost);
    IssuedContextAcceptedExactlyWhen(env, NO_HEADERS, None, NO_HEADERS, Absent);
    IssuedRpIdExpectedExactlyWhen(env, NO_HEADERS, None, NO_HEADERS, Absent);
  }

  lemma ShortIsNoForm(s: string, ext: string)
    requires |s| < |ext|
    ensures s !in {ext, SCHEME + ext}
  {
    assert |SCHEME + ext| == |SCHEME| + |ext|;
  }

  lemma LetterTrims(s: string)
    requires s != "" && 'a' <= s[0] <= 'z' && 'a' <= s[|s| - 1] <= 'z'
    ensures Trim(s) == s
  {
    hide Trim;
    TrimKeeps(s);
  }

  /** The Kelvin sign in an extension's origin: it normalizes to that origin but names no extension, so that finish
      accepts it where the body names the extension. */
  lemma KelvinOriginIsAccepted(rest: string, issued: Context)
    requires IsExtensionId("k" + rest)
    ensures var ext, origin := "k" + rest, SCHEME + (KELVIN + rest);
            && Normalize(origin) == SCHEME + ext && IdFromUrl(Some(origin)) == None
            && Finish(Env(ext, "", ""), NO_HEADERS, issued, Some(origin), Text(ext)) ==
                 Ok(Expected(SCHEME + ext, {ext, SCHEME + ext}))
  {
    hide IdFromUrl, Normalize, Allowed, IsExtensionId, Trim, Finish, Lower;
    var env, ext, origin := Env("k" + rest, "", ""), "k" + rest, SCHEME + (KELVIN + rest);
    KelvinText(rest);
    NormalizedParsesExactlyWhen(origin, ext);
    OnlyAllowed(env);
    ExtensionText(ext);
    NamedByBody(ext, origin);
    ExtensionExactlyWhen(env, NO_HEADERS, issued, origin, Text(ext), ext);
  }

  lemma NamedByBody(ext: string, origin: string)
    requires IsExtensionId(ext) && IdFromUrl(Some(origin)) == None
    ensures Named(NO_HEADERS, Some(origin), Text(ext)) == Ok(Some(ext))
  {
    hide IdFromUrl, Trim, Lower, Candidates, Normalize;
    ExtensionText(ext);
  }

  lemma KelvinText(rest: string)
    requires IsExtensionId("k" + rest)
    ensures var origin := SCHEME + (KELVIN + rest);
            Trim(origin) == origin && !IsAscii(origin) && Normalize(origin) == SCHEME + ("k" + rest)
  {
    SchemeText();
    KelvinAfter(SCHEME, rest);
  }

  lemma KelvinAfter(scheme: string, rest: string)
    requires scheme != "" && !Space(scheme[0]) && forall i :: 0 <= i < |scheme| ==> LowerChar(scheme[i]) == scheme[i]
    requires IsExtensionId("k" + rest)
    ensures var origin := scheme + (KELVIN + rest);
            Trim(origin) == origin && !IsAscii(origin) && Normalize(origin) == scheme + ("k" + rest)
  {
    hide Trim;
    var origin, ext := scheme + (KELVIN + rest), "k" + rest;
    assert origin[|scheme|] == KELVIN[0];
    assert origin[|origin| - 1] == ext[31];
    assert forall i :: 1 <= i < 32 ==> (KELVIN + rest)[i] == ext[i];
    TrimKeeps(origin);
    assert Lower(origin) == scheme + ext;
  }

  const KELVIN := "\U{212A}"

  const NAMELESS := NO_HEADERS.(host := Some(":" + "80"))
  const NAMELESS_ORIGIN := "http" + "://" + (":" + "80")

  /** A host that is only a port: the issued relying-party id is empty, finish accepts the context, and the empty id is
      not among the expected ones. */
  lemma NamelessHostIsNotExpected()
    ensures var issued := Context("", NAMELESS_ORIGIN);
            && Begin(PLAIN_ENV, NAMELESS, None) == Ok(issued)
            && Finish(PLAIN_ENV, NAMELESS, issued, Some(issued.origin), Absent).Ok?
            && issued.rpId !in Finish(PLAIN_ENV, NAMELESS, issued, Some(issued.origin), Absent).value.rpIds
  {
    hide Begin, Finish, IdFromUrl, RpIdFromRequest, NamesExtension, AgreesWith, Trim;
    NamelessNames();
    BeginWithoutExtension(PLAIN_ENV, NAMELESS);
    assert "" + (":" + "80") == ":" + "80";
    HostAndPort(PLAIN_ENV, NAMELESS, "", ":" + "80");
    PlainOrigin(NAMELESS_ORIGIN);
    IssuedContextAcceptedExactlyWhen(PLAIN_ENV, NAMELESS, None, NAMELESS, Absent);
    IssuedRpIdExpectedExactlyWhen(PLAIN_ENV, NAMELESS, None, NAMELESS, Absent);
  }

  lemma NamelessNames()
    ensures !NamesExtension(NAMELESS, None) && Trim("") == "" && AgreesWith(NAMELESS, Absent, NAMELESS_ORIGIN)
  {
  }
}
