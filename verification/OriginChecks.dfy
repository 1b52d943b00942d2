/** Relying-party id and origin of a passkey ceremony (lib/webauthn-server.ts): what begin issues and what finish
    accepts. Letters are lowered as far as it can matter: 'A' to 'Z', and the Kelvin sign, which lowers to 'k'. */
module OriginChecks {
  import opened Bytes

  // ---------------------------------------------------------------------------------------------
  // Text
  // ---------------------------------------------------------------------------------------------

  /** String.prototype.trim's white space and line terminators. */
  predicate Space(c: char) {
    || 9 <= c as int <= 13 || c as int in {32, 160, 0x1680, 0x2028, 0x2029, 0x202f, 0x205f, 0x3000, 0xfeff}
    || 0x2000 <= c as int <= 0x200a
  }

  function TrimStart(s: string, drop: char -> bool): (t: string)
    ensures |t| <= |s| && t == s[|s| - |t|..] && (t != "" ==> !drop(t[0]))
    ensures forall i :: 0 <= i < |s| - |t| ==> drop(s[i])
  {
    if s != "" && drop(s[0]) then TrimStart(s[1..], drop) else s
  }

  function TrimEnd(s: string, drop: char -> bool): (t: string)
    ensures |t| <= |s| && t == s[..|t|] && (t != "" ==> !drop(t[|t| - 1]))
    ensures forall i :: |t| <= i < |s| ==> drop(s[i])
  {
    if s != "" && drop(s[|s| - 1]) then TrimEnd(s[..|s| - 1], drop) else s
  }

  function Trim(s: string): string {
    TrimEnd(TrimStart(s, Space), Space)
  }

  function LowerChar(c: char): char {
    if 'A' <= c <= 'Z' then c - 'A' + 'a' else if c as int == 0x212a then 'k' else c
  }

  function Lower(s: string): (t: string)
    ensures |t| == |s| && forall i :: 0 <= i < |s| ==> t[i] == LowerChar(s[i])
  {
    seq(|s|, i requires 0 <= i < |s| => LowerChar(s[i]))
  }

  /** The part before the first stopping character. */
  function UpTo(s: string, stop: char -> bool): (t: string)
    ensures |t| <= |s| && t == s[..|t|] && (|t| < |s| ==> stop(s[|t|]))
    ensures forall i :: 0 <= i < |t| ==> !stop(t[i])
  {
    if s == "" || stop(s[0]) then "" else [s[0]] + UpTo(s[1..], stop)
  }

  /** The part after the last such character, or all of the text. */
  function AfterLast(s: string, c: char): string
    decreases |s|
  {
    if c in s then AfterLast(s[|UpTo(s, x => x == c)| + 1..], c) else s
  }

  function Removing(s: string, drop: char -> bool): string {
    if s == "" then "" else (if drop(s[0]) then "" else [s[0]]) + Removing(s[1..], drop)
  }

  function StripQuotes(s: string): string {
    var t := Trim(s);
    if |t| >= 2 && t[0] == t[|t| - 1] && t[0] in {'"', '\''} then Trim(t[1..|t| - 1]) else t
  }

  function Split(s: string): (parts: seq<string>)
    ensures parts != []
    decreases |s|
  {
    var head := UpTo(s, x => x == ',');
    if |head| == |s| then [s] else [head] + Split(s[|head| + 1..])
  }

  // ---------------------------------------------------------------------------------------------
  // Extension ids
  // ---------------------------------------------------------------------------------------------

  const SCHEME := "chrome-extension://"

  /** /^[a-p]{32}$/ */
  predicate IsExtensionId(s: string) {
    |s| == 32 && forall i :: 0 <= i < 32 ==> 'a' <= s[i] <= 'p'
  }

  /** What `new URL` gives as the host of a URL with this scheme, as far as an extension id can come out of it. */
  function HostAfterScheme(rest: string): Option<string> {
    var clean := Removing(TrimEnd(rest, c => c as int <= 32), c => c as int in {9, 10, 13});
    var authority := UpTo(clean, c => c in {'/', '?', '#'});
    var hostAndPort := AfterLast(authority, '@');
    var host := UpTo(hostAndPort, c => c == ':');
    if |host| == |hostAndPort| || IsPort(hostAndPort[|host| + 1..]) then Some(host) else None
  }

  /** Anything else is percent-encoded in a host. */
  predicate IsAscii(s: string) {
    forall i :: 0 <= i < |s| ==> s[i] as int < 128
  }

  predicate IsPort(s: string) {
    (forall i :: 0 <= i < |s| ==> '0' <= s[i] <= '9') && Number(s) < 65536
  }

  function Number(s: string): nat
    requires forall i :: 0 <= i < |s| ==> '0' <= s[i] <= '9'
  {
    if s == "" then 0 else 10 * Number(s[..|s| - 1]) + (s[|s| - 1] - '0') as nat
  }

  /** parseChromeExtensionRpIdFromUrl. */
  function IdFromUrl(raw: Option<string>): (id: Option<string>)
    ensures id.Some? ==> IsExtensionId(id.value)
  {
    if raw.None? then None
    else
      var trimmed := Trim(raw.value);
      if !(SCHEME <= Lower(trimmed)) then None
      else
        var host := HostAfterScheme(trimmed[|SCHEME|..]);
        if host.Some? && IsAscii(host.value) && IsExtensionId(Lower(host.value)) then Some(Lower(host.value)) else None
  }

  datatype Headers = Headers(latchId: Option<string>, chromeId: Option<string>, origin: Option<string>,
                             referer: Option<string>, host: Option<string>, forwardedProto: Option<string>)

  /** The environment variables; an unset list of extension ids is empty. */
  datatype Env = Env(extensionIds: string, rpId: string, origin: string)

  function IdFromHeaders(h: Headers): (id: Option<string>)
    ensures id.Some? ==> IsExtensionId(id.value)
  {
    var raw := if h.latchId.Some? then h.latchId else h.chromeId;
    if raw.Some? && IsExtensionId(Lower(Trim(raw.value))) then Some(Lower(Trim(raw.value))) else None
  }

  function Entries(parts: seq<string>): seq<string> {
    if parts == [] then []
    else
      var e := StripQuotes(Trim(parts[0]));
      (if e == "" then [] else [e]) + Entries(parts[1..])
  }

  /** parseCommaSeparatedEnv of the extension ids, lowered as both resolvers lower it. */
  function Allowed(env: Env): set<string> {
    var raw := StripQuotes(Trim(env.extensionIds));
    if raw == "" then {} else set e | e in Entries(Split(raw)) && Trim(e) != "" :: Lower(Trim(e))
  }

  function Candidates(ext: string): set<string> {
    var e := Lower(Trim(ext));
    if IsExtensionId(e) then {e, SCHEME + e} else {e}
  }

  // ---------------------------------------------------------------------------------------------
  // Sources that must not conflict
  // ---------------------------------------------------------------------------------------------

  predicate Silent(x: Option<string>) {
    x.None? || x.value == ""
  }

  /** One more member for a set that must stay within one. */
  function Merge(sofar: Result<Option<string>>, x: Option<string>): Result<Option<string>> {
    if sofar.Err? || Silent(x) || sofar.value == x then sofar
    else if sofar.value.None? then Ok(x)
    else Err("Conflicting extension ids")
  }

  /** The one id that the sources name, None inside when none does, an error when they differ. */
  function Agreed(a: Option<string>, b: Option<string>, c: Option<string>): Result<Option<string>> {
    Merge(Merge(Merge(Ok(None), a), b), c)
  }

  /** The source is silent or names this id. */
  predicate Names(x: Option<string>, ext: string) {
    Silent(x) || x == Some(ext)
  }

  lemma AgreedExactly(a: Option<string>, b: Option<string>, c: Option<string>, e: string)
    ensures Agreed(a, b, c) == Ok(None) <==> Silent(a) && Silent(b) && Silent(c)
    ensures Agreed(a, b, c) == Ok(Some(e)) <==>
              e != "" && Names(a, e) && Names(b, e) && Names(c, e) && (a == Some(e) || b == Some(e) || c == Some(e))
  {
  }

  // ---------------------------------------------------------------------------------------------
  // Begin: resolveWebauthnCeremonyContext
  // ---------------------------------------------------------------------------------------------

  datatype Context = Context(rpId: string, origin: string)

  function HostOf(h: Headers): string {
    if h.host.Some? && h.host.value != "" then h.host.value else "localhost"
  }

  function RpIdFromRequest(env: Env, h: Headers): string {
    if Trim(env.rpId) != "" then Trim(env.rpId) else UpTo(HostOf(h), c => c == ':')
  }

  function OriginFromRequest(env: Env, h: Headers): string {
    if Trim(env.origin) != "" then Trim(env.origin)
    else
      var proto := if h.forwardedProto.Some? && h.forwardedProto.value != "" then h.forwardedProto.value else "http";
      proto + "://" + HostOf(h)
  }

  /** `body` is the request's chromeExtensionId, None where it is no string. */
  function Begin(env: Env, h: Headers, body: Option<string>): Result<Context> {
    var fromBody := if body.Some? then Some(Lower(Trim(body.value))) else None;
    var fromOrigin := IdFromUrl(h.origin);
    var fromUrls := if fromOrigin.Some? then fromOrigin else IdFromUrl(h.referer);
    var agreed := Agreed(fromBody, IdFromHeaders(h), fromUrls);
    if agreed.Err? then Err(agreed.error)
    else if agreed.value.None? then Ok(Context(RpIdFromRequest(env, h), OriginFromRequest(env, h)))
    else
      var ext := Lower(agreed.value.value);
      if !IsExtensionId(ext) then Err("Invalid chromeExtensionId format")
      else if ext !in Allowed(env) then Err("Extension id is not in the allowlist")
      else Ok(Context(ext, SCHEME + ext))
  }

  // ---------------------------------------------------------------------------------------------
  // Finish: resolveWebauthnFinishVerification
  // ---------------------------------------------------------------------------------------------

  datatype BodyId = Absent | NotText | Text(text: string)

  /** Where a finish request says it comes from: its headers, the client data's origin and the body's extension id. */
  datatype Site = Site(headers: Headers, clientOrigin: Option<string>, body: BodyId)

  datatype Expected = Expected(origin: string, rpIds: set<string>)

  /** normalizeChromeExtensionOriginUrl */
  function Normalize(s: string): string {
    TrimEnd(Lower(Trim(s)), c => c == '/')
  }

  /** The ids that one call of `push` adds. */
  function Pushed(s: Option<string>): set<string> {
    var t := if s.Some? then Trim(s.value) else "";
    var parsed := IdFromUrl(Some(t));
    if t == "" then {}
    else if parsed.Some? then {t} + Candidates(parsed.value)
    else if IsExtensionId(Lower(t)) then {t} + Candidates(Lower(t))
    else {t}
  }

  method Push(ids: set<string>, s: Option<string>) returns (ids': set<string>)
    ensures ids' == ids + Pushed(s)
  {
    hide IdFromUrl, Candidates, Trim, Lower, IsExtensionId;
    ids' := ids;
    var t := if s.Some? then Trim(s.value) else "";
    if t == "" {
      return;
    }
    ids' := ids' + {t};
    var parsed := IdFromUrl(Some(t));
    var ext := if parsed.Some? then parsed else if IsExtensionId(Lower(t)) then Some(Lower(t)) else None;
    if ext.Some? {
      ids' := ids' + Candidates(ext.value);
    }
  }

  /** getExpectedRpidsForVerification; a web finish passes no extension id of its own. */
  method ExpectedRpIds(challengeOrigin: string, challengeRpId: string, clientOrigin: string) returns (ids: set<string>)
    ensures ids == RpIds(challengeOrigin, challengeRpId, clientOrigin)
  {
    hide Pushed, IdFromUrl;
    ids := {};
    ids := Push(ids, Some(challengeRpId));
    ids := Push(ids, IdFromUrl(Some(challengeOrigin)));
    ids := Push(ids, IdFromUrl(Some(clientOrigin)));
    if ids == {} {
      ids := {if Trim(challengeRpId) != "" then Trim(challengeRpId) else "localhost"};
    }
  }

  function RpIds(challengeOrigin: string, challengeRpId: string, clientOrigin: string): set<string> {
    var ids := Pushed(Some(challengeRpId)) + Pushed(IdFromUrl(Some(challengeOrigin)))
               + Pushed(IdFromUrl(Some(clientOrigin)));
    if ids == {} then {if Trim(challengeRpId) != "" then Trim(challengeRpId) else "localhost"} else ids
  }

  /** The extension id of the request body, None where it names none. */
  function IdFromBody(body: BodyId): (id: Result<Option<string>>)
    ensures id.Ok? && id.value.Some? ==> IsExtensionId(id.value.value)
  {
    match body
    case Absent => Ok(None)
    case NotText => Err("chromeExtensionId must be a string")
    case Text(text) =>
      var t := Lower(Trim(text));
      if t == "" then Ok(None)
      else if IsExtensionId(t) then Ok(Some(t))
      else Err("Invalid chromeExtensionId format")
  }

  /** The one extension id that body, headers and client origin name. */
  function Named(h: Headers, clientOrigin: Option<string>, body: BodyId): Result<Option<string>> {
    var fromBody := IdFromBody(body);
    if fromBody.Err? then Err(fromBody.error)
    else Agreed(fromBody.value, IdFromHeaders(h), IdFromUrl(clientOrigin))
  }

  function FinishExtension(env: Env, clientOrigin: string, ext: string): Result<Expected> {
    if ext !in Allowed(env) then Err("Extension id is not in the allowlist")
    else if Normalize(clientOrigin) != Normalize(SCHEME + ext) then
      Err("clientData origin does not match chrome-extension ceremony")
    else Ok(Expected(SCHEME + ext, Candidates(ext)))
  }

  function Finish(env: Env, h: Headers, issued: Context, clientOrigin: Option<string>, body: BodyId): Result<Expected> {
    if clientOrigin.None? || Trim(clientOrigin.value) == "" then Err("Missing clientData origin")
    else
      var named := Named(h, clientOrigin, body);
      if named.Err? then Err(named.error)
      else if named.value.Some? then FinishExtension(env, clientOrigin.value, named.value.value)
      else if clientOrigin.value != issued.origin then
        Err("WebAuthn response origin does not match issued challenge")
      else Ok(Expected(issued.origin, RpIds(issued.origin, issued.rpId, clientOrigin.value)))
  }

  // ---------------------------------------------------------------------------------------------
  // Extension ids are fixed points of the text functions
  // ---------------------------------------------------------------------------------------------

  lemma TrimKeeps(s: string)
    requires s != "" ==> !Space(s[0]) && !Space(s[|s| - 1])
    ensures Trim(s) == s
  {
  }

  lemma {:induction false} RemovingNone(s: string, drop: char -> bool)
    requires forall i :: 0 <= i < |s| ==> !drop(s[i])
    ensures Removing(s, drop) == s
  {
    if s != "" {
      RemovingNone(s[1..], drop);
    }
  }

  lemma {:induction false} UpToAll(s: string, t: string, stop: char -> bool)
    requires forall i :: 0 <= i < |s| ==> !stop(s[i])
    requires t != "" ==> stop(t[0])
    ensures UpTo(s + t, stop) == s
  {
    if s == "" {
      assert s + t == t;
    } else {
      UpToAll(s[1..], t, stop);
      assert (s + t)[1..] == s[1..] + t;
    }
  }

  /** A letter that lowers to one of 'a' to 'p'. */
  predicate IdLetter(c: char) {
    'a' <= LowerChar(c) <= 'p'
  }

  predicate Slashes(s: string) {
    forall i :: 0 <= i < |s| ==> s[i] == '/'
  }

  lemma LettersArePlain(id: string)
    requires forall i :: 0 <= i < |id| ==> IdLetter(id[i])
    ensures forall i :: 0 <= i < |id| ==> id[i] as int > 32 && id[i] !in {'/', '?', '#', '@', ':'}
  {
  }

  /** The URL parser finds an extension id before a port, which must be one, and a path, query or fragment. */
  lemma HostWithPort(id: string, port: string, tail: string)
    requires |id| == 32 && (forall i :: 0 <= i < 32 ==> IdLetter(id[i]))
    requires forall i :: 0 <= i < |port| ==> '0' <= port[i] <= '9'
    requires forall i :: 0 <= i < |tail| ==> tail[i] as int > 32
    requires tail != "" ==> tail[0] in {'/', '?', '#'}
    ensures HostAfterScheme(id + (":" + port) + tail) == if Number(port) < 65536 then Some(id) else None
  {
    hide IdLetter, LowerChar, IsPort, HostAfterScheme;
    LettersArePlain(id);
    PortIsPlain(port);
    PlainHost(id, ":" + port, tail);
    assert (":" + port)[1..] == port;
  }

  /** It passes over a user name. */
  lemma HostAfterUser(user: string, id: string, tail: string)
    requires |id| == 32 && (forall i :: 0 <= i < 32 ==> IdLetter(id[i]))
    requires forall i :: 0 <= i < |user| ==> user[i] as int > 32 && user[i] !in {'/', '?', '#', '@'}
    requires forall i :: 0 <= i < |tail| ==> tail[i] as int > 32
    requires tail != "" ==> tail[0] in {'/', '?', '#'}
    ensures HostAfterScheme(user + "@" + id + tail) == Some(id)
  {
    hide IdLetter, LowerChar, AfterLast, UpTo, Removing, TrimEnd;
    LettersArePlain(id);
    NothingToClean(user + "@" + id + tail);
    UpToAll(user + "@" + id, tail, c => c in {'/', '?', '#'});
    AfterTheAt(user, id);
    UpToAll(id, "", c => c == ':');
    assert id + "" == id;
  }

  lemma AfterTheAt(user: string, host: string)
    requires '@' !in user && '@' !in host
    ensures AfterLast(user + "@" + host, '@') == host
  {
    var s := user + ("@" + host);
    UpToAll(user, "@" + host, x => x == '@');
    assert s == user + "@" + host && s[|user|] == '@' && s[|user| + 1..] == host;
  }

  /** And without a port. */
  lemma HostBeforePath(id: string, tail: string)
    requires |id| == 32 && (forall i :: 0 <= i < 32 ==> IdLetter(id[i]))
    requires forall i :: 0 <= i < |tail| ==> tail[i] as int > 32
    requires tail != "" ==> tail[0] in {'/', '?', '#'}
    ensures HostAfterScheme(id + tail) == Some(id)
  {
    hide IdLetter, LowerChar, IsPort, HostAfterScheme;
    LettersArePlain(id);
    PlainHost(id, "", tail);
    assert id + "" == id;
  }

  lemma PortIsPlain(port: string)
    requires forall i :: 0 <= i < |port| ==> '0' <= port[i] <= '9'
    ensures forall i :: 0 <= i < |":" + port| ==>
              (":" + port)[i] as int > 32 && (":" + port)[i] !in {'/', '?', '#', '@'}
    ensures IsPort(port) <==> Number(port) < 65536
  {
    hide Number;
    forall i | 0 <= i < |":" + port|
      ensures (":" + port)[i] as int > 32 && (":" + port)[i] !in {'/', '?', '#', '@'}
    {
      if i > 0 {
        assert (":" + port)[i] == port[i - 1];
      }
    }
  }

  lemma NothingToClean(rest: string)
    requires forall i :: 0 <= i < |rest| ==> rest[i] as int > 32
    ensures Removing(TrimEnd(rest, c => c as int <= 32), c => c as int in {9, 10, 13}) == rest
  {
    RemovingNone(rest, c => c as int in {9, 10, 13});
  }

  lemma PlainAuthority(id: string, port: string)
    requires forall i :: 0 <= i < |id| ==> id[i] !in {'@', ':'}
    requires forall i :: 0 <= i < |port| ==> port[i] != '@'
    requires port != "" ==> port[0] == ':'
    ensures AfterLast(id + port, '@') == id + port && UpTo(id + port, c => c == ':') == id
    ensures port != "" ==> (id + port)[|id| + 1..] == port[1..]
  {
    UpToAll(id, port, c => c == ':');
    assert '@' !in id && '@' !in port;
  }

  lemma PlainHost(id: string, port: string, tail: string)
    requires forall i :: 0 <= i < |id| ==> id[i] as int > 32 && id[i] !in {'/', '?', '#', '@', ':'}
    requires forall i :: 0 <= i < |port| ==> port[i] as int > 32 && port[i] !in {'/', '?', '#', '@'}
    requires forall i :: 0 <= i < |tail| ==> tail[i] as int > 32
    requires tail != "" ==> tail[0] in {'/', '?', '#'}
    requires port != "" ==> port[0] == ':'
    ensures HostAfterScheme(id + port + tail) ==
            if port == "" || IsPort(port[1..]) then Some(id) else None
  {
    hide IsPort, AfterLast, UpTo, Removing, TrimEnd;
    NothingToClean(id + port + tail);
    UpToAll(id + port, tail, c => c in {'/', '?', '#'});
    PlainAuthority(id, port);
  }

  lemma HostBeforeSlashes(id: string, slashes: string)
    requires |id| == 32 && (forall i :: 0 <= i < 32 ==> IdLetter(id[i])) && Slashes(slashes)
    ensures HostAfterScheme(id + slashes) == Some(id)
  {
    hide IdLetter, HostAfterScheme;
    HostBeforePath(id, slashes);
  }

  lemma SchemeText()
    ensures |SCHEME| == 19 && !Space(SCHEME[0]) && SCHEME[18] == '/'
    ensures forall i :: 0 <= i < 19 ==> LowerChar(SCHEME[i]) == SCHEME[i]
  {
  }

  lemma PrefixedText(scheme: string, ext: string)
    requires scheme != "" && !Space(scheme[0]) && forall i :: 0 <= i < |scheme| ==> LowerChar(scheme[i]) == scheme[i]
    requires IsExtensionId(ext)
    ensures Trim(ext) == ext && Lower(ext) == ext
    ensures Trim(scheme + ext) == scheme + ext && Lower(scheme + ext) == scheme + ext
    ensures Normalize(scheme + ext) == scheme + ext
  {
    var url := scheme + ext;
    assert url[|url| - 1] == ext[31];
    TrimKeeps(ext);
    TrimKeeps(url);
    assert Lower(ext) == ext;
    assert Lower(url) == url;
  }

  lemma ExtensionText(ext: string)
    requires IsExtensionId(ext)
    ensures Trim(ext) == ext && Lower(ext) == ext && Candidates(ext) == {ext, SCHEME + ext}
    ensures Trim(SCHEME + ext) == SCHEME + ext && Normalize(SCHEME + ext) == SCHEME + ext
  {
    hide Trim, Normalize, Space, LowerChar;
    SchemeText();
    PrefixedText(SCHEME, ext);
  }

  /** What normalizes to an extension's origin is that origin in any case, between white space, before slashes. */
  lemma NormalizedShape(origin: string, scheme: string, ext: string) returns (head: string, id: string, slashes: string)
    requires IsExtensionId(ext) && Normalize(origin) == scheme + ext
    ensures Trim(origin) == head + id + slashes && Slashes(slashes)
    ensures Lower(head) == scheme && Lower(id) == ext
  {
    hide Trim, LowerChar, Space;
    var trimmed, n := Trim(origin), |scheme|;
    var lowered := Lower(trimmed);
    head, id, slashes := trimmed[..n], trimmed[n..n + 32], trimmed[n + 32..];
    LowerSlice(trimmed, 0, n);
    LowerSlice(trimmed, n, n + 32);
    LowerSlashes(trimmed, n + 32);
    assert lowered[..n + 32] == scheme + ext;
    assert lowered[..n] == (scheme + ext)[..n] == scheme;
    assert lowered[n..n + 32] == (scheme + ext)[n..] == ext;
  }

  /** And all of these normalize to it. */
  lemma ShapeNormalizes(origin: string, head: string, id: string, slashes: string, scheme: string, ext: string)
    requires IsExtensionId(ext) && Trim(origin) == head + id + slashes && Slashes(slashes)
    requires Lower(head) == scheme && Lower(id) == ext
    ensures Normalize(origin) == scheme + ext
  {
    hide Trim, LowerChar;
    var trimmed, n := head + id + slashes, |head| + |id|;
    var lowered := Lower(trimmed);
    assert lowered[..n] == scheme + ext by {
      LowerSlice(trimmed, 0, n);
      assert trimmed[0..n] == head + id;
      assert Lower(head + id) == scheme + ext;
    }
    SlashIsLow();
    forall i | n <= i < |lowered|
      ensures lowered[i] == '/'
    {
      assert trimmed[i] == slashes[i - n];
    }
    var t := TrimEnd(lowered, c => c == '/');
    assert lowered[n - 1] == ext[31];
    assert |t| == n;
  }

  lemma SlashIsLow()
    ensures LowerChar('/') == '/'
  {
  }

  lemma LowerSlice(s: string, lo: nat, hi: nat)
    requires lo <= hi <= |s|
    ensures Lower(s[lo..hi]) == Lower(s)[lo..hi]
  {
  }

  lemma LowerSlashes(s: string, from: nat)
    requires from <= |s| && Slashes(Lower(s)[from..])
    ensures Slashes(s[from..])
  {
    forall i | 0 <= i < |s| - from
      ensures s[from..][i] == '/'
    {
      assert Lower(s)[from..][i] == '/';
    }
  }

  /** Only the Kelvin sign tells normalizing and parsing apart: it lowers to a letter, but not inside a URL's host. */
  lemma NormalizedParsesExactlyWhen(origin: string, ext: string)
    requires IsExtensionId(ext) && Normalize(origin) == SCHEME + ext
    ensures IdFromUrl(Some(origin)) == if IsAscii(Trim(origin)) then Some(ext) else None
  {
    var head, id, slashes := NormalizedShape(origin, SCHEME, ext);
    var trimmed := Trim(origin);
    hide Trim, Normalize, HostAfterScheme;
    forall i | 0 <= i < 32
      ensures IdLetter(id[i])
    {
      assert Lower(id)[i] == ext[i];
    }
    HostBeforeSlashes(id, slashes);
    SchemeIsAscii(head);
    assert trimmed[|SCHEME|..] == id + slashes;
    LowerSlice(trimmed, 0, |SCHEME|);
    assert trimmed[..|SCHEME|] == head;
    assert SCHEME <= Lower(trimmed);
    AsciiParts(head, id, slashes);
  }

  lemma SchemeIsAscii(head: string)
    requires Lower(head) == SCHEME
    ensures IsAscii(head)
  {
    forall i | 0 <= i < |head|
      ensures head[i] as int < 128
    {
      assert LowerChar(head[i]) == SCHEME[i];
    }
  }

  lemma AsciiParts(head: string, id: string, slashes: string)
    requires IsAscii(head) && Slashes(slashes)
    ensures IsAscii(head + id + slashes) <==> IsAscii(id)
  {
    var s := head + id + slashes;
    if IsAscii(s) {
      forall i | 0 <= i < |id|
        ensures id[i] as int < 128
      {
        assert s[|head| + i] == id[i];
      }
    }
  }

  /** Nothing shorter than the scheme is an extension's. */
  lemma PlainOrigin(origin: string)
    requires |origin| < |SCHEME|
    ensures IdFromUrl(Some(origin)) == None
  {
  }

  // ---------------------------------------------------------------------------------------------
  // The allowlist
  // ---------------------------------------------------------------------------------------------

  function Joined(texts: seq<string>): string
    requires texts != []
  {
    if |texts| == 1 then texts[0] else texts[0] + ("," + Joined(texts[1..]))
  }

  predicate NoComma(s: string) {
    forall i :: 0 <= i < |s| ==> s[i] != ','
  }

  lemma {:induction false} SplitJoined(texts: seq<string>)
    requires texts != [] && forall i :: 0 <= i < |texts| ==> NoComma(texts[i])
    ensures Split(Joined(texts)) == texts
    decreases |texts|
  {
    var stop := x => x == ',';
    if |texts| == 1 {
      UpToAll(texts[0], "", stop);
      assert texts[0] + "" == texts[0] && texts == [texts[0]];
    } else {
      var rest := "," + Joined(texts[1..]);
      UpToAll(texts[0], rest, stop);
      assert (texts[0] + rest)[|texts[0]| + 1..] == Joined(texts[1..]);
      SplitJoined(texts[1..]);
      assert texts == [texts[0]] + texts[1..];
    }
  }

  /** An entry of the list that names this extension, in any case, between white space and within quotes or not. */
  predicate EntryFor(text: string, id: string) {
    IsExtensionId(id) && Lower(StripQuotes(Trim(text))) == id
  }

  lemma EntryIsTrimmed(text: string, id: string)
    requires EntryFor(text, id)
    ensures StripQuotes(Trim(text)) != "" && Trim(StripQuotes(Trim(text))) == StripQuotes(Trim(text))
  {
    hide StripQuotes, Trim;
    var e := StripQuotes(Trim(text));
    assert Lower(e)[0] == LowerChar(e[0]) && Lower(e)[31] == LowerChar(e[31]);
    TrimKeeps(e);
  }

  lemma {:induction false} EntriesOf(texts: seq<string>, ids: seq<string>)
    requires |texts| == |ids| && forall i :: 0 <= i < |texts| ==> EntryFor(texts[i], ids[i])
    ensures |Entries(texts)| == |texts|
    ensures forall i :: 0 <= i < |texts| ==>
              var e := Entries(texts)[i]; e != "" && Trim(e) == e && Lower(e) == ids[i]
  {
    hide StripQuotes, Trim, Lower, IsExtensionId;
    if texts != [] {
      EntryIsTrimmed(texts[0], ids[0]);
      EntriesOf(texts[1..], ids[1..]);
    }
  }

  /** The allowlist holds exactly the ids that the entries between the commas name. */
  lemma AllowedExactly(env: Env, texts: seq<string>, ids: seq<string>)
    requires texts != [] && |texts| == |ids| && StripQuotes(Trim(env.extensionIds)) == Joined(texts)
    requires forall i :: 0 <= i < |texts| ==> NoComma(texts[i]) && EntryFor(texts[i], ids[i])
    ensures Allowed(env) == set id | id in ids
  {
    hide StripQuotes, Trim, Lower, IsExtensionId, Entries, Split, Joined, NoComma, EntryFor;
    SplitJoined(texts);
    EntriesOf(texts, ids);
    JoinedNotEmpty(texts, ids);
    var entries := Entries(texts);
    forall i | 0 <= i < |ids|
      ensures ids[i] in Allowed(env)
    {
      assert entries[i] in entries && Lower(Trim(entries[i])) == ids[i];
    }
  }

  lemma JoinedNotEmpty(texts: seq<string>, ids: seq<string>)
    requires texts != [] && |texts| == |ids| && EntryFor(texts[0], ids[0])
    ensures Joined(texts) != ""
  {
    hide StripQuotes, Trim, Lower, IsExtensionId;
    if texts[0] == "" {
      StripsNothing();
    }
  }

  lemma StripsNothing()
    ensures StripQuotes(Trim("")) == "" && !IsExtensionId(Lower(""))
  {
  }

  /** Quotes of either kind around an id, and white space around those, are taken off. */
  lemma QuotedEntry(quote: char, id: string)
    requires quote in {'"', '\''} && IsExtensionId(id)
    ensures EntryFor(" " + ([quote] + id + [quote]) + " ", id) && EntryFor(id, id)
  {
    hide Trim, Lower, Candidates, Normalize;
    var s := [quote] + id + [quote];
    ExtensionText(id);
    TrimSpaced(s);
    TrimKeeps(s);
    assert s[1..|s| - 1] == id;
    assert s[0] == quote && s[|s| - 1] == quote;
  }

  /** Quotes that differ stay, and leave no id. */
  lemma UnevenQuotesStay(id: string)
    requires IsExtensionId(id)
    ensures StripQuotes(['"'] + id + ['\'']) == ['"'] + id + ['\'']
    ensures !IsExtensionId(Lower(['"'] + id + ['\'']))
  {
    hide Trim;
    var s := ['"'] + id + ['\''];
    assert s[0] == '"' && s[|s| - 1] == '\'';
    TrimKeeps(s);
  }

  lemma TrimSpaced(s: string)
    requires s != "" && !Space(s[0]) && !Space(s[|s| - 1])
    ensures Trim(" " + s + " ") == s
  {
    var padded := " " + s + " ";
    var t := TrimStart(padded, Space);
    assert padded[1] == s[0];
    assert t == s + " ";
    var u := TrimEnd(t, Space);
    assert t[|s| - 1] == s[|s| - 1];
    assert u == s;
  }

  // ---------------------------------------------------------------------------------------------
  // What finish accepts
  // ---------------------------------------------------------------------------------------------

  /** Every source that names an extension names this one, and one of them does. */
  predicate AllName(h: Headers, clientOrigin: Option<string>, body: BodyId, ext: string) {
    && IdFromBody(body).Ok?
    && Names(IdFromBody(body).value, ext) && Names(IdFromHeaders(h), ext) && Names(IdFromUrl(clientOrigin), ext)
    && (IdFromBody(body).value == Some(ext) || IdFromHeaders(h) == Some(ext) || IdFromUrl(clientOrigin) == Some(ext))
  }

  lemma NamedExactly(h: Headers, clientOrigin: Option<string>, body: BodyId, ext: string)
    ensures Named(h, clientOrigin, body) == Ok(Some(ext)) <==> AllName(h, clientOrigin, body, ext)
    ensures Named(h, clientOrigin, body) == Ok(Some(ext)) ==> IsExtensionId(ext)
  {
    hide IdFromUrl, IdFromHeaders, IdFromBody, Agreed;
    if IdFromBody(body).Ok? {
      AgreedExactly(IdFromBody(body).value, IdFromHeaders(h), IdFromUrl(clientOrigin), ext);
    }
  }

  lemma ExtensionAccepted(env: Env, origin: string, ext: string)
    requires IsExtensionId(ext)
    ensures FinishExtension(env, origin, ext).Ok? <==> ext in Allowed(env) && Normalize(origin) == SCHEME + ext
    ensures FinishExtension(env, origin, ext).Ok? ==>
              FinishExtension(env, origin, ext).value == Expected(SCHEME + ext, {ext, SCHEME + ext})
  {
    hide Allowed, Candidates, Trim, Normalize, Lower, IsExtensionId;
    ExtensionText(ext);
  }

  /** Where an extension is named, finish succeeds exactly when all sources name the same one, it is on the allowlist
      and the client's origin is that extension's own; it then expects that origin and both forms of the id, and an
      origin without odd letters names the extension itself. */
  lemma ExtensionExactlyWhen(env: Env, h: Headers, issued: Context, origin: string, body: BodyId, ext: string)
    requires Named(h, Some(origin), body) == Ok(Some(ext))
    ensures AllName(h, Some(origin), body, ext)
    ensures Finish(env, h, issued, Some(origin), body).Ok? <==> ext in Allowed(env) && Normalize(origin) == SCHEME + ext
    ensures Finish(env, h, issued, Some(origin), body).Ok? ==>
              && Finish(env, h, issued, Some(origin), body).value == Expected(SCHEME + ext, {ext, SCHEME + ext})
              && (IsAscii(Trim(origin)) ==> IdFromUrl(Some(origin)) == Some(ext))
  {
    hide Allowed, IdFromUrl, IdFromHeaders, IdFromBody, Agreed, Candidates, RpIds, AllName, Named, Trim, Normalize,
         Lower, IsAscii, IsExtensionId, FinishExtension;
    NamedExactly(h, Some(origin), body, ext);
    ExtensionAccepted(env, origin, ext);
    if Normalize(origin) == SCHEME + ext {
      NormalizedParsesExactlyWhen(origin, ext);
      NotBlank(origin, ext);
    }
  }

  lemma NotBlank(origin: string, ext: string)
    requires IsExtensionId(ext) && Normalize(origin) == SCHEME + ext
    ensures Trim(origin) != ""
  {
    hide Trim;
    assert |Lower(Trim(origin))| >= 32;
  }

  /** Where no extension is named, finish succeeds exactly when the client's origin is the issued one and not blank. It
      then expects that origin, and as relying-party id the issued one, trimmed: alone if it is no extension's, in all
      its forms if it is, and localhost if it is blank. */
  lemma WebExactlyWhen(env: Env, h: Headers, issued: Context, origin: string, body: BodyId)
    requires Named(h, Some(origin), body) == Ok(None)
    ensures Finish(env, h, issued, Some(origin), body).Ok? <==> Trim(origin) != "" && origin == issued.origin
    ensures Finish(env, h, issued, Some(origin), body).Ok? ==>
              && Finish(env, h, issued, Some(origin), body).value.origin == origin
              && IssuedIds(issued.rpId, Finish(env, h, issued, Some(origin), body).value.rpIds)
  {
    hide IdFromUrl, IdFromHeaders, IdFromBody, Agreed, RpIds, Trim, IssuedIds;
    AgreedExactly(IdFromBody(body).value, IdFromHeaders(h), IdFromUrl(Some(origin)), "");
    assert IdFromUrl(Some(origin)).None?;
    RpIdsOfWeb(origin, issued.rpId);
  }

  /** What is expected of a web ceremony's relying-party id. */
  ghost predicate IssuedIds(rpId: string, ids: set<string>) {
    var t := Trim(rpId);
    if t == "" then ids == {"localhost"}
    else if IdFromUrl(Some(t)).Some? then ids == {t, IdFromUrl(Some(t)).value, SCHEME + IdFromUrl(Some(t)).value}
    else if IsExtensionId(Lower(t)) then ids == {t, Lower(t), SCHEME + Lower(t)}
    else ids == {t}
  }

  lemma RpIdsOfWeb(origin: string, rpId: string)
    requires IdFromUrl(Some(origin)).None?
    ensures IssuedIds(rpId, RpIds(origin, rpId, origin))
  {
    hide IdFromUrl, Candidates, Trim, Lower, IsExtensionId, Normalize;
    var t := Trim(rpId);
    if IdFromUrl(Some(t)).Some? {
      ExtensionText(IdFromUrl(Some(t)).value);
    }
    if IsExtensionId(Lower(t)) {
      ExtensionText(Lower(t));
    }
  }

  /** What the request body may hold: anything but text is an error, text that is no id is too, and blank text counts
      as none. */
  lemma BodyIdMatters(env: Env, h: Headers, issued: Context, origin: Option<string>, text: string)
    ensures Finish(env, h, issued, origin, NotText).Err?
    ensures Trim(text) != "" && !IsExtensionId(Lower(Trim(text))) ==> Finish(env, h, issued, origin, Text(text)).Err?
    ensures Trim(text) == "" ==> Finish(env, h, issued, origin, Text(text)) == Finish(env, h, issued, origin, Absent)
  {
    hide IdFromUrl, IdFromHeaders, Trim, Allowed, RpIds, FinishExtension, Agreed;
  }

  lemma MixedSourcesAreRefused(env: Env, h: Headers, issued: Context, origin: Option<string>, body: BodyId)
    requires IdFromHeaders(h).Some? && IdFromUrl(origin).Some? && IdFromHeaders(h) != IdFromUrl(origin)
    ensures Finish(env, h, issued, origin, body).Err?
  {
    hide IdFromUrl, IdFromHeaders, IdFromBody, Trim, Normalize, Allowed, Candidates, RpIds;
  }

  // ---------------------------------------------------------------------------------------------
  // Begin and finish fit together
  // ---------------------------------------------------------------------------------------------

  /** The sources of a finish agree with an origin when they name no other extension than it does. */
  predicate AgreesWith(h: Headers, body: BodyId, origin: string) {
    && IdFromBody(body).Ok?
    && (Silent(IdFromBody(body).value) || IdFromBody(body).value == IdFromUrl(Some(origin)))
    && (Silent(IdFromHeaders(h)) || IdFromHeaders(h) == IdFromUrl(Some(origin)))
  }

  lemma NamedByOrigin(h: Headers, body: BodyId, origin: string)
    requires AgreesWith(h, body, origin)
    ensures Named(h, Some(origin), body) == Ok(IdFromUrl(Some(origin)))
  {
    hide IdFromHeaders;
    assert IdFromUrl(Some(origin)) != Some("");
  }

  lemma NonBlank(s: string, i: nat)
    requires i < |s| && !Space(s[i])
    ensures Trim(s) != ""
  {
    var t := TrimStart(s, Space);
    assert |s| - |t| <= i;
    assert t[i - (|s| - |t|)] == s[i];
  }

  lemma JoinedNotBlank(proto: string, host: string)
    ensures Trim(proto + "://" + host) != ""
  {
    hide Trim;
    var origin := proto + "://" + host;
    assert origin[|proto|] == "://"[0];
    NonBlank(origin, |proto|);
  }

  lemma IssuedOriginNotBlank(env: Env, h: Headers)
    ensures Trim(OriginFromRequest(env, h)) != ""
  {
    hide Trim, HostOf;
    if Trim(env.origin) != "" {
      TrimTwice(env.origin);
    } else {
      var proto := if h.forwardedProto.Some? && h.forwardedProto.value != "" then h.forwardedProto.value else "http";
      JoinedNotBlank(proto, HostOf(h));
    }
  }

  lemma IssuedWithoutExtension(env: Env, h: Headers, body: Option<string>)
    requires Begin(env, h, body).Ok? && IdFromUrl(Some(Begin(env, h, body).value.origin)).None?
    ensures Trim(Begin(env, h, body).value.origin) != ""
  {
    hide Allowed, IdFromUrl, IdFromHeaders, Candidates, Trim, Normalize, Lower, OriginFromRequest, RpIdFromRequest,
         Agreed;
    var issued := Begin(env, h, body).value;
    IssuedOriginNotBlank(env, h);
    if issued.origin != OriginFromRequest(env, h) {
      ExtensionText(issued.rpId);
    }
  }

  /** A context from begin, answered from its own origin: finish accepts it exactly when that origin is no extension's,
      or is the plain origin of an allowlisted one. */
  lemma IssuedContextAcceptedExactlyWhen(env: Env, h: Headers, body: Option<string>, h': Headers, body': BodyId)
    requires Begin(env, h, body).Ok?
    requires AgreesWith(h', body', Begin(env, h, body).value.origin)
    ensures var issued := Begin(env, h, body).value;
            var id := IdFromUrl(Some(issued.origin));
            var finished := Finish(env, h', issued, Some(issued.origin), body');
            && (finished.Ok? <==>
                  (id.Some? ==> id.value in Allowed(env) && Normalize(issued.origin) == SCHEME + id.value))
            && (finished.Ok? ==>
                  if id.Some? then finished.value == Expected(SCHEME + id.value, {id.value, SCHEME + id.value})
                  else finished.value.origin == issued.origin && IssuedIds(issued.rpId, finished.value.rpIds))
  {
    hide Allowed, IdFromUrl, IdFromHeaders, IdFromBody, Candidates, RpIds, Named, Trim, Normalize, Lower, Begin,
         AgreesWith, IsExtensionId, IssuedIds;
    var issued := Begin(env, h, body).value;
    NamedByOrigin(h', body', issued.origin);
    if IdFromUrl(Some(issued.origin)).Some? {
      ExtensionExactlyWhen(env, h', issued, issued.origin, body', IdFromUrl(Some(issued.origin)).value);
    } else {
      IssuedWithoutExtension(env, h, body);
      WebExactlyWhen(env, h', issued, issued.origin, body');
    }
  }

  /** A URL of an extension's page, such as a referer, names the extension. */
  lemma PageNamesExtension(ext: string, path: string)
    requires IsExtensionId(ext)
    requires forall i :: 0 <= i < |path| ==> 32 < path[i] as int < 127
    requires path != "" ==> path[0] in {'/', '?', '#'}
    ensures IdFromUrl(Some(SCHEME + (ext + path))) == Some(ext)
  {
    hide Normalize, Trim, Candidates, HostAfterScheme;
    SchemeText();
    ExtensionText(ext);
    SchemePrefix(SCHEME, ext + path);
    HostBeforePath(ext, path);
    assert IsAscii(ext);
  }

  lemma SchemePrefix(scheme: string, rest: string)
    requires scheme != "" && !Space(scheme[0]) && forall i :: 0 <= i < |scheme| ==> LowerChar(scheme[i]) == scheme[i]
    requires rest != "" && forall i :: 0 <= i < |rest| ==> 32 < rest[i] as int < 127
    ensures var url := scheme + rest; Trim(url) == url && scheme <= Lower(url) && url[|scheme|..] == rest
  {
    hide Trim, LowerChar;
    var url := scheme + rest;
    assert url[|url| - 1] == rest[|rest| - 1];
    TrimKeeps(url);
    assert Lower(url)[..|scheme|] == scheme;
  }

  lemma ExtensionUrlParses(ext: string)
    requires IsExtensionId(ext)
    ensures IdFromUrl(Some(SCHEME + ext)) == Some(ext)
  {
    hide IdFromUrl, IsExtensionId;
    PageNamesExtension(ext, "");
    assert ext + "" == ext;
  }

  /** Whether any source of a begin request names an extension. */
  predicate NamesExtension(h: Headers, body: Option<string>) {
    || (body.Some? && Lower(Trim(body.value)) != "") || IdFromHeaders(h).Some?
    || IdFromUrl(h.origin).Some? || IdFromUrl(h.referer).Some?
  }

  lemma BeginWithoutExtension(env: Env, h: Headers)
    requires !NamesExtension(h, None)
    ensures Begin(env, h, None) == Ok(Context(RpIdFromRequest(env, h), OriginFromRequest(env, h)))
  {
    hide Allowed, IdFromUrl, IdFromHeaders, Trim, Lower, RpIdFromRequest, OriginFromRequest;
  }

  /** Which of the two headers counts: where the first one is sent, the second is not looked at, even if the first names
      no id. */
  lemma FirstHeaderWins(h: Headers, id: string)
    requires IsExtensionId(id)
    ensures h.latchId == Some(id) ==> IdFromHeaders(h) == Some(id)
    ensures h.latchId.None? && h.chromeId == Some(id) ==> IdFromHeaders(h) == Some(id)
    ensures h.latchId.Some? && !IsExtensionId(Lower(Trim(h.latchId.value))) ==> IdFromHeaders(h) == None
  {
    hide Trim, Lower, Candidates, Normalize, IsExtensionId;
    ExtensionText(id);
  }

  /** A configured relying-party id and origin are issued, without the white space around them. */
  lemma ConfiguredContext(env: Env, h: Headers)
    requires Trim(env.rpId) != "" && Trim(env.origin) != "" && !NamesExtension(h, None)
    ensures Begin(env, h, None) == Ok(Context(Trim(env.rpId), Trim(env.origin)))
  {
    hide Begin, Trim, NamesExtension;
    BeginWithoutExtension(env, h);
  }

  /** Behind a proxy, with nothing configured: the forwarded protocol, the host with its port in the origin and without
      it in the relying-party id. */
  lemma ForwardedContext(env: Env, h: Headers, proto: string, name: string, port: string)
    requires Trim(env.rpId) == "" && Trim(env.origin) == "" && !NamesExtension(h, None)
    requires h.forwardedProto == Some(proto) && proto != "" && h.host == Some(name + port) && name + port != ""
    requires (port != "" ==> port[0] == ':') && forall i :: 0 <= i < |name| ==> name[i] != ':'
    ensures Begin(env, h, None) == Ok(Context(name, proto + "://" + (name + port)))
  {
    hide Begin, Trim, NamesExtension;
    BeginWithoutExtension(env, h);
    HostAndPort(env, h, name, port);
  }

  /** The part of the host before the port, where nothing is configured. */
  lemma HostAndPort(env: Env, h: Headers, name: string, port: string)
    requires Trim(env.rpId) == "" && HostOf(h) == name + port && (port != "" ==> port[0] == ':')
    requires forall i :: 0 <= i < |name| ==> name[i] != ':'
    ensures RpIdFromRequest(env, h) == name
  {
    hide Trim;
    UpToAll(name, port, c => c == ':');
  }

  lemma BeginForExtension(env: Env, h: Headers, body: Option<string>)
    requires Begin(env, h, body).Ok? && NamesExtension(h, body)
    ensures var ext := Begin(env, h, body).value.rpId;
            IsExtensionId(ext) && ext in Allowed(env) && Begin(env, h, body) == Ok(Context(ext, SCHEME + ext))
  {
    hide Allowed, IdFromUrl, IdFromHeaders, Trim, RpIdFromRequest, OriginFromRequest;
    NoEmptyId(h);
  }

  /** Begin issues an extension's context exactly when that extension is on the allowlist, every source that names one
      names this one, and one of them does. The referer counts only where the origin names none. */
  lemma BeginsForExactlyWhen(env: Env, h: Headers, body: Option<string>, ext: string)
    requires IsExtensionId(ext)
    ensures var fromUrls := if IdFromUrl(h.origin).Some? then IdFromUrl(h.origin) else IdFromUrl(h.referer);
            var fromBody := if body.Some? then Some(Lower(Trim(body.value))) else None;
            Begin(env, h, body).Ok? && NamesExtension(h, body) && Begin(env, h, body).value.rpId == ext <==>
            && ext in Allowed(env) && Names(fromBody, ext) && Names(IdFromHeaders(h), ext) && Names(fromUrls, ext)
            && (fromBody == Some(ext) || IdFromHeaders(h) == Some(ext) || fromUrls == Some(ext))
  {
    hide Allowed, IdFromUrl, IdFromHeaders, Trim, RpIdFromRequest, OriginFromRequest, Agreed, Normalize, Candidates;
    ExtensionText(ext);
    assert ext != "";
    var fromUrls := if IdFromUrl(h.origin).Some? then IdFromUrl(h.origin) else IdFromUrl(h.referer);
    var fromBody := if body.Some? then Some(Lower(Trim(body.value))) else None;
    AgreedExactly(fromBody, IdFromHeaders(h), fromUrls, ext);
    NoEmptyId(h);
    var agreed := Agreed(fromBody, IdFromHeaders(h), fromUrls);
    if agreed.Ok? && agreed.value.Some? {
      AgreedExactly(fromBody, IdFromHeaders(h), fromUrls, agreed.value.value);
      AgreedOfIds(h, fromBody, fromUrls, agreed.value.value);
    }
  }

  lemma AgreedOfIds(h: Headers, fromBody: Option<string>, fromUrls: Option<string>, agreed: string)
    requires fromBody == Some(agreed) || IdFromHeaders(h) == Some(agreed) || fromUrls == Some(agreed)
    requires fromUrls == IdFromUrl(h.origin) || fromUrls == IdFromUrl(h.referer)
    requires fromBody.Some? ==> exists b :: fromBody.value == Lower(b)
    ensures Lower(agreed) == agreed
  {
    hide IdFromUrl, IdFromHeaders, Candidates, Trim, Normalize;
    if IsExtensionId(agreed) {
      ExtensionText(agreed);
    } else {
      var b :| fromBody.value == Lower(b);
      LowerTwice(b);
    }
  }

  lemma NoEmptyId(h: Headers)
    ensures IdFromUrl(h.origin) != Some("") && IdFromUrl(h.referer) != Some("") && IdFromHeaders(h) != Some("")
  {
    hide IdFromUrl, IdFromHeaders;
  }

  lemma LowerTwice(s: string)
    ensures Lower(Lower(s)) == Lower(s)
  {
  }

  /** A begin for an extension, answered from that extension: finish accepts it and expects the issued id. */
  lemma ExtensionContextAccepted(env: Env, h: Headers, body: Option<string>, h': Headers, body': BodyId)
    requires Begin(env, h, body).Ok? && NamesExtension(h, body)
    requires AgreesWith(h', body', Begin(env, h, body).value.origin)
    ensures var issued := Begin(env, h, body).value;
            var finished := Finish(env, h', issued, Some(issued.origin), body');
            finished == Ok(Expected(issued.origin, {issued.rpId, issued.origin}))
  {
    hide Begin, Finish, Allowed, IdFromUrl, IdFromHeaders, IdFromBody, Trim, Normalize, Candidates, Lower, AgreesWith,
         NamesExtension, IsExtensionId, Named;
    BeginForExtension(env, h, body);
    var issued := Begin(env, h, body).value;
    ExtensionText(issued.rpId);
    ExtensionUrlParses(issued.rpId);
    NamedByOrigin(h', body', issued.origin);
    ExtensionExactlyWhen(env, h', issued, issued.origin, body', issued.rpId);
  }

  lemma PushedHasExactlyWhen(rpId: string)
    ensures rpId in Pushed(Some(rpId)) <==> rpId != "" && Trim(rpId) == rpId
    ensures Pushed(Some(rpId)) == {} <==> Trim(rpId) == ""
  {
    hide IdFromUrl, Candidates, Trim, IsExtensionId, Lower;
    var t := Trim(rpId);
    TrimTwice(rpId);
    if t != "" {
      var parsed := IdFromUrl(Some(t));
      if parsed.Some? {
        CandidatesTrimmed(parsed.value, rpId);
      } else if IsExtensionId(Lower(t)) {
        CandidatesTrimmed(Lower(t), rpId);
      }
    }
  }

  lemma TrimTwice(s: string)
    ensures Trim(Trim(s)) == Trim(s)
  {
    var t := TrimStart(s, Space);
    var u := TrimEnd(t, Space);
    if u != "" {
      assert u[0] == t[0];
      TrimKeeps(u);
    }
  }

  lemma CandidatesTrimmed(ext: string, s: string)
    requires IsExtensionId(ext)
    ensures s in Candidates(ext) ==> Trim(s) == s
  {
    hide Trim, Normalize, Lower, Candidates, IsExtensionId;
    ExtensionText(ext);
  }

  /** The relying-party id that begin issued is among the expected ones exactly when it is trimmed and not empty; if the
      issued origin is an extension's, exactly when it is that extension's id in one of its forms. */
  lemma IssuedRpIdExpectedExactlyWhen(env: Env, h: Headers, body: Option<string>, h': Headers, body': BodyId)
    requires Begin(env, h, body).Ok?
    requires AgreesWith(h', body', Begin(env, h, body).value.origin)
    requires Finish(env, h', Begin(env, h, body).value, Some(Begin(env, h, body).value.origin), body').Ok?
    ensures var issued := Begin(env, h, body).value;
            var rpIds := Finish(env, h', issued, Some(issued.origin), body').value.rpIds;
            issued.rpId in rpIds <==>
              match IdFromUrl(Some(issued.origin))
              case Some(ext) => issued.rpId in {ext, SCHEME + ext}
              case None => issued.rpId != "" && Trim(issued.rpId) == issued.rpId
  {
    hide Begin, Allowed, IdFromUrl, IdFromHeaders, IdFromBody, Trim, Normalize, Candidates, Lower, AgreesWith,
         IsExtensionId, Named, Pushed, FinishExtension;
    var issued := Begin(env, h, body).value;
    NamedByOrigin(h', body', issued.origin);
    match IdFromUrl(Some(issued.origin)) {
      case Some(ext) =>
        ExtensionExactlyWhen(env, h', issued, issued.origin, body', ext);
      case None =>
        PushedHasExactlyWhen(issued.rpId);
        assert Pushed(None) == {} by {
          PushedNothing();
        }
        LocalhostIsTrimmed();
    }
  }

  lemma PushedNothing()
    ensures Pushed(None) == {}
  {
  }

  lemma LocalhostIsTrimmed()
    ensures Trim("localhost") != ""
  {
    NonBlank("localhost", 0);
  }
}
