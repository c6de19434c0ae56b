/** The holder's wallet: which credential it presents, what it reveals, and to whom the presentation can travel. */
module Wallet {
  import opened Basics
  import opened Crypto
  import opened SafeFetch
  import opened CompactForm
  import S = SdJwt
  import D = Mdoc
  import Q = Dcql
  import R = RequestObject
  import Addresses

  const MAX_BODY_CHARS := 1_048_576

  datatype Config = Config(trustedVerifierOrigins: seq<string>, walletAudience: string)

  /** Either format of a stored credential. */
  datatype StoredCredential =
    | SdJwtVc(sdJwt: string, vct: Option<string>)
    | MsoMdoc(mdoc: string, docType: Option<string>)

  /** The first credential query of a request. */
  datatype Query = Query(vctValues: Option<seq<string>>, doctypeValue: Option<string>, paths: seq<Q.Path>)

  /** The libraries the wallet calls: JOSE, CBOR/COSE, URL handling, JSON, and the shape of a request's query. */
  datatype Env = Env(
    suite: Suite, codecs: D.Codecs, site: Site, parseJson: string -> Option<Json>,
    query: Payload -> Option<Query>, vpBody: string -> string, credentialBody: (bool, string) -> string)

  const GET := Init("GET", map[], None)

  function PostJson(body: string, headers: map<string, string>): Init {
    Init("POST", headers["content-type" := "application/json"], Some(body))
  }

  // ------------------------------------------------------ resolve the request

  /** `safeFetchJson`. */
  function FetchJson(env: Env, server: Server, url: string): (Option<Json>, seq<Request>) {
    var (outcome, log) := Fetch(env.site, server, url, GET);
    (match outcome
     case Response(reply) => (if reply.Reply? && |reply.text| <= MAX_BODY_CHARS then env.parseJson(reply.text) else None)
     case FetchFailed(_) => None, log)
  }

  datatype Search = Found(origin: string) | NotFound | Threw

  /** The first configured origin equal to the client's; an entry that is not a URL throws. */
  function FindTrusted(site: Site, origins: seq<string>, clientOrigin: string): Search {
    if origins == [] then NotFound
    else if site.origin(origins[0]).None? then Threw
    else if site.origin(origins[0]) == Some(clientOrigin) then Found(origins[0])
    else FindTrusted(site, origins[1..], clientOrigin)
  }

  /** The client that an unverified request object names; `peekPayload` reads up to the first tilde. */
  function ClaimedClient(env: Env, jwt: string): Option<string> {
    match env.suite.peek(Parse(jwt).jws)
    case Some(p) => if "client_id" in p && p["client_id"].Str? && p["client_id"].s != "" then Some(p["client_id"].s) else None
    case None => None
  }

  /** The configured entry whose JWKS the wallet asks for. */
  function TrustedEntry(env: Env, cfg: Config, clientId: string): Option<string> {
    match env.site.origin(clientId)
    case None => None
    case Some(origin) =>
      match FindTrusted(env.site, cfg.trustedVerifierOrigins, origin)
      case Found(entry) => Some(entry)
      case _ => None
  }

  /** The signed request object inside the fetched JSON. */
  function SignedRequest(raw: Option<Json>): Option<string> {
    var jwt := Field(raw, "request");
    match jwt
    case Some(Str(t)) => if t == "" then None else Some(t)
    case _ => None
  }

  /** The JWKS published at a configured entry, as this fetch received it. */
  function PublishedJwks(env: Env, server: Server, entry: string): Option<Json> {
    var outcome := Fetch(env.site, server, entry + "/jwks.json", GET).0;
    if outcome.Response? && outcome.reply.Reply? then env.parseJson(outcome.reply.text) else None
  }

  /** `resolveRequest`: fetch the request object, look its client up, fetch that client's key, verify. */
  function ResolveRequest(env: Env, cfg: Config, servers: (Server, Server), requestUri: string, now: int): (Option<Payload>, seq<Request>) {
    var (raw, log) := FetchJson(env, servers.0, requestUri);
    match SignedRequest(raw)
    case None => (None, log)
    case Some(jwt) =>
      match ClaimedClient(env, jwt)
      case None => (None, log)
      case Some(clientId) =>
        match TrustedEntry(env, cfg, clientId)
        case None => (None, log)
        case Some(entry) =>
          var log' := Fetch(env.site, servers.1, entry + "/jwks.json", GET).1;
          match FirstKey(PublishedJwks(env, servers.1, entry))
          case None => (None, log + log')
          case Some(jwk) =>
            match R.VerifyPresentationRequest(env.suite, jwt, map[clientId := jwk], cfg.walletAudience, now)
            case Refused(_) => (None, log + log')
            case Verified(payload) => (Some(payload), log + log')
  }

  // -------------------------------------------------------- build the vp_token

  function FindSdJwt(credentials: seq<StoredCredential>, vcts: Option<seq<string>>): Option<string> {
    if credentials == [] then None
    else
      var c := credentials[0];
      if c.SdJwtVc? && vcts.Some? && c.vct.Some? && c.vct.value in vcts.value then Some(c.sdJwt) else FindSdJwt(credentials[1..], vcts)
  }

  function FindMdoc(credentials: seq<StoredCredential>, doctype: Option<string>): Option<D.IssuedMdoc> {
    if credentials == [] then None
    else
      var c := credentials[0];
      if c.MsoMdoc? && c.docType == doctype
      then if c.mdoc != "" && c.docType.Some? && c.docType.value != "" then Some(D.IssuedMdoc(c.docType.value, c.mdoc)) else None
      else FindMdoc(credentials[1..], doctype)
  }

  /** The claim names to reveal: the override, or the last step of every requested path. */
  function ToReveal(paths: seq<Q.Path>, revealOverride: Option<seq<string>>): seq<string> {
    match revealOverride
    case Some(names) => names
    case None => LastSteps(paths)
  }

  function LastSteps(paths: seq<Q.Path>): seq<string> {
    if paths == [] then []
    else
      var before, p := LastSteps(paths[..|paths| - 1]), paths[|paths| - 1];
      if p == [] then before else before + [p[|p| - 1]]
  }

  /** The elements to reveal by namespace, in request order, filtered by the override. A path without an element
      reveals nothing. */
  function GroupReveal(paths: seq<Q.Path>, revealOverride: Option<seq<string>>): D.Reveal {
    if paths == [] then map[]
    else
      var before, p := GroupReveal(paths[..|paths| - 1], revealOverride), paths[|paths| - 1];
      if |p| < 2 || (revealOverride.Some? && p[1] !in revealOverride.value) then before
      else before[p[0] := D.Wanted(before, p[0]) + [p[1]]]
  }

  /** The grouping loop of `buildMdocPresentation`. */
  method GroupByNamespace(paths: seq<Q.Path>, revealOverride: Option<seq<string>>) returns (shown: D.Reveal)
    ensures shown == GroupReveal(paths, revealOverride)
  {
    shown := map[];
    for i := 0 to |paths|
      invariant shown == GroupReveal(paths[..i], revealOverride)
    {
      assert paths[..i + 1][..i] == paths[..i];
      if |paths[i]| < 2 { continue; }
      var ns, element := paths[i][0], paths[i][1];
      if revealOverride.Some? && element !in revealOverride.value { continue; }
      if ns !in shown { shown := shown[ns := []]; }
      shown := shown[ns := shown[ns] + [element]];
    }
    assert paths[..|paths|] == paths;
  }

  lemma {:induction false} LastStepsExactly(paths: seq<Q.Path>, name: string)
    requires forall p :: p in paths ==> |p| == 1
    ensures name in LastSteps(paths) <==> [name] in paths
  {
    if paths != [] {
      var before, p := paths[..|paths| - 1], paths[|paths| - 1];
      LastStepsExactly(before, name);
      assert paths == before + [p] && p == [p[0]];
      assert [name] in paths <==> [name] in before || p[0] == name;
    }
  }

  /** What is revealed in a namespace: the requested elements that the override lets through. */
  lemma {:induction false} GroupedExactly(paths: seq<Q.Path>, revealOverride: Option<seq<string>>, ns: string, element: string)
    requires forall p :: p in paths ==> |p| == 2
    ensures element in D.Wanted(GroupReveal(paths, revealOverride), ns) <==>
            [ns, element] in paths && (revealOverride.Some? ==> element in revealOverride.value)
  {
    if paths != [] {
      var before, p := paths[..|paths| - 1], paths[|paths| - 1];
      GroupedExactly(before, revealOverride, ns, element);
      InOneMore(before, p, ns, element);
      assert paths == before + [p];
      WantedOneMore(GroupReveal(before, revealOverride), p, ns, element);
    }
  }

  lemma InOneMore(before: seq<Q.Path>, p: Q.Path, ns: string, element: string)
    requires |p| == 2
    ensures [ns, element] in before + [p] <==> [ns, element] in before || (p[0] == ns && p[1] == element)
  {
    assert p == [p[0], p[1]];
  }

  lemma WantedOneMore(before: D.Reveal, p: Q.Path, ns: string, element: string)
    requires |p| >= 2
    ensures element in D.Wanted(before[p[0] := D.Wanted(before, p[0]) + [p[1]]], ns) <==>
            element in D.Wanted(before, ns) || (p[0] == ns && p[1] == element)
  {
  }

  /** The verified request, as the wallet reads it. */
  datatype VerifiedRequest = VerifiedRequest(clientId: string, nonce: string, responseUri: string, mdoc: bool, query: Query)

  function ReadRequest(env: Env, p: Payload): Option<VerifiedRequest> {
    var clientId, nonce, uri := Get(p, "client_id"), Get(p, "nonce"), Get(p, "response_uri");
    if clientId.Some? && clientId.value.Str? && nonce.Some? && nonce.value.Str? && uri.Some? && uri.value.Str? && env.query(p).Some?
    then Some(VerifiedRequest(clientId.value.s, nonce.value.s, uri.value.s, Get(p, "format") == Some(Str("mso_mdoc")), env.query(p).value))
    else None
  }

  function BuildPresentation(env: Env, key: PrivateKey, credentials: seq<StoredCredential>, r: VerifiedRequest, revealOverride: Option<seq<string>>, now: int): Option<string> {
    var paths := r.query.paths;
    if r.mdoc then
      match FindMdoc(credentials, r.query.doctypeValue)
      case None => None
      case Some(issued) => D.CreatePresentation(env.codecs, issued, key, GroupReveal(paths, revealOverride), r.clientId, r.nonce)
    else
      match FindSdJwt(credentials, r.query.vctValues)
      case None => None
      case Some(sdJwt) =>
        if sdJwt == "" then None
        else S.CreatePresentation(env.suite, sdJwt, key, ToReveal(paths, revealOverride), r.clientId, r.nonce, now)
  }

  // ------------------------------------------------------------------ present

  /** The vp_token and where to post it, or nothing; and the requests made so far. */
  datatype Ready = Ready(token: string, responseUri: string, clientId: string)

  function Prepare(env: Env, cfg: Config, key: PrivateKey, credentials: seq<StoredCredential>, servers: (Server, Server),
                   requestUri: string, revealOverride: Option<seq<string>>, now: int): (Option<Ready>, seq<Request>)
  {
    var (payload, log) := ResolveRequest(env, cfg, servers, requestUri, now);
    if payload.None? then (None, log)
    else match ReadRequest(env, payload.value)
      case None => (None, log)
      case Some(r) =>
        match BuildPresentation(env, key, credentials, r, revealOverride, now)
        case None => (None, log)
        case Some(token) =>
          var origin := env.site.origin(r.responseUri);
          if origin.None? || origin != env.site.origin(r.clientId) then (None, log)
          else (Some(Ready(token, r.responseUri, r.clientId)), log)
  }

  /** `present`: the JSON answer, or `None` when it throws; and every request sent. */
  function Presentation(env: Env, cfg: Config, key: PrivateKey, credentials: seq<StoredCredential>, servers: (Server, Server, Server),
                        requestUri: string, revealOverride: Option<seq<string>>, now: int): (Option<Json>, seq<Request>)
  {
    var (ready, log) := Prepare(env, cfg, key, credentials, (servers.0, servers.1), requestUri, revealOverride, now);
    match ready
    case None => (None, log)
    case Some(Ready(token, responseUri, _)) =>
      var (outcome, log') := Fetch(env.site, servers.2, responseUri, PostJson(env.vpBody(token), map[]));
      (if outcome.Response? && outcome.reply.Reply? then env.parseJson(outcome.reply.text) else None, log + log')
  }

  class Wallet {
    const env: Env
    const cfg: Config
    const key: PrivateKey
    var credentials: seq<StoredCredential>

    constructor (env: Env, cfg: Config, key: PrivateKey)
      ensures credentials == [] && this.env == env && this.cfg == cfg && this.key == key
    {
      this.env, this.cfg, this.key, this.credentials := env, cfg, key, [];
    }

    /** The tail of both issuance flows: prove possession, ask for the credential, store it. */
    method FetchCredential(server: Server, issuer: string, accessToken: string, cNonce: string, wantsMdoc: bool, now: int)
      returns (stored: Option<StoredCredential>, log: seq<Request>)
      modifies this
      ensures credentials == if stored.Some? then old(credentials) + [stored.value] else old(credentials)
      ensures var proof := env.suite.sign(key, "openid4vci-proof+jwt", map["iat" := Num(now), "nonce" := Str(cNonce), "aud" := Str(issuer)]);
              var (outcome, requests) := Fetch(env.site, server, issuer + "/credential",
                                               PostJson(env.credentialBody(wantsMdoc, proof), map["authorization" := "Bearer " + accessToken]));
              && log == requests
              && stored == if outcome.Response? && outcome.reply.Reply? then ReadCredential(env, env.parseJson(outcome.reply.text)) else None
      ensures forall i :: 0 <= i < |log| && CarriesSecret(log[i].init) ==> env.site.origin(log[i].url) == env.site.origin(issuer + "/credential")
    {
      var proof := env.suite.sign(key, "openid4vci-proof+jwt", map["iat" := Num(now), "nonce" := Str(cNonce), "aud" := Str(issuer)]);
      var init := PostJson(env.credentialBody(wantsMdoc, proof), map["authorization" := "Bearer " + accessToken]);
      var outcome;
      outcome, log := RunFetch(env.site, server, issuer + "/credential", init);
      SecretsStayWithTheFirstOrigin(env.site, server, issuer + "/credential", init);
      hide Fetch, CarriesSecret;
      stored := None;
      if outcome.Response? && outcome.reply.Reply? {
        stored := ReadCredential(env, env.parseJson(outcome.reply.text));
      }
      if stored.Some? {
        credentials := credentials + [stored.value];
      }
    }

    /** `present`: the JSON answer, or `None` when it throws; and every request sent, confined as promised. */
    method Present(servers: (Server, Server, Server), requestUri: string, revealOverride: Option<seq<string>>, now: int)
      returns (result: Option<Json>, log: seq<Request>)
      ensures PayloadIsInTheText(env.suite) ==>
                Confines(env, cfg, key, credentials, (servers.0, servers.1), requestUri, revealOverride, now, log)
      ensures result.Some? ==> exists i :: 0 <= i < |log| && log[i].init.body.Some?
      ensures (result, log) == Presentation(env, cfg, key, credentials, servers, requestUri, revealOverride, now)
    {
      hide Confines, Prepare;
      if PayloadIsInTheText(env.suite) {
        VpTokenStaysWithTheVerifiedClient(env, cfg, key, credentials, servers, requestUri, revealOverride, now);
      }
      var (ready, requests) := Prepare(env, cfg, key, credentials, (servers.0, servers.1), requestUri, revealOverride, now);
      log := requests;
      if ready.None? {
        return None, log;
      }
      var init := PostJson(env.vpBody(ready.value.token), map[]);
      var outcome, posted := RunFetch(env.site, servers.2, ready.value.responseUri, init);
      FirstRequestIsSent(env.site, servers.2, ready.value.responseUri, init);
      hide Fetch;
      log := log + posted;
      result := if outcome.Response? && outcome.reply.Reply? then env.parseJson(outcome.reply.text) else None;
      if result.Some? {
        assert log[|requests|].init.body.Some?;
      }
    }
  }

  /** A fetch that gets an answer sent its first request as given. */
  lemma FirstRequestIsSent(w: Site, server: Server, url: string, init: Init)
    ensures var (outcome, log) := Fetch(w, server, url, init);
            outcome.Response? ==> log != [] && log[0] == Request(url, init)
  {
    if w.safe(url) {
      var sent := [Request(url, init)];
      var decision := SafeFetch.Decide(w, url, server(sent));
      if decision.Follow? {
        HopsExtend(w, server, 1, decision.next, NextInit(w, init, server(sent).status, url, decision.next), sent);
      }
    }
  }

  lemma {:induction false} HopsExtend(w: Site, server: Server, hop: nat, current: string, init: Init, sent: seq<Request>)
    ensures sent <= Hops(w, server, hop, current, init, sent).1
    decreases MAX_REDIRECTS + 1 - hop
  {
    if hop <= MAX_REDIRECTS {
      var log := sent + [Request(current, init)];
      var decision := SafeFetch.Decide(w, current, server(log));
      if decision.Follow? {
        HopsExtend(w, server, hop + 1, decision.next, NextInit(w, init, server(log).status, current, decision.next), log);
      }
    }
  }

  function ReadCredential(env: Env, data: Option<Json>): Option<StoredCredential> {
    var credential, doctype := Field(data, "credential"), Field(data, "doctype");
    if credential.None? || !credential.value.Str? || credential.value.s == "" then None
    else if Field(data, "format") == Some(Str("mso_mdoc")) then
      Some(MsoMdoc(credential.value.s, if doctype.Some? && doctype.value.Str? then Some(doctype.value.s) else None))
    else match env.suite.peek(Parse(credential.value.s).jws)
      case None => None
      case Some(p) => Some(SdJwtVc(credential.value.s, if "vct" in p && p["vct"].Str? then Some(p["vct"].s) else None))
  }

  // ---------------------------------------------------------------- theorems

  lemma {:induction false} FoundIsTrusted(site: Site, origins: seq<string>, clientOrigin: string)
    requires FindTrusted(site, origins, clientOrigin).Found?
    ensures FindTrusted(site, origins, clientOrigin).origin in origins
    ensures site.origin(FindTrusted(site, origins, clientOrigin).origin) == Some(clientOrigin)
  {
    if site.origin(origins[0]) != Some(clientOrigin) {
      FoundIsTrusted(site, origins[1..], clientOrigin);
    }
  }

  ghost predicate NoSecrets(log: seq<Request>) {
    forall i :: 0 <= i < |log| ==> !CarriesSecret(log[i].init)
  }

  /** A request that starts without secrets never gains any. */
  lemma {:induction false} HopsGainNothing(w: Site, server: Server, hop: nat, current: string, init: Init, sent: seq<Request>)
    requires hop <= MAX_REDIRECTS + 1 && NoSecrets(sent) && !CarriesSecret(init)
    ensures NoSecrets(Hops(w, server, hop, current, init, sent).1)
    decreases MAX_REDIRECTS + 1 - hop
  {
    if hop <= MAX_REDIRECTS {
      var log := sent + [Request(current, init)];
      var decision := SafeFetch.Decide(w, current, server(log));
      if decision.Follow? {
        StrippedHasNoCredentials(init.headers);
        HopsGainNothing(w, server, hop + 1, decision.next, NextInit(w, init, server(log).status, current, decision.next), log);
      }
    }
  }

  lemma PlainFetchIsHarmless(w: Site, server: Server, url: string)
    ensures var log := Fetch(w, server, url, GET).1;
            NoSecrets(log) && |log| <= 6 && forall i :: 0 <= i < |log| ==> w.safe(log[i].url)
  {
    SecretsStayWithTheFirstOrigin(w, server, url, GET);
    if w.safe(url) {
      HopsGainNothing(w, server, 0, url, GET, []);
    }
  }

  /** The request object that the wallet fetched names this client; a configured origin equal to the client's
      published the key that opens it; and it is addressed to this wallet. */
  ghost predicate VerifiedClient(env: Env, cfg: Config, servers: (Server, Server), requestUri: string, clientId: string, payload: Payload, now: int) {
    var jwt := SignedRequest(FetchJson(env, servers.0, requestUri).0);
    var entry := TrustedEntry(env, cfg, clientId);
    && jwt.Some? && Get(payload, "client_id") == Some(Str(clientId)) && R.AudienceIs(payload, cfg.walletAudience)
    && entry.Some? && entry.value in cfg.trustedVerifierOrigins
    && env.site.origin(clientId).Some? && env.site.origin(entry.value) == env.site.origin(clientId)
    && var jwk := FirstKey(PublishedJwks(env, servers.1, entry.value));
       jwk.Some? && env.suite.open(jwt.value, jwk.value, R.REQUEST_OBJECT_TYP, now) == Some(payload)
  }

  lemma ResolvedIsVerified(env: Env, cfg: Config, servers: (Server, Server), requestUri: string, now: int)
    requires PayloadIsInTheText(env.suite)
    ensures var (payload, log) := ResolveRequest(env, cfg, servers, requestUri, now);
            && NoSecrets(log) && |log| <= 12 && (forall i :: 0 <= i < |log| ==> env.site.safe(log[i].url))
            && (payload.Some? ==> exists clientId :: VerifiedClient(env, cfg, servers, requestUri, clientId, payload.value, now))
  {
    PlainFetchIsHarmless(env.site, servers.0, requestUri);
    var raw := FetchJson(env, servers.0, requestUri).0;
    hide Fetch, CarriesSecret;
    if SignedRequest(raw).Some? && ClaimedClient(env, SignedRequest(raw).value).Some? {
      var jwt := SignedRequest(raw).value;
      var clientId := ClaimedClient(env, jwt).value;
      if TrustedEntry(env, cfg, clientId).Some? {
        var entry := TrustedEntry(env, cfg, clientId).value;
        PlainFetchIsHarmless(env.site, servers.1, entry + "/jwks.json");
        FoundIsTrusted(env.site, cfg.trustedVerifierOrigins, env.site.origin(clientId).value);
        var payload := ResolveRequest(env, cfg, servers, requestUri, now).0;
        if payload.Some? {
          hide FetchJson, SignedRequest, FirstKey, NoSecrets;
          assert env.suite.peek(jwt) == Some(payload.value);
          assert VerifiedClient(env, cfg, servers, requestUri, clientId, payload.value, now);
        }
      }
    }
  }

  // ------------------------------------------------ what a presentation shows

  /** The credential answers the query: its type is among those asked for, or its document type is the one asked for. */
  predicate Serves(c: StoredCredential, r: VerifiedRequest) {
    if r.mdoc then c.MsoMdoc? && c.docType == r.query.doctypeValue
    else c.SdJwtVc? && c.vct.Some? && r.query.vctValues.Some? && c.vct.value in r.query.vctValues.value
  }

  /** The first credential of the store that answers the query. */
  ghost predicate FirstServing(credentials: seq<StoredCredential>, r: VerifiedRequest, i: nat) {
    i < |credentials| && Serves(credentials[i], r) && forall j :: 0 <= j < i ==> !Serves(credentials[j], r)
  }

  lemma {:induction false} SearchFindsTheFirst(credentials: seq<StoredCredential>, r: VerifiedRequest)
    ensures forall i: nat :: FirstServing(credentials, r, i) ==>
              if r.mdoc
              then FindMdoc(credentials, r.query.doctypeValue) ==
                   (if credentials[i].mdoc != "" && credentials[i].docType.Some? && credentials[i].docType.value != ""
                    then Some(D.IssuedMdoc(credentials[i].docType.value, credentials[i].mdoc)) else None)
              else FindSdJwt(credentials, r.query.vctValues) == Some(credentials[i].sdJwt)
    ensures (forall i :: 0 <= i < |credentials| ==> !Serves(credentials[i], r)) ==>
              if r.mdoc then FindMdoc(credentials, r.query.doctypeValue) == None else FindSdJwt(credentials, r.query.vctValues) == None
  {
    if credentials != [] {
      var rest := credentials[1..];
      SearchFindsTheFirst(rest, r);
      forall i: nat | FirstServing(credentials, r, i) && i > 0
        ensures FirstServing(rest, r, i - 1)
      {
        assert forall j :: 0 <= j < i - 1 ==> rest[j] == credentials[j + 1];
      }
      assert forall i :: 0 <= i < |rest| ==> rest[i] == credentials[i + 1];
    }
  }

  /** Either a first credential answers the query, or none does. */
  lemma {:induction false} FirstOrNone(credentials: seq<StoredCredential>, r: VerifiedRequest, n: nat)
    requires n <= |credentials|
    ensures (exists i: nat :: FirstServing(credentials, r, i)) || (forall j :: 0 <= j < n ==> !Serves(credentials[j], r))
  {
    if n > 0 {
      FirstOrNone(credentials, r, n - 1);
      if (forall j :: 0 <= j < n - 1 ==> !Serves(credentials[j], r)) && Serves(credentials[n - 1], r) {
        assert FirstServing(credentials, r, n - 1);
      }
    }
  }

  /** The claim name is to be revealed: named by the override, or else the last step of a requested path. */
  ghost predicate Asked(paths: seq<Q.Path>, revealOverride: Option<seq<string>>, name: string) {
    match revealOverride
    case Some(names) => name in names
    case None => exists p :: p in paths && p != [] && p[|p| - 1] == name
  }

  /** The element is to be revealed: requested in that namespace, and let through by the override. */
  ghost predicate AskedIn(paths: seq<Q.Path>, revealOverride: Option<seq<string>>, ns: string, element: string) {
    (exists p :: p in paths && |p| >= 2 && p[0] == ns && p[1] == element) && (revealOverride.Some? ==> element in revealOverride.value)
  }

  lemma {:induction false} RevealedIsAsked(paths: seq<Q.Path>, revealOverride: Option<seq<string>>, name: string)
    ensures name in ToReveal(paths, revealOverride) <==> Asked(paths, revealOverride, name)
  {
    if revealOverride.None? && paths != [] {
      var before, p := paths[..|paths| - 1], paths[|paths| - 1];
      RevealedIsAsked(before, None, name);
      assert paths == before + [p];
    }
  }

  lemma {:induction false} GroupedIsAsked(paths: seq<Q.Path>, revealOverride: Option<seq<string>>, ns: string, element: string)
    ensures element in D.Wanted(GroupReveal(paths, revealOverride), ns) <==> AskedIn(paths, revealOverride, ns, element)
  {
    if paths != [] {
      var before, p := paths[..|paths| - 1], paths[|paths| - 1];
      GroupedIsAsked(before, revealOverride, ns, element);
      assert paths == before + [p];
      if |p| >= 2 && (revealOverride.Some? ==> p[1] in revealOverride.value) {
        var g := GroupReveal(before, revealOverride);
        assert GroupReveal(paths, revealOverride) == g[p[0] := D.Wanted(g, p[0]) + [p[1]]];
        WantedOneMore(g, p, ns, element);
      }
    }
  }

  /** These are, in order, the disclosures at the listed positions, which are those of the names asked for. */
  ghost predicate Selects(s: Suite, ds: seq<string>, paths: seq<Q.Path>, revealOverride: Option<seq<string>>, kept: seq<string>, at: seq<nat>) {
    && |kept| == |at| && (forall a :: 0 <= a < |at| ==> at[a] < |ds| && kept[a] == ds[at[a]])
    && (forall a, b :: 0 <= a < b < |at| ==> at[a] < at[b])
    && (forall i :: 0 <= i < |ds| ==> s.decode(ds[i]).Some? && (i in at <==> Asked(paths, revealOverride, s.decode(ds[i]).value.name)))
  }

  lemma SelectsOneMore(s: Suite, ds: seq<string>, d: string, paths: seq<Q.Path>, revealOverride: Option<seq<string>>, kept: seq<string>, at: seq<nat>)
    requires Selects(s, ds, paths, revealOverride, kept, at) && s.decode(d).Some?
    ensures if Asked(paths, revealOverride, s.decode(d).value.name) then Selects(s, ds + [d], paths, revealOverride, kept + [d], at + [|ds|])
            else Selects(s, ds + [d], paths, revealOverride, kept, at)
  {
    hide Asked;
    var all := ds + [d];
    assert all[|ds|] == d && forall i :: 0 <= i < |ds| ==> all[i] == ds[i];
    assert |ds| !in at;
    var at' := at + [|ds|];
    assert forall i :: i in at' <==> i in at || i == |ds|;
  }

  lemma {:induction false} KeepSelects(s: Suite, ds: seq<string>, paths: seq<Q.Path>, revealOverride: Option<seq<string>>)
    ensures var kept := S.Keep(s, ds, ToReveal(paths, revealOverride));
            kept.Some? ==> exists at: seq<nat> :: Selects(s, ds, paths, revealOverride, kept.value, at)
  {
    hide ToReveal, Asked, Selects;
    var wanted := ToReveal(paths, revealOverride);
    if ds == [] {
      NothingSelected(s, paths, revealOverride);
    } else if S.Keep(s, ds, wanted).Some? {
      var before, d := ds[..|ds| - 1], ds[|ds| - 1];
      KeepSelects(s, before, paths, revealOverride);
      var kept := S.Keep(s, before, wanted).value;
      var at: seq<nat> :| Selects(s, before, paths, revealOverride, kept, at);
      RevealedIsAsked(paths, revealOverride, s.decode(d).value.name);
      SelectsOneMore(s, before, d, paths, revealOverride, kept, at);
      assert ds == before + [d];
    }
  }

  lemma NothingSelected(s: Suite, paths: seq<Q.Path>, revealOverride: Option<seq<string>>)
    ensures Selects(s, [], paths, revealOverride, [], [])
  {
  }

  /** The token shows this stored SD-JWT: its JWS, of its disclosures those asked for, and a key binding signed over just
      that for the client and nonce of the request. */
  ghost predicate ShowsSdJwt(s: Suite, key: PrivateKey, text: string, r: VerifiedRequest, revealOverride: Option<seq<string>>, now: int, token: string) {
    exists kept, at: seq<nat> ::
      && Selects(s, Parse(text).disclosures, r.query.paths, revealOverride, kept, at)
      && var head := Join([Parse(text).jws] + kept, '~') + "~";
         token == head + s.sign(key, "kb+jwt", map["iat" := Num(now), "nonce" := Str(r.nonce), "aud" := Str(r.clientId), "sd_hash" := Str(s.hash(head))])
  }

  /** The filtered namespaces hold exactly the items asked for, each in its namespace. */
  ghost predicate Filters(c: D.Codecs, nss: seq<D.NameSpace>, paths: seq<Q.Path>, revealOverride: Option<seq<string>>, filtered: seq<D.NameSpace>) {
    && (forall ns, b :: HoldsItem(filtered, ns, b) <==>
          HoldsItem(nss, ns, b) && c.decItem(b).Some? && AskedIn(paths, revealOverride, ns, c.decItem(b).value.element))
    && (forall n :: 0 <= n < |filtered| ==> filtered[n].items != [])
  }

  ghost predicate HoldsItem(nss: seq<D.NameSpace>, ns: string, b: D.Bytes) {
    exists n :: 0 <= n < |nss| && nss[n].name == ns && b in nss[n].items
  }

  lemma {:induction false} KeptItemsAreAsked(c: D.Codecs, items: seq<D.Bytes>, wanted: seq<string>, b: D.Bytes)
    requires D.KeepItems(c, items, wanted).Some?
    ensures b in D.KeepItems(c, items, wanted).value <==> b in items && c.decItem(b).Some? && c.decItem(b).value.element in wanted
  {
    if items != [] {
      KeptItemsAreAsked(c, items[..|items| - 1], wanted, b);
      assert items == items[..|items| - 1] + [items[|items| - 1]];
    }
  }

  lemma HoldsOneMore(nss: seq<D.NameSpace>, last: D.NameSpace, ns: string, b: D.Bytes)
    ensures HoldsItem(nss + [last], ns, b) <==> HoldsItem(nss, ns, b) || (last.name == ns && b in last.items)
  {
    var all := nss + [last];
    assert forall n :: 0 <= n < |nss| ==> all[n] == nss[n];
    assert all[|nss|] == last;
  }

  lemma {:induction false} KeptNameSpacesFilter(c: D.Codecs, nss: seq<D.NameSpace>, paths: seq<Q.Path>, revealOverride: Option<seq<string>>)
    ensures var kept := D.KeepNameSpaces(c, nss, GroupReveal(paths, revealOverride)); kept.Some? ==> Filters(c, nss, paths, revealOverride, kept.value)
  {
    var shown := GroupReveal(paths, revealOverride);
    var kept := D.KeepNameSpaces(c, nss, shown);
    if nss != [] && kept.Some? {
      var before, last := nss[..|nss| - 1], nss[|nss| - 1];
      KeptNameSpacesFilter(c, before, paths, revealOverride);
      var kept', items := D.KeepNameSpaces(c, before, shown).value, D.KeepItems(c, last.items, D.Wanted(shown, last.name)).value;
      assert nss == before + [last];
      forall ns, b
        ensures HoldsItem(kept.value, ns, b) <==>
                HoldsItem(nss, ns, b) && c.decItem(b).Some? && AskedIn(paths, revealOverride, ns, c.decItem(b).value.element)
      {
        HoldsOneMore(before, last, ns, b);
        HoldsOneMore(kept', D.NameSpace(last.name, items), ns, b);
        KeptItemsAreAsked(c, last.items, D.Wanted(shown, last.name), b);
        if c.decItem(b).Some? { GroupedIsAsked(paths, revealOverride, ns, c.decItem(b).value.element); }
        hide HoldsItem, AskedIn;
      }
    }
  }

  /** The token shows this stored mdoc: its issuer signature and document type, of its items those asked for, and a device
      signature over the client, nonce and document type. */
  ghost predicate ShowsMdoc(c: D.Codecs, key: PrivateKey, text: string, docType: string, r: VerifiedRequest, revealOverride: Option<seq<string>>, token: string) {
    var signed := c.decSigned(c.fromText(text));
    && signed.Some? && signed.value.nameSpaces.Some?
    && exists filtered ::
         && Filters(c, signed.value.nameSpaces.value, r.query.paths, revealOverride, filtered)
         && var auth := c.encAuth(D.DeviceAuth(Some(r.clientId), Some(r.nonce), docType));
            token == c.toText(c.encResponse(D.Document(
                       Some(docType), Some(D.IssuerSigned(Some(filtered), signed.value.issuerAuth)),
                       Some(D.Sign1(c.es256Header, auth, c.sign(key, c.toBeSigned(c.es256Header, auth)))))))
  }

  /** The token shows this credential. */
  ghost predicate Shows(env: Env, key: PrivateKey, c: StoredCredential, r: VerifiedRequest, revealOverride: Option<seq<string>>, now: int, token: string) {
    match c
    case SdJwtVc(text, _) => text != "" && ShowsSdJwt(env.suite, key, text, r, revealOverride, now, token)
    case MsoMdoc(text, docType) =>
      text != "" && docType.Some? && docType.value != "" && ShowsMdoc(env.codecs, key, text, docType.value, r, revealOverride, token)
  }

  lemma SdJwtIsShown(s: Suite, key: PrivateKey, text: string, r: VerifiedRequest, revealOverride: Option<seq<string>>, now: int)
    ensures var p := S.CreatePresentation(s, text, key, ToReveal(r.query.paths, revealOverride), r.clientId, r.nonce, now);
            p.Some? ==> ShowsSdJwt(s, key, text, r, revealOverride, now, p.value)
  {
    KeepSelects(s, Parse(text).disclosures, r.query.paths, revealOverride);
    hide S.Keep, Parse, Join, Selects, ToReveal;
  }

  lemma MdocIsShown(c: D.Codecs, key: PrivateKey, issued: D.IssuedMdoc, r: VerifiedRequest, revealOverride: Option<seq<string>>)
    ensures var p := D.CreatePresentation(c, issued, key, GroupReveal(r.query.paths, revealOverride), r.clientId, r.nonce);
            p.Some? ==> ShowsMdoc(c, key, issued.issuerSigned, issued.docType, r, revealOverride, p.value)
  {
    var signed := c.decSigned(c.fromText(issued.issuerSigned));
    if signed.Some? && signed.value.nameSpaces.Some? {
      KeptNameSpacesFilter(c, signed.value.nameSpaces.value, r.query.paths, revealOverride);
    }
    hide D.KeepNameSpaces, Filters, GroupReveal;
  }

  /** Whatever is built shows the first stored credential that answers the query; and when there is none, nothing is. */
  lemma BuiltIsShown(env: Env, key: PrivateKey, credentials: seq<StoredCredential>, r: VerifiedRequest, revealOverride: Option<seq<string>>, now: int)
    ensures var token := BuildPresentation(env, key, credentials, r, revealOverride, now);
            token.Some? ==> exists i: nat :: FirstServing(credentials, r, i) && Shows(env, key, credentials[i], r, revealOverride, now, token.value)
  {
    SearchFindsTheFirst(credentials, r);
    FirstOrNone(credentials, r, |credentials|);
    if i: nat :| FirstServing(credentials, r, i) {
      SdJwtIsShown(env.suite, key, (if credentials[i].SdJwtVc? then credentials[i].sdJwt else ""), r, revealOverride, now);
      if r.mdoc && FindMdoc(credentials, r.query.doctypeValue).Some? {
        MdocIsShown(env.codecs, key, FindMdoc(credentials, r.query.doctypeValue).value, r, revealOverride);
      }
      hide FindSdJwt, FindMdoc, S.CreatePresentation, D.CreatePresentation, ShowsSdJwt, ShowsMdoc, ToReveal, GroupReveal;
      assert Serves(credentials[i], r);
    }
  }

  /** The body of a request carries a token that shows the first stored credential that answers this very request. */
  ghost predicate Answers(env: Env, key: PrivateKey, credentials: seq<StoredCredential>, revealOverride: Option<seq<string>>, now: int,
                          body: string, payload: Payload)
  {
    var r := ReadRequest(env, payload);
    && r.Some?
    && exists token, i: nat ::
         body == env.vpBody(token) && FirstServing(credentials, r.value, i) && Shows(env, key, credentials[i], r.value, revealOverride, now, token)
  }

  lemma BuiltAnswers(env: Env, key: PrivateKey, credentials: seq<StoredCredential>, revealOverride: Option<seq<string>>, now: int, payload: Payload, token: string)
    requires var r := ReadRequest(env, payload); r.Some? && BuildPresentation(env, key, credentials, r.value, revealOverride, now) == Some(token)
    ensures Answers(env, key, credentials, revealOverride, now, env.vpBody(token), payload)
  {
    BuiltIsShown(env, key, credentials, ReadRequest(env, payload).value, revealOverride, now);
    hide ReadRequest, BuildPresentation, FirstServing, Shows;
  }

  lemma PreparedIsVerified(env: Env, cfg: Config, key: PrivateKey, credentials: seq<StoredCredential>, servers: (Server, Server),
                           requestUri: string, revealOverride: Option<seq<string>>, now: int)
    requires PayloadIsInTheText(env.suite)
    ensures var (ready, log) := Prepare(env, cfg, key, credentials, servers, requestUri, revealOverride, now);
            && NoSecrets(log) && |log| <= 12 && (forall i :: 0 <= i < |log| ==> env.site.safe(log[i].url))
            && (ready.Some? ==>
                  && env.site.origin(ready.value.responseUri).Some?
                  && env.site.origin(ready.value.responseUri) == env.site.origin(ready.value.clientId)
                  && exists payload ::
                       && VerifiedClient(env, cfg, servers, requestUri, ready.value.clientId, payload, now)
                       && Answers(env, key, credentials, revealOverride, now, env.vpBody(ready.value.token), payload))
  {
    ResolvedIsVerified(env, cfg, servers, requestUri, now);
    hide ResolveRequest, NoSecrets, BuildPresentation, Answers;
    var payload := ResolveRequest(env, cfg, servers, requestUri, now).0;
    if payload.Some? && ReadRequest(env, payload.value).Some? {
      var clientId :| VerifiedClient(env, cfg, servers, requestUri, clientId, payload.value, now);
      assert ReadRequest(env, payload.value).value.clientId == clientId;
      var ready := Prepare(env, cfg, key, credentials, servers, requestUri, revealOverride, now).0;
      hide VerifiedClient;
      if ready.Some? { BuiltAnswers(env, key, credentials, revealOverride, now, payload.value, ready.value.token); }
      assert ready.Some? ==> Answers(env, key, credentials, revealOverride, now, env.vpBody(ready.value.token), payload.value);
    }
  }

  /** What the requests of one `present` call promise: every request that carries a body goes to the origin of the
      verified client, and its body is the presentation that answers that client's request; none carries a
      credential header, every URL passed the guard, and there are at most 18. */
  ghost predicate Confines(env: Env, cfg: Config, key: PrivateKey, credentials: seq<StoredCredential>, servers: (Server, Server),
                           requestUri: string, revealOverride: Option<seq<string>>, now: int, log: seq<Request>)
  {
    && |log| <= 18
    && (forall i :: 0 <= i < |log| ==> env.site.safe(log[i].url) && !HasCredentials(log[i].init))
    && (forall i :: 0 <= i < |log| && log[i].init.body.Some? ==>
          exists clientId, payload ::
            && VerifiedClient(env, cfg, servers, requestUri, clientId, payload, now)
            && env.site.origin(log[i].url) == env.site.origin(clientId)
            && Answers(env, key, credentials, revealOverride, now, log[i].init.body.value, payload))
  }

  /** The vp_token is confined so, whatever the three servers answer. */
  lemma VpTokenStaysWithTheVerifiedClient(
    env: Env, cfg: Config, key: PrivateKey, credentials: seq<StoredCredential>, servers: (Server, Server, Server),
    requestUri: string, revealOverride: Option<seq<string>>, now: int)
    requires PayloadIsInTheText(env.suite)
    ensures Confines(env, cfg, key, credentials, (servers.0, servers.1), requestUri, revealOverride, now,
                     Presentation(env, cfg, key, credentials, servers, requestUri, revealOverride, now).1)
  {
    hide Prepare, Answers, VerifiedClient, Fetch, HasCredentials, NoSecrets;
    PreparedIsVerified(env, cfg, key, credentials, (servers.0, servers.1), requestUri, revealOverride, now);
    var (ready, log) := Prepare(env, cfg, key, credentials, (servers.0, servers.1), requestUri, revealOverride, now);
    NothingCarried(log);
    if ready.Some? {
      PostIsConfined(env, servers.2, ready.value.responseUri, env.vpBody(ready.value.token));
    }
  }

  lemma NothingCarried(log: seq<Request>)
    requires NoSecrets(log)
    ensures forall i :: 0 <= i < |log| ==> log[i].init.body == None && !HasCredentials(log[i].init)
  {
    hide HasCredentials;
    forall i | 0 <= i < |log|
      ensures log[i].init.body == None && !HasCredentials(log[i].init)
    {
      assert !CarriesSecret(log[i].init);
    }
  }

  /** The requests of the final POST. */
  lemma PostIsConfined(env: Env, server: Server, url: string, body: string)
    ensures var log := Fetch(env.site, server, url, PostJson(body, map[])).1;
            && |log| <= 6
            && (forall i :: 0 <= i < |log| ==> env.site.safe(log[i].url) && !HasCredentials(log[i].init))
            && (forall i :: 0 <= i < |log| && log[i].init.body.Some? ==>
                  log[i].init.body == Some(body) && env.site.origin(log[i].url) == env.site.origin(url))
  {
    var init := PostJson(body, map[]);
    SecretsStayWithTheFirstOrigin(env.site, server, url, init);
    FetchAddsNothing(env.site, server, url, init);
    ContentTypeIsNoCredential(init);
    hide Fetch, HasCredentials;
    var log := Fetch(env.site, server, url, init).1;
    assert forall i :: 0 <= i < |log| ==> OnlyFrom(init, log[i].init);
  }

  lemma ContentTypeIsNoCredential(init: Init)
    requires forall name :: name in init.headers ==> name == "content-type"
    ensures !HasCredentials(init)
    ensures forall other: Init :: (forall name :: name in other.headers ==> name in init.headers) ==> !HasCredentials(other)
  {
    var n := Addresses.Lower("content-type");
    assert n[2] == 'n' && n[1] == 'o' && n[3] == 't';
    assert "authorization"[2] == 't' && "cookie"[3] == 'k' && "cookie2"[3] == 'k';
  }

  /** Redirects drop the body or keep it, and add no header. */
  ghost predicate NothingAdded(init: Init, log: seq<Request>) {
    forall i :: 0 <= i < |log| ==> OnlyFrom(init, log[i].init)
  }

  ghost predicate OnlyFrom(first: Init, init: Init) {
    (init.body.Some? ==> init.body == first.body) && forall name :: name in init.headers ==> name in first.headers
  }

  lemma {:induction false} HopsAddNothing(w: Site, server: Server, hop: nat, current: string, init: Init, sent: seq<Request>, first: Init)
    requires hop <= MAX_REDIRECTS + 1 && NothingAdded(first, sent) && OnlyFrom(first, init)
    ensures NothingAdded(first, Hops(w, server, hop, current, init, sent).1)
    decreases MAX_REDIRECTS + 1 - hop
  {
    if hop <= MAX_REDIRECTS {
      var log := sent + [Request(current, init)];
      var decision := SafeFetch.Decide(w, current, server(log));
      if decision.Follow? {
        HopsAddNothing(w, server, hop + 1, decision.next, NextInit(w, init, server(log).status, current, decision.next), log, first);
      }
    }
  }

  lemma FetchAddsNothing(w: Site, server: Server, url: string, init: Init)
    ensures NothingAdded(init, Fetch(w, server, url, init).1)
  {
    if w.safe(url) {
      HopsAddNothing(w, server, 0, url, init, [], init);
    }
  }

  /** Nothing that the first server sent leads the wallet to a trusted verifier: no answer, one past the size limit or that
      is not JSON, no signed request, or one that names no client or a client whose origin is not configured, or only
      behind an entry that is no URL. */
  ghost predicate LeadsNowhere(env: Env, cfg: Config, outcome: Outcome) {
    || !outcome.Response? || !outcome.reply.Reply? || |outcome.reply.text| > 1_048_576
    || var jwt := Field(env.parseJson(outcome.reply.text), "request");
       || jwt.None? || !jwt.value.Str? || jwt.value.s == "" || env.suite.peek(Parse(jwt.value.s).jws).None?
       || var client := Get(env.suite.peek(Parse(jwt.value.s).jws).value, "client_id");
          || client.None? || !client.value.Str? || client.value.s == "" || env.site.origin(client.value.s).None?
          || NoneTrusted(env.site, cfg.trustedVerifierOrigins, env.site.origin(client.value.s).value)
  }

  /** Every entry with this origin comes after one that is not a URL. */
  ghost predicate NoneTrusted(site: Site, origins: seq<string>, clientOrigin: string) {
    forall i :: 0 <= i < |origins| && site.origin(origins[i]) == Some(clientOrigin) ==> exists m :: 0 <= m < i && site.origin(origins[m]).None?
  }

  /** Then the wallet throws having sent the first GET only: no key is asked for and nothing is posted. */
  lemma UntrustedStopsThere(env: Env, cfg: Config, key: PrivateKey, credentials: seq<StoredCredential>, servers: (Server, Server, Server),
                            requestUri: string, revealOverride: Option<seq<string>>, now: int)
    requires LeadsNowhere(env, cfg, Fetch(env.site, servers.0, requestUri, GET).0)
    ensures Presentation(env, cfg, key, credentials, servers, requestUri, revealOverride, now) == (None, Fetch(env.site, servers.0, requestUri, GET).1)
  {
    NoSignedRequest(env, cfg, (servers.0, servers.1), requestUri, now);
    hide LeadsNowhere, ResolveRequest, Fetch, BuildPresentation, ReadRequest;
  }

  lemma NoSignedRequest(env: Env, cfg: Config, servers: (Server, Server), requestUri: string, now: int)
    requires LeadsNowhere(env, cfg, Fetch(env.site, servers.0, requestUri, GET).0)
    ensures ResolveRequest(env, cfg, servers, requestUri, now) == (None, Fetch(env.site, servers.0, requestUri, GET).1)
  {
    hide Fetch, Parse, R.VerifyPresentationRequest, PublishedJwks, FirstKey;
    var raw := FetchJson(env, servers.0, requestUri).0;
    if SignedRequest(raw).Some? && ClaimedClient(env, SignedRequest(raw).value).Some? {
      var client := ClaimedClient(env, SignedRequest(raw).value).value;
      if env.site.origin(client).Some? { NotFoundWhenUntrusted(env.site, cfg.trustedVerifierOrigins, env.site.origin(client).value); }
    }
  }

  lemma {:induction false} NotFoundWhenUntrusted(site: Site, origins: seq<string>, clientOrigin: string)
    ensures FindTrusted(site, origins, clientOrigin).Found? <==> !NoneTrusted(site, origins, clientOrigin)
  {
    if origins != [] {
      var rest := origins[1..];
      NotFoundWhenUntrusted(site, rest, clientOrigin);
      if site.origin(origins[0]).None? {
        assert NoneTrusted(site, origins, clientOrigin);
      } else if site.origin(origins[0]) != Some(clientOrigin) {
        RestTrusted(site, origins, clientOrigin);
      } else {
        assert !NoneTrusted(site, origins, clientOrigin);
      }
    }
  }

  lemma RestTrusted(site: Site, origins: seq<string>, clientOrigin: string)
    requires origins != [] && site.origin(origins[0]).Some? && site.origin(origins[0]) != Some(clientOrigin)
    ensures NoneTrusted(site, origins[1..], clientOrigin) <==> NoneTrusted(site, origins, clientOrigin)
  {
    var rest := origins[1..];
    if NoneTrusted(site, rest, clientOrigin) {
      forall i | 0 <= i < |origins| && site.origin(origins[i]) == Some(clientOrigin)
        ensures exists m :: 0 <= m < i && site.origin(origins[m]).None?
      {
        assert rest[i - 1] == origins[i];
        var m :| 0 <= m < i - 1 && site.origin(rest[m]).None?;
        assert origins[m + 1] == rest[m];
      }
    }
    if NoneTrusted(site, origins, clientOrigin) {
      forall i | 0 <= i < |rest| && site.origin(rest[i]) == Some(clientOrigin)
        ensures exists m :: 0 <= m < i && site.origin(rest[m]).None?
      {
        assert rest[i] == origins[i + 1];
        var m :| 0 <= m < i + 1 && site.origin(origins[m]).None?;
        assert origins[m] == rest[m - 1];
      }
    }
  }
}
